/** Searching the closure of a text under percent, JSON and XML decoding, with one state budget per decoder. */
module DecodeClosure {
  import opened TextModel
  import opened JsonEscapes
  import opened XmlEntities

  const PERCENT := 37
  const MAX_STATES := 16
  const MAX_XML_STATES := 16

  /** How many rounds each decoder changes the text in. */
  datatype Rounds = Rounds(percent: nat, json: nat, xml: nat)

  /**
   * Percent-decoding is a parameter. All that is asked of it: it acts only where there is a percent sign, and any
   * change shortens the text (section 2.1 of RFC 3986: three characters stand for one byte).
   */
  datatype Decoders = Decoders(percent: Text -> Text) {
    ghost predicate Valid() {
      forall t: Text :: percent(t) == t || (PERCENT in t && |percent(t)| < |t|)
    }

    function AfterPercent(t: Text): Text { percent(t) }

    function AfterJson(t: Text): Text { Decode(AfterPercent(t), Collapse) }

    function AfterXml(t: Text, decodeXml: bool): Text {
      if decodeXml then DecodeXmlEntitiesOnce(AfterJson(t)) else AfterJson(t)
    }

    lemma StepsShorten(t: Text, decodeXml: bool)
      requires Valid()
      ensures AfterPercent(t) == t || |AfterPercent(t)| < |t|
      ensures AfterJson(t) == AfterPercent(t) || |AfterJson(t)| < |AfterPercent(t)|
      ensures AfterXml(t, decodeXml) == AfterJson(t) || |AfterXml(t, decodeXml)| < |AfterJson(t)|
    {
      DecodeShortens(AfterPercent(t), Collapse);
      XmlDecodingShortens(AfterJson(t));
    }

    // ----- The reference closure: no budgets -----

    /** The texts one round examines: each decoder's result that differs from its input, and the preserved form. */
    predicate RoundHits(t: Text, decodeXml: bool, p: Text -> bool) {
      var percentDecoded, jsonDecoded, xmlDecoded := AfterPercent(t), AfterJson(t), AfterXml(t, decodeXml);
      var preserved := Decode(percentDecoded, Preserve);
      || (percentDecoded != t && p(percentDecoded))
      || (preserved != percentDecoded && p(preserved))
      || (jsonDecoded != percentDecoded && p(jsonDecoded))
      || (xmlDecoded != jsonDecoded && p(xmlDecoded))
    }

    /** Some decoded form of `t`, however deep, satisfies p. */
    ghost predicate Hides(t: Text, decodeXml: bool, p: Text -> bool)
      requires Valid()
      decreases |t|
    {
      StepsShorten(t, decodeXml);
      RoundHits(t, decodeXml, p) || (AfterXml(t, decodeXml) != t && Hides(AfterXml(t, decodeXml), decodeXml, p))
    }

    /** The text decoding ends with. */
    ghost function Final(t: Text, decodeXml: bool): Text
      requires Valid()
      decreases |t|
    {
      StepsShorten(t, decodeXml);
      if AfterXml(t, decodeXml) == t then t else Final(AfterXml(t, decodeXml), decodeXml)
    }

    /** How many rounds of the full decoding change the text by percent, by JSON and by XML decoding. */
    ghost function Depths(t: Text, decodeXml: bool): Rounds
      requires Valid()
      decreases |t|
    {
      StepsShorten(t, decodeXml);
      if AfterXml(t, decodeXml) == t then Rounds(0, 0, 0)
      else
        var later := Depths(AfterXml(t, decodeXml), decodeXml);
        Rounds(later.percent + (if AfterPercent(t) != t then 1 else 0),
               later.json + (if AfterJson(t) != AfterPercent(t) then 1 else 0),
               later.xml + (if AfterXml(t, decodeXml) != AfterJson(t) then 1 else 0))
    }

    lemma DepthsOfOneRound(t: Text, decodeXml: bool)
      requires Valid() && AfterXml(t, decodeXml) != t
      ensures var left, all := Depths(AfterXml(t, decodeXml), decodeXml), Depths(t, decodeXml);
        && all.percent == left.percent + (if AfterPercent(t) != t then 1 else 0)
        && all.json == left.json + (if AfterJson(t) != AfterPercent(t) then 1 else 0)
        && all.xml == left.xml + (if AfterXml(t, decodeXml) != AfterJson(t) then 1 else 0)
    {
    }

    /** Some decoder needs more states than its budget allows. */
    ghost predicate ExceedsBudget(t: Text, decodeXml: bool)
      requires Valid()
    {
      var rounds := Depths(t, decodeXml);
      rounds.percent >= MAX_STATES || rounds.json >= MAX_STATES || rounds.xml >= MAX_XML_STATES
    }

    /** The last text is a fixed point of every enabled decoder. */
    lemma {:induction false} FinalIsFixed(t: Text, decodeXml: bool)
      requires Valid()
      ensures var last := Final(t, decodeXml);
        && percent(last) == last && Decode(last, Collapse) == last && Decode(last, Preserve) == last
        && (decodeXml ==> DecodeXmlEntitiesOnce(last) == last)
      decreases |t|
    {
      StepsShorten(t, decodeXml);
      if AfterXml(t, decodeXml) == t {
        FixedPoints(t, Collapse);
        FixedPoints(t, Preserve);
        assert forall k :: Reducible(t, k, Preserve) ==> Reducible(t, k, Collapse);
      } else {
        FinalIsFixed(AfterXml(t, decodeXml), decodeXml);
      }
    }

    /** The texts a search goes through, in order: the given one, then the result of each round. */
    ghost function Chain(t: Text, decodeXml: bool): seq<Text>
      requires Valid()
      decreases |t|
    {
      StepsShorten(t, decodeXml);
      if AfterXml(t, decodeXml) == t then [t] else [t] + Chain(AfterXml(t, decodeXml), decodeXml)
    }

    /** Nothing hidden means that the predicate fails on every decoded form of every text of the chain. */
    lemma {:induction false} NothingHiddenMeansAllClear(t: Text, decodeXml: bool, p: Text -> bool)
      requires Valid()
      ensures !Hides(t, decodeXml, p) <==> forall s | s in Chain(t, decodeXml) :: !RoundHits(s, decodeXml, p)
      ensures Chain(t, decodeXml)[|Chain(t, decodeXml)| - 1] == Final(t, decodeXml)
      decreases |t|
    {
      StepsShorten(t, decodeXml);
      if AfterXml(t, decodeXml) != t {
        NothingHiddenMeansAllClear(AfterXml(t, decodeXml), decodeXml, p);
      }
    }

    /** In the round on `s` a decoder is given `a` and makes `b` of it. */
    predicate Makes(s: Text, decodeXml: bool, a: Text, b: Text) {
      || (a == s && b == percent(s))
      || (a == percent(s) && (b == Decode(a, Preserve) || b == Decode(a, Collapse)))
      || (decodeXml && a == Decode(percent(s), Collapse) && b == DecodeXmlEntitiesOnce(a))
    }

    /** Each text of the chain is the one before it with every enabled decoder applied once, in order. */
    lemma {:induction false} ChainDecodesInTurn(t: Text, decodeXml: bool)
      requires Valid()
      ensures var chain := Chain(t, decodeXml);
        && chain != [] && chain[0] == t
        && forall i :: 0 <= i < |chain| - 1 ==>
             var json := Decode(percent(chain[i]), Collapse);
             chain[i + 1] != chain[i] && chain[i + 1] == if decodeXml then DecodeXmlEntitiesOnce(json) else json
      decreases |t|
    {
      StepsShorten(t, decodeXml);
      if AfterXml(t, decodeXml) != t {
        ChainDecodesInTurn(AfterXml(t, decodeXml), decodeXml);
      }
    }

    lemma RoundHitsAreChanges(s: Text, decodeXml: bool, p: Text -> bool)
      ensures RoundHits(s, decodeXml, p) <==> exists a, b :: Makes(s, decodeXml, a, b) && a != b && p(b)
    {
      var percentDecoded, jsonDecoded, xmlDecoded := AfterPercent(s), AfterJson(s), AfterXml(s, decodeXml);
      assert Makes(s, decodeXml, s, percentDecoded);
      assert Makes(s, decodeXml, percentDecoded, Decode(percentDecoded, Preserve));
      assert Makes(s, decodeXml, percentDecoded, jsonDecoded);
      assert decodeXml ==> Makes(s, decodeXml, jsonDecoded, xmlDecoded);
    }

    /** Nothing is hidden exactly when the predicate fails on whatever a decoder changes a text of the chain to. */
    lemma HiddenMeansSomeChangeMatches(t: Text, decodeXml: bool, p: Text -> bool)
      requires Valid()
      ensures Hides(t, decodeXml, p) <==>
        exists s, a, b :: s in Chain(t, decodeXml) && Makes(s, decodeXml, a, b) && a != b && p(b)
    {
      NothingHiddenMeansAllClear(t, decodeXml, p);
      forall s | s in Chain(t, decodeXml)
        ensures RoundHits(s, decodeXml, p) <==> exists a, b :: Makes(s, decodeXml, a, b) && a != b && p(b)
      {
        RoundHitsAreChanges(s, decodeXml, p);
      }
    }

    /** The number of texts in `texts` that a decoder changes. */
    ghost function Changed(texts: seq<Text>, changes: Text -> bool): nat {
      if texts == [] then 0 else (if changes(texts[0]) then 1 else 0) + Changed(texts[1..], changes)
    }

    lemma ChangedOfFirst(t: Text, later: seq<Text>, changes: Text -> bool)
      ensures Changed([t] + later, changes) == (if changes(t) then 1 else 0) + Changed(later, changes)
    {
      assert ([t] + later)[1..] == later;
    }

    /** The states a decoder needs are the texts of the chain on which it changes what it is given. */
    lemma {:induction false} DepthsCountChanges(t: Text, decodeXml: bool)
      requires Valid()
      ensures var chain := Chain(t, decodeXml);
        && Depths(t, decodeXml).percent == Changed(chain, s => percent(s) != s)
        && Depths(t, decodeXml).json == Changed(chain, s => Decode(percent(s), Collapse) != percent(s))
        && Depths(t, decodeXml).xml == Changed(chain, s => decodeXml
             && DecodeXmlEntitiesOnce(Decode(percent(s), Collapse)) != Decode(percent(s), Collapse))
      decreases |t|
    {
      StepsShorten(t, decodeXml);
      var next := AfterXml(t, decodeXml);
      var later := if next == t then [] else Chain(next, decodeXml);
      assert Chain(t, decodeXml) == [t] + later;
      ChangedOfFirst(t, later, s => percent(s) != s);
      ChangedOfFirst(t, later, s => Decode(percent(s), Collapse) != percent(s));
      ChangedOfFirst(t, later, s => decodeXml
        && DecodeXmlEntitiesOnce(Decode(percent(s), Collapse)) != Decode(percent(s), Collapse));
      if next != t {
        DepthsCountChanges(next, decodeXml);
      }
    }
  }

  /** The JSON part of a round: both modes are looked at, and the search goes on with the collapsing one. */
  method DecodeJsonRound(decoded: Text, p: Text -> bool) returns (hit: bool, jsonDecoded: Text)
    ensures jsonDecoded == Decode(decoded, Collapse)
    ensures hit == ((Decode(decoded, Preserve) != decoded && p(Decode(decoded, Preserve)))
      || (jsonDecoded != decoded && p(jsonDecoded)))
  {
    var preserved := DecodeJsonEscapesWithStack(decoded, Preserve);
    jsonDecoded := DecodeJsonEscapesWithStack(decoded, Collapse);
    hit := (preserved != decoded && p(preserved)) || (jsonDecoded != decoded && p(jsonDecoded));
  }

  /**
   * The bounded search answers exactly as the unbounded one, except that it says yes when a decoder runs out of
   * states; it takes at most 46 rounds, or 31 without XML decoding.
   */
  method DecodedCandidateMatches(value: Text, p: Text -> bool, decoders: Decoders, decodeXml: bool)
    returns (found: bool, ghost rounds: nat)
    requires decoders.Valid()
    ensures found == (decoders.Hides(value, decodeXml, p) || decoders.ExceedsBudget(value, decodeXml))
    ensures rounds <= if decodeXml then 46 else 31
  {
    var candidate := value;
    var percentStates, jsonStates, xmlStates := 1, 1, 1;
    rounds := 0;
    ghost var total := decoders.Depths(value, decodeXml);
    while true
      invariant 1 <= percentStates <= MAX_STATES && 1 <= jsonStates <= MAX_STATES && 1 <= xmlStates <= MAX_XML_STATES
      invariant !decodeXml ==> xmlStates == 1
      invariant rounds <= percentStates + jsonStates + xmlStates - 3
      invariant total.percent == decoders.Depths(candidate, decodeXml).percent + percentStates - 1
      invariant total.json == decoders.Depths(candidate, decodeXml).json + jsonStates - 1
      invariant total.xml == decoders.Depths(candidate, decodeXml).xml + xmlStates - 1
      invariant decoders.Hides(value, decodeXml, p) == decoders.Hides(candidate, decodeXml, p)
      decreases |candidate|
    {
      rounds := rounds + 1;
      decoders.StepsShorten(candidate, decodeXml);
      var decoded := candidate;
      var changed := false;
      if PERCENT in candidate {
        var percentDecoded := decoders.percent(candidate);
        if percentDecoded != candidate && p(percentDecoded) {
          return true, rounds;
        }
        if percentDecoded != candidate {
          if percentStates >= MAX_STATES {
            return true, rounds;
          }
          decoded := percentDecoded;
          percentStates := percentStates + 1;
          changed := true;
        }
      }
      assert decoded == decoders.AfterPercent(candidate);
      if BACKSLASH in decoded {
        var hit, jsonDecoded := DecodeJsonRound(decoded, p);
        if hit {
          return true, rounds;
        }
        if jsonDecoded != decoded {
          if jsonStates >= MAX_STATES {
            return true, rounds;
          }
          decoded := jsonDecoded;
          jsonStates := jsonStates + 1;
          changed := true;
        }
      } else {
        NothingToDecodeWithoutBackslash(decoded, Collapse);
        NothingToDecodeWithoutBackslash(decoded, Preserve);
      }
      assert decoded == decoders.AfterJson(candidate);
      if decodeXml && AMPERSAND in decoded {
        var xmlDecoded := DecodeXmlEntitiesOnce(decoded);
        if xmlDecoded != decoded && p(xmlDecoded) {
          return true, rounds;
        }
        if xmlDecoded != decoded {
          if xmlStates >= MAX_XML_STATES {
            return true, rounds;
          }
          decoded := xmlDecoded;
          xmlStates := xmlStates + 1;
          changed := true;
        }
      }
      XmlDecodingShortens(decoders.AfterJson(candidate));
      assert decoded == decoders.AfterXml(candidate, decodeXml);
      if !changed || decoded == candidate {
        return false, rounds;
      }
      decoders.DepthsOfOneRound(candidate, decodeXml);
      candidate := decoded;
    }
  }
}
