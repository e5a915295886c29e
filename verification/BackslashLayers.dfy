/** Undoing escaped backslashes one serialization layer at a time, and the candidate texts built from the layers. */
module BackslashLayers {
  import opened TextModel
  import opened JsonEscapes

  /** One layer: read left to right, every pair of backslashes becomes one. */
  function Layer(s: Text): (t: Text)
    ensures |t| <= |s|
    ensures |t| == |s| ==> t == s
  {
    if s == [] then []
    else if |s| >= 2 && s[0] == BACKSLASH && s[1] == BACKSLASH then [BACKSLASH] + Layer(s[2..])
    else [s[0]] + Layer(s[1..])
  }

  lemma LayerFrom(done: Text, value: Text, i: nat)
    requires i < |value|
    ensures done + Layer(value[i..]) ==
      if i + 1 < |value| && value[i] == BACKSLASH && value[i + 1] == BACKSLASH
      then done + [BACKSLASH] + Layer(value[i + 2..])
      else done + [value[i]] + Layer(value[i + 1..])
  {
    var here := value[i..];
    assert here[1..] == value[i + 1..];
    assert |here| >= 2 ==> here[2..] == value[i + 2..];
  }

  method DecodeEscapedBackslashLayer(value: Text) returns (result: Text)
    ensures result == Layer(value)
  {
    var rebuilt: Text := [];
    var cursor := 0;
    var changed := false;
    while cursor < |value|
      invariant 0 <= cursor <= |value|
      invariant rebuilt + Layer(value[cursor..]) == Layer(value)
      invariant !changed ==> rebuilt == value[..cursor]
    {
      LayerFrom(rebuilt, value, cursor);
      if cursor + 1 < |value| && value[cursor] == BACKSLASH && value[cursor + 1] == BACKSLASH {
        rebuilt := rebuilt + [BACKSLASH];
        cursor := cursor + 2;
        changed := true;
        continue;
      }
      rebuilt := rebuilt + [value[cursor]];
      cursor := cursor + 1;
    }
    assert value[cursor..] == [];
    result := if changed then rebuilt else value;
  }

  // ----- Texts as backslash runs -----

  /** A text cut at its other characters: n backslashes, one character that is not a backslash, and so on. */
  datatype Runs = Last(n: nat) | More(n: nat, c: int, rest: Runs) {
    function Longest(): nat {
      match this
      case Last(n) => n
      case More(n, c, rest) => if n < rest.Longest() then rest.Longest() else n
    }

    /** Every run of n becomes one of ceil(n/2); the other characters stay. */
    function Halved(): Runs {
      match this
      case Last(n) => Last((n + 1) / 2)
      case More(n, c, rest) => More((n + 1) / 2, c, rest.Halved())
    }

    predicate Valid() { Last? || (c != BACKSLASH && rest.Valid()) }

    function Print(): Text {
      match this
      case Last(n) => seq(n, _ => BACKSLASH)
      case More(n, c, rest) => seq(n, _ => BACKSLASH) + [c] + rest.Print()
    }

    function OneMore(): Runs {
      match this
      case Last(n) => Last(n + 1)
      case More(n, c, rest) => More(n + 1, c, rest)
    }
  }

  function Split(s: Text): Runs {
    if s == [] then Last(0)
    else if s[0] == BACKSLASH then Split(s[1..]).OneMore()
    else More(0, s[0], Split(s[1..]))
  }

  lemma {:induction false} PrintOfOneMore(r: Runs)
    ensures r.OneMore().Print() == [BACKSLASH] + r.Print()
  {
    assert seq(r.n + 1, _ => BACKSLASH) == [BACKSLASH] + seq(r.n, _ => BACKSLASH);
  }

  lemma {:induction false} SplitPrints(s: Text)
    ensures Split(s).Valid() && Split(s).Print() == s
    decreases |s|
  {
    if s != [] {
      SplitPrints(s[1..]);
      PrintOfOneMore(Split(s[1..]));
      assert s == [s[0]] + s[1..];
    }
  }

  lemma {:induction false} PrintSplits(r: Runs)
    requires r.Valid()
    ensures Split(r.Print()) == r
    decreases |r.Print()|
  {
    if r.n > 0 {
      var less := if r.Last? then Last(r.n - 1) else More(r.n - 1, r.c, r.rest);
      PrintOfOneMore(less);
      assert r.Print()[1..] == less.Print();
      PrintSplits(less);
    } else if r.More? {
      assert r.Print() == [r.c] + r.rest.Print() && r.Print()[1..] == r.rest.Print();
      PrintSplits(r.rest);
    }
  }

  /** The runs of a text are the one valid way of printing it. */
  lemma SplitIsThePrintedRuns(s: Text, r: Runs)
    ensures r.Valid() && r.Print() == s <==> r == Split(s)
  {
    SplitPrints(s);
    if r.Valid() {
      PrintSplits(r);
    }
  }

  /** One layer halves every run of backslashes, rounding up, and keeps every other character. */
  lemma {:induction false} LayerHalvesRuns(s: Text)
    ensures Split(Layer(s)) == Split(s).Halved()
    decreases |s|
  {
    if s == [] {
    } else if |s| >= 2 && s[0] == BACKSLASH && s[1] == BACKSLASH {
      LayerHalvesRuns(s[2..]);
      assert s[1..][1..] == s[2..];
      assert Layer(s)[1..] == Layer(s[2..]);
    } else {
      LayerHalvesRuns(s[1..]);
      assert Layer(s)[1..] == Layer(s[1..]);
      if s[0] == BACKSLASH && |s| >= 2 {
        assert s[1..][0] == s[1];
      }
    }
  }

  /**
   * A layer changes nothing exactly when no two backslashes are side by side, that is when no run is longer than one.
   */
  lemma {:induction false} QuietTexts(s: Text)
    ensures Layer(s) == s <==> Split(s).Longest() <= 1
    ensures BackslashesApart(s) <==> Split(s).Longest() <= 1
    decreases |s|
  {
    if s != [] {
      var t := s[1..];
      QuietTexts(t);
      assert forall i | 0 < i < |s| :: s[i] == t[i - 1];
      if s[0] == BACKSLASH && t != [] && t[0] == BACKSLASH {
        assert Split(t).n >= 1 && Split(s).n >= 2;
        assert |Layer(s)| == 1 + |Layer(s[2..])| < |s|;
      } else {
        assert t != [] ==> (Split(t).n >= 1 <==> t[0] == BACKSLASH);
        assert Layer(s) == [s[0]] + Layer(t) && Layer(s)[1..] == Layer(t);
        assert BackslashesApart(t) ==> BackslashesApart(s) by {
          forall i, j | BackslashesApart(t) && 0 <= i < j < |s| && j == i + 1
            ensures !(s[i] == BACKSLASH && s[j] == BACKSLASH)
          {
            assert i > 0 ==> !(t[i - 1] == BACKSLASH && t[j - 1] == BACKSLASH);
          }
        }
        assert BackslashesApart(s) ==> BackslashesApart(t) by {
          forall i, j | BackslashesApart(s) && 0 <= i < j < |t| && j == i + 1
            ensures !(t[i] == BACKSLASH && t[j] == BACKSLASH)
          {
            assert !(s[i + 1] == BACKSLASH && s[j + 1] == BACKSLASH);
          }
        }
      }
    }
  }

  // ----- The candidate loop -----

  /** The texts the layer loop yields, starting from `s`. */
  function Layers(s: Text): seq<Text>
    decreases |s|
  {
    if Layer(s) == s then [] else [Layer(s)] + Layers(Layer(s))
  }

  /** The text the layer loop stops at. */
  function Flattened(s: Text): Text
    decreases |s|
  {
    if Layer(s) == s then s else Flattened(Layer(s))
  }

  function Candidates(value: Text): seq<Text> {
    var preserved, fixedPoint := Decode(value, Preserve), Decode(value, Collapse);
    (if preserved != value then [preserved] else [])
    + Layers(preserved)
    + (if fixedPoint !in {value, preserved, Flattened(preserved)} then [fixedPoint] else [])
  }

  method JsonEscapeDecodedCandidates(value: Text) returns (yielded: seq<Text>)
    ensures yielded == Candidates(value)
  {
    yielded := [];
    var preserved := DecodeJsonEscapesWithStack(value, Preserve);
    if preserved != value {
      yielded := yielded + [preserved];
    }
    var candidate := preserved;
    ghost var first := yielded;
    while true
      invariant yielded + Layers(candidate) == first + Layers(preserved)
      invariant Flattened(candidate) == Flattened(preserved)
      decreases |candidate|
    {
      var decoded := DecodeEscapedBackslashLayer(candidate);
      if decoded == candidate {
        break;
      }
      assert yielded + ([decoded] + Layers(decoded)) == yielded + [decoded] + Layers(decoded);
      yielded := yielded + [decoded];
      candidate := decoded;
    }
    assert yielded == first + Layers(preserved);
    var fixedPoint := DecodeJsonEscapesWithStack(value, Collapse);
    if fixedPoint !in {value, preserved, candidate} {
      yielded := yielded + [fixedPoint];
    } else {
      assert first + Layers(preserved) + [] == first + Layers(preserved);
    }
  }

  function Pow2(k: nat): nat { if k == 0 then 1 else 2 * Pow2(k - 1) }

  /** k is the logarithm of m to base two, rounded up. */
  predicate IsCeilLog2(k: nat, m: nat) {
    m <= Pow2(k) && (k > 0 ==> Pow2(k - 1) < m)
  }

  lemma {:induction false} HalvedLongest(r: Runs)
    ensures r.Halved().Longest() == (r.Longest() + 1) / 2
  {
    if r.More? {
      HalvedLongest(r.rest);
    }
  }

  /**
   * The loop yields exactly ceil(log2 m) layers for a longest run of m, and none for a text without backslashes;
   * it stops at a text without adjacent backslashes.
   */
  lemma {:induction false} LayerCount(s: Text)
    ensures IsCeilLog2(|Layers(s)|, Split(s).Longest())
    ensures BackslashesApart(Flattened(s))
    ensures |Layers(s)| > 0 ==> Layers(s)[|Layers(s)| - 1] == Flattened(s)
    decreases |s|
  {
    QuietTexts(s);
    if Layer(s) != s {
      LayerCount(Layer(s));
      LayerHalvesRuns(s);
      HalvedLongest(Split(s));
    }
  }

  lemma {:induction false} CeilLog2IsUnique(j: nat, k: nat, m: nat)
    requires IsCeilLog2(j, m) && IsCeilLog2(k, m)
    ensures j == k
  {
    if j < k {
      Pow2Grows(j, k - 1);
    } else if k < j {
      Pow2Grows(k, j - 1);
    }
  }

  lemma {:induction false} Pow2Grows(j: nat, k: nat)
    requires j <= k
    ensures Pow2(j) <= Pow2(k)
  {
    if j < k {
      Pow2Grows(j, k - 1);
    }
  }

  /** Layers only shrink, and only the last of them is free of adjacent backslashes. */
  lemma {:induction false} LayersShrink(s: Text)
    ensures forall i | 0 <= i < |Layers(s)| :: |Layers(s)[i]| < |s|
    ensures forall i, j | 0 <= i < j < |Layers(s)| :: |Layers(s)[j]| < |Layers(s)[i]|
    ensures forall i | 0 <= i < |Layers(s)| - 1 :: !BackslashesApart(Layers(s)[i])
    decreases |s|
  {
    if Layer(s) != s {
      var t := Layer(s);
      LayersShrink(t);
      assert Layers(s) == [t] + Layers(t);
      QuietTexts(t);
      assert |Layers(s)| > 1 ==> !BackslashesApart(t);
      forall i | 0 <= i < |Layers(s)| - 1 ensures !BackslashesApart(Layers(s)[i]) {
        assert i > 0 ==> Layers(s)[i] == Layers(t)[i - 1];
      }
    }
  }

  /**
   * The generator's promise: every candidate is new (it differs from the text and from every other candidate) and
   * shorter than the text, and no decoded form is missed, the collapsed fixed point included.
   */
  lemma CandidatesAreNewAndComplete(value: Text)
    ensures forall i | 0 <= i < |Candidates(value)| :: |Candidates(value)[i]| < |value|
    ensures forall i, j | 0 <= i < j < |Candidates(value)| :: Candidates(value)[i] != Candidates(value)[j]
    ensures Decode(value, Preserve) == value || Decode(value, Preserve) in Candidates(value)
    ensures Decode(value, Collapse) == value || Decode(value, Collapse) in Candidates(value)
    ensures forall t | t in Layers(Decode(value, Preserve)) :: t in Candidates(value)
  {
    var p, f := Decode(value, Preserve), Decode(value, Collapse);
    var head := if p != value then [p] else [];
    var tail := if f !in {value, p, Flattened(p)} then [f] else [];
    var ls := Layers(p);
    DecodeShortens(value, Preserve);
    DecodeShortens(value, Collapse);
    CollapseSeparatesBackslashes(value);
    LayersShrink(p);
    LayerCount(p);
    assert Candidates(value) == head + ls + tail;
    assert tail != [] ==> forall i | 0 <= i < |ls| :: ls[i] != f by {
      if tail != [] {
        forall i | 0 <= i < |ls| ensures ls[i] != f {
          assert i < |ls| - 1 ==> !BackslashesApart(ls[i]);
        }
      }
    }
    assert ls == [] ==> Flattened(p) == p;
    assert ls != [] ==> Flattened(p) in ls;
  }
}
