/** Shortening a public text without cutting an opaque resource URI in two. */
module UriTruncation {
  import opened TextModel

  const ELLIPSIS := 0x2026

  function Codes(s: string): (t: Text)
    ensures |t| == |s|
  {
    seq(|s|, i requires 0 <= i < |s| => s[i] as int)
  }

  const PLACEHOLDER: Text := Codes("<resource-uri>")
  const RESULT_ARTIFACT: Text := Codes("colameta://result-artifact/")
  const REVIEW_MANIFEST: Text := Codes("colameta://review-manifest/")
  const PAGES: Text := Codes("/pages/")
  const PAGE_TEMPLATE: Text := Codes("{page}")
  const SUBJECTS: Text := Codes("/subjects/")

  predicate IsIdCode(c: int) { IsDigit(c) || 65 <= c <= 90 || 97 <= c <= 122 || c == 95 || c == 45 }

  predicate IsId(t: Text) { 16 <= |t| <= 128 && forall i | 0 <= i < |t| :: IsIdCode(t[i]) }

  predicate IsNumber(t: Text) { |t| >= 1 && t[0] != 48 && forall i | 0 <= i < |t| :: IsDigit(t[i]) }

  ghost predicate IsPageTail(t: Text) {
    exists page: Text :: (IsNumber(page) || page == PAGE_TEMPLATE) && t == PAGES + page
  }

  ghost predicate IsSubjectTail(t: Text) {
    exists number: Text, rest: Text ::
      IsNumber(number) && (rest == [] || IsPageTail(rest)) && t == SUBJECTS + number + rest
  }

  ghost predicate IsArtifactUri(t: Text, id: Text, rest: Text) {
    IsId(id) && (rest == [] || IsPageTail(rest)) && t == RESULT_ARTIFACT + id + rest
  }

  ghost predicate IsManifestUri(t: Text, id: Text, rest: Text) {
    IsId(id) && (rest == [] || IsSubjectTail(rest)) && t == REVIEW_MANIFEST + id + rest
  }

  /** The two shapes of opaque resource URI. */
  ghost predicate IsOpaqueUri(t: Text) {
    (exists id, rest :: IsArtifactUri(t, id, rest)) || (exists id, rest :: IsManifestUri(t, id, rest))
  }

  const MIN_URI_LENGTH := 43

  lemma UriIsLong(t: Text)
    requires IsOpaqueUri(t)
    ensures |t| >= MIN_URI_LENGTH > |PLACEHOLDER|
  {
  }

  /** No URI is shorter than 43 characters, and one is that short; the placeholder is shorter still. */
  lemma ShortestUri()
    ensures forall t: Text | IsOpaqueUri(t) :: |t| >= MIN_URI_LENGTH
    ensures exists t: Text :: IsOpaqueUri(t) && |t| == MIN_URI_LENGTH
  {
    var id: Text := seq(16, i => 65);
    var uri := RESULT_ARTIFACT + id + [];
    assert IsArtifactUri(uri, id, []);
    assert IsOpaqueUri(uri) && |uri| == MIN_URI_LENGTH;
  }

  datatype Span = Span(start: nat, end: nat)

  /**
    * The text is cut to `maxChars` characters. `spans` finds the recognised URIs of a text, in text
    * order; the boundary rules that decide which candidates are recognised stay open here.
    */
  datatype Cutter = Cutter(spans: Text -> seq<Span>, maxChars: int) {
    function Cutoff(): int { maxChars - 1 }

    ghost predicate Recognises(t: Text, s: Span) {
      s.start <= s.end <= |t| && IsOpaqueUri(t[s.start..s.end])
    }

    ghost predicate Valid() {
      (forall t: Text, i | 0 <= i < |spans(t)| :: Recognises(t, spans(t)[i]))
      && forall t: Text, i, j | 0 <= i < j < |spans(t)| :: spans(t)[i].end <= spans(t)[j].start
    }

    /** Would the cut fall strictly inside this span? */
    predicate Crosses(s: Span) { s.start < Cutoff() < s.end }

    /** The characters kept hold some of the span, and not all of it. */
    lemma CrossesMeans(s: Span)
      ensures Crosses(s) <==>
        (exists i | IsIn(s, i) :: i < maxChars - 1) && exists i | IsIn(s, i) :: i >= maxChars - 1
    {
      if Crosses(s) {
        assert IsIn(s, s.start) && IsIn(s, s.end - 1);
      }
    }

    predicate IsIn(s: Span, i: int) { s.start <= i < s.end }

    /** No recognised URI of `t` would be cut in two. */
    ghost predicate CutIsClean(t: Text) { forall s | s in spans(t) :: !Crosses(s) }

    /** Python's `t[:k]`, which counts from the end for a negative `k`. */
    function Prefix(t: Text, k: int): Text {
      if k >= |t| then t else if k >= 0 then t[..k] else if |t| + k >= 0 then t[..|t| + k] else []
    }

    function Replace(t: Text, s: Span): Text
      requires s.start <= s.end <= |t|
    {
      t[..s.start] + PLACEHOLDER + t[s.end..]
    }

    /** The URI gives way to the placeholder, and the text around it stays. */
    lemma ReplacePutsThePlaceholder(before: Text, uri: Text, after: Text)
      ensures Replace(before + uri + after, Span(|before|, |before| + |uri|))
        == before + Codes("<resource-uri>") + after
    {
      var t := before + uri + after;
      assert t[..|before|] == before && t[|before| + |uri|..] == after;
    }

    /** A slice drops what is past position `k`, or the last `-k` characters. */
    lemma PrefixDropsTheRest(kept: Text, dropped: Text, k: int)
      requires if k >= 0 then |kept| == k || (|kept| < k && dropped == [])
        else |dropped| == -k || (|dropped| < -k && kept == [])
      ensures Prefix(kept + dropped, k) == kept
    {
      var t := kept + dropped;
      assert t[..|kept|] == kept;
    }

    /** `u` is `t`, still too long, with one recognised URI that the cut would split replaced. */
    ghost predicate Step(t: Text, u: Text) {
      |t| > maxChars && exists s: Span :: s in spans(t) && Crosses(s) && Recognises(t, s) && u == Replace(t, s)
    }

    /** Each text of `run` comes from the one before it by replacing one split URI. */
    ghost predicate IsRun(run: seq<Text>) {
      |run| >= 1 && forall i | 0 < i < |run| :: Step(run[i - 1], run[i])
    }

    lemma StepShrinks(t: Text, u: Text)
      requires Step(t, u)
      ensures |u| + (MIN_URI_LENGTH - |PLACEHOLDER|) <= |t|
    {
      var s: Span :| s in spans(t) && Crosses(s) && Recognises(t, s) && u == Replace(t, s);
      UriIsLong(t[s.start..s.end]);
    }

    lemma StepKeepsTheStart(t: Text, u: Text, k: nat)
      requires Step(t, u)
      requires forall s | s in spans(t) && Crosses(s) :: k <= s.start
      ensures k <= |t| && k <= |u| && u[..k] == t[..k]
    {
    }

    /** At most one recognised URI contains the cut, so each step is determined. */
    lemma StepIsDetermined(t: Text, u: Text, v: Text)
      requires Valid() && Step(t, u) && Step(t, v)
      ensures u == v
    {
      var a: Span :| a in spans(t) && Crosses(a) && Recognises(t, a) && u == Replace(t, a);
      var b: Span :| b in spans(t) && Crosses(b) && Recognises(t, b) && v == Replace(t, b);
      var i :| 0 <= i < |spans(t)| && spans(t)[i] == a;
      var j :| 0 <= j < |spans(t)| && spans(t)[j] == b;
    }

    /** A text the loop stops at: it fits, or no recognised URI of it would be split. */
    ghost predicate Stops(t: Text) { |t| <= maxChars || CutIsClean(t) }

    /** What is shown of a text the loop stopped at. */
    function Shown(t: Text): Text { if |t| <= maxChars then t else Prefix(t, Cutoff()) + [ELLIPSIS] }

    lemma {:induction false} RunsAgree(a: seq<Text>, b: seq<Text>, k: nat)
      requires Valid() && IsRun(a) && IsRun(b) && a[0] == b[0]
      requires k < |a| && k < |b|
      ensures a[k] == b[k]
    {
      if k > 0 {
        RunsAgree(a, b, k - 1);
        assert Step(a[k - 1], a[k]) && Step(b[k - 1], b[k]);
        StepIsDetermined(a[k - 1], a[k], b[k]);
      }
    }

    lemma RunGoesOn(run: seq<Text>, k: nat)
      requires IsRun(run) && k + 1 < |run|
      ensures !Stops(run[k])
    {
      assert Step(run[k], run[k + 1]);
    }

    /** From one text, replacing split URIs until it stops has only one outcome, in one number of rounds. */
    lemma OutcomeIsDetermined(a: seq<Text>, b: seq<Text>)
      requires Valid() && IsRun(a) && IsRun(b) && a[0] == b[0]
      requires Stops(a[|a| - 1]) && Stops(b[|b| - 1])
      ensures a == b
    {
      if |a| < |b| {
        RunsAgree(a, b, |a| - 1);
        RunGoesOn(b, |a| - 1);
      } else if |b| < |a| {
        RunsAgree(a, b, |b| - 1);
        RunGoesOn(a, |b| - 1);
      }
      forall k | 0 <= k < |a| && k < |b| ensures a[k] == b[k] {
        RunsAgree(a, b, k);
      }
    }

    /** Rounds are bounded by the text: each removes at least 29 characters. */
    lemma {:induction false} EachRoundShrinks(run: seq<Text>, k: nat)
      requires IsRun(run) && k < |run|
      ensures |run[k]| + k * (MIN_URI_LENGTH - |PLACEHOLDER|) <= |run[0]|
    {
      if k > 0 {
        EachRoundShrinks(run, k - 1);
        StepShrinks(run[k - 1], run[k]);
      }
    }

    /** Text before every URI that is ever split stays as it was. */
    lemma {:induction false} TextBeforeEveryCrossingStays(run: seq<Text>, n: nat, k: nat)
      requires IsRun(run) && n < |run| && k <= |run[0]|
      requires forall i, s | 0 <= i < n && s in spans(run[i]) && Crosses(s) :: k <= s.start
      ensures k <= |run[n]| && run[n][..k] == run[0][..k]
    {
      if n > 0 {
        TextBeforeEveryCrossingStays(run, n - 1, k);
        StepKeepsTheStart(run[n - 1], run[n], k);
      }
    }

    lemma OneMoreRound(t: Text, i: nat)
      requires Valid() && |t| > maxChars && i < |spans(t)| && Crosses(spans(t)[i])
      ensures var s := spans(t)[i];
        s.start <= s.end <= |t| && |Replace(t, s)| < |t| && Step(t, Replace(t, s))
    {
      var s := spans(t)[i];
      assert Recognises(t, s);
      StepShrinks(t, Replace(t, s));
    }

    method FirstCrossing(found: seq<Span>) returns (i: nat)
      ensures i <= |found|
      ensures forall j | 0 <= j < i :: !Crosses(found[j])
      ensures i < |found| ==> Crosses(found[i])
    {
      i := 0;
      while i < |found| && !Crosses(found[i])
        invariant i <= |found|
        invariant forall j | 0 <= j < i :: !Crosses(found[j])
      {
        i := i + 1;
      }
    }

    /**
      * The result fits exactly when the limit is positive, or the text already fitted. It is a text
      * reached by replacing split URIs, cut (if still too long) at a place inside none of its URIs.
      */
    method TruncatePreservingResourceUris(value: Text) returns (r: Text, ghost run: seq<Text>)
      requires Valid()
      ensures |r| <= maxChars <==> maxChars >= 1 || |value| <= maxChars
      ensures IsRun(run) && run[0] == value
      ensures var last := run[|run| - 1];
        Stops(last) && r == Shown(last)
    {
      var bounded := value;
      run := [bounded];
      while |bounded| > maxChars
        invariant IsRun(run) && run[0] == value && run[|run| - 1] == bounded
        invariant maxChars < 1 || |value| <= maxChars ==> bounded == value
        decreases |bounded|
      {
        var found := spans(bounded);
        var i := FirstCrossing(found);
        if i == |found| {
          return Prefix(bounded, Cutoff()) + [ELLIPSIS], run;
        }
        OneMoreRound(bounded, i);
        bounded := Replace(bounded, found[i]);
        run := run + [bounded];
      }
      return bounded, run;
    }

    /** A text that fits is shown as it is; a longer one up to an ellipsis that takes the last place. */
    lemma WhatIsShown(last: Text)
      requires maxChars >= 1
      ensures |last| <= maxChars ==> Shown(last) == last
      ensures |last| > maxChars ==>
        && |Shown(last)| == maxChars && Shown(last)[maxChars - 1] == '…' as int
        && forall i | 0 <= i < maxChars - 1 :: Shown(last)[i] == last[i]
    {
    }

    /** Every recognised URI of the text the loop stops at is in the result whole, or starts past the cut. */
    lemma UrisSurviveWhole(last: Text, s: Span)
      requires Valid() && maxChars >= 1 && Stops(last) && s in spans(last)
      ensures var r := Shown(last);
        || (s.start <= s.end <= |r| && IsOpaqueUri(r[s.start..s.end]) && r[s.start..s.end] == last[s.start..s.end])
        || (|last| > maxChars && maxChars - 1 <= s.start)
    {
      var i :| 0 <= i < |spans(last)| && spans(last)[i] == s;
      assert Recognises(last, s);
      var r := Shown(last);
      if |last| > maxChars && s.start < maxChars - 1 {
        assert !Crosses(s);
        assert r[s.start..s.end] == last[s.start..s.end];
      }
    }
  }

  /**
    * The public text: at most `maxChars` characters whenever that is a number of characters at all. A
    * text that fits comes back as it is; a limit of one or less just cuts; above that no recognised URI
    * of the text being cut is split.
    */
  method CommanderPublicText(redacted: Text, maxChars: Option<int>, spans: Text -> seq<Span>)
      returns (r: Text, ghost run: seq<Text>)
    requires Cutter(spans, 0).Valid()
    ensures maxChars.None? || |redacted| <= maxChars.value ==> r == redacted
    ensures maxChars.Some? ==> (|r| <= maxChars.value <==> maxChars.value >= 0)
    ensures maxChars.Some? && maxChars.value in {0, 1} && |redacted| > maxChars.value
      ==> r == redacted[..maxChars.value]
    ensures maxChars.Some? && maxChars.value > 1 ==>
      var cutter := Cutter(spans, maxChars.value);
      && cutter.IsRun(run) && run[0] == redacted && cutter.Stops(run[|run| - 1])
      && r == cutter.Shown(run[|run| - 1])
  {
    run := [redacted];
    if maxChars.None? {
      return redacted, run;
    }
    var cutter := Cutter(spans, maxChars.value);
    if |redacted| <= maxChars.value {
      return redacted, run;
    }
    if maxChars.value <= 1 {
      return cutter.Prefix(redacted, maxChars.value), run;
    }
    r, run := cutter.TruncatePreservingResourceUris(redacted);
  }
}
