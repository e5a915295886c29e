/** The rewriting-stack decoder for nested JSON string escapes (section 7 of RFC 8259). */
module JsonEscapes {
  import opened TextModel

  datatype Mode = Preserve | Collapse

  /** The single-character escapes: quote, backslash, slash, b, f, n, r and t. */
  function ShortEscape(c: int): Option<int> {
    if c == DOUBLE_QUOTE || c == BACKSLASH || c == SLASH then Some(c)
    else if c == 98 then Some(8)
    else if c == 102 then Some(12)
    else if c == 110 then Some(10)
    else if c == 114 then Some(13)
    else if c == 116 then Some(9)
    else None
  }

  function HexCodePoint(d0: int, d1: int, d2: int, d3: int): (c: int)
    requires IsHex(d0) && IsHex(d1) && IsHex(d2) && IsHex(d3)
    ensures 0 <= c <= 0xFFFF
  {
    HexValue(d0) * 4096 + HexValue(d1) * 256 + HexValue(d2) * 16 + HexValue(d3)
  }

  /** A hexadecimal digit of the value given, as a capital or a small letter. */
  function HexDigit(v: nat, capital: bool): int
    requires v < 16
  {
    (if capital then "0123456789ABCDEF" else "0123456789abcdef")[v] as int
  }

  lemma HexDigitsSpelled(v: nat, capital: bool)
    requires v < 16
    ensures IsHex(HexDigit(v, capital)) && HexValue(HexDigit(v, capital)) == v
  {
  }

  /** Nothing else is a hexadecimal digit. */
  lemma OnlyHexDigits(c: int)
    requires IsHex(c)
    ensures exists capital :: c == HexDigit(HexValue(c), capital)
  {
    assert c == HexDigit(HexValue(c), true) || c == HexDigit(HexValue(c), false);
  }

  /** Four digits name the code point they are the numeral of. */
  lemma FourDigitsAreANumeral(a: nat, b: nat, c: nat, d: nat, capital: bool)
    requires a < 16 && b < 16 && c < 16 && d < 16
    ensures
      && IsHex(HexDigit(a, capital)) && IsHex(HexDigit(b, capital))
      && IsHex(HexDigit(c, capital)) && IsHex(HexDigit(d, capital))
      && HexCodePoint(HexDigit(a, capital), HexDigit(b, capital), HexDigit(c, capital), HexDigit(d, capital))
           == ((a * 16 + b) * 16 + c) * 16 + d
  {
    HexDigitsSpelled(a, capital);
    HexDigitsSpelled(b, capital);
    HexDigitsSpelled(c, capital);
    HexDigitsSpelled(d, capital);
  }

  /** Section 7 of RFC 8259: which letters may follow a backslash, and what they stand for. */
  lemma ShortEscapesSpelled(c: int)
    ensures ShortEscape(c).Some? <==> c in CodePoints("\"\\/bfnrt")
    ensures ShortEscape('n' as int) == Some('\n' as int) && ShortEscape('r' as int) == Some('\r' as int)
    ensures ShortEscape('t' as int) == Some('\t' as int) && ShortEscape('/' as int) == Some('/' as int)
    ensures ShortEscape('"' as int) == Some('"' as int) && ShortEscape('\\' as int) == Some('\\' as int)
    ensures ShortEscape('b' as int) == Some(0x8) && ShortEscape('f' as int) == Some(0xC)
  {
    var letters := CodePoints("\"\\/bfnrt");
    assert letters == [34, 92, 47, 98, 102, 110, 114, 116];
  }

  /** A `\uXXXX` escape ends at position k. */
  predicate UnicodeEscapeEndsAt(s: Text, k: int) {
    && 6 <= k <= |s| && s[k - 6] == BACKSLASH && s[k - 5] == LOWER_U
    && IsHex(s[k - 4]) && IsHex(s[k - 3]) && IsHex(s[k - 2]) && IsHex(s[k - 1])
  }

  /** A two-character escape ends at position k; an escaped backslash counts in collapse mode only. */
  predicate ShortEscapeEndsAt(s: Text, k: int, mode: Mode) {
    && 2 <= k <= |s| && s[k - 2] == BACKSLASH && ShortEscape(s[k - 1]).Some?
    && (s[k - 1] != BACKSLASH || mode.Collapse?)
  }

  predicate Reducible(s: Text, k: int, mode: Mode) {
    UnicodeEscapeEndsAt(s, k) || ShortEscapeEndsAt(s, k, mode)
  }

  /** Where the escape that ends at k starts, and the character it stands for. */
  function EscapeStart(s: Text, k: int, mode: Mode): (i: int)
    requires Reducible(s, k, mode)
    ensures 0 <= i <= k - 2
  {
    if UnicodeEscapeEndsAt(s, k) then k - 6 else k - 2
  }

  function Escaped(s: Text, k: int, mode: Mode): int
    requires Reducible(s, k, mode)
  {
    if UnicodeEscapeEndsAt(s, k) then HexCodePoint(s[k - 4], s[k - 3], s[k - 2], s[k - 1])
    else ShortEscape(s[k - 1]).value
  }

  /** Rewriting one escape: the escape that ends at position k gives way to its character. */
  function Rewrite(s: Text, k: int, mode: Mode): (t: Text)
    requires Reducible(s, k, mode)
    ensures |t| == |s| - (k - EscapeStart(s, k, mode)) + 1 < |s|
  {
    s[..EscapeStart(s, k, mode)] + [Escaped(s, k, mode)] + s[k..]
  }

  /** What the inner loop leaves of a stack. */
  function Settle(r: Text, mode: Mode): (t: Text)
    ensures |t| <= |r|
    ensures if Reducible(r, |r|, mode) then |t| < |r| else t == r
    decreases |r|
  {
    if Reducible(r, |r|, mode) then Settle(Rewrite(r, |r|, mode), mode) else r
  }

  function DecodeFrom(r: Text, rest: Text, mode: Mode): Text
    decreases |rest|
  {
    if rest == [] then r else DecodeFrom(Settle(r + [rest[0]], mode), rest[1..], mode)
  }

  function Decode(value: Text, mode: Mode): Text { DecodeFrom([], value, mode) }

  method DecodeJsonEscapesWithStack(value: Text, mode: Mode) returns (result: Text)
    ensures result == Decode(value, mode)
  {
    var rebuilt: Text := [];
    var changed := false;
    for i := 0 to |value|
      invariant DecodeFrom(rebuilt, value[i..], mode) == Decode(value, mode)
      invariant !changed ==> rebuilt == value[..i]
    {
      ghost var pushed := rebuilt + [value[i]];
      assert DecodeFrom(Settle(pushed, mode), value[i + 1..], mode) == Decode(value, mode) by {
        assert value[i..][0] == value[i] && value[i..][1..] == value[i + 1..];
      }
      rebuilt := rebuilt + [value[i]];
      while Reducible(rebuilt, |rebuilt|, mode)
        invariant Settle(rebuilt, mode) == Settle(pushed, mode)
        invariant !changed ==> rebuilt == value[..i + 1]
        decreases |rebuilt|
      {
        rebuilt := Rewrite(rebuilt, |rebuilt|, mode);
        changed := true;
      }
      assert rebuilt == Settle(pushed, mode);
    }
    result := if changed then rebuilt else value;
  }

  // ----- The result is a normal form of the rewriting -----

  /** No escape ends before position n. */
  ghost predicate Settled(s: Text, n: int, mode: Mode) {
    forall k | k < n :: !Reducible(s, k, mode)
  }

  /** No escape is left anywhere. */
  ghost predicate NormalForm(s: Text, mode: Mode) { Settled(s, |s| + 1, mode) }

  lemma {:induction false} SettleReachesNormalForm(r: Text, mode: Mode)
    requires Settled(r, |r|, mode)
    ensures NormalForm(Settle(r, mode), mode)
    decreases |r|
  {
    if Reducible(r, |r|, mode) {
      var t := Rewrite(r, |r|, mode);
      forall k | k < |t| ensures !Reducible(t, k, mode) {
        assert !Reducible(r, k, mode);
      }
      SettleReachesNormalForm(t, mode);
    }
  }

  lemma PushKeepsSettled(r: Text, c: int, mode: Mode)
    requires NormalForm(r, mode)
    ensures Settled(r + [c], |r + [c]|, mode)
  {
    forall k | k < |r + [c]| ensures !Reducible(r + [c], k, mode) {
      assert !Reducible(r, k, mode);
    }
  }

  lemma {:induction false} DecodeFromReachesNormalForm(r: Text, rest: Text, mode: Mode)
    requires NormalForm(r, mode)
    ensures NormalForm(DecodeFrom(r, rest, mode), mode)
    decreases |rest|
  {
    if rest != [] {
      PushKeepsSettled(r, rest[0], mode);
      SettleReachesNormalForm(r + [rest[0]], mode);
      DecodeFromReachesNormalForm(Settle(r + [rest[0]], mode), rest[1..], mode);
    }
  }

  /** No escape the mode can read survives decoding. */
  lemma DecodeReachesNormalForm(s: Text, mode: Mode)
    ensures NormalForm(Decode(s, mode), mode)
  {
    DecodeFromReachesNormalForm([], s, mode);
  }

  ghost predicate BackslashesApart(s: Text) {
    forall i, j | 0 <= i < j < |s| && j == i + 1 :: !(s[i] == BACKSLASH && s[j] == BACKSLASH)
  }

  /** In collapse mode no two backslashes are left side by side. */
  lemma CollapseSeparatesBackslashes(s: Text)
    ensures BackslashesApart(Decode(s, Collapse))
  {
    var d := Decode(s, Collapse);
    DecodeReachesNormalForm(s, Collapse);
    forall i, j | 0 <= i < j < |d| && j == i + 1 ensures !(d[i] == BACKSLASH && d[j] == BACKSLASH) {
      assert !Reducible(d, i + 2, Collapse);
    }
  }

  lemma {:induction false} PushingSettledText(r: Text, p: Text, rest: Text, mode: Mode)
    requires Settled(r + p, |r + p|, mode)
    requires p != []
    ensures DecodeFrom(r, p + rest, mode) == DecodeFrom(Settle(r + p, mode), rest, mode)
    decreases |p|
  {
    assert (p + rest)[0] == p[0] && (p + rest)[1..] == p[1..] + rest;
    if |p| == 1 {
      assert p == [p[0]] && p[1..] + rest == rest;
    } else {
      assert r + p == r + [p[0]] + p[1..];
      assert Reducible(r + [p[0]], |r| + 1, mode) == Reducible(r + p, |r| + 1, mode);
      PushingSettledText(r + [p[0]], p[1..], rest, mode);
    }
  }

  /** A text is a fixed point of decoding exactly when it holds nothing to decode. */
  lemma FixedPoints(s: Text, mode: Mode)
    ensures Decode(s, mode) == s <==> NormalForm(s, mode)
  {
    DecodeReachesNormalForm(s, mode);
    if NormalForm(s, mode) && s != [] {
      assert [] + s == s && s + [] == s;
      PushingSettledText([], s, [], mode);
    }
  }

  /** A second run changes nothing. */
  lemma DecodeIsIdempotent(s: Text, mode: Mode)
    ensures Decode(Decode(s, mode), mode) == Decode(s, mode)
  {
    DecodeReachesNormalForm(s, mode);
    FixedPoints(Decode(s, mode), mode);
  }

  lemma {:induction false} DecodeFromNeverGrows(r: Text, rest: Text, mode: Mode)
    ensures |DecodeFrom(r, rest, mode)| <= |r| + |rest|
    ensures |DecodeFrom(r, rest, mode)| == |r| + |rest| ==> DecodeFrom(r, rest, mode) == r + rest
    decreases |rest|
  {
    if rest == [] {
      assert r + rest == r;
    } else {
      DecodeFromNeverGrows(Settle(r + [rest[0]], mode), rest[1..], mode);
      assert r + [rest[0]] + rest[1..] == r + rest;
    }
  }

  /** Any change strictly shortens the text. */
  lemma DecodeShortens(s: Text, mode: Mode)
    ensures Decode(s, mode) == s || |Decode(s, mode)| < |s|
  {
    DecodeFromNeverGrows([], s, mode);
    assert [] + s == s;
  }

  lemma NothingToDecodeWithoutBackslash(s: Text, mode: Mode)
    requires BACKSLASH !in s
    ensures Decode(s, mode) == s
  {
    FixedPoints(s, mode);
  }

  // ----- Which rewrites the decoder makes -----

  lemma SettledPrefix(s: Text, p: Text, n: int, mode: Mode)
    requires Settled(s, n, mode) && 0 < n <= |s| && n <= |p| && p[..n - 1] == s[..n - 1]
    ensures Settled(p, n, mode)
  {
    forall k | k < n ensures !Reducible(p, k, mode) {
      assert !Reducible(s, k, mode);
      assert forall i | 0 <= i < n - 1 :: p[i] == p[..n - 1][i] == s[i];
    }
  }

  lemma DecodeOfSettledPrefix(p: Text, rest: Text, mode: Mode)
    requires Settled(p, |p|, mode) && p != []
    ensures Decode(p + rest, mode) == DecodeFrom(Settle(p, mode), rest, mode)
  {
    assert [] + p == p;
    PushingSettledText([], p, rest, mode);
  }

  /**
   * The decoder contracts the escape that ends first: if nothing ends before k, decoding the text and decoding it
   * after the rewrite at k give the same result. With FixedPoints this determines the result in both modes.
   */
  lemma DecodeContractsLeftmost(s: Text, k: int, mode: Mode)
    requires Reducible(s, k, mode) && Settled(s, k, mode)
    ensures Decode(s, mode) == Decode(Rewrite(s, k, mode), mode)
  {
    var p, rest := s[..k], s[k..];
    var t := Rewrite(p, k, mode);
    SettledPrefix(s, p, k, mode);
    SettledPrefix(s, t, |t|, mode);
    assert p + rest == s && t + rest == Rewrite(s, k, mode);
    DecodeOfSettledPrefix(p, rest, mode);
    DecodeOfSettledPrefix(t, rest, mode);
  }

  /** `t` comes from `s` by the rewrites at the listed positions, one after the other. */
  predicate Derives(s: Text, cuts: seq<int>, t: Text, mode: Mode)
    decreases |cuts|
  {
    if cuts == [] then s == t
    else Reducible(s, cuts[0], mode) && Derives(Rewrite(s, cuts[0], mode), cuts[1..], t, mode)
  }

  lemma {:induction false} FirstReducible(s: Text, k: int, mode: Mode) returns (first: int)
    requires Reducible(s, k, mode)
    ensures Reducible(s, first, mode) && Settled(s, first, mode)
    decreases k
  {
    first := k;
    if j :| j < k && Reducible(s, j, mode) {
      first := FirstReducible(s, j, mode);
    }
  }

  /** Decoding is itself a derivation, with at most one rewrite for each character it removes. */
  lemma {:induction false} DecodeIsADerivation(s: Text, mode: Mode) returns (cuts: seq<int>)
    ensures Derives(s, cuts, Decode(s, mode), mode)
    ensures |cuts| <= |s| - |Decode(s, mode)|
    decreases |s|
  {
    if NormalForm(s, mode) {
      FixedPoints(s, mode);
      cuts := [];
    } else {
      var k :| Reducible(s, k, mode);
      k := FirstReducible(s, k, mode);
      DecodeContractsLeftmost(s, k, mode);
      var later := DecodeIsADerivation(Rewrite(s, k, mode), mode);
      cuts := [k] + later;
      assert cuts[1..] == later;
    }
  }

  // ----- In preserve mode the order of the rewrites does not matter -----

  lemma {:induction false} DecodeFromSplits(r: Text, a: Text, b: Text, mode: Mode)
    ensures DecodeFrom(r, a + b, mode) == DecodeFrom(DecodeFrom(r, a, mode), b, mode)
    decreases |a|
  {
    if a == [] {
      assert a + b == b;
    } else {
      assert (a + b)[0] == a[0] && (a + b)[1..] == a[1..] + b;
      DecodeFromSplits(Settle(r + [a[0]], mode), a[1..], b, mode);
    }
  }

  lemma {:induction false} PushingQuietText(r: Text, e: Text, mode: Mode)
    requires forall k | |r| < k <= |r + e| :: !Reducible(r + e, k, mode)
    ensures DecodeFrom(r, e, mode) == r + e
    decreases |e|
  {
    if e == [] {
      assert r + e == r;
    } else {
      assert r + e == r + [e[0]] + e[1..];
      assert !Reducible(r + e, |r| + 1, mode);
      assert Reducible(r + [e[0]], |r| + 1, mode) == Reducible(r + e, |r| + 1, mode);
      PushingQuietText(r + [e[0]], e[1..], mode);
    }
  }

  lemma EscapeBodyIsQuiet(r: Text, e: Text)
    requires Reducible(e, |e|, Preserve) && EscapeStart(e, |e|, Preserve) == 0
    ensures DecodeFrom(r, e[..|e| - 1], Preserve) == r + e[..|e| - 1]
  {
    var body := e[..|e| - 1];
    forall k | |r| < k <= |r + body| ensures !Reducible(r + body, k, Preserve) {
      assert forall i | 0 <= i < k - |r| :: (r + body)[|r| + i] == e[i];
    }
    PushingQuietText(r, body, Preserve);
  }

  /** On any stack, pushing an escape settles only at its last character, and then to what the escape stands for. */
  lemma PushingAnEscape(r: Text, e: Text)
    requires Reducible(e, |e|, Preserve) && EscapeStart(e, |e|, Preserve) == 0
    ensures DecodeFrom(r, e, Preserve) == DecodeFrom(r, [Escaped(e, |e|, Preserve)], Preserve)
  {
    var body, last, d := e[..|e| - 1], e[|e| - 1], Escaped(e, |e|, Preserve);
    assert e == body + [last];
    EscapeBodyIsQuiet(r, e);
    DecodeFromSplits(r, body, [last], Preserve);
    var whole := r + body + [last];
    assert forall i | 0 <= i < |e| :: whole[|r| + i] == e[i];
    assert Rewrite(whole, |whole|, Preserve) == r + [d];
    assert DecodeFrom(r + body, [last], Preserve) == Settle(whole, Preserve);
  }

  lemma DecodeOfThree(a: Text, b: Text, c: Text, mode: Mode)
    ensures Decode(a + (b + c), mode) == DecodeFrom(DecodeFrom(Decode(a, mode), b, mode), c, mode)
  {
    DecodeFromSplits([], a, b + c, mode);
    DecodeFromSplits(Decode(a, mode), b, c, mode);
  }

  lemma RewritingKeepsTheResult(s: Text, k: int)
    requires Reducible(s, k, Preserve)
    ensures Decode(Rewrite(s, k, Preserve), Preserve) == Decode(s, Preserve)
  {
    var i := EscapeStart(s, k, Preserve);
    var a, e, b := s[..i], s[i..k], s[k..];
    var d := [Escaped(s, k, Preserve)];
    assert Reducible(e, |e|, Preserve) && Escaped(e, |e|, Preserve) == d[0];
    assert s == a + (e + b);
    assert Rewrite(s, k, Preserve) == a + (d + b);
    DecodeOfThree(a, e, b, Preserve);
    DecodeOfThree(a, d, b, Preserve);
    PushingAnEscape(Decode(a, Preserve), e);
  }

  /**
   * However the escapes are rewritten, once none is left the text is the decoder's answer: the decoded text is
   * the unique normal form.
   */
  lemma {:induction false} PreserveNormalFormIsUnique(s: Text, cuts: seq<int>, t: Text)
    requires Derives(s, cuts, t, Preserve) && NormalForm(t, Preserve)
    ensures t == Decode(s, Preserve)
    decreases |cuts|
  {
    if cuts == [] {
      FixedPoints(s, Preserve);
    } else {
      PreserveNormalFormIsUnique(Rewrite(s, cuts[0], Preserve), cuts[1..], t);
      RewritingKeepsTheResult(s, cuts[0]);
    }
  }

  /** Collapse mode has no such freedom: two backslashes before an `n` have two normal forms. */
  lemma CollapseDependsOnOrder()
    ensures var s := [BACKSLASH, BACKSLASH, 110];
      && Derives(s, [3], [BACKSLASH, 10], Collapse) && NormalForm([BACKSLASH, 10], Collapse)
      && Derives(s, [2, 2], [10], Collapse) && NormalForm([10], Collapse)
  {
    var s := [BACKSLASH, BACKSLASH, 110];
    assert Rewrite(s, 3, Collapse) == [BACKSLASH, 10];
    assert Rewrite(s, 2, Collapse) == [BACKSLASH, 110];
    assert Rewrite([BACKSLASH, 110], 2, Collapse) == [10];
    assert [2, 2][1..] == [2] && [3][1..] == [] && [2][1..] == [];
  }
}
