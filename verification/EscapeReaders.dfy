/** Reading one nested JSON escape forwards from its backslash run, or backwards from its end. */
module EscapeReaders {
  import opened TextModel
  import opened JsonEscapes

  /** The end of the backslash run that starts at index. */
  function RunEnd(value: Text, index: int): (end: int)
    requires 0 <= index <= |value|
    ensures index <= end <= |value|
    ensures forall i | index <= i < end :: value[i] == BACKSLASH
    ensures end < |value| ==> value[end] != BACKSLASH
    decreases |value| - index
  {
    if index < |value| && value[index] == BACKSLASH then RunEnd(value, index + 1) else index
  }

  /** The start of the backslash run that ends at index. */
  function RunStart(value: Text, index: int): (start: int)
    requires 0 <= index <= |value|
    ensures 0 <= start <= index
    ensures forall i | start <= i < index :: value[i] == BACKSLASH
    ensures start > 0 ==> value[start - 1] != BACKSLASH
    decreases index
  {
    if index > 0 && value[index - 1] == BACKSLASH then RunStart(value, index - 1) else index
  }

  /** The source's forward scanner: where the escape at index ends, and its character if it has one. */
  function Scan(value: Text, index: int): (int, Option<int>)
    requires 0 <= index
  {
    if index >= |value| || value[index] != BACKSLASH then (index, None) else
    var cursor := RunEnd(value, index);
    if cursor == |value| then (cursor, None)
    else if value[cursor] == LOWER_U then
      if UnicodeEscapeEndsAt(value, cursor + 5)
      then (cursor + 5, Some(HexCodePoint(value[cursor + 1], value[cursor + 2], value[cursor + 3], value[cursor + 4])))
      else (cursor, None)
    else match ShortEscape(value[cursor])
      case None => (cursor, None)
      case Some(decoded) => (cursor + 1, Some(decoded))
  }

  method ScanNestedJsonEscape(value: Text, index: int) returns (end: int, decoded: Option<int>)
    requires 0 <= index
    ensures (end, decoded) == Scan(value, index)
  {
    if index >= |value| || value[index] != BACKSLASH {
      return index, None;
    }
    var cursor := index;
    while cursor < |value| && value[cursor] == BACKSLASH
      invariant index <= cursor <= |value|
      invariant RunEnd(value, cursor) == RunEnd(value, index)
    {
      cursor := cursor + 1;
    }
    assert cursor == RunEnd(value, index) && value[cursor - 1] == BACKSLASH;
    if cursor >= |value| {
      return cursor, None;
    }
    if value[cursor] == LOWER_U {
      var digits := value[cursor + 1..if cursor + 5 <= |value| then cursor + 5 else |value|];
      if |digits| == 4 && IsHex(digits[0]) && IsHex(digits[1]) && IsHex(digits[2]) && IsHex(digits[3]) {
        return cursor + 5, Some(HexCodePoint(digits[0], digits[1], digits[2], digits[3]));
      }
      return cursor, None;
    }
    match ShortEscape(value[cursor])
    case None => return cursor, None;
    case Some(c) => return cursor + 1, Some(c);
  }

  // ----- The readers built on the scanner -----

  function UnicodeEscapeAt(value: Text, index: int): Option<(int, int)>
    requires 0 <= index <= |value|
  {
    var cursor := RunEnd(value, index);
    if cursor == |value| || value[cursor] != LOWER_U then None
    else match Scan(value, index)
      case (_, None) => None
      case (end, Some(decoded)) => Some((end, decoded))
  }

  function UnicodeEscapeEndingAt(value: Text, index: int): Option<(int, int)>
    requires 0 <= index <= |value|
  {
    var tokenStart := index - 5;
    if tokenStart < 1 || value[tokenStart] != LOWER_U then None
    else
      var escapeStart := RunStart(value, tokenStart);
      if escapeStart == tokenStart then None
      else match Scan(value, escapeStart)
        case (_, None) => None
        case (end, Some(decoded)) => if end != index then None else Some((escapeStart, decoded))
  }

  function ShortCharacterEndingAt(value: Text, index: int): Option<(int, int)>
    requires 0 <= index <= |value|
  {
    if index <= 1 || ShortEscape(value[index - 1]).None? then None
    else
      var escapeStart := RunStart(value, index - 1);
      if escapeStart == index - 1 then None
      else match Scan(value, escapeStart)
        case (_, None) => None
        case (end, Some(decoded)) => if end != index then None else Some((escapeStart, decoded))
  }

  predicate IsHighSurrogate(c: int) { 0xD800 <= c <= 0xDBFF }

  predicate IsLowSurrogate(c: int) { 0xDC00 <= c <= 0xDFFF }

  function Combine(high: int, low: int): int {
    0x10000 + (high - 0xD800) * 0x400 + (low - 0xDC00)
  }

  /** Forwards: an escaped surrogate pair is one character. */
  function UnicodeCharacterWithEndAt(value: Text, index: int): Option<(int, int)>
    requires 0 <= index <= |value|
  {
    match UnicodeEscapeAt(value, index)
    case None => None
    case Some((end, c)) =>
      if IsHighSurrogate(c) && 0 <= end <= |value| then
        match UnicodeEscapeAt(value, end)
        case Some((followingEnd, low)) =>
          if IsLowSurrogate(low) then Some((followingEnd, Combine(c, low))) else Some((end, c))
        case None => Some((end, c))
      else Some((end, c))
  }

  /** Backwards, from the end of the escape. */
  function UnicodeCharacterWithStartEndingAt(value: Text, index: int): Option<(int, int)>
    requires 0 <= index <= |value|
  {
    match UnicodeEscapeEndingAt(value, index)
    case None => None
    case Some((start, c)) =>
      if IsLowSurrogate(c) && 0 <= start <= |value| then
        match UnicodeEscapeEndingAt(value, start)
        case Some((previousStart, high)) =>
          if IsHighSurrogate(high) then Some((previousStart, Combine(high, c))) else Some((start, c))
        case None => Some((start, c))
      else Some((start, c))
  }

  // ----- Agreement -----

  /** No backslash stands just before index: an escape that starts there uses its whole backslash run. */
  predicate IsRunStart(value: Text, index: int) {
    0 <= index <= |value| && (index > 0 ==> value[index - 1] != BACKSLASH)
  }

  lemma RunStartIsUnique(value: Text, start: int, end: int)
    requires 0 <= start <= end <= |value| && IsRunStart(value, start)
    requires forall i | start <= i < end :: value[i] == BACKSLASH
    ensures RunStart(value, end) == start
  {
  }

  /** The single-escape readers are inverse: forwards from s ends at e exactly when backwards from e starts at s. */
  lemma UnicodeReadersAreInverse(value: Text, s: int, e: int, c: int)
    requires 0 <= s <= |value| && 0 <= e <= |value|
    ensures IsRunStart(value, s) && UnicodeEscapeAt(value, s) == Some((e, c))
      <==> UnicodeEscapeEndingAt(value, e) == Some((s, c))
  {
    if IsRunStart(value, s) && UnicodeEscapeAt(value, s) == Some((e, c)) {
      RunStartIsUnique(value, s, RunEnd(value, s));
    }
    if UnicodeEscapeEndingAt(value, e) == Some((s, c)) {
      assert e - 5 < |value| && value[e - 5] == LOWER_U;
      assert RunEnd(value, s) == e - 5;
    }
  }

  /** The short-escape reader agrees with the scanner in the same way. */
  lemma ShortReaderIsInverse(value: Text, s: int, e: int, c: int)
    requires 0 <= s <= |value| && 0 < e <= |value|
    ensures IsRunStart(value, s) && Scan(value, s) == (e, Some(c)) && value[RunEnd(value, s)] != LOWER_U
      <==> ShortCharacterEndingAt(value, e) == Some((s, c))
  {
    if IsRunStart(value, s) && Scan(value, s) == (e, Some(c)) && value[RunEnd(value, s)] != LOWER_U {
      RunStartIsUnique(value, s, RunEnd(value, s));
    }
    if ShortCharacterEndingAt(value, e) == Some((s, c)) {
      assert RunEnd(value, s) == e - 1;
    }
  }

  /** An escape is followed by its last digit, never by a backslash: the next one starts a run. */
  lemma EscapeEndsAtRunStart(value: Text, s: int)
    requires 0 <= s <= |value| && UnicodeEscapeAt(value, s).Some?
    ensures var e := UnicodeEscapeAt(value, s).value.0; s < e <= |value| && IsRunStart(value, e)
  {
  }

  /** The escape at s is the low half of a pair whose high half is escaped just before it. */
  predicate IsSecondHalf(value: Text, s: int, c: int)
    requires 0 <= s <= |value|
  {
    IsLowSurrogate(c) && UnicodeEscapeEndingAt(value, s).Some?
      && IsHighSurrogate(UnicodeEscapeEndingAt(value, s).value.1)
  }

  /**
   * Reading a character forwards from the start s of a backslash run and then backwards from its end comes back to s
   * with the same character exactly when it is not a low surrogate that completes an escaped pair; then the backward
   * reader goes past s and takes the whole pair.
   */
  lemma BackwardUndoesForward(value: Text, s: int)
    requires IsRunStart(value, s) && UnicodeCharacterWithEndAt(value, s).Some?
    ensures var (e, c) := UnicodeCharacterWithEndAt(value, s).value;
      && s < e <= |value|
      && var back := UnicodeCharacterWithStartEndingAt(value, e);
      && back.Some?
      && (back == Some((s, c)) <==> !IsSecondHalf(value, s, c))
      && (IsSecondHalf(value, s, c) ==> back.value.0 < s && back.value.1 >= 0x10000)
  {
    var (end, first) := UnicodeEscapeAt(value, s).value;
    EscapeEndsAtRunStart(value, s);
    UnicodeReadersAreInverse(value, s, end, first);
    if IsHighSurrogate(first) && UnicodeEscapeAt(value, end).Some? {
      var (next, low) := UnicodeEscapeAt(value, end).value;
      EscapeEndsAtRunStart(value, end);
      UnicodeReadersAreInverse(value, end, next, low);
    }
    if UnicodeEscapeEndingAt(value, s).Some? {
      var (previous, high) := UnicodeEscapeEndingAt(value, s).value;
      UnicodeReadersAreInverse(value, previous, s, high);
      assert previous < s;
    }
  }

  /**
   * The converse: a character read backwards is read forwards again, unless it is a high half cut from its low half.
   */
  lemma ForwardUndoesBackward(value: Text, e: int)
    requires 0 <= e <= |value| && UnicodeCharacterWithStartEndingAt(value, e).Some?
    ensures var (s, c) := UnicodeCharacterWithStartEndingAt(value, e).value;
      && 0 <= s < e && IsRunStart(value, s)
      && var again := UnicodeCharacterWithEndAt(value, s);
      && again.Some?
      && (again == Some((e, c)) <==>
          !(IsHighSurrogate(c) && UnicodeEscapeAt(value, e).Some? && IsLowSurrogate(UnicodeEscapeAt(value, e).value.1)))
  {
    var (s, c) := UnicodeEscapeEndingAt(value, e).value;
    UnicodeReadersAreInverse(value, s, e, c);
    if IsLowSurrogate(c) && UnicodeEscapeEndingAt(value, s).Some? {
      var (previous, high) := UnicodeEscapeEndingAt(value, s).value;
      UnicodeReadersAreInverse(value, previous, s, high);
    }
    if UnicodeEscapeAt(value, e).Some? {
      EscapeEndsAtRunStart(value, e);
    }
  }

  // ----- Surrogate pairs (section 2.2 of RFC 2781) -----

  /** The UTF-16 halves of a supplementary code point. */
  function Utf16High(c: int): int { 0xD800 + (c - 0x10000) / 0x400 }

  function Utf16Low(c: int): int { 0xDC00 + (c - 0x10000) % 0x400 }

  /** Combining is the inverse of splitting, both ways, and lands in the supplementary planes. */
  lemma CombineUndoesUtf16(c: int, high: int, low: int)
    ensures IsHighSurrogate(high) && IsLowSurrogate(low) ==>
      && 0x10000 <= Combine(high, low) <= 0x10FFFF
      && Utf16High(Combine(high, low)) == high && Utf16Low(Combine(high, low)) == low
    ensures 0x10000 <= c <= 0x10FFFF ==>
      && IsHighSurrogate(Utf16High(c)) && IsLowSurrogate(Utf16Low(c))
      && Combine(Utf16High(c), Utf16Low(c)) == c
  {
  }

  // ----- The token generator -----

  datatype Token = Token(start: int, end: int, decoded: int)

  /** Every readable escape of the text, left to right. */
  ghost predicate IsEscapeToken(value: Text, t: Token) {
    && 0 <= t.start < |value| && IsRunStart(value, t.start)
    && Scan(value, t.start) == (t.end, Some(t.decoded))
  }

  ghost predicate AreEscapeTokensBefore(value: Text, tokens: seq<Token>, cursor: int) {
    && (forall i | 0 <= i < |tokens| :: IsEscapeToken(value, tokens[i]) && tokens[i].end <= cursor)
    && (forall i, j | 0 <= i < j < |tokens| :: tokens[i].end <= tokens[j].start)
    && (forall t | IsEscapeToken(value, t) && t.start < cursor :: t in tokens)
  }

  lemma ScanBounds(value: Text, s: int)
    requires 0 <= s < |value| && value[s] == BACKSLASH
    ensures var (end, decoded) := Scan(value, s);
      && s < end <= |value|
      && (decoded.None? ==> end == RunEnd(value, s))
      && (decoded.Some? ==> IsRunStart(value, end))
  {
  }

  /** No escape starts strictly inside what the scanner consumed. */
  lemma NothingStartsInside(value: Text, s: int, t: Token)
    requires IsRunStart(value, s) && s < |value| && value[s] == BACKSLASH
    requires IsEscapeToken(value, t) && s <= t.start < Scan(value, s).0
    ensures t.start == s && Scan(value, s).1 == Some(t.decoded)
  {
    assert value[t.start] == BACKSLASH;
    assert t.start < RunEnd(value, s);
  }

  /**
   * The generator yields exactly the readable escapes that use their whole backslash run, in order, without overlap.
   */
  method NestedJsonEscapeTokens(value: Text) returns (tokens: seq<Token>)
    ensures AreEscapeTokensBefore(value, tokens, |value|)
  {
    tokens := [];
    var cursor := 0;
    while cursor < |value|
      invariant 0 <= cursor <= |value|
      invariant AreEscapeTokensBefore(value, tokens, cursor)
      invariant cursor < |value| ==> IsRunStart(value, cursor) || value[cursor] != BACKSLASH
      decreases |value| - cursor
    {
      var start := cursor;
      while start < |value| && value[start] != BACKSLASH
        invariant cursor <= start <= |value|
        invariant forall i | cursor <= i < start :: value[i] != BACKSLASH
      {
        start := start + 1;
      }
      if start == |value| {
        return;
      }
      assert IsRunStart(value, start);
      var end, decoded := ScanNestedJsonEscape(value, start);
      ScanBounds(value, start);
      forall t | IsEscapeToken(value, t) && cursor <= t.start < end
        ensures decoded.Some? && t == Token(start, end, decoded.value)
      {
        assert value[t.start] == BACKSLASH;
        NothingStartsInside(value, start, t);
      }
      if decoded.Some? {
        tokens := tokens + [Token(start, end, decoded.value)];
        assert IsEscapeToken(value, tokens[|tokens| - 1]);
        cursor := end;
        continue;
      }
      cursor := if start + 1 < end then end else start + 1;
    }
  }
}
