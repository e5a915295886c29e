/** Detecting private RSA members inside RSAKeyValue elements with a stack of open elements. */
module XmlRsaScan {
  import opened TextModel

  const LT := 60
  const GT := 62
  const COLON := 58
  const MAX_OPEN := 256
  const MAX_HEADER := 4096
  const MAX_BODY := 4096
  const MAX_NAME := 128

  /** "rsakeyvalue" */
  const RSA_KEY_VALUE: Text := [114, 115, 97, 107, 101, 121, 118, 97, 108, 117, 101]

  /** "d", "p", "q", "dp", "dq" and "inverseq" */
  const PRIVATE_MEMBERS: set<Text> :=
    {[100], [112], [113], [100, 112], [100, 113], [105, 110, 118, 101, 114, 115, 101, 113]}

  predicate IsLetter(c: int) { 'A' as int <= c <= 'Z' as int || 'a' as int <= c <= 'z' as int }

  predicate IsNameStart(c: int) { IsLetter(c) || c == '_' as int }

  predicate IsNameChar(c: int) {
    IsNameStart(c) || IsDigit(c) || c == '.' as int || c == ':' as int || c == '-' as int
  }

  predicate EndsName(c: int) {
    c == '\t' as int || c == '\n' as int || c == '\r' as int || c == ' ' as int || c == '/' as int || c == '>' as int
  }

  /** The names the scan recognises. */
  predicate IsName(t: Text) {
    1 <= |t| <= MAX_NAME && IsNameStart(t[0]) && forall i | 0 <= i < |t| :: IsNameChar(t[i])
  }

  function Lower(t: Text): Text {
    if t == [] then [] else [if 65 <= t[0] <= 90 then t[0] + 32 else t[0]] + Lower(t[1..])
  }

  /** The part of a name after its last colon, in lower case. */
  function LocalName(name: Text): Text {
    if COLON in name then (if name[0] == COLON && COLON !in name[1..] then Lower(name[1..]) else LocalName(name[1..]))
      else Lower(name)
  }

  // ----- Tags -----

  datatype Tag = Tag(closing: bool, name: Text, end: nat)

  /** The tag whose name starts at `start` and has been read up to `cursor`. */
  function TagFrom(value: Text, closing: bool, start: nat, cursor: nat): (t: Option<Tag>)
    requires start <= cursor <= |value|
    ensures t.Some? ==> cursor <= t.value.end < |value| && start < t.value.end
    decreases |value| - cursor
  {
    if cursor < |value| && IsNameChar(value[cursor]) then TagFrom(value, closing, start, cursor + 1)
    else if start < cursor <= start + MAX_NAME && IsNameStart(value[start]) && cursor < |value|
      && EndsName(value[cursor])
    then Some(Tag(closing, value[start..cursor], cursor))
    else None
  }

  /** The tag whose `<` is at position i, if there is one. */
  function TagAt(value: Text, i: nat): (t: Option<Tag>)
    requires i <= |value|
    ensures t.Some? ==> i < t.value.end < |value|
  {
    if i == |value| || value[i] != LT then None
    else if i + 1 < |value| && value[i + 1] == SLASH then TagFrom(value, true, i + 2, i + 2)
    else TagFrom(value, false, i + 1, i + 1)
  }

  /** Where the header of an opening tag ends: the first `>` outside quotes, before any `<` and within the limit. */
  function HeaderEnd(value: Text, cursor: nat, limit: nat, quote: Option<int>): (end: Option<nat>)
    requires cursor <= limit <= |value|
    ensures end.Some? ==> cursor <= end.value < |value|
    decreases limit - cursor
  {
    if cursor == limit then None
    else
      var c := value[cursor];
      match quote
      case Some(q) => HeaderEnd(value, cursor + 1, limit, if c == q then None else quote)
      case None =>
        if c == DOUBLE_QUOTE || c == SINGLE_QUOTE then HeaderEnd(value, cursor + 1, limit, Some(c))
        else if c == GT then Some(cursor)
        else if c == LT then None
        else HeaderEnd(value, cursor + 1, limit, None)
  }

  function HeaderLimit(value: Text, start: nat): (limit: nat)
    requires start <= |value|
    ensures start <= limit <= |value|
  {
    if |value| < start + MAX_HEADER + 1 then |value| else start + MAX_HEADER + 1
  }

  function XmlTagHeaderEnd(value: Text, start: nat): (end: Option<nat>)
    requires start <= |value|
    ensures end.Some? ==> start <= end.value < |value|
  {
    HeaderEnd(value, start, HeaderLimit(value, start), None)
  }

  method FindTagHeaderEnd(value: Text, start: nat) returns (end: Option<nat>)
    requires start <= |value|
    ensures end == XmlTagHeaderEnd(value, start)
  {
    var quote: Option<int> := None;
    var limit := HeaderLimit(value, start);
    for cursor := start to limit
      invariant HeaderEnd(value, start, limit, None) == HeaderEnd(value, cursor, limit, quote)
    {
      var character := value[cursor];
      if quote.Some? {
        if character == quote.value {
          quote := None;
        }
        continue;
      }
      if character == DOUBLE_QUOTE || character == SINGLE_QUOTE {
        quote := Some(character);
        continue;
      }
      if character == GT {
        return Some(cursor);
      }
      if character == LT {
        return None;
      }
    }
    return None;
  }

  function RStrip(t: Text): Text { if t != [] && IsSpace(t[|t| - 1]) then RStrip(t[..|t| - 1]) else t }

  predicate EndsWithSlash(t: Text) { t != [] && t[|t| - 1] == SLASH }

  predicate IsSelfClosing(header: Text) { EndsWithSlash(RStrip(header)) }

  predicate BodyIsNonempty(body: Text) { |body| > MAX_BODY || !IsBlank(body) }

  // ----- The scan -----

  datatype Frame = Frame(tag: Text, bodyStart: nat, insideRsa: bool, isPrivate: bool)

  predicate InsideRsa(frames: seq<Frame>) { frames != [] && frames[|frames| - 1].insideRsa }

  function NewFrame(tag: Text, bodyStart: nat, insideRsa: bool): Frame {
    Frame(tag, bodyStart, insideRsa || LocalName(tag) == RSA_KEY_VALUE, insideRsa && LocalName(tag) in PRIVATE_MEMBERS)
  }

  /** What one tag does: an answer, or the frames to go on with. */
  datatype Effect = Found | GoOn(frames: seq<Frame>)

  function OnTag(value: Text, i: nat, tag: Tag, frames: seq<Frame>): Effect
    requires i < tag.end <= |value|
  {
    if tag.closing then
      if frames == [] || frames[|frames| - 1].tag != tag.name then GoOn(frames)
      else
        var frame := frames[|frames| - 1];
        if frame.isPrivate && frame.bodyStart <= i && BodyIsNonempty(value[frame.bodyStart..i]) then Found
        else GoOn(frames[..|frames| - 1])
    else
      var inside := InsideRsa(frames) || LocalName(tag.name) == RSA_KEY_VALUE;
      match XmlTagHeaderEnd(value, tag.end)
      case None => if inside then Found else GoOn(frames)
      case Some(headerEnd) =>
        if IsSelfClosing(value[tag.end..headerEnd]) then GoOn(frames)
        else if |frames| >= MAX_OPEN then Found
        else GoOn(frames + [NewFrame(tag.name, headerEnd + 1, InsideRsa(frames))])
  }

  /** Whether an element left open at the end of the text is a private member with a body. */
  predicate UnclosedHit(value: Text, frames: seq<Frame>) {
    exists k | 0 <= k < |frames| ::
      frames[k].isPrivate && frames[k].bodyStart <= |value| && BodyIsNonempty(value[frames[k].bodyStart..])
  }

  function ScanFrom(value: Text, i: nat, frames: seq<Frame>): bool
    requires i <= |value|
    decreases |value| - i
  {
    if i == |value| then UnclosedHit(value, frames)
    else match TagAt(value, i)
      case None => ScanFrom(value, i + 1, frames)
      case Some(tag) =>
        match OnTag(value, i, tag, frames)
        case Found => true
        case GoOn(next) => ScanFrom(value, tag.end, next)
  }

  /** The loop's work on one tag: `None` for an answer, else the frames after it. */
  method HandleTag(value: Text, matchStart: nat, tag: Tag, before: seq<Frame>) returns (frames: Option<seq<Frame>>)
    requires matchStart < tag.end <= |value|
    ensures OnTag(value, matchStart, tag, before) == match frames { case None => Found case Some(next) => GoOn(next) }
  {
    if tag.closing {
      if before == [] || before[|before| - 1].tag != tag.name {
        return Some(before);
      }
      var frame := before[|before| - 1];
      if frame.isPrivate && frame.bodyStart <= matchStart && BodyIsNonempty(value[frame.bodyStart..matchStart]) {
        return None;
      }
      return Some(before[..|before| - 1]);
    }
    var parentIsRsaKey := before != [] && before[|before| - 1].insideRsa;
    var insideRsaKey := parentIsRsaKey || LocalName(tag.name) == RSA_KEY_VALUE;
    var isPrivateMember := parentIsRsaKey && LocalName(tag.name) in PRIVATE_MEMBERS;
    var headerEnd := FindTagHeaderEnd(value, tag.end);
    if headerEnd.None? {
      return if insideRsaKey then None else Some(before);
    }
    if IsSelfClosing(value[tag.end..headerEnd.value]) {
      return Some(before);
    }
    if |before| >= MAX_OPEN {
      return None;
    }
    return Some(before + [Frame(tag.name, headerEnd.value + 1, insideRsaKey, isPrivateMember)]);
  }

  method ContainsXmlSerializedRsaPrivateKey(value: Text) returns (found: bool)
    ensures found == ScanFrom(value, 0, [])
  {
    var frames: seq<Frame> := [];
    var i := 0;
    while i < |value|
      invariant 0 <= i <= |value|
      invariant ScanFrom(value, 0, []) == ScanFrom(value, i, frames)
    {
      var tag := TagAt(value, i);
      if tag.None? {
        i := i + 1;
        continue;
      }
      var next := HandleTag(value, i, tag.value, frames);
      if next.None? {
        return true;
      }
      i, frames := tag.value.end, next.value;
    }
    return UnclosedHit(value, frames);
  }

  // ----- What a tag header is -----

  /** A piece of a tag header: a character that is no mark, or a quoted value. */
  datatype Piece = Mark(c: int) | Value(quote: int, text: Text) {
    predicate Valid() {
      match this
      case Mark(c) => c !in {LT, GT, DOUBLE_QUOTE, SINGLE_QUOTE}
      case Value(quote, text) => quote in {DOUBLE_QUOTE, SINGLE_QUOTE} && quote !in text
    }

    function Print(): Text { if Mark? then [c] else [quote] + (text + [quote]) }
  }

  predicate PiecesValid(pieces: seq<Piece>) { forall k | 0 <= k < |pieces| :: pieces[k].Valid() }

  function PrintPieces(pieces: seq<Piece>): Text {
    if pieces == [] then [] else pieces[0].Print() + PrintPieces(pieces[1..])
  }

  /** Reading a header: between values, inside one, or stopped at a mark. */
  datatype Reading = Between | Inside(quote: int) | Stopped

  function ReadOne(state: Reading, c: int): Reading {
    match state
    case Between =>
      if c == DOUBLE_QUOTE || c == SINGLE_QUOTE then Inside(c) else if c == GT || c == LT then Stopped else Between
    case Inside(q) => if c == q then Between else state
    case Stopped => Stopped
  }

  function Read(state: Reading, t: Text): Reading
    decreases |t|
  {
    if t == [] then state else Read(ReadOne(state, t[0]), t[1..])
  }

  lemma {:induction false} ReadSplits(state: Reading, a: Text, b: Text)
    ensures Read(state, a + b) == Read(Read(state, a), b)
    decreases |a|
  {
    if a == [] {
      assert a + b == b;
    } else {
      assert (a + b)[0] == a[0] && (a + b)[1..] == a[1..] + b;
      ReadSplits(ReadOne(state, a[0]), a[1..], b);
    }
  }

  lemma {:induction false} ReadStopped(t: Text)
    ensures Read(Stopped, t) == Stopped
    decreases |t|
  {
    if t != [] {
      ReadStopped(t[1..]);
    }
  }

  lemma {:induction false} ReadQuoted(quote: int, text: Text)
    requires quote !in text
    ensures Read(Inside(quote), text) == Inside(quote)
    decreases |text|
  {
    if text != [] {
      assert text[0] in text;
      ReadQuoted(quote, text[1..]);
    }
  }

  lemma ReadOneCharacter(state: Reading, c: int)
    ensures Read(state, [c]) == ReadOne(state, c)
  {
    assert [c][1..] == [];
  }

  lemma ReadPiece(piece: Piece)
    requires piece.Valid()
    ensures Read(Between, piece.Print()) == Between
  {
    match piece
    case Mark(c) => ReadOneCharacter(Between, c);
    case Value(quote, text) =>
      ReadSplits(Between, [quote], text + [quote]);
      ReadOneCharacter(Between, quote);
      ReadSplits(Inside(quote), text, [quote]);
      ReadQuoted(quote, text);
      ReadOneCharacter(Inside(quote), quote);
  }

  lemma {:induction false} ReadPieces(pieces: seq<Piece>)
    requires PiecesValid(pieces)
    ensures Read(Between, PrintPieces(pieces)) == Between
  {
    if pieces != [] {
      ReadSplits(Between, pieces[0].Print(), PrintPieces(pieces[1..]));
      ReadPiece(pieces[0]);
      ReadPieces(pieces[1..]);
    }
  }

  /** A text read from inside a value to between values closes the value first. */
  lemma {:induction false} QuoteCloses(quote: int, t: Text) returns (text: Text, rest: Text)
    requires Read(Inside(quote), t) == Between
    ensures t == text + ([quote] + rest) && quote !in text && Read(Between, rest) == Between
    decreases |t|
  {
    if t[0] == quote {
      text, rest := [], t[1..];
    } else {
      text, rest := QuoteCloses(quote, t[1..]);
      assert t == [t[0]] + (text + ([quote] + rest));
      text := [t[0]] + text;
    }
  }

  lemma ValueInText(t: Text, text: Text, rest: Text)
    requires t != [] && t[1..] == text + ([t[0]] + rest)
    ensures t == Value(t[0], text).Print() + rest
  {
    assert t == [t[0]] + t[1..];
  }

  lemma {:induction false} ReadTextIsPieces(t: Text) returns (pieces: seq<Piece>)
    requires Read(Between, t) == Between
    ensures PiecesValid(pieces) && PrintPieces(pieces) == t
    decreases |t|
  {
    if t == [] {
      pieces := [];
    } else if t[0] == DOUBLE_QUOTE || t[0] == SINGLE_QUOTE {
      var text, rest := QuoteCloses(t[0], t[1..]);
      var more := ReadTextIsPieces(rest);
      PrintOneMore(Value(t[0], text), more);
      pieces := [Value(t[0], text)] + more;
      ValueInText(t, text, rest);
    } else {
      assert ReadOne(Between, t[0]) == Between by {
        ReadStopped(t[1..]);
      }
      var more := ReadTextIsPieces(t[1..]);
      PrintOneMore(Mark(t[0]), more);
      pieces := [Mark(t[0])] + more;
    }
  }

  lemma PrintOneMore(piece: Piece, rest: seq<Piece>)
    ensures PrintPieces([piece] + rest) == piece.Print() + PrintPieces(rest)
    ensures piece.Valid() && PiecesValid(rest) ==> PiecesValid([piece] + rest)
  {
    assert ([piece] + rest)[1..] == rest;
  }

  function StateOf(quote: Option<int>): Reading { match quote case Some(q) => Inside(q) case None => Between }

  /** The loop stops at `end` exactly when the text up to there reads to between values and a `>` follows. */
  lemma {:induction false} HeaderEndReads(value: Text, i: nat, limit: nat, quote: Option<int>, end: nat)
    requires i <= limit <= |value| && (quote.Some? ==> quote.value in {DOUBLE_QUOTE, SINGLE_QUOTE})
    ensures HeaderEnd(value, i, limit, quote) == Some(end) <==>
      i <= end < limit && value[end] == GT && Read(StateOf(quote), value[i..end]) == Between
    decreases limit - i
  {
    if i < limit {
      var next := ReadOne(StateOf(quote), value[i]);
      if i < end < limit {
        assert value[i..end][0] == value[i] && value[i..end][1..] == value[i + 1..end];
        if next == Stopped {
          ReadStopped(value[i + 1..end]);
        }
      }
      if next != Stopped {
        HeaderEndReads(value, i + 1, limit, if next.Inside? then Some(next.quote) else None, end);
      }
    }
  }

  /** `pieces` make up the header that ends at `end`, within the limit. */
  ghost predicate IsHeader(value: Text, start: nat, end: nat, pieces: seq<Piece>) {
    && start <= end < |value| && value[end] == GT && end - start <= MAX_HEADER
    && PiecesValid(pieces) && PrintPieces(pieces) == value[start..end]
  }

  /**
   * A header ends at the first `>` outside quotes, with no `<` outside quotes before it and after at most 4096
   * characters: exactly where the text up to a `>` is made of quoted values and characters that are no marks.
   */
  lemma HeaderEndMeetsGrammar(value: Text, start: nat, end: nat)
    requires start <= |value|
    ensures XmlTagHeaderEnd(value, start) == Some(end) <==> exists pieces :: IsHeader(value, start, end, pieces)
  {
    HeaderEndReads(value, start, HeaderLimit(value, start), None, end);
    if XmlTagHeaderEnd(value, start) == Some(end) {
      var pieces := ReadTextIsPieces(value[start..end]);
      assert IsHeader(value, start, end, pieces);
    }
    if pieces :| IsHeader(value, start, end, pieces) {
      ReadPieces(pieces);
    }
  }

  // ----- XML trees -----

  /** NameStartChar and NameChar of section 2.3 of XML 1.0. */
  predicate IsXmlNameStart(c: int) {
    || c == COLON || c == 95 || IsLetter(c)
    || 0xC0 <= c <= 0xD6 || 0xD8 <= c <= 0xF6 || 0xF8 <= c <= 0x2FF || 0x370 <= c <= 0x37D || 0x37F <= c <= 0x1FFF
    || 0x200C <= c <= 0x200D || 0x2070 <= c <= 0x218F || 0x2C00 <= c <= 0x2FEF || 0x3001 <= c <= 0xD7FF
    || 0xF900 <= c <= 0xFDCF || 0xFDF0 <= c <= 0xFFFD || 0x10000 <= c <= 0xEFFFF
  }

  predicate IsXmlNameChar(c: int) {
    IsXmlNameStart(c) || c == 45 || c == 46 || IsDigit(c) || c == 0xB7 || 0x300 <= c <= 0x36F || 0x203F <= c <= 0x2040
  }

  /** Any name an element may have; the scan recognises only those that are `IsName`. */
  predicate IsXmlName(t: Text) { t != [] && IsXmlNameStart(t[0]) && forall i | 0 <= i < |t| :: IsXmlNameChar(t[i]) }

  /**
   * Character data and attribute values hold no `<` (sections 2.4 and 3.1 of XML 1.0). A header is what stands between
   * the name of a tag and its `>`: nothing, or attributes after white space, of at most 4096 characters. Comments,
   * CDATA sections and processing instructions are no nodes.
   */
  datatype Node =
    | Element(tag: Text, header: seq<Piece>, children: seq<Node>)
    | EmptyTag(tag: Text, header: seq<Piece>)
    | Chars(text: Text)
  {
    predicate Valid() {
      match this
      case Element(tag, header, children) =>
        IsXmlName(tag) && HeaderValid(header, false) && forall k | 0 <= k < |children| :: children[k].Valid()
      case EmptyTag(tag, header) => IsXmlName(tag) && HeaderValid(header, true)
      case Chars(text) => LT !in text
    }
  }

  /** The header of a tag, which ends in a slash exactly when the element is empty. */
  predicate HeaderValid(header: seq<Piece>, selfClosing: bool) {
    PiecesValid(header) && HeaderTextValid(PrintPieces(header), selfClosing)
  }

  predicate HeaderTextValid(text: Text, selfClosing: bool) {
    && LT !in text && |text| <= MAX_HEADER && (text != [] ==> EndsName(text[0])) && IsSelfClosing(text) == selfClosing
  }

  function OpenTag(tag: Text, header: Text): (t: Text)
    ensures |t| == |tag| + |header| + 2
  {
    [LT] + tag + (header + [GT])
  }

  function CloseTag(tag: Text): (t: Text)
    ensures |t| == |tag| + 3
  {
    [LT, SLASH] + tag + [GT]
  }

  function Print(n: Node): Text
    decreases n, 0
  {
    match n
    case Element(tag, header, children) => OpenTag(tag, PrintPieces(header)) + PrintAll(children) + CloseTag(tag)
    case EmptyTag(tag, header) => OpenTag(tag, PrintPieces(header))
    case Chars(text) => text
  }

  function PrintAll(nodes: seq<Node>): Text
    decreases nodes, 1
  {
    if nodes == [] then [] else Print(nodes[0]) + PrintAll(nodes[1..])
  }

  /** How deep elements with recognised names nest. */
  function Depth(n: Node): nat
    decreases n, 0
  {
    if !n.Element? then 0 else if IsName(n.tag) then 1 + DepthAll(n.children) else DepthAll(n.children)
  }

  function DepthAll(nodes: seq<Node>): nat
    decreases nodes, 1
  {
    if nodes == [] then 0 else Max(Depth(nodes[0]), DepthAll(nodes[1..]))
  }

  function Max(a: nat, b: nat): nat { if a < b then b else a }

  /** The tree search: a private member with a nonempty body directly or indirectly inside an RSAKeyValue element. */
  predicate Holds(n: Node, insideRsa: bool)
    decreases n, 0
  {
    n.Element? &&
    (|| (insideRsa && LocalName(n.tag) in PRIVATE_MEMBERS && BodyIsNonempty(PrintAll(n.children)))
     || SomeHolds(n.children, insideRsa || LocalName(n.tag) == RSA_KEY_VALUE))
  }

  predicate SomeHolds(nodes: seq<Node>, insideRsa: bool)
    decreases nodes, 1
  {
    nodes != [] && (Holds(nodes[0], insideRsa) || SomeHolds(nodes[1..], insideRsa))
  }

  /** The search that looks through elements whose names are not recognised, as if only their content were there. */
  predicate Shows(n: Node, insideRsa: bool)
    decreases n, 0
  {
    n.Element? &&
    if IsName(n.tag) then
      || (insideRsa && LocalName(n.tag) in PRIVATE_MEMBERS && BodyIsNonempty(PrintAll(n.children)))
      || SomeShows(n.children, insideRsa || LocalName(n.tag) == RSA_KEY_VALUE)
    else SomeShows(n.children, insideRsa)
  }

  predicate SomeShows(nodes: seq<Node>, insideRsa: bool)
    decreases nodes, 1
  {
    nodes != [] && (Shows(nodes[0], insideRsa) || SomeShows(nodes[1..], insideRsa))
  }

  // ----- The scan follows printed trees -----

  /** The text t stands at position i. */
  ghost predicate At(value: Text, i: nat, t: Text)
    ensures At(value, i, t) ==> i + |t| <= |value|
    decreases |t|
  {
    if t == [] then i <= |value| else i < |value| && value[i] == t[0] && At(value, i + 1, t[1..])
  }

  lemma {:induction false} AtParts(value: Text, i: nat, a: Text, b: Text)
    requires At(value, i, a + b)
    ensures At(value, i, a) && At(value, i + |a|, b)
    decreases |a|
  {
    if a == [] {
      assert a + b == b;
    } else {
      assert (a + b)[0] == a[0] && (a + b)[1..] == a[1..] + b;
      AtParts(value, i + 1, a[1..], b);
    }
  }

  lemma {:induction false} AtSlice(value: Text, i: nat, t: Text)
    requires At(value, i, t)
    ensures value[i..i + |t|] == t
    decreases |t|
  {
    if t != [] {
      AtSlice(value, i + 1, t[1..]);
      assert value[i..i + |t|] == [value[i]] + value[i + 1..i + |t|];
    }
  }

  lemma {:induction false} StandsInside(value: Text, i: nat)
    requires i <= |value|
    ensures At(value, i, value[i..])
    decreases |value| - i
  {
    if i < |value| {
      assert value[i..][1..] == value[i + 1..];
      StandsInside(value, i + 1);
    }
  }

  lemma {:induction false} TagFromName(value: Text, closing: bool, start: nat, name: Text, n: nat)
    requires At(value, start, name) && IsName(name) && n <= |name|
    requires start + |name| < |value| && EndsName(value[start + |name|])
    ensures TagFrom(value, closing, start, start + n) == Some(Tag(closing, name, start + |name|))
    decreases |name| - n
  {
    AtSlice(value, start, name);
    assert value[start..start + |name|][0] == name[0];
    if n < |name| {
      assert value[start..start + |name|][n] == name[n];
      TagFromName(value, closing, start, name, n + 1);
    }
  }

  lemma TagOfName(value: Text, i: nat, name: Text, closing: bool)
    requires IsName(name) && At(value, i, (if closing then [LT, SLASH] else [LT]) + name)
    requires var end := i + (if closing then 2 else 1) + |name|; end < |value| && EndsName(value[end])
    ensures TagAt(value, i) == Some(Tag(closing, name, i + (if closing then 2 else 1) + |name|))
  {
    var mark := if closing then [LT, SLASH] else [LT];
    AtParts(value, i, mark, name);
    assert value[i] == mark[0] && (closing ==> value[i + 1] == mark[1..][0]);
    assert value[i + |mark|] == name[0];
    TagFromName(value, closing, i + |mark|, name, 0);
  }

  lemma {:induction false} ScanOverChars(value: Text, i: nat, text: Text, frames: seq<Frame>)
    requires LT !in text && At(value, i, text)
    ensures ScanFrom(value, i, frames) == ScanFrom(value, i + |text|, frames)
    decreases |text|
  {
    if text != [] {
      assert value[i] == text[0] && text[0] in text;
      ScanOverChars(value, i + 1, text[1..], frames);
    }
  }

  lemma OpenTagStandsAt(value: Text, i: nat, tag: Text, header: Text)
    requires At(value, i, OpenTag(tag, header))
    ensures var end := i + 1 + |tag|;
      && At(value, i, [LT] + tag) && At(value, end, header + [GT])
      && end + |header| < |value| && value[end + |header|] == GT && value[end..end + |header|] == header
  {
    var end := i + 1 + |tag|;
    AtParts(value, i, [LT] + tag, header + [GT]);
    AtParts(value, end, header, [GT]);
    AtSlice(value, end, header);
  }

  lemma NameEndsBeforeHeader(value: Text, end: nat, header: Text)
    requires At(value, end, header + [GT]) && (header != [] ==> EndsName(header[0]))
    ensures end < |value| && EndsName(value[end])
  {
    assert value[end] == (header + [GT])[0];
  }

  lemma HeaderStandsAt(value: Text, end: nat, pieces: seq<Piece>, stop: nat)
    requires PiecesValid(pieces) && |PrintPieces(pieces)| <= MAX_HEADER && stop == end + |PrintPieces(pieces)|
    requires stop < |value| && value[stop] == GT && value[end..stop] == PrintPieces(pieces)
    ensures XmlTagHeaderEnd(value, end) == Some(stop)
  {
    assert IsHeader(value, end, stop, pieces);
    HeaderEndMeetsGrammar(value, end, stop);
  }

  predicate NoLtBetween(value: Text, i: nat, stop: nat)
    requires i <= stop <= |value|
    decreases stop - i
  {
    i == stop || (value[i] != LT && NoLtBetween(value, i + 1, stop))
  }

  lemma {:induction false} NoLtInText(value: Text, i: nat, t: Text)
    requires At(value, i, t) && LT !in t
    ensures NoLtBetween(value, i, i + |t|)
    decreases |t|
  {
    if t != [] {
      assert t[0] in t;
      NoLtInText(value, i + 1, t[1..]);
    }
  }

  /** The opening tag at i, as the scan sees it, and where its body starts. */
  predicate IsOpening(value: Text, i: nat, tag: Tag, start: nat, selfClosing: bool) {
    && !tag.closing && i < tag.end < start <= |value| && TagAt(value, i) == Some(tag)
    && XmlTagHeaderEnd(value, tag.end) == Some(start - 1) && IsSelfClosing(value[tag.end..start - 1]) == selfClosing
    && NoLtBetween(value, tag.end, start)
  }

  /** The closing tag at i, as the scan sees it, and where it stops. */
  predicate IsClosing(value: Text, i: nat, tag: Tag, stop: nat) {
    && tag.closing && i < tag.end < stop <= |value| && TagAt(value, i) == Some(tag) && NoLtBetween(value, tag.end, stop)
  }

  function Opening(i: nat, name: Text): Tag { Tag(false, name, i + 1 + |name|) }

  function Closing(i: nat, name: Text): Tag { Tag(true, name, i + 2 + |name|) }

  lemma ReadOpenTag(value: Text, i: nat, name: Text, text: Text, selfClosing: bool, end: nat, start: nat)
    requires IsName(name) && HeaderTextValid(text, selfClosing) && At(value, i, OpenTag(name, text))
    requires end == i + 1 + |name| && start == end + |text| + 1 <= |value|
      && XmlTagHeaderEnd(value, end) == Some(start - 1)
    ensures IsOpening(value, i, Opening(i, name), start, selfClosing)
  {
    OpenTagStandsAt(value, i, name, text);
    NameEndsBeforeHeader(value, end, text);
    TagOfName(value, i, name, false);
    NoLtInText(value, end, text + [GT]);
  }

  lemma ReadPrintedTag(value: Text, i: nat, name: Text, header: seq<Piece>, selfClosing: bool, start: nat)
    requires IsName(name) && HeaderValid(header, selfClosing) && At(value, i, OpenTag(name, PrintPieces(header)))
    requires start == i + |OpenTag(name, PrintPieces(header))|
    ensures IsOpening(value, i, Opening(i, name), start, selfClosing)
  {
    var end, text := i + 1 + |name|, PrintPieces(header);
    OpenTagStandsAt(value, i, name, text);
    HeaderStandsAt(value, end, header, start - 1);
    ReadOpenTag(value, i, name, text, selfClosing, end, start);
  }

  lemma ReadCloseTag(value: Text, i: nat, name: Text)
    requires IsName(name) && At(value, i, CloseTag(name))
    ensures IsClosing(value, i, Closing(i, name), i + |CloseTag(name)|)
  {
    AtParts(value, i, [LT, SLASH] + name, [GT]);
    TagOfName(value, i, name, true);
    NoLtInText(value, i + 2 + |name|, [GT]);
  }

  /** The answer of the scan after a part of the text: yes already, or what the rest says. */
  predicate AnswerFrom(value: Text, found: bool, i: nat, frames: seq<Frame>)
    requires i <= |value|
  {
    found || ScanFrom(value, i, frames)
  }

  lemma {:induction false} ScanOverPlain(value: Text, i: nat, stop: nat, frames: seq<Frame>)
    requires i <= stop <= |value| && NoLtBetween(value, i, stop)
    ensures ScanFrom(value, i, frames) == ScanFrom(value, stop, frames)
    decreases stop - i
  {
    if i < stop {
      ScanOverPlain(value, i + 1, stop, frames);
    }
  }

  /** A tag that gives no answer, and what follows its name up to the next `<`. */
  lemma ScanPastTag(
      value: Text, i: nat, tag: Tag, stop: nat, frames: seq<Frame>, next: seq<Frame>, found: bool)
    requires i < tag.end <= stop <= |value| && TagAt(value, i) == Some(tag) && NoLtBetween(value, tag.end, stop)
    requires OnTag(value, i, tag, frames) == if found then Found else GoOn(next)
    ensures ScanFrom(value, i, frames) == (found || ScanFrom(value, stop, next))
  {
    if !found {
      ScanOverPlain(value, tag.end, stop, next);
    }
  }

  lemma OnOpenTag(value: Text, i: nat, tag: Tag, start: nat, frames: seq<Frame>, frame: Frame)
    requires IsOpening(value, i, tag, start, false) && frame == NewFrame(tag.name, start, InsideRsa(frames))
    ensures OnTag(value, i, tag, frames) == if |frames| >= MAX_OPEN then Found else GoOn(frames + [frame])
  {
  }

  lemma OnCloseTag(value: Text, i: nat, tag: Tag, frames: seq<Frame>, frame: Frame, found: bool)
    requires i < tag.end <= |value| && tag.closing && tag.name == frame.tag && frame.bodyStart <= i
    requires found == (frame.isPrivate && BodyIsNonempty(value[frame.bodyStart..i]))
    ensures OnTag(value, i, tag, frames + [frame]) == if found then Found else GoOn(frames)
  {
    var all := frames + [frame];
    assert all[..|all| - 1] == frames && all[|all| - 1] == frame;
  }

  lemma ScanOverEmptyTag(value: Text, i: nat, tag: Tag, start: nat, frames: seq<Frame>)
    requires IsOpening(value, i, tag, start, true)
    ensures ScanFrom(value, i, frames) == ScanFrom(value, start, frames)
  {
    ScanPastTag(value, i, tag, start, frames, frames, false);
  }

  lemma ScanOverOpenTag(value: Text, i: nat, tag: Tag, start: nat, frames: seq<Frame>, frame: Frame)
    requires IsOpening(value, i, tag, start, false) && frame == NewFrame(tag.name, start, InsideRsa(frames))
    ensures ScanFrom(value, i, frames) == (|frames| >= MAX_OPEN || ScanFrom(value, start, frames + [frame]))
  {
    OnOpenTag(value, i, tag, start, frames, frame);
    ScanPastTag(value, i, tag, start, frames, frames + [frame], |frames| >= MAX_OPEN);
  }

  lemma ScanOverCloseTag(value: Text, i: nat, tag: Tag, frame: Frame, body: Text, frames: seq<Frame>, stop: nat)
    requires IsClosing(value, i, tag, stop) && tag.name == frame.tag
    requires frame.bodyStart <= i && value[frame.bodyStart..i] == body
    ensures ScanFrom(value, i, frames + [frame]) ==
      ((frame.isPrivate && BodyIsNonempty(body)) || ScanFrom(value, stop, frames))
  {
    var found := frame.isPrivate && BodyIsNonempty(body);
    OnCloseTag(value, i, tag, frames, frame, found);
    ScanPastTag(value, i, tag, stop, frames + [frame], frames, found);
  }

  lemma ElementStandsAt(value: Text, i: nat, opening: Text, body: Text, closing: Text)
    requires At(value, i, opening + body + closing)
    ensures At(value, i, opening) && At(value, i + |opening|, body) && At(value, i + |opening| + |body|, closing)
  {
    AtParts(value, i, opening + body, closing);
    AtParts(value, i, opening, body);
  }

  lemma ScanOverPrintedOpening(
      value: Text, i: nat, header: seq<Piece>, frames: seq<Frame>, start: nat, frame: Frame)
    requires IsName(frame.tag) && HeaderValid(header, false) && At(value, i, OpenTag(frame.tag, PrintPieces(header)))
    requires start == i + |OpenTag(frame.tag, PrintPieces(header))| <= |value|
    requires frame == NewFrame(frame.tag, start, InsideRsa(frames))
    ensures ScanFrom(value, i, frames) == (|frames| >= MAX_OPEN || ScanFrom(value, start, frames + [frame]))
  {
    ReadPrintedTag(value, i, frame.tag, header, false, start);
    ScanOverOpenTag(value, i, Opening(i, frame.tag), start, frames, frame);
  }

  lemma ScanOverPrintedClosing(value: Text, i: nat, frame: Frame, body: Text, frames: seq<Frame>, stop: nat)
    requires IsName(frame.tag) && At(value, i, CloseTag(frame.tag)) && stop == i + |CloseTag(frame.tag)| <= |value|
    requires At(value, frame.bodyStart, body) && i == frame.bodyStart + |body|
    ensures ScanFrom(value, i, frames + [frame]) ==
      ((frame.isPrivate && BodyIsNonempty(body)) || ScanFrom(value, stop, frames))
  {
    AtSlice(value, frame.bodyStart, body);
    ReadCloseTag(value, i, frame.tag);
    ScanOverCloseTag(value, i, Closing(i, frame.tag), frame, body, frames, stop);
  }

  lemma ScanOverPrintedEmpty(value: Text, i: nat, tag: Text, header: seq<Piece>, frames: seq<Frame>, start: nat)
    requires IsName(tag) && HeaderValid(header, true) && At(value, i, OpenTag(tag, PrintPieces(header)))
    requires start == i + |OpenTag(tag, PrintPieces(header))| <= |value|
    ensures ScanFrom(value, i, frames) == ScanFrom(value, start, frames)
  {
    ReadPrintedTag(value, i, tag, header, true, start);
    ScanOverEmptyTag(value, i, Opening(i, tag), start, frames);
  }

  // ----- Names the scan does not recognise -----

  lemma {:induction false} NoTagFromOtherName(value: Text, closing: bool, start: nat, name: Text, n: nat)
    requires At(value, start, name) && IsXmlName(name) && !IsName(name) && n <= |name|
    requires start + |name| < |value| && EndsName(value[start + |name|])
    requires forall i | 0 <= i < n :: IsNameChar(name[i])
    ensures TagFrom(value, closing, start, start + n) == None
    decreases |name| - n
  {
    AtSlice(value, start, name);
    assert value[start..start + |name|][0] == name[0];
    if n < |name| {
      assert value[start..start + |name|][n] == name[n] && IsXmlNameChar(name[n]);
      if IsNameChar(name[n]) {
        NoTagFromOtherName(value, closing, start, name, n + 1);
      }
    }
  }

  lemma NoTagAtOtherName(value: Text, i: nat, name: Text, closing: bool)
    requires IsXmlName(name) && !IsName(name) && At(value, i, (if closing then [LT, SLASH] else [LT]) + name)
    requires var end := i + (if closing then 2 else 1) + |name|; end < |value| && EndsName(value[end])
    ensures TagAt(value, i) == None
  {
    var mark := if closing then [LT, SLASH] else [LT];
    AtParts(value, i, mark, name);
    assert value[i] == mark[0] && (closing ==> value[i + 1] == mark[1..][0]);
    assert value[i + |mark|] == name[0];
    NoTagFromOtherName(value, closing, i + |mark|, name, 0);
  }

  lemma ScanOverNoTag(value: Text, i: nat, stop: nat, frames: seq<Frame>)
    requires i < stop <= |value| && TagAt(value, i) == None && NoLtBetween(value, i + 1, stop)
    ensures ScanFrom(value, i, frames) == ScanFrom(value, stop, frames)
  {
    ScanOverPlain(value, i + 1, stop, frames);
  }

  lemma XmlNameHasNoLt(name: Text)
    requires IsXmlName(name)
    ensures LT !in name
  {
  }

  lemma NoTagAtOtherOpening(value: Text, i: nat, name: Text, text: Text)
    requires IsXmlName(name) && !IsName(name) && At(value, i, OpenTag(name, text))
    requires text != [] ==> EndsName(text[0])
    ensures TagAt(value, i) == None
  {
    OpenTagStandsAt(value, i, name, text);
    NameEndsBeforeHeader(value, i + 1 + |name|, text);
    NoTagAtOtherName(value, i, name, false);
  }

  lemma NoLtInOpening(value: Text, i: nat, name: Text, text: Text, start: nat)
    requires IsXmlName(name) && At(value, i, OpenTag(name, text)) && LT !in text && start == i + |OpenTag(name, text)|
    ensures i < start <= |value| && NoLtBetween(value, i + 1, start)
  {
    XmlNameHasNoLt(name);
    NoLtAfterMark(value, i, [LT], name, text + [GT]);
  }

  lemma ScanOverUnknownOpening(value: Text, i: nat, name: Text, header: seq<Piece>, frames: seq<Frame>, start: nat)
    requires IsXmlName(name) && !IsName(name) && At(value, i, OpenTag(name, PrintPieces(header)))
    requires PiecesValid(header) && LT !in PrintPieces(header)
    requires PrintPieces(header) != [] ==> EndsName(PrintPieces(header)[0])
    requires start == i + |OpenTag(name, PrintPieces(header))|
    ensures start <= |value| && ScanFrom(value, i, frames) == ScanFrom(value, start, frames)
  {
    NoTagAtOtherOpening(value, i, name, PrintPieces(header));
    NoLtInOpening(value, i, name, PrintPieces(header), start);
    ScanOverNoTag(value, i, start, frames);
  }

  lemma ScanOverUnknownClosing(value: Text, i: nat, name: Text, frames: seq<Frame>, stop: nat)
    requires IsXmlName(name) && !IsName(name) && At(value, i, CloseTag(name)) && stop == i + |CloseTag(name)|
    ensures stop <= |value| && ScanFrom(value, i, frames) == ScanFrom(value, stop, frames)
  {
    AtParts(value, i, [LT, SLASH] + name, [GT]);
    NoTagAtOtherName(value, i, name, true);
    XmlNameHasNoLt(name);
    NoLtAfterMark(value, i, [LT, SLASH], name, [GT]);
    ScanOverNoTag(value, i, stop, frames);
  }

  lemma NoLtAfterMark(value: Text, i: nat, mark: Text, name: Text, rest: Text)
    requires At(value, i, mark + name + rest) && mark in {[LT], [LT, SLASH]} && LT !in name && LT !in rest
    ensures i + |mark| + |name| + |rest| <= |value| && NoLtBetween(value, i + 1, i + |mark| + |name| + |rest|)
  {
    var tail := mark[1..] + name + rest;
    assert mark + name + rest == [LT] + tail;
    AtParts(value, i, [LT], tail);
    NoLtInText(value, i + 1, tail);
  }

  lemma ElementIs(n: Node, insideRsa: bool, bodyStart: nat)
    requires n.Element? && n.Valid() && IsName(n.tag)
    ensures HeaderValid(n.header, false) && forall k | 0 <= k < |n.children| :: n.children[k].Valid()
    ensures |Print(n)| == |OpenTag(n.tag, PrintPieces(n.header))| + |PrintAll(n.children)| + |CloseTag(n.tag)|
    ensures Depth(n) == 1 + DepthAll(n.children)
    ensures var frame := NewFrame(n.tag, bodyStart, insideRsa);
      Shows(n, insideRsa) ==
        (SomeShows(n.children, frame.insideRsa) || (frame.isPrivate && BodyIsNonempty(PrintAll(n.children))))
  {
  }

  /** The tags of an element put down and take away the frame its body is read under. */
  lemma ScanOverElementTags(
      value: Text, i: nat, n: Node, frames: seq<Frame>, start: nat, end: nat, stop: nat, frame: Frame)
    requires n.Element? && n.Valid() && IsName(n.tag) && At(value, i, Print(n)) && |frames| <= MAX_OPEN
    requires start == i + |OpenTag(n.tag, PrintPieces(n.header))| && end == start + |PrintAll(n.children)|
    requires stop == i + |Print(n)| && frame == NewFrame(n.tag, start, InsideRsa(frames))
    ensures end <= stop <= |value| && At(value, start, PrintAll(n.children))
    ensures ScanFrom(value, i, frames) == (|frames| >= MAX_OPEN || ScanFrom(value, start, frames + [frame]))
    ensures ScanFrom(value, end, frames + [frame])
      == ((frame.isPrivate && BodyIsNonempty(PrintAll(n.children))) || ScanFrom(value, stop, frames))
  {
    ElementStandsAt(value, i, OpenTag(n.tag, PrintPieces(n.header)), PrintAll(n.children), CloseTag(n.tag));
    ElementIs(n, InsideRsa(frames), start);
    ScanOverPrintedOpening(value, i, n.header, frames, start, frame);
    ScanOverPrintedClosing(value, end, frame, PrintAll(n.children), frames, stop);
  }

  lemma ElementAnswers(
      n: Node, insideRsa: bool, depth: nat, frame: Frame, whole: bool, inside: bool, after: bool, rest: bool)
    requires n.Element? && n.Valid() && IsName(n.tag) && frame == NewFrame(n.tag, frame.bodyStart, insideRsa)
    requires whole == (depth >= MAX_OPEN || inside)
    requires depth < MAX_OPEN ==>
      inside == (SomeShows(n.children, frame.insideRsa) || depth + 1 + DepthAll(n.children) > MAX_OPEN || after)
    requires after == ((frame.isPrivate && BodyIsNonempty(PrintAll(n.children))) || rest)
    ensures whole == (Shows(n, insideRsa) || depth + Depth(n) > MAX_OPEN || rest)
  {
    ElementIs(n, insideRsa, frame.bodyStart);
  }

  lemma {:induction false} ScanInsideElement(
      value: Text, i: nat, n: Node, frames: seq<Frame>, end: nat, stop: nat, frame: Frame)
    requires n.Element? && n.Valid() && IsName(n.tag) && |frames| <= MAX_OPEN
    requires i <= |value| && frame.bodyStart <= end <= stop <= |value|
    requires frame == NewFrame(n.tag, frame.bodyStart, InsideRsa(frames))
    requires At(value, frame.bodyStart, PrintAll(n.children)) && end == frame.bodyStart + |PrintAll(n.children)|
    requires ScanFrom(value, i, frames) == (|frames| >= MAX_OPEN || ScanFrom(value, frame.bodyStart, frames + [frame]))
    requires ScanFrom(value, end, frames + [frame])
      == ((frame.isPrivate && BodyIsNonempty(PrintAll(n.children))) || ScanFrom(value, stop, frames))
    ensures ScanFrom(value, i, frames) ==
      AnswerFrom(value, Shows(n, InsideRsa(frames)) || |frames| + Depth(n) > MAX_OPEN, stop, frames)
    decreases n, 0
  {
    var all := frames + [frame];
    if |frames| < MAX_OPEN {
      ElementIs(n, InsideRsa(frames), frame.bodyStart);
      ScanOverBody(value, n.children, frame, frames, end);
    }
    ElementAnswers(n, InsideRsa(frames), |frames|, frame, ScanFrom(value, i, frames),
      ScanFrom(value, frame.bodyStart, all), ScanFrom(value, end, all), ScanFrom(value, stop, frames));
  }

  lemma {:induction false} ScanOverElement(value: Text, i: nat, n: Node, frames: seq<Frame>, stop: nat)
    requires n.Element? && n.Valid() && IsName(n.tag)
    requires At(value, i, Print(n)) && |frames| <= MAX_OPEN && stop == i + |Print(n)|
    ensures ScanFrom(value, i, frames) ==
      AnswerFrom(value, Shows(n, InsideRsa(frames)) || |frames| + Depth(n) > MAX_OPEN, stop, frames)
    decreases n, 1
  {
    var start := i + |OpenTag(n.tag, PrintPieces(n.header))|;
    var end, frame := start + |PrintAll(n.children)|, NewFrame(n.tag, start, InsideRsa(frames));
    ScanOverElementTags(value, i, n, frames, start, end, stop, frame);
    ScanInsideElement(value, i, n, frames, end, stop, frame);
  }

  /** Around the content of an element with another name the scan reads nothing. */
  lemma {:induction false} ScanOverUnknownElement(value: Text, i: nat, n: Node, frames: seq<Frame>, stop: nat)
    requires n.Element? && n.Valid() && !IsName(n.tag)
    requires At(value, i, Print(n)) && |frames| <= MAX_OPEN && stop == i + |Print(n)|
    ensures ScanFrom(value, i, frames) ==
      AnswerFrom(value, Shows(n, InsideRsa(frames)) || |frames| + Depth(n) > MAX_OPEN, stop, frames)
    decreases n, 1
  {
    var opening, body := OpenTag(n.tag, PrintPieces(n.header)), PrintAll(n.children);
    var start, end := i + |opening|, i + |opening| + |body|;
    ElementStandsAt(value, i, opening, body, CloseTag(n.tag));
    ScanOverUnknownOpening(value, i, n.tag, n.header, frames, start);
    ScanOverNodes(value, start, n.children, frames, end);
    ScanOverUnknownClosing(value, end, n.tag, frames, stop);
  }

  /**
   * Reading a printed node answers yes when the tree search does, or when it nests too deep; else the frames are back.
   */
  lemma {:induction false} ScanOverNode(value: Text, i: nat, n: Node, frames: seq<Frame>, stop: nat)
    requires n.Valid() && At(value, i, Print(n)) && |frames| <= MAX_OPEN && stop == i + |Print(n)|
    ensures ScanFrom(value, i, frames) ==
      AnswerFrom(value, Shows(n, InsideRsa(frames)) || |frames| + Depth(n) > MAX_OPEN, stop, frames)
    decreases n, 2
  {
    if n.Chars? {
      ScanOverChars(value, i, n.text, frames);
    } else if n.EmptyTag? {
      if IsName(n.tag) {
        ScanOverPrintedEmpty(value, i, n.tag, n.header, frames, stop);
      } else {
        ScanOverUnknownOpening(value, i, n.tag, n.header, frames, stop);
      }
    } else if IsName(n.tag) {
      ScanOverElement(value, i, n, frames, stop);
    } else {
      ScanOverUnknownElement(value, i, n, frames, stop);
    }
  }

  /** Reading the body of an element, whose frame is on top. */
  lemma {:induction false} ScanOverBody(value: Text, children: seq<Node>, frame: Frame, frames: seq<Frame>, end: nat)
    requires (forall k | 0 <= k < |children| :: children[k].Valid()) && |frames| < MAX_OPEN
    requires At(value, frame.bodyStart, PrintAll(children)) && end == frame.bodyStart + |PrintAll(children)|
    ensures ScanFrom(value, frame.bodyStart, frames + [frame]) ==
      AnswerFrom(value, SomeShows(children, frame.insideRsa) || |frames| + 1 + DepthAll(children) > MAX_OPEN,
        end, frames + [frame])
    decreases children, 2
  {
    var all := frames + [frame];
    assert all[|all| - 1] == frame && InsideRsa(all) == frame.insideRsa;
    ScanOverNodes(value, frame.bodyStart, children, all, end);
  }

  lemma AnswersOfBoth(nodes: seq<Node>, insideRsa: bool, depth: nat, whole: bool, after: bool, rest: bool)
    requires nodes != []
    requires whole == (Shows(nodes[0], insideRsa) || depth + Depth(nodes[0]) > MAX_OPEN || after)
    requires after == (SomeShows(nodes[1..], insideRsa) || depth + DepthAll(nodes[1..]) > MAX_OPEN || rest)
    ensures whole == (SomeShows(nodes, insideRsa) || depth + DepthAll(nodes) > MAX_OPEN || rest)
  {
  }

  lemma {:induction false} ScanOverNodes(value: Text, i: nat, nodes: seq<Node>, frames: seq<Frame>, stop: nat)
    requires (forall k | 0 <= k < |nodes| :: nodes[k].Valid()) && At(value, i, PrintAll(nodes)) && |frames| <= MAX_OPEN
    requires stop == i + |PrintAll(nodes)|
    ensures ScanFrom(value, i, frames) ==
      AnswerFrom(value, SomeShows(nodes, InsideRsa(frames)) || |frames| + DepthAll(nodes) > MAX_OPEN, stop, frames)
    decreases nodes, 1
  {
    if nodes != [] {
      var mid := i + |Print(nodes[0])|;
      AtParts(value, i, Print(nodes[0]), PrintAll(nodes[1..]));
      ScanOverNode(value, i, nodes[0], frames, mid);
      ScanOverNodes(value, mid, nodes[1..], frames, stop);
      AnswersOfBoth(nodes, InsideRsa(frames), |frames|, ScanFrom(value, i, frames), ScanFrom(value, mid, frames),
        ScanFrom(value, stop, frames));
    }
  }

  lemma ScanOverWholeText(value: Text, nodes: seq<Node>)
    requires ForestValid(nodes) && At(value, 0, PrintAll(nodes)) && |value| == |PrintAll(nodes)|
    ensures ScanFrom(value, 0, []) <==> SomeShows(nodes, false) || DepthAll(nodes) > MAX_OPEN
  {
    ScanOverNodes(value, 0, nodes, [], |value|);
    assert !ScanFrom(value, |value|, []);
  }

  /**
   * On the printed text of any forest, whatever its names and attributes, the scan answers exactly as the search that
   * looks through elements with other names, and always yes when recognised elements nest more than 256 deep.
   */
  lemma ScanMeetsTreeSearch(nodes: seq<Node>)
    requires ForestValid(nodes)
    ensures ScanFrom(PrintAll(nodes), 0, []) <==> SomeShows(nodes, false) || DepthAll(nodes) > MAX_OPEN
  {
    var text := PrintAll(nodes);
    StandsInside(text, 0);
    assert text[0..] == text;
    ScanOverWholeText(text, nodes);
  }

  // ----- For which names that is the plain tree search -----

  predicate ForestValid(nodes: seq<Node>) { forall k | 0 <= k < |nodes| :: nodes[k].Valid() }

  /** The name says what its element is about: an RSAKeyValue or one of its private members. */
  predicate IsRelevant(name: Text) { LocalName(name) == RSA_KEY_VALUE || LocalName(name) in PRIVATE_MEMBERS }

  /** The scan recognises the name, or has no need to. */
  predicate IsHarmless(name: Text) { IsName(name) || !IsRelevant(name) }

  predicate NamesHarmless(n: Node)
    decreases n, 0
  {
    n.Element? ==> IsHarmless(n.tag) && AllNamesHarmless(n.children)
  }

  predicate AllNamesHarmless(nodes: seq<Node>)
    decreases nodes, 1
  {
    nodes == [] || (NamesHarmless(nodes[0]) && AllNamesHarmless(nodes[1..]))
  }

  lemma {:induction false} SearchesAgree(n: Node, insideRsa: bool)
    requires NamesHarmless(n)
    ensures Shows(n, insideRsa) == Holds(n, insideRsa)
    decreases n, 0
  {
    if n.Element? {
      AllSearchesAgree(n.children, insideRsa || (IsName(n.tag) && LocalName(n.tag) == RSA_KEY_VALUE));
    }
  }

  lemma {:induction false} AllSearchesAgree(nodes: seq<Node>, insideRsa: bool)
    requires AllNamesHarmless(nodes)
    ensures SomeShows(nodes, insideRsa) == SomeHolds(nodes, insideRsa)
    decreases nodes, 1
  {
    if nodes != [] {
      SearchesAgree(nodes[0], insideRsa);
      AllSearchesAgree(nodes[1..], insideRsa);
    }
  }

  /** Where every name is recognised or irrelevant the scan is the plain tree search. */
  lemma ScanMeetsPlainSearch(nodes: seq<Node>)
    requires ForestValid(nodes) && AllNamesHarmless(nodes)
    ensures ScanFrom(PrintAll(nodes), 0, []) <==> SomeHolds(nodes, false) || DepthAll(nodes) > MAX_OPEN
  {
    ScanMeetsTreeSearch(nodes);
    AllSearchesAgree(nodes, false);
  }

  /** Every element has a recognised name or this one. */
  predicate OnlyOtherName(n: Node, name: Text)
    decreases n, 0
  {
    n.Element? ==> (IsName(n.tag) || n.tag == name) && OnlyOtherNameIn(n.children, name)
  }

  predicate OnlyOtherNameIn(nodes: seq<Node>, name: Text)
    decreases nodes, 1
  {
    nodes == [] || (OnlyOtherName(nodes[0], name) && OnlyOtherNameIn(nodes[1..], name))
  }

  /** One element in another around a single x. */
  function Nest(outer: Text, inner: Text): seq<Node> { [Element(outer, [], [Around(inner)])] }

  lemma OneNode(n: Node, insideRsa: bool, name: Text)
    ensures ForestValid([n]) == n.Valid() && PrintAll([n]) == Print(n) && DepthAll([n]) == Depth(n)
    ensures SomeHolds([n], insideRsa) == Holds(n, insideRsa) && SomeShows([n], insideRsa) == Shows(n, insideRsa)
    ensures OnlyOtherNameIn([n], name) == OnlyOtherName(n, name)
  {
    assert [n][1..] == [] && [n][0] == n;
    assert Print(n) + [] == Print(n);
  }

  /** An element around a single x. */
  function Around(name: Text): Node { Element(name, [], [Chars([120])]) }

  lemma AroundIs(tag: Text, insideRsa: bool, name: Text)
    requires IsXmlName(tag)
    ensures Around(tag).Valid() && OnlyOtherName(Around(tag), name) == (IsName(tag) || tag == name)
    ensures Holds(Around(tag), insideRsa) == (insideRsa && LocalName(tag) in PRIVATE_MEMBERS)
    ensures Shows(Around(tag), insideRsa) == (insideRsa && IsName(tag) && LocalName(tag) in PRIVATE_MEMBERS)
    ensures Depth(Around(tag)) <= 1
  {
    OneNode(Chars([120]), insideRsa, name);
    OneNode(Chars([120]), true, name);
    OneNode(Chars([120]), false, name);
    assert [120][0] == 120 && !IsSpace(120);
    assert PrintPieces([]) == [] && !IsSelfClosing([]);
  }

  lemma NestIs(outer: Text, inner: Text, name: Text)
    requires IsXmlName(outer) && IsXmlName(inner)
    ensures ForestValid(Nest(outer, inner)) && DepthAll(Nest(outer, inner)) <= 2
    ensures OnlyOtherNameIn(Nest(outer, inner), name)
      == ((IsName(outer) || outer == name) && (IsName(inner) || inner == name))
    ensures SomeHolds(Nest(outer, inner), false) ==
      (LocalName(outer) == RSA_KEY_VALUE && LocalName(inner) in PRIVATE_MEMBERS)
    ensures SomeShows(Nest(outer, inner), false) ==
      (IsName(outer) && IsName(inner) && LocalName(outer) == RSA_KEY_VALUE && LocalName(inner) in PRIVATE_MEMBERS)
  {
    var n := Element(outer, [], [Around(inner)]);
    AroundIs(inner, true, name);
    AroundIs(inner, false, name);
    OneNode(Around(inner), true, name);
    OneNode(Around(inner), false, name);
    OneNode(n, false, name);
    assert PrintPieces([]) == [] && !IsSelfClosing([]);
  }

  lemma {:induction false} LowerAt(t: Text)
    ensures |Lower(t)| == |t|
    ensures forall i | 0 <= i < |t| :: Lower(t)[i] == if 65 <= t[i] <= 90 then t[i] + 32 else t[i]
  {
    if t != [] {
      LowerAt(t[1..]);
    }
  }

  lemma LowerIs(t: Text, lower: Text)
    requires |lower| == |t| && forall i | 0 <= i < |t| :: lower[i] == if 65 <= t[i] <= 90 then t[i] + 32 else t[i]
    ensures Lower(t) == lower
  {
    LowerAt(t);
  }

  lemma LocalNameWithoutPrefix(name: Text, lower: Text)
    requires COLON !in name && Lower(name) == lower
    ensures LocalName(name) == lower
  {
  }

  lemma KeyValueIsAName()
    ensures IsName(RSA_KEY_VALUE) && COLON !in RSA_KEY_VALUE
  {
  }

  lemma KeyValueIsLowerCase()
    ensures Lower(RSA_KEY_VALUE) == RSA_KEY_VALUE
  {
    LowerIs(RSA_KEY_VALUE, RSA_KEY_VALUE);
  }

  lemma PlainKeyName() returns (name: Text)
    ensures IsName(name) && IsXmlName(name) && LocalName(name) == RSA_KEY_VALUE
  {
    name := RSA_KEY_VALUE;
    KeyValueIsAName();
    KeyValueIsLowerCase();
    LocalNameWithoutPrefix(name, name);
  }

  lemma PlainMemberName() returns (name: Text)
    ensures IsName(name) && IsXmlName(name) && LocalName(name) in PRIVATE_MEMBERS
  {
    name := [100];
    LowerIs(name, name);
    LocalNameWithoutPrefix(name, name);
  }

  /** A private member in a key, where one of the two names is not recognised. */
  lemma SearchesDiffer(outer: Text, inner: Text, name: Text) returns (nodes: seq<Node>)
    requires IsXmlName(outer) && IsXmlName(inner) && !(IsName(outer) && IsName(inner))
    requires (IsName(outer) || outer == name) && (IsName(inner) || inner == name)
    requires LocalName(outer) == RSA_KEY_VALUE && LocalName(inner) in PRIVATE_MEMBERS
    ensures ForestValid(nodes) && OnlyOtherNameIn(nodes, name)
    ensures SomeShows(nodes, false) != SomeHolds(nodes, false)
  {
    NestIs(outer, inner, name);
    nodes := Nest(outer, inner);
  }

  /**
   * The exact condition on a name: the two searches agree on every forest in which it is the only name that is not
   * recognised if and only if it is recognised itself or irrelevant.
   */
  lemma NameIsHarmlessIff(name: Text)
    requires IsXmlName(name)
    ensures IsHarmless(name) <==> forall nodes | ForestValid(nodes) && OnlyOtherNameIn(nodes, name) ::
      SomeShows(nodes, false) == SomeHolds(nodes, false)
  {
    if IsHarmless(name) {
      forall nodes | ForestValid(nodes) && OnlyOtherNameIn(nodes, name)
        ensures SomeShows(nodes, false) == SomeHolds(nodes, false)
      {
        OnlyHarmlessNames(nodes, name);
        AllSearchesAgree(nodes, false);
      }
    } else if LocalName(name) == RSA_KEY_VALUE {
      var inner := PlainMemberName();
      var nodes := SearchesDiffer(name, inner, name);
    } else {
      var outer := PlainKeyName();
      var nodes := SearchesDiffer(outer, name, name);
    }
  }

  lemma {:induction false} OnlyHarmlessNames(nodes: seq<Node>, name: Text)
    requires IsHarmless(name) && OnlyOtherNameIn(nodes, name)
    ensures AllNamesHarmless(nodes)
    decreases nodes, 1
  {
    if nodes != [] {
      if nodes[0].Element? {
        OnlyHarmlessNames(nodes[0].children, name);
      }
      OnlyHarmlessNames(nodes[1..], name);
    }
  }

  /** `RSAKeyValue` and `é:D` */
  const KEY_VALUE_TAG: Text := [82, 83, 65, 75, 101, 121, 86, 97, 108, 117, 101]
  const PREFIXED_MEMBER: Text := [233, 58, 68]

  /** `<RSAKeyValue><é:D>x</é:D></RSAKeyValue>`: the tree search finds the private member, the scan does not. */
  lemma PrefixedMemberIsMissed()
    ensures var nodes := Nest(KEY_VALUE_TAG, PREFIXED_MEMBER);
      ForestValid(nodes) && SomeHolds(nodes, false) && !ScanFrom(PrintAll(nodes), 0, [])
  {
    KeyValueName();
    PrefixedName();
    NestIs(KEY_VALUE_TAG, PREFIXED_MEMBER, []);
    ScanMeetsTreeSearch(Nest(KEY_VALUE_TAG, PREFIXED_MEMBER));
  }

  lemma KeyValueTagIsAName()
    ensures IsXmlName(KEY_VALUE_TAG) && COLON !in KEY_VALUE_TAG
  {
  }

  lemma KeyValueTagInLowerCase()
    ensures Lower(KEY_VALUE_TAG) == RSA_KEY_VALUE
  {
    LowerIs(KEY_VALUE_TAG, RSA_KEY_VALUE);
  }

  lemma KeyValueName()
    ensures IsXmlName(KEY_VALUE_TAG) && LocalName(KEY_VALUE_TAG) == RSA_KEY_VALUE
  {
    KeyValueTagIsAName();
    KeyValueTagInLowerCase();
    LocalNameWithoutPrefix(KEY_VALUE_TAG, RSA_KEY_VALUE);
  }

  /** The local name is what follows the last colon, in lower case. */
  lemma {:induction false} LocalNameAfterPrefix(prefix: Text, name: Text)
    requires COLON !in name
    ensures LocalName(prefix + [COLON] + name) == Lower(name)
    decreases |prefix|
  {
    var whole := prefix + [COLON] + name;
    assert whole[|prefix|] == COLON;
    if prefix == [] {
      assert whole[1..] == name;
    } else {
      var rest := prefix[1..] + [COLON] + name;
      assert whole[1..] == rest && rest[|prefix| - 1] == COLON;
      LocalNameAfterPrefix(prefix[1..], name);
    }
  }

  lemma MarkupSpelled()
    ensures LT == '<' as int && GT == '>' as int && COLON == ':' as int
  {
  }

  /** A body counts when something other than white space is in it, or when it is too long to be looked through. */
  lemma NonemptyBody(body: Text)
    ensures BodyIsNonempty(body) <==> |body| > 4096 || exists i :: 0 <= i < |body| && !IsSpace(body[i])
  {
  }

  lemma KeyValueSpelled()
    ensures RSA_KEY_VALUE == CodePoints("rsakeyvalue")
  {
  }

  lemma PrivateMembersSpelled()
    ensures PRIVATE_MEMBERS ==
      {CodePoints("d"), CodePoints("p"), CodePoints("q"), CodePoints("dp"), CodePoints("dq"), CodePoints("inverseq")}
  {
    assert CodePoints("d") == [100] && CodePoints("p") == [112] && CodePoints("q") == [113];
    assert CodePoints("dp") == [100, 112] && CodePoints("dq") == [100, 113];
    assert CodePoints("inverseq") == [105, 110, 118, 101, 114, 115, 101, 113];
  }

  /** A header closes its own tag when a slash is all that stands before the white space at its end. */
  lemma {:induction false} SelfClosingEndsInSlash(header: Text, blank: Text)
    requires IsBlank(blank)
    ensures header != [] && !IsSpace(header[|header| - 1]) ==>
      IsSelfClosing(header + blank) == (header[|header| - 1] == '/' as int)
    ensures header == [] ==> !IsSelfClosing(header + blank)
    decreases |blank|
  {
    var whole := header + blank;
    if blank == [] {
      assert whole == header;
    } else {
      assert whole[..|whole| - 1] == header + blank[..|blank| - 1];
      SelfClosingEndsInSlash(header, blank[..|blank| - 1]);
    }
  }

  lemma PrefixedName()
    ensures IsXmlName(PREFIXED_MEMBER) && !IsName(PREFIXED_MEMBER) && LocalName(PREFIXED_MEMBER) in PRIVATE_MEMBERS
  {
    assert PREFIXED_MEMBER == [233, COLON] + [68] && PREFIXED_MEMBER[0] == 233;
    assert PREFIXED_MEMBER == [233] + [COLON] + [68];
    LocalNameAfterPrefix([233], [68]);
    LowerIs([68], [100]);
  }
}
