/** Finding the end of a bracketed Python literal within fixed length and depth limits. */
module BracketScanner {
  import opened TextModel

  const MAX_CHARS := 8192
  const MAX_DEPTH := 13

  predicate IsOpener(c: int) { c == 123 || c == 91 || c == 40 }

  predicate IsCloser(c: int) { c == 125 || c == 93 || c == 41 }

  predicate IsQuote(c: int) { c == DOUBLE_QUOTE || c == SINGLE_QUOTE }

  function CloserOf(opener: int): (c: int)
    requires IsOpener(opener)
    ensures IsCloser(c)
  {
    if opener == 123 then 125 else if opener == 91 then 93 else 41
  }

  lemma BracketsSpelled(c: int)
    ensures IsOpener(c) <==> c in CodePoints("{[(")
    ensures IsCloser(c) <==> c in CodePoints("}])")
    ensures IsQuote(c) <==> c in CodePoints("'\"")
    ensures CloserOf('{' as int) == '}' as int && CloserOf('[' as int) == ']' as int
      && CloserOf('(' as int) == ')' as int
  {
    assert CodePoints("{[(") == [123, 91, 40] && CodePoints("}])") == [125, 93, 41] && CodePoints("'\"") == [39, 34];
  }

  // ----- The scanner -----

  datatype ScanState = ScanState(closers: seq<int>, quote: Option<int>, escaped: bool)

  datatype Step = Next(state: ScanState) | Closed | Mismatch | TooDeep

  /** What one character does to the scanner. */
  function Advance(s: ScanState, c: int): Step {
    if s.quote.Some? then
      if s.escaped then Next(s.(escaped := false))
      else if c == BACKSLASH then Next(s.(escaped := true))
      else if c == s.quote.value then Next(s.(quote := None))
      else Next(s)
    else if IsQuote(c) then Next(s.(quote := Some(c)))
    else if IsOpener(c) then
      if |s.closers| >= MAX_DEPTH then TooDeep else Next(s.(closers := s.closers + [CloserOf(c)]))
    else if IsCloser(c) then
      if s.closers == [] || c != s.closers[|s.closers| - 1] then Mismatch
      else if |s.closers| == 1 then Closed
      else Next(s.(closers := s.closers[..|s.closers| - 1]))
    else Next(s)
  }

  /** The scan of a whole text: how it stops, and after how many characters. */
  function Run(s: ScanState, t: Text): (r: (Step, nat))
    ensures r.1 <= |t|
    decreases |t|
  {
    if t == [] then (Next(s), 0)
    else match Advance(s, t[0])
      case Next(s') => var (r, n) := Run(s', t[1..]); (r, n + 1)
      case stop => (stop, 1)
  }

  const START := ScanState([], None, false)

  function Limit(value: Text, start: nat): nat
    requires start <= |value|
  {
    if start + MAX_CHARS < |value| then start + MAX_CHARS else |value|
  }

  function ContainerEnd(value: Text, start: nat): (r: (Option<int>, bool))
    requires start <= |value|
    ensures r.0.Some? ==> start <= r.0.value <= |value| && !r.1
  {
    var limit := Limit(value, start);
    match Run(START, value[start..limit])
    case (Closed, n) => (Some(start + n), false)
    case (Mismatch, _) => (None, false)
    case (TooDeep, _) => (None, true)
    case (Next(s), _) => (None, s.closers != [] && limit < |value|)
  }

  method BoundedPythonLiteralContainerEnd(value: Text, start: nat) returns (end: Option<int>, exhausted: bool)
    requires start <= |value|
    ensures (end, exhausted) == ContainerEnd(value, start)
  {
    var expectedClosers: seq<int> := [];
    var quote: Option<int> := None;
    var escaped := false;
    var limit := if |value| < start + MAX_CHARS then |value| else start + MAX_CHARS;
    ghost var window := value[start..limit];
    for cursor := start to limit
      invariant Run(START, window) ==
        var (r, n) := Run(ScanState(expectedClosers, quote, escaped), value[cursor..limit]); (r, n + cursor - start)
      invariant quote.None? ==> !escaped
    {
      var character := value[cursor];
      assert value[cursor..limit][0] == character && value[cursor..limit][1..] == value[cursor + 1..limit];
      if quote.Some? {
        if escaped {
          escaped := false;
        } else if character == BACKSLASH {
          escaped := true;
        } else if character == quote.value {
          quote := None;
        }
        continue;
      }
      if IsQuote(character) {
        quote := Some(character);
        continue;
      }
      if IsOpener(character) {
        expectedClosers := expectedClosers + [CloserOf(character)];
        if |expectedClosers| > MAX_DEPTH {
          return None, true;
        }
        continue;
      }
      if IsCloser(character) {
        if expectedClosers == [] || character != expectedClosers[|expectedClosers| - 1] {
          return None, false;
        }
        expectedClosers := expectedClosers[..|expectedClosers| - 1];
        if expectedClosers == [] {
          return Some(cursor + 1), false;
        }
      }
    }
    return None, expectedClosers != [] && limit < |value|;
  }

  // ----- The grammar -----

  /** Containers hold plain characters, quoted strings and containers; a quoted string is opaque. */
  datatype Item = Plain(c: int) | Quoted(q: int, body: seq<QuotedChar>) | Group(opener: int, items: seq<Item>) {
    predicate Valid() {
      match this
      case Plain(c) => !IsQuote(c) && !IsOpener(c) && !IsCloser(c)
      case Quoted(q, body) => IsQuote(q) && forall k | 0 <= k < |body| :: body[k].Valid(q)
      case Group(opener, items) => IsOpener(opener) && forall k | 0 <= k < |items| :: items[k].Valid()
    }
  }

  /** Inside quotes: an escaped character, or one that is neither a backslash nor the quote. */
  datatype QuotedChar = Escaped(c: int) | Literal(c: int) {
    predicate Valid(q: int) { Literal? ==> c != BACKSLASH && c != q }

    function Print(): Text { if Escaped? then [BACKSLASH, c] else [c] }
  }

  function PrintBody(body: seq<QuotedChar>): Text {
    if body == [] then [] else PrintBody(body[..|body| - 1]) + body[|body| - 1].Print()
  }

  function Print(item: Item): (t: Text)
    requires item.Valid()
    ensures |t| > 0
    decreases item, 0
  {
    match item
    case Plain(c) => [c]
    case Quoted(q, body) => [q] + PrintBody(body) + [q]
    case Group(opener, items) => [opener] + PrintAll(items) + [CloserOf(opener)]
  }

  function PrintAll(items: seq<Item>): Text
    requires forall k | 0 <= k < |items| :: items[k].Valid()
    decreases items, 1
  {
    if items == [] then [] else PrintAll(items[..|items| - 1]) + Print(items[|items| - 1])
  }

  /** How deep containers nest; a container without inner containers has depth one. */
  function Depth(item: Item): nat
    decreases item, 0
  {
    if item.Group? then 1 + DepthAll(item.items) else 0
  }

  function DepthAll(items: seq<Item>): nat
    decreases items, 1
  {
    if items == [] then 0
    else
      var d, e := DepthAll(items[..|items| - 1]), Depth(items[|items| - 1]);
      if d < e then e else d
  }

  ghost predicate IsContainer(g: Item) { g.Group? && g.Valid() }

  // ----- Completeness: the scanner follows every printed text -----

  lemma {:induction false} RunSplits(s: Text, t: Text, st: ScanState)
    ensures Run(st, s + t) == match Run(st, s)
      case (Next(st'), n) => (var (r, m) := Run(st', t); (r, n + m))
      case stop => stop
    decreases |s|
  {
    if s == [] {
      assert s + t == t;
    } else {
      assert (s + t)[0] == s[0] && (s + t)[1..] == s[1..] + t;
      match Advance(st, s[0])
      case Next(st') => RunSplits(s[1..], t, st');
      case _ =>
    }
  }

  lemma {:induction false} RunOfBody(body: seq<QuotedChar>, st: ScanState)
    requires st.quote.Some? && !st.escaped && forall k | 0 <= k < |body| :: body[k].Valid(st.quote.value)
    ensures Run(st, PrintBody(body)) == (Next(st), |PrintBody(body)|)
    decreases |body|
  {
    if body != [] {
      var front, last := body[..|body| - 1], body[|body| - 1];
      RunOfBody(front, st);
      RunSplits(PrintBody(front), last.Print(), st);
      if last.Escaped? {
        RunOfOne(st.(escaped := true), last.c);
        RunOfOne(st, BACKSLASH);
        RunSplits([BACKSLASH], [last.c], st);
        assert [BACKSLASH] + [last.c] == last.Print();
      } else {
        RunOfOne(st, last.c);
      }
    }
  }

  predicate Unquoted(st: ScanState) { st.quote.None? && !st.escaped }

  lemma RunOfOne(st: ScanState, c: int)
    ensures Run(st, [c]) == (Advance(st, c), 1)
  {
    assert [c][1..] == [];
  }

  /** Reading a printed item leaves the scanner where it was, unless nesting gets too deep. */
  lemma {:induction false} RunOfItem(item: Item, st: ScanState)
    requires item.Valid() && Unquoted(st) && st.closers != [] && |st.closers| <= MAX_DEPTH
    ensures var (r, n) := Run(st, Print(item));
      if |st.closers| + Depth(item) <= MAX_DEPTH then r == Next(st) && n == |Print(item)| else r == TooDeep
    decreases item, 0
  {
    match item
    case Plain(c) =>
      RunOfOne(st, c);
    case Quoted(q, body) =>
      var st' := st.(quote := Some(q));
      RunOfOne(st, q);
      RunOfBody(body, st');
      RunOfOne(st', q);
      RunSplits([q], PrintBody(body), st);
      RunSplits([q] + PrintBody(body), [q], st);
      assert Advance(st', q) == Next(st);
    case Group(opener, items) =>
      RunOfOne(st, opener);
      RunSplits([opener], PrintAll(items), st);
      RunSplits([opener] + PrintAll(items), [CloserOf(opener)], st);
      if |st.closers| < MAX_DEPTH {
        var st' := st.(closers := st.closers + [CloserOf(opener)]);
        RunOfItems(items, st');
        RunOfOne(st', CloserOf(opener));
        assert st'.closers[..|st'.closers| - 1] == st.closers;
      }
  }

  lemma {:induction false} RunOfItems(items: seq<Item>, st: ScanState)
    requires (forall k | 0 <= k < |items| :: items[k].Valid()) && Unquoted(st) && st.closers != []
      && |st.closers| <= MAX_DEPTH
    ensures var (r, n) := Run(st, PrintAll(items));
      if |st.closers| + DepthAll(items) <= MAX_DEPTH then r == Next(st) && n == |PrintAll(items)| else r == TooDeep
    decreases items, 1
  {
    if items != [] {
      var front, last := items[..|items| - 1], items[|items| - 1];
      RunOfItems(front, st);
      RunOfItem(last, st);
      RunSplits(PrintAll(front), Print(last), st);
    }
  }

  lemma RunOfContainer(g: Item)
    requires IsContainer(g)
    ensures var (r, n) := Run(START, Print(g));
      if Depth(g) <= MAX_DEPTH then r == Closed && n == |Print(g)| else r == TooDeep
  {
    var st := START.(closers := [CloserOf(g.opener)]);
    assert [] + [CloserOf(g.opener)] == [CloserOf(g.opener)];
    RunOfOne(START, g.opener);
    RunSplits([g.opener], PrintAll(g.items), START);
    RunSplits([g.opener] + PrintAll(g.items), [CloserOf(g.opener)], START);
    RunOfItems(g.items, st);
    RunOfOne(st, CloserOf(g.opener));
  }

  // ----- Soundness: what the scanner has read is an unfinished container -----

  /** An opener that is still open, with the finished items after it. */
  datatype Frame = Frame(opener: int, items: seq<Item>) {
    predicate Valid() { IsOpener(opener) && forall k | 0 <= k < |items| :: items[k].Valid() }

    function Print(): Text
      requires Valid()
    {
      [opener] + PrintAll(items)
    }
  }

  /** A quoted string the text breaks off in, possibly just after a backslash. */
  datatype Tail = NoTail | InQuote(q: int, body: seq<QuotedChar>, escaped: bool) {
    predicate Valid() { InQuote? ==> IsQuote(q) && forall k | 0 <= k < |body| :: body[k].Valid(q) }

    function Print(): Text {
      if NoTail? then [] else [q] + PrintBody(body) + (if escaped then [BACKSLASH] else [])
    }
  }

  /** A container that has been entered and not left: its open brackets, outermost first, and perhaps an open quote. */
  datatype Unfinished = Unfinished(frames: seq<Frame>, tail: Tail) {
    predicate Valid() { frames != [] && (forall k | 0 <= k < |frames| :: frames[k].Valid()) && tail.Valid() }

    function Print(): Text
      requires Valid()
    {
      PrintFrames(frames) + tail.Print()
    }

    function Reached(): ScanState
      requires Valid()
    {
      ScanState(Closers(frames), if tail.NoTail? then None else Some(tail.q), tail.InQuote? && tail.escaped)
    }
  }

  function PrintFrames(frames: seq<Frame>): Text
    requires forall k | 0 <= k < |frames| :: frames[k].Valid()
  {
    if frames == [] then [] else PrintFrames(frames[..|frames| - 1]) + frames[|frames| - 1].Print()
  }

  function Closers(frames: seq<Frame>): (cs: seq<int>)
    requires forall k | 0 <= k < |frames| :: frames[k].Valid()
    ensures |cs| == |frames|
  {
    if frames == [] then []
    else
      var last := frames[|frames| - 1];
      assert last.Valid();
      Closers(frames[..|frames| - 1]) + [CloserOf(last.opener)]
  }

  /** The deepest point of an unfinished container. */
  function FramesDepth(frames: seq<Frame>): nat {
    if frames == [] then 0
    else
      var d, e := FramesDepth(frames[..|frames| - 1]), |frames| + DepthAll(frames[|frames| - 1].items);
      if d < e then e else d
  }

  lemma PushFrame(frames: seq<Frame>, f: Frame)
    requires f.Valid() && forall k | 0 <= k < |frames| :: frames[k].Valid()
    ensures var r := frames + [f];
      && (forall k | 0 <= k < |r| :: r[k].Valid())
      && PrintFrames(r) == PrintFrames(frames) + f.Print()
      && Closers(r) == Closers(frames) + [CloserOf(f.opener)]
  {
    assert (frames + [f])[..|frames|] == frames;
  }

  /** Reading the text of an unfinished container brings the scanner to its state, unless it nests too deep. */
  lemma {:induction false} RunOfFrames(frames: seq<Frame>)
    requires frames != [] && forall k | 0 <= k < |frames| :: frames[k].Valid()
    ensures var (r, n) := Run(START, PrintFrames(frames));
      if FramesDepth(frames) <= MAX_DEPTH
        then r == Next(START.(closers := Closers(frames))) && n == |PrintFrames(frames)|
      else r == TooDeep
    decreases |frames|
  {
    var front, last := frames[..|frames| - 1], frames[|frames| - 1];
    var st := START.(closers := Closers(front));
    if front != [] {
      RunOfFrames(front);
    }
    RunSplits(PrintFrames(front), last.Print(), START);
    RunOfOne(st, last.opener);
    RunSplits([last.opener], PrintAll(last.items), st);
    if |front| < MAX_DEPTH {
      RunOfItems(last.items, START.(closers := Closers(frames)));
    }
  }

  lemma RunOfUnfinished(u: Unfinished)
    requires u.Valid()
    ensures var (r, n) := Run(START, u.Print());
      if FramesDepth(u.frames) <= MAX_DEPTH then r == Next(u.Reached()) && n == |u.Print()| else r == TooDeep
  {
    RunOfFrames(u.frames);
    RunSplits(PrintFrames(u.frames), u.tail.Print(), START);
    if u.tail.InQuote? && FramesDepth(u.frames) <= MAX_DEPTH {
      RunOfTail(u.tail, START.(closers := Closers(u.frames)));
    }
  }

  lemma RunOfTail(tail: Tail, st: ScanState)
    requires tail.InQuote? && tail.Valid() && Unquoted(st)
    ensures Run(st, tail.Print()) == (Next(st.(quote := Some(tail.q), escaped := tail.escaped)), |tail.Print()|)
  {
    var inside := st.(quote := Some(tail.q));
    var quoted := [tail.q] + PrintBody(tail.body);
    RunOfOne(st, tail.q);
    RunOfBody(tail.body, inside);
    RunSplits([tail.q], PrintBody(tail.body), st);
    assert Run(st, quoted) == (Next(inside), |quoted|);
    if tail.escaped {
      RunOfOne(inside, BACKSLASH);
      RunSplits(quoted, [BACKSLASH], st);
    } else {
      assert tail.Print() == quoted;
    }
  }

  /** Adding a finished item to the innermost open container. */
  function WithItem(frames: seq<Frame>, item: Item): (r: seq<Frame>)
    requires frames != [] && item.Valid() && forall k | 0 <= k < |frames| :: frames[k].Valid()
    ensures r != [] && (forall k | 0 <= k < |r| :: r[k].Valid())
    ensures PrintFrames(r) == PrintFrames(frames) + Print(item) && Closers(r) == Closers(frames)
  {
    var front, last := frames[..|frames| - 1], frames[|frames| - 1];
    assert last.Valid() && frames == front + [last];
    var items := last.items + [item];
    assert items[..|last.items|] == last.items;
    var grown := Frame(last.opener, items);
    PushFrame(front, last);
    PushFrame(front, grown);
    assert grown.Print() == last.Print() + Print(item);
    front + [grown]
  }

  lemma ReadOneMore(before: Text, c: int)
    requires Run(START, before + [c]).0.Next?
    ensures Run(START, before).0.Next? && Run(START, before + [c]).0 == Advance(Run(START, before).0.state, c)
  {
    RunSplits(before, [c], START);
    if Run(START, before).0.Next? {
      RunOfOne(Run(START, before).0.state, c);
    }
  }

  lemma FirstOpener(c: int) returns (u: Unfinished)
    requires IsOpener(c)
    ensures u.Valid() && u.Print() == [c] && Run(START, [c]).0 == Next(u.Reached())
  {
    u := Unfinished([Frame(c, [])], NoTail);
    PushFrame([], u.frames[0]);
    assert [] + u.frames == u.frames;
    RunOfOne(START, c);
  }

  /** What the scanner has read without stopping is an unfinished container, and it knows its state. */
  lemma {:induction false} ReadTextIsUnfinished(t: Text) returns (u: Unfinished)
    requires t != [] && IsOpener(t[0]) && Run(START, t).0.Next?
    ensures u.Valid() && u.Print() == t && Run(START, t).0.state == u.Reached()
    decreases |t|
  {
    var before, c := t[..|t| - 1], t[|t| - 1];
    assert t == before + [c];
    if before == [] {
      u := FirstOpener(c);
    } else {
      ReadOneMore(before, c);
      var v := ReadTextIsUnfinished(before);
      u := AfterCharacter(v, c);
    }
  }

  lemma AfterCharacter(v: Unfinished, c: int) returns (u: Unfinished)
    requires v.Valid() && Advance(v.Reached(), c).Next?
    ensures u.Valid() && u.Print() == v.Print() + [c] && Advance(v.Reached(), c).state == u.Reached()
  {
    if v.tail.InQuote? {
      u := AfterQuotedCharacter(v, c);
    } else if IsQuote(c) {
      u := v.(tail := InQuote(c, [], false));
    } else if IsOpener(c) {
      PushFrame(v.frames, Frame(c, []));
      u := v.(frames := v.frames + [Frame(c, [])]);
    } else if IsCloser(c) {
      u := AfterCloser(v, c);
    } else {
      u := v.(frames := WithItem(v.frames, Plain(c)));
    }
  }

  lemma AfterCloser(v: Unfinished, c: int) returns (u: Unfinished)
    requires v.Valid() && v.tail.NoTail? && IsCloser(c) && Advance(v.Reached(), c).Next?
    ensures u.Valid() && u.Print() == v.Print() + [c] && Advance(v.Reached(), c).state == u.Reached()
  {
    var front, last := v.frames[..|v.frames| - 1], v.frames[|v.frames| - 1];
    assert last.Valid() && v.frames == front + [last];
    PushFrame(front, last);
    assert c == CloserOf(last.opener);
    var group := Group(last.opener, last.items);
    u := Unfinished(WithItem(front, group), NoTail);
    assert Print(group) == last.Print() + [c];
  }

  lemma AfterQuotedCharacter(v: Unfinished, c: int) returns (u: Unfinished)
    requires v.Valid() && v.tail.InQuote?
    ensures u.Valid() && u.Print() == v.Print() + [c] && Advance(v.Reached(), c) == Next(u.Reached())
  {
    var InQuote(q, body, escaped) := v.tail;
    if escaped || (c != BACKSLASH && c != q) {
      var b := if escaped then Escaped(c) else Literal(c);
      assert (body + [b])[..|body|] == body;
      u := v.(tail := InQuote(q, body + [b], false));
      assert u.tail.Print() == v.tail.Print() + [c];
      assert u.Print() == v.Print() + [c];
    } else if c == BACKSLASH {
      u := v.(tail := InQuote(q, body, true));
      assert u.tail.Print() == v.tail.Print() + [c];
      assert u.Print() == v.Print() + [c];
    } else {
      u := Unfinished(WithItem(v.frames, Quoted(q, body)), NoTail);
      assert v.tail.Print() + [c] == Print(Quoted(q, body));
      assert u.Print() == v.Print() + [c];
    }
  }

  lemma LastCloser(u: Unfinished, c: int) returns (g: Item)
    requires u.Valid() && Advance(u.Reached(), c).Closed?
    ensures IsContainer(g) && Print(g) == u.Print() + [c]
  {
    assert |u.Reached().closers| == |u.frames|;
    var last := u.frames[0];
    assert last.Valid() && u.frames == [] + [last];
    PushFrame([], last);
    g := Group(last.opener, last.items);
    assert PrintFrames(u.frames) == last.Print();
    assert u.Print() == last.Print();
  }

  lemma ClosedMeansShallow(g: Item, rest: Text)
    requires IsContainer(g) && Run(START, Print(g) + rest).0.Closed?
    ensures Depth(g) <= MAX_DEPTH
  {
    RunOfContainer(g);
    RunSplits(Print(g), rest, START);
  }

  /** Where the scanner stops without an error, it has read a whole container. */
  lemma ClosedTextIsAContainer(t: Text, n: nat) returns (g: Item)
    requires t != [] && IsOpener(t[0]) && Run(START, t) == (Closed, n)
    ensures n <= |t| && IsContainer(g) && Print(g) == t[..n] && Depth(g) <= MAX_DEPTH
  {
    var u, c := StopsAfterUnfinished(t);
    g := LastCloser(u, c);
    assert t == Print(g) + t[n..];
    ClosedMeansShallow(g, t[n..]);
  }

  lemma {:induction false} StopsBeforeEnd(t: Text, st: ScanState)
    requires !Run(st, t).0.Next?
    ensures 0 < Run(st, t).1 <= |t|
    ensures Run(st, t[..Run(st, t).1 - 1]).0.Next?
    ensures Advance(Run(st, t[..Run(st, t).1 - 1]).0.state, t[Run(st, t).1 - 1]) == Run(st, t).0
    decreases |t|
  {
    match Advance(st, t[0])
    case Next(st') =>
      StopsBeforeEnd(t[1..], st');
      var n := Run(st', t[1..]).1;
      assert t[..n][0] == t[0] && t[..n][1..] == t[1..][..n - 1];
    case _ =>
  }

  lemma StopsAfterUnfinished(t: Text) returns (u: Unfinished, c: int)
    requires t != [] && IsOpener(t[0]) && !Run(START, t).0.Next?
    ensures var (r, n) := Run(START, t);
      0 < n <= |t| && u.Valid() && t[..n] == u.Print() + [c] && Advance(u.Reached(), c) == r
  {
    StopsBeforeEnd(t, START);
    var (r, n) := Run(START, t);
    c := t[n - 1];
    assert t[..n] == t[..n - 1] + [c];
    assert n > 1;
    u := ReadTextIsUnfinished(t[..n - 1]);
  }

  // ----- The scanner meets the grammar -----

  /** The text from `start` begins with a container that is neither too long nor too deep and ends at `end`. */
  ghost predicate ContainerWithin(value: Text, start: nat, end: int) {
    exists g ::
      && IsContainer(g) && Depth(g) <= MAX_DEPTH && |Print(g)| <= MAX_CHARS
      && start + |Print(g)| == end <= |value| && value[start..end] == Print(g)
  }

  /** The text from `start` to `end` is the unfinished container `u`. */
  ghost predicate IsUnfinishedUpTo(value: Text, start: nat, end: int, u: Unfinished) {
    start <= end <= |value| && u.Valid() && u.Print() == value[start..end]
  }

  /**
   * A limit cuts the container at `start` while it is open: it nests too deep, or goes on at the last character
   * allowed.
   */
  ghost predicate CutWhileOpen(value: Text, start: nat)
    requires start <= |value|
  {
    var limit := Limit(value, start);
    || (exists end, u :: IsUnfinishedUpTo(value, start, end, u) && end <= limit && FramesDepth(u.frames) > MAX_DEPTH)
    || (limit < |value| && exists u :: IsUnfinishedUpTo(value, start, limit, u))
  }

  /** Started at an opener, the scanner returns an end exactly for a container within the limits. */
  lemma EndMeetsGrammar(value: Text, start: nat, end: int)
    requires start < |value| && IsOpener(value[start])
    ensures ContainerEnd(value, start).0 == Some(end) <==> ContainerWithin(value, start, end)
  {
    var window := value[start..Limit(value, start)];
    if ContainerEnd(value, start).0 == Some(end) {
      var n := Run(START, window).1;
      var g := ClosedTextIsAContainer(window, n);
      assert window[..n] == value[start..end];
    }
    if ContainerWithin(value, start, end) {
      var g :| IsContainer(g) && Depth(g) <= MAX_DEPTH && |Print(g)| <= MAX_CHARS
        && start + |Print(g)| == end <= |value| && value[start..end] == Print(g);
      RunOfContainer(g);
      assert window == Print(g) + value[end..Limit(value, start)];
      RunSplits(Print(g), value[end..Limit(value, start)], START);
    }
  }

  lemma OneTooDeep(u: Unfinished, c: int) returns (deeper: Unfinished)
    requires u.Valid() && Advance(u.Reached(), c).TooDeep?
    ensures deeper.Valid() && deeper.Print() == u.Print() + [c] && FramesDepth(deeper.frames) > MAX_DEPTH
  {
    PushFrame(u.frames, Frame(c, []));
    deeper := u.(frames := u.frames + [Frame(c, [])]);
    assert deeper.frames[..|u.frames|] == u.frames;
  }

  lemma TooDeepWindow(value: Text, start: nat, limit: nat) returns (end: int, u: Unfinished)
    requires start < limit <= |value| && IsOpener(value[start]) && Run(START, value[start..limit]).0.TooDeep?
    ensures end <= limit && IsUnfinishedUpTo(value, start, end, u) && FramesDepth(u.frames) > MAX_DEPTH
  {
    var before, c := StopsAfterUnfinished(value[start..limit]);
    var n := Run(START, value[start..limit]).1;
    u := OneTooDeep(before, c);
    end := start + n;
    assert value[start..limit][..n] == value[start..end];
  }

  lemma ExhaustionComesFromACut(value: Text, start: nat)
    requires start < |value| && IsOpener(value[start]) && ContainerEnd(value, start).1
    ensures CutWhileOpen(value, start)
  {
    var limit := Limit(value, start);
    if Run(START, value[start..limit]).0.TooDeep? {
      var end, u := TooDeepWindow(value, start, limit);
    } else {
      var u := ReadTextIsUnfinished(value[start..limit]);
      assert IsUnfinishedUpTo(value, start, limit, u);
    }
  }

  lemma TooDeepTextExhausts(value: Text, start: nat, end: int, u: Unfinished)
    requires IsUnfinishedUpTo(value, start, end, u) && end <= Limit(value, start) && FramesDepth(u.frames) > MAX_DEPTH
    ensures ContainerEnd(value, start).1
  {
    var limit := Limit(value, start);
    RunOfUnfinished(u);
    assert value[start..limit] == u.Print() + value[end..limit];
    RunSplits(u.Print(), value[end..limit], START);
  }

  /** It reports exhaustion exactly when a limit cut a container that was still open. */
  lemma ExhaustionMeansCutWhileOpen(value: Text, start: nat)
    requires start < |value| && IsOpener(value[start])
    ensures ContainerEnd(value, start).1 <==> CutWhileOpen(value, start)
  {
    if ContainerEnd(value, start).1 {
      ExhaustionComesFromACut(value, start);
    } else if CutWhileOpen(value, start) {
      var limit := Limit(value, start);
      if end, u :| IsUnfinishedUpTo(value, start, end, u) && end <= limit && FramesDepth(u.frames) > MAX_DEPTH {
        TooDeepTextExhausts(value, start, end, u);
      } else {
        var u :| IsUnfinishedUpTo(value, start, limit, u);
        RunOfUnfinished(u);
      }
    }
  }
}
