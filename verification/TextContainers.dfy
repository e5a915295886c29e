/** Which containers a text holds: a whole JSON document, or the values that start at its brackets. */
module TextContainers {
  import opened TextModel
  import opened DuplicateMembers
  import BracketScanner

  const OPEN_BRACE := 123
  const OPEN_BRACKET := 91

  /** A value and where its text ends. */
  datatype Parsed = Parsed(item: Json, end: nat)

  predicate IsContainer(j: Json) { j.Obj? || j.Arr? }

  /** The containers a text holds at top level, the attempts it takes to find them, and whether the search was cut. */
  datatype Found = Found(items: seq<Json>, starts: nat, cut: bool) {
    function After(earlier: seq<Json>, attempts: nat): Found { Found(earlier + items, attempts + starts, cut) }

    lemma AfterBefore(earlier: seq<Json>, attempts: nat, item: Json)
      ensures Before(item, this).After(earlier, attempts)
        == After(if IsContainer(item) then earlier + [item] else earlier, attempts + 1)
    {
      assert earlier + ([item] + items) == earlier + [item] + items;
      assert earlier + ([] + items) == earlier + items;
    }
  }

  function Before(item: Json, rest: Found): Found {
    Found((if IsContainer(item) then [item] else []) + rest.items, rest.starts + 1, rest.cut)
  }

  predicate IsOpener(c: int) { c == '{' as int || c == '[' as int }

  predicate NoOpener(text: Text, from: nat, to: nat) { forall i | from <= i < to && i < |text| :: !IsOpener(text[i]) }

  /** The first opener at or after a position. */
  predicate IsNextOpener(text: Text, from: nat, p: nat) {
    from <= p < |text| && IsOpener(text[p]) && NoOpener(text, from, p)
  }

  function NextOpener(text: Text, cursor: nat): (start: Option<nat>)
    ensures start.Some? ==> cursor <= start.value < |text| && text[start.value] in {OPEN_BRACE, OPEN_BRACKET}
    ensures start.Some? ==> forall i | cursor <= i < start.value :: text[i] !in {OPEN_BRACE, OPEN_BRACKET}
    ensures start.None? ==> forall i | cursor <= i < |text| :: text[i] !in {OPEN_BRACE, OPEN_BRACKET}
    decreases |text| - cursor
  {
    if cursor >= |text| then None
    else if text[cursor] in {OPEN_BRACE, OPEN_BRACKET} then Some(cursor)
    else NextOpener(text, cursor + 1)
  }

  function Max(a: nat, b: nat): nat { if a < b then b else a }

  /** The parsers of the standard library, with the source's None for every failure. */
  datatype Parsers = Parsers(
    loads: Text -> Option<Json>,
    rawDecode: (Text, nat) -> Option<Parsed>,
    literal: Text -> Option<Json>) {
    /** One attempt at an opener: a value and where it ends, or None when the bracket scanner gives up. */
    function Attempt(text: Text, start: nat): (r: Option<Parsed>)
      requires start < |text|
    {
      match rawDecode(text, start)
      case Some(parsed) => Some(parsed)
      case None =>
        match BracketScanner.ContainerEnd(text, start)
        case (_, true) => None
        case (None, false) => Some(Parsed(Scalar, start + 1))
        case (Some(end), false) =>
          match literal(text[start..end])
          case None => Some(Parsed(Scalar, start + 1))
          case Some(item) => Some(Parsed(item, end))
    }

    /** Reading a text container by container, from cursor on. */
    function FindFrom(text: Text, cursor: nat): Found
      decreases |text| - cursor
    {
      match NextOpener(text, cursor)
      case None => Found([], 0, false)
      case Some(start) =>
        match Attempt(text, start)
        case None => Found([], 1, true)
        case Some(Parsed(item, end)) => Before(item, FindFrom(text, Max(start + 1, end)))
    }

    function Containers(text: Text): Found {
      var stripped := Strip(text);
      if OPEN_BRACE !in stripped && OPEN_BRACKET !in stripped then Found([], 0, false)
      else match loads(stripped)
        case Some(item) => if IsContainer(item) then Found([item], 0, false) else FindFrom(text, 0)
        case None => FindFrom(text, 0)
    }

    // ----- What it lists -----

    /** A value is read at an opener: by JSON, else as a Python literal up to where the bracket scanner ends it. */
    predicate Reads(text: Text, start: nat, v: Parsed)
      requires start < |text|
    {
      || rawDecode(text, start) == Some(v)
      || (rawDecode(text, start).None? && BracketScanner.ContainerEnd(text, start) == (Some(v.end), false)
          && literal(text[start..v.end]) == Some(v.item))
    }

    ghost predicate SomethingIsRead(text: Text, start: nat)
      requires start < |text|
    {
      exists v :: Reads(text, start, v)
    }

    ghost function ReadAt(text: Text, start: nat): (v: Parsed)
      requires start < |text| && SomethingIsRead(text, start)
      ensures Reads(text, start, v)
    {
      var v :| Reads(text, start, v); v
    }

    /** JSON reads nothing and the bracket scanner is out of its depth. */
    predicate IsAbandoned(text: Text, start: nat)
      requires start < |text|
    {
      rawDecode(text, start).None? && BracketScanner.ContainerEnd(text, start).1
    }

    lemma AttemptReads(text: Text, start: nat)
      requires start < |text|
      ensures Attempt(text, start).None? <==> IsAbandoned(text, start)
      ensures forall v :: Reads(text, start, v) ==> Attempt(text, start) == Some(v)
      ensures !SomethingIsRead(text, start) && !IsAbandoned(text, start) ==>
        Attempt(text, start) == Some(Parsed(Scalar, start + 1))
    {
      var attempt := Attempt(text, start);
      if attempt.Some? && attempt.value != Parsed(Scalar, start + 1) {
        assert Reads(text, start, attempt.value);
      }
    }

    /** How far an attempt gets: to the end of what is read, over the rest when it is abandoned, else one character. */
    ghost function CoveredTo(text: Text, start: nat): (end: nat)
      requires start < |text|
      ensures start < end
    {
      if SomethingIsRead(text, start) && ReadAt(text, start).end > start then ReadAt(text, start).end
      else if IsAbandoned(text, start) then |text|
      else start + 1
    }

    /** The attempts start at the openers no earlier attempt has read over: each at the next one, and none is left. */
    ghost predicate AreAttempts(text: Text, cursor: nat, starts: seq<nat>)
      decreases |starts|
    {
      if starts == [] then NoOpener(text, cursor, |text|)
      else IsNextOpener(text, cursor, starts[0]) && AreAttempts(text, CoveredTo(text, starts[0]), starts[1..])
    }

    /** The containers read at the attempts, in text order. */
    ghost function ItemsAt(text: Text, cursor: nat, starts: seq<nat>): seq<Json>
      requires AreAttempts(text, cursor, starts)
      decreases |starts|
    {
      if starts == [] then []
      else
        var rest := ItemsAt(text, CoveredTo(text, starts[0]), starts[1..]);
        if SomethingIsRead(text, starts[0]) then
          match ReadAt(text, starts[0]).item
          case Obj(_) => [ReadAt(text, starts[0]).item] + rest
          case Arr(_) => [ReadAt(text, starts[0]).item] + rest
          case _ => rest
        else rest
    }

    /** The last attempt is abandoned. */
    ghost predicate GivesUp(text: Text, starts: seq<nat>) {
      starts != [] && starts[|starts| - 1] < |text| && IsAbandoned(text, starts[|starts| - 1])
    }

    /** What an attempt that is not abandoned adds to what is found after it. */
    lemma AttemptIsCovered(text: Text, cursor: nat, start: nat)
      requires NextOpener(text, cursor) == Some(start) && !IsAbandoned(text, start)
      ensures var item := if SomethingIsRead(text, start) then ReadAt(text, start).item else Scalar;
        FindFrom(text, cursor) == Before(item, FindFrom(text, CoveredTo(text, start)))
    {
      AttemptReads(text, start);
      var Parsed(item, end) := Attempt(text, start).value;
      assert Max(start + 1, end) == CoveredTo(text, start);
    }

    /** The first attempt, which is not abandoned, and the rest make up all attempts. */
    lemma FirstAttemptAndRest(text: Text, cursor: nat, start: nat, rest: seq<nat>)
      requires NextOpener(text, cursor) == Some(start) && !IsAbandoned(text, start)
      requires AreAttempts(text, CoveredTo(text, start), rest)
      requires FindFrom(text, CoveredTo(text, start))
        == Found(ItemsAt(text, CoveredTo(text, start), rest), |rest|, GivesUp(text, rest))
      ensures var starts := [start] + rest;
        && AreAttempts(text, cursor, starts)
        && FindFrom(text, cursor) == Found(ItemsAt(text, cursor, starts), |starts|, GivesUp(text, starts))
    {
      var starts := [start] + rest;
      AttemptIsCovered(text, cursor, start);
      assert starts[1..] == rest;
      assert rest != [] ==> starts[|starts| - 1] == rest[|rest| - 1];
    }

    /** Reading a text lists the containers at those openers, counts the attempts and says whether it gave up. */
    lemma {:induction false} FindFromListsAttempts(text: Text, cursor: nat) returns (starts: seq<nat>)
      ensures AreAttempts(text, cursor, starts)
      ensures FindFrom(text, cursor) == Found(ItemsAt(text, cursor, starts), |starts|, GivesUp(text, starts))
      decreases |text| - cursor
    {
      match NextOpener(text, cursor)
      case None =>
        starts := [];
      case Some(start) =>
        AttemptReads(text, start);
        if IsAbandoned(text, start) {
          starts := [start];
          assert starts[1..] == [];
        } else {
          var rest := FindFromListsAttempts(text, CoveredTo(text, start));
          FirstAttemptAndRest(text, cursor, start, rest);
          starts := [start] + rest;
        }
    }

    /** The text determines the attempts. */
    lemma {:induction false} AttemptsAreDetermined(text: Text, cursor: nat, a: seq<nat>, b: seq<nat>)
      requires AreAttempts(text, cursor, a) && AreAttempts(text, cursor, b)
      ensures a == b
      decreases |a|
    {
      if a != [] && b != [] {
        assert a[0] == b[0];
        AttemptsAreDetermined(text, CoveredTo(text, a[0]), a[1..], b[1..]);
        assert a == [a[0]] + a[1..] && b == [b[0]] + b[1..];
      }
    }

    lemma {:induction false} AttemptsStartAfter(text: Text, cursor: nat, starts: seq<nat>, k: nat)
      requires AreAttempts(text, cursor, starts) && k < |starts|
      ensures cursor <= starts[k] < |text|
      decreases |starts|
    {
      if k > 0 {
        AttemptsStartAfter(text, CoveredTo(text, starts[0]), starts[1..], k - 1);
      }
    }

    /** Attempts go left to right and none starts inside what an earlier one has read. */
    lemma {:induction false} AttemptsDoNotOverlap(text: Text, cursor: nat, starts: seq<nat>, j: nat, k: nat)
      requires AreAttempts(text, cursor, starts) && j < k < |starts|
      ensures starts[j] < |text| && CoveredTo(text, starts[j]) <= starts[k]
      decreases |starts|
    {
      if j > 0 {
        AttemptsDoNotOverlap(text, CoveredTo(text, starts[0]), starts[1..], j - 1, k - 1);
      } else {
        AttemptsStartAfter(text, CoveredTo(text, starts[0]), starts[1..], k - 1);
      }
    }

    /** Every opener is attempted, or stands inside what an attempt has read over. */
    lemma {:induction false} OpenersAreAttemptedOrCovered(text: Text, cursor: nat, starts: seq<nat>, p: nat)
        returns (k: nat)
      requires AreAttempts(text, cursor, starts) && cursor <= p < |text| && IsOpener(text[p])
      ensures k < |starts| && starts[k] <= p < CoveredTo(text, starts[k])
      decreases |starts|
    {
      if p < CoveredTo(text, starts[0]) {
        k := 0;
      } else {
        var rest := OpenersAreAttemptedOrCovered(text, CoveredTo(text, starts[0]), starts[1..], p);
        k := rest + 1;
      }
    }

    /** Nothing read before position p reaches past it, and no attempt before it is abandoned. */
    ghost predicate IsOutside(text: Text, p: nat) {
      forall q | 0 <= q < p && q < |text| :: !IsAbandoned(text, q) && forall v | Reads(text, q, v) :: v.end <= p
    }

    lemma NothingReachesPast(text: Text, q: nat, p: nat)
      requires q < p && q < |text| && IsOutside(text, p)
      ensures CoveredTo(text, q) <= p
    {
      assert !IsAbandoned(text, q);
      assert SomethingIsRead(text, q) ==> Reads(text, q, ReadAt(text, q));
    }

    /** Every opener outside the values read before it is attempted, after whatever failed there. */
    lemma OpenersOutsideValuesAreAttempted(text: Text, starts: seq<nat>, p: nat) returns (k: nat)
      requires AreAttempts(text, 0, starts) && p < |text| && IsOpener(text[p]) && IsOutside(text, p)
      ensures k < |starts| && starts[k] == p
    {
      k := OpenersAreAttemptedOrCovered(text, 0, starts, p);
      AttemptsStartAfter(text, 0, starts, k);
      if starts[k] < p {
        NothingReachesPast(text, starts[k], p);
      }
    }

    lemma {:induction false} WhatIsReadIsListed(text: Text, cursor: nat, starts: seq<nat>, k: nat, v: Parsed)
      requires AreAttempts(text, cursor, starts) && k < |starts| && starts[k] < |text|
      requires Reads(text, starts[k], v) && (v.item.Obj? || v.item.Arr?)
      ensures v.item in ItemsAt(text, cursor, starts)
      decreases |starts|
    {
      if k == 0 {
        AttemptReads(text, starts[0]);
      } else {
        WhatIsReadIsListed(text, CoveredTo(text, starts[0]), starts[1..], k - 1, v);
      }
    }

    /** A container that JSON or the literal parser reads at such an opener is found. */
    lemma ContainersOutsideValuesAreFound(text: Text, p: nat, v: Parsed)
      requires p < |text| && IsOpener(text[p]) && IsOutside(text, p)
      requires Reads(text, p, v) && (v.item.Obj? || v.item.Arr?)
      ensures v.item in FindFrom(text, 0).items
    {
      var starts := FindFromListsAttempts(text, 0);
      var k := OpenersOutsideValuesAreAttempted(text, starts, p);
      WhatIsReadIsListed(text, 0, starts, k, v);
    }

    /** What a text holds is told by the text without the white space around it. */
    lemma WholeDocumentOrParts(before: Text, core: Text, after: Text)
      requires IsBlank(before) && IsBlank(after)
      requires core != [] ==> !IsSpace(core[0]) && !IsSpace(core[|core| - 1])
      ensures var text := before + core + after; var found := Containers(text);
        if forall c | c in core :: !IsOpener(c) then found == Found([], 0, false)
        else match loads(core)
          case Some(Obj(pairs)) => found == Found([Obj(pairs)], 0, false)
          case Some(Arr(items)) => found == Found([Arr(items)], 0, false)
          case _ => found == FindFrom(text, 0)
    {
      StripDropsBlanks(before, core, after);
    }

    // ----- The loop -----

    lemma FindStep(text: Text, cursor: nat, start: nat, parsed: Parsed)
      requires NextOpener(text, cursor) == Some(start) && Attempt(text, start) == Some(parsed)
      ensures FindFrom(text, cursor) == Before(parsed.item, FindFrom(text, Max(start + 1, parsed.end)))
    {
    }

    method AttemptAt(text: Text, start: nat) returns (attempt: Option<Parsed>)
      requires start < |text|
      ensures attempt == Attempt(text, start)
    {
      var raw := rawDecode(text, start);
      if raw.Some? {
        return raw;
      }
      var end, exhausted := BracketScanner.BoundedPythonLiteralContainerEnd(text, start);
      if exhausted {
        return None;
      }
      if end.None? {
        return Some(Parsed(Scalar, start + 1));
      }
      var candidate := literal(text[start..end.value]);
      match candidate
      case None => return Some(Parsed(Scalar, start + 1));
      case Some(item) => return Some(Parsed(item, end.value));
    }

    /** The loop over the openers of a text, paying one attempt for each. */
    method FindContainers(text: Text, budget: nat) returns (items: seq<Json>, used: nat, stop: Stop)
      ensures var found := FindFrom(text, 0);
        && used <= budget
        && (stop.OutOfBudget? <==> found.starts > budget)
        && (found.starts <= budget ==>
              items == found.items && used == found.starts && stop == (if found.cut then Cut else Done))
    {
      items, used := [], 0;
      var cursor: nat := 0;
      ghost var found := FindFrom(text, 0);
      while cursor < |text|
        invariant used <= budget
        invariant found == FindFrom(text, cursor).After(items, used)
        decreases |text| - cursor
      {
        var next := NextOpener(text, cursor);
        if next.None? {
          break;
        }
        var start := next.value;
        if budget - used <= 0 {
          return items, used, OutOfBudget;
        }
        used := used + 1;
        var attempt := AttemptAt(text, start);
        if attempt.None? {
          return items, used, Cut;
        }
        FindStep(text, cursor, start, attempt.value);
        var Parsed(item, end) := attempt.value;
        cursor := Max(start + 1, end);
        FindFrom(text, cursor).AfterBefore(items, used - 1, item);
        if IsContainer(item) {
          items := items + [item];
        }
      }
      return items, used, Done;
    }
  }

  /** Why the loop over a text stopped: at its end, at a container the bracket scanner gave up on, or without budget. */
  datatype Stop = Done | Cut | OutOfBudget
}
