/** The budgeted worklist search for structured credentials in JSON and Python-literal text. */
module StructuredScan {
  import opened TextModel
  import opened DuplicateMembers
  import opened TextContainers

  const MAX_CANDIDATES := 64
  const MAX_NODES := 4096
  const MAX_DEPTH := 12
  const MAX_STRING_DEPTH := 4

  type Depth = d: nat | d <= MAX_DEPTH

  /** A worklist entry. */
  datatype Entry = Entry(node: Json, depth: Depth)

  /** What checking an object costs: nothing without duplicate names, else the number of its selections. */
  function SelectionCost(pairs: Members): nat {
    if DuplicateNames(pairs) == [] then 0 else Count(Lists(pairs, DuplicateNames(pairs)))
  }

  function MemberValues(pairs: Members): seq<Json> {
    seq(|pairs|, i requires 0 <= i < |pairs| => pairs[i].value)
  }

  /** A search: how texts are read, what a mapping must satisfy, what to answer at a limit, and the text to search. */
  datatype Search = Search(read: Text -> Found, p: map<Text, Json> -> bool, hint: Text -> bool, root: Text) {
    /** A text matches when some container in it does; a text the bracket scanner gave up on is left to the hint. */
    ghost predicate TextMatches(text: Text, depth: Depth)
    {
      (read(text).cut && hint(text)) || SomeMatch(read(text).items, depth)
    }

    /** An object matches by some selection of its members; the search goes on inside as deep as the limits allow. */
    ghost predicate Matches(node: Json, depth: Depth)
      decreases MAX_DEPTH - depth, 0
    {
      OwnMatch(node, depth) || (ChildNodes(node, depth) != [] && SomeMatch(ChildNodes(node, depth), depth + 1))
    }

    ghost predicate SomeMatch(items: seq<Json>, depth: Depth)
      decreases MAX_DEPTH - depth, 1
    {
      exists item :: item in items && Matches(item, depth)
    }

    /** What a node decides by itself, before its children are searched. */
    ghost predicate OwnMatch(node: Json, depth: Depth) {
      match node
      case Obj(pairs) => SomeSelectionMatches(pairs, p) || (depth >= MAX_DEPTH && pairs != [] && hint(root))
      case Arr(items) => depth >= MAX_DEPTH && items != [] && hint(root)
      case Str(text) =>
        if depth < MAX_STRING_DEPTH then read(text).cut && hint(text) else text != [] && hint(text)
      case Scalar => false
    }

    /** The nodes the search of a node goes on with, all one level deeper. */
    function ChildNodes(node: Json, depth: Depth): (kids: seq<Json>)
      ensures kids != [] ==> depth < MAX_DEPTH
    {
      match node
      case Obj(pairs) => if depth < MAX_DEPTH then MemberValues(pairs) else []
      case Arr(items) => if depth < MAX_DEPTH then items else []
      case Str(text) => if depth < MAX_STRING_DEPTH then read(text).items else []
      case Scalar => []
    }

    /**
     * The search comes to a yes along a path of positions: members of objects, elements of arrays, containers in texts.
     * It ends at an object with a matching selection, or where the hint answers for what is not searched.
     */
    ghost predicate IsYesAlong(node: Json, depth: nat, path: seq<nat>)
      decreases |path|
    {
      if path == [] then
        match node
        case Obj(pairs) => SomeSelectionMatches(pairs, p) || (depth == 12 && pairs != [] && hint(root))
        case Arr(items) => depth == 12 && items != [] && hint(root)
        case Str(text) => hint(text) && if depth < 4 then read(text).cut else text != []
        case Scalar => false
      else
        match node
        case Obj(pairs) =>
          depth < 12 && path[0] < |pairs| && IsYesAlong(pairs[path[0]].value, depth + 1, path[1..])
        case Arr(items) => depth < 12 && path[0] < |items| && IsYesAlong(items[path[0]], depth + 1, path[1..])
        case Str(text) =>
          depth < 4 && path[0] < |read(text).items| && IsYesAlong(read(text).items[path[0]], depth + 1, path[1..])
        case Scalar => false
    }

    lemma {:induction false} YesAlongAPathMatches(node: Json, depth: Depth, path: seq<nat>)
      requires IsYesAlong(node, depth, path)
      ensures Matches(node, depth)
      decreases |path|
    {
      if path != [] {
        var kids := ChildNodes(node, depth);
        assert path[0] < |kids| && IsYesAlong(kids[path[0]], depth + 1, path[1..]);
        YesAlongAPathMatches(kids[path[0]], depth + 1, path[1..]);
        assert kids[path[0]] in kids;
      }
    }

    lemma OneStepLonger(node: Json, depth: Depth, i: nat, rest: seq<nat>)
      requires i < |ChildNodes(node, depth)| && IsYesAlong(ChildNodes(node, depth)[i], depth + 1, rest)
      ensures IsYesAlong(node, depth, [i] + rest)
    {
      assert ([i] + rest)[1..] == rest;
    }

    lemma {:induction false} MatchesAlongSomePath(node: Json, depth: Depth) returns (path: seq<nat>)
      requires Matches(node, depth)
      ensures IsYesAlong(node, depth, path)
      decreases MAX_DEPTH - depth
    {
      if OwnMatch(node, depth) {
        path := [];
      } else {
        var kids := ChildNodes(node, depth);
        var kid :| kid in kids && Matches(kid, depth + 1);
        var i :| 0 <= i < |kids| && kids[i] == kid;
        var rest := MatchesAlongSomePath(kid, depth + 1);
        OneStepLonger(node, depth, i, rest);
        path := [i] + rest;
      }
    }

    ghost predicate SomePathFrom(node: Json) { exists path :: IsYesAlong(node, 0, path) }

    /** The recursive search of a text says yes exactly when some path from one of its containers comes to a yes. */
    lemma TextMatchesIffSomePathDoes(text: Text)
      ensures TextMatches(text, 0) <==>
        || (read(text).cut && hint(text))
        || exists i | 0 <= i < |read(text).items| :: SomePathFrom(read(text).items[i])
    {
      var items := read(text).items;
      if SomeMatch(items, 0) {
        var item :| item in items && Matches(item, 0);
        var i :| 0 <= i < |items| && items[i] == item;
        var path := MatchesAlongSomePath(item, 0);
        assert SomePathFrom(items[i]);
      }
      forall i | 0 <= i < |items| && SomePathFrom(items[i]) ensures SomeMatch(items, 0) {
        var path :| IsYesAlong(items[i], 0, path);
        YesAlongAPathMatches(items[i], 0, path);
        assert items[i] in items;
      }
    }

    // ----- What the search costs -----

    /** How many nodes a search without a node budget expands. */
    function Nodes(node: Json, depth: Depth): nat
      decreases MAX_DEPTH - depth, 0, 0
    {
      if ChildNodes(node, depth) == [] then 1 else 1 + NodesOfAll(ChildNodes(node, depth), depth + 1)
    }

    function NodesOfAll(items: seq<Json>, depth: Depth): nat
      decreases MAX_DEPTH - depth, 1, |items|
    {
      if items == [] then 0 else NodesOfAll(items[..|items| - 1], depth) + Nodes(items[|items| - 1], depth)
    }

    /** How many candidates it takes: attempts at parsing inside strings, and selections among duplicate names. */
    function Candidates(node: Json, depth: Depth): nat
      decreases MAX_DEPTH - depth, 0, 0
    {
      OwnCandidates(node, depth)
      + if ChildNodes(node, depth) == [] then 0 else CandidatesOfAll(ChildNodes(node, depth), depth + 1)
    }

    function CandidatesOfAll(items: seq<Json>, depth: Depth): nat
      decreases MAX_DEPTH - depth, 1, |items|
    {
      if items == [] then 0 else CandidatesOfAll(items[..|items| - 1], depth) + Candidates(items[|items| - 1], depth)
    }

    function OwnCandidates(node: Json, depth: Depth): nat {
      match node
      case Obj(pairs) => SelectionCost(pairs)
      case Str(text) => if depth < MAX_STRING_DEPTH then read(text).starts else 0
      case _ => 0
    }

    /** The whole search stays within both budgets. */
    predicate WithinBudgets(text: Text) {
      && NodesOfAll(read(text).items, 0) <= MAX_NODES
      && read(text).starts + CandidatesOfAll(read(text).items, 0) <= MAX_CANDIDATES
    }

    // ----- Worklists -----

    static function At(items: seq<Json>, depth: Depth): seq<Entry> {
      seq(|items|, i requires 0 <= i < |items| => Entry(items[i], depth))
    }

    /** The worklist after a node is decided: its children go on top. */
    function Pushed(stack: seq<Entry>, node: Json, depth: Depth): seq<Entry> {
      if ChildNodes(node, depth) == [] then stack else stack + At(ChildNodes(node, depth), depth + 1)
    }

    ghost predicate SomeMatches(stack: seq<Entry>)
    {
      exists i | 0 <= i < |stack| :: Matches(stack[i].node, stack[i].depth)
    }

    function StackNodes(stack: seq<Entry>): nat
    {
      if stack == [] then 0
      else StackNodes(stack[..|stack| - 1]) + Nodes(stack[|stack| - 1].node, stack[|stack| - 1].depth)
    }

    function StackCandidates(stack: seq<Entry>): nat
    {
      if stack == [] then 0
      else StackCandidates(stack[..|stack| - 1]) + Candidates(stack[|stack| - 1].node, stack[|stack| - 1].depth)
    }

    lemma {:induction false} StacksAddUp(a: seq<Entry>, b: seq<Entry>)
      ensures StackNodes(a + b) == StackNodes(a) + StackNodes(b)
      ensures StackCandidates(a + b) == StackCandidates(a) + StackCandidates(b)
      decreases |b|
    {
      if b == [] {
        assert a + b == a;
      } else {
        StacksAddUp(a, b[..|b| - 1]);
        assert (a + b)[..|a + b| - 1] == a + b[..|b| - 1];
      }
    }

    lemma SomeMatchesInEither(a: seq<Entry>, b: seq<Entry>)
      ensures SomeMatches(a + b) <==> SomeMatches(a) || SomeMatches(b)
    {
      var s := a + b;
      if SomeMatches(a) {
        var i :| 0 <= i < |a| && Matches(a[i].node, a[i].depth);
        assert s[i] == a[i];
      }
      if SomeMatches(b) {
        var i :| 0 <= i < |b| && Matches(b[i].node, b[i].depth);
        assert s[|a| + i] == b[i];
      }
    }

    lemma {:induction false} StackOfItems(items: seq<Json>, depth: Depth)
      ensures StackNodes(At(items, depth)) == NodesOfAll(items, depth)
      ensures StackCandidates(At(items, depth)) == CandidatesOfAll(items, depth)
      decreases |items|
    {
      if items != [] {
        StackOfItems(items[..|items| - 1], depth);
        assert At(items, depth)[..|items| - 1] == At(items[..|items| - 1], depth);
      }
    }

    lemma SomeMatchesOfItems(items: seq<Json>, depth: Depth)
      ensures SomeMatches(At(items, depth)) <==> SomeMatch(items, depth)
    {
      var stack := At(items, depth);
      if SomeMatches(stack) {
        var i :| 0 <= i < |stack| && Matches(stack[i].node, stack[i].depth);
        assert items[i] in items;
      }
      if SomeMatch(items, depth) {
        var item :| item in items && Matches(item, depth);
        var i :| 0 <= i < |items| && items[i] == item;
        assert stack[i] == Entry(item, depth);
      }
    }

    lemma SomeMatchesWithLast(stack: seq<Entry>)
      requires stack != []
      ensures var Entry(node, depth) := stack[|stack| - 1];
        SomeMatches(stack) <==> SomeMatches(stack[..|stack| - 1]) || Matches(node, depth)
    {
      var Entry(node, depth) := stack[|stack| - 1];
      var rest, last := stack[..|stack| - 1], [Entry(node, depth)];
      assert stack == rest + last;
      SomeMatchesInEither(rest, last);
      assert last[0] == Entry(node, depth);
    }

    lemma PushAll(rest: seq<Entry>, items: seq<Json>, depth: Depth)
      ensures var stack := rest + At(items, depth);
        && StackNodes(stack) == StackNodes(rest) + NodesOfAll(items, depth)
        && StackCandidates(stack) == StackCandidates(rest) + CandidatesOfAll(items, depth)
    {
      StacksAddUp(rest, At(items, depth));
      StackOfItems(items, depth);
    }

    /** Deciding the last entry and pushing its children keeps the answer of the whole worklist. */
    lemma StepKeepsTheAnswer(stack: seq<Entry>)
      requires stack != []
      ensures var Entry(node, depth) := stack[|stack| - 1];
        SomeMatches(stack) <==> OwnMatch(node, depth) || SomeMatches(Pushed(stack[..|stack| - 1], node, depth))
    {
      var Entry(node, depth) := stack[|stack| - 1];
      var rest, kids := stack[..|stack| - 1], ChildNodes(node, depth);
      SomeMatchesWithLast(stack);
      if kids != [] {
        SomeMatchesInEither(rest, At(kids, depth + 1));
        SomeMatchesOfItems(kids, depth + 1);
        assert Pushed(rest, node, depth) == rest + At(kids, depth + 1);
      }
    }

    /** It accounts for one node. */
    lemma StepPaysForItsNode(stack: seq<Entry>)
      requires stack != []
      ensures var Entry(node, depth) := stack[|stack| - 1];
        StackNodes(stack) == StackNodes(Pushed(stack[..|stack| - 1], node, depth)) + 1
    {
      var Entry(node, depth) := stack[|stack| - 1];
      var rest, kids := stack[..|stack| - 1], ChildNodes(node, depth);
      assert StackNodes(stack) == StackNodes(rest) + Nodes(node, depth);
      if kids != [] {
        PushAll(rest, kids, depth + 1);
        assert Pushed(rest, node, depth) == rest + At(kids, depth + 1);
      }
    }

    /** It accounts for the candidates of the node itself. */
    lemma StepPaysForItsCandidates(stack: seq<Entry>)
      requires stack != []
      ensures var Entry(node, depth) := stack[|stack| - 1];
        StackCandidates(stack)
          == StackCandidates(Pushed(stack[..|stack| - 1], node, depth)) + OwnCandidates(node, depth)
    {
      var Entry(node, depth) := stack[|stack| - 1];
      var rest, kids := stack[..|stack| - 1], ChildNodes(node, depth);
      assert StackCandidates(stack) == StackCandidates(rest) + Candidates(node, depth);
      if kids != [] {
        PushAll(rest, kids, depth + 1);
        assert Pushed(rest, node, depth) == rest + At(kids, depth + 1);
      }
    }

    /**
     * The scan is on track: the worklist still has the answer and the unspent cost, or a budget was really exceeded.
     */
    ghost predicate OnTrack(stack: seq<Entry>, visited: nat, remaining: nat, cutShort: bool) {
      if cutShort then !WithinBudgets(root) && exists t: Text :: !hint(t)
      else
        && (SomeMatches(stack) <==> TextMatches(root, 0))
        && visited + StackNodes(stack) == NodesOfAll(read(root).items, 0)
        && MAX_CANDIDATES - remaining + StackCandidates(stack)
             == read(root).starts + CandidatesOfAll(read(root).items, 0)
    }

    lemma StartsOnTrack()
      requires read(root).starts <= MAX_CANDIDATES && !(read(root).cut && hint(root))
      ensures OnTrack(At(read(root).items, 0), 0, MAX_CANDIDATES - read(root).starts, false)
    {
      SomeMatchesOfItems(read(root).items, 0);
      StackOfItems(read(root).items, 0);
    }

    lemma StaysCutShort(stack: seq<Entry>, visited: nat, remaining: nat)
      requires !WithinBudgets(root) && exists t: Text :: !hint(t)
      ensures OnTrack(stack, visited, remaining, true)
    {
    }

    lemma StaysOnTrack(stack: seq<Entry>, visited: nat, remaining: nat)
      requires stack != [] && OnTrack(stack, visited, remaining, false)
      ensures var Entry(node, depth) := stack[|stack| - 1];
        var next, own := Pushed(stack[..|stack| - 1], node, depth), OwnCandidates(node, depth);
        && (OwnMatch(node, depth) ==> TextMatches(root, 0))
        && (own > remaining || visited == MAX_NODES ==> !WithinBudgets(root))
        && (own <= remaining && !OwnMatch(node, depth) ==> OnTrack(next, visited + 1, remaining - own, false))
    {
      StepKeepsTheAnswer(stack);
      StepPaysForItsNode(stack);
      StepPaysForItsCandidates(stack);
    }
  }

  // ----- The scan -----

  class Scan {
    const search: Search
    const parsers: Parsers
    var stack: seq<Entry>
    var remaining: nat
    /** Set when a budget cut the scan short. */
    ghost var cutShort: bool

    ghost predicate Reads() { forall t: Text :: search.read(t) == parsers.Containers(t) }

    constructor (search: Search, parsers: Parsers)
      ensures this.search == search && this.parsers == parsers && stack == [] && remaining == MAX_CANDIDATES
        && !cutShort
    {
      this.search := search;
      this.parsers := parsers;
      stack := [];
      remaining := MAX_CANDIDATES;
      cutShort := false;
    }

    /**
     * An object without duplicate names is checked once. Otherwise every selection is checked and paid for; when they
     * do not fit the remaining budget the answer is yes and nothing is paid.
     */
    method ObjectPairsMatch(pairs: Members) returns (matched: bool)
      modifies this`remaining, this`cutShort
      ensures cutShort == (old(cutShort) || SelectionCost(pairs) > old(remaining))
      ensures SelectionCost(pairs) <= old(remaining) ==>
        remaining == old(remaining) - SelectionCost(pairs) && matched == SomeSelectionMatches(pairs, search.p)
      ensures SelectionCost(pairs) > old(remaining) ==> remaining == old(remaining) && matched
    {
      var order, values, current := Group(pairs);
      var keys := Repeated(pairs, order, values);
      if keys == [] {
        LastWinsIsTheOnlySelection(pairs, search.p);
        return search.p(current);
      }
      var lists := Lists(pairs, keys);
      var fits, combinations := CombinationsWithin(lists, remaining);
      if !fits {
        cutShort := true;
        return true;
      }
      remaining := remaining - combinations;
      matched := SomeChoiceMatches(pairs, keys, lists, current);
    }

    static method Group(pairs: Members)
      returns (order: seq<Text>, values: map<Text, seq<Json>>, current: map<Text, Json>)
      ensures order == Names(pairs) && values == Groups(pairs) && current == LastWins(pairs)
    {
      order, values, current := [], map[], map[];
      for i := 0 to |pairs|
        invariant order == Names(pairs[..i]) && values == Groups(pairs[..i]) && current == LastWins(pairs[..i])
      {
        var Member(key, nested) := pairs[i];
        assert pairs[..i + 1][..i] == pairs[..i];
        Lookup(pairs[..i], key);
        current := current[key := nested];
        if key in values {
          values := values[key := values[key] + [nested]];
        } else {
          assert [] + [nested] == [nested];
          order := order + [key];
          values := values[key := [nested]];
        }
      }
      assert pairs[..|pairs|] == pairs;
    }

    /** The names with several values. */
    static method Repeated(pairs: Members, order: seq<Text>, values: map<Text, seq<Json>>) returns (keys: seq<Text>)
      requires order == Names(pairs) && values == Groups(pairs)
      ensures keys == DuplicateNames(pairs)
    {
      keys := [];
      for i := 0 to |order|
        invariant keys == Duplicated(pairs, order[..i])
      {
        assert order[i] in order && order[..i + 1][..i] == order[..i];
        Lookup(pairs, order[i]);
        if |values[order[i]]| > 1 {
          keys := keys + [order[i]];
        }
      }
      assert order[..|order|] == order;
    }

    /** Multiplies up the choices, giving up at the first factor that does not fit. */
    static method CombinationsWithin(lists: seq<seq<Json>>, budget: nat) returns (fits: bool, combinations: nat)
      requires lists != [] && forall i | 0 <= i < |lists| :: |lists[i]| > 1
      ensures fits == (Count(lists) <= budget)
      ensures fits ==> combinations == Count(lists)
    {
      combinations := 1;
      for i := 0 to |lists|
        invariant combinations * Count(lists[i..]) == Count(lists)
        invariant 1 <= combinations && (i > 0 ==> combinations <= budget)
      {
        assert lists[i..][0] == lists[i] && lists[i..][1..] == lists[i + 1..];
        CountIsPositive(lists[i + 1..]);
        DivisionTest(combinations, |lists[i]|, Count(lists[i + 1..]), budget);
        if budget <= 0 || combinations > budget / |lists[i]| {
          return false, combinations;
        }
        combinations := combinations * |lists[i]|;
      }
      return true, combinations;
    }

    ghost predicate Refuted(pairs: Members, choice: seq<Json>) {
      |choice| == |DuplicateNames(pairs)| && !search.p(Chosen(pairs, choice))
    }

    method SomeChoiceMatches(pairs: Members, keys: seq<Text>, lists: seq<seq<Json>>, current: map<Text, Json>)
      returns (matched: bool)
      requires keys == DuplicateNames(pairs) && lists == Lists(pairs, keys) && current == LastWins(pairs)
      ensures matched == SomeSelectionMatches(pairs, search.p)
    {
      var choices := Product(lists);
      for i := 0 to |choices|
        invariant forall j | 0 <= j < i :: Refuted(pairs, choices[j])
      {
        ChoiceFits(pairs, choices[i]);
        var candidate := Updated(current, keys, choices[i]);
        if search.p(candidate) {
          ChoiceIsASelection(pairs, choices[i]);
          return true;
        }
      }
      forall m | IsSelection(m, pairs) ensures !search.p(m) {
        ghost var choice := SelectionIsAChoice(pairs, m);
        ghost var j :| 0 <= j < |choices| && choices[j] == choice;
        assert Refuted(pairs, choices[j]);
      }
      return false;
    }

    /**
     * Pushes the containers a text holds. When the candidate budget does not cover the attempts, or the bracket scanner
     * gives up, the hint decides.
     */
    method EnqueueJsonContainers(text: Text, depth: Depth) returns (hit: bool)
      requires Reads()
      modifies this
      ensures var found := search.read(text);
        && cutShort == (old(cutShort) || found.starts > old(remaining))
        && (found.starts <= old(remaining) ==>
          && remaining == old(remaining) - found.starts
          && stack == old(stack) + Search.At(found.items, depth)
          && hit == (found.cut && search.hint(text)))
        && (found.starts > old(remaining) ==> hit == search.hint(text))
    {
      assert search.read(text) == parsers.Containers(text);
      var stripped := Strip(text);
      if OPEN_BRACE !in stripped && OPEN_BRACKET !in stripped {
        assert stack + Search.At([], depth) == stack;
        return false;
      }
      var parsed := parsers.loads(stripped);
      if parsed.Some? && IsContainer(parsed.value) {
        assert Search.At([parsed.value], depth) == [Entry(parsed.value, depth)];
        stack := stack + [Entry(parsed.value, depth)];
        return false;
      }
      var items, used, stop := parsers.FindContainers(text, remaining);
      remaining := remaining - used;
      stack := stack + Search.At(items, depth);
      match stop
      case Done => return false;
      case Cut => return search.hint(text);
      case OutOfBudget =>
        cutShort := true;
        return search.hint(text);
    }

    /** Decides one node and pushes its children. */
    method Expand(node: Json, depth: Depth) returns (hit: bool)
      requires Reads()
      modifies this
      ensures cutShort == (old(cutShort) || search.OwnCandidates(node, depth) > old(remaining))
      ensures search.OwnCandidates(node, depth) <= old(remaining) ==>
        && remaining == old(remaining) - search.OwnCandidates(node, depth)
        && hit == search.OwnMatch(node, depth)
        && (!hit ==> stack == search.Pushed(old(stack), node, depth))
      ensures search.OwnCandidates(node, depth) > old(remaining) ==> hit || exists t: Text :: !search.hint(t)
    {
      assert depth < MAX_DEPTH ==> stack + Search.At([], depth + 1) == stack;
      match node
      case Obj(pairs) =>
        hit := ObjectPairsMatch(pairs);
        if !hit {
          if depth < MAX_DEPTH {
            stack := stack + Search.At(MemberValues(pairs), depth + 1);
          } else {
            hit := pairs != [] && search.hint(search.root);
          }
        }
      case Arr(items) =>
        if depth < MAX_DEPTH {
          stack := stack + Search.At(items, depth + 1);
        }
        hit := depth >= MAX_DEPTH && items != [] && search.hint(search.root);
      case Str(text) =>
        if depth < MAX_STRING_DEPTH {
          hit := EnqueueJsonContainers(text, depth + 1);
        } else {
          hit := text != [] && search.hint(text);
        }
      case Scalar =>
        hit := false;
    }

    /** Takes the last entry of the worklist and decides it. */
    method Step(ghost visited: nat) returns (hit: bool)
      requires Reads() && stack != [] && search.OnTrack(stack, visited, remaining, cutShort)
      modifies this
      ensures old(cutShort) ==> cutShort
      ensures hit && !cutShort ==> search.TextMatches(search.root, 0)
      ensures cutShort ==> !search.WithinBudgets(search.root)
      ensures !hit ==> search.OnTrack(stack, visited + 1, remaining, cutShort)
    {
      if !cutShort {
        search.StaysOnTrack(stack, visited, remaining);
      }
      var Entry(node, depth) := stack[|stack| - 1];
      ghost var next := search.Pushed(stack[..|stack| - 1], node, depth);
      ghost var left := remaining - search.OwnCandidates(node, depth);
      stack := stack[..|stack| - 1];
      hit := Expand(node, depth);
      if !hit {
        if cutShort {
          search.StaysCutShort(stack, visited + 1, remaining);
        } else {
          assert stack == next && remaining == left;
          assert search.OnTrack(next, visited + 1, left, false);
        }
      }
    }

    /**
     * A scan that reaches no budget answers exactly as the recursive search, however large the part of it that was
     * never visited. `cutShort` says that the candidate budget did not cover an object or a text, `stopped` that the
     * 4096 nodes were used up; a search that fits both budgets can do neither. A scan that was cut short or stopped
     * never misses when the hint always says yes.
     */
    method ContainsStructuredJsonMapping() returns (found: bool, ghost expanded: nat, ghost stopped: bool)
      requires Reads() && stack == [] && remaining == MAX_CANDIDATES && !cutShort
      modifies this
      ensures !cutShort && !stopped ==> found == search.TextMatches(search.root, 0)
      ensures cutShort || stopped ==> !search.WithinBudgets(search.root)
      ensures search.WithinBudgets(search.root) ==> found == search.TextMatches(search.root, 0)
      ensures stopped ==> expanded == MAX_NODES && found == search.hint(search.root)
      ensures (forall t: Text :: search.hint(t)) && search.TextMatches(search.root, 0) ==> found
      ensures expanded <= MAX_NODES
    {
      expanded, stopped := 0, false;
      var value := search.root;
      var hitAtTop := EnqueueJsonContainers(value, 0);
      if hitAtTop {
        return true, expanded, false;
      }
      if !cutShort {
        search.StartsOnTrack();
        assert [] + Search.At(search.read(value).items, 0) == Search.At(search.read(value).items, 0);
      }
      var visited: nat := 0;
      while stack != []
        invariant expanded == visited <= MAX_NODES
        invariant search.OnTrack(stack, visited, remaining, cutShort)
        decreases MAX_NODES - visited
      {
        if visited >= MAX_NODES {
          if !cutShort {
            search.StaysOnTrack(stack, visited, remaining);
          }
          return search.hint(value), expanded, true;
        }
        var hit := Step(visited);
        visited := visited + 1;
        expanded := visited;
        if hit {
          return true, expanded, false;
        }
      }
      assert !cutShort ==> !search.SomeMatches([]);
      return false, expanded, false;
    }
  }

  /** In a text that is a JSON object or array the search is the search of that value. */
  lemma WholeDocumentIsSearched(search: Search, parsers: Parsers, before: Text, core: Text, after: Text, item: Json)
    requires forall t: Text :: search.read(t) == parsers.Containers(t)
    requires IsBlank(before) && IsBlank(after) && core != [] && IsOpener(core[0]) && !IsSpace(core[|core| - 1])
    requires parsers.loads(core) == Some(item) && (item.Obj? || item.Arr?)
    ensures search.TextMatches(before + core + after, 0) <==> search.SomePathFrom(item)
  {
    var text := before + core + after;
    parsers.WholeDocumentOrParts(before, core, after);
    assert core[0] in core;
    assert search.read(text).items == [item];
    search.TextMatchesIffSomePathDoes(text);
    assert [item][0] == item;
  }

  lemma LastWinsIsTheOnlySelection(pairs: Members, p: map<Text, Json> -> bool)
    requires DuplicateNames(pairs) == []
    ensures SomeSelectionMatches(pairs, p) <==> p(LastWins(pairs))
  {
    assert Choices(pairs) == [[]];
    ChoiceIsASelection(pairs, []);
    if m :| IsSelection(m, pairs) && p(m) {
      var choice := SelectionIsAChoice(pairs, m);
      assert choice == [];
    }
  }

  lemma {:induction false} CountIsPositive(lists: seq<seq<Json>>)
    requires forall i | 0 <= i < |lists| :: |lists[i]| > 1
    ensures Count(lists) >= 1
  {
    if lists != [] {
      CountIsPositive(lists[1..]);
    }
  }

  lemma ProductsGrow(a: nat, b: nat, factor: nat)
    requires a <= b
    ensures a * factor <= b * factor
  {
    assert b * factor == a * factor + (b - a) * factor;
  }

  /** With the quotient and remainder of the budget as given numbers. */
  lemma QuotientTest(done: nat, factor: nat, quotient: nat, remainder: nat)
    requires remainder < factor
    ensures done > quotient <==> done * factor > quotient * factor + remainder
  {
    if done > quotient {
      ProductsGrow(quotient + 1, done, factor);
      assert (quotient + 1) * factor == quotient * factor + factor;
    } else {
      ProductsGrow(done, quotient, factor);
    }
  }

  /**
   * The division test refuses a factor exactly when the product with it would not fit; later factors only add to it.
   */
  lemma DivisionTest(done: nat, factor: nat, rest: nat, budget: nat)
    requires factor > 1 && rest >= 1 && done >= 1
    ensures budget == 0 || done > budget / factor <==> done * factor > budget
    ensures done * (factor * rest) >= done * factor && done * (factor * rest) == done * factor * rest
  {
    QuotientTest(done, factor, budget / factor, budget % factor);
    ProductsGrow(1, done, factor);
    var product := done * factor;
    ProductsGrow(1, rest, product);
  }
}
