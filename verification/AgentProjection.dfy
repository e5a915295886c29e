/** Filtering navigation actions out of nested response envelopes, and clearing confirmation flags in place. */
module AgentProjection {
  import opened TextModel

  /** A JSON value of a response. Dictionaries are objects that several places may share. */
  datatype Value =
    | VNull
    | VBool(flag: bool)
    | VNumber(number: int)
    | VText(text: string)
    | VList(items: seq<Value>)
    | VMap(env: Envelope)

  /** A dictionary key: one the projection looks for by name, or any other. */
  datatype Key =
    | Result | Facts | Data | CurrentState | CanonicalState | CanonicalProjectState | CurrentConclusion | UnifiedStatus
    | RecommendedNextActions | NextActions | RecommendedNextSteps
    | RequiresConfirmation | ConfirmationRequired | NeedsUserConfirmation | Confirmation | Required | CanApply
    | Tool | SelectedWorkflow | PreviewIds
    | PrimaryNextAction | RecommendedNextAction | NextAction | SafeNextAction
    | Arguments | Params | RequiredArguments | CopyableToolCall | ProjectName
    | ActionName | Reason | Phase | Workflow | OptionalArguments | SourceTool | Routing | NavigationOnly
    | DoesNotGrantAuthority
    | Named(name: string)
  {
    /** Neither filtering nor clearing looks at the key. */
    predicate IsPlain() {
      match this
      case Result | Facts | Data | CurrentState | CanonicalState | CanonicalProjectState | CurrentConclusion => false
      case UnifiedStatus | RecommendedNextActions | NextActions | RecommendedNextSteps => false
      case RequiresConfirmation | ConfirmationRequired | NeedsUserConfirmation | Confirmation | Required => false
      case CanApply | Tool | SelectedWorkflow | PreviewIds => false
      case _ => true
    }
  }

  type Fields = map<Key, Value>

  /** A Python dictionary. */
  class Envelope {
    var fields: Fields

    constructor (fields: Fields)
      ensures this.fields == fields
    {
      this.fields := fields;
    }
  }

  const ENVELOPE_KEYS := [
    Result, Facts, Data, CurrentState, CanonicalState, CanonicalProjectState, CurrentConclusion, UnifiedStatus
  ]

  const NAVIGATION_KEYS := [RecommendedNextActions, NextActions, RecommendedNextSteps]

  /** Positions in the two lists; other keys come after the end. */
  function EnvelopeIndex(key: Key): nat {
    match key
    case Result => 0
    case Facts => 1
    case Data => 2
    case CurrentState => 3
    case CanonicalState => 4
    case CanonicalProjectState => 5
    case CurrentConclusion => 6
    case UnifiedStatus => 7
    case _ => 8
  }

  function NavigationIndex(key: Key): nat {
    match key
    case RecommendedNextActions => 0
    case NextActions => 1
    case RecommendedNextSteps => 2
    case _ => 3
  }

  lemma EnvelopeKeyAt(i: nat)
    requires i < |ENVELOPE_KEYS|
    ensures EnvelopeIndex(ENVELOPE_KEYS[i]) == i && NavigationIndex(ENVELOPE_KEYS[i]) == |NAVIGATION_KEYS|
  {
  }

  lemma NavigationKeyAt(i: nat)
    requires i < |NAVIGATION_KEYS|
    ensures NavigationIndex(NAVIGATION_KEYS[i]) == i && EnvelopeIndex(NAVIGATION_KEYS[i]) == |ENVELOPE_KEYS|
  {
  }

  const MAX_DEPTH := 5

  /** No restriction, or the tools a profile may use. */
  type Allowed = Option<set<string>>

  // ----- What a response looks like down to the depth bound -----

  datatype Tree = Tree(nodes: map<Key, Node>)

  /** A navigation list, a nested envelope, or anything else (kept as it is). */
  datatype Node = Navigation(entries: seq<Entry>) | Nested(tree: Tree) | Other(value: Value)

  datatype Entry = Action(fields: Fields) | Item(value: Value)

  predicate IsNavigation(key: Key, v: Value) { NavigationIndex(key) < 3 && v.VList? }

  predicate IsNested(key: Key, v: Value, depth: nat) { EnvelopeIndex(key) < 8 && v.VMap? && depth < MAX_DEPTH }

  /** What some dictionaries hold at a moment. */
  type Snapshot = map<Envelope, Fields>

  ghost predicate Holds(snap: Snapshot)
    reads snap.Keys
  {
    forall e | e in snap :: e.fields == snap[e]
  }

  ghost predicate Extends(snap: Snapshot, more: Snapshot) {
    forall e | e in snap :: e in more && more[e] == snap[e]
  }

  /** Envelopes down to the depth bound are among `envs`, actions in their lists among `acts`. */
  ghost predicate Within(e: Envelope, depth: nat, envs: Snapshot, acts: Snapshot)
    decreases MAX_DEPTH - depth, 1
  {
    e in envs && forall key | key in envs[e] :: ValueWithin(key, envs[e][key], depth, envs, acts)
  }

  ghost predicate ValueWithin(key: Key, v: Value, depth: nat, envs: Snapshot, acts: Snapshot)
    decreases MAX_DEPTH - depth, 0
  {
    && (IsNavigation(key, v) ==> ItemsWithin(v.items, acts))
    && (IsNested(key, v, depth) ==> Within(v.env, depth + 1, envs, acts))
  }

  ghost predicate ItemsWithin(items: seq<Value>, acts: Snapshot) {
    forall i | 0 <= i < |items| && items[i].VMap? :: items[i].env in acts
  }

  ghost function View(e: Envelope, depth: nat, envs: Snapshot, acts: Snapshot): Tree
    requires Within(e, depth, envs, acts)
    decreases MAX_DEPTH - depth, 1
  {
    Tree(map key | key in envs[e] :: ViewValue(key, envs[e][key], depth, envs, acts))
  }

  ghost function ViewValue(key: Key, v: Value, depth: nat, envs: Snapshot, acts: Snapshot): Node
    requires ValueWithin(key, v, depth, envs, acts)
    decreases MAX_DEPTH - depth, 0
  {
    if IsNavigation(key, v) then Navigation(Entries(v.items, |v.items|, acts))
    else if IsNested(key, v, depth) then Nested(View(v.env, depth + 1, envs, acts))
    else Other(v)
  }

  /** The first `n` items of a list. */
  ghost function Entries(items: seq<Value>, n: nat, acts: Snapshot): (r: seq<Entry>)
    requires n <= |items| && ItemsWithin(items, acts)
    ensures |r| == n
  {
    if n == 0 then [] else Entries(items, n - 1, acts) + [EntryOf(items[n - 1], acts)]
  }

  ghost function EntryOf(v: Value, acts: Snapshot): Entry
    requires v.VMap? ==> v.env in acts
  {
    if v.VMap? then Action(acts[v.env]) else Item(v)
  }

  lemma {:induction false} EntriesAgree(a: seq<Value>, acts: Snapshot, b: seq<Value>, acts': Snapshot, n: nat)
    requires n <= |a| && n <= |b| && ItemsWithin(a, acts) && ItemsWithin(b, acts') && Extends(acts, acts')
    requires forall i | 0 <= i < n :: a[i] == b[i]
    ensures Entries(a, n, acts) == Entries(b, n, acts')
  {
    if n > 0 {
      EntriesAgree(a, acts, b, acts', n - 1);
    }
  }

  lemma {:induction false} EntriesAt(items: seq<Value>, n: nat, acts: Snapshot, i: nat)
    requires i < n <= |items| && ItemsWithin(items, acts)
    ensures Entries(items, n, acts)[i] == EntryOf(items[i], acts)
  {
    if i < n - 1 {
      EntriesAt(items, n - 1, acts, i);
    }
  }

  // ----- Filtering -----

  predicate Reachable(action: Fields, allowed: Allowed) {
    allowed.None? || (Tool in action && action[Tool].VText? && action[Tool].text in allowed.value)
  }

  /** Reachable means unrestricted, or with a tool that is one of those allowed. */
  lemma ReachableMeans(action: Fields, allowed: Allowed)
    ensures Reachable(action, allowed) <==>
      allowed == None || exists tool | tool in allowed.value :: (Tool, VText(tool)) in action.Items
    ensures NamesTool(action) <==> exists tool :: (Tool, VText(tool)) in action.Items
  {
  }

  predicate NamesTool(action: Fields) { Tool in action && action[Tool].VText? }

  predicate KeepsEntry(entry: Entry, allowed: Allowed) {
    entry.Action? ==> !NamesTool(entry.fields) || Reachable(entry.fields, allowed)
  }

  /** What is kept of the first `n` entries, in order. */
  function FilterEntries(entries: seq<Entry>, n: nat, allowed: Allowed): (r: seq<Entry>)
    requires n <= |entries|
    ensures forall entry | entry in r :: entry in entries && KeepsEntry(entry, allowed)
  {
    if n == 0 then []
    else FilterEntries(entries, n - 1, allowed) + (if KeepsEntry(entries[n - 1], allowed) then [entries[n - 1]] else [])
  }

  function FilterTree(t: Tree, allowed: Allowed): Tree
    decreases t
  {
    Tree(map key | key in t.nodes :: FilterNode(t.nodes[key], allowed))
  }

  function FilterNode(n: Node, allowed: Allowed): Node
    decreases n
  {
    match n
    case Navigation(entries) => Navigation(FilterEntries(entries, |entries|, allowed))
    case Nested(tree) => Nested(FilterTree(tree, allowed))
    case Other(_) => n
  }

  lemma EntriesOfOneMore(items: seq<Value>, acts: Snapshot, item: Value, acts': Snapshot)
    requires ItemsWithin(items, acts) && Extends(acts, acts') && (item.VMap? ==> item.env in acts')
    ensures ItemsWithin(items + [item], acts')
    ensures Entries(items + [item], |items| + 1, acts') == Entries(items, |items|, acts) + [EntryOf(item, acts')]
  {
    EntriesAgree(items, acts, items + [item], acts', |items|);
  }

  /** A kept action is a fresh copy; anything that is not an action is kept as it is. */
  method FilterActions(items: seq<Value>, allowed: Allowed, ghost known: Snapshot)
      returns (r: seq<Value>, ghost acts: Snapshot)
    requires Holds(known) && ItemsWithin(items, known)
    ensures fresh(acts.Keys) && Holds(acts) && ItemsWithin(r, acts)
    ensures Entries(r, |r|, acts) == FilterEntries(Entries(items, |items|, known), |items|, allowed)
  {
    ghost var entries := Entries(items, |items|, known);
    r, acts := [], map[];
    for i := 0 to |items|
      invariant fresh(acts.Keys) && Holds(acts) && ItemsWithin(r, acts)
      invariant Entries(r, |r|, acts) == FilterEntries(entries, i, allowed)
    {
      var item := items[i];
      EntriesAt(items, |items|, known, i);
      if !item.VMap? || !NamesTool(item.env.fields) || Reachable(item.env.fields, allowed) {
        var kept := item;
        ghost var more := acts;
        if item.VMap? {
          var copy := new Envelope(item.env.fields);
          kept, more := VMap(copy), acts[copy := copy.fields];
        }
        assert EntryOf(kept, more) == entries[i] && KeepsEntry(entries[i], allowed);
        EntriesOfOneMore(r, acts, kept, more);
        r, acts := r + [kept], more;
      }
    }
  }

  /**
    * `e` is made of `envs` and `acts` and holds what is left of `was`: the same keys, in lists the kept
    * actions, in envelopes the same again, and any other value untouched.
    */
  ghost predicate FilteredFrom(e: Envelope, was: Tree, depth: nat, envs: Snapshot, acts: Snapshot, allowed: Allowed)
    decreases MAX_DEPTH - depth, 1
  {
    && e in envs && envs[e].Keys == was.nodes.Keys
    && forall key | key in envs[e] :: Filtered(key, envs[e][key], was.nodes[key], depth, envs, acts, allowed)
  }

  ghost predicate Filtered(key: Key, v: Value, was: Node, depth: nat, envs: Snapshot, acts: Snapshot, allowed: Allowed)
    decreases MAX_DEPTH - depth, 0
  {
    match was
    case Navigation(entries) =>
      IsNavigation(key, v) && ItemsWithin(v.items, acts)
      && Entries(v.items, |v.items|, acts) == FilterEntries(entries, |entries|, allowed)
    case Nested(t) =>
      IsNested(key, v, depth) && !IsNavigation(key, v) && FilteredFrom(v.env, t, depth + 1, envs, acts, allowed)
    case Other(x) => v == x && !IsNavigation(key, v) && !IsNested(key, v, depth)
  }

  lemma {:induction false} FilteredFromGrows(
      e: Envelope, was: Tree, depth: nat, envs: Snapshot, acts: Snapshot, allowed: Allowed, envs': Snapshot,
        acts': Snapshot)
    requires FilteredFrom(e, was, depth, envs, acts, allowed) && Extends(envs, envs') && Extends(acts, acts')
    ensures FilteredFrom(e, was, depth, envs', acts', allowed)
    decreases MAX_DEPTH - depth, 1
  {
    forall key | key in envs[e] ensures Filtered(key, envs[e][key], was.nodes[key], depth, envs', acts', allowed) {
      FilteredGrows(key, envs[e][key], was.nodes[key], depth, envs, acts, allowed, envs', acts');
    }
  }

  lemma {:induction false} FilteredGrows(
      key: Key, v: Value, was: Node, depth: nat, envs: Snapshot, acts: Snapshot, allowed: Allowed,
      envs': Snapshot, acts': Snapshot)
    requires Filtered(key, v, was, depth, envs, acts, allowed) && Extends(envs, envs') && Extends(acts, acts')
    ensures Filtered(key, v, was, depth, envs', acts', allowed)
    decreases MAX_DEPTH - depth, 0
  {
    match was
    case Navigation(entries) => EntriesAgree(v.items, acts, v.items, acts', |v.items|);
    case Nested(t) => FilteredFromGrows(v.env, t, depth + 1, envs, acts, allowed, envs', acts');
    case Other(_) =>
  }

  lemma {:induction false} FilteredShowsFilterTree(
      e: Envelope, was: Tree, depth: nat, envs: Snapshot, acts: Snapshot, allowed: Allowed)
    requires FilteredFrom(e, was, depth, envs, acts, allowed)
    ensures Within(e, depth, envs, acts) && View(e, depth, envs, acts) == FilterTree(was, allowed)
    decreases MAX_DEPTH - depth
  {
    forall key | key in envs[e]
      ensures ValueWithin(key, envs[e][key], depth, envs, acts)
      ensures ViewValue(key, envs[e][key], depth, envs, acts) == FilterNode(was.nodes[key], allowed)
    {
      assert Filtered(key, envs[e][key], was.nodes[key], depth, envs, acts, allowed);
      if was.nodes[key].Nested? {
        FilteredShowsFilterTree(envs[e][key].env, was.nodes[key].tree, depth + 1, envs, acts, allowed);
      }
    }
  }

  /** Where the two loops are: at the given position in the navigation keys and in the envelope keys. */
  datatype Position = Position(nav: nat, env: nat)

  predicate Done(key: Key, at: Position) { NavigationIndex(key) < at.nav <= 3 || EnvelopeIndex(key) < at.env <= 8 }

  /** Fields under the keys that are done are filtered, the others are the original ones. */
  ghost predicate Progress(
      now: Fields, was: Fields, t: Tree, at: Position, depth: nat, envs: Snapshot, acts: Snapshot,
      allowed: Allowed)
  {
    && now.Keys == was.Keys == t.nodes.Keys
    && forall key | key in now :: KeyProgress(key, now[key], was[key], t.nodes[key], at, depth, envs, acts, allowed)
  }

  ghost predicate KeyProgress(
      key: Key, now: Value, was: Value, n: Node, at: Position, depth: nat, envs: Snapshot, acts: Snapshot,
        allowed: Allowed)
  {
    if Done(key, at) then Filtered(key, now, n, depth, envs, acts, allowed) else now == was
  }

  /** The next key, and only that one. */
  ghost predicate Next(key: Key, at: Position, at': Position) {
    && !Done(key, at) && Done(key, at')
    && (forall other | other != key :: Done(other, at) == Done(other, at'))
  }

  lemma NextEnvelopeKey(i: nat)
    requires i < 8
    ensures Next(ENVELOPE_KEYS[i], Position(3, i), Position(3, i + 1))
    ensures EnvelopeIndex(ENVELOPE_KEYS[i]) < 8 && NavigationIndex(ENVELOPE_KEYS[i]) == 3
  {
    EnvelopeKeyAt(i);
  }

  lemma NextNavigationKey(i: nat)
    requires i < 3
    ensures Next(NAVIGATION_KEYS[i], Position(i, 0), Position(i + 1, 0)) && NavigationIndex(NAVIGATION_KEYS[i]) < 3
  {
    NavigationKeyAt(i);
  }

  lemma ProgressGrows(
      now: Fields, was: Fields, t: Tree, at: Position, depth: nat, envs: Snapshot, acts: Snapshot,
      allowed: Allowed, envs': Snapshot, acts': Snapshot)
    requires Progress(now, was, t, at, depth, envs, acts, allowed) && Extends(envs, envs') && Extends(acts, acts')
    ensures Progress(now, was, t, at, depth, envs', acts', allowed)
  {
    forall key | key in now
      ensures KeyProgress(key, now[key], was[key], t.nodes[key], at, depth, envs', acts', allowed)
    {
      assert KeyProgress(key, now[key], was[key], t.nodes[key], at, depth, envs, acts, allowed);
      if Done(key, at) {
        FilteredGrows(key, now[key], t.nodes[key], depth, envs, acts, allowed, envs', acts');
      }
    }
  }

  lemma ProgressOneMore(
      now: Fields, was: Fields, t: Tree, at: Position, depth: nat, envs: Snapshot, acts: Snapshot,
      allowed: Allowed, key: Key, v: Value, at': Position)
    requires Progress(now, was, t, at, depth, envs, acts, allowed)
    requires key in now && Filtered(key, v, t.nodes[key], depth, envs, acts, allowed) && Next(key, at, at')
    ensures Progress(now[key := v], was, t, at', depth, envs, acts, allowed)
  {
    forall other | other in now && other != key
      ensures KeyProgress(other, now[other], was[other], t.nodes[other], at', depth, envs, acts, allowed)
    {
      assert KeyProgress(other, now[other], was[other], t.nodes[other], at, depth, envs, acts, allowed);
    }
  }

  lemma ProgressSkips(
      now: Fields, was: Fields, t: Tree, at: Position, depth: nat, envs: Snapshot, acts: Snapshot,
      allowed: Allowed, key: Key, at': Position)
    requires Progress(now, was, t, at, depth, envs, acts, allowed)
    requires key in now ==> Filtered(key, now[key], t.nodes[key], depth, envs, acts, allowed)
    requires Next(key, at, at')
    ensures Progress(now, was, t, at', depth, envs, acts, allowed)
  {
    forall other | other in now
      ensures KeyProgress(other, now[other], was[other], t.nodes[other], at', depth, envs, acts, allowed)
    {
      assert KeyProgress(other, now[other], was[other], t.nodes[other], at, depth, envs, acts, allowed);
    }
  }

  lemma ProgressSkipsNested(
      now: Fields, was: Fields, t: Tree, at: Position, depth: nat, envs: Snapshot, acts: Snapshot,
      allowed: Allowed, key: Key, at': Position)
    requires Progress(now, was, t, at, depth, envs, acts, allowed) && OthersStay(was, t, depth) && Next(key, at, at')
    requires NavigationIndex(key) == 3 && (key in now ==> !now[key].VMap?)
    ensures Progress(now, was, t, at', depth, envs + map[], acts + map[], allowed)
  {
    assert envs + map[] == envs && acts + map[] == acts;
    ProgressSkips(now, was, t, at, depth, envs, acts, allowed, key, at');
  }

  /** What is known of the envelope being copied: `t` is how it looked, field by field. */
  ghost predicate Shows(was: Fields, t: Tree, depth: nat, known: Snapshot)
  {
    t.nodes.Keys == was.Keys
    && forall key | key in was ::
      ValueWithin(key, was[key], depth, known, known) && t.nodes[key] == ViewValue(key, was[key], depth, known, known)
  }

  /** The part of it that needs no look at the nested objects. */
  ghost predicate OthersStay(was: Fields, t: Tree, depth: nat) {
    t.nodes.Keys == was.Keys
    && forall key | key in was && !IsNavigation(key, was[key]) && !IsNested(key, was[key], depth) ::
      t.nodes[key] == Other(was[key])
  }

  lemma OthersAreShown(was: Fields, t: Tree, depth: nat, known: Snapshot)
    requires Shows(was, t, depth, known)
    ensures OthersStay(was, t, depth)
  {
  }

  lemma NestedBefore(
      now: Fields, was: Fields, t: Tree, at: Position, depth: nat, envs: Snapshot, acts: Snapshot, allowed: Allowed,
      key: Key, at': Position, known: Snapshot)
    requires Progress(now, was, t, at, depth, envs, acts, allowed) && Shows(was, t, depth, known) && Next(key, at, at')
    requires key in now && IsNested(key, now[key], depth) && !IsNavigation(key, now[key])
    ensures Within(now[key].env, depth + 1, known, known)
    ensures t.nodes[key] == Nested(View(now[key].env, depth + 1, known, known))
  {
    assert KeyProgress(key, now[key], was[key], t.nodes[key], at, depth, envs, acts, allowed);
  }

  lemma NestedStep(
      now: Fields, was: Fields, t: Tree, at: Position, depth: nat, envs: Snapshot, acts: Snapshot,
      allowed: Allowed, key: Key, nested: Envelope, before: Tree, at': Position, kids: Snapshot, copies: Snapshot)
    requires Progress(now, was, t, at, depth, envs, acts, allowed) && Next(key, at, at')
    requires key in now && t.nodes[key] == Nested(before) && envs.Keys !! kids.Keys && acts.Keys !! copies.Keys
    requires EnvelopeIndex(key) < 8 && NavigationIndex(key) == 3 && depth < MAX_DEPTH
    requires FilteredFrom(nested, before, depth + 1, kids, copies, allowed)
    ensures Progress(now[key := VMap(nested)], was, t, at', depth, envs + kids, acts + copies, allowed)
  {
    FilteredFromGrows(nested, before, depth + 1, kids, copies, allowed, envs + kids, acts + copies);
    ProgressGrows(now, was, t, at, depth, envs, acts, allowed, envs + kids, acts + copies);
    ProgressOneMore(now, was, t, at, depth, envs + kids, acts + copies, allowed, key, VMap(nested), at');
  }

  lemma ListBefore(
      now: Fields, was: Fields, t: Tree, at: Position, depth: nat, acts: Snapshot, allowed: Allowed, key: Key,
      at': Position, known: Snapshot)
    requires Progress(now, was, t, at, depth, map[], acts, allowed) && Shows(was, t, depth, known)
    requires key in now && Next(key, at, at') && NavigationIndex(key) < 3 && now[key].VList?
    ensures ValueWithin(key, now[key], depth, known, known) && ItemsWithin(now[key].items, known)
    ensures t.nodes[key] == ViewValue(key, now[key], depth, known, known)
  {
    assert KeyProgress(key, now[key], was[key], t.nodes[key], at, depth, map[], acts, allowed);
  }

  lemma ListIsFiltered(
      key: Key, items: seq<Value>, was: Value, depth: nat, copies: Snapshot, acts: Snapshot, allowed: Allowed,
      known: Snapshot)
    requires IsNavigation(key, was) && ValueWithin(key, was, depth, known, known) && ItemsWithin(items, copies)
    requires Entries(items, |items|, copies)
      == FilterEntries(Entries(was.items, |was.items|, known), |was.items|, allowed)
    requires acts.Keys !! copies.Keys
    ensures Filtered(key, VList(items), ViewValue(key, was, depth, known, known), depth, map[], acts + copies, allowed)
  {
    EntriesAgree(items, copies, items, acts + copies, |items|);
  }

  lemma ListStep(
      now: Fields, was: Fields, t: Tree, at: Position, depth: nat, acts: Snapshot, allowed: Allowed, key: Key,
      at': Position, v: Value, copies: Snapshot)
    requires Progress(now, was, t, at, depth, map[], acts, allowed) && Next(key, at, at')
    requires key in now && acts.Keys !! copies.Keys
    requires Filtered(key, v, t.nodes[key], depth, map[], acts + copies, allowed)
    ensures Progress(now[key := v], was, t, at', depth, map[], acts + copies, allowed)
  {
    ProgressGrows(now, was, t, at, depth, map[], acts, allowed, map[], acts + copies);
    ProgressOneMore(now, was, t, at, depth, map[], acts + copies, allowed, key, v, at');
  }

  /** Once no key is left to filter, the copy holds what is left of the original. */
  lemma ProgressDone(
      now: Fields, was: Fields, t: Tree, at: Position, depth: nat, kids: Snapshot, acts: Snapshot,
      allowed: Allowed, r: Envelope)
    requires Progress(now, was, t, at, depth, kids, acts, allowed) && OthersStay(was, t, depth) && r !in kids
    requires at == Position(3, if depth < MAX_DEPTH then 8 else 0)
    ensures FilteredFrom(r, t, depth, kids[r := now], acts, allowed)
  {
    forall key | key in now ensures Filtered(key, now[key], t.nodes[key], depth, kids[r := now], acts, allowed) {
      assert KeyProgress(key, now[key], was[key], t.nodes[key], at, depth, kids, acts, allowed);
      if Done(key, at) {
        FilteredGrows(key, now[key], t.nodes[key], depth, kids, acts, allowed, kids[r := now], acts);
      }
    }
  }

  /** The list under one key, if there is one, is replaced by its filtered copy. */
  method FilterList(
      filtered: Fields, key: Key, allowed: Allowed, ghost was: Fields, ghost t: Tree, ghost depth: nat,
      ghost at: Position, ghost at': Position, ghost acts: Snapshot, ghost known: Snapshot)
      returns (r: Fields, ghost copies: Snapshot)
    requires Holds(known) && Shows(was, t, depth, known) && Next(key, at, at') && NavigationIndex(key) < 3
    requires Progress(filtered, was, t, at, depth, map[], acts, allowed)
    ensures fresh(copies.Keys) && Holds(copies)
    ensures Progress(r, was, t, at', depth, map[], acts + copies, allowed)
  {
    if key in filtered && filtered[key].VList? {
      var items;
      ListBefore(filtered, was, t, at, depth, acts, allowed, key, at', known);
      items, copies := FilterActions(filtered[key].items, allowed, known);
      ListIsFiltered(key, items, filtered[key], depth, copies, acts, allowed, known);
      ListStep(filtered, was, t, at, depth, acts, allowed, key, at', VList(items), copies);
      r := filtered[key := VList(items)];
    } else {
      ProgressSkips(filtered, was, t, at, depth, map[], acts, allowed, key, at');
      r, copies := filtered, map[];
      assert acts + copies == acts;
    }
  }

  /** Each list of actions is replaced by its filtered copy. */
  method FilterNavigation(fields: Fields, allowed: Allowed, ghost t: Tree, ghost depth: nat, ghost known: Snapshot)
      returns (filtered: Fields, ghost acts: Snapshot)
    requires Holds(known) && Shows(fields, t, depth, known)
    ensures fresh(acts.Keys) && Holds(acts)
    ensures Progress(filtered, fields, t, Position(3, 0), depth, map[], acts, allowed)
  {
    filtered, acts := fields, map[];
    for i := 0 to |NAVIGATION_KEYS|
      invariant fresh(acts.Keys) && Holds(acts)
      invariant Progress(filtered, fields, t, Position(i, 0), depth, map[], acts, allowed)
    {
      NextNavigationKey(i);
      ghost var copies;
      filtered, copies := FilterList(
        filtered, NAVIGATION_KEYS[i], allowed, fields, t, depth, Position(i, 0), Position(i + 1, 0), acts, known);
      acts := acts + copies;
    }
  }

  /** An envelope under a key is replaced by its filtered copy. */
  method FilterEnvelope(
      filtered: Fields, key: Key, allowed: Allowed, depth: nat, ghost was: Fields, ghost t: Tree, ghost at: Position,
      ghost at': Position, ghost envs: Snapshot, ghost acts: Snapshot, ghost known: Snapshot)
      returns (r: Fields, ghost kids: Snapshot, ghost copies: Snapshot)
    requires depth < MAX_DEPTH && Holds(known) && key in filtered && filtered[key].VMap?
    requires Progress(filtered, was, t, at, depth, envs, acts, allowed) && Next(key, at, at')
    requires EnvelopeIndex(key) < 8 && NavigationIndex(key) == 3 && Within(filtered[key].env, depth + 1, known, known)
    requires t.nodes[key] == Nested(View(filtered[key].env, depth + 1, known, known))
    ensures fresh(kids.Keys) && Holds(kids)
    ensures fresh(copies.Keys) && Holds(copies) && kids.Keys !! copies.Keys
    ensures Progress(r, was, t, at', depth, envs + kids, acts + copies, allowed)
    decreases MAX_DEPTH - depth, 0
  {
    ghost var before := View(filtered[key].env, depth + 1, known, known);
    var nested;
    nested, kids, copies := FilterUnreachableNavigationActions(filtered[key].env, allowed, depth + 1, known);
    NestedStep(filtered, was, t, at, depth, envs, acts, allowed, key, nested, before, at', kids, copies);
    r := filtered[key := VMap(nested)];
  }

  /** The same for whatever stands under one key. */
  method FilterNestedKey(
      filtered: Fields, key: Key, allowed: Allowed, depth: nat, ghost was: Fields, ghost t: Tree, ghost at: Position,
      ghost at': Position, ghost envs: Snapshot, ghost acts: Snapshot, ghost known: Snapshot)
      returns (r: Fields, ghost kids: Snapshot, ghost copies: Snapshot)
    requires depth < MAX_DEPTH && Holds(known) && Shows(was, t, depth, known) && OthersStay(was, t, depth)
    requires Progress(filtered, was, t, at, depth, envs, acts, allowed) && Next(key, at, at')
    requires EnvelopeIndex(key) < 8 && NavigationIndex(key) == 3
    ensures fresh(kids.Keys) && Holds(kids)
    ensures fresh(copies.Keys) && Holds(copies) && kids.Keys !! copies.Keys
    ensures Progress(r, was, t, at', depth, envs + kids, acts + copies, allowed)
    decreases MAX_DEPTH - depth, 1
  {
    if key in filtered && filtered[key].VMap? {
      NestedBefore(filtered, was, t, at, depth, envs, acts, allowed, key, at', known);
      r, kids, copies := FilterEnvelope(filtered, key, allowed, depth, was, t, at, at', envs, acts, known);
    } else {
      ProgressSkipsNested(filtered, was, t, at, depth, envs, acts, allowed, key, at');
      r, kids, copies := filtered, map[], map[];
    }
  }

  /** Each nested envelope is replaced by its filtered copy. */
  method FilterNested(
      fields: Fields, allowed: Allowed, depth: nat, ghost was: Fields, ghost t: Tree, ghost given: Snapshot,
      ghost known: Snapshot)
      returns (filtered: Fields, ghost envs: Snapshot, ghost acts: Snapshot)
    requires depth < MAX_DEPTH && Holds(known) && Shows(was, t, depth, known) && OthersStay(was, t, depth)
    requires Progress(fields, was, t, Position(3, 0), depth, map[], given, allowed) && Holds(given)
    ensures fresh(envs.Keys) && Holds(envs)
    ensures fresh(acts.Keys - given.Keys) && Holds(acts) && envs.Keys !! acts.Keys
    ensures Progress(filtered, was, t, Position(3, 8), depth, envs, acts, allowed)
    decreases MAX_DEPTH - depth, 2
  {
    filtered, envs, acts := fields, map[], given;
    for i := 0 to |ENVELOPE_KEYS|
      invariant fresh(envs.Keys) && Holds(envs)
      invariant fresh(acts.Keys - given.Keys) && Holds(acts) && envs.Keys !! acts.Keys
      invariant Progress(filtered, was, t, Position(3, i), depth, envs, acts, allowed)
    {
      NextEnvelopeKey(i);
      ghost var kids, copies;
      filtered, kids, copies := FilterNestedKey(
        filtered, ENVELOPE_KEYS[i], allowed, depth, was, t, Position(3, i), Position(3, i + 1), envs, acts, known);
      envs, acts := envs + kids, acts + copies;
    }
  }

  /**
    * A copy of an envelope, made of new objects only, with the actions left out whose named tool is not
    * allowed: in its own lists and in those of every envelope below it down to the depth bound.
    */
  method FilterUnreachableNavigationActions(e: Envelope, allowed: Allowed, depth: nat, ghost known: Snapshot)
      returns (r: Envelope, ghost envs: Snapshot, ghost acts: Snapshot)
    requires depth <= MAX_DEPTH && Holds(known) && Within(e, depth, known, known)
    ensures fresh(envs.Keys) && Holds(envs)
    ensures fresh(acts.Keys) && Holds(acts) && envs.Keys !! acts.Keys
    ensures FilteredFrom(r, View(e, depth, known, known), depth, envs, acts, allowed)
    decreases MAX_DEPTH - depth, 3
  {
    ghost var t := View(e, depth, known, known);
    ghost var was := e.fields;
    OthersAreShown(was, t, depth, known);
    var filtered;
    filtered, acts := FilterNavigation(e.fields, allowed, t, depth, known);
    envs := map[];
    if depth < MAX_DEPTH {
      filtered, envs, acts := FilterNested(filtered, allowed, depth, was, t, acts, known);
    }
    r := new Envelope(filtered);
    ProgressDone(filtered, was, t, Position(3, if depth < MAX_DEPTH then 8 else 0), depth, envs, acts, allowed, r);
    envs := envs[r := filtered];
  }

  // ----- Looking for a confirming action -----

  predicate Confirms(action: Fields) { RequiresConfirmation in action && action[RequiresConfirmation] == VBool(true) }

  lemma ConfirmsMeans(action: Fields)
    ensures Confirms(action) <==> (RequiresConfirmation, VBool(true)) in action.Items
  {
  }

  predicate SomeConfirms(entries: seq<Entry>) {
    exists i :: 0 <= i < |entries| && entries[i].Action? && Confirms(entries[i].fields)
  }

  /** Some list in this envelope or below it holds an action that requires confirmation. */
  predicate TreeConfirms(t: Tree) { exists key :: key in t.nodes && NodeConfirms(t.nodes[key]) }

  predicate NodeConfirms(n: Node) {
    match n
    case Navigation(entries) => SomeConfirms(entries)
    case Nested(t) => TreeConfirms(t)
    case Other(_) => false
  }

  method SomeItemConfirms(items: seq<Value>, ghost acts: Snapshot) returns (b: bool)
    requires Holds(acts) && ItemsWithin(items, acts)
    ensures b <==> SomeConfirms(Entries(items, |items|, acts))
  {
    ghost var entries := Entries(items, |items|, acts);
    for i := 0 to |items|
      invariant forall j | 0 <= j < i :: !(entries[j].Action? && Confirms(entries[j].fields))
    {
      EntriesAt(items, |items|, acts, i);
      if items[i].VMap? && Confirms(items[i].env.fields) {
        return true;
      }
    }
    return false;
  }

  /** Does one of this envelope's own lists hold a confirming action? */
  method OwnListConfirms(e: Envelope, depth: nat, ghost envs: Snapshot, ghost acts: Snapshot) returns (b: bool)
    requires Holds(envs) && Holds(acts) && Within(e, depth, envs, acts)
    ensures var t := View(e, depth, envs, acts);
      b <==> exists key :: key in t.nodes && NavigationIndex(key) < 3 && NodeConfirms(t.nodes[key])
  {
    ghost var t := View(e, depth, envs, acts);
    for i := 0 to |NAVIGATION_KEYS|
      invariant forall key | key in t.nodes && NavigationIndex(key) < i :: !NodeConfirms(t.nodes[key])
    {
      var key := NAVIGATION_KEYS[i];
      NavigationKeyAt(i);
      assert key in e.fields ==> t.nodes[key] == ViewValue(key, e.fields[key], depth, envs, acts);
      if key in e.fields && e.fields[key].VList? {
        var found := SomeItemConfirms(e.fields[key].items, acts);
        if found {
          return true;
        }
      }
    }
    return false;
  }

  lemma NestedConfirmsMeans(e: Envelope, key: Key, depth: nat, envs: Snapshot, acts: Snapshot)
    requires depth < MAX_DEPTH && Within(e, depth, envs, acts) && EnvelopeIndex(key) < 8 && NavigationIndex(key) == 3
    ensures var t := View(e, depth, envs, acts);
      if key in envs[e] && envs[e][key].VMap? then
        key in t.nodes && Within(envs[e][key].env, depth + 1, envs, acts)
        && NodeConfirms(t.nodes[key]) == TreeConfirms(View(envs[e][key].env, depth + 1, envs, acts))
      else !(key in t.nodes && NodeConfirms(t.nodes[key]))
  {
    if key in envs[e] {
      assert ValueWithin(key, envs[e][key], depth, envs, acts);
    }
  }

  /** Does the envelope under one key hold a confirming action? */
  method NestedConfirms(e: Envelope, key: Key, depth: nat, ghost envs: Snapshot, ghost acts: Snapshot)
      returns (b: bool)
    requires depth < MAX_DEPTH && Holds(envs) && Holds(acts) && Within(e, depth, envs, acts)
    requires EnvelopeIndex(key) < 8 && NavigationIndex(key) == 3
    ensures var t := View(e, depth, envs, acts); b <==> key in t.nodes && NodeConfirms(t.nodes[key])
    decreases MAX_DEPTH - depth, 0
  {
    NestedConfirmsMeans(e, key, depth, envs, acts);
    b := false;
    if key in e.fields && e.fields[key].VMap? {
      b := HasConfirmationNavigationAction(e.fields[key].env, depth + 1, envs, acts);
    }
  }

  method HasConfirmationNavigationAction(e: Envelope, depth: nat, ghost envs: Snapshot, ghost acts: Snapshot)
      returns (b: bool)
    requires depth <= MAX_DEPTH && Holds(envs) && Holds(acts) && Within(e, depth, envs, acts)
    ensures b <==> TreeConfirms(View(e, depth, envs, acts))
    decreases MAX_DEPTH - depth, 1
  {
    ghost var t := View(e, depth, envs, acts);
    b := OwnListConfirms(e, depth, envs, acts);
    if b || depth >= MAX_DEPTH {
      return;
    }
    for i := 0 to |ENVELOPE_KEYS|
      invariant forall key | key in t.nodes && EnvelopeIndex(key) < i :: !NodeConfirms(t.nodes[key])
    {
      EnvelopeKeyAt(i);
      var found := NestedConfirms(e, ENVELOPE_KEYS[i], depth, envs, acts);
      if found {
        return true;
      }
    }
    return false;
  }
}
