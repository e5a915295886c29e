/** Recommended actions inside a tool result, listed in document order. */
module ActionTree {
  import opened TextModel

  /** A JSON value. An object keeps its members in insertion order, as a Python dict does. */
  datatype Json =
    | Null
    | Bool(flag: bool)
    | Number(number: int)
    | Str(text: string)
    | Arr(items: seq<Json>)
    | Obj(fields: Fields)

  datatype Field = Field(key: string, value: Json)

  type Fields = seq<Field>

  function Get(fields: Fields, key: string): Option<Json> {
    if fields == [] then None
    else if fields[0].key == key then Some(fields[0].value)
    else Get(fields[1..], key)
  }

  /** `fields[key] = value`: a new key goes last, an old one keeps its place. */
  function Put(fields: Fields, key: string, value: Json): (r: Fields)
    ensures Get(r, key) == Some(value)
    ensures forall other | other != key :: Get(r, other) == Get(fields, other)
  {
    if fields == [] then [Field(key, value)]
    else if fields[0].key == key then [Field(key, value)] + fields[1..]
    else [fields[0]] + Put(fields[1..], key, value)
  }

  predicate HasTool(v: Json) {
    v.Obj? && match Get(v.fields, "tool") case Some(Str(_)) => true case _ => false
  }

  const CONTAINER_KEYS := {
    "primary_next_action", "next_action", "next_actions", "recommended_next_action", "recommended_next_actions",
    "recommended_next_read", "recommended_next_reads", "copyable_apply_call", "copyable_tool_call", "recovery",
    "alternatives", "copy_paste_next_request"
  }

  // ----- Children of a value, numbered from 0 -----

  function ChildCount(v: Json): nat {
    match v
    case Obj(fields) => |fields|
    case Arr(items) => |items|
    case _ => 0
  }

  function Child(v: Json, i: nat): (r: Json)
    requires i < ChildCount(v)
    ensures r < v
  {
    if v.Obj? then v.fields[i].value else v.items[i]
  }

  /** Are objects found at this child recommended actions? A list hands its own status on. */
  predicate ChildSelected(v: Json, i: nat, selected: bool)
    requires i < ChildCount(v)
  {
    if v.Obj? then v.fields[i].key in CONTAINER_KEYS else selected
  }

  // ----- The walk -----

  /** Where a value sits: the child numbers leading to it. */
  type Path = seq<nat>

  datatype Found = Found(path: Path, action: Json)

  /** Every recommended action below `v`, which sits at `at`, an object before its members. */
  function Walk(v: Json, selected: bool, at: Path): seq<Found>
    decreases v, 1, 0
  {
    (if selected && HasTool(v) then [Found(at, v)] else []) + WalkChildren(v, selected, at, 0)
  }

  function WalkChildren(v: Json, selected: bool, at: Path, i: nat): seq<Found>
    requires i <= ChildCount(v)
    decreases v, 0, ChildCount(v) - i
  {
    if i == ChildCount(v) then []
    else Walk(Child(v, i), ChildSelected(v, i, selected), at + [i]) + WalkChildren(v, selected, at, i + 1)
  }

  // ----- What it lists -----

  /** The value at a path. */
  function At(v: Json, path: Path): Option<Json>
    decreases |path|
  {
    if path == [] then Some(v)
    else if path[0] < ChildCount(v) then At(Child(v, path[0]), path[1..])
    else None
  }

  /** The last object key on the path names an action container, or there is no object key on it. */
  predicate SelectedAt(v: Json, selected: bool, path: Path)
    requires At(v, path).Some?
    decreases |path|
  {
    if path == [] then selected
    else SelectedAt(Child(v, path[0]), ChildSelected(v, path[0], selected), path[1..])
  }

  predicate IsCandidate(v: Json, selected: bool, path: Path) {
    At(v, path).Some? && SelectedAt(v, selected, path) && HasTool(At(v, path).value)
  }

  /** Document order: an object before what it holds, earlier members before later ones. */
  ghost predicate Before(a: Path, b: Path) {
    exists k: nat :: PartAt(a, b, k)
  }

  predicate PartAt(a: Path, b: Path, k: nat) {
    k <= |a| && k < |b| && a[..k] == b[..k] && (k == |a| || a[k] < b[k])
  }

  ghost predicate InOrder(w: seq<Found>) {
    forall i, j | 0 <= i < j < |w| :: Before(w[i].path, w[j].path)
  }

  /** All of `w` sits below `at`, under children numbered at least `i` where it is below a child. */
  ghost predicate Below(w: seq<Found>, at: Path) {
    forall k | 0 <= k < |w| :: |at| <= |w[k].path| && w[k].path[..|at|] == at
  }

  ghost predicate FromChild(w: seq<Found>, depth: nat, i: nat) {
    forall k | 0 <= k < |w| :: depth < |w[k].path| && i <= w[k].path[depth]
  }

  lemma {:induction false} WalkOrder(v: Json, selected: bool, at: Path)
    ensures var w := Walk(v, selected, at); Below(w, at) && InOrder(w)
    decreases v, 1, 0
  {
    WalkChildrenOrder(v, selected, at, 0);
    var rest := WalkChildren(v, selected, at, 0);
    if selected && HasTool(v) {
      forall k | 0 <= k < |rest| ensures Before(at, rest[k].path) {
        assert PartAt(at, rest[k].path, |at|);
      }
    }
  }

  lemma {:induction false} WalkChildrenOrder(v: Json, selected: bool, at: Path, i: nat)
    requires i <= ChildCount(v)
    ensures var w := WalkChildren(v, selected, at, i); Below(w, at) && FromChild(w, |at|, i) && InOrder(w)
    decreases v, 0, ChildCount(v) - i
  {
    if i < ChildCount(v) {
      WalkOrder(Child(v, i), ChildSelected(v, i, selected), at + [i]);
      WalkChildrenOrder(v, selected, at, i + 1);
      var first := Walk(Child(v, i), ChildSelected(v, i, selected), at + [i]);
      var rest := WalkChildren(v, selected, at, i + 1);
      forall k | 0 <= k < |first|
        ensures |at| < |first[k].path| && first[k].path[..|at|] == at && first[k].path[|at|] == i
      {
        assert first[k].path[..|at|] == (at + [i])[..|at|];
        assert first[k].path[|at|] == first[k].path[..|at| + 1][|at|];
      }
      forall j, k | 0 <= j < |first| && 0 <= k < |rest| ensures Before(first[j].path, rest[k].path) {
        assert PartAt(first[j].path, rest[k].path, |at|);
      }
    }
  }

  lemma {:induction false} WalkFindsCandidates(v: Json, selected: bool, at: Path, k: nat)
    requires k < |Walk(v, selected, at)|
    ensures var f := Walk(v, selected, at)[k];
      |at| <= |f.path| && f.path[..|at|] == at && IsCandidate(v, selected, f.path[|at|..])
      && At(v, f.path[|at|..]) == Some(f.action)
    decreases v, 1, 0
  {
    var own := if selected && HasTool(v) then [Found(at, v)] else [];
    if k < |own| {
      assert at[|at|..] == [];
    } else {
      WalkChildrenFindsCandidates(v, selected, at, 0, k - |own|);
    }
  }

  lemma {:induction false} WalkChildrenFindsCandidates(v: Json, selected: bool, at: Path, i: nat, k: nat)
    requires i <= ChildCount(v) && k < |WalkChildren(v, selected, at, i)|
    ensures var f := WalkChildren(v, selected, at, i)[k];
      |at| <= |f.path| && f.path[..|at|] == at && IsCandidate(v, selected, f.path[|at|..])
      && At(v, f.path[|at|..]) == Some(f.action)
    decreases v, 0, ChildCount(v) - i
  {
    var first := Walk(Child(v, i), ChildSelected(v, i, selected), at + [i]);
    if k < |first| {
      WalkFindsCandidates(Child(v, i), ChildSelected(v, i, selected), at + [i], k);
      var path := first[k].path;
      assert path[..|at|] == (at + [i])[..|at|];
      assert path[|at|] == path[..|at| + 1][|at|];
      assert path[|at|..][1..] == path[|at| + 1..];
    } else {
      WalkChildrenFindsCandidates(v, selected, at, i + 1, k - |first|);
    }
  }

  lemma {:induction false} CandidatesAreFound(v: Json, selected: bool, at: Path, path: Path)
    requires IsCandidate(v, selected, path)
    ensures Found(at + path, At(v, path).value) in Walk(v, selected, at)
    decreases |path|
  {
    if path == [] {
      assert at + path == at;
    } else {
      var i := path[0];
      CandidatesAreFound(Child(v, i), ChildSelected(v, i, selected), at + [i], path[1..]);
      assert at + [i] + path[1..] == at + path;
      ChildIsWalked(v, selected, at, 0, i, Found(at + path, At(v, path).value));
    }
  }

  lemma {:induction false} ChildIsWalked(v: Json, selected: bool, at: Path, from: nat, i: nat, f: Found)
    requires from <= i < ChildCount(v)
    requires f in Walk(Child(v, i), ChildSelected(v, i, selected), at + [i])
    ensures f in WalkChildren(v, selected, at, from)
    decreases i - from
  {
    if from < i {
      ChildIsWalked(v, selected, at, from + 1, i, f);
    }
  }

  /**
    * The walk lists exactly the objects with a tool name below an action container, each once, in
    * document order.
    */
  lemma WalkListsTheCandidates(v: Json, selected: bool)
    ensures forall path ::
      (exists f :: f in Walk(v, selected, []) && f.path == path) <==> IsCandidate(v, selected, path)
    ensures forall f | f in Walk(v, selected, []) :: At(v, f.path) == Some(f.action) && HasTool(f.action)
    ensures InOrder(Walk(v, selected, []))
  {
    var w := Walk(v, selected, []);
    WalkOrder(v, selected, []);
    forall f | f in w ensures IsCandidate(v, selected, f.path) && At(v, f.path) == Some(f.action) {
      var k :| 0 <= k < |w| && w[k] == f;
      WalkFindsCandidates(v, selected, [], k);
      assert f.path[0..] == f.path;
    }
    forall path | IsCandidate(v, selected, path) ensures exists f :: f in w && f.path == path {
      CandidatesAreFound(v, selected, [], path);
      assert [] + path == path;
    }
  }
}
