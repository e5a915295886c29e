/** Clearing confirmation flags in a filtered response, and the projection that decides when to. */
module AgentConfirmation {
  import opened TextModel
  import opened AgentProjection
  import opened AgentBinding
  import opened AgentAction

  predicate IsTrue(fields: Fields, key: Key) { key in fields && fields[key] == VBool(true) }

  lemma IsTrueMeans(fields: Fields, key: Key)
    ensures IsTrue(fields, key) <==> (key, VBool(true)) in fields.Items
  {
  }

  /** The flags that may be lowered from true to false. */
  predicate IsFlag(key: Key) {
    key.RequiresConfirmation? || key.ConfirmationRequired? || key.NeedsUserConfirmation? || key.CanApply?
  }

  function Lower(fields: Fields, key: Key): Fields {
    if IsTrue(fields, key) then fields[key := VBool(false)] else fields
  }

  // ----- What clearing may change -----

  /** `confs` holds the confirmation dictionaries of the envelopes down to the depth bound. */
  ghost predicate Ready(e: Envelope, depth: nat, envs: Snapshot, confs: Snapshot)
    decreases MAX_DEPTH - depth, 1
  {
    && e in envs
    && (Confirmation in envs[e] && envs[e][Confirmation].VMap? ==> envs[e][Confirmation].env in confs)
    && forall key | key in envs[e] && IsNested(key, envs[e][key], depth) ::
      Ready(envs[e][key].env, depth + 1, envs, confs)
  }

  /** A confirmation dictionary replaced by a copy of it in which `required` is no longer true. */
  predicate ConfirmationLowered(a: Value, b: Value, confs: Snapshot) {
    && a.VMap? && b.VMap? && a.env in confs && b.env in confs
    && IsTrue(confs[a.env], Required) && confs[b.env] == confs[a.env][Required := VBool(false)]
  }

  predicate ValueLowered(key: Key, a: Value, b: Value, confs: Snapshot) {
    || a == b
    || (IsFlag(key) && a == VBool(true) && b == VBool(false))
    || (key.Confirmation? && ConfirmationLowered(a, b, confs))
  }

  ghost predicate FieldsLowered(a: Fields, b: Fields, confs: Snapshot) {
    a.Keys == b.Keys && forall key | key in a :: ValueLowered(key, a[key], b[key], confs)
  }

  /** From one moment to a later one the envelopes changed in no other way, the confirmations not at all. */
  ghost predicate OnlyLowered(envs: Snapshot, envs': Snapshot, confs: Snapshot, confs': Snapshot) {
    && envs.Keys == envs'.Keys && Extends(confs, confs')
    && forall e | e in envs :: FieldsLowered(envs[e], envs'[e], confs')
  }

  /** `can_apply` is the same everywhere. */
  ghost predicate KeepsCanApply(envs: Snapshot, envs': Snapshot) {
    forall e | e in envs && e in envs' :: AgreeAt(envs[e], envs'[e], CanApply)
  }

  lemma KeepsTwice(a: Snapshot, b: Snapshot, c: Snapshot)
    requires KeepsCanApply(a, b) && KeepsCanApply(b, c) && a.Keys == b.Keys
    ensures KeepsCanApply(a, c)
  {
    forall e | e in a && e in c ensures AgreeAt(a[e], c[e], CanApply) {
      assert AgreeAt(a[e], b[e], CanApply) && AgreeAt(b[e], c[e], CanApply);
    }
  }

  /** The dictionary under `unified_status` at the top. */
  ghost predicate IsStatusOf(projected: Envelope, e: Envelope, envs: Snapshot) {
    projected in envs && UnifiedStatus in envs[projected] && envs[projected][UnifiedStatus] == VMap(e)
  }

  /** `can_apply` is the same everywhere but in the status at the top. */
  ghost predicate KeepsOtherCanApply(projected: Envelope, envs: Snapshot, envs': Snapshot) {
    forall e | e in envs && e in envs' && !IsStatusOf(projected, e, envs) :: AgreeAt(envs[e], envs'[e], CanApply)
  }

  lemma FieldsLoweredTwice(a: Fields, b: Fields, c: Fields, confs: Snapshot, confs': Snapshot)
    requires FieldsLowered(a, b, confs) && FieldsLowered(b, c, confs') && Extends(confs, confs')
    ensures FieldsLowered(a, c, confs')
  {
    forall key | key in a ensures ValueLowered(key, a[key], c[key], confs') {
      assert ValueLowered(key, a[key], b[key], confs) && ValueLowered(key, b[key], c[key], confs');
    }
  }

  lemma LoweredTwice(e0: Snapshot, e1: Snapshot, e2: Snapshot, c0: Snapshot, c1: Snapshot, c2: Snapshot)
    requires OnlyLowered(e0, e1, c0, c1) && OnlyLowered(e1, e2, c1, c2)
    ensures OnlyLowered(e0, e2, c0, c2)
  {
    forall e | e in e0 ensures FieldsLowered(e0[e], e2[e], c2) {
      FieldsLoweredTwice(e0[e], e1[e], e2[e], c1, c2);
    }
  }

  lemma {:induction false} ReadyStays(
      e: Envelope, depth: nat, envs: Snapshot, confs: Snapshot, envs': Snapshot, confs': Snapshot)
    requires Ready(e, depth, envs, confs) && OnlyLowered(envs, envs', confs, confs')
    ensures Ready(e, depth, envs', confs')
    decreases MAX_DEPTH - depth
  {
    assert FieldsLowered(envs[e], envs'[e], confs');
    if Confirmation in envs[e] {
      assert ValueLowered(Confirmation, envs[e][Confirmation], envs'[e][Confirmation], confs');
    }
    forall key | key in envs'[e] && IsNested(key, envs'[e][key], depth)
      ensures Ready(envs'[e][key].env, depth + 1, envs', confs')
    {
      assert ValueLowered(key, envs[e][key], envs'[e][key], confs');
      ReadyStays(envs[e][key].env, depth + 1, envs, confs, envs', confs');
    }
  }

  // ----- What clearing achieves -----

  /** None of this envelope's own confirmation flags is true. */
  ghost predicate OwnCleared(fields: Fields, confs: Snapshot) {
    && !IsTrue(fields, RequiresConfirmation) && !IsTrue(fields, ConfirmationRequired)
    && !IsTrue(fields, NeedsUserConfirmation)
    && (Confirmation in fields && fields[Confirmation].VMap?
        ==> fields[Confirmation].env in confs && !IsTrue(confs[fields[Confirmation].env], Required))
  }

  /** Nor of those of any envelope below it, down to the depth bound. */
  ghost predicate Cleared(e: Envelope, depth: nat, envs: Snapshot, confs: Snapshot)
    decreases MAX_DEPTH - depth, 1
  {
    && e in envs && OwnCleared(envs[e], confs)
    && forall key | key in envs[e] && IsNested(key, envs[e][key], depth) ::
      Cleared(envs[e][key].env, depth + 1, envs, confs)
  }

  lemma OwnClearedStays(a: Fields, b: Fields, confs: Snapshot, confs': Snapshot)
    requires OwnCleared(a, confs) && FieldsLowered(a, b, confs') && Extends(confs, confs')
    ensures OwnCleared(b, confs')
  {
    if Confirmation in a {
      assert ValueLowered(Confirmation, a[Confirmation], b[Confirmation], confs');
    }
    forall key | key in a && IsFlag(key) ensures b[key] == a[key] || b[key] == VBool(false) {
      assert ValueLowered(key, a[key], b[key], confs');
    }
  }

  lemma {:induction false} ClearedStays(
      e: Envelope, depth: nat, envs: Snapshot, confs: Snapshot, envs': Snapshot, confs': Snapshot)
    requires Cleared(e, depth, envs, confs) && Ready(e, depth, envs, confs) && OnlyLowered(envs, envs', confs, confs')
    ensures Cleared(e, depth, envs', confs')
    decreases MAX_DEPTH - depth
  {
    assert FieldsLowered(envs[e], envs'[e], confs');
    OwnClearedStays(envs[e], envs'[e], confs, confs');
    forall key | key in envs'[e] && IsNested(key, envs'[e][key], depth)
      ensures Cleared(envs'[e][key].env, depth + 1, envs', confs')
    {
      assert ValueLowered(key, envs[e][key], envs'[e][key], confs');
      ClearedStays(envs[e][key].env, depth + 1, envs, confs, envs', confs');
    }
  }

  lemma LowerLowers(fields: Fields, key: Key, confs: Snapshot)
    requires IsFlag(key)
    ensures FieldsLowered(fields, Lower(fields, key), confs) && !IsTrue(Lower(fields, key), key)
    ensures forall other | IsTrue(Lower(fields, key), other) :: IsTrue(fields, other)
  {
  }

  /** Lowering the three flags of an envelope and, when `public` replaces it, its confirmation. */
  lemma OwnLowering(a: Fields, b: Fields, c: Fields, d: Fields, e: Fields, confs: Snapshot)
    requires b == Lower(a, RequiresConfirmation) && c == Lower(b, ConfirmationRequired)
    requires FieldsLowered(c, d, confs) && (forall key | IsFlag(key) && key in c :: d[key] == c[key])
    requires Confirmation in d && d[Confirmation].VMap?
      ==> d[Confirmation].env in confs && !IsTrue(confs[d[Confirmation].env], Required)
    requires e == Lower(d, NeedsUserConfirmation)
    ensures FieldsLowered(a, e, confs) && OwnCleared(e, confs) && AgreeAt(a, e, CanApply)
  {
    LowerLowers(a, RequiresConfirmation, confs);
    LowerLowers(b, ConfirmationRequired, confs);
    LowerLowers(d, NeedsUserConfirmation, confs);
    FieldsLoweredTwice(a, b, c, confs, confs);
    FieldsLoweredTwice(a, c, d, confs, confs);
    FieldsLoweredTwice(a, d, e, confs, confs);
  }

  /** A confirmation dictionary that still requires something is replaced by a copy that does not. */
  method ClearOwnConfirmation(v: Envelope, ghost confs: Snapshot) returns (ghost confs': Snapshot)
    requires Holds(confs) && v !in confs
    requires Confirmation in v.fields && v.fields[Confirmation].VMap? ==> v.fields[Confirmation].env in confs
    modifies v
    ensures Holds(confs') && fresh(confs'.Keys - confs.Keys) && Extends(confs, confs')
    ensures FieldsLowered(old(v.fields), v.fields, confs')
    ensures forall key | IsFlag(key) && key in v.fields :: v.fields[key] == old(v.fields)[key]
    ensures Confirmation in v.fields && v.fields[Confirmation].VMap?
      ==> v.fields[Confirmation].env in confs' && !IsTrue(confs'[v.fields[Confirmation].env], Required)
  {
    confs' := confs;
    if Confirmation in v.fields && v.fields[Confirmation].VMap? {
      var confirmation := v.fields[Confirmation].env;
      if IsTrue(confirmation.fields, Required) {
        var public := new Envelope(confirmation.fields[Required := VBool(false)]);
        confs' := confs[public := public.fields];
        v.fields := v.fields[Confirmation := VMap(public)];
      }
    }
  }

  /** Lowers an envelope's own flags; a confirmation dictionary is copied before it is changed. */
  method ClearOwn(v: Envelope, ghost envs: Snapshot, ghost confs: Snapshot)
      returns (ghost envs': Snapshot, ghost confs': Snapshot)
    requires Holds(envs) && Holds(confs) && v in envs && envs.Keys !! confs.Keys
    requires Confirmation in envs[v] && envs[v][Confirmation].VMap? ==> envs[v][Confirmation].env in confs
    modifies v
    ensures Holds(envs') && Holds(confs') && fresh(confs'.Keys - confs.Keys) && envs'.Keys !! confs'.Keys
    ensures OnlyLowered(envs, envs', confs, confs') && OwnCleared(envs'[v], confs') && KeepsCanApply(envs, envs')
  {
    ghost var a := v.fields;
    v.fields := Lower(v.fields, RequiresConfirmation);
    ghost var b := v.fields;
    v.fields := Lower(v.fields, ConfirmationRequired);
    ghost var c := v.fields;
    confs' := ClearOwnConfirmation(v, confs);
    ghost var d := v.fields;
    v.fields := Lower(v.fields, NeedsUserConfirmation);
    OwnLowering(a, b, c, d, v.fields, confs');
    envs' := envs[v := v.fields];
  }

  /** The envelopes below `v` under the first `i` keys are cleared. */
  ghost predicate ClearedBelow(v: Envelope, i: nat, depth: nat, envs: Snapshot, confs: Snapshot) {
    v in envs && i <= 8
    && forall key | key in envs[v] && IsNested(key, envs[v][key], depth) && EnvelopeIndex(key) < i ::
      Cleared(envs[v][key].env, depth + 1, envs, confs)
  }

  lemma ClearedBelowStays(
      v: Envelope, i: nat, depth: nat, envs: Snapshot, confs: Snapshot, envs': Snapshot, confs': Snapshot)
    requires ClearedBelow(v, i, depth, envs, confs) && Ready(v, depth, envs, confs)
    requires OnlyLowered(envs, envs', confs, confs')
    ensures ClearedBelow(v, i, depth, envs', confs')
  {
    assert FieldsLowered(envs[v], envs'[v], confs');
    forall key | key in envs'[v] && IsNested(key, envs'[v][key], depth) && EnvelopeIndex(key) < i
      ensures Cleared(envs'[v][key].env, depth + 1, envs', confs')
    {
      assert ValueLowered(key, envs[v][key], envs'[v][key], confs');
      ClearedStays(envs[v][key].env, depth + 1, envs, confs, envs', confs');
    }
  }

  /** Where the recursive clearing is: the envelope itself and what is below its first `i` keys is cleared. */
  ghost predicate SoFar(
      v: Envelope, i: nat, depth: nat, e0: Snapshot, c0: Snapshot, e1: Snapshot, c1: Snapshot)
  {
    && OnlyLowered(e0, e1, c0, c1) && Ready(v, depth, e1, c1)
    && OwnCleared(e1[v], c1) && ClearedBelow(v, i, depth, e1, c1)
  }

  lemma OwnClearedIsAStart(v: Envelope, depth: nat, e0: Snapshot, c0: Snapshot, e1: Snapshot, c1: Snapshot)
    requires OnlyLowered(e0, e1, c0, c1) && Ready(v, depth, e0, c0) && OwnCleared(e1[v], c1)
    ensures SoFar(v, 0, depth, e0, c0, e1, c1)
  {
    ReadyStays(v, depth, e0, c0, e1, c1);
  }

  lemma AllBelowClearedIsCleared(
      v: Envelope, i: nat, depth: nat, e0: Snapshot, c0: Snapshot, e1: Snapshot, c1: Snapshot)
    requires SoFar(v, i, depth, e0, c0, e1, c1) && (i == 8 || depth >= MAX_DEPTH)
    ensures OnlyLowered(e0, e1, c0, c1) && Cleared(v, depth, e1, c1)
  {
  }

  /** The envelope under a key, if there is one, is cleared at the later moment. */
  ghost predicate ClearedUnder(
      v: Envelope, key: Key, depth: nat, envs: Snapshot, envs': Snapshot, confs': Snapshot)
    requires v in envs
  {
    key in envs[v] && IsNested(key, envs[v][key], depth) ==> Cleared(envs[v][key].env, depth + 1, envs', confs')
  }

  /** What one more key adds. */
  lemma ClearStep(
      v: Envelope, i: nat, depth: nat, e0: Snapshot, c0: Snapshot, e1: Snapshot, c1: Snapshot, e2: Snapshot,
        c2: Snapshot)
    requires SoFar(v, i, depth, e0, c0, e1, c1) && OnlyLowered(e1, e2, c1, c2) && i < 8
    requires ClearedUnder(v, ENVELOPE_KEYS[i], depth, e1, e2, c2)
    ensures SoFar(v, i + 1, depth, e0, c0, e2, c2)
  {
    LoweredTwice(e0, e1, e2, c0, c1, c2);
    ReadyStays(v, depth, e1, c1, e2, c2);
    assert FieldsLowered(e1[v], e2[v], c2);
    OwnClearedStays(e1[v], e2[v], c1, c2);
    ClearedBelowStays(v, i, depth, e1, c1, e2, c2);
    EnvelopeKeyAt(i);
    forall key | key in e2[v] && IsNested(key, e2[v][key], depth) && EnvelopeIndex(key) == i
      ensures Cleared(e2[v][key].env, depth + 1, e2, c2)
    {
      assert key == ENVELOPE_KEYS[i];
      assert ValueLowered(key, e1[v][key], e2[v][key], c2);
    }
  }

  lemma NothingLowered(envs: Snapshot, confs: Snapshot)
    ensures OnlyLowered(envs, envs, confs, confs)
  {
  }

  /** Clears the envelope under one key, if there is one. */
  method ClearNestedKey(v: Envelope, key: Key, depth: nat, ghost envs: Snapshot, ghost confs: Snapshot)
      returns (ghost envs': Snapshot, ghost confs': Snapshot)
    requires EnvelopeIndex(key) < 8 && depth < MAX_DEPTH && Holds(envs) && Holds(confs) && envs.Keys !! confs.Keys
    requires Ready(v, depth, envs, confs)
    modifies envs.Keys
    ensures Holds(envs') && Holds(confs') && fresh(confs'.Keys - confs.Keys) && envs'.Keys !! confs'.Keys
    ensures OnlyLowered(envs, envs', confs, confs') && ClearedUnder(v, key, depth, envs, envs', confs')
    ensures KeepsCanApply(envs, envs')
    decreases MAX_DEPTH - depth, 0
  {
    if key in v.fields && v.fields[key].VMap? {
      envs', confs' := ClearConfirmationState(v.fields[key].env, depth + 1, envs, confs);
    } else {
      NothingLowered(envs, confs);
      envs', confs' := envs, confs;
    }
  }

  /** Lowers every confirmation flag of an envelope and of those below it, down to the depth bound, in place. */
  method ClearConfirmationState(v: Envelope, depth: nat, ghost envs: Snapshot, ghost confs: Snapshot)
      returns (ghost envs': Snapshot, ghost confs': Snapshot)
    requires depth <= MAX_DEPTH && Holds(envs) && Holds(confs) && envs.Keys !! confs.Keys
    requires Ready(v, depth, envs, confs)
    modifies envs.Keys
    ensures Holds(envs') && Holds(confs') && fresh(confs'.Keys - confs.Keys) && envs'.Keys !! confs'.Keys
    ensures OnlyLowered(envs, envs', confs, confs') && Cleared(v, depth, envs', confs') && KeepsCanApply(envs, envs')
    decreases MAX_DEPTH - depth, 1
  {
    envs', confs' := ClearOwn(v, envs, confs);
    OwnClearedIsAStart(v, depth, envs, confs, envs', confs');
    if depth >= MAX_DEPTH {
      AllBelowClearedIsCleared(v, 0, depth, envs, confs, envs', confs');
      return;
    }
    for i := 0 to |ENVELOPE_KEYS|
      invariant Holds(envs') && Holds(confs') && fresh(confs'.Keys - confs.Keys) && envs'.Keys !! confs'.Keys
      invariant envs'.Keys == envs.Keys && SoFar(v, i, depth, envs, confs, envs', confs')
      invariant KeepsCanApply(envs, envs')
    {
      EnvelopeKeyAt(i);
      ghost var e1, c1 := envs', confs';
      envs', confs' := ClearNestedKey(v, ENVELOPE_KEYS[i], depth, e1, c1);
      ClearStep(v, i, depth, envs, confs, e1, c1, envs', confs');
      KeepsTwice(envs, e1, envs');
    }
    AllBelowClearedIsCleared(v, 8, depth, envs, confs, envs', confs');
  }

  // ----- What the projection promises of the filtered response -----

  /** Every action with a tool name, in every list down to the depth bound, uses an allowed tool. */
  ghost predicate AllReachable(t: Tree, allowed: Allowed) {
    forall key | key in t.nodes :: NodeReachable(t.nodes[key], allowed)
  }

  ghost predicate NodeReachable(n: Node, allowed: Allowed) {
    match n
    case Navigation(entries) => forall entry | entry in entries :: KeepsEntry(entry, allowed)
    case Nested(t) => AllReachable(t, allowed)
    case Other(_) => true
  }

  lemma {:induction false} FilterReaches(t: Tree, allowed: Allowed)
    ensures AllReachable(FilterTree(t, allowed), allowed)
  {
    forall key | key in t.nodes ensures NodeReachable(FilterNode(t.nodes[key], allowed), allowed) {
      match t.nodes[key]
      case Navigation(_) =>
      case Nested(nested) => FilterReaches(nested, allowed);
      case Other(_) =>
    }
  }

  lemma {:induction false} FilterEntriesKeeps(entries: seq<Entry>, n: nat, allowed: Allowed)
    requires n <= |entries|
    ensures |FilterEntries(entries, n, allowed)| <= n
    ensures |FilterEntries(entries, n, allowed)| == n
      <==> forall i | 0 <= i < n :: KeepsEntry(entries[i], allowed)
    ensures (forall i | 0 <= i < n :: KeepsEntry(entries[i], allowed))
      ==> FilterEntries(entries, n, allowed) == entries[..n]
    ensures forall i | 0 <= i < n && KeepsEntry(entries[i], allowed) :: entries[i] in FilterEntries(entries, n, allowed)
  {
    if n > 0 {
      FilterEntriesKeeps(entries, n - 1, allowed);
      assert entries[..n] == entries[..n - 1] + [entries[n - 1]];
    }
  }

  /** Filtering leaves out nothing that is allowed: a response is unchanged exactly when it is all reachable. */
  lemma {:induction false} FilterChangesOnlyTheUnreachable(t: Tree, allowed: Allowed)
    ensures FilterTree(t, allowed) == t <==> AllReachable(t, allowed)
  {
    forall key | key in t.nodes
      ensures FilterNode(t.nodes[key], allowed) == t.nodes[key] <==> NodeReachable(t.nodes[key], allowed)
    {
      match t.nodes[key]
      case Navigation(entries) => FilterEntriesKeeps(entries, |entries|, allowed);
      case Nested(nested) => FilterChangesOnlyTheUnreachable(nested, allowed);
      case Other(_) =>
    }
    var f := FilterTree(t, allowed);
    assert forall key | key in t.nodes :: f.nodes[key] == FilterNode(t.nodes[key], allowed);
    if AllReachable(t, allowed) {
      assert f.nodes == t.nodes;
    }
  }

  /** The same response but for flags that went from true to false and for confirmation dictionaries. */
  ghost predicate SameButFlags(t: Tree, u: Tree)
    decreases t
  {
    t.nodes.Keys == u.nodes.Keys && forall key | key in t.nodes :: NodeSameButFlags(key, t.nodes[key], u.nodes[key])
  }

  ghost predicate NodeSameButFlags(key: Key, a: Node, b: Node)
    decreases a
  {
    match a
    case Navigation(_) => a == b
    case Nested(t) => b.Nested? && SameButFlags(t, b.tree)
    case Other(v) =>
      && b.Other?
      && (v == b.value || key.Confirmation? || (IsFlag(key) && v == VBool(true) && b.value == VBool(false)))
  }

  lemma {:induction false} SameKeepsReachable(t: Tree, u: Tree, allowed: Allowed)
    requires SameButFlags(t, u) && AllReachable(t, allowed)
    ensures AllReachable(u, allowed)
  {
    forall key | key in u.nodes ensures NodeReachable(u.nodes[key], allowed) {
      assert NodeSameButFlags(key, t.nodes[key], u.nodes[key]) && NodeReachable(t.nodes[key], allowed);
      if t.nodes[key].Nested? {
        SameKeepsReachable(t.nodes[key].tree, u.nodes[key].tree, allowed);
      }
    }
  }

  lemma {:induction false} LoweredView(
      e: Envelope, depth: nat, envs: Snapshot, acts: Snapshot, confs: Snapshot, envs': Snapshot, confs': Snapshot)
    requires Within(e, depth, envs, acts) && OnlyLowered(envs, envs', confs, confs')
    ensures Within(e, depth, envs', acts)
    ensures SameButFlags(View(e, depth, envs, acts), View(e, depth, envs', acts))
    decreases MAX_DEPTH - depth
  {
    assert FieldsLowered(envs[e], envs'[e], confs');
    forall key | key in envs'[e]
      ensures ValueWithin(key, envs'[e][key], depth, envs', acts)
      ensures NodeSameButFlags(
        key, ViewValue(key, envs[e][key], depth, envs, acts), ViewValue(key, envs'[e][key], depth, envs', acts))
    {
      assert ValueLowered(key, envs[e][key], envs'[e][key], confs')
        && ValueWithin(key, envs[e][key], depth, envs, acts);
      if IsNested(key, envs[e][key], depth) {
        LoweredView(envs[e][key].env, depth + 1, envs, acts, confs, envs', confs');
      }
    }
  }

  // ----- The caller's response -----

  lemma {:induction false} ClosedIsWithin(e: Envelope, depth: nat, known: Snapshot)
    requires Closed(known) && e in known
    ensures Within(e, depth, known, known) && Ready(e, depth, known, known)
    decreases MAX_DEPTH - depth
  {
    assert FieldsKnown(known[e], known);
    forall key | key in known[e]
      ensures ValueWithin(key, known[e][key], depth, known, known)
      ensures IsNested(key, known[e][key], depth) ==> Ready(known[e][key].env, depth + 1, known, known)
    {
      assert ValueKnown(known[e][key], known);
      if IsNested(key, known[e][key], depth) {
        ClosedIsWithin(known[e][key].env, depth + 1, known);
      }
    }
    if Confirmation in known[e] {
      assert ValueKnown(known[e][Confirmation], known);
    }
  }

  /** The copy's confirmation dictionaries are still the caller's. */
  lemma {:induction false} FilteredIsReady(
      r: Envelope, e: Envelope, depth: nat, envs: Snapshot, acts: Snapshot, allowed: Allowed, known: Snapshot)
    requires Closed(known) && e in known && Within(e, depth, known, known)
    requires FilteredFrom(r, View(e, depth, known, known), depth, envs, acts, allowed)
    ensures Ready(r, depth, envs, known)
    decreases MAX_DEPTH - depth
  {
    var t := View(e, depth, known, known);
    assert FieldsKnown(known[e], known);
    forall key | key in envs[r] && IsNested(key, envs[r][key], depth)
      ensures Ready(envs[r][key].env, depth + 1, envs, known)
    {
      assert Filtered(key, envs[r][key], t.nodes[key], depth, envs, acts, allowed);
      assert t.nodes[key] == ViewValue(key, known[e][key], depth, known, known);
      assert ValueKnown(known[e][key], known);
      FilteredIsReady(envs[r][key].env, known[e][key].env, depth + 1, envs, acts, allowed, known);
    }
    if Confirmation in envs[r] {
      assert Filtered(Confirmation, envs[r][Confirmation], t.nodes[Confirmation], depth, envs, acts, allowed);
      assert t.nodes[Confirmation] == ViewValue(Confirmation, known[e][Confirmation], depth, known, known);
      assert ValueKnown(known[e][Confirmation], known);
    }
  }

  // ----- The projection -----

  predicate IsTextAt(fields: Fields, key: Key, text: string) { key in fields && fields[key] == VText(text) }

  lemma IsTextMeans(fields: Fields, key: Key, text: string)
    ensures IsTextAt(fields, key, text) <==> (key, VText(text)) in fields.Items
  {
  }

  /** The response asks for a confirmation that its tools can no longer give. */
  ghost predicate ConfirmationIsStranded(
      fields: Fields, before: Tree, after: Tree, allowed: Allowed, primary: Option<Fields>, known: Snapshot)
  {
    && allowed.Some? && IsTrue(fields, RequiresConfirmation)
    && !TreeConfirms(after) && !(primary.Some? && Confirms(primary.value))
    && (TreeConfirms(before)
        || (primary.None? && IsTextAt(fields, SelectedWorkflow, "executor_preflight")
             && !Truthy(fields, PreviewIds, known)))
  }

  /** `can_apply` of the top-level `unified_status` is not true. */
  ghost predicate CannotApply(e: Envelope, envs: Snapshot) {
    e in envs && (UnifiedStatus in envs[e] && envs[e][UnifiedStatus].VMap?
      ==> envs[e][UnifiedStatus].env in envs && !IsTrue(envs[envs[e][UnifiedStatus].env], CanApply))
  }

  lemma LowerCanApply(projected: Envelope, envs: Snapshot, envs': Snapshot, confs: Snapshot)
    requires projected in envs && UnifiedStatus in envs[projected] && envs[projected][UnifiedStatus].VMap?
    requires var status := envs[projected][UnifiedStatus].env;
      status in envs && envs' == envs[status := Lower(envs[status], CanApply)]
    ensures OnlyLowered(envs, envs', confs, confs) && CannotApply(projected, envs')
  {
    var status := envs[projected][UnifiedStatus].env;
    LowerLowers(envs[status], CanApply, confs);
    assert FieldsLowered(envs[projected], envs'[projected], confs);
    assert ValueLowered(UnifiedStatus, envs[projected][UnifiedStatus], envs'[projected][UnifiedStatus], confs);
  }

  lemma StatusIsLowered(projected: Envelope, status: Envelope, envs: Snapshot, confs: Snapshot, envs': Snapshot)
    requires Cleared(projected, 0, envs, confs) && Ready(projected, 0, envs, confs)
    requires projected in envs && UnifiedStatus in envs[projected] && envs[projected][UnifiedStatus] == VMap(status)
    requires status in envs && envs' == envs[status := Lower(envs[status], CanApply)]
    ensures OnlyLowered(envs, envs', confs, confs) && Cleared(projected, 0, envs', confs)
      && CannotApply(projected, envs')
  {
    LowerCanApply(projected, envs, envs', confs);
    ClearedStays(projected, 0, envs, confs, envs', confs);
  }

  /** Lowers `can_apply` of the top-level status, if there is one. */
  method LowerStatus(projected: Envelope, ghost envs: Snapshot, ghost confs: Snapshot) returns (ghost envs': Snapshot)
    requires Holds(envs) && Holds(confs) && envs.Keys !! confs.Keys
    requires Cleared(projected, 0, envs, confs) && Ready(projected, 0, envs, confs)
    modifies envs.Keys
    ensures Holds(envs') && Holds(confs) && OnlyLowered(envs, envs', confs, confs)
    ensures Cleared(projected, 0, envs', confs) && CannotApply(projected, envs')
    ensures KeepsOtherCanApply(projected, envs, envs')
  {
    NothingLowered(envs, confs);
    envs' := envs;
    if UnifiedStatus in projected.fields && projected.fields[UnifiedStatus].VMap? {
      var status := projected.fields[UnifiedStatus].env;
      assert Ready(status, 1, envs, confs);
      status.fields := Lower(status.fields, CanApply);
      envs' := envs[status := status.fields];
      StatusIsLowered(projected, status, envs, confs, envs');
    }
  }

  lemma StatusStays(projected: Envelope, envs: Snapshot, e1: Snapshot, confs: Snapshot, confs': Snapshot)
    requires OnlyLowered(envs, e1, confs, confs') && projected in envs
    ensures forall e :: IsStatusOf(projected, e, envs) <==> IsStatusOf(projected, e, e1)
  {
    assert FieldsLowered(envs[projected], e1[projected], confs');
    if UnifiedStatus in envs[projected] {
      assert ValueLowered(UnifiedStatus, envs[projected][UnifiedStatus], e1[projected][UnifiedStatus], confs');
    }
  }

  /** Clears the flags of the whole response, and `can_apply` of its status. */
  method ClearStranded(projected: Envelope, ghost envs: Snapshot, ghost confs: Snapshot)
      returns (ghost envs': Snapshot, ghost confs': Snapshot)
    requires Holds(envs) && Holds(confs) && envs.Keys !! confs.Keys && Ready(projected, 0, envs, confs)
    modifies envs.Keys
    ensures Holds(envs') && Holds(confs') && fresh(confs'.Keys - confs.Keys) && envs'.Keys !! confs'.Keys
    ensures OnlyLowered(envs, envs', confs, confs') && Cleared(projected, 0, envs', confs')
    ensures CannotApply(projected, envs') && KeepsOtherCanApply(projected, envs, envs')
  {
    ghost var e1;
    e1, confs' := ClearConfirmationState(projected, 0, envs, confs);
    ReadyStays(projected, 0, envs, confs, e1, confs');
    envs' := LowerStatus(projected, e1, confs');
    LoweredTwice(envs, e1, envs', confs, confs', confs');
    StatusStays(projected, envs, e1, confs, confs');
  }

  /**
    * Clears the copy in place when it is stranded, and otherwise leaves it alone. `wasFiltered` says that
    * filtering removed the last confirming action of the lists.
    */
  method ReconcileUnreachableConfirmation(
      projected: Envelope, allowed: Allowed, primary: Option<Fields>, wasFiltered: bool,
      ghost before: Tree, ghost envs: Snapshot, ghost acts: Snapshot, ghost known: Snapshot)
      returns (ghost cleared: bool, ghost envs': Snapshot, ghost confs': Snapshot)
    requires Holds(envs) && Holds(acts) && Holds(known) && envs.Keys !! known.Keys && envs.Keys !! acts.Keys
    requires Within(projected, 0, envs, acts) && Ready(projected, 0, envs, known)
    requires PreviewIds in envs[projected] ==> ValueKnown(envs[projected][PreviewIds], known)
    requires wasFiltered == (TreeConfirms(before) && !TreeConfirms(View(projected, 0, envs, acts))
      && !(primary.Some? && Confirms(primary.value)))
    modifies envs.Keys
    ensures Holds(envs') && Holds(acts) && Holds(confs') && envs'.Keys !! confs'.Keys
    ensures OnlyLowered(envs, envs', known, confs')
    ensures cleared <==> ConfirmationIsStranded(
      envs[projected], before, View(projected, 0, envs, acts), allowed, primary, known)
    ensures cleared ==> Cleared(projected, 0, envs', confs') && CannotApply(projected, envs')
    ensures !cleared ==> envs' == envs && confs' == known
    ensures KeepsOtherCanApply(projected, envs, envs')
  {
    NothingLowered(envs, known);
    cleared, envs', confs' := false, envs, known;
    if allowed.None? || !IsTrue(projected.fields, RequiresConfirmation) {
      return;
    }
    var remaining := primary.Some? && Confirms(primary.value);
    if !remaining {
      remaining := HasConfirmationNavigationAction(projected, 0, envs, acts);
    }
    var previews := IsTruthy(projected.fields, PreviewIds, known);
    var preflight := primary.None? && IsTextAt(projected.fields, SelectedWorkflow, "executor_preflight") && !previews;
    if (!wasFiltered && !preflight) || remaining {
      return;
    }
    cleared := true;
    envs', confs' := ClearStranded(projected, envs, known);
  }

  predicate IsLookedAt(key: Key) { key.RequiresConfirmation? || key.SelectedWorkflow? || key.PreviewIds? }

  lemma OtherIsViewed(key: Key, v: Value, known: Snapshot)
    requires IsLookedAt(key) && ValueWithin(key, v, 0, known, known)
    ensures ViewValue(key, v, 0, known, known) == Other(v)
  {
  }

  lemma OtherIsKept(key: Key, v: Value, was: Value, envs: Snapshot, acts: Snapshot, allowed: Allowed)
    requires Filtered(key, v, Other(was), 0, envs, acts, allowed)
    ensures v == was
  {
  }

  lemma OtherFieldStays(
      r: Envelope, e: Envelope, envs: Snapshot, acts: Snapshot, allowed: Allowed, known: Snapshot, key: Key)
    requires e in known && Within(e, 0, known, known) && IsLookedAt(key)
    requires FilteredFrom(r, View(e, 0, known, known), 0, envs, acts, allowed)
    ensures AgreeAt(known[e], envs[r], key)
  {
    var t := View(e, 0, known, known);
    assert envs[r].Keys == t.nodes.Keys == known[e].Keys;
    if key in known[e] {
      OtherIsViewed(key, known[e][key], known);
      OtherIsKept(key, envs[r][key], known[e][key], envs, acts, allowed);
    }
  }

  /** The fields the reconciliation looks at are those of the response. */
  lemma OtherFieldsStay(
      r: Envelope, e: Envelope, envs: Snapshot, acts: Snapshot, allowed: Allowed, known: Snapshot)
    requires Closed(known) && e in known && Within(e, 0, known, known)
    requires FilteredFrom(r, View(e, 0, known, known), 0, envs, acts, allowed)
    ensures forall key | IsLookedAt(key) :: AgreeAt(known[e], envs[r], key)
    ensures forall key | IsLookedAt(key) && key in known[e] :: ValueKnown(known[e][key], known)
  {
    forall key | IsLookedAt(key) ensures AgreeAt(known[e], envs[r], key) {
      OtherFieldStays(r, e, envs, acts, allowed, known, key);
    }
    assert FieldsKnown(known[e], known);
  }

  /** What the later steps need of the copy. */
  lemma CopyIsReady(r: Envelope, e: Envelope, envs: Snapshot, acts: Snapshot, allowed: Allowed, known: Snapshot)
    requires Closed(known) && e in known && Within(e, 0, known, known)
    requires FilteredFrom(r, View(e, 0, known, known), 0, envs, acts, allowed)
    ensures Within(r, 0, envs, acts) && Ready(r, 0, envs, known)
    ensures View(r, 0, envs, acts) == FilterTree(View(e, 0, known, known), allowed)
  {
    FilteredShowsFilterTree(r, View(e, 0, known, known), 0, envs, acts, allowed);
    FilteredIsReady(r, e, 0, envs, acts, allowed, known);
  }

  lemma StrandedAgrees(
      a: Fields, b: Fields, before: Tree, after: Tree, allowed: Allowed, primary: Option<Fields>, known: Snapshot)
    requires forall key | IsLookedAt(key) :: AgreeAt(a, b, key)
    ensures ConfirmationIsStranded(a, before, after, allowed, primary, known)
      == ConfirmationIsStranded(b, before, after, allowed, primary, known)
  {
    assert AgreeAt(a, b, RequiresConfirmation) && AgreeAt(a, b, SelectedWorkflow) && AgreeAt(a, b, PreviewIds);
  }

  /** What the projection promises, from what its steps did. */
  lemma OutcomeIsSound(
      r: Envelope, was: Fields, before: Tree, copies: Snapshot, envs: Snapshot, acts: Snapshot, allowed: Allowed,
      primary: Option<Fields>, cleared: bool, known: Snapshot, confs: Snapshot)
    requires Within(r, 0, copies, acts) && View(r, 0, copies, acts) == FilterTree(before, allowed)
    requires forall key | IsLookedAt(key) :: AgreeAt(was, copies[r], key)
    requires OnlyLowered(copies, envs, known, confs) && (!cleared ==> envs == copies)
    requires cleared == ConfirmationIsStranded(copies[r], before, FilterTree(before, allowed), allowed, primary, known)
    ensures Within(r, 0, envs, acts) && AllReachable(View(r, 0, envs, acts), allowed)
    ensures cleared == ConfirmationIsStranded(was, before, FilterTree(before, allowed), allowed, primary, known)
    ensures if cleared then SameButFlags(FilterTree(before, allowed), View(r, 0, envs, acts))
      else View(r, 0, envs, acts) == FilterTree(before, allowed)
  {
    StrandedAgrees(was, copies[r], before, FilterTree(before, allowed), allowed, primary, known);
    LoweredView(r, 0, copies, acts, known, envs, confs);
    FilterReaches(before, allowed);
    SameKeepsReachable(View(r, 0, copies, acts), View(r, 0, envs, acts), allowed);
  }

  // ----- Fields written afterwards -----

  predicate OnlyPlain(fields: Fields) { forall key | key in fields :: key.IsPlain() }

  /** What is held once some fields of `r` are written. */
  ghost function Written(envs: Snapshot, r: Envelope, fields: Fields): Snapshot
    requires r in envs
  {
    envs[r := envs[r] + fields]
  }

  lemma {:induction false} WritingKeepsReachable(
      e: Envelope, depth: nat, envs: Snapshot, acts: Snapshot, allowed: Allowed, r: Envelope, fields: Fields)
    requires r in envs && OnlyPlain(fields) && Within(e, depth, envs, acts)
      && AllReachable(View(e, depth, envs, acts), allowed)
    ensures Within(e, depth, Written(envs, r, fields), acts)
    ensures AllReachable(View(e, depth, Written(envs, r, fields), acts), allowed)
    decreases MAX_DEPTH - depth
  {
    var later, t := Written(envs, r, fields), View(e, depth, envs, acts);
    forall key | key in later[e]
      ensures ValueWithin(key, later[e][key], depth, later, acts)
      ensures NodeReachable(ViewValue(key, later[e][key], depth, later, acts), allowed)
    {
      if !key.IsPlain() {
        var v := envs[e][key];
        assert later[e][key] == v && t.nodes[key] == ViewValue(key, v, depth, envs, acts);
        assert NodeReachable(t.nodes[key], allowed);
        if !IsNavigation(key, v) && IsNested(key, v, depth) {
          WritingKeepsReachable(v.env, depth + 1, envs, acts, allowed, r, fields);
        }
      }
    }
  }

  lemma {:induction false} WritingKeepsCleared(
      e: Envelope, depth: nat, envs: Snapshot, confs: Snapshot, r: Envelope, fields: Fields)
    requires r in envs && OnlyPlain(fields) && Cleared(e, depth, envs, confs)
    ensures Cleared(e, depth, Written(envs, r, fields), confs)
    decreases MAX_DEPTH - depth
  {
    var later := Written(envs, r, fields);
    forall key | key in later[e] && IsNested(key, later[e][key], depth)
      ensures Cleared(later[e][key].env, depth + 1, later, confs)
    {
      WritingKeepsCleared(envs[e][key].env, depth + 1, envs, confs, r, fields);
    }
  }

  /** Neither actions that are out of reach nor raised flags come back with the fields written last. */
  lemma WritingKeepsTheOutcome(
      r: Envelope, envs: Snapshot, acts: Snapshot, confs: Snapshot, allowed: Allowed, cleared: bool, fields: Fields)
    requires OnlyPlain(fields) && Within(r, 0, envs, acts) && AllReachable(View(r, 0, envs, acts), allowed)
    requires cleared ==> Cleared(r, 0, envs, confs) && CannotApply(r, envs)
    ensures var later := Written(envs, r, fields);
      && Within(r, 0, later, acts) && AllReachable(View(r, 0, later, acts), allowed)
      && (cleared ==> Cleared(r, 0, later, confs) && CannotApply(r, later))
  {
    WritingKeepsReachable(r, 0, envs, acts, allowed, r, fields);
    if cleared {
      WritingKeepsCleared(r, 0, envs, confs, r, fields);
    }
  }

  /** What comes out for the action found. */
  ghost predicate IsPrimary(
      selected: Option<Fields>, known: Snapshot, primary: Option<Fields>, bound: Fields, held: Snapshot,
      allowed: Allowed, source: Source)
  {
    && (primary.Some? <==>
          selected.Some? && Reachable(selected.value, allowed) && ToolOf(selected.value, known).Some?)
    && (primary.Some? ==>
          && FilledIn(bound, primary.value, held, ToolOf(selected.value, known).value, source)
          && if source.project == "" then bound == selected.value
             else ActionBound(selected.value, known, bound, held, source.project))
  }

  /** The action found is normalised, if it is reachable. */
  method PrimaryAction(selected: Option<Fields>, source: Source, allowed: Allowed, ghost known: Snapshot)
      returns (primary: Option<Fields>, ghost bound: Fields, ghost held: Snapshot)
    requires Holds(known) && Closed(known) && (selected.Some? ==> FieldsKnown(selected.value, known))
    ensures Holds(held) && Closed(held) && Extends(known, held) && fresh(held.Keys - known.Keys)
    ensures IsPrimary(selected, known, primary, bound, held, allowed, source)
  {
    primary, bound, held := None, map[], known;
    if selected.Some? && Reachable(selected.value, allowed) {
      primary, bound, held := NormalizeAgentAction(selected.value, source, known);
    }
  }

  lemma PrimaryField(
      a: Fields, known: Snapshot, b: Fields, c: Fields, held: Snapshot, tool: string, source: Source, key: Key)
    requires if source.project == "" then b == a else ActionBound(a, known, b, held, source.project)
    requires FilledIn(b, c, held, tool, source) && !IsArgumentKey(key) && key != CopyableToolCall
    ensures key in a ==> key in c && c[key] == a[key]
    ensures !IsFilledIn(key) ==> AgreeAt(a, c, key)
  {
    assert AgreeAt(a, b, key);
    if key in b {
      FillingInKeeps(b, c, held, tool, source, key);
    }
    assert !IsFilledIn(key) ==> AgreeAt(b, c, key);
  }

  /** The primary action has every field of the action found that neither binding nor filling in is about. */
  lemma PrimaryKeeps(
      selected: Option<Fields>, known: Snapshot, primary: Option<Fields>, bound: Fields, held: Snapshot,
      allowed: Allowed, source: Source)
    requires IsPrimary(selected, known, primary, bound, held, allowed, source) && primary.Some?
    ensures Reachable(primary.value, allowed) && Confirms(primary.value) == Confirms(selected.value)
    ensures forall key | key in selected.value && !IsArgumentKey(key) && key != CopyableToolCall ::
      key in primary.value && primary.value[key] == selected.value[key]
  {
    var a, c, tool := selected.value, primary.value, ToolOf(selected.value, known).value;
    forall key | key in a && !IsArgumentKey(key) && key != CopyableToolCall ensures key in c && c[key] == a[key] {
      PrimaryField(a, known, bound, c, held, tool, source, key);
    }
    PrimaryField(a, known, bound, c, held, tool, source, Tool);
    PrimaryField(a, known, bound, c, held, tool, source, RequiresConfirmation);
  }

  method WriteLast(
      projected: Envelope, written: Fields, ghost envs: Snapshot, ghost acts: Snapshot, ghost confs: Snapshot,
      ghost known: Snapshot)
    requires projected in envs && Holds(envs) && Holds(acts) && Holds(confs) && Holds(known)
    requires envs.Keys !! acts.Keys && envs.Keys !! confs.Keys && envs.Keys !! known.Keys
    modifies projected
    ensures Holds(Written(envs, projected, written)) && Holds(acts) && Holds(confs) && Holds(known)
  {
    projected.fields := projected.fields + written;
  }

  /** The bound response is stranded exactly when the one the caller gave is. */
  lemma StrandedWhenBound(
      a: Fields, b: Fields, t: Tree, u: Tree, allowed: Allowed, primary: Option<Fields>, known: Snapshot,
        more: Snapshot, project: string)
    requires ResponseBound(a, b, BOUND, known, more, project) && TreesBound(t, u) && Extends(known, more)
    requires FieldsKnown(a, known)
    ensures ConfirmationIsStranded(a, t, FilterTree(t, allowed), allowed, primary, known)
      == ConfirmationIsStranded(b, u, FilterTree(u, allowed), allowed, primary, more)
  {
    BoundConfirms(t, u);
    BoundFilters(t, u, allowed);
    BoundConfirms(FilterTree(t, allowed), FilterTree(u, allowed));
    UntouchedYet(a, b, BOUND, known, more, RequiresConfirmation, project);
    UntouchedYet(a, b, BOUND, known, more, SelectedWorkflow, project);
    UntouchedYet(a, b, BOUND, known, more, PreviewIds, project);
    assert PreviewIds in a ==> ValueKnown(a[PreviewIds], known);
    TruthStays(a, known, b, more, PreviewIds);
  }

  /** The fields written last, with the primary action among them. */
  ghost predicate WrittenLast(written: Fields, last: Fields, primary: Option<Fields>)
    reads if IsMapAt(last, PrimaryNextAction) then {last[PrimaryNextAction].env} else {}
  {
    && DifferAt(written, last, PrimaryNextAction) && PrimaryNextAction in last
    && match primary
       case None => last[PrimaryNextAction] == VNull
       case Some(action) => IsMapAt(last, PrimaryNextAction) && last[PrimaryNextAction].env.fields == action
  }

  method WithPrimary(written: Fields, primary: Option<Fields>) returns (last: Fields)
    ensures WrittenLast(written, last, primary)
  {
    match primary
    case None => last := written[PrimaryNextAction := VNull];
    case Some(action) =>
      var e := new Envelope(action);
      last := written[PrimaryNextAction := VMap(e)];
  }

  lemma PrimaryFromEarlier(
      selected: Option<Fields>, known: Snapshot, more: Snapshot, primary: Option<Fields>, bound: Fields,
      held: Snapshot, allowed: Allowed, source: Source)
    requires Closed(known) && (selected.Some? ==> FieldsKnown(selected.value, known)) && Extends(known, more)
    requires IsPrimary(selected, more, primary, bound, held, allowed, source)
    ensures IsPrimary(selected, known, primary, bound, held, allowed, source)
  {
    if selected.Some? {
      ToolIsTheSame(selected.value, known, more);
      if primary.Some? && source.project != "" {
        ActionBoundFromEarlier(selected.value, known, more, bound, held, source.project);
      }
    }
  }

  /** The first steps: the response is bound to the project and the action found for it normalised. */
  method BindAndSelect(
      response: Envelope, source: Source, selected: Option<Fields>, allowed: Allowed, ghost known: Snapshot)
      returns (copy: Envelope, primary: Option<Fields>, ghost action: Fields, ghost held: Snapshot)
    requires Holds(known) && Closed(known) && response in known
    requires selected.Some? ==> FieldsKnown(selected.value, known)
    ensures Holds(held) && Closed(held) && Extends(known, held) && fresh(held.Keys - known.Keys)
    ensures copy in held && ResponseBound(known[response], held[copy], BOUND, known, held, source.project)
    ensures IsPrimary(selected, known, primary, action, held, allowed, source)
  {
    ghost var more;
    copy, more := BindTopLevelActions(response, source.project, known);
    if selected.Some? {
      KnownGrows(selected.value, known, more);
    }
    primary, action, held := PrimaryAction(selected, source, allowed, more);
    PrimaryFromEarlier(selected, known, more, primary, action, held, allowed, source);
    ResponseBoundGrows(known[response], more[copy], BOUND, known, more, held, source.project);
  }

  /**
    * The response as an agent with the allowed tools sees it, and its primary action. `selected` is the action found
    * for it and `written` the descriptive fields written last. Nothing the caller holds is changed. `copy` is the
    * response with its own actions bound to the project, `envs` the moment before the last fields are written.
    */
  method AddAgentStateProjection(
      response: Envelope, source: Source, selected: Option<Fields>, written: Fields, allowed: Allowed,
      ghost known: Snapshot)
      returns (projected: Envelope, primary: Option<Fields>, last: Fields, ghost cleared: bool, ghost copy: Envelope,
        ghost action: Fields, ghost held: Snapshot, ghost envs: Snapshot, ghost acts: Snapshot, ghost confs: Snapshot)
    requires Holds(known) && Closed(known) && response in known
    requires OnlyPlain(written) && (selected.Some? ==> FieldsKnown(selected.value, known))
    ensures fresh(envs.Keys) && fresh(acts.Keys) && Within(projected, 0, envs, acts)
    ensures Holds(Written(envs, projected, last)) && Holds(acts) && Holds(confs) && Holds(held) && Extends(known, held)
    ensures IsPrimary(selected, known, primary, action, held, allowed, source)
    ensures WrittenLast(written, last, primary)
    ensures primary.Some? ==> Reachable(primary.value, allowed) && Confirms(primary.value) == Confirms(selected.value)
    ensures primary.Some? ==>
      forall key | key in selected.value && !IsArgumentKey(key) && key != CopyableToolCall ::
        key in primary.value && primary.value[key] == selected.value[key]
    ensures var later := Written(envs, projected, last);
      Within(projected, 0, later, acts) && AllReachable(View(projected, 0, later, acts), allowed)
    ensures cleared ==>
      Cleared(projected, 0, Written(envs, projected, last), confs)
      && CannotApply(projected, Written(envs, projected, last))
    ensures copy in held && ResponseBound(known[response], held[copy], BOUND, known, held, source.project)
    ensures Within(response, 0, known, known) && Within(copy, 0, held, held)
    ensures var before := View(response, 0, known, known);
      cleared <==> ConfirmationIsStranded(
        known[response], before, FilterTree(before, allowed), allowed, primary, known)
    ensures var filtered, after := FilterTree(View(copy, 0, held, held), allowed), View(projected, 0, envs, acts);
      if cleared then SameButFlags(filtered, after) else after == filtered
  {
    var bound;
    bound, primary, action, held := BindAndSelect(response, source, selected, allowed, known);
    copy := bound;
    ClosedIsWithin(response, 0, known);
    ClosedIsWithin(copy, 0, held);
    BoundView(response, copy, known, held, source.project);
    if primary.Some? {
      PrimaryKeeps(selected, known, primary, action, held, allowed, source);
    }
    last := WithPrimary(written, primary);
    projected, cleared, envs, acts, confs := ReconcileAndWrite(bound, primary, allowed, last, held);
    assert FieldsKnown(known[response], known);
    StrandedWhenBound(
      known[response], held[copy], View(response, 0, known, known), View(copy, 0, held, held), allowed, primary, known,
      held, source.project);
  }

  /** The last steps: filtering, reconciling, and writing the fields that come last. */
  method ReconcileAndWrite(
      copy: Envelope, primary: Option<Fields>, allowed: Allowed, last: Fields, ghost held: Snapshot)
      returns (projected: Envelope, ghost cleared: bool, ghost envs: Snapshot, ghost acts: Snapshot,
        ghost confs: Snapshot)
    requires Holds(held) && Closed(held) && copy in held && Within(copy, 0, held, held) && OnlyPlain(last)
    ensures fresh(envs.Keys) && fresh(acts.Keys) && Within(projected, 0, envs, acts)
    ensures Holds(Written(envs, projected, last)) && Holds(acts) && Holds(confs) && Holds(held)
    ensures var later := Written(envs, projected, last);
      && Within(projected, 0, later, acts) && AllReachable(View(projected, 0, later, acts), allowed)
      && (cleared ==> Cleared(projected, 0, later, confs) && CannotApply(projected, later))
    ensures var before := View(copy, 0, held, held);
      var filtered, after := FilterTree(before, allowed), View(projected, 0, envs, acts);
      && (cleared <==> ConfirmationIsStranded(held[copy], before, filtered, allowed, primary, held))
      && (if cleared then SameButFlags(filtered, after) else after == filtered)
  {
    projected, cleared, envs, acts, confs := FilterAndReconcile(copy, primary, allowed, held);
    WritingKeepsTheOutcome(projected, envs, acts, confs, allowed, cleared, last);
    WriteLast(projected, last, envs, acts, confs, held);
  }

  /** The filtered copy with its confirmation reconciled. */
  method FilterAndReconcile(response: Envelope, primary: Option<Fields>, allowed: Allowed, ghost known: Snapshot)
      returns (projected: Envelope, ghost cleared: bool, ghost envs: Snapshot, ghost acts: Snapshot,
        ghost confs: Snapshot)
    requires Holds(known) && Closed(known) && response in known && Within(response, 0, known, known)
    ensures fresh(envs.Keys) && Holds(envs) && fresh(acts.Keys) && Holds(acts) && envs.Keys !! acts.Keys
    ensures Holds(confs) && Holds(known) && envs.Keys !! confs.Keys
    ensures Within(projected, 0, envs, acts) && AllReachable(View(projected, 0, envs, acts), allowed)
    ensures cleared ==> Cleared(projected, 0, envs, confs) && CannotApply(projected, envs)
    ensures var before := View(response, 0, known, known);
      var filtered, after := FilterTree(before, allowed), View(projected, 0, envs, acts);
      && (cleared <==> ConfirmationIsStranded(known[response], before, filtered, allowed, primary, known))
      && (if cleared then SameButFlags(filtered, after) else after == filtered)
  {
    ghost var before := View(response, 0, known, known);
    var had := HasConfirmationNavigationAction(response, 0, known, known);
    ghost var copies;
    projected, copies, acts := FilterUnreachableNavigationActions(response, allowed, 0, known);
    CopyIsReady(projected, response, copies, acts, allowed, known);
    OtherFieldsStay(projected, response, copies, acts, allowed, known);
    assert AgreeAt(known[response], copies[projected], PreviewIds);
    var has := HasConfirmationNavigationAction(projected, 0, copies, acts);
    var wasFiltered := had && !has && !(primary.Some? && Confirms(primary.value));
    cleared, envs, confs :=
      ReconcileUnreachableConfirmation(projected, allowed, primary, wasFiltered, before, copies, acts, known);
    OutcomeIsSound(
      projected, known[response], before, copies, envs, acts, allowed, primary, cleared, known, confs);
  }
}
