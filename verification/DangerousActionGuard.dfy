/** One-use confirmations for dangerous actions. */
module DangerousActionGuard {
  import opened TextModel

  /** A JSON payload; only its digest is ever used. */
  type Payload = map<Text, Text>

  const CONFIRMATION_ID: Text := [99, 111, 110, 102, 105, 114, 109, 97, 116, 105, 111, 110, 95, 105, 100]

  /** What a preview is bound to, and what a confirmation must present again. */
  datatype Request = Request(
    actionType: Text,
    surface: Text,
    route: Text,
    projectRoot: Option<Text>,
    currentHead: Option<Text>,
    stateSignature: Option<Text>,
    planSignature: Option<Text>,
    patchSignature: Option<Text>,
    registrySignature: Option<Text>,
    payload: Option<Payload>)

  datatype Rejection =
    | Required | NotFound | Reused | Expired
    | ActionMismatch | SurfaceMismatch | RouteMismatch | ProjectMismatch | HeadMismatch | StateMismatch
    | PlanMismatch | PatchMismatch | RegistryMismatch | PayloadMismatch

  datatype Reply = Confirmed | Rejected(why: Rejection)

  /** None and the empty text are the same binding. */
  function OrEmpty(t: Option<Text>): Text { match t case None => [] case Some(v) => v }

  function CleanPayload(payload: Option<Payload>): Payload {
    (match payload case None => map[] case Some(p) => p) - {CONFIRMATION_ID}
  }

  /** The stored preview, as a value. */
  datatype Entry = Entry(request: Request, payloadDigest: Text, expiresAt: real, used: bool)

  // ----- The guard -----

  class Preview {
    const request: Request
    const payloadDigest: Text
    const expiresAt: real
    var used: bool

    constructor (request: Request, payloadDigest: Text, expiresAt: real)
      ensures AsEntry() == Entry(request, payloadDigest, expiresAt, false)
    {
      this.request, this.payloadDigest, this.expiresAt, used := request, payloadDigest, expiresAt, false;
    }

    function AsEntry(): Entry reads this { Entry(request, payloadDigest, expiresAt, used) }
  }

  class Guard {
    const ttl: real
    const digest: Payload -> Text
    var previews: map<Text, Preview>

    /** No preview object is filed under two ids. */
    ghost predicate Valid() reads this {
      forall i, j | i in previews && j in previews && i != j :: previews[i] != previews[j]
    }

    ghost function Entries(): map<Text, Entry>
      reads this, previews.Values
    {
      map id | id in previews :: previews[id].AsEntry()
    }

    constructor (ttl: real, digest: Payload -> Text)
      ensures Valid() && Entries() == map[] && this.ttl == ttl && this.digest == digest
    {
      this.ttl, this.digest, previews := ttl, digest, map[];
    }

    method CreatePreview(request: Request, now: real, id: Text) returns (preview: Preview)
      requires Valid()
      modifies this
      ensures Valid() && fresh(preview) && id in previews && previews[id] == preview
      ensures Entries() == old(Entries())[id := NewEntry(request, now, ttl, digest)]
    {
      preview := new Preview(request, digest(CleanPayload(request.payload)), now + ttl);
      previews := previews[id := preview];
    }

    method Confirm(id: Option<Text>, request: Request, now: real) returns (reply: Reply)
      requires Valid()
      modifies previews.Values
      ensures Valid() && previews == old(previews)
      ensures reply == ReplyTo(old(Entries()), id, request, now, digest)
      ensures Entries() == EntriesAfter(old(Entries()), id, request, now, digest)
    {
      if id.None? || IsBlank(id.value) {
        return Rejected(Required);
      }
      if id.value !in previews {
        return Rejected(NotFound);
      }
      var preview := previews[id.value];
      if preview.used {
        return Rejected(Reused);
      }
      if now > preview.expiresAt {
        preview.used := true;
        return Rejected(Expired);
      }
      if preview.request.actionType != request.actionType {
        return Rejected(ActionMismatch);
      }
      if preview.request.surface != request.surface {
        return Rejected(SurfaceMismatch);
      }
      if preview.request.route != request.route {
        return Rejected(RouteMismatch);
      }
      if OrEmpty(preview.request.projectRoot) != OrEmpty(request.projectRoot) {
        return Rejected(ProjectMismatch);
      }
      if OrEmpty(preview.request.currentHead) != OrEmpty(request.currentHead) {
        return Rejected(HeadMismatch);
      }
      if OrEmpty(preview.request.stateSignature) != OrEmpty(request.stateSignature) {
        return Rejected(StateMismatch);
      }
      if OrEmpty(preview.request.planSignature) != OrEmpty(request.planSignature) {
        return Rejected(PlanMismatch);
      }
      if OrEmpty(preview.request.patchSignature) != OrEmpty(request.patchSignature) {
        return Rejected(PatchMismatch);
      }
      if OrEmpty(preview.request.registrySignature) != OrEmpty(request.registrySignature) {
        return Rejected(RegistryMismatch);
      }
      if preview.payloadDigest != digest(CleanPayload(request.payload)) {
        return Rejected(PayloadMismatch);
      }
      preview.used := true;
      return Confirmed;
    }
  }

  // ----- The same, on values -----

  function NewEntry(request: Request, now: real, ttl: real, digest: Payload -> Text): Entry {
    Entry(request, digest(CleanPayload(request.payload)), now + ttl, false)
  }

  /** The first binding that differs, in the order they are compared. */
  function Mismatch(bound: Request, boundDigest: Text, asked: Request, digest: Payload -> Text): Option<Rejection> {
    if bound.actionType != asked.actionType then Some(ActionMismatch)
    else if bound.surface != asked.surface then Some(SurfaceMismatch)
    else if bound.route != asked.route then Some(RouteMismatch)
    else if OrEmpty(bound.projectRoot) != OrEmpty(asked.projectRoot) then Some(ProjectMismatch)
    else if OrEmpty(bound.currentHead) != OrEmpty(asked.currentHead) then Some(HeadMismatch)
    else if OrEmpty(bound.stateSignature) != OrEmpty(asked.stateSignature) then Some(StateMismatch)
    else if OrEmpty(bound.planSignature) != OrEmpty(asked.planSignature) then Some(PlanMismatch)
    else if OrEmpty(bound.patchSignature) != OrEmpty(asked.patchSignature) then Some(PatchMismatch)
    else if OrEmpty(bound.registrySignature) != OrEmpty(asked.registrySignature) then Some(RegistryMismatch)
    else if boundDigest != digest(CleanPayload(asked.payload)) then Some(PayloadMismatch)
    else None
  }

  function ReplyTo(
      entries: map<Text, Entry>, id: Option<Text>, request: Request, now: real, digest: Payload -> Text): Reply
  {
    if id.None? || IsBlank(id.value) then Rejected(Required)
    else if id.value !in entries then Rejected(NotFound)
    else
      var e := entries[id.value];
      if e.used then Rejected(Reused)
      else if now > e.expiresAt then Rejected(Expired)
      else match Mismatch(e.request, e.payloadDigest, request, digest)
        case Some(why) => Rejected(why)
        case None => Confirmed
  }

  /** Only a confirmation and an expiry use the preview up; every other reply leaves the guard as it was. */
  function EntriesAfter(
      entries: map<Text, Entry>, id: Option<Text>, request: Request, now: real, digest: Payload -> Text)
    : (after: map<Text, Entry>)
    ensures ReplyTo(entries, id, request, now, digest) !in {Confirmed, Rejected(Expired)} ==> after == entries
  {
    if ReplyTo(entries, id, request, now, digest) in {Confirmed, Rejected(Expired)}
    then entries[id.value := entries[id.value].(used := true)]
    else entries
  }

  // ----- Call histories -----

  datatype Call =
    | Create(id: Text, request: Request, now: real)
    | Confirm(given: Option<Text>, request: Request, now: real)

  datatype Setting = Setting(ttl: real, digest: Payload -> Text) {
    function After(calls: seq<Call>): map<Text, Entry> {
      if calls == [] then map[]
      else
        var before := After(calls[..|calls| - 1]);
        match calls[|calls| - 1]
        case Create(id, request, now) => before[id := NewEntry(request, now, ttl, digest)]
        case Confirm(id, request, now) => EntriesAfter(before, id, request, now, digest)
    }

    /** The call at position n is a confirmation that succeeds. */
    predicate Succeeds(calls: seq<Call>, n: nat)
      requires n < |calls|
    {
      calls[n].Confirm?
        && ReplyTo(After(calls[..n]), calls[n].given, calls[n].request, calls[n].now, digest) == Confirmed
    }

    // ----- What a history says, without the guard's state -----

    /** The call at c created the preview that position n finds under this id. */
    ghost predicate IsCurrentPreview(calls: seq<Call>, c: nat, n: nat, id: Text) {
      && c < n <= |calls| && calls[c].Create? && calls[c].id == id
      && forall k | c < k < n && calls[k].Create? :: calls[k].id != id
    }

    predicate Presents(call: Call, id: Text) { call.Confirm? && call.given == Some(id) && !IsBlank(id) }

    predicate OnTime(created: Call, call: Call) { call.now <= created.now + ttl }

    /** The two are equal, or neither says anything. */
    predicate Same(a: Option<Text>, b: Option<Text>) { a == b || (IsSilent(a) && IsSilent(b)) }

    predicate IsSilent(t: Option<Text>) { t.None? || t.value == [] }

    /** `rest` is the payload without the id of the confirmation. */
    ghost predicate IsWithoutId(payload: Option<Payload>, rest: Payload) {
      var all := if payload.None? then map[] else payload.value;
      && CodePoints("confirmation_id") !in rest
      && forall key | key != CodePoints("confirmation_id") ::
           (key in rest <==> key in all) && (key in all ==> rest[key] == all[key])
    }

    /** Every binding and the payload digest agree. */
    ghost predicate Binds(created: Call, call: Call) {
      var a, b := created.request, call.request;
      && a.actionType == b.actionType && a.surface == b.surface && a.route == b.route
      && Same(a.projectRoot, b.projectRoot)
      && Same(a.currentHead, b.currentHead)
      && Same(a.stateSignature, b.stateSignature)
      && Same(a.planSignature, b.planSignature)
      && Same(a.patchSignature, b.patchSignature)
      && Same(a.registrySignature, b.registrySignature)
      && forall given, asked :: IsWithoutId(a.payload, given) && IsWithoutId(b.payload, asked) ==>
           digest(given) == digest(asked)
    }

    lemma IdSpelled()
      ensures CONFIRMATION_ID == CodePoints("confirmation_id")
    {
    }

    lemma OnlyTheIdIsLeftOut(payload: Option<Payload>, rest: Payload)
      ensures IsWithoutId(payload, rest) <==> rest == CleanPayload(payload)
    {
      IdSpelled();
      var clean := CleanPayload(payload);
      if IsWithoutId(payload, rest) {
        assert forall key :: key in rest <==> key in clean;
      }
    }

    /** The preview created at c has been used up before n: some call presented its id too late, or correctly. */
    ghost predicate UsedUp(calls: seq<Call>, c: nat, n: nat, id: Text)
      requires c < n <= |calls|
    {
      exists k :: c < k < n && Presents(calls[k], id) && (!OnTime(calls[c], calls[k]) || Binds(calls[c], calls[k]))
    }

    /** The reason given is a binding that differs. */
    lemma ReasonIsTrue(bound: Request, boundDigest: Text, asked: Request)
      ensures match Mismatch(bound, boundDigest, asked, digest)
        case None => true
        case Some(ActionMismatch) => bound.actionType != asked.actionType
        case Some(SurfaceMismatch) => bound.surface != asked.surface
        case Some(RouteMismatch) => bound.route != asked.route
        case Some(ProjectMismatch) => !Same(bound.projectRoot, asked.projectRoot)
        case Some(HeadMismatch) => !Same(bound.currentHead, asked.currentHead)
        case Some(StateMismatch) => !Same(bound.stateSignature, asked.stateSignature)
        case Some(PlanMismatch) => !Same(bound.planSignature, asked.planSignature)
        case Some(PatchMismatch) => !Same(bound.patchSignature, asked.patchSignature)
        case Some(RegistryMismatch) => !Same(bound.registrySignature, asked.registrySignature)
        case Some(PayloadMismatch) => boundDigest != digest(CleanPayload(asked.payload))
        case Some(_) => false
    {
    }

    lemma NoMismatchMeansBinds(created: Call, call: Call)
      ensures Mismatch(created.request, digest(CleanPayload(created.request.payload)), call.request, digest).None?
        <==> Binds(created, call)
    {
      var a, b := created.request.payload, call.request.payload;
      forall rest ensures IsWithoutId(a, rest) <==> rest == CleanPayload(a) {
        OnlyTheIdIsLeftOut(a, rest);
      }
      forall rest ensures IsWithoutId(b, rest) <==> rest == CleanPayload(b) {
        OnlyTheIdIsLeftOut(b, rest);
      }
    }

    lemma UsedUpByOneMore(calls: seq<Call>, c: nat, m: nat, id: Text)
      requires c < m < |calls|
      ensures UsedUp(calls, c, m + 1, id) <==>
        || UsedUp(calls, c, m, id)
        || (Presents(calls[m], id) && (!OnTime(calls[c], calls[m]) || Binds(calls[c], calls[m])))
    {
    }

    /** The guard's state is exactly what the history says. */
    lemma {:induction false} StateIsHistory(calls: seq<Call>, n: nat, id: Text)
      requires n <= |calls|
      ensures id in After(calls[..n]) <==> exists c: nat :: IsCurrentPreview(calls, c, n, id)
      ensures forall c: nat | IsCurrentPreview(calls, c, n, id) ::
        After(calls[..n])[id] ==
          NewEntry(calls[c].request, calls[c].now, ttl, digest).(used := UsedUp(calls, c, n, id))
      decreases n
    {
      if n > 0 {
        var m := n - 1;
        StateIsHistory(calls, m, id);
        assert calls[..n][..m] == calls[..m];
        if calls[m].Create? && calls[m].id == id {
          assert IsCurrentPreview(calls, m, n, id);
        } else {
          assert forall c: nat :: IsCurrentPreview(calls, c, n, id) <==> IsCurrentPreview(calls, c, m, id);
        }
        forall c: nat | IsCurrentPreview(calls, c, n, id)
          ensures After(calls[..n])[id] ==
            NewEntry(calls[c].request, calls[c].now, ttl, digest).(used := UsedUp(calls, c, n, id))
        {
          if c < m {
            assert IsCurrentPreview(calls, c, m, id);
            UsedUpByOneMore(calls, c, m, id);
            NoMismatchMeansBinds(calls[c], calls[m]);
          }
        }
      }
    }

    /**
     * A confirmation succeeds exactly when it presents, on time and with every binding and the payload digest equal, a
     * preview that no earlier call has used up.
     */
    lemma SuccessExactly(calls: seq<Call>, n: nat)
      requires n < |calls|
      ensures Succeeds(calls, n) <==>
        && calls[n].Confirm? && calls[n].given.Some? && !IsBlank(calls[n].given.value)
        && exists c: nat ::
          && IsCurrentPreview(calls, c, n, calls[n].given.value)
          && !UsedUp(calls, c, n, calls[n].given.value)
          && OnTime(calls[c], calls[n]) && Binds(calls[c], calls[n])
    {
      if calls[n].Confirm? && calls[n].given.Some? && !IsBlank(calls[n].given.value) {
        var id := calls[n].given.value;
        StateIsHistory(calls, n, id);
        if c: nat :| IsCurrentPreview(calls, c, n, id) {
          NoMismatchMeansBinds(calls[c], calls[n]);
          forall d: nat | IsCurrentPreview(calls, d, n, id) ensures d == c {
            CurrentPreviewIsUnique(calls, c, d, n, id);
          }
        }
      }
    }

    lemma CurrentPreviewIsUnique(calls: seq<Call>, c: nat, d: nat, n: nat, id: Text)
      requires IsCurrentPreview(calls, c, n, id) && IsCurrentPreview(calls, d, n, id)
      ensures c == d
    {
    }

    /** Between two successes with one id a new preview was created under it. */
    lemma SuccessNeedsANewPreview(calls: seq<Call>, i: nat, j: nat, id: Text)
      requires i < j < |calls| && Succeeds(calls, i) && Succeeds(calls, j)
      requires calls[i].given == Some(id) && calls[j].given == Some(id)
      ensures exists c: nat :: i < c < j && calls[c].Create? && calls[c].id == id
    {
      SuccessExactly(calls, i);
      SuccessExactly(calls, j);
      var b: nat :| IsCurrentPreview(calls, b, i, id) && OnTime(calls[b], calls[i]) && Binds(calls[b], calls[i]);
      var c: nat :| IsCurrentPreview(calls, c, j, id) && !UsedUp(calls, c, j, id);
      if c < i {
        CurrentPreviewIsUnique(calls, b, c, i, id);
        assert Presents(calls[i], id);
      }
    }

    /** Whatever was used up stays so, until a new preview takes the id: time going backwards does not revive it. */
    lemma UsedUpStaysUsedUp(calls: seq<Call>, c: nat, m: nat, n: nat, id: Text)
      requires m <= n <= |calls| && IsCurrentPreview(calls, c, m, id) && IsCurrentPreview(calls, c, n, id)
      requires UsedUp(calls, c, m, id)
      ensures UsedUp(calls, c, n, id)
      ensures n < |calls| && Presents(calls[n], id) ==>
        ReplyTo(After(calls[..n]), calls[n].given, calls[n].request, calls[n].now, digest) == Rejected(Reused)
    {
      var k :| c < k < m && Presents(calls[k], id) && (!OnTime(calls[c], calls[k]) || Binds(calls[c], calls[k]));
      StateIsHistory(calls, n, id);
    }

    ghost function Successes(calls: seq<Call>, n: nat, id: Text): nat
      requires n <= |calls|
      decreases n
    {
      if n == 0 then 0
      else Successes(calls, n - 1, id) + (if Succeeds(calls, n - 1) && calls[n - 1].given == Some(id) then 1 else 0)
    }

    function Creations(calls: seq<Call>, n: nat, id: Text): nat
      requires n <= |calls|
      decreases n
    {
      if n == 0 then 0
      else Creations(calls, n - 1, id) + (if calls[n - 1].Create? && calls[n - 1].id == id then 1 else 0)
    }

    /** The id is usable at n: there is a current preview that is not used up. */
    ghost predicate Usable(calls: seq<Call>, n: nat, id: Text) {
      exists c: nat :: IsCurrentPreview(calls, c, n, id) && !UsedUp(calls, c, n, id)
    }

    /**
     * Over any history, an id is confirmed at most as often as it was created, and one fewer while a preview is usable.
     */
    lemma {:induction false} ConfirmedAtMostOncePerCreation(calls: seq<Call>, n: nat, id: Text)
      requires n <= |calls|
      ensures Successes(calls, n, id) + (if Usable(calls, n, id) then 1 else 0) <= Creations(calls, n, id)
      decreases n
    {
      if n > 0 {
        var m := n - 1;
        ConfirmedAtMostOncePerCreation(calls, m, id);
        SuccessExactly(calls, m);
        if Succeeds(calls, m) && calls[m].given == Some(id) {
          var c: nat :| IsCurrentPreview(calls, c, m, id) && !UsedUp(calls, c, m, id) && Binds(calls[c], calls[m]);
          assert Usable(calls, m, id);
          forall d: nat | IsCurrentPreview(calls, d, n, id) ensures UsedUp(calls, d, n, id) {
            CurrentPreviewIsUnique(calls, c, d, m, id);
            UsedUpByOneMore(calls, c, m, id);
          }
        } else if Usable(calls, n, id) && !(calls[m].Create? && calls[m].id == id) {
          var c: nat :| IsCurrentPreview(calls, c, n, id) && !UsedUp(calls, c, n, id);
          assert IsCurrentPreview(calls, c, m, id);
          UsedUpByOneMore(calls, c, m, id);
        }
      }
    }
  }
}
