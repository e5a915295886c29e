/** Several calls writing the same archive pair at once, as interleaved atomic steps on two files. */
module ArchiveProtocol {
  import opened TextModel

  type Bytes = seq<int>

  /** A file, and the call that created it; None for a file that was there before. */
  datatype File = Absent | Present(bytes: Bytes, owner: Option<nat>)

  datatype Disk = Disk(json: File, markdown: File)

  datatype Outcome = Written | AlreadyPresent | Conflict | WriteFailed | ReadFailed

  /** Where a call stands: the next thing it does. */
  datatype Phase =
    | CheckingJson
    | CheckingMarkdown(jsonExists: bool)
    | ReadingJson
    | ReadingMarkdown
    | CreatingJson
    | WritingJson
    | CreatingMarkdown
    | WritingMarkdown
    | UnlinkingMarkdown
    | UnlinkingJson
    | Done(outcome: Outcome)

  /** One call: the bytes it wants to archive and where it stands. */
  datatype Call = Call(json: Bytes, markdown: Bytes, phase: Phase)

  /** How the system answers a step: it succeeds, it fails, or a write has put down only its first n bytes so far. */
  datatype Answer = Succeed | Fail | Partial(n: nat)

  /** `O_CREAT | O_EXCL`: only a path that does not exist can be created. */
  predicate CanCreate(file: File, answer: Answer) { file.Absent? && !answer.Fail? }

  /** Writing goes to the file this call created, through its descriptor. */
  function WriteOwn(file: File, id: nat, bytes: Bytes): File {
    if file.Present? && file.owner == Some(id) then Present(bytes, file.owner) else file
  }

  function Unlink(file: File, answer: Answer): File { if answer.Fail? then file else Absent }

  function Prefix(bytes: Bytes, n: nat): Bytes { if n <= |bytes| then bytes[..n] else bytes }

  datatype Effect = Effect(disk: Disk, phase: Phase)

  /** One step of a call. */
  function Act(call: Call, id: nat, disk: Disk, answer: Answer): Effect {
    match call.phase
    case CheckingJson => Effect(disk, CheckingMarkdown(disk.json.Present?))
    case CheckingMarkdown(jsonExists) =>
      var markdownExists := disk.markdown.Present?;
      Effect(disk,
        if jsonExists && markdownExists then ReadingJson
        else if jsonExists || markdownExists then Done(Conflict)
        else CreatingJson)
    case ReadingJson =>
      Effect(disk,
        if answer.Fail? || disk.json.Absent? then Done(ReadFailed)
        else if disk.json.bytes != call.json then Done(Conflict)
        else ReadingMarkdown)
    case ReadingMarkdown =>
      Effect(disk,
        if answer.Fail? || disk.markdown.Absent? then Done(ReadFailed)
        else if disk.markdown.bytes != call.markdown then Done(Conflict)
        else Done(AlreadyPresent))
    case CreatingJson =>
      if CanCreate(disk.json, answer) then Effect(disk.(json := Present([], Some(id))), WritingJson)
      else Effect(disk, Done(WriteFailed))
    case WritingJson =>
      (match answer
       case Succeed => Effect(disk.(json := WriteOwn(disk.json, id, call.json)), CreatingMarkdown)
       case Partial(n) => Effect(disk.(json := WriteOwn(disk.json, id, Prefix(call.json, n))), WritingJson)
       case Fail => Effect(disk, UnlinkingJson))
    case CreatingMarkdown =>
      if CanCreate(disk.markdown, answer) then Effect(disk.(markdown := Present([], Some(id))), WritingMarkdown)
      else Effect(disk, UnlinkingJson)
    case WritingMarkdown =>
      (match answer
       case Succeed => Effect(disk.(markdown := WriteOwn(disk.markdown, id, call.markdown)), Done(Written))
       case Partial(n) => Effect(disk.(markdown := WriteOwn(disk.markdown, id, Prefix(call.markdown, n))),
         WritingMarkdown)
       case Fail => Effect(disk, UnlinkingMarkdown))
    case UnlinkingMarkdown => Effect(disk.(markdown := Unlink(disk.markdown, answer)), UnlinkingJson)
    case UnlinkingJson => Effect(disk.(json := Unlink(disk.json, answer)), Done(WriteFailed))
    case Done(_) => Effect(disk, call.phase)
  }

  // ----- Runs -----

  datatype System = System(disk: Disk, calls: seq<Call>)

  /** The scheduler picks a call, the system answers its next step. */
  datatype Move = Move(id: nat, answer: Answer)

  function Step(s: System, m: Move): (t: System)
    ensures |t.calls| == |s.calls|
  {
    if m.id >= |s.calls| then s
    else
      var call := s.calls[m.id];
      var effect := Act(call, m.id, s.disk, m.answer);
      System(effect.disk, s.calls[m.id := call.(phase := effect.phase)])
  }

  function Run(s: System, moves: seq<Move>): (t: System)
    ensures |t.calls| == |s.calls|
  {
    if moves == [] then s else Step(Run(s, moves[..|moves| - 1]), moves[|moves| - 1])
  }

  /** Any two files may be there already; every call is about to start. */
  ghost predicate Initial(s: System) {
    && (s.disk.json.Present? ==> s.disk.json.owner == None)
    && (s.disk.markdown.Present? ==> s.disk.markdown.owner == None)
    && forall i | 0 <= i < |s.calls| :: s.calls[i].phase == CheckingJson
  }

  // ----- The invariant -----

  predicate HoldsJson(p: Phase) {
    p in {WritingJson, CreatingMarkdown, WritingMarkdown, UnlinkingMarkdown, UnlinkingJson, Done(Written)}
  }

  predicate HoldsMarkdown(p: Phase) { p in {WritingMarkdown, UnlinkingMarkdown, Done(Written)} }

  predicate JsonIsWhole(p: Phase) { p in {CreatingMarkdown, WritingMarkdown, UnlinkingMarkdown, Done(Written)} }

  /** What holds of the disk for the call with this number. */
  predicate CallInv(disk: Disk, call: Call, id: nat) {
    && (HoldsJson(call.phase) ==> disk.json.Present? && disk.json.owner == Some(id))
    && (JsonIsWhole(call.phase) ==> disk.json.Present? && disk.json.bytes == call.json)
    && (HoldsMarkdown(call.phase) ==> disk.markdown.Present? && disk.markdown.owner == Some(id))
    && (call.phase == Done(Written) ==> disk.markdown.Present? && disk.markdown.bytes == call.markdown)
  }

  ghost predicate Inv(s: System) {
    forall i | 0 <= i < |s.calls| :: CallInv(s.disk, s.calls[i], i)
  }

  /** Files only ever change by the call that created them, and only while it is at work on them. */
  predicate FileChangeAllowed(before: File, after: File, id: nat, writing: bool, unlinking: bool, creating: bool) {
    || before == after
    || (creating && before == Absent && after == Present([], Some(id)))
    || (writing && before.Present? && after.Present? && before.owner == after.owner == Some(id))
    || (unlinking && before.Present? && before.owner == Some(id) && after == Absent)
  }

  lemma StepKeepsInv(s: System, m: Move)
    requires Inv(s) && m.id < |s.calls|
    ensures Inv(Step(s, m))
    ensures var p := s.calls[m.id].phase;
      && FileChangeAllowed(s.disk.json, Step(s, m).disk.json, m.id,
           p == WritingJson, p == UnlinkingJson, p == CreatingJson)
      && FileChangeAllowed(s.disk.markdown, Step(s, m).disk.markdown, m.id,
           p == WritingMarkdown, p == UnlinkingMarkdown, p == CreatingMarkdown)
  {
    var t := Step(s, m);
    assert CallInv(s.disk, s.calls[m.id], m.id);
    forall i | 0 <= i < |t.calls| ensures CallInv(t.disk, t.calls[i], i) {
      assert CallInv(s.disk, s.calls[i], i);
    }
  }

  lemma {:induction false} RunKeepsInv(s: System, moves: seq<Move>)
    requires Initial(s)
    ensures Inv(Run(s, moves))
    ensures forall i | 0 <= i < |s.calls| ::
      Run(s, moves).calls[i].json == s.calls[i].json && Run(s, moves).calls[i].markdown == s.calls[i].markdown
  {
    if moves != [] {
      var before, m := Run(s, moves[..|moves| - 1]), moves[|moves| - 1];
      RunKeepsInv(s, moves[..|moves| - 1]);
      if m.id < |before.calls| {
        StepKeepsInv(before, m);
      }
    }
  }

  // ----- The promises, over every run -----

  /**
   * In every step of every run a file that exists keeps its creator, changes its bytes only while its creator writes
   * it, and is removed only by its creator's rollback. So a file that was there before is never touched.
   */
  lemma FilesBelongToTheirCreator(s: System, moves: seq<Move>, m: Move)
    requires Initial(s) && m.id < |s.calls|
    ensures var before, after := Run(s, moves), Run(s, moves + [m]);
      var p := before.calls[m.id].phase;
      && FileChangeAllowed(before.disk.json, after.disk.json, m.id,
           p == WritingJson, p == UnlinkingJson, p == CreatingJson)
      && FileChangeAllowed(before.disk.markdown, after.disk.markdown, m.id,
           p == WritingMarkdown, p == UnlinkingMarkdown, p == CreatingMarkdown)
  {
    RunKeepsInv(s, moves);
    StepKeepsInv(Run(s, moves), m);
    assert (moves + [m])[..|moves|] == moves;
  }

  predicate IsFinished(s: System, owner: Option<nat>) {
    match owner
    case None => true
    case Some(id) => id < |s.calls| && s.calls[id].phase.Done?
  }

  /** Both files are as before, if their creators had returned. */
  predicate FinishedFilesKept(s: System, t: System) {
    && (s.disk.json.Present? && IsFinished(s, s.disk.json.owner) ==>
          t.disk.json == s.disk.json && IsFinished(t, s.disk.json.owner))
    && (s.disk.markdown.Present? && IsFinished(s, s.disk.markdown.owner) ==>
          t.disk.markdown == s.disk.markdown && IsFinished(t, s.disk.markdown.owner))
  }

  lemma StepKeepsFinishedFiles(s: System, m: Move)
    requires Inv(s)
    ensures FinishedFilesKept(s, Step(s, m))
  {
    if m.id < |s.calls| {
      StepKeepsInv(s, m);
    }
  }

  lemma OneMoveKeepsFinishedFiles(s: System, moves: seq<Move>, m: Move)
    requires Initial(s)
    ensures FinishedFilesKept(Run(s, moves), Run(s, moves + [m]))
  {
    assert (moves + [m])[..|moves|] == moves;
    RunKeepsInv(s, moves);
    StepKeepsFinishedFiles(Run(s, moves), m);
  }

  lemma KeptTwice(s: System, t: System, u: System)
    requires FinishedFilesKept(s, t) && FinishedFilesKept(t, u)
    ensures FinishedFilesKept(s, u)
  {
  }

  /**
   * A file whose creating call has returned, or that was there before, stays exactly as it is for the rest of the run.
   */
  lemma {:induction false} FinishedFilesNeverChange(s: System, moves: seq<Move>, later: seq<Move>)
    requires Initial(s)
    ensures FinishedFilesKept(Run(s, moves), Run(s, moves + later))
    decreases |later|
  {
    if later == [] {
      assert moves + later == moves;
    } else {
      var front, last := later[..|later| - 1], later[|later| - 1];
      FinishedFilesNeverChange(s, moves, front);
      OneMoveKeepsFinishedFiles(s, moves + front, last);
      assert moves + front + [last] == moves + later;
      KeptTwice(Run(s, moves), Run(s, moves + front), Run(s, moves + later));
    }
  }

  /** A call that returned "written" has left both files with exactly its bytes, then and for the rest of the run. */
  lemma WrittenIsLasting(s: System, moves: seq<Move>, later: seq<Move>, id: nat)
    requires Initial(s) && id < |s.calls|
    requires Run(s, moves).calls[id].phase == Done(Written)
    ensures Run(s, moves + later).disk ==
      Disk(Present(s.calls[id].json, Some(id)), Present(s.calls[id].markdown, Some(id)))
  {
    RunKeepsInv(s, moves);
    assert CallInv(Run(s, moves).disk, Run(s, moves).calls[id], id);
    FinishedFilesNeverChange(s, moves, later);
  }

  /** The JSON file is a lock: two calls are never both past its creation. */
  lemma JsonFileIsALock(s: System, moves: seq<Move>, i: nat, j: nat)
    requires Initial(s) && i < |s.calls| && j < |s.calls|
    requires HoldsJson(Run(s, moves).calls[i].phase) && HoldsJson(Run(s, moves).calls[j].phase)
    ensures i == j
  {
    RunKeepsInv(s, moves);
    assert CallInv(Run(s, moves).disk, Run(s, moves).calls[i], i);
    assert CallInv(Run(s, moves).disk, Run(s, moves).calls[j], j);
  }

  // ----- What needs removals to succeed -----

  /** Every unlink of the run did remove its file. */
  predicate RemovalsSucceed(s: System, moves: seq<Move>) {
    moves == [] ||
    var front, m := moves[..|moves| - 1], moves[|moves| - 1];
    && RemovalsSucceed(s, front)
    && (m.id < |s.calls| && Run(s, front).calls[m.id].phase in {UnlinkingMarkdown, UnlinkingJson} ==> !m.answer.Fail?)
  }

  /** Every created file is still held by its creator. */
  predicate HeldByCreator(s: System) {
    && (s.disk.json.Present? && s.disk.json.owner.Some? ==>
          s.disk.json.owner.value < |s.calls| && HoldsJson(s.calls[s.disk.json.owner.value].phase))
    && (s.disk.markdown.Present? && s.disk.markdown.owner.Some? ==>
          s.disk.markdown.owner.value < |s.calls| && HoldsMarkdown(s.calls[s.disk.markdown.owner.value].phase))
  }

  lemma {:induction false} RemovalsKeepFilesHeld(s: System, moves: seq<Move>)
    requires Initial(s) && RemovalsSucceed(s, moves)
    ensures HeldByCreator(Run(s, moves))
  {
    if moves != [] {
      var front, m := moves[..|moves| - 1], moves[|moves| - 1];
      RemovalsKeepFilesHeld(s, front);
      RunKeepsInv(s, front);
      if m.id < |s.calls| {
        StepKeepsFilesHeld(Run(s, front), m);
      }
    }
  }

  lemma StepKeepsFilesHeld(s: System, m: Move)
    requires Inv(s) && HeldByCreator(s) && m.id < |s.calls|
    requires s.calls[m.id].phase in {UnlinkingMarkdown, UnlinkingJson} ==> !m.answer.Fail?
    ensures HeldByCreator(Step(s, m))
  {
    assert CallInv(s.disk, s.calls[m.id], m.id);
  }

  /**
   * As long as removals succeed, a Markdown file made in the run has its JSON file beside it, made by the same call;
   * and if no Markdown file stood alone at the start, none ever does.
   */
  lemma MarkdownNeverStandsAlone(s: System, moves: seq<Move>)
    requires Initial(s) && RemovalsSucceed(s, moves)
    ensures var disk := Run(s, moves).disk;
      && (disk.markdown.Present? && disk.markdown.owner.Some? ==>
            disk.json.Present? && disk.json.owner == disk.markdown.owner)
      && ((s.disk.markdown.Present? ==> s.disk.json.Present?) ==> disk.markdown.Present? ==> disk.json.Present?)
  {
    RemovalsKeepFilesHeld(s, moves);
    RunKeepsInv(s, moves);
    var t := Run(s, moves);
    if t.disk.markdown.Present? {
      match t.disk.markdown.owner
      case Some(id) => assert CallInv(t.disk, t.calls[id], id);
      case None =>
        OldFilesWereThere(s, moves);
        FinishedFilesNeverChange(s, [], moves);
        assert [] + moves == moves;
    }
  }

  lemma {:induction false} OldFilesWereThere(s: System, moves: seq<Move>)
    requires Initial(s)
    ensures var t := Run(s, moves);
      && (t.disk.json.Present? && t.disk.json.owner == None ==> t.disk.json == s.disk.json)
      && (t.disk.markdown.Present? && t.disk.markdown.owner == None ==> t.disk.markdown == s.disk.markdown)
  {
    if moves != [] {
      var front, m := moves[..|moves| - 1], moves[|moves| - 1];
      OldFilesWereThere(s, front);
      RunKeepsInv(s, front);
      if m.id < |Run(s, front).calls| {
        StepKeepsInv(Run(s, front), m);
      }
    }
  }

  // ----- "already present" -----

  /** At step k of the run the JSON file (the Markdown file) held exactly these bytes. */
  predicate JsonWas(s: System, moves: seq<Move>, k: nat, bytes: Bytes) {
    k <= |moves| && Run(s, moves[..k]).disk.json.Present? && Run(s, moves[..k]).disk.json.bytes == bytes
  }

  predicate MarkdownWas(s: System, moves: seq<Move>, k: nat, bytes: Bytes) {
    k <= |moves| && Run(s, moves[..k]).disk.markdown.Present? && Run(s, moves[..k]).disk.markdown.bytes == bytes
  }

  lemma {:induction false} ReadingMarkdownMeansJsonWasRead(s: System, moves: seq<Move>, id: nat) returns (i: nat)
    requires Initial(s) && id < |s.calls|
    requires Run(s, moves).calls[id].phase == ReadingMarkdown
    ensures i < |moves| && JsonWas(s, moves, i, s.calls[id].json)
  {
    i := 0;
    if moves != [] {
      var front, m := moves[..|moves| - 1], moves[|moves| - 1];
      RunKeepsInv(s, front);
      if Run(s, front).calls[id].phase == ReadingMarkdown {
        i := ReadingMarkdownMeansJsonWasRead(s, front, id);
        assert front[..i] == moves[..i];
      } else {
        i := |front|;
      }
    }
  }

  /**
   * A call that returned "already present" has read first the JSON and then the Markdown file with exactly its bytes.
   */
  lemma {:induction false} AlreadyPresentWasRead(s: System, moves: seq<Move>, id: nat) returns (i: nat, k: nat)
    requires Initial(s) && id < |s.calls|
    requires Run(s, moves).calls[id].phase == Done(AlreadyPresent)
    ensures i < k < |moves| && JsonWas(s, moves, i, s.calls[id].json) && MarkdownWas(s, moves, k, s.calls[id].markdown)
  {
    i, k := 0, 0;
    if moves != [] {
      var front, m := moves[..|moves| - 1], moves[|moves| - 1];
      RunKeepsInv(s, front);
      if Run(s, front).calls[id].phase == Done(AlreadyPresent) {
        i, k := AlreadyPresentWasRead(s, front, id);
        assert front[..i] == moves[..i] && front[..k] == moves[..k];
      } else {
        i := ReadingMarkdownMeansJsonWasRead(s, front, id);
        k := |front|;
        assert front[..i] == moves[..i] && front[..k] == moves[..k];
      }
    }
  }

  lemma RunAppend(s: System, moves: seq<Move>, m: Move)
    ensures Run(s, moves + [m]) == Step(Run(s, moves), m)
  {
    assert (moves + [m])[..|moves|] == moves;
  }

  /** The first six moves of the run below: call 0 creates both files and has put down all their bytes. */
  lemma BothFilesFull(s: System) returns (moves: seq<Move>)
    requires s == System(Disk(Absent, Absent), [Call([1], [2], CheckingJson), Call([1], [2], CheckingJson)])
    ensures Run(s, moves) == System(Disk(Present([1], Some(0)), Present([2], Some(0))),
      [Call([1], [2], WritingMarkdown), Call([1], [2], CheckingJson)])
  {
    moves := [];
    for k := 0 to 5
      invariant k == 0 ==> Run(s, moves) == s
      invariant k > 0 ==> Run(s, moves).calls == [Call([1], [2], if k == 1 then CheckingMarkdown(false)
        else if k == 2 then CreatingJson else if k == 3 then WritingJson
        else if k == 4 then CreatingMarkdown else WritingMarkdown), Call([1], [2], CheckingJson)]
      invariant Run(s, moves).disk == Disk(
        if k <= 2 then Absent else if k == 3 then Present([], Some(0)) else Present([1], Some(0)),
        if k <= 4 then Absent else Present([], Some(0)))
    {
      RunAppend(s, moves, Move(0, Succeed));
      moves := moves + [Move(0, Succeed)];
    }
    RunAppend(s, moves, Move(0, Partial(1)));
    moves := moves + [Move(0, Partial(1))];
    assert Prefix([2], 1) == [2];
  }

  /**
   * It is not a promise about later: the pair it read may still be rolled back. Call 0 has put down all its bytes
   * when its last flush fails; call 1, with the same bytes, has meanwhile returned "already present".
   */
  lemma AlreadyPresentMayVanish(s: System) returns (moves: seq<Move>)
    requires s == System(Disk(Absent, Absent), [Call([1], [2], CheckingJson), Call([1], [2], CheckingJson)])
    ensures Run(s, moves).calls[1].phase == Done(AlreadyPresent) && Run(s, moves).disk == Disk(Absent, Absent)
  {
    moves := BothFilesFull(s);
    for k := 0 to 4
      invariant Run(s, moves).disk == Disk(Present([1], Some(0)), Present([2], Some(0)))
      invariant Run(s, moves).calls == [Call([1], [2], WritingMarkdown), Call([1], [2], if k == 0 then CheckingJson
        else if k == 1 then CheckingMarkdown(true) else if k == 2 then ReadingJson
        else if k == 3 then ReadingMarkdown else Done(AlreadyPresent))]
    {
      RunAppend(s, moves, Move(1, Succeed));
      moves := moves + [Move(1, Succeed)];
    }
    RunAppend(s, moves, Move(0, Fail));
    moves := moves + [Move(0, Fail)];
    assert Run(s, moves).calls[0].phase == UnlinkingMarkdown;
    RunAppend(s, moves, Move(0, Succeed));
    moves := moves + [Move(0, Succeed)];
    RunAppend(s, moves, Move(0, Succeed));
    moves := moves + [Move(0, Succeed)];
  }

  function StepsToRollback(p: Phase): nat {
    if p.UnlinkingJson? then 1 else if p.UnlinkingMarkdown? then 2 else 3
  }

  /** A creator that has not returned may still roll its JSON file back. */
  lemma {:induction false} UnfinishedFileCanVanish(s: System, moves: seq<Move>, id: nat) returns (later: seq<Move>)
    requires id < |s.calls|
    requires HoldsJson(Run(s, moves).calls[id].phase) && Run(s, moves).calls[id].phase != Done(Written)
    ensures Run(s, moves + later).disk.json == Absent
    decreases StepsToRollback(Run(s, moves).calls[id].phase)
  {
    var p := Run(s, moves).calls[id].phase;
    var m := Move(id, if StepsToRollback(p) == 3 then Fail else Succeed);
    RunAppend(s, moves, m);
    if p == UnlinkingJson {
      later := [m];
    } else {
      var rest := UnfinishedFileCanVanish(s, moves + [m], id);
      later := [m] + rest;
      assert moves + later == moves + [m] + rest;
    }
  }

  lemma UnlinkingMarkdownRemovesIt(s: System, moves: seq<Move>, id: nat)
    requires id < |s.calls| && Run(s, moves).calls[id].phase == UnlinkingMarkdown
    ensures Run(s, moves + [Move(id, Succeed)]).disk.markdown == Absent
  {
    RunAppend(s, moves, Move(id, Succeed));
  }

  /** A creator that has not got past its Markdown file may still roll that file back. */
  lemma UnsettledMarkdownCanVanish(s: System, moves: seq<Move>, id: nat) returns (later: seq<Move>)
    requires id < |s.calls| && Run(s, moves).calls[id].phase in {WritingMarkdown, UnlinkingMarkdown}
    ensures Run(s, moves + later).disk.markdown == Absent
  {
    if Run(s, moves).calls[id].phase == UnlinkingMarkdown {
      later := [Move(id, Succeed)];
      UnlinkingMarkdownRemovesIt(s, moves, id);
    } else {
      RunAppend(s, moves, Move(id, Fail));
      UnlinkingMarkdownRemovesIt(s, moves + [Move(id, Fail)], id);
      later := [Move(id, Fail), Move(id, Succeed)];
      assert moves + later == moves + [Move(id, Fail)] + [Move(id, Succeed)];
    }
  }

  /** Nobody will touch this Markdown file again: its creator is past it, whether it removed it or failed to. */
  predicate IsSettled(s: System, owner: Option<nat>) {
    match owner
    case None => true
    case Some(id) => id < |s.calls| && (s.calls[id].phase.Done? || s.calls[id].phase == UnlinkingJson)
  }

  /** A created file belongs to a call that is still at work on it, or past it. Removals may have failed. */
  predicate JsonOwnerKnown(s: System) {
    s.disk.json.Present? && s.disk.json.owner.Some? ==>
      var id := s.disk.json.owner.value;
      id < |s.calls| && (HoldsJson(s.calls[id].phase) || s.calls[id].phase.Done?)
  }

  predicate MarkdownOwnerKnown(s: System) {
    s.disk.markdown.Present? && s.disk.markdown.owner.Some? ==>
      var id := s.disk.markdown.owner.value;
      id < |s.calls| && (HoldsMarkdown(s.calls[id].phase) || IsSettled(s, Some(id)))
  }

  lemma StepKeepsJsonOwnerKnown(s: System, m: Move)
    requires Inv(s) && JsonOwnerKnown(s) && m.id < |s.calls|
    ensures JsonOwnerKnown(Step(s, m))
  {
    assert CallInv(s.disk, s.calls[m.id], m.id);
  }

  lemma StepKeepsMarkdownOwnerKnown(s: System, m: Move)
    requires Inv(s) && MarkdownOwnerKnown(s) && m.id < |s.calls|
    ensures MarkdownOwnerKnown(Step(s, m))
  {
    assert CallInv(s.disk, s.calls[m.id], m.id);
  }

  lemma {:induction false} OwnersStayKnown(s: System, moves: seq<Move>)
    requires Initial(s)
    ensures JsonOwnerKnown(Run(s, moves)) && MarkdownOwnerKnown(Run(s, moves))
  {
    if moves != [] {
      var front, m := moves[..|moves| - 1], moves[|moves| - 1];
      OwnersStayKnown(s, front);
      RunKeepsInv(s, front);
      if m.id < |s.calls| {
        StepKeepsJsonOwnerKnown(Run(s, front), m);
        StepKeepsMarkdownOwnerKnown(Run(s, front), m);
      }
    }
  }

  lemma {:induction false} SettledMarkdownNeverChanges(s: System, moves: seq<Move>, later: seq<Move>)
    requires Initial(s) && Run(s, moves).disk.markdown.Present?
    requires IsSettled(Run(s, moves), Run(s, moves).disk.markdown.owner)
    ensures var t, u := Run(s, moves), Run(s, moves + later);
      u.disk.markdown == t.disk.markdown && IsSettled(u, t.disk.markdown.owner)
    decreases |later|
  {
    if later == [] {
      assert moves + later == moves;
    } else {
      var front, m := later[..|later| - 1], later[|later| - 1];
      SettledMarkdownNeverChanges(s, moves, front);
      assert moves + later == (moves + front) + [m];
      RunAppend(s, moves + front, m);
      RunKeepsInv(s, moves + front);
      var t := Run(s, moves + front);
      if m.id < |t.calls| {
        assert CallInv(t.disk, t.calls[m.id], m.id);
      }
    }
  }

  /**
   * A JSON file is there to stay exactly when the call that made it has returned: then nothing later in any run changes
   * it, and otherwise some continuation removes it. Removals may fail.
   */
  lemma FileLastsIffCreatorReturned(s: System, moves: seq<Move>)
    requires Initial(s) && Run(s, moves).disk.json.Present?
    ensures var t := Run(s, moves);
      IsFinished(t, t.disk.json.owner) <==> forall later :: Run(s, moves + later).disk.json == t.disk.json
  {
    var t := Run(s, moves);
    OwnersStayKnown(s, moves);
    if IsFinished(t, t.disk.json.owner) {
      forall later ensures Run(s, moves + later).disk.json == t.disk.json {
        FinishedFilesNeverChange(s, moves, later);
      }
    } else {
      var later := UnfinishedFileCanVanish(s, moves, t.disk.json.owner.value);
      assert Run(s, moves + later).disk.json != t.disk.json;
    }
  }

  /**
   * A Markdown file is there to stay exactly when the call that made it is neither writing nor about to remove it: that
   * call need not have returned, for a failed removal leaves the file behind for good.
   */
  lemma MarkdownLastsIffSettled(s: System, moves: seq<Move>)
    requires Initial(s) && Run(s, moves).disk.markdown.Present?
    ensures var t := Run(s, moves);
      IsSettled(t, t.disk.markdown.owner) <==> forall later :: Run(s, moves + later).disk.markdown == t.disk.markdown
  {
    var t := Run(s, moves);
    OwnersStayKnown(s, moves);
    if IsSettled(t, t.disk.markdown.owner) {
      forall later ensures Run(s, moves + later).disk.markdown == t.disk.markdown {
        SettledMarkdownNeverChanges(s, moves, later);
      }
    } else {
      var later := UnsettledMarkdownCanVanish(s, moves, t.disk.markdown.owner.value);
      assert Run(s, moves + later).disk.markdown != t.disk.markdown;
    }
  }

  /** A run after which the Markdown file is there for good although its creator has not returned. */
  lemma MarkdownMayOutlastARunningCreator(s: System) returns (moves: seq<Move>)
    requires s == System(Disk(Absent, Absent), [Call([1], [2], CheckingJson), Call([1], [2], CheckingJson)])
    ensures var t := Run(s, moves);
      t.disk.markdown.Present? && t.disk.markdown.owner == Some(0) && !t.calls[0].phase.Done?
      && forall later :: Run(s, moves + later).disk.markdown == t.disk.markdown
  {
    moves := BothFilesFull(s);
    RunAppend(s, moves, Move(0, Fail));
    moves := moves + [Move(0, Fail)];
    RunAppend(s, moves, Move(0, Fail));
    moves := moves + [Move(0, Fail)];
    MarkdownLastsIffSettled(s, moves);
  }

  /** The pair that an answer "already present" is about lasts exactly when both of its files do. */
  lemma PairLastsIffBothDo(s: System, moves: seq<Move>)
    requires Initial(s) && Run(s, moves).disk.json.Present? && Run(s, moves).disk.markdown.Present?
    ensures var t := Run(s, moves);
      (IsFinished(t, t.disk.json.owner) && IsSettled(t, t.disk.markdown.owner))
      <==> (forall later :: Run(s, moves + later).disk == t.disk)
  {
    var t := Run(s, moves);
    FileLastsIffCreatorReturned(s, moves);
    MarkdownLastsIffSettled(s, moves);
    if forall later :: Run(s, moves + later).disk == t.disk {
      forall later
        ensures Run(s, moves + later).disk.json == t.disk.json
          && Run(s, moves + later).disk.markdown == t.disk.markdown
      {
        assert Run(s, moves + later).disk == t.disk;
      }
    }
    if IsFinished(t, t.disk.json.owner) && IsSettled(t, t.disk.markdown.owner) {
      forall later ensures Run(s, moves + later).disk == t.disk {
        assert Run(s, moves + later).disk.json == t.disk.json && Run(s, moves + later).disk.markdown == t.disk.markdown;
      }
    }
  }

  // ----- Progress without failures -----

  predicate HasStarted(p: Phase) { p !in {CheckingJson, CheckingMarkdown(false), CreatingJson} }

  /**
   * While nothing fails nothing is rolled back, and until the JSON file is there every call is still on its way to it.
   */
  ghost predicate GoingWell(s: System) {
    && Inv(s)
    && (forall i | 0 <= i < |s.calls| :: s.calls[i].phase !in {UnlinkingMarkdown, UnlinkingJson})
    && (s.disk.json.Absent? ==>
          s.disk.markdown.Absent? && forall i | 0 <= i < |s.calls| :: !HasStarted(s.calls[i].phase))
    && (s.disk.json.Present? ==> HoldsIt(s, s.disk.json.owner) && HoldsJson(s.calls[s.disk.json.owner.value].phase))
    && (s.disk.markdown.Present? ==>
          s.disk.json.Present? && s.disk.markdown.owner == s.disk.json.owner
          && HoldsMarkdown(s.calls[s.disk.json.owner.value].phase))
  }

  predicate HoldsIt(s: System, owner: Option<nat>) { owner.Some? && owner.value < |s.calls| }

  lemma StepGoesWell(s: System, m: Move)
    requires GoingWell(s) && m.id < |s.calls| && !m.answer.Fail?
    ensures GoingWell(Step(s, m))
  {
    StepKeepsInv(s, m);
    assert CallInv(s.disk, s.calls[m.id], m.id);
  }

  lemma {:induction false} RunGoesWell(s: System, moves: seq<Move>)
    requires Initial(s) && s.disk == Disk(Absent, Absent) && forall k | 0 <= k < |moves| :: !moves[k].answer.Fail?
    ensures GoingWell(Run(s, moves))
  {
    if moves != [] {
      var front, m := moves[..|moves| - 1], moves[|moves| - 1];
      RunGoesWell(s, front);
      if m.id < |s.calls| {
        StepGoesWell(Run(s, front), m);
      }
    }
  }

  /** If the archive was empty and nothing fails, then once all calls have returned exactly one of them has written. */
  lemma ExactlyOneWrites(s: System, moves: seq<Move>) returns (id: nat)
    requires Initial(s) && s.disk == Disk(Absent, Absent) && s.calls != []
    requires forall k | 0 <= k < |moves| :: !moves[k].answer.Fail?
    requires forall i | 0 <= i < |s.calls| :: Run(s, moves).calls[i].phase.Done?
    ensures id < |s.calls| && Run(s, moves).calls[id].phase == Done(Written)
    ensures forall i | 0 <= i < |s.calls| && Run(s, moves).calls[i].phase == Done(Written) :: i == id
    ensures Run(s, moves).disk == Disk(Present(s.calls[id].json, Some(id)), Present(s.calls[id].markdown, Some(id)))
  {
    RunGoesWell(s, moves);
    var t := Run(s, moves);
    assert HasStarted(t.calls[0].phase);
    id := t.disk.json.owner.value;
    forall i | 0 <= i < |s.calls| && t.calls[i].phase == Done(Written) ensures i == id {
      JsonFileIsALock(s, moves, i, id);
    }
    assert moves + [] == moves;
    WrittenIsLasting(s, moves, [], id);
  }
}
