/** What one archive call does while no other is at work: it writes both files, or says why it left them alone. */
module ArchiveAlone {
  import opened TextModel
  import opened ArchiveProtocol

  /** The answer of a call for which nothing fails. */
  function Verdict(disk: Disk, json: Bytes, markdown: Bytes): Outcome {
    match (disk.json, disk.markdown)
    case (Absent, Absent) => Written
    case (Present(j, _), Present(m, _)) => if j == json && m == markdown then AlreadyPresent else Conflict
    case _ => Conflict
  }

  predicate BothThere(disk: Disk) { disk.json.Present? && disk.markdown.Present? }

  predicate NeitherThere(disk: Disk) { disk.json.Absent? && disk.markdown.Absent? }

  /** Where the call stands, and what has become of the disk `was` that it found. */
  predicate OnItsWay(was: Disk, now: Disk, call: Call, id: nat) {
    match call.phase
    case CheckingJson => now == was
    case CheckingMarkdown(jsonExists) => now == was && jsonExists == was.json.Present?
    case ReadingJson => now == was && BothThere(was)
    case ReadingMarkdown => now == was && BothThere(was) && was.json.bytes == call.json
    case CreatingJson => now == was && NeitherThere(was)
    case WritingJson =>
      NeitherThere(was) && now.json.Present? && now.json.owner == Some(id) && now.markdown.Absent?
    case CreatingMarkdown =>
      NeitherThere(was) && now == Disk(Present(call.json, Some(id)), Absent)
    case WritingMarkdown =>
      NeitherThere(was) && now.json == Present(call.json, Some(id))
      && now.markdown.Present? && now.markdown.owner == Some(id)
    case UnlinkingMarkdown => NeitherThere(was)
    case UnlinkingJson => NeitherThere(was) && now.markdown.Absent?
    case Done(Written) =>
      NeitherThere(was) && now == Disk(Present(call.json, Some(id)), Present(call.markdown, Some(id)))
    case Done(WriteFailed) => now == was && NeitherThere(was)
    case Done(ReadFailed) => now == was && BothThere(was)
    case Done(outcome) => now == was && !NeitherThere(was) && outcome == Verdict(was, call.json, call.markdown)
  }

  predicate IsUnlinking(p: Phase) { p == UnlinkingMarkdown || p == UnlinkingJson }

  lemma ActStaysOnItsWay(was: Disk, now: Disk, call: Call, id: nat, answer: Answer)
    requires OnItsWay(was, now, call, id) && (IsUnlinking(call.phase) ==> !answer.Fail?)
    ensures var effect := Act(call, id, now, answer);
      OnItsWay(was, effect.disk, call.(phase := effect.phase), id)
  {
  }

  /** The call makes all the moves of a run. */
  predicate Alone(moves: seq<Move>, id: nat) { forall k | 0 <= k < |moves| :: moves[k].id == id }

  lemma {:induction false} AloneStaysOnItsWay(s: System, id: nat, moves: seq<Move>)
    requires id < |s.calls| && s.calls[id].phase == CheckingJson && Alone(moves, id) && RemovalsSucceed(s, moves)
    ensures var t := Run(s, moves);
      && t.calls[id] == s.calls[id].(phase := t.calls[id].phase) && OnItsWay(s.disk, t.disk, t.calls[id], id)
  {
    if moves != [] {
      var front, m := moves[..|moves| - 1], moves[|moves| - 1];
      AloneStaysOnItsWay(s, id, front);
      var before := Run(s, front);
      ActStaysOnItsWay(s.disk, before.disk, before.calls[id], id, m.answer);
    }
  }

  /**
   * All or nothing, whatever fails but the removals: once the call has returned, both files hold its bytes and there
   * was none before, or the disk is as it was. A failure to write is told only where there was no file, a failure to
   * read only where there were both; else the verdict is the one on the files that were there.
   */
  lemma AllOrNothing(s: System, id: nat, moves: seq<Move>)
    requires id < |s.calls| && s.calls[id].phase == CheckingJson && Alone(moves, id) && RemovalsSucceed(s, moves)
    requires Run(s, moves).calls[id].phase.Done?
    ensures var t, call := Run(s, moves), s.calls[id];
      match t.calls[id].phase.outcome
      case Written =>
        && s.disk == Disk(Absent, Absent)
        && t.disk == Disk(Present(call.json, Some(id)), Present(call.markdown, Some(id)))
      case WriteFailed => t.disk == s.disk == Disk(Absent, Absent)
      case ReadFailed => t.disk == s.disk && BothThere(s.disk)
      case AlreadyPresent =>
        && t.disk == s.disk && BothThere(s.disk)
        && s.disk.json.bytes == call.json && s.disk.markdown.bytes == call.markdown
      case Conflict =>
        && t.disk == s.disk && s.disk != Disk(Absent, Absent)
        && (BothThere(s.disk) ==> s.disk.json.bytes != call.json || s.disk.markdown.bytes != call.markdown)
  {
    AloneStaysOnItsWay(s, id, moves);
  }

  // ----- When nothing fails -----

  /** `n` moves of the call, all of which succeed. */
  function Moves(id: nat, n: nat): seq<Move> { seq(n, i => Move(id, Succeed)) }

  /** How many steps the phase is from the start at most. */
  function StepsSoFar(p: Phase): nat {
    match p
    case CheckingJson => 0
    case CheckingMarkdown(_) => 1
    case ReadingJson => 2
    case ReadingMarkdown => 3
    case CreatingJson => 2
    case WritingJson => 3
    case CreatingMarkdown => 4
    case WritingMarkdown => 5
    case _ => 6
  }

  lemma {:induction false} MovesGoOn(s: System, id: nat, n: nat)
    requires id < |s.calls| && s.calls[id].phase == CheckingJson && n <= 6
    ensures Alone(Moves(id, n), id) && RemovalsSucceed(s, Moves(id, n))
    ensures var p := Run(s, Moves(id, n)).calls[id].phase;
      StepsSoFar(p) >= n && !IsUnlinking(p) && p != Done(WriteFailed) && p != Done(ReadFailed)
  {
    if n > 0 {
      var moves := Moves(id, n);
      assert moves[..|moves| - 1] == Moves(id, n - 1);
      MovesGoOn(s, id, n - 1);
      AloneStaysOnItsWay(s, id, Moves(id, n - 1));
    }
  }

  /** After six steps a call for which nothing fails has returned, and its answer is the verdict on what it found. */
  lemma NothingFails(s: System, id: nat)
    requires id < |s.calls| && s.calls[id].phase == CheckingJson
    ensures Run(s, Moves(id, 6)).calls[id].phase == Done(Verdict(s.disk, s.calls[id].json, s.calls[id].markdown))
  {
    var moves := Moves(id, 6);
    MovesGoOn(s, id, 6);
    AloneStaysOnItsWay(s, id, moves);
    var t := Run(s, moves);
    SixStepsAreAll(s.disk, t.disk, t.calls[id], id);
  }

  lemma SixStepsAreAll(was: Disk, now: Disk, call: Call, id: nat)
    requires OnItsWay(was, now, call, id) && StepsSoFar(call.phase) >= 6 && !IsUnlinking(call.phase)
    requires call.phase != Done(WriteFailed) && call.phase != Done(ReadFailed)
    ensures call.phase == Done(Verdict(was, call.json, call.markdown))
  {
  }
}
