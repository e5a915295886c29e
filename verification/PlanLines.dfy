/** Which lines of an arbitrary text reach the allowed files and the acceptance commands of which version. */
module PlanLines {
  import opened TextModel
  import opened PlanText
  import opened PlanBundle

  const ALLOWED_KEY := "allowed_files:"
  const ACCEPTANCE_KEY := "acceptance_commands:"

  // ----- What a line does, told from the lines before it -----

  ghost predicate DeeperBetween(lines: seq<string>, j: nat, k: nat)
    requires j < k <= |lines|
  {
    forall i | j < i < k && !IsIgnored(lines[i]) :: Indent(lines[i]) > Indent(lines[j])
  }

  /** Line j opens a block and no line between it and line k ends that block. */
  ghost predicate IsOpen(lines: seq<string>, j: nat, k: nat)
    decreases k, 0
  {
    j < k <= |lines| && OpensBlock(lines, j) && DeeperBetween(lines, j, k)
  }

  /** Line k belongs to a block. */
  ghost predicate Captured(lines: seq<string>, k: nat)
    requires k < |lines|
    decreases k, 1
  {
    exists j: nat :: IsOpen(lines, j, k) && Indent(lines[k]) > Indent(lines[j])
  }

  /** Line k is read at all: it is not blank, no comment and in no block. */
  ghost predicate Counts(lines: seq<string>, k: nat)
    requires k < |lines|
    decreases k, 2
  {
    !IsIgnored(lines[k]) && !Captured(lines, k)
  }

  ghost predicate IsVersionsLine(lines: seq<string>, k: nat)
    requires k < |lines|
    decreases k, 3
  {
    Counts(lines, k) && StripText(lines[k]) == "versions:"
  }

  ghost predicate AfterVersionsLine(lines: seq<string>, k: nat)
    requires k <= |lines|
    decreases k, 0
  {
    exists j: nat :: j < k && IsVersionsLine(lines, j)
  }

  /** Line k begins a version. */
  ghost predicate StartsVersion(lines: seq<string>, k: nat)
    requires k < |lines|
    decreases k, 3
  {
    Counts(lines, k) && AfterVersionsLine(lines, k) && "- version:" <= StripText(lines[k])
  }

  /** The line that begins the version line k is in: the last one before k that begins one. */
  ghost function VersionLine(lines: seq<string>, k: nat): (j: Option<nat>)
    requires k <= |lines|
    ensures j.Some? ==> j.value < k
    decreases k, 0
  {
    if k == 0 then None else if StartsVersion(lines, k - 1) then Some(k - 1) else VersionLine(lines, k - 1)
  }

  /** A list item no deeper than the version it is in ends the section; a command does not. */
  ghost predicate EndsSection(lines: seq<string>, k: nat)
    requires k < |lines|
    decreases k, 3
  {
    && Counts(lines, k) && "- " <= StripText(lines[k]) && !("- command:" <= StripText(lines[k]))
    && VersionLine(lines, k).Some? && Indent(lines[k]) <= Indent(lines[VersionLine(lines, k).value])
  }

  /** Line k is one of the two keys of a version that begin a section. */
  ghost predicate BeginsSection(lines: seq<string>, k: nat)
    requires k < |lines|
    decreases k, 3
  {
    Counts(lines, k) && StripText(lines[k]) in {ALLOWED_KEY, ACCEPTANCE_KEY} && VersionLine(lines, k).Some?
  }

  ghost predicate SetsSection(lines: seq<string>, k: nat)
    requires k < |lines|
    decreases k, 4
  {
    StartsVersion(lines, k) || EndsSection(lines, k) || BeginsSection(lines, k)
  }

  /** The last line before k that sets the section. */
  ghost function SectionLine(lines: seq<string>, k: nat): (j: Option<nat>)
    requires k <= |lines|
    ensures j.Some? ==> j.value < k
    decreases k, 0
  {
    if k == 0 then None else if SetsSection(lines, k - 1) then Some(k - 1) else SectionLine(lines, k - 1)
  }

  ghost predicate IsUnder(lines: seq<string>, k: nat, key: string)
    requires k <= |lines|
    decreases k, 1
  {
    SectionLine(lines, k).Some? && StripText(lines[SectionLine(lines, k).value]) == key
  }

  /** Line k is read as an allowed file. */
  ghost predicate IsFileLine(lines: seq<string>, k: nat)
    requires k < |lines|
    decreases k, 5
  {
    Counts(lines, k) && "- " <= StripText(lines[k]) && !SetsSection(lines, k) && IsUnder(lines, k, ALLOWED_KEY)
  }

  /** Line k is read as an acceptance command. */
  ghost predicate IsCommandLine(lines: seq<string>, k: nat)
    requires k < |lines|
    decreases k, 3
  {
    Counts(lines, k) && "- command:" <= StripText(lines[k]) && IsUnder(lines, k, ACCEPTANCE_KEY)
  }

  ghost predicate OpensBlock(lines: seq<string>, k: nat)
    requires k < |lines|
    decreases k, 4
  {
    IsCommandLine(lines, k) && CommandValue(lines[k]) == "|"
  }

  function CommandValue(line: string): string { StripText(AfterColon(StripText(line))) }

  function FileValue(line: string): string
    requires "- " <= StripText(line)
  {
    YamlScalar(StripText(StripText(line)[2..]))
  }

  // ----- What the versions hold -----

  /** How many versions have begun before line k. */
  ghost function VersionsBefore(lines: seq<string>, k: nat): nat
    requires k <= |lines|
  {
    if k == 0 then 0 else VersionsBefore(lines, k - 1) + if StartsVersion(lines, k - 1) then 1 else 0
  }

  /** The allowed files of version v among the first k lines, in order. */
  ghost function FilesIn(lines: seq<string>, k: nat, v: nat): seq<string>
    requires k <= |lines|
  {
    if k == 0 then []
    else if IsFileLine(lines, k - 1) && VersionsBefore(lines, k - 1) == v + 1
    then FilesIn(lines, k - 1, v) + [FileValue(lines[k - 1])]
    else FilesIn(lines, k - 1, v)
  }

  function Uncovered(line: string, indent: nat): string {
    if |line| > indent + 2 then line[indent + 2..] else ""
  }

  /** What the block opened by line j holds of the first k lines. */
  ghost function BlockLines(lines: seq<string>, j: nat, k: nat): seq<string>
    requires j < |lines| && k <= |lines|
  {
    if k == 0 then []
    else if !IsIgnored(lines[k - 1]) && IsOpen(lines, j, k) && j < k - 1
    then BlockLines(lines, j, k - 1) + [Uncovered(lines[k - 1], Indent(lines[j]))]
    else BlockLines(lines, j, k - 1)
  }

  /** The text of the command on line j, whose block may reach up to line m. */
  ghost function CommandAt(lines: seq<string>, j: nat, m: nat): string
    requires j < |lines| && m <= |lines|
  {
    if CommandValue(lines[j]) == "|" then BlockText(BlockLines(lines, j, m)) else YamlScalar(CommandValue(lines[j]))
  }

  /** The acceptance commands of version v that begin on the first k lines, in order. */
  ghost function CommandsIn(lines: seq<string>, k: nat, m: nat, v: nat): seq<string>
    requires k <= |lines| && m <= |lines|
  {
    if k == 0 then []
    else if IsCommandLine(lines, k - 1) && VersionsBefore(lines, k - 1) == v + 1
    then CommandsIn(lines, k - 1, m, v) + [CommandAt(lines, k - 1, m)]
    else CommandsIn(lines, k - 1, m, v)
  }

  // ----- One line more -----

  lemma AfterOneMoreLine(lines: seq<string>, k: nat)
    requires k < |lines|
    ensures AfterVersionsLine(lines, k + 1) <==> AfterVersionsLine(lines, k) || IsVersionsLine(lines, k)
  {
    if IsVersionsLine(lines, k) {
      assert k < k + 1;
    }
  }

  lemma {:induction false} SomeVersionBegan(lines: seq<string>, k: nat)
    requires k <= |lines|
    ensures VersionsBefore(lines, k) > 0 <==> VersionLine(lines, k).Some?
    ensures VersionsBefore(lines, k) > 0 ==> AfterVersionsLine(lines, k)
  {
    if k > 0 {
      SomeVersionBegan(lines, k - 1);
      AfterOneMoreLine(lines, k - 1);
    }
  }

  ghost predicate IsLastSectionLine(lines: seq<string>, j: nat, k: nat)
    requires k <= |lines|
  {
    j < k && SetsSection(lines, j) && forall i: nat | j < i < k :: !SetsSection(lines, i)
  }

  lemma LastAfterOneMoreLine(lines: seq<string>, j: nat, k: nat)
    requires k < |lines|
    ensures IsLastSectionLine(lines, j, k + 1)
      <==> if SetsSection(lines, k) then j == k else IsLastSectionLine(lines, j, k)
  {
    if IsLastSectionLine(lines, j, k + 1) && j != k {
      assert !SetsSection(lines, k);
    }
  }

  /** The section line is the last of the lines that set the section. */
  lemma {:induction false} SectionLineIsTheLast(lines: seq<string>, k: nat, j: nat)
    requires k <= |lines|
    ensures SectionLine(lines, k) == Some(j) <==> IsLastSectionLine(lines, j, k)
  {
    if k > 0 {
      SectionLineIsTheLast(lines, k - 1, j);
      LastAfterOneMoreLine(lines, j, k - 1);
    }
  }

  lemma OneSectionAtATime(lines: seq<string>, k: nat)
    requires k <= |lines|
    ensures !(IsUnder(lines, k, ALLOWED_KEY) && IsUnder(lines, k, ACCEPTANCE_KEY))
  {
    assert ALLOWED_KEY[1] == 'l' && ACCEPTANCE_KEY[1] == 'c';
  }

  lemma OpenersCount(lines: seq<string>, j: nat, k: nat)
    requires IsOpen(lines, j, k)
    ensures j < k <= |lines| && IsCommandLine(lines, j) && Counts(lines, j) && CommandValue(lines[j]) == "|"
    ensures DeeperBetween(lines, j, k)
  {
    assert OpensBlock(lines, j);
  }

  /** Between the line that opens a block and the line that ends it no line counts. */
  lemma NothingCountsInside(lines: seq<string>, i: nat, j: nat, k: nat)
    requires IsOpen(lines, i, k) && i < j < k
    ensures !Counts(lines, j)
  {
    OpenersCount(lines, i, k);
    if !IsIgnored(lines[j]) {
      assert IsOpen(lines, i, j);
    }
  }

  /** At most one block is open. */
  lemma OpenIsUnique(lines: seq<string>, i: nat, j: nat, k: nat)
    requires IsOpen(lines, i, k) && IsOpen(lines, j, k)
    ensures i == j
  {
    OpenersCount(lines, i, k);
    OpenersCount(lines, j, k);
    if i < j {
      NothingCountsInside(lines, i, j, k);
    } else if j < i {
      NothingCountsInside(lines, j, i, k);
    }
  }

  // ----- What the parser makes of a line -----

  lemma FirstCharacters(text: string)
    ensures "project_name:" <= text || "plan_version:" <= text ==> text != "" && text[0] == 'p'
    ensures "- version:" <= text || "- " <= text || "- command:" <= text ==> text != "" && text[0] == '-'
    ensures "name:" <= text ==> text != "" && text[0] == 'n'
    ensures "- command:" <= text ==> "- " <= text && !("- version:" <= text)
    ensures "- version:" <= text ==> "- " <= text && !("- command:" <= text)
    ensures text == "versions:" ==> text[0] == 'v'
    ensures text in {ALLOWED_KEY, ACCEPTANCE_KEY} ==> text[0] == 'a'
  {
    if "- command:" <= text {
      assert text[..2] == "- command:"[..2] == "- " && text[2] == "- command:"[2];
    }
    if "- version:" <= text {
      assert text[..2] == "- version:"[..2] == "- " && text[2] == "- version:"[2];
    }
  }

  predicate Starts(s: State, text: string) { s.inVersions && "- version:" <= text }

  predicate Ends(s: State, text: string, n: nat) {
    "- " <= text && !("- command:" <= text) && n <= s.commandIndent
  }

  predicate Sets(s: State, text: string, n: nat) {
    Starts(s, text) || (s.plan.versions != [] && (Ends(s, text, n) || text in {ALLOWED_KEY, ACCEPTANCE_KEY}))
  }

  predicate Consistent(s: State) {
    && s.block.None? && (s.plan.versions != [] ==> s.inVersions) && !(s.inAllowed && s.inAcceptance)
    && (s.inAllowed || s.inAcceptance ==> s.plan.versions != [])
  }

  predicate AddsFile(s: State, text: string, n: nat) { "- " <= text && !Sets(s, text, n) && s.inAllowed }

  predicate AddsCommand(s: State, text: string) { "- command:" <= text && s.inAcceptance }

  function ValueOf(text: string): string { StripText(AfterColon(text)) }

  function WithOne(texts: seq<string>, more: bool, text: string): seq<string> { if more then texts + [text] else texts }

  function FileOf(text: string): string { if |text| >= 2 then YamlScalar(StripText(text[2..])) else "" }

  function VersionAt(s: State, v: nat): Version {
    if v < |s.plan.versions| then s.plan.versions[v] else Version("", "", [], [])
  }

  /** What a version holds after a line: more than before if it is the last of the versions so far. */
  lemma StructureContents(s: State, text: string, n: nat, v: nat, r: Version)
    requires Consistent(s) && v < |Structure(s, text, n).plan.versions| && r == Structure(s, text, n).plan.versions[v]
    ensures var last := v + 1 == |s.plan.versions|;
      && r.allowedFiles == WithOne(VersionAt(s, v).allowedFiles, last && AddsFile(s, text, n), FileOf(text))
      && r.acceptanceCommands == WithOne(VersionAt(s, v).acceptanceCommands,
        last && AddsCommand(s, text) && ValueOf(text) != "|", YamlScalar(ValueOf(text)))
  {
    FirstCharacters(text);
  }

  lemma StructureBlock(s: State, text: string, n: nat)
    requires Consistent(s)
    ensures Structure(s, text, n).block ==
      if AddsCommand(s, text) && ValueOf(text) == "|" then Some(Block([], n)) else None
  {
    FirstCharacters(text);
  }

  lemma StructureFlags(s: State, text: string, n: nat)
    requires Consistent(s)
    ensures var r := Structure(s, text, n);
      && r.inVersions == (s.inVersions || text == "versions:")
      && |r.plan.versions| == |s.plan.versions| + (if Starts(s, text) then 1 else 0)
      && r.commandIndent == (if Starts(s, text) then n else s.commandIndent)
      && r.inAllowed == (if Sets(s, text, n) then text == ALLOWED_KEY else s.inAllowed)
      && r.inAcceptance == (if Sets(s, text, n) then text == ACCEPTANCE_KEY else s.inAcceptance)
  {
    FirstCharacters(text);
  }

  // ----- The parser's state after k lines -----

  ghost predicate FlagsTrack(lines: seq<string>, k: nat, s: State)
    requires k <= |lines|
  {
    && s.inVersions == AfterVersionsLine(lines, k)
    && |s.plan.versions| == VersionsBefore(lines, k)
    && (VersionLine(lines, k).Some? ==> s.commandIndent == Indent(lines[VersionLine(lines, k).value]))
    && s.inAllowed == IsUnder(lines, k, ALLOWED_KEY) && s.inAcceptance == IsUnder(lines, k, ACCEPTANCE_KEY)
    && (s.inAllowed || s.inAcceptance ==> s.plan.versions != [])
  }

  /** The versions hold what is in the first k lines, commands only those that begin on the first n lines. */
  ghost predicate ContentsTrack(lines: seq<string>, n: nat, k: nat, s: State)
    requires n <= k <= |lines|
  {
    forall v: nat | v < |s.plan.versions| ::
      && s.plan.versions[v].allowedFiles == FilesIn(lines, k, v)
      && s.plan.versions[v].acceptanceCommands == CommandsIn(lines, n, k, v)
  }

  /** The open block is that of line j, and its command is not yet among the commands. */
  ghost predicate BlockTracks(lines: seq<string>, j: nat, k: nat, s: State)
    requires k <= |lines|
  {
    && IsOpen(lines, j, k) && s.block == Some(Block(BlockLines(lines, j, k), Indent(lines[j])))
    && VersionsBefore(lines, j) == VersionsBefore(lines, k) > 0 && ContentsTrack(lines, j, k, s)
  }

  ghost predicate NothingOpen(lines: seq<string>, k: nat) { forall j: nat :: !IsOpen(lines, j, k) }

  ghost predicate Tracks(lines: seq<string>, k: nat, s: State)
    requires k <= |lines|
  {
    && FlagsTrack(lines, k, s)
    && if s.block.None? then NothingOpen(lines, k) && ContentsTrack(lines, k, k, s)
       else exists j: nat :: BlockTracks(lines, j, k, s)
  }

  /** The parser and the definitions agree on what a line does. */
  lemma Verdicts(lines: seq<string>, k: nat, s: State)
    requires k < |lines| && Counts(lines, k) && FlagsTrack(lines, k, s) && s.block.None?
    ensures var text, n := StripText(lines[k]), Indent(lines[k]);
      && Consistent(s)
      && Starts(s, text) == StartsVersion(lines, k) && Sets(s, text, n) == SetsSection(lines, k)
      && AddsFile(s, text, n) == IsFileLine(lines, k) && AddsCommand(s, text) == IsCommandLine(lines, k)
  {
    SomeVersionBegan(lines, k);
    OneSectionAtATime(lines, k);
  }

  lemma FlagsAfterLine(lines: seq<string>, k: nat, s: State)
    requires k < |lines| && Counts(lines, k) && FlagsTrack(lines, k, s) && s.block.None?
    ensures FlagsTrack(lines, k + 1, Structure(s, StripText(lines[k]), Indent(lines[k])))
  {
    var text, n := StripText(lines[k]), Indent(lines[k]);
    Verdicts(lines, k, s);
    StructureFlags(s, text, n);
    AfterOneMoreLine(lines, k);
  }

  lemma FlagsAfterNoLine(lines: seq<string>, k: nat, s: State)
    requires k < |lines| && !Counts(lines, k) && FlagsTrack(lines, k, s)
    ensures FlagsTrack(lines, k + 1, s)
  {
    assert !EndsSection(lines, k) && !BeginsSection(lines, k) && !SetsSection(lines, k);
    AfterOneMoreLine(lines, k);
  }

  // ----- Contents -----

  lemma {:induction false} BlockStartsEmpty(lines: seq<string>, j: nat, k: nat)
    requires j < |lines| && k <= |lines| && k <= j + 1
    ensures BlockLines(lines, j, k) == []
  {
    if k > 0 {
      BlockStartsEmpty(lines, j, k - 1);
    }
  }

  /** Commands whose blocks do not grow stay as they are. */
  lemma {:induction false} CommandsStay(lines: seq<string>, n: nat, k: nat, v: nat)
    requires n <= |lines| && k < |lines|
    requires forall i: nat | i < n :: BlockLines(lines, i, k + 1) == BlockLines(lines, i, k)
    ensures CommandsIn(lines, n, k + 1, v) == CommandsIn(lines, n, k, v)
  {
    if n > 0 {
      CommandsStay(lines, n - 1, k, v);
    }
  }

  lemma {:induction false} NothingInLaterVersions(lines: seq<string>, k: nat, m: nat, v: nat)
    requires k <= |lines| && m <= |lines| && VersionsBefore(lines, k) <= v
    ensures FilesIn(lines, k, v) == [] && CommandsIn(lines, k, m, v) == []
  {
    if k > 0 {
      NothingInLaterVersions(lines, k - 1, m, v);
    }
  }

  /** A line that does not count adds no command. */
  lemma NoCommandOnLine(lines: seq<string>, i: nat, next: nat, m: nat, v: nat)
    requires i + 1 == next <= |lines| && m <= |lines| && !Counts(lines, i)
    ensures CommandsIn(lines, next, m, v) == CommandsIn(lines, i, m, v)
  {
    assert !IsCommandLine(lines, i);
  }

  lemma {:induction false} NoCommandsInsideBlock(lines: seq<string>, j: nat, i: nat, k: nat, v: nat)
    requires IsOpen(lines, j, k) && j < i <= k
    ensures CommandsIn(lines, i, k, v) == CommandsIn(lines, j + 1, k, v)
    decreases i
  {
    if i > j + 1 {
      NothingCountsInside(lines, j, i - 1, k);
      NoCommandOnLine(lines, i - 1, i, k, v);
      NoCommandsInsideBlock(lines, j, i - 1, k, v);
    } else {
      assert i == j + 1;
    }
  }

  /** Closing the block adds its command where it belongs. */
  lemma FlushTracks(lines: seq<string>, j: nat, k: nat, s: State)
    requires k <= |lines| && BlockTracks(lines, j, k, s) && |s.plan.versions| == VersionsBefore(lines, k)
    ensures ContentsTrack(lines, k, k, Flush(s))
  {
    OpenersCount(lines, j, k);
    forall v: nat | v < |s.plan.versions|
      ensures Flush(s).plan.versions[v].allowedFiles == FilesIn(lines, k, v)
      ensures Flush(s).plan.versions[v].acceptanceCommands == CommandsIn(lines, k, k, v)
    {
      NoCommandsInsideBlock(lines, j, k, k, v);
    }
  }

  lemma OpenBeforeLine(lines: seq<string>, i: nat, k: nat)
    requires i < k < |lines| && IsOpen(lines, i, k + 1)
    ensures IsOpen(lines, i, k) && !Counts(lines, k) && (IsIgnored(lines[k]) || Indent(lines[k]) > Indent(lines[i]))
  {
    OpenersCount(lines, i, k + 1);
    NothingCountsInside(lines, i, k, k + 1);
  }

  lemma OpenAfterLine(lines: seq<string>, i: nat, k: nat)
    requires k < |lines| && IsOpen(lines, i, k) && (IsIgnored(lines[k]) || Indent(lines[k]) > Indent(lines[i]))
    ensures IsOpen(lines, i, k + 1)
  {
    OpenersCount(lines, i, k);
    assert OpensBlock(lines, i);
  }

  lemma BlockAfterLine(lines: seq<string>, i: nat, k: nat)
    requires i < k < |lines| && (IsIgnored(lines[k]) || !IsOpen(lines, i, k) || Counts(lines, k))
    ensures BlockLines(lines, i, k + 1) == BlockLines(lines, i, k)
  {
    if IsOpen(lines, i, k + 1) {
      OpenBeforeLine(lines, i, k);
    }
  }

  lemma ContentsStay(lines: seq<string>, n: nat, k: nat, s: State)
    requires n <= k < |lines| && !Counts(lines, k) && ContentsTrack(lines, n, k, s)
    requires forall i: nat | i < n :: IsIgnored(lines[k]) || !IsOpen(lines, i, k)
    ensures ContentsTrack(lines, n, k + 1, s)
  {
    forall i: nat | i < n ensures BlockLines(lines, i, k + 1) == BlockLines(lines, i, k) {
      BlockAfterLine(lines, i, k);
    }
    forall v: nat | v < |s.plan.versions| ensures CommandsIn(lines, n, k + 1, v) == CommandsIn(lines, n, k, v) {
      CommandsStay(lines, n, k, v);
    }
  }

  lemma NoOpenAfterLine(lines: seq<string>, k: nat)
    requires k < |lines| && (Counts(lines, k) || NothingOpen(lines, k)) && !OpensBlock(lines, k)
    ensures NothingOpen(lines, k + 1)
  {
    var next := k + 1;
    forall j: nat ensures !IsOpen(lines, j, next) {
      if j < k && IsOpen(lines, j, next) {
        OpenBeforeLine(lines, j, k);
      }
    }
  }

  /** Blank lines and comments change nothing. */
  lemma IgnoredLine(lines: seq<string>, k: nat, s: State)
    requires k < |lines| && IsIgnored(lines[k]) && Tracks(lines, k, s)
    ensures Tracks(lines, k + 1, s)
  {
    FlagsAfterNoLine(lines, k, s);
    if s.block.None? {
      NoOpenAfterLine(lines, k);
      ContentsStay(lines, k, k, s);
      assert ContentsTrack(lines, k + 1, k + 1, s);
    } else {
      var j: nat :| BlockTracks(lines, j, k, s);
      OpenAfterLine(lines, j, k);
      ContentsStay(lines, j, k, s);
      assert BlockTracks(lines, j, k + 1, s);
    }
  }

  /** A line of the open block is added to it. */
  lemma CapturedLine(lines: seq<string>, j: nat, k: nat, s: State)
    requires k < |lines| && !IsIgnored(lines[k]) && FlagsTrack(lines, k, s) && BlockTracks(lines, j, k, s)
    requires Indent(lines[k]) > Indent(lines[j])
    ensures Tracks(lines, k + 1, Step(s, lines[k]))
  {
    var t := Step(s, lines[k]);
    assert Captured(lines, k);
    FlagsAfterNoLine(lines, k, s);
    OpenAfterLine(lines, j, k);
    OpenersCount(lines, j, k);
    forall i: nat | i < j ensures !IsOpen(lines, i, k) {
      if IsOpen(lines, i, k) {
        OpenIsUnique(lines, i, j, k);
      }
    }
    ContentsStay(lines, j, k, s);
    assert BlockTracks(lines, j, k + 1, t);
  }

  lemma FilesOneMore(lines: seq<string>, k: nat, v: nat)
    requires k < |lines|
    ensures FilesIn(lines, k + 1, v) == WithOne(
      FilesIn(lines, k, v), v + 1 == VersionsBefore(lines, k) && IsFileLine(lines, k), FileOf(StripText(lines[k])))
  {
  }

  /** Where the list of complete commands ends after line k. */
  ghost function CompleteTo(lines: seq<string>, k: nat): (n: nat)
    requires k < |lines|
    ensures k <= n <= k + 1
  {
    if OpensBlock(lines, k) then k else k + 1
  }

  lemma CommandsOneMore(lines: seq<string>, k: nat, v: nat)
    requires k < |lines| && Counts(lines, k)
    ensures CommandsIn(lines, CompleteTo(lines, k), k + 1, v) == WithOne(CommandsIn(lines, k, k, v),
      v + 1 == VersionsBefore(lines, k) && IsCommandLine(lines, k) && CommandValue(lines[k]) != "|",
      YamlScalar(CommandValue(lines[k])))
  {
    forall i: nat | i < k ensures BlockLines(lines, i, k + 1) == BlockLines(lines, i, k) {
      BlockAfterLine(lines, i, k);
    }
    CommandsStay(lines, k, k, v);
  }

  lemma VersionTracks(lines: seq<string>, k: nat, s: State, v: nat)
    requires k <= |lines| && FlagsTrack(lines, k, s) && ContentsTrack(lines, k, k, s)
    ensures VersionAt(s, v).allowedFiles == FilesIn(lines, k, v)
    ensures VersionAt(s, v).acceptanceCommands == CommandsIn(lines, k, k, v)
  {
    if v >= |s.plan.versions| {
      NothingInLaterVersions(lines, k, k, v);
    }
  }

  /** Reading line k, with no block open, adds to the versions what the definitions say. */
  lemma ContentsAfterLine(lines: seq<string>, k: nat, s: State, v: nat, r: Version)
    requires k < |lines| && Counts(lines, k) && FlagsTrack(lines, k, s) && s.block.None?
      && ContentsTrack(lines, k, k, s)
    requires v < |Structure(s, StripText(lines[k]), Indent(lines[k])).plan.versions|
    requires r == Structure(s, StripText(lines[k]), Indent(lines[k])).plan.versions[v]
    ensures r.allowedFiles == FilesIn(lines, k + 1, v)
    ensures r.acceptanceCommands == CommandsIn(lines, CompleteTo(lines, k), k + 1, v)
  {
    Verdicts(lines, k, s);
    VersionTracks(lines, k, s, v);
    StructureContents(s, StripText(lines[k]), Indent(lines[k]), v, r);
    FilesOneMore(lines, k, v);
    CommandsOneMore(lines, k, v);
  }

  lemma AllContentsAfterLine(lines: seq<string>, k: nat, s: State, r: State)
    requires k < |lines| && Counts(lines, k) && FlagsTrack(lines, k, s) && s.block.None?
      && ContentsTrack(lines, k, k, s)
    requires r == Structure(s, StripText(lines[k]), Indent(lines[k]))
    ensures ContentsTrack(lines, CompleteTo(lines, k), k + 1, r)
  {
    forall v: nat | v < |r.plan.versions|
      ensures r.plan.versions[v].allowedFiles == FilesIn(lines, k + 1, v)
      ensures r.plan.versions[v].acceptanceCommands == CommandsIn(lines, CompleteTo(lines, k), k + 1, v)
    {
      ContentsAfterLine(lines, k, s, v, r.plan.versions[v]);
    }
  }

  /** The block after a line, with no block open before it. */
  lemma BlockAfterCountedLine(lines: seq<string>, k: nat, s: State, r: State)
    requires k < |lines| && Counts(lines, k) && FlagsTrack(lines, k, s) && s.block.None?
    requires r == Structure(s, StripText(lines[k]), Indent(lines[k]))
    ensures if OpensBlock(lines, k)
      then IsOpen(lines, k, k + 1) && r.block == Some(Block(BlockLines(lines, k, k + 1), Indent(lines[k])))
        && VersionsBefore(lines, k + 1) == VersionsBefore(lines, k) > 0
      else r.block.None? && NothingOpen(lines, k + 1)
  {
    Verdicts(lines, k, s);
    StructureBlock(s, StripText(lines[k]), Indent(lines[k]));
    if OpensBlock(lines, k) {
      BlockStartsEmpty(lines, k, k + 1);
      FirstCharacters(StripText(lines[k]));
    } else {
      NoOpenAfterLine(lines, k);
    }
  }

  lemma CountedLineWithoutBlock(lines: seq<string>, k: nat, s: State)
    requires k < |lines| && Counts(lines, k) && FlagsTrack(lines, k, s) && s.block.None?
      && ContentsTrack(lines, k, k, s)
    ensures Tracks(lines, k + 1, Structure(s, StripText(lines[k]), Indent(lines[k])))
  {
    var r := Structure(s, StripText(lines[k]), Indent(lines[k]));
    FlagsAfterLine(lines, k, s);
    AllContentsAfterLine(lines, k, s, r);
    BlockAfterCountedLine(lines, k, s, r);
    if OpensBlock(lines, k) {
      assert BlockTracks(lines, k, k + 1, r);
    }
  }

  lemma CountedLine(lines: seq<string>, k: nat, s: State)
    requires k < |lines| && Counts(lines, k) && Tracks(lines, k, s)
    ensures Tracks(lines, k + 1, Structure(Flush(s), StripText(lines[k]), Indent(lines[k])))
  {
    if s.block.Some? {
      var j: nat :| BlockTracks(lines, j, k, s);
      FlushTracks(lines, j, k, s);
    }
    CountedLineWithoutBlock(lines, k, Flush(s));
  }

  lemma StepTracks(lines: seq<string>, k: nat, s: State)
    requires k < |lines| && Tracks(lines, k, s)
    ensures Tracks(lines, k + 1, Step(s, lines[k]))
  {
    if IsIgnored(lines[k]) {
      IgnoredLine(lines, k, s);
    } else if s.block.Some? {
      var j: nat :| BlockTracks(lines, j, k, s);
      if Indent(lines[k]) > Indent(lines[j]) {
        CapturedLine(lines, j, k, s);
      } else {
        forall i: nat | IsOpen(lines, i, k) ensures Indent(lines[k]) <= Indent(lines[i]) {
          OpenIsUnique(lines, i, j, k);
        }
        CountedLine(lines, k, s);
      }
    } else {
      assert !Captured(lines, k);
      CountedLine(lines, k, s);
    }
  }

  lemma {:induction false} StepsTrack(lines: seq<string>, k: nat)
    requires k <= |lines|
    ensures Tracks(lines, k, Steps(START, lines[..k]))
  {
    if k == 0 {
      assert NothingOpen(lines, 0);
    } else {
      StepsTrack(lines, k - 1);
      assert lines[..k][..k - 1] == lines[..k - 1];
      StepTracks(lines, k - 1, Steps(START, lines[..k - 1]));
    }
  }

  /**
   * For any lines whatever: there are as many versions as lines that begin one, and each holds as allowed files the
   * items whose section line is `allowed_files:`, and as acceptance commands those `- command:` lines whose section
   * line is `acceptance_commands:`, in order, each with its block.
   */
  lemma WhatReachesTheVersions(lines: seq<string>)
    ensures var versions := Parse(lines).versions;
      && |versions| == VersionsBefore(lines, |lines|)
      && forall v: nat | v < |versions| ::
           && versions[v].allowedFiles == FilesIn(lines, |lines|, v)
           && versions[v].acceptanceCommands == CommandsIn(lines, |lines|, |lines|, v)
  {
    var k := |lines|;
    StepsTrack(lines, k);
    assert lines[..k] == lines;
    var s := Steps(START, lines);
    if s.block.Some? {
      var j: nat :| BlockTracks(lines, j, k, s);
      FlushTracks(lines, j, k, s);
    }
  }
}
