/** The layout of a printed plan bundle, and what the parser reads back from it. */
module PlanLayout {
  import opened TextModel
  import opened PlanText
  import opened PlanBundle

  // ----- The layout -----

  /** A command on one line with lines about it below, or a block. */
  datatype Command = Inline(text: string, details: seq<string>) | Lines(lines: seq<string>)

  /** An item of a list under another key: a text, or a command with lines about it. */
  datatype Item = Text(text: string) | CommandItem(command: string, details: seq<string>)

  /** A part of a version: one of the two keys with its list, or any other line with the list below it, if any. */
  datatype Section =
    | Allowed(files: seq<string>)
    | Acceptance(commands: seq<Command>)
    | Other(key: string, items: seq<Item>)

  /** Sections come in any order and any number. */
  datatype VersionDoc = VersionDoc(version: string, name: string, sections: seq<Section>)

  /** Policies and other settings come before the versions. */
  datatype PlanDoc = PlanDoc(projectName: string, planVersion: string, preamble: seq<string>, versions: seq<VersionDoc>)

  function Quoted(s: string): string { "\"" + s + "\"" }

  function Entry(key: string, value: string): string { key + ": " + Quoted(value) }

  /** The line of a block command: `- command: |`. */
  function Opener(): string { "- command" + ":" + " |" }

  function PrintCommand(c: Command): seq<string> {
    match c
    case Inline(text, details) => [Spaces(6) + Entry("- command", text)] + PrintBlock(details)
    case Lines(lines) => [Spaces(6) + Opener()] + PrintBlock(lines)
  }

  function PrintBlock(lines: seq<string>): seq<string> {
    if lines == [] then [] else PrintBlock(lines[..|lines| - 1]) + [Spaces(8) + lines[|lines| - 1]]
  }

  function PrintCommands(cs: seq<Command>): seq<string> {
    if cs == [] then [] else PrintCommands(cs[..|cs| - 1]) + PrintCommand(cs[|cs| - 1])
  }

  function FileLine(file: string): string { Spaces(6) + ("- " + Quoted(file)) }

  function PrintFiles(files: seq<string>): seq<string> {
    if files == [] then [] else PrintFiles(files[..|files| - 1]) + [FileLine(files[|files| - 1])]
  }

  function PrintItem(x: Item): seq<string> {
    match x
    case Text(text) => [FileLine(text)]
    case CommandItem(command, details) => PrintCommand(Inline(command, details))
  }

  function PrintItems(xs: seq<Item>): seq<string> {
    if xs == [] then [] else PrintItems(xs[..|xs| - 1]) + PrintItem(xs[|xs| - 1])
  }

  function PrintSection(x: Section): seq<string> {
    match x
    case Allowed(files) => [Spaces(4) + "allowed_files:"] + PrintFiles(files)
    case Acceptance(commands) => [Spaces(4) + "acceptance_commands:"] + PrintCommands(commands)
    case Other(key, items) => [Spaces(4) + key] + PrintItems(items)
  }

  function PrintSections(xs: seq<Section>): seq<string> {
    if xs == [] then [] else PrintSections(xs[..|xs| - 1]) + PrintSection(xs[|xs| - 1])
  }

  function PrintOpening(v: VersionDoc): seq<string> {
    [Spaces(2) + Entry("- version", v.version), Spaces(4) + Entry("name", v.name)]
  }

  function PrintVersion(v: VersionDoc): seq<string> { PrintOpening(v) + PrintSections(v.sections) }

  function PrintVersions(vs: seq<VersionDoc>): seq<string> {
    if vs == [] then [] else PrintVersions(vs[..|vs| - 1]) + PrintVersion(vs[|vs| - 1])
  }

  function Print(doc: PlanDoc): seq<string> {
    [Entry("project_name", doc.projectName), Entry("plan_version", doc.planVersion)]
    + doc.preamble + ["versions:"] + PrintVersions(doc.versions)
  }

  // ----- What a document means -----

  /** The lines of a block that survive: blank lines and lines that start with `#` are dropped. */
  function Kept(lines: seq<string>): seq<string> {
    if lines == [] then []
    else
      var front, last := Kept(lines[..|lines| - 1]), lines[|lines| - 1];
      if IsIgnored(last) then front else front + [last]
  }

  /** What the parser makes of a command. */
  function CommandText(c: Command): string {
    match c
    case Inline(text, _) => text
    case Lines(lines) => BlockText(Kept(lines))
  }

  function CommandTexts(cs: seq<Command>): seq<string> {
    if cs == [] then [] else CommandTexts(cs[..|cs| - 1]) + [CommandText(cs[|cs| - 1])]
  }

  /** Which list the parser is in: neither, or the one of the last of the two keys. */
  datatype Reading = Neither | Files | Commands

  function ReadingAfter(xs: seq<Section>): Reading {
    if xs == [] then Neither
    else match xs[|xs| - 1]
      case Allowed(_) => Files
      case Acceptance(_) => Commands
      case Other(_, _) => ReadingAfter(xs[..|xs| - 1])
  }

  /** A list item as an allowed file: whatever stands after its dash. */
  function AsFile(x: Item): string { if x.Text? then x.text else Entry("command", x.command) }

  function AsFiles(xs: seq<Item>): seq<string> {
    if xs == [] then [] else AsFiles(xs[..|xs| - 1]) + [AsFile(xs[|xs| - 1])]
  }

  /** The commands of a list. */
  function AsCommands(xs: seq<Item>): seq<string> {
    if xs == [] then []
    else
      var front, last := AsCommands(xs[..|xs| - 1]), xs[|xs| - 1];
      if last.CommandItem? then front + [last.command] else front
  }

  /** What a section adds to the allowed files, and to the commands, when it is read in some list. */
  function FilesFrom(x: Section, reading: Reading): seq<string> {
    match x
    case Allowed(files) => files
    case Acceptance(_) => []
    case Other(_, items) => if reading.Files? then AsFiles(items) else []
  }

  function CommandsFrom(x: Section, reading: Reading): seq<string> {
    match x
    case Allowed(_) => []
    case Acceptance(commands) => CommandTexts(commands)
    case Other(_, items) => if reading.Commands? then AsCommands(items) else []
  }

  function FilesOf(xs: seq<Section>): seq<string> {
    if xs == [] then []
    else FilesOf(xs[..|xs| - 1]) + FilesFrom(xs[|xs| - 1], ReadingAfter(xs[..|xs| - 1]))
  }

  function CommandsOf(xs: seq<Section>): seq<string> {
    if xs == [] then []
    else CommandsOf(xs[..|xs| - 1]) + CommandsFrom(xs[|xs| - 1], ReadingAfter(xs[..|xs| - 1]))
  }

  /** What the parser makes of a version: lists under other keys join the list of the last key before them. */
  function VersionOf(v: VersionDoc): Version { Version(v.version, v.name, FilesOf(v.sections), CommandsOf(v.sections)) }

  function VersionsOf(vs: seq<VersionDoc>): seq<Version> {
    if vs == [] then [] else VersionsOf(vs[..|vs| - 1]) + [VersionOf(vs[|vs| - 1])]
  }

  function PlanOf(doc: PlanDoc): Plan { Plan(doc.projectName, doc.planVersion, VersionsOf(doc.versions)) }

  /** A line the parser has no branch for: no key of its own and no list item. */
  predicate IsUnknownKey(line: string) {
    && IsTight(line) && line[0] != '#'
    && !("project_name:" <= line) && !("plan_version:" <= line) && !("name:" <= line) && !("- " <= line)
    && line != "versions:" && line != "allowed_files:" && line != "acceptance_commands:"
  }

  predicate IsUnknownTopLevel(line: string) {
    IsIgnored(line) || (
      !("project_name:" <= StripText(line)) && !("plan_version:" <= StripText(line)) && StripText(line) != "versions:")
  }

  predicate DetailsValid(details: seq<string>) { forall i | 0 <= i < |details| :: IsUnknownKey(details[i]) }

  predicate CommandValid(c: Command) { c.Inline? ==> DetailsValid(c.details) }

  predicate ItemValid(x: Item) { x.CommandItem? ==> DetailsValid(x.details) }

  predicate SectionValid(x: Section) {
    match x
    case Allowed(_) => true
    case Acceptance(commands) => forall i | 0 <= i < |commands| :: CommandValid(commands[i])
    case Other(key, items) => IsUnknownKey(key) && forall i | 0 <= i < |items| :: ItemValid(items[i])
  }

  predicate VersionValid(v: VersionDoc) { forall i | 0 <= i < |v.sections| :: SectionValid(v.sections[i]) }

  /** Other keys are really other keys. */
  predicate DocValid(doc: PlanDoc) {
    && (forall i | 0 <= i < |doc.preamble| :: IsUnknownTopLevel(doc.preamble[i]))
    && (forall i | 0 <= i < |doc.versions| :: VersionValid(doc.versions[i]))
  }

  // ----- Reading one printed line -----

  /** A structural line closes any block begun by a command and then acts on its text. */
  lemma StepOnStructure(s: State, n: nat, text: string)
    requires IsTight(text) && text[0] != '#'
    requires s.block.Some? ==> s.block.value.baseIndent == 6 && n <= 6
    ensures Step(s, Spaces(n) + text) == Structure(Flush(s), text, n)
  {
    StripIndented(n, text);
  }

  /** A printed `key: "value"` starts with its key and colon, and its value is read back. */
  lemma ReadEntry(key: string, value: string)
    requires ':' !in key
    ensures key + ":" <= Entry(key, value)
    ensures key != "" ==> Entry(key, value)[0] == key[0] && Entry(key, value)[|Entry(key, value)| - 1] == '"'
    ensures Scalar(Entry(key, value)) == value
    ensures StripText(AfterColon(Entry(key, value))) == Quoted(value)
  {
    var text := Entry(key, value);
    assert text == key + ":" + (" " + Quoted(value));
    AfterColonOf(key, " " + Quoted(value));
    StripOneSpace(Quoted(value));
    StripQuoted(value);
  }

  lemma StripOneSpace(s: string)
    requires IsTight(s)
    ensures StripText(" " + s) == s
  {
    assert Spaces(1) == " " + Spaces(0) == " ";
    StripIndented(1, s);
  }

  lemma StripQuoted(value: string)
    ensures StripText(Quoted(value)) == Quoted(value) && YamlScalar(Quoted(value)) == value
  {
    StripIndented(0, Quoted(value));
    assert Spaces(0) + Quoted(value) == Quoted(value);
  }

  lemma NotPrefix(p: string, s: string, i: nat)
    requires i < |p| && i < |s| && p[i] != s[i]
    ensures !(p <= s)
  {
  }

  lemma ReadProjectName(s: State, value: string)
    requires s.block.None?
    ensures Step(s, Entry("project_name", value)) == s.(plan := s.plan.(projectName := value))
  {
    var text := Entry("project_name", value);
    ReadEntry("project_name", value);
    assert "project_name" + ":" == "project_name:";
    assert Spaces(0) + text == text;
    StepOnStructure(s, 0, text);
  }

  lemma ReadPlanVersion(s: State, value: string)
    requires s.block.None?
    ensures Step(s, Entry("plan_version", value)) == s.(plan := s.plan.(planVersion := value))
  {
    var text := Entry("plan_version", value);
    ReadEntry("plan_version", value);
    assert "plan_version" + ":" == "plan_version:";
    assert Spaces(0) + text == text;
    StepOnStructure(s, 0, text);
    assert text[1] == 'l';
    NotPrefix("project_name:", text, 1);
  }

  /** A line that starts with a dash, or with a letter other than p, is none of the top-level keys with values. */
  lemma NotTopLevel(s: State, text: string, n: nat)
    requires text != "" && text[0] !in {'p', 'v'} && s.inVersions
    ensures Structure(s, text, n) ==
      if "- version:" <= text then
        s.(plan := s.plan.(versions := s.plan.versions + [Version(Scalar(text), "", [], [])]),
           inAllowed := false, inAcceptance := false, commandIndent := n)
      else if s.plan.versions == [] then s
      else InVersion(s, text, n)
  {
    NotPrefix("project_name:", text, 0);
    NotPrefix("plan_version:", text, 0);
  }

  /** Inside a version: what the printed lines find. */
  predicate Inside(s: State) {
    && s.inVersions && s.plan.versions != [] && s.commandIndent == 2
    && (s.block.Some? ==> s.block.value.baseIndent == 6)
  }

  lemma ReadVersion(s: State, value: string)
    requires s.inVersions && (s.block.Some? ==> s.block.value.baseIndent == 6)
    ensures var f := Flush(s);
      Step(s, Spaces(2) + Entry("- version", value)) ==
        f.(plan := f.plan.(versions := f.plan.versions + [Version(value, "", [], [])]),
           inAllowed := false, inAcceptance := false, commandIndent := 2)
  {
    var text := Entry("- version", value);
    ReadEntry("- version", value);
    assert "- version" + ":" == "- version:";
    StepOnStructure(s, 2, text);
    NotTopLevel(Flush(s), text, 2);
  }

  lemma ReadName(s: State, value: string)
    requires Inside(s)
    ensures var f := Flush(s);
      Step(s, Spaces(4) + Entry("name", value)) == f.(plan := WithLast(f.plan, LastVersion(f.plan).(name := value)))
  {
    var text := Entry("name", value);
    ReadEntry("name", value);
    assert "name" + ":" == "name:";
    StepOnStructure(s, 4, text);
    NotTopLevel(Flush(s), text, 4);
    NotPrefix("- version:", text, 0);
  }

  lemma ReadAllowedFiles(s: State)
    requires Inside(s)
    ensures Step(s, Spaces(4) + "allowed_files:") == Flush(s).(inAllowed := true, inAcceptance := false)
  {
    StepOnStructure(s, 4, "allowed_files:");
    NotTopLevel(Flush(s), "allowed_files:", 4);
    NotPrefix("- version:", "allowed_files:", 0);
    NotPrefix("name:", "allowed_files:", 0);
  }

  lemma ReadAcceptanceCommands(s: State)
    requires Inside(s)
    ensures Step(s, Spaces(4) + "acceptance_commands:") == Flush(s).(inAcceptance := true, inAllowed := false)
  {
    StepOnStructure(s, 4, "acceptance_commands:");
    NotTopLevel(Flush(s), "acceptance_commands:", 4);
    NotPrefix("- version:", "acceptance_commands:", 0);
    NotPrefix("name:", "acceptance_commands:", 0);
  }

  lemma ReadFile(s: State, value: string)
    requires Inside(s) && s.block.None? && s.inAllowed
    ensures Step(s, FileLine(value)) == s.(plan := WithFiles(s.plan, [value]))
  {
    var text := "- " + Quoted(value);
    assert text[2] == '"' && text[2..] == Quoted(value) && "- " <= text;
    StepOnStructure(s, 6, text);
    FileEntry(s, text);
    StripQuoted(value);
  }

  lemma FileEntry(s: State, text: string)
    requires Inside(s) && s.inAllowed && "- " <= text && |text| > 2 && text[2] != 'v'
    ensures Structure(s, text, 6) == s.(plan := WithFiles(s.plan, [YamlScalar(StripText(text[2..]))]))
  {
    assert text[0] == '-';
    NotTopLevel(s, text, 6);
    NotPrefix("- version:", text, 2);
    NotPrefix("name:", text, 0);
  }

  /** A command line opens a block or adds its value. */
  lemma CommandLine(s: State, text: string)
    requires Inside(s) && s.inAcceptance && !s.inAllowed && "- command:" <= text
    ensures Structure(s, text, 6) ==
      if StripText(AfterColon(text)) == "|" then s.(block := Some(Block([], 6)))
      else s.(plan := WithCommand(s.plan, YamlScalar(StripText(AfterColon(text)))))
  {
    assert text[0] == '-' && text[2] == 'c';
    NotTopLevel(s, text, 6);
    NotPrefix("- version:", text, 2);
    NotPrefix("name:", text, 0);
  }

  lemma ReadInlineCommand(s: State, value: string)
    requires Inside(s) && s.inAcceptance && !s.inAllowed
    ensures Step(s, Spaces(6) + Entry("- command", value)) == Flush(s).(plan := WithCommand(Flush(s).plan, value))
  {
    ReadEntry("- command", value);
    assert "- command" + ":" == "- command:";
    StepOnStructure(s, 6, Entry("- command", value));
    CommandLine(Flush(s), Entry("- command", value));
    StripQuoted(value);
    assert Quoted(value)[0] == '"';
  }

  lemma BlockMark()
    ensures "- command:" <= Opener() && StripText(AfterColon(Opener())) == "|"
    ensures IsTight(Opener()) && Opener()[0] == '-'
  {
    AfterColonOf("- command", " |");
    assert "- command" + ":" == "- command:";
    assert " " + "|" == " |";
    StripOneSpace("|");
  }

  lemma ReadBlockOpener(s: State)
    requires Inside(s) && s.inAcceptance && !s.inAllowed
    ensures Step(s, Spaces(6) + Opener()) == Flush(s).(block := Some(Block([], 6)))
  {
    BlockMark();
    StepOnStructure(s, 6, Opener());
    CommandLine(Flush(s), Opener());
  }

  lemma ReadBlockLine(s: State, line: string)
    requires s.block.Some? && s.block.value.baseIndent == 6
    ensures Step(s, Spaces(8) + line) ==
      if IsIgnored(line) then s else s.(block := Some(s.block.value.(lines := s.block.value.lines + [line])))
  {
    IndentOfSpaces(8, line);
    if !IsIgnored(line) {
      BlankOrNot(line);
    }
  }

  lemma LongerPrefix(p: string, q: string, s: string)
    requires p <= q && !(p <= s)
    ensures !(q <= s)
  {
    if |q| <= |s| {
      assert p == q[..|p|] && p != s[..|p|];
      var i :| 0 <= i < |p| && p[i] != s[i];
    }
  }

  lemma UnknownKeyChangesNothing(s: State, key: string, n: nat)
    requires Inside(s) && IsUnknownKey(key)
    ensures Structure(s, key, n) == s
  {
    LongerPrefix("- ", "- version:", key);
    LongerPrefix("- ", "- command:", key);
  }

  lemma ReadUnknownKey(s: State, key: string, n: nat)
    requires Inside(s) && IsUnknownKey(key) && (n <= 6 || s.block.None?)
    ensures Step(s, Spaces(n) + key) == Flush(s)
  {
    StepOnStructure(s, n, key);
    UnknownKeyChangesNothing(Flush(s), key, n);
  }

  lemma OtherItemChangesNothing(s: State, text: string)
    requires Inside(s) && !s.inAllowed && "- " <= text && |text| > 2 && text[2] == '"'
    ensures Structure(s, text, 6) == s
  {
    assert text[0] == '-';
    NotTopLevel(s, text, 6);
    NotPrefix("- version:", text, 2);
    NotPrefix("- command:", text, 2);
    NotPrefix("name:", text, 0);
  }

  /** A quoted list item outside `allowed_files:` is passed over. */
  lemma ReadOtherItem(s: State, value: string)
    requires Inside(s) && s.block.None? && !s.inAllowed
    ensures Step(s, FileLine(value)) == s
  {
    var text := "- " + Quoted(value);
    assert text[2] == '"' && text[|text| - 1] == '"';
    StepOnStructure(s, 6, text);
    OtherItemChangesNothing(s, text);
  }

  lemma ReadTopLevel(s: State, line: string)
    requires s.block.None? && !s.inVersions && IsUnknownTopLevel(line)
    ensures Step(s, line) == s
  {
  }

  // ----- Reading whole parts -----

  lemma {:induction false} StepsOfConcat(s: State, a: seq<string>, b: seq<string>)
    ensures Steps(s, a + b) == Steps(Steps(s, a), b)
    decreases |b|
  {
    if b == [] {
      assert a + b == a;
    } else {
      assert (a + b)[..|a + b| - 1] == a + b[..|b| - 1];
      StepsOfConcat(s, a, b[..|b| - 1]);
    }
  }

  lemma StepsOfOneMore(s: State, front: seq<string>, last: string)
    ensures Steps(s, front + [last]) == Step(Steps(s, front), last)
  {
    assert (front + [last])[..|front|] == front;
  }

  lemma StepsOfOne(s: State, line: string)
    ensures Steps(s, [line]) == Step(s, line)
  {
    assert [line][..0] == [];
  }

  lemma {:induction false} ReadBlock(s: State, lines: seq<string>)
    requires s.block == Some(Block([], 6))
    ensures Steps(s, PrintBlock(lines)) == s.(block := Some(Block(Kept(lines), 6)))
  {
    if lines != [] {
      var front, last := lines[..|lines| - 1], lines[|lines| - 1];
      ReadBlock(s, front);
      StepsOfConcat(s, PrintBlock(front), [Spaces(8) + last]);
      StepsOfOne(Steps(s, PrintBlock(front)), Spaces(8) + last);
      ReadBlockLine(Steps(s, PrintBlock(front)), last);
    }
  }

  lemma {:induction false} ReadDetails(s: State, details: seq<string>)
    requires Inside(s) && s.block.None? && DetailsValid(details)
    ensures Steps(s, PrintBlock(details)) == s
  {
    if details != [] {
      var front, last := details[..|details| - 1], details[|details| - 1];
      ReadDetails(s, front);
      StepsOfConcat(s, PrintBlock(front), [Spaces(8) + last]);
      StepsOfOne(s, Spaces(8) + last);
      ReadUnknownKey(s, last, 8);
    }
  }

  lemma ReadCommand(s: State, c: Command)
    requires Inside(s) && s.inAcceptance && !s.inAllowed && CommandValid(c)
    ensures var t := Steps(s, PrintCommand(c));
      && Inside(t) && t.inAcceptance && !t.inAllowed
      && Flush(t) == Flush(s).(plan := WithCommand(Flush(s).plan, CommandText(c)))
  {
    match c
    case Inline(text, details) =>
      var line := Spaces(6) + Entry("- command", text);
      StepsOfConcat(s, [line], PrintBlock(details));
      StepsOfOne(s, line);
      ReadInlineCommand(s, text);
      ReadDetails(Step(s, line), details);
    case Lines(lines) =>
      var opener := Spaces(6) + Opener();
      StepsOfConcat(s, [opener], PrintBlock(lines));
      StepsOfOne(s, opener);
      ReadBlockOpener(s);
      ReadBlock(Step(s, opener), lines);
  }

  function WithCommands(plan: Plan, texts: seq<string>): Plan {
    if plan.versions == [] then plan
    else
      var v := LastVersion(plan);
      WithLast(plan, v.(acceptanceCommands := v.acceptanceCommands + texts))
  }

  lemma {:induction false} ReadCommands(s: State, cs: seq<Command>)
    requires Inside(s) && s.inAcceptance && !s.inAllowed && forall i | 0 <= i < |cs| :: CommandValid(cs[i])
    ensures var t := Steps(s, PrintCommands(cs));
      && Inside(t) && t.inAcceptance && !t.inAllowed
      && Flush(t) == Flush(s).(plan := WithCommands(Flush(s).plan, CommandTexts(cs)))
  {
    if cs == [] {
      NothingAdded(Flush(s).plan);
    } else {
      var front, last := cs[..|cs| - 1], cs[|cs| - 1];
      ReadCommands(s, front);
      StepsOfConcat(s, PrintCommands(front), PrintCommand(last));
      ReadCommand(Steps(s, PrintCommands(front)), last);
      OneMoreCommand(Flush(s).plan, CommandTexts(front), CommandText(last));
    }
  }

  /** Replacing the last version twice is replacing it once. */
  lemma LastOfWith(plan: Plan, v: Version, w: Version)
    requires plan.versions != []
    ensures WithLast(plan, v).versions != [] && LastVersion(WithLast(plan, v)) == v
    ensures WithLast(WithLast(plan, v), w) == WithLast(plan, w)
  {
  }

  function WithFiles(plan: Plan, files: seq<string>): Plan
    requires plan.versions != []
  {
    WithLast(plan, LastVersion(plan).(allowedFiles := LastVersion(plan).allowedFiles + files))
  }

  lemma MoreFiles(plan: Plan, front: seq<string>, more: seq<string>)
    requires plan.versions != []
    ensures WithFiles(plan, front).versions != []
    ensures WithFiles(WithFiles(plan, front), more) == WithFiles(plan, front + more)
  {
    var v := LastVersion(plan);
    var w := v.(allowedFiles := v.allowedFiles + front);
    LastOfWith(plan, w, w.(allowedFiles := w.allowedFiles + more));
    assert v.allowedFiles + front + more == v.allowedFiles + (front + more);
  }

  lemma OneMoreCommand(plan: Plan, front: seq<string>, last: string)
    requires plan.versions != []
    ensures WithCommands(plan, front).versions != []
    ensures WithCommand(WithCommands(plan, front), last) == WithCommands(plan, front + [last])
  {
    var v := LastVersion(plan);
    var w := v.(acceptanceCommands := v.acceptanceCommands + front);
    LastOfWith(plan, w, w.(acceptanceCommands := w.acceptanceCommands + [last]));
    assert v.acceptanceCommands + front + [last] == v.acceptanceCommands + (front + [last]);
  }

  lemma NothingAdded(plan: Plan)
    requires plan.versions != []
    ensures WithFiles(plan, []) == plan && WithCommands(plan, []) == plan
  {
    var v := LastVersion(plan);
    assert v.allowedFiles + [] == v.allowedFiles && v.acceptanceCommands + [] == v.acceptanceCommands;
  }

  lemma ReadOneMoreFile(s: State, front: seq<string>, last: string)
    requires Inside(s) && s.block.None? && s.inAllowed
    ensures Step(s.(plan := WithFiles(s.plan, front)), FileLine(last)) == s.(plan := WithFiles(s.plan, front + [last]))
  {
    var t := s.(plan := WithFiles(s.plan, front));
    assert Inside(t);
    ReadFile(t, last);
    MoreFiles(s.plan, front, [last]);
  }

  lemma {:induction false} ReadFiles(s: State, files: seq<string>)
    requires Inside(s) && s.block.None? && s.inAllowed
    ensures Steps(s, PrintFiles(files)) == s.(plan := WithFiles(s.plan, files))
  {
    if files == [] {
      NothingAdded(s.plan);
    } else {
      var front, last := files[..|files| - 1], files[|files| - 1];
      ReadFiles(s, front);
      StepsOfOneMore(s, PrintFiles(front), FileLine(last));
      ReadOneMoreFile(s, front, last);
      assert files == front + [last];
    }
  }

  // ----- Lists under other keys -----

  lemma EntryWithoutDash(command: string)
    ensures Entry("- command", command)[2..] == Entry("command", command)
  {
    assert "- command" == "- " + "command";
    assert Entry("- command", command) == "- " + Entry("command", command);
  }

  lemma EntryAsScalar(command: string)
    ensures YamlScalar(StripText(Entry("command", command))) == Entry("command", command)
  {
    var file := Entry("command", command);
    ReadEntry("command", command);
    TightTextStays(file);
    assert file[0] == 'c';
  }

  lemma CommandEntry(command: string)
    ensures var text := Entry("- command", command);
      "- " <= text && text[0] == '-' && text[2] == 'c' && IsTight(text)
  {
    ReadEntry("- command", command);
    EntryWithoutDash(command);
  }

  lemma CommandChangesNothing(s: State, text: string)
    requires Inside(s) && !s.inAllowed && !s.inAcceptance && "- " <= text && |text| > 2 && text[2] == 'c'
    ensures Structure(s, text, 6) == s
  {
    assert text[0] == '-';
    NotTopLevel(s, text, 6);
    NotPrefix("- version:", text, 2);
    NotPrefix("name:", text, 0);
  }

  /** A command under another key, passed over while the parser is in no list. */
  lemma ReadCommandElsewhere(s: State, command: string)
    requires Inside(s) && s.block.None? && !s.inAllowed && !s.inAcceptance
    ensures Step(s, Spaces(6) + Entry("- command", command)) == s
  {
    CommandEntry(command);
    StepOnStructure(s, 6, Entry("- command", command));
    CommandChangesNothing(s, Entry("- command", command));
  }

  /** A command under another key, read as an allowed file. */
  lemma ReadCommandAsFile(s: State, command: string)
    requires Inside(s) && s.block.None? && s.inAllowed
    ensures Step(s, Spaces(6) + Entry("- command", command))
      == s.(plan := WithFiles(s.plan, [Entry("command", command)]))
  {
    var text := Entry("- command", command);
    CommandEntry(command);
    StepOnStructure(s, 6, text);
    FileEntry(s, text);
    EntryWithoutDash(command);
    EntryAsScalar(command);
  }

  function FlagsOf(s: State): Reading { if s.inAllowed then Files else if s.inAcceptance then Commands else Neither }

  function ItemFiles(x: Item, reading: Reading): seq<string> { if reading.Files? then [AsFile(x)] else [] }

  function ItemCommands(x: Item, reading: Reading): seq<string> {
    if reading.Commands? && x.CommandItem? then [x.command] else []
  }

  function WithBoth(plan: Plan, files: seq<string>, commands: seq<string>): Plan
    requires plan.versions != []
  {
    var v := LastVersion(plan);
    WithLast(plan, v.(allowedFiles := v.allowedFiles + files, acceptanceCommands := v.acceptanceCommands + commands))
  }

  predicate OneList(s: State) { !(s.inAllowed && s.inAcceptance) }

  lemma ReadTextItem(s: State, text: string)
    requires Inside(s) && s.block.None? && OneList(s)
    ensures Step(s, FileLine(text)) == s.(plan := WithBoth(s.plan, ItemFiles(Text(text), FlagsOf(s)), []))
  {
    BothNothing(s.plan, ItemFiles(Text(text), FlagsOf(s)), []);
    if s.inAllowed {
      ReadFile(s, text);
    } else {
      ReadOtherItem(s, text);
    }
  }

  lemma ReadCommandLine(s: State, command: string)
    requires Inside(s) && s.block.None? && OneList(s)
    ensures var x := CommandItem(command, []);
      Step(s, Spaces(6) + Entry("- command", command))
      == s.(plan := WithBoth(s.plan, ItemFiles(x, FlagsOf(s)), ItemCommands(x, FlagsOf(s))))
  {
    var x := CommandItem(command, []);
    BothNothing(s.plan, ItemFiles(x, FlagsOf(s)), ItemCommands(x, FlagsOf(s)));
    if s.inAllowed {
      ReadCommandAsFile(s, command);
    } else if s.inAcceptance {
      ReadInlineCommand(s, command);
    } else {
      ReadCommandElsewhere(s, command);
    }
  }

  lemma ReadItem(s: State, x: Item)
    requires Inside(s) && s.block.None? && OneList(s) && ItemValid(x)
    ensures Steps(s, PrintItem(x))
      == s.(plan := WithBoth(s.plan, ItemFiles(x, FlagsOf(s)), ItemCommands(x, FlagsOf(s))))
  {
    match x
    case Text(text) =>
      StepsOfOne(s, FileLine(text));
      ReadTextItem(s, text);
    case CommandItem(command, details) =>
      var line := Spaces(6) + Entry("- command", command);
      StepsOfConcat(s, [line], PrintBlock(details));
      StepsOfOne(s, line);
      ReadCommandLine(s, command);
      ReadDetails(Step(s, line), details);
  }

  /** What a list under another key adds. */
  function ListFiles(xs: seq<Item>, reading: Reading): seq<string> { if reading.Files? then AsFiles(xs) else [] }

  function ListCommands(xs: seq<Item>, reading: Reading): seq<string> {
    if reading.Commands? then AsCommands(xs) else []
  }

  lemma {:induction false} ReadItems(s: State, xs: seq<Item>)
    requires Inside(s) && s.block.None? && OneList(s) && forall i | 0 <= i < |xs| :: ItemValid(xs[i])
    ensures Steps(s, PrintItems(xs))
      == s.(plan := WithBoth(s.plan, ListFiles(xs, FlagsOf(s)), ListCommands(xs, FlagsOf(s))))
  {
    var reading := FlagsOf(s);
    if xs == [] {
      BothNothing(s.plan, [], []);
    } else {
      var front, last := xs[..|xs| - 1], xs[|xs| - 1];
      ReadItems(s, front);
      var t := Steps(s, PrintItems(front));
      StepsOfConcat(s, PrintItems(front), PrintItem(last));
      ReadItem(t, last);
      MoreOfBoth(s.plan, ListFiles(front, reading), ListCommands(front, reading),
        ItemFiles(last, reading), ItemCommands(last, reading));
      ListGrows(xs, reading);
    }
  }

  lemma ListGrows(xs: seq<Item>, reading: Reading)
    requires xs != []
    ensures var front, last := xs[..|xs| - 1], xs[|xs| - 1];
      && ListFiles(xs, reading) == ListFiles(front, reading) + ItemFiles(last, reading)
      && ListCommands(xs, reading) == ListCommands(front, reading) + ItemCommands(last, reading)
  {
  }

  // ----- Reading sections and versions -----

  lemma BothNothing(plan: Plan, files: seq<string>, commands: seq<string>)
    requires plan.versions != []
    ensures commands == [] ==> WithBoth(plan, files, commands) == WithFiles(plan, files)
    ensures files == [] ==> WithBoth(plan, files, commands) == WithCommands(plan, commands)
    ensures files == [] && commands == [] ==> WithBoth(plan, files, commands) == plan
    ensures forall command | commands == [command] :: WithCommands(plan, commands) == WithCommand(plan, command)
  {
    var v := LastVersion(plan);
    assert v.allowedFiles + [] == v.allowedFiles && v.acceptanceCommands + [] == v.acceptanceCommands;
  }

  lemma MoreOfBoth(plan: Plan, a: seq<string>, b: seq<string>, c: seq<string>, d: seq<string>)
    requires plan.versions != []
    ensures WithBoth(plan, a, b).versions != []
    ensures WithBoth(WithBoth(plan, a, b), c, d) == WithBoth(plan, a + c, b + d)
  {
    var v := LastVersion(plan);
    var w := v.(allowedFiles := v.allowedFiles + a, acceptanceCommands := v.acceptanceCommands + b);
    LastOfWith(plan, w, w.(allowedFiles := w.allowedFiles + c, acceptanceCommands := w.acceptanceCommands + d));
    assert v.allowedFiles + a + c == v.allowedFiles + (a + c);
    assert v.acceptanceCommands + b + d == v.acceptanceCommands + (b + d);
  }

  function ReadingIn(x: Section, reading: Reading): Reading {
    match x case Allowed(_) => Files case Acceptance(_) => Commands case Other(_, _) => reading
  }

  /** Reading a section, on top of whatever block the one before left open. */
  lemma ReadSection(s: State, x: Section)
    requires Inside(s) && OneList(s) && SectionValid(x)
    ensures var t, reading := Steps(s, PrintSection(x)), FlagsOf(s);
      && Inside(t) && OneList(t) && FlagsOf(t) == ReadingIn(x, reading)
      && Flush(t).plan == WithBoth(Flush(s).plan, FilesFrom(x, reading), CommandsFrom(x, reading))
  {
    match x
    case Allowed(files) => ReadAllowed(s, files);
    case Acceptance(commands) => ReadAcceptance(s, commands);
    case Other(key, items) => ReadOther(s, key, items);
  }

  lemma ReadAllowed(s: State, files: seq<string>)
    requires Inside(s)
    ensures var t := Steps(s, PrintSection(Allowed(files)));
      Inside(t) && t.inAllowed && !t.inAcceptance && Flush(t).plan == WithBoth(Flush(s).plan, files, [])
  {
    var line := Spaces(4) + "allowed_files:";
    StepsOfConcat(s, [line], PrintFiles(files));
    StepsOfOne(s, line);
    ReadAllowedFiles(s);
    ReadFiles(Step(s, line), files);
    BothNothing(Flush(s).plan, files, []);
  }

  lemma ReadAcceptance(s: State, commands: seq<Command>)
    requires Inside(s) && forall i | 0 <= i < |commands| :: CommandValid(commands[i])
    ensures var t := Steps(s, PrintSection(Acceptance(commands)));
      Inside(t) && t.inAcceptance && !t.inAllowed
        && Flush(t).plan == WithBoth(Flush(s).plan, [], CommandTexts(commands))
  {
    var line := Spaces(4) + "acceptance_commands:";
    StepsOfConcat(s, [line], PrintCommands(commands));
    StepsOfOne(s, line);
    ReadAcceptanceCommands(s);
    ReadCommands(Step(s, line), commands);
    BothNothing(Flush(s).plan, [], CommandTexts(commands));
  }

  lemma ReadOther(s: State, key: string, items: seq<Item>)
    requires Inside(s) && OneList(s) && IsUnknownKey(key) && forall i | 0 <= i < |items| :: ItemValid(items[i])
    ensures Steps(s, PrintSection(Other(key, items))) == Flush(s).(
      plan := WithBoth(Flush(s).plan, ListFiles(items, FlagsOf(s)), ListCommands(items, FlagsOf(s))))
  {
    StepsOfConcat(s, [Spaces(4) + key], PrintItems(items));
    StepsOfOne(s, Spaces(4) + key);
    ReadUnknownKey(s, key, 4);
    ReadItems(Flush(s), items);
  }

  lemma {:induction false} ReadSections(s: State, xs: seq<Section>)
    requires Inside(s) && s.block.None? && FlagsOf(s) == Neither && forall i | 0 <= i < |xs| :: SectionValid(xs[i])
    ensures var t := Steps(s, PrintSections(xs));
      && Inside(t) && OneList(t) && FlagsOf(t) == ReadingAfter(xs)
      && Flush(t).plan == WithBoth(s.plan, FilesOf(xs), CommandsOf(xs))
  {
    if xs == [] {
      BothNothing(s.plan, [], []);
    } else {
      var front, last := xs[..|xs| - 1], xs[|xs| - 1];
      ReadSections(s, front);
      StepsOfConcat(s, PrintSections(front), PrintSection(last));
      ReadSection(Steps(s, PrintSections(front)), last);
      var reading := ReadingAfter(front);
      MoreOfBoth(s.plan, FilesOf(front), CommandsOf(front), FilesFrom(last, reading), CommandsFrom(last, reading));
    }
  }

  /** Reading a printed version, on top of whatever block the version before left open. */
  lemma ReadWholeVersion(s: State, v: VersionDoc)
    requires s.inVersions && (s.block.Some? ==> s.block.value.baseIndent == 6) && VersionValid(v)
    ensures var t := Steps(s, PrintVersion(v));
      && Inside(t)
      && Flush(t).plan == Flush(s).plan.(versions := Flush(s).plan.versions + [VersionOf(v)])
  {
    var t := ReadVersionAndName(s, v);
    StepsOfConcat(s, PrintOpening(v), PrintSections(v.sections));
    ReadSections(t, v.sections);
    VersionAdded(Flush(s).plan, t.plan, v);
  }

  lemma VersionAdded(before: Plan, begun: Plan, v: VersionDoc)
    requires begun == before.(versions := before.versions + [Version(v.version, v.name, [], [])])
    ensures WithBoth(begun, FilesOf(v.sections), CommandsOf(v.sections))
      == before.(versions := before.versions + [VersionOf(v)])
  {
    var versions := before.versions;
    assert [] + FilesOf(v.sections) == FilesOf(v.sections) && [] + CommandsOf(v.sections) == CommandsOf(v.sections);
    assert (versions + [Version(v.version, v.name, [], [])])[|versions| := VersionOf(v)] == versions + [VersionOf(v)];
  }

  lemma FourParts(s: State, a: seq<string>, b: seq<string>, c: seq<string>, d: seq<string>)
    ensures Steps(s, a + b + c + d) == Steps(Steps(Steps(Steps(s, a), b), c), d)
  {
    StepsOfConcat(s, a, b);
    StepsOfConcat(s, a + b, c);
    StepsOfConcat(s, a + b + c, d);
  }

  lemma StepsOfTwo(s: State, first: string, second: string)
    ensures Steps(s, [first, second]) == Step(Step(s, first), second)
  {
    assert [first, second] == [first] + [second];
    StepsOfConcat(s, [first], [second]);
    StepsOfOne(s, first);
    StepsOfOne(Step(s, first), second);
  }

  lemma ReadVersionAndName(s: State, v: VersionDoc) returns (t: State)
    requires s.inVersions && (s.block.Some? ==> s.block.value.baseIndent == 6)
    ensures t == Steps(s, PrintOpening(v))
    ensures Inside(t) && t.block.None? && !t.inAllowed && !t.inAcceptance
    ensures t.plan == Flush(s).plan.(versions := Flush(s).plan.versions + [Version(v.version, v.name, [], [])])
  {
    var l0, l1 := Spaces(2) + Entry("- version", v.version), Spaces(4) + Entry("name", v.name);
    ReadVersion(s, v.version);
    ReadName(Step(s, l0), v.name);
    StepsOfTwo(s, l0, l1);
    t := Step(Step(s, l0), l1);
  }

  lemma {:induction false} ReadVersions(s: State, vs: seq<VersionDoc>)
    requires s.inVersions && s.block.None? && forall i | 0 <= i < |vs| :: VersionValid(vs[i])
    ensures var t := Steps(s, PrintVersions(vs));
      && t.inVersions && (t.block.Some? ==> t.block.value.baseIndent == 6)
      && Flush(t).plan == s.plan.(versions := s.plan.versions + VersionsOf(vs))
  {
    if vs == [] {
      assert s.plan.versions + [] == s.plan.versions;
    } else {
      var front, last := vs[..|vs| - 1], vs[|vs| - 1];
      ReadVersions(s, front);
      StepsOfConcat(s, PrintVersions(front), PrintVersion(last));
      ReadWholeVersion(Steps(s, PrintVersions(front)), last);
      assert s.plan.versions + VersionsOf(front) + [VersionOf(last)] == s.plan.versions + VersionsOf(vs);
    }
  }

  lemma {:induction false} ReadPreamble(s: State, lines: seq<string>)
    requires s.block.None? && !s.inVersions && forall i | 0 <= i < |lines| :: IsUnknownTopLevel(lines[i])
    ensures Steps(s, lines) == s
  {
    if lines != [] {
      ReadPreamble(s, lines[..|lines| - 1]);
      ReadTopLevel(s, lines[|lines| - 1]);
    }
  }

  function Header(doc: PlanDoc): seq<string> {
    [Entry("project_name", doc.projectName), Entry("plan_version", doc.planVersion)] + doc.preamble + ["versions:"]
  }

  lemma ReadHeader(doc: PlanDoc)
    requires DocValid(doc)
    ensures Steps(START, Header(doc)) == START.(plan := Plan(doc.projectName, doc.planVersion, []), inVersions := true)
  {
    var l0, l1 := Entry("project_name", doc.projectName), Entry("plan_version", doc.planVersion);
    assert [l0, l1] == [l0] + [l1];
    FourParts(START, [l0], [l1], doc.preamble, ["versions:"]);
    StepsOfOne(START, l0);
    ReadProjectName(START, doc.projectName);
    var s1 := Step(START, l0);
    StepsOfOne(s1, l1);
    ReadPlanVersion(s1, doc.planVersion);
    var s2 := Step(s1, l1);
    ReadPreamble(s2, doc.preamble);
    StepsOfOne(s2, "versions:");
    ReadVersionsKey(s2);
  }

  lemma ReadVersionsKey(s: State)
    requires s.block.None?
    ensures Step(s, "versions:") == s.(inVersions := true)
  {
    assert Spaces(0) + "versions:" == "versions:";
    StepOnStructure(s, 0, "versions:");
    NotPrefix("project_name:", "versions:", 0);
    NotPrefix("plan_version:", "versions:", 0);
  }

  /** What parsing a printed plan gives, whatever its texts. */
  lemma ParseOfPrint(doc: PlanDoc)
    requires DocValid(doc)
    ensures Parse(Print(doc)) == PlanOf(doc)
  {
    ReadHeader(doc);
    assert Print(doc) == Header(doc) + PrintVersions(doc.versions);
    StepsOfConcat(START, Header(doc), PrintVersions(doc.versions));
    ReadVersions(Steps(START, Header(doc)), doc.versions);
    assert [] + VersionsOf(doc.versions) == VersionsOf(doc.versions);
  }

  // ----- When blocks come back as they are -----

  /** The text a command was written from. */
  function Written(c: Command): string { if c.Inline? then c.text else JoinLines(c.lines) }

  /** A block without blank or comment lines whose last line has no trailing white space; or one empty line. */
  predicate IsClean(c: Command) {
    c.Lines? ==>
      || c.lines == [""]
      || ((forall i | 0 <= i < |c.lines| :: !IsIgnored(c.lines[i]))
          && (c.lines != [] ==> RStrip(c.lines[|c.lines| - 1]) == c.lines[|c.lines| - 1]))
  }

  lemma {:induction false} NothingDropped(lines: seq<string>)
    ensures |Kept(lines)| <= |lines|
    ensures |Kept(lines)| == |lines| <==> forall i | 0 <= i < |lines| :: !IsIgnored(lines[i])
    ensures |Kept(lines)| == |lines| ==> Kept(lines) == lines
  {
    if lines != [] {
      var front := lines[..|lines| - 1];
      NothingDropped(front);
      assert lines == front + [lines[|lines| - 1]];
    }
  }

  /** The length of the joined lines, counting a newline for each. */
  function Weight(lines: seq<string>): nat {
    if lines == [] then 0 else Weight(lines[..|lines| - 1]) + |lines[|lines| - 1]| + 1
  }

  lemma {:induction false} WeightOfJoined(lines: seq<string>)
    ensures lines != [] ==> |JoinLines(lines)| + 1 == Weight(lines)
  {
    if |lines| > 1 {
      WeightOfJoined(lines[..|lines| - 1]);
    } else if |lines| == 1 {
      assert lines[..0] == [];
    }
  }

  lemma {:induction false} DroppingLosesWeight(lines: seq<string>)
    ensures Weight(Kept(lines)) + (|lines| - |Kept(lines)|) <= Weight(lines)
  {
    if lines != [] {
      DroppingLosesWeight(lines[..|lines| - 1]);
    }
  }

  /** A command comes back exactly as it was written if and only if it is clean. */
  lemma CleanCommandsComeBack(c: Command)
    ensures CommandText(c) == Written(c) <==> IsClean(c)
  {
    if c.Lines? && c.lines != [] {
      var kept := Kept(c.lines);
      NothingDropped(c.lines);
      WeightOfJoined(c.lines);
      WeightOfJoined(kept);
      if kept == c.lines {
        var last := c.lines[|c.lines| - 1];
        assert !IsIgnored(last);
        BlankOrNot(last);
        RStripOfJoined(c.lines);
        assert c.lines != [""];
      } else {
        DroppingLosesWeight(c.lines);
        if c.lines == [""] {
          assert c.lines[..0] == [] && kept == [];
        } else if kept == [] {
          OnlyEmptyLineWeighsOne(c.lines);
        }
      }
    }
  }

  lemma OnlyEmptyLineWeighsOne(lines: seq<string>)
    requires lines != [] && lines != [""]
    ensures Weight(lines) > 1
  {
    if |lines| == 1 {
      assert lines == [lines[0]];
    } else {
      assert Weight(lines[..|lines| - 1]) >= 1;
    }
  }

  // ----- When a plan comes back as written -----

  function WrittenCommands(cs: seq<Command>): seq<string> {
    if cs == [] then [] else WrittenCommands(cs[..|cs| - 1]) + [Written(cs[|cs| - 1])]
  }

  function WrittenFilesFrom(x: Section): seq<string> { if x.Allowed? then x.files else [] }

  function WrittenCommandsFrom(x: Section): seq<string> { if x.Acceptance? then WrittenCommands(x.commands) else [] }

  function WrittenFilesOf(xs: seq<Section>): seq<string> {
    if xs == [] then [] else WrittenFilesOf(xs[..|xs| - 1]) + WrittenFilesFrom(xs[|xs| - 1])
  }

  function WrittenCommandsOf(xs: seq<Section>): seq<string> {
    if xs == [] then [] else WrittenCommandsOf(xs[..|xs| - 1]) + WrittenCommandsFrom(xs[|xs| - 1])
  }

  /** The version as its author wrote it: its allowed files are those under that key, and its commands too. */
  function WrittenVersion(v: VersionDoc): Version {
    Version(v.version, v.name, WrittenFilesOf(v.sections), WrittenCommandsOf(v.sections))
  }

  function WrittenVersions(vs: seq<VersionDoc>): seq<Version> {
    if vs == [] then [] else WrittenVersions(vs[..|vs| - 1]) + [WrittenVersion(vs[|vs| - 1])]
  }

  function WrittenPlan(doc: PlanDoc): Plan { Plan(doc.projectName, doc.planVersion, WrittenVersions(doc.versions)) }

  /** A list under another key that is read as allowed files has to be empty. */
  predicate FilesFaithfulAt(x: Section, reading: Reading) { x.Other? && reading.Files? ==> x.items == [] }

  /** One that is read as acceptance commands has to hold no command; and every acceptance command has to be clean. */
  predicate CommandsFaithfulAt(x: Section, reading: Reading) {
    match x
    case Allowed(_) => true
    case Acceptance(commands) => AllClean(commands)
    case Other(_, items) => reading.Commands? ==> AsCommands(items) == []
  }

  predicate FilesAreFaithful(xs: seq<Section>) {
    forall i | 0 <= i < |xs| :: FilesFaithfulAt(xs[i], ReadingAfter(xs[..i]))
  }

  predicate CommandsAreFaithful(xs: seq<Section>) {
    forall i | 0 <= i < |xs| :: CommandsFaithfulAt(xs[i], ReadingAfter(xs[..i]))
  }

  predicate AllClean(cs: seq<Command>) { forall i | 0 <= i < |cs| :: IsClean(cs[i]) }

  predicate IsFaithful(v: VersionDoc) { FilesAreFaithful(v.sections) && CommandsAreFaithful(v.sections) }

  lemma AllCleanOneMore(cs: seq<Command>)
    requires cs != []
    ensures AllClean(cs) <==> AllClean(cs[..|cs| - 1]) && IsClean(cs[|cs| - 1])
  {
    var front := cs[..|cs| - 1];
    assert forall i | 0 <= i < |front| :: cs[i] == front[i];
  }

  lemma {:induction false} CommandsComeBack(cs: seq<Command>)
    ensures |CommandTexts(cs)| == |WrittenCommands(cs)| == |cs|
    ensures CommandTexts(cs) == WrittenCommands(cs) <==> AllClean(cs)
  {
    if cs != [] {
      var front, last := cs[..|cs| - 1], cs[|cs| - 1];
      CommandsComeBack(front);
      CleanCommandsComeBack(last);
      LastEqual(CommandTexts(front), CommandText(last), WrittenCommands(front), Written(last));
      AllCleanOneMore(cs);
    }
  }

  lemma LastEqual<T>(a: seq<T>, x: T, b: seq<T>, y: T)
    requires |a| == |b|
    ensures a + [x] == b + [y] <==> a == b && x == y
  {
    if a + [x] == b + [y] {
      assert a == (a + [x])[..|a|] == (b + [y])[..|b|] == b && (a + [x])[|a|] == (b + [y])[|b|];
    }
  }

  lemma JoinedEqual(a: seq<string>, c: seq<string>, b: seq<string>, d: seq<string>)
    requires |a| >= |b| && |c| >= |d|
    ensures a + c == b + d <==> a == b && c == d
  {
    if a + c == b + d {
      assert |a| + |c| == |a + c| == |b + d| == |b| + |d|;
      assert a == (a + c)[..|a|] == (b + d)[..|b|] == b && c == (a + c)[|a|..] == (b + d)[|b|..] == d;
    }
  }

  lemma {:induction false} AsFilesLength(xs: seq<Item>)
    ensures |AsFiles(xs)| == |xs|
  {
    if xs != [] {
      AsFilesLength(xs[..|xs| - 1]);
    }
  }

  lemma FilesFaithfulOneMore(front: seq<Section>, last: Section)
    ensures FilesAreFaithful(front + [last]) <==> FilesAreFaithful(front) && FilesFaithfulAt(last, ReadingAfter(front))
  {
    var xs := front + [last];
    assert xs[..|front|] == front;
    forall i | 0 <= i < |front| ensures xs[..i] == front[..i] && xs[i] == front[i] {
    }
    if FilesAreFaithful(xs) {
      assert FilesFaithfulAt(xs[|front|], ReadingAfter(xs[..|front|]));
      forall i | 0 <= i < |front| ensures FilesFaithfulAt(front[i], ReadingAfter(front[..i])) {
        assert FilesFaithfulAt(xs[i], ReadingAfter(xs[..i]));
      }
    }
  }

  lemma CommandsFaithfulOneMore(front: seq<Section>, last: Section)
    ensures CommandsAreFaithful(front + [last])
      <==> CommandsAreFaithful(front) && CommandsFaithfulAt(last, ReadingAfter(front))
  {
    var xs := front + [last];
    assert xs[..|front|] == front;
    forall i | 0 <= i < |front| ensures xs[..i] == front[..i] && xs[i] == front[i] {
    }
    if CommandsAreFaithful(xs) {
      assert CommandsFaithfulAt(xs[|front|], ReadingAfter(xs[..|front|]));
      forall i | 0 <= i < |front| ensures CommandsFaithfulAt(front[i], ReadingAfter(front[..i])) {
        assert CommandsFaithfulAt(xs[i], ReadingAfter(xs[..i]));
      }
    }
  }

  lemma SectionComesBack(x: Section, reading: Reading)
    ensures |FilesFrom(x, reading)| >= |WrittenFilesFrom(x)|
    ensures FilesFrom(x, reading) == WrittenFilesFrom(x) <==> FilesFaithfulAt(x, reading)
    ensures |CommandsFrom(x, reading)| >= |WrittenCommandsFrom(x)|
    ensures CommandsFrom(x, reading) == WrittenCommandsFrom(x) <==> CommandsFaithfulAt(x, reading)
  {
    match x
    case Allowed(_) =>
    case Acceptance(commands) => CommandsComeBack(commands);
    case Other(_, items) => AsFilesLength(items);
  }

  lemma OneSectionMore(front: seq<Section>, last: Section)
    ensures var xs, reading := front + [last], ReadingAfter(front);
      && FilesOf(xs) == FilesOf(front) + FilesFrom(last, reading)
      && CommandsOf(xs) == CommandsOf(front) + CommandsFrom(last, reading)
      && WrittenFilesOf(xs) == WrittenFilesOf(front) + WrittenFilesFrom(last)
      && WrittenCommandsOf(xs) == WrittenCommandsOf(front) + WrittenCommandsFrom(last)
      && ReadingAfter(xs) == ReadingIn(last, reading)
  {
    var xs := front + [last];
    assert xs[..|xs| - 1] == front && xs[|xs| - 1] == last;
  }

  lemma {:induction false} FilesComeBack(xs: seq<Section>)
    ensures |FilesOf(xs)| >= |WrittenFilesOf(xs)|
    ensures FilesOf(xs) == WrittenFilesOf(xs) <==> FilesAreFaithful(xs)
  {
    if xs != [] {
      var front, last := xs[..|xs| - 1], xs[|xs| - 1];
      var reading := ReadingAfter(front);
      FilesComeBack(front);
      assert xs == front + [last];
      OneSectionMore(front, last);
      FilesFaithfulOneMore(front, last);
      SectionComesBack(last, reading);
      JoinedEqual(FilesOf(front), FilesFrom(last, reading), WrittenFilesOf(front), WrittenFilesFrom(last));
    }
  }

  lemma {:induction false} CommandsOfSectionsComeBack(xs: seq<Section>)
    ensures |CommandsOf(xs)| >= |WrittenCommandsOf(xs)|
    ensures CommandsOf(xs) == WrittenCommandsOf(xs) <==> CommandsAreFaithful(xs)
  {
    if xs != [] {
      var front, last := xs[..|xs| - 1], xs[|xs| - 1];
      var reading := ReadingAfter(front);
      CommandsOfSectionsComeBack(front);
      assert xs == front + [last];
      OneSectionMore(front, last);
      CommandsFaithfulOneMore(front, last);
      SectionComesBack(last, reading);
      JoinedEqual(CommandsOf(front), CommandsFrom(last, reading), WrittenCommandsOf(front), WrittenCommandsFrom(last));
    }
  }

  lemma VersionComesBack(v: VersionDoc)
    ensures VersionOf(v) == WrittenVersion(v) <==> IsFaithful(v)
  {
    FilesComeBack(v.sections);
    CommandsOfSectionsComeBack(v.sections);
  }

  predicate AllFaithful(vs: seq<VersionDoc>) { forall i | 0 <= i < |vs| :: IsFaithful(vs[i]) }

  lemma AllFaithfulOneMore(vs: seq<VersionDoc>)
    requires vs != []
    ensures AllFaithful(vs) <==> AllFaithful(vs[..|vs| - 1]) && IsFaithful(vs[|vs| - 1])
  {
    var front := vs[..|vs| - 1];
    assert forall i | 0 <= i < |front| :: vs[i] == front[i];
  }

  lemma {:induction false} VersionsComeBack(vs: seq<VersionDoc>)
    ensures |VersionsOf(vs)| == |WrittenVersions(vs)| == |vs|
    ensures VersionsOf(vs) == WrittenVersions(vs) <==> AllFaithful(vs)
  {
    if vs != [] {
      var front, last := vs[..|vs| - 1], vs[|vs| - 1];
      VersionsComeBack(front);
      VersionComesBack(last);
      LastEqual(VersionsOf(front), VersionOf(last), WrittenVersions(front), WrittenVersion(last));
      AllFaithfulOneMore(vs);
    }
  }

  /**
   * Parsing the printed lines of a plan gives the plan as it was written if and only if every command is clean and in
   * every version no list under another key stands where it is read as allowed files, and none with commands where it
   * is read as acceptance commands.
   */
  lemma ParseUndoesPrint(doc: PlanDoc)
    requires DocValid(doc)
    ensures Parse(Print(doc)) == WrittenPlan(doc) <==> AllFaithful(doc.versions)
  {
    ParseOfPrint(doc);
    VersionsComeBack(doc.versions);
  }

  /** The same from the text of the file, for lines without line breaks of their own. */
  lemma ParseUndoesPrintedText(doc: PlanDoc)
    requires DocValid(doc) && forall i | 0 <= i < |Print(doc)| :: IsOneLine(Print(doc)[i])
    ensures Parse(SplitLines(Terminated(Print(doc)))) == WrittenPlan(doc) <==> AllFaithful(doc.versions)
  {
    SplitUndoesTerminated(Print(doc));
    ParseUndoesPrint(doc);
  }

  // ----- Lists under other keys -----

  lemma {:induction false} VersionAt(vs: seq<VersionDoc>, k: nat)
    requires k < |vs|
    ensures |VersionsOf(vs)| == |vs| && VersionsOf(vs)[k] == VersionOf(vs[k])
  {
    VersionsComeBack(vs);
    if k < |vs| - 1 {
      VersionAt(vs[..|vs| - 1], k);
    }
  }

  /**
   * Each list of a version comes out as written exactly when no list under another key stands where it is read as
   * more of it: after the key of that list, and before the other of the two keys.
   */
  lemma ListsComeBack(doc: PlanDoc, k: nat)
    requires DocValid(doc) && k < |doc.versions|
    ensures var xs, parsed := doc.versions[k].sections, Parse(Print(doc));
      && k < |parsed.versions|
      && parsed.versions[k].allowedFiles == FilesOf(xs) && parsed.versions[k].acceptanceCommands == CommandsOf(xs)
      && (parsed.versions[k].allowedFiles == WrittenFilesOf(xs) <==> FilesAreFaithful(xs))
      && (parsed.versions[k].acceptanceCommands == WrittenCommandsOf(xs) <==> CommandsAreFaithful(xs))
  {
    ParseOfPrint(doc);
    VersionAt(doc.versions, k);
    FilesComeBack(doc.versions[k].sections);
    CommandsOfSectionsComeBack(doc.versions[k].sections);
  }

  lemma UnknownKeyFor(key: string, c: char)
    requires IsTight(key) && key[0] == c && c !in {'#', 'p', 'n', '-', 'v', 'a'}
    ensures IsUnknownKey(key)
  {
    NotPrefix("name:", key, 0);
    NotPrefix("project_name:", key, 0);
    NotPrefix("plan_version:", key, 0);
    NotPrefix("- ", key, 0);
  }

  lemma ListsOfOne(a: Section)
    ensures FilesOf([a]) == FilesFrom(a, Neither) && CommandsOf([a]) == CommandsFrom(a, Neither)
    ensures ReadingAfter([a]) == ReadingIn(a, Neither)
  {
    assert [a][..0] == [];
  }

  lemma ListsOfTwo(a: Section, b: Section)
    ensures var first := ReadingIn(a, Neither);
      && FilesOf([a, b]) == FilesFrom(a, Neither) + FilesFrom(b, first)
      && CommandsOf([a, b]) == CommandsFrom(a, Neither) + CommandsFrom(b, first)
      && ReadingAfter([a, b]) == ReadingIn(b, first)
  {
    assert [a] + [b] == [a, b];
    ListsOfOne(a);
    OneSectionMore([a], b);
  }

  lemma ListsOfThree(a: Section, b: Section, c: Section)
    ensures var first := ReadingIn(a, Neither);
      && FilesOf([a, b, c]) == FilesFrom(a, Neither) + FilesFrom(b, first) + FilesFrom(c, ReadingIn(b, first))
      && CommandsOf([a, b, c])
           == CommandsFrom(a, Neither) + CommandsFrom(b, first) + CommandsFrom(c, ReadingIn(b, first))
  {
    assert [a, b] + [c] == [a, b, c];
    ListsOfTwo(a, b);
    OneSectionMore([a, b], c);
  }

  /** A version with three sections. */
  function Demo(a: Section, b: Section, c: Section): PlanDoc {
    PlanDoc("demo", "0.1.0", [""], [VersionDoc("v0.1", "skeleton", [a, b, c])])
  }

  lemma ReadDemo(a: Section, b: Section, c: Section)
    requires SectionValid(a) && SectionValid(b) && SectionValid(c)
    ensures var parsed := Parse(Print(Demo(a, b, c)));
      && |parsed.versions| == 1
      && parsed.versions[0].allowedFiles == FilesOf([a, b, c])
           && parsed.versions[0].acceptanceCommands == CommandsOf([a, b, c])
  {
    var doc := Demo(a, b, c);
    assert StripText("") == "";
    assert DocValid(doc);
    ListsComeBack(doc, 0);
    ParseOfPrint(doc);
    VersionsComeBack(doc.versions);
  }

  lemma OneItem(x: Item)
    ensures AsFiles([x]) == [AsFile(x)] && AsCommands([x]) == if x.CommandItem? then [x.command] else []
  {
    assert [x][..0] == [];
  }

  lemma OneCommand(command: string)
    ensures CommandTexts([Inline(command, [])]) == [command]
  {
    assert [Inline(command, [])][..0] == [];
  }

  lemma FilesOfThree(a: Section, b: Section, c: Section, file: string, other: string)
    requires var first := ReadingIn(a, Neither);
      FilesFrom(a, Neither) + FilesFrom(b, first) + FilesFrom(c, ReadingIn(b, first)) == [file, other]
    requires SectionValid(a) && SectionValid(b) && SectionValid(c)
    ensures var parsed := Parse(Print(Demo(a, b, c)));
      |parsed.versions| == 1 && parsed.versions[0].allowedFiles == [file, other]
  {
    ReadDemo(a, b, c);
    ListsOfThree(a, b, c);
  }

  /** Another list between the allowed files and the commands. */
  lemma ListBetween(key: string, file: string, other: string, command: string)
    requires IsUnknownKey(key)
    ensures var parsed := Parse(Print(Demo(
        Allowed([file]), Other(key, [Text(other)]), Acceptance([Inline(command, [])]))));
      |parsed.versions| == 1 && parsed.versions[0].allowedFiles == [file, other]
  {
    OneItem(Text(other));
    FilesOfThree(Allowed([file]), Other(key, [Text(other)]), Acceptance([Inline(command, [])]), file, other);
  }

  /** Another list after the allowed files, which stand after the commands. */
  lemma ListAfterFiles(key: string, file: string, other: string, command: string)
    requires IsUnknownKey(key)
    ensures var parsed := Parse(Print(Demo(
        Acceptance([Inline(command, [])]), Allowed([file]), Other(key, [Text(other)]))));
      |parsed.versions| == 1 && parsed.versions[0].allowedFiles == [file, other]
  {
    OneItem(Text(other));
    FilesOfThree(Acceptance([Inline(command, [])]), Allowed([file]), Other(key, [Text(other)]), file, other);
  }

  lemma CommandsOfThree(a: Section, b: Section, c: Section, command: string, other: string)
    requires var first := ReadingIn(a, Neither);
      CommandsFrom(a, Neither) + CommandsFrom(b, first) + CommandsFrom(c, ReadingIn(b, first)) == [command, other]
    requires SectionValid(a) && SectionValid(b) && SectionValid(c)
    ensures var parsed := Parse(Print(Demo(a, b, c)));
      |parsed.versions| == 1 && parsed.versions[0].acceptanceCommands == [command, other]
  {
    ReadDemo(a, b, c);
    ListsOfThree(a, b, c);
  }

  /** Another list of commands after the acceptance commands. */
  lemma CommandsAfterCommands(key: string, file: string, command: string, other: string)
    requires IsUnknownKey(key)
    ensures var parsed := Parse(Print(Demo(
        Allowed([file]), Acceptance([Inline(command, [])]), Other(key, [CommandItem(other, [])]))));
      |parsed.versions| == 1 && parsed.versions[0].acceptanceCommands == [command, other]
  {
    OneItem(CommandItem(other, []));
    OneCommand(command);
    CommandsOfThree(
      Allowed([file]), Acceptance([Inline(command, [])]), Other(key, [CommandItem(other, [])]), command, other);
  }

  /** In the template's own order of keys the files it forbids are read as allowed. */
  lemma ForbiddenFilesComeOutAllowed()
    ensures var parsed := Parse(Print(Demo(
        Allowed(["README.md"]), Other("forbidden_files:", [Text(".env*")]), Acceptance([Inline("pytest", [])]))));
      |parsed.versions| == 1 && parsed.versions[0].allowedFiles == ["README.md", ".env*"]
  {
    UnknownKeyFor("forbidden_files:", 'f');
    ListBetween("forbidden_files:", "README.md", ".env*", "pytest");
  }

  /** And with the commands first too, where nothing stands between the allowed files and the commands. */
  lemma ForbiddenFilesAfterTheCommandsComeOutAllowed()
    ensures var parsed := Parse(Print(Demo(
        Acceptance([Inline("pytest", [])]), Allowed(["README.md"]), Other("forbidden_files:", [Text(".env*")]))));
      |parsed.versions| == 1 && parsed.versions[0].allowedFiles == ["README.md", ".env*"]
  {
    UnknownKeyFor("forbidden_files:", 'f');
    ListAfterFiles("forbidden_files:", "README.md", ".env*", "pytest");
  }

  /** Commands under another key after the acceptance commands are read as acceptance commands. */
  lemma RollbackCommandsComeOutAsAcceptance()
    ensures var parsed := Parse(Print(Demo(Allowed(["README.md"]), Acceptance([Inline("pytest", [])]),
        Other("rollback_commands:", [CommandItem("git revert HEAD", [])]))));
      |parsed.versions| == 1 && parsed.versions[0].acceptanceCommands == ["pytest", "git revert HEAD"]
  {
    UnknownKeyFor("rollback_commands:", 'r');
    CommandsAfterCommands("rollback_commands:", "README.md", "pytest", "git revert HEAD");
  }
}
