/** The line-driven parser for plan bundles, and the layout it reads back. */
module PlanBundle {
  import opened TextModel
  import opened PlanText

  datatype Version = Version(version: string, name: string, allowedFiles: seq<string>, acceptanceCommands: seq<string>)

  datatype Plan = Plan(projectName: string, planVersion: string, versions: seq<Version>)

  function YamlScalar(value: string): string {
    var stripped := StripText(value);
    if |stripped| >= 2
       && ((stripped[0] == '"' && stripped[|stripped| - 1] == '"')
            || (stripped[0] == '\'' && stripped[|stripped| - 1] == '\''))
    then stripped[1..|stripped| - 1]
    else stripped
  }

  /** A scalar as it may be written: in quotes of either kind, or bare. */
  datatype Written = InDouble(value: string) | InSingle(value: string) | Bare(value: string) {
    function Print(): string {
      match this
      case InDouble(value) => "\"" + value + "\""
      case InSingle(value) => "'" + value + "'"
      case Bare(value) => value
    }

    /** A bare value is tight and does not look like a quoted one. */
    ghost predicate Valid() {
      Bare? ==>
        && (value == "" || IsTight(value))
        && forall inner :: value != InDouble(inner).Print() && value != InSingle(inner).Print()
    }
  }

  lemma QuotedIsTight(w: Written)
    requires !w.Bare?
    ensures IsTight(w.Print()) && |w.Print()| >= 2 && w.Print()[1..|w.Print()| - 1] == w.value
    ensures w.Print()[0] == w.Print()[|w.Print()| - 1] == if w.InDouble? then '"' else '\''
  {
  }

  lemma QuotesAround(s: string, quote: char)
    requires |s| >= 2 && s[0] == quote && s[|s| - 1] == quote
    ensures s == [quote] + s[1..|s| - 1] + [quote]
  {
  }

  lemma LooksQuoted(s: string)
    requires |s| >= 2 && s[0] == s[|s| - 1] && (s[0] == '"' || s[0] == '\'')
    ensures exists inner :: s == InDouble(inner).Print() || s == InSingle(inner).Print()
  {
    QuotesAround(s, s[0]);
    assert s == InDouble(s[1..|s| - 1]).Print() || s == InSingle(s[1..|s| - 1]).Print();
  }

  lemma BareIsNotQuoted(w: Written)
    requires w.Bare? && w.Valid()
    ensures |w.value| >= 2 && w.value[0] == w.value[|w.value| - 1] ==> w.value[0] != '"' && w.value[0] != '\''
  {
    var s := w.value;
    if |s| >= 2 && s[0] == s[|s| - 1] && (s[0] == '"' || s[0] == '\'') {
      LooksQuoted(s);
    }
  }

  /** A scalar is read as the value it was written for, whatever white space stands around it. */
  lemma ScalarIsRead(before: string, w: Written, after: string)
    requires IsBlankText(before) && IsBlankText(after) && w.Valid()
    ensures YamlScalar(before + w.Print() + after) == w.value
  {
    var s := w.Print();
    if w.Bare? {
      StripPadded(before, s, after);
      BareIsNotQuoted(w);
    } else {
      QuotedIsTight(w);
      StripPadded(before, s, after);
    }
  }

  /** Every text is a scalar written in one of these ways, with white space around it. */
  lemma EveryScalarIsWritten(s: string) returns (before: string, w: Written, after: string)
    ensures s == before + w.Print() + after && IsBlankText(before) && IsBlankText(after) && w.Valid()
  {
    before, after := StripSplits(s);
    var core := StripText(s);
    if inner :| core == InDouble(inner).Print() {
      w := InDouble(inner);
    } else if inner :| core == InSingle(inner).Print() {
      w := InSingle(inner);
    } else {
      w := Bare(core);
    }
  }

  function Scalar(stripped: string): string { YamlScalar(StripText(AfterColon(stripped))) }

  function BlockText(lines: seq<string>): string { RStrip(JoinLines(lines)) }

  // ----- One line at a time -----

  /** A block being captured: its lines so far, and the indentation of the line that begun it. */
  datatype Block = Block(lines: seq<string>, baseIndent: nat)

  datatype State = State(
    plan: Plan,
    inVersions: bool,
    inAllowed: bool,
    inAcceptance: bool,
    commandIndent: int,
    block: Option<Block>)

  const START := State(Plan("", "", []), false, false, false, -1, None)

  function WithLast(plan: Plan, v: Version): Plan
    requires plan.versions != []
  {
    plan.(versions := plan.versions[|plan.versions| - 1 := v])
  }

  function LastVersion(plan: Plan): Version
    requires plan.versions != []
  {
    plan.versions[|plan.versions| - 1]
  }

  function WithCommand(plan: Plan, command: string): Plan {
    if plan.versions == [] then plan
    else
      var v := LastVersion(plan);
      WithLast(plan, v.(acceptanceCommands := v.acceptanceCommands + [command]))
  }

  /** Ends the block, if one is open. */
  function Flush(s: State): State {
    match s.block
    case None => s
    case Some(b) => s.(plan := WithCommand(s.plan, BlockText(b.lines)), block := None)
  }

  /** A line outside blocks. */
  function Structure(s: State, stripped: string, indent: nat): State {
    if "project_name:" <= stripped then s.(plan := s.plan.(projectName := Scalar(stripped)))
    else if "plan_version:" <= stripped then s.(plan := s.plan.(planVersion := Scalar(stripped)))
    else if stripped == "versions:" then s.(inVersions := true)
    else if !s.inVersions then s
    else if "- version:" <= stripped then
      s.(plan := s.plan.(versions := s.plan.versions + [Version(Scalar(stripped), "", [], [])]),
         inAllowed := false, inAcceptance := false, commandIndent := indent)
    else if s.plan.versions == [] then s
    else InVersion(s, stripped, indent)
  }

  /** A line of the current version. */
  function InVersion(s: State, stripped: string, indent: nat): State
    requires s.plan.versions != []
  {
    var t := if indent <= s.commandIndent && "- " <= stripped && !("- command:" <= stripped)
             then s.(inAllowed := false, inAcceptance := false) else s;
    var v := LastVersion(t.plan);
    if "name:" <= stripped then t.(plan := WithLast(t.plan, v.(name := Scalar(stripped))))
    else if stripped == "allowed_files:" then t.(inAllowed := true, inAcceptance := false)
    else if stripped == "acceptance_commands:" then t.(inAcceptance := true, inAllowed := false)
    else if t.inAllowed && "- " <= stripped then
      t.(plan := WithLast(t.plan, v.(allowedFiles := v.allowedFiles + [YamlScalar(StripText(stripped[2..]))])))
    else if t.inAcceptance && "- command:" <= stripped then
      var value := StripText(AfterColon(stripped));
      if value == "|" then t.(block := Some(Block([], indent)))
      else t.(plan := WithCommand(t.plan, YamlScalar(value)))
    else t
  }

  predicate IsIgnored(line: string) { StripText(line) == "" || "#" <= StripText(line) }

  function Step(s: State, line: string): State {
    if IsIgnored(line) then s
    else if s.block.Some? && Indent(line) > s.block.value.baseIndent then
      var b := s.block.value;
      var cut := b.baseIndent + 2;
      s.(block := Some(b.(lines := b.lines + [if |line| > cut then line[cut..] else ""])))
    else Structure(Flush(s), StripText(line), Indent(line))
  }

  function Steps(s: State, lines: seq<string>): State {
    if lines == [] then s else Step(Steps(s, lines[..|lines| - 1]), lines[|lines| - 1])
  }

  function Parse(lines: seq<string>): Plan { Flush(Steps(START, lines)).plan }

  /** The parser's variables while it goes over the lines. */
  class Parser {
    var plan: Plan
    var inVersions: bool
    var inAllowed: bool
    var inAcceptance: bool
    var commandIndent: int
    var blockCapture: bool
    var blockLines: seq<string>
    var blockBaseIndent: nat

    function AsState(): State reads this {
      State(plan, inVersions, inAllowed, inAcceptance, commandIndent,
        if blockCapture then Some(Block(blockLines, blockBaseIndent)) else None)
    }

    constructor ()
      ensures AsState() == START
    {
      plan := Plan("", "", []);
      inVersions, inAllowed, inAcceptance, commandIndent := false, false, false, -1;
      blockCapture, blockLines, blockBaseIndent := false, [], 0;
    }

    method CloseBlock()
      modifies this
      ensures AsState() == Flush(old(AsState()))
    {
      if blockCapture {
        plan := WithCommand(plan, RStrip(JoinLines(blockLines)));
        blockCapture := false;
        blockLines := [];
      }
    }

    method ReadLine(line: string)
      modifies this
      ensures AsState() == Step(old(AsState()), line)
    {
      var stripped := StripText(line);
      if stripped == "" || "#" <= stripped {
        return;
      }
      var indent := Indent(line);
      if blockCapture {
        if indent > blockBaseIndent {
          blockLines := blockLines + [if |line| > blockBaseIndent + 2 then line[blockBaseIndent + 2..] else ""];
          return;
        }
        CloseBlock();
      }
      ReadStructure(stripped, indent);
    }

    method ReadStructure(stripped: string, indent: nat)
      requires !blockCapture
      modifies this
      ensures AsState() == Structure(old(AsState()), stripped, indent)
    {
      if "project_name:" <= stripped {
        plan := plan.(projectName := YamlScalar(StripText(AfterColon(stripped))));
        return;
      }
      if "plan_version:" <= stripped {
        plan := plan.(planVersion := YamlScalar(StripText(AfterColon(stripped))));
        return;
      }
      if stripped == "versions:" {
        inVersions := true;
        return;
      }
      if !inVersions {
        return;
      }
      if "- version:" <= stripped {
        var value := StripText(AfterColon(stripped));
        plan := plan.(versions := plan.versions + [Version(YamlScalar(value), "", [], [])]);
        inAllowed, inAcceptance, commandIndent := false, false, indent;
        return;
      }
      if plan.versions == [] {
        return;
      }
      if indent <= commandIndent && "- " <= stripped && !("- command:" <= stripped) {
        inAllowed, inAcceptance := false, false;
      }
      var current := LastVersion(plan);
      if "name:" <= stripped {
        plan := WithLast(plan, current.(name := YamlScalar(StripText(AfterColon(stripped)))));
        return;
      }
      if stripped == "allowed_files:" {
        inAllowed, inAcceptance := true, false;
        return;
      }
      if stripped == "acceptance_commands:" {
        inAcceptance, inAllowed := true, false;
        return;
      }
      if inAllowed && "- " <= stripped {
        plan := WithLast(plan, current.(allowedFiles := current.allowedFiles + [YamlScalar(StripText(stripped[2..]))]));
        return;
      }
      if inAcceptance && "- command:" <= stripped {
        var value := StripText(AfterColon(stripped));
        if value == "|" {
          blockCapture, blockLines, blockBaseIndent := true, [], indent;
          return;
        }
        plan := WithCommand(plan, YamlScalar(value));
      }
    }
  }

  method ParsePlanBundleYamlSubset(text: string) returns (plan: Plan)
    ensures plan == Parse(SplitLines(text))
  {
    var lines := SplitLines(text);
    var parser := new Parser();
    for i := 0 to |lines|
      invariant fresh(parser) && parser.AsState() == Steps(START, lines[..i])
    {
      assert lines[..i + 1][..i] == lines[..i];
      parser.ReadLine(lines[i]);
    }
    assert lines[..|lines|] == lines;
    parser.CloseBlock();
    plan := parser.plan;
  }
}
