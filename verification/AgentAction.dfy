/** Normalising the action selected for an agent: its tool, its arguments, and the fields filled in. */
module AgentAction {
  import opened TextModel
  import opened AgentProjection
  import opened AgentBinding

  /** Python's truth value of a field, false when it is missing. */
  ghost predicate Truthy(fields: Fields, key: Key, known: Snapshot)
  {
    key in fields && match fields[key]
      case VNull => false
      case VBool(b) => b
      case VNumber(n) => n != 0
      case VText(s) => s != ""
      case VList(items) => items != []
      case VMap(e) => e in known && known[e] != map[]
  }

  method IsTruthy(fields: Fields, key: Key, ghost known: Snapshot) returns (b: bool)
    requires Holds(known) && (key in fields ==> ValueKnown(fields[key], known))
    ensures b == Truthy(fields, key, known)
  {
    if key !in fields {
      return false;
    }
    match fields[key]
    case VNull => b := false;
    case VBool(flag) => b := flag;
    case VNumber(n) => b := n != 0;
    case VText(s) => b := s != "";
    case VList(items) => b := |items| != 0;
    case VMap(e) => b := |e.fields.Keys| != 0;
      assert e.fields.Keys == {} <==> e.fields == map[];
  }

  /** Nothing, false, zero and whatever is empty are false; so is a missing field. */
  lemma TruthyMeans(fields: Fields, key: Key, known: Snapshot)
    requires key in fields ==> ValueKnown(fields[key], known)
    ensures !Truthy(fields, key, known) <==>
      key in fields ==>
        || fields[key] in {VNull, VBool(false), VNumber(0), VText(""), VList([])}
        || (fields[key].VMap? && known[fields[key].env] == map[])
  {
  }

  /** The tool of an action, else of its tool call to copy: a nonempty text. */
  ghost function ToolOf(action: Fields, known: Snapshot): Option<string> {
    var call := DictAt(action, CopyableToolCall, known);
    if Truthy(action, Tool, known) then TextOf(action[Tool])
    else if Tool in call then TextOf(call[Tool])
    else None
  }

  function TextOf(v: Value): Option<string> { if v.VText? && v.text != "" then Some(v.text) else None }

  /** The first arguments that are not empty: of the action, or of its tool call to copy. */
  ghost function ArgumentsOf(action: Fields, known: Snapshot): Fields {
    if DictAt(action, Arguments, known) != map[] then DictAt(action, Arguments, known)
    else if DictAt(action, Params, known) != map[] then DictAt(action, Params, known)
    else CopyableArguments(action, known)
  }

  /** An action without a name has that of its arguments' action, phase or workflow. */
  function NameFor(arguments: Fields): string {
    if ActionName in arguments && TextOf(arguments[ActionName]).Some? then arguments[ActionName].text
    else if Phase in arguments && TextOf(arguments[Phase]).Some? then arguments[Phase].text
    else if Workflow in arguments && TextOf(arguments[Workflow]).Some? then arguments[Workflow].text
    else "inspect"
  }

  predicate HasText(fields: Fields, key: Key, text: string) { text != "" && (key, VText(text)) in fields.Items }

  ghost predicate HasNoText(fields: Fields, key: Key) { forall text :: !HasText(fields, key, text) }

  /** Of the three the first that is a nonempty text. */
  lemma NameIsTheFirst(arguments: Fields, name: string)
    ensures HasText(arguments, ActionName, name) ==> NameFor(arguments) == name
    ensures HasNoText(arguments, ActionName) && HasText(arguments, Phase, name) ==> NameFor(arguments) == name
    ensures HasNoText(arguments, ActionName) && HasNoText(arguments, Phase) && HasText(arguments, Workflow, name)
      ==> NameFor(arguments) == name
    ensures HasNoText(arguments, ActionName) && HasNoText(arguments, Phase) && HasNoText(arguments, Workflow)
      ==> NameFor(arguments) == "inspect"
  {
    var name := NameFor(arguments);
    assert HasText(arguments, ActionName, name) || HasText(arguments, Phase, name) || HasText(arguments, Workflow, name)
      || name == "inspect";
  }

  /** The arguments an action requires: those it says, else those it has. */
  ghost function RequiredOf(action: Fields, known: Snapshot, project: string): Fields {
    var required := DictAt(action, RequiredArguments, known);
    if required == map[] then ArgumentsOf(action, known)
    else if project == "" then required
    else WithDefault(required, ProjectName, VText(project))
  }

  const REASON := "Follow the first bounded action selected from current project state."

  predicate IsFilledIn(key: Key) {
    match key
    case ActionName | Reason | RequiredArguments | OptionalArguments | SourceTool | Routing | NavigationOnly => true
    case DoesNotGrantAuthority => true
    case _ => false
  }

  predicate HasDefault(a: Fields, b: Fields, key: Key, v: Value) {
    key in b && b[key] == if key in a then a[key] else v
  }

  /** The caller's and the tools' part in filling in an action. */
  datatype Source = Source(tool: string, project: string, routing: string -> Value)

  /** Every field the action had stays but the required arguments; the others are filled in. */
  ghost predicate FilledIn(a: Fields, b: Fields, more: Snapshot, tool: string, source: Source) {
    && (forall key | !IsFilledIn(key) :: AgreeAt(a, b, key))
    && HasDefault(a, b, ActionName, VText(NameFor(ArgumentsOf(a, more))))
    && HasDefault(a, b, Reason, VText(REASON))
    && HasDefault(a, b, SourceTool, VText(source.tool))
    && HasDefault(a, b, Routing, source.routing(tool))
    && HasDefault(a, b, NavigationOnly, VBool(true))
    && HasDefault(a, b, DoesNotGrantAuthority, VBool(true))
    && (if OptionalArguments in a then AgreeAt(a, b, OptionalArguments)
         else IsDictOf(b, OptionalArguments, map[], more))
    && IsDictOf(b, RequiredArguments, RequiredOf(a, more, source.project), more)
  }

  lemma FillingInKeeps(a: Fields, b: Fields, more: Snapshot, tool: string, source: Source, key: Key)
    requires FilledIn(a, b, more, tool, source) && key in a && key != RequiredArguments
    ensures key in b && b[key] == a[key]
  {
    if !IsFilledIn(key) {
      assert AgreeAt(a, b, key);
    }
  }

  ghost predicate IsDictOf(fields: Fields, key: Key, entries: Fields, known: Snapshot) {
    IsMapAt(fields, key) && fields[key].env in known && known[fields[key].env] == entries
  }

  method ReadDict(fields: Fields, key: Key, ghost known: Snapshot) returns (entries: Fields)
    requires Holds(known) && Closed(known) && FieldsKnown(fields, known)
    ensures entries == DictAt(fields, key, known) && FieldsKnown(entries, known)
  {
    entries := map[];
    if key in fields && fields[key].VMap? {
      assert ValueKnown(fields[key], known);
      entries := fields[key].env.fields;
    }
  }

  method ReadTool(action: Fields, ghost known: Snapshot) returns (tool: Option<string>)
    requires Holds(known) && Closed(known) && FieldsKnown(action, known)
    ensures tool == ToolOf(action, known)
  {
    var call := ReadDict(action, CopyableToolCall, known);
    var own := IsTruthy(action, Tool, known);
    return if own then TextOf(action[Tool]) else if Tool in call then TextOf(call[Tool]) else None;
  }

  method ReadArguments(action: Fields, ghost known: Snapshot) returns (arguments: Fields)
    requires Holds(known) && Closed(known) && FieldsKnown(action, known)
    ensures arguments == ArgumentsOf(action, known) && FieldsKnown(arguments, known)
  {
    arguments := ReadDict(action, Arguments, known);
    if arguments == map[] {
      arguments := ReadDict(action, Params, known);
    }
    if arguments == map[] {
      var call := ReadDict(action, CopyableToolCall, known);
      arguments := ReadDict(call, Arguments, known);
    }
  }

  method ReadRequired(action: Fields, project: string, ghost known: Snapshot) returns (required: Fields)
    requires Holds(known) && Closed(known) && FieldsKnown(action, known)
    ensures required == RequiredOf(action, known, project) && FieldsKnown(required, known)
  {
    required := ReadDict(action, RequiredArguments, known);
    if required == map[] {
      required := ReadArguments(action, known);
    } else if project != "" {
      required := WithDefault(required, ProjectName, VText(project));
    }
  }

  /** The fields an action gets unless it has them. */
  function Defaults(name: string, tool: string, source: Source, none: Value): Fields {
    map[
      ActionName := VText(name), Reason := VText(REASON), OptionalArguments := none, SourceTool := VText(source.tool),
      Routing := source.routing(tool), NavigationOnly := VBool(true), DoesNotGrantAuthority := VBool(true)
    ]
  }

  lemma DefaultsAreFilledIn(
      a: Fields, b: Fields, name: string, tool: string, source: Source, required: Value, none: Value)
    requires b == (Defaults(name, tool, source, none) + a)[RequiredArguments := required]
    ensures forall key | !IsFilledIn(key) :: AgreeAt(a, b, key)
    ensures HasDefault(a, b, ActionName, VText(name)) && HasDefault(a, b, Reason, VText(REASON))
    ensures HasDefault(a, b, SourceTool, VText(source.tool)) && HasDefault(a, b, Routing, source.routing(tool))
    ensures HasDefault(a, b, NavigationOnly, VBool(true)) && HasDefault(a, b, DoesNotGrantAuthority, VBool(true))
    ensures HasDefault(a, b, OptionalArguments, none)
    ensures RequiredArguments in b && b[RequiredArguments] == required
  {
  }

  lemma DictIsTheSame(a: Fields, known: Snapshot, more: Snapshot, key: Key)
    requires FieldsKnown(a, known) && Extends(known, more)
    ensures DictAt(a, key, known) == DictAt(a, key, more)
  {
    assert key in a ==> ValueKnown(a[key], known);
  }

  lemma ArgumentsAreTheSame(a: Fields, known: Snapshot, more: Snapshot, project: string)
    requires Closed(known) && FieldsKnown(a, known) && Extends(known, more)
    ensures ArgumentsOf(a, known) == ArgumentsOf(a, more)
      && RequiredOf(a, known, project) == RequiredOf(a, more, project)
  {
    DictIsTheSame(a, known, more, Arguments);
    DictIsTheSame(a, known, more, Params);
    DictIsTheSame(a, known, more, RequiredArguments);
    CopyableIsTheSame(a, known, a, more);
  }

  lemma TruthStays(a: Fields, known: Snapshot, b: Fields, more: Snapshot, key: Key)
    requires AgreeAt(a, b, key) && (key in a ==> ValueKnown(a[key], known)) && Extends(known, more)
    ensures Truthy(a, key, known) == Truthy(b, key, more)
  {
  }

  lemma ToolIsTheSame(a: Fields, known: Snapshot, more: Snapshot)
    requires FieldsKnown(a, known) && Extends(known, more)
    ensures ToolOf(a, known) == ToolOf(a, more)
  {
    TruthStays(a, known, a, more, Tool);
    DictIsTheSame(a, known, more, CopyableToolCall);
  }

  lemma BindingKeepsTheCall(a: Fields, known: Snapshot, b: Fields, more: Snapshot, project: string)
    requires FieldsKnown(a, known) && CopyableBound(a, known, b, more, project)
    ensures AgreeAt(DictAt(a, CopyableToolCall, known), DictAt(b, CopyableToolCall, more), Tool)
  {
    if IsMapAt(a, CopyableToolCall) {
      assert ValueKnown(a[CopyableToolCall], known);
    }
  }

  lemma BindingKeepsTheTool(a: Fields, known: Snapshot, b: Fields, more: Snapshot, project: string)
    requires Closed(known) && FieldsKnown(a, known) && Extends(known, more)
    requires ActionBound(a, known, b, more, project)
    ensures ToolOf(a, known) == ToolOf(b, more)
  {
    assert AgreeAt(a, b, Tool);
    TruthStays(a, known, b, more, Tool);
    BindingKeepsTheCall(a, known, b, more, project);
  }

  lemma ActionIsFilledIn(
      a: Fields, b: Fields, more: Snapshot, tool: string, source: Source, required: Envelope, none: Envelope)
    requires required in more && more[required] == RequiredOf(a, more, source.project)
    requires none in more && more[none] == map[]
    requires b == (Defaults(NameFor(ArgumentsOf(a, more)), tool, source, VMap(none)) + a)
      [RequiredArguments := VMap(required)]
    ensures FilledIn(a, b, more, tool, source)
  {
    DefaultsAreFilledIn(a, b, NameFor(ArgumentsOf(a, more)), tool, source, VMap(required), VMap(none));
  }

  method NewDict(entries: Fields, ghost known: Snapshot) returns (e: Envelope, ghost more: Snapshot)
    requires Holds(known) && Closed(known) && FieldsKnown(entries, known)
    ensures fresh(more.Keys - known.Keys) && Holds(more) && Closed(more) && Extends(known, more)
    ensures e in more && more[e] == entries
  {
    e := new Envelope(entries);
    ClosedWithOneMore(known, e, entries);
    more := known[e := entries];
  }

  /** Fills in an action that names the tool. */
  method FillIn(was: Fields, tool: string, source: Source, ghost known: Snapshot)
      returns (normalized: Fields, ghost more: Snapshot)
    requires Holds(known) && Closed(known) && FieldsKnown(was, known)
    ensures Holds(more) && Closed(more) && Extends(known, more) && fresh(more.Keys - known.Keys)
    ensures FilledIn(was, normalized, more, tool, source)
  {
    var arguments := ReadArguments(was, known);
    var entries := ReadRequired(was, source.project, known);
    var required, none;
    required, more := NewDict(entries, known);
    none, more := NewDict(map[], more);
    ArgumentsAreTheSame(was, known, more, source.project);
    normalized := (Defaults(NameFor(arguments), tool, source, VMap(none)) + was)[RequiredArguments := VMap(required)];
    ActionIsFilledIn(was, normalized, more, tool, source, required, none);
  }

  /**
   * The action with its arguments bound to the project and its missing fields filled in, or None when it names no
   * tool. `bound` is the action in between.
   */
  method NormalizeAgentAction(action: Fields, source: Source, ghost known: Snapshot)
      returns (normalized: Option<Fields>, ghost bound: Fields, ghost more: Snapshot)
    requires Holds(known) && Closed(known) && FieldsKnown(action, known)
    ensures Holds(more) && Closed(more) && Extends(known, more) && fresh(more.Keys - known.Keys)
    ensures if source.project == "" then bound == action else ActionBound(action, known, bound, more, source.project)
    ensures normalized.Some? <==> ToolOf(action, known).Some?
    ensures normalized.Some? ==> FilledIn(bound, normalized.value, more, ToolOf(action, known).value, source)
  {
    var was := action;
    more := known;
    if source.project != "" {
      was, more := ProjectBoundAction(action, source.project, known);
      BindingKeepsTheTool(action, known, was, more, source.project);
    }
    bound := was;
    var tool := ReadTool(was, more);
    if tool.None? {
      return None, bound, more;
    }
    ghost var before := more;
    var filled;
    filled, more := FillIn(was, tool.value, source, before);
    normalized := Some(filled);
    if source.project != "" {
      ActionBoundGrows(action, known, bound, before, more, source.project);
    }
  }
}
