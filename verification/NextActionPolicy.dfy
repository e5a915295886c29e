/** Which next action a Commander response recommends, and whether the response contract agrees with it. */
module NextActionPolicy {
  import opened TextModel
  import opened PlanText
  import opened ActionTree

  datatype Outcome = Completed | InProgress | ConfirmationRequired | Blocked | Failed

  datatype Kind = Confirmation | Recovery | Poll | Evidence | Validation | Commit | Plan

  /** A reason is text, except where a candidate for a resource hands on whatever it had. */
  datatype Action = Action(tool: string, arguments: Fields, reason: Json)

  /** What a `resources/read` URI names, as the two URI patterns read it. */
  datatype Resource =
    | Artifact(id: string, artifactPage: Option<nat>)
    | Manifest(id: string, subject: Option<nat>, manifestPage: Option<nat>)
    | NoResource

  const COMMANDER_TOOLS := {
    "list_registered_projects", "get_apps_connector_smoke_packet", "render_commander_app", "analyze_project_state",
    "review_manifest", "read_result_artifact", "run_mcp_workflow", "manage_validation_run", "manage_git"
  }

  const PREVIEW_KEYS := ["gate_preview_id", "batch_preview_id", "preview_id"]

  const RECOVERY_WORKFLOWS := {"git_restore_file", "git_revert", "git_undo_version"}
  const RECOVERY_GIT_ACTIONS := {"restore_file_preview", "restore_file_apply", "revert_preview", "revert_apply"}

  /** The phases the policy counts as running a workflow. */
  const POLICY_RUN_PHASES := {"apply", "apply_all", "plan_apply", "run", "commit", "execute", "pr_apply"}

  // The response contract keeps its own lists.
  const MUTATING_GIT_ACTIONS := {
    "commit_apply", "topic_branch_apply", "pull_apply", "push_apply", "restore_file_apply", "revert_apply"
  }
  const CONFIRMATION_WORKFLOW_PHASES := {"apply", "apply_all", "commit", "execute", "plan_apply", "run", "pr_apply"}
  const POLL_GIT_ACTIONS := {"status", "push_status", "pull_status"}
  const STATUS_PHASES := {"status", "pr_status", "merge_status"}

  const DEFAULT_REASON := "继续当前受控流程。"
  const READ_ARTIFACT_REASON := "读取受控结果证据。"
  const READ_MANIFEST_REASON := "读取受控审查证据。"
  const LIST_PROJECTS_REASON := "列出可用项目后，使用有效 project_name 重试原调用。"
  const REREAD_FACTS_REASON := "重新读取项目事实后再决定如何解除阻断。"
  const REREAD_STATE_REASON := "重新读取项目状态。"
  const POLL_VALIDATION_REASON := "查询当前验证运行状态。"
  const POLL_WORKFLOW_REASON := "查询当前工作流运行状态。"
  const CONFIRM_GIT_REASON := "确认后执行与当前预览精确绑定的 Git 操作。"
  const CONFIRM_VALIDATION_REASON := "确认后运行当前预览固定的验证命令。"
  const CONFIRM_COMMIT_REASON := "确认后创建与当前预览绑定的本地提交。"
  const CONFIRM_WORKFLOW_REASON := "确认后继续当前受控工作流。"

  predicate EndsWith(s: string, suffix: string) {
    |suffix| <= |s| && s[|s| - |suffix|..] == suffix
  }

  function ObjectAt(fields: Fields, key: string): Option<Fields> {
    match Get(fields, key) case Some(Obj(inner)) => Some(inner) case _ => None
  }

  /** A string value that is not blank, stripped. */
  function StrippedAt(fields: Fields, key: string): Option<string> {
    match Get(fields, key)
    case Some(Str(s)) => if StripText(s) != "" then Some(StripText(s)) else None
    case _ => None
  }

  function Pick(fields: Fields, keys: seq<string>): Fields {
    if keys == [] then []
    else
      var rest := Pick(fields, keys[1..]);
      match Get(fields, keys[0])
      case Some(value) => [Field(keys[0], value)] + rest
      case None => rest
  }

  lemma {:induction false} PickKeeps(fields: Fields, keys: seq<string>, key: string)
    ensures Get(Pick(fields, keys), key) == if key in keys then Get(fields, key) else None
  {
    if keys != [] {
      PickKeeps(fields, keys[1..], key);
      var rest := Pick(fields, keys[1..]);
      assert key in keys <==> key == keys[0] || key in keys[1..];
      match Get(fields, keys[0]) {
        case Some(value) => assert ([Field(keys[0], value)] + rest)[1..] == rest;
        case None =>
      }
    }
  }

  /** The result's `data` object, or the result itself. */
  function ResultData(result: Fields): Fields {
    match ObjectAt(result, "data") case Some(data) => data case None => result
  }

  function FirstOfKeys(fields: Fields, keys: seq<string>): Option<string> {
    if keys == [] then None
    else match StrippedAt(fields, keys[0]) case Some(s) => Some(s) case None => FirstOfKeys(fields, keys[1..])
  }

  /** The first of these keys with a usable string, in the object itself before anything below it. */
  function FirstString(v: Json, keys: seq<string>): Option<string>
    decreases v, 1, 0
  {
    match if v.Obj? then FirstOfKeys(v.fields, keys) else None
    case Some(s) => Some(s)
    case None => FirstStringBelow(v, keys, 0)
  }

  function FirstStringBelow(v: Json, keys: seq<string>, i: nat): Option<string>
    requires i <= ChildCount(v)
    decreases v, 0, ChildCount(v) - i
  {
    if i == ChildCount(v) then None
    else match FirstString(Child(v, i), keys) case Some(s) => Some(s) case None => FirstStringBelow(v, keys, i + 1)
  }

  function Priority(kind: Kind): nat {
    match kind
    case Confirmation => 0
    case Recovery => 1
    case Poll => 2
    case Evidence => 3
    case Validation => 4
    case Commit => 5
    case Plan => 6
  }

  predicate Allowed(outcome: Outcome, kind: Kind) {
    match outcome
    case ConfirmationRequired => kind.Confirmation?
    case Blocked => kind.Recovery? || kind.Poll?
    case InProgress => kind.Poll?
    case Failed => kind.Recovery? || kind.Poll? || kind.Evidence?
    case Completed => !kind.Confirmation? && !kind.Recovery?
  }

  /** The Git action that carries out what a preview prepared. */
  function GitApply(preview: string): Option<string> {
    match preview
    case "commit_preview" => Some("commit_apply")
    case "push_preview" => Some("push_apply")
    case "pull_preview" => Some("pull_apply")
    case "restore_file_preview" => Some("restore_file_apply")
    case "revert_preview" => Some("revert_apply")
    case _ => None
  }

  /** The Git steps that are previewed before they are carried out. */
  const GIT_STEPS := {"commit", "push", "pull", "restore_file", "revert"}

  /** The two names of one Git step. */
  ghost predicate IsGitStep(preview: string, apply: string) {
    exists step | step in GIT_STEPS :: preview == step + "_preview" && apply == step + "_apply"
  }

  lemma GitStepNames(step: string)
    requires step in GIT_STEPS
    ensures GitApply(step + "_preview") == Some(step + "_apply")
  {
    if step == "commit" {
      assert step + "_preview" == "commit_preview" && step + "_apply" == "commit_apply";
    } else if step == "push" {
      assert step + "_preview" == "push_preview" && step + "_apply" == "push_apply";
    } else if step == "pull" {
      assert step + "_preview" == "pull_preview" && step + "_apply" == "pull_apply";
    } else if step == "restore_file" {
      assert step + "_preview" == "restore_file_preview" && step + "_apply" == "restore_file_apply";
    } else {
      assert step + "_preview" == "revert_preview" && step + "_apply" == "revert_apply";
    }
  }

  lemma GitStepOf(preview: string) returns (step: string)
    requires GitApply(preview).Some?
    ensures step in GIT_STEPS && preview == step + "_preview"
  {
    step := match preview
      case "commit_preview" => "commit"
      case "push_preview" => "push"
      case "pull_preview" => "pull"
      case "restore_file_preview" => "restore_file"
      case _ => "revert";
  }

  /** A Git preview is carried out by the action of the same name with the other ending. */
  lemma GitApplyCarriesOutTheStep(preview: string, apply: string)
    ensures GitApply(preview) == Some(apply) <==> IsGitStep(preview, apply)
  {
    if GitApply(preview) == Some(apply) {
      var step := GitStepOf(preview);
      GitStepNames(step);
    }
    if step :| step in GIT_STEPS && preview == step + "_preview" && apply == step + "_apply" {
      GitStepNames(step);
    }
  }

  function LegacyCommitAction(action: string): Option<string> {
    match action
    case "status" => Some("commit_readiness")
    case "readiness" => Some("commit_readiness")
    case "suggest_commit_message" => Some("commit_message")
    case "commit_workflow_preview" => Some("commit_preview")
    case "preview" => Some("commit_preview")
    case "commit" => Some("commit_apply")
    case _ => None
  }

  lemma LegacyNames(action: string)
    requires LegacyCommitAction(action).Some?
    ensures var name := LegacyCommitAction(action).value;
      IsPlain(name) && name !in POLL_GIT_ACTIONS && (name in MUTATING_GIT_ACTIONS <==> action == "commit")
  {
  }

  function RunPhase(phase: string): string {
    match phase
    case "plan_preview" => "plan_apply"
    case "run_preview" => "run"
    case "preview" => "apply"
    case _ => "apply"
  }

  lemma MutatingNamesEndInApply(action: string)
    requires action in MUTATING_GIT_ACTIONS
    ensures EndsWith(action, "_apply")
  {
    if action == "commit_apply" {
      assert EndsWith("commit_apply", "_apply");
    } else if action == "topic_branch_apply" {
      assert EndsWith("topic_branch_apply", "_apply");
    } else if action == "pull_apply" {
      assert EndsWith("pull_apply", "_apply");
    } else if action == "push_apply" {
      assert EndsWith("push_apply", "_apply");
    } else if action == "restore_file_apply" {
      assert EndsWith("restore_file_apply", "_apply");
    } else {
      assert EndsWith("revert_apply", "_apply");
    }
  }

  lemma PollNamesDoNotEndInApply(action: string)
    requires action in POLL_GIT_ACTIONS
    ensures !EndsWith(action, "_apply") && action !in RECOVERY_GIT_ACTIONS && action != "run"
  {
    PollNamesEndInS(action);
    assert "_apply"[5] == 'y';
    EndsInItsLastLetter(action, "_apply");
    RecoveryNamesDoNotEndInS(action);
  }

  lemma PollNamesEndInS(action: string)
    requires action in POLL_GIT_ACTIONS
    ensures action != "" && action[|action| - 1] == 's'
  {
  }

  lemma RecoveryNamesDoNotEndInS(action: string)
    requires action != "" && action[|action| - 1] == 's'
    ensures action !in RECOVERY_GIT_ACTIONS && action != "run"
  {
  }

  lemma EndsInItsLastLetter(s: string, suffix: string)
    requires s != "" && suffix != ""
    ensures EndsWith(s, suffix) ==> s[|s| - 1] == suffix[|suffix| - 1]
  {
    if EndsWith(s, suffix) {
      assert s[|s| - |suffix|..][|suffix| - 1] == s[|s| - 1];
    }
  }

  predicate IsPlain(s: string) { s != "" && forall i | 0 <= i < |s| :: 'a' <= s[i] <= 'z' || s[i] == '_' }

  /** `lower` is Python's `str.lower`; `resource` matches a resource URI. */
  datatype Policy = Policy(lower: string -> string, resource: string -> Resource) {
    /** All that is used of lower-casing: it leaves lower-case ASCII letters and underscores alone. */
    ghost predicate Valid() { forall s | IsPlain(s) :: lower(s) == s }

    function Norm(s: string): string { lower(StripText(s)) }

    function NormAt(fields: Fields, key: string): string {
      match Get(fields, key) case Some(Str(s)) => Norm(s) case _ => ""
    }

    lemma PlainIsNormal(s: string)
      requires Valid() && IsPlain(s)
      ensures Norm(s) == s
    {
      StripIndented(0, s);
      assert Spaces(0) + s == s;
    }

    // ----- The contract's view of an action -----

    predicate IsMutating(a: Action) {
      var action, phase := NormAt(a.arguments, "action"), NormAt(a.arguments, "phase");
      if a.tool == "manage_git" then action in MUTATING_GIT_ACTIONS
      else if a.tool == "manage_validation_run" then action == "run"
      else if a.tool == "run_mcp_workflow" then phase in CONFIRMATION_WORKFLOW_PHASES
      else false
    }

    predicate IsPoll(a: Action) {
      var action, phase := NormAt(a.arguments, "action"), NormAt(a.arguments, "phase");
      if a.tool in {"analyze_project_state", "get_apps_connector_smoke_packet"} then true
      else if a.tool == "manage_validation_run" then action == "status"
      else if a.tool == "manage_git" then action in POLL_GIT_ACTIONS
      else if a.tool == "run_mcp_workflow" then phase in STATUS_PHASES
      else if a.tool == "review_manifest" then phase == "status"
      else false
    }

    // ----- The policy's view of an action -----

    function KindOf(a: Action): Kind {
      var action, phase := NormAt(a.arguments, "action"), NormAt(a.arguments, "phase");
      var workflow := NormAt(a.arguments, "workflow");
      if a.tool == "manage_git"
        && (EndsWith(action, "_apply") || action in {"commit_apply", "push_apply", "pull_apply"})
      then Confirmation
      else if a.tool == "run_mcp_workflow" && phase in POLICY_RUN_PHASES then Confirmation
      else if a.tool == "manage_validation_run" && action == "run" then Confirmation
      else if workflow in RECOVERY_WORKFLOWS || (a.tool == "manage_git" && action in RECOVERY_GIT_ACTIONS) then Recovery
      else if a.tool in {"read_result_artifact", "review_manifest"} then Evidence
      else if action in POLL_GIT_ACTIONS || phase in STATUS_PHASES || a.tool == "analyze_project_state" then Poll
      else if a.tool == "manage_validation_run" then Validation
      else if a.tool == "manage_git" then Commit
      else Plan
    }

    /** A Git action the policy takes for an apply step and the contract does not know. */
    predicate UnknownApply(a: Action) {
      var action := NormAt(a.arguments, "action");
      a.tool == "manage_git" && EndsWith(action, "_apply") && action !in MUTATING_GIT_ACTIONS
    }

    /** The two views differ on mutations in exactly one way, and only towards asking for confirmation. */
    lemma ConfirmationIsMutatingOrUnknownApply(a: Action)
      ensures KindOf(a) == Confirmation <==> IsMutating(a) || UnknownApply(a)
      ensures !(IsMutating(a) && UnknownApply(a))
    {
      var action := NormAt(a.arguments, "action");
      if action in MUTATING_GIT_ACTIONS {
        MutatingNamesEndInApply(action);
      }
    }

    /** A status word sits in a field, or on a tool, for which the contract does not read it. */
    predicate StatusOutOfPlace(a: Action) {
      var action, phase := NormAt(a.arguments, "action"), NormAt(a.arguments, "phase");
      match a.tool
      case "run_mcp_workflow" => action in POLL_GIT_ACTIONS && phase !in STATUS_PHASES && phase !in POLICY_RUN_PHASES
      case "manage_git" => phase in STATUS_PHASES && action !in POLL_GIT_ACTIONS && !EndsWith(action, "_apply")
        && action !in RECOVERY_GIT_ACTIONS
      case "manage_validation_run" => action in {"push_status", "pull_status"}
        || (phase in STATUS_PHASES && action !in {"status", "run"})
      case "analyze_project_state" => false
      case "get_apps_connector_smoke_packet" => false
      case "read_result_artifact" => false
      case "review_manifest" => false
      case _ => action in POLL_GIT_ACTIONS || phase in STATUS_PHASES
    }

    /** Exactly when the policy calls an action a poll and the contract does not. */
    lemma PollIsContractPollUnlessOutOfPlace(a: Action)
      ensures KindOf(a) == Poll && !IsPoll(a)
        <==> StatusOutOfPlace(a) && NormAt(a.arguments, "workflow") !in RECOVERY_WORKFLOWS
    {
      var action := NormAt(a.arguments, "action");
      if a.tool == "manage_git" && action in MUTATING_GIT_ACTIONS {
        MutatingNamesEndInApply(action);
      }
    }

    /** The other way round: a poll for the contract that the policy takes for something else. */
    predicate PollInDisguise(a: Action) {
      var action, phase := NormAt(a.arguments, "action"), NormAt(a.arguments, "phase");
      || NormAt(a.arguments, "workflow") in RECOVERY_WORKFLOWS
      || a.tool == "review_manifest"
      || (a.tool == "get_apps_connector_smoke_packet" && action !in POLL_GIT_ACTIONS && phase !in STATUS_PHASES)
    }

    /** Exactly when the contract calls an action a poll and the policy does not. */
    lemma ContractPollIsPollUnlessInDisguise(a: Action)
      ensures IsPoll(a) && KindOf(a) != Poll <==> IsPoll(a) && PollInDisguise(a)
    {
      var action := NormAt(a.arguments, "action");
      if a.tool == "manage_git" && action in POLL_GIT_ACTIONS {
        PollNamesDoNotEndInApply(action);
      }
    }

    // ----- From a candidate to a public action -----

    function ArgumentsOf(candidate: Fields): Option<Fields> {
      match ObjectAt(candidate, "arguments") case Some(f) => Some(f) case None => ObjectAt(candidate, "params")
    }

    function ReasonOr(candidate: Fields, otherwise: string): Json {
      match Get(candidate, "reason") case Some(v) => if Truthy(v) then v else Str(otherwise) case None => Str(otherwise)
    }

    function ResourceCandidate(candidate: Fields): (r: Option<Action>)
      ensures r.Some? ==> r.value.tool in COMMANDER_TOOLS
    {
      var arguments := match ArgumentsOf(candidate) case Some(f) => f case None => [];
      match Get(arguments, "uri")
      case Some(Str(uri)) => (
        match resource(uri)
        case Artifact(id, page) =>
          var named := [Field("artifact_id", Str(id))];
          Some(Action(
            "read_result_artifact",
            match page case Some(n) => Put(named, "artifact_page", Number(n)) case None => named,
            ReasonOr(candidate, READ_ARTIFACT_REASON)
          ))
        case Manifest(id, subject, page) =>
          var named := [Field("phase", Str("status")), Field("review_manifest_id", Str(id))];
          var withSubject := match subject
            case Some(n) => Put(Put(named, "phase", Str("read")), "review_manifest_subject_index", Number(n))
            case None => named;
          Some(Action(
            "review_manifest",
            match page case Some(n) => Put(withSubject, "review_manifest_page", Number(n)) case None => withSubject,
            ReasonOr(candidate, READ_MANIFEST_REASON)
          ))
        case NoResource => None
      )
      case _ => None
    }

    /** The tool and arguments a candidate stands for, once names of older tools are replaced. */
    function Rewritten(tool: string, arguments: Fields): Option<Action> {
      if tool == "run_mcp_workflow" && NormAt(arguments, "workflow") == "auto_preview" then None
      else if tool == "run_mcp_workflow" && NormAt(arguments, "workflow") == "git_commit" then
        var action := if NormAt(arguments, "phase") in {"apply", "commit"} then "commit_apply" else "commit_preview";
        Some(Action(
          "manage_git",
          [Field("action", Str(action))]
            + Pick(arguments, ["preview_id", "message", "project_name", "context_binding"]),
          Null
        ))
      else if tool == "manage_git_commit" then
        match LegacyCommitAction(NormAt(arguments, "action"))
        case Some(action) => Some(Action("manage_git", Put(arguments, "action", Str(action)), Null))
        case None => None
      else if tool == "get_git_status" then
        Some(Action("manage_git", [Field("action", Str("status"))] + Pick(arguments, ["project_name"]), Null))
      else if tool == "get_git_diff" then
        Some(Action("manage_git", [Field("action", Str("diff"))] + Pick(arguments, ["project_name"]), Null))
      else Some(Action(tool, arguments, Null))
    }

    lemma NamedActionAt(action: string, fields: Fields)
      requires Valid() && IsPlain(action)
      ensures NormAt([Field("action", Str(action))] + fields, "action") == action
      ensures forall key | key != "action" :: Get([Field("action", Str(action))] + fields, key) == Get(fields, key)
    {
      PlainIsNormal(action);
      assert ([Field("action", Str(action))] + fields)[1..] == fields;
    }

    predicate CommitsNow(arguments: Fields) { NormAt(arguments, "phase") in {"apply", "commit"} }

    lemma RewrittenCommitAction(arguments: Fields)
      requires Valid() && NormAt(arguments, "workflow") == "git_commit"
      ensures var r := Rewritten("run_mcp_workflow", arguments);
        r.Some? && r.value.tool == "manage_git"
        && NormAt(r.value.arguments, "action") == if CommitsNow(arguments) then "commit_apply" else "commit_preview"
    {
      var kept := Pick(arguments, ["preview_id", "message", "project_name", "context_binding"]);
      NamedActionAt(if CommitsNow(arguments) then "commit_apply" else "commit_preview", kept);
    }

    /** A commit workflow stays a mutation exactly in its two commit phases. */
    lemma RewrittenCommitWorkflow(arguments: Fields)
      requires Valid() && NormAt(arguments, "workflow") == "git_commit"
      ensures var r := Rewritten("run_mcp_workflow", arguments);
        r.Some? && (IsMutating(r.value) <==> CommitsNow(arguments))
        && (IsMutating(r.value) ==> IsMutating(Action("run_mcp_workflow", arguments, Null)))
    {
      RewrittenCommitAction(arguments);
    }

    /** What a commit is bound to survives the rewriting. */
    lemma RewrittenCommitKeeps(arguments: Fields, key: string)
      requires NormAt(arguments, "workflow") == "git_commit"
      requires key in {"preview_id", "message", "project_name", "context_binding"}
      ensures var r := Rewritten("run_mcp_workflow", arguments);
        r.Some? && Get(r.value.arguments, key) == Get(arguments, key)
    {
      var keys := ["preview_id", "message", "project_name", "context_binding"];
      PickKeeps(arguments, keys, key);
      var name := if CommitsNow(arguments) then "commit_apply" else "commit_preview";
      assert ([Field("action", Str(name))] + Pick(arguments, keys))[1..] == Pick(arguments, keys);
    }

    /** Of the older commit tool's actions only an explicit commit becomes a mutation. */
    lemma RewrittenCommitTool(arguments: Fields)
      requires Valid() && Rewritten("manage_git_commit", arguments).Some?
      ensures var r := Rewritten("manage_git_commit", arguments).value;
        r.tool == "manage_git" && !IsPoll(r) && (IsMutating(r) <==> NormAt(arguments, "action") == "commit")
    {
      var action := NormAt(arguments, "action");
      LegacyNames(action);
      PlainIsNormal(LegacyCommitAction(action).value);
    }

    lemma RewrittenStatusTool(arguments: Fields)
      requires Valid()
      ensures var r := Rewritten("get_git_status", arguments); r.Some? && IsPoll(r.value)
    {
      NamedActionAt("status", Pick(arguments, ["project_name"]));
    }

    lemma RewrittenDiffTool(arguments: Fields)
      requires Valid()
      ensures var r := Rewritten("get_git_diff", arguments); r.Some? && !IsPoll(r.value) && !IsMutating(r.value)
    {
      NamedActionAt("diff", Pick(arguments, ["project_name"]));
    }

    /** The older status tool becomes a poll, the older diff tool neither a poll nor a mutation. */
    lemma RewrittenReadTools(arguments: Fields)
      requires Valid()
      ensures var r := Rewritten("get_git_status", arguments); r.Some? && IsPoll(r.value)
      ensures var r := Rewritten("get_git_diff", arguments); r.Some? && !IsPoll(r.value) && !IsMutating(r.value)
    {
      RewrittenStatusTool(arguments);
      RewrittenDiffTool(arguments);
    }

    function Normalized(candidate: Json): (r: Option<Action>)
      requires HasTool(candidate)
      ensures r.Some? ==> r.value.tool in COMMANDER_TOOLS
    {
      var tool := Get(candidate.fields, "tool").value.text;
      if tool == "resources/read" then ResourceCandidate(candidate.fields)
      else
        var arguments := match ArgumentsOf(candidate.fields) case Some(f) => f case None => [];
        match Rewritten(tool, arguments)
        case Some(a) =>
          if a.tool !in COMMANDER_TOOLS then None
          else
            var reason := match StrippedAt(candidate.fields, "reason") case Some(s) => s case None => DEFAULT_REASON;
            Some(a.(reason := Str(reason)))
        case None => None
    }

    /** The candidate as it stands asks for a mutation, under today's tool names or the older commit tool's. */
    predicate AsksForMutation(candidate: Json)
      requires HasTool(candidate)
    {
      var tool := Get(candidate.fields, "tool").value.text;
      var arguments := match ArgumentsOf(candidate.fields) case Some(f) => f case None => [];
      IsMutating(Action(tool, arguments, Null))
        || (tool == "manage_git_commit" && NormAt(arguments, "action") == "commit")
    }

    /** Renaming tools never makes a mutation out of a candidate that asked for none. */
    lemma NormalizingAddsNoMutation(candidate: Json)
      requires Valid() && HasTool(candidate) && Normalized(candidate).Some? && IsMutating(Normalized(candidate).value)
      ensures AsksForMutation(candidate)
    {
      var tool := Get(candidate.fields, "tool").value.text;
      var arguments := match ArgumentsOf(candidate.fields) case Some(f) => f case None => [];
      if tool == "resources/read" {
        ResourcesMutateNothing(candidate.fields);
      } else if tool == "run_mcp_workflow" && NormAt(arguments, "workflow") == "git_commit" {
        RewrittenCommitWorkflow(arguments);
      } else if tool == "manage_git_commit" {
        RewrittenCommitTool(arguments);
      } else if tool == "get_git_status" || tool == "get_git_diff" {
        RewrittenReadTools(arguments);
        PollIsNotMutating(Rewritten("get_git_status", arguments).value);
      } else {
        assert Rewritten(tool, arguments) == None || Rewritten(tool, arguments) == Some(Action(tool, arguments, Null));
      }
    }

    lemma ResourcesMutateNothing(candidate: Fields)
      ensures var r := ResourceCandidate(candidate); r.Some? ==> !IsMutating(r.value)
    {
    }

    // ----- Actions made up when no candidate fits -----

    function ContextBindingOf(data: Fields): Option<Fields> {
      match ObjectAt(data, "context_binding")
      case Some(binding) => Some(binding)
      case None =>
        match ObjectAt(data, "confirmation")
        case Some(confirmation) => ObjectAt(confirmation, "context_binding")
        case None => None
    }

    /** The tools that have something to confirm, for the call that was made. */
    predicate Confirmable(toolName: string, params: Fields) {
      toolName in {"manage_validation_run", "run_mcp_workflow"}
      || (toolName == "manage_git" && GitApply(NormAt(params, "action")).Some?)
    }

    /** What every made-up confirmation carries over from the call and its result. */
    ghost predicate CarriesOver(arguments: Fields, params: Fields, result: Fields, previewId: string) {
      && Get(arguments, "preview_id") == Some(Str(previewId))
      && Get(arguments, "project_name") == (
        match StrippedAt(params, "project_name") case Some(s) => Some(Str(s)) case None => None)
      && Get(arguments, "context_binding") == (
        match ContextBindingOf(ResultData(result)) case Some(f) => Some(Obj(f)) case None => None)
    }

    /** The message a commit that is carried out takes along. */
    function MessageOf(apply: string, params: Fields): Option<Json> {
      match Get(params, "message")
      case Some(Str(message)) => if apply == "commit_apply" then Some(Str(message)) else None
      case _ => None
    }

    /**
     * The action carries out what the call previewed: the same Git step, the validation, the commit of a commit
     * workflow, or the same workflow in the phase its preview leads to.
     */
    ghost predicate CarriesOut(toolName: string, params: Fields, a: Action) {
      match toolName
      case "manage_git" =>
        a.tool == "manage_git"
        && exists apply :: IsGitStep(NormAt(params, "action"), apply)
             && Get(a.arguments, "action") == Some(Str(apply))
             && Get(a.arguments, "message") == MessageOf(apply, params)
      case "manage_validation_run" =>
        a.tool == "manage_validation_run" && Get(a.arguments, "action") == Some(Str("run"))
      case _ => CarriesOutWorkflow(NormAt(params, "workflow"), NormAt(params, "phase"), a)
    }

    predicate CarriesOutWorkflow(workflow: string, phase: string, a: Action) {
      if workflow == "git_commit" then
        a.tool == "manage_git" && Get(a.arguments, "action") == Some(Str("commit_apply"))
      else
        && a.tool == "run_mcp_workflow" && Get(a.arguments, "workflow") == Some(Str(workflow))
        && (phase == "plan_preview" ==> Get(a.arguments, "phase") == Some(Str("plan_apply")))
        && (phase == "run_preview" ==> Get(a.arguments, "phase") == Some(Str("run")))
        && (phase !in {"plan_preview", "run_preview"} ==> Get(a.arguments, "phase") == Some(Str("apply")))
    }

    lemma CarriesOverBesides(
        arguments: Fields, params: Fields, result: Fields, previewId: string, key: string, value: Json)
      requires CarriesOver(arguments, params, result, previewId)
      requires key != "preview_id" && key != "project_name" && key != "context_binding"
      ensures CarriesOver(Put(arguments, key, value), params, result, previewId)
    {
    }

    method Continuation(params: Fields, result: Fields, previewId: string) returns (r: Fields)
      ensures CarriesOver(r, params, result, previewId) && Get(r, "message") == None
    {
      r := [];
      r := Put(r, "preview_id", Str(previewId));
      var project := StrippedAt(params, "project_name");
      if project.Some? {
        r := Put(r, "project_name", Str(project.value));
      }
      var binding := ContextBindingOf(ResultData(result));
      if binding.Some? {
        r := Put(r, "context_binding", Obj(binding.value));
      }
    }

    lemma GitApplyIsMutating(action: string, arguments: Fields)
      requires Valid() && action in {"commit_apply", "push_apply", "pull_apply", "restore_file_apply", "revert_apply"}
      requires Get(arguments, "action") == Some(Str(action))
      ensures forall reason :: IsMutating(Action("manage_git", arguments, reason))
    {
      PlainIsNormal(action);
    }

    lemma GitApplyIsKnown(preview: string)
      requires GitApply(preview).Some?
      ensures GitApply(preview).value in
        {"commit_apply", "push_apply", "pull_apply", "restore_file_apply", "revert_apply"}
    {
    }

    lemma RunIsMutating(arguments: Fields)
      requires Valid() && Get(arguments, "action") == Some(Str("run"))
      ensures forall reason :: IsMutating(Action("manage_validation_run", arguments, reason))
    {
      PlainIsNormal("run");
    }

    lemma RunPhaseIsMutating(arguments: Fields, phase: string)
      requires Valid() && Get(arguments, "phase") == Some(Str(RunPhase(phase)))
      ensures forall reason :: IsMutating(Action("run_mcp_workflow", arguments, reason))
    {
      PlainIsNormal(RunPhase(phase));
    }

    method GitContinuation(arguments: Fields, action: string, params: Fields, result: Fields, previewId: string)
        returns (r: Fields)
      requires CarriesOver(arguments, params, result, previewId) && Get(arguments, "message") == None
      ensures CarriesOver(r, params, result, previewId) && Get(r, "action") == Some(Str(action))
      ensures Get(r, "message") == MessageOf(action, params)
    {
      CarriesOverBesides(arguments, params, result, previewId, "action", Str(action));
      r := Put(arguments, "action", Str(action));
      var message := Get(params, "message");
      if action == "commit_apply" && message.Some? && message.value.Str? {
        CarriesOverBesides(r, params, result, previewId, "message", message.value);
        r := Put(r, "message", message.value);
      }
    }

    method SyntheticConfirmationAction(toolName: string, params: Fields, result: Fields) returns (r: Option<Action>)
      requires Valid()
      ensures var previewId := FirstString(Obj(ResultData(result)), PREVIEW_KEYS);
        && (r.Some? <==> previewId.Some? && Confirmable(toolName, params))
        && (r.Some? ==> IsMutating(r.value) && CarriesOver(r.value.arguments, params, result, previewId.value))
      ensures r.Some? ==> r.value.tool in COMMANDER_TOOLS && CarriesOut(toolName, params, r.value)
    {
      var previewId := FirstString(Obj(ResultData(result)), PREVIEW_KEYS);
      if previewId.None? {
        return None;
      }
      var continuation := Continuation(params, result, previewId.value);
      if toolName == "manage_git" {
        var apply := GitApply(NormAt(params, "action"));
        if apply.None? {
          return None;
        }
        continuation := GitContinuation(continuation, apply.value, params, result, previewId.value);
        GitApplyIsKnown(NormAt(params, "action"));
        GitApplyIsMutating(apply.value, continuation);
        GitApplyCarriesOutTheStep(NormAt(params, "action"), apply.value);
        return Some(Action("manage_git", continuation, Str(CONFIRM_GIT_REASON)));
      }
      if toolName == "manage_validation_run" {
        CarriesOverBesides(continuation, params, result, previewId.value, "action", Str("run"));
        continuation := Put(continuation, "action", Str("run"));
        RunIsMutating(continuation);
        return Some(Action("manage_validation_run", continuation, Str(CONFIRM_VALIDATION_REASON)));
      }
      if toolName == "run_mcp_workflow" {
        r := ConfirmWorkflow(continuation, params, result, previewId.value);
        return;
      }
      return None;
    }

    method ConfirmWorkflow(arguments: Fields, params: Fields, result: Fields, previewId: string)
        returns (r: Option<Action>)
      requires Valid() && CarriesOver(arguments, params, result, previewId)
      ensures r.Some? && IsMutating(r.value) && CarriesOver(r.value.arguments, params, result, previewId)
      ensures r.value.tool in COMMANDER_TOOLS
      ensures CarriesOutWorkflow(NormAt(params, "workflow"), NormAt(params, "phase"), r.value)
    {
      var workflow, phase := NormAt(params, "workflow"), NormAt(params, "phase");
      if workflow == "git_commit" {
        CarriesOverBesides(arguments, params, result, previewId, "action", Str("commit_apply"));
        var continuation := Put(arguments, "action", Str("commit_apply"));
        GitApplyIsMutating("commit_apply", continuation);
        return Some(Action("manage_git", continuation, Str(CONFIRM_COMMIT_REASON)));
      }
      var continuation := WorkflowContinuation(arguments, params, result, previewId, workflow, RunPhase(phase));
      RunPhaseIsMutating(continuation, phase);
      return Some(Action("run_mcp_workflow", continuation, Str(CONFIRM_WORKFLOW_REASON)));
    }

    method WorkflowContinuation(
        arguments: Fields, params: Fields, result: Fields, previewId: string, workflow: string, phase: string)
        returns (r: Fields)
      requires CarriesOver(arguments, params, result, previewId)
      ensures CarriesOver(r, params, result, previewId)
      ensures Get(r, "workflow") == Some(Str(workflow)) && Get(r, "phase") == Some(Str(phase))
    {
      CarriesOverBesides(arguments, params, result, previewId, "workflow", Str(workflow));
      r := Put(arguments, "workflow", Str(workflow));
      CarriesOverBesides(r, params, result, previewId, "phase", Str(phase));
      r := Put(r, "phase", Str(phase));
    }

    lemma StatusIsPoll(arguments: Fields)
      requires Valid()
      ensures Get(arguments, "action") == Some(Str("status")) ==>
        forall reason :: IsPoll(Action("manage_validation_run", arguments, reason))
      ensures Get(arguments, "phase") == Some(Str("status")) ==>
        forall reason :: IsPoll(Action("run_mcp_workflow", arguments, reason))
    {
      PlainIsNormal("status");
    }

    /** `arguments["project_name"]` set when the call named a project. */
    function WithProject(arguments: Fields, params: Fields): (r: Fields)
      requires Get(arguments, "project_name") == None
      ensures NamesText(r, "project_name", StrippedAt(params, "project_name"))
    {
      match StrippedAt(params, "project_name")
      case Some(s) => Put(arguments, "project_name", Str(s))
      case None => arguments
    }

    lemma ProjectLeaves(arguments: Fields, params: Fields, key: string)
      requires Get(arguments, "project_name") == None && |key| > 1 && key[1] != 'r'
      ensures Get(WithProject(arguments, params), key) == Get(arguments, key)
    {
      assert "project_name"[1] == 'r';
    }

    /** The run or the workflow a made-up poll asks about; without one the whole project. */
    ghost predicate AsksAbout(toolName: string, params: Fields, result: Fields, a: Action) {
      var run := FirstString(Obj(ResultData(result)), ["run_id", "validation_run_id"]);
      var workflow, batch := NormAt(params, "workflow"), StrippedAt(ResultData(result), "batch_preview_id");
      && NamesText(a.arguments, "project_name", StrippedAt(params, "project_name"))
      && if toolName == "manage_validation_run" && run.Some? then
           AsksAboutRun(a, run.value)
         else if toolName == "run_mcp_workflow" && workflow != "" then
           AsksAboutWorkflow(a, workflow, batch)
         else a.tool == "analyze_project_state"
    }

    predicate NamesText(fields: Fields, key: string, text: Option<string>) {
      Get(fields, key) == match text case Some(s) => Some(Str(s)) case None => None
    }

    /** Asks about one validation run. */
    predicate AsksAboutRun(a: Action, run: string) {
      a.tool == "manage_validation_run" && Get(a.arguments, "action") == Some(Str("status"))
      && NamesText(a.arguments, "run_id", Some(run))
    }

    /** Asks about one workflow, and the batch when there is one. */
    predicate AsksAboutWorkflow(a: Action, workflow: string, batch: Option<string>) {
      a.tool == "run_mcp_workflow" && Get(a.arguments, "phase") == Some(Str("status"))
      && NamesText(a.arguments, "workflow", Some(workflow)) && NamesText(a.arguments, "batch_preview_id", batch)
    }

    method PollRun(params: Fields, run: string) returns (r: Action)
      requires Valid()
      ensures IsPoll(r) && AsksAboutRun(r, run)
      ensures NamesText(r.arguments, "project_name", StrippedAt(params, "project_name"))
    {
      var arguments := Put([], "action", Str("status"));
      arguments := Put(arguments, "run_id", Str(run));
      ProjectLeaves(arguments, params, "action");
      ProjectLeaves(arguments, params, "run_id");
      arguments := WithProject(arguments, params);
      StatusIsPoll(arguments);
      r := Action("manage_validation_run", arguments, Str(POLL_VALIDATION_REASON));
    }

    method WorkflowArguments(workflow: string, batch: Option<string>) returns (arguments: Fields)
      ensures Get(arguments, "phase") == Some(Str("status")) && Get(arguments, "project_name") == None
      ensures NamesText(arguments, "workflow", Some(workflow)) && NamesText(arguments, "batch_preview_id", batch)
    {
      arguments := Put([], "workflow", Str(workflow));
      arguments := Put(arguments, "phase", Str("status"));
      if batch.Some? {
        arguments := Put(arguments, "batch_preview_id", Str(batch.value));
      }
    }

    method PollWorkflow(params: Fields, workflow: string, batch: Option<string>) returns (r: Action)
      requires Valid()
      ensures IsPoll(r) && AsksAboutWorkflow(r, workflow, batch)
      ensures NamesText(r.arguments, "project_name", StrippedAt(params, "project_name"))
    {
      var arguments := WorkflowArguments(workflow, batch);
      ProjectLeaves(arguments, params, "workflow");
      ProjectLeaves(arguments, params, "phase");
      ProjectLeaves(arguments, params, "batch_preview_id");
      arguments := WithProject(arguments, params);
      StatusIsPoll(arguments);
      r := Action("run_mcp_workflow", arguments, Str(POLL_WORKFLOW_REASON));
    }

    method SyntheticPollAction(toolName: string, params: Fields, result: Fields) returns (r: Action)
      requires Valid()
      ensures IsPoll(r) && r.tool in COMMANDER_TOOLS && AsksAbout(toolName, params, result, r)
    {
      var data := ResultData(result);
      if toolName == "manage_validation_run" {
        var runId := FirstString(Obj(data), ["run_id", "validation_run_id"]);
        if runId.Some? {
          r := PollRun(params, runId.value);
          return;
        }
      }
      if toolName == "run_mcp_workflow" && NormAt(params, "workflow") != "" {
        r := PollWorkflow(params, NormAt(params, "workflow"), StrippedAt(data, "batch_preview_id"));
        return;
      }
      r := Action("analyze_project_state", WithProject([], params), Str(REREAD_STATE_REASON));
    }

    /** `projectError` says that the result's public error code asks for a project to be chosen. */
    function SyntheticRecoveryAction(params: Fields, projectError: bool): (r: Action)
      ensures !IsMutating(r) && r.tool in COMMANDER_TOOLS && IsRecovery(params, projectError, Some(r))
    {
      if projectError then Action("list_registered_projects", [], Str(LIST_PROJECTS_REASON))
      else Action("analyze_project_state", WithProject([], params), Str(REREAD_FACTS_REASON))
    }

    /** The way out of a blocked call: to list the projects, or to read the facts of the one named. */
    predicate IsRecovery(params: Fields, projectError: bool, r: Option<Action>) {
      match r
      case Some(a) =>
        if projectError then a.tool == "list_registered_projects" && a.arguments == []
        else
          a.tool == "analyze_project_state"
          && NamesText(a.arguments, "project_name", StrippedAt(params, "project_name"))
      case None => false
    }

    // ----- Selection -----

    predicate Eligible(f: Found, outcome: Outcome) {
      HasTool(f.action) && Normalized(f.action).Some? && Allowed(outcome, KindOf(Normalized(f.action).value))
    }

    function Rank(f: Found): nat
      requires HasTool(f.action) && Normalized(f.action).Some?
    {
      Priority(KindOf(Normalized(f.action).value))
    }

    /** The eligible candidate of least priority number, and of those the first in the document. */
    ghost predicate IsChosen(w: seq<Found>, outcome: Outcome, i: nat) {
      i < |w| && Eligible(w[i], outcome)
      && forall j | 0 <= j < |w| && Eligible(w[j], outcome) ::
           Rank(w[i]) < Rank(w[j]) || (Rank(w[i]) == Rank(w[j]) && i <= j)
    }

    ghost predicate IsChosenAction(w: seq<Found>, outcome: Outcome, r: Option<Action>) {
      exists i: nat :: IsChosen(w, outcome, i) && r == Normalized(w[i].action)
    }

    ghost predicate SomeEligible(w: seq<Found>, outcome: Outcome) {
      exists i :: 0 <= i < |w| && Eligible(w[i], outcome)
    }

    /** The entry made for the candidate at `index`. */
    ghost predicate IsEntry(w: seq<Found>, outcome: Outcome, c: Ranked) {
      c.index < |w| && Eligible(w[c.index], outcome)
      && c.priority == Rank(w[c.index]) && Some(c.action) == Normalized(w[c.index].action)
    }

    /** `candidates` has an entry for every eligible one of the first `n`, and no other entries. */
    ghost predicate Collected(w: seq<Found>, outcome: Outcome, n: nat, candidates: seq<Ranked>) {
      && (forall k | 0 <= k < |candidates| :: IsEntry(w, outcome, candidates[k]))
      && (forall j | 0 <= j < n && j < |w| && Eligible(w[j], outcome) ::
            exists k :: 0 <= k < |candidates| && candidates[k].index == j)
    }

    method CollectCandidates(w: seq<Found>, outcome: Outcome) returns (candidates: seq<Ranked>)
      requires forall f | f in w :: HasTool(f.action)
      ensures Collected(w, outcome, |w|, candidates)
    {
      candidates := [];
      for index := 0 to |w|
        invariant Collected(w, outcome, index, candidates)
      {
        ghost var before := candidates;
        var normalized := Normalized(w[index].action);
        if normalized.Some? {
          var kind := KindOf(normalized.value);
          if Allowed(outcome, kind) {
            candidates := candidates + [Ranked(Priority(kind), index, normalized.value)];
            assert candidates[|before|].index == index;
          }
        }
        forall j | 0 <= j <= index && Eligible(w[j], outcome)
          ensures exists k :: 0 <= k < |candidates| && candidates[k].index == j
        {
          if j < index {
            var k :| 0 <= k < |before| && before[k].index == j;
            assert candidates[k] == before[k];
          }
        }
      }
    }

    /** The least entry belongs to the chosen candidate. */
    lemma LeastEntryIsChosen(w: seq<Found>, outcome: Outcome, candidates: seq<Ranked>, c: Ranked)
      requires Collected(w, outcome, |w|, candidates) && c in candidates
      requires forall k | 0 <= k < |candidates| :: !RanksBefore(candidates[k], c)
      ensures IsChosen(w, outcome, c.index) && Normalized(w[c.index].action) == Some(c.action)
    {
      assert IsEntry(w, outcome, c);
      forall j | 0 <= j < |w| && Eligible(w[j], outcome)
        ensures c.priority < Rank(w[j]) || (c.priority == Rank(w[j]) && c.index <= j)
      {
        var k :| 0 <= k < |candidates| && candidates[k].index == j;
        assert IsEntry(w, outcome, candidates[k]) && !RanksBefore(candidates[k], c);
      }
    }

    /** What the response contract says of a selected action, outcome by outcome. */
    ghost predicate AgreesWithContract(outcome: Outcome, r: Option<Action>) {
      && (!outcome.ConfirmationRequired? && r.Some? ==> !IsMutating(r.value))
      && (outcome.ConfirmationRequired? && r.Some? ==> (IsMutating(r.value) <==> !UnknownApply(r.value)))
      && (outcome.InProgress? ==> r.Some? && (IsPoll(r.value) <==>
            !(StatusOutOfPlace(r.value) && NormAt(r.value.arguments, "workflow") !in RECOVERY_WORKFLOWS)))
    }

    lemma ChosenAgreesWithContract(w: seq<Found>, outcome: Outcome, i: nat)
      requires IsChosen(w, outcome, i)
      ensures AgreesWithContract(outcome, Normalized(w[i].action))
    {
      var a := Normalized(w[i].action).value;
      ConfirmationIsMutatingOrUnknownApply(a);
      PollIsContractPollUnlessOutOfPlace(a);
    }

    /** What is returned when no candidate is eligible. */
    ghost predicate IsFallback(
        toolName: string, params: Fields, result: Fields, outcome: Outcome, projectError: bool, r: Option<Action>)
    {
      match outcome
      case ConfirmationRequired =>
        var previewId := FirstString(Obj(ResultData(result)), PREVIEW_KEYS);
        && (r.Some? <==> previewId.Some? && Confirmable(toolName, params))
        && (r.Some? ==>
              && IsMutating(r.value) && CarriesOut(toolName, params, r.value)
              && CarriesOver(r.value.arguments, params, result, previewId.value))
      case InProgress => r.Some? && IsPoll(r.value) && AsksAbout(toolName, params, result, r.value)
      case Blocked => IsRecovery(params, projectError, r)
      case Failed => r == None
      case Completed => r == None
    }

    lemma FallbackAgreesWithContract(
        toolName: string, params: Fields, result: Fields, outcome: Outcome, projectError: bool, r: Option<Action>)
      requires IsFallback(toolName, params, result, outcome, projectError, r)
      ensures AgreesWithContract(outcome, r)
    {
      if r.Some? {
        ConfirmationIsMutatingOrUnknownApply(r.value);
        PollIsContractPollUnlessOutOfPlace(r.value);
        if outcome.InProgress? {
          PollIsNotMutating(r.value);
        }
      }
    }

    lemma PollIsNotMutating(a: Action)
      requires IsPoll(a)
      ensures !IsMutating(a)
    {
    }

    /** The chosen candidate, or the fallback when there is none; a missing project comes first. */
    ghost predicate IsSelection(
        toolName: string, params: Fields, result: Fields, outcome: Outcome, projectError: bool, r: Option<Action>)
    {
      var w := Walk(Obj(result), false, []);
      if outcome.Blocked? && projectError then IsRecovery(params, projectError, r)
      else if SomeEligible(w, outcome) then IsChosenAction(w, outcome, r)
      else IsFallback(toolName, params, result, outcome, projectError, r)
    }

    /**
      * At most one public action: the chosen candidate, or else the fallback. Whatever it is, outside
      * `confirmation_required` it is no mutation.
      */
    method SelectCommanderNextAction(
        toolName: string, params: Fields, result: Fields, outcome: Outcome, projectError: bool)
        returns (r: Option<Action>)
      requires Valid()
      ensures AgreesWithContract(outcome, r)
      ensures r.Some? ==> r.value.tool in COMMANDER_TOOLS
      ensures IsSelection(toolName, params, result, outcome, projectError, r)
    {
      if outcome.Blocked? && projectError {
        return Some(SyntheticRecoveryAction(params, projectError));
      }
      ghost var w := Walk(Obj(result), false, []);
      WalkListsTheCandidates(Obj(result), false);
      var candidates := CollectCandidates(Walk(Obj(result), false, []), outcome);
      if candidates != [] {
        var c := FirstByRank(candidates);
        LeastEntryIsChosen(w, outcome, candidates, c);
        ChosenAgreesWithContract(w, outcome, c.index);
        return Some(c.action);
      }
      r := Fallback(toolName, params, result, outcome, projectError);
      FallbackAgreesWithContract(toolName, params, result, outcome, projectError, r);
    }

    method Fallback(toolName: string, params: Fields, result: Fields, outcome: Outcome, projectError: bool)
        returns (r: Option<Action>)
      requires Valid()
      ensures IsFallback(toolName, params, result, outcome, projectError, r)
      ensures r.Some? ==> r.value.tool in COMMANDER_TOOLS
    {
      if outcome == ConfirmationRequired {
        r := SyntheticConfirmationAction(toolName, params, result);
      } else if outcome == InProgress {
        var a := SyntheticPollAction(toolName, params, result);
        r := Some(a);
      } else if outcome == Blocked {
        r := Some(SyntheticRecoveryAction(params, projectError));
      } else {
        r := None;
      }
    }

    function CandidateOf(tool: string, arguments: Fields): Json {
      Obj([Field("tool", Str(tool)), Field("arguments", Obj(arguments))])
    }

    lemma NormalizedOfCandidate(tool: string, arguments: Fields)
      requires tool in {"manage_git", "list_registered_projects"}
      ensures HasTool(CandidateOf(tool, arguments))
      ensures Normalized(CandidateOf(tool, arguments)) == Some(Action(tool, arguments, Str(DEFAULT_REASON)))
    {
      var fields := CandidateOf(tool, arguments).fields;
      assert Get(fields, "tool") == Some(Str(tool));
      assert fields[1..] == [Field("arguments", Obj(arguments))] && fields[1..][1..] == [];
      assert Get(fields[1..], "arguments") == Some(Obj(arguments)) && Get(fields, "arguments") == Some(Obj(arguments));
      assert Get(fields[1..][1..], "reason") == None;
      assert Get(fields[1..], "reason") == None && Get(fields, "reason") == None;
    }

    lemma OnlyAction(value: string)
      requires Valid() && IsPlain(value)
      ensures var arguments := [Field("action", Str(value))];
        NormAt(arguments, "action") == value && NormAt(arguments, "phase") == "" && NormAt(arguments, "workflow") == ""
    {
      PlainIsNormal(value);
      var arguments := [Field("action", Str(value))];
      assert arguments[1..] == [];
      assert Get(arguments[1..], "phase") == None && Get(arguments[1..], "workflow") == None;
    }

    // ----- What the response contract makes of the selection -----

    /** The contract's rule for the next action of a response. */
    predicate ContractAccepts(outcome: Outcome, r: Option<Action>) {
      match outcome
      case ConfirmationRequired => r.Some? && IsMutating(r.value)
      case Blocked => r.Some? ==> !IsMutating(r.value)
      case Failed => r.Some? ==> !IsMutating(r.value)
      case InProgress => r.Some? && IsPoll(r.value)
      case Completed => true
    }

    /** The first candidate of the result, in document order, of a kind the outcome allows. */
    ghost predicate IsFirstEligible(w: seq<Found>, outcome: Outcome, i: nat) {
      i < |w| && Eligible(w[i], outcome) && forall j | 0 <= j < i :: !Eligible(w[j], outcome)
    }

    /** An eligible candidate the contract has another view of. */
    predicate Misfits(f: Found, outcome: Outcome) {
      Eligible(f, outcome) && (
        var a := Normalized(f.action).value;
        if outcome.InProgress? then StatusOutOfPlace(a) else UnknownApply(a))
    }

    ghost predicate FirstMisfits(w: seq<Found>, outcome: Outcome) {
      exists i: nat :: IsFirstEligible(w, outcome, i) && Misfits(w[i], outcome)
    }

    /** What the call and its result must be like for the contract to accept what is selected. */
    ghost predicate SuitsTheContract(toolName: string, params: Fields, result: Fields, outcome: Outcome) {
      var w := Walk(Obj(result), false, []);
      match outcome
      case ConfirmationRequired =>
        if SomeEligible(w, outcome) then !FirstMisfits(w, outcome)
        else FirstString(Obj(ResultData(result)), PREVIEW_KEYS).Some? && Confirmable(toolName, params)
      case InProgress => !FirstMisfits(w, outcome)
      case _ => true
    }

    lemma OneKindOneRank(f: Found, outcome: Outcome)
      requires Eligible(f, outcome) && (outcome.ConfirmationRequired? || outcome.InProgress?)
      ensures Rank(f) == if outcome.InProgress? then 2 else 0
    {
    }

    lemma AcceptedUnlessMisfit(f: Found, outcome: Outcome)
      requires Eligible(f, outcome) && (outcome.ConfirmationRequired? || outcome.InProgress?)
      ensures ContractAccepts(outcome, Normalized(f.action)) <==> !Misfits(f, outcome)
    {
      var a := Normalized(f.action).value;
      ConfirmationIsMutatingOrUnknownApply(a);
      PollIsContractPollUnlessOutOfPlace(a);
    }

    /** Where only one kind is allowed the chosen candidate is the first eligible one. */
    lemma ChosenIsFirst(w: seq<Found>, outcome: Outcome, i: nat)
      requires (outcome.ConfirmationRequired? || outcome.InProgress?) && IsChosen(w, outcome, i)
      ensures IsFirstEligible(w, outcome, i)
    {
      OneKindOneRank(w[i], outcome);
      forall j | 0 <= j < i ensures !Eligible(w[j], outcome) {
        if Eligible(w[j], outcome) {
          OneKindOneRank(w[j], outcome);
        }
      }
    }

    lemma ChosenAcceptedIff(w: seq<Found>, outcome: Outcome, i: nat)
      requires (outcome.ConfirmationRequired? || outcome.InProgress?) && IsChosen(w, outcome, i)
      ensures ContractAccepts(outcome, Normalized(w[i].action)) <==> !FirstMisfits(w, outcome)
    {
      ChosenIsFirst(w, outcome, i);
      AcceptedUnlessMisfit(w[i], outcome);
    }

    lemma ChosenIsAccepted(w: seq<Found>, outcome: Outcome, i: nat)
      requires !outcome.ConfirmationRequired? && !outcome.InProgress? && IsChosen(w, outcome, i)
      ensures ContractAccepts(outcome, Normalized(w[i].action))
    {
      ChosenAgreesWithContract(w, outcome, i);
    }

    lemma FallbackAcceptedIff(
        toolName: string, params: Fields, result: Fields, outcome: Outcome, projectError: bool, r: Option<Action>)
      requires IsFallback(toolName, params, result, outcome, projectError, r)
      ensures ContractAccepts(outcome, r) <==> (outcome.ConfirmationRequired? ==>
        FirstString(Obj(ResultData(result)), PREVIEW_KEYS).Some? && Confirmable(toolName, params))
    {
      FallbackAgreesWithContract(toolName, params, result, outcome, projectError, r);
    }

    /** Whether the contract accepts the selection can be told from the call and its result. */
    lemma ContractAcceptsIffSuited(
        toolName: string, params: Fields, result: Fields, outcome: Outcome, projectError: bool, r: Option<Action>)
      requires IsSelection(toolName, params, result, outcome, projectError, r)
      ensures ContractAccepts(outcome, r) <==> SuitsTheContract(toolName, params, result, outcome)
    {
      var w := Walk(Obj(result), false, []);
      if !(outcome.Blocked? && projectError) {
        if SomeEligible(w, outcome) {
          var i: nat :| IsChosen(w, outcome, i) && r == Normalized(w[i].action);
          if outcome.ConfirmationRequired? || outcome.InProgress? {
            ChosenAcceptedIff(w, outcome, i);
          } else {
            ChosenIsAccepted(w, outcome, i);
          }
        } else {
          FallbackAcceptedIff(toolName, params, result, outcome, projectError, r);
        }
      }
    }

    /** A result with one recommended action. */
    function ResultWith(tool: string, action: string): Fields {
      [Field("next_action", CandidateOf(tool, [Field("action", Str(action))]))]
    }

    lemma WalkOfScalar(text: string, selected: bool, at: Path)
      ensures Walk(Str(text), selected, at) == []
    {
    }

    lemma WalkOfArguments(arguments: Fields, at: Path)
      requires |arguments| == 1 && arguments[0].value.Str? && arguments[0].key !in CONTAINER_KEYS
      ensures Walk(Obj(arguments), false, at) == []
    {
      WalkOfScalar(arguments[0].value.text, false, at + [0]);
      assert WalkChildren(Obj(arguments), false, at, 1) == [];
    }

    lemma WalkOfCandidate(tool: string, arguments: Fields, at: Path)
      requires |arguments| == 1 && arguments[0].value.Str? && arguments[0].key !in CONTAINER_KEYS
      ensures HasTool(CandidateOf(tool, arguments))
      ensures Walk(CandidateOf(tool, arguments), true, at) == [Found(at, CandidateOf(tool, arguments))]
    {
      var c := CandidateOf(tool, arguments);
      assert Get(c.fields, "tool") == Some(Str(tool));
      WalkOfScalar(tool, false, at + [0]);
      WalkOfArguments(arguments, at + [1]);
      assert WalkChildren(c, true, at, 2) == [];
      assert WalkChildren(c, true, at, 1) == Walk(Obj(arguments), false, at + [1]) + [];
    }

    lemma WalkOfResultWith(tool: string, action: string)
      ensures Walk(Obj(ResultWith(tool, action)), false, [])
        == [Found([0], CandidateOf(tool, [Field("action", Str(action))]))]
    {
      WalkOfCandidate(tool, [Field("action", Str(action))], [0]);
      var result := Obj(ResultWith(tool, action));
      assert WalkChildren(result, false, [], 1) == [];
      assert [] + [0] == [0];
    }

    lemma MergeApplyIsUnknown()
      requires Valid()
      ensures var a := Action("manage_git", [Field("action", Str("merge_apply"))], Str(DEFAULT_REASON));
        KindOf(a) == Confirmation && !IsMutating(a)
    {
      OnlyAction("merge_apply");
      assert EndsWith("merge_apply", "_apply");
    }

    lemma StatusOfProjectsIsNoContractPoll()
      requires Valid()
      ensures var a := Action("list_registered_projects", [Field("action", Str("status"))], Str(DEFAULT_REASON));
        KindOf(a) == Poll && !IsPoll(a)
    {
      OnlyAction("status");
    }

    /** What is selected from a result with one recommended action of a kind the outcome allows. */
    lemma OnlyCandidateIsSelected(
        tool: string, action: string, toolName: string, params: Fields, outcome: Outcome, r: Option<Action>)
      requires tool in {"manage_git", "list_registered_projects"} && !outcome.Blocked?
      requires var a := Action(tool, [Field("action", Str(action))], Str(DEFAULT_REASON)); Allowed(outcome, KindOf(a))
      requires IsSelection(toolName, params, ResultWith(tool, action), outcome, false, r)
      ensures r == Some(Action(tool, [Field("action", Str(action))], Str(DEFAULT_REASON)))
    {
      var w := Walk(Obj(ResultWith(tool, action)), false, []);
      WalkOfResultWith(tool, action);
      NormalizedOfCandidate(tool, [Field("action", Str(action))]);
      assert Eligible(w[0], outcome);
    }

    /** For this result whatever is selected for confirmation fails the contract's rule. */
    lemma ConfirmationMayBeRefused(toolName: string, params: Fields, r: Option<Action>)
      requires Valid()
      requires IsSelection(toolName, params, ResultWith("manage_git", "merge_apply"), ConfirmationRequired, false, r)
      ensures r.Some? && r.value.tool == "manage_git" && !ContractAccepts(ConfirmationRequired, r)
    {
      MergeApplyIsUnknown();
      OnlyCandidateIsSelected("manage_git", "merge_apply", toolName, params, ConfirmationRequired, r);
    }

    /** For this result whatever is selected while in progress fails the contract's rule. */
    lemma PollMayBeRefused(toolName: string, params: Fields, r: Option<Action>)
      requires Valid()
      requires IsSelection(toolName, params, ResultWith("list_registered_projects", "status"), InProgress, false, r)
      ensures r.Some? && r.value.tool == "list_registered_projects" && !ContractAccepts(InProgress, r)
    {
      StatusOfProjectsIsNoContractPoll();
      OnlyCandidateIsSelected("list_registered_projects", "status", toolName, params, InProgress, r);
    }
  }

  predicate RanksBefore(a: Ranked, b: Ranked) {
    a.priority < b.priority || (a.priority == b.priority && a.index < b.index)
  }

  /** The first of the sorted list. */
  method FirstByRank(candidates: seq<Ranked>) returns (c: Ranked)
    requires candidates != []
    ensures c in candidates && forall k | 0 <= k < |candidates| :: !RanksBefore(candidates[k], c)
  {
    c := candidates[0];
    for i := 1 to |candidates|
      invariant c in candidates && forall k | 0 <= k < i :: !RanksBefore(candidates[k], c)
    {
      if RanksBefore(candidates[i], c) {
        c := candidates[i];
      }
    }
  }

  predicate Truthy(v: Json) {
    match v
    case Null => false
    case Bool(b) => b
    case Number(n) => n != 0
    case Str(s) => s != ""
    case Arr(items) => items != []
    case Obj(fields) => fields != []
  }

  datatype Ranked = Ranked(priority: nat, index: nat, action: Action)
}
