/** What the parts of the next-action policy mean, told apart from how they are computed. */
module NextActionLaws {
  import opened TextModel
  import opened PlanText
  import opened ActionTree
  import opened NextActionPolicy

  // ----- Which kinds come first, and where they are allowed -----

  const PREFERENCE := [Confirmation, Recovery, Poll, Evidence, Validation, Commit, Plan]

  /** The outcomes after which an action of the kind may be recommended. */
  function OutcomesFor(kind: Kind): set<Outcome> {
    match kind
    case Confirmation => {ConfirmationRequired}
    case Recovery => {Blocked, Failed}
    case Poll => {InProgress, Blocked, Failed, Completed}
    case Evidence => {Failed, Completed}
    case Validation => {Completed}
    case Commit => {Completed}
    case Plan => {Completed}
  }

  lemma KindsInOrder(kind: Kind, outcome: Outcome)
    ensures Priority(kind) < |PREFERENCE| && PREFERENCE[Priority(kind)] == kind
    ensures Allowed(outcome, kind) <==> outcome in OutcomesFor(kind)
  {
  }

  lemma RecoveryGitNames(action: string)
    requires action in RECOVERY_GIT_ACTIONS
    ensures EndsWith(action, "_apply") <==> action !in {"restore_file_preview", "revert_preview"}
  {
    if action == "restore_file_apply" {
      assert EndsWith("restore_file_apply", "_apply");
    } else if action == "revert_apply" {
      assert EndsWith("revert_apply", "_apply");
    } else {
      assert action[|action| - 1] == 'w' && "_apply"[5] == 'y';
      EndsInItsLastLetter(action, "_apply");
    }
  }

  /** Of the recovery actions of Git only the previews count as recovery: the others ask for a confirmation. */
  lemma RecoveryKind(p: Policy, a: Action)
    ensures p.KindOf(a) == Recovery <==>
      p.KindOf(a) != Confirmation
      && (p.NormAt(a.arguments, "workflow") in RECOVERY_WORKFLOWS
          || (a.tool == "manage_git"
              && p.NormAt(a.arguments, "action") in {"restore_file_preview", "revert_preview"}))
  {
    var action := p.NormAt(a.arguments, "action");
    if action in RECOVERY_GIT_ACTIONS {
      RecoveryGitNames(action);
    }
  }

  /** The remaining kinds go by the tool. */
  lemma OtherKinds(p: Policy, a: Action)
    ensures p.KindOf(a) == Evidence <==>
      a.tool in {"read_result_artifact", "review_manifest"} && p.KindOf(a) != Recovery
    ensures p.KindOf(a) == Validation ==> a.tool == "manage_validation_run"
    ensures p.KindOf(a) == Commit ==> a.tool == "manage_git"
    ensures p.KindOf(a) == Plan ==> a.tool !in {"manage_git", "manage_validation_run", "analyze_project_state"}
  {
  }

  /** What the actions of the older commit tool are called today. */
  const COMMIT_NAMES := {
    ("status", "commit_readiness"), ("readiness", "commit_readiness"), ("suggest_commit_message", "commit_message"),
    ("commit_workflow_preview", "commit_preview"), ("preview", "commit_preview"), ("commit", "commit_apply")
  }

  lemma CommitNames(action: string, name: string)
    ensures LegacyCommitAction(action) == Some(name) <==> (action, name) in COMMIT_NAMES
  {
  }

  /** The older commit tool's arguments stay but for the name of the action. */
  lemma CommitToolKeeps(p: Policy, arguments: Fields, key: string)
    ensures match p.Rewritten("manage_git_commit", arguments)
      case None => LegacyCommitAction(p.NormAt(arguments, "action")) == None
      case Some(r) =>
        && r.tool == "manage_git"
        && (exists name :: (p.NormAt(arguments, "action"), name) in COMMIT_NAMES
              && Get(r.arguments, "action") == Some(Str(name)))
        && (key != "action" ==> Get(r.arguments, key) == Get(arguments, key))
  {
    var name := LegacyCommitAction(p.NormAt(arguments, "action"));
    if name.Some? {
      CommitNames(p.NormAt(arguments, "action"), name.value);
    }
  }

  /** The older tools for reading a repository keep the project they name. */
  lemma ReadToolsSay(p: Policy, arguments: Fields)
    ensures SaysOnly(p.Rewritten("get_git_status", arguments), "status", Get(arguments, "project_name"))
    ensures SaysOnly(p.Rewritten("get_git_diff", arguments), "diff", Get(arguments, "project_name"))
  {
    PickKeeps(arguments, ["project_name"], "project_name");
    NamedFirst("status", Pick(arguments, ["project_name"]));
    NamedFirst("diff", Pick(arguments, ["project_name"]));
  }

  predicate SaysOnly(r: Option<Action>, action: string, project: Option<Json>) {
    && r.Some? && r.value.tool == "manage_git" && Get(r.value.arguments, "action") == Some(Str(action))
    && Get(r.value.arguments, "project_name") == project
  }

  lemma NamedFirst(action: string, rest: Fields)
    ensures var r := [Field("action", Str(action))] + rest;
      Get(r, "action") == Some(Str(action)) && Get(r, "project_name") == Get(rest, "project_name")
  {
    assert ([Field("action", Str(action))] + rest)[1..] == rest;
    assert |"action"| == 6 && |"project_name"| == 12;
  }

  /** A workflow that exists for compatibility only is never recommended; other workflows keep their arguments. */
  lemma WorkflowsStay(p: Policy, arguments: Fields)
    requires p.NormAt(arguments, "workflow") != "git_commit"
    ensures p.Rewritten("run_mcp_workflow", arguments) ==
      if p.NormAt(arguments, "workflow") == "auto_preview" then None
      else Some(Action("run_mcp_workflow", arguments, Null))
  {
  }

  // ----- Where a result's data and its binding are -----

  predicate HasObject(fields: Fields, key: string, inner: Fields) { Get(fields, key) == Some(Obj(inner)) }

  lemma DataOfResult(result: Fields, data: Fields)
    ensures HasObject(result, "data", data) ==> ResultData(result) == data
    ensures (forall inner :: !HasObject(result, "data", inner)) ==> ResultData(result) == result
  {
    if ObjectAt(result, "data").Some? {
      assert HasObject(result, "data", ObjectAt(result, "data").value);
    }
  }

  /** The binding stands in the data, else in its confirmation. */
  lemma BindingOfData(p: Policy, data: Fields, binding: Fields)
    ensures p.ContextBindingOf(data) == Some(binding) <==>
      || HasObject(data, "context_binding", binding)
      || ((forall inner :: !HasObject(data, "context_binding", inner))
          && exists confirmation ::
               HasObject(data, "confirmation", confirmation) && HasObject(confirmation, "context_binding", binding))
  {
    if ObjectAt(data, "context_binding").Some? {
      assert HasObject(data, "context_binding", ObjectAt(data, "context_binding").value);
    } else if ObjectAt(data, "confirmation").Some? {
      assert HasObject(data, "confirmation", ObjectAt(data, "confirmation").value);
    }
  }

  /** White space around a string is dropped, and a blank one does not count. */
  lemma StrippedText(fields: Fields, key: string, before: string, text: string, after: string)
    requires IsBlankText(before) && IsBlankText(after) && (text == "" || IsTight(text))
    requires Get(fields, key) == Some(Str(before + text + after))
    ensures StrippedAt(fields, key) == if text == "" then None else Some(text)
  {
    StripPadded(before, text, after);
  }

  /** The reason a candidate gives is handed on, and replaced when it gives none. */
  lemma ReasonIsHandedOn(p: Policy, candidate: Fields, a: Action)
    requires HasTool(Obj(candidate)) && p.Normalized(Obj(candidate)) == Some(a)
    requires Get(candidate, "tool") != Some(Str("resources/read"))
    ensures match StrippedAt(candidate, "reason")
      case Some(reason) => a.reason == Str(reason)
      case None => a.reason == Str(DEFAULT_REASON)
  {
  }

  /** The values Python takes for false. */
  const FALSE_VALUES := {Null, Bool(false), Number(0), Str(""), Arr([]), Obj([])}

  /** For a resource any reason is handed on as it is, unless it counts as false. */
  lemma ReasonOfResource(p: Policy, candidate: Fields, otherwise: string)
    ensures p.ReasonOr(candidate, otherwise) ==
      match Get(candidate, "reason")
      case None => Str(otherwise)
      case Some(given) => if given in FALSE_VALUES then Str(otherwise) else given
  {
  }

  // ----- The first string under some keys -----

  /** An object at the path has a usable string under one of the keys. */
  predicate IsUsable(v: Json, keys: seq<string>, path: Path) {
    match At(v, path)
    case Some(Obj(fields)) => FirstOfKeys(fields, keys).Some?
    case _ => false
  }

  /** `s` stands under the first of the keys that has a usable string. */
  lemma {:induction false} FirstKeyCounts(fields: Fields, keys: seq<string>)
    ensures match FirstOfKeys(fields, keys)
      case Some(s) => exists i | 0 <= i < |keys| ::
        StrippedAt(fields, keys[i]) == Some(s) && forall j | 0 <= j < i :: StrippedAt(fields, keys[j]) == None
      case None => forall i | 0 <= i < |keys| :: StrippedAt(fields, keys[i]) == None
  {
    if keys != [] {
      var rest := keys[1..];
      FirstKeyCounts(fields, rest);
      if StrippedAt(fields, keys[0]) == None {
        assert forall j | 0 <= j < |rest| :: rest[j] == keys[j + 1];
        match FirstOfKeys(fields, rest) {
          case Some(s) =>
            var i :| 0 <= i < |rest| && StrippedAt(fields, rest[i]) == Some(s)
              && forall j | 0 <= j < i :: StrippedAt(fields, rest[j]) == None;
            assert forall j | 0 < j <= i :: StrippedAt(fields, keys[j]) == StrippedAt(fields, rest[j - 1]);
            assert StrippedAt(fields, keys[i + 1]) == Some(s);
          case None =>
            assert forall j | 0 < j < |keys| :: StrippedAt(fields, keys[j]) == StrippedAt(fields, rest[j - 1]);
        }
      }
    }
  }

  lemma {:induction false} NothingUsableMeansNone(v: Json, keys: seq<string>, path: Path)
    requires FirstString(v, keys) == None
    ensures !IsUsable(v, keys, path)
    decreases v, 1, 0
  {
    if path != [] && path[0] < ChildCount(v) {
      NothingUsableBelow(v, keys, 0, path);
    }
  }

  lemma {:induction false} NothingUsableBelow(v: Json, keys: seq<string>, i: nat, path: Path)
    requires path != [] && i <= path[0] < ChildCount(v) && FirstStringBelow(v, keys, i) == None
    ensures !IsUsable(v, keys, path)
    decreases v, 0, ChildCount(v) - i
  {
    if path[0] == i {
      NothingUsableMeansNone(Child(v, i), keys, path[1..]);
    } else {
      NothingUsableBelow(v, keys, i + 1, path);
    }
  }

  /** `path` leads to the first object with a usable string, which is `s`. */
  ghost predicate IsFirstUsable(v: Json, keys: seq<string>, path: Path, s: string) {
    && IsUsable(v, keys, path) && FirstOfKeys(At(v, path).value.fields, keys) == Some(s)
    && forall other | IsUsable(v, keys, other) :: other == path || Before(path, other)
  }

  lemma BeforeBelow(i: nat, a: Path, b: Path)
    requires Before(a, b)
    ensures Before([i] + a, [i] + b)
  {
    var k: nat :| PartAt(a, b, k);
    assert ([i] + a)[..k + 1] == [i] + a[..k] && ([i] + b)[..k + 1] == [i] + b[..k];
    assert PartAt([i] + a, [i] + b, k + 1);
  }

  lemma {:induction false} FirstStringIsFirst(v: Json, keys: seq<string>) returns (path: Path)
    requires FirstString(v, keys).Some?
    ensures IsFirstUsable(v, keys, path, FirstString(v, keys).value)
    decreases v, 1, 0
  {
    if v.Obj? && FirstOfKeys(v.fields, keys).Some? {
      path := [];
      forall other | IsUsable(v, keys, other) ensures other == [] || Before([], other) {
        assert other != [] ==> PartAt([], other, 0);
      }
    } else {
      path := FirstBelowIsFirst(v, keys, 0);
      forall other | IsUsable(v, keys, other) ensures other == path || Before(path, other) {
        assert other != [];
      }
    }
  }

  lemma {:induction false} FirstBelowIsFirst(v: Json, keys: seq<string>, i: nat) returns (path: Path)
    requires i <= ChildCount(v) && FirstStringBelow(v, keys, i).Some?
    ensures path != [] && path[0] >= i && IsUsable(v, keys, path)
    ensures FirstOfKeys(At(v, path).value.fields, keys) == Some(FirstStringBelow(v, keys, i).value)
    ensures forall other | IsUsable(v, keys, other) && other != [] && other[0] >= i ::
      other == path || Before(path, other)
    decreases v, 0, ChildCount(v) - i
  {
    if FirstString(Child(v, i), keys).Some? {
      var below := FirstStringIsFirst(Child(v, i), keys);
      path := [i] + below;
      assert path[1..] == below;
      forall other | IsUsable(v, keys, other) && other != [] && other[0] >= i
        ensures other == path || Before(path, other)
      {
        if other[0] == i {
          assert IsUsable(Child(v, i), keys, other[1..]) && other == [i] + other[1..];
          if other[1..] != below {
            BeforeBelow(i, below, other[1..]);
          }
        } else {
          assert PartAt(path, other, 0);
        }
      }
    } else {
      path := FirstBelowIsFirst(v, keys, i + 1);
      forall other | IsUsable(v, keys, other) && other != [] && other[0] >= i
        ensures other == path || Before(path, other)
      {
        if other[0] == i {
          NothingUsableMeansNone(Child(v, i), keys, other[1..]);
        }
      }
    }
  }

  // ----- What a resource URI is read as -----

  /** A page or subject is handed on exactly when the URI has one. */
  lemma ArtifactIsRead(p: Policy, candidate: Fields, arguments: Fields, uri: string, id: string, page: Option<nat>)
    requires p.ArgumentsOf(candidate) == Some(arguments) && Get(arguments, "uri") == Some(Str(uri))
    requires p.resource(uri) == Artifact(id, page)
    ensures match p.ResourceCandidate(candidate)
      case None => false
      case Some(a) =>
        && a.tool == "read_result_artifact" && Get(a.arguments, "artifact_id") == Some(Str(id))
        && Get(a.arguments, "artifact_page") == NumberOf(page)
  {
    var named := [Field("artifact_id", Str(id))];
    assert named[1..] == [];
    assert Get(named[1..], "artifact_page") == None;
  }

  /** The manifest's candidate, before a page is put in. */
  function ManifestArguments(id: string, subject: Option<nat>): Fields {
    var named := [Field("phase", Str("status")), Field("review_manifest_id", Str(id))];
    match subject
    case Some(n) => Put(Put(named, "phase", Str("read")), "review_manifest_subject_index", Number(n))
    case None => named
  }

  lemma ManifestArgumentsSay(id: string, subject: Option<nat>)
    ensures var r := ManifestArguments(id, subject);
      && Get(r, "review_manifest_id") == Some(Str(id))
      && Get(r, "phase") == Some(Str(if subject.Some? then "read" else "status"))
      && Get(r, "review_manifest_subject_index") == NumberOf(subject) && Get(r, "review_manifest_page") == None
  {
    var named := [Field("phase", Str("status")), Field("review_manifest_id", Str(id))];
    var rest := [Field("review_manifest_id", Str(id))];
    assert |"phase"| == 5 && |"review_manifest_id"| == 18;
    assert |"review_manifest_subject_index"| == 29 && |"review_manifest_page"| == 20;
    assert named[1..] == rest && rest[1..] == [];
    NoKeyIn("review_manifest_subject_index", rest);
    NoKeyIn("review_manifest_page", rest);
    assert Get(rest, "review_manifest_id") == Some(Str(id));
  }

  /** A manifest is read where the URI names a subject; otherwise its status is. */
  lemma ManifestIsRead(
      p: Policy, candidate: Fields, arguments: Fields, uri: string, id: string, subject: Option<nat>,
      page: Option<nat>)
    requires p.ArgumentsOf(candidate) == Some(arguments) && Get(arguments, "uri") == Some(Str(uri))
    requires p.resource(uri) == Manifest(id, subject, page)
    ensures match p.ResourceCandidate(candidate)
      case None => false
      case Some(a) =>
        && a.tool == "review_manifest" && Get(a.arguments, "review_manifest_id") == Some(Str(id))
        && Get(a.arguments, "phase") == Some(Str(if subject.Some? then "read" else "status"))
        && Get(a.arguments, "review_manifest_subject_index") == NumberOf(subject)
        && Get(a.arguments, "review_manifest_page") == NumberOf(page)
  {
    ManifestArgumentsSay(id, subject);
    if page.Some? {
      var given := ManifestArguments(id, subject);
      PutLeaves(given, "review_manifest_page", Number(page.value), "phase");
      PutLeaves(given, "review_manifest_page", Number(page.value), "review_manifest_id");
      PutLeaves(given, "review_manifest_page", Number(page.value), "review_manifest_subject_index");
    }
    assert p.ResourceCandidate(candidate).value.arguments ==
      match page
      case Some(n) => Put(ManifestArguments(id, subject), "review_manifest_page", Number(n))
      case None => ManifestArguments(id, subject);
  }

  lemma PutLeaves(fields: Fields, key: string, value: Json, other: string)
    requires |key| != |other|
    ensures Get(Put(fields, key, value), other) == Get(fields, other)
  {
  }

  function NumberOf(n: Option<nat>): Option<Json> { match n case Some(k) => Some(Number(k)) case None => None }

  lemma NoKeyIn(key: string, fields: Fields)
    requires |fields| == 1 && fields[0].key != key
    ensures Get(fields, key) == None
  {
    assert fields[1..] == [];
  }
}
