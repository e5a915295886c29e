/** Binding the actions at the top of a response to a project before it is filtered. */
module AgentBinding {
  import opened TextModel
  import opened AgentProjection

  const ACTION_KEYS := [PrimaryNextAction, RecommendedNextAction, NextAction, SafeNextAction]

  // ----- What is known of the caller's dictionaries -----

  ghost predicate ValueKnown(v: Value, known: Snapshot) {
    (v.VMap? ==> v.env in known) && (v.VList? ==> ItemsWithin(v.items, known))
  }

  ghost predicate FieldsKnown(fields: Fields, known: Snapshot) {
    forall key | key in fields :: ValueKnown(fields[key], known)
  }

  /** Every dictionary that one in `known` holds, directly or in a list, is in `known` too. */
  ghost predicate Closed(known: Snapshot) { forall e | e in known :: FieldsKnown(known[e], known) }

  lemma KnownGrows(fields: Fields, known: Snapshot, more: Snapshot)
    requires FieldsKnown(fields, known) && Extends(known, more)
    ensures FieldsKnown(fields, more)
  {
    forall key | key in fields ensures ValueKnown(fields[key], more) {
      assert ValueKnown(fields[key], known);
    }
  }

  lemma ClosedWithOneMore(known: Snapshot, e: Envelope, fields: Fields)
    requires Closed(known) && e !in known && FieldsKnown(fields, known)
    ensures Extends(known, known[e := fields]) && Closed(known[e := fields])
  {
    var more := known[e := fields];
    forall f | f in more ensures FieldsKnown(more[f], more) {
      KnownGrows(more[f], known, more);
    }
  }

  // ----- What binding changes -----

  predicate AgreeAt(a: Fields, b: Fields, key: Key) { (key in a <==> key in b) && (key in a ==> a[key] == b[key]) }

  predicate DifferAt(a: Fields, b: Fields, key: Key) { b == a || (key in b && b == a[key := b[key]]) }

  /** Only keys the projection does not look at differ. */
  ghost predicate SameButPlain(a: Fields, b: Fields) { forall key: Key | !key.IsPlain() :: AgreeAt(a, b, key) }

  /** `dict.setdefault`. */
  function WithDefault(fields: Fields, key: Key, v: Value): Fields {
    if key in fields then fields else fields[key := v]
  }

  /** Everything that was there is still there, and the key has the value if it had none. */
  lemma DefaultKeepsTheRest(fields: Fields, key: Key, v: Value)
    ensures var r := WithDefault(fields, key, v);
      && (forall other :: other in r <==> other in fields || other == key)
      && (forall other | other in fields :: r[other] == fields[other])
      && (key !in fields ==> r[key] == v)
  {
  }

  /** `now` are the arguments `was` with the name of the project. */
  predicate NamesProject(was: Fields, now: Fields, project: string) {
    now == WithDefault(was, ProjectName, VText(project))
  }

  predicate IsMapAt(fields: Fields, key: Key) { key in fields && fields[key].VMap? }

  /** The dictionary under a key, or an empty one. */
  ghost function DictAt(fields: Fields, key: Key, known: Snapshot): Fields {
    if IsMapAt(fields, key) && fields[key].env in known then known[fields[key].env] else map[]
  }

  /** Under the key of `b` stands a dictionary with the entries given, and the name of the project. */
  ghost predicate HoldsArguments(was: Fields, b: Fields, key: Key, more: Snapshot, project: string) {
    IsMapAt(b, key) && b[key].env in more && NamesProject(was, more[b[key].env], project)
  }

  /** Arguments under the key, if there are any, have been given the name of the project. */
  ghost predicate ArgumentsBound(a: Fields, known: Snapshot, b: Fields, more: Snapshot, key: Key, project: string) {
    if IsMapAt(a, key) then HoldsArguments(DictAt(a, key, known), b, key, more, project) else AgreeAt(a, b, key)
  }

  /** A tool call to copy has arguments, in which the project has a name; the rest of it is the same. */
  ghost predicate CallBound(a: Fields, known: Snapshot, b: Fields, more: Snapshot, project: string) {
    && (forall key | key != Arguments :: AgreeAt(a, b, key))
    && HoldsArguments(DictAt(a, Arguments, known), b, Arguments, more, project)
  }

  ghost predicate CopyableBound(a: Fields, known: Snapshot, b: Fields, more: Snapshot, project: string) {
    if IsMapAt(a, CopyableToolCall) then
      && IsMapAt(b, CopyableToolCall) && b[CopyableToolCall].env in more
      && CallBound(DictAt(a, CopyableToolCall, known), known, more[b[CopyableToolCall].env], more, project)
    else AgreeAt(a, b, CopyableToolCall)
  }

  predicate IsArgumentKey(key: Key) { key == Arguments || key == Params || key == RequiredArguments }

  predicate HasArguments(action: Fields) { IsMapAt(action, Arguments) || IsMapAt(action, Params) }

  ghost function CopyableArguments(a: Fields, known: Snapshot): Fields {
    DictAt(DictAt(a, CopyableToolCall, known), Arguments, known)
  }

  /**
   * What binding makes of an action: its arguments, under any of three keys and in its tool call to copy, name the
   * project; an action without arguments gets those of the tool call; nothing else differs.
   */
  ghost predicate ActionBound(a: Fields, known: Snapshot, b: Fields, more: Snapshot, project: string) {
    && (forall key | !IsArgumentKey(key) && key != CopyableToolCall :: AgreeAt(a, b, key))
    && ArgumentsBound(a, known, b, more, Params, project)
    && ArgumentsBound(a, known, b, more, RequiredArguments, project)
    && CopyableBound(a, known, b, more, project)
    && if HasArguments(a) then ArgumentsBound(a, known, b, more, Arguments, project)
       else HoldsArguments(CopyableArguments(a, known), b, Arguments, more, project)
  }

  /** A copy of a dictionary of arguments that names the project. */
  method BoundArguments(arguments: Fields, project: string, ghost known: Snapshot)
      returns (r: Envelope, ghost more: Snapshot)
    requires Holds(known) && Closed(known) && FieldsKnown(arguments, known)
    ensures fresh(r) && more == known[r := r.fields] && Holds(more) && Closed(more) && Extends(known, more)
    ensures NamesProject(arguments, r.fields, project)
  {
    r := new Envelope(WithDefault(arguments, ProjectName, VText(project)));
    ClosedWithOneMore(known, r, r.fields);
    more := known[r := r.fields];
  }

  /** Arguments under one key of an action, if there are any, are replaced by a copy that names the project. */
  method BindArguments(bound: Fields, key: Key, project: string, ghost known: Snapshot)
      returns (r: Fields, ghost more: Snapshot)
    requires Holds(known) && Closed(known) && FieldsKnown(bound, known)
    ensures Holds(more) && Closed(more) && Extends(known, more) && fresh(more.Keys - known.Keys)
    ensures FieldsKnown(r, more) && ArgumentsBound(bound, known, r, more, key, project)
    ensures DifferAt(bound, r, key)
  {
    r, more := bound, known;
    if key in bound && bound[key].VMap? {
      assert ValueKnown(bound[key], known);
      var arguments;
      arguments, more := BoundArguments(bound[key].env.fields, project, known);
      r := bound[key := VMap(arguments)];
      KnownGrows(bound, known, more);
    }
  }

  /** The tool call to copy names the project in its own arguments, which are also handed back. */
  method BindCopyable(bound: Fields, project: string, ghost known: Snapshot)
      returns (r: Fields, arguments: Option<Envelope>, ghost more: Snapshot)
    requires Holds(known) && Closed(known) && FieldsKnown(bound, known)
    ensures Holds(more) && Closed(more) && Extends(known, more) && fresh(more.Keys - known.Keys)
    ensures FieldsKnown(r, more) && CopyableBound(bound, known, r, more, project)
    ensures DifferAt(bound, r, CopyableToolCall)
    ensures match arguments
      case Some(e) => e in more && NamesProject(CopyableArguments(bound, known), more[e], project)
      case None => CopyableArguments(bound, known) == map[]
  {
    r, arguments, more := bound, None, known;
    if CopyableToolCall in bound && bound[CopyableToolCall].VMap? {
      assert ValueKnown(bound[CopyableToolCall], known);
      var call := bound[CopyableToolCall].env.fields;
      var written := map[];
      if Arguments in call && call[Arguments].VMap? {
        assert ValueKnown(call[Arguments], known);
        written := call[Arguments].env.fields;
      }
      var named;
      named, more := BoundArguments(written, project, known);
      KnownGrows(call, known, more);
      var fields := call[Arguments := VMap(named)];
      assert CallBound(call, known, fields, more, project);
      ghost var before := more;
      var copyable := new Envelope(fields);
      ClosedWithOneMore(before, copyable, fields);
      more := before[copyable := fields];
      KnownGrows(bound, known, more);
      r, arguments := bound[CopyableToolCall := VMap(copyable)], Some(named);
    }
  }

  /** An action without arguments gets those of its tool call to copy, or new ones. */
  method AddArguments(
      bound: Fields, arguments: Option<Envelope>, project: string, ghost known: Snapshot, ghost was: Fields)
      returns (r: Fields, ghost more: Snapshot)
    requires Holds(known) && Closed(known) && FieldsKnown(bound, known)
    requires match arguments
      case Some(e) => e in known && NamesProject(was, known[e], project)
      case None => was == map[]
    ensures Holds(more) && Closed(more) && Extends(known, more) && fresh(more.Keys - known.Keys)
    ensures FieldsKnown(r, more) && HoldsArguments(was, r, Arguments, more, project)
    ensures DifferAt(bound, r, Arguments)
  {
    more := known;
    var added: Envelope;
    if arguments.Some? {
      added := arguments.value;
    } else {
      added, more := BoundArguments(map[], project, known);
    }
    KnownGrows(bound, known, more);
    r := bound[Arguments := VMap(added)];
  }

  /** One step changes what stands under the key; the steps before and after leave it alone. */
  lemma ArgumentsBoundBetween(
      a: Fields, known: Snapshot, b: Fields, m1: Snapshot, c: Fields, m2: Snapshot, d: Fields, m3: Snapshot,
      key: Key, project: string)
    requires (IsMapAt(a, key) ==> a[key].env in known) && AgreeAt(a, b, key) && Extends(known, m1)
    requires ArgumentsBound(b, m1, c, m2, key, project) && AgreeAt(c, d, key) && Extends(m2, m3)
    ensures ArgumentsBound(a, known, d, m3, key, project)
  {
    if IsMapAt(a, key) {
      assert IsMapAt(b, key) && b[key] == a[key] && IsMapAt(c, key) && d[key] == c[key];
    }
  }

  lemma CopyableIsTheSame(a: Fields, known: Snapshot, b: Fields, m1: Snapshot)
    requires Closed(known) && FieldsKnown(a, known) && AgreeAt(a, b, CopyableToolCall) && Extends(known, m1)
    ensures DictAt(a, CopyableToolCall, known) == DictAt(b, CopyableToolCall, m1)
    ensures CopyableArguments(a, known) == CopyableArguments(b, m1)
  {
    if IsMapAt(a, CopyableToolCall) {
      assert ValueKnown(a[CopyableToolCall], known);
      var call := known[a[CopyableToolCall].env];
      assert Arguments in call ==> ValueKnown(call[Arguments], known);
    }
  }

  lemma CopyableBoundBetween(
      a: Fields, known: Snapshot, b: Fields, m1: Snapshot, c: Fields, m2: Snapshot, d: Fields, m3: Snapshot,
      project: string)
    requires Closed(known) && FieldsKnown(a, known) && AgreeAt(a, b, CopyableToolCall) && Extends(known, m1)
    requires CopyableBound(b, m1, c, m2, project) && AgreeAt(c, d, CopyableToolCall) && Extends(m2, m3)
    ensures CopyableBound(a, known, d, m3, project)
  {
    CopyableIsTheSame(a, known, b, m1);
  }

  lemma StepsBindTheArguments(
      a: Fields, known: Snapshot, b: Fields, m1: Snapshot, c: Fields, m2: Snapshot, d: Fields, m3: Snapshot,
      project: string)
    requires FieldsKnown(a, known) && Extends(known, m1) && Extends(m1, m2) && Extends(m2, m3)
    requires ArgumentsBound(a, known, b, m1, Arguments, project) && DifferAt(a, b, Arguments)
    requires ArgumentsBound(b, m1, c, m2, Params, project) && DifferAt(b, c, Params)
    requires ArgumentsBound(c, m2, d, m3, RequiredArguments, project)
      && DifferAt(c, d, RequiredArguments)
    ensures ArgumentsBound(a, known, d, m3, Arguments, project)
    ensures ArgumentsBound(a, known, d, m3, Params, project)
    ensures ArgumentsBound(a, known, d, m3, RequiredArguments, project)
    ensures forall key | !IsArgumentKey(key) :: AgreeAt(a, d, key)
  {
    assert AgreeAt(b, c, Arguments) && AgreeAt(c, d, Arguments);
    assert AgreeAt(a, b, Params) && AgreeAt(c, d, Params);
    assert AgreeAt(a, b, RequiredArguments) && AgreeAt(b, c, RequiredArguments);
    ArgumentsBoundBetween(a, known, a, known, b, m1, d, m3, Arguments, project);
    ArgumentsBoundBetween(a, known, b, m1, c, m2, d, m3, Params, project);
    ArgumentsBoundBetween(a, known, c, m2, d, m3, d, m3, RequiredArguments, project);
    forall key | !IsArgumentKey(key) ensures AgreeAt(a, d, key) {
      assert AgreeAt(a, b, key) && AgreeAt(b, c, key) && AgreeAt(c, d, key);
    }
  }

  /** Every dictionary of arguments under one of three keys names the project. */
  method BindAllArguments(action: Fields, project: string, ghost known: Snapshot)
      returns (bound: Fields, ghost more: Snapshot)
    requires Holds(known) && Closed(known) && FieldsKnown(action, known)
    ensures Holds(more) && Closed(more) && Extends(known, more) && fresh(more.Keys - known.Keys)
    ensures FieldsKnown(bound, more)
    ensures ArgumentsBound(action, known, bound, more, Arguments, project)
    ensures ArgumentsBound(action, known, bound, more, Params, project)
    ensures ArgumentsBound(action, known, bound, more, RequiredArguments, project)
    ensures forall key | !IsArgumentKey(key) :: AgreeAt(action, bound, key)
  {
    bound, more := BindArguments(action, Arguments, project, known);
    ghost var one, m1 := bound, more;
    bound, more := BindArguments(bound, Params, project, more);
    ghost var two, m2 := bound, more;
    bound, more := BindArguments(bound, RequiredArguments, project, more);
    StepsBindTheArguments(action, known, one, m1, two, m2, bound, more, project);
  }

  /** The steps put together: arguments, then the tool call, then arguments for an action that has none. */
  lemma StepsBindTheAction(
      a: Fields, known: Snapshot, b: Fields, m1: Snapshot, c: Fields, m2: Snapshot, d: Fields, m3: Snapshot,
      project: string)
    requires Closed(known) && FieldsKnown(a, known) && Extends(known, m1) && Extends(m1, m2) && Extends(m2, m3)
    requires forall key | !IsArgumentKey(key) :: AgreeAt(a, b, key)
    requires ArgumentsBound(a, known, b, m1, Arguments, project)
      && ArgumentsBound(a, known, b, m1, Params, project)
      && ArgumentsBound(a, known, b, m1, RequiredArguments, project)
    requires CopyableBound(b, m1, c, m2, project) && DifferAt(b, c, CopyableToolCall)
    requires DifferAt(c, d, Arguments)
    requires if HasArguments(a) then AgreeAt(c, d, Arguments)
      else HoldsArguments(CopyableArguments(a, known), d, Arguments, m3, project)
    ensures ActionBound(a, known, d, m3, project)
  {
    assert AgreeAt(a, b, CopyableToolCall) && AgreeAt(c, d, CopyableToolCall);
    CopyableBoundBetween(a, known, b, m1, c, m2, d, m3, project);
    assert AgreeAt(b, c, Params) && AgreeAt(c, d, Params) && AgreeAt(b, c, Arguments);
    assert AgreeAt(b, c, RequiredArguments) && AgreeAt(c, d, RequiredArguments);
    ArgumentsBoundBetween(a, known, a, known, b, m1, d, m3, Params, project);
    ArgumentsBoundBetween(a, known, a, known, b, m1, d, m3, RequiredArguments, project);
    if HasArguments(a) {
      ArgumentsBoundBetween(a, known, a, known, b, m1, d, m3, Arguments, project);
    }
    forall key | !IsArgumentKey(key) && key != CopyableToolCall ensures AgreeAt(a, d, key) {
      assert AgreeAt(a, b, key) && AgreeAt(b, c, key) && AgreeAt(c, d, key);
    }
  }

  /** An action bound to a project. */
  method ProjectBoundAction(action: Fields, project: string, ghost known: Snapshot)
      returns (bound: Fields, ghost more: Snapshot)
    requires Holds(known) && Closed(known) && FieldsKnown(action, known)
    ensures Holds(more) && Closed(more) && Extends(known, more) && fresh(more.Keys - known.Keys)
    ensures FieldsKnown(bound, more) && ActionBound(action, known, bound, more, project)
  {
    bound, more := BindAllArguments(action, project, known);
    ghost var one, m1 := bound, more;
    assert AgreeAt(action, one, CopyableToolCall);
    CopyableIsTheSame(action, known, one, m1);
    var arguments;
    bound, arguments, more := BindCopyable(bound, project, more);
    ghost var two, m2 := bound, more;
    if !HasArguments(action) {
      bound, more := AddArguments(bound, arguments, project, more, CopyableArguments(action, known));
    }
    StepsBindTheAction(action, known, one, m1, two, m2, bound, more, project);
  }

  /** The keys the projection looks at are the same. */
  lemma BoundKeepsTheRest(a: Fields, known: Snapshot, b: Fields, more: Snapshot, project: string)
    requires ActionBound(a, known, b, more, project)
    ensures SameButPlain(a, b)
  {
  }

  // ----- The actions of a response -----

  /** A value bound to the project: an action is, when there is a project; anything else is as it was. */
  ghost predicate ItemBound(a: Value, known: Snapshot, b: Value, more: Snapshot, project: string) {
    if a.VMap? && project != "" then
      a.env in known && b.VMap? && b.env in more && ActionBound(known[a.env], known, more[b.env], more, project)
    else a == b
  }

  ghost predicate ItemsBound(a: seq<Value>, known: Snapshot, b: seq<Value>, more: Snapshot, project: string) {
    |a| == |b| && forall i | 0 <= i < |a| :: ItemBound(a[i], known, b[i], more, project)
  }

  method BindItem(item: Value, project: string, ghost known: Snapshot) returns (r: Value, ghost more: Snapshot)
    requires Holds(known) && Closed(known) && (item.VMap? ==> item.env in known) && project != ""
    ensures Holds(more) && Closed(more) && Extends(known, more) && fresh(more.Keys - known.Keys)
    ensures (r.VMap? ==> r.env in more) && ItemBound(item, known, r, more, project) && (!item.VMap? ==> r == item)
  {
    r, more := item, known;
    if item.VMap? {
      var fields;
      fields, more := ProjectBoundAction(item.env.fields, project, known);
      ghost var before := more;
      var copy := new Envelope(fields);
      ClosedWithOneMore(more, copy, fields);
      r, more := VMap(copy), more[copy := fields];
      ActionBoundGrows(known[item.env], known, fields, before, more, project);
    }
  }

  lemma ActionBoundGrows(a: Fields, known: Snapshot, b: Fields, more: Snapshot, later: Snapshot, project: string)
    requires ActionBound(a, known, b, more, project) && Extends(more, later)
    ensures ActionBound(a, known, b, later, project)
  {
  }

  lemma ItemBoundGrows(a: Value, known: Snapshot, b: Value, more: Snapshot, later: Snapshot, project: string)
    requires ItemBound(a, known, b, more, project) && Extends(more, later)
    ensures ItemBound(a, known, b, later, project)
  {
    if a.VMap? && project != "" {
      ActionBoundGrows(known[a.env], known, more[b.env], more, later, project);
    }
  }

  /** What was known earlier is the same among what is known later. */
  lemma ActionBoundFromEarlier(a: Fields, base: Snapshot, known: Snapshot, b: Fields, more: Snapshot, project: string)
    requires ActionBound(a, known, b, more, project)
    requires Closed(base) && FieldsKnown(a, base) && Extends(base, known)
    ensures ActionBound(a, base, b, more, project)
  {
    CopyableIsTheSame(a, base, a, known);
    assert forall key | key in a :: ValueKnown(a[key], base);
    if IsMapAt(a, CopyableToolCall) {
      var call := base[a[CopyableToolCall].env];
      assert Arguments in call ==> ValueKnown(call[Arguments], base);
    }
  }

  lemma ItemBoundFromEarlier(a: Value, base: Snapshot, known: Snapshot, b: Value, more: Snapshot, project: string)
    requires ItemBound(a, known, b, more, project)
    requires Closed(base) && (a.VMap? ==> a.env in base) && Extends(base, known)
    ensures ItemBound(a, base, b, more, project)
  {
    if a.VMap? && project != "" {
      ActionBoundFromEarlier(base[a.env], base, known, more[b.env], more, project);
    }
  }

  lemma BoundStays(
      a: seq<Value>, known: Snapshot, b: seq<Value>, more: Snapshot, later: Snapshot, project: string)
    requires ItemsWithin(b, more) && ItemsBound(a, known, b, more, project) && Extends(more, later)
    ensures ItemsWithin(b, later) && ItemsBound(a, known, b, later, project)
  {
    forall i | 0 <= i < |a| ensures ItemBound(a[i], known, b[i], later, project) {
      ItemBoundGrows(a[i], known, b[i], more, later, project);
    }
  }

  lemma BoundOneMore(
      a: seq<Value>, known: Snapshot, b: seq<Value>, more: Snapshot, item: Value, r: Value, project: string)
    requires ItemsWithin(b, more) && ItemsBound(a, known, b, more, project)
    requires (r.VMap? ==> r.env in more) && ItemBound(item, known, r, more, project)
    ensures ItemsWithin(b + [r], more) && ItemsBound(a + [item], known, b + [r], more, project)
  {
    forall i | 0 <= i < |a| + 1 ensures ItemBound((a + [item])[i], known, (b + [r])[i], more, project) {
      if i < |a| {
        assert ItemBound(a[i], known, b[i], more, project);
      }
    }
  }

  method BindItems(items: seq<Value>, project: string, ghost known: Snapshot, ghost base: Snapshot)
      returns (r: seq<Value>, ghost more: Snapshot)
    requires Holds(known) && Closed(known) && Closed(base) && ItemsWithin(items, base) && Extends(base, known)
    requires project != ""
    ensures Holds(more) && Closed(more) && Extends(known, more) && fresh(more.Keys - known.Keys)
    ensures ItemsWithin(r, more) && ItemsBound(items, base, r, more, project)
  {
    r, more := [], known;
    for n := 0 to |items|
      invariant Holds(more) && Closed(more) && Extends(known, more) && fresh(more.Keys - known.Keys)
      invariant ItemsWithin(r, more) && ItemsBound(items[..n], base, r, more, project)
    {
      ghost var before := more;
      var bound;
      bound, more := BindItem(items[n], project, before);
      ItemBoundFromEarlier(items[n], base, before, bound, more, project);
      BoundStays(items[..n], base, r, before, more, project);
      BoundOneMore(items[..n], base, r, more, items[n], bound, project);
      assert items[..n + 1] == items[..n] + [items[n]];
      r := r + [bound];
    }
    assert items[..|items|] == items;
  }

  // ----- The whole response -----

  function ActionIndex(key: Key): nat {
    match key
    case PrimaryNextAction => 0
    case RecommendedNextAction => 1
    case NextAction => 2
    case SafeNextAction => 3
    case _ => 4
  }

  lemma ActionKeyAt(i: nat)
    requires i < |ACTION_KEYS|
    ensures ActionIndex(ACTION_KEYS[i]) == i
  {
  }

  /** How far binding has come: in the single actions, then in the lists. */
  datatype Stage = Stage(single: nat, list: nat)

  ghost predicate KeyBound(
      key: Key, was: Value, now: Value, at: Stage, known: Snapshot, more: Snapshot, project: string)
  {
    if NavigationIndex(key) < at.list <= 3 && was.VList? then
      now.VList? && ItemsWithin(now.items, more) && ItemsBound(was.items, known, now.items, more, project)
    else if ActionIndex(key) < at.single <= 4 then ItemBound(was, known, now, more, project)
    else was == now
  }

  ghost predicate ResponseBound(
      was: Fields, now: Fields, at: Stage, known: Snapshot, more: Snapshot, project: string)
  {
    was.Keys == now.Keys && forall key | key in was :: KeyBound(key, was[key], now[key], at, known, more, project)
  }

  const BOUND := Stage(4, 3)

  lemma ResponseBoundGrows(
      was: Fields, now: Fields, at: Stage, known: Snapshot, more: Snapshot, later: Snapshot, project: string)
    requires ResponseBound(was, now, at, known, more, project) && Extends(more, later)
    ensures ResponseBound(was, now, at, known, later, project)
  {
    forall key | key in was ensures KeyBound(key, was[key], now[key], at, known, later, project) {
      assert KeyBound(key, was[key], now[key], at, known, more, project);
      if NavigationIndex(key) < at.list <= 3 && was[key].VList? {
        BoundStays(was[key].items, known, now[key].items, more, later, project);
      } else if ActionIndex(key) < at.single <= 4 {
        ItemBoundGrows(was[key], known, now[key], more, later, project);
      }
    }
  }

  lemma WithSingle(
      was: Fields, now: Fields, n: nat, known: Snapshot, more: Snapshot, key: Key, v: Value, project: string)
    requires ResponseBound(was, now, Stage(n, 0), known, more, project) && n < 4 && key == ACTION_KEYS[n]
    requires key in was && ItemBound(was[key], known, v, more, project)
    ensures ResponseBound(was, now[key := v], Stage(n + 1, 0), known, more, project)
  {
    ActionKeyAt(n);
    var later := now[key := v];
    forall other | other in was
      ensures KeyBound(other, was[other], later[other], Stage(n + 1, 0), known, more, project)
    {
      assert KeyBound(other, was[other], now[other], Stage(n, 0), known, more, project);
      assert ActionIndex(other) == n ==> other == key;
    }
  }

  lemma WithoutSingle(was: Fields, now: Fields, n: nat, known: Snapshot, more: Snapshot, key: Key, project: string)
    requires ResponseBound(was, now, Stage(n, 0), known, more, project) && n < 4 && key == ACTION_KEYS[n]
    requires key in was ==> !was[key].VMap?
    ensures ResponseBound(was, now, Stage(n + 1, 0), known, more, project)
  {
    ActionKeyAt(n);
    forall other | other in was ensures KeyBound(other, was[other], now[other], Stage(n + 1, 0), known, more, project) {
      assert KeyBound(other, was[other], now[other], Stage(n, 0), known, more, project);
      assert ActionIndex(other) == n ==> other == key;
    }
  }

  lemma WithList(
      was: Fields, now: Fields, n: nat, known: Snapshot, more: Snapshot, key: Key, items: seq<Value>,
      project: string)
    requires ResponseBound(was, now, Stage(4, n), known, more, project) && n < 3 && key == NAVIGATION_KEYS[n]
    requires key in was && was[key].VList? && ItemsWithin(items, more)
    requires ItemsBound(was[key].items, known, items, more, project)
    ensures ResponseBound(was, now[key := VList(items)], Stage(4, n + 1), known, more, project)
  {
    NavigationKeyAt(n);
    var later := now[key := VList(items)];
    forall other | other in was
      ensures KeyBound(other, was[other], later[other], Stage(4, n + 1), known, more, project)
    {
      assert KeyBound(other, was[other], now[other], Stage(4, n), known, more, project);
    }
  }

  lemma WithoutList(was: Fields, now: Fields, n: nat, known: Snapshot, more: Snapshot, key: Key, project: string)
    requires ResponseBound(was, now, Stage(4, n), known, more, project) && n < 3 && key == NAVIGATION_KEYS[n]
    requires key !in was || !was[key].VList?
    ensures ResponseBound(was, now, Stage(4, n + 1), known, more, project)
  {
    NavigationKeyAt(n);
    forall other | other in was ensures KeyBound(other, was[other], now[other], Stage(4, n + 1), known, more, project) {
      assert KeyBound(other, was[other], now[other], Stage(4, n), known, more, project);
    }
  }

  lemma UntouchedYet(
      was: Fields, now: Fields, at: Stage, known: Snapshot, more: Snapshot, key: Key, project: string)
    requires ResponseBound(was, now, at, known, more, project)
    requires NavigationIndex(key) >= at.list && ActionIndex(key) >= at.single
    ensures AgreeAt(was, now, key)
  {
    assert key in was ==> KeyBound(key, was[key], now[key], at, known, more, project);
  }

  /** The four single actions of a response. */
  method BindSingleActions(fields: Fields, project: string, ghost known: Snapshot)
      returns (r: Fields, ghost more: Snapshot)
    requires Holds(known) && Closed(known) && FieldsKnown(fields, known) && project != ""
    ensures Holds(more) && Closed(more) && Extends(known, more) && fresh(more.Keys - known.Keys)
    ensures FieldsKnown(r, more) && ResponseBound(fields, r, Stage(4, 0), known, more, project)
  {
    r, more := fields, known;
    for i := 0 to |ACTION_KEYS|
      invariant Holds(more) && Closed(more) && Extends(known, more) && fresh(more.Keys - known.Keys)
      invariant FieldsKnown(r, more) && ResponseBound(fields, r, Stage(i, 0), known, more, project)
    {
      var key := ACTION_KEYS[i];
      ActionKeyAt(i);
      UntouchedYet(fields, r, Stage(i, 0), known, more, key, project);
      if key in r && r[key].VMap? {
        ghost var before, was := more, r;
        assert ValueKnown(fields[key], known);
        var bound;
        bound, more := BindItem(r[key], project, before);
        ItemBoundFromEarlier(fields[key], known, before, bound, more, project);
        ResponseBoundGrows(fields, was, Stage(i, 0), known, before, more, project);
        WithSingle(fields, was, i, known, more, key, bound, project);
        KnownGrows(was, before, more);
        r := r[key := bound];
      } else {
        WithoutSingle(fields, r, i, known, more, key, project);
      }
    }
  }

  /** The three lists of a response. */
  method BindLists(fields: Fields, start: Fields, project: string, ghost known: Snapshot, ghost begun: Snapshot)
      returns (r: Fields, ghost more: Snapshot)
    requires Closed(known) && FieldsKnown(fields, known) && project != ""
    requires Holds(begun) && Closed(begun) && Extends(known, begun)
    requires FieldsKnown(start, begun) && ResponseBound(fields, start, Stage(4, 0), known, begun, project)
    ensures Holds(more) && Closed(more) && Extends(begun, more) && fresh(more.Keys - begun.Keys)
    ensures FieldsKnown(r, more) && ResponseBound(fields, r, BOUND, known, more, project)
  {
    r, more := start, begun;
    for n := 0 to |NAVIGATION_KEYS|
      invariant Holds(more) && Closed(more) && Extends(begun, more) && fresh(more.Keys - begun.Keys)
      invariant FieldsKnown(r, more) && ResponseBound(fields, r, Stage(4, n), known, more, project)
    {
      var key := NAVIGATION_KEYS[n];
      NavigationKeyAt(n);
      NoListIsASingle(n);
      UntouchedYet(fields, r, Stage(4, n), known, more, key, project);
      if key in r && r[key].VList? {
        ghost var before, was := more, r;
        assert ValueKnown(fields[key], known);
        var items;
        items, more := BindItems(r[key].items, project, before, known);
        ResponseBoundGrows(fields, was, Stage(4, n), known, before, more, project);
        WithList(fields, was, n, known, more, key, items, project);
        KnownGrows(was, before, more);
        r := r[key := VList(items)];
      } else {
        WithoutList(fields, r, n, known, more, key, project);
      }
    }
  }

  lemma NoListIsASingle(n: nat)
    requires n < 3
    ensures ActionIndex(NAVIGATION_KEYS[n]) == 4
  {
  }

  /** A copy of the response whose own actions are bound to the project, when there is one. */
  method BindTopLevelActions(response: Envelope, project: string, ghost known: Snapshot)
      returns (r: Envelope, ghost more: Snapshot)
    requires Holds(known) && Closed(known) && response in known
    ensures Holds(more) && Closed(more) && Extends(known, more) && fresh(more.Keys - known.Keys) && r in more
    ensures ResponseBound(known[response], more[r], BOUND, known, more, project)
  {
    var fields := response.fields;
    more := known;
    if project == "" {
      UnboundIsBound(fields, known);
    } else {
      fields, more := BindSingleActions(response.fields, project, known);
      fields, more := BindLists(response.fields, fields, project, known, more);
    }
    r := new Envelope(fields);
    ClosedWithOneMore(more, r, fields);
    ResponseBoundGrows(known[response], fields, BOUND, known, more, more[r := fields], project);
    more := more[r := fields];
  }

  lemma UnboundIsBound(fields: Fields, known: Snapshot)
    requires FieldsKnown(fields, known)
    ensures ResponseBound(fields, fields, BOUND, known, known, "")
  {
    forall key | key in fields ensures KeyBound(key, fields[key], fields[key], BOUND, known, known, "") {
      assert ValueKnown(fields[key], known);
    }
  }

  // ----- What the bound response looks like -----

  /** The same response but for arguments of actions in its own lists and for its single actions. */
  ghost predicate TreesBound(t: Tree, u: Tree) {
    t.nodes.Keys == u.nodes.Keys && forall key | key in t.nodes :: NodesBound(key, t.nodes[key], u.nodes[key])
  }

  ghost predicate NodesBound(key: Key, a: Node, b: Node) {
    match a
    case Navigation(entries) => b.Navigation? && EntriesBound(entries, b.entries)
    case Nested(_) => a == b
    case Other(_) => a == b || (key.IsPlain() && b.Other?)
  }

  ghost predicate EntriesBound(a: seq<Entry>, b: seq<Entry>) {
    |a| == |b| && forall i | 0 <= i < |a| :: EntryBound(a[i], b[i])
  }

  ghost predicate EntryBound(a: Entry, b: Entry) {
    if a.Action? then b.Action? && SameButPlain(a.fields, b.fields) else a == b
  }

  lemma {:induction false} ViewGrows(e: Envelope, depth: nat, known: Snapshot, more: Snapshot)
    requires Within(e, depth, known, known) && Extends(known, more)
    ensures Within(e, depth, more, more) && View(e, depth, more, more) == View(e, depth, known, known)
    decreases MAX_DEPTH - depth
  {
    forall key | key in known[e]
      ensures ValueWithin(key, known[e][key], depth, more, more)
      ensures ViewValue(key, known[e][key], depth, more, more) == ViewValue(key, known[e][key], depth, known, known)
    {
      var v := known[e][key];
      assert ValueWithin(key, v, depth, known, known);
      if IsNavigation(key, v) {
        EntriesAgree(v.items, known, v.items, more, |v.items|);
      } else if IsNested(key, v, depth) {
        ViewGrows(v.env, depth + 1, known, more);
      }
    }
  }

  lemma BoundEntries(a: seq<Value>, known: Snapshot, b: seq<Value>, more: Snapshot, project: string)
    requires ItemsWithin(a, known) && ItemsWithin(b, more) && ItemsBound(a, known, b, more, project)
    requires Extends(known, more)
    ensures EntriesBound(Entries(a, |a|, known), Entries(b, |b|, more))
  {
    forall i | 0 <= i < |a| ensures EntryBound(Entries(a, |a|, known)[i], Entries(b, |b|, more)[i]) {
      EntriesAt(a, |a|, known, i);
      EntriesAt(b, |b|, more, i);
      assert ItemBound(a[i], known, b[i], more, project);
      if a[i].VMap? && project != "" {
        BoundKeepsTheRest(known[a[i].env], known, more[b[i].env], more, project);
      }
    }
  }

  lemma PlainValue(key: Key, was: Value, now: Value, known: Snapshot, more: Snapshot)
    requires ActionIndex(key) < 4
    requires ValueWithin(key, was, 0, known, known) && ValueWithin(key, now, 0, more, more)
    ensures NodesBound(key, ViewValue(key, was, 0, known, known), ViewValue(key, now, 0, more, more))
  {
    assert key.IsPlain();
  }

  lemma BoundValue(key: Key, was: Value, now: Value, known: Snapshot, more: Snapshot, project: string)
    requires KeyBound(key, was, now, BOUND, known, more, project) && Extends(known, more)
    requires ValueWithin(key, was, 0, known, known) && ValueWithin(key, now, 0, more, more)
    ensures NodesBound(key, ViewValue(key, was, 0, known, known), ViewValue(key, now, 0, more, more))
  {
    if IsNavigation(key, was) {
      BoundEntries(was.items, known, now.items, more, project);
    } else if ActionIndex(key) < 4 {
      PlainValue(key, was, now, known, more);
    } else if IsNested(key, was, 0) {
      ViewGrows(was.env, 1, known, more);
    }
  }

  lemma BoundView(e: Envelope, r: Envelope, known: Snapshot, more: Snapshot, project: string)
    requires Within(e, 0, known, known) && Within(r, 0, more, more) && Extends(known, more)
    requires ResponseBound(known[e], more[r], BOUND, known, more, project)
    ensures TreesBound(View(e, 0, known, known), View(r, 0, more, more))
  {
    var t, u := View(e, 0, known, known), View(r, 0, more, more);
    forall key | key in t.nodes ensures NodesBound(key, t.nodes[key], u.nodes[key]) {
      assert KeyBound(key, known[e][key], more[r][key], BOUND, known, more, project);
      assert ValueWithin(key, known[e][key], 0, known, known) && ValueWithin(key, more[r][key], 0, more, more);
      BoundValue(key, known[e][key], more[r][key], known, more, project);
    }
  }

  lemma BoundEntryActs(a: Entry, b: Entry, allowed: Allowed)
    requires EntryBound(a, b)
    ensures KeepsEntry(a, allowed) == KeepsEntry(b, allowed)
    ensures a.Action? ==> b.Action? && Confirms(a.fields) == Confirms(b.fields)
  {
    if a.Action? {
      assert AgreeAt(a.fields, b.fields, Tool) && AgreeAt(a.fields, b.fields, RequiresConfirmation);
    }
  }

  /** Binding changes nothing about which actions confirm. */
  lemma BoundConfirms(t: Tree, u: Tree)
    requires TreesBound(t, u)
    ensures TreeConfirms(t) == TreeConfirms(u)
  {
    forall key | key in t.nodes ensures NodeConfirms(t.nodes[key]) == NodeConfirms(u.nodes[key]) {
      assert NodesBound(key, t.nodes[key], u.nodes[key]);
      if t.nodes[key].Navigation? {
        BoundListConfirms(t.nodes[key].entries, u.nodes[key].entries);
      }
    }
  }

  lemma BoundListConfirms(a: seq<Entry>, b: seq<Entry>)
    requires EntriesBound(a, b)
    ensures SomeConfirms(a) == SomeConfirms(b)
  {
    forall i | 0 <= i < |a|
      ensures (a[i].Action? && Confirms(a[i].fields)) == (b[i].Action? && Confirms(b[i].fields))
    {
      assert EntryBound(a[i], b[i]);
      BoundEntryActs(a[i], b[i], None);
    }
  }

  lemma {:induction false} BoundEntriesFilter(a: seq<Entry>, b: seq<Entry>, n: nat, allowed: Allowed)
    requires EntriesBound(a, b) && n <= |a|
    ensures EntriesBound(FilterEntries(a, n, allowed), FilterEntries(b, n, allowed))
  {
    if n > 0 {
      BoundEntriesFilter(a, b, n - 1, allowed);
      assert EntryBound(a[n - 1], b[n - 1]);
      BoundEntryActs(a[n - 1], b[n - 1], allowed);
    }
  }

  /** Nor which actions are kept. */
  lemma BoundFilters(t: Tree, u: Tree, allowed: Allowed)
    requires TreesBound(t, u)
    ensures TreesBound(FilterTree(t, allowed), FilterTree(u, allowed))
  {
    forall key | key in t.nodes
      ensures NodesBound(key, FilterNode(t.nodes[key], allowed), FilterNode(u.nodes[key], allowed))
    {
      assert NodesBound(key, t.nodes[key], u.nodes[key]);
      if t.nodes[key].Navigation? {
        BoundEntriesFilter(t.nodes[key].entries, u.nodes[key].entries, |t.nodes[key].entries|, allowed);
      }
    }
  }
}
