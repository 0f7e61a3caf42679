/**
 The workflow engine: instances move along permitted transitions and every move leaves a history
 row. TransitionState reads instance and rule first and writes afterwards, without a lock.
 */
module Workflow {
  import opened Common
  import opened Runs

  datatype Transition = Transition(from: Id, to: Id, requiredPermission: Option<string>, requiredRole: Option<string>)

  /** What the engine only reads. */
  datatype Rules = Rules(
    workflows: map<string, Id>,         // workflow by name
    initialStates: map<Id, Id>,         // INITIAL state of a workflow
    transitions: seq<Transition>,
    grants: map<string, set<string>>)   // permissions by role

  datatype Instance = Instance(workflow: Id, current: Id)

  /** A history row, with the role its actor had. */
  datatype Entry = Entry(instance: Id, from: Option<Id>, to: Id, actor: Option<Id>, role: string)

  /** A request between its first statements and its last transaction. */
  datatype Task =
    | Move(instance: Id, from: Id, to: Id, actor: Id, role: string)
    | Opening(instance: Id, first: Id)  // the instance is created, its first history row is not

  datatype Error = WorkflowNotFound | StateNotFound | InstanceNotFound | TransitionNotAllowed | Unauthorized

  datatype State = State(rules: Rules, instances: map<Id, Instance>, history: seq<Entry>, pending: map<nat, Task>)

  datatype Event =
    | Create(r: nat, name: string, id: Id)
    | Read(r: nat, instance: Id, to: Id, actor: Id, role: string, rule: Option<Transition>)
    | Write(r: nat)

  predicate HasPermission(rules: Rules, role: string, permission: string) {
    role == "SUPER_ADMIN" || (role in rules.grants && permission in rules.grants[role])
  }

  predicate IsRule(rules: Rules, from: Id, to: Id, t: Transition) {
    t in rules.transitions && t.from == from && t.to == to
  }

  /** What the query for one pair of states may return: any rule for it, if there is one. */
  ghost predicate IsAnswer(rules: Rules, from: Id, to: Id, rule: Option<Transition>) {
    if rule.Some? then IsRule(rules, from, to, rule.value) else forall t :: !IsRule(rules, from, to, t)
  }

  predicate Demands(requirement: Option<string>) { requirement.Some? && requirement.value != "" }

  /** The role meets the rule's permission and its role. */
  predicate Allows(rules: Rules, t: Transition, role: string) {
    && (Demands(t.requiredPermission) ==> HasPermission(rules, role, t.requiredPermission.value))
    && (Demands(t.requiredRole) ==> role == t.requiredRole.value)
  }

  ghost predicate Permitted(rules: Rules, from: Id, to: Id, role: string) {
    exists t :: IsRule(rules, from, to, t) && Allows(rules, t, role)
  }

  function StartError(s: State, name: string): Option<Error> {
    if name !in s.rules.workflows then Some(WorkflowNotFound)
    else if s.rules.workflows[name] !in s.rules.initialStates then Some(StateNotFound)
    else None
  }

  function TransitionError(s: State, id: Id, role: string, rule: Option<Transition>): Option<Error> {
    if id !in s.instances then Some(InstanceNotFound)
    else if rule == None then Some(TransitionNotAllowed)
    else if !Allows(s.rules, rule.value, role) then Some(Unauthorized)
    else None
  }

  /** The first commit of a start. */
  function Created(s: State, id: Id, workflow: Id, first: Id): State {
    s.(instances := s.instances[id := Instance(workflow, first)])
  }

  /** The row a task ends with. */
  function RowOf(task: Task): Entry {
    match task
    case Move(id, from, to, actor, role) => Entry(id, Some(from), to, Some(actor), role)
    case Opening(id, first) => Entry(id, None, first, None, "")
  }

  /** The update of the instance and its history row, one transaction. */
  function Written(s: State, task: Task): State
    requires task.instance in s.instances
  {
    s.(instances := s.instances[task.instance := s.instances[task.instance].(current := RowOf(task).to)],
       history := s.history + [RowOf(task)])
  }

  /** Generated instance ids are new, and the query for a rule gives one of its possible answers. */
  ghost function Apply(s: State, e: Event): State {
    match e
    case Create(r, name, id) =>
      if r in s.pending || StartError(s, name).Some? || id in s.instances then s
      else
        var workflow := s.rules.workflows[name];
        var first := s.rules.initialStates[workflow];
        Created(s, id, workflow, first).(pending := s.pending[r := Opening(id, first)])
    case Read(r, id, to, actor, role, rule) =>
      if r in s.pending || TransitionError(s, id, role, rule).Some?
        || !IsAnswer(s.rules, s.instances[id].current, to, rule) then s
      else s.(pending := s.pending[r := Move(id, s.instances[id].current, to, actor, role)])
    case Write(r) =>
      if r in s.pending && s.pending[r].instance in s.instances then
        Written(s.(pending := s.pending - {r}), s.pending[r])
      else s
  }

  class Engine {
    const rules: Rules
    var instances: map<Id, Instance>
    var history: seq<Entry>

    ghost function View(): State
      reads this
    {
      State(rules, instances, history, map[])
    }

    constructor (rules: Rules)
      ensures View() == State(rules, map[], [], map[])
    {
      this.rules, instances, history := rules, map[], [];
    }

    method GetTransition(from: Id, to: Id) returns (rule: Option<Transition>)
      ensures IsAnswer(rules, from, to, rule)
    {
      var i := 0;
      while i < |rules.transitions|
        invariant i <= |rules.transitions|
        invariant forall k :: 0 <= k < i ==> !IsRule(rules, from, to, rules.transitions[k])
      {
        if rules.transitions[i].from == from && rules.transitions[i].to == to {
          return Some(rules.transitions[i]);
        }
        i := i + 1;
      }
      forall t ensures !IsRule(rules, from, to, t) {
        if t in rules.transitions {
          var k :| 0 <= k < |rules.transitions| && rules.transitions[k] == t;
        }
      }
      return None;
    }

    method UpdateInstanceAndRecordHistory(task: Task)
      requires task.instance in instances
      modifies this
      ensures View() == Written(old(View()), task)
    {
      var row := RowOf(task);
      instances := instances[task.instance := instances[task.instance].(current := row.to)];
      history := history + [row];
    }

    /** With nobody in between, its two commits are the two steps of one call. */
    method StartWorkflow(name: string, id: Id) returns (error: Option<Error>)
      requires id !in instances
      modifies this
      ensures error == StartError(old(View()), name)
      ensures error ==
        if name !in rules.workflows then Some(WorkflowNotFound)
        else if rules.workflows[name] !in rules.initialStates then Some(StateNotFound)
        else None
      ensures error.Some? ==> instances == old(instances) && history == old(history)
      ensures error.None? ==>
        var workflow := rules.workflows[name];
        var first := rules.initialStates[workflow];
        && instances == old(instances)[id := Instance(workflow, first)]
        && history == old(history) + [Entry(id, None, first, None, "")]
      ensures View() == Run(Apply, old(View()), [Create(0, name, id), Write(0)])
    {
      CreateThenWrite(View(), 0, name, id);
      if name !in rules.workflows {
        return Some(WorkflowNotFound);
      }
      var workflow := rules.workflows[name];
      if workflow !in rules.initialStates {
        return Some(StateNotFound);
      }
      var first := rules.initialStates[workflow];
      instances := instances[id := Instance(workflow, first)];
      UpdateInstanceAndRecordHistory(Opening(id, first));
      return None;
    }

    /** With nobody in between, reading and writing are the two steps of one call. */
    method TransitionState(id: Id, to: Id, actor: Id, role: string)
      returns (error: Option<Error>, ghost rule: Option<Transition>)
      modifies this
      ensures id in old(instances) ==> IsAnswer(rules, old(instances)[id].current, to, rule)
      ensures error == TransitionError(old(View()), id, role, rule)
      ensures error == Some(InstanceNotFound) <==> id !in old(instances)
      ensures id in old(instances) ==>
        (error == Some(TransitionNotAllowed) <==>
          forall t :: t in rules.transitions ==> t.from != old(instances)[id].current || t.to != to)
      ensures id in old(instances) && rule.Some? ==>
        var permission, required := rule.value.requiredPermission, rule.value.requiredRole;
        (error == Some(Unauthorized) <==>
          || (required.Some? && required.value != "" && required.value != role)
          || (permission.Some? && permission.value != "" && role != "SUPER_ADMIN"
                && (role in rules.grants ==> permission.value !in rules.grants[role])))
      ensures error in {None, Some(InstanceNotFound), Some(TransitionNotAllowed), Some(Unauthorized)}
      ensures error.Some? ==> instances == old(instances) && history == old(history)
      ensures error.None? ==>
        && rule.Some? && rule.value in rules.transitions
        && rule.value.from == old(instances)[id].current && rule.value.to == to
        && instances == old(instances)[id := old(instances)[id].(current := to)]
        && history == old(history) + [Entry(id, Some(old(instances)[id].current), to, Some(actor), role)]
      ensures View() == Run(Apply, old(View()), [Read(0, id, to, actor, role, rule), Write(0)])
    {
      rule := None;
      if id !in instances {
        ReadThenWrite(View(), 0, id, to, actor, role, None);
        return Some(InstanceNotFound), None;
      }
      var from := instances[id].current;
      var found := GetTransition(from, to);
      rule := found;
      ReadThenWrite(View(), 0, id, to, actor, role, rule);
      if found == None {
        assert forall t :: t in rules.transitions ==> !IsRule(rules, from, to, t);
        return Some(TransitionNotAllowed), rule;
      }
      var permission, required := found.value.requiredPermission, found.value.requiredRole;
      if permission.Some? && permission.value != "" {
        if !HasPermission(rules, role, permission.value) {
          return Some(Unauthorized), rule;
        }
      }
      if required.Some? && required.value != "" {
        if role != required.value {
          return Some(Unauthorized), rule;
        }
      }
      UpdateInstanceAndRecordHistory(Move(id, from, to, actor, role));
      return None, rule;
    }
  }

  /** The two steps of a call, taken one after the other. */
  lemma {:induction false} ReadThenWrite(
      s: State, r: nat, id: Id, to: Id, actor: Id, role: string, rule: Option<Transition>)
    requires r !in s.pending && (id in s.instances ==> IsAnswer(s.rules, s.instances[id].current, to, rule))
    ensures Run(Apply, s, [Read(r, id, to, actor, role, rule), Write(r)]) ==
      if TransitionError(s, id, role, rule).Some? then s
        else Written(s, Move(id, s.instances[id].current, to, actor, role))
  {
    var read, write := Read(r, id, to, actor, role, rule), Write(r);
    assert [read, write][1..] == [write];
    RunOne(Apply, Apply(s, read), write);
    if TransitionError(s, id, role, rule).None? {
      assert Apply(s, read).pending - {r} == s.pending;
    }
  }

  lemma {:induction false} CreateThenWrite(s: State, r: nat, name: string, id: Id)
    requires r !in s.pending && id !in s.instances
    ensures Run(Apply, s, [Create(r, name, id), Write(r)]) ==
      if StartError(s, name).Some? then s
      else
        var workflow := s.rules.workflows[name];
        var first := s.rules.initialStates[workflow];
        Written(Created(s, id, workflow, first), Opening(id, first))
  {
    var create, write := Create(r, name, id), Write(r);
    assert [create, write][1..] == [write];
    RunOne(Apply, Apply(s, create), write);
    if StartError(s, name).None? {
      assert Apply(s, create).pending - {r} == s.pending;
    }
  }
}
