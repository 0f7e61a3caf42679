/** Histories of workflow instances are permitted paths, as long as no write is stale. */
module WorkflowSafety {
  import opened Common
  import opened Runs
  import opened Workflow

  /** The history rows of one instance, oldest first. */
  function Own(history: seq<Entry>, id: Id): seq<Entry> {
    if history == [] then []
    else
      var last := history[|history| - 1];
      Own(history[..|history| - 1], id) + if last.instance == id then [last] else []
  }

  /** Follows the rows from a state; a row that starts elsewhere breaks the path. */
  function Replay(start: Id, entries: seq<Entry>): Option<Id> {
    if entries == [] then Some(start)
    else
      var at := Replay(start, entries[..|entries| - 1]);
      var last := entries[|entries| - 1];
      if at.Some? && last.from == at then Some(last.to) else None
  }

  /**
   A rule leads from one state to the other, the actor had the role it asks for, and that role the permission it
   asks for; an empty demand is none, and a super admin has every permission.
   */
  ghost predicate Edge(rules: Rules, e: Entry) {
    && e.from.Some? && e.actor.Some?
    && exists t :: t in rules.transitions && t.from == e.from.value && t.to == e.to
         && (t.requiredRole.Some? && t.requiredRole.value != "" ==> e.role == t.requiredRole.value)
         && (t.requiredPermission.Some? && t.requiredPermission.value != "" ==>
              e.role == "SUPER_ADMIN" || (e.role in rules.grants && t.requiredPermission.value in rules.grants[e.role]))
  }

  lemma PermittedIsEdge(rules: Rules, e: Entry)
    requires e.from.Some? && e.actor.Some? && Permitted(rules, e.from.value, e.to, e.role)
    ensures Edge(rules, e)
  {
    var t :| IsRule(rules, e.from.value, e.to, t) && Allows(rules, t, e.role);
  }

  /** The history of an instance: the first row opens it in the initial state, the rest leads to where it is. */
  ghost predicate IsPath(rules: Rules, instance: Instance, entries: seq<Entry>) {
    && instance.workflow in rules.initialStates
    && entries != []
    && entries[0].from == None && entries[0].actor == None && entries[0].to == rules.initialStates[instance.workflow]
    && Replay(rules.initialStates[instance.workflow], entries[1..]) == Some(instance.current)
    && forall k :: 1 <= k < |entries| ==> Edge(rules, entries[k])
  }

  /** The instance has been created and its first history row not been written. */
  predicate Opens(s: State, id: Id) {
    exists r | r in s.pending :: s.pending[r].Opening? && s.pending[r].instance == id
  }

  /** A task fits: a move is permitted, an opening is for the initial state. */
  ghost predicate Fits(s: State, task: Task) {
    && task.instance in s.instances
    && match task
       case Move(_, from, to, _, role) => Permitted(s.rules, from, to, role)
       case Opening(id, first) =>
         s.instances[id].workflow in s.rules.initialStates && first == s.rules.initialStates[s.instances[id].workflow]
  }

  /** What every event keeps, stale writes included: tasks fit, and an instance is opened once. */
  ghost predicate TasksFit(s: State) {
    && (forall r :: r in s.pending ==> Fits(s, s.pending[r]))
    && (forall q, r :: q in s.pending && r in s.pending && q != r && s.pending[q].Opening? && s.pending[r].Opening?
          ==> s.pending[q].instance != s.pending[r].instance)
  }

  ghost predicate InOrder(s: State, id: Id) {
    if id !in s.instances || Opens(s, id) then Own(s.history, id) == []
    else IsPath(s.rules, s.instances[id], Own(s.history, id))
  }

  ghost predicate Inv(s: State) { TasksFit(s) && forall id :: InOrder(s, id) }

  predicate Empty(s: State) { s.instances == map[] && s.history == [] && s.pending == map[] }

  lemma {:induction false} OwnGrows(history: seq<Entry>, e: Entry, id: Id)
    ensures Own(history + [e], id) == Own(history, id) + if e.instance == id then [e] else []
  {
    assert (history + [e])[..|history|] == history;
  }

  lemma {:induction false} ReplayGrows(start: Id, entries: seq<Entry>, e: Entry)
    ensures Replay(start, entries + [e]) ==
      if Replay(start, entries).Some? && e.from == Replay(start, entries) then Some(e.to) else None
  {
    assert (entries + [e])[..|entries|] == entries;
  }

  /** Row k starts where the row before it ended. */
  predicate Linked(start: Id, entries: seq<Entry>, k: nat)
    requires k < |entries|
  {
    entries[k].from == Some(if k == 0 then start else entries[k - 1].to)
  }

  /** Replaying succeeds exactly when every row is linked, and ends where the last one does. */
  lemma {:induction false} ReplayIsConnected(start: Id, entries: seq<Entry>)
    ensures Replay(start, entries).Some? <==> forall k :: 0 <= k < |entries| ==> Linked(start, entries, k)
    ensures Replay(start, entries).Some? && entries != [] ==> Replay(start, entries).value == entries[|entries| - 1].to
  {
    if entries != [] {
      var last := |entries| - 1;
      var front := entries[..last];
      ReplayIsConnected(start, front);
      forall k | 0 <= k < last ensures Linked(start, front, k) == Linked(start, entries, k) { }
      if Replay(start, front).Some? {
        assert Replay(start, front).value == if last == 0 then start else entries[last - 1].to;
        assert Replay(start, entries).Some? <==> Linked(start, entries, last);
      }
    }
  }

  /** A new row extends the path exactly when it starts in the current state. */
  lemma PathGrows(rules: Rules, instance: Instance, entries: seq<Entry>, e: Entry)
    requires IsPath(rules, instance, entries) && Edge(rules, e)
    ensures IsPath(rules, instance.(current := e.to), entries + [e]) <==> e.from == Some(instance.current)
  {
    var longer := entries + [e];
    assert longer[0] == entries[0] && longer[1..] == entries[1..] + [e];
    ReplayGrows(rules.initialStates[instance.workflow], entries[1..], e);
    assert forall k :: 1 <= k < |entries| ==> longer[k] == entries[k];
  }

  lemma FirstRowIsPath(rules: Rules, workflow: Id, e: Entry)
    requires workflow in rules.initialStates && e.from == None && e.actor == None
      && e.to == rules.initialStates[workflow]
    ensures IsPath(rules, Instance(workflow, e.to), [e])
  {
    assert [e][1..] == [];
  }

  /** A move finds the instance where its request read it, with its first row in place. */
  predicate FreshMove(s: State, m: Task)
    requires m.Move?
  {
    m.instance in s.instances && s.instances[m.instance].current == m.from && !Opens(s, m.instance)
  }

  /** The event writes a move of this instance that is out of date. */
  predicate StaleMove(s: State, e: Event, id: Id) {
    && e.Write? && e.r in s.pending && s.pending[e.r].Move?
    && s.pending[e.r].instance == id && !FreshMove(s, s.pending[e.r])
  }

  predicate FreshWrite(s: State, e: Event) {
    e.Write? && e.r in s.pending && s.pending[e.r].Move? ==> FreshMove(s, s.pending[e.r])
  }

  lemma {:induction false} OwnAfterWrite(s: State, r: nat, i: Id)
    requires r in s.pending && s.pending[r].instance in s.instances
    ensures var own := Own(s.history, i);
      Own(Apply(s, Write(r)).history, i) == if s.pending[r].instance == i then own + [RowOf(s.pending[r])] else own
  {
    OwnGrows(s.history, RowOf(s.pending[r]), i);
  }

  /** Who is being opened changes only with a creation or an opening row of its own. */
  lemma OpensStays(s: State, t: State, id: Id)
    requires forall q :: q in s.pending && s.pending[q].Opening? && s.pending[q].instance == id ==>
      q in t.pending && t.pending[q] == s.pending[q]
    requires forall q :: q in t.pending && t.pending[q].Opening? && t.pending[q].instance == id ==>
      q in s.pending && s.pending[q] == t.pending[q]
    ensures Opens(t, id) <==> Opens(s, id)
  {
  }

  lemma StepKeepsTasks(s: State, e: Event)
    requires TasksFit(s)
    ensures TasksFit(Apply(s, e))
  {
    var t := Apply(s, e);
    forall q | q in t.pending ensures Fits(t, t.pending[q]) {
      if q in s.pending { assert Fits(s, s.pending[q]); }
    }
    forall q | q in s.pending ensures s.pending[q].instance in s.instances { assert Fits(s, s.pending[q]); }
  }

  lemma CreateKeepsOrder(s: State, e: Event, id: Id)
    requires TasksFit(s) && InOrder(s, id) && e.Create?
    ensures InOrder(Apply(s, e), id)
  {
    var t := Apply(s, e);
    if t.pending != s.pending {
      if id == e.id {
        assert t.pending[e.r].Opening? && t.pending[e.r].instance == id;
      } else {
        OpensStays(s, t, id);
      }
    }
  }

  lemma ReadKeepsOrder(s: State, e: Event, id: Id)
    requires InOrder(s, id) && e.Read?
    ensures InOrder(Apply(s, e), id)
  {
    OpensStays(s, Apply(s, e), id);
  }

  /** What a write does beside its own instance: nothing. */
  lemma OtherWriteKeepsOrder(s: State, r: nat, id: Id)
    requires InOrder(s, id) && r in s.pending && s.pending[r].instance in s.instances && s.pending[r].instance != id
    ensures InOrder(Apply(s, Write(r)), id)
  {
    OwnAfterWrite(s, r, id);
    OpensStays(s, Apply(s, Write(r)), id);
  }

  lemma OpeningKeepsOrder(s: State, r: nat)
    requires TasksFit(s) && r in s.pending && s.pending[r].Opening? && InOrder(s, s.pending[r].instance)
    ensures InOrder(Apply(s, Write(r)), s.pending[r].instance)
  {
    var task := s.pending[r];
    assert Fits(s, task) && Opens(s, task.instance);
    OwnAfterWrite(s, r, task.instance);
    FirstRowIsPath(s.rules, s.instances[task.instance].workflow, RowOf(task));
    assert [] + [RowOf(task)] == [RowOf(task)];
  }

  /** A move keeps its own history in order exactly when it is fresh. */
  lemma MoveKeepsOrderExactly(s: State, r: nat)
    requires TasksFit(s) && r in s.pending && s.pending[r].Move? && InOrder(s, s.pending[r].instance)
    ensures InOrder(Apply(s, Write(r)), s.pending[r].instance) <==> FreshMove(s, s.pending[r])
  {
    var m, t := s.pending[r], Apply(s, Write(r));
    assert Fits(s, m);
    OwnAfterWrite(s, r, m.instance);
    OpensStays(s, t, m.instance);
    PermittedIsEdge(s.rules, RowOf(m));
    if !Opens(s, m.instance) { PathGrows(s.rules, s.instances[m.instance], Own(s.history, m.instance), RowOf(m)); }
  }

  lemma StepKeepsOrder(s: State, e: Event, id: Id)
    requires TasksFit(s) && InOrder(s, id) && !StaleMove(s, e, id)
    ensures InOrder(Apply(s, e), id)
  {
    match e
    case Create(_, _, _) => CreateKeepsOrder(s, e, id);
    case Read(_, _, _, _, _, _) => ReadKeepsOrder(s, e, id);
    case Write(r) =>
      if r in s.pending {
        assert Fits(s, s.pending[r]);
        if s.pending[r].instance != id {
          OtherWriteKeepsOrder(s, r, id);
        } else if s.pending[r].Move? {
          MoveKeepsOrderExactly(s, r);
        } else {
          OpeningKeepsOrder(s, r);
        }
      }
  }

  lemma StepKeepsInv(s: State, e: Event)
    requires Inv(s) && FreshWrite(s, e)
    ensures Inv(Apply(s, e))
  {
    StepKeepsTasks(s, e);
    forall id ensures InOrder(Apply(s, e), id) { StepKeepsOrder(s, e, id); }
  }

  /** A move keeps the histories paths exactly when it is fresh. */
  lemma WriteKeepsInvExactly(s: State, r: nat)
    requires Inv(s) && r in s.pending && s.pending[r].Move?
    ensures Inv(Apply(s, Write(r))) <==> FreshWrite(s, Write(r))
  {
    MoveKeepsOrderExactly(s, r);
    if FreshWrite(s, Write(r)) { StepKeepsInv(s, Write(r)); }
  }

  lemma EmptyIsInv(s: State)
    requires Empty(s)
    ensures Inv(s)
  {
    forall id ensures InOrder(s, id) { assert Own(s.history, id) == []; }
  }

  /**
   In every run without a stale write, every history that is opened is a permitted path that replays to the
   current state.
   */
  lemma {:induction false} HistoriesArePaths(s0: State, events: seq<Event>, id: Id)
    requires Empty(s0) && Admitted(Apply, FreshWrite, s0, events)
    requires var s := Run(Apply, s0, events); id in s.instances && !Opens(s, id)
    ensures var s := Run(Apply, s0, events); IsPath(s.rules, s.instances[id], Own(s.history, id))
  {
    EmptyIsInv(s0);
    forall s, e | Inv(s) && FreshWrite(s, e) ensures Inv(Apply(s, e)) { StepKeepsInv(s, e); }
    InvariantOfAdmitted(Apply, FreshWrite, Inv, s0, events);
    assert InOrder(Run(Apply, s0, events), id);
  }

  // ---- One instance ----

  /** No move of this instance is out of date when it is written; others may be. */
  ghost predicate NeverStale(s: State, events: seq<Event>, id: Id)
    decreases |events|
  {
    events == [] || (!StaleMove(s, events[0], id) && NeverStale(Apply(s, events[0]), events[1..], id))
  }

  /** Rows that no further row can turn into a path. */
  ghost predicate Broken(entries: seq<Entry>) {
    entries != [] && (entries[0].from != None || Replay(entries[0].to, entries[1..]) == None)
  }

  lemma BrokenGrows(entries: seq<Entry>, e: Entry)
    requires Broken(entries)
    ensures Broken(entries + [e])
  {
    assert (entries + [e])[1..] == entries[1..] + [e];
    ReplayGrows(entries[0].to, entries[1..], e);
  }

  lemma PathReplays(rules: Rules, instance: Instance, entries: seq<Entry>)
    requires IsPath(rules, instance, entries)
    ensures entries != [] && Replay(entries[0].to, entries[1..]) == Some(instance.current)
  {
  }

  /** A row that starts elsewhere than the rows before it end. */
  lemma ElsewhereBreaks(entries: seq<Entry>, current: Id, e: Entry)
    requires entries != [] && Replay(entries[0].to, entries[1..]) == Some(current) && e.from != Some(current)
    ensures Broken(entries + [e])
  {
    assert (entries + [e])[1..] == entries[1..] + [e];
    ReplayGrows(entries[0].to, entries[1..], e);
  }

  lemma StaleMoveBreaks(s: State, r: nat)
    requires TasksFit(s) && r in s.pending && InOrder(s, s.pending[r].instance)
      && StaleMove(s, Write(r), s.pending[r].instance)
    ensures Broken(Own(Apply(s, Write(r)).history, s.pending[r].instance))
  {
    var m := s.pending[r];
    assert Fits(s, m);
    var own := Own(s.history, m.instance);
    OwnAfterWrite(s, r, m.instance);
    if Opens(s, m.instance) {
      assert [] + [RowOf(m)] == [RowOf(m)];
    } else {
      PathReplays(s.rules, s.instances[m.instance], own);
      ElsewhereBreaks(own, s.instances[m.instance].current, RowOf(m));
    }
  }

  lemma {:induction false} StaysBroken(s: State, events: seq<Event>, id: Id)
    requires Broken(Own(s.history, id))
    ensures Broken(Own(Run(Apply, s, events).history, id))
    decreases |events|
  {
    if events != [] {
      var e, own := events[0], Own(s.history, id);
      if e.Write? && e.r in s.pending && s.pending[e.r].instance in s.instances {
        OwnAfterWrite(s, e.r, id);
        BrokenGrows(own, RowOf(s.pending[e.r]));
      }
      StaysBroken(Apply(s, e), events[1..], id);
    }
  }

  lemma {:induction false} InOrderOrBroken(s: State, events: seq<Event>, id: Id)
    requires TasksFit(s) && InOrder(s, id)
    ensures var t := Run(Apply, s, events);
      if NeverStale(s, events, id) then InOrder(t, id) else Broken(Own(t.history, id))
    decreases |events|
  {
    if events != [] {
      var e, t := events[0], Apply(s, events[0]);
      StepKeepsTasks(s, e);
      if StaleMove(s, e, id) {
        StaleMoveBreaks(s, e.r);
        StaysBroken(t, events[1..], id);
      } else {
        StepKeepsOrder(s, e, id);
        InOrderOrBroken(t, events[1..], id);
      }
    }
  }

  /** In every run, an opened history is a permitted path to the current state exactly when no move of it was stale. */
  lemma {:induction false} HistoryIsPathExactly(s0: State, events: seq<Event>, id: Id)
    requires Empty(s0)
    requires var s := Run(Apply, s0, events); id in s.instances && !Opens(s, id)
    ensures var s := Run(Apply, s0, events);
      IsPath(s.rules, s.instances[id], Own(s.history, id)) <==> NeverStale(s0, events, id)
  {
    EmptyIsInv(s0);
    assert InOrder(s0, id);
    InOrderOrBroken(s0, events, id);
  }

  // ---- Stale writes ----

  /**
   Two moves that both read the present state: after both writes, the path holds only if the first one led
   nowhere.
   */
  lemma SecondWriteBreaksThePath(s: State, r: nat, q: nat)
    requires Inv(s) && r != q && r in s.pending && q in s.pending && s.pending[r].Move? && s.pending[q].Move?
    requires s.pending[r].instance == s.pending[q].instance
    requires FreshWrite(s, Write(r)) && FreshWrite(s, Write(q))
    ensures Inv(Apply(Apply(s, Write(r)), Write(q))) <==> s.pending[r].to == s.pending[r].from
  {
    var t := Apply(s, Write(r));
    WriteKeepsInvExactly(s, r);
    WriteKeepsInvExactly(t, q);
  }

  function Fork(): Rules {
    Rules(map["w" := "flow"], map["flow" := "a"],
      [Transition("a", "b", None, None), Transition("a", "c", None, None)], map[])
  }

  function ToState(to: Id): Transition { Transition("a", to, None, None) }

  /** An instance in state a, opened, and the tasks that wait. */
  function Forked(pending: map<nat, Task>): State {
    State(Fork(), map["i" := Instance("flow", "a")], [RowOf(Opening("i", "a"))], pending)
  }

  const TO_B := Move("i", "a", "b", "u", "")
  const TO_C := Move("i", "a", "c", "v", "")

  lemma BothRead()
    ensures Apply(Forked(map[]), Read(0, "i", "b", "u", "", Some(ToState("b")))) == Forked(map[0 := TO_B])
    ensures Apply(Forked(map[0 := TO_B]), Read(1, "i", "c", "v", "", Some(ToState("c")))) ==
      Forked(map[0 := TO_B, 1 := TO_C])
  {
  }

  lemma BothWrite()
    ensures var s := Apply(Apply(Forked(map[0 := TO_B, 1 := TO_C]), Write(0)), Write(1));
      s.rules == Fork() && s.instances.Keys == {"i"}
        && s.history == [RowOf(Opening("i", "a")), RowOf(TO_B), RowOf(TO_C)]
  {
  }

  /** Two such moves are reachable: the history then goes from a to b and from a to c. */
  lemma StaleWriteIsReachable()
    ensures var events := [Create(0, "w", "i"), Write(0)] + [Read(0, "i", "b", "u", "", Some(ToState("b"))),
          Read(1, "i", "c", "v", "", Some(ToState("c"))), Write(0), Write(1)];
      var s := Run(Apply, State(Fork(), map[], [], map[]), events);
      "i" in s.instances && !IsPath(s.rules, s.instances["i"], Own(s.history, "i"))
  {
    var none := State(Fork(), map[], [], map[]);
    var readB, readC := Read(0, "i", "b", "u", "", Some(ToState("b"))), Read(1, "i", "c", "v", "", Some(ToState("c")));
    CreateThenWrite(none, 0, "w", "i");
    assert Run(Apply, none, [Create(0, "w", "i"), Write(0)]) == Forked(map[]);
    RunAppend(Apply, none, [Create(0, "w", "i"), Write(0)], [readB, readC, Write(0), Write(1)]);
    RunFour(Forked(map[]), readB, readC, Write(0), Write(1));
    BothRead();
    BothWrite();
    var s := Apply(Apply(Forked(map[0 := TO_B, 1 := TO_C]), Write(0)), Write(1));
    ForkedHistory(s.instances["i"], RowOf(Opening("i", "a")), RowOf(TO_B), RowOf(TO_C));
  }

  lemma ForkedHistory(instance: Instance, first: Entry, b: Entry, c: Entry)
    requires first.instance == b.instance == c.instance == "i" && c.from == Some("a") && b.to == "b"
    ensures !IsPath(Fork(), instance, Own([first, b, c], "i"))
  {
    assert [] + [first] == [first] && [first] + [b] == [first, b] && [first, b] + [c] == [first, b, c];
    OwnGrows([], first, "i");
    OwnGrows([first], b, "i");
    OwnGrows([first, b], c, "i");
    var rest := [first, b, c][1..];
    assert rest == [b] + [c];
    if instance.workflow in Fork().initialStates {
      ReplayIsConnected(Fork().initialStates[instance.workflow], rest);
      assert !Linked(Fork().initialStates[instance.workflow], rest, 1);
    }
  }

  lemma {:induction false} RunFour(s: State, a: Event, b: Event, c: Event, d: Event)
    ensures Run(Apply, s, [a, b, c, d]) == Apply(Apply(Apply(Apply(s, a), b), c), d)
  {
    RunSnoc(Apply, s, [], a);
    RunSnoc(Apply, s, [a], b);
    RunSnoc(Apply, s, [a, b], c);
    RunSnoc(Apply, s, [a, b, c], d);
    assert [] + [a] == [a] && [a] + [b] == [a, b] && [a, b] + [c] == [a, b, c] && [a, b, c] + [d] == [a, b, c, d];
  }

  // ---- Calls handled one after the other ----

  datatype Call =
    | StartCall(name: string, id: Id)
    | TransitionCall(instance: Id, to: Id, actor: Id, role: string, rule: Option<Transition>)

  function Steps(c: Call): seq<Event> {
    match c
    case StartCall(name, id) => [Create(0, name, id), Write(0)]
    case TransitionCall(id, to, actor, role, rule) => [Read(0, id, to, actor, role, rule), Write(0)]
  }

  ghost function Called(s: State, c: Call): State { Run(Apply, s, Steps(c)) }

  lemma CallKeepsInv(s: State, c: Call)
    requires Inv(s) && s.pending == map[]
    ensures Inv(Called(s, c)) && Called(s, c).pending == map[]
  {
    var steps := Steps(c);
    var s1 := Apply(s, steps[0]);
    assert steps[1..] == [Write(0)];
    RunOne(Apply, s1, Write(0));
    StepKeepsInv(s, steps[0]);
    if 0 in s1.pending {
      FirstStepIsFresh(s, steps[0]);
      assert s1.pending - {0} == map[];
      StepKeepsInv(s1, Write(0));
    }
  }

  lemma FirstStepIsFresh(s: State, e: Event)
    requires Inv(s) && s.pending == map[] && !e.Write? && e.r == 0 && 0 in Apply(s, e).pending
    ensures Apply(s, e).pending.Keys == {0} && FreshWrite(Apply(s, e), Write(0))
      && Apply(s, e).pending[0].instance in Apply(s, e).instances
  {
  }

  /** For every sequence of calls, every history is a permitted path that replays to the current state. */
  lemma {:induction false} SequentialHistoriesArePaths(s0: State, calls: seq<Call>, id: Id)
    requires Empty(s0) && id in Run(Called, s0, calls).instances
    ensures var s := Run(Called, s0, calls); IsPath(s.rules, s.instances[id], Own(s.history, id))
  {
    var inv := (s: State) => Inv(s) && s.pending == map[];
    EmptyIsInv(s0);
    forall s, c | inv(s) ensures inv(Called(s, c)) { CallKeepsInv(s, c); }
    Invariant(Called, inv, s0, calls);
    assert InOrder(Run(Called, s0, calls), id);
  }
}
