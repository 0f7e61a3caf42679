/** What every interleaving of casts, session actions and outside changes keeps. */
module VotingSafety {
  import opened Common
  import opened Runs
  import opened Voting

  /** Receipts, ballots and committed casts correspond one to one. */
  ghost predicate Recorded(s: State) {
    && |s.receipts| == |s.ballots| == |s.commits|
    && (forall i :: 0 <= i < |s.commits| ==>
          && s.commits[i] in s.casts
          && s.casts[s.commits[i]] == Cast(s.receipts[i], s.ballots[i], Done))
    && (forall r :: r in s.casts && s.casts[r].pc.Done? ==> r in s.commits)
    && (forall i, j :: 0 <= i < j < |s.commits| ==> s.commits[i] != s.commits[j])
  }

  /** A participant has one receipt, or one cast that holds the key, or neither. */
  ghost predicate OneKeyEach(s: State) {
    && (forall i, j :: 0 <= i < j < |s.receipts| ==> s.receipts[i] != s.receipts[j])
    && (forall r :: r in s.casts && s.casts[r].pc.HoldsKey() ==> s.casts[r].participant !in s.receipts)
    && (forall q, r :: q in s.casts && r in s.casts && q != r && s.casts[q].pc.HoldsKey() && s.casts[r].pc.HoldsKey()
          ==> s.casts[q].participant != s.casts[r].participant)
  }

  ghost predicate Inv(s: State) { Recorded(s) && OneKeyEach(s) }

  lemma CommitIsRecorded(s: State, r: nat)
    requires Recorded(s) && r in s.casts && s.casts[r].pc.Commit?
    ensures Recorded(AdvanceCast(s, r))
  {
    var t := AdvanceCast(s, r);
    assert r !in s.commits;
    forall q | q in t.casts && t.casts[q].pc.Done? ensures q in t.commits {
      if q != r { assert q in s.commits; }
    }
  }

  lemma CommitKeepsInv(s: State, r: nat)
    requires Inv(s) && r in s.casts && s.casts[r].pc.Commit?
    ensures Inv(AdvanceCast(s, r))
  {
    CommitIsRecorded(s, r);
  }

  lemma PcChangeKeepsInv(s: State, r: nat, pc: Pc)
    requires Inv(s) && r in s.casts && !s.casts[r].pc.Done? && !pc.Done?
    requires pc.HoldsKey() ==>
      s.casts[r].pc.HoldsKey() || (s.casts[r].participant !in s.receipts && !KeyTaken(s, r, s.casts[r].participant))
    ensures Inv(WithPc(s, r, pc))
  {
    var t := WithPc(s, r, pc);
    assert r !in s.commits;
    forall q, p | q in t.casts && p in t.casts && q != p && t.casts[q].pc.HoldsKey() && t.casts[p].pc.HoldsKey()
      ensures t.casts[q].participant != t.casts[p].participant
    {
      if q == r || p == r {
        var other := if q == r then p else q;
        assert s.casts[other].pc.HoldsKey();
      }
    }
  }

  lemma AdvanceKeepsInv(s: State, r: nat)
    requires Inv(s) && r in s.casts
    ensures Inv(AdvanceCast(s, r))
  {
    if s.casts[r].pc.Commit? {
      CommitKeepsInv(s, r);
    } else if !s.casts[r].pc.Finished() && AdvanceCast(s, r) != s {
      AdvanceMovesPc(s, r);
      PcChangeKeepsInv(s, r, AdvanceCast(s, r).casts[r].pc);
    }
  }

  lemma AdvanceMovesPc(s: State, r: nat)
    requires r in s.casts && !s.casts[r].pc.Commit? && !s.casts[r].pc.Finished() && AdvanceCast(s, r) != s
    ensures var pc := AdvanceCast(s, r).casts[r].pc;
      && AdvanceCast(s, r) == WithPc(s, r, pc) && !pc.Done?
      && (pc.HoldsKey() && !s.casts[r].pc.HoldsKey() ==>
            s.casts[r].participant !in s.receipts && !KeyTaken(s, r, s.casts[r].participant))
  { }

  lemma BeginKeepsInv(s: State, r: nat, p: Id, c: Id)
    requires Inv(s) && r !in s.casts
    ensures Inv(s.(casts := s.casts[r := Cast(p, c, ReadStatus)]))
  {
    assert r !in s.commits;
  }

  lemma StepKeepsInv(s: State, e: Event)
    requires Inv(s)
    ensures Inv(Apply(s, e))
  {
    match e
    case BeginCast(r, p, c) => if r !in s.casts { BeginKeepsInv(s, r, p, c); }
    case Advance(r) => if r in s.casts { AdvanceKeepsInv(s, r); }
    case Abort(r) =>
      if r in s.casts && !s.casts[r].pc.Finished() { PcChangeKeepsInv(s, r, Failed(Aborted)); }
    case ReadAction(_, _) =>
    case WriteAction(_) =>
    case Reopen(_) =>
    case Environment(_) =>
  }

  lemma {:induction false} RunKeepsInv(s: State, events: seq<Event>)
    requires Inv(s)
    ensures Inv(Run(Apply, s, events))
  {
    forall t, e | Inv(t) ensures Inv(Apply(t, e)) { StepKeepsInv(t, e); }
    Invariant(Apply, Inv, s, events);
  }

  // ---- Exactly one vote, and nothing lost between receipts and ballots ----

  function DoneCasts(s: State): set<nat> {
    set r | r in s.casts && s.casts[r].pc.Done?
  }

  function VotesFor(s: State, candidate: Id): set<nat> {
    set r | r in s.casts && s.casts[r].pc.Done? && s.casts[r].candidate == candidate
  }

  function CastsNaming(commits: seq<nat>, casts: map<nat, Cast>, c: Id): set<nat> {
    set r | r in casts && r in commits && casts[r].candidate == c
  }

  lemma OneMoreCast(commits: seq<nat>, r: nat, casts: map<nat, Cast>, c: Id)
    requires r !in commits && r in casts
    ensures |CastsNaming(commits + [r], casts, c)| ==
      |CastsNaming(commits, casts, c)| + (if casts[r].candidate == c then 1 else 0)
  {
    var before := CastsNaming(commits, casts, c);
    var after := CastsNaming(commits + [r], casts, c);
    assert r !in before;
    if casts[r].candidate == c {
      assert after == before + {r};
    } else {
      assert after == before;
    }
  }

  /** Counting the ballots for c and counting the casts that named c is the same. */
  lemma {:induction false} TallyMatchesCasts(commits: seq<nat>, ballots: seq<Id>, casts: map<nat, Cast>, c: Id)
    requires |commits| == |ballots|
    requires forall i :: 0 <= i < |commits| ==> commits[i] in casts && casts[commits[i]].candidate == ballots[i]
    requires forall i, j :: 0 <= i < j < |commits| ==> commits[i] != commits[j]
    ensures multiset(ballots)[c] == |CastsNaming(commits, casts, c)|
  {
    if commits == [] {
      assert CastsNaming(commits, casts, c) == {};
    } else {
      var last := |commits| - 1;
      TallyMatchesCasts(commits[..last], ballots[..last], casts, c);
      assert ballots == ballots[..last] + [ballots[last]];
      assert commits == commits[..last] + [commits[last]];
      OneMoreCast(commits[..last], commits[last], casts, c);
    }
  }

  lemma {:induction false} AtMostOnce(receipts: seq<Id>, p: Id)
    requires forall i, j :: 0 <= i < j < |receipts| ==> receipts[i] != receipts[j]
    ensures multiset(receipts)[p] == if p in receipts then 1 else 0
  {
    if receipts != [] {
      var last := |receipts| - 1;
      assert receipts == receipts[..last] + [receipts[last]];
      AtMostOnce(receipts[..last], p);
    }
  }

  lemma {:induction false} DistinctCount(commits: seq<nat>, members: set<nat>)
    requires forall i, j :: 0 <= i < j < |commits| ==> commits[i] != commits[j]
    requires forall r :: r in members <==> r in commits
    ensures |members| == |commits|
  {
    if commits == [] {
      assert members == {};
    } else {
      var last := |commits| - 1;
      assert commits == commits[..last] + [commits[last]];
      DistinctCount(commits[..last], members - {commits[last]});
    }
  }

  lemma ReceiptIffVoted(s: State, p: Id)
    requires Inv(s)
    ensures multiset(s.receipts)[p] == if exists r :: r in DoneCasts(s) && s.casts[r].participant == p then 1 else 0
  {
    AtMostOnce(s.receipts, p);
    if p in s.receipts {
      var i :| 0 <= i < |s.receipts| && s.receipts[i] == p;
      assert s.commits[i] in DoneCasts(s);
    }
  }

  lemma TallyIsVotesFor(s: State, c: Id)
    requires Inv(s)
    ensures multiset(s.ballots)[c] == |VotesFor(s, c)|
  {
    TallyMatchesCasts(s.commits, s.ballots, s.casts, c);
    assert VotesFor(s, c) == CastsNaming(s.commits, s.casts, c);
  }

  /**
   In every interleaving: one receipt for a participant who has a committed cast and
   none for anybody else, for each candidate exactly the ballots of the committed casts
   that named them, and a failed cast is behind neither.
   */
  lemma {:induction false} OneVoteEach(s0: State, events: seq<Event>)
    requires Initial(s0)
    ensures var s := Run(Apply, s0, events);
      && |s.receipts| == |s.ballots| == |DoneCasts(s)|
      && (forall p :: multiset(s.receipts)[p] == if exists r :: r in DoneCasts(s) && s.casts[r].participant == p then 1
        else 0)
      && (forall c :: multiset(s.ballots)[c] == |VotesFor(s, c)|)
      && (forall r :: r in s.casts && s.casts[r].pc.Failed? ==> r !in s.commits)
  {
    RunKeepsInv(s0, events);
    var s := Run(Apply, s0, events);
    DistinctCount(s.commits, DoneCasts(s));
    forall p
      ensures multiset(s.receipts)[p] == if exists r :: r in DoneCasts(s) && s.casts[r].participant == p then 1 else 0
    {
      ReceiptIffVoted(s, p);
    }
    forall c ensures multiset(s.ballots)[c] == |VotesFor(s, c)| {
      TallyIsVotesFor(s, c);
    }
  }

  /** A cast that has passed every check, of a participant whose vote is committed: it has lost, or will. */
  predicate HasLost(s: State, r: nat) {
    && r in s.casts && s.casts[r].participant in s.receipts
    && s.casts[r].pc in {InsertReceipt, Failed(AlreadyVoted), Failed(Aborted)}
  }

  lemma StepKeepsLost(s: State, e: Event, r: nat)
    requires HasLost(s, r)
    ensures HasLost(Apply(s, e), r)
    ensures e == Advance(r) || !s.casts[r].pc.InsertReceipt? ==> !Apply(s, e).casts[r].pc.InsertReceipt?
  {
  }

  /** Whatever happens, such a cast ends with its next step, as a second vote or because it is cancelled. */
  lemma {:induction false} LoserHasVoted(s: State, events: seq<Event>, r: nat)
    requires r in s.casts && s.casts[r].participant in s.receipts
    requires s.casts[r].pc in {InsertReceipt, Failed(AlreadyVoted), Failed(Aborted)}
    ensures var t := Run(Apply, s, events);
      && r in t.casts && t.casts[r].pc in {InsertReceipt, Failed(AlreadyVoted), Failed(Aborted)}
      && (Advance(r) in events || !s.casts[r].pc.InsertReceipt? ==> !t.casts[r].pc.InsertReceipt?)
    decreases |events|
  {
    if events != [] {
      StepKeepsLost(s, events[0], r);
      LoserHasVoted(Apply(s, events[0]), events[1..], r);
    }
  }

  // ---- The cut-off when the session leaves RUNNING ----

  function InFlight(s: State): set<nat> {
    set r | r in s.casts && s.casts[r].pc.PastStatusRead()
  }

  /** The event does not set the session to RUNNING (by start or resume). */
  ghost predicate NoRestart(s: State, e: Event) {
    e.WriteAction? && e.op in s.ops ==> s.ops[e.op].target != Running
  }

  /** Since `from`, only casts that were already past their status read have committed. */
  ghost predicate Draining(from: State, s: State) {
    && Inv(s)
    && Status(s) != Running
    && from.commits <= s.commits && from.ballots <= s.ballots && from.receipts <= s.receipts
    && InFlight(s) <= InFlight(from)
    && (forall i :: |from.commits| <= i < |s.commits| ==> s.commits[i] in InFlight(from))
  }

  lemma InFlightOnlyShrinks(s: State, e: Event)
    requires Status(s) != Running
    ensures InFlight(Apply(s, e)) <= InFlight(s)
  {
    var t := Apply(s, e);
    forall r | r in InFlight(t) ensures r in InFlight(s) {
      if r !in s.casts || s.casts[r] != t.casts[r] {
        assert e.Advance? && e.request == r;
      }
    }
  }

  lemma CommitsGrowFromInFlight(s: State, e: Event)
    ensures var t := Apply(s, e);
      || (t.commits == s.commits && t.ballots == s.ballots && t.receipts == s.receipts)
      || (e.Advance? && e.request in InFlight(s) && e.request in s.casts && t.commits == s.commits + [e.request]
          && t.ballots == s.ballots + [s.casts[e.request].candidate]
          && t.receipts == s.receipts + [s.casts[e.request].participant])
  {
  }

  lemma StepDrains(from: State, s: State, e: Event)
    requires Draining(from, s) && NoRestart(s, e)
    ensures Draining(from, Apply(s, e))
  {
    StepKeepsInv(s, e);
    InFlightOnlyShrinks(s, e);
    CommitsGrowFromInFlight(s, e);
  }

  /**
   Once the session is not RUNNING and until it is started or resumed again, the ballots
   that can still arrive are at most the casts already past their status read; when there
   are none of those the tally is frozen.
   */
  lemma {:induction false} CutOff(s: State, events: seq<Event>)
    requires Inv(s) && Status(s) != Running
    requires Admitted(Apply, NoRestart, s, events)
    ensures var t := Run(Apply, s, events);
      && s.ballots <= t.ballots && s.receipts <= t.receipts
      && |t.ballots| <= |s.ballots| + |InFlight(s)|
      && (InFlight(s) == {} ==> t.ballots == s.ballots && t.receipts == s.receipts)
  {
    var inv := t => Draining(s, t);
    forall t, e | inv(t) && NoRestart(t, e) ensures inv(Apply(t, e)) { StepDrains(s, t, e); }
    InvariantOfAdmitted(Apply, NoRestart, inv, s, events);
    var t := Run(Apply, s, events);
    DistinctSeqFitsSet(t.commits[|s.commits|..], InFlight(s));
  }

  predicate ReadRunning(s: State, r: nat) {
    r in s.casts && (s.casts[r].pc.PastStatusRead() || s.casts[r].pc.Done?)
  }

  lemma OnlyARunningReadAdmits(s: State, e: Event, r: nat)
    requires ReadRunning(Apply(s, e), r) && !ReadRunning(s, r)
    ensures e == Advance(r) && Status(s) == Running
  {
  }

  lemma {:induction false} PastReadSawRunning(s0: State, events: seq<Event>, r: nat)
    requires Initial(s0)
    requires ReadRunning(Run(Apply, s0, events), r)
    ensures exists k :: 0 <= k < |events| && events[k] == Advance(r) && Status(Run(Apply, s0, events[..k])) == Running
  {
    if events != [] {
      var last := |events| - 1;
      var early := events[..last];
      assert events == early + [events[last]];
      RunSnoc(Apply, s0, early, events[last]);
      if ReadRunning(Run(Apply, s0, early), r) {
        PastReadSawRunning(s0, early, r);
        var k :| 0 <= k < last && early[k] == Advance(r) && Status(Run(Apply, s0, early[..k])) == Running;
        assert events[..k] == early[..k] && events[k] == early[k];
      } else {
        OnlyARunningReadAdmits(Run(Apply, s0, early), events[last], r);
      }
    }
  }

  /** Every committed vote belongs to a request whose own status read saw RUNNING. */
  lemma {:induction false} EveryBallotSawRunning(s0: State, events: seq<Event>, i: nat)
    requires Initial(s0)
    requires i < |Run(Apply, s0, events).ballots|
    ensures var s := Run(Apply, s0, events);
      && i < |s.commits| && s.commits[i] in s.casts && s.casts[s.commits[i]].candidate == s.ballots[i]
      && exists k :: 0 <= k < |events| && events[k] == Advance(s.commits[i]) && Status(Run(Apply,
        s0, events[..k])) == Running
  {
    RunKeepsInv(s0, events);
    PastReadSawRunning(s0, events, Run(Apply, s0, events).commits[i]);
  }

  predicate WritesRunning(s: State, e: Event) { e.WriteAction? && e.op in s.ops && s.ops[e.op].target == Running }

  lemma {:induction false} RunningWasWritten(s0: State, events: seq<Event>)
    requires s0.session == None && Status(Run(Apply, s0, events)) == Running
    ensures exists j :: 0 <= j < |events| && WritesRunning(Run(Apply, s0, events[..j]), events[j])
  {
    if events != [] {
      var last := |events| - 1;
      var early := events[..last];
      assert events == early + [events[last]];
      RunSnoc(Apply, s0, early, events[last]);
      if Status(Run(Apply, s0, early)) == Running {
        RunningWasWritten(s0, early);
        var j :| 0 <= j < last && WritesRunning(Run(Apply, s0, early[..j]), early[j]);
        assert events[..j] == early[..j] && events[j] == early[j];
      } else {
        assert WritesRunning(Run(Apply, s0, events[..last]), events[last]);
      }
    }
  }

  /** Without a session row nobody votes: every ballot comes after a start or resume was written. */
  lemma {:induction false} NoVoteBeforeAStart(s0: State, events: seq<Event>)
    requires Initial(s0) && s0.session == None && Run(Apply, s0, events).ballots != []
    ensures exists j :: 0 <= j < |events| && WritesRunning(Run(Apply, s0, events[..j]), events[j])
  {
    EveryBallotSawRunning(s0, events, 0);
    var r := Run(Apply, s0, events).commits[0];
    var k :| 0 <= k < |events| && events[k] == Advance(r) && Status(Run(Apply, s0, events[..k])) == Running;
    RunningWasWritten(s0, events[..k]);
    var j :| 0 <= j < k && WritesRunning(Run(Apply, s0, events[..k][..j]), events[..k][j]);
    assert events[..k][..j] == events[..j];
  }

  // ---- Leaving CLOSED ----

  /** How often the run takes the session out of CLOSED. */
  function ClosedExits(s: State, events: seq<Event>): nat
    decreases events
  {
    if events == [] then 0
    else (if Status(s) == Closed && Status(Apply(s, events[0])) != Closed then 1
      else 0) + ClosedExits(Apply(s, events[0]), events[1..])
  }

  /** The event writes a session action whose read is out of date: the session has been closed since. */
  predicate StaleWrite(s: State, e: Event) {
    e.WriteAction? && e.op in s.ops && Status(s) == Closed && s.ops[e.op].target != Closed
  }

  function StaleWrites(s: State, events: seq<Event>): nat
    decreases events
  {
    if events == [] then 0
    else (if StaleWrite(s, events[0]) then 1 else 0) + StaleWrites(Apply(s, events[0]), events[1..])
  }

  /** Every exit from CLOSED is either a reopen with its audit row or a stale session action. */
  lemma {:induction false} ClosedIsLeftByReopenOrStaleWrite(s: State, events: seq<Event>)
    ensures ClosedExits(s, events) == |Run(Apply, s, events).reopenAudit| - |s.reopenAudit| + StaleWrites(s, events)
    decreases events
  {
    if events != [] {
      StepOutOfClosed(s, events[0]);
      ClosedIsLeftByReopenOrStaleWrite(Apply(s, events[0]), events[1..]);
    }
  }

  lemma StepOutOfClosed(s: State, e: Event)
    ensures var t := Apply(s, e);
      (if Status(s) == Closed && Status(t) != Closed then 1 else 0)
      == |t.reopenAudit| - |s.reopenAudit| + if StaleWrite(s, e) then 1 else 0
  { }

  /** One session operation at a time: an action reads, or a reopen runs, only while no action is pending. */
  ghost predicate OneOperatorAtATime(s: State, e: Event) {
    e.ReadAction? || e.Reopen? ==> s.ops == map[]
  }

  ghost predicate OpsAreFresh(s: State) {
    && (forall o :: o in s.ops ==> s.ops[o].seen == Status(s) && s.ops[o].seen != Closed)
    && (forall o, p :: o in s.ops && p in s.ops ==> o == p)
  }

  lemma {:induction false} SerialActionsAreNeverStale(s: State, events: seq<Event>)
    requires OpsAreFresh(s)
    requires Admitted(Apply, OneOperatorAtATime, s, events)
    ensures StaleWrites(s, events) == 0
    decreases events
  {
    if events != [] {
      assert OpsAreFresh(Apply(s, events[0]));
      SerialActionsAreNeverStale(Apply(s, events[0]), events[1..]);
    }
  }

  /** NOT_STARTED, stored or not, to RUNNING; RUNNING and PAUSED to each other and to CLOSED. */
  predicate IsActionEdge(from: Option<SessionStatus>, to: SessionStatus) {
    (from, to) in {(None, Running), (Some(NotStarted), Running), (Some(Running), Paused), (Some(Paused), Running),
                   (Some(Running), Closed), (Some(Paused), Closed)}
  }

  /** What is about to be written is an edge from the stored status. */
  ghost predicate WritesAreEdges(s: State) {
    && (forall o :: o in s.ops ==> IsActionEdge(s.session, s.ops[o].target))
    && (forall o, p :: o in s.ops && p in s.ops ==> o == p)
  }

  lemma StepKeepsEdges(s: State, e: Event)
    requires WritesAreEdges(s) && OneOperatorAtATime(s, e)
    ensures WritesAreEdges(Apply(s, e))
  {
    var t := Apply(s, e);
    if e.WriteAction? && e.op in s.ops {
      assert t.ops == map[];
    } else if !e.ReadAction? {
      assert t.ops == s.ops && (s.ops != map[] ==> t.session == s.session);
    }
  }

  /** With session actions one at a time, every event of every run keeps the stored status or moves it along an edge. */
  lemma {:induction false} SerialWritesFollowTheMachine(s0: State, events: seq<Event>, e: Event)
    requires Initial(s0) && Admitted(Apply, OneOperatorAtATime, s0, events)
    requires OneOperatorAtATime(Run(Apply, s0, events), e)
    ensures var s, t := Run(Apply, s0, events), Apply(Run(Apply, s0, events), e);
      || t.session == s.session
      || (e.WriteAction? && (s.session, t.session) in {
            (None, Some(Running)), (Some(NotStarted), Some(Running)), (Some(Running), Some(Paused)),
            (Some(Paused), Some(Running)), (Some(Running), Some(Closed)), (Some(Paused), Some(Closed))})
      || (e.Reopen? && s.session == Some(Closed) && t.session == Some(NotStarted)
            && t.reopenAudit == s.reopenAudit + [e.reason])
  {
    forall s, e | WritesAreEdges(s) && OneOperatorAtATime(s, e) ensures WritesAreEdges(Apply(s, e)) {
      StepKeepsEdges(s, e);
    }
    InvariantOfAdmitted(Apply, OneOperatorAtATime, WritesAreEdges, s0, events);
  }

  /** With session actions one at a time, CLOSED is left exactly once per reopen audit row. */
  lemma {:induction false} ClosedIsLeftOncePerAuditRow(s0: State, events: seq<Event>)
    requires Initial(s0)
    requires Admitted(Apply, OneOperatorAtATime, s0, events)
    ensures ClosedExits(s0, events) == |Run(Apply, s0, events).reopenAudit|
  {
    SerialActionsAreNeverStale(s0, events);
    ClosedIsLeftByReopenOrStaleWrite(s0, events);
  }

  /** Two interleaved operators: a resume that read PAUSED overwrites a close, with no audit row. */
  lemma {:induction false} InterleavedActionsCanReopen(s0: State)
    requires Initial(s0) && s0.session == Some(Paused)
    ensures var events := [ReadAction(0, Resume), ReadAction(1, Close), WriteAction(1), WriteAction(0)];
      && ClosedExits(s0, events) == 1
      && Run(Apply, s0, events).reopenAudit == []
      && Run(Apply, s0, events).session == Some(Running)
  {
    var events := [ReadAction(0, Resume), ReadAction(1, Close), WriteAction(1), WriteAction(0)];
    var s1 := Apply(s0, events[0]);
    var s2 := Apply(s1, events[1]);
    var s3 := Apply(s2, events[2]);
    assert s2.ops == map[0 := SessionOp(Paused, Running), 1 := SessionOp(Paused, Closed)];
    assert s3.ops == map[0 := SessionOp(Paused, Running)] && s3.session == Some(Closed);
    assert events[1..] == [events[1], events[2], events[3]] && events[1..][1..] == [events[2], events[3]];
    assert events[1..][1..][1..] == [events[3]];
    assert ClosedExits(s3, [events[3]]) == 1;
    assert ClosedExits(s2, [events[2], events[3]]) == 1;
    assert ClosedExits(s1, events[1..]) == 1;
  }
}
