/**
 The notification queue of a campaign: requests that queue a job at most once per
 recipient under an advisory lock, and one worker that sends. A lock that is keyed by a
 hash can only make more requests wait, which is a longer delay and nothing else.
 */
module CampaignQueue {
  import opened Common
  import opened Runs

  datatype JobStatus = Pending | Processing | Sent | Failed

  /** Jobs outside any campaign carry no campaign id in their payload. */
  datatype Job = Job(recipient: string, campaign: Option<string>, status: JobStatus)

  datatype QueuePc = TakeLock | CheckExists | InsertJob | Finished(queued: bool) | Broken

  datatype QueueRequest = QueueRequest(recipient: string, campaign: string, pc: QueuePc)
  {
    predicate HoldsLock() { pc.CheckExists? || pc.InsertJob? }
  }

  datatype State = State(
    jobs: seq<Job>,
    requests: map<nat, QueueRequest>,
    batch: seq<nat>,                      // fetched jobs the worker has not finished
    history: seq<(nat, JobStatus)>)

  datatype Event =
    | BeginQueue(request: nat, recipient: string, campaign: string)
    | AdvanceQueue(request: nat, broken: bool)  // broken: the statement fails and the transaction rolls back
    | PlainJob(recipient: string)
    | FetchJobs(ids: seq<nat>)
    | StartJob
    | FinishJob(ok: bool)
    | RetryJob(job: nat)

  const FETCH_LIMIT := 10

  predicate ActiveFor(job: Job, recipient: string, campaign: string) {
    job.recipient == recipient && job.campaign == Some(campaign) && !job.status.Failed?
  }

  predicate HasActive(jobs: seq<Job>, recipient: string, campaign: string) {
    exists i | 0 <= i < |jobs| :: ActiveFor(jobs[i], recipient, campaign)
  }

  predicate Locked(s: State, request: nat, recipient: string, campaign: string) {
    exists q | q in s.requests :: q != request && s.requests[q].HoldsLock()
      && s.requests[q].recipient == recipient && s.requests[q].campaign == campaign
  }

  function QueueAt(s: State, request: nat, pc: QueuePc): State
    requires request in s.requests
  {
    s.(requests := s.requests[request := s.requests[request].(pc := pc)])
  }

  function StepQueue(s: State, request: nat, broken: bool): State
    requires request in s.requests
  {
    var req := s.requests[request];
    match req.pc
    case Finished(_) => s
    case Broken => s
    case TakeLock =>
      if Locked(s, request, req.recipient, req.campaign) then s
      else QueueAt(s, request, if broken then Broken else CheckExists)
    case CheckExists =>
      QueueAt(s, request, if broken then Broken
        else if HasActive(s.jobs, req.recipient, req.campaign) then Finished(false) else InsertJob)
    case InsertJob =>
      if broken then QueueAt(s, request, Broken)
      else QueueAt(s, request, Finished(true)).(jobs := s.jobs + [Job(req.recipient, Some(req.campaign), Pending)])
  }

  predicate IsFetch(jobs: seq<Job>, ids: seq<nat>) {
    && |ids| <= FETCH_LIMIT
    && (forall i :: 0 <= i < |ids| ==> ids[i] < |jobs| && jobs[ids[i]].status.Pending?)
    && (forall i, j :: 0 <= i < j < |ids| ==> ids[i] != ids[j])
  }

  function SetStatus(jobs: seq<Job>, job: nat, status: JobStatus): seq<Job>
    requires job < |jobs|
  {
    jobs[job := jobs[job].(status := status)]
  }

  function Apply(s: State, e: Event): State {
    match e
    case BeginQueue(r, recipient, campaign) =>
      if r in s.requests then s else s.(requests := s.requests[r := QueueRequest(recipient, campaign, TakeLock)])
    case AdvanceQueue(r, broken) => if r in s.requests then StepQueue(s, r, broken) else s
    case PlainJob(recipient) => s.(jobs := s.jobs + [Job(recipient, None, Pending)])
    case FetchJobs(ids) => if s.batch == [] && IsFetch(s.jobs, ids) then s.(batch := ids) else s
    case StartJob =>
      if s.batch != [] && s.batch[0] < |s.jobs| then s.(jobs := SetStatus(s.jobs, s.batch[0], Processing)) else s
    case FinishJob(ok) =>
      if s.batch != [] && s.batch[0] < |s.jobs| then
        var final := if ok then Sent else Failed;
        s.(jobs := SetStatus(s.jobs, s.batch[0], final), batch := s.batch[1..], history :=
          s.history + [(s.batch[0], final)])
      else s
    case RetryJob(j) => if j < |s.jobs| then s.(jobs := SetStatus(s.jobs, j, Pending)) else s
  }

  // ---- One active job per campaign and recipient ----

  ghost predicate OneActive(jobs: seq<Job>) {
    forall i, j :: 0 <= i < j < |jobs| && jobs[i].campaign.Some? && !jobs[i].status.Failed?
      ==> !ActiveFor(jobs[j], jobs[i].recipient, jobs[i].campaign.value)
  }

  ghost predicate Inv(s: State) {
    && OneActive(s.jobs)
    && (forall q, r :: q in s.requests && r in s.requests && q != r
          && s.requests[q].HoldsLock() && s.requests[r].HoldsLock()
          ==> s.requests[q].recipient != s.requests[r].recipient || s.requests[q].campaign != s.requests[r].campaign)
    && (forall r :: r in s.requests && s.requests[r].pc.InsertJob?
          ==> !HasActive(s.jobs, s.requests[r].recipient, s.requests[r].campaign))
    && (forall i :: 0 <= i < |s.batch| ==> s.batch[i] < |s.jobs|)
    && (forall i :: 0 <= i < |s.batch| ==>
          s.jobs[s.batch[i]].status.Pending? || (i == 0 && s.jobs[s.batch[i]].status.Processing?))
    && (forall i, j :: 0 <= i < j < |s.batch| ==> s.batch[i] != s.batch[j])
  }

  lemma ActiveAfterSet(jobs: seq<Job>, job: nat, status: JobStatus, recipient: string, campaign: string)
    requires job < |jobs| && (jobs[job].status.Failed? ==> status.Failed?)
    ensures HasActive(SetStatus(jobs, job, status), recipient, campaign) ==> HasActive(jobs, recipient, campaign)
  {
    if HasActive(SetStatus(jobs, job, status), recipient, campaign) {
      var i :| 0 <= i < |jobs| && ActiveFor(SetStatus(jobs, job, status)[i], recipient, campaign);
      assert ActiveFor(jobs[i], recipient, campaign);
    }
  }

  lemma ActiveAfterAppend(jobs: seq<Job>, job: Job, recipient: string, campaign: string)
    ensures HasActive(jobs + [job], recipient, campaign) <==>
      HasActive(jobs, recipient, campaign) || ActiveFor(job, recipient, campaign)
  {
    if i :| 0 <= i < |jobs| && ActiveFor(jobs[i], recipient, campaign) {
      assert (jobs + [job])[i] == jobs[i];
    }
    assert (jobs + [job])[|jobs|] == job;
  }

  lemma AppendKeepsOneActive(jobs: seq<Job>, job: Job)
    requires OneActive(jobs) && (job.campaign.Some? ==> !HasActive(jobs, job.recipient, job.campaign.value))
    ensures OneActive(jobs + [job])
  {
  }

  lemma QueueKeepsInv(s: State, r: nat, broken: bool)
    requires Inv(s) && r in s.requests
    ensures Inv(StepQueue(s, r, broken))
  {
    var t := StepQueue(s, r, broken);
    var req := s.requests[r];
    if t.jobs != s.jobs {
      var job := Job(req.recipient, Some(req.campaign), Pending);
      AppendKeepsOneActive(s.jobs, job);
      forall q | q in t.requests && t.requests[q].pc.InsertJob?
        ensures !HasActive(t.jobs, t.requests[q].recipient, t.requests[q].campaign)
      {
        ActiveAfterAppend(s.jobs, job, t.requests[q].recipient, t.requests[q].campaign);
        assert q != r && s.requests[r].HoldsLock() && s.requests[q].HoldsLock();
      }
    } else if t != s {
      forall q, p | q in t.requests && p in t.requests && q != p && t.requests[q].HoldsLock()
        && t.requests[p].HoldsLock()
        ensures t.requests[q].recipient != t.requests[p].recipient || t.requests[q].campaign != t.requests[p].campaign
      {
        if req.pc.TakeLock? && (q == r || p == r) {
          var other := if q == r then p else q;
          assert s.requests[other].HoldsLock();
        }
      }
    }
  }

  lemma WorkerKeepsInv(s: State, e: Event)
    requires Inv(s) && (e.StartJob? || e.FinishJob?)
    ensures Inv(Apply(s, e))
  {
    var t := Apply(s, e);
    if t != s {
      var job := s.batch[0];
      var status := t.jobs[job].status;
      assert t.jobs == SetStatus(s.jobs, job, status);
      forall r | r in t.requests && t.requests[r].pc.InsertJob?
        ensures !HasActive(t.jobs, t.requests[r].recipient, t.requests[r].campaign)
      {
        ActiveAfterSet(s.jobs, job, status, t.requests[r].recipient, t.requests[r].campaign);
      }
    }
  }

  lemma StepKeepsInv(s: State, e: Event)
    requires Inv(s) && !e.RetryJob?
    ensures Inv(Apply(s, e))
  {
    match e
    case BeginQueue(_, _, _) =>
    case AdvanceQueue(r, broken) => if r in s.requests { QueueKeepsInv(s, r, broken); }
    case PlainJob(recipient) =>
      var job := Job(recipient, None, Pending);
      AppendKeepsOneActive(s.jobs, job);
      forall r | r in s.requests && s.requests[r].pc.InsertJob?
        ensures !HasActive(s.jobs + [job], s.requests[r].recipient, s.requests[r].campaign)
      {
        ActiveAfterAppend(s.jobs, job, s.requests[r].recipient, s.requests[r].campaign);
      }
    case FetchJobs(_) =>
    case StartJob => WorkerKeepsInv(s, e);
    case FinishJob(_) => WorkerKeepsInv(s, e);
  }

  // ---- An active job stays until its sending fails ----

  /** The worker reports a failed send of the active job for this recipient. */
  predicate SendFails(s: State, e: Event, recipient: string, campaign: string) {
    && e == FinishJob(false)
    && s.batch != [] && s.batch[0] < |s.jobs| && ActiveFor(s.jobs[s.batch[0]], recipient, campaign)
  }

  /** Without a failing send, whoever has an active job keeps one, whatever the event. */
  lemma ActiveStays(s: State, e: Event, recipient: string, campaign: string)
    requires HasActive(s.jobs, recipient, campaign) && !SendFails(s, e, recipient, campaign)
    ensures HasActive(Apply(s, e).jobs, recipient, campaign)
  {
    var i :| 0 <= i < |s.jobs| && ActiveFor(s.jobs[i], recipient, campaign);
    var jobs := Apply(s, e).jobs;
    assert i < |jobs| && ActiveFor(jobs[i], recipient, campaign);
  }

  lemma LastActiveFails(jobs: seq<Job>, j: nat, recipient: string, campaign: string)
    requires OneActive(jobs) && j < |jobs| && ActiveFor(jobs[j], recipient, campaign)
    ensures !HasActive(SetStatus(jobs, j, Failed), recipient, campaign)
  {
    var after := SetStatus(jobs, j, Failed);
    forall i | 0 <= i < |after| ensures !ActiveFor(after[i], recipient, campaign) {
      if i != j {
        assert !ActiveFor(jobs[i], recipient, campaign);
      }
    }
  }

  /** While active jobs are unique, exactly a failing send takes the active job away. */
  lemma ActiveStaysExactly(s: State, e: Event, recipient: string, campaign: string)
    requires OneActive(s.jobs) && HasActive(s.jobs, recipient, campaign)
    ensures HasActive(Apply(s, e).jobs, recipient, campaign) <==> !SendFails(s, e, recipient, campaign)
  {
    if SendFails(s, e, recipient, campaign) {
      LastActiveFails(s.jobs, s.batch[0], recipient, campaign);
    } else {
      ActiveStays(s, e, recipient, campaign);
    }
  }

  ghost predicate NoSendFails(s: State, e: Event, recipients: set<string>, campaign: string) {
    forall recipient :: recipient in recipients ==> !SendFails(s, e, recipient, campaign)
  }

  /** In this run no send of an active job for one of the recipients fails. */
  ghost predicate SendsWork(s: State, events: seq<Event>, recipients: set<string>, campaign: string) {
    Admitted(Apply, (t, e) => NoSendFails(t, e, recipients, campaign), s, events)
  }

  lemma {:induction false} AllActiveStay(s: State, events: seq<Event>, recipients: set<string>, campaign: string)
    requires forall p :: p in recipients ==> HasActive(s.jobs, p, campaign)
    requires SendsWork(s, events, recipients, campaign)
    ensures forall p :: p in recipients ==> HasActive(Run(Apply, s, events).jobs, p, campaign)
  {
    var ok := (t: State, e: Event) => NoSendFails(t, e, recipients, campaign);
    var inv := (t: State) => forall p :: p in recipients ==> HasActive(t.jobs, p, campaign);
    forall t, e | inv(t) && ok(t, e) ensures inv(Apply(t, e)) {
      forall p | p in recipients ensures HasActive(Apply(t, e).jobs, p, campaign) { ActiveStays(t, e, p, campaign); }
    }
    InvariantOfAdmitted(Apply, ok, inv, s, events);
  }

  /**
   Once a recipient has an active job, every request for the same campaign that begins later is skipped, in any
   interleaving with the worker, other requests and retries, as long as no send to that recipient fails.
   */
  lemma {:induction false} RepeatedRequestIsSkipped(
      s: State, events: seq<Event>, r: nat, recipient: string, campaign: string)
    requires HasActive(s.jobs, recipient, campaign) && r !in s.requests
    requires Admitted(Apply, (t, e) => !SendFails(t, e, recipient, campaign), s, events)
    requires var t := Run(Apply, s, events);
      r in t.requests && t.requests[r].recipient == recipient && t.requests[r].campaign == campaign
    ensures var pc := Run(Apply, s, events).requests[r].pc; !pc.InsertJob? && pc != Finished(true)
  {
    var ok := (t: State, e: Event) => !SendFails(t, e, recipient, campaign);
    var inv := (t: State) => Skipping(t, r, recipient, campaign);
    forall t, e | inv(t) && ok(t, e) ensures inv(Apply(t, e)) { StepKeepsSkipping(t, e, r, recipient, campaign); }
    InvariantOfAdmitted(Apply, ok, inv, s, events);
  }

  lemma StepKeepsSkipping(s: State, e: Event, r: nat, recipient: string, campaign: string)
    requires Skipping(s, r, recipient, campaign) && !SendFails(s, e, recipient, campaign)
    ensures Skipping(Apply(s, e), r, recipient, campaign)
  {
    ActiveStays(s, e, recipient, campaign);
  }

  predicate Skipping(s: State, r: nat, recipient: string, campaign: string) {
    && HasActive(s.jobs, recipient, campaign)
    && (r in s.requests && s.requests[r].recipient == recipient && s.requests[r].campaign == campaign ==>
          !s.requests[r].pc.InsertJob? && s.requests[r].pc != Finished(true))
  }

  // ---- Manual retries ----

  predicate InsertsFor(s: State, recipient: string, campaign: string) {
    exists r | r in s.requests :: s.requests[r].pc.InsertJob?
      && s.requests[r].recipient == recipient && s.requests[r].campaign == campaign
  }

  /** The retry revives no failed job that has an active twin, or a request about to insert one. */
  predicate RetryIsSafe(s: State, j: nat)
    requires j < |s.jobs|
  {
    var job := s.jobs[j];
    job.status.Failed? && job.campaign.Some? ==>
      !HasActive(s.jobs, job.recipient, job.campaign.value) && !InsertsFor(s, job.recipient, job.campaign.value)
  }

  lemma RevivedTwin(jobs: seq<Job>, j: nat)
    requires j < |jobs| && jobs[j].status.Failed? && jobs[j].campaign.Some?
    requires HasActive(jobs, jobs[j].recipient, jobs[j].campaign.value)
    ensures !OneActive(SetStatus(jobs, j, Pending))
  {
    var after := SetStatus(jobs, j, Pending);
    var i :| 0 <= i < |jobs| && ActiveFor(jobs[i], jobs[j].recipient, jobs[j].campaign.value);
    var low, high := if i < j then i else j, if i < j then j else i;
    assert after[i] == jobs[i] && ActiveFor(after[j], jobs[j].recipient, jobs[j].campaign.value);
    assert ActiveFor(after[high], after[low].recipient, after[low].campaign.value);
  }

  lemma RevivedIsActive(jobs: seq<Job>, j: nat, recipient: string, campaign: string)
    requires j < |jobs|
    ensures HasActive(SetStatus(jobs, j, Pending), recipient, campaign) <==>
      HasActive(jobs, recipient, campaign) || (jobs[j].recipient == recipient && jobs[j].campaign == Some(campaign))
  {
    var after := SetStatus(jobs, j, Pending);
    if i :| 0 <= i < |jobs| && ActiveFor(jobs[i], recipient, campaign) {
      assert ActiveFor(after[i], recipient, campaign);
    }
    if jobs[j].recipient == recipient && jobs[j].campaign == Some(campaign) {
      assert ActiveFor(after[j], recipient, campaign);
    }
  }

  lemma SafeRetryKeepsOneActive(jobs: seq<Job>, j: nat)
    requires OneActive(jobs) && j < |jobs|
    requires jobs[j].status.Failed? && jobs[j].campaign.Some? ==>
      !HasActive(jobs, jobs[j].recipient, jobs[j].campaign.value)
    ensures OneActive(SetStatus(jobs, j, Pending))
  {
    var after := SetStatus(jobs, j, Pending);
    forall i, k | 0 <= i < k < |after| && after[i].campaign.Some? && !after[i].status.Failed?
      ensures !ActiveFor(after[k], after[i].recipient, after[i].campaign.value)
    {
      if jobs[j].status.Failed? && (i == j || k == j) {
        var other := if i == j then k else i;
        assert jobs[j].campaign.Some? ==> !ActiveFor(jobs[other], jobs[j].recipient, jobs[j].campaign.value);
      }
    }
  }

  /** A manual retry keeps the protocol's invariant exactly when it is safe. */
  lemma RetryKeepsInvExactly(s: State, j: nat)
    requires Inv(s) && j < |s.jobs|
    ensures Inv(Apply(s, RetryJob(j))) <==> RetryIsSafe(s, j)
  {
    var job := s.jobs[j];
    assert s.jobs[j] == job;
    var t := Apply(s, RetryJob(j));
    if RetryIsSafe(s, j) {
      SafeRetryKeepsOneActive(s.jobs, j);
      forall r | r in t.requests && t.requests[r].pc.InsertJob?
        ensures !HasActive(t.jobs, t.requests[r].recipient, t.requests[r].campaign)
      {
        var recipient, campaign := t.requests[r].recipient, t.requests[r].campaign;
        RevivedIsActive(s.jobs, j, recipient, campaign);
        assert !job.status.Failed? && job.recipient == recipient && job.campaign == Some(campaign)
          ==> ActiveFor(job, recipient, campaign);
      }
    } else if HasActive(s.jobs, job.recipient, job.campaign.value) {
      RevivedTwin(s.jobs, j);
    } else {
      RevivedIsActive(s.jobs, j, job.recipient, job.campaign.value);
    }
  }

  ghost predicate SafeRetry(s: State, e: Event) { e.RetryJob? && e.job < |s.jobs| ==> RetryIsSafe(s, e.job) }

  const NOTHING := State([], map[], [], [])

  /** In any interleaving of queueing requests, the worker and manual retries, as long as retries are safe. */
  lemma {:induction false} AtMostOneActiveJob(events: seq<Event>)
    requires Admitted(Apply, SafeRetry, NOTHING, events)
    ensures OneActive(Run(Apply, NOTHING, events).jobs)
  {
    forall s, e | Inv(s) && SafeRetry(s, e) ensures Inv(Apply(s, e)) {
      if e.RetryJob? {
        if e.job < |s.jobs| { RetryKeepsInvExactly(s, e.job); }
      } else {
        StepKeepsInv(s, e);
      }
    }
    InvariantOfAdmitted(Apply, SafeRetry, Inv, NOTHING, events);
  }

  /** An unsafe retry has two active jobs at once, or after one more statement of another request. */
  lemma UnsafeRetryBreaks(s: State, j: nat) returns (more: seq<Event>)
    requires Inv(s) && j < |s.jobs| && !RetryIsSafe(s, j)
    ensures |more| <= 1 && (forall e :: e in more ==> e.AdvanceQueue?)
    ensures !OneActive(Run(Apply, Apply(s, RetryJob(j)), more).jobs)
  {
    var job := s.jobs[j];
    more := [];
    if HasActive(s.jobs, job.recipient, job.campaign.value) {
      RevivedTwin(s.jobs, j);
    } else {
      var r :| r in s.requests && s.requests[r].pc.InsertJob?
        && s.requests[r].recipient == job.recipient && s.requests[r].campaign == job.campaign.value;
      more := [AdvanceQueue(r, false)];
      var t := Apply(s, RetryJob(j));
      RunOne(Apply, t, more[0]);
      var jobs := t.jobs + [Job(job.recipient, job.campaign, Pending)];
      assert jobs[j] == job.(status := Pending);
      assert ActiveFor(jobs[|t.jobs|], jobs[j].recipient, jobs[j].campaign.value);
    }
  }

  /**
   The race is reachable: a job fails, a second request has checked and not yet inserted, and the retry
   comes in between.
   */
  lemma RetryRacesWithQueueing()
    ensures var step := AdvanceQueue(1, false);
      var events := [BeginQueue(0, "p", "c"), AdvanceQueue(0, false), AdvanceQueue(0, false), AdvanceQueue(0, false)]
        + [FetchJobs([0]), StartJob, FinishJob(false)] + [BeginQueue(1, "p", "c"), step, step] + [RetryJob(0), step];
      !OneActive(Run(Apply, NOTHING, events).jobs)
  {
    var job := Job("p", Some("c"), Pending);
    var first := [BeginQueue(0, "p", "c"), AdvanceQueue(0, false), AdvanceQueue(0, false), AdvanceQueue(0, false)];
    var second := [FetchJobs([0]), StartJob, FinishJob(false)];
    var step := AdvanceQueue(1, false);
    var third, fourth := [BeginQueue(1, "p", "c"), step, step], [RetryJob(0), step];
    var done := QueueRequest("p", "c", Finished(true));
    var s1 := State([job], map[0 := done], [], []);
    var s2 := State([job.(status := Failed)], map[0 := done], [], [(0, Failed)]);
    var s3 := s2.(requests := map[0 := done, 1 := QueueRequest("p", "c", InsertJob)]);
    assert Run(Apply, NOTHING, first) == s1 by { QueuedFirst(); }
    assert Run(Apply, s1, second) == s2 by { FailedNext(s1); }
    assert Run(Apply, s2, third) == s3 by { CheckedThen(s2); }
    RunAppend(Apply, NOTHING, first, second);
    RunAppend(Apply, NOTHING, first + second, third);
    RunAppend(Apply, NOTHING, first + second + third, fourth);
    RetriedThen(s3);
  }

  lemma {:induction false} RetriedThen(s: State)
    requires s.jobs == [Job("p", Some("c"), Failed)]
    requires 1 in s.requests && s.requests[1] == QueueRequest("p", "c", InsertJob)
    ensures !OneActive(Run(Apply, s, [RetryJob(0), AdvanceQueue(1, false)]).jobs)
  {
    var job := Job("p", Some("c"), Pending);
    var t := Apply(s, RetryJob(0));
    assert [RetryJob(0), AdvanceQueue(1, false)][1..] == [AdvanceQueue(1, false)];
    RunOne(Apply, t, AdvanceQueue(1, false));
    assert t.jobs == [job];
    assert Apply(t, AdvanceQueue(1, false)).jobs == [job, job];
    assert ActiveFor([job, job][1], [job, job][0].recipient, [job, job][0].campaign.value);
  }

  lemma QueuedFirst()
    ensures Run(Apply, NOTHING,
      [BeginQueue(0, "p", "c"), AdvanceQueue(0, false), AdvanceQueue(0, false), AdvanceQueue(0, false)])
      == State([Job("p", Some("c"), Pending)], map[0 := QueueRequest("p", "c", Finished(true))], [], [])
  {
    var e := AdvanceQueue(0, false);
    var s1 := Apply(NOTHING, BeginQueue(0, "p", "c"));
    var s2, s3 := QueueAt(s1, 0, CheckExists), QueueAt(s1, 0, InsertJob);
    assert Apply(s1, e) == s2 && Apply(s2, e) == s3;
    assert [BeginQueue(0, "p", "c"), e, e, e][1..] == [e, e, e] && [e, e, e][1..] == [e, e] && [e, e][1..] == [e];
    RunOne(Apply, s3, e);
    assert Run(Apply, s2, [e, e]) == Run(Apply, s3, [e]);
    assert Run(Apply, s1, [e, e, e]) == Run(Apply, s2, [e, e]);
  }

  lemma {:induction false} FailedNext(s: State)
    requires s.jobs == [Job("p", Some("c"), Pending)] && s.batch == [] && s.history == []
    ensures Run(Apply, s, [FetchJobs([0]), StartJob, FinishJob(false)])
      == s.(jobs := [Job("p", Some("c"), Failed)], history := [(0, Failed)])
  {
    var s1 := Apply(s, FetchJobs([0]));
    assert IsFetch(s.jobs, [0]);
    var s2 := Apply(s1, StartJob);
    var events := [FetchJobs([0]), StartJob, FinishJob(false)];
    assert events[1..] == [StartJob, FinishJob(false)] && events[1..][1..] == [FinishJob(false)];
    RunOne(Apply, s2, FinishJob(false));
    assert Run(Apply, s1, events[1..]) == Run(Apply, s2, [FinishJob(false)]);
  }

  lemma {:induction false} CheckedThen(s: State)
    requires s.jobs == [Job("p", Some("c"), Failed)] && s.requests == map[0 := QueueRequest("p", "c", Finished(true))]
    ensures Run(Apply, s, [BeginQueue(1, "p", "c"), AdvanceQueue(1, false), AdvanceQueue(1, false)])
      == s.(requests := s.requests[1 := QueueRequest("p", "c", InsertJob)])
  {
    var e := AdvanceQueue(1, false);
    var s1 := Apply(s, BeginQueue(1, "p", "c"));
    var s2 := QueueAt(s1, 1, CheckExists);
    assert Apply(s1, e) == s2;
    assert [BeginQueue(1, "p", "c"), e, e][1..] == [e, e] && [e, e][1..] == [e];
    RunOne(Apply, s2, e);
    assert Run(Apply, s1, [e, e]) == Run(Apply, s2, [e]);
    assert Apply(s2, e).requests == s.requests[1 := QueueRequest("p", "c", InsertJob)];
  }
}
