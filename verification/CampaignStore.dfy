/** The job table of the notification module: queueing, sending and the reminder blast. */
module CampaignStore {
  import opened Common
  import opened Runs
  import opened CampaignQueue
  import Text

  const REMINDER := "event_musyawarah_komitkabe_2026_reminder"

  datatype Recipient = Recipient(id: Id, email: string)

  datatype BlastError = NoRecipientsSelected | SubjectAndBodyRequired | TemplateNotFound

  datatype BlastResult = BlastResult(requested: nat, eligible: nat, queued: nat, skipped: nat)

  /** The answer of the eligibility query: some of the requested rows, each once. */
  predicate IsEligibleAnswer(requested: seq<Id>, recipients: seq<Recipient>) {
    && (forall i :: 0 <= i < |recipients| ==> recipients[i].id in requested)
    && (forall i, j :: 0 <= i < j < |recipients| ==> recipients[i].id != recipients[j].id)
  }

  /** The jobs after queueing for one recipient, when its statements run undisturbed. */
  function Queued(jobs: seq<Job>, recipient: string, campaign: string, broken: bool): seq<Job> {
    if broken || HasActive(jobs, recipient, campaign) then jobs
    else jobs + [Job(recipient, Some(campaign), Pending)]
  }

  /** Lock, existence check, insert and commit of one request amount to Queued. */
  lemma {:induction false} QueueAlone(s: State, r: nat, recipient: string, campaign: string)
    requires r !in s.requests && !Locked(s, r, recipient, campaign)
    ensures var t := Run(Apply, s,
      [BeginQueue(r, recipient, campaign), AdvanceQueue(r, false), AdvanceQueue(r, false), AdvanceQueue(r, false)]);
      && t.jobs == Queued(s.jobs, recipient, campaign, false)
      && r in t.requests && t.requests[r].pc == CampaignQueue.Finished(!HasActive(s.jobs, recipient, campaign))
  {
    var e := AdvanceQueue(r, false);
    var s1 := Apply(s, BeginQueue(r, recipient, campaign));
    assert !Locked(s1, r, recipient, campaign);
    var s2 := Apply(s1, e);
    var s3 := Apply(s2, e);
    var s4 := Apply(s3, e);
    var events := [BeginQueue(r, recipient, campaign), e, e, e];
    assert events[1..] == [e, e, e] && [e, e, e][1..] == [e, e] && [e, e][1..] == [e];
    assert Run(Apply, s3, [e]) == s4;
    assert Run(Apply, s2, [e, e]) == Run(Apply, s3, [e]);
    assert Run(Apply, s1, [e, e, e]) == Run(Apply, s2, [e, e]);
  }

  /** What the worker reports for the jobs of a batch, one after the other. */
  function Reports(oks: seq<bool>): seq<Event> {
    if oks == [] then [] else Reports(oks[..|oks| - 1]) + [StartJob, FinishJob(oks[|oks| - 1])]
  }

  /** The next job of the batch goes through PROCESSING to its final state. */
  lemma {:induction false} OneReportMore(s: State, t: State, oks: seq<bool>, i: nat, final: JobStatus)
    requires i < |oks| && Run(Apply, s, Reports(oks[..i])) == t && t.batch != [] && t.batch[0] < |t.jobs|
    requires final == if oks[i] then Sent else Failed
    ensures Run(Apply, s, Reports(oks[..i + 1])) == t.(
      jobs := SetStatus(t.jobs, t.batch[0], final), batch := t.batch[1..], history := t.history + [(t.batch[0], final)])
  {
    assert oks[..i + 1][..i] == oks[..i];
    var begun := Apply(t, StartJob);
    assert Reports(oks[..i + 1]) == Reports(oks[..i]) + [StartJob] + [FinishJob(oks[i])];
    RunSnoc(Apply, s, Reports(oks[..i]), StartJob);
    RunSnoc(Apply, s, Reports(oks[..i]) + [StartJob], FinishJob(oks[i]));
    assert SetStatus(begun.jobs, t.batch[0], final) == SetStatus(t.jobs, t.batch[0], final);
  }

  /** A job that is being sent is in no further batch. */
  lemma StartedIsNotFetched(s: State, batch: seq<nat>)
    requires s.batch != [] && s.batch[0] < |s.jobs|
    ensures var t := Apply(s, StartJob);
      && t.jobs == s.jobs[s.batch[0] := s.jobs[s.batch[0]].(status := Processing)]
      && (IsFetch(t.jobs, batch) ==> s.batch[0] !in batch)
  {
  }

  /** The first n jobs of the batch have their final state, each with its history row; no other job has changed. */
  ghost predicate Reported(before: State, after: State, batch: seq<nat>, oks: seq<bool>, n: nat)
    requires IsFetch(before.jobs, batch) && n <= |batch| == |oks|
  {
    && |after.jobs| == |before.jobs|
    && (forall i :: 0 <= i < n ==>
          after.jobs[batch[i]] == before.jobs[batch[i]].(status := if oks[i] then Sent else Failed))
    && (forall j :: 0 <= j < |after.jobs| && j !in batch[..n] ==> after.jobs[j] == before.jobs[j])
    && |after.history| == |before.history| + n && before.history <= after.history
    && (forall i :: 0 <= i < n ==>
          after.history[|before.history| + i] == (batch[i], if oks[i] then Sent else Failed))
    && after.batch == batch[n..] && after.requests == before.requests
  }

  lemma ReportedOneMore(before: State, t: State, after: State, oks: seq<bool>, n: nat)
    requires IsFetch(before.jobs, before.batch) && n < |before.batch| == |oks|
    requires Reported(before, t, before.batch, oks, n)
    requires var job, final := before.batch[n], if oks[n] then Sent else Failed;
      after == State(SetStatus(t.jobs, job, final), t.requests, before.batch[n + 1..], t.history + [(job, final)])
    ensures Reported(before, after, before.batch, oks, n + 1)
  {
    var batch := before.batch;
    assert batch[..n + 1] == batch[..n] + [batch[n]];
  }

  lemma {:induction false} ReportsInFull(s: State, oks: seq<bool>, n: nat)
    requires IsFetch(s.jobs, s.batch) && n <= |s.batch| == |oks|
    ensures Reported(s, Run(Apply, s, Reports(oks[..n])), s.batch, oks, n)
  {
    if n > 0 {
      ReportsInFull(s, oks, n - 1);
      var t := Run(Apply, s, Reports(oks[..n - 1]));
      assert t.batch[0] == s.batch[n - 1] && t.batch[1..] == s.batch[n..];
      OneReportMore(s, t, oks, n - 1, if oks[n - 1] then Sent else Failed);
      ReportedOneMore(s, t, Run(Apply, s, Reports(oks[..n])), oks, n - 1);
    }
  }

  /** Of a fetched job, its recipient still has an active one for its campaign exactly when the sending worked. */
  lemma ActiveExactlyWhenSent(before: State, after: State, batch: seq<nat>, oks: seq<bool>, i: nat, campaign: string)
    requires IsFetch(before.jobs, batch) && i < |batch| == |oks| && Reported(before, after, batch, oks, |batch|)
    requires OneActive(before.jobs) && before.jobs[batch[i]].campaign == Some(campaign)
    ensures HasActive(after.jobs, before.jobs[batch[i]].recipient, campaign) <==> oks[i]
  {
    var b, recipient := batch[i], before.jobs[batch[i]].recipient;
    forall j | 0 <= j < |after.jobs|
      ensures ActiveFor(after.jobs[j], recipient, campaign) ==> ActiveFor(before.jobs[j], recipient, campaign)
    {
      assert batch[..|batch|] == batch;
      if j in batch { var k :| 0 <= k < |batch| && batch[k] == j; }
    }
    assert ActiveFor(before.jobs[b], recipient, campaign);
    assert forall j :: 0 <= j < |before.jobs| && ActiveFor(before.jobs[j], recipient, campaign) ==> j == b;
    assert ActiveFor(after.jobs[b], recipient, campaign) <==> oks[i];
  }

  lemma {:induction false} BatchInFull(s: State, oks: seq<bool>)
    requires IsFetch(s.jobs, s.batch) && |s.batch| == |oks|
    ensures var t := Run(Apply, s, Reports(oks));
      && |t.jobs| == |s.jobs| && t.requests == s.requests && t.batch == []
      && (forall i :: 0 <= i < |oks| ==>
            t.jobs[s.batch[i]] == s.jobs[s.batch[i]].(status := if oks[i] then Sent else Failed))
      && (forall j :: 0 <= j < |t.jobs| && j !in s.batch ==> t.jobs[j] == s.jobs[j])
      && |t.history| == |s.history| + |oks| && s.history <= t.history
      && (forall i :: 0 <= i < |oks| ==>
            t.history[|s.history| + i] == (s.batch[i], if oks[i] then Sent else Failed))
      && (OneActive(s.jobs) ==>
            forall i, campaign :: 0 <= i < |oks| && s.jobs[s.batch[i]].campaign == Some(campaign) ==>
            (HasActive(t.jobs, s.jobs[s.batch[i]].recipient, campaign) <==> oks[i]))
  {
    ReportsInFull(s, oks, |oks|);
    assert oks[..|oks|] == oks && s.batch[..|oks|] == s.batch;
    var t := Run(Apply, s, Reports(oks));
    if OneActive(s.jobs) {
      forall i, campaign | 0 <= i < |oks| && s.jobs[s.batch[i]].campaign == Some(campaign)
        ensures HasActive(t.jobs, s.jobs[s.batch[i]].recipient, campaign) <==> oks[i]
      {
        ActiveExactlyWhenSent(s, t, s.batch, oks, i, campaign);
      }
    }
  }

  lemma QueuedKeepsActive(jobs: seq<Job>, recipient: string, campaign: string, broken: bool, other: string)
    ensures HasActive(jobs, other, campaign) ==> HasActive(Queued(jobs, recipient, campaign, broken), other, campaign)
    ensures !broken ==> HasActive(Queued(jobs, recipient, campaign, broken), recipient, campaign)
  {
    ActiveAfterAppend(jobs, Job(recipient, Some(campaign), Pending), other, campaign);
    ActiveAfterAppend(jobs, Job(recipient, Some(campaign), Pending), recipient, campaign);
  }

  /** Whoever has an active reminder job keeps one. */
  ghost predicate KeepsActive(before: seq<Job>, after: seq<Job>) {
    forall email :: HasActive(before, email, REMINDER) ==> HasActive(after, email, REMINDER)
  }

  /** Of the first n recipients everyone whose insert does not fail has an active reminder job. */
  ghost predicate AllActive(jobs: seq<Job>, recipients: seq<Recipient>, n: nat, broken: set<string>)
    requires n <= |recipients|
  {
    forall k :: 0 <= k < n && recipients[k].email !in broken ==> HasActive(jobs, recipients[k].email, REMINDER)
  }

  /** The recipients whose insert fails. */
  function FailingInserts(recipients: seq<Recipient>, broken: set<string>): set<int> {
    set k | 0 <= k < |recipients| && recipients[k].email in broken
  }

  /** Every job that was added is a reminder for a recipient who had no active one when it was added. */
  ghost predicate NewJobsAreFirst(before: seq<Job>, after: seq<Job>, recipients: seq<Recipient>) {
    forall i :: |before| <= i < |after| ==>
      && after[i] == Job(after[i].recipient, Some(REMINDER), Pending)
      && (exists k :: 0 <= k < |recipients| && recipients[k].email == after[i].recipient)
      && !HasActive(after[..i], after[i].recipient, REMINDER)
  }

  ghost predicate BlastSoFar(before: seq<Job>, jobs: seq<Job>, recipients: seq<Recipient>, i: nat, broken: set<string>)
    requires i <= |recipients|
  {
    && before <= jobs && KeepsActive(before, jobs) && AllActive(jobs, recipients, i, broken)
    && NewJobsAreFirst(before, jobs, recipients) && (OneActive(before) ==> OneActive(jobs))
  }

  lemma QueuedForOneMore(jobs: seq<Job>, recipients: seq<Recipient>, i: nat, broken: set<string>)
    requires i < |recipients| && AllActive(jobs, recipients, i, broken)
    ensures var after := Queued(jobs, recipients[i].email, REMINDER, recipients[i].email in broken);
      KeepsActive(jobs, after) && AllActive(after, recipients, i + 1, broken)
  {
    forall other {
      QueuedKeepsActive(jobs, recipients[i].email, REMINDER, recipients[i].email in broken, other);
    }
  }

  lemma AppendedIsFirst(before: seq<Job>, jobs: seq<Job>, recipients: seq<Recipient>, i: nat)
    requires i < |recipients| && before <= jobs && NewJobsAreFirst(before, jobs, recipients)
    requires !HasActive(jobs, recipients[i].email, REMINDER)
    ensures NewJobsAreFirst(before, jobs + [Job(recipients[i].email, Some(REMINDER), Pending)], recipients)
  {
    var after := jobs + [Job(recipients[i].email, Some(REMINDER), Pending)];
    forall k | |before| <= k < |after|
      ensures after[k] == Job(after[k].recipient, Some(REMINDER), Pending)
      ensures exists n :: 0 <= n < |recipients| && recipients[n].email == after[k].recipient
      ensures !HasActive(after[..k], after[k].recipient, REMINDER)
    {
      assert after[..k] == jobs[..k];
      if k < |jobs| {
        assert after[k] == jobs[k];
      } else {
        assert after[k].recipient == recipients[i].email && jobs[..k] == jobs;
      }
    }
  }

  lemma BlastOneMore(before: seq<Job>, jobs: seq<Job>, recipients: seq<Recipient>, i: nat, broken: set<string>)
    requires i < |recipients| && BlastSoFar(before, jobs, recipients, i, broken)
    ensures var after := Queued(jobs, recipients[i].email, REMINDER, recipients[i].email in broken);
      BlastSoFar(before, after, recipients, i + 1, broken)
  {
    var email := recipients[i].email;
    QueuedForOneMore(jobs, recipients, i, broken);
    if email !in broken && !HasActive(jobs, email, REMINDER) {
      AppendedIsFirst(before, jobs, recipients, i);
      if OneActive(jobs) { AppendKeepsOneActive(jobs, Job(email, Some(REMINDER), Pending)); }
    }
  }

  lemma OneFailureMore(recipients: seq<Recipient>, i: nat, broken: set<string>)
    requires i < |recipients|
    ensures |FailingInserts(recipients[..i + 1], broken)|
      == |FailingInserts(recipients[..i], broken)| + (if recipients[i].email in broken then 1 else 0)
  {
    var before, after := FailingInserts(recipients[..i], broken), FailingInserts(recipients[..i + 1], broken);
    assert forall k :: 0 <= k < i ==> recipients[..i + 1][k] == recipients[..i][k];
    assert after == if recipients[i].email in broken then before + {i} else before;
  }

  class Store {
    var jobs: seq<Job>
    var history: seq<(nat, JobStatus)>

    constructor ()
      ensures jobs == [] && history == []
    {
      jobs, history := [], [];
    }

    method QueueUniqueCampaignJob(recipient: string, campaign: string, broken: bool)
      returns (queued: bool, failed: bool)
      modifies this`jobs
      ensures jobs == Queued(old(jobs), recipient, campaign, broken)
      ensures failed == broken
      ensures queued <==> !broken && forall job :: job in old(jobs) ==>
        job.recipient != recipient || job.campaign != Some(campaign) || job.status == Failed
      ensures jobs == if queued then old(jobs) + [Job(recipient, Some(campaign), Pending)] else old(jobs)
    {
      if broken {
        return false, true;
      }
      if exists i | 0 <= i < |jobs| ::
        jobs[i].recipient == recipient && jobs[i].campaign == Some(campaign) && jobs[i].status != Failed {
        return false, false;
      }
      jobs := jobs + [Job(recipient, Some(campaign), Pending)];
      return true, false;
    }

    /** A manual retry makes the job pending again, whatever it was. */
    method RetryJob(job: nat, ghost requests: map<nat, QueueRequest>, ghost batch: seq<nat>)
      requires job < |jobs|
      modifies this`jobs
      ensures jobs == old(jobs)[job := Job(old(jobs)[job].recipient, old(jobs)[job].campaign, Pending)]
      ensures State(jobs, requests, batch, history) ==
        Apply(State(old(jobs), requests, batch, history), Event.RetryJob(job))
    {
      jobs := jobs[job := jobs[job].(status := Pending)];
    }

    /** A job outside any campaign. */
    method QueueNotification(recipient: string, ghost requests: map<nat, QueueRequest>, ghost batch: seq<nat>)
      modifies this`jobs
      ensures jobs == old(jobs) + [Job(recipient, None, Pending)]
      ensures State(jobs, requests, batch, history) ==
        Apply(State(old(jobs), requests, batch, history), PlainJob(recipient))
    {
      jobs := jobs + [Job(recipient, None, Pending)];
    }

    /** The ten oldest pending jobs, or all of them when there are fewer. */
    method GetPendingJobs() returns (batch: seq<nat>)
      ensures IsFetch(jobs, batch) && |batch| <= 10
      ensures forall i, j :: 0 <= i < j < |batch| ==> batch[i] < batch[j]
      ensures forall j :: 0 <= j < |jobs| && jobs[j].status == Pending && j !in batch ==>
        |batch| == 10 && forall i :: 0 <= i < |batch| ==> batch[i] < j
      ensures forall j :: j in batch ==> j < |jobs| && jobs[j].status == Pending
    {
      batch := [];
      var j := 0;
      while j < |jobs| && |batch| < FETCH_LIMIT
        invariant j <= |jobs| && |batch| <= FETCH_LIMIT
        invariant forall i :: 0 <= i < |batch| ==> batch[i] < j && jobs[batch[i]].status.Pending?
        invariant forall i, k :: 0 <= i < k < |batch| ==> batch[i] < batch[k]
        invariant forall k :: 0 <= k < j && jobs[k].status.Pending? ==> k in batch
      {
        if jobs[j].status == Pending {
          batch := batch + [j];
        }
        j := j + 1;
      }
    }

    /** One job through PROCESSING to its final state, with its history row. */
    method ProcessJob(job: nat, ok: bool)
      requires job < |jobs|
      modifies this
      ensures jobs == SetStatus(old(jobs), job, if ok then Sent else Failed)
      ensures history == old(history) + [(job, if ok then Sent else Failed)]
    {
      jobs := SetStatus(jobs, job, Processing);
      var final := if ok then Sent else Failed;
      jobs := SetStatus(jobs, job, final);
      history := history + [(job, final)];
    }

    /** The loop over the fetched jobs. */
    method SendBatch(batch: seq<nat>, oks: seq<bool>, ghost requests: map<nat, QueueRequest>)
      requires IsFetch(jobs, batch) && |oks| == |batch|
      modifies this
      ensures State(jobs, requests, [], history) ==
        Run(Apply, State(old(jobs), requests, batch, old(history)), Reports(oks))
    {
      ghost var fetched := State(jobs, requests, batch, history);
      for i := 0 to |batch|
        invariant Run(Apply, fetched, Reports(oks[..i])) == State(jobs, requests, batch[i..], history)
        invariant |jobs| == |old(jobs)|
      {
        OneReportMore(fetched, State(jobs, requests, batch[i..], history), oks, i, if oks[i] then Sent else Failed);
        assert batch[i..][1..] == batch[i + 1..];
        ProcessJob(batch[i], oks[i]);
      }
      assert oks[..|batch|] == oks && batch[|batch|..] == [];
    }

    /**
     The worker takes every job of its batch to SENT, or to FAILED if the sending did not work, touches no other job
     and logs each outcome once; these are the steps of the protocol, whatever requests are under way.
     */
    method ProcessJobs(batch: seq<nat>, oks: seq<bool>, ghost requests: map<nat, QueueRequest>)
      requires IsFetch(jobs, batch) && |oks| == |batch|
      modifies this
      ensures |jobs| == |old(jobs)|
      ensures forall i :: 0 <= i < |batch| ==>
        jobs[batch[i]] == old(jobs)[batch[i]].(status := if oks[i] then Sent else Failed)
      ensures forall j :: 0 <= j < |jobs| && j !in batch ==> jobs[j] == old(jobs)[j]
      ensures |history| == |old(history)| + |batch| && old(history) <= history
      ensures forall i :: 0 <= i < |batch| ==>
        history[|old(history)| + i] == (batch[i], if oks[i] then Sent else Failed)
      ensures OneActive(old(jobs)) ==> forall i, campaign ::
        0 <= i < |batch| && old(jobs)[batch[i]].campaign == Some(campaign) ==>
          (HasActive(jobs, old(jobs)[batch[i]].recipient, campaign) <==> oks[i])
      ensures State(jobs, requests, [], history) ==
        Run(Apply, State(old(jobs), requests, [], old(history)), [FetchJobs(batch)] + Reports(oks))
    {
      ghost var fetched := State(jobs, requests, batch, history);
      SendBatch(batch, oks, requests);
      BatchInFull(fetched, oks);
      assert ([FetchJobs(batch)] + Reports(oks))[1..] == Reports(oks);
    }

    /**
     Every requested recipient is queued, skipped or hit an insert error; afterwards every
     eligible recipient without an insert error has an active job; nobody who had one gets another.
     `template` tells whether the reminder template is stored.
     */
    method BlastMusyawarahReminder(requested: seq<Id>, subject: string, body: string,
                                   recipients: seq<Recipient>, template: bool, broken: set<string>)
      returns (result: BlastResult, error: Option<BlastError>)
      requires IsEligibleAnswer(requested, recipients)
      modifies this`jobs
      ensures error == if requested == [] then Some(NoRecipientsSelected)
        else if Text.TrimSpace(subject) == "" || Text.TrimSpace(body) == "" then Some(SubjectAndBodyRequired)
        else if recipients != [] && !template then Some(TemplateNotFound) else None
      ensures error.Some? ==> jobs == old(jobs)
      ensures error.None? ==> result.requested == |requested| && result.eligible == |recipients|
      ensures error.None? ==> result.requested == result.queued + result.skipped + |FailingInserts(recipients, broken)|
      ensures old(jobs) <= jobs && |jobs| == |old(jobs)| + result.queued
      ensures NewJobsAreFirst(old(jobs), jobs, recipients) && (OneActive(old(jobs)) ==> OneActive(jobs))
      ensures KeepsActive(old(jobs), jobs)
      ensures error.None? ==> AllActive(jobs, recipients, |recipients|, broken)
      ensures error.None? && AllActive(old(jobs), recipients, |recipients|, {}) ==>
        result.queued == 0 && jobs == old(jobs)
    {
      result := BlastResult(|requested|, 0, 0, 0);
      if |requested| == 0 {
        return result, Some(NoRecipientsSelected);
      }
      if Text.TrimSpace(subject) == "" || Text.TrimSpace(body) == "" {
        return result, Some(SubjectAndBodyRequired);
      }
      EligibleFits(requested, recipients);
      result := result.(eligible := |recipients|, skipped := |requested| - |recipients|);
      error := None;
      if result.eligible == 0 {
        return;
      }
      if !template {
        return result, Some(TemplateNotFound);
      }
      for i := 0 to |recipients|
        invariant result.requested == |requested| && result.eligible == |recipients|
        invariant result.queued + result.skipped + |FailingInserts(recipients[..i], broken)| ==
          |requested| - |recipients| + i
        invariant BlastSoFar(old(jobs), jobs, recipients, i, broken) && |jobs| == |old(jobs)| + result.queued
        invariant AllActive(old(jobs), recipients, |recipients|, {}) ==> result.queued == 0 && jobs == old(jobs)
      {
        BlastOneMore(old(jobs), jobs, recipients, i, broken);
        OneFailureMore(recipients, i, broken);
        var queued, failed := QueueUniqueCampaignJob(recipients[i].email, REMINDER, recipients[i].email in broken);
        if failed {
          continue;
        }
        if queued {
          result := result.(queued := result.queued + 1);
        } else {
          result := result.(skipped := result.skipped + 1);
        }
      }
      assert recipients[..|recipients|] == recipients;
    }

    /**
     Repeating a blast queues nothing, whatever the worker, other requests and retries do in between, as long as
     no send to one of its recipients fails. The second blast may select any recipients the first one reached;
     `others` is what else is under way, `left` the state the first blast leaves.
     */
    method BlastTwice(requested: seq<Id>, recipients: seq<Recipient>, broken: set<string>,
                      subject: string, body: string,
                      others: State, events: seq<Event>, again: seq<Id>, eligible: seq<Recipient>, later: set<string>)
      returns (first: BlastResult, second: BlastResult, ghost left: State)
      requires IsEligibleAnswer(requested, recipients) && requested != []
      requires IsEligibleAnswer(again, eligible) && again != [] && Emails(eligible) <= Emails(recipients) - broken
      requires Text.TrimSpace(subject) != "" && Text.TrimSpace(body) != ""
      modifies this`jobs
      ensures left == others.(jobs := left.jobs) && old(jobs) <= left.jobs && |left.jobs| == |old(jobs)| + first.queued
      ensures SendsWork(left, events, Emails(eligible), REMINDER) ==> second.queued == 0
      ensures SendsWork(left, events, Emails(eligible), REMINDER) ==> jobs == Run(Apply, left, events).jobs
      ensures SendsWork(left, events, Emails(eligible), REMINDER) ==>
        second.skipped == |again| - |FailingInserts(eligible, later)|
    {
      var error;
      first, error := BlastMusyawarahReminder(requested, subject, body, recipients, true, broken);
      left := others.(jobs := jobs);
      ReachedAreActive(jobs, recipients, eligible, broken);
      jobs := Run(Apply, others.(jobs := jobs), events).jobs;
      if SendsWork(left, events, Emails(eligible), REMINDER) {
        AllActiveStay(left, events, Emails(eligible), REMINDER);
        assert AllActive(jobs, eligible, |eligible|, {}) by {
          forall k | 0 <= k < |eligible| ensures HasActive(jobs, eligible[k].email, REMINDER) {
            assert eligible[k].email in Emails(eligible);
          }
        }
      }
      second, error := BlastMusyawarahReminder(again, subject, body, eligible, true, later);
    }
  }

  function Emails(recipients: seq<Recipient>): set<string> { set k | 0 <= k < |recipients| :: recipients[k].email }

  lemma ReachedAreActive(jobs: seq<Job>, recipients: seq<Recipient>, eligible: seq<Recipient>, broken: set<string>)
    requires AllActive(jobs, recipients, |recipients|, broken) && Emails(eligible) <= Emails(recipients) - broken
    ensures forall p :: p in Emails(eligible) ==> HasActive(jobs, p, REMINDER)
  {
    forall p | p in Emails(eligible) ensures HasActive(jobs, p, REMINDER) {
      assert p in Emails(recipients);
      var k :| 0 <= k < |recipients| && recipients[k].email == p;
    }
  }

  lemma EligibleFits(requested: seq<Id>, recipients: seq<Recipient>)
    requires IsEligibleAnswer(requested, recipients)
    ensures |recipients| <= |requested|
  {
    var ids := seq(|recipients|, i requires 0 <= i < |recipients| => recipients[i].id);
    DistinctSeqFitsSeq(ids, requested);
  }
}
