/** Termination, retry bounds and retry times of the e-mail queue. */
module EmailQueueSafety {
  import opened Common
  import opened Runs
  import opened EmailQueue

  // ---- With resets at any moment ----

  /** A pending log has attempts left and a failed one has none. */
  ghost predicate CountsInv(s: State) {
    forall id :: id in s.logs ==>
      && s.logs[id].maxRetry > 0
      && (s.logs[id].status.Pending? ==> s.logs[id].retryCount < s.logs[id].maxRetry)
      && (s.logs[id].status.Failed? ==> s.logs[id].retryCount >= s.logs[id].maxRetry)
  }

  lemma StepKeepsCounts(s: State, e: Event)
    requires CountsInv(s)
    ensures CountsInv(Apply(s, e))
  {
  }

  /** Even when a manual reset lands between the worker's fetch and its failure update. */
  lemma {:induction false} PendingHasAttemptsLeft(s0: State, events: seq<Event>)
    requires CountsInv(s0)
    ensures CountsInv(Run(Apply, s0, events))
  {
    forall s, e | CountsInv(s) ensures CountsInv(Apply(s, e)) { StepKeepsCounts(s, e); }
    Invariant(Apply, CountsInv, s0, events);
  }

  /** In every run the worker's reading of a log's maximum is the database's, and it allows an attempt. */
  lemma {:induction false} MaximaAgree(clock: int, events: seq<Event>, id: Id)
    requires id in Run(Apply, State(map[], [], clock, map[]), events).logs
    ensures var log := Run(Apply, State(map[], [], clock, map[]), events).logs[id];
      GoMax(log) == SqlMax(log) == log.maxRetry > 0
  {
    PendingHasAttemptsLeft(State(map[], [], clock, map[]), events);
  }

  /** A log after failures, each with the retry time the worker offered. */
  function AfterFailures(log: EmailLog, offers: seq<Option<int>>): EmailLog {
    if offers == [] then log
    else AfterFailure(AfterFailures(log, offers[..|offers| - 1]), offers[|offers| - 1])
  }

  /**
   After n failures a fresh log is FAILED exactly when n has reached its maximum; until then it waits as
   last offered.
   */
  lemma {:induction false} FailsAtTheMaximum(log: EmailLog, offers: seq<Option<int>>)
    requires log.retryCount == 0 && offers != []
    ensures var after, n := AfterFailures(log, offers), |offers|;
      && after.retryCount == n && after.maxRetry == log.maxRetry
      && after.status == (if n >= SqlMax(log) then Failed else Pending)
      && after.nextRetryAt == (if n >= SqlMax(log) then None else offers[n - 1])
  {
    var front := offers[..|offers| - 1];
    if front != [] {
      FailsAtTheMaximum(log, front);
    }
  }

  // ---- Without resets ----

  ghost predicate NoReset(s: State, e: Event) { !e.Reset? }

  /** The history of one log explains its row. */
  ghost predicate Explains(log: EmailLog, starts: seq<int>, clock: int) {
    && |starts| == log.retryCount + (if log.status.Sent? then 1 else 0)
    && |starts| <= log.maxRetry
    && (forall k :: 0 <= k < |starts| - 1 ==> starts[k] + Backoff(k + 1) <= starts[k + 1])
    && (log.status.Pending? && log.retryCount > 0 ==>
          log.nextRetryAt.Some? && starts[log.retryCount - 1] + Backoff(log.retryCount) <= log.nextRetryAt.value)
    && (log.status.Failed? ==> log.nextRetryAt == None)
    && (log.status.Pending? && log.nextRetryAt.Some? ==> log.nextRetryAt.value <= clock + LONGEST_BACKOFF)
  }

  predicate AsFetched(s: State, item: Item)
    requires item.id in s.logs
  {
    s.logs[item.id] == item.copy && Due(item.copy, s.clock)
  }

  ghost predicate HistoryInv(s: State) {
    && CountsInv(s)
    && s.attempts.Keys == s.logs.Keys
    && (forall id :: id in s.logs ==> Explains(s.logs[id], s.attempts[id], s.clock))
    && (forall i :: 0 <= i < |s.batch| && s.batch[i].id in s.logs ==> AsFetched(s, s.batch[i]))
    && (forall i, j :: 0 <= i < j < |s.batch| ==> s.batch[i].id != s.batch[j].id)
  }

  lemma AttemptExplained(log: EmailLog, starts: seq<int>, clock: int, start: int, end: int, ok: bool)
    requires log.maxRetry > 0 && Explains(log, starts, clock) && Due(log, clock) && clock <= start <= end
    ensures var after := if ok then log.(status := Sent) else AfterFailure(log, NextRetry(log, end));
      Explains(after, starts + [start], end)
  {
  }

  lemma AttemptKeepsHistory(s: State, start: int, end: int, ok: bool)
    requires HistoryInv(s)
    ensures HistoryInv(Apply(s, Attempt(start, end, ok)))
  {
    if s.batch != [] && s.clock <= start <= end {
      var id := s.batch[0].id;
      var t := Apply(s, Attempt(start, end, ok));
      assert forall i :: 0 <= i < |t.batch| ==> t.batch[i] == s.batch[i + 1];
      if id in s.logs {
        assert AsFetched(s, s.batch[0]);
        AttemptExplained(s.logs[id], s.attempts[id], s.clock, start, end, ok);
        StepKeepsCounts(s, Attempt(start, end, ok));
      }
      forall i | 0 <= i < |t.batch| && t.batch[i].id in t.logs ensures AsFetched(t, t.batch[i]) {
        assert AsFetched(s, s.batch[i + 1]) && t.batch[i].id != id;
      }
    }
  }

  lemma StepKeepsHistory(s: State, e: Event)
    requires HistoryInv(s) && NoReset(s, e)
    ensures HistoryInv(Apply(s, e))
  {
    match e
    case Attempt(start, end, ok) => AttemptKeepsHistory(s, start, end, ok);
    case Fetch(now, ids) => assert forall id :: id in s.logs ==> Explains(s.logs[id], s.attempts[id], s.clock);
    case Create(_, _) => RowsComeAndGo(s, e);
    case Cascade(_) => RowsComeAndGo(s, e);
    case Reset(_) =>
  }

  lemma RowsComeAndGo(s: State, e: Event)
    requires HistoryInv(s) && (e.Create? || e.Cascade?)
    ensures HistoryInv(Apply(s, e))
  {
    var t := Apply(s, e);
    forall i | 0 <= i < |t.batch| && t.batch[i].id in t.logs ensures AsFetched(t, t.batch[i]) {
      assert InBatch(s.batch, t.batch[i].id);
      assert AsFetched(s, s.batch[i]);
    }
  }

  lemma {:induction false} RunKeepsHistory(s: State, events: seq<Event>)
    requires HistoryInv(s) && Admitted(Apply, NoReset, s, events)
    ensures HistoryInv(Run(Apply, s, events))
  {
    forall t, e | HistoryInv(t) && NoReset(t, e) ensures HistoryInv(Apply(t, e)) { StepKeepsHistory(t, e); }
    InvariantOfAdmitted(Apply, NoReset, HistoryInv, s, events);
  }

  /** 0, 1, 6, 21, 81 minutes, and 6 hours more each time after that. */
  function BackoffSum(k: nat): int {
    if k == 0 then 0 else BackoffSum(k - 1) + Backoff(k)
  }

  lemma {:induction false} BackoffTable(k: nat)
    ensures BackoffSum(0) == 0 && BackoffSum(1) == 1 * MINUTE && BackoffSum(2) == 6 * MINUTE
    ensures BackoffSum(3) == 21 * MINUTE && BackoffSum(4) == 81 * MINUTE
    ensures k >= 4 ==> BackoffSum(k) == 81 * MINUTE + (k - 4) * 360 * MINUTE
  {
    if k > 4 { BackoffTable(k - 1); }
  }

  /** Without resets the worker has no retry time to offer exactly when the row turns FAILED. */
  lemma DecisionsCoincide(s: State, end: int)
    requires HistoryInv(s) && s.batch != [] && s.batch[0].id in s.logs
    ensures var row, copy := s.logs[s.batch[0].id], s.batch[0].copy;
      NextRetry(copy, end) == None <==> AfterFailure(row, NextRetry(copy, end)).status.Failed?
  {
    assert AsFetched(s, s.batch[0]);
  }

  lemma {:induction false} StartsFollowBackoff(starts: seq<int>, k: nat)
    requires k < |starts|
    requires forall i :: 0 <= i < |starts| - 1 ==> starts[i] + Backoff(i + 1) <= starts[i + 1]
    ensures starts[0] + BackoffSum(k) <= starts[k]
  {
    if k != 0 { StartsFollowBackoff(starts, k - 1); }
  }

  /**
   From an empty queue and without resets: no log is sent more often than its maximum, the
   k-th retry begins no earlier than the first attempt plus the sum of the first k backoffs,
   and the worker stops offering a retry time exactly when the row turns FAILED.
   */
  lemma {:induction false} RetriesAreBoundedAndSpaced(clock: int, events: seq<Event>, id: Id)
    requires var s0 := State(map[], [], clock, map[]);
      Admitted(Apply, NoReset, s0, events) && id in Run(Apply, s0, events).logs
    ensures var s := Run(Apply, State(map[], [], clock, map[]), events);
      && id in s.attempts && |s.attempts[id]| <= s.logs[id].maxRetry
      && (forall k :: 0 <= k < |s.attempts[id]| ==> s.attempts[id][0] + BackoffSum(k) <= s.attempts[id][k])
      && (s.logs[id].status.Failed? ==> |s.attempts[id]| == s.logs[id].maxRetry && s.logs[id].nextRetryAt == None)
      && (s.logs[id].status.Pending? && |s.attempts[id]| > 0 ==> s.logs[id].nextRetryAt.Some?)
  {
    var s0 := State(map[], [], clock, map[]);
    RunKeepsHistory(s0, events);
    var s := Run(Apply, s0, events);
    assert Explains(s.logs[id], s.attempts[id], s.clock);
    forall k | 0 <= k < |s.attempts[id]| ensures s.attempts[id][0] + BackoffSum(k) <= s.attempts[id][k] {
      StartsFollowBackoff(s.attempts[id], k);
    }
  }
}
