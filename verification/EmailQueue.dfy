/**
 The registration e-mail queue: a worker fetches due logs and sends them one by one,
 while new logs and manual resets may land between any two of its statements. The next
 retry time comes from the fetched copy of a log; count and status come from the row.
 Times are in seconds.
 */
module EmailQueue {
  import opened Common

  datatype LogStatus = Pending | Sent | Failed

  datatype EmailLog = EmailLog(status: LogStatus, retryCount: nat, maxRetry: int, nextRetryAt: Option<int>)

  datatype Item = Item(id: Id, copy: EmailLog)

  datatype State = State(
    logs: map<Id, EmailLog>,
    batch: seq<Item>,               // what the worker has fetched and not yet sent
    clock: int,
    attempts: map<Id, seq<int>>)    // history: when each send of a log began, since its last reset

  datatype Event =
    | Create(id: Id, maxRetry: int)
    | Fetch(now: int, ids: seq<Id>)
    | Attempt(start: int, end: int, ok: bool)
    | Reset(id: Id)
    | Cascade(id: Id)  // the log goes with its registration

  const DEFAULT_MAX_RETRY := 5
  const BATCH_LIMIT := 10
  const MINUTE := 60
  const LONGEST_BACKOFF := 360 * MINUTE

  /** The wait after the n-th failure. */
  function Backoff(n: nat): int {
    if n == 1 then 1 * MINUTE
    else if n == 2 then 5 * MINUTE
    else if n == 3 then 15 * MINUTE
    else if n == 4 then 60 * MINUTE
    else 360 * MINUTE
  }

  /** COALESCE(NULLIF(max_retry, 0), 5) */
  function SqlMax(log: EmailLog): int { if log.maxRetry == 0 then DEFAULT_MAX_RETRY else log.maxRetry }

  /** The worker's own reading of the maximum. */
  function GoMax(log: EmailLog): int { if log.maxRetry <= 0 then DEFAULT_MAX_RETRY else log.maxRetry }

  predicate Due(log: EmailLog, now: int) {
    log.status.Pending? && log.retryCount < SqlMax(log) && (log.nextRetryAt.Some? ==> log.nextRetryAt.value <= now)
  }

  /** A possible answer of the pending query: due logs, all of them unless the limit cuts it short. */
  predicate IsBatch(logs: map<Id, EmailLog>, now: int, ids: seq<Id>) {
    && (forall i :: 0 <= i < |ids| ==> ids[i] in logs && Due(logs[ids[i]], now))
    && (forall i, j :: 0 <= i < j < |ids| ==> ids[i] != ids[j])
    && |ids| <= BATCH_LIMIT
    && (|ids| < BATCH_LIMIT ==> forall id :: id in logs && Due(logs[id], now) ==> id in ids)
  }

  /** What the worker hands to the failure update: no time once its copy has no attempt left. */
  function NextRetry(copy: EmailLog, end: int): Option<int> {
    if copy.retryCount + 1 < GoMax(copy) then Some(end + Backoff(copy.retryCount + 1)) else None
  }

  /** The failure update, computed from the row. */
  function AfterFailure(row: EmailLog, next: Option<int>): EmailLog {
    var exhausted := row.retryCount + 1 >= SqlMax(row);
    row.(retryCount := row.retryCount + 1,
         nextRetryAt := if exhausted then None else next,
         status := if exhausted then Failed else Pending)
  }

  function StartsOf(s: State, id: Id): seq<int> { if id in s.attempts then s.attempts[id] else [] }

  predicate InBatch(batch: seq<Item>, id: Id) { exists i | 0 <= i < |batch| :: batch[i].id == id }

  /** Generated ids are new; the update of a log that is gone changes nothing. */
  function Apply(s: State, e: Event): State {
    match e
    case Create(id, maxRetry) =>
      if id in s.logs || InBatch(s.batch, id) then s
      else s.(logs := s.logs[id := EmailLog(Pending, 0, if maxRetry <= 0 then DEFAULT_MAX_RETRY else maxRetry, None)],
              attempts := s.attempts[id := []])
    case Fetch(now, ids) =>
      if s.batch != [] || now < s.clock || !IsBatch(s.logs, now, ids) then s
      else s.(clock := now, batch := seq(|ids|, i requires 0 <= i < |ids| => Item(ids[i], s.logs[ids[i]])))
    case Attempt(start, end, ok) =>
      if s.batch == [] || !(s.clock <= start <= end) then s
      else if s.batch[0].id !in s.logs then s.(batch := s.batch[1..], clock := end)
      else
        var item := s.batch[0];
        var row := s.logs[item.id];
        var updated := if ok then row.(status := Sent) else AfterFailure(row, NextRetry(item.copy, end));
        s.(batch := s.batch[1..], clock := end,
           logs := s.logs[item.id := updated],
           attempts := s.attempts[item.id := StartsOf(s, item.id) + [start]])
    case Reset(id) =>
      if id !in s.logs then s
      else s.(logs := s.logs[id := s.logs[id].(status := Pending, retryCount := 0, nextRetryAt := None)],
              attempts := s.attempts[id := []])
    case Cascade(id) => s.(logs := s.logs - {id}, attempts := s.attempts - {id})
  }

  class Queue {
    var logs: map<Id, EmailLog>
    var batch: seq<Item>
    var clock: int
    ghost var attempts: map<Id, seq<int>>

    ghost function View(): State
      reads this
    {
      State(logs, batch, clock, attempts)
    }

    constructor (clock: int)
      ensures View() == State(map[], [], clock, map[])
    {
      logs, batch, this.clock, attempts := map[], [], clock, map[];
    }

    method CreateEmailLog(id: Id, maxRetry: int)
      requires id !in logs && !InBatch(batch, id)
      modifies this
      ensures View() == Apply(old(View()), Create(id, maxRetry))
      ensures logs == old(logs)[id := EmailLog(Pending, 0, if maxRetry <= 0 then 5 else maxRetry, None)]
    {
      var max := maxRetry;
      if max <= 0 {
        max := DEFAULT_MAX_RETRY;
      }
      logs := logs[id := EmailLog(Pending, 0, max, None)];
      attempts := attempts[id := []];
    }

    method RetryEmailLog(id: Id)
      modifies this
      ensures View() == Apply(old(View()), Reset(id))
      ensures id in old(logs) ==> logs == old(logs)[id := EmailLog(Pending, 0, old(logs)[id].maxRetry, None)]
      ensures id !in old(logs) ==> logs == old(logs)
    {
      if id in logs {
        logs := logs[id := logs[id].(status := Pending, retryCount := 0, nextRetryAt := None)];
        attempts := attempts[id := []];
      }
    }

    /** Up to ten due logs. */
    method GetPendingEmails(now: int) returns (ids: seq<Id>)
      ensures IsBatch(logs, now, ids)
      ensures |ids| <= 10 && forall i, j :: 0 <= i < j < |ids| ==> ids[i] != ids[j]
      ensures forall id :: id in ids ==>
        && id in logs && logs[id].status == Pending
        && logs[id].retryCount < (if logs[id].maxRetry == 0 then 5 else logs[id].maxRetry)
        && (logs[id].nextRetryAt.Some? ==> logs[id].nextRetryAt.value <= now)
      ensures |ids| < 10 ==> forall id :: id in logs && id !in ids ==>
        || logs[id].status != Pending
        || logs[id].retryCount >= (if logs[id].maxRetry == 0 then 5 else logs[id].maxRetry)
        || (logs[id].nextRetryAt.Some? && logs[id].nextRetryAt.value > now)
    {
      ids := [];
      var due := set id | id in logs && Due(logs[id], now);
      while |ids| < BATCH_LIMIT && due != {}
        invariant |ids| <= BATCH_LIMIT
        invariant forall i :: 0 <= i < |ids| ==> ids[i] in logs && Due(logs[ids[i]], now) && ids[i] !in due
        invariant forall i, j :: 0 <= i < j < |ids| ==> ids[i] != ids[j]
        invariant forall id :: id in logs && Due(logs[id], now) ==> id in due || id in ids
        invariant forall id :: id in due ==> id in logs && Due(logs[id], now)
        decreases |due|
      {
        var id :| id in due;
        ids, due := ids + [id], due - {id};
      }
    }

    method UpdateEmailLogSuccess(id: Id)
      modifies this`logs
      ensures logs == if id in old(logs) then old(logs)[id := old(logs)[id].(status := Sent)] else old(logs)
    {
      if id in logs {
        logs := logs[id := logs[id].(status := Sent)];
      }
    }

    method UpdateEmailLogFailure(id: Id, nextRetryAt: Option<int>)
      modifies this`logs
      ensures logs == if id in old(logs) then old(logs)[id := AfterFailure(old(logs)[id], nextRetryAt)] else old(logs)
    {
      if id !in logs {
        return;
      }
      var row := logs[id];
      var max := SqlMax(row);
      var next, status := nextRetryAt, Pending;
      if row.retryCount + 1 >= max {
        next, status := None, Failed;
      }
      logs := logs[id := EmailLog(status, row.retryCount + 1, row.maxRetry, next)];
    }

    /** The switch over the number of failures, from the fetched copy. */
    static method NextRetryAt(copy: EmailLog, end: int) returns (nextRetryAt: Option<int>)
      ensures nextRetryAt == NextRetry(copy, end)
    {
      var newRetryCount := copy.retryCount + 1;
      var maxRetry := copy.maxRetry;
      if maxRetry <= 0 {
        maxRetry := 5;
      }
      nextRetryAt := None;
      if newRetryCount < maxRetry {
        match newRetryCount {
          case 1 => nextRetryAt := Some(end + 1 * MINUTE);
          case 2 => nextRetryAt := Some(end + 5 * MINUTE);
          case 3 => nextRetryAt := Some(end + 15 * MINUTE);
          case 4 => nextRetryAt := Some(end + 60 * MINUTE);
          case _ => nextRetryAt := Some(end + 360 * MINUTE);
        }
      }
    }

    /** One send of the batch and the update that follows it. */
    method SendNext(start: int, end: int, ok: bool)
      requires batch != [] && clock <= start <= end
      modifies this
      ensures View() == Apply(old(View()), Attempt(start, end, ok))
      ensures batch == old(batch)[1..] && clock == end
      ensures var id := old(batch)[0].id;
        && (id !in old(logs) ==> logs == old(logs))
        && (id in old(logs) && ok ==> logs == old(logs)[id := old(logs)[id].(status := Sent)])
      ensures var id, copy := old(batch)[0].id, old(batch)[0].copy;
        id in old(logs) && !ok ==>
          var row, failures := old(logs)[id], copy.retryCount + 1;
          var minutes := if failures == 1 then 1 else if failures == 2 then 5 else if failures == 3 then 15
            else if failures == 4 then 60 else 360;
          var offered := if failures < (if copy.maxRetry <= 0 then 5 else copy.maxRetry)
            then Some(end + 60 * minutes) else None;
          var exhausted := row.retryCount + 1 >= if row.maxRetry == 0 then 5 else row.maxRetry;
          logs == old(logs)[id := EmailLog(if exhausted then Failed else Pending, row.retryCount + 1, row.maxRetry,
            if exhausted then None else offered)]
    {
      var item := batch[0];
      batch := batch[1..];
      clock := end;
      if item.id in logs {
        attempts := attempts[item.id := (if item.id in attempts then attempts[item.id] else []) + [start]];
      }
      if ok {
        UpdateEmailLogSuccess(item.id);
        return;
      }
      var nextRetryAt := NextRetryAt(item.copy, end);
      UpdateEmailLogFailure(item.id, nextRetryAt);
    }
  }
}
