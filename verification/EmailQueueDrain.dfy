/** The e-mail queue terminates: the attempts all logs have left are used up. */
module EmailQueueDrain {
  import opened Common
  import opened Runs
  import opened EmailQueue
  import opened EmailQueueSafety

  function Left(log: EmailLog): nat {
    if log.status.Pending? && log.retryCount < log.maxRetry then log.maxRetry - log.retryCount else 0
  }

  /** The attempts all pending logs still have. */
  ghost function Remaining(logs: map<Id, EmailLog>): nat {
    if logs == map[] then 0
    else
      var id :| id in logs;
      Left(logs[id]) + Remaining(logs - {id})
  }

  lemma {:induction false} RemainingSplit(logs: map<Id, EmailLog>, id: Id)
    requires id in logs
    ensures Remaining(logs) == Left(logs[id]) + Remaining(logs - {id})
    decreases |logs|
  {
    var first :| first in logs && Remaining(logs) == Left(logs[first]) + Remaining(logs - {first});
    if first != id {
      RemainingSplit(logs - {first}, id);
      RemainingSplit(logs - {id}, first);
      assert logs - {first} - {id} == logs - {id} - {first};
    }
  }

  lemma RemainingSet(logs: map<Id, EmailLog>, id: Id, log: EmailLog)
    requires id in logs
    ensures Remaining(logs[id := log]) == Remaining(logs) - Left(logs[id]) + Left(log)
  {
    RemainingSplit(logs, id);
    RemainingSplit(logs[id := log], id);
    assert logs[id := log] - {id} == logs - {id};
  }

  lemma AttemptUsesOneUp(s: State, start: int, end: int, ok: bool)
    requires HistoryInv(s) && s.batch != [] && s.batch[0].id in s.logs && s.clock <= start <= end
    ensures var t := Apply(s, Attempt(start, end, ok));
      Remaining(t.logs) < Remaining(s.logs) && |t.batch| == |s.batch| - 1 && t.logs.Keys == s.logs.Keys
  {
    var id := s.batch[0].id;
    assert AsFetched(s, s.batch[0]);
    RemainingSet(s.logs, id, Apply(s, Attempt(start, end, ok)).logs[id]);
  }

  // ---- Polls ----

  datatype Send = Send(start: int, end: int, ok: bool)

  /** One run of the worker: a fetch and a send for each fetched log, with any outcomes. */
  datatype Poll = Poll(now: int, ids: seq<Id>, sends: seq<Send>)

  ghost predicate InOrder(clock: int, sends: seq<Send>)
    decreases |sends|
  {
    sends == [] || (clock <= sends[0].start <= sends[0].end && InOrder(sends[0].end, sends[1..]))
  }

  function AfterSend(s: State, send: Send): State { Apply(s, Attempt(send.start, send.end, send.ok)) }

  function AfterSends(s: State, sends: seq<Send>): State
    decreases |sends|
  {
    if sends == [] then s else AfterSends(AfterSend(s, sends[0]), sends[1..])
  }

  function AfterPoll(s: State, p: Poll): State { AfterSends(Apply(s, Fetch(p.now, p.ids)), p.sends) }

  /** The worker fetches at any later time and works through what it got. */
  ghost predicate Next(s: State, p: Poll) {
    && p.now >= s.clock
    && IsBatch(s.logs, p.now, p.ids)
    && |p.sends| == |p.ids|
    && InOrder(p.now, p.sends)
  }

  ghost predicate Scheduled(s: State, polls: seq<Poll>)
    decreases |polls|
  {
    polls == [] || (Next(s, polls[0]) && Scheduled(AfterPoll(s, polls[0]), polls[1..]))
  }

  function AfterPolls(s: State, polls: seq<Poll>): State
    decreases |polls|
  {
    if polls == [] then s else AfterPolls(AfterPoll(s, polls[0]), polls[1..])
  }

  /** Nothing of the batch has gone with its registration. */
  predicate AllThere(s: State) { forall i | 0 <= i < |s.batch| :: s.batch[i].id in s.logs }

  lemma StillThere(s: State, send: Send)
    requires AllThere(s) && s.batch != [] && s.clock <= send.start <= send.end
    ensures var t := AfterSend(s, send);
      AllThere(t) && |t.batch| == |s.batch| - 1 && t.clock == send.end
  {
    assert s.batch[0].id in s.logs;
    var t := AfterSend(s, send);
    forall i | 0 <= i < |t.batch| ensures t.batch[i].id in t.logs { assert t.batch[i] == s.batch[i + 1]; }
  }

  lemma SendOne(s: State, send: Send)
    requires HistoryInv(s) && AllThere(s) && s.batch != [] && s.clock <= send.start <= send.end
    ensures var t := AfterSend(s, send);
      && HistoryInv(t) && AllThere(t) && |t.batch| == |s.batch| - 1
      && t.clock == send.end && Remaining(t.logs) < Remaining(s.logs)
  {
    StillThere(s, send);
    assert s.batch[0].id in s.logs;
    AttemptUsesOneUp(s, send.start, send.end, send.ok);
    AttemptKeepsHistory(s, send.start, send.end, send.ok);
  }

  lemma {:induction false} SendsUseUp(s: State, sends: seq<Send>)
    requires HistoryInv(s) && AllThere(s) && |sends| == |s.batch| && InOrder(s.clock, sends)
    ensures var t := AfterSends(s, sends);
      HistoryInv(t) && t.batch == [] && t.clock >= s.clock && Remaining(t.logs) <= Remaining(s.logs) - |sends|
    decreases |sends|
  {
    if sends != [] {
      SendOne(s, sends[0]);
      SendsUseUp(AfterSend(s, sends[0]), sends[1..]);
    }
  }

  /** Every log of a batch costs an attempt; a poll without any changes no log. */
  lemma PollUsesUp(s: State, p: Poll)
    requires HistoryInv(s) && s.batch == [] && Next(s, p)
    ensures var t := AfterPoll(s, p);
      HistoryInv(t) && t.batch == [] && t.clock >= p.now && Remaining(t.logs) <= Remaining(s.logs) - |p.ids|
    ensures p.ids == [] ==> AfterPoll(s, p).logs == s.logs
  {
    StepKeepsHistory(s, Fetch(p.now, p.ids));
    SendsUseUp(Apply(s, Fetch(p.now, p.ids)), p.sends);
  }

  // ---- What is pending ----

  ghost predicate NonePending(logs: map<Id, EmailLog>) { forall id :: id in logs ==> !logs[id].status.Pending? }

  lemma {:induction false} NothingLeft(logs: map<Id, EmailLog>)
    requires forall id :: id in logs ==> Left(logs[id]) == 0
    ensures Remaining(logs) == 0
    decreases |logs|
  {
    if logs != map[] {
      var id :| id in logs && Remaining(logs) == Left(logs[id]) + Remaining(logs - {id});
      NothingLeft(logs - {id});
    }
  }

  /** Nothing is left exactly when no log is pending. */
  lemma NoneLeftNonePending(s: State)
    requires CountsInv(s)
    ensures Remaining(s.logs) == 0 <==> NonePending(s.logs)
  {
    if NonePending(s.logs) {
      NothingLeft(s.logs);
    } else {
      var id :| id in s.logs && s.logs[id].status.Pending?;
      RemainingSplit(s.logs, id);
    }
  }

  /** From the mark on every pending log is due. */
  ghost predicate DueBy(logs: map<Id, EmailLog>, mark: int) {
    forall id :: id in logs && logs[id].status.Pending? ==> Due(logs[id], mark)
  }

  /** What is pending at all is due once the longest backoff has passed. */
  lemma AllPendingAreDue(s: State)
    requires HistoryInv(s)
    ensures DueBy(s.logs, s.clock + LONGEST_BACKOFF)
  {
    forall id | id in s.logs && s.logs[id].status.Pending? ensures Due(s.logs[id], s.clock + LONGEST_BACKOFF) {
      assert Explains(s.logs[id], s.attempts[id], s.clock);
    }
  }

  /** A poll after the mark that finds nothing leaves nothing. */
  lemma EmptyLatePoll(s: State, mark: int, p: Poll)
    requires CountsInv(s) && DueBy(s.logs, mark) && p.now >= mark && p.ids == [] && Next(s, p)
    ensures Remaining(s.logs) == 0
  {
    assert forall id :: id in s.logs && s.logs[id].status.Pending? ==> Due(s.logs[id], p.now);
    NoneLeftNonePending(s);
  }

  // ---- The polls as the clock sees them ----

  /** One poll: from its fetch to its last update, the attempts it made and those left after it. */
  datatype Visit = Visit(start: int, end: int, used: nat, left: nat)

  ghost function Visits(s: State, polls: seq<Poll>): (v: seq<Visit>)
    ensures |v| == |polls|
    ensures forall i :: 0 <= i < |v| ==> v[i].start == polls[i].now
    decreases |polls|
  {
    if polls == [] then []
    else
      var t := AfterPoll(s, polls[0]);
      [Visit(polls[0].now, t.clock, |polls[0].ids|, Remaining(t.logs))] + Visits(t, polls[1..])
  }

  /** Visits are in order, use up what they send, and are not idle when everything left is due. */
  ghost predicate Lawful(clock: int, mark: int, left: nat, visits: seq<Visit>)
    decreases |visits|
  {
    visits == [] || (
      var v := visits[0];
      && clock <= v.start <= v.end
      && v.left + v.used <= left
      && (v.start >= mark && left > 0 ==> v.used > 0)
      && Lawful(v.end, if v.used > 0 then v.end + LONGEST_BACKOFF else mark, v.left, visits[1..]))
  }

  function LeftAfter(left: nat, visits: seq<Visit>): nat { if visits == [] then left else visits[|visits| - 1].left }

  lemma FirstVisit(s: State, mark: int, p: Poll)
    requires HistoryInv(s) && s.batch == [] && Next(s, p) && DueBy(s.logs, mark)
    ensures var t := AfterPoll(s, p);
      && HistoryInv(t) && t.batch == [] && s.clock <= p.now <= t.clock
        && Remaining(t.logs) <= Remaining(s.logs) - |p.ids|
      && (p.ids == [] ==> DueBy(t.logs, mark))
    ensures p.now >= mark && Remaining(s.logs) > 0 ==> p.ids != []
  {
    PollUsesUp(s, p);
    if p.ids == [] && p.now >= mark { EmptyLatePoll(s, mark, p); }
  }

  lemma {:induction false} LawfulFront(clock: int, mark: int, left: nat, v: Visit, rest: seq<Visit>)
    requires clock <= v.start <= v.end && v.left + v.used <= left && (v.start >= mark && left > 0 ==> v.used > 0)
    requires Lawful(v.end, if v.used > 0 then v.end + LONGEST_BACKOFF else mark, v.left, rest)
    ensures Lawful(clock, mark, left, [v] + rest) && LeftAfter(left, [v] + rest) == LeftAfter(v.left, rest)
  {
    assert ([v] + rest)[1..] == rest;
  }

  /** The polls run a lawful list of visits, which ends with what is left after them. */
  ghost predicate Accounts(s: State, mark: int, polls: seq<Poll>, visits: seq<Visit>) {
    var left, end := Remaining(s.logs), AfterPolls(s, polls);
    Lawful(s.clock, mark, left, visits) && LeftAfter(left, visits) == Remaining(end.logs) && CountsInv(end)
  }

  lemma {:induction false} PollsAreLawful(s: State, mark: int, polls: seq<Poll>)
    requires HistoryInv(s) && s.batch == [] && Scheduled(s, polls) && DueBy(s.logs, mark)
    ensures Accounts(s, mark, polls, Visits(s, polls))
    decreases |polls|
  {
    if polls != [] {
      var p, t, rest := polls[0], AfterPoll(s, polls[0]), polls[1..];
      FirstVisit(s, mark, p);
      AllPendingAreDue(t);
      var next := if p.ids == [] then mark else t.clock + LONGEST_BACKOFF;
      PollsAreLawful(t, next, rest);
      AccountsFront(s, mark, polls, p, t, next, Visits(t, rest));
    }
  }

  lemma AccountsFront(s: State, mark: int, polls: seq<Poll>, p: Poll, t: State, next: int, rest: seq<Visit>)
    requires polls != [] && polls[0] == p && AfterPoll(s, p) == t && Accounts(t, next, polls[1..], rest)
    requires s.clock <= p.now <= t.clock && Remaining(t.logs) <= Remaining(s.logs) - |p.ids|
    requires p.now >= mark && Remaining(s.logs) > 0 ==> p.ids != []
    requires next == if p.ids == [] then mark else t.clock + LONGEST_BACKOFF
    ensures Accounts(s, mark, polls, [Visit(p.now, t.clock, |p.ids|, Remaining(t.logs))] + rest)
  {
    LawfulFront(s.clock, mark, Remaining(s.logs), Visit(p.now, t.clock, |p.ids|, Remaining(t.logs)), rest);
  }

  /**
   How many polls come late: the first at or after the mark, and each further one the longest
   backoff or more after the end of the late one before it. Other polls may come in between.
   */
  function Rounds(mark: int, visits: seq<Visit>): nat
    decreases |visits|
  {
    if visits == [] then 0
    else if visits[0].start >= mark then 1 + Rounds(visits[0].end + LONGEST_BACKOFF, visits[1..])
    else Rounds(mark, visits[1..])
  }

  ghost predicate Ordered(clock: int, visits: seq<Visit>)
    decreases |visits|
  {
    visits == [] || (clock <= visits[0].start <= visits[0].end && Ordered(visits[0].end, visits[1..]))
  }

  lemma {:induction false} LawfulIsOrdered(clock: int, mark: int, left: nat, visits: seq<Visit>)
    requires Lawful(clock, mark, left, visits)
    ensures Ordered(clock, visits)
    decreases |visits|
  {
    if visits != [] {
      var v := visits[0];
      LawfulIsOrdered(v.end, if v.used > 0 then v.end + LONGEST_BACKOFF else mark, v.left, visits[1..]);
    }
  }

  /** A mark that is put off, though not beyond the longest backoff, costs at most one round. */
  lemma {:induction false} OneRoundLost(clock: int, mark: int, later: int, visits: seq<Visit>)
    requires Ordered(clock, visits) && later <= clock + LONGEST_BACKOFF
    ensures Rounds(mark, visits) <= 1 + Rounds(later, visits)
    decreases |visits|
  {
    if visits != [] {
      var v, rest := visits[0], visits[1..];
      if v.start < mark {
        OneRoundLost(v.end, mark, if v.start >= later then v.end + LONGEST_BACKOFF else later, rest);
      } else if v.start < later {
        EarlierMarkMoreRounds(v.end, later, v.end + LONGEST_BACKOFF, rest);
      }
    }
  }

  lemma {:induction false} EarlierMarkMoreRounds(clock: int, mark: int, later: int, visits: seq<Visit>)
    requires Ordered(clock, visits) && mark <= later
    ensures Rounds(later, visits) <= Rounds(mark, visits)
    decreases |visits|
  {
    if visits != [] {
      var v, rest := visits[0], visits[1..];
      if v.start < mark {
        EarlierMarkMoreRounds(v.end, mark, later, rest);
      } else if v.start < later {
        OneRoundLost(v.end, later, v.end + LONGEST_BACKOFF, rest);
      }
    }
  }

  lemma {:induction false} RoundsUseUp(clock: int, mark: int, left: nat, visits: seq<Visit>)
    requires Lawful(clock, mark, left, visits) && Rounds(mark, visits) >= left
    ensures LeftAfter(left, visits) == 0
    decreases |visits|
  {
    if visits != [] {
      var v, rest := visits[0], visits[1..];
      var next := if v.used > 0 then v.end + LONGEST_BACKOFF else mark;
      if v.start < mark && v.used > 0 {
        LawfulIsOrdered(v.end, next, v.left, rest);
        OneRoundLost(v.end, mark, next, rest);
      }
      RoundsUseUp(v.end, next, v.left, rest);
    }
  }

  /** Whatever the sends return and however often the worker polls: as many rounds as attempts left empty the queue. */
  lemma {:induction false} QueueDrains(s: State, mark: int, polls: seq<Poll>)
    requires HistoryInv(s) && s.batch == [] && Scheduled(s, polls) && DueBy(s.logs, mark)
    requires Rounds(mark, Visits(s, polls)) >= Remaining(s.logs)
    ensures NonePending(AfterPolls(s, polls).logs)
  {
    PollsAreLawful(s, mark, polls);
    RoundsUseUp(s.clock, mark, Remaining(s.logs), Visits(s, polls));
    NoneLeftNonePending(AfterPolls(s, polls));
  }

  // ---- In time ----

  /** Polls start at most `gap` apart. */
  ghost predicate Every(last: int, gap: nat, visits: seq<Visit>)
    decreases |visits|
  {
    visits == [] || (visits[0].start <= last + gap && Every(visits[0].start, gap, visits[1..]))
  }

  /** How long n rounds may take. */
  function TimeFor(n: nat, gap: nat): nat { if n == 0 then 0 else TimeFor(n - 1, gap) + LONGEST_BACKOFF + 2 * gap }

  lemma {:induction false} TimeForIsProduct(n: nat, gap: nat)
    ensures TimeFor(n, gap) == n * (LONGEST_BACKOFF + 2 * gap)
  {
    if n != 0 { TimeForIsProduct(n - 1, gap); }
  }

  lemma {:induction false} RoundsInTime(clock: int, last: int, mark: int, gap: nat, visits: seq<Visit>, n: nat)
    requires Ordered(clock, visits) && Every(last, gap, visits) && last <= mark
    requires visits != [] && visits[|visits| - 1].start >= mark + TimeFor(n, gap)
    ensures Rounds(mark, visits) >= n + 1
    decreases |visits|
  {
    var v, rest := visits[0], visits[1..];
    if v.start < mark {
      RoundsInTime(v.end, v.start, mark, gap, rest, n);
    } else if n != 0 {
      RoundsInTime(v.end, v.start, v.end + LONGEST_BACKOFF, gap, rest, n - 1);
    }
  }

  lemma {:induction false} EnoughRounds(clock: int, gap: nat, visits: seq<Visit>, left: nat)
    requires Ordered(clock, visits) && Every(clock, gap, visits) && visits != []
    requires visits[|visits| - 1].start >= clock + TimeFor(left, gap)
    ensures Rounds(clock + LONGEST_BACKOFF, visits) >= left
  {
    if left != 0 { RoundsInTime(clock, clock, clock + LONGEST_BACKOFF, gap, visits, left - 1); }
  }

  lemma {:induction false} VisitsAreOrdered(s: State, polls: seq<Poll>)
    requires HistoryInv(s) && s.batch == [] && Scheduled(s, polls)
    ensures Ordered(s.clock, Visits(s, polls))
  {
    var mark := s.clock + LONGEST_BACKOFF;
    AllPendingAreDue(s);
    PollsAreLawful(s, mark, polls);
    LawfulIsOrdered(s.clock, mark, Remaining(s.logs), Visits(s, polls));
  }

  lemma {:induction false} RoundsSuffice(s: State, polls: seq<Poll>, gap: nat, left: nat)
    requires HistoryInv(s) && s.batch == [] && Scheduled(s, polls) && polls != []
    requires Every(s.clock, gap, Visits(s, polls))
    requires polls[|polls| - 1].now >= s.clock + TimeFor(left, gap)
    ensures Rounds(s.clock + LONGEST_BACKOFF, Visits(s, polls)) >= left
  {
    VisitsAreOrdered(s, polls);
    EnoughRounds(s.clock, gap, Visits(s, polls), left);
  }

  lemma {:induction false} DrainsInTime(s: State, polls: seq<Poll>, gap: nat)
    requires HistoryInv(s) && s.batch == [] && Scheduled(s, polls) && polls != []
    requires Every(s.clock, gap, Visits(s, polls))
    requires polls[|polls| - 1].now >= s.clock + Remaining(s.logs) * (LONGEST_BACKOFF + 2 * gap)
    ensures NonePending(AfterPolls(s, polls).logs)
  {
    TimeForIsProduct(Remaining(s.logs), gap);
    RoundsSuffice(s, polls, gap, Remaining(s.logs));
    AllPendingAreDue(s);
    QueueDrains(s, s.clock + LONGEST_BACKOFF, polls);
  }

  /**
   After any history without resets, when no more logs are added and polls start at most `gap` apart: no log is
   pending once the longest backoff and two gaps have passed for every attempt that was left.
   */
  lemma {:induction false} QueueDrainsInTime(clock: int, events: seq<Event>, polls: seq<Poll>, gap: nat)
    requires Admitted(Apply, NoReset, State(map[], [], clock, map[]), events)
    requires var s := Run(Apply, State(map[], [], clock, map[]), events);
      && s.batch == [] && Scheduled(s, polls) && polls != [] && Every(s.clock, gap, Visits(s, polls))
      && polls[|polls| - 1].now >= s.clock + Remaining(s.logs) * (LONGEST_BACKOFF + 2 * gap)
    ensures NonePending(AfterPolls(Run(Apply, State(map[], [], clock, map[]), events), polls).logs)
  {
    RunKeepsHistory(State(map[], [], clock, map[]), events);
    DrainsInTime(Run(Apply, State(map[], [], clock, map[]), events), polls, gap);
  }
}
