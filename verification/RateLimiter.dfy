/**
 The e-voting access-code limiter: a failure counter per client address whose 60-second
 life is renewed by each counted failure. Requests are handled one after the other, times
 are in seconds and never go back.
 */
module RateLimiter {
  import opened Common
  import opened Runs

  const RATE_LIMIT_MAX := 5
  const WINDOW := 60

  datatype Counter = Counter(count: nat, expiresAt: int)

  datatype Outcome = RateLimited | BadRequest | NotConfigured | Denied | LimitedAfterFailure | Accepted

  datatype State = State(
    configured: string,               // the access code; empty when not configured
    counters: map<string, Counter>,
    clock: int,
    failures: map<string, seq<int>>)  // history: when each address failed a comparison

  /** A request body without a readable code is None. */
  datatype Request = Request(now: int, ip: string, code: Option<string>)

  /** A counter that has expired reads as absent. */
  function LiveCount(counters: map<string, Counter>, ip: string, now: int): nat {
    if ip in counters && now < counters[ip].expiresAt then counters[ip].count else 0
  }

  function Failures(s: State, ip: string): seq<int> {
    if ip in s.failures then s.failures[ip] else []
  }

  function Answer(s: State, r: Request): Outcome {
    if LiveCount(s.counters, r.ip, r.now) >= RATE_LIMIT_MAX then RateLimited
    else if r.code == None || r.code == Some("") then BadRequest
    else if s.configured == "" then NotConfigured
    else if r.code == Some(s.configured) then Accepted
    else if LiveCount(s.counters, r.ip, r.now) + 1 >= RATE_LIMIT_MAX then LimitedAfterFailure
    else Denied
  }

  /** Handles a request; one that would turn the clock back does not occur. */
  function Apply(s: State, r: Request): State {
    if r.now < s.clock then s
    else if Answer(s, r).Denied? || Answer(s, r).LimitedAfterFailure? then
      s.(clock := r.now,
         counters := s.counters[r.ip := Counter(LiveCount(s.counters, r.ip, r.now) + 1, r.now + WINDOW)],
         failures := s.failures[r.ip := Failures(s, r.ip) + [r.now]])
    else s.(clock := r.now)
  }

  class Handler {
    var configured: string
    var counters: map<string, Counter>
    var clock: int
    ghost var failures: map<string, seq<int>>

    ghost function View(): State
      reads this
    {
      State(configured, counters, clock, failures)
    }

    constructor (configured: string, clock: int)
      ensures View() == State(configured, map[], clock, map[])
    {
      this.configured, counters, this.clock, failures := configured, map[], clock, map[];
    }

    method GetFailureCount(ip: string, now: int) returns (count: nat)
      ensures count == LiveCount(counters, ip, now)
    {
      count := 0;
      if ip in counters && now < counters[ip].expiresAt {
        count := counters[ip].count;
      }
    }

    /** INCR, then EXPIRE: the increment of an expired key starts over, the expiry is renewed. */
    method IncrementFailure(ip: string, now: int) returns (count: nat)
      modifies this`counters
      ensures count == LiveCount(old(counters), ip, now) + 1
      ensures counters == old(counters)[ip := Counter(count, now + WINDOW)]
    {
      if ip in counters && now >= counters[ip].expiresAt {
        counters := counters - {ip};
      }
      count := 1;
      if ip in counters {
        count := counters[ip].count + 1;
      }
      counters := counters[ip := Counter(count, now + WINDOW)];
    }

    method Authenticate(now: int, ip: string, code: Option<string>) returns (outcome: Outcome)
      requires clock <= now
      modifies this
      ensures View() == Apply(old(View()), Request(now, ip, code))
      ensures outcome == Answer(old(View()), Request(now, ip, code))
      ensures outcome ==
        var live := if ip in old(counters) && now < old(counters)[ip].expiresAt then old(counters)[ip].count else 0;
        if live >= 5 then RateLimited
        else if code in {None, Some("")} then BadRequest
        else if configured == "" then NotConfigured
        else if code == Some(configured) then Accepted
        else if live + 1 == 5 then LimitedAfterFailure
        else Denied
      ensures outcome in {Denied, LimitedAfterFailure} ==>
        var live := if ip in old(counters) && now < old(counters)[ip].expiresAt then old(counters)[ip].count else 0;
        counters == old(counters)[ip := Counter(live + 1, now + 60)]
      ensures outcome !in {Denied, LimitedAfterFailure} ==> counters == old(counters)
      ensures configured == old(configured)
    {
      clock := now;
      var count := GetFailureCount(ip, now);
      if count >= RATE_LIMIT_MAX {
        return RateLimited;
      }
      if code == None || code == Some("") {
        return BadRequest;
      }
      if configured == "" {
        return NotConfigured;
      }
      if code != Some(configured) {
        failures := failures[ip := (if ip in failures then failures[ip] else []) + [now]];
        count := IncrementFailure(ip, now);
        if count >= RATE_LIMIT_MAX {
          return LimitedAfterFailure;
        }
        return Denied;
      }
      return Accepted;
    }
  }

  // ---- What the counter remembers ----

  /** How many of the last failures followed each other within less than the window. */
  function Chain(times: seq<int>): nat {
    if |times| == 0 then 0
    else if |times| > 1 && times[|times| - 1] - times[|times| - 2] < WINDOW then Chain(times[..|times| - 1]) + 1
    else 1
  }

  ghost predicate ShortChains(times: seq<int>) {
    forall n :: 0 <= n <= |times| ==> Chain(times[..n]) <= RATE_LIMIT_MAX
  }

  ghost predicate Sorted(times: seq<int>) {
    forall i, j :: 0 <= i <= j < |times| ==> times[i] <= times[j]
  }

  ghost predicate IpInv(s: State, ip: string) {
    var times := Failures(s, ip);
    && Sorted(times) && ShortChains(times)
    && (ip in s.counters <==> times != [])
    && (times != [] ==>
          && times[|times| - 1] <= s.clock
          && s.counters[ip] == Counter(Chain(times), times[|times| - 1] + WINDOW))
  }

  ghost predicate Inv(s: State) { forall ip :: IpInv(s, ip) }

  lemma {:induction false} NewFailure(times: seq<int>, now: int)
    requires Sorted(times) && ShortChains(times)
    requires times != [] ==> times[|times| - 1] <= now
    requires times != [] && now - times[|times| - 1] < WINDOW ==> Chain(times) < RATE_LIMIT_MAX
    ensures Sorted(times + [now]) && ShortChains(times + [now])
    ensures Chain(times + [now]) == (if times != [] && now - times[|times| - 1] < WINDOW then Chain(times) else 0) + 1
  {
    var after := times + [now];
    assert after[..|times|] == times && after[..|after|] == after;
    forall n | 0 <= n <= |after| ensures Chain(after[..n]) <= RATE_LIMIT_MAX {
      if n <= |times| { assert after[..n] == times[..n]; }
    }
  }

  lemma OtherStepKeepsInv(s: State, r: Request, ip: string)
    requires IpInv(s, ip) && ip != r.ip
    ensures IpInv(Apply(s, r), ip)
  {
  }

  lemma OwnStepKeepsInv(s: State, r: Request)
    requires IpInv(s, r.ip)
    ensures IpInv(Apply(s, r), r.ip)
  {
    var t := Apply(s, r);
    var times := Failures(s, r.ip);
    if t.failures != s.failures {
      NewFailure(times, r.now);
      assert Failures(t, r.ip) == times + [r.now];
    } else {
      assert Failures(t, r.ip) == times && t.counters == s.counters;
    }
  }

  lemma StepKeepsInv(s: State, r: Request)
    requires Inv(s)
    ensures Inv(Apply(s, r))
  {
    forall ip ensures IpInv(Apply(s, r), ip) {
      assert IpInv(s, ip);
      if ip == r.ip { OwnStepKeepsInv(s, r); } else { OtherStepKeepsInv(s, r, ip); }
    }
  }

  lemma {:induction false} RunKeepsInv(s: State, requests: seq<Request>)
    requires Inv(s)
    ensures Inv(Run(Apply, s, requests))
  {
    forall t, r | Inv(t) ensures Inv(Apply(t, r)) { StepKeepsInv(t, r); }
    Invariant(Apply, Inv, s, requests);
  }

  /**
   In every run the count that a request reads is the length of the address's last chain of failures
   while the last of them is less than a minute old, and zero otherwise.
   */
  lemma {:induction false} LiveCountIsChain(s0: State, requests: seq<Request>, ip: string, now: int)
    requires Fresh(s0)
    ensures var s := Run(Apply, s0, requests);
      var times := Failures(s, ip);
      LiveCount(s.counters, ip, now) == if times != [] && now - times[|times| - 1] < WINDOW then Chain(times) else 0
  {
    assert Inv(s0);
    RunKeepsInv(s0, requests);
    assert IpInv(Run(Apply, s0, requests), ip);
  }

  // ---- At most five failures in less than a window ----

  lemma {:induction false} CloseFailuresChain(times: seq<int>, from: nat, to: nat)
    requires from < to <= |times| && Sorted(times)
    requires times[to - 1] - times[from] < WINDOW
    ensures Chain(times[..to]) >= to - from
  {
    if from + 1 < to {
      CloseFailuresChain(times, from, to - 1);
      assert times[..to][..to - 1] == times[..to - 1];
      assert times[to - 1] - times[to - 2] < WINDOW;
    }
  }

  function Within(times: seq<int>, start: int, end: int): set<int> {
    set i | 0 <= i < |times| && start <= times[i] <= end
  }

  /** The failures of a short span are consecutive, so they form one chain. */
  lemma SpanHoldsFive(times: seq<int>, start: int, end: int)
    requires Sorted(times) && ShortChains(times) && end - start < WINDOW
    ensures |Within(times, start, end)| <= RATE_LIMIT_MAX
  {
    var hits := Within(times, start, end);
    var first := 0;
    while first < |times| && times[first] < start
      invariant first <= |times|
      invariant forall j :: 0 <= j < first ==> times[j] < start
    {
      first := first + 1;
    }
    forall i | i in hits ensures first <= i < first + RATE_LIMIT_MAX {
      CloseFailuresChain(times, first, i + 1);
    }
    FitsInterval(hits, first, RATE_LIMIT_MAX);
  }

  lemma {:induction false} FitsInterval(s: set<int>, low: int, width: nat)
    requires forall x :: x in s ==> low <= x < low + width
    ensures |s| <= width
  {
    if width == 0 {
      assert forall x :: x !in s;
      assert s == {};
    } else {
      FitsInterval(s - {low + width - 1}, low, width - 1);
    }
  }

  ghost predicate Fresh(s: State) { s.counters == map[] && s.failures == map[] }

  /** For every history and every address: a span shorter than a minute holds at most five failed comparisons. */
  lemma {:induction false} AtMostFivePerSpan(s0: State, requests: seq<Request>, ip: string, start: int, end: int)
    requires Fresh(s0) && end - start < 60
    ensures var times := Failures(Run(Apply, s0, requests), ip);
      |set i | 0 <= i < |times| && start <= times[i] <= end| <= 5
  {
    assert Inv(s0);
    RunKeepsInv(s0, requests);
    assert IpInv(Run(Apply, s0, requests), ip);
    SpanHoldsFive(Failures(Run(Apply, s0, requests), ip), start, end);
  }

  lemma {:induction false} ChainReachesBack(times: seq<int>, n: nat)
    requires n > 0
    ensures Chain(times) >= n <==>
      |times| >= n && forall i :: |times| - n < i < |times| ==> times[i] - times[i - 1] < WINDOW
  {
    if |times| > 1 && n > 1 {
      var front := times[..|times| - 1];
      ChainReachesBack(front, n - 1);
      assert forall i :: 0 < i < |front| ==> front[i] - front[i - 1] == times[i] - times[i - 1];
    }
  }

  /**
   Exactly when a request is turned away: the address's last five failures each came less
   than a minute after the one before, and the last less than a minute ago.
   */
  lemma {:induction false} BlockedExactlyAfterAChainOfFive(s0: State, requests: seq<Request>, r: Request)
    requires Fresh(s0)
    ensures var s := Run(Apply, s0, requests);
      var times := Failures(s, r.ip);
      Answer(s, r) == RateLimited <==>
        && |times| >= 5 && r.now - times[|times| - 1] < 60
        && forall i :: |times| - 4 <= i < |times| ==> times[i] - times[i - 1] < 60
  {
    assert Inv(s0);
    RunKeepsInv(s0, requests);
    ChainReachesBack(Failures(Run(Apply, s0, requests), r.ip), 5);
    var s := Run(Apply, s0, requests);
    assert IpInv(s, r.ip);
    var times := Failures(s, r.ip);
    assert times[..|times|] == times;
  }

  function Wrong(now: int): Request { Request(now, "ip", Some("wrong")) }

  /** The state after some failures of one address, the last n of them in one chain. */
  function Failing(code: string, times: seq<int>, n: nat): State
    requires times != []
  {
    State(code, map["ip" := Counter(n, times[|times| - 1] + WINDOW)], times[|times| - 1], map["ip" := times])
  }

  lemma FailsOnceMore(code: string, times: seq<int>, n: nat, now: int)
    requires code != "" && code != "wrong" && times != [] && times[|times| - 1] <= now
    requires now < times[|times| - 1] + WINDOW ==> n < RATE_LIMIT_MAX
    ensures Apply(Failing(code, times, n), Wrong(now))
         == Failing(code, times + [now], if now < times[|times| - 1] + WINDOW then n + 1 else 1)
  {
  }

  lemma FirstFailure(code: string)
    requires code != "" && code != "wrong"
    ensures Run(Apply, State(code, map[], 0, map[]), [Wrong(0)]) == Failing(code, [0], 1)
  {
    var s0 := State(code, map[], 0, map[]);
    var s1 := Apply(s0, Wrong(0));
    assert Answer(s0, Wrong(0)) == Denied;
    assert Failures(s0, "ip") + [0] == [0];
    assert s1.counters == map["ip" := Counter(1, WINDOW)] && s1.failures == map["ip" := [0]];
    assert Run(Apply, s1, []) == s1;
  }

  lemma OneMore<T>(first: T, x: T, k: nat)
    ensures [first] + seq(k, _ => x) + [x] == [first] + seq(k + 1, _ => x)
  { }

  /** Sixty seconds is the exact bound: up to six failures fit into a span of one minute. */
  lemma {:induction false} SixFitIntoAMinute(code: string, k: nat)
    requires code != "" && code != "wrong" && k <= 5
    ensures Run(Apply, State(code, map[], 0, map[]), [Wrong(0)] + seq(k, _ => Wrong(60)))
         == Failing(code, [0] + seq(k, _ => 60), if k == 0 then 1 else k)
  {
    if k == 0 {
      FirstFailure(code);
      assert [Wrong(0)] + seq(k, _ => Wrong(60)) == [Wrong(0)];
      assert [0] + seq(k, _ => 60) == [0];
    } else {
      SixFitIntoAMinute(code, k - 1);
      var times := [0] + seq(k - 1, _ => 60);
      RunSnoc(Apply, State(code, map[], 0, map[]), [Wrong(0)] + seq(k - 1, _ => Wrong(60)), Wrong(60));
      OneMore(Wrong(0), Wrong(60), k - 1);
      OneMore(0, 60, k - 1);
      FailsOnceMore(code, times, if k == 1 then 1 else k - 1, 60);
    }
  }
}
