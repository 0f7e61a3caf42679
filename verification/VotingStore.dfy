/** The tables and the requests of the voting module, updated in place. */
module VotingStore {
  import opened Common
  import opened Voting
  import Text

  datatype VoteResult = VoteResult(candidate: Id, totalVotes: nat)

  /** The first check a cast fails when nothing else runs beside it; None is a counted vote. */
  function Verdict(s: State, participant: Id, candidate: Id): Option<VoteError> {
    if Status(s) != Running then Some(SessionNotRunning)
    else if participant !in s.tables.eligible then Some(NotEligible)
    else if participant in s.receipts then Some(AlreadyVoted)
    else if candidate !in s.tables.validCandidates then Some(CandidateInvalid)
    else if participant !in s.tables.participantRows || candidate !in s.tables.candidateRows then Some(ForeignKey)
    else None
  }

  /** How many steps a cast that runs alone takes before it fails; 8 is never. */
  function FailsAfter(s: State, participant: Id, candidate: Id): nat {
    match Verdict(s, participant, candidate)
    case None => 8
    case Some(SessionNotRunning) => 1
    case Some(NotEligible) => 2
    case Some(AlreadyVoted) => 3
    case Some(CandidateInvalid) => 4
    case Some(_) => if participant !in s.tables.participantRows then 5 else 6
  }

  function PcAlone(s: State, participant: Id, candidate: Id, steps: nat): Pc
    requires steps <= 7
  {
    if steps >= FailsAfter(s, participant, candidate) then Failed(Verdict(s, participant, candidate).value)
    else [ReadStatus, ReadEligible, ReadVoted, ReadCandidate, InsertReceipt, InsertBallot, Commit, Done][steps]
  }

  /** The tables when only the cast has run, for some number of its steps. */
  function Alone(s: State, request: nat, participant: Id, candidate: Id, steps: nat): State
    requires steps <= 7
  {
    var pc := PcAlone(s, participant, candidate, steps);
    var t := s.(casts := s.casts[request := Cast(participant, candidate, pc)]);
    if pc != Done then t
    else t.(receipts := s.receipts + [participant], ballots :=
      s.ballots + [candidate], commits := s.commits + [request])
  }

  lemma AloneStep(s: State, request: nat, participant: Id, candidate: Id, steps: nat)
    requires steps < 7 && request !in s.casts
    requires forall q :: q in s.casts ==> !s.casts[q].pc.HoldsKey()
    ensures Apply(Alone(s, request, participant, candidate, steps), Event.Advance(request))
         == Alone(s, request, participant, candidate, steps + 1)
  {
    if steps >= FailsAfter(s, participant, candidate) {
      assert Alone(s, request, participant, candidate, steps) == Alone(s, request, participant, candidate, steps + 1);
    } else {
      AloneGoesOn(s, request, participant, candidate, steps);
    }
  }

  lemma AloneGoesOn(s: State, request: nat, participant: Id, candidate: Id, steps: nat)
    requires steps < 7 && request !in s.casts && steps < FailsAfter(s, participant, candidate)
    requires forall q :: q in s.casts ==> !s.casts[q].pc.HoldsKey()
    ensures AdvanceCast(Alone(s, request, participant, candidate, steps), request)
         == Alone(s, request, participant, candidate, steps + 1)
  {
    if steps == 6 {
      AloneCommits(s, request, participant, candidate);
    } else {
      var pc, next := PcAlone(s, participant, candidate, steps), PcAlone(s, participant, candidate, steps + 1);
      PcMoves(s, request, participant, candidate, steps);
      SetTwice(s, request, participant, candidate, pc, next);
    }
  }

  lemma PcMoves(s: State, request: nat, participant: Id, candidate: Id, steps: nat)
    requires steps < 6 && request !in s.casts && steps < FailsAfter(s, participant, candidate)
    requires forall q :: q in s.casts ==> !s.casts[q].pc.HoldsKey()
    ensures var pc := PcAlone(s, participant, candidate, steps);
      var t := s.(casts := s.casts[request := Cast(participant, candidate, pc)]);
      AdvanceCast(t, request) == WithPc(t, request, PcAlone(s, participant, candidate, steps + 1))
  {
    var t := s.(casts := s.casts[request := Cast(participant, candidate, PcAlone(s, participant, candidate, steps))]);
    assert !KeyTaken(t, request, participant);
  }

  lemma SetTwice(s: State, request: nat, participant: Id, candidate: Id, pc: Pc, next: Pc)
    ensures WithPc(s.(casts := s.casts[request := Cast(participant, candidate, pc)]), request, next)
      == s.(casts := s.casts[request := Cast(participant, candidate, next)])
  {
    var c := Cast(participant, candidate, next);
    assert s.casts[request := Cast(participant, candidate, pc)][request := c] == s.casts[request := c];
  }

  lemma AloneCommits(s: State, request: nat, participant: Id, candidate: Id)
    requires request !in s.casts && FailsAfter(s, participant, candidate) > 6
    ensures AdvanceCast(Alone(s, request, participant, candidate, 6), request)
         == Alone(s, request, participant, candidate, 7)
  {
    var t := Alone(s, request, participant, candidate, 6);
    var done := Cast(participant, candidate, Done);
    assert t.casts[request := done] == s.casts[request := done];
  }

  function Tally(results: seq<VoteResult>): nat {
    if results == [] then 0 else Tally(results[..|results| - 1]) + results[|results| - 1].totalVotes
  }

  class Store {
    var session: Option<SessionStatus>
    var tables: Tables
    var receipts: seq<Id>
    var ballots: seq<Id>
    var reopenAudit: seq<string>
    var casts: map<nat, Cast>
    var ops: map<nat, SessionOp>
    ghost var commits: seq<nat>

    ghost function View(): State
      reads this
    {
      State(session, tables, receipts, ballots, reopenAudit, casts, ops, commits)
    }

    constructor (tables: Tables)
      ensures Initial(View()) && session == None && this.tables == tables
    {
      session, this.tables := None, tables;
      receipts, ballots, reopenAudit := [], [], [];
      casts, ops, commits := map[], map[], [];
    }

    method GetSessionStatus() returns (status: SessionStatus)
      ensures status == Status(View())
    {
      status := NotStarted;
      if session.Some? {
        status := session.value;
      }
    }

    method BeginCast(request: nat, participant: Id, candidate: Id)
      modifies this`casts
      ensures View() == Apply(old(View()), Event.BeginCast(request, participant, candidate))
    {
      if request !in casts {
        casts := casts[request := Cast(participant, candidate, ReadStatus)];
      }
    }

    /** The next read or the next statement of the transaction of one cast. */
    method Advance(request: nat)
      modifies this`casts, this`receipts, this`ballots, this`commits
      ensures View() == Apply(old(View()), Event.Advance(request))
    {
      if request !in casts {
        return;
      }
      var cast := casts[request];
      var next := cast.pc;
      match cast.pc {
        case ReadStatus =>
          var status := GetSessionStatus();
          next := if status != Running then Failed(SessionNotRunning) else ReadEligible;
        case ReadEligible =>
          next := if cast.participant !in tables.eligible then Failed(NotEligible) else ReadVoted;
        case ReadVoted =>
          next := if cast.participant in receipts then Failed(AlreadyVoted) else ReadCandidate;
        case ReadCandidate =>
          next := if cast.candidate !in tables.validCandidates then Failed(CandidateInvalid) else InsertReceipt;
        case InsertReceipt =>
          if cast.participant in receipts {
            next := Failed(AlreadyVoted);
          } else if exists q | q in casts ::
            q != request && casts[q].pc.HoldsKey() && casts[q].participant == cast.participant {
            return;
          } else {
            next := if cast.participant !in tables.participantRows then Failed(ForeignKey) else InsertBallot;
          }
        case InsertBallot =>
          next := if cast.candidate !in tables.candidateRows then Failed(ForeignKey) else Commit;
        case Commit =>
          receipts := receipts + [cast.participant];
          ballots := ballots + [cast.candidate];
          commits := commits + [request];
          next := Done;
        case Done => return;
        case Failed(_) => return;
      }
      casts := casts[request := cast.(pc := next)];
    }

    /**
     A cast that nothing interleaves with: it counts exactly when every check passes,
     reports the first one that does not, and leaves both tables alone in that case.
     */
    method CastVote(request: nat, participant: Id, candidate: Id) returns (error: Option<VoteError>)
      requires request !in casts
      requires forall q :: q in casts ==> !casts[q].pc.HoldsKey()
      modifies this`casts, this`receipts, this`ballots, this`commits
      ensures error ==
        if old(session) != Some(Running) then Some(SessionNotRunning)
        else if participant !in tables.eligible then Some(NotEligible)
        else if participant in old(receipts) then Some(AlreadyVoted)
        else if candidate !in tables.validCandidates then Some(CandidateInvalid)
        else if participant !in tables.participantRows || candidate !in tables.candidateRows then Some(ForeignKey)
        else None
      ensures receipts == if error.None? then old(receipts) + [participant] else old(receipts)
      ensures ballots == if error.None? then old(ballots) + [candidate] else old(ballots)
      ensures casts.Keys == old(casts).Keys + {request} && forall q :: q in old(casts) ==> casts[q] == old(casts)[q]
    {
      BeginCast(request, participant, candidate);
      var steps := 0;
      while steps < 7
        invariant 0 <= steps <= 7
        invariant View() == Alone(old(View()), request, participant, candidate, steps)
      {
        AloneStep(old(View()), request, participant, candidate, steps);
        Advance(request);
        steps := steps + 1;
      }
      error := if casts[request].pc.Failed? then Some(casts[request].pc.error) else None;
    }

    method ReadAction(op: nat, action: Action) returns (accepted: bool)
      modifies this`ops
      ensures View() == Apply(old(View()), Event.ReadAction(op, action))
      ensures accepted <==> op !in old(ops) && (action, session) in {
        (Start, None), (Start, Some(NotStarted)), (Pause, Some(Running)), (Resume, Some(Paused)),
        (Stop, Some(Running)), (Stop, Some(Paused)), (Close, Some(Running)), (Close, Some(Paused))}
    {
      var current := GetSessionStatus();
      var target := current;
      accepted := op !in ops;
      match action {
        case Start =>
          if current != NotStarted { return false; }
          target := Running;
        case Pause =>
          if current != Running { return false; }
          target := Paused;
        case Resume =>
          if current != Paused { return false; }
          target := Running;
        case Stop =>
          if current == Closed || current == NotStarted { return false; }
          target := Closed;
        case Close =>
          if current == Closed || current == NotStarted { return false; }
          target := Closed;
        case Unknown => return false;
      }
      if accepted {
        ops := ops[op := SessionOp(current, target)];
      }
    }

    method WriteAction(op: nat)
      modifies this`session, this`ops
      ensures View() == Apply(old(View()), Event.WriteAction(op))
    {
      if op in ops {
        session := Some(ops[op].target);
        ops := ops - {op};
      }
    }

    /** A session action that nothing interrupts: the six pairs it accepts, and what each writes. */
    method UpdateSessionStatus(op: nat, action: Action) returns (accepted: bool)
      requires op !in ops
      modifies this`session, this`ops
      ensures action == Start && old(session) in {None, Some(NotStarted)} ==> accepted && session == Some(Running)
      ensures action == Pause && old(session) == Some(Running) ==> accepted && session == Some(Paused)
      ensures action == Resume && old(session) == Some(Paused) ==> accepted && session == Some(Running)
      ensures action in {Stop, Close} && old(session) in {Some(Running), Some(Paused)} ==>
        accepted && session == Some(Closed)
      ensures accepted ==> (action, old(session)) in {
        (Start, None), (Start, Some(NotStarted)), (Pause, Some(Running)), (Resume, Some(Paused)),
        (Stop, Some(Running)), (Stop, Some(Paused)), (Close, Some(Running)), (Close, Some(Paused))}
      ensures !accepted ==> session == old(session)
      ensures ops == old(ops)
    {
      accepted := ReadAction(op, action);
      WriteAction(op);
    }

    /** Locked transition CLOSED to NOT_STARTED together with its audit row. */
    method ReopenSession(reason: string) returns (done: bool)
      modifies this`session, this`reopenAudit
      ensures View() == Apply(old(View()), Event.Reopen(Text.TrimSpace(reason)))
      ensures done <==> old(session) == Some(Closed) && 0 < |Text.TrimSpace(reason)| <= 500
      ensures done ==> session == Some(NotStarted) && reopenAudit == old(reopenAudit) + [Text.TrimSpace(reason)]
      ensures !done ==> session == old(session) && reopenAudit == old(reopenAudit)
    {
      var trimmed := Text.TrimSpace(reason);
      done := false;
      if trimmed == "" || |trimmed| > MAX_REASON_LENGTH {
        return;
      }
      if session != Some(Closed) {
        return;
      }
      session := Some(NotStarted);
      reopenAudit := reopenAudit + [trimmed];
      done := true;
    }

    /** The result rows: one per valid candidate, with the number of ballots naming it. */
    ghost predicate IsResults(results: seq<VoteResult>)
      reads this
    {
      && (forall i, j :: 0 <= i < j < |results| ==> results[i].candidate != results[j].candidate)
      && (forall c :: c in tables.validCandidates <==> exists i :: 0 <= i < |results| && results[i].candidate == c)
      && (forall i :: 0 <= i < |results| ==> results[i].totalVotes == multiset(ballots)[results[i].candidate])
    }

    /** The loop over the result rows. */
    method VotesCast(results: seq<VoteResult>) returns (votesCast: nat)
      requires IsResults(results)
      ensures votesCast == |BallotsFor(ballots, tables.validCandidates)|
    {
      votesCast := 0;
      for i := 0 to |results|
        invariant votesCast == Tally(results[..i])
      {
        assert results[..i + 1] == results[..i] + [results[i]];
        votesCast := votesCast + results[i].totalVotes;
      }
      assert results[..|results|] == results;
      TallyCountsBallots(ballots, results, tables.validCandidates);
    }

    /** Votes cast are the ballots for candidates that are still valid; the share is of the voters checked in. */
    method GetSummary(results: seq<VoteResult>, checkedIn: nat) returns (votesCast: nat, percentage: real)
      requires IsResults(results)
      ensures votesCast == |BallotsFor(ballots, tables.validCandidates)|
      ensures votesCast == |ballots| <==> forall b :: b in ballots ==> b in tables.validCandidates
      ensures IsPercentage(percentage, votesCast, checkedIn)
    {
      votesCast := VotesCast(results);
      AllBallotsKept(ballots, tables.validCandidates);
      percentage := Percentage(votesCast, checkedIn);
    }
  }

  function BallotsFor(ballots: seq<Id>, candidates: set<Id>): seq<Id> {
    if ballots == [] then []
    else (if ballots[0] in candidates then [ballots[0]] else []) + BallotsFor(ballots[1..], candidates)
  }

  lemma {:induction false} AllBallotsKept(ballots: seq<Id>, candidates: set<Id>)
    ensures |BallotsFor(ballots, candidates)| <= |ballots|
    ensures |BallotsFor(ballots, candidates)| == |ballots| <==> forall b :: b in ballots ==> b in candidates
  {
    if ballots != [] {
      AllBallotsKept(ballots[1..], candidates);
      assert ballots == [ballots[0]] + ballots[1..];
    }
  }

  lemma {:induction false} OneCandidateMore(ballots: seq<Id>, c: Id, others: set<Id>)
    requires c !in others
    ensures |BallotsFor(ballots, others + {c})| == |BallotsFor(ballots, others)| + multiset(ballots)[c]
  {
    if ballots != [] {
      OneCandidateMore(ballots[1..], c, others);
      assert ballots == [ballots[0]] + ballots[1..];
    }
  }

  lemma {:induction false} NoCandidatesNoBallots(ballots: seq<Id>)
    ensures BallotsFor(ballots, {}) == []
  {
    if ballots != [] { NoCandidatesNoBallots(ballots[1..]); }
  }

  /** Summing the per-candidate counts counts each ballot of those candidates once. */
  lemma {:induction false} TallyCountsBallots(ballots: seq<Id>, results: seq<VoteResult>, candidates: set<Id>)
    requires forall i, j :: 0 <= i < j < |results| ==> results[i].candidate != results[j].candidate
    requires forall c :: c in candidates <==> exists i :: 0 <= i < |results| && results[i].candidate == c
    requires forall i :: 0 <= i < |results| ==> results[i].totalVotes == multiset(ballots)[results[i].candidate]
    ensures Tally(results) == |BallotsFor(ballots, candidates)|
  {
    if results == [] {
      assert candidates == {};
      NoCandidatesNoBallots(ballots);
    } else {
      var last := |results| - 1;
      var c := results[last].candidate;
      var others := candidates - {c};
      forall d ensures d in others <==> exists i :: 0 <= i < last && results[..last][i].candidate == d {
        if d in others {
          var i :| 0 <= i < |results| && results[i].candidate == d;
          assert results[..last][i].candidate == d;
        }
      }
      TallyCountsBallots(ballots, results[..last], others);
      OneCandidateMore(ballots, c, others);
      assert candidates == others + {c};
    }
  }
}
