/**
 Status changes on the participant page. An approval locks only its own row, so two approvals
 may read the same maximum; what keeps official numbers apart then is the unique key alone.
 Any other status is written to registrations and leaves the row of participants as it is.
 */
module DirectApproval {
  import opened Common
  import opened Runs
  import opened RegistrationNumber
  import Capacity
  import NumberSafety

  /** A row of registrations, or the copy of it in participants; an empty number is NULL. */
  datatype Row = Row(status: string, number: string)

  type Rows = map<Id, Row>

  datatype Outcome =
    | Approved(number: string)
    | StatusWritten  // a status that is no approval
    | AlreadyApproved | NotFound | CastFailed | DuplicateNumber

  datatype Pc = ReadRow | ReadMax | Write(number: string) | WriteStatus | Done(outcome: Outcome)

  datatype Request = Request(id: Id, status: string, pc: Pc)
  {
    /** Between SELECT ... FOR UPDATE and the end of the transaction. */
    predicate HoldsRow() { pc.ReadMax? || pc.Write? }
  }

  datatype State = State(regs: Rows, participants: Rows, requests: map<nat, Request>)

  datatype Event =
    | Begin(r: nat, id: Id, status: string)
    | Advance(r: nat, year: Year)
    | Others(regs: Rows, participants: Rows)  // every other writer of the two tables

  const APPROVALS := {"Verified", "Approved"}

  function AsRegs(rows: Rows): map<Id, Capacity.Reg> {
    map id | id in rows :: Capacity.Reg("", Capacity.Other(rows[id].status), rows[id].number)
  }

  predicate Taken(rows: Rows, id: Id, number: string) {
    number != "" && exists other | other in rows :: other != id && rows[other].number == number
  }

  ghost predicate UniqueNumbers(rows: Rows) {
    forall id, other :: id in rows && other in rows && id != other && rows[id].number != "" ==>
      rows[id].number != rows[other].number
  }

  ghost predicate WellFormed(rows: Rows) {
    forall id :: id in rows && IsOfficial(rows[id].number) ==> Value(rows[id].number).Some?
  }

  predicate RowLocked(s: State, request: nat, id: Id) {
    exists q | q in s.requests :: q != request && s.requests[q].id == id && s.requests[q].HoldsRow()
  }

  /** Other writers meet the unique keys and wait for locked rows; they may store any text as a number. */
  ghost predicate Legal(s: State, regs: Rows, participants: Rows) {
    && UniqueNumbers(regs) && UniqueNumbers(participants)
    && forall q :: q in s.requests && s.requests[q].HoldsRow() && s.requests[q].id in s.regs ==>
        s.requests[q].id in regs && regs[s.requests[q].id] == s.regs[s.requests[q].id]
  }

  function PcAfterRow(row: Row): Pc {
    if row.status in APPROVALS then Done(AlreadyApproved)
    else if row.number == "" then ReadMax
    else Write(row.number)
  }

  function PcAfterMax(regs: Rows, year: Year): Pc {
    match Capacity.MaxOfficial(AsRegs(regs))
    case None => Done(CastFailed)
    case Some(max) => Write(Format(year, max + 1))
  }

  predicate WriteFails(s: State, id: Id, number: string) {
    Taken(s.regs, id, number) || Taken(s.participants, id, number)
  }

  /** Where a request goes with its next statement, on the tables that statement sees. */
  function NextPc(req: Request, regs: Rows, participants: Rows, year: Year): Pc {
    match req.pc
    case ReadRow =>
      if req.id !in regs then Done(NotFound)
      else if req.status !in APPROVALS then WriteStatus
      else PcAfterRow(regs[req.id])
    case ReadMax => PcAfterMax(regs, year)
    case WriteStatus => Done(if req.id in regs then StatusWritten else NotFound)
    case Write(number) =>
      Done(if req.id !in regs then NotFound
           else if Taken(regs, req.id, number) || Taken(participants, req.id, number) then DuplicateNumber
           else Approved(number))
    case Done(_) => req.pc
  }

  /** Only an approval touches participants, and then both tables hold the same row. */
  function WithAnswer(rows: Rows, id: Id, status: string, outcome: Outcome): Rows {
    if outcome.Approved? then rows[id := Row(status, outcome.number)] else rows
  }

  function RegsWithAnswer(regs: Rows, id: Id, status: string, outcome: Outcome): Rows {
    if outcome.StatusWritten? && id in regs then regs[id := Row(status, regs[id].number)]
    else WithAnswer(regs, id, status, outcome)
  }

  /** The state with one request moved on; the tables change with an outcome only. */
  function Moved(s: State, r: nat, pc: Pc): State
    requires r in s.requests
  {
    var req := s.requests[r];
    State(if pc.Done? then RegsWithAnswer(s.regs, req.id, req.status, pc.outcome) else s.regs,
          if pc.Done? then WithAnswer(s.participants, req.id, req.status, pc.outcome) else s.participants,
          s.requests[r := req.(pc := pc)])
  }

  /** The next statement needs the row, and another transaction has it. */
  predicate Waits(s: State, r: nat)
    requires r in s.requests
  {
    var req := s.requests[r];
    && (req.pc.WriteStatus? || (req.pc.ReadRow? && req.status in APPROVALS))
    && req.id in s.regs && RowLocked(s, r, req.id)
  }

  function Step(s: State, r: nat, year: Year): State
    requires r in s.requests
  {
    if s.requests[r].pc.Done? || Waits(s, r) then s
    else Moved(s, r, NextPc(s.requests[r], s.regs, s.participants, year))
  }

  ghost function Apply(s: State, e: Event): State {
    match e
    case Begin(r, id, status) =>
      if r in s.requests then s else s.(requests := s.requests[r := Request(id, status, ReadRow)])
    case Advance(r, year) => if r in s.requests then Step(s, r, year) else s
    case Others(regs, participants) => if Legal(s, regs, participants) then
      s.(regs := regs, participants := participants) else s
  }

  /** A locked row waits as it was read; a number in hand is the row's own or an official one. */
  ghost predicate InHand(s: State, req: Request) {
    && (req.HoldsRow() ==> req.id in s.regs && s.regs[req.id].status !in APPROVALS && req.status in APPROVALS)
    && (req.pc.ReadMax? ==> s.regs[req.id].number == "")
    && (req.pc.Write? ==> req.pc.number != "")
    && (req.pc.Write? && s.regs[req.id].number != "" ==> s.regs[req.id].number == req.pc.number)
    && (req.pc.Write? && s.regs[req.id].number == "" ==> IsOfficial(req.pc.number) && Value(req.pc.number).Some?)
  }

  ghost predicate Inv(s: State) {
    && UniqueNumbers(s.regs) && UniqueNumbers(s.participants)
    && (forall r :: r in s.requests ==> InHand(s, s.requests[r]))
    && (forall r, q :: r in s.requests && q in s.requests && r != q
          && s.requests[r].HoldsRow() && s.requests[q].HoldsRow()
          ==> s.requests[r].id != s.requests[q].id)
  }

  lemma SameNumbers(rows: Rows, id: Id, number: string)
    ensures Taken(rows, id, number) <==> Capacity.NumberTaken(AsRegs(rows), id, number)
  {
    var regs := AsRegs(rows);
    if other :| other in rows && other != id && rows[other].number == number { assert regs[other].number == number; }
    if other :| other in regs && other != id && regs[other].number == number { assert rows[other].number == number; }
  }

  lemma MaxGivesOfficial(regs: Rows, id: Id, year: Year)
    requires PcAfterMax(regs, year).Write?
    ensures var number := PcAfterMax(regs, year).number;
      IsOfficial(number) && Value(number).Some? && !Taken(regs, id, number)
  {
    ReadBack(year, Capacity.MaxOfficial(AsRegs(regs)).value + 1);
    NumberSafety.NextNumberIsAbove(AsRegs(regs), year);
    SameNumbers(regs, id, PcAfterMax(regs, year).number);
  }

  lemma PcChangeKeepsInv(s: State, r: nat, pc: Pc)
    requires Inv(s) && r in s.requests && InHand(s, s.requests[r].(pc := pc))
    requires (pc.ReadMax? || pc.Write?) ==> s.requests[r].HoldsRow() || !RowLocked(s, r, s.requests[r].id)
    requires pc.Done? ==> !pc.outcome.Approved? && !pc.outcome.StatusWritten?
    ensures Inv(Moved(s, r, pc))
  {
    var t := Moved(s, r, pc);
    forall q | q in t.requests ensures InHand(t, t.requests[q]) {
      if q != r { assert InHand(s, s.requests[q]); }
    }
  }

  lemma FreeNumberKeepsUnique(rows: Rows, id: Id, row: Row)
    requires UniqueNumbers(rows) && !Taken(rows, id, row.number)
    ensures UniqueNumbers(rows[id := row])
  {
  }

  lemma WriteKeepsInv(s: State, r: nat, year: Year)
    requires Inv(s) && r in s.requests && s.requests[r].pc.Write?
    ensures Inv(Step(s, r, year))
  {
    var req := s.requests[r];
    var number := req.pc.number;
    assert InHand(s, req);
    if WriteFails(s, req.id, number) {
      PcChangeKeepsInv(s, r, Done(DuplicateNumber));
    } else {
      var t := Step(s, r, year);
      FreeNumberKeepsUnique(s.regs, req.id, Row(req.status, number));
      FreeNumberKeepsUnique(s.participants, req.id, Row(req.status, number));
      forall q | q in t.requests ensures InHand(t, t.requests[q]) {
        if q != r { assert InHand(s, s.requests[q]); }
      }
    }
  }

  lemma ReadKeepsInv(s: State, r: nat, year: Year)
    requires Inv(s) && r in s.requests && s.requests[r].pc.ReadRow?
    ensures Inv(Step(s, r, year))
  {
    var req := s.requests[r];
    if req.id !in s.regs {
      PcChangeKeepsInv(s, r, Done(NotFound));
    } else if req.status !in APPROVALS {
      PcChangeKeepsInv(s, r, WriteStatus);
    } else if !RowLocked(s, r, req.id) {
      PcChangeKeepsInv(s, r, PcAfterRow(s.regs[req.id]));
    }
  }

  lemma WriteStatusKeepsInv(s: State, r: nat, year: Year)
    requires Inv(s) && r in s.requests && s.requests[r].pc.WriteStatus?
    ensures Inv(Step(s, r, year))
  {
    var req := s.requests[r];
    if req.id !in s.regs {
      PcChangeKeepsInv(s, r, Done(NotFound));
    } else if !RowLocked(s, r, req.id) {
      var t := Step(s, r, year);
      forall q | q in t.requests ensures InHand(t, t.requests[q]) {
        if q != r { assert InHand(s, s.requests[q]); }
      }
    }
  }

  lemma StepKeepsInv(s: State, e: Event)
    requires Inv(s)
    ensures Inv(Apply(s, e))
  {
    match e
    case Begin(r, id, status) =>
    case Others(regs, participants) =>
      if Legal(s, regs, participants) {
        forall r | r in s.requests ensures InHand(Apply(s, e), s.requests[r]) { assert InHand(s, s.requests[r]); }
      }
    case Advance(r, year) =>
      if r in s.requests {
        assert InHand(s, s.requests[r]);
        match s.requests[r].pc
        case ReadRow => ReadKeepsInv(s, r, year);
        case WriteStatus => WriteStatusKeepsInv(s, r, year);
        case ReadMax =>
          if PcAfterMax(s.regs, year).Write? { MaxGivesOfficial(s.regs, s.requests[r].id, year); }
          PcChangeKeepsInv(s, r, PcAfterMax(s.regs, year));
        case Write(_) => WriteKeepsInv(s, r, year);
        case Done(_) =>
      }
  }

  predicate Fresh(s: State) { s.requests == map[] }

  /** In every interleaving with every other writer, numbers stay unique in both tables. */
  lemma {:induction false} NumbersStayUnique(s0: State, events: seq<Event>)
    requires Fresh(s0) && UniqueNumbers(s0.regs) && UniqueNumbers(s0.participants)
    ensures var s := Run(Apply, s0, events); UniqueNumbers(s.regs) && UniqueNumbers(s.participants)
  {
    forall s, e | Inv(s) ensures Inv(Apply(s, e)) { StepKeepsInv(s, e); }
    Invariant(Apply, Inv, s0, events);
  }

  /** The other writers store only official numbers that read back. */
  ghost predicate OthersWellFormed(s: State, e: Event) { e.Others? ==> WellFormed(e.regs) }

  lemma StepKeepsWellFormed(s: State, e: Event)
    requires Inv(s) && WellFormed(s.regs) && OthersWellFormed(s, e)
    ensures WellFormed(Apply(s, e).regs)
  {
    if e.Advance? && e.r in s.requests && s.requests[e.r].pc.Write? {
      assert InHand(s, s.requests[e.r]);
    }
  }

  /** Status changes keep official numbers well formed as long as the other writers do. */
  lemma {:induction false} NumbersStayWellFormed(s0: State, events: seq<Event>)
    requires Fresh(s0) && UniqueNumbers(s0.regs) && UniqueNumbers(s0.participants)
    requires WellFormed(s0.regs) && Admitted(Apply, OthersWellFormed, s0, events)
    ensures WellFormed(Run(Apply, s0, events).regs)
  {
    var inv := (s: State) => Inv(s) && WellFormed(s.regs);
    forall s, e | inv(s) && OthersWellFormed(s, e) ensures inv(Apply(s, e)) {
      StepKeepsInv(s, e);
      StepKeepsWellFormed(s, e);
    }
    InvariantOfAdmitted(Apply, OthersWellFormed, inv, s0, events);
  }

  // ---- When an approval is refused as a duplicate ----

  /** Of two requests holding the same new number, whichever writes second is refused. */
  lemma SecondOfTwoIsRefused(s: State, r: nat, q: nat, year: Year)
    requires Inv(s) && r != q && r in s.requests && q in s.requests
    requires s.requests[r].pc.Write? && s.requests[q].pc == s.requests[r].pc
    requires !WriteFails(s, s.requests[r].id, s.requests[r].pc.number)
    ensures Step(Step(s, r, year), q, year).requests[q].pc == Done(DuplicateNumber)
    ensures Step(s, r, year).requests[r].pc == Done(Approved(s.requests[r].pc.number))
  {
    var t := Step(s, r, year);
    var id := s.requests[r].id;
    assert InHand(s, s.requests[r]) && InHand(s, s.requests[q]);
    assert id in t.regs && t.regs[id].number == s.requests[q].pc.number && id != s.requests[q].id;
  }

  predicate Unnumbered(regs: Rows, id: Id) { id in regs && regs[id].status !in APPROVALS && regs[id].number == "" }

  function Pair(s: State, a: Id, b: Id, status: string, first: Pc, second: Pc): State {
    s.(requests := map[0 := Request(a, status, first), 1 := Request(b, status, second)])
  }

  function BothAt(s: State, a: Id, b: Id, status: string, pc: Pc): State {
    Pair(s, a, b, status, pc, pc)
  }

  lemma {:induction false} BothBegin(s: State, a: Id, b: Id, status: string)
    requires Fresh(s)
    ensures Run(Apply, s, [Begin(0, a, status), Begin(1, b, status)]) == BothAt(s, a, b, status, ReadRow)
  {
    TwoEvents(s, Begin(0, a, status), Begin(1, b, status));
  }

  lemma FirstMoves(s: State, a: Id, b: Id, status: string, pc: Pc, next: Pc, year: Year)
    requires a != b && !pc.Done? && (next.Done? ==> next.outcome.CastFailed?)
    requires NextPc(Request(a, status, pc), s.regs, s.participants, year) == next
    ensures Step(Pair(s, a, b, status, pc, pc), 0, year) == Pair(s, a, b, status, next, pc)
  {
    var t := Pair(s, a, b, status, pc, pc);
    assert !RowLocked(t, 0, a);
    assert t.requests[0 := Request(a, status, next)] == map[0 := Request(a, status, next), 1 := Request(b, status, pc)];
  }

  lemma SecondMoves(s: State, a: Id, b: Id, status: string, pc: Pc, next: Pc, year: Year)
    requires a != b && !pc.Done? && (next.Done? ==> next.outcome.CastFailed?)
    requires NextPc(Request(b, status, pc), s.regs, s.participants, year) == next
    ensures Step(Pair(s, a, b, status, next, pc), 1, year) == Pair(s, a, b, status, next, next)
  {
    var t := Pair(s, a, b, status, next, pc);
    assert !RowLocked(t, 1, b);
    assert t.requests[1 := Request(b, status, next)]
      == map[0 := Request(a, status, next), 1 := Request(b, status, next)];
  }

  /** Both requests take the same step, one after the other, on tables that stay as they are. */
  lemma BothMove(s: State, a: Id, b: Id, status: string, pc: Pc, next: Pc, year: Year)
    requires a != b && !pc.Done? && (next.Done? ==> next.outcome.CastFailed?)
    requires NextPc(Request(a, status, pc), s.regs, s.participants, year) == next
    requires NextPc(Request(b, status, pc), s.regs, s.participants, year) == next
    ensures Run(Apply, BothAt(s, a, b, status, pc), [Advance(0, year), Advance(1, year)])
      == BothAt(s, a, b, status, next)
  {
    TwoEvents(BothAt(s, a, b, status, pc), Advance(0, year), Advance(1, year));
    FirstMoves(s, a, b, status, pc, next, year);
    SecondMoves(s, a, b, status, pc, next, year);
  }

  /** Both requests come to hold the number that follows the maximum, each for a row of its own. */
  lemma {:induction false} BothReadTheMaximum(s: State, a: Id, b: Id, status: string, year: Year)
    requires Fresh(s) && a != b && Unnumbered(s.regs, a) && Unnumbered(s.regs, b) && status in APPROVALS
    ensures var e0, e1 := Advance(0, year), Advance(1, year);
      Run(Apply, s, [Begin(0, a, status), Begin(1, b, status), e0, e1, e0, e1]) ==
        BothAt(s, a, b, status, PcAfterMax(s.regs, year))
  {
    var begin, both := [Begin(0, a, status), Begin(1, b, status)], [Advance(0, year), Advance(1, year)];
    BothBegin(s, a, b, status);
    BothMove(s, a, b, status, ReadRow, ReadMax, year);
    BothMove(s, a, b, status, ReadMax, PcAfterMax(s.regs, year), year);
    RunThreeParts(s, begin, both, BothAt(s, a, b, status, ReadRow), BothAt(s, a, b, status, ReadMax));
    JoinThree(begin[0], begin[1], both[0], both[1]);
  }

  lemma JoinThree(a: Event, b: Event, c: Event, d: Event)
    ensures [a, b] + [c, d] + [c, d] == [a, b, c, d, c, d]
  { }

  lemma {:induction false} RunThreeParts(s: State, begin: seq<Event>, both: seq<Event>, s1: State, s2: State)
    requires Run(Apply, s, begin) == s1 && Run(Apply, s1, both) == s2
    ensures Run(Apply, s, begin + both + both) == Run(Apply, s2, both)
  {
    RunAppend(Apply, s, begin, both);
    RunAppend(Apply, s, begin + both, both);
  }

  lemma {:induction false} TwoEvents(s: State, a: Event, b: Event)
    ensures Run(Apply, s, [a, b]) == Apply(Apply(s, a), b)
  {
    assert [a, b][1..] == [b];
    RunOne(Apply, Apply(s, a), b);
  }

  /**
   The race is there for any two rows without a number: both approvals read the maximum before either writes,
   the first gets the number and the second is refused, although numbers were left.
   */
  lemma {:induction false} TwoApprovalsCollide(s: State, a: Id, b: Id, status: string, year: Year)
    requires Fresh(s) && UniqueNumbers(s.regs) && UniqueNumbers(s.participants)
    requires a != b && Unnumbered(s.regs, a) && Unnumbered(s.regs, b) && status in APPROVALS
    requires PcAfterMax(s.regs, year).Write? && !Taken(s.participants, a, PcAfterMax(s.regs, year).number)
    ensures var e0, e1 := Advance(0, year), Advance(1, year);
      var t := Run(Apply, s, [Begin(0, a, status), Begin(1, b, status), e0, e1, e0, e1] + [e0, e1]);
      && 0 in t.requests && t.requests[0].pc == Done(Approved(PcAfterMax(s.regs, year).number))
      && 1 in t.requests && t.requests[1].pc == Done(DuplicateNumber)
  {
    var number := PcAfterMax(s.regs, year).number;
    var e0, e1 := Advance(0, year), Advance(1, year);
    var reading := [Begin(0, a, status), Begin(1, b, status), e0, e1, e0, e1];
    BothReadTheMaximum(s, a, b, status, year);
    forall u, e | Inv(u) ensures Inv(Apply(u, e)) { StepKeepsInv(u, e); }
    Invariant(Apply, Inv, s, reading);
    RunAppend(Apply, s, reading, [e0, e1]);
    var both := BothAt(s, a, b, status, Write(number));
    TwoEvents(both, e0, e1);
    MaxGivesOfficial(s.regs, a, year);
    SecondOfTwoIsRefused(both, 0, 1, year);
    assert Step(both, 0, year).requests[0] == Step(Step(both, 0, year), 1, year).requests[0];
  }

  /** Once it has read the maximum, a request keeps its number until it is done. */
  predicate Keeps(s: State, r: nat, id: Id, number: string) {
    r in s.requests && s.requests[r].id == id && (s.requests[r].pc == Write(number) || s.requests[r].pc.Done?)
  }

  lemma {:induction false} NumberIsKept(s: State, events: seq<Event>, r: nat, id: Id, number: string)
    requires Keeps(s, r, id, number)
    ensures Keeps(Run(Apply, s, events), r, id, number)
  {
    var inv := (t: State) => Keeps(t, r, id, number);
    forall t, e | inv(t) ensures inv(Apply(t, e)) { }
    Invariant(Apply, inv, s, events);
  }

  /** Another row carries the number now and did not earlier. */
  predicate TakenSince(earlier: Rows, now: Rows, id: Id, number: string) {
    exists other | other in now :: other != id && now[other].number == number
      && (other !in earlier || earlier[other].number != number)
  }

  /**
   In every run, a request that read the maximum after the first events and is now at its write is refused exactly
   when another row of registrations has taken that number since, or another row of participants carries it.
   */
  lemma {:induction false} RefusedExactlyWhenTakenSince(
      s0: State, early: seq<Event>, r: nat, year: Year, late: seq<Event>, now: Year)
    requires Fresh(s0) && UniqueNumbers(s0.regs) && UniqueNumbers(s0.participants)
    requires var earlier := Run(Apply, s0, early); r in earlier.requests && earlier.requests[r].pc.ReadMax?
    requires var s := Run(Apply, s0, early + [Advance(r, year)] + late); r in s.requests && s.requests[r].pc.Write?
    ensures var earlier := Run(Apply, s0, early);
      var s := Run(Apply, s0, early + [Advance(r, year)] + late);
      var id, number := s.requests[r].id, s.requests[r].pc.number;
      var refused := Apply(s, Advance(r, now)).requests[r].pc == Done(DuplicateNumber);
      refused <==> TakenSince(earlier.regs, s.regs, id, number) || Taken(s.participants, id, number)
  {
    forall u, e | Inv(u) ensures Inv(Apply(u, e)) { StepKeepsInv(u, e); }
    Invariant(Apply, Inv, s0, early);
    Invariant(Apply, Inv, s0, early + [Advance(r, year)] + late);
    RunAppend(Apply, s0, early + [Advance(r, year)], late);
    RunSnoc(Apply, s0, early, Advance(r, year));
    HeldSince(Run(Apply, s0, early), r, year, late);
    RefusedOrNot(Run(Apply, s0, early), Run(Apply, s0, early + [Advance(r, year)] + late), r, year, now);
  }

  lemma {:induction false} HeldSince(earlier: State, r: nat, year: Year, late: seq<Event>)
    requires r in earlier.requests && earlier.requests[r].pc.ReadMax?
    requires var s := Run(Apply, Apply(earlier, Advance(r, year)), late); r in s.requests && s.requests[r].pc.Write?
    ensures var s := Run(Apply, Apply(earlier, Advance(r, year)), late);
      s.requests[r].id == earlier.requests[r].id && s.requests[r].pc == PcAfterMax(earlier.regs, year)
  {
    var number := if PcAfterMax(earlier.regs, year).Write? then PcAfterMax(earlier.regs, year).number else "";
    NumberIsKept(Apply(earlier, Advance(r, year)), late, r, earlier.requests[r].id, number);
    if PcAfterMax(earlier.regs, year).Done? { DoneStays(Apply(earlier, Advance(r, year)), late, r); }
  }

  lemma {:induction false} DoneStays(s: State, events: seq<Event>, r: nat)
    requires r in s.requests && s.requests[r].pc.Done?
    ensures var t := Run(Apply, s, events); r in t.requests && t.requests[r].pc.Done?
  {
    var inv := (t: State) => r in t.requests && t.requests[r].pc.Done?;
    Invariant(Apply, inv, s, events);
  }

  lemma RefusedOrNot(earlier: State, s: State, r: nat, year: Year, now: Year)
    requires Inv(s) && r in earlier.requests && r in s.requests
    requires s.requests[r].pc.Write? && s.requests[r].pc == PcAfterMax(earlier.regs, year)
    ensures var id, number := s.requests[r].id, s.requests[r].pc.number;
      var refused := Step(s, r, now).requests[r].pc == Done(DuplicateNumber);
      refused <==> TakenSince(earlier.regs, s.regs, id, number) || Taken(s.participants, id, number)
  {
    var id, number := s.requests[r].id, s.requests[r].pc.number;
    assert InHand(s, s.requests[r]);
    MaxGivesOfficial(earlier.regs, id, year);
    assert TakenSince(earlier.regs, s.regs, id, number) <==> Taken(s.regs, id, number);
  }

  // ---- A status change that nothing interrupts ----

  /** An approval keeps the row's number or takes the next official one, which registrations cannot hold yet. */
  function StatusAnswer(regs: Rows, participants: Rows, id: Id, status: string, year: Year): Outcome {
    if id !in regs then NotFound
    else if status !in APPROVALS then StatusWritten
    else if regs[id].status in APPROVALS then AlreadyApproved
    else if regs[id].number == "" && PcAfterMax(regs, year).Done? then CastFailed
    else
      var number := if regs[id].number == "" then PcAfterMax(regs, year).number else regs[id].number;
      if Taken(participants, id, number) then DuplicateNumber else Approved(number)
  }

  /** The program counter after some statements, all of which see the same tables. */
  function PcAfter(req: Request, regs: Rows, participants: Rows, year: Year, steps: nat): Pc {
    if steps == 0 then req.pc
    else NextPc(req.(pc := PcAfter(req, regs, participants, year, steps - 1)), regs, participants, year)
  }

  lemma {:induction false} ThreeSteps(req: Request, regs: Rows, participants: Rows, year: Year, p1: Pc, p2: Pc, p3: Pc)
    requires p1 == NextPc(req, regs, participants, year)
    requires p2 == NextPc(req.(pc := p1), regs, participants, year)
    requires p3 == NextPc(req.(pc := p2), regs, participants, year)
    ensures PcAfter(req, regs, participants, year, 3) == p3
  {
    assert PcAfter(req, regs, participants, year, 0) == req.pc;
    assert PcAfter(req, regs, participants, year, 1) == p1;
    assert PcAfter(req, regs, participants, year, 2) == p2;
  }

  lemma {:induction false} AnswerIsReached(req: Request, regs: Rows, participants: Rows, year: Year)
    requires req.pc.ReadRow? && UniqueNumbers(regs)
    ensures PcAfter(req, regs, participants, year, 3)
      == Done(StatusAnswer(regs, participants, req.id, req.status, year))
  {
    var answer := Done(StatusAnswer(regs, participants, req.id, req.status, year));
    var p1 := NextPc(req, regs, participants, year);
    var p2 := NextPc(req.(pc := p1), regs, participants, year);
    if p1.ReadMax? {
      MaximumLeadsToAnswer(req, regs, participants, year);
    }
    ThreeSteps(req, regs, participants, year, p1, p2, answer);
  }

  lemma MaximumLeadsToAnswer(req: Request, regs: Rows, participants: Rows, year: Year)
    requires req.id in regs && req.status in APPROVALS && PcAfterRow(regs[req.id]).ReadMax? && UniqueNumbers(regs)
    ensures NextPc(req.(pc := PcAfterMax(regs, year)), regs, participants, year)
      == Done(StatusAnswer(regs, participants, req.id, req.status, year))
  {
    if PcAfterMax(regs, year).Write? { MaxGivesOfficial(regs, req.id, year); }
  }

  ghost function AfterSteps(s: State, r: nat, year: Year, steps: nat): State {
    if steps == 0 then s else Apply(AfterSteps(s, r, year, steps - 1), Advance(r, year))
  }

  /** One step of a request whose row nobody else holds and whose tables nobody else touches. */
  lemma AloneStep(s: State, r: nat, pc: Pc, year: Year)
    requires r in s.requests && !RowLocked(s, r, s.requests[r].id)
    ensures Step(Moved(s, r, pc), r, year)
      == Moved(s, r, NextPc(s.requests[r].(pc := pc), s.regs, s.participants, year))
  {
    var t := Moved(s, r, pc);
    assert !RowLocked(t, r, s.requests[r].id);
    var next := NextPc(s.requests[r].(pc := pc), s.regs, s.participants, year);
    assert t.requests[r := s.requests[r].(pc := next)] == s.requests[r := s.requests[r].(pc := next)];
  }

  lemma {:induction false} AloneSteps(s: State, r: nat, year: Year, steps: nat)
    requires r in s.requests && s.requests[r].pc.ReadRow? && !RowLocked(s, r, s.requests[r].id)
    ensures AfterSteps(s, r, year, steps) == Moved(s, r, PcAfter(s.requests[r], s.regs, s.participants, year, steps))
  {
    if steps == 0 {
      assert s.requests[r := s.requests[r].(pc := ReadRow)] == s.requests;
    } else {
      AloneSteps(s, r, year, steps - 1);
      AloneStep(s, r, PcAfter(s.requests[r], s.regs, s.participants, year, steps - 1), year);
    }
  }

  /** The statements of a request on an unlocked row, one after the other, amount to the answer. */
  lemma {:induction false} UpdateAlone(s: State, r: nat, year: Year)
    requires r in s.requests && s.requests[r].pc.ReadRow? && UniqueNumbers(s.regs) && !RowLocked(s, r, s.requests[r].id)
    ensures var t := AfterSteps(s, r, year, 3);
      var req := s.requests[r];
      var outcome := StatusAnswer(s.regs, s.participants, req.id, req.status, year);
      && r in t.requests && t.requests[r].pc == Done(outcome)
      && t.regs == RegsWithAnswer(s.regs, req.id, req.status, outcome)
      && t.participants == WithAnswer(s.participants, req.id, req.status, outcome)
      && (outcome.Approved? ==>
            && t.regs == s.regs[req.id := Row(req.status, outcome.number)]
            && t.participants == s.participants[req.id := Row(req.status, outcome.number)])
      && (outcome.StatusWritten? ==>
            t.regs == s.regs[req.id := Row(req.status, s.regs[req.id].number)] && t.participants == s.participants)
      && (!outcome.Approved? && !outcome.StatusWritten? ==> t.regs == s.regs && t.participants == s.participants)
  {
    AloneSteps(s, r, year, 3);
    AnswerIsReached(s.requests[r], s.regs, s.participants, year);
  }

  /** The number an approval is about: the row's own, or else the printed successor of the largest one stored. */
  ghost predicate IsItsNumber(regs: Rows, id: Id, year: Year, number: string) {
    && id in regs && number != ""
    && (regs[id].number != "" ==> number == regs[id].number)
    && (regs[id].number == "" ==>
          exists n: nat :: IsPrinted(number, year, n) && NumberSafety.FollowsTheMaximum(AsRegs(regs), n))
  }

  lemma IsAboveAll(regs: Rows, year: Year, p: Id)
    requires PcAfterMax(regs, year).Write? && p in regs
    ensures regs[p].number != PcAfterMax(regs, year).number
  {
    assert AsRegs(regs)[p].number == regs[p].number;
    NumberSafety.NextNumberIsAbove(AsRegs(regs), year);
  }

  lemma NextIsItsNumber(regs: Rows, id: Id, year: Year)
    requires id in regs && regs[id].number == "" && PcAfterMax(regs, year).Write?
    ensures IsItsNumber(regs, id, year, PcAfterMax(regs, year).number)
  {
    var n := Capacity.MaxOfficial(AsRegs(regs)).value + 1;
    FormatIsPrinted(year, n);
    NumberSafety.MaximumIsFollowed(AsRegs(regs));
  }

  lemma AnswerInFull(regs: Rows, participants: Rows, id: Id, status: string, year: Year)
    ensures var outcome := StatusAnswer(regs, participants, id, status, year);
      && (outcome == CastFailed ==>
            exists p :: p in regs && "MUSKOM-" <= regs[p].number && !NumberSafety.Casts(regs[p].number))
      && (outcome == DuplicateNumber ==> exists other, number ::
            && other in participants && other != id && participants[other].number == number
            && IsItsNumber(regs, id, year, number))
      && (outcome.Approved? ==> IsItsNumber(regs, id, year, outcome.number))
  {
    var outcome := StatusAnswer(regs, participants, id, status, year);
    if outcome == CastFailed {
      NumberSafety.CastsOrNot(AsRegs(regs));
      var p :| p in AsRegs(regs) && "MUSKOM-" <= AsRegs(regs)[p].number
        && !NumberSafety.Casts(AsRegs(regs)[p].number);
      assert regs[p].number == AsRegs(regs)[p].number;
    } else if outcome.Approved? || outcome.DuplicateNumber? {
      var number := if regs[id].number == "" then PcAfterMax(regs, year).number else regs[id].number;
      if regs[id].number == "" { NextIsItsNumber(regs, id, year); }
      assert IsItsNumber(regs, id, year, number);
      assert Taken(participants, id, number) <==>
        exists other :: other in participants && other != id && participants[other].number == number;
    }
  }

  /** Approving again, with any year and either status, changes nothing. */
  lemma ApprovalIsFinal(regs: Rows, participants: Rows, id: Id, status: string, year: Year, again: string, later: Year)
    requires StatusAnswer(regs, participants, id, status, year).Approved? && again in {"Verified", "Approved"}
    ensures var outcome := StatusAnswer(regs, participants, id, status, year);
      var regs' := RegsWithAnswer(regs, id, status, outcome);
      var participants' := WithAnswer(participants, id, status, outcome);
      var second := StatusAnswer(regs', participants', id, again, later);
      && second == AlreadyApproved
      && RegsWithAnswer(regs', id, again, second) == regs'
      && WithAnswer(participants', id, again, second) == participants'
  {
  }

  class Store {
    var regs: Rows
    var participants: Rows

    constructor (regs: Rows, participants: Rows)
      ensures this.regs == regs && this.participants == participants
    {
      this.regs, this.participants := regs, participants;
    }

    /** The next official number, unless a stored one does not cast. */
    method NextNumber(year: Year) returns (number: Option<string>)
      ensures number == match PcAfterMax(regs, year) case Write(n) => Some(n) case _ => None
      ensures number.Some? ==> forall p :: p in regs ==> regs[p].number != number.value
      ensures number.Some? ==>
        exists n: nat :: IsPrinted(number.value, year, n) && NumberSafety.FollowsTheMaximum(AsRegs(regs), n)
    {
      var max := Capacity.MaxOfficial(AsRegs(regs));
      if max.None? {
        return None;
      }
      number := Some(Format(year, max.value + 1));
      FormatIsPrinted(year, max.value + 1);
      NumberSafety.MaximumIsFollowed(AsRegs(regs));
      forall p | p in regs ensures regs[p].number != number.value { IsAboveAll(regs, year, p); }
    }

    /** Both tables take the row, or neither does. */
    method UpdateStatusAndNumber(id: Id, status: string, number: string) returns (outcome: Outcome)
      requires UniqueNumbers(regs)
      modifies this
      ensures outcome ==
        if id !in old(regs) then NotFound
        else if number != "" && exists other :: other in old(regs) && other != id && old(regs)[other].number == number
        then DuplicateNumber
        else if number != ""
          && exists other :: other in old(participants) && other != id && old(participants)[other].number == number
        then DuplicateNumber
        else Approved(number)
      ensures outcome.Approved? ==>
        regs == old(regs)[id := Row(status, number)] && participants == old(participants)[id := Row(status, number)]
      ensures !outcome.Approved? ==> regs == old(regs) && participants == old(participants)
      ensures UniqueNumbers(regs)
    {
      if id !in regs {
        return NotFound;
      }
      if Taken(regs, id, number) || Taken(participants, id, number) {
        return DuplicateNumber;
      }
      FreeNumberKeepsUnique(regs, id, Row(status, number));
      regs := regs[id := Row(status, number)];
      participants := participants[id := Row(status, number)];
      return Approved(number);
    }

    method UpdateStatus(id: Id, status: string, year: Year) returns (outcome: Outcome)
      requires UniqueNumbers(regs)
      modifies this
      ensures outcome == StatusAnswer(old(regs), old(participants), id, status, year)
      ensures outcome == NotFound <==> id !in old(regs)
      ensures outcome == StatusWritten <==> id in old(regs) && status !in {"Verified", "Approved"}
      ensures id in old(regs) && status in {"Verified", "Approved"} ==>
        (outcome == AlreadyApproved <==> old(regs)[id].status in {"Verified", "Approved"})
      ensures outcome == CastFailed ==>
        exists p :: p in old(regs) && "MUSKOM-" <= old(regs)[p].number && !NumberSafety.Casts(old(regs)[p].number)
      ensures outcome == CastFailed || outcome == DuplicateNumber ==>
        id in old(regs) && status in {"Verified", "Approved"} && old(regs)[id].status !in {"Verified", "Approved"}
      ensures outcome == CastFailed ==> old(regs)[id].number == ""
      ensures outcome == DuplicateNumber ==> exists other, number ::
        && other in old(participants) && other != id && old(participants)[other].number == number
        && IsItsNumber(old(regs), id, year, number)
      ensures outcome.Approved? ==>
        && regs == old(regs)[id := Row(status, outcome.number)]
        && participants == old(participants)[id := Row(status, outcome.number)]
        && IsItsNumber(old(regs), id, year, outcome.number)
        && forall other :: other in old(participants) && other != id ==>
             old(participants)[other].number != outcome.number
      ensures outcome == StatusWritten ==>
        regs == old(regs)[id := Row(status, old(regs)[id].number)] && participants == old(participants)
      ensures outcome in {NotFound, AlreadyApproved, CastFailed, DuplicateNumber} ==>
        regs == old(regs) && participants == old(participants)
      ensures UniqueNumbers(regs)
    {
      AnswerInFull(regs, participants, id, status, year);
      if id !in regs {
        return NotFound;
      }
      var row := regs[id];
      if status != "Verified" && status != "Approved" {
        regs := regs[id := row.(status := status)];
        return StatusWritten;
      }
      if row.status == "Verified" || row.status == "Approved" {
        return AlreadyApproved;
      }
      var number := row.number;
      if number == "" {
        var next := NextNumber(year);
        if next.None? {
          return CastFailed;
        }
        number := next.value;
      }
      outcome := UpdateStatusAndNumber(id, status, number);
    }
  }
}
