/** The registrations table and the requests against it, updated in place. */
module RegistrationStore {
  import opened Common
  import opened RegistrationNumber
  import opened Capacity
  import opened NumberSafety
  import Text

  /** What the endpoint answers when nothing else runs beside the request. */
  function Answer(s: State, email: string): RegisterResult {
    if !s.open then RegistrationClosed
    else if EmailKnown(s.regs, email) then DuplicateEmail
    else if Unrestricted(s.settings) then Registered
    else AnswerUnderLock(s)
  }

  function AnswerUnderLock(s: State): RegisterResult {
    if Count(s.regs, Approved) < s.settings.limit then Registered
    else if Mode(s.settings) == "CLOSE" then QuotaReached
    else if s.settings.waitingCapacity > 0 && Count(s.regs, WaitingList) >= s.settings.waitingCapacity
    then WaitingListFull
    else Waitlisted
  }

  /** The row a result stands for. */
  function WithRow(regs: map<Id, Reg>, result: RegisterResult, newId: Id, email: string, token: string): map<Id, Reg> {
    match result
    case Registered => regs[newId := Reg(email, Pending, "PENDING-" + token)]
    case Waitlisted => regs[newId := Reg(email, WaitingList, "")]
    case _ => regs
  }

  // ---- A registration that nothing interleaves with ----

  /** A request's next statement, on the tables as they were at its start. */
  function NextOf(s: State, req: Register, newId: Id, token: string): Register {
    NextRegister(req, s.open, s.settings, s.regs, newId, token)
  }

  /** The request after some more of its statements. */
  function After(s: State, req: Register, newId: Id, token: string, steps: nat): Register
    decreases steps
  {
    if steps == 0 then req else After(s, NextOf(s, req, newId, token), newId, token, steps - 1)
  }

  lemma {:induction false} AfterSnoc(s: State, req: Register, newId: Id, token: string, steps: nat)
    ensures After(s, req, newId, token, steps + 1) == NextOf(s, After(s, req, newId, token, steps), newId, token)
    decreases steps
  {
    if steps != 0 { AfterSnoc(s, NextOf(s, req, newId, token), newId, token, steps - 1); }
  }

  function RowsAt(s: State, req: Register, newId: Id, token: string): map<Id, Reg> {
    match req.pc
    case Release(result) => WithRow(s.regs, result, newId, req.email, token)
    case Finished(result) => WithRow(s.regs, result, newId, req.email, token)
    case _ => s.regs
  }

  /** The tables while only this request is under way. */
  function RegisteringAt(s: State, r: nat, req: Register, newId: Id, token: string): State {
    s.(registers := s.registers[r := req],
       advisory := if req.pc.HoldsLock() then Some(r) else None,
       regs := RowsAt(s, req, newId, token))
  }

  predicate FreshKeys(s: State, newId: Id, token: string) {
    newId !in s.regs && !NumberTaken(s.regs, newId, "PENDING-" + token)
  }

  lemma RowsAfterStep(s: State, req: Register, newId: Id, token: string)
    requires FreshKeys(s, newId, token)
    ensures RowsAfterRegister(req, RowsAt(s, req, newId, token), newId, token)
      == RowsAt(s, NextOf(s, req, newId, token), newId, token)
  {
  }

  lemma RegisteringStep(s: State, r: nat, req: Register, newId: Id, token: string)
    requires s.advisory == None && FreshKeys(s, newId, token)
    ensures StepRegister(RegisteringAt(s, r, req, newId, token), r, newId, token)
         == RegisteringAt(s, r, NextOf(s, req, newId, token), newId, token)
  {
    RowsAfterStep(s, req, newId, token);
    NextOnSameRows(s, req, newId, token);
    var next := NextOf(s, req, newId, token);
    assert s.registers[r := req][r := next] == s.registers[r := next];
  }

  /** Once there is a result, the rows no longer matter to the request. */
  lemma NextOnSameRows(s: State, req: Register, newId: Id, token: string)
    ensures NextRegister(req, s.open, s.settings, RowsAt(s, req, newId, token), newId, token)
      == NextOf(s, req, newId, token)
  {
  }

  lemma {:induction false} FinishedStays(s: State, req: Register, newId: Id, token: string, steps: nat)
    requires req.pc.Finished?
    ensures After(s, req, newId, token, steps) == req
    decreases steps
  {
    if steps != 0 { FinishedStays(s, req, newId, token, steps - 1); }
  }

  lemma {:induction false} ReleaseEnds(s: State, req: Register, newId: Id, token: string, steps: nat)
    requires req.pc.Release? && steps >= 1
    ensures After(s, req, newId, token, steps) == req.(pc := Finished(req.pc.pending))
  {
    FinishedStays(s, NextOf(s, req, newId, token), newId, token, steps - 1);
  }

  lemma {:induction false} InsertEnds(s: State, req: Register, newId: Id, token: string, steps: nat)
    requires req.pc.Insert? && steps >= 2 && FreshKeys(s, newId, token)
    ensures After(s, req, newId, token, steps)
      == req.(pc := Finished(if req.pc.waiting then Waitlisted else Registered))
  {
    var next := NextOf(s, req, newId, token);
    if next.pc.Release? {
      ReleaseEnds(s, next, newId, token, steps - 1);
    } else {
      FinishedStays(s, next, newId, token, steps - 1);
    }
  }

  lemma {:induction false} CountWaitingEnds(s: State, req: Register, newId: Id, token: string, steps: nat)
    requires req.pc.CountWaiting? && steps >= 3 && FreshKeys(s, newId, token) && req.settings == s.settings
    requires Count(s.regs, Approved) >= s.settings.limit && Mode(s.settings) != "CLOSE"
    ensures After(s, req, newId, token, steps) == req.(pc := Finished(AnswerUnderLock(s)))
  {
    var next := NextOf(s, req, newId, token);
    if next.pc.Release? {
      ReleaseEnds(s, next, newId, token, steps - 1);
    } else {
      InsertEnds(s, next, newId, token, steps - 1);
    }
  }

  lemma {:induction false} CountMainEnds(s: State, req: Register, newId: Id, token: string, steps: nat)
    requires req.pc.CountMain? && steps >= 4 && FreshKeys(s, newId, token) && req.settings == s.settings
    ensures After(s, req, newId, token, steps) == req.(pc := Finished(AnswerUnderLock(s)))
  {
    var next := NextOf(s, req, newId, token);
    if next.pc.Insert? {
      InsertEnds(s, next, newId, token, steps - 1);
    } else if next.pc.Release? {
      ReleaseEnds(s, next, newId, token, steps - 1);
    } else {
      CountWaitingEnds(s, next, newId, token, steps - 1);
    }
  }

  lemma {:induction false} ReadSettingsEnds(s: State, req: Register, newId: Id, token: string, steps: nat)
    requires req.pc.ReadSettings? && steps >= 6 && FreshKeys(s, newId, token)
    ensures var result := if Unrestricted(s.settings) then Registered else AnswerUnderLock(s);
      After(s, req, newId, token, steps) == Register(req.email, s.settings, Finished(result))
  {
    var next := NextOf(s, req, newId, token);
    if next.pc.Insert? {
      InsertEnds(s, next, newId, token, steps - 1);
    } else {
      CountMainEnds(s, NextOf(s, next, newId, token), newId, token, steps - 2);
    }
  }

  /** A request's own statements lead to the endpoint's answer, in at most eight steps. */
  lemma {:induction false} EndsWithAnswer(s: State, email: string, newId: Id, token: string)
    requires FreshKeys(s, newId, token)
    ensures var req := After(s, Register(email, NO_SETTINGS, CheckOpen), newId, token, 8);
      req.pc == Finished(Answer(s, email)) && req.email == email
  {
    var r0 := Register(email, NO_SETTINGS, CheckOpen);
    var r1 := NextOf(s, r0, newId, token);
    var r2 := NextOf(s, r1, newId, token);
    assert After(s, r0, newId, token, 8) == After(s, r1, newId, token, 7) == After(s, r2, newId, token, 6);
    if r2.pc.Finished? {
      FinishedStays(s, r2, newId, token, 6);
    } else {
      ReadSettingsEnds(s, r2, newId, token, 6);
    }
  }

  // ---- An approval or rejection that nothing interleaves with ----

  function VerifyAnswer(s: State, id: Id, decision: Decision): VerifyPc {
    if id !in s.regs then Refused(NotFound)
    else if s.regs[id].status != Pending || decision.NoDecision? then Refused(InvalidTransition)
    else if decision.Reject? then Verified
    else if s.settings.limit > 0 && Count(s.regs, Approved) >= s.settings.limit then Refused(CapacityReached)
    else if s.regs[id].number == "" && MaxOfficial(s.regs).None? then Refused(CastFailed)
    else Verified
  }

  /** The row after a decision: a number is given only to an approved row that had none. */
  function Decided(s: State, id: Id, decision: Decision, year: Year): Reg
    requires id in s.regs
  {
    var row := s.regs[id];
    match VerifyAnswer(s, id, decision)
    case Verified =>
      if decision.Reject? then row.(status := Rejected)
      else row.(status := Approved,
                number := if row.number == "" && MaxOfficial(s.regs).Some? then
                  Format(year, MaxOfficial(s.regs).value + 1) else row.number)
    case _ => row
  }

  /** An approval leaves an official number exactly on a row that had none or an official one. */
  lemma ApprovedIsOfficialExactly(s: State, id: Id, year: Year)
    requires id in s.regs && VerifyAnswer(s, id, Approve) == Verified
    ensures var number := s.regs[id].number;
      IsOfficial(Decided(s, id, Approve, year).number) <==> number == "" || IsOfficial(number)
    ensures s.regs[id].number != "" ==> Decided(s, id, Approve, year).number == s.regs[id].number
  {
    if s.regs[id].number == "" { ReadBack(year, MaxOfficial(s.regs).value + 1); }
  }

  function VerifyAfter(s: State, id: Id, decision: Decision, year: Year, steps: nat): Verify {
    if steps == 0 then Verify(id, decision, 0, ReadDetail)
    else NextVerify(VerifyAfter(s, id, decision, year, steps - 1), s.settings, s.regs, year)
  }

  function VerifyingAt(s: State, v: nat, req: Verify, year: Year): State {
    s.(verifies := s.verifies[v := req],
       configLock := if req.HoldsLock() then Some(v) else None,
       regs := if req.pc.Verified? && req.id in s.regs then s.regs[req.id := Decided(s, req.id, req.decision, year)]
         else s.regs)
  }

  /** What a request under way has established about the tables it started from. */
  predicate Shape(s: State, req: Verify, year: Year) {
    var pc := req.pc;
    && OnlyApprovalsCount(req)
    && (!pc.ReadDetail? && !pc.Refused? ==>
      req.id in s.regs && s.regs[req.id].status == Pending && !req.decision.NoDecision?)
    && (pc.LockConfig? ==> pc.needsNumber == (s.regs[req.id].number == ""))
    && (pc.CountVerified? ==> pc.needsNumber == (s.regs[req.id].number == "") && req.limit == s.settings.limit > 0)
    && (pc.ReadMax? ==> s.regs[req.id].number == "")
    && (pc.ReadMax? ==> VerifyAnswer(s, req.id, req.decision) == if MaxOfficial(s.regs).None? then Refused(CastFailed)
      else Verified)
    && (pc.Update? || pc.Verified? ==> VerifyAnswer(s, req.id, req.decision).Verified?)
    && (pc.Update? ==> pc.number == if req.decision.Approve? && s.regs[req.id].number == "" && MaxOfficial(s.regs).Some?
                                   then Some(Format(year, MaxOfficial(s.regs).value + 1)) else None)
    && (pc.Refused? ==> pc == VerifyAnswer(s, req.id, req.decision))
  }

  lemma NumberIsFree(s: State, req: Verify, year: Year)
    requires Shape(s, req, year) && req.pc.Update?
    ensures !UpdateClashes(req, s.regs)
    ensures RowsAfterVerify(req, s.regs) == s.regs[req.id := Decided(s, req.id, req.decision, year)]
  {
    if req.pc.number.Some? { NextNumberIsAbove(s.regs, year); }
  }

  lemma {:induction false} KeepsShape(s: State, id: Id, decision: Decision, year: Year, steps: nat)
    ensures var req := VerifyAfter(s, id, decision, year, steps);
      Shape(s, req, year) && req.id == id && req.decision == decision
  {
    if steps != 0 {
      KeepsShape(s, id, decision, year, steps - 1);
      NextKeepsShape(s, VerifyAfter(s, id, decision, year, steps - 1), year);
    }
  }

  lemma NextKeepsShape(s: State, req: Verify, year: Year)
    requires Shape(s, req, year)
    ensures var next := NextVerify(req, s.settings, s.regs, year);
      Shape(s, next, year) && next.id == req.id && next.decision == req.decision
  {
    if req.pc.Update? { NumberIsFree(s, req, year); }
  }

  lemma VerifyingStep(s: State, v: nat, req: Verify, year: Year)
    requires s.configLock == None && Shape(s, req, year)
    ensures StepVerify(VerifyingAt(s, v, req, year), v, year) ==
      VerifyingAt(s, v, NextVerify(req, s.settings, s.regs, year), year)
  {
    if req.pc.Update? { NumberIsFree(s, req, year); }
    assert s.verifies[v := req][v := NextVerify(req, s.settings, s.regs, year)] ==
      s.verifies[v := NextVerify(req, s.settings, s.regs, year)];
  }

  /** The statements a request has before it at most. */
  function Left(pc: VerifyPc): nat {
    match pc
    case ReadDetail => 5
    case LockConfig(_) => 4
    case CountVerified(_) => 3
    case ReadMax => 2
    case Update(_) => 1
    case _ => 0
  }

  lemma {:induction false} StepsCountDown(s: State, id: Id, decision: Decision, year: Year, steps: nat)
    requires steps <= 5
    ensures Left(VerifyAfter(s, id, decision, year, steps).pc) <= 5 - steps
  {
    if steps != 0 {
      StepsCountDown(s, id, decision, year, steps - 1);
      var req := VerifyAfter(s, id, decision, year, steps - 1);
      assert Left(NextVerify(req, s.settings, s.regs, year).pc) < Left(req.pc)
        || Left(req.pc) == 0 == Left(NextVerify(req, s.settings, s.regs, year).pc);
    }
  }

  lemma {:induction false} EndsWithVerifyAnswer(s: State, id: Id, decision: Decision, year: Year)
    ensures var req := VerifyAfter(s, id, decision, year, 5);
      req.pc == VerifyAnswer(s, id, decision) && req.id == id && req.decision == decision
  {
    KeepsShape(s, id, decision, year, 5);
    StepsCountDown(s, id, decision, year, 5);
  }

  lemma VerifyAnswerInFull(s: State, id: Id, decision: Decision)
    ensures VerifyAnswer(s, id, decision) ==
      if id !in s.regs then Refused(NotFound)
      else if s.regs[id].status != Pending || decision == NoDecision then Refused(InvalidTransition)
      else if decision == Reject then Verified
      else if 0 < s.settings.limit <= |set p | p in s.regs && s.regs[p].status == Approved|
      then Refused(CapacityReached)
      else if s.regs[id].number == ""
        && exists p :: p in s.regs && "MUSKOM-" <= s.regs[p].number && !Casts(s.regs[p].number)
      then Refused(CastFailed)
      else Verified
  {
    CastsOrNot(s.regs);
    assert Count(s.regs, Approved) == |set p | p in s.regs && s.regs[p].status == Approved|;
  }

  lemma DecidedInFull(s: State, id: Id, decision: Decision, year: Year)
    requires id in s.regs && VerifyAnswer(s, id, decision) == Verified
    ensures var row := Decided(s, id, decision, year);
      && row.email == s.regs[id].email && row.status == (if decision == Approve then Approved else Rejected)
      && (decision == Reject || s.regs[id].number != "" ==> row.number == s.regs[id].number)
      && (decision == Approve && s.regs[id].number == "" ==>
            exists n: nat :: IsPrinted(row.number, year, n) && FollowsTheMaximum(s.regs, n))
  {
    if decision == Approve && s.regs[id].number == "" {
      var n := MaxOfficial(s.regs).value + 1;
      FormatIsPrinted(year, n);
      MaximumIsFollowed(s.regs);
    }
  }

  class Store {
    var open: bool
    var settings: Settings
    var regs: map<Id, Reg>
    var advisory: Option<nat>
    var configLock: Option<nat>
    var registers: map<nat, Register>
    var verifies: map<nat, Verify>

    ghost function View(): State
      reads this
    {
      State(open, settings, regs, advisory, configLock, registers, verifies)
    }

    constructor (open: bool, settings: Settings, regs: map<Id, Reg>)
      ensures View() == State(open, settings, regs, None, None, map[], map[])
    {
      this.open, this.settings, this.regs := open, settings, regs;
      advisory, configLock, registers, verifies := None, None, map[], map[];
    }

    /** The insert either adds one row, or meets a taken key and adds nothing. */
    method Create(req: Register, newId: Id, token: string) returns (result: RegisterResult)
      requires req.pc.Insert?
      modifies this`regs
      ensures regs == RowsAfterRegister(req, old(regs), newId, token)
      ensures newId in old(regs) ==> result == DuplicateRow
      ensures newId !in old(regs) ==>
        (result == DuplicateRow <==>
          !req.pc.waiting && exists id :: id in old(regs) && old(regs)[id].number == "PENDING-" + token)
      ensures result == DuplicateRow ==> regs == old(regs)
      ensures result != DuplicateRow && !req.pc.waiting ==>
        result == Registered && regs == old(regs)[newId := Reg(req.email, Pending, "PENDING-" + token)]
      ensures result != DuplicateRow && req.pc.waiting ==>
        result == Waitlisted && regs == old(regs)[newId := Reg(req.email, WaitingList, "")]
    {
      var waiting := req.pc.waiting;
      var row := Reg(req.email, if waiting then WaitingList else Pending, if waiting then "" else "PENDING-" + token);
      if newId in regs || NumberTaken(regs, newId, row.number) {
        return DuplicateRow;
      }
      regs := regs[newId := row];
      result := if waiting then Waitlisted else Registered;
    }

    /** The mode of a settings row, CLOSE when it has none. */
    method NormalizedMode(row: Settings) returns (mode: string)
      ensures mode == Mode(row)
    {
      mode := row.mode;
      if mode == "" {
        mode := "CLOSE";
      }
      mode := Text.Upper(Text.TrimSpace(mode));
    }

    /** A statement that only reads: where the request goes next, and the settings it has read. */
    method Look(req: Register, newId: Id, token: string) returns (next: Register)
      requires req.pc.CheckOpen? || req.pc.CheckEmail? || req.pc.ReadSettings?
        || req.pc.CountMain? || req.pc.CountWaiting?
      ensures next == NextRegister(req, open, settings, regs, newId, token)
    {
      match req.pc {
        case CheckOpen =>
          next := req.(pc := if !open then Finished(RegistrationClosed) else CheckEmail);
        case CheckEmail =>
          var known := exists id | id in regs :: regs[id].email == req.email;
          next := req.(pc := if known then Finished(DuplicateEmail) else Capacity.ReadSettings);
        case ReadSettings =>
          var mode := NormalizedMode(settings);
          var free := mode == "ALLOW" || settings.limit == 0;
          next := req.(settings := settings, pc := if free then Insert(false, false) else TakeLock);
        case CountMain =>
          var mainRegistered := Count(regs, Approved);
          if mainRegistered < req.settings.limit {
            next := req.(pc := Insert(false, true));
          } else if Mode(req.settings) == "CLOSE" {
            next := req.(pc := Release(QuotaReached));
          } else {
            next := req.(pc := CountWaiting);
          }
        case CountWaiting =>
          var waiting := Count(regs, WaitingList);
          var full := req.settings.waitingCapacity > 0 && waiting >= req.settings.waitingCapacity;
          next := req.(pc := if full then Release(WaitingListFull) else Insert(true, true));
      }
    }

    method AdvanceRegister(request: nat, newId: Id, token: string)
      modifies this`registers, this`advisory, this`regs
      ensures View() == Apply(old(View()), Event.AdvanceRegister(request, newId, token))
    {
      if request !in registers {
        return;
      }
      var req := registers[request];
      match req.pc {
        case TakeLock =>
          if advisory.Some? {
            return;
          }
          advisory := Some(request);
          req := req.(pc := CountMain);
        case Insert(waiting, locked) =>
          var result := Create(req, newId, token);
          req := req.(pc := if locked then Release(result) else Finished(result));
        case Release(result) =>
          advisory := None;
          req := req.(pc := Finished(result));
        case Finished(_) => return;
        case _ =>
          req := Look(req, newId, token);
      }
      registers := registers[request := req];
    }

    /** The statements of one registration, one after the other. */
    method RunRegistration(request: nat, email: string, newId: Id, token: string) returns (result: RegisterResult)
      requires request !in registers && advisory == None
      requires newId !in regs && !NumberTaken(regs, newId, "PENDING-" + token)
      modifies this`registers, this`advisory, this`regs
      ensures result == Answer(old(View()), email)
      ensures regs == WithRow(old(regs), result, newId, email, token) && advisory == None
    {
      registers := registers[request := Register(email, NO_SETTINGS, CheckOpen)];
      ghost var req := registers[request];
      var steps := 0;
      while steps < 8
        invariant steps <= 8
        invariant req == After(old(View()), Register(email, NO_SETTINGS, CheckOpen), newId, token, steps)
        invariant View() == RegisteringAt(old(View()), request, req, newId, token)
      {
        RegisteringStep(old(View()), request, req, newId, token);
        AfterSnoc(old(View()), Register(email, NO_SETTINGS, CheckOpen), newId, token, steps);
        AdvanceRegister(request, newId, token);
        req := NextOf(old(View()), req, newId, token);
        steps := steps + 1;
      }
      EndsWithAnswer(old(View()), email, newId, token);
      result := registers[request].pc.result;
    }

    /** Alone, a registration gets the endpoint's answer and leaves exactly the row it stands for. */
    method PublicRegister(request: nat, email: string, newId: Id, token: string) returns (result: RegisterResult)
      requires request !in registers && advisory == None
      requires newId !in regs && !NumberTaken(regs, newId, "PENDING-" + token)
      modifies this`registers, this`advisory, this`regs
      ensures result ==
        var mode := Text.Upper(Text.TrimSpace(if settings.mode == "" then "CLOSE" else settings.mode));
        var approved := |set id | id in old(regs) && old(regs)[id].status == Approved|;
        var waiting := |set id | id in old(regs) && old(regs)[id].status == WaitingList|;
        if !open then RegistrationClosed
        else if exists id :: id in old(regs) && old(regs)[id].email == email then DuplicateEmail
        else if mode == "ALLOW" || settings.limit == 0 || approved < settings.limit then Registered
        else if mode == "CLOSE" then QuotaReached
        else if settings.waitingCapacity > 0 && waiting >= settings.waitingCapacity then WaitingListFull
        else Waitlisted
      ensures result == Registered ==> regs == old(regs)[newId := Reg(email, Pending, "PENDING-" + token)]
      ensures result == Waitlisted ==> regs == old(regs)[newId := Reg(email, WaitingList, "")]
      ensures result !in {Registered, Waitlisted} ==> regs == old(regs)
      ensures advisory == None
    {
      result := RunRegistration(request, email, newId, token);
    }

    /** The reads before the update. */
    method Consider(req: Verify, year: Year) returns (next: Verify)
      requires req.pc.ReadDetail? || req.pc.CountVerified? || req.pc.ReadMax?
      ensures next == NextVerify(req, settings, regs, year)
    {
      match req.pc {
        case ReadDetail =>
          if req.id !in regs {
            return req.(pc := Refused(NotFound));
          }
          if regs[req.id].status != Pending || req.decision.NoDecision? {
            return req.(pc := Refused(InvalidTransition));
          }
          next := req.(pc := if req.decision.Approve? then LockConfig(regs[req.id].number == "") else Update(None));
        case CountVerified(needsNumber) =>
          var verified := Count(regs, Approved);
          if verified >= req.limit {
            return req.(pc := Refused(CapacityReached));
          }
          next := req.(pc := if needsNumber then ReadMax else Update(None));
        case ReadMax =>
          var max := MaxOfficial(regs);
          if max.None? {
            return req.(pc := Refused(CastFailed));
          }
          next := req.(pc := Update(Some(Format(year, max.value + 1))));
      }
    }

    /** The update of the row, unless it is gone or the number is taken. */
    method UpdateParticipantStatus(req: Verify) returns (outcome: VerifyPc)
      requires req.pc.Update?
      modifies this`regs
      ensures regs == RowsAfterVerify(req, old(regs))
      ensures outcome ==
        if req.id !in old(regs) then Refused(NotFound)
        else if req.pc.number.Some? && req.pc.number.value != ""
          && exists p :: p in old(regs) && p != req.id && old(regs)[p].number == req.pc.number.value
        then Refused(DuplicateNumber)
        else Verified
      ensures outcome != Verified ==> regs == old(regs)
      ensures outcome == Verified ==>
        var row := old(regs)[req.id].(status := if req.decision.Approve? then Approved else Rejected);
        regs == old(regs)[req.id := if req.pc.number.Some? then row.(number := req.pc.number.value) else row]
    {
      var number := req.pc.number;
      if req.id !in regs {
        return Refused(NotFound);
      }
      if number.Some? && NumberTaken(regs, req.id, number.value) {
        return Refused(DuplicateNumber);
      }
      var row := regs[req.id].(status := if req.decision.Approve? then Approved else Rejected);
      regs := regs[req.id := if number.Some? then row.(number := number.value) else row];
      outcome := Verified;
    }

    method AdvanceVerify(request: nat, year: Year)
      requires request in verifies ==> OnlyApprovalsCount(verifies[request])
      modifies this`verifies, this`configLock, this`regs
      ensures View() == Apply(old(View()), Event.AdvanceVerify(request, year))
    {
      if request !in verifies {
        return;
      }
      var req := verifies[request];
      match req.pc {
        case LockConfig(needsNumber) =>
          if configLock.Some? {
            return;
          }
          configLock := Some(request);
          req := req.(limit := settings.limit, pc :=
            if settings.limit > 0 then CountVerified(needsNumber) else if needsNumber then ReadMax else Update(None));
        case Update(number) =>
          var outcome := UpdateParticipantStatus(req);
          if req.decision.Approve? {
            configLock := None;
          }
          req := req.(pc := outcome);
        case Verified => return;
        case Refused(_) => return;
        case ReadDetail =>
          req := Consider(req, year);
        case CountVerified(_) =>
          req := Consider(req, year);
          configLock := if req.pc.Refused? then None else configLock;
        case ReadMax =>
          req := Consider(req, year);
          configLock := if req.pc.Refused? then None else configLock;
      }
      verifies := verifies[request := req];
    }

    /** The statements of one decision, one after the other. */
    method RunDecision(request: nat, id: Id, decision: Decision, year: Year) returns (outcome: VerifyPc)
      requires request !in verifies && configLock == None
      modifies this`verifies, this`configLock, this`regs
      ensures outcome == VerifyAnswer(old(View()), id, decision)
      ensures regs == if id in old(regs) then old(regs)[id := Decided(old(View()), id, decision, year)] else old(regs)
      ensures configLock == None
    {
      verifies := verifies[request := Verify(id, decision, 0, ReadDetail)];
      ghost var req := verifies[request];
      var steps := 0;
      while steps < 5
        invariant steps <= 5 && req == VerifyAfter(old(View()), id, decision, year, steps)
        invariant View() == VerifyingAt(old(View()), request, req, year)
      {
        KeepsShape(old(View()), id, decision, year, steps);
        VerifyingStep(old(View()), request, req, year);
        AdvanceVerify(request, year);
        req := NextVerify(req, old(settings), old(regs), year);
        steps := steps + 1;
      }
      EndsWithVerifyAnswer(old(View()), id, decision, year);
      outcome := verifies[request].pc;
    }

    /** Alone, a decision is refused for the first reason that applies, and otherwise changes one row. */
    method VerifyParticipant(request: nat, id: Id, decision: Decision, year: Year) returns (outcome: VerifyPc)
      requires request !in verifies && configLock == None
      modifies this`verifies, this`configLock, this`regs
      ensures outcome ==
        if id !in old(regs) then Refused(NotFound)
        else if old(regs)[id].status != Pending || decision == NoDecision then Refused(InvalidTransition)
        else if decision == Reject then Verified
        else if 0 < settings.limit <= |set p | p in old(regs) && old(regs)[p].status == Approved|
        then Refused(CapacityReached)
        else if old(regs)[id].number == ""
          && exists p :: p in old(regs) && "MUSKOM-" <= old(regs)[p].number && !Casts(old(regs)[p].number)
        then Refused(CastFailed)
        else Verified
      ensures !outcome.Verified? ==> regs == old(regs)
      ensures outcome.Verified? ==>
        && regs.Keys == old(regs).Keys && (forall p :: p in regs && p != id ==> regs[p] == old(regs)[p])
        && id in regs && regs[id].email == old(regs)[id].email
        && regs[id].status == (if decision == Approve then Approved else Rejected)
      ensures outcome.Verified? && (decision == Reject || old(regs)[id].number != "") ==>
        regs[id].number == old(regs)[id].number
      ensures outcome.Verified? && decision == Approve && old(regs)[id].number == "" ==>
        exists n: nat :: IsPrinted(regs[id].number, year, n) && FollowsTheMaximum(old(regs), n)
      ensures configLock == None
    {
      outcome := RunDecision(request, id, decision, year);
      VerifyAnswerInFull(old(View()), id, decision);
      if outcome.Verified? { DecidedInFull(old(View()), id, decision, year); }
    }
  }
}
