/**
 Registration, waiting list and approval over the registrations table.

 Public registration counts and inserts under an advisory lock; approval counts,
 allocates a number and updates under a lock of the configuration row. Locks are held
 from the event that takes them to the event that ends the transaction; an event that
 needs a lock somebody else holds waits, that is, changes nothing. The insert of a
 registration commits in its own transaction, before the advisory lock is released.
 */
module Capacity {
  import opened Common
  import opened RegistrationNumber
  import Text

  /**
   Approved and waiting-list statuses up to letter case and blanks, as the counts compare them;
   a pending one up to letter case, as a decision does. Every other text is Other.
   */
  datatype RegStatus = Pending | WaitingList | Approved | Rejected | Other(text: string)

  /** An empty number is SQL NULL. */
  datatype Reg = Reg(email: string, status: RegStatus, number: string)

  datatype Settings = Settings(limit: int, waitingCapacity: int, mode: string)

  datatype RegisterResult =
    | Registered | Waitlisted
    | RegistrationClosed | DuplicateEmail | QuotaReached | WaitingListFull | DuplicateRow

  datatype RegisterPc =
    | CheckOpen | CheckEmail | ReadSettings | TakeLock | CountMain | CountWaiting
    | Insert(waiting: bool, locked: bool)
    | Release(pending: RegisterResult)
    | Finished(result: RegisterResult)
  {
    predicate HoldsLock() { CountMain? || CountWaiting? || (Insert? && locked) || Release? }
  }

  datatype Register = Register(email: string, settings: Settings, pc: RegisterPc)

  datatype Decision = Approve | Reject | NoDecision

  datatype VerifyError = NotFound | InvalidTransition | CapacityReached | CastFailed | DuplicateNumber

  datatype VerifyPc =
    | ReadDetail | LockConfig(needsNumber: bool) | CountVerified(needsNumber: bool) | ReadMax
    | Update(number: Option<string>)
    | Verified | Refused(error: VerifyError)

  datatype Verify = Verify(id: Id, decision: Decision, limit: int, pc: VerifyPc)
  {
    predicate HoldsLock() { pc.CountVerified? || pc.ReadMax? || (pc.Update? && decision.Approve?) }

    /** The request has found room under the limit. */
    predicate CountedBelow() { pc.ReadMax? || (pc.Update? && decision.Approve?) }
  }

  datatype State = State(
    open: bool,
    settings: Settings,
    regs: map<Id, Reg>,
    advisory: Option<nat>,
    configLock: Option<nat>,
    registers: map<nat, Register>,
    verifies: map<nat, Verify>)

  datatype Event =
    | BeginRegister(request: nat, email: string)
    | AdvanceRegister(request: nat, newId: Id, token: string)
    | BeginVerify(request: nat, id: Id, decision: Decision)
    | AdvanceVerify(request: nat, year: Year)
    | Submit(newId: Id, email: string)  // the registration module's PENDING insert, without a number
    | Delete(id: Id)
    | SetOpen(open: bool)
    | Configure(settings: Settings)

  const NO_SETTINGS := Settings(0, 0, "")

  /** The stored mode; a missing one is CLOSE. */
  function StoredMode(settings: Settings): string { if settings.mode == "" then "CLOSE" else settings.mode }

  /** The mode as the registration endpoint compares it. */
  function Mode(settings: Settings): string { Text.Upper(Text.TrimSpace(StoredMode(settings))) }

  predicate Unrestricted(settings: Settings) {
    Mode(settings) == "ALLOW" || settings.limit == 0
  }

  function WithStatus(regs: map<Id, Reg>, status: RegStatus): set<Id> {
    set id | id in regs && regs[id].status == status
  }

  function Count(regs: map<Id, Reg>, status: RegStatus): nat {
    |WithStatus(regs, status)|
  }

  predicate EmailKnown(regs: map<Id, Reg>, email: string) {
    exists id | id in regs :: regs[id].email == email
  }

  /** The UNIQUE constraint of registration_number; NULLs do not collide. */
  predicate NumberTaken(regs: map<Id, Reg>, id: Id, number: string) {
    number != "" && exists other | other in regs :: other != id && regs[other].number == number
  }

  /** SELECT MAX(CAST(... AS INTEGER)): None when some official number does not cast. */
  function MaxOfficial(regs: map<Id, Reg>): (m: Option<nat>)
    ensures m.Some? ==> forall id :: id in regs && IsOfficial(regs[id].number) ==>
      Value(regs[id].number).Some? && Value(regs[id].number).value <= m.value
  {
    if forall id | id in regs && IsOfficial(regs[id].number) ::
         Value(regs[id].number).Some? && Value(regs[id].number).value <= INTEGER_MAX
    then
      var values := set id | id in regs && IsOfficial(regs[id].number) :: Value(regs[id].number).value;
      assert forall id :: id in regs && IsOfficial(regs[id].number) ==> Value(regs[id].number).value in values;
      Some(Maximum(values))
    else None
  }

  function Maximum(values: set<nat>): (m: nat)
    ensures forall v :: v in values ==> v <= m
    ensures if values == {} then m == 0 else m in values
  {
    if values == {} then 0
    else
      HasMaximum(values);
      var m: nat :| m in values && IsMaximum(m, values);
      m
  }

  predicate IsMaximum(m: nat, values: set<nat>) {
    m in values && forall v :: v in values ==> v <= m
  }

  lemma {:induction false} HasMaximum(values: set<nat>)
    requires values != {}
    ensures exists m :: IsMaximum(m, values)
  {
    var x :| x in values;
    var rest := values - {x};
    if rest == {} {
      assert values == {x};
      assert IsMaximum(x, values);
    } else {
      HasMaximum(rest);
      var m :| IsMaximum(m, rest);
      assert values == rest + {x};
      assert IsMaximum(if x <= m then m else x, values);
    }
  }

  /** The row an insert writes; a waiting registrant has no number yet. */
  function NewRow(req: Register, token: string): Reg
    requires req.pc.Insert?
  {
    Reg(req.email, if req.pc.waiting then WaitingList else Pending, if req.pc.waiting then "" else "PENDING-" + token)
  }

  predicate InsertFails(req: Register, regs: map<Id, Reg>, newId: Id, token: string)
    requires req.pc.Insert?
  {
    newId in regs || NumberTaken(regs, newId, NewRow(req, token).number)
  }

  /** The request after its next statement. */
  function NextRegister(req: Register, open: bool, settings: Settings, regs: map<Id,
    Reg>, newId: Id, token: string): Register {
    match req.pc
    case CheckOpen => req.(pc := if open then CheckEmail else Finished(RegistrationClosed))
    case CheckEmail => req.(pc := if EmailKnown(regs, req.email) then Finished(DuplicateEmail) else ReadSettings)
    case ReadSettings => Register(req.email, settings, if Unrestricted(settings) then Insert(false, false)
      else TakeLock)
    case TakeLock => req.(pc := CountMain)
    case CountMain =>
      req.(pc := if Count(regs, Approved) < req.settings.limit then Insert(false, true)
                 else if Mode(req.settings) == "CLOSE" then Release(QuotaReached)
                 else CountWaiting)
    case CountWaiting =>
      req.(pc := if req.settings.waitingCapacity > 0 && Count(regs, WaitingList) >= req.settings.waitingCapacity
                 then Release(WaitingListFull) else Insert(true, true))
    case Insert(waiting, locked) =>
      var result := if InsertFails(req, regs, newId, token) then DuplicateRow
        else if waiting then Waitlisted else Registered;
      req.(pc := if locked then Release(result) else Finished(result))
    case Release(result) => req.(pc := Finished(result))
    case Finished(_) => req
  }

  function RowsAfterRegister(req: Register, regs: map<Id, Reg>, newId: Id, token: string): map<Id, Reg> {
    if req.pc.Insert? && !InsertFails(req, regs, newId, token) then regs[newId := NewRow(req, token)] else regs
  }

  /** A lock once its owner has moved on: taken, kept or given back. */
  function LockAfter(lock: Option<nat>, request: nat, held: bool, holds: bool): Option<nat> {
    if holds == held then lock else if holds then Some(request) else None
  }

  function StepRegister(s: State, request: nat, newId: Id, token: string): State
    requires request in s.registers
  {
    var req := s.registers[request];
    if req.pc.Finished? || (req.pc.TakeLock? && s.advisory.Some?) then s
    else
      var next := NextRegister(req, s.open, s.settings, s.regs, newId, token);
      s.(registers := s.registers[request := next],
         advisory := LockAfter(s.advisory, request, req.pc.HoldsLock(), next.pc.HoldsLock()),
         regs := RowsAfterRegister(req, s.regs, newId, token))
  }

  predicate UpdateClashes(req: Verify, regs: map<Id, Reg>)
    requires req.pc.Update?
  {
    req.pc.number.Some? && NumberTaken(regs, req.id, req.pc.number.value)
  }

  /** The request after its next statement; a refusal ends its transaction. */
  function NextVerify(req: Verify, settings: Settings, regs: map<Id, Reg>, year: Year): Verify {
    match req.pc
    case ReadDetail =>
      req.(pc := if req.id !in regs then Refused(NotFound)
                 else if regs[req.id].status != Pending || req.decision.NoDecision? then Refused(InvalidTransition)
                 else if req.decision.Approve? then LockConfig(regs[req.id].number == "")
                 else Update(None))
    case LockConfig(needsNumber) =>
      req.(limit := settings.limit,
           pc := if settings.limit > 0 then CountVerified(needsNumber)
             else if needsNumber then ReadMax else Update(None))
    case CountVerified(needsNumber) =>
      req.(pc := if Count(regs, Approved) >= req.limit then Refused(CapacityReached)
                 else if needsNumber then ReadMax else Update(None))
    case ReadMax =>
      req.(pc := match MaxOfficial(regs)
                 case None => Refused(CastFailed)
                 case Some(max) => Update(Some(Format(year, max + 1))))
    case Update(_) =>
      req.(pc := if req.id !in regs then Refused(NotFound)
                 else if UpdateClashes(req, regs) then Refused(DuplicateNumber)
                 else Verified)
    case Verified => req
    case Refused(_) => req
  }

  /** Only an approval goes through the locked statements. */
  predicate OnlyApprovalsCount(req: Verify) {
    req.pc.LockConfig? || req.pc.CountVerified? || req.pc.ReadMax? ==> req.decision.Approve?
  }

  function RowsAfterVerify(req: Verify, regs: map<Id, Reg>): map<Id, Reg> {
    if req.pc.Update? && req.id in regs && !UpdateClashes(req, regs) then
      var row := regs[req.id].(status := if req.decision.Approve? then Approved else Rejected);
      regs[req.id := if req.pc.number.Some? then row.(number := req.pc.number.value) else row]
    else regs
  }

  function StepVerify(s: State, request: nat, year: Year): State
    requires request in s.verifies
  {
    var req := s.verifies[request];
    if req.pc.Verified? || req.pc.Refused? || (req.pc.LockConfig? && s.configLock.Some?) then s
    else
      var next := NextVerify(req, s.settings, s.regs, year);
      s.(verifies := s.verifies[request := next],
         configLock := LockAfter(s.configLock, request, req.HoldsLock(), next.HoldsLock()),
         regs := RowsAfterVerify(req, s.regs))
  }

  function Apply(s: State, e: Event): State {
    match e
    case BeginRegister(r, email) =>
      if r in s.registers then s else s.(registers := s.registers[r := Register(email, NO_SETTINGS, CheckOpen)])
    case AdvanceRegister(r, newId, token) => if r in s.registers then StepRegister(s, r, newId, token) else s
    case BeginVerify(v, id, decision) =>
      if v in s.verifies then s else s.(verifies := s.verifies[v := Verify(id, decision, 0, ReadDetail)])
    case AdvanceVerify(v, year) => if v in s.verifies then StepVerify(s, v, year) else s
    case Submit(newId, email) => if newId in s.regs then s else s.(regs := s.regs[newId := Reg(email, Pending, "")])
    case Delete(id) => s.(regs := s.regs - {id})
    case SetOpen(open) => s.(open := open)
    case Configure(settings) => if s.configLock.Some? then s else s.(settings := settings)
  }
}
