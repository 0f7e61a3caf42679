/**
 Ballot casting and the voting session as a protocol over shared tables.

 A cast is a small program with a program counter: four separate reads, then one
 transaction that inserts a receipt and a ballot. Every read and every statement
 is one event, so events of different casts, of session actions and of the rest of
 the application interleave freely. A receipt that is inserted but not committed
 is invisible to readers and holds its unique key: another insert of the same
 participant waits for it.
 */
module Voting {
  import opened Common

  datatype SessionStatus = NotStarted | Running | Paused | Closed
  datatype Action = Start | Pause | Resume | Stop | Close | Unknown

  datatype VoteError =
    | SessionNotRunning | NotEligible | AlreadyVoted | CandidateInvalid
    | ForeignKey  // the row a receipt or ballot points at does not exist
    | Aborted     // context cancelled or connection lost before commit

  datatype Pc =
    | ReadStatus | ReadEligible | ReadVoted | ReadCandidate
    | InsertReceipt | InsertBallot | Commit
    | Done | Failed(error: VoteError)
  {
    /** The request has read RUNNING and can still add a ballot. */
    predicate PastStatusRead() {
      ReadEligible? || ReadVoted? || ReadCandidate? || InsertReceipt? || InsertBallot? || Commit?
    }

    /** The request's transaction holds the unique key of its receipt. */
    predicate HoldsKey() { InsertBallot? || Commit? }

    predicate Finished() { Done? || Failed? }
  }

  datatype Cast = Cast(participant: Id, candidate: Id, pc: Pc)

  /** A session action between its read and its write. */
  datatype SessionOp = SessionOp(seen: SessionStatus, target: SessionStatus)

  datatype Tables = Tables(
    eligible: set<Id>, validCandidates: set<Id>, participantRows: set<Id>, candidateRows: set<Id>)

  datatype State = State(
    session: Option<SessionStatus>,
    tables: Tables,
    receipts: seq<Id>,
    ballots: seq<Id>,
    reopenAudit: seq<string>,
    casts: map<nat, Cast>,
    ops: map<nat, SessionOp>,
    commits: seq<nat>)  // history: the casts in commit order

  datatype Event =
    | BeginCast(request: nat, participant: Id, candidate: Id)
    | Advance(request: nat)
    | Abort(request: nat)
    | ReadAction(op: nat, action: Action)
    | WriteAction(op: nat)
    | Reopen(reason: string)
    | Environment(tables: Tables)  // check-ins, verification, candidate edits

  const MAX_REASON_LENGTH := 500

  /** A missing session row reads as NOT_STARTED. */
  function Status(s: State): SessionStatus {
    if s.session.Some? then s.session.value else NotStarted
  }

  /** The state machine of the session actions; None is a rejected action. */
  function Target(current: SessionStatus, action: Action): Option<SessionStatus> {
    match action
    case Start => if current == NotStarted then Some(Running) else None
    case Pause => if current == Running then Some(Paused) else None
    case Resume => if current == Paused then Some(Running) else None
    case Stop => if current == Closed || current == NotStarted then None else Some(Closed)
    case Close => if current == Closed || current == NotStarted then None else Some(Closed)
    case Unknown => None
  }

  predicate KeyTaken(s: State, request: nat, participant: Id) {
    exists q | q in s.casts :: q != request && s.casts[q].pc.HoldsKey() && s.casts[q].participant == participant
  }

  function WithPc(s: State, request: nat, pc: Pc): State
    requires request in s.casts
  {
    s.(casts := s.casts[request := s.casts[request].(pc := pc)])
  }

  function AdvanceCast(s: State, request: nat): State
    requires request in s.casts
  {
    var cast := s.casts[request];
    match cast.pc
    case ReadStatus =>
      WithPc(s, request, if Status(s) == Running then ReadEligible else Failed(SessionNotRunning))
    case ReadEligible =>
      WithPc(s, request, if cast.participant in s.tables.eligible then ReadVoted else Failed(NotEligible))
    case ReadVoted =>
      WithPc(s, request, if cast.participant in s.receipts then Failed(AlreadyVoted) else ReadCandidate)
    case ReadCandidate =>
      WithPc(s, request, if cast.candidate in s.tables.validCandidates then InsertReceipt else Failed(CandidateInvalid))
    case InsertReceipt =>
      if cast.participant in s.receipts then WithPc(s, request, Failed(AlreadyVoted))
      else if KeyTaken(s, request, cast.participant) then s
      else WithPc(s, request, if cast.participant in s.tables.participantRows then InsertBallot else Failed(ForeignKey))
    case InsertBallot =>
      WithPc(s, request, if cast.candidate in s.tables.candidateRows then Commit else Failed(ForeignKey))
    case Commit =>
      WithPc(s, request, Done).(
        receipts := s.receipts + [cast.participant],
        ballots := s.ballots + [cast.candidate],
        commits := s.commits + [request])
    case Done => s
    case Failed(_) => s
  }

  function Apply(s: State, e: Event): State {
    match e
    case BeginCast(r, p, c) => if r in s.casts then s else s.(casts := s.casts[r := Cast(p, c, ReadStatus)])
    case Advance(r) => if r in s.casts then AdvanceCast(s, r) else s
    case Abort(r) =>
      if r in s.casts && !s.casts[r].pc.Finished() then WithPc(s, r, Failed(Aborted)) else s
    case ReadAction(o, action) =>
      if o in s.ops then s
      else (match Target(Status(s), action)
            case None => s
            case Some(target) => s.(ops := s.ops[o := SessionOp(Status(s), target)]))
    case WriteAction(o) =>
      if o in s.ops then s.(session := Some(s.ops[o].target), ops := s.ops - {o}) else s
    case Reopen(reason) =>
      if 0 < |reason| <= MAX_REASON_LENGTH && s.session == Some(Closed)
      then s.(session := Some(NotStarted), reopenAudit := s.reopenAudit + [reason])
      else s
    case Environment(tables) => s.(tables := tables)
  }

  predicate Initial(s: State) {
    s.receipts == [] && s.ballots == [] && s.commits == [] && s.casts == map[] && s.ops == map[] && s.reopenAudit == []
  }
}
