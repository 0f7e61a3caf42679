/**
 Check-in, undo and eligibility. A check-in reads the registration's status first and writes in
 a transaction afterwards; operators approve, reject and remove registrations in between.
 */
module Attendance {
  import opened Common
  import opened Runs
  import Text

  const VOTER_STATUSES := {"Verified", "VERIFIED", "Approved", "APPROVED"}

  /**
   What the table forbids: a second active row of a participant (the partial index), or a
   second row of any kind (the table constraint beside it). The insert yields to either one.
   */
  datatype Uniqueness = Active | Ever

  datatype Row = Row(id: Id, participant: Id, undone: bool)

  datatype Audit = CheckedIn(participant: Id) | Undone(key: Id) | BulkUndone

  /** An empty number or token is NULL. */
  datatype Registration = Registration(status: string, number: string, token: string)

  /** Status and number as they were when the row was provisioned or approved. */
  datatype Participant = Participant(status: string, number: string)

  datatype Db = Db(
    uniqueness: Uniqueness,
    registrations: map<Id, Registration>,
    participants: map<Id, Participant>,
    attendance: seq<Row>,
    audit: seq<Audit>)

  datatype Answer =
    | Success(isNew: bool)
    | ParticipantNotFound
    | IdRequired
    | NotApproved(status: string)
    | ForeignKeyViolation
    | DuplicateNumber
    | NoActiveRow

  datatype Pc = ReadStatus | Write | ReadDetail(inserted: bool) | Done(answer: Answer)

  datatype Request = Request(participant: Id, pc: Pc)

  datatype State = State(db: Db, requests: map<nat, Request>)

  datatype Event =
    | BeginCheckIn(r: nat, participant: Id)
    | AdvanceCheckIn(r: nat, rowId: Id)
    | UndoOne(key: Id)
    | UndoMany(keys: seq<Id>)
    | WriteRegistration(id: Id, row: Registration)
    | RemoveRegistration(id: Id)
    | Approve(id: Id, status: string, number: string)

  predicate PassesCheck(status: string) {
    Text.Upper(Text.TrimSpace(status)) in {"APPROVED", "VERIFIED"}
  }

  predicate HasActive(rows: seq<Row>, p: Id) {
    exists i | 0 <= i < |rows| :: rows[i].participant == p && !rows[i].undone
  }

  predicate HasRow(rows: seq<Row>, p: Id) {
    exists i | 0 <= i < |rows| :: rows[i].participant == p
  }

  predicate Conflicts(db: Db, p: Id) {
    if db.uniqueness.Ever? then HasRow(db.attendance, p) else HasActive(db.attendance, p)
  }

  predicate NumberTaken(participants: map<Id, Participant>, p: Id, number: string) {
    number != "" && exists other | other in participants :: other != p && participants[other].number == number
  }

  /** A new row of participants would carry a number that another one has. */
  predicate ProvisionClashes(db: Db, p: Id) {
    p in db.registrations && p !in db.participants && NumberTaken(db.participants, p, db.registrations[p].number)
  }

  /** The participants table after provisioning: an existing row stays as it is. */
  function Provisioned(db: Db, p: Id): map<Id, Participant> {
    if p in db.registrations && p !in db.participants then
      db.participants[p := Participant(db.registrations[p].status, db.registrations[p].number)]
    else db.participants
  }

  /** The check-in transaction. */
  function Written(db: Db, p: Id, rowId: Id): Db {
    if ProvisionClashes(db, p) then db
    else if Conflicts(db, p) then db.(participants := Provisioned(db, p))
    else if p !in Provisioned(db, p) then db
    else db.(participants := Provisioned(db, p),
             attendance := db.attendance + [Row(rowId, p, false)],
             audit := db.audit + [CheckedIn(p)])
  }

  function PcAfterWrite(db: Db, p: Id): Pc {
    if ProvisionClashes(db, p) then Done(DuplicateNumber)
    else if Conflicts(db, p) then ReadDetail(false)
    else if p !in Provisioned(db, p) then Done(ForeignKeyViolation)
    else ReadDetail(true)
  }

  function PcAfterStatus(db: Db, p: Id): Pc {
    if p !in db.registrations then Done(ParticipantNotFound)
    else if !PassesCheck(db.registrations[p].status) then Done(NotApproved(db.registrations[p].status))
    else Write
  }

  function DetailAnswer(db: Db, p: Id, inserted: bool): Answer {
    if p in db.registrations && HasActive(db.attendance, p) then Success(inserted) else NoActiveRow
  }

  predicate Hit(row: Row, keys: seq<Id>) { !row.undone && (row.id in keys || row.participant in keys) }

  function AfterUndo(rows: seq<Row>, keys: seq<Id>): seq<Row> {
    seq(|rows|, i requires 0 <= i < |rows| => if Hit(rows[i], keys) then rows[i].(undone := true) else rows[i])
  }

  /** The hits among the first n rows are marked, and nothing else has changed. */
  predicate IsMarked(rows: seq<Row>, n: nat, keys: seq<Id>, marked: seq<Row>) {
    && |marked| == |rows|
    && forall i :: 0 <= i < |rows| ==>
      marked[i] == if i < n && Hit(rows[i], keys) then rows[i].(undone := true) else rows[i]
  }

  function Hits(rows: seq<Row>, keys: seq<Id>): set<int> { set i | 0 <= i < |rows| && Hit(rows[i], keys) }

  /** Undoing without a hit is refused for one key and does nothing for many. */
  function Undo(db: Db, keys: seq<Id>, entry: Audit): Db {
    if Hits(db.attendance, keys) == {} then db
    else db.(attendance := AfterUndo(db.attendance, keys), audit := db.audit + [entry])
  }

  /**
   Approval on the participant page: both tables take status and number, unless approved already or the
   number is taken.
   */
  function Approved(db: Db, id: Id, status: string, number: string): Db {
    if status !in {"Verified", "Approved"} || id !in db.registrations
      || db.registrations[id].status in {"Verified", "Approved"}
      || NumberTaken(db.participants, id, number) then db
    else db.(registrations := db.registrations[id := Registration(status, number, db.registrations[id].token)],
             participants := db.participants[id := Participant(status, number)])
  }

  function StepCheckIn(s: State, r: nat, rowId: Id): State
    requires r in s.requests
  {
    var p := s.requests[r].participant;
    match s.requests[r].pc
    case ReadStatus => s.(requests := s.requests[r := Request(p, PcAfterStatus(s.db, p))])
    case Write => State(Written(s.db, p, rowId), s.requests[r := Request(p, PcAfterWrite(s.db, p))])
    case ReadDetail(inserted) => s.(requests := s.requests[r := Request(p, Done(DetailAnswer(s.db, p, inserted)))])
    case Done(_) => s
  }

  function Apply(s: State, e: Event): State {
    match e
    case BeginCheckIn(r, p) => if r in s.requests then s else s.(requests := s.requests[r := Request(p, ReadStatus)])
    case AdvanceCheckIn(r, rowId) => if r in s.requests then StepCheckIn(s, r, rowId) else s
    case UndoOne(key) => s.(db := Undo(s.db, [key], Undone(key)))
    case UndoMany(keys) => s.(db := Undo(s.db, keys, BulkUndone))
    case WriteRegistration(id, row) => s.(db := s.db.(registrations := s.db.registrations[id := row]))
    case RemoveRegistration(id) => s.(db := s.db.(registrations := s.db.registrations - {id}))
    case Approve(id, status, number) => s.(db := Approved(s.db, id, status, number))
  }

  /** The voting module's test: an approved participant with an active attendance row. */
  predicate Eligible(db: Db, p: Id) {
    p in db.participants && db.participants[p].status in VOTER_STATUSES && HasActive(db.attendance, p)
  }

  /** A check-in whose steps nothing interrupts. */
  function CheckInAnswer(db: Db, p: Id): Answer {
    if p !in db.registrations then ParticipantNotFound
    else if !PassesCheck(db.registrations[p].status) then NotApproved(db.registrations[p].status)
    else if ProvisionClashes(db, p) then DuplicateNumber
    else if Conflicts(db, p) && !HasActive(db.attendance, p) then NoActiveRow
    else Success(!Conflicts(db, p))
  }

  lemma AppendedIsActive(rows: seq<Row>, row: Row)
    requires !row.undone
    ensures HasActive(rows + [row], row.participant)
  {
    assert (rows + [row])[|rows|] == row;
  }

  lemma {:induction false} CheckInAlone(s: State, r: nat, p: Id, rowId: Id)
    requires r !in s.requests
    ensures var e := AdvanceCheckIn(r, rowId);
      var t := Run(Apply, s, [BeginCheckIn(r, p), e, e, e]);
      && r in t.requests && t.requests[r].pc == Done(CheckInAnswer(s.db, p))
      && t.db == if PcAfterStatus(s.db, p).Write? then Written(s.db, p, rowId) else s.db
  {
    var e := AdvanceCheckIn(r, rowId);
    var s1 := Apply(s, BeginCheckIn(r, p));
    var s2 := Apply(s1, e);
    var s3 := Apply(s2, e);
    assert Run(Apply, s, [BeginCheckIn(r, p), e, e, e]) == Apply(s3, e) by {
      assert [BeginCheckIn(r, p), e, e, e][1..] == [e, e, e] && [e, e, e][1..] == [e, e] && [e, e][1..] == [e];
      assert Run(Apply, s3, [e]) == Apply(s3, e);
      assert Run(Apply, s2, [e, e]) == Run(Apply, s3, [e]);
      assert Run(Apply, s1, [e, e, e]) == Run(Apply, s2, [e, e]);
    }
    AppendedIsActive(s.db.attendance, Row(rowId, p, false));
  }

  predicate Matches(row: Registration, text: string) { row.number == text || row.token == text }

  ghost predicate NoMatch(registrations: map<Id, Registration>, text: string) {
    text != "" && forall id :: id in registrations ==> !Matches(registrations[id], text)
  }

  class Store {
    const uniqueness: Uniqueness
    var registrations: map<Id, Registration>
    var participants: map<Id, Participant>
    var attendance: seq<Row>
    var audit: seq<Audit>

    function View(): Db
      reads this
    {
      Db(uniqueness, registrations, participants, attendance, audit)
    }

    constructor (uniqueness: Uniqueness)
      ensures View() == Db(uniqueness, map[], map[], [], [])
    {
      this.uniqueness := uniqueness;
      registrations, participants, attendance, audit := map[], map[], [], [];
    }

    /** Some registration with this number or QR token. */
    method GetParticipantIDByRegNumber(text: string) returns (found: Option<Id>)
      requires text != ""
      ensures found.None? <==> NoMatch(registrations, text)
      ensures found.None? <==> forall id :: id in registrations ==>
        registrations[id].number != text && registrations[id].token != text
      ensures found.Some? ==> found.value in registrations
      ensures found.Some? ==> registrations[found.value].number == text || registrations[found.value].token == text
    {
      var matching := set id | id in registrations
        && (registrations[id].number == text || registrations[id].token == text);
      if matching == {} {
        assert forall id :: id in registrations && Matches(registrations[id], text) ==> id in matching;
        return None;
      }
      var id :| id in matching;
      return Some(id);
    }

    method CreateAttendance(p: Id, rowId: Id) returns (inserted: bool, error: Option<Answer>)
      modifies this`participants, this`attendance
      ensures var t := Written(old(View()), p, rowId); participants == t.participants && attendance == t.attendance
      ensures PcAfterWrite(old(View()), p) == if error.Some? then Done(error.value) else ReadDetail(inserted)
    {
      var before := participants;
      if p in registrations && p !in participants {
        var row := Participant(registrations[p].status, registrations[p].number);
        if row.number != "" && exists other | other in participants ::
          other != p && participants[other].number == row.number {
          return false, Some(DuplicateNumber);
        }
        participants := participants[p := row];
      }
      if exists i | 0 <= i < |attendance| ::
        attendance[i].participant == p && (uniqueness.Ever? || !attendance[i].undone) {
        return false, None;
      }
      if p !in participants {
        participants := before;
        return false, Some(ForeignKeyViolation);
      }
      attendance := attendance + [Row(rowId, p, false)];
      return true, None;
    }

    /** Nothing interrupts it; p is the registration it is about. */
    method CheckIn(participantId: Id, registrationNumber: string, rowId: Id) returns (answer: Answer, ghost p: Id)
      modifies this
      ensures participantId != "" || registrationNumber == "" ==> p == participantId
      ensures participantId == "" && registrationNumber != "" && p != "" ==>
        p in old(registrations) && Matches(old(registrations)[p], registrationNumber)
      ensures p == "" ==> answer == if NoMatch(old(registrations), registrationNumber) then ParticipantNotFound
        else IdRequired
      ensures p != "" ==> answer == CheckInAnswer(old(View()), p)
      ensures View() == if p != "" && PcAfterStatus(old(View()), p).Write? then Written(old(View()), p, rowId)
        else old(View())
    {
      p := participantId;
      var id := participantId;
      if id == "" && registrationNumber != "" {
        var found := GetParticipantIDByRegNumber(registrationNumber);
        if found.None? {
          return ParticipantNotFound, "";
        }
        id := found.value;
        p := id;
      }
      if id == "" {
        return IdRequired, p;
      }
      answer := CheckInParticipant(id, rowId);
    }

    method RunCheckIn(id: Id, rowId: Id) returns (answer: Answer)
      modifies this
      ensures answer == CheckInAnswer(old(View()), id)
      ensures View() ==
        if PcAfterStatus(old(View()), id).Write? then Written(old(View()), id, rowId) else old(View())
    {
      if id !in registrations {
        return ParticipantNotFound;
      }
      var status := Text.Upper(Text.TrimSpace(registrations[id].status));
      if status != "APPROVED" && status != "VERIFIED" {
        return NotApproved(registrations[id].status);
      }
      var inserted, error := CreateAttendance(id, rowId);
      if error.Some? {
        return error.value;
      }
      if inserted {
        audit := audit + [CheckedIn(id)];
        AppendedIsActive(old(attendance), Row(rowId, id, false));
      }
      var active := exists i | 0 <= i < |attendance| :: attendance[i].participant == id && !attendance[i].undone;
      assert active == HasActive(attendance, id);
      if active {
        return Success(inserted);
      }
      return NoActiveRow;
    }

    /** The same, column by column. */
    method CheckInParticipant(id: Id, rowId: Id) returns (answer: Answer)
      modifies this
      ensures answer == CheckInAnswer(old(View()), id)
      ensures View() ==
        if PcAfterStatus(old(View()), id).Write? then Written(old(View()), id, rowId) else old(View())
      ensures answer == ParticipantNotFound <==> id !in registrations
      ensures answer.NotApproved? <==>
        id in registrations && Text.Upper(Text.TrimSpace(registrations[id].status)) !in {"APPROVED", "VERIFIED"}
      ensures answer.NotApproved? ==> answer.status == registrations[id].status
      ensures id in registrations && !answer.NotApproved? ==>
        answer ==
          if id !in old(participants) && registrations[id].number != ""
            && exists p :: p in old(participants) && old(participants)[p].number == registrations[id].number
          then DuplicateNumber
          else if exists row :: row in old(attendance) && row.participant == id && !row.undone then Success(false)
          else if uniqueness == Ever && exists row :: row in old(attendance) && row.participant == id then NoActiveRow
          else Success(true)
      ensures registrations == old(registrations)
      ensures participants ==
        if (answer.Success? || answer == NoActiveRow) && id !in old(participants)
        then old(participants)[id := Participant(registrations[id].status, registrations[id].number)]
        else old(participants)
      ensures answer == Success(true) ==>
        attendance == old(attendance) + [Row(rowId, id, false)] && audit == old(audit) + [CheckedIn(id)]
      ensures answer != Success(true) ==> attendance == old(attendance) && audit == old(audit)
    {
      answer := RunCheckIn(id, rowId);
      ghost var rows := old(attendance);
      assert HasActive(rows, id) <==> exists row :: row in rows && row.participant == id && !row.undone;
      assert HasRow(rows, id) <==> exists row :: row in rows && row.participant == id;
    }

    /** The UPDATE statement: every active row named by a key is marked; the rows marked are counted. */
    method MarkUndone(keys: seq<Id>) returns (affected: nat)
      modifies this`attendance
      ensures attendance == AfterUndo(old(attendance), keys)
      ensures affected == |Hits(old(attendance), keys)|
      ensures |attendance| == |old(attendance)|
      ensures forall i :: 0 <= i < |attendance| ==>
        attendance[i] ==
          if old(attendance)[i].id in keys || old(attendance)[i].participant in keys
          then old(attendance)[i].(undone := true) else old(attendance)[i]
    {
      affected := 0;
      var rows := attendance;
      var marked := rows;
      var i := 0;
      while i < |rows|
        invariant i <= |rows|
        invariant IsMarked(rows, i, keys, marked)
        invariant affected == |Hits(rows[..i], keys)|
      {
        OneRowMore(rows, i, keys);
        if !rows[i].undone && (rows[i].id in keys || rows[i].participant in keys) {
          marked := marked[i := rows[i].(undone := true)];
          affected := affected + 1;
        }
        i := i + 1;
      }
      AllRowsMarked(rows, keys, marked);
      attendance := marked;
    }

    method UndoCheckIn(key: Id) returns (ok: bool)
      modifies this
      ensures View() == Undo(old(View()), [key], Undone(key))
      ensures ok <==> exists row :: row in old(attendance) && !row.undone && key in {row.id, row.participant}
      ensures |attendance| == |old(attendance)| && forall i :: 0 <= i < |attendance| ==>
        attendance[i] ==
          if key in {old(attendance)[i].id, old(attendance)[i].participant}
          then old(attendance)[i].(undone := true) else old(attendance)[i]
      ensures audit == if ok then old(audit) + [Undone(key)] else old(audit)
    {
      var affected := MarkUndone([key]);
      NoHitNoChange(old(attendance), [key]);
      if affected == 0 {
        return false;
      }
      audit := audit + [Undone(key)];
      return true;
    }

    method BulkUndoCheckIn(ids: seq<Id>) returns (affected: nat)
      modifies this
      ensures View() == Undo(old(View()), ids, BulkUndone)
      ensures affected == |Hits(old(attendance), ids)|
      ensures affected > 0 <==>
        exists row :: row in old(attendance) && !row.undone && (row.id in ids || row.participant in ids)
      ensures |attendance| == |old(attendance)| && forall i :: 0 <= i < |attendance| ==>
        attendance[i] ==
          if old(attendance)[i].id in ids || old(attendance)[i].participant in ids
          then old(attendance)[i].(undone := true) else old(attendance)[i]
      ensures audit == if affected > 0 then old(audit) + [BulkUndone] else old(audit)
    {
      NoHitNoChange(attendance, ids);
      if |ids| == 0 {
        assert Hits(attendance, ids) == {};
        return 0;
      }
      affected := MarkUndone(ids);
      if affected > 0 {
        audit := audit + [BulkUndone];
      }
    }
  }

  lemma OneRowMore(rows: seq<Row>, i: nat, keys: seq<Id>)
    requires i < |rows|
    ensures |Hits(rows[..i + 1], keys)| == |Hits(rows[..i], keys)| + (if Hit(rows[i], keys) then 1 else 0)
  {
    var before, after := Hits(rows[..i], keys), Hits(rows[..i + 1], keys);
    assert forall k :: 0 <= k < i ==> rows[..i + 1][k] == rows[..i][k];
    assert after == if Hit(rows[i], keys) then before + {i} else before;
  }

  lemma AllRowsMarked(rows: seq<Row>, keys: seq<Id>, marked: seq<Row>)
    requires IsMarked(rows, |rows|, keys, marked)
    ensures marked == AfterUndo(rows, keys) && rows[..|rows|] == rows
  {
  }

  lemma NoHitNoChange(rows: seq<Row>, keys: seq<Id>)
    ensures Hits(rows, keys) == {} ==> AfterUndo(rows, keys) == rows
    ensures Hits(rows, keys) != {} <==> exists i :: 0 <= i < |rows| && Hit(rows[i], keys)
  {
    if i :| 0 <= i < |rows| && Hit(rows[i], keys) { assert i in Hits(rows, keys); }
    if Hits(rows, keys) == {} {
      forall i | 0 <= i < |rows| ensures !Hit(rows[i], keys) { assert i !in Hits(rows, keys); }
    }
  }
}
