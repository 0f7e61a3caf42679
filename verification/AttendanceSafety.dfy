/** What every interleaving of check-ins, undos and status changes keeps, and what it does not. */
module AttendanceSafety {
  import opened Common
  import opened Runs
  import opened Attendance
  import Text

  /** The uniqueness rule, read off the rows. */
  ghost predicate Unique(uniqueness: Uniqueness, rows: seq<Row>) {
    forall i, j :: 0 <= i < j < |rows| && rows[i].participant == rows[j].participant ==>
      uniqueness.Active? && (rows[i].undone || rows[j].undone)
  }

  function CheckInsOf(audit: seq<Audit>): seq<Id> {
    if audit == [] then []
    else
      var last := audit[|audit| - 1];
      CheckInsOf(audit[..|audit| - 1]) + if last.CheckedIn? then [last.participant] else []
  }

  function ParticipantsOf(rows: seq<Row>): seq<Id> {
    seq(|rows|, i requires 0 <= i < |rows| => rows[i].participant)
  }

  ghost predicate Inv(db: Db) {
    && Unique(db.uniqueness, db.attendance)
    && (forall i :: 0 <= i < |db.attendance| ==> db.attendance[i].participant in db.participants)
    && CheckInsOf(db.audit) == ParticipantsOf(db.attendance)
  }

  predicate Empty(s: State) {
    s.db.registrations == map[] && s.db.participants == map[] && s.db.attendance == []
      && s.db.audit == [] && s.requests == map[]
  }

  lemma {:induction false} AuditGrows(audit: seq<Audit>, entry: Audit)
    ensures CheckInsOf(audit + [entry]) == CheckInsOf(audit) + if entry.CheckedIn? then [entry.participant] else []
  {
    assert (audit + [entry])[..|audit|] == audit;
  }

  lemma UniqueAfterInsert(db: Db, row: Row)
    requires Unique(db.uniqueness, db.attendance) && !Conflicts(db, row.participant)
    ensures Unique(db.uniqueness, db.attendance + [row])
  {
  }

  lemma WrittenKeepsInv(db: Db, p: Id, rowId: Id)
    requires Inv(db)
    ensures Inv(Written(db, p, rowId))
  {
    if !Conflicts(db, p) {
      UniqueAfterInsert(db, Row(rowId, p, false));
      AuditGrows(db.audit, CheckedIn(p));
    }
  }

  lemma UndoKeepsInv(db: Db, keys: seq<Id>, entry: Audit)
    requires Inv(db) && !entry.CheckedIn?
    ensures Inv(Undo(db, keys, entry))
  {
    AuditGrows(db.audit, entry);
    assert ParticipantsOf(AfterUndo(db.attendance, keys)) == ParticipantsOf(db.attendance);
  }

  lemma StepKeepsInv(s: State, e: Event)
    requires Inv(s.db)
    ensures Inv(Apply(s, e).db)
  {
    match e
    case AdvanceCheckIn(r, rowId) =>
      if r in s.requests { WrittenKeepsInv(s.db, s.requests[r].participant, rowId); }
    case UndoOne(key) => UndoKeepsInv(s.db, [key], Undone(key));
    case UndoMany(keys) => UndoKeepsInv(s.db, keys, BulkUndone);
    case _ =>
  }

  lemma {:induction false} RunKeepsInv(s0: State, events: seq<Event>)
    requires Empty(s0)
    ensures Inv(Run(Apply, s0, events).db)
  {
    var inv := (s: State) => Inv(s.db);
    forall s, e | inv(s) ensures inv(Apply(s, e)) { StepKeepsInv(s, e); }
    assert Inv(s0.db);
    Invariant(Apply, inv, s0, events);
  }

  /** In every run the audit log holds one check-in entry for each attendance row, in the same order. */
  lemma {:induction false} CheckInsAreLogged(s0: State, events: seq<Event>)
    requires Empty(s0)
    ensures var db := Run(Apply, s0, events).db; CheckInsOf(db.audit) == ParticipantsOf(db.attendance)
  {
    RunKeepsInv(s0, events);
  }

  /** In every run two active rows of one participant are the same row. */
  lemma {:induction false} OneActiveRowEach(s0: State, events: seq<Event>, i: nat, j: nat)
    requires Empty(s0)
    requires var rows := Run(Apply, s0, events).db.attendance;
      && i < |rows| && j < |rows| && rows[i].participant == rows[j].participant
      && !rows[i].undone && !rows[j].undone
    ensures i == j
  {
    RunKeepsInv(s0, events);
  }

  // ---- The summary ----

  function ApprovedIds(db: Db): set<Id> { set p | p in db.registrations && PassesCheck(db.registrations[p].status) }

  predicate Joins(db: Db, p: Id, i: int) {
    0 <= i < |db.attendance| && db.attendance[i].participant == p && !db.attendance[i].undone
  }

  /** The left join of the approved registrations with the active rows; -1 where no row joins. */
  function LeftJoin(db: Db): set<(Id, int)> {
    (set p, i | p in ApprovedIds(db) && 0 <= i < |db.attendance| && Joins(db, p, i) :: (p, i))
    + (set p | p in ApprovedIds(db) && !HasActive(db.attendance, p) :: (p, -1))
  }

  datatype Summary = Summary(total: int, present: int, absent: int)

  function SummaryOf(db: Db): Summary {
    var total := |LeftJoin(db)|;
    var present := |set row | row in LeftJoin(db) && row.1 != -1|;
    Summary(total, present, total - present)
  }

  lemma {:induction false} SameSizeWhenKeyed(rows: set<(Id, int)>, keys: set<Id>)
    requires forall a, b :: a in rows && b in rows && a.0 == b.0 ==> a == b
    requires forall a :: a in rows ==> a.0 in keys
    requires forall k :: k in keys ==> exists i :: (k, i) in rows
    ensures |rows| == |keys|
  {
    if rows == {} {
      assert forall k :: k !in keys;
      assert keys == {};
    } else {
      var row :| row in rows;
      forall k | k in keys - {row.0} ensures exists i :: (k, i) in rows - {row} {
        var i :| (k, i) in rows;
        assert (k, i) in rows - {row};
      }
      SameSizeWhenKeyed(rows - {row}, keys - {row.0});
    }
  }

  /** The join never duplicates a registration: total, present and absent count registrations. */
  lemma {:induction false} SummaryCountsRegistrations(s0: State, events: seq<Event>)
    requires Empty(s0)
    ensures var db := Run(Apply, s0, events).db;
      var approved := set p | p in db.registrations
        && Text.Upper(Text.TrimSpace(db.registrations[p].status)) in {"APPROVED", "VERIFIED"};
      var here := set p | p in approved && exists row :: row in db.attendance && row.participant == p && !row.undone;
      SummaryOf(db) == Summary(|approved|, |here|, |approved - here|)
  {
    RunKeepsInv(s0, events);
    var db := Run(Apply, s0, events).db;
    JoinIsKeyed(db);
    PresentAndAbsent(db);
  }

  lemma PresentAndAbsent(db: Db)
    ensures var approved := set p | p in db.registrations
        && Text.Upper(Text.TrimSpace(db.registrations[p].status)) in {"APPROVED", "VERIFIED"};
      var here := set p | p in approved && exists row :: row in db.attendance && row.participant == p && !row.undone;
      && approved == ApprovedIds(db)
      && here == (set p | p in ApprovedIds(db) && HasActive(db.attendance, p))
      && approved - here == (set p | p in ApprovedIds(db) && !HasActive(db.attendance, p))
  {
    forall p ensures HasActive(db.attendance, p) <==>
      exists row :: row in db.attendance && row.participant == p && !row.undone { }
  }

  lemma JoinIsKeyed(db: Db)
    requires Unique(db.uniqueness, db.attendance)
    ensures SummaryOf(db) == Summary(
      |ApprovedIds(db)|,
      |set p | p in ApprovedIds(db) && HasActive(db.attendance, p)|,
      |set p | p in ApprovedIds(db) && !HasActive(db.attendance, p)|)
  {
    var here := set p | p in ApprovedIds(db) && HasActive(db.attendance, p);
    var away := set p | p in ApprovedIds(db) && !HasActive(db.attendance, p);
    assert away == ApprovedIds(db) - here;
    PresentRows(db);
    AllRows(db);
    TwoParts(ApprovedIds(db), here, away);
  }

  lemma TwoParts(all: set<Id>, here: set<Id>, away: set<Id>)
    requires here <= all && away == all - here
    ensures |all| == |here| + |away|
  {
    assert all == here + away;
  }

  lemma JoiningRow(db: Db, p: Id) returns (i: nat)
    requires p in ApprovedIds(db) && HasActive(db.attendance, p)
    ensures (p, i) in LeftJoin(db)
  {
    i :| i < |db.attendance| && db.attendance[i].participant == p && !db.attendance[i].undone;
    assert Joins(db, p, i);
  }

  lemma PresentRows(db: Db)
    requires Unique(db.uniqueness, db.attendance)
    ensures |set row | row in LeftJoin(db) && row.1 != -1| == |set p | p in ApprovedIds(db)
      && HasActive(db.attendance, p)|
  {
    var here := set p | p in ApprovedIds(db) && HasActive(db.attendance, p);
    var joined := set row | row in LeftJoin(db) && row.1 != -1;
    forall p | p in here ensures exists i :: (p, i) in joined {
      var i := JoiningRow(db, p);
      assert (p, i) in joined;
    }
    SameSizeWhenKeyed(joined, here);
  }

  lemma AllRows(db: Db)
    requires Unique(db.uniqueness, db.attendance)
    ensures |LeftJoin(db)| == |ApprovedIds(db)|
  {
    forall p | p in ApprovedIds(db) ensures exists i :: (p, i) in LeftJoin(db) {
      var i := JoinedRow(db, p);
    }
    forall a, b | a in LeftJoin(db) && b in LeftJoin(db) && a.0 == b.0 ensures a == b {
      JoinRowsDiffer(db, a, b);
    }
    SameSizeWhenKeyed(LeftJoin(db), ApprovedIds(db));
  }

  lemma JoinedRow(db: Db, p: Id) returns (i: int)
    requires p in ApprovedIds(db)
    ensures (p, i) in LeftJoin(db)
  {
    i := -1;
    if HasActive(db.attendance, p) {
      i := JoiningRow(db, p);
    }
  }

  lemma JoinRowsDiffer(db: Db, a: (Id, int), b: (Id, int))
    requires Unique(db.uniqueness, db.attendance) && a in LeftJoin(db) && b in LeftJoin(db) && a.0 == b.0
    ensures a == b
  {
    if a.1 != -1 { assert Joins(db, a.0, a.1); }
    if b.1 != -1 { assert Joins(db, b.0, b.1); }
  }

  // ---- Eligibility ----

  /** A check-in reports success: its last step, the reading of the active row, is about to find it. */
  predicate JustSucceeded(s: State, r: nat) {
    && r in s.requests && s.requests[r].pc.ReadDetail?
    && DetailAnswer(s.db, s.requests[r].participant, s.requests[r].pc.inserted).Success?
  }

  /** No undo in this event names a row of p. */
  predicate LeavesRowsOf(s: State, e: Event, p: Id) {
    var keys := if e.UndoOne? then [e.key] else if e.UndoMany? then e.keys else [];
    forall i | 0 <= i < |s.db.attendance| :: Hit(s.db.attendance[i], keys) ==> s.db.attendance[i].participant != p
  }

  lemma RowsStay(s: State, e: Event, p: Id)
    requires HasActive(s.db.attendance, p) && LeavesRowsOf(s, e, p)
    ensures HasActive(Apply(s, e).db.attendance, p)
  {
    var i :| 0 <= i < |s.db.attendance| && s.db.attendance[i].participant == p && !s.db.attendance[i].undone;
    var rows := Apply(s, e).db.attendance;
    assert i < |rows| && rows[i] == s.db.attendance[i];
  }

  lemma UndoneRowsGo(db: Db, keys: seq<Id>, p: Id)
    requires Inv(db)
    requires exists i :: 0 <= i < |db.attendance| && Hit(db.attendance[i], keys) && db.attendance[i].participant == p
    ensures !HasActive(AfterUndo(db.attendance, keys), p) && Hits(db.attendance, keys) != {}
  {
    var i :| 0 <= i < |db.attendance| && Hit(db.attendance[i], keys) && db.attendance[i].participant == p;
    assert i in Hits(db.attendance, keys);
  }

  /** Whoever can vote can vote after any event, except exactly an undo of one of their rows. */
  lemma StepKeepsEligibleExactly(s: State, e: Event, p: Id)
    requires Inv(s.db) && Eligible(s.db, p)
    ensures Eligible(Apply(s, e).db, p) <==> LeavesRowsOf(s, e, p)
  {
    if LeavesRowsOf(s, e, p) {
      RowsStay(s, e, p);
    } else {
      UndoneRowsGo(s.db, if e.UndoOne? then [e.key] else e.keys, p);
    }
  }

  /**
   In every run, a check-in that succeeds admits to the vote exactly when the status in participants is one
   that votes; and then the participant can vote until one of their own rows is undone, whatever else happens.
   */
  lemma {:induction false} EligibleUntilUndone(s0: State, before: seq<Event>, r: nat, after: seq<Event>)
    requires Empty(s0) && JustSucceeded(Run(Apply, s0, before), r)
    requires var s := Run(Apply, s0, before);
      Admitted(Apply, (t, e) => LeavesRowsOf(t, e, s.requests[r].participant), s, after)
    ensures var s := Run(Apply, s0, before);
      var p := s.requests[r].participant;
      && p in s.db.participants
      && (Eligible(s.db, p) <==> s.db.participants[p].status in {"Verified", "VERIFIED", "Approved", "APPROVED"})
      && (Eligible(s.db, p) ==> Eligible(Run(Apply, s, after).db, p))
  {
    RunKeepsInv(s0, before);
    var s := Run(Apply, s0, before);
    var p := s.requests[r].participant;
    if Eligible(s.db, p) { StaysEligible(s, after, p); }
  }

  lemma {:induction false} StaysEligible(s: State, after: seq<Event>, p: Id)
    requires Inv(s.db) && Eligible(s.db, p) && Admitted(Apply, (t, e) => LeavesRowsOf(t, e, p), s, after)
    ensures Eligible(Run(Apply, s, after).db, p)
  {
    var ok := (t: State, e: Event) => LeavesRowsOf(t, e, p);
    var inv := (t: State) => Inv(t.db) && Eligible(t.db, p);
    forall t, e | inv(t) && ok(t, e) ensures inv(Apply(t, e)) {
      StepKeepsInv(t, e);
      StepKeepsEligibleExactly(t, e, p);
    }
    InvariantOfAdmitted(Apply, ok, inv, s, after);
  }

  /** An approval on the participant page admits to the vote exactly who is checked in, whatever the row was before. */
  lemma ApprovalAdmitsExactly(db: Db, id: Id, status: string, number: string)
    requires status in {"Verified", "Approved"} && id in db.registrations
    requires db.registrations[id].status !in {"Verified", "Approved"} && !NumberTaken(db.participants, id, number)
    ensures var t := Approved(db, id, status, number);
      && (Eligible(t, id) <==> exists row :: row in db.attendance && row.participant == id && !row.undone)
      && t.registrations == db.registrations[id := Registration(status, number, db.registrations[id].token)]
      && t.participants == db.participants[id := Participant(status, number)]
  {
    assert HasActive(db.attendance, id) <==>
      exists row :: row in db.attendance && row.participant == id && !row.undone;
  }

  predicate VotesOnceProvisioned(db: Db, p: Id) {
    p in db.participants ==> db.participants[p].status in VOTER_STATUSES
  }

  predicate Provisions(s: State, e: Event, p: Id) {
    && e.AdvanceCheckIn? && e.r in s.requests && s.requests[e.r].pc.Write? && s.requests[e.r].participant == p
    && p in s.db.registrations && p !in s.db.participants && !ProvisionClashes(s.db, p)
  }

  /** If this event provisions p, it finds a status that votes in the registration. */
  predicate ProvisionsVoter(s: State, e: Event, p: Id) {
    Provisions(s, e, p) ==> s.db.registrations[p].status in VOTER_STATUSES
  }

  /** Only provisioning brings a status in that does not vote, so for each participant the guard is exact. */
  lemma StatusStaysVoterExactly(s: State, e: Event, p: Id)
    requires VotesOnceProvisioned(s.db, p)
    ensures VotesOnceProvisioned(Apply(s, e).db, p) <==> ProvisionsVoter(s, e, p)
  {
    if e.AdvanceCheckIn? && e.r in s.requests && s.requests[e.r].pc.Write? {
      var q := s.requests[e.r].participant;
      assert Apply(s, e).db.participants == if ProvisionClashes(s.db, q) then s.db.participants
        else Provisioned(s.db, q);
    }
  }

  /** A participant provisioned from a voting status, if at all, can vote as soon as a check-in succeeds. */
  lemma {:induction false} ProvisionedVoterVotes(s0: State, events: seq<Event>, r: nat)
    requires Empty(s0) && JustSucceeded(Run(Apply, s0, events), r)
    requires var p := Run(Apply, s0, events).requests[r].participant;
      Admitted(Apply, (t, e) => ProvisionsVoter(t, e, p), s0, events)
    ensures var s := Run(Apply, s0, events); Eligible(s.db, s.requests[r].participant)
  {
    var p := Run(Apply, s0, events).requests[r].participant;
    RunKeepsInv(s0, events);
    var ok := (t: State, e: Event) => ProvisionsVoter(t, e, p);
    var inv := (t: State) => VotesOnceProvisioned(t.db, p);
    forall t, e | inv(t) && ok(t, e) ensures inv(Apply(t, e)) { StatusStaysVoterExactly(t, e, p); }
    InvariantOfAdmitted(Apply, ok, inv, s0, events);
  }

  /** A check-in that nothing interrupts admits to the vote exactly when the stored spelling is one that votes. */
  lemma UninterruptedCheckIn(db: Db, p: Id, rowId: Id)
    requires Inv(db) && CheckInAnswer(db, p).Success?
    ensures Eligible(Written(db, p, rowId), p) <==>
      (if p in db.participants then db.participants[p].status else db.registrations[p].status) in VOTER_STATUSES
  {
    AppendedIsActive(db.attendance, Row(rowId, p, false));
  }

  lemma VerifiedPasses()
    ensures PassesCheck("Verified")
  {
    Text.TrimKeepsWords("Verified");
    assert Text.Upper("Verified") == "VERIFIED";
  }

  function Registered(status: string): Registration { Registration(status, "", "") }

  /** The status is read before the transaction: a rejection in between is copied, and the success is hollow. */
  lemma {:induction false} StaleStatusIsProvisioned(uniqueness: Uniqueness)
    ensures var s := Run(Apply, State(Db(uniqueness, map[], map[], [], []), map[]),
        [WriteRegistration("p", Registered("Verified")), BeginCheckIn(0, "p"), AdvanceCheckIn(0, "row"),
         WriteRegistration("p", Registered("Rejected")), AdvanceCheckIn(0, "row")]);
      JustSucceeded(s, 0) && s.requests[0].participant == "p" && !Eligible(s.db, "p")
  {
    var none := State(Db(uniqueness, map[], map[], [], []), map[]);
    var e1, e2, e3 := WriteRegistration("p", Registered("Verified")), BeginCheckIn(0, "p"), AdvanceCheckIn(0, "row");
    var e4 := WriteRegistration("p", Registered("Rejected"));
    FiveSteps(none, e1, e2, e3, e4, e3);
    var s3 := State(none.db.(registrations := map["p" := Registered("Verified")]), map[0 := Request("p", Write)]);
    assert Apply(Apply(Apply(none, e1), e2), e3) == s3 by { VerifiedPasses(); }
    assert Apply(s3, e4) == s3.(db := s3.db.(registrations := map["p" := Registered("Rejected")]));
    RejectedIsWritten(uniqueness);
  }

  lemma RejectedIsWritten(uniqueness: Uniqueness)
    ensures var db := Db(uniqueness, map["p" := Registered("Rejected")], map[], [], []);
      var s := Apply(State(db, map[0 := Request("p", Write)]), AdvanceCheckIn(0, "row"));
      JustSucceeded(s, 0) && s.requests[0].participant == "p" && !Eligible(s.db, "p")
  {
    AppendedIsActive([], Row("row", "p", false));
    assert [] + [Row("row", "p", false)] == [Row("row", "p", false)];
  }

  lemma {:induction false} FiveSteps(s: State, a: Event, b: Event, c: Event, d: Event, e: Event)
    ensures Run(Apply, s, [a, b, c, d, e]) == Apply(Apply(Apply(Apply(Apply(s, a), b), c), d), e)
  {
    RunSnoc(Apply, s, [], a);
    RunSnoc(Apply, s, [a], b);
    RunSnoc(Apply, s, [a, b], c);
    RunSnoc(Apply, s, [a, b, c], d);
    RunSnoc(Apply, s, [a, b, c, d], e);
    assert [] + [a] == [a] && [a] + [b] == [a, b] && [a, b] + [c] == [a, b, c];
    assert [a, b, c] + [d] == [a, b, c, d] && [a, b, c, d] + [e] == [a, b, c, d, e];
  }

  // ---- After an undo ----

  ghost predicate Spent(rows: seq<Row>, p: Id) {
    exists i :: 0 <= i < |rows| && rows[i].participant == p && rows[i].undone
  }

  lemma StepKeepsSpent(s: State, e: Event, p: Id)
    requires Spent(s.db.attendance, p)
    ensures Spent(Apply(s, e).db.attendance, p) && Apply(s, e).db.uniqueness == s.db.uniqueness
  {
    var i :| 0 <= i < |s.db.attendance| && s.db.attendance[i].participant == p && s.db.attendance[i].undone;
    var rows := Apply(s, e).db.attendance;
    assert i < |rows| && rows[i] == s.db.attendance[i];
  }

  lemma {:induction false} UniquenessStays(s: State, events: seq<Event>)
    ensures Run(Apply, s, events).db.uniqueness == s.db.uniqueness
  {
    var same := (t: State) => t.db.uniqueness == s.db.uniqueness;
    Invariant(Apply, same, s, events);
  }

  /** A check-in of the participant has been undone, and another row of any kind is refused. */
  ghost predicate Final(s: State, p: Id) {
    Inv(s.db) && s.db.uniqueness.Ever? && Spent(s.db.attendance, p)
  }

  lemma StepKeepsFinal(s: State, e: Event, p: Id)
    requires Final(s, p)
    ensures Final(Apply(s, e), p)
  {
    StepKeepsInv(s, e);
    StepKeepsSpent(s, e, p);
  }

  lemma FinalIsInactive(s: State, p: Id)
    requires Final(s, p)
    ensures !HasActive(s.db.attendance, p)
  {
  }

  lemma {:induction false} FinalStays(s: State, events: seq<Event>, p: Id)
    requires Final(s, p)
    ensures Final(Run(Apply, s, events), p)
  {
    var inv := (t: State) => Final(t, p);
    forall t, e | inv(t) ensures inv(Apply(t, e)) { StepKeepsFinal(t, e, p); }
    Invariant(Apply, inv, s, events);
  }

  /** With the table constraint, an undone check-in is final: no later event checks the participant in again. */
  lemma {:induction false} UndoIsFinal(s0: State, before: seq<Event>, after: seq<Event>, p: Id)
    requires Empty(s0) && s0.db.uniqueness.Ever?
    requires Spent(Run(Apply, s0, before).db.attendance, p)
    ensures !HasActive(Run(Apply, Run(Apply, s0, before), after).db.attendance, p)
  {
    UniquenessStays(s0, before);
    RunKeepsInv(s0, before);
    FinalStays(Run(Apply, s0, before), after, p);
    FinalIsInactive(Run(Apply, Run(Apply, s0, before), after), p);
  }

  /** In every run, checking in again after an undo works exactly when the partial index is the only one. */
  lemma {:induction false} CheckInAgainExactly(s0: State, events: seq<Event>, p: Id)
    requires Empty(s0)
    requires var db := Run(Apply, s0, events).db;
      && Spent(db.attendance, p) && !HasActive(db.attendance, p)
      && p in db.registrations && PassesCheck(db.registrations[p].status)
    ensures CheckInAnswer(Run(Apply, s0, events).db, p) == if s0.db.uniqueness.Active? then Success(true)
      else NoActiveRow
  {
    UniquenessStays(s0, events);
    RunKeepsInv(s0, events);
  }
}
