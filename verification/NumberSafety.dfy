/** Official numbers: allocated under the configuration lock, never used twice. */
module NumberSafety {
  import opened Common
  import opened Runs
  import opened RegistrationNumber
  import opened Capacity
  import opened CapacitySafety

  /** Every stored official number reads back as a natural number. */
  ghost predicate WellFormed(regs: map<Id, Reg>) {
    forall id :: id in regs && IsOfficial(regs[id].number) ==> Value(regs[id].number).Some?
  }

  ghost predicate Unique(regs: map<Id, Reg>) {
    forall id, other :: id in regs && other in regs && id != other && regs[id].number != "" ==>
      regs[id].number != regs[other].number
  }

  /** The number is official and above every stored one, of any year. */
  ghost predicate Above(regs: map<Id, Reg>, number: string) {
    && IsOfficial(number) && Value(number).Some?
    && (forall id :: id in regs && IsOfficial(regs[id].number) ==>
          Value(regs[id].number).Some? && Value(regs[id].number).value < Value(number).value)
  }

  /** Digits behind the prefix that fit into four bytes. */
  predicate Casts(number: string) { Value(number).Some? && Value(number).value <= 0x7fff_ffff }

  /** The maximum is read exactly when every official number casts; it is one of them, or zero without any. */
  lemma MaximumIsAttained(regs: map<Id, Reg>)
    ensures MaxOfficial(regs).Some? <==> forall id :: id in regs && IsOfficial(regs[id].number) ==>
      Casts(regs[id].number)
    ensures MaxOfficial(regs).Some? ==> if exists id :: id in regs && IsOfficial(regs[id].number)
      then exists id :: id in regs && IsOfficial(regs[id].number) && Value(regs[id].number) == MaxOfficial(regs)
      else MaxOfficial(regs).value == 0
  {
    assert (forall id :: id in regs && IsOfficial(regs[id].number) ==> Casts(regs[id].number))
      <==> forall id :: id in regs && IsOfficial(regs[id].number) ==>
             Value(regs[id].number).Some? && Value(regs[id].number).value <= INTEGER_MAX;
    if MaxOfficial(regs).Some? {
      var values := set id | id in regs && IsOfficial(regs[id].number) :: Value(regs[id].number).value;
      assert MaxOfficial(regs).value == Maximum(values);
      if id :| id in regs && IsOfficial(regs[id].number) {
        assert Value(regs[id].number).value in values;
      } else {
        assert values == {};
      }
    }
  }

  lemma CastsOrNot(regs: map<Id, Reg>)
    ensures MaxOfficial(regs).None? <==>
      exists id :: id in regs && "MUSKOM-" <= regs[id].number && !Casts(regs[id].number)
  {
    MaximumIsAttained(regs);
  }

  /** One more than the largest sequence number stored, or 1 when there is none. */
  ghost predicate FollowsTheMaximum(regs: map<Id, Reg>, n: nat) {
    && (forall id :: id in regs && "MUSKOM-" <= regs[id].number ==>
          Casts(regs[id].number) && Value(regs[id].number).value < n)
    && (n == 1 || exists id :: id in regs && "MUSKOM-" <= regs[id].number && Value(regs[id].number) == Some(n - 1))
  }

  lemma MaximumIsFollowed(regs: map<Id, Reg>)
    requires MaxOfficial(regs).Some?
    ensures FollowsTheMaximum(regs, MaxOfficial(regs).value + 1)
  {
    MaximumIsAttained(regs);
  }

  /** MAX + 1, printed for any year, lies strictly above every stored number and so differs from all of them. */
  lemma NextNumberIsAbove(regs: map<Id, Reg>, year: Year)
    requires MaxOfficial(regs).Some?
    ensures var number := Format(year, MaxOfficial(regs).value + 1);
      Above(regs, number) && forall id :: !NumberTaken(regs, id, number)
  {
    ReadBack(year, MaxOfficial(regs).value + 1);
  }

  lemma AboveIsFree(regs: map<Id, Reg>, id: Id, number: string)
    requires Above(regs, number)
    ensures !NumberTaken(regs, id, number)
  {
  }

  ghost predicate NumberInv(s: State) {
    && ConfigLockInv(s)
    && WellFormed(s.regs)
    && Unique(s.regs)
    && (forall v :: v in s.verifies && s.verifies[v].pc.Update? && s.verifies[v].pc.number.Some? ==>
          s.verifies[v].decision.Approve? && Above(s.regs, s.verifies[v].pc.number.value))
    && (forall v :: v in s.verifies ==> s.verifies[v].pc != Refused(DuplicateNumber))
  }

  lemma NewRowKeepsUnique(regs: map<Id, Reg>, id: Id, row: Reg)
    requires Unique(regs) && !NumberTaken(regs, id, row.number)
    ensures Unique(regs[id := row])
  {
  }

  predicate InsertedAs(before: map<Id, Reg>, after: map<Id, Reg>, id: Id, row: Reg) {
    after == before[id := row] && id !in before && !IsOfficial(row.number) && !NumberTaken(before, id, row.number)
  }

  /** Rows that are inserted carry no official number and pass the unique constraint. */
  lemma InsertedRow(s: State, e: Event)
    requires e.AdvanceRegister? || e.Submit?
    ensures Apply(s, e).verifies == s.verifies && Apply(s, e).configLock == s.configLock
    ensures var t := Apply(s, e);
      t.regs == s.regs || exists id, row :: InsertedAs(s.regs, t.regs, id, row)
  {
    var t := Apply(s, e);
    if t.regs != s.regs {
      if e.AdvanceRegister? { PendingIsNotOfficial(e.token); }
      assert InsertedAs(s.regs, t.regs, e.newId, t.regs[e.newId]);
    }
  }

  lemma InsertKeepsNumbers(s: State, t: State, id: Id, row: Reg)
    requires NumberInv(s) && t.verifies == s.verifies && t.configLock == s.configLock
    requires t.regs == s.regs[id := row] && id !in s.regs && !IsOfficial(row.number)
      && !NumberTaken(s.regs, id, row.number)
    ensures NumberInv(t)
  {
    NewRowKeepsUnique(s.regs, id, row);
  }

  /** Only the lock holder has a number in hand, and it is the number about to be stored. */
  lemma UpdateKeepsNumbers(s: State, v: nat, year: Year)
    requires NumberInv(s) && v in s.verifies && s.verifies[v].pc.Update?
    ensures NumberInv(StepVerify(s, v, year))
  {
    VerifyKeepsConfigLock(s, v, year);
    UpdateKeepsRows(s, v, year);
    UpdateIsTheOnlyOne(s, v, year);
  }

  lemma UpdateKeepsRows(s: State, v: nat, year: Year)
    requires NumberInv(s) && v in s.verifies && s.verifies[v].pc.Update?
    ensures var t := StepVerify(s, v, year);
      WellFormed(t.regs) && Unique(t.regs) && t.verifies[v].pc != Refused(DuplicateNumber)
  {
    var t := StepVerify(s, v, year);
    var id := s.verifies[v].id;
    var number := s.verifies[v].pc.number;
    if number.Some? { AboveIsFree(s.regs, id, number.value); }
    if id in s.regs {
      assert t.regs == s.regs[id := t.regs[id]];
    }
  }

  /** An update with a number leaves no other number in hand; one without keeps the official numbers. */
  lemma UpdateIsTheOnlyOne(s: State, v: nat, year: Year)
    requires NumberInv(s) && v in s.verifies && s.verifies[v].pc.Update?
    ensures var t := StepVerify(s, v, year);
      forall w :: w in t.verifies && t.verifies[w].pc.Update? && t.verifies[w].pc.number.Some? ==>
        t.verifies[w].decision.Approve? && Above(t.regs, t.verifies[w].pc.number.value)
  {
    var t := StepVerify(s, v, year);
    assert t.verifies == s.verifies[v := t.verifies[v]] && !t.verifies[v].pc.Update?;
    forall w | w in t.verifies && t.verifies[w].pc.Update? && t.verifies[w].pc.number.Some?
      ensures t.verifies[w].decision.Approve? && Above(t.regs, t.verifies[w].pc.number.value)
    {
      assert w != v && t.verifies[w] == s.verifies[w] && s.verifies[w].HoldsLock();
      assert !s.verifies[v].HoldsLock() && s.verifies[v].pc.number == None;
      var id := s.verifies[v].id;
      if id in s.regs {
        assert t.regs == s.regs[id := t.regs[id]] && t.regs[id].number == s.regs[id].number;
      }
    }
  }

  lemma HandoverKeepsNumbers(s: State, t: State, v: nat)
    requires NumberInv(s) && ConfigLockInv(t) && v in s.verifies && v in t.verifies
    requires t.regs == s.regs && t.verifies == s.verifies[v := t.verifies[v]]
    requires t.verifies[v].pc != Refused(DuplicateNumber)
    requires t.verifies[v].pc.Update? && t.verifies[v].pc.number.Some? ==>
      t.verifies[v].decision.Approve? && Above(s.regs, t.verifies[v].pc.number.value)
    ensures NumberInv(t)
  {
    assert forall w :: w in s.verifies && w != v ==> t.verifies[w] == s.verifies[w];
  }

  lemma VerifyKeepsNumbers(s: State, v: nat, year: Year)
    requires NumberInv(s) && v in s.verifies
    ensures NumberInv(StepVerify(s, v, year))
  {
    if s.verifies[v].pc.Update? {
      UpdateKeepsNumbers(s, v, year);
    } else {
      VerifyKeepsConfigLock(s, v, year);
      var t := StepVerify(s, v, year);
      if t != s {
        NumberInHand(s.verifies[v], s.settings, s.regs, year);
        NoClashBeforeUpdate(s.verifies[v], s.settings, s.regs, year);
        HandoverKeepsNumbers(s, t, v);
      }
    }
  }

  /** Before its update a request gains a number only by reading the maximum. */
  lemma NumberInHand(req: Verify, settings: Settings, regs: map<Id, Reg>, year: Year)
    requires OnlyApprovalsCount(req) && !req.pc.Update?
    ensures var next := NextVerify(req, settings, regs, year);
      next.pc.Update? && next.pc.number.Some? ==> next.decision.Approve? && Above(regs, next.pc.number.value)
  {
    if req.pc.ReadMax? && MaxOfficial(regs).Some? {
      NextNumberIsAbove(regs, year);
    }
  }

  /** Nor does it collide before it has a number to store. */
  lemma NoClashBeforeUpdate(req: Verify, settings: Settings, regs: map<Id, Reg>, year: Year)
    requires req.pc != Refused(DuplicateNumber) && !req.pc.Update?
    ensures NextVerify(req, settings, regs, year).pc != Refused(DuplicateNumber)
  {
  }

  lemma StepKeepsNumbers(s: State, e: Event)
    requires NumberInv(s)
    ensures NumberInv(Apply(s, e))
  {
    if e.AdvanceVerify? {
      if e.request in s.verifies { VerifyKeepsNumbers(s, e.request, e.year); }
    } else if e.AdvanceRegister? || e.Submit? {
      InsertedRow(s, e);
      var t := Apply(s, e);
      if t.regs != s.regs {
        var id, row :| InsertedAs(s.regs, t.regs, id, row);
        InsertKeepsNumbers(s, t, id, row);
      }
    } else {
      StepKeepsConfigLock(s, e);
    }
  }

  /**
   In every interleaving of registrations, approvals, rejections and deletions, numbers stay
   well formed and pairwise different, and no approval ever meets a number already in use.
   */
  lemma {:induction false} NumbersAreNeverShared(s0: State, events: seq<Event>)
    requires Idle(s0) && WellFormed(s0.regs) && Unique(s0.regs)
    ensures var s := Run(Apply, s0, events);
      && WellFormed(s.regs) && Unique(s.regs)
      && forall v :: v in s.verifies ==> s.verifies[v].pc != Refused(DuplicateNumber)
  {
    forall s, e | NumberInv(s) ensures NumberInv(Apply(s, e)) { StepKeepsNumbers(s, e); }
    Invariant(Apply, NumberInv, s0, events);
  }

  // ---- A number that is not official stays ----

  /** The request has seen its row without a number and means to give it one. */
  predicate WantsNumber(req: Verify) {
    || (req.pc.LockConfig? && req.pc.needsNumber) || (req.pc.CountVerified? && req.pc.needsNumber)
    || req.pc.ReadMax? || (req.pc.Update? && req.pc.number.Some?)
  }

  predicate Unofficial(number: string) { number != "" && !IsOfficial(number) }

  /** Numbers are meant only for rows without one or with an official one, and a number in hand is official. */
  predicate MeantWell(regs: map<Id, Reg>, req: Verify) {
    && (WantsNumber(req) && req.id in regs ==> !Unofficial(regs[req.id].number))
    && (req.pc.Update? && req.pc.number.Some? ==> IsOfficial(req.pc.number.value))
  }

  /** Generated ids are new: no row is inserted under an id that a decision is about. */
  ghost predicate NewIds(s: State, e: Event) {
    e.AdvanceRegister? || e.Submit? ==> forall v :: v in s.verifies ==> s.verifies[v].id != e.newId
  }

  predicate InsertsUnder(e: Event, id: Id) { (e.AdvanceRegister? || e.Submit?) && e.newId == id }

  ghost predicate OtherInv(s: State) { forall v :: v in s.verifies ==> MeantWell(s.regs, s.verifies[v]) }

  lemma NextIsMeantWell(req: Verify, settings: Settings, regs: map<Id, Reg>, year: Year)
    requires MeantWell(regs, req)
    ensures MeantWell(RowsAfterVerify(req, regs), NextVerify(req, settings, regs, year))
  {
    if req.pc.ReadMax? && MaxOfficial(regs).Some? { NextNumberIsAbove(regs, year); }
  }

  /** A decision gives a row an official number or leaves its number, so no other number appears. */
  lemma UpdateKeepsOthers(req: Verify, regs: map<Id, Reg>, id: Id)
    requires MeantWell(regs, req)
    ensures var after := RowsAfterVerify(req, regs);
      && (id in after <==> id in regs)
      && (id in regs && Unofficial(regs[id].number) ==> after[id].number == regs[id].number)
      && (id in regs && !Unofficial(regs[id].number) ==> !Unofficial(after[id].number))
  {
  }

  lemma VerifyKeepsOthers(s: State, v: nat, year: Year)
    requires OtherInv(s) && v in s.verifies
    ensures OtherInv(StepVerify(s, v, year))
  {
    var t := StepVerify(s, v, year);
    var req := s.verifies[v];
    forall w | w in t.verifies ensures MeantWell(t.regs, t.verifies[w]) {
      assert MeantWell(s.regs, s.verifies[w]) && MeantWell(s.regs, req);
      NextIsMeantWell(req, s.settings, s.regs, year);
      UpdateKeepsOthers(req, s.regs, s.verifies[w].id);
    }
  }

  lemma StepKeepsOthers(s: State, e: Event)
    requires OtherInv(s) && NewIds(s, e)
    ensures OtherInv(Apply(s, e))
  {
    var t := Apply(s, e);
    if e.AdvanceVerify? {
      if e.request in s.verifies { VerifyKeepsOthers(s, e.request, e.year); }
    } else if e.AdvanceRegister? || e.Submit? {
      InsertedRow(s, e);
      InsertedUnder(s, e);
      forall w | w in t.verifies ensures MeantWell(t.regs, t.verifies[w]) { assert MeantWell(s.regs, s.verifies[w]); }
    } else {
      forall w | w in t.verifies ensures MeantWell(t.regs, t.verifies[w]) {
        if w in s.verifies { assert MeantWell(s.regs, s.verifies[w]); }
      }
    }
  }

  lemma InsertedUnder(s: State, e: Event)
    requires e.AdvanceRegister? || e.Submit?
    ensures forall id :: id != e.newId ==> (id in Apply(s, e).regs <==> id in s.regs)
    ensures forall id :: id != e.newId && id in s.regs ==> Apply(s, e).regs[id] == s.regs[id]
  {
  }

  ghost predicate Carries(s: State, id: Id, number: string) { id in s.regs ==> s.regs[id].number == number }

  lemma StepKeepsNumberOf(s: State, e: Event, id: Id, number: string)
    requires OtherInv(s) && !InsertsUnder(e, id) && Unofficial(number) && Carries(s, id, number)
    ensures Carries(Apply(s, e), id, number)
  {
    if e.AdvanceVerify? {
      if e.request in s.verifies {
        assert MeantWell(s.regs, s.verifies[e.request]);
        UpdateKeepsOthers(s.verifies[e.request], s.regs, id);
      }
    } else if e.AdvanceRegister? || e.Submit? {
      InsertedUnder(s, e);
    }
  }

  /**
   A number that is not official, such as the PENDING- one of a public registration, stays with its row in
   every interleaving: no approval, however it overlaps with others, replaces it.
   */
  lemma {:induction false} OtherNumbersStay(s0: State, before: seq<Event>, after: seq<Event>, id: Id)
    requires Idle(s0)
    requires Admitted(Apply, NewIds, s0, before)
    requires Admitted(Apply, (s, e) => NewIds(s, e) && !InsertsUnder(e, id), Run(Apply, s0, before), after)
    requires var s := Run(Apply, s0, before); id in s.regs && Unofficial(s.regs[id].number)
    ensures var s := Run(Apply, s0, before);
      Carries(Run(Apply, s, after), id, s.regs[id].number)
  {
    var s := Run(Apply, s0, before);
    var number := s.regs[id].number;
    forall t, e | OtherInv(t) && NewIds(t, e) ensures OtherInv(Apply(t, e)) { StepKeepsOthers(t, e); }
    InvariantOfAdmitted(Apply, NewIds, OtherInv, s0, before);
    var ok := (t: State, e: Event) => NewIds(t, e) && !InsertsUnder(e, id);
    var inv := (t: State) => OtherInv(t) && Carries(t, id, number);
    forall t, e | inv(t) && ok(t, e) ensures inv(Apply(t, e)) {
      StepKeepsOthers(t, e);
      StepKeepsNumberOf(t, e, id, number);
    }
    InvariantOfAdmitted(Apply, ok, inv, s, after);
  }

  /** A public registration in the main pool gets a PENDING- number, and no approval ever replaces it. */
  lemma {:induction false} PublicNumberStays(
      s0: State, early: seq<Event>, r: nat, newId: Id, token: string, after: seq<Event>)
    requires Idle(s0) && Admitted(Apply, NewIds, s0, early + [AdvanceRegister(r, newId, token)])
    requires var s := Run(Apply, s0, early);
      && r in s.registers && s.registers[r].pc.Insert? && !s.registers[r].pc.waiting
      && !InsertFails(s.registers[r], s.regs, newId, token)
    requires var t := Run(Apply, s0, early + [AdvanceRegister(r, newId, token)]);
      Admitted(Apply, (s, e) => NewIds(s, e) && !InsertsUnder(e, newId), t, after)
    ensures var t := Run(Apply, s0, early + [AdvanceRegister(r, newId, token)]);
      newId in t.regs && Carries(Run(Apply, t, after), newId, "PENDING-" + token)
  {
    RunSnoc(Apply, s0, early, AdvanceRegister(r, newId, token));
    PendingIsNotOfficial(token);
    OtherNumbersStay(s0, early + [AdvanceRegister(r, newId, token)], after, newId);
  }
}
