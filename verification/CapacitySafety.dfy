/** Quota, waiting list and number allocation over every interleaving. */
module CapacitySafety {
  import opened Common
  import opened Runs
  import opened RegistrationNumber
  import opened Capacity

  lemma CountSet(regs: map<Id, Reg>, id: Id, row: Reg, status: RegStatus)
    ensures Count(regs[id := row], status) == Count(regs, status)
      - (if id in regs && regs[id].status == status then 1 else 0)
      + (if row.status == status then 1 else 0)
  {
    var others := WithStatus(regs, status) - {id};
    WithStatusSet(regs, id, row, status);
    assert id in WithStatus(regs, status) <==> id in regs && regs[id].status == status;
  }

  lemma WithStatusSet(regs: map<Id, Reg>, id: Id, row: Reg, status: RegStatus)
    ensures WithStatus(regs[id := row], status)
      == WithStatus(regs, status) - {id} + if row.status == status then {id} else {}
  {
  }

  lemma CountDelete(regs: map<Id, Reg>, id: Id, status: RegStatus)
    ensures Count(regs - {id}, status) <= Count(regs, status)
  {
    assert WithStatus(regs - {id}, status) == WithStatus(regs, status) - {id};
  }

  // ---- The configuration lock and the quota ----

  /** The lock belongs exactly to the approval that is between taking and ending its transaction. */
  ghost predicate ConfigLockInv(s: State) {
    && (forall v :: v in s.verifies ==> (s.verifies[v].HoldsLock() <==> s.configLock == Some(v)))
    && (forall v :: v in s.verifies ==> OnlyApprovalsCount(s.verifies[v]))
    && (s.configLock.Some? ==> s.configLock.value in s.verifies)
  }

  lemma StepKeepsConfigLock(s: State, e: Event)
    requires ConfigLockInv(s)
    ensures ConfigLockInv(Apply(s, e))
  {
    if e.AdvanceVerify? && e.request in s.verifies {
      VerifyKeepsConfigLock(s, e.request, e.year);
    } else if !e.BeginVerify? {
      var t := Apply(s, e);
      assert t.verifies == s.verifies && t.configLock == s.configLock;
    }
  }

  lemma HandoverKeepsConfigLock(s: State, t: State, v: nat)
    requires ConfigLockInv(s) && v in s.verifies && v in t.verifies
    requires t.verifies == s.verifies[v := t.verifies[v]]
    requires t.verifies[v].HoldsLock() <==> t.configLock == Some(v)
    requires t.configLock == s.configLock || (s.configLock == None && t.configLock == Some(v))
      || (s.configLock == Some(v) && t.configLock == None)
    requires OnlyApprovalsCount(t.verifies[v])
    ensures ConfigLockInv(t)
  {
    assert forall w :: w in s.verifies && w != v ==> t.verifies[w] == s.verifies[w];
  }

  lemma NextVerifyCounts(req: Verify, settings: Settings, regs: map<Id, Reg>, year: Year)
    requires OnlyApprovalsCount(req)
    ensures OnlyApprovalsCount(NextVerify(req, settings, regs, year))
    ensures NextVerify(req, settings, regs, year).HoldsLock() && !req.HoldsLock() ==> req.pc.LockConfig?
  {
  }

  lemma VerifyKeepsConfigLock(s: State, v: nat, year: Year)
    requires ConfigLockInv(s) && v in s.verifies
    ensures ConfigLockInv(StepVerify(s, v, year))
  {
    var t := StepVerify(s, v, year);
    assert s.verifies[v].HoldsLock() <==> s.configLock == Some(v);
    if t.verifies != s.verifies {
      NextVerifyCounts(s.verifies[v], s.settings, s.regs, year);
      HandoverKeepsConfigLock(s, t, v);
    }
  }

  /** In every run at most one approval is inside its locked statements. */
  lemma {:induction false} ConfigLockIsExclusive(s0: State, events: seq<Event>, v: nat, w: nat)
    requires Idle(s0)
    requires var s := Run(Apply, s0, events);
      v in s.verifies && w in s.verifies && s.verifies[v].HoldsLock() && s.verifies[w].HoldsLock()
    ensures v == w
  {
    forall s, e | ConfigLockInv(s) ensures ConfigLockInv(Apply(s, e)) { StepKeepsConfigLock(s, e); }
    Invariant(Apply, ConfigLockInv, s0, events);
  }

  lemma PendingIsNotOfficial(token: string)
    ensures !IsOfficial("PENDING-" + token)
  {
    assert ("PENDING-" + token)[0] == 'P' && PREFIX[0] == 'M';
  }

  /** What an event can do to the registrations. */
  lemma RowsChange(s: State, e: Event)
    ensures var t := Apply(s, e);
      || t.regs == s.regs
      || (exists id, row :: id !in s.regs && t.regs == s.regs[id := row] && !IsOfficial(row.number)
            && (row.status == Pending || (row.status == WaitingList && e.AdvanceRegister?)))
      || (exists id :: t.regs == s.regs - {id})
      || (e.AdvanceVerify? && e.request in s.verifies && s.verifies[e.request].pc.Update?)
  {
    var t := Apply(s, e);
    match e
    case AdvanceRegister(r, newId, token) =>
      if t.regs != s.regs {
        PendingIsNotOfficial(token);
        assert t.regs == s.regs[newId := t.regs[newId]];
      }
    case Submit(newId, email) =>
      if t.regs != s.regs {
        assert t.regs == s.regs[newId := Reg(email, Pending, "")];
      }
    case Delete(id) =>
    case _ =>
  }

  lemma ApprovedOnlyGrowsByUpdate(s: State, e: Event)
    requires !(e.AdvanceVerify? && e.request in s.verifies && s.verifies[e.request].pc.Update?)
    ensures Count(Apply(s, e).regs, Approved) <= Count(s.regs, Approved)
  {
    RowsChange(s, e);
    var t := Apply(s, e);
    if t.regs != s.regs {
      if id, row :| id !in s.regs && t.regs == s.regs[id := row] && !row.status.Approved? {
        CountSet(s.regs, id, row, Approved);
      } else {
        var id :| t.regs == s.regs - {id};
        CountDelete(s.regs, id, Approved);
      }
    }
  }

  lemma UpdateCounts(s: State, v: nat, year: Year)
    requires v in s.verifies && s.verifies[v].pc.Update?
    ensures Count(StepVerify(s, v, year).regs, Approved)
      <= Count(s.regs, Approved) + (if s.verifies[v].decision.Approve? then 1 else 0)
  {
    var t := StepVerify(s, v, year);
    var id := s.verifies[v].id;
    if t.regs != s.regs {
      CountSet(s.regs, id, t.regs[id], Approved);
      assert t.regs == s.regs[id := t.regs[id]];
    }
  }

  // ---- The quota ----

  /** The approval that holds the lock works with the limit in force, and has room when it counted. */
  ghost predicate RoomInv(s: State) {
    && ConfigLockInv(s)
    && (s.configLock.Some? ==>
          var holder := s.verifies[s.configLock.value];
          && holder.limit == s.settings.limit
          && (holder.CountedBelow() && s.settings.limit > 0 ==> Count(s.regs, Approved) < s.settings.limit))
  }

  predicate WithinQuota(s: State) { s.settings.limit > 0 ==> Count(s.regs, Approved) <= s.settings.limit }

  /** A new limit never undercuts what is already approved; 0 or less is no limit. */
  ghost predicate NoUndercut(s: State, e: Event) {
    e.Configure? && e.settings.limit > 0 ==> Count(s.regs, Approved) <= e.settings.limit
  }

  lemma VerifyKeepsRoom(s: State, v: nat, year: Year)
    requires RoomInv(s) && v in s.verifies
    ensures RoomInv(StepVerify(s, v, year))
    ensures var t := StepVerify(s, v, year);
      t.settings == s.settings && (Count(t.regs, Approved) > Count(s.regs, Approved) ==> WithinQuota(t))
  {
    VerifyKeepsConfigLock(s, v, year);
    if s.verifies[v].pc.Update? {
      UpdateCounts(s, v, year);
    }
  }

  lemma StepKeepsRoom(s: State, e: Event)
    requires RoomInv(s)
    ensures RoomInv(Apply(s, e))
    ensures var t := Apply(s, e);
      Count(t.regs, Approved) > Count(s.regs, Approved) ==> t.settings == s.settings && WithinQuota(t)
  {
    if e.AdvanceVerify? && e.request in s.verifies {
      VerifyKeepsRoom(s, e.request, e.year);
    } else {
      StepKeepsConfigLock(s, e);
      ApprovedOnlyGrowsByUpdate(s, e);
    }
  }

  lemma StepKeepsQuota(s: State, e: Event)
    requires RoomInv(s) && WithinQuota(s) && NoUndercut(s, e)
    ensures RoomInv(Apply(s, e)) && WithinQuota(Apply(s, e))
  {
    StepKeepsRoom(s, e);
    if !e.Configure? { SettingsStay(s, e); }
  }

  lemma SettingsStay(s: State, e: Event)
    requires !e.Configure?
    ensures Apply(s, e).settings == s.settings
  {
  }

  ghost predicate Idle(s: State) {
    s.registers == map[] && s.verifies == map[] && s.advisory == None && s.configLock == None
  }

  /**
   Whatever limits are set, no event that adds an approved registration takes their number above the limit in
   force, however approvals, registrations and deletions interleave, although the status is read before the lock.
   */
  lemma {:induction false} NoApprovalPassesTheLimit(s0: State, events: seq<Event>, e: Event)
    requires Idle(s0)
    ensures var s, t := Run(Apply, s0, events), Apply(Run(Apply, s0, events), e);
      Count(t.regs, Approved) > Count(s.regs, Approved) && s.settings.limit > 0 ==>
        Count(t.regs, Approved) <= s.settings.limit == t.settings.limit
  {
    forall s, e | RoomInv(s) ensures RoomInv(Apply(s, e)) { StepKeepsRoom(s, e); }
    Invariant(Apply, RoomInv, s0, events);
    StepKeepsRoom(Run(Apply, s0, events), e);
  }

  /** The approved registrations never exceed the limit, unless a limit is set that is exceeded already. */
  lemma {:induction false} QuotaIsNeverExceeded(s0: State, events: seq<Event>)
    requires Idle(s0) && WithinQuota(s0)
    requires Admitted(Apply, NoUndercut, s0, events)
    ensures WithinQuota(Run(Apply, s0, events))
  {
    var inv := (s: State) => RoomInv(s) && WithinQuota(s);
    forall s, e | inv(s) && NoUndercut(s, e) ensures inv(Apply(s, e)) { StepKeepsQuota(s, e); }
    InvariantOfAdmitted(Apply, NoUndercut, inv, s0, events);
  }
}
