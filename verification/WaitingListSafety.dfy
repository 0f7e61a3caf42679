/** The waiting list under concurrent public registration. */
module WaitingListSafety {
  import opened Common
  import opened Runs
  import opened Capacity
  import opened CapacitySafety

  ghost predicate AdvisoryInv(s: State) {
    && (forall r :: r in s.registers ==> (s.registers[r].pc.HoldsLock() <==> s.advisory == Some(r)))
    && (s.advisory.Some? ==> s.advisory.value in s.registers)
  }

  /** A request that has read the settings, or needs them to decide. */
  predicate UsesSettings(pc: RegisterPc) {
    pc.TakeLock? || pc.CountMain? || pc.CountWaiting?
  }

  /** The capacity a request has read is positive and no more than the present one. */
  predicate ReadCapacity(s: State, req: Register) {
    UsesSettings(req.pc) ==> 0 < req.settings.waitingCapacity <= s.settings.waitingCapacity
  }

  ghost predicate WaitInv(s: State) {
    && s.settings.waitingCapacity > 0
    && AdvisoryInv(s)
    && (forall r :: r in s.registers ==> ReadCapacity(s, s.registers[r]))
    && (forall r :: r in s.registers && s.registers[r].pc.Insert? && s.registers[r].pc.waiting ==>
      s.registers[r].pc.locked)
    && Count(s.regs, WaitingList) <= s.settings.waitingCapacity
    && (s.advisory.Some? && s.registers[s.advisory.value].pc == Insert(true, true) ==>
          Count(s.regs, WaitingList) < s.settings.waitingCapacity)
  }

  lemma HandoverKeepsWaiting(s: State, t: State, r: nat)
    requires WaitInv(s) && r in s.registers && r in t.registers && t.settings == s.settings
    requires t.registers == s.registers[r := t.registers[r]]
    requires t.registers[r].pc.HoldsLock() <==> t.advisory == Some(r)
    requires t.advisory == s.advisory || (s.advisory == None && t.advisory == Some(r))
      || (s.advisory == Some(r) && t.advisory == None)
    requires ReadCapacity(s, t.registers[r])
    requires t.registers[r].pc.Insert? && t.registers[r].pc.waiting ==>
      t.registers[r].pc.locked && Count(t.regs, WaitingList) < s.settings.waitingCapacity
    requires Count(t.regs, WaitingList) <= Count(s.regs, WaitingList)
      || (s.advisory == Some(r) && s.registers[r].pc == Insert(true, true)
        && Count(t.regs, WaitingList) <= Count(s.regs, WaitingList) + 1)
    ensures WaitInv(t)
  {
    assert forall q :: q in s.registers && q != r ==> t.registers[q] == s.registers[q];
  }

  lemma InsertCounts(s: State, r: nat, newId: Id, token: string)
    requires r in s.registers && s.registers[r].pc.Insert?
    ensures Count(StepRegister(s, r, newId, token).regs, WaitingList)
      <= Count(s.regs, WaitingList) + (if s.registers[r].pc.waiting then 1 else 0)
  {
    var t := StepRegister(s, r, newId, token);
    if t.regs != s.regs {
      assert t.regs == s.regs[newId := t.regs[newId]];
      CountSet(s.regs, newId, t.regs[newId], WaitingList);
    }
  }

  lemma InsertKeepsWaiting(s: State, r: nat, newId: Id, token: string)
    requires WaitInv(s) && r in s.registers && s.registers[r].pc.Insert?
    ensures WaitInv(StepRegister(s, r, newId, token))
  {
    assert s.registers[r].pc.HoldsLock() <==> s.advisory == Some(r);
    InsertCounts(s, r, newId, token);
    HandoverKeepsWaiting(s, StepRegister(s, r, newId, token), r);
  }

  lemma RegisterKeepsWaiting(s: State, r: nat, newId: Id, token: string)
    requires WaitInv(s) && r in s.registers
    ensures WaitInv(StepRegister(s, r, newId, token))
  {
    if s.registers[r].pc.Insert? {
      InsertKeepsWaiting(s, r, newId, token);
    } else {
      var t := StepRegister(s, r, newId, token);
      assert s.registers[r].pc.HoldsLock() <==> s.advisory == Some(r);
      if t != s {
        HandoverKeepsWaiting(s, t, r);
      }
    }
  }

  lemma OthersDoNotWaitlist(s: State, e: Event)
    requires !e.AdvanceRegister?
    ensures Count(Apply(s, e).regs, WaitingList) <= Count(s.regs, WaitingList)
  {
    var t := Apply(s, e);
    match e
    case AdvanceVerify(v, year) =>
      if t.regs != s.regs {
        var id := s.verifies[v].id;
        assert t.regs == s.regs[id := t.regs[id]];
        CountSet(s.regs, id, t.regs[id], WaitingList);
      }
    case Submit(newId, _) => if newId !in s.regs { CountSet(s.regs, newId, t.regs[newId], WaitingList); }
    case Delete(id) => CountDelete(s.regs, id, WaitingList);
    case _ =>
  }

  /** Limit and mode may change, the capacity is not lowered. */
  ghost predicate CapacityNotLowered(s: State, e: Event) {
    e.Configure? ==> e.settings.waitingCapacity >= s.settings.waitingCapacity
  }

  lemma StepKeepsWaiting(s: State, e: Event)
    requires WaitInv(s) && CapacityNotLowered(s, e)
    ensures WaitInv(Apply(s, e))
  {
    if e.AdvanceRegister? {
      if e.request in s.registers { RegisterKeepsWaiting(s, e.request, e.newId, e.token); }
    } else {
      OthersDoNotWaitlist(s, e);
      if !e.BeginRegister? {
        assert Apply(s, e).registers == s.registers && Apply(s, e).advisory == s.advisory;
        forall r | r in s.registers
          ensures ReadCapacity(Apply(s, e), s.registers[r])
        {
          assert ReadCapacity(s, s.registers[r]);
        }
      }
    }
  }

  /**
   With a positive capacity that is never lowered, concurrent registrations never overfill the
   waiting list, whatever happens to limit and mode and whichever settings a request has read.
   */
  lemma {:induction false} WaitingListIsNeverOverfull(s0: State, events: seq<Event>)
    requires Idle(s0) && s0.settings.waitingCapacity > 0
    requires Count(s0.regs, WaitingList) <= s0.settings.waitingCapacity
    requires Admitted(Apply, CapacityNotLowered, s0, events)
    ensures var s := Run(Apply, s0, events); Count(s.regs, WaitingList) <= s.settings.waitingCapacity
  {
    forall s, e | WaitInv(s) && CapacityNotLowered(s, e) ensures WaitInv(Apply(s, e)) { StepKeepsWaiting(s, e); }
    InvariantOfAdmitted(Apply, CapacityNotLowered, WaitInv, s0, events);
  }

  // ---- Waitlisted only when the main pool was full ----

  /** The request has found the main pool full and will be, or has been, waitlisted. */
  predicate FoundFull(s: State, r: nat) {
    && r in s.registers
    && (var pc := s.registers[r].pc;
        pc.CountWaiting? || (pc.Insert? && pc.waiting) || pc == Release(Waitlisted) || pc == Finished(Waitlisted))
  }

  lemma FullIsFoundByCounting(s: State, e: Event, r: nat)
    requires FoundFull(Apply(s, e), r) && !FoundFull(s, r)
    ensures e.AdvanceRegister? && e.request == r && r in s.registers && s.registers[r].pc.CountMain?
    ensures Count(s.regs, Approved) >= s.registers[r].settings.limit
  {
  }

  /**
   Whoever ends on the waiting list had, while holding the advisory lock, counted at
   least as many approved registrations as the limit it read.
   */
  lemma {:induction false} WaitlistedOnlyWhenFull(s0: State, events: seq<Event>, r: nat)
    requires Idle(s0)
    requires FoundFull(Run(Apply, s0, events), r)
    ensures exists k :: 0 <= k < |events| && WasFull(Run(Apply, s0, events[..k]), r)
  {
    if events != [] {
      var last := |events| - 1;
      var early := events[..last];
      assert events == early + [events[last]];
      RunSnoc(Apply, s0, early, events[last]);
      if FoundFull(Run(Apply, s0, early), r) {
        WaitlistedOnlyWhenFull(s0, early, r);
        var k :| 0 <= k < last && WasFull(Run(Apply, s0, early[..k]), r);
        assert events[..k] == early[..k];
      } else {
        FullIsFoundByCounting(Run(Apply, s0, early), events[last], r);
        RunKeepsAdvisory(s0, early);
        assert events[..last] == early;
      }
    }
  }

  ghost predicate WasFull(s: State, r: nat) {
    r in s.registers && s.advisory == Some(r) && Count(s.regs, Approved) >= s.registers[r].settings.limit
  }

  lemma HandoverKeepsAdvisory(s: State, t: State, r: nat)
    requires AdvisoryInv(s) && r in s.registers && r in t.registers
    requires t.registers == s.registers[r := t.registers[r]]
    requires t.registers[r].pc.HoldsLock() <==> t.advisory == Some(r)
    requires t.advisory == s.advisory || (s.advisory == None && t.advisory == Some(r))
      || (s.advisory == Some(r) && t.advisory == None)
    ensures AdvisoryInv(t)
  {
    assert forall q :: q in s.registers && q != r ==> t.registers[q] == s.registers[q];
  }

  lemma RegisterKeepsAdvisory(s: State, r: nat, newId: Id, token: string)
    requires AdvisoryInv(s) && r in s.registers
    ensures AdvisoryInv(StepRegister(s, r, newId, token))
  {
    var t := StepRegister(s, r, newId, token);
    assert s.registers[r].pc.HoldsLock() <==> s.advisory == Some(r);
    if t != s { HandoverKeepsAdvisory(s, t, r); }
  }

  lemma StepKeepsAdvisory(s: State, e: Event)
    requires AdvisoryInv(s)
    ensures AdvisoryInv(Apply(s, e))
  {
    if e.AdvanceRegister? && e.request in s.registers {
      RegisterKeepsAdvisory(s, e.request, e.newId, e.token);
    } else if !e.BeginRegister? {
      assert Apply(s, e).registers == s.registers && Apply(s, e).advisory == s.advisory;
    }
  }

  lemma {:induction false} RunKeepsAdvisory(s0: State, events: seq<Event>)
    requires AdvisoryInv(s0)
    ensures AdvisoryInv(Run(Apply, s0, events))
  {
    forall s, e | AdvisoryInv(s) ensures AdvisoryInv(Apply(s, e)) { StepKeepsAdvisory(s, e); }
    Invariant(Apply, AdvisoryInv, s0, events);
  }
}
