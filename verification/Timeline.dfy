/** The event timeline: its phases, the current-phase flag and the phase that is active. */
module Timeline {
  import opened Common
  import opened Runs

  datatype RegistrationType = NoRegistration | ParticipantOnly | CandidateOnly | Both
  datatype PhaseStatus = Unset | Active | Past | Upcoming

  datatype Phase = Phase(
    id: Id, startDate: int, endDate: int, order: int, registration: RegistrationType,
    current: bool, published: bool, deleted: bool, status: PhaseStatus)

  datatype Request = Request(
    startDate: int, endDate: int, order: int, registration: RegistrationType, current: bool, published: bool)

  datatype Item = Item(id: Id, order: int)

  type Rows = map<Id, Phase>

  datatype Event =
    | CreatePhase(id: Id, request: Request)
    | UpdatePhase(id: Id, request: Request)
    | DeletePhase(id: Id)
    | ReorderPhases(items: seq<Item>)

  predicate Live(rows: Rows, id: Id) { id in rows && !rows[id].deleted }

  function Requested(id: Id, r: Request): Phase {
    Phase(id, r.startDate, r.endDate, r.order, r.registration, r.current, r.published, false, Unset)
  }

  /** Clears the flag of every live row, but for one. */
  function Unflagged(rows: Rows, kept: Option<Id>): Rows {
    map id | id in rows :: if rows[id].deleted || kept == Some(id) then rows[id] else rows[id].(current := false)
  }

  /** The order the last item for this id asks for. */
  function LastOrder(items: seq<Item>, id: Id): Option<int> {
    if items == [] then None
    else if items[|items| - 1].id == id then Some(items[|items| - 1].order)
    else LastOrder(items[..|items| - 1], id)
  }

  function Reordered(rows: Rows, items: seq<Item>): Rows {
    map id | id in rows ::
      if !rows[id].deleted && LastOrder(items, id).Some? then rows[id].(order := LastOrder(items, id).value)
        else rows[id]
  }

  function Apply(rows: Rows, e: Event): Rows {
    match e
    case CreatePhase(id, r) =>
      if id in rows then rows else (if r.current then Unflagged(rows, None) else rows)[id := Requested(id, r)]
    case UpdatePhase(id, r) =>
      if !Live(rows, id) then rows  // no row returned: the transaction, unflagging included, is rolled back
      else (if r.current then Unflagged(rows, Some(id)) else rows)[id := Requested(id, r)]
    case DeletePhase(id) => if id in rows then rows[id := rows[id].(deleted := true)] else rows
    case ReorderPhases(items) => Reordered(rows, items)
  }

  ghost predicate AtMostOneFlag(rows: Rows) {
    forall a, b :: Live(rows, a) && Live(rows, b) && rows[a].current && rows[b].current ==> a == b
  }

  lemma StepKeepsOneFlag(rows: Rows, e: Event)
    requires AtMostOneFlag(rows)
    ensures AtMostOneFlag(Apply(rows, e))
  {
    var after := Apply(rows, e);
    forall a, b | Live(after, a) && Live(after, b) && after[a].current && after[b].current ensures a == b {
      match e
      case CreatePhase(id, r) => assert a != id ==> Live(rows, a); assert b != id ==> Live(rows, b);
      case UpdatePhase(id, r) => assert a != id ==> Live(rows, a); assert b != id ==> Live(rows, b);
      case DeletePhase(id) => assert Live(rows, a) && Live(rows, b);
      case ReorderPhases(items) => assert Live(rows, a) && Live(rows, b);
    }
  }

  /** Over every sequential run of the timeline operations at most one live phase is flagged current. */
  lemma {:induction false} FlagStaysUnique(rows: Rows, events: seq<Event>)
    requires AtMostOneFlag(rows)
    ensures AtMostOneFlag(Run(Apply, rows, events))
  {
    forall r, e | AtMostOneFlag(r) ensures AtMostOneFlag(Apply(r, e)) { StepKeepsOneFlag(r, e); }
    Invariant(Apply, AtMostOneFlag, rows, events);
  }

  class Store {
    var rows: Rows

    constructor ()
      ensures rows == map[]
    {
      rows := map[];
    }

    method ClearFlags(kept: Option<Id>)
      modifies this
      ensures rows == Unflagged(old(rows), kept)
    {
      rows := map id | id in rows :: if rows[id].deleted || kept == Some(id) then rows[id]
        else rows[id].(current := false);
    }

    method Create(id: Id, request: Request)
      requires id !in rows
      modifies this
      ensures rows == Apply(old(rows), CreatePhase(id, request))
      ensures rows.Keys == old(rows).Keys + {id}
      ensures rows[id] == Phase(id, request.startDate, request.endDate, request.order, request.registration,
        request.current, request.published, false, Unset)
      ensures forall other :: other in old(rows) ==>
        rows[other] == if request.current && !old(rows)[other].deleted then old(rows)[other].(current := false)
          else old(rows)[other]
    {
      if request.current {
        ClearFlags(None);
      }
      rows := rows[id := Phase(id, request.startDate, request.endDate, request.order, request.registration,
        request.current, request.published, false, Unset)];
    }

    method Update(id: Id, request: Request) returns (found: bool)
      modifies this
      ensures rows == Apply(old(rows), UpdatePhase(id, request))
      ensures found <==> id in old(rows) && !old(rows)[id].deleted
      ensures !found ==> rows == old(rows)
      ensures found ==> rows.Keys == old(rows).Keys
      ensures found ==> rows[id] == Phase(id, request.startDate, request.endDate, request.order,
        request.registration, request.current, request.published, false, Unset)
      ensures found ==> forall other :: other in old(rows) && other != id ==>
        rows[other] == if request.current && !old(rows)[other].deleted then old(rows)[other].(current := false)
          else old(rows)[other]
    {
      var before := rows;
      if request.current {
        ClearFlags(Some(id));
      }
      found := id in rows && !rows[id].deleted;
      if !found {
        rows := before;
        return;
      }
      rows := rows[id := Phase(id, request.startDate, request.endDate, request.order, request.registration,
        request.current, request.published, false, Unset)];
    }

    method Delete(id: Id)
      modifies this
      ensures rows == Apply(old(rows), DeletePhase(id))
      ensures rows.Keys == old(rows).Keys
      ensures forall other :: other in rows ==>
        rows[other] == if other == id then old(rows)[other].(deleted := true) else old(rows)[other]
    {
      if id in rows {
        rows := rows[id := rows[id].(deleted := true)];
      }
    }

    /** One UPDATE per item, in order: the last item for an id wins. */
    method Reorder(items: seq<Item>)
      modifies this
      ensures rows == Apply(old(rows), ReorderPhases(items))
      ensures rows.Keys == old(rows).Keys
      ensures forall i :: 0 <= i < |items| && items[i].id in old(rows) && !old(rows)[items[i].id].deleted ==>
        (forall j :: i < j < |items| ==> items[j].id != items[i].id) ==>
          rows[items[i].id] == old(rows)[items[i].id].(order := items[i].order)
      ensures forall id :: id in old(rows) && old(rows)[id].deleted ==> rows[id] == old(rows)[id]
      ensures forall id :: id in old(rows) ==>
        (forall i :: 0 <= i < |items| ==> items[i].id != id) ==> rows[id] == old(rows)[id]
    {
      for i := 0 to |items|
        invariant rows == Reordered(old(rows), items[..i])
      {
        var item := items[i];
        assert items[..i + 1][..i] == items[..i] && items[..i + 1][i] == item;
        if item.id in rows && !rows[item.id].deleted {
          rows := rows[item.id := rows[item.id].(order := item.order)];
        }
      }
      assert items[..|items|] == items;
      LastOrderIs(items);
    }
  }

  lemma {:induction false} LastOrderIs(items: seq<Item>)
    ensures forall i :: 0 <= i < |items| && (forall j :: i < j < |items| ==> items[j].id != items[i].id) ==>
      LastOrder(items, items[i].id) == Some(items[i].order)
    ensures forall id :: LastOrder(items, id).Some? ==> exists i :: 0 <= i < |items| && items[i].id == id
  {
    if items != [] {
      var last := |items| - 1;
      LastOrderIs(items[..last]);
      forall i | 0 <= i < |items| && forall j :: i < j < |items| ==> items[j].id != items[i].id
        ensures LastOrder(items, items[i].id) == Some(items[i].order)
      {
        if i < last { assert items[i] == items[..last][i] && items[last].id != items[i].id; }
      }
    }
  }

  // ---- The active phase of a list ----

  predicate Contains(p: Phase, now: int) { p.startDate <= now <= p.endDate }

  /** The first flagged phase, else the first that contains now. */
  predicate IsActiveIndex(phases: seq<Phase>, now: int, i: int) {
    && 0 <= i < |phases|
    && (if exists j :: 0 <= j < |phases| && phases[j].current
        then phases[i].current && forall j :: 0 <= j < i ==> !phases[j].current
        else Contains(phases[i], now) && forall j :: 0 <= j < i ==> !Contains(phases[j], now))
  }

  predicate HasActive(phases: seq<Phase>, now: int) {
    exists i :: 0 <= i < |phases| && (phases[i].current || Contains(phases[i], now))
  }

  ghost predicate DistinctIds(phases: seq<Phase>) {
    forall i, j :: 0 <= i < j < |phases| ==> phases[i].id != phases[j].id
  }

  /** The id of the first flagged phase, else of the first that contains now. */
  method FindActive(phases: array<Phase>, now: int) returns (active: Option<Id>, ghost at: int)
    ensures active == None <==> !HasActive(phases[..], now)
    ensures active.Some? ==> IsActiveIndex(phases[..], now, at) && phases[at].id == active.value
  {
    active, at := None, 0;
    var i := 0;
    while i < phases.Length && active == None
      invariant 0 <= i <= phases.Length
      invariant active == None ==> forall j :: 0 <= j < i ==> !phases[j].current
      invariant active.Some? ==> IsActiveIndex(phases[..], now, at) && phases[at].id == active.value
    {
      if phases[i].current {
        active, at := Some(phases[i].id), i;
        assert phases[..][at].current;
      }
      i := i + 1;
    }
    if active == None {
      i := 0;
      while i < phases.Length && active == None
        invariant 0 <= i <= phases.Length
        invariant active == None ==> forall j :: 0 <= j < i ==> !Contains(phases[j], now)
        invariant active.Some? ==> IsActiveIndex(phases[..], now, at) && phases[at].id == active.value
      {
        if Contains(phases[i], now) {
          active, at := Some(phases[i].id), i;
        }
        i := i + 1;
      }
    }
  }

  function StatusFor(p: Phase, active: Option<Id>, now: int): PhaseStatus {
    if active == Some(p.id) then Active else if now > p.endDate then Past else Upcoming
  }

  method WriteStatuses(phases: array<Phase>, active: Option<Id>, now: int)
    modifies phases
    ensures forall j :: 0 <= j < phases.Length ==>
      phases[j] == old(phases[j]).(status := StatusFor(old(phases[j]), active, now))
  {
    var i := 0;
    while i < phases.Length
      invariant 0 <= i <= phases.Length
      invariant forall j :: i <= j < phases.Length ==> phases[j] == old(phases[j])
      invariant forall j :: 0 <= j < i ==>
        phases[j] == old(phases[j]).(status := StatusFor(old(phases[j]), active, now))
    {
      if active == Some(phases[i].id) {
        phases[i] := phases[i].(status := Active);
      } else if now > phases[i].endDate {
        phases[i] := phases[i].(status := Past);
      } else {
        phases[i] := phases[i].(status := Upcoming);
      }
      i := i + 1;
    }
  }

  /** With distinct ids the active index is the one whose id was found. */
  lemma FoundIsActive(phases: seq<Phase>, now: int, active: Option<Id>, at: int, j: int)
    requires DistinctIds(phases) && 0 <= j < |phases|
    requires active == None <==> !HasActive(phases, now)
    requires active.Some? ==> IsActiveIndex(phases, now, at) && phases[at].id == active.value
    ensures active == Some(phases[j].id) <==> IsActiveIndex(phases, now, j)
  {
  }

  /** Writes every status; at most one phase is active, and it is the flagged or else the first one running. */
  method CalculatePhasesStatus(phases: array<Phase>, now: int)
    requires DistinctIds(phases[..])
    modifies phases
    ensures forall i :: 0 <= i < phases.Length ==> phases[i] == old(phases[i]).(status := phases[i].status)
    ensures forall i :: 0 <= i < phases.Length ==>
      (phases[i].status == Active <==> IsActiveIndex(old(phases[..]), now, i))
    ensures forall i :: 0 <= i < phases.Length && phases[i].status != Active ==>
      phases[i].status == if now > phases[i].endDate then Past else Upcoming
    ensures HasActive(old(phases[..]), now) <==> exists i :: 0 <= i < phases.Length && phases[i].status == Active
    ensures forall i :: 0 <= i < phases.Length && phases[i].status == Active ==>
      phases[i].current || (phases[i].startDate <= now <= phases[i].endDate
        && forall j :: 0 <= j < phases.Length ==> !phases[j].current)
    ensures forall i, j :: 0 <= j < i < phases.Length && phases[i].status == Active ==>
      !phases[j].current && (phases[i].current || now < phases[j].startDate || phases[j].endDate < now)
    ensures (forall i :: 0 <= i < phases.Length ==> phases[i].status != Active) ==>
      forall i :: 0 <= i < phases.Length ==>
        !phases[i].current && (now < phases[i].startDate || phases[i].endDate < now)
  {
    ghost var before := phases[..];
    var active;
    ghost var at;
    active, at := FindActive(phases, now);
    WriteStatuses(phases, active, now);
    forall i | 0 <= i < phases.Length ensures phases[i].status == Active <==> IsActiveIndex(before, now, i) {
      FoundIsActive(before, now, active, at, i);
      assert phases[i] == before[i].(status := StatusFor(before[i], active, now));
    }
    assert active.Some? ==> phases[at].status == Active;
  }

  // ---- The same phase, asked for in SQL ----

  /** The published rows in display order; rows of equal order and start come in any order. */
  ghost predicate IsPublicListing(rows: Rows, phases: seq<Phase>) {
    && DistinctIds(phases)
    && (forall i :: 0 <= i < |phases| ==>
      Live(rows, phases[i].id) && rows[phases[i].id] == phases[i] && phases[i].published)
    && (forall id :: Live(rows, id) && rows[id].published ==> rows[id] in phases)
    && (forall i, j :: 0 <= i < j < |phases| ==>
          phases[i].order < phases[j].order
            || (phases[i].order == phases[j].order && phases[i].startDate <= phases[j].startDate))
  }

  predicate Flagged(rows: Rows, id: Id) { Live(rows, id) && rows[id].published && rows[id].current }

  predicate Running(rows: Rows, now: int, id: Id) { Live(rows, id) && rows[id].published && Contains(rows[id], now) }

  predicate FirstRunning(rows: Rows, now: int, id: Id) {
    Running(rows, now, id)
      && forall other | other in rows :: Running(rows, now, other) ==> rows[id].order <= rows[other].order
  }

  /** The row a query with LIMIT 1 may return: any flagged one, else any running one of least order. */
  ghost predicate MayResolve(rows: Rows, now: int, pick: Option<Id>) {
    if exists id :: Flagged(rows, id) then pick.Some? && Flagged(rows, pick.value)
    else if exists id :: Running(rows, now, id) then pick.Some? && FirstRunning(rows, now, pick.value)
    else pick == None
  }

  /** The data leave the two queries no choice. */
  ghost predicate Determined(rows: Rows, now: int) {
    && (forall a, b :: Flagged(rows, a) && Flagged(rows, b) ==> a == b)
    && ((forall id :: !Flagged(rows, id)) ==> forall a, b ::
      FirstRunning(rows, now, a) && FirstRunning(rows, now, b) ==> a == b)
  }

  ghost predicate PageShows(phases: seq<Phase>, now: int, pick: Option<Id>) {
    if pick.Some? then exists i :: IsActiveIndex(phases, now, i) && phases[i].id == pick.value
    else !HasActive(phases, now)
  }

  lemma FlagIsListed(rows: Rows, phases: seq<Phase>)
    requires IsPublicListing(rows, phases)
    ensures (exists id :: Flagged(rows, id)) <==> exists j :: 0 <= j < |phases| && phases[j].current
  {
    if j :| 0 <= j < |phases| && phases[j].current {
      assert Flagged(rows, phases[j].id);
    }
    if id :| Flagged(rows, id) {
      var k :| 0 <= k < |phases| && phases[k] == rows[id];
    }
  }

  lemma PageShowsAnAllowedPick(rows: Rows, now: int, phases: seq<Phase>, i: int)
    requires IsPublicListing(rows, phases) && IsActiveIndex(phases, now, i)
    ensures MayResolve(rows, now, Some(phases[i].id))
  {
    var id := phases[i].id;
    if exists j :: 0 <= j < |phases| && phases[j].current {
      assert Flagged(rows, id);
    } else {
      assert Running(rows, now, id);
      forall other | other in rows && Running(rows, now, other) ensures rows[id].order <= rows[other].order {
        var k :| 0 <= k < |phases| && phases[k] == rows[other];
        assert i <= k;
      }
      FlagIsListed(rows, phases);
    }
  }

  lemma HasActiveIffResolves(rows: Rows, now: int, phases: seq<Phase>)
    requires IsPublicListing(rows, phases)
    ensures HasActive(phases, now) <==> exists id :: Flagged(rows, id) || Running(rows, now, id)
    ensures HasActive(phases, now) ==> exists i :: IsActiveIndex(phases, now, i)
  {
    if HasActive(phases, now) {
      var i :| 0 <= i < |phases| && (phases[i].current || Contains(phases[i], now));
      assert Flagged(rows, phases[i].id) || Running(rows, now, phases[i].id);
      FirstIndexExists(phases, now);
    }
    if exists id :: Flagged(rows, id) || Running(rows, now, id) {
      var id :| Flagged(rows, id) || Running(rows, now, id);
      var k :| 0 <= k < |phases| && phases[k] == rows[id];
    }
  }

  lemma FirstIndexExists(phases: seq<Phase>, now: int)
    requires HasActive(phases, now)
    ensures exists i :: IsActiveIndex(phases, now, i)
  {
    var flagged := exists j :: 0 <= j < |phases| && phases[j].current;
    var i := 0;
    while !(if flagged then phases[i].current else Contains(phases[i], now))
      invariant i < |phases|
      invariant forall j :: 0 <= j < i ==> !(if flagged then phases[j].current else Contains(phases[j], now))
      invariant exists j :: i <= j < |phases| && (if flagged then phases[j].current else Contains(phases[j], now))
      decreases |phases| - i
    {
      i := i + 1;
    }
    assert IsActiveIndex(phases, now, i);
  }

  /**
   The page and the resolver name the same phase, whatever row a tie lets the database
   return, exactly when the data leave it no choice; distinct display orders and a single
   flag are enough.
   */
  lemma PageMatchesResolver(rows: Rows, now: int, phases: seq<Phase>)
    requires IsPublicListing(rows, phases)
    ensures (forall pick :: MayResolve(rows, now, pick) ==> PageShows(phases, now, pick)) <==> Determined(rows, now)
  {
    HasActiveIffResolves(rows, now, phases);
    if Determined(rows, now) {
      forall pick | MayResolve(rows, now, pick) ensures PageShows(phases, now, pick) {
        if pick.Some? {
          var i :| IsActiveIndex(phases, now, i);
          PageShowsAnAllowedPick(rows, now, phases, i);
        }
      }
    } else {
      var i :| IsActiveIndex(phases, now, i);
      PageShowsAnAllowedPick(rows, now, phases, i);
      AnotherPick(rows, now, phases[i].id);
      var pick :| MayResolve(rows, now, Some(pick)) && pick != phases[i].id;
      assert !PageShows(phases, now, Some(pick)) by {
        forall j | IsActiveIndex(phases, now, j) ensures j == i { }
      }
    }
  }

  lemma AnotherPick(rows: Rows, now: int, id: Id)
    requires !Determined(rows, now) && MayResolve(rows, now, Some(id))
    ensures exists pick :: MayResolve(rows, now, Some(pick)) && pick != id
  {
    if exists a, b :: Flagged(rows, a) && Flagged(rows, b) && a != b {
      var a, b :| Flagged(rows, a) && Flagged(rows, b) && a != b;
      assert MayResolve(rows, now, Some(a)) && MayResolve(rows, now, Some(b));
    } else {
      var a, b :| FirstRunning(rows, now, a) && FirstRunning(rows, now, b) && a != b;
      assert Running(rows, now, a);
      assert MayResolve(rows, now, Some(a)) && MayResolve(rows, now, Some(b));
    }
  }

  /** Distinct display orders and at most one flag determine the phase. */
  lemma DistinctOrdersDetermine(rows: Rows, now: int)
    requires AtMostOneFlag(rows)
    requires forall a, b :: Live(rows, a) && Live(rows, b) && a != b ==> rows[a].order != rows[b].order
    ensures Determined(rows, now)
  {
    forall a, b | FirstRunning(rows, now, a) && FirstRunning(rows, now, b) ensures a == b {
      assert rows[a].order <= rows[b].order <= rows[a].order;
    }
  }
}
