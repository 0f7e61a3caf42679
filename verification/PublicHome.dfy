/** The public page's decision "registration is open" against the registration endpoint's. */
module PublicHome {
  import opened Common
  import opened Timeline
  import Capacity
  import RegistrationStore
  import Text

  /** The two buttons of the hero section. */
  datatype Hero = Hero(primaryEnabled: bool, secondaryEnabled: bool)

  datatype Page = Page(
    active: Option<Phase>, next: Option<Phase>,
    candidateOpen: bool, participantOpen: bool, candidatePrimary: bool, participantPrimary: bool)

  predicate TakesParticipants(r: RegistrationType) { r.ParticipantOnly? || r.Both? }
  predicate TakesCandidates(r: RegistrationType) { r.CandidateOnly? || r.Both? }

  /** The page upper-cases the stored mode but does not trim it. */
  function PageMode(settings: Capacity.Settings): string { Text.Upper(Capacity.StoredMode(settings)) }

  predicate PageHasRoom(settings: Capacity.Settings, approved: nat, waiting: nat) {
    settings.limit > 0 && approved >= settings.limit ==>
      && PageMode(settings) != "CLOSE"
      && (PageMode(settings) == "WAITING_LIST" ==> settings.waitingCapacity <= 0 || waiting < settings.waitingCapacity)
  }

  predicate EndpointHasRoom(settings: Capacity.Settings, approved: nat, waiting: nat) {
    || Capacity.Unrestricted(settings)
    || approved < settings.limit
    || (Capacity.Mode(settings) != "CLOSE" && (settings.waitingCapacity <= 0 || waiting < settings.waitingCapacity))
  }

  /** What the settings alone must satisfy for the two views of capacity to be the same. */
  predicate SettingsAgree(settings: Capacity.Settings) {
    || Capacity.Unrestricted(settings)
    || (settings.limit > 0 && PageMode(settings) in {"CLOSE", "WAITING_LIST"})
    || (settings.waitingCapacity <= 0 && Capacity.Mode(settings) != "CLOSE")
  }

  lemma PlainModesNeedNoTrimming(settings: Capacity.Settings)
    requires PageMode(settings) in {"CLOSE", "WAITING_LIST", "ALLOW"}
    ensures Capacity.Mode(settings) == PageMode(settings)
  {
    Text.TrimKeepsWords(Capacity.StoredMode(settings));
  }

  /** Page and endpoint see room for the same counts, whatever the counts, exactly under SettingsAgree. */
  lemma CapacityViewsAgree(settings: Capacity.Settings)
    ensures (forall approved: nat, waiting: nat :: PageHasRoom(settings, approved, waiting) <==>
      EndpointHasRoom(settings, approved, waiting))
      <==> SettingsAgree(settings)
  {
    if PageMode(settings) in {"CLOSE", "WAITING_LIST", "ALLOW"} {
      PlainModesNeedNoTrimming(settings);
    }
    var full: nat := if settings.limit > 0 then settings.limit else 0;
    var crowded: nat := if settings.waitingCapacity > 0 then settings.waitingCapacity else 0;
    assert (PageHasRoom(settings, full, crowded) <==> EndpointHasRoom(settings, full, crowded)) ==>
      SettingsAgree(settings);
  }

  /** The documented settings: a limit that is not negative and one of the three modes. */
  lemma DocumentedSettingsAgree(settings: Capacity.Settings)
    requires settings.limit >= 0
    requires Capacity.StoredMode(settings) in {"ALLOW", "CLOSE", "WAITING_LIST"}
    ensures SettingsAgree(settings)
  {
    Upper3();
    if PageMode(settings) in {"CLOSE", "WAITING_LIST", "ALLOW"} {
      PlainModesNeedNoTrimming(settings);
    }
  }

  lemma Upper3()
    ensures Text.Upper("ALLOW") == "ALLOW" && Text.Upper("CLOSE") == "CLOSE"
      && Text.Upper("WAITING_LIST") == "WAITING_LIST"
  {
  }

  // ---- The page ----

  /** Registration is enabled unless a settings row says otherwise; the same for the hero buttons. */
  predicate Enabled(row: Option<bool>) { row.Some? ==> row.value }

  predicate SecondaryEnabled(hero: Option<Hero>) { hero.Some? ==> hero.value.secondaryEnabled }

  predicate PrimaryEnabled(hero: Option<Hero>) { hero.Some? ==> hero.value.primaryEnabled }

  ghost predicate ActiveTakes(phases: seq<Phase>, now: int, takes: RegistrationType -> bool) {
    exists i :: IsActiveIndex(phases, now, i) && takes(phases[i].registration)
  }

  /** One phase at most is active, so what the active phase takes is what some active phase takes. */
  lemma ActiveDecides(phases: seq<Phase>, now: int, at: int, takes: RegistrationType -> bool)
    requires HasActive(phases, now) ==> IsActiveIndex(phases, now, at)
    ensures ActiveTakes(phases, now, takes) <==> HasActive(phases, now) && takes(phases[at].registration)
  {
  }

  /** The participant button, from the published phases and the settings. */
  ghost predicate ParticipantOpen(phases: seq<Phase>, now: int, general: Option<bool>, hero: Option<Hero>,
                                  settings: Capacity.Settings, approved: nat, waiting: nat) {
    Enabled(general) && SecondaryEnabled(hero) && ActiveTakes(phases, now, TakesParticipants)
      && PageHasRoom(settings, approved, waiting)
  }

  /** The first phase with a status, or the length of the list. */
  method FirstWith(phases: array<Phase>, status: PhaseStatus) returns (i: nat)
    ensures i <= phases.Length && (i < phases.Length ==> phases[i].status == status)
    ensures forall j :: 0 <= j < i ==> phases[j].status != status
  {
    i := 0;
    while i < phases.Length && phases[i].status != status
      invariant i <= phases.Length
      invariant forall j :: 0 <= j < i ==> phases[j].status != status
    {
      i := i + 1;
    }
  }

  /** The active phase and its successor, or the first phase that has not ended. */
  method PickPhases(phases: array<Phase>, now: int) returns (active: Option<Phase>, next: Option<Phase>, ghost at: int)
    requires forall j :: 0 <= j < phases.Length && phases[j].status != Active ==>
      phases[j].status == if now > phases[j].endDate then Past else Upcoming
    ensures active.Some? ==> 0 <= at < phases.Length && phases[at].status == Active && active.value == phases[at]
    ensures active.Some? ==> next == if at + 1 < phases.Length then Some(phases[at + 1]) else None
    ensures active.None? ==> forall j :: 0 <= j < phases.Length ==> phases[j].status != Active
    ensures active.None? && next.None? ==> forall j :: 0 <= j < phases.Length ==> phases[j].endDate < now
    ensures active.None? && next.Some? ==>
      0 <= at < phases.Length && next.value == phases[at] && phases[at].endDate >= now
    ensures active.None? && next.Some? ==> forall j :: 0 <= j < at ==> phases[j].endDate < now
  {
    active, next := None, None;
    var i := FirstWith(phases, Active);
    at := i;
    if i < phases.Length {
      active := Some(phases[i]);
      if i + 1 < phases.Length {
        next := Some(phases[i + 1]);
      }
    } else {
      i := FirstWith(phases, Upcoming);
      at := i;
      if i < phases.Length {
        next := Some(phases[i]);
      }
    }
  }

  /** The phase that is shown as active, and the one announced after it or instead of it. */
  method CurrentAndNext(phases: array<Phase>, now: int)
    returns (active: Option<Phase>, next: Option<Phase>, ghost at: int)
    requires DistinctIds(phases[..])
    modifies phases
    ensures active.Some? <==> HasActive(old(phases[..]), now)
    ensures active.Some? ==>
      IsActiveIndex(old(phases[..]), now, at) && active.value == old(phases[at]).(status := Active)
    ensures active.Some? ==> next == if at + 1 < phases.Length then Some(phases[at + 1]) else None
    ensures active.None? && next.None? ==> forall j :: 0 <= j < phases.Length ==> old(phases[j]).endDate < now
    ensures active.None? && next.Some? ==>
      0 <= at < phases.Length && next.value == phases[at] && old(phases[at]).endDate >= now
    ensures active.None? && next.Some? ==> forall j :: 0 <= j < at ==> old(phases[j]).endDate < now
  {
    ghost var before := phases[..];
    CalculatePhasesStatus(phases, now);
    assert forall j :: 0 <= j < phases.Length ==> phases[j].endDate == before[j].endDate;
    active, next, at := PickPhases(phases, now);
  }

  /** The two registration buttons for the registration type of the active phase. */
  method Buttons(regType: RegistrationType, general: Option<bool>, hero: Option<Hero>,
                 settings: Capacity.Settings, approved: nat, waiting: nat)
    returns (candOpen: bool, partOpen: bool, candPrimary: bool, partPrimary: bool)
    ensures partOpen == (Enabled(general) && SecondaryEnabled(hero) && TakesParticipants(regType)
      && PageHasRoom(settings, approved, waiting))
    ensures candOpen <==> Enabled(general) && PrimaryEnabled(hero) && TakesCandidates(regType)
    ensures candPrimary == TakesCandidates(regType) && partPrimary == TakesParticipants(regType)
    ensures partPrimary <==> regType in {ParticipantOnly, Both}
    ensures candPrimary <==> regType in {CandidateOnly, Both}
    ensures candOpen <==>
      general != Some(false) && (hero.None? || hero.value.primaryEnabled) && regType in {CandidateOnly, Both}
    ensures var mode := Text.Upper(if settings.mode == "" then "CLOSE" else settings.mode);
      var full := 0 < settings.limit <= approved;
      var listFull := 0 < settings.waitingCapacity <= waiting;
      partOpen <==>
        && general != Some(false) && (hero.None? || hero.value.secondaryEnabled)
        && regType in {ParticipantOnly, Both}
        && !(full && mode == "CLOSE") && !(full && mode == "WAITING_LIST" && listFull)
  {
    var regEnabled, primary, secondary := true, true, true;
    if general.Some? {
      regEnabled := general.value;
    }
    if hero.Some? {
      primary, secondary := hero.value.primaryEnabled, hero.value.secondaryEnabled;
    }
    candOpen := regEnabled && primary && (regType == CandidateOnly || regType == Both);
    partOpen := regEnabled && secondary && (regType == ParticipantOnly || regType == Both);
    var mode := Text.Upper(if settings.mode == "" then "CLOSE" else settings.mode);
    if settings.limit > 0 && mode == "CLOSE" {
      if approved >= settings.limit {
        partOpen := false;
      }
    } else if settings.limit > 0 && mode == "WAITING_LIST" {
      var mainFull := approved >= settings.limit;
      var waitingFull := settings.waitingCapacity > 0 && waiting >= settings.waitingCapacity;
      if mainFull && waitingFull {
        partOpen := false;
      }
    }
    candPrimary, partPrimary := false, false;
    match regType {
      case CandidateOnly => candPrimary := true;
      case ParticipantOnly => partPrimary := true;
      case Both => candPrimary, partPrimary := true, true;
      case NoRegistration =>
    }
  }

  method Aggregate(phases: array<Phase>, now: int, general: Option<bool>, hero: Option<Hero>,
                   settings: Capacity.Settings, approved: nat, waiting: nat)
    returns (page: Page, ghost at: int)
    requires DistinctIds(phases[..])
    modifies phases
    ensures page.active.Some? <==> HasActive(old(phases[..]), now)
    ensures page.active.Some? ==>
      && IsActiveIndex(old(phases[..]), now, at) && page.active.value == old(phases[at]).(status := Active)
      && page.next == if at + 1 < phases.Length then Some(phases[at + 1]) else None
    ensures page.active.None? && page.next.None? ==>
      forall j :: 0 <= j < phases.Length ==> old(phases[j]).endDate < now
    ensures page.active.None? && page.next.Some? ==>
      && 0 <= at < phases.Length && page.next.value == phases[at] && old(phases[at]).endDate >= now
      && forall j :: 0 <= j < at ==> old(phases[j]).endDate < now
    ensures page.participantOpen <==> ParticipantOpen(old(phases[..]), now, general, hero, settings, approved, waiting)
    ensures page.candidateOpen <==>
      Enabled(general) && PrimaryEnabled(hero) && ActiveTakes(old(phases[..]), now, TakesCandidates)
    ensures page.participantPrimary <==> ActiveTakes(old(phases[..]), now, TakesParticipants)
    ensures page.candidatePrimary <==> ActiveTakes(old(phases[..]), now, TakesCandidates)
  {
    ghost var before := phases[..];
    var active, next;
    active, next, at := CurrentAndNext(phases, now);
    var regType := NoRegistration;
    if active.Some? {
      regType := active.value.registration;
      assert before[at].registration == regType;
    }
    ActiveDecides(before, now, at, TakesParticipants);
    ActiveDecides(before, now, at, TakesCandidates);
    var candOpen, partOpen, candPrimary, partPrimary := Buttons(regType, general, hero, settings, approved, waiting);
    page := Page(active, next, candOpen, partOpen, candPrimary, partPrimary);
  }

  // ---- The endpoint ----

  /** IsParticipantRegistrationOpen for the phase row the resolver got. */
  predicate ResolverOpen(rows: Rows, general: Option<bool>, pick: Option<Id>) {
    Enabled(general) && pick.Some? && pick.value in rows && TakesParticipants(rows[pick.value].registration)
  }

  /** PublicRegister, run on the same data with an e-mail nobody uses, ends with a new row. */
  predicate EndpointAccepts(open: bool, settings: Capacity.Settings, regs: map<Id, Capacity.Reg>, email: string) {
    var s := Capacity.State(open, settings, regs, None, None, map[], map[]);
    var answer := RegistrationStore.Answer(s, email);
    answer.Registered? || answer.Waitlisted?
  }

  /** The endpoint accepts an unused e-mail exactly when it is open and sees room. */
  lemma AcceptsExactly(open: bool, settings: Capacity.Settings, regs: map<Id, Capacity.Reg>, email: string)
    requires !Capacity.EmailKnown(regs, email)
    ensures EndpointAccepts(open, settings, regs, email)
      <==> open && EndpointHasRoom(settings, Capacity.Count(regs, Capacity.Approved),
        Capacity.Count(regs, Capacity.WaitingList))
  {
  }

  /**
   On one state of the tables and one clock value the page offers participant registration
   exactly when its button is enabled and the endpoint would accept an unused e-mail.
   */
  lemma PageAgreesWithEndpoint(rows: Rows, now: int, phases: seq<Phase>,
    pick: Option<Id>, general: Option<bool>, hero: Option<Hero>,
                               settings: Capacity.Settings, regs: map<Id, Capacity.Reg>, email: string)
    requires IsPublicListing(rows, phases) && Determined(rows, now) && MayResolve(rows, now, pick)
    requires SettingsAgree(settings)
    requires !Capacity.EmailKnown(regs, email)
    ensures ParticipantOpen(phases, now, general, hero, settings,
      Capacity.Count(regs, Capacity.Approved), Capacity.Count(regs, Capacity.WaitingList))
      <==> SecondaryEnabled(hero) && EndpointAccepts(ResolverOpen(rows, general, pick), settings, regs, email)
  {
    ActiveTakesAgree(rows, now, phases, pick);
    AcceptsExactly(ResolverOpen(rows, general, pick), settings, regs, email);
    RoomAgrees(settings, Capacity.Count(regs, Capacity.Approved), Capacity.Count(regs, Capacity.WaitingList));
  }

  lemma RoomAgrees(settings: Capacity.Settings, approved: nat, waiting: nat)
    requires SettingsAgree(settings)
    ensures PageHasRoom(settings, approved, waiting) <==> EndpointHasRoom(settings, approved, waiting)
  {
    CapacityViewsAgree(settings);
  }

  lemma ActiveTakesAgree(rows: Rows, now: int, phases: seq<Phase>, pick: Option<Id>)
    requires IsPublicListing(rows, phases) && Determined(rows, now) && MayResolve(rows, now, pick)
    ensures ActiveTakes(phases, now, TakesParticipants)
      <==> pick.Some? && pick.value in rows && TakesParticipants(rows[pick.value].registration)
  {
    PageMatchesResolver(rows, now, phases);
    assert PageShows(phases, now, pick);
  }
}
