/**
 * The event service: admission of participants to events under a seat
 * capacity. The stored events, employees and participations are the state
 * of an `EventServiceImpl`; each operation either commits its writes or,
 * when it throws, leaves the state as it was (the transaction rolls back).
 */
module EventService {
  import opened Wrappers
  import opened Models
  import opened ParticipationRepository
  import EventMapper

  /** The exceptions the service throws. */
  datatype ServiceError =
    | EmployeeNotFound
    | EventNotFound
    | ParticipationNotFound
      /** the Optional-returning participation lookup found more than one row */
    | NonUniqueResult
      /** the number of available slots, when the exception carries one */
    | CapacityExceeded(availableSlots: Option<int>)

  /** The id the occupancy query excludes: that of the participation being revised, if any. */
  function ExcludedId(exclude: Option<Participation>): Option<Uuid> {
    if exclude.Some? then Some(exclude.value.id) else None
  }

  /**
   * `validateCapacity`: the request for `guestCount` guests plus the employee
   * fits when the seats already taken (without the revised participation's
   * own) plus the requested ones do not exceed the capacity. A rejection
   * reports the capacity minus the seats taken, minus the revised
   * participation's current seats once more.
   */
  function ValidateCapacity(ps: seq<Participation>, event: Event, guestCount: int, exclude: Option<Participation>): (r: Outcome<ServiceError>)
    ensures r.Pass? <==> SumGuestCounts(ps, event.id, ExcludedId(exclude)) + guestCount + 1 <= event.capacity
    ensures r.Fail? ==> r.error.CapacityExceeded? && r.error.availableSlots.Some?
  {
    var currentTotal := SumGuestCounts(ps, event.id, ExcludedId(exclude));
    var newTotal := currentTotal + guestCount + 1;
    if newTotal > event.capacity then
      var available := event.capacity - currentTotal;
      var excludedCount := if exclude.Some? then exclude.value.guestCount + 1 else 0;
      Fail(CapacityExceeded(Some(available - excludedCount)))
    else
      Pass
  }

  /** The participation an accepted add stores: confirmed, with the next generated id. */
  function NewParticipation(id: Uuid, eventId: Uuid, dto: ParticipationUpsert): Participation {
    Participation(id, dto.employeeId, eventId, dto.guestCount, true)
  }

  /**
   * A new participation is accepted exactly when the event's occupancy with it
   * stored stays within the capacity; so a request that fills the event
   * exactly is accepted. A rejection reports the free seats,
   * capacity minus occupancy.
   */
  lemma AddAcceptedIffFits(ps: seq<Participation>, event: Event, dto: ParticipationUpsert, id: Uuid)
    ensures ValidateCapacity(ps, event, dto.guestCount, None).Pass?
        <==> SumGuestCounts(ps + [NewParticipation(id, event.id, dto)], event.id, None) <= event.capacity
    ensures ValidateCapacity(ps, event, dto.guestCount, None).Fail? ==>
      ValidateCapacity(ps, event, dto.guestCount, None)
        == Fail(CapacityExceeded(Some(event.capacity - SumGuestCounts(ps, event.id, None))))
  {
    SumGuestCountsAppend(ps, NewParticipation(id, event.id, dto), event.id, None);
  }

  /** The participation at index `k` with its guest count revised. */
  function Revised(ps: seq<Participation>, k: nat, guestCount: int): seq<Participation>
    requires k < |ps|
  {
    ps[k := ps[k].(guestCount := guestCount)]
  }

  /**
   * A revision of a stored participation of the event is accepted exactly
   * when the occupancy after the revision stays within the capacity: its own
   * current seats are not counted against it.
   */
  lemma {:induction false} UpdateAcceptedIffFits(ps: seq<Participation>, event: Event, k: nat, guestCount: int)
    requires k < |ps| && UniqueIds(ps) && ps[k].eventId == event.id
    ensures ValidateCapacity(ps, event, guestCount, Some(ps[k])).Pass?
        <==> SumGuestCounts(Revised(ps, k, guestCount), event.id, None) <= event.capacity
  {
    SumGuestCountsExcludeOne(ps, event.id, k);
    SumGuestCountsReplaceAt(ps, k, ps[k].(guestCount := guestCount), event.id, None);
  }

  /** Re-submitting a participation's current guest count is accepted whenever the event is within capacity, even when full. */
  lemma UpdateResubmitAccepted(ps: seq<Participation>, event: Event, k: nat)
    requires k < |ps| && UniqueIds(ps) && ps[k].eventId == event.id
    requires SumGuestCounts(ps, event.id, None) <= event.capacity
    ensures ValidateCapacity(ps, event, ps[k].guestCount, Some(ps[k])) == Pass
  {
    UpdateAcceptedIffFits(ps, event, k, ps[k].guestCount);
    assert Revised(ps, k, ps[k].guestCount) == ps;
  }

  /**
   * A rejected revision reports, because the revised participation's seats
   * are subtracted a second time, the seats that are free in the event as it
   * stands (capacity minus the occupancy including that participation), not
   * the seats the revised participation could take.
   */
  lemma UpdateRejectionReportsFreeSeats(ps: seq<Participation>, event: Event, k: nat, guestCount: int)
    requires k < |ps| && UniqueIds(ps) && ps[k].eventId == event.id
    requires ValidateCapacity(ps, event, guestCount, Some(ps[k])).Fail?
    ensures ValidateCapacity(ps, event, guestCount, Some(ps[k]))
         == Fail(CapacityExceeded(Some(event.capacity - SumGuestCounts(ps, event.id, None))))
  {
    SumGuestCountsExcludeOne(ps, event.id, k);
  }

  /** The seats a batch requests: each employee plus that employee's guests. */
  function RequestedSeats(dtos: seq<ParticipationUpsert>): int {
    if dtos == [] then 0
    else RequestedSeats(dtos[..|dtos| - 1]) + dtos[|dtos| - 1].guestCount + 1
  }

  /** Every employee a batch names is stored. */
  predicate AllEmployeesFound(dtos: seq<ParticipationUpsert>, employees: set<Uuid>) {
    forall i :: 0 <= i < |dtos| ==> dtos[i].employeeId in employees
  }

  /** The participations an accepted batch stores, with consecutive generated ids from `firstId`. */
  function NewParticipations(dtos: seq<ParticipationUpsert>, eventId: Uuid, firstId: Uuid): (r: seq<Participation>)
    ensures |r| == |dtos|
    ensures forall i :: 0 <= i < |dtos| ==> r[i] == NewParticipation(firstId + i, eventId, dtos[i])
  {
    if dtos == [] then []
    else
      var init := dtos[..|dtos| - 1];
      assert forall i :: 0 <= i < |init| ==> init[i] == dtos[i];
      NewParticipations(init, eventId, firstId) + [NewParticipation(firstId + |dtos| - 1, eventId, dtos[|dtos| - 1])]
  }

  /** Extending a batch by one request extends its participations and its requested seats by that request's. */
  lemma NewParticipationsStep(dtos: seq<ParticipationUpsert>, i: nat, eventId: Uuid, firstId: Uuid)
    requires i < |dtos|
    ensures NewParticipations(dtos[..i + 1], eventId, firstId)
         == NewParticipations(dtos[..i], eventId, firstId) + [NewParticipation(firstId + i, eventId, dtos[i])]
    ensures RequestedSeats(dtos[..i + 1]) == RequestedSeats(dtos[..i]) + dtos[i].guestCount + 1
  {
    assert dtos[..i + 1][..i] == dtos[..i];
  }

  /**
   * Appending a batch whose ids start above every stored id keeps the ids
   * unique, and the stored participations and the new ones stay where they are.
   */
  lemma NewParticipationsKeepUniqueIds(ps: seq<Participation>, dtos: seq<ParticipationUpsert>, eventId: Uuid, firstId: Uuid)
    requires UniqueIds(ps) && forall i :: 0 <= i < |ps| ==> ps[i].id < firstId
    ensures UniqueIds(ps + NewParticipations(dtos, eventId, firstId))
  {
    var qs := NewParticipations(dtos, eventId, firstId);
    var all := ps + qs;
    forall i, j | 0 <= i < j < |all|
      ensures all[i].id != all[j].id
    {
      if j >= |ps| {
        assert all[j] == qs[j - |ps|];
        if i >= |ps| {
          assert all[i] == qs[i - |ps|];
        }
      }
    }
  }

  /** A batch adds its requested seats to its own event's occupancy and nothing to any other event's. */
  lemma {:induction false} NewParticipationsOccupancy(dtos: seq<ParticipationUpsert>, eventId: Uuid, firstId: Uuid, other: Uuid)
    ensures SumGuestCounts(NewParticipations(dtos, eventId, firstId), other, None)
         == if other == eventId then RequestedSeats(dtos) else 0
    decreases |dtos|
  {
    if dtos != [] {
      var init := dtos[..|dtos| - 1];
      NewParticipationsOccupancy(init, eventId, firstId, other);
      SumGuestCountsAppend(NewParticipations(init, eventId, firstId),
        NewParticipation(firstId + |dtos| - 1, eventId, dtos[|dtos| - 1]), other, None);
    }
  }

  /** A batch is accepted exactly when the event's occupancy with the whole batch stored stays within the capacity. */
  lemma BatchAcceptedIffFits(ps: seq<Participation>, event: Event, dtos: seq<ParticipationUpsert>, firstId: Uuid)
    ensures SumGuestCounts(ps, event.id, None) + RequestedSeats(dtos) <= event.capacity
        <==> SumGuestCounts(ps + NewParticipations(dtos, event.id, firstId), event.id, None) <= event.capacity
  {
    SumGuestCountsConcat(ps, NewParticipations(dtos, event.id, firstId), event.id, None);
    NewParticipationsOccupancy(dtos, event.id, firstId, event.id);
  }

  /** `isParticipant`: some stored participation links the user to the event. */
  predicate IsParticipant(ps: seq<Participation>, eventId: Uuid, userId: Uuid) {
    exists i :: 0 <= i < |ps| && Matches(ps[i], userId, eventId)
  }

  /** The integrity the database keeps: keys are ids, references resolve, ids are unique and already issued. */
  ghost predicate Integrity(events: map<Uuid, Event>, employees: set<Uuid>, ps: seq<Participation>, nextId: nat) {
    && (forall id :: id in events ==> events[id].id == id)
    && (forall i :: 0 <= i < |ps| ==> ps[i].id < nextId && ps[i].eventId in events && ps[i].employeeId in employees)
    && UniqueIds(ps)
  }

  /**
   * Revising the guest count of a stored participation keeps the integrity,
   * and, when the capacity check passes, keeps every event within capacity.
   */
  lemma RevisionKeepsInvariants(events: map<Uuid, Event>, employees: set<Uuid>, ps: seq<Participation>, nextId: nat,
                                k: nat, guestCount: int)
    requires Integrity(events, employees, ps, nextId) && k < |ps|
    ensures Integrity(events, employees, Revised(ps, k, guestCount), nextId)
    ensures (forall id :: id in events ==> SumGuestCounts(ps, id, None) <= events[id].capacity)
            && ValidateCapacity(ps, events[ps[k].eventId], guestCount, Some(ps[k])).Pass? ==>
      forall id :: id in events ==> SumGuestCounts(Revised(ps, k, guestCount), id, None) <= events[id].capacity
  {
    var qs := Revised(ps, k, guestCount);
    assert forall i :: 0 <= i < |qs| ==> qs[i].id == ps[i].id && qs[i].eventId == ps[i].eventId
                                         && qs[i].employeeId == ps[i].employeeId;
    var e := ps[k].eventId;
    UpdateAcceptedIffFits(ps, events[e], k, guestCount);
    forall id | id in events
      ensures SumGuestCounts(qs, id, None)
           == SumGuestCounts(ps, id, None) - Contribution(ps[k], id, None) + Contribution(qs[k], id, None)
    {
      SumGuestCountsReplaceAt(ps, k, qs[k], id, None);
    }
  }

  /** Storing a batch of found employees for a stored event, with ids from the next one on, keeps the integrity. */
  lemma BatchKeepsIntegrity(events: map<Uuid, Event>, employees: set<Uuid>, ps: seq<Participation>, nextId: nat,
                            dtos: seq<ParticipationUpsert>, eventId: Uuid)
    requires Integrity(events, employees, ps, nextId)
    requires eventId in events && AllEmployeesFound(dtos, employees)
    ensures Integrity(events, employees, ps + NewParticipations(dtos, eventId, nextId), nextId + |dtos|)
  {
    var qs := NewParticipations(dtos, eventId, nextId);
    NewParticipationsKeepUniqueIds(ps, dtos, eventId, nextId);
    assert forall i :: |ps| <= i < |ps + qs| ==> (ps + qs)[i] == qs[i - |ps|];
  }

  /** Storing a batch raises its event's occupancy by the requested seats and leaves every other event's. */
  lemma BatchOccupancy(ps: seq<Participation>, dtos: seq<ParticipationUpsert>, eventId: Uuid, firstId: Uuid)
    ensures forall id ::
      SumGuestCounts(ps + NewParticipations(dtos, eventId, firstId), id, None)
        == SumGuestCounts(ps, id, None) + (if id == eventId then RequestedSeats(dtos) else 0)
  {
    forall id
      ensures SumGuestCounts(ps + NewParticipations(dtos, eventId, firstId), id, None)
           == SumGuestCounts(ps, id, None) + (if id == eventId then RequestedSeats(dtos) else 0)
    {
      SumGuestCountsConcat(ps, NewParticipations(dtos, eventId, firstId), id, None);
      NewParticipationsOccupancy(dtos, eventId, firstId, id);
    }
  }

  /**
   * The employee loop of `addParticipantsBatch`: each employee is looked up
   * in turn, the first missing one ends the batch, and otherwise the
   * participations to create and the running seat total are accumulated.
   */
  method CollectBatch(employees: set<Uuid>, eventId: Uuid, dtos: seq<ParticipationUpsert>, firstId: nat, initial: int)
    returns (found: bool, toCreate: seq<Participation>, total: int)
    ensures found == AllEmployeesFound(dtos, employees)
    ensures found ==> toCreate == NewParticipations(dtos, eventId, firstId) && total == initial + RequestedSeats(dtos)
  {
    toCreate := [];
    total := initial;
    var i := 0;
    while i < |dtos|
      invariant 0 <= i <= |dtos|
      invariant toCreate == NewParticipations(dtos[..i], eventId, firstId)
      invariant total == initial + RequestedSeats(dtos[..i])
      invariant AllEmployeesFound(dtos[..i], employees)
    {
      var dto := dtos[i];
      if dto.employeeId !in employees {
        return false, toCreate, total;
      }
      NewParticipationsStep(dtos, i, eventId, firstId);
      assert dtos[..i + 1] == dtos[..i] + [dto];
      toCreate := toCreate + [NewParticipation(firstId + i, eventId, dto)];
      total := total + dto.guestCount + 1;
      i := i + 1;
    }
    assert dtos[..i] == dtos;
    found := true;
  }

  /** The event and participation data the service works on, and the admission operations. */
  class EventServiceImpl {
    var events: map<Uuid, Event>
    var employees: set<Uuid>
    var participations: seq<Participation>
    /** The next id the database generates for a participation. */
    var nextId: nat

    /** The integrity the database keeps. */
    ghost predicate Valid()
      reads this
    {
      Integrity(events, employees, participations, nextId)
    }

    /** The capacity invariant: no event has more seats occupied than its capacity. */
    ghost predicate WithinCapacity()
      reads this
    {
      forall id :: id in events ==> SumGuestCounts(participations, id, None) <= events[id].capacity
    }

    constructor (events: map<Uuid, Event>, employees: set<Uuid>)
      requires forall id :: id in events ==> events[id].id == id
      ensures Valid()
      ensures this.events == events && this.employees == employees
      ensures participations == [] && nextId == 0
    {
      this.events := events;
      this.employees := employees;
      participations := [];
      nextId := 0;
    }

    /**
     * `addParticipant`: the employee is looked up first, then the event, then
     * the capacity is checked; only then is the new confirmed participation
     * stored.
     */
    method AddParticipant(eventId: Uuid, dto: ParticipationUpsert) returns (r: Result<Participation, ServiceError>)
      requires Valid()
      modifies this
      ensures Valid()
      ensures events == old(events) && employees == old(employees)
      ensures r.Failure? ==> participations == old(participations) && nextId == old(nextId)
      ensures dto.employeeId !in employees ==> r == Failure(EmployeeNotFound)
      ensures dto.employeeId in employees && eventId !in events ==> r == Failure(EventNotFound)
      ensures dto.employeeId in employees && eventId in events ==>
        match ValidateCapacity(old(participations), events[eventId], dto.guestCount, None)
        case Fail(e) => r == Failure(e)
        case Pass =>
          && r == Success(NewParticipation(old(nextId), eventId, dto))
          && participations == old(participations) + [r.value]
      ensures old(WithinCapacity()) ==> WithinCapacity()
    {
      if dto.employeeId !in employees {
        return Failure(EmployeeNotFound);
      }
      if eventId !in events {
        return Failure(EventNotFound);
      }
      var event := events[eventId];
      var outcome := ValidateCapacity(participations, event, dto.guestCount, None);
      if outcome.Fail? {
        return Failure(outcome.error);
      }
      var p := NewParticipation(nextId, eventId, dto);
      ghost var before := participations;
      participations := participations + [p];
      nextId := nextId + 1;
      forall id | id in events
        ensures SumGuestCounts(participations, id, None) == SumGuestCounts(before, id, None) + Contribution(p, id, None)
      {
        SumGuestCountsAppend(before, p, id, None);
      }
      r := Success(p);
    }

    /**
     * `updateParticipant`: the participation of the employee in the event is
     * looked up, the capacity is checked without its own seats, and only its
     * guest count is changed.
     */
    method UpdateParticipant(eventId: Uuid, dto: ParticipationUpsert) returns (r: Result<Participation, ServiceError>)
      requires Valid()
      modifies this
      ensures Valid()
      ensures events == old(events) && employees == old(employees) && nextId == old(nextId)
      ensures r.Failure? ==> participations == old(participations)
      ensures
        var found := FindByEmployeeAndEvent(old(participations), dto.employeeId, eventId);
        && (found.NoMatch? ==> r == Failure(ParticipationNotFound))
        && (found.NotUnique? ==> r == Failure(NonUniqueResult))
        && (found.Unique? ==>
              var p := old(participations)[found.index];
              match ValidateCapacity(old(participations), events[eventId], dto.guestCount, Some(p))
              case Fail(e) => r == Failure(e)
              case Pass =>
                && r == Success(p.(guestCount := dto.guestCount))
                && participations == old(participations)[found.index := r.value])
      ensures old(WithinCapacity()) ==> WithinCapacity()
    {
      var found := FindByEmployeeAndEvent(participations, dto.employeeId, eventId);
      if found.NoMatch? {
        return Failure(ParticipationNotFound);
      }
      if found.NotUnique? {
        return Failure(NonUniqueResult);
      }
      var k := found.index;
      var p := participations[k];
      var event := events[p.eventId];
      var outcome := ValidateCapacity(participations, event, dto.guestCount, Some(p));
      if outcome.Fail? {
        return Failure(outcome.error);
      }
      var updated := p.(guestCount := dto.guestCount);
      RevisionKeepsInvariants(events, employees, participations, nextId, k, dto.guestCount);
      participations := participations[k := updated];
      r := Success(updated);
    }

    /** `deleteParticipant`: deletes the participation with that id; an id that no participation has is ignored. */
    method DeleteParticipant(participationId: Uuid)
      requires Valid()
      modifies this
      ensures Valid()
      ensures events == old(events) && employees == old(employees) && nextId == old(nextId)
      ensures participations == DeleteById(old(participations), participationId)
      ensures forall id :: id in events ==>
        SumGuestCounts(participations, id, None) <= SumGuestCounts(old(participations), id, None)
        || exists i :: 0 <= i < |old(participations)| && old(participations)[i].id == participationId
                       && old(participations)[i].guestCount < 0
    {
      ghost var before := participations;
      participations := DeleteById(participations, participationId);
      if k :| 0 <= k < |before| && before[k].id == participationId {
        DeleteByIdAt(before, k);
        UniqueIdsRemoveAt(before, k);
      }
      forall id | id in events
        ensures SumGuestCounts(participations, id, None) <= SumGuestCounts(before, id, None)
          || exists i :: 0 <= i < |before| && before[i].id == participationId && before[i].guestCount < 0
      {
        if forall i :: 0 <= i < |before| && before[i].id == participationId ==> before[i].guestCount >= 0 {
          DeleteByIdNeverRaisesOccupancy(before, participationId, id, None);
        }
      }
    }

    /**
     * `addParticipantsBatch`: the event is looked up, then every employee in
     * turn while the participations to create and the running seat total are
     * accumulated; the batch is stored as a whole only if the total fits.
     */
    method AddParticipantsBatch(eventId: Uuid, dtos: seq<ParticipationUpsert>) returns (r: Result<seq<Participation>, ServiceError>)
      requires Valid()
      modifies this
      ensures Valid()
      ensures events == old(events) && employees == old(employees)
      ensures r.Failure? ==> participations == old(participations) && nextId == old(nextId)
      ensures eventId !in events ==> r == Failure(EventNotFound)
      ensures eventId in events && !AllEmployeesFound(dtos, employees) ==> r == Failure(EmployeeNotFound)
      ensures eventId in events && AllEmployeesFound(dtos, employees) ==>
        var initial := SumGuestCounts(old(participations), eventId, None);
        var capacity := events[eventId].capacity;
        if initial + RequestedSeats(dtos) <= capacity then
          && r == Success(NewParticipations(dtos, eventId, old(nextId)))
          && participations == old(participations) + r.value
        else
          r == Failure(CapacityExceeded(Some(capacity - initial)))
      ensures old(WithinCapacity()) ==> WithinCapacity()
    {
      if eventId !in events {
        return Failure(EventNotFound);
      }
      var event := events[eventId];
      var initialParticipantCount := SumGuestCounts(participations, eventId, None);
      var found, participationsToCreate, finalParticipantCount :=
        CollectBatch(employees, eventId, dtos, nextId, initialParticipantCount);
      if !found {
        return Failure(EmployeeNotFound);
      }
      if event.capacity < finalParticipantCount {
        return Failure(CapacityExceeded(Some(event.capacity - initialParticipantCount)));
      }
      BatchKeepsIntegrity(events, employees, participations, nextId, dtos, eventId);
      BatchOccupancy(participations, dtos, eventId, nextId);
      participations := participations + participationsToCreate;
      nextId := nextId + |dtos|;
      r := Success(participationsToCreate);
    }

    /**
     * `update`: an event update is refused when it sets a capacity below the
     * seats already occupied; otherwise the request's non-null fields are
     * copied onto the event.
     */
    method Update(id: Uuid, dto: EventUpdate) returns (r: Result<Event, ServiceError>)
      requires Valid()
      modifies this
      ensures Valid()
      ensures participations == old(participations) && employees == old(employees) && nextId == old(nextId)
      ensures r.Failure? ==> events == old(events)
      ensures id !in old(events) ==> r == Failure(EventNotFound)
      ensures id in old(events) ==>
        if dto.capacity.Some? && SumGuestCounts(participations, id, None) > dto.capacity.value then
          r == Failure(CapacityExceeded(None))
        else
          && r == Success(EventMapper.UpdateEventFromDto(dto, old(events)[id]))
          && events == old(events)[id := r.value]
      ensures old(WithinCapacity()) ==> WithinCapacity()
    {
      if id !in events {
        return Failure(EventNotFound);
      }
      var event := events[id];
      if dto.capacity.Some? && SumGuestCounts(participations, id, None) > dto.capacity.value {
        return Failure(CapacityExceeded(None));
      }
      var updated := EventMapper.UpdateEventFromDto(dto, event);
      events := events[id := updated];
      r := Success(updated);
    }
  }

  /** A batch that needs one seat more than the event has is refused as a whole. */
  method BatchRefusalScenario() {
    var party := Event(1, "Summer party", "PARTY", 0, "", 5, "Garden");
    var service := new EventServiceImpl(map[1 := party], {10, 11, 12, 13, 14, 15});

    // six single-seat requests against five seats: the whole batch is refused
    var batch := [ParticipationUpsert(0, 10), ParticipationUpsert(0, 11), ParticipationUpsert(0, 12),
                  ParticipationUpsert(0, 13), ParticipationUpsert(0, 14), ParticipationUpsert(0, 15)];
    assert AllEmployeesFound(batch, service.employees);
    assert RequestedSeats(batch) == 6 by {
      assert batch[..1][..0] == [];
      assert batch[..2][..1] == batch[..1];
      assert batch[..3][..2] == batch[..2];
      assert batch[..4][..3] == batch[..3];
      assert batch[..5][..4] == batch[..4];
      assert batch[..6] == batch;
      assert RequestedSeats(batch[..1]) == 1;
      assert RequestedSeats(batch[..2]) == 2;
      assert RequestedSeats(batch[..3]) == 3;
      assert RequestedSeats(batch[..4]) == 4;
      assert RequestedSeats(batch[..5]) == 5;
    }
    var b := service.AddParticipantsBatch(1, batch);
    assert b == Failure(CapacityExceeded(Some(5)));
    assert service.participations == [];
  }

  /** A request that needs one seat more than the event has is refused; one that fills it exactly is accepted. */
  method ExactFillScenario() {
    var party := Event(1, "Summer party", "PARTY", 0, "", 5, "Garden");
    var service := new EventServiceImpl(map[1 := party], {10});

    var tooMany := service.AddParticipant(1, ParticipationUpsert(5, 10));
    assert tooMany == Failure(CapacityExceeded(Some(5)));
    var exact := service.AddParticipant(1, ParticipationUpsert(4, 10));
    assert exact == Success(Participation(0, 10, 1, 4, true));
  }

  /** On an event filled to the last seat, re-submitting the stored guest count is accepted. */
  method ResubmitOnFullEventScenario() {
    var party := Event(1, "Summer party", "PARTY", 0, "", 5, "Garden");
    var service := new EventServiceImpl(map[1 := party], {10});
    var exact := service.AddParticipant(1, ParticipationUpsert(4, 10));
    var stored := Participation(0, 10, 1, 4, true);
    assert exact == Success(stored) && service.participations == [stored];
    assert FindByEmployeeAndEvent([stored], 10, 1) == Unique(0);
    UpdateResubmitAccepted([stored], party, 0);
    var same := service.UpdateParticipant(1, ParticipationUpsert(4, 10));
    assert same == Success(stored);
  }

  /** An event filled to the last seat takes no one else, and the rejection reports no free seat. */
  method NewcomerOnFullEventScenario() {
    var party := Event(1, "Summer party", "PARTY", 0, "", 5, "Garden");
    var service := new EventServiceImpl(map[1 := party], {10, 11});
    var exact := service.AddParticipant(1, ParticipationUpsert(4, 10));
    var stored := Participation(0, 10, 1, 4, true);
    assert exact == Success(stored) && service.participations == [stored];
    assert SumGuestCounts([stored], 1, None) == 5;
    assert ValidateCapacity([stored], party, 0, None) == Fail(CapacityExceeded(Some(0)));
    var another := service.AddParticipant(1, ParticipationUpsert(0, 11));
    assert another == Failure(CapacityExceeded(Some(0)));
  }
}
