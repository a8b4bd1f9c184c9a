/**
 * The event mapper: the confirmed-participant count and the status shown in
 * an event's details, and the null-ignoring copy of an update request onto
 * an event.
 */
module EventMapper {
  import opened Wrappers
  import opened Models

  /** `countConfirmed`: how many of the event's participations are confirmed. */
  function CountConfirmed(ps: seq<Participation>): (n: nat)
    ensures n <= |ps|
    ensures n == 0 <==> forall i :: 0 <= i < |ps| ==> !ps[i].confirmed
    ensures n == |ps| <==> forall i :: 0 <= i < |ps| ==> ps[i].confirmed
  {
    if ps == [] then 0
    else
      var init := ps[..|ps| - 1];
      assert forall i :: 0 <= i < |init| ==> init[i] == ps[i];
      CountConfirmed(init) + (if ps[|ps| - 1].confirmed then 1 else 0)
  }

  /** The count of a concatenation is the sum of the counts of its parts. */
  lemma {:induction false} CountConfirmedConcat(ps: seq<Participation>, qs: seq<Participation>)
    ensures CountConfirmed(ps + qs) == CountConfirmed(ps) + CountConfirmed(qs)
    decreases |qs|
  {
    if qs == [] {
      assert ps + qs == ps;
    } else {
      assert (ps + qs)[..|ps + qs| - 1] == ps + qs[..|qs| - 1];
      CountConfirmedConcat(ps, qs[..|qs| - 1]);
    }
  }

  /** `status`: an event is "upcoming" while its date is strictly after now, and "completed" from then on. */
  function Status(eventDate: Instant, now: Instant): (s: string)
    ensures s == "upcoming" || s == "completed"
    ensures s == "upcoming" <==> now < eventDate
  {
    if now < eventDate then "upcoming" else "completed"
  }

  /** Once completed, an event stays completed as time goes on. */
  lemma StatusMonotone(eventDate: Instant, now: Instant, later: Instant)
    requires now <= later && Status(eventDate, now) == "completed"
    ensures Status(eventDate, later) == "completed"
  {
  }

  /** A field of an update request: null keeps the old value. */
  function Override<T>(requested: Option<T>, current: T): T {
    if requested.Some? then requested.value else current
  }

  /**
   * `updateEventFromDto` with the IGNORE strategy for null properties: each
   * non-null field of the request replaces the event's, each null one keeps
   * it; the id, which the request does not carry, is kept.
   */
  function UpdateEventFromDto(dto: EventUpdate, e: Event): (r: Event)
    ensures r.id == e.id
    ensures dto.name.None? ==> r.name == e.name
    ensures dto.name.Some? ==> r.name == dto.name.value
    ensures dto.eventType.None? ==> r.eventType == e.eventType
    ensures dto.eventType.Some? ==> r.eventType == dto.eventType.value
    ensures dto.address.None? ==> r.address == e.address
    ensures dto.address.Some? ==> r.address == dto.address.value
    ensures dto.description.None? ==> r.description == e.description
    ensures dto.description.Some? ==> r.description == dto.description.value
    ensures dto.capacity.None? ==> r.capacity == e.capacity
    ensures dto.capacity.Some? ==> r.capacity == dto.capacity.value
    ensures dto.date.None? ==> r.date == e.date
    ensures dto.date.Some? ==> r.date == dto.date.value
  {
    e.(name := Override(dto.name, e.name),
       eventType := Override(dto.eventType, e.eventType),
       address := Override(dto.address, e.address),
       description := Override(dto.description, e.description),
       capacity := Override(dto.capacity, e.capacity),
       date := Override(dto.date, e.date))
  }

  /** A request with every field null leaves the event as it is. */
  lemma UpdateEventFromEmptyDto(e: Event)
    ensures UpdateEventFromDto(EventUpdate(None, None, None, None, None, None), e) == e
  {
  }

  /** Applying the same request twice is the same as applying it once. */
  lemma UpdateEventFromDtoIdempotent(dto: EventUpdate, e: Event)
    ensures UpdateEventFromDto(dto, UpdateEventFromDto(dto, e)) == UpdateEventFromDto(dto, e)
  {
  }
}
