/**
 * The participation repository: the occupancy query `sumGuestCounts`, the
 * lookup of a participation by employee and event, and deletion by id, all
 * over the stored participations (a sequence whose order carries no meaning).
 */
module ParticipationRepository {
  import opened Wrappers
  import opened Models

  /** The seats one participation occupies: the employee and the guests. */
  function Seats(p: Participation): int {
    p.guestCount + 1
  }

  /** Whether the occupancy query counts `p`: it belongs to the event and is not the excluded one. */
  predicate Counted(p: Participation, eventId: Uuid, exclude: Option<Uuid>) {
    p.eventId == eventId && (exclude.None? || p.id != exclude.value)
  }

  /** No participation has a negative guest count, as the forms allow none. */
  predicate NoNegativeGuests(ps: seq<Participation>) {
    forall i :: 0 <= i < |ps| ==> ps[i].guestCount >= 0
  }

  /** What `p` adds to the occupancy query's sum. */
  function Contribution(p: Participation, eventId: Uuid, exclude: Option<Uuid>): int {
    if Counted(p, eventId, exclude) then Seats(p) else 0
  }

  /**
   * `SELECT COALESCE(SUM(p.guestCount + 1), 0)` over the participations of
   * the event, leaving out the one whose id is `exclude` when it is not null.
   */
  function SumGuestCounts(ps: seq<Participation>, eventId: Uuid, exclude: Option<Uuid>): (r: int)
    ensures ps == [] ==> r == 0
    ensures NoNegativeGuests(ps) ==> r >= 0
  {
    if ps == [] then 0
    else SumGuestCounts(ps[..|ps| - 1], eventId, exclude) + Contribution(ps[|ps| - 1], eventId, exclude)
  }

  /** The participations of one event, in stored order. */
  function OfEvent(ps: seq<Participation>, eventId: Uuid): (r: seq<Participation>)
    ensures |r| <= |ps|
    ensures forall i :: 0 <= i < |r| ==> r[i].eventId == eventId
  {
    if ps == [] then []
    else OfEvent(ps[..|ps| - 1], eventId) + (if ps[|ps| - 1].eventId == eventId then [ps[|ps| - 1]] else [])
  }

  /** No two stored participations share an id (ids are generated by the database). */
  ghost predicate UniqueIds(ps: seq<Participation>) {
    forall i, j :: 0 <= i < j < |ps| ==> ps[i].id != ps[j].id
  }

  /** The occupancy of a concatenation is the sum of the occupancies of its parts. */
  lemma {:induction false} SumGuestCountsConcat(ps: seq<Participation>, qs: seq<Participation>, eventId: Uuid, exclude: Option<Uuid>)
    ensures SumGuestCounts(ps + qs, eventId, exclude) == SumGuestCounts(ps, eventId, exclude) + SumGuestCounts(qs, eventId, exclude)
    decreases |qs|
  {
    if qs == [] {
      assert ps + qs == ps;
    } else {
      var init := qs[..|qs| - 1];
      assert (ps + qs)[..|ps + qs| - 1] == ps + init;
      SumGuestCountsConcat(ps, init, eventId, exclude);
    }
  }

  /** Storing one more participation adds exactly its contribution (the employee plus the guests, if it is counted). */
  lemma SumGuestCountsAppend(ps: seq<Participation>, p: Participation, eventId: Uuid, exclude: Option<Uuid>)
    ensures SumGuestCounts(ps + [p], eventId, exclude) == SumGuestCounts(ps, eventId, exclude) + Contribution(p, eventId, exclude)
  {
    assert (ps + [p])[..|ps|] == ps;
  }

  /** An event none of whose participations is stored has occupancy 0 (the COALESCE default). */
  lemma {:induction false} SumGuestCountsNoParticipations(ps: seq<Participation>, eventId: Uuid, exclude: Option<Uuid>)
    requires forall i :: 0 <= i < |ps| ==> ps[i].eventId != eventId
    ensures SumGuestCounts(ps, eventId, exclude) == 0
    decreases |ps|
  {
    if ps != [] {
      SumGuestCountsNoParticipations(ps[..|ps| - 1], eventId, exclude);
    }
  }

  /** Only the participations of the given event are counted: the others can be dropped without changing the sum. */
  lemma {:induction false} SumGuestCountsOnlyEvent(ps: seq<Participation>, eventId: Uuid, exclude: Option<Uuid>)
    ensures SumGuestCounts(ps, eventId, exclude) == SumGuestCounts(OfEvent(ps, eventId), eventId, exclude)
    decreases |ps|
  {
    if ps != [] {
      var init, last := ps[..|ps| - 1], ps[|ps| - 1];
      SumGuestCountsOnlyEvent(init, eventId, exclude);
      if last.eventId == eventId {
        SumGuestCountsAppend(OfEvent(init, eventId), last, eventId, exclude);
      } else {
        assert OfEvent(ps, eventId) == OfEvent(init, eventId) + [] == OfEvent(init, eventId);
        assert Contribution(last, eventId, exclude) == 0;
      }
    }
  }

  /** Excluding an id that no stored participation has changes nothing: every participation is counted. */
  lemma {:induction false} SumGuestCountsExcludeAbsent(ps: seq<Participation>, eventId: Uuid, x: Uuid)
    requires forall i :: 0 <= i < |ps| ==> ps[i].id != x
    ensures SumGuestCounts(ps, eventId, Some(x)) == SumGuestCounts(ps, eventId, None)
    decreases |ps|
  {
    if ps != [] {
      SumGuestCountsExcludeAbsent(ps[..|ps| - 1], eventId, x);
    }
  }

  /**
   * Excluding the id of a stored participation removes exactly that
   * participation's seats (if it belongs to the event) and counts all others.
   */
  lemma {:induction false} SumGuestCountsExcludeOne(ps: seq<Participation>, eventId: Uuid, k: nat)
    requires k < |ps| && UniqueIds(ps)
    ensures SumGuestCounts(ps, eventId, Some(ps[k].id))
         == SumGuestCounts(ps, eventId, None) - Contribution(ps[k], eventId, None)
    decreases |ps|
  {
    var init, last := ps[..|ps| - 1], ps[|ps| - 1];
    if k == |ps| - 1 {
      SumGuestCountsExcludeAbsent(init, eventId, last.id);
    } else {
      SumGuestCountsExcludeOne(init, eventId, k);
      assert init[k] == ps[k];
    }
  }

  /** Removing the participation at index `k` takes away exactly its contribution. */
  lemma SumGuestCountsRemoveAt(ps: seq<Participation>, k: nat, eventId: Uuid, exclude: Option<Uuid>)
    requires k < |ps|
    ensures SumGuestCounts(ps[..k] + ps[k + 1..], eventId, exclude)
         == SumGuestCounts(ps, eventId, exclude) - Contribution(ps[k], eventId, exclude)
  {
    assert ps == ps[..k] + [ps[k]] + ps[k + 1..];
    SumGuestCountsConcat(ps[..k] + [ps[k]], ps[k + 1..], eventId, exclude);
    SumGuestCountsConcat(ps[..k], [ps[k]], eventId, exclude);
    SumGuestCountsConcat(ps[..k], ps[k + 1..], eventId, exclude);
    assert SumGuestCounts([ps[k]], eventId, exclude) == Contribution(ps[k], eventId, exclude) by {
      assert [ps[k]][..0] == [];
    }
  }

  /** Replacing the participation at index `k` by `q` swaps its contribution for that of `q`. */
  lemma SumGuestCountsReplaceAt(ps: seq<Participation>, k: nat, q: Participation, eventId: Uuid, exclude: Option<Uuid>)
    requires k < |ps|
    ensures SumGuestCounts(ps[k := q], eventId, exclude)
         == SumGuestCounts(ps, eventId, exclude) - Contribution(ps[k], eventId, exclude) + Contribution(q, eventId, exclude)
  {
    var qs := ps[k := q];
    assert qs[..k] + qs[k + 1..] == ps[..k] + ps[k + 1..];
    SumGuestCountsRemoveAt(ps, k, eventId, exclude);
    SumGuestCountsRemoveAt(qs, k, eventId, exclude);
  }

  /** With no negative guest count among them, the participations of an event occupy at least one seat each. */
  lemma {:induction false} SumGuestCountsAtLeastHeadcount(ps: seq<Participation>, eventId: Uuid)
    requires forall i :: 0 <= i < |ps| ==> ps[i].guestCount >= 0
    ensures SumGuestCounts(ps, eventId, None) >= |OfEvent(ps, eventId)| >= 0
    decreases |ps|
  {
    if ps != [] {
      SumGuestCountsAtLeastHeadcount(ps[..|ps| - 1], eventId);
    }
  }

  /** `deleteById`: the stored participations without the one(s) with that id, in the same order. */
  function DeleteById(ps: seq<Participation>, id: Uuid): (r: seq<Participation>)
    ensures |r| <= |ps|
    ensures forall i :: 0 <= i < |r| ==> r[i].id != id
    ensures (forall i :: 0 <= i < |ps| ==> ps[i].id != id) ==> r == ps
  {
    if ps == [] then []
    else DeleteById(ps[..|ps| - 1], id) + (if ps[|ps| - 1].id == id then [] else [ps[|ps| - 1]])
  }

  /** Deleting the same id twice leaves the same participations as deleting it once. */
  lemma DeleteByIdIdempotent(ps: seq<Participation>, id: Uuid)
    ensures DeleteById(DeleteById(ps, id), id) == DeleteById(ps, id)
  {
  }

  /** With unique ids, deleting the id of the participation at index `k` removes exactly that one. */
  lemma {:induction false} DeleteByIdAt(ps: seq<Participation>, k: nat)
    requires k < |ps| && UniqueIds(ps)
    ensures DeleteById(ps, ps[k].id) == ps[..k] + ps[k + 1..]
    decreases |ps|
  {
    var init, last := ps[..|ps| - 1], ps[|ps| - 1];
    if k == |ps| - 1 {
      assert DeleteById(init, last.id) == init;
      assert ps[..k] + ps[k + 1..] == init;
    } else {
      DeleteByIdAt(init, k);
      assert init[k] == ps[k];
      assert init[..k] + init[k + 1..] + [last] == ps[..k] + ps[k + 1..];
    }
  }

  /** Removing one participation keeps the ids of the others unique. */
  lemma UniqueIdsRemoveAt(ps: seq<Participation>, k: nat)
    requires k < |ps| && UniqueIds(ps)
    ensures UniqueIds(ps[..k] + ps[k + 1..])
    ensures forall i :: 0 <= i < k ==> (ps[..k] + ps[k + 1..])[i] == ps[i]
    ensures forall i :: k < i < |ps| ==> (ps[..k] + ps[k + 1..])[i - 1] == ps[i]
  {
  }

  /** Deleting participations whose guest counts are not negative never raises the occupancy of any event. */
  lemma {:induction false} DeleteByIdNeverRaisesOccupancy(ps: seq<Participation>, id: Uuid, eventId: Uuid, exclude: Option<Uuid>)
    requires forall i :: 0 <= i < |ps| && ps[i].id == id ==> ps[i].guestCount >= 0
    ensures SumGuestCounts(DeleteById(ps, id), eventId, exclude) <= SumGuestCounts(ps, eventId, exclude)
    decreases |ps|
  {
    if ps != [] {
      var init, last := ps[..|ps| - 1], ps[|ps| - 1];
      DeleteByIdNeverRaisesOccupancy(init, id, eventId, exclude);
      if last.id != id {
        SumGuestCountsAppend(DeleteById(init, id), last, eventId, exclude);
      } else {
        assert DeleteById(ps, id) == DeleteById(init, id) + [] == DeleteById(init, id);
      }
    }
  }

  /** Whether `p` is the participation of that employee in that event. */
  predicate Matches(p: Participation, employeeId: Uuid, eventId: Uuid) {
    p.employeeId == employeeId && p.eventId == eventId
  }

  /** The outcome of a query for at most one row: none, exactly one (at an index), or more than one. */
  datatype Lookup = NoMatch | Unique(index: nat) | NotUnique

  /**
   * `findByEmployee_IdAndEvent_Id`: an empty Optional when no participation
   * matches, the participation when exactly one does; an Optional-returning
   * query that finds several rows throws instead, which is `NotUnique` here.
   */
  function FindByEmployeeAndEvent(ps: seq<Participation>, employeeId: Uuid, eventId: Uuid): (r: Lookup)
    ensures r.NoMatch? <==> forall i :: 0 <= i < |ps| ==> !Matches(ps[i], employeeId, eventId)
    ensures r.Unique? ==> r.index < |ps| && Matches(ps[r.index], employeeId, eventId)
    ensures r.Unique? ==> forall i :: 0 <= i < |ps| && i != r.index ==> !Matches(ps[i], employeeId, eventId)
    ensures r.NotUnique? <==> exists i, j :: 0 <= i < j < |ps| && Matches(ps[i], employeeId, eventId) && Matches(ps[j], employeeId, eventId)
  {
    if ps == [] then NoMatch
    else
      var init := ps[..|ps| - 1];
      var rest := FindByEmployeeAndEvent(init, employeeId, eventId);
      assert forall i :: 0 <= i < |init| ==> init[i] == ps[i];
      if !Matches(ps[|ps| - 1], employeeId, eventId) then rest
      else if rest.NoMatch? then Unique(|ps| - 1)
      else NotUnique
  }
}
