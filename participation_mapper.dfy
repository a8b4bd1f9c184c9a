/**
 * The participation mapper: the admin-only listing of participations with
 * their event and their employee's profile, and the single-item form built
 * on it. The caller's authorities, which the source reads from the ambient
 * security context, are the explicit `isAdmin` parameter.
 */
module ParticipationMapper {
  import opened Wrappers
  import opened Models

  /** One row of the participant listing. */
  datatype ParticipationDetails = ParticipationDetails(
    id: Uuid,
    employeeId: Uuid,
    eventId: Uuid,
    guestCount: int,
    confirmed: bool,
    eventName: string,
    eventType: string,
    eventDate: Instant,
    eventAddress: string,
    fullName: string,
    gitlabUsername: string,
    email: string,
    dietTypes: seq<DietaryPreference>)

  /** How the single-item mapping fails: `get(0)` on an empty list. */
  datatype Fault = IndexOutOfBounds

  /** The row built for one loaded participation (the lambda of the stream). */
  function ToDetails(lp: LoadedParticipation): ParticipationDetails {
    ParticipationDetails(
      lp.participation.id, lp.profile.id, lp.event.id,
      lp.participation.guestCount, lp.participation.confirmed,
      lp.event.name, lp.event.eventType, lp.event.date, lp.event.address,
      lp.profile.fullName, lp.profile.gitlabUsername, lp.profile.email,
      lp.profile.dietTypes)
  }

  /** A row copies the participation's own fields, its event's and its employee's. */
  predicate CopiesFields(d: ParticipationDetails, lp: LoadedParticipation) {
    && d.id == lp.participation.id
    && d.employeeId == lp.profile.id
    && d.eventId == lp.event.id
    && d.guestCount == lp.participation.guestCount
    && d.confirmed == lp.participation.confirmed
    && d.eventName == lp.event.name
    && d.eventType == lp.event.eventType
    && d.eventDate == lp.event.date
    && d.eventAddress == lp.event.address
    && d.fullName == lp.profile.fullName
    && d.gitlabUsername == lp.profile.gitlabUsername
    && d.email == lp.profile.email
    && d.dietTypes == lp.profile.dietTypes
  }

  /**
   * `map(List<Participation>)`: a caller without the ADMIN authority, a
   * null list and an empty list all get the empty list; otherwise one row
   * per participation, in the same order, copying its fields.
   */
  function MapList(isAdmin: bool, participations: Option<seq<LoadedParticipation>>): (r: seq<ParticipationDetails>)
    ensures !isAdmin ==> r == []
    ensures participations.None? ==> r == []
    ensures isAdmin && participations.Some? ==> |r| == |participations.value|
    ensures isAdmin && participations.Some? ==>
      forall i :: 0 <= i < |r| ==> CopiesFields(r[i], participations.value[i])
  {
    if !isAdmin || participations.None? || participations.value == [] then []
    else
      var ps := participations.value;
      seq(|ps|, i requires 0 <= i < |ps| => ToDetails(ps[i]))
  }

  /**
   * `map(Participation)`: element 0 of the list mapping of the one-element
   * list. For a non-admin caller that list is empty and the call fails.
   */
  function MapOne(isAdmin: bool, p: LoadedParticipation): (r: Result<ParticipationDetails, Fault>)
    ensures r.Success? <==> isAdmin
    ensures r.Failure? ==> r.error == IndexOutOfBounds
    ensures r.Success? ==> CopiesFields(r.value, p)
  {
    var rows := MapList(isAdmin, Some([p]));
    if |rows| == 0 then Failure(IndexOutOfBounds) else Success(rows[0])
  }

  /**
   * For an admin the listing is taken element by element: the listing of
   * a concatenation is the concatenation of the listings.
   */
  lemma MapListConcat(ps: seq<LoadedParticipation>, qs: seq<LoadedParticipation>)
    ensures MapList(true, Some(ps + qs)) == MapList(true, Some(ps)) + MapList(true, Some(qs))
  {
    var r := MapList(true, Some(ps + qs));
    var s := MapList(true, Some(ps)) + MapList(true, Some(qs));
    assert |r| == |s|;
    forall i | 0 <= i < |r|
      ensures r[i] == s[i]
    {
      if i < |ps| {
        assert (ps + qs)[i] == ps[i];
      } else {
        assert (ps + qs)[i] == qs[i - |ps|];
      }
    }
  }

  /** The participation a listing row describes, read back from its id, employee, event, guest and confirmation fields. */
  function RowParticipation(d: ParticipationDetails): Participation {
    Participation(d.id, d.employeeId, d.eventId, d.guestCount, d.confirmed)
  }

  /** The stored participations of loaded ones, in order. */
  function Stored(ps: seq<LoadedParticipation>): (r: seq<Participation>)
    ensures |r| == |ps| && forall i :: 0 <= i < |ps| ==> r[i] == ps[i].participation
  {
    seq(|ps|, i requires 0 <= i < |ps| => ps[i].participation)
  }

  /**
   * For an admin, reading the participation back from each row of the
   * listing of resolved participations gives exactly the stored
   * participations, in order: no field of the participation is lost or
   * taken from the wrong place.
   */
  lemma MapListRecoversParticipations(ps: seq<LoadedParticipation>)
    requires forall i :: 0 <= i < |ps| ==> Resolved(ps[i])
    ensures var rows := MapList(true, Some(ps));
      seq(|rows|, i requires 0 <= i < |rows| => RowParticipation(rows[i])) == Stored(ps)
  {
    var rows := MapList(true, Some(ps));
    var back := seq(|rows|, i requires 0 <= i < |rows| => RowParticipation(rows[i]));
    forall i | 0 <= i < |ps|
      ensures back[i] == ps[i].participation
    {
      assert CopiesFields(rows[i], ps[i]);
    }
  }
}
