/**
 * The two hand-written mappings of the employee mapper: a role to its
 * name, and the admin-only listing of an employee's participations. The
 * caller's authorities are the explicit `isAdmin` parameter.
 */
module EmployeeMapper {
  import opened Wrappers
  import opened Models

  /**
   * The participation row of an employee's details, with the seven
   * values the mapper passes to the row's constructor, in that order.
   */
  datatype EmployeeParticipation = EmployeeParticipation(
    guestCount: int,
    confirmed: bool,
    eventId: Uuid,
    eventName: string,
    eventType: string,
    eventDate: Instant,
    eventAddress: string)

  /** The enum constant name of a role. */
  function RoleName(role: Role): string {
    match role
    case Admin => "ADMIN"
    case Employee => "EMPLOYEE"
    case Visitor => "VISITOR"
  }

  /** `map(UserRole)`: a null role maps to null, any other to its role's name. */
  function MapRole(userRole: Option<Role>): (r: Option<string>)
    ensures r.None? <==> userRole.None?
    ensures r.Some? ==> r.value in {"ADMIN", "EMPLOYEE", "VISITOR"}
    ensures userRole == Some(Admin) <==> r == Some("ADMIN")
    ensures userRole == Some(Employee) <==> r == Some("EMPLOYEE")
    ensures userRole == Some(Visitor) <==> r == Some("VISITOR")
  {
    if userRole.Some? then Some(RoleName(userRole.value)) else None
  }

  /** Different roles have different names, so the mapping of roles loses nothing. */
  lemma MapRoleInjective(a: Option<Role>, b: Option<Role>)
    requires MapRole(a) == MapRole(b)
    ensures a == b
  {
  }

  /** The row built for one loaded participation. */
  function ToRow(lp: LoadedParticipation): EmployeeParticipation {
    EmployeeParticipation(
      lp.participation.guestCount, lp.participation.confirmed,
      lp.event.id, lp.event.name, lp.event.eventType, lp.event.date, lp.event.address)
  }

  /**
   * `map(List<Participation>)`: empty for a caller without the ADMIN
   * authority and for a null or empty list; otherwise one row per
   * participation in the same order, copying its guest count, its
   * confirmation and its event's fields.
   */
  function MapParticipations(isAdmin: bool, participations: Option<seq<LoadedParticipation>>): (r: seq<EmployeeParticipation>)
    ensures !isAdmin ==> r == []
    ensures participations.None? ==> r == []
    ensures isAdmin && participations.Some? ==> |r| == |participations.value|
    ensures isAdmin && participations.Some? ==>
      forall i :: 0 <= i < |r| ==>
        && r[i].guestCount == participations.value[i].participation.guestCount
        && r[i].confirmed == participations.value[i].participation.confirmed
        && r[i].eventId == participations.value[i].event.id
        && r[i].eventName == participations.value[i].event.name
        && r[i].eventType == participations.value[i].event.eventType
        && r[i].eventDate == participations.value[i].event.date
        && r[i].eventAddress == participations.value[i].event.address
  {
    if !isAdmin || participations.None? || participations.value == [] then []
    else
      var ps := participations.value;
      seq(|ps|, i requires 0 <= i < |ps| => ToRow(ps[i]))
  }

  /** For an admin, listing a concatenation lists its parts one after the other. */
  lemma MapParticipationsConcat(ps: seq<LoadedParticipation>, qs: seq<LoadedParticipation>)
    ensures MapParticipations(true, Some(ps + qs))
         == MapParticipations(true, Some(ps)) + MapParticipations(true, Some(qs))
  {
    var r := MapParticipations(true, Some(ps + qs));
    var s := MapParticipations(true, Some(ps)) + MapParticipations(true, Some(qs));
    assert |r| == |s|;
    forall i | 0 <= i < |r|
      ensures r[i] == s[i]
    {
      if i < |ps| {
        assert (ps + qs)[i] == ps[i];
      } else {
        assert (ps + qs)[i] == qs[i - |ps|];
      }
    }
  }
}
