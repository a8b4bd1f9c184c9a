/** The persistent entities that the event-participation core reads and writes. */
module Models {
  import opened Wrappers

  /** A database identity (a UUID in the repository); only equality matters. */
  type Uuid = nat

  /** A point in time (a `LocalDateTime`); only the order matters. */
  type Instant = int

  /**
   * One employee's participation in one event. The seats it occupies are
   * the employee plus `guestCount` guests. No code rejects a negative
   * `guestCount`, so it is an `int`.
   */
  datatype Participation = Participation(
    id: Uuid,
    employeeId: Uuid,
    eventId: Uuid,
    guestCount: int,
    confirmed: bool)

  /** An event; the capacity is the number of seats that may be occupied. */
  datatype Event = Event(
    id: Uuid,
    name: string,
    eventType: string,
    date: Instant,
    description: string,
    capacity: int,
    address: string)

  /** The request body of an event update: every field may be null. */
  datatype EventUpdate = EventUpdate(
    name: Option<string>,
    eventType: Option<string>,
    address: Option<string>,
    description: Option<string>,
    capacity: Option<int>,
    date: Option<Instant>)

  /** The request body of adding or updating one participation. */
  datatype ParticipationUpsert = ParticipationUpsert(guestCount: int, employeeId: Uuid)

  /** The roles a profile can hold. */
  datatype Role = Admin | Employee | Visitor

  /** The dietary preferences a profile can declare. */
  datatype DietaryPreference = Vegetarian | Pescatarian | Halal | Kosher | Vegan

  /** The profile of an employee, with the attributes the mappers copy. */
  datatype Profile = Profile(
    id: Uuid,
    fullName: string,
    gitlabUsername: string,
    email: string,
    dietTypes: seq<DietaryPreference>)

  /**
   * A participation as the object-relational mapper loads it: with its
   * event and the profile of its employee resolved.
   */
  datatype LoadedParticipation = LoadedParticipation(
    participation: Participation,
    event: Event,
    profile: Profile)

  /**
   * The mapper resolved the participation's own references: the loaded
   * event is the participation's event and the profile its employee's.
   */
  predicate Resolved(lp: LoadedParticipation) {
    lp.event.id == lp.participation.eventId && lp.profile.id == lp.participation.employeeId
  }
}
