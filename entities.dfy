/**
 * The three entities of the transport domain (Trip, Place, Operator), their
 * status and type enumerations with their numeric codes, and the defaults a
 * freshly constructed entity has. Each entity carries the audit fields every
 * entity inherits: Id, CreatedAt, ModifiedAt, CreatedBy and ModifiedBy.
 */
module Entities {
  import opened Wrappers

  /** A point in time, in whole seconds; 0 is `DateTime.MinValue`, the default of a `DateTime`. */
  type Time = int

  const MinDateTime: Time := 0

  // ------------------------------------------------------------------ Trip

  datatype TripStatus = Scheduled | InProgress | Completed | Cancelled | Delayed

  /** The enum's underlying value. */
  function TripStatusCode(s: TripStatus): (code: int)
    ensures 1 <= code <= 5
  {
    match s
    case Scheduled => 1
    case InProgress => 2
    case Completed => 3
    case Cancelled => 4
    case Delayed => 5
  }

  /** The status a numeric code names, if any. */
  function TripStatusOf(code: int): (r: Option<TripStatus>)
    ensures r.Some? <==> 1 <= code <= 5
    ensures r.Some? ==> TripStatusCode(r.value) == code
  {
    if code == 1 then Some(Scheduled)
    else if code == 2 then Some(InProgress)
    else if code == 3 then Some(Completed)
    else if code == 4 then Some(Cancelled)
    else if code == 5 then Some(Delayed)
    else None
  }

  /** The five codes are distinct, so the code determines the status. */
  lemma TripStatusCodesDistinct(s: TripStatus, t: TripStatus)
    ensures TripStatusCode(s) == TripStatusCode(t) ==> s == t
    ensures TripStatusOf(TripStatusCode(s)) == Some(s)
  {
  }

  /**
   * A scheduled movement from an origin place to a destination place carried
   * out by an operator. The three references are plain integers: nothing in the
   * record itself constrains them.
   */
  datatype Trip = Trip(
    id: int,
    createdAt: Time,
    modifiedAt: Time,
    createdBy: Option<string>,
    modifiedBy: Option<string>,
    originId: int,
    destinationId: int,
    scheduledStart: Time,
    scheduledEnd: Time,
    operatorId: int,
    actualStart: Option<Time>,
    actualEnd: Option<Time>,
    status: TripStatus,
    estimatedDistance: Option<real>,
    actualDistance: Option<real>,
    notes: Option<string>,
    vehicleId: Option<string>)

  /** `new Trip()` at time `now`. */
  function NewTrip(now: Time): (t: Trip)
    ensures t.status == Scheduled
    ensures t.actualStart.None? && t.actualEnd.None?
    ensures t.id == 0 && t.createdAt == now && t.modifiedAt == now
    ensures t.originId == 0 && t.destinationId == 0 && t.operatorId == 0
    ensures t.scheduledStart == MinDateTime && t.scheduledEnd == MinDateTime
    ensures t.notes.None? && t.vehicleId.None?
  {
    Trip(0, now, now, None, None, 0, 0, MinDateTime, MinDateTime, 0,
         None, None, Scheduled, None, None, None, None)
  }

  // ------------------------------------------------------------------ Place

  datatype PlaceType = Terminal | Station | Warehouse | Port | Airport | DistributionCenter | CustomerSite | Other

  function PlaceTypeCode(t: PlaceType): (code: int)
    ensures 1 <= code <= 8
  {
    match t
    case Terminal => 1
    case Station => 2
    case Warehouse => 3
    case Port => 4
    case Airport => 5
    case DistributionCenter => 6
    case CustomerSite => 7
    case Other => 8
  }

  lemma PlaceTypeCodesDistinct(s: PlaceType, t: PlaceType)
    ensures PlaceTypeCode(s) == PlaceTypeCode(t) ==> s == t
  {
  }

  datatype PlaceStatus = PlaceActive | PlaceInactive | Maintenance | Closed

  function PlaceStatusCode(s: PlaceStatus): (code: int)
    ensures 1 <= code <= 4
  {
    match s
    case PlaceActive => 1
    case PlaceInactive => 2
    case Maintenance => 3
    case Closed => 4
  }

  lemma PlaceStatusCodesDistinct(s: PlaceStatus, t: PlaceStatus)
    ensures PlaceStatusCode(s) == PlaceStatusCode(t) ==> s == t
  {
  }

  /** A named location that can be the origin and/or the destination of trips. */
  datatype Place = Place(
    id: int,
    createdAt: Time,
    modifiedAt: Time,
    createdBy: Option<string>,
    modifiedBy: Option<string>,
    name: string,
    code: Option<string>,
    description: Option<string>,
    address: Option<string>,
    city: Option<string>,
    state: Option<string>,
    country: Option<string>,
    postalCode: Option<string>,
    latitude: Option<real>,
    longitude: Option<real>,
    placeType: PlaceType,
    status: PlaceStatus,
    isOriginAllowed: bool,
    isDestinationAllowed: bool,
    contactPerson: Option<string>,
    contactPhone: Option<string>,
    contactEmail: Option<string>,
    operatingHoursStart: Option<int>,
    operatingHoursEnd: Option<int>,
    specialInstructions: Option<string>)

  const DefaultCountry: string := "Mexico"

  /** `new Place()` at time `now`. */
  function NewPlace(now: Time): (p: Place)
    ensures p.placeType == Terminal && p.status == PlaceActive
    ensures p.isOriginAllowed && p.isDestinationAllowed
    ensures p.name == "" && p.code.None?
    ensures p.country == Some("Mexico")
    ensures p.id == 0 && p.createdAt == now && p.modifiedAt == now
  {
    Place(0, now, now, None, None, "", None, None, None, None, None, Some(DefaultCountry), None,
          None, None, Terminal, PlaceActive, true, true, None, None, None, None, None, None)
  }

  // ------------------------------------------------------------------ Operator

  datatype OperatorStatus = OperatorActive | OperatorInactive | Suspended | OnLeave

  function OperatorStatusCode(s: OperatorStatus): (code: int)
    ensures 1 <= code <= 4
  {
    match s
    case OperatorActive => 1
    case OperatorInactive => 2
    case Suspended => 3
    case OnLeave => 4
  }

  lemma OperatorStatusCodesDistinct(s: OperatorStatus, t: OperatorStatus)
    ensures OperatorStatusCode(s) == OperatorStatusCode(t) ==> s == t
  {
  }

  /** A person who carries out trips. */
  datatype Operator = Operator(
    id: int,
    createdAt: Time,
    modifiedAt: Time,
    createdBy: Option<string>,
    modifiedBy: Option<string>,
    firstName: string,
    lastName: string,
    email: Option<string>,
    phone: Option<string>,
    employeeId: Option<string>,
    licenseNumber: Option<string>,
    licenseExpiryDate: Option<Time>,
    status: OperatorStatus,
    dateOfBirth: Option<Time>,
    hireDate: Option<Time>,
    address: Option<string>,
    emergencyContact: Option<string>,
    emergencyPhone: Option<string>)

  /** The derived `FullName`: first name, one space, last name. */
  function FullName(o: Operator): (r: string)
    ensures |r| == |o.firstName| + 1 + |o.lastName|
    ensures r[..|o.firstName|] == o.firstName
    ensures r[|o.firstName|] == ' '
    ensures r[|o.firstName| + 1..] == o.lastName
  {
    o.firstName + " " + o.lastName
  }

  /** `new Operator()` at time `now`. */
  function NewOperator(now: Time): (o: Operator)
    ensures o.firstName == "" && o.lastName == ""
    ensures o.status == OperatorActive
    ensures o.id == 0 && o.createdAt == now && o.modifiedAt == now
  {
    Operator(0, now, now, None, None, "", "", None, None, None, None, None, OperatorActive,
             None, None, None, None, None)
  }

  /** With both names empty by default, the default full name is a single space. */
  lemma DefaultFullName(now: Time)
    ensures FullName(NewOperator(now)) == " "
  {
  }
}
