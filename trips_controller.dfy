/**
 * The trips controller. It talks to the tables directly instead of going
 * through the trip service, and its checks differ from the service's: they
 * stop at the first failure, and the origin = destination and past-date
 * checks are missing. Its two list endpoints run the same queries as
 * `TripService.GetTrips` and `TripService.GetTripsByStatus`.
 */
module TripsController {
  import opened Wrappers
  import opened Text
  import opened Entities
  import opened Queries
  import opened Store
  import TS = TripService

  datatype TripsError =
    | IdMismatch
    | TripNotFound(id: int)
    | CheckFailed(error: TS.ValidationError)

  /** The text of the `BadRequest` (mismatch, failed check) or `NotFound` response. */
  function Message(e: TripsError): string {
    match e
    case IdMismatch => "El ID del viaje no coincide"
    case TripNotFound(id) => "Viaje con ID " + IntToString(id) + " no encontrado"
    case CheckFailed(v) => TS.Message(v)
  }

  /** The four checks, in order; the first that fails is the only one reported. */
  function FirstFailure(t: Trip, places: map<int, Place>, operators: map<int, Operator>): Option<TS.ValidationError> {
    if t.originId !in places then Some(TS.OriginNotFound)
    else if t.destinationId !in places then Some(TS.DestinationNotFound)
    else if t.operatorId !in operators then Some(TS.OperatorNotFound)
    else if t.scheduledStart >= t.scheduledEnd then Some(TS.StartNotBeforeEnd)
    else None
  }

  /** The service checks that this controller also runs. */
  predicate AlsoChecked(e: TS.ValidationError) {
    e != TS.SameOriginAndDestination && e != TS.StartInPast
  }

  function FirstOf<T>(s: seq<T>): Option<T> {
    if s == [] then None else Some(s[0])
  }

  /**
   * The controller reports the first error the service would report, once the
   * two checks the controller lacks are ignored.
   */
  lemma FirstFailureIsFirstServiceError(t: Trip, places: map<int, Place>, operators: map<int, Operator>, now: Time)
    ensures FirstFailure(t, places, operators) == FirstOf(Filter(TS.ValidationErrors(t, places, operators, now), AlsoChecked))
  {
    var s1 := TS.Step(TS.OriginNotFound, t, places, operators, now);
    var s2 := TS.Step(TS.DestinationNotFound, t, places, operators, now);
    var s3 := TS.Step(TS.SameOriginAndDestination, t, places, operators, now);
    var s4 := TS.Step(TS.OperatorNotFound, t, places, operators, now);
    var s5 := TS.Step(TS.StartNotBeforeEnd, t, places, operators, now);
    var s6 := TS.Step(TS.StartInPast, t, places, operators, now);
    TS.ValidationErrorsUnfold(t, places, operators, now);
    FilterStep(TS.OriginNotFound, t, places, operators, now);
    FilterStep(TS.DestinationNotFound, t, places, operators, now);
    FilterStep(TS.SameOriginAndDestination, t, places, operators, now);
    FilterStep(TS.OperatorNotFound, t, places, operators, now);
    FilterStep(TS.StartNotBeforeEnd, t, places, operators, now);
    FilterStep(TS.StartInPast, t, places, operators, now);
    FilterDropsThirdAndSixth(s1, s2, s3, s4, s5, s6, AlsoChecked);
    var kept := s1 + (s2 + (s4 + s5));
    if s1 != [] {
      assert kept[0] == TS.OriginNotFound;
    } else if s2 != [] {
      assert kept[0] == TS.DestinationNotFound;
    } else if s4 != [] {
      assert kept[0] == TS.OperatorNotFound;
    } else if s5 != [] {
      assert kept[0] == TS.StartNotBeforeEnd;
    } else {
      assert kept == [];
    }
  }

  /** Filtering six nested pieces where only the third and sixth lose anything. */
  lemma FilterDropsThirdAndSixth<T>(s1: seq<T>, s2: seq<T>, s3: seq<T>, s4: seq<T>, s5: seq<T>, s6: seq<T>, keep: T -> bool)
    requires Filter(s1, keep) == s1 && Filter(s2, keep) == s2 && Filter(s4, keep) == s4 && Filter(s5, keep) == s5
    requires Filter(s3, keep) == [] && Filter(s6, keep) == []
    ensures Filter(s1 + (s2 + (s3 + (s4 + (s5 + s6)))), keep) == s1 + (s2 + (s4 + s5))
  {
    FilterAppend(s5, s6, keep);
    assert Filter(s5 + s6, keep) == s5 by {
      assert s5 + [] == s5;
    }
    FilterAppend(s4, s5 + s6, keep);
    FilterAppend(s3, s4 + (s5 + s6), keep);
    assert Filter(s3 + (s4 + (s5 + s6)), keep) == s4 + s5 by {
      assert [] + (s4 + s5) == s4 + s5;
    }
    FilterAppend(s2, s3 + (s4 + (s5 + s6)), keep);
    FilterAppend(s1, s2 + (s3 + (s4 + (s5 + s6))), keep);
  }

  lemma FilterStep(e: TS.ValidationError, t: Trip, places: map<int, Place>, operators: map<int, Operator>, now: Time)
    ensures Filter(TS.Step(e, t, places, operators, now), AlsoChecked) ==
      if AlsoChecked(e) then TS.Step(e, t, places, operators, now) else []
  {
    var s := TS.Step(e, t, places, operators, now);
    if s != [] {
      assert s[1..] == [];
    }
  }

  /** A trip the service accepts passes the controller's checks too. */
  lemma ServiceAcceptedPasses(t: Trip, places: map<int, Place>, operators: map<int, Operator>, now: Time)
    requires TS.ValidationErrors(t, places, operators, now) == []
    ensures FirstFailure(t, places, operators) == None
  {
    TS.NoErrorsIff(t, places, operators, now);
  }

  /**
   * A new trip from a place back to itself, starting in the past, passes the
   * controller while the service reports both missing checks.
   */
  lemma SameEndsAndPastStartAccepted(t: Trip, places: map<int, Place>, operators: map<int, Operator>, now: Time)
    requires t.originId in places && t.destinationId == t.originId && t.operatorId in operators
    requires t.scheduledStart < t.scheduledEnd
    requires t.id == 0 && t.scheduledStart < now - TS.OneHour
    ensures FirstFailure(t, places, operators) == None
    ensures TS.ValidationErrors(t, places, operators, now) == [TS.SameOriginAndDestination, TS.StartInPast]
  {
    TS.ValidationErrorsUnfold(t, places, operators, now);
  }

  /** The trip a create stores: status forced to Scheduled, a new identity, both stamps `now`. */
  function ScheduledTrip(t: Trip, id: int, now: Time): (r: Trip)
    ensures r.status == Scheduled && r.id == id && r.createdAt == now && r.modifiedAt == now
    ensures r.(status := t.status, id := t.id, createdAt := t.createdAt, modifiedAt := t.modifiedAt) == t
  {
    TS.StampedTrip(t.(status := Scheduled), id, now)
  }

  method CreateTrip(db: Database, t: Trip, now: Time) returns (r: Result<Trip, TripsError>)
    requires db.Valid()
    modifies db
    ensures db.Valid()
    ensures db.places == old(db.places) && db.operators == old(db.operators)
    ensures db.nextPlaceId == old(db.nextPlaceId) && db.nextOperatorId == old(db.nextOperatorId)
    ensures var failure := FirstFailure(t, old(db.places), old(db.operators));
      if failure.Some? then
        r == Failure(CheckFailed(failure.value)) && db.trips == old(db.trips) && db.nextTripId == old(db.nextTripId)
      else
        var id := old(db.nextTripId);
        && r == Success(ScheduledTrip(t, id, now))
        && db.trips == old(db.trips)[id := r.value]
        && db.nextTripId == id + 1
  {
    if t.originId !in db.places {
      return Failure(CheckFailed(TS.OriginNotFound));
    }
    if t.destinationId !in db.places {
      return Failure(CheckFailed(TS.DestinationNotFound));
    }
    if t.operatorId !in db.operators {
      return Failure(CheckFailed(TS.OperatorNotFound));
    }
    if t.scheduledStart >= t.scheduledEnd {
      return Failure(CheckFailed(TS.StartNotBeforeEnd));
    }
    var trip := t.(status := Scheduled);
    trip := trip.(createdAt := now, modifiedAt := now);
    trip := trip.(id := db.nextTripId);
    db.trips := db.trips[trip.id := trip];
    db.nextTripId := db.nextTripId + 1;
    r := Success(trip);
  }

  /** A trip the controller stores, by create or update, has resolvable references. */
  lemma PassedChecksResolve(trips: map<int, Trip>, places: map<int, Place>, operators: map<int, Operator>, id: int, t: Trip)
    requires ReferencesResolve(trips, places, operators)
    requires FirstFailure(t, places, operators) == None
    ensures ReferencesResolve(trips[id := t], places, operators)
  {
  }

  /** The route id must match the body's id; this is checked before anything is looked up. */
  method UpdateTrip(db: Database, id: int, t: Trip, now: Time) returns (r: Result<Trip, TripsError>)
    requires db.Valid()
    modifies db
    ensures db.Valid()
    ensures db.places == old(db.places) && db.operators == old(db.operators)
    ensures db.nextPlaceId == old(db.nextPlaceId) && db.nextOperatorId == old(db.nextOperatorId)
    ensures db.nextTripId == old(db.nextTripId)
    ensures id != t.id ==> r == Failure(IdMismatch) && db.trips == old(db.trips)
    ensures id == t.id && id !in old(db.trips) ==> r == Failure(TripNotFound(id)) && db.trips == old(db.trips)
    ensures id == t.id && id in old(db.trips) ==>
      var failure := FirstFailure(t, old(db.places), old(db.operators));
      if failure.Some? then
        r == Failure(CheckFailed(failure.value)) && db.trips == old(db.trips)
      else
        && r == Success(TS.CopyTripFields(old(db.trips)[id], t, now))
        && db.trips == old(db.trips)[id := r.value]
  {
    if id != t.id {
      return Failure(IdMismatch);
    }
    if id !in db.trips {
      return Failure(TripNotFound(id));
    }
    var existing := db.trips[id];
    if t.originId !in db.places {
      return Failure(CheckFailed(TS.OriginNotFound));
    }
    if t.destinationId !in db.places {
      return Failure(CheckFailed(TS.DestinationNotFound));
    }
    if t.operatorId !in db.operators {
      return Failure(CheckFailed(TS.OperatorNotFound));
    }
    if t.scheduledStart >= t.scheduledEnd {
      return Failure(CheckFailed(TS.StartNotBeforeEnd));
    }
    existing := existing.(originId := t.originId);
    existing := existing.(destinationId := t.destinationId);
    existing := existing.(operatorId := t.operatorId);
    existing := existing.(scheduledStart := t.scheduledStart);
    existing := existing.(scheduledEnd := t.scheduledEnd);
    existing := existing.(status := t.status);
    existing := existing.(actualStart := t.actualStart);
    existing := existing.(actualEnd := t.actualEnd);
    existing := existing.(estimatedDistance := t.estimatedDistance);
    existing := existing.(actualDistance := t.actualDistance);
    existing := existing.(notes := t.notes);
    existing := existing.(vehicleId := t.vehicleId);
    existing := existing.(modifiedAt := now);
    db.trips := db.trips[id := existing];
    r := Success(existing);
  }

  /** `None` is the `NoContent` answer; a missing trip gives `NotFound`. */
  method DeleteTrip(db: Database, id: int) returns (r: Option<TripsError>)
    requires db.Valid()
    modifies db
    ensures db.Valid()
    ensures db.places == old(db.places) && db.operators == old(db.operators)
    ensures db.nextPlaceId == old(db.nextPlaceId) && db.nextOperatorId == old(db.nextOperatorId)
    ensures db.nextTripId == old(db.nextTripId)
    ensures id !in old(db.trips) ==> r == Some(TripNotFound(id)) && db.trips == old(db.trips)
    ensures id in old(db.trips) ==> r == None && db.trips == old(db.trips) - {id}
  {
    if id !in db.trips {
      return Some(TripNotFound(id));
    }
    db.trips := db.trips - {id};
    r := None;
  }

  /** A delete removes exactly one trip. */
  lemma DeleteRemovesOne(trips: map<int, Trip>, id: int)
    requires id in trips
    ensures |trips - {id}| == |trips| - 1
    ensures forall k :: k in trips && k != id ==> k in trips - {id} && (trips - {id})[k] == trips[k]
  {
    assert trips.Keys == (trips - {id}).Keys + {id};
  }
}
