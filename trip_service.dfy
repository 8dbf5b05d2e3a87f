/**
 * The trip service: validation that collects every failing check, create and
 * update gated on that validation, an unguarded status change that stamps the
 * actual start/end and appends notes, delete, and the two list queries.
 */
module TripService {
  import opened Wrappers
  import opened Text
  import opened Entities
  import opened Queries
  import opened Store

  /** One hour, in the clock's unit (seconds). */
  const OneHour: int := 3600

  // ------------------------------------------------------------ validation

  /** The six validation checks, each with its own message. */
  datatype ValidationError =
    | OriginNotFound
    | DestinationNotFound
    | SameOriginAndDestination
    | OperatorNotFound
    | StartNotBeforeEnd
    | StartInPast

  function Message(e: ValidationError): string {
    match e
    case OriginNotFound => "El lugar de origen especificado no existe"
    case DestinationNotFound => "El lugar de destino especificado no existe"
    case SameOriginAndDestination => "El origen y destino no pueden ser iguales"
    case OperatorNotFound => "El operador especificado no existe"
    case StartNotBeforeEnd => "La fecha de inicio debe ser anterior a la fecha de fin"
    case StartInPast => "La fecha programada no puede ser en el pasado"
  }

  /** The condition under which the check that reports `e` fails. */
  predicate Fails(e: ValidationError, t: Trip, places: map<int, Place>, operators: map<int, Operator>, now: Time) {
    match e
    case OriginNotFound => t.originId !in places
    case DestinationNotFound => t.destinationId !in places
    case SameOriginAndDestination => t.originId == t.destinationId
    case OperatorNotFound => t.operatorId !in operators
    case StartNotBeforeEnd => t.scheduledStart >= t.scheduledEnd
    case StartInPast => t.id == 0 && t.scheduledStart < now - OneHour
  }

  /** The order in which the checks run. */
  const Checks: seq<ValidationError> :=
    [OriginNotFound, DestinationNotFound, SameOriginAndDestination, OperatorNotFound, StartNotBeforeEnd, StartInPast]

  /** The position of a check in `Checks`. */
  function Rank(e: ValidationError): int {
    match e
    case OriginNotFound => 0
    case DestinationNotFound => 1
    case SameOriginAndDestination => 2
    case OperatorNotFound => 3
    case StartNotBeforeEnd => 4
    case StartInPast => 5
  }

  /** The checks of `cs` that fail, in the order of `cs`. */
  function FailingChecks(cs: seq<ValidationError>, t: Trip, places: map<int, Place>, operators: map<int, Operator>, now: Time): seq<ValidationError>
  {
    if cs == [] then [] else Step(cs[0], t, places, operators, now) + FailingChecks(cs[1..], t, places, operators, now)
  }

  function Step(e: ValidationError, t: Trip, places: map<int, Place>, operators: map<int, Operator>, now: Time): seq<ValidationError> {
    if Fails(e, t, places, operators, now) then [e] else []
  }

  /** The specification of validation: every check runs, and the failing ones are reported in check order. */
  function ValidationErrors(t: Trip, places: map<int, Place>, operators: map<int, Operator>, now: Time): seq<ValidationError> {
    FailingChecks(Checks, t, places, operators, now)
  }

  /** Validation with a single list that each failing check appends to; no check stops the others. */
  method ValidateTrip(db: Database, t: Trip, now: Time) returns (errors: seq<ValidationError>)
    ensures errors == ValidationErrors(t, db.places, db.operators, now)
  {
    ghost var p, o := db.places, db.operators;
    errors := [];
    if t.originId !in db.places {
      errors := errors + [OriginNotFound];
    }
    assert errors == Step(OriginNotFound, t, p, o, now);
    ghost var e1 := errors;
    if t.destinationId !in db.places {
      errors := errors + [DestinationNotFound];
    }
    assert errors == e1 + Step(DestinationNotFound, t, p, o, now);
    ghost var e2 := errors;
    if t.originId == t.destinationId {
      errors := errors + [SameOriginAndDestination];
    }
    assert errors == e2 + Step(SameOriginAndDestination, t, p, o, now);
    ghost var e3 := errors;
    if t.operatorId !in db.operators {
      errors := errors + [OperatorNotFound];
    }
    assert errors == e3 + Step(OperatorNotFound, t, p, o, now);
    ghost var e4 := errors;
    if t.scheduledStart >= t.scheduledEnd {
      errors := errors + [StartNotBeforeEnd];
    }
    assert errors == e4 + Step(StartNotBeforeEnd, t, p, o, now);
    ghost var e5 := errors;
    if t.id == 0 && t.scheduledStart < now - OneHour {
      errors := errors + [StartInPast];
    }
    assert errors == e5 + Step(StartInPast, t, p, o, now);
    Reassociate(Step(OriginNotFound, t, p, o, now), Step(DestinationNotFound, t, p, o, now),
      Step(SameOriginAndDestination, t, p, o, now), Step(OperatorNotFound, t, p, o, now),
      Step(StartNotBeforeEnd, t, p, o, now), Step(StartInPast, t, p, o, now));
    ValidationErrorsUnfold(t, p, o, now);
  }

  lemma Reassociate<T>(a: seq<T>, b: seq<T>, c: seq<T>, d: seq<T>, e: seq<T>, f: seq<T>)
    ensures ((((a + b) + c) + d) + e) + f == a + (b + (c + (d + (e + f))))
  {
  }

  lemma FailingChecksCons(x: ValidationError, cs: seq<ValidationError>, t: Trip, places: map<int, Place>, operators: map<int, Operator>, now: Time)
    ensures FailingChecks([x] + cs, t, places, operators, now) == Step(x, t, places, operators, now) + FailingChecks(cs, t, places, operators, now)
  {
    assert ([x] + cs)[1..] == cs;
  }

  /** The check list, written out one check at a time. */
  lemma ValidationErrorsUnfold(t: Trip, places: map<int, Place>, operators: map<int, Operator>, now: Time)
    ensures ValidationErrors(t, places, operators, now) ==
      Step(OriginNotFound, t, places, operators, now) + (Step(DestinationNotFound, t, places, operators, now)
      + (Step(SameOriginAndDestination, t, places, operators, now) + (Step(OperatorNotFound, t, places, operators, now)
      + (Step(StartNotBeforeEnd, t, places, operators, now) + Step(StartInPast, t, places, operators, now)))))
  {
    var s5 := [StartInPast];
    var s4 := [StartNotBeforeEnd] + s5;
    var s3 := [OperatorNotFound] + s4;
    var s2 := [SameOriginAndDestination] + s3;
    var s1 := [DestinationNotFound] + s2;
    assert Checks == [OriginNotFound] + s1;
    FailingChecksCons(OriginNotFound, s1, t, places, operators, now);
    FailingChecksCons(DestinationNotFound, s2, t, places, operators, now);
    FailingChecksCons(SameOriginAndDestination, s3, t, places, operators, now);
    FailingChecksCons(OperatorNotFound, s4, t, places, operators, now);
    FailingChecksCons(StartNotBeforeEnd, s5, t, places, operators, now);
    FailingChecksCons(StartInPast, [], t, places, operators, now);
    assert s5 == [StartInPast] + [];
    assert Step(StartInPast, t, places, operators, now) + FailingChecks([], t, places, operators, now)
        == Step(StartInPast, t, places, operators, now);
  }

  lemma {:induction false} FailingChecksIff(cs: seq<ValidationError>, t: Trip, places: map<int, Place>, operators: map<int, Operator>, now: Time)
    ensures forall e :: e in FailingChecks(cs, t, places, operators, now) <==> e in cs && Fails(e, t, places, operators, now)
  {
    if cs != [] {
      FailingChecksIff(cs[1..], t, places, operators, now);
      assert cs == [cs[0]] + cs[1..];
    }
  }

  /** Each error is reported exactly when its own check fails. */
  lemma ValidationErrorsIff(t: Trip, places: map<int, Place>, operators: map<int, Operator>, now: Time)
    ensures forall e :: e in ValidationErrors(t, places, operators, now) <==> Fails(e, t, places, operators, now)
  {
    FailingChecksIff(Checks, t, places, operators, now);
    forall e ensures e in Checks {
      assert Checks[Rank(e)] == e;
    }
  }

  /** Validation passes exactly when all six checks pass. */
  lemma NoErrorsIff(t: Trip, places: map<int, Place>, operators: map<int, Operator>, now: Time)
    ensures ValidationErrors(t, places, operators, now) == [] <==>
      && t.originId in places
      && t.destinationId in places
      && t.originId != t.destinationId
      && t.operatorId in operators
      && t.scheduledStart < t.scheduledEnd
      && !(t.id == 0 && t.scheduledStart < now - OneHour)
  {
    ValidationErrorsIff(t, places, operators, now);
    var errs := ValidationErrors(t, places, operators, now);
    if errs != [] {
      assert Fails(errs[0], t, places, operators, now) by {
        assert errs[0] in errs;
      }
    } else {
      assert !Fails(OriginNotFound, t, places, operators, now);
      assert !Fails(DestinationNotFound, t, places, operators, now);
      assert !Fails(SameOriginAndDestination, t, places, operators, now);
      assert !Fails(OperatorNotFound, t, places, operators, now);
      assert !Fails(StartNotBeforeEnd, t, places, operators, now);
      assert !Fails(StartInPast, t, places, operators, now);
    }
  }

  /** The ranks of `s` strictly increase from left to right. */
  predicate RankIncreasing(s: seq<ValidationError>) {
    forall i, j :: 0 <= i < j < |s| ==> Rank(s[i]) < Rank(s[j])
  }

  lemma {:induction false} FailingChecksKeepRankOrder(cs: seq<ValidationError>, t: Trip, places: map<int, Place>, operators: map<int, Operator>, now: Time)
    requires RankIncreasing(cs)
    ensures RankIncreasing(FailingChecks(cs, t, places, operators, now))
    ensures |FailingChecks(cs, t, places, operators, now)| <= |cs|
  {
    if cs != [] {
      var tail := FailingChecks(cs[1..], t, places, operators, now);
      FailingChecksKeepRankOrder(cs[1..], t, places, operators, now);
      FailingChecksIff(cs[1..], t, places, operators, now);
      forall x | x in tail ensures Rank(cs[0]) < Rank(x) {
        var k :| 0 <= k < |cs[1..]| && cs[1..][k] == x;
        assert cs[k + 1] == x;
      }
      var head := Step(cs[0], t, places, operators, now);
      assert FailingChecks(cs, t, places, operators, now) == head + tail;
      if head == [] {
        assert head + tail == tail;
      } else {
        assert head == [cs[0]];
        ConsKeepsRankOrder(cs[0], tail);
      }
    }
  }

  lemma ConsKeepsRankOrder(x: ValidationError, s: seq<ValidationError>)
    requires RankIncreasing(s)
    requires forall y :: y in s ==> Rank(x) < Rank(y)
    ensures RankIncreasing([x] + s)
  {
    var r := [x] + s;
    forall i, j | 0 <= i < j < |r| ensures Rank(r[i]) < Rank(r[j]) {
      assert r[j] == s[j - 1];
      if i == 0 {
        assert r[j] in s;
      } else {
        assert r[i] == s[i - 1];
      }
    }
  }

  /** The errors come in check order, each at most once, so there are at most six. */
  lemma ErrorsInCheckOrder(t: Trip, places: map<int, Place>, operators: map<int, Operator>, now: Time)
    ensures var errs := ValidationErrors(t, places, operators, now);
      |errs| <= 6 && forall i, j :: 0 <= i < j < |errs| ==> Rank(errs[i]) < Rank(errs[j])
  {
    assert RankIncreasing(Checks);
    FailingChecksKeepRankOrder(Checks, t, places, operators, now);
  }

  /** Only a trip whose Id is 0 can be told that its start is in the past. */
  lemma PastCheckOnlyForNewTrips(t: Trip, places: map<int, Place>, operators: map<int, Operator>, now: Time)
    requires t.id != 0
    ensures StartInPast !in ValidationErrors(t, places, operators, now)
  {
    ValidationErrorsIff(t, places, operators, now);
  }

  /** An otherwise valid trip naming a missing operator gets exactly one error. */
  lemma MissingOperatorIsSingleError(t: Trip, places: map<int, Place>, operators: map<int, Operator>, now: Time)
    requires t.originId in places && t.destinationId in places && t.originId != t.destinationId
    requires t.operatorId !in operators
    requires t.scheduledStart < t.scheduledEnd && t.scheduledStart >= now - OneHour
    ensures ValidationErrors(t, places, operators, now) == [OperatorNotFound]
  {
    ValidationErrorsUnfold(t, places, operators, now);
  }

  /** Validation checks existence only: an inactive place that admits no trips still passes. */
  lemma ExistenceOnlyCheck(t: Trip, places: map<int, Place>, operators: map<int, Operator>, now: Time)
    requires t.originId in places && t.destinationId in places
    ensures OriginNotFound !in ValidationErrors(t, places, operators, now)
    ensures DestinationNotFound !in ValidationErrors(t, places[t.originId := places[t.originId].(status := Closed, isOriginAllowed := false)], operators, now)
  {
    ValidationErrorsIff(t, places, operators, now);
    ValidationErrorsIff(t, places[t.originId := places[t.originId].(status := Closed, isOriginAllowed := false)], operators, now);
  }

  // ------------------------------------------------------------ create / update / delete

  datatype TripError = TripNotFound(id: int) | ValidationFailed(errors: seq<ValidationError>)

  /** The trip as stored by a create: its new identity and both audit stamps set to `now`. */
  function StampedTrip(t: Trip, id: int, now: Time): (r: Trip)
    ensures r.id == id && r.createdAt == now && r.modifiedAt == now
    ensures r.(id := t.id, createdAt := t.createdAt, modifiedAt := t.modifiedAt) == t
  {
    t.(id := id, createdAt := now, modifiedAt := now)
  }

  method CreateTrip(db: Database, t: Trip, now: Time) returns (r: Result<Trip, TripError>)
    requires db.Valid()
    modifies db
    ensures db.Valid()
    ensures db.places == old(db.places) && db.operators == old(db.operators)
    ensures db.nextPlaceId == old(db.nextPlaceId) && db.nextOperatorId == old(db.nextOperatorId)
    ensures var errs := ValidationErrors(t, old(db.places), old(db.operators), now);
      if errs != [] then
        r == Failure(ValidationFailed(errs)) && db.trips == old(db.trips) && db.nextTripId == old(db.nextTripId)
      else
        var id := old(db.nextTripId);
        && r == Success(StampedTrip(t, id, now))
        && db.trips == old(db.trips)[id := r.value]
        && db.nextTripId == id + 1
  {
    var errors := ValidateTrip(db, t, now);
    if errors != [] {
      return Failure(ValidationFailed(errors));
    }
    var stored := t.(createdAt := now, modifiedAt := now);
    stored := stored.(id := db.nextTripId);
    db.trips := db.trips[stored.id := stored];
    db.nextTripId := db.nextTripId + 1;
    r := Success(stored);
  }

  /** A successful create keeps every trip's references resolvable. */
  lemma CreateKeepsReferences(trips: map<int, Trip>, places: map<int, Place>, operators: map<int, Operator>, t: Trip, id: int, now: Time)
    requires ReferencesResolve(trips, places, operators)
    requires ValidationErrors(t, places, operators, now) == []
    ensures ReferencesResolve(trips[id := StampedTrip(t, id, now)], places, operators)
  {
    NoErrorsIff(t, places, operators, now);
  }

  /**
   * The trip an update leaves behind: the incoming trip's fields, with the
   * existing trip's Id, CreatedAt, CreatedBy and ModifiedBy and ModifiedAt = now.
   */
  function CopyTripFields(existing: Trip, incoming: Trip, now: Time): (r: Trip)
    ensures r == incoming.(id := existing.id, createdAt := existing.createdAt,
                           createdBy := existing.createdBy, modifiedBy := existing.modifiedBy, modifiedAt := now)
  {
    existing.(
      originId := incoming.originId,
      destinationId := incoming.destinationId,
      operatorId := incoming.operatorId,
      scheduledStart := incoming.scheduledStart,
      scheduledEnd := incoming.scheduledEnd,
      status := incoming.status,
      actualStart := incoming.actualStart,
      actualEnd := incoming.actualEnd,
      estimatedDistance := incoming.estimatedDistance,
      actualDistance := incoming.actualDistance,
      notes := incoming.notes,
      vehicleId := incoming.vehicleId,
      modifiedAt := now)
  }

  method UpdateTrip(db: Database, t: Trip, now: Time) returns (r: Result<Trip, TripError>)
    requires db.Valid()
    modifies db
    ensures db.Valid()
    ensures db.places == old(db.places) && db.operators == old(db.operators)
    ensures db.nextPlaceId == old(db.nextPlaceId) && db.nextOperatorId == old(db.nextOperatorId)
    ensures db.nextTripId == old(db.nextTripId)
    ensures t.id !in old(db.trips) ==> r == Failure(TripNotFound(t.id)) && db.trips == old(db.trips)
    ensures t.id in old(db.trips) ==>
      var errs := ValidationErrors(t, old(db.places), old(db.operators), now);
      if errs != [] then
        r == Failure(ValidationFailed(errs)) && db.trips == old(db.trips)
      else
        && r == Success(CopyTripFields(old(db.trips)[t.id], t, now))
        && db.trips == old(db.trips)[t.id := r.value]
  {
    if t.id !in db.trips {
      return Failure(TripNotFound(t.id));
    }
    var existing := db.trips[t.id];
    var errors := ValidateTrip(db, t, now);
    if errors != [] {
      return Failure(ValidationFailed(errors));
    }
    existing := existing.(originId := t.originId);
    existing := existing.(destinationId := t.destinationId);
    existing := existing.(operatorId := t.operatorId);
    existing := existing.(scheduledStart := t.scheduledStart);
    existing := existing.(scheduledEnd := t.scheduledEnd);
    existing := existing.(status := t.status);
    existing := existing.(actualStart := t.actualStart);
    existing := existing.(actualEnd := t.actualEnd);
    existing := existing.(estimatedDistance := t.estimatedDistance);
    existing := existing.(actualDistance := t.actualDistance);
    existing := existing.(notes := t.notes);
    existing := existing.(vehicleId := t.vehicleId);
    existing := existing.(modifiedAt := now);
    db.trips := db.trips[t.id := existing];
    r := Success(existing);
  }

  /** An update finds its trip by a positive id, so validation never applies the past-date check to it. */
  lemma UpdateSkipsPastCheck(trips: map<int, Trip>, next: int, t: Trip, places: map<int, Place>, operators: map<int, Operator>, now: Time)
    requires TripsKeyed(trips, next) && t.id in trips
    ensures StartInPast !in ValidationErrors(t, places, operators, now)
  {
    PastCheckOnlyForNewTrips(t, places, operators, now);
  }

  /** A successful update keeps every trip's references resolvable. */
  lemma UpdateKeepsReferences(trips: map<int, Trip>, places: map<int, Place>, operators: map<int, Operator>, t: Trip, now: Time)
    requires ReferencesResolve(trips, places, operators) && t.id in trips
    requires ValidationErrors(t, places, operators, now) == []
    ensures ReferencesResolve(trips[t.id := CopyTripFields(trips[t.id], t, now)], places, operators)
  {
    NoErrorsIff(t, places, operators, now);
  }

  method DeleteTrip(db: Database, id: int) returns (deleted: bool)
    requires db.Valid()
    modifies db
    ensures db.Valid()
    ensures db.places == old(db.places) && db.operators == old(db.operators)
    ensures db.nextPlaceId == old(db.nextPlaceId) && db.nextOperatorId == old(db.nextOperatorId)
    ensures db.nextTripId == old(db.nextTripId)
    ensures deleted == (id in old(db.trips))
    ensures db.trips == old(db.trips) - {id}
  {
    if id !in db.trips {
      return false;
    }
    db.trips := db.trips - {id};
    deleted := true;
  }

  // ------------------------------------------------------------ status change

  /** Notes after a status change: a non-empty note replaces empty notes or is appended after "; ". */
  function AppendNote(notes: Option<string>, note: Option<string>): Option<string> {
    if IsNullOrEmpty(note) then notes
    else if IsNullOrEmpty(notes) then note
    else Some(notes.value + "; " + note.value)
  }

  /** Appending "B" to "A" gives "A; B"; appending to no notes gives the note. */
  lemma AppendNoteExamples()
    ensures AppendNote(Some("A"), Some("B")) == Some("A; B")
    ensures AppendNote(None, Some("B")) == Some("B")
    ensures AppendNote(Some(""), Some("B")) == Some("B")
    ensures AppendNote(Some("A"), Some("")) == Some("A")
  {
    assert "A" + "; " + "B" == "A; B";
  }

  /** A non-empty note is kept at the end and earlier notes are kept at the front, joined by "; ". */
  lemma AppendNoteKeepsHistory(notes: Option<string>, note: Option<string>)
    ensures IsNullOrEmpty(note) ==> AppendNote(notes, note) == notes
    ensures !IsNullOrEmpty(note) ==>
      var r := AppendNote(notes, note).value;
      && |r| >= |note.value|
      && r[|r| - |note.value|..] == note.value
      && (!IsNullOrEmpty(notes) ==>
            |r| == |notes.value| + 2 + |note.value| && r[..|notes.value|] == notes.value
            && r[|notes.value|..|notes.value| + 2] == "; ")
  {
    if !IsNullOrEmpty(note) && !IsNullOrEmpty(notes) {
      var r := AppendNote(notes, note).value;
      assert r == notes.value + "; " + note.value;
      assert r[|r| - |note.value|..] == note.value;
    }
  }

  /** The trip after a status change (the specification of `UpdateTripStatus`). */
  function ApplyStatus(t: Trip, status: TripStatus, actualStart: Option<Time>, actualEnd: Option<Time>,
                       note: Option<string>, now: Time): Trip
  {
    t.(status := status,
       modifiedAt := now,
       actualStart := if status == InProgress then Some(actualStart.GetOr(now)) else t.actualStart,
       actualEnd := if status == Completed then Some(actualEnd.GetOr(now)) else t.actualEnd,
       notes := AppendNote(t.notes, note))
  }

  /** Any status may follow any other: the requested status is always the one stored. */
  lemma StatusChangeUnguarded(t: Trip, status: TripStatus, actualStart: Option<Time>, actualEnd: Option<Time>,
                              note: Option<string>, now: Time)
    ensures ApplyStatus(t, status, actualStart, actualEnd, note, now).status == status
    ensures ApplyStatus(t, status, actualStart, actualEnd, note, now).modifiedAt == now
  {
  }

  /** InProgress stamps the actual start, Completed the actual end (supplied or now); other statuses touch neither. */
  lemma StatusStampsActualTimes(t: Trip, status: TripStatus, actualStart: Option<Time>, actualEnd: Option<Time>,
                                note: Option<string>, now: Time)
    ensures var r := ApplyStatus(t, status, actualStart, actualEnd, note, now);
      && (status == InProgress ==> r.actualStart == Some(if actualStart.Some? then actualStart.value else now) && r.actualEnd == t.actualEnd)
      && (status == Completed ==> r.actualEnd == Some(if actualEnd.Some? then actualEnd.value else now) && r.actualStart == t.actualStart)
      && (status != InProgress && status != Completed ==> r.actualStart == t.actualStart && r.actualEnd == t.actualEnd)
  {
  }

  /** A status change touches only status, the actual times, notes and ModifiedAt. */
  lemma StatusChangeFrame(t: Trip, status: TripStatus, actualStart: Option<Time>, actualEnd: Option<Time>,
                          note: Option<string>, now: Time)
    ensures var r := ApplyStatus(t, status, actualStart, actualEnd, note, now);
      r.(status := t.status, modifiedAt := t.modifiedAt, actualStart := t.actualStart,
         actualEnd := t.actualEnd, notes := t.notes) == t
  {
  }

  /** Marking a scheduled trip Completed is accepted and sets the actual end. */
  lemma ScheduledToCompleted(t: Trip, now: Time)
    requires t.status == Scheduled
    ensures ApplyStatus(t, Completed, None, None, None, now).status == Completed
    ensures ApplyStatus(t, Completed, None, None, None, now).actualEnd == Some(now)
  {
  }

  method UpdateTripStatus(db: Database, tripId: int, status: TripStatus, actualStart: Option<Time>,
                          actualEnd: Option<Time>, notes: Option<string>, now: Time)
    returns (r: Result<Trip, TripError>)
    requires db.Valid()
    modifies db
    ensures db.Valid()
    ensures db.places == old(db.places) && db.operators == old(db.operators)
    ensures db.nextPlaceId == old(db.nextPlaceId) && db.nextOperatorId == old(db.nextOperatorId)
    ensures db.nextTripId == old(db.nextTripId)
    ensures tripId !in old(db.trips) ==> r == Failure(TripNotFound(tripId)) && db.trips == old(db.trips)
    ensures tripId in old(db.trips) ==>
      && r == Success(ApplyStatus(old(db.trips)[tripId], status, actualStart, actualEnd, notes, now))
      && db.trips == old(db.trips)[tripId := r.value]
  {
    if tripId !in db.trips {
      return Failure(TripNotFound(tripId));
    }
    var trip := db.trips[tripId];
    trip := trip.(status := status);
    trip := trip.(modifiedAt := now);
    match status {
      case InProgress =>
        trip := trip.(actualStart := Some(if actualStart.Some? then actualStart.value else now));
      case Completed =>
        trip := trip.(actualEnd := Some(if actualEnd.Some? then actualEnd.value else now));
      case _ =>
    }
    if !IsNullOrEmpty(notes) {
      trip := trip.(notes := if IsNullOrEmpty(trip.notes) then notes else Some(trip.notes.value + "; " + notes.value));
    }
    db.trips := db.trips[tripId := trip];
    r := Success(trip);
  }

  // ------------------------------------------------------------ queries

  /** `OrderByDescending(ScheduledStartDateTime)`: `a` may come before `b`. */
  predicate StartsNoEarlier(a: Trip, b: Trip) {
    a.scheduledStart >= b.scheduledStart
  }

  lemma StartsNoEarlierIsOrder()
    ensures Total(StartsNoEarlier) && Transitive(StartsNoEarlier)
  {
  }

  /** All trips, latest scheduled start first. */
  function TripsByStartDescending(trips: map<int, Trip>): (r: seq<Trip>)
    ensures forall x :: x in r <==> x in trips.Values
    ensures |r| == |trips|
    ensures forall x :: multiset(r)[x] == |KeysHolding(trips, x)|
    ensures forall i, j :: 0 <= i < j < |r| ==> r[i].scheduledStart >= r[j].scheduledStart
  {
    var all := (e: Trip) => true;
    StartsNoEarlierIsOrder();
    ScanFilterSort(trips, all, StartsNoEarlier);
    FilterKeepsAll(Rows(trips), all);
    SortedPairwise(SortBy(Rows(trips), StartsNoEarlier), StartsNoEarlier);
    SortBy(Rows(trips), StartsNoEarlier)
  }

  /** A page of trips ordered by scheduled start descending; paging is not clamped here. */
  function GetTrips(trips: map<int, Trip>, page: Int32, pageSize: Int32): (r: Result<seq<Trip>, QueryError>)
    ensures r.Success? <==> PageOffset(page, pageSize) >= 0 && pageSize >= 1
    ensures r.Failure? ==> r.error == (if PageOffset(page, pageSize) < 0 then NegativeOffset else NonPositiveFetch)
    ensures r.Success? ==> |r.value| <= pageSize
    ensures r.Success? ==> forall x :: x in r.value ==> x in trips.Values
    ensures r.Success? ==> forall i, j :: 0 <= i < j < |r.value| ==> r.value[i].scheduledStart >= r.value[j].scheduledStart
    ensures r.Success? ==> PageSlice(TripsByStartDescending(trips), PageOffset(page, pageSize), pageSize, r.value)
  {
    var all := TripsByStartDescending(trips);
    var r := Page(all, PageOffset(page, pageSize), pageSize);
    if r.Success? then
      assert forall i :: 0 <= i < |r.value| ==> r.value[i] == all[PageOffset(page, pageSize) + i];
      assert forall x :: x in r.value ==> x in all;
      r
    else r
  }

  /** Trips with the given status, latest scheduled start first. */
  function GetTripsByStatus(trips: map<int, Trip>, status: TripStatus): (r: seq<Trip>)
    ensures forall x :: x in r <==> x in trips.Values && x.status == status
    ensures forall x :: multiset(r)[x] == if x.status == status then |KeysHolding(trips, x)| else 0
    ensures forall i, j :: 0 <= i < j < |r| ==> r[i].scheduledStart >= r[j].scheduledStart
  {
    var hasStatus := (t: Trip) => t.status == status;
    StartsNoEarlierIsOrder();
    ScanFilterSort(trips, hasStatus, StartsNoEarlier);
    SortedPairwise(SortBy(Filter(Rows(trips), hasStatus), StartsNoEarlier), StartsNoEarlier);
    SortBy(Filter(Rows(trips), hasStatus), StartsNoEarlier)
  }

  /** In a keyed table the by-status list holds each trip with that status exactly once, and no other. */
  lemma StatusListHoldsEachOnce(trips: map<int, Trip>, next: int, status: TripStatus)
    requires TripsKeyed(trips, next)
    ensures forall x :: multiset(GetTripsByStatus(trips, status))[x] == if x in trips.Values && x.status == status then 1 else 0
  {
    KeyedRowsOnce(trips, (t: Trip) => t.id);
  }
}
