/**
 * The trip management screen of the web client: the status buttons it
 * offers, the requests it builds from its form, and how it updates its local
 * list of trips when the server answers.
 */
module TripManagement {
  import opened Wrappers
  import opened Text
  import opened Entities
  import opened Queries
  import TS = TripService
  import TC = TripsController

  /** The trip as the server returns it to the client. */
  datatype TripResponse = TripResponse(
    id: int,
    originId: int,
    originName: string,
    destinationId: int,
    destinationName: string,
    operatorId: int,
    operatorName: string,
    scheduledStart: Time,
    scheduledEnd: Time,
    actualStart: Option<Time>,
    actualEnd: Option<Time>,
    status: TripStatus,
    estimatedDistance: Option<real>,
    actualDistance: Option<real>,
    notes: Option<string>,
    vehicleId: Option<string>,
    createdAt: Time,
    modifiedAt: Time)

  // ------------------------------------------------------------ status buttons

  predicate CanStartTrip(t: TripResponse) {
    t.status == Scheduled
  }

  predicate CanCompleteTrip(t: TripResponse) {
    t.status == InProgress
  }

  predicate CanCancelTrip(t: TripResponse) {
    t.status == Scheduled || t.status == InProgress
  }

  /** Some button is offered exactly for scheduled and in-progress trips; finished or delayed trips get none. */
  lemma ActionsOnlyForOpenTrips(t: TripResponse)
    ensures (CanStartTrip(t) || CanCompleteTrip(t) || CanCancelTrip(t)) <==> t.status in {Scheduled, InProgress}
    ensures t.status in {Completed, Cancelled, Delayed} ==> !CanStartTrip(t) && !CanCompleteTrip(t) && !CanCancelTrip(t)
  {
  }

  /** Start and complete are never offered together, and what can be started can also be cancelled. */
  lemma ButtonsExclusive(t: TripResponse)
    ensures !(CanStartTrip(t) && CanCompleteTrip(t))
    ensures CanStartTrip(t) ==> CanCancelTrip(t)
    ensures CanCompleteTrip(t) ==> CanCancelTrip(t)
  {
  }

  // ------------------------------------------------------------ status labels

  datatype StatusOption = StatusOption(value: TripStatus, caption: string)

  /** The choices of the status select; Delayed is not among them. */
  const StatusOptions: seq<StatusOption> := [
    StatusOption(Scheduled, "Programado"),
    StatusOption(InProgress, "En Progreso"),
    StatusOption(Completed, "Completado"),
    StatusOption(Cancelled, "Cancelado")
  ]

  /** `find`: the label of the first option with this value. */
  function FindLabel(options: seq<StatusOption>, status: TripStatus): (r: Option<string>)
    ensures r.None? <==> forall i :: 0 <= i < |options| ==> options[i].value != status
    ensures r.Some? ==> exists i ::
      && 0 <= i < |options| && options[i].value == status && options[i].caption == r.value
      && (forall j :: 0 <= j < i ==> options[j].value != status)
  {
    if options == [] then None
    else if options[0].value == status then Some(options[0].caption)
    else
      var r := FindLabel(options[1..], status);
      assert forall i :: 1 <= i < |options| ==> options[i] == options[1..][i - 1];
      if r.Some? then
        var i :|
          && 0 <= i < |options[1..]| && options[1..][i].value == status && options[1..][i].caption == r.value
          && (forall j :: 0 <= j < i ==> options[1..][j].value != status);
        assert options[i + 1] == options[1..][i];
        assert forall j :: 0 <= j < i + 1 ==> options[j].value != status by {
          forall j | 0 <= j < i + 1 ensures options[j].value != status {
            if j > 0 { assert options[j] == options[1..][j - 1]; }
          }
        }
        r
      else r
  }

  /** The label of an option, or the status's number when no option has it. */
  function GetStatusLabel(status: TripStatus): (r: string)
    ensures status != Delayed ==> exists i :: 0 <= i < |StatusOptions| && StatusOptions[i] == StatusOption(status, r)
    ensures status == Delayed ==> r == IntToString(TripStatusCode(status))
  {
    var option := FindLabel(StatusOptions, status);
    if option.Some? then option.value else IntToString(TripStatusCode(status))
  }

  /** A listed status shows its option's caption: the option values are distinct, so `find` stops at it. */
  lemma {:induction false} OptionLabel(i: int)
    requires 0 <= i < |StatusOptions|
    ensures GetStatusLabel(StatusOptions[i].value) == StatusOptions[i].caption
  {
    var status := StatusOptions[i].value;
    var r := FindLabel(StatusOptions, status);
    var j :| 0 <= j < |StatusOptions| && StatusOptions[j].value == status && StatusOptions[j].caption == r.value;
    assert j == i;
  }

  lemma ListedStatusLabels()
    ensures GetStatusLabel(Scheduled) == "Programado"
    ensures GetStatusLabel(InProgress) == "En Progreso"
    ensures GetStatusLabel(Completed) == "Completado"
    ensures GetStatusLabel(Cancelled) == "Cancelado"
  {
    OptionLabel(0);
    OptionLabel(1);
    OptionLabel(2);
    OptionLabel(3);
  }

  /** Delayed has no option, so its label is its number. */
  lemma DelayedLabel()
    ensures GetStatusLabel(Delayed) == "5"
  {
    assert TripStatusCode(Delayed) == 5;
    assert NatToString(5) == [Digits[5]];
  }

  // ------------------------------------------------------------ status requests

  datatype UpdateTripStatusRequest = UpdateTripStatusRequest(
    status: TripStatus,
    actualStart: Option<Time>,
    actualEnd: Option<Time>,
    notes: Option<string>)

  /** The request of a status button; `now` is the client's clock. */
  function BuildStatusRequest(newStatus: TripStatus, message: string, now: Time): (r: UpdateTripStatusRequest)
    ensures r.status == newStatus && r.notes == Some(message)
    ensures r.actualStart.Some? <==> newStatus == InProgress
    ensures r.actualEnd.Some? <==> newStatus == Completed
    ensures r.actualStart.Some? ==> r.actualStart.value == now
    ensures r.actualEnd.Some? ==> r.actualEnd.value == now
  {
    UpdateTripStatusRequest(newStatus,
      if newStatus == InProgress then Some(now) else None,
      if newStatus == Completed then Some(now) else None,
      Some(message))
  }

  /** The three buttons. */
  function StartRequest(now: Time): UpdateTripStatusRequest { BuildStatusRequest(InProgress, "Viaje iniciado", now) }
  function CompleteRequest(now: Time): UpdateTripStatusRequest { BuildStatusRequest(Completed, "Viaje completado", now) }
  function CancelRequest(now: Time): UpdateTripStatusRequest { BuildStatusRequest(Cancelled, "Viaje cancelado", now) }

  /**
   * If a status endpoint passed the start button's request to the trip
   * service's status change, the client's time would become the actual start
   * and the message would be appended to the notes; the actual end would be
   * left alone. The back end has no such endpoint.
   */
  lemma StartButtonOnServer(t: Trip, clientNow: Time, serverNow: Time)
    ensures var q := StartRequest(clientNow);
      var r := TS.ApplyStatus(t, q.status, q.actualStart, q.actualEnd, q.notes, serverNow);
      && r.status == InProgress && r.actualStart == Some(clientNow) && r.actualEnd == t.actualEnd
      && r.notes == (if IsNullOrEmpty(t.notes) then Some("Viaje iniciado") else Some(t.notes.value + "; " + "Viaje iniciado"))
  {
  }

  /** If a status endpoint passed the complete button's request to the trip service, the client's time would become the actual end. */
  lemma CompleteButtonOnServer(t: Trip, clientNow: Time, serverNow: Time)
    ensures var q := CompleteRequest(clientNow);
      var r := TS.ApplyStatus(t, q.status, q.actualStart, q.actualEnd, q.notes, serverNow);
      r.status == Completed && r.actualEnd == Some(clientNow) && r.actualStart == t.actualStart
  {
  }

  /** If a status endpoint passed the cancel button's request to the trip service, neither actual time would be stamped. */
  lemma CancelButtonOnServer(t: Trip, clientNow: Time, serverNow: Time)
    ensures var q := CancelRequest(clientNow);
      var r := TS.ApplyStatus(t, q.status, q.actualStart, q.actualEnd, q.notes, serverNow);
      r.status == Cancelled && r.actualStart == t.actualStart && r.actualEnd == t.actualEnd
  {
  }

  // ------------------------------------------------------------ trip requests

  /** The form's controls; `None` is an empty control. */
  datatype TripForm = TripForm(
    originId: Option<int>,
    destinationId: Option<int>,
    operatorId: Option<int>,
    scheduledDate: Option<Time>,
    status: Option<TripStatus>,
    notes: Option<string>)

  /** Every required control holds a value. */
  predicate FormValid(f: TripForm) {
    f.originId.Some? && f.destinationId.Some? && f.operatorId.Some? && f.scheduledDate.Some? && f.status.Some?
  }

  datatype TripRequest = TripRequest(
    id: Option<int>,
    originId: int,
    destinationId: int,
    operatorId: int,
    scheduledStart: Time,
    scheduledEnd: Time,
    status: TripStatus,
    notes: Option<string>)

  const OneDay: int := 86400

  /** `setHours(h, 0, 0, 0)`: hour `h` of the day that contains `d`. */
  function AtHour(d: Time, h: int): (r: Time)
    requires 0 <= h < 24
    ensures r - h * TS.OneHour <= d < r - h * TS.OneHour + OneDay
    ensures (r - h * TS.OneHour) % OneDay == 0
  {
    d - d % OneDay + h * TS.OneHour
  }

  /** The request of a create (no id) or an update: 08:00 to 18:00 on the chosen day, empty notes sent as null. */
  function BuildTripRequest(f: TripForm, id: Option<int>): (r: TripRequest)
    requires FormValid(f)
    ensures r.scheduledStart < r.scheduledEnd
    ensures r.scheduledEnd - r.scheduledStart == 10 * TS.OneHour
    ensures r.scheduledStart <= f.scheduledDate.value + 8 * TS.OneHour
    ensures r.scheduledStart == AtHour(f.scheduledDate.value, 8) && r.scheduledEnd == AtHour(f.scheduledDate.value, 18)
    ensures r.originId == f.originId.value && r.destinationId == f.destinationId.value
    ensures r.operatorId == f.operatorId.value && r.status == f.status.value
    ensures r.notes == (if IsNullOrEmpty(f.notes) then None else f.notes)
    ensures r.id == id
  {
    var day := f.scheduledDate.value;
    TripRequest(id, f.originId.value, f.destinationId.value, f.operatorId.value,
      AtHour(day, 8), AtHour(day, 18), f.status.value,
      if f.notes.Some? && f.notes.value != "" then f.notes else None)
  }

  /** A trip sent from the form never fails the controller's date check. */
  lemma FormTripPassesDateCheck(f: TripForm, id: Option<int>, t: Trip, places: map<int, Place>, operators: map<int, Operator>)
    requires FormValid(f)
    requires t.scheduledStart == BuildTripRequest(f, id).scheduledStart
    requires t.scheduledEnd == BuildTripRequest(f, id).scheduledEnd
    ensures TC.FirstFailure(t, places, operators) != Some(TS.StartNotBeforeEnd)
  {
  }

  // ------------------------------------------------------------ local list

  /** `findIndex`: the first position holding a trip with this id, or -1. */
  function IndexOfId(s: seq<TripResponse>, id: int): (r: int)
    ensures -1 <= r < |s|
    ensures r == -1 <==> forall i :: 0 <= i < |s| ==> s[i].id != id
    ensures r >= 0 ==> s[r].id == id && forall i :: 0 <= i < r ==> s[i].id != id
  {
    if s == [] then -1
    else if s[0].id == id then 0
    else
      var r := IndexOfId(s[1..], id);
      assert forall i :: 1 <= i < |s| ==> s[i] == s[1..][i - 1];
      if r == -1 then -1 else r + 1
  }

  /** `filter(t => t.id !== id)`. */
  function WithoutId(s: seq<TripResponse>, id: int): (r: seq<TripResponse>)
    ensures forall x :: x in r <==> x in s && x.id != id
    ensures forall x :: multiset(r)[x] == if x.id != id then multiset(s)[x] else 0
  {
    FilterMembership(s, (t: TripResponse) => t.id != id);
    FilterCount(s, (t: TripResponse) => t.id != id);
    Filter(s, (t: TripResponse) => t.id != id)
  }

  /** Removing by id keeps the remaining trips in their original order. */
  lemma WithoutIdKeepsOrder(s1: seq<TripResponse>, s2: seq<TripResponse>, id: int)
    ensures WithoutId(s1 + s2, id) == WithoutId(s1, id) + WithoutId(s2, id)
  {
    FilterAppend(s1, s2, (t: TripResponse) => t.id != id);
  }

  /** Removing an id no trip has changes nothing. */
  lemma WithoutAbsentId(s: seq<TripResponse>, id: int)
    requires forall i :: 0 <= i < |s| ==> s[i].id != id
    ensures WithoutId(s, id) == s
  {
    FilterKeepsAll(s, (t: TripResponse) => t.id != id);
  }

  /** What submitting the form sends. */
  datatype Submission = NothingSent | CreateSent(request: TripRequest) | UpdateSent(id: int, request: TripRequest)

  /** The form after `resetForm`: every control empty except status, which is Scheduled. */
  const ClearedForm: TripForm := TripForm(None, None, None, None, Some(Scheduled), None)

  class TripManagementComponent {
    var trips: seq<TripResponse>
    var form: TripForm
    var isEditing: bool
    var editingTripId: Option<int>
    var isLoading: bool

    constructor ()
      ensures trips == [] && !isEditing && editingTripId == None && !isLoading
      ensures form == TripForm(None, None, None, None, Some(Scheduled), Some(""))
    {
      trips := [];
      form := TripForm(None, None, None, None, Some(Scheduled), Some(""));
      isEditing := false;
      editingTripId := None;
      isLoading := false;
    }

    method ResetForm()
      modifies this
      ensures form == ClearedForm && !isEditing && editingTripId == None
      ensures trips == old(trips) && isLoading == old(isLoading)
    {
      form := TripForm(None, None, None, None, None, None);
      form := form.(status := Some(Scheduled));
      isEditing := false;
      editingTripId := None;
    }

    /** Loads a trip into the form and remembers its id. */
    method EditTrip(t: TripResponse)
      modifies this
      ensures isEditing && editingTripId == Some(t.id)
      ensures form == TripForm(Some(t.originId), Some(t.destinationId), Some(t.operatorId),
                               Some(t.scheduledStart), Some(t.status), t.notes)
      ensures trips == old(trips) && isLoading == old(isLoading)
    {
      isEditing := true;
      editingTripId := Some(t.id);
      form := TripForm(Some(t.originId), Some(t.destinationId), Some(t.operatorId),
                       Some(t.scheduledStart), Some(t.status), t.notes);
    }

    /** `isEditing && editingTripId` is JavaScript truthiness: an id of 0 counts as no id. */
    predicate SubmitsUpdate()
      reads this
    {
      isEditing && editingTripId.Some? && editingTripId.value != 0
    }

    /** An invalid form sends nothing; otherwise an update or a create request goes out and loading starts. */
    method OnSubmit() returns (s: Submission)
      modifies this
      ensures !FormValid(old(form)) ==> s == NothingSent && isLoading == old(isLoading)
      ensures FormValid(old(form)) && old(SubmitsUpdate()) ==>
        s == UpdateSent(old(editingTripId).value, BuildTripRequest(old(form), old(editingTripId)))
        && isLoading
      ensures FormValid(old(form)) && !old(SubmitsUpdate()) ==>
        s == CreateSent(BuildTripRequest(old(form), None)) && isLoading
      ensures trips == old(trips) && form == old(form)
      ensures isEditing == old(isEditing) && editingTripId == old(editingTripId)
    {
      if !FormValid(form) {
        return NothingSent;
      }
      if isEditing && editingTripId.Some? && editingTripId.value != 0 {
        isLoading := true;
        var id := editingTripId.value;
        s := UpdateSent(id, BuildTripRequest(form, Some(id)));
      } else {
        isLoading := true;
        s := CreateSent(BuildTripRequest(form, None));
      }
    }

    /** A create answered: the new trip goes at the end, the form is reset and loading stops. */
    method CreateSucceeded(newTrip: TripResponse)
      modifies this
      ensures trips == old(trips) + [newTrip]
      ensures form == ClearedForm && !isEditing && editingTripId == None && !isLoading
    {
      trips := trips + [newTrip];
      ResetForm();
      isLoading := false;
    }

    /** An update answered: the form is reset and loading stops; the list is then reloaded from the server. */
    method UpdateSucceeded()
      modifies this
      ensures form == ClearedForm && !isEditing && editingTripId == None && !isLoading
      ensures trips == old(trips)
    {
      ResetForm();
      isLoading := false;
    }

    /** A failed create, update or delete only stops loading; the form and the list are kept. */
    method RequestFailed()
      modifies this
      ensures !isLoading
      ensures trips == old(trips) && form == old(form)
      ensures isEditing == old(isEditing) && editingTripId == old(editingTripId)
    {
      isLoading := false;
    }

    /** The delete button asks for confirmation; only a confirmed delete is sent and starts loading. */
    method DeleteRequested(confirmed: bool) returns (sent: bool)
      modifies this
      ensures sent == confirmed
      ensures isLoading == (confirmed || old(isLoading))
      ensures trips == old(trips) && form == old(form)
      ensures isEditing == old(isEditing) && editingTripId == old(editingTripId)
    {
      sent := confirmed;
      if confirmed {
        isLoading := true;
      }
    }

    /** A delete answered: every trip with that id leaves the list, the others stay in order. */
    method DeleteSucceeded(id: int)
      modifies this
      ensures trips == WithoutId(old(trips), id)
      ensures !isLoading
      ensures form == old(form) && isEditing == old(isEditing) && editingTripId == old(editingTripId)
    {
      trips := WithoutId(trips, id);
      isLoading := false;
    }

    /** A status change answered: the first trip with that id is replaced; with none, the list stays as it was. */
    method StatusUpdated(tripId: int, updatedTrip: TripResponse)
      modifies this
      ensures var index := IndexOfId(old(trips), tripId);
        trips == if index == -1 then old(trips) else old(trips)[index := updatedTrip]
      ensures form == old(form) && isEditing == old(isEditing)
      ensures editingTripId == old(editingTripId) && isLoading == old(isLoading)
    {
      var index := IndexOfId(trips, tripId);
      if index != -1 {
        trips := trips[index := updatedTrip];
      }
    }
  }

  /** The status update changes only the matched entry, and only when there is one. */
  lemma StatusUpdateFrame(s: seq<TripResponse>, tripId: int, updatedTrip: TripResponse)
    ensures var index := IndexOfId(s, tripId);
      var r := if index == -1 then s else s[index := updatedTrip];
      && |r| == |s|
      && (index == -1 <==> forall i :: 0 <= i < |s| ==> s[i].id != tripId)
      && forall i :: 0 <= i < |s| && i != index ==> r[i] == s[i]
  {
  }

  /** Editing a trip whose id is 0 and submitting sends a create, not an update. */
  lemma EditingIdZeroCreates(c: TripManagementComponent)
    requires c.isEditing && c.editingTripId == Some(0)
    ensures !c.SubmitsUpdate()
  {
  }
}
