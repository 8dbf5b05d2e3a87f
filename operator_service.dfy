/**
 * The operator service: create stamps and stores without any validation,
 * update copies fields onto the stored operator, delete refuses an operator
 * with assigned trips, and the lists are ordered by first name, then last name.
 */
module OperatorService {
  import opened Wrappers
  import opened Text
  import opened Entities
  import opened Queries
  import opened Store

  datatype OperatorError = OperatorNotFound(id: int) | OperatorHasTrips

  function Message(e: OperatorError): string {
    match e
    case OperatorNotFound(id) => "Operador con ID " + IntToString(id) + " no encontrado"
    case OperatorHasTrips => "No se puede eliminar el operador porque tiene viajes asignados"
  }

  // ------------------------------------------------------------ create

  /** The operator as stored by a create: its new identity and both audit stamps set to `now`. */
  function StampedOperator(o: Operator, id: int, now: Time): (r: Operator)
    ensures r.id == id && r.createdAt == now && r.modifiedAt == now
    ensures r.(id := o.id, createdAt := o.createdAt, modifiedAt := o.modifiedAt) == o
  {
    o.(id := id, createdAt := now, modifiedAt := now)
  }

  /** A create always succeeds: no field is checked, not even the names. */
  method CreateOperator(db: Database, o: Operator, now: Time) returns (r: Operator)
    requires db.Valid()
    modifies db
    ensures db.Valid()
    ensures db.trips == old(db.trips) && db.places == old(db.places)
    ensures db.nextTripId == old(db.nextTripId) && db.nextPlaceId == old(db.nextPlaceId)
    ensures r == StampedOperator(o, old(db.nextOperatorId), now)
    ensures db.operators == old(db.operators)[old(db.nextOperatorId) := r]
    ensures db.nextOperatorId == old(db.nextOperatorId) + 1
  {
    var stored := o.(createdAt := now, modifiedAt := now);
    stored := stored.(id := db.nextOperatorId);
    db.operators := db.operators[stored.id := stored];
    db.nextOperatorId := db.nextOperatorId + 1;
    r := stored;
  }

  /** A create adds exactly one operator and keeps every earlier one. */
  lemma CreateAddsOne(operators: map<int, Operator>, next: int, o: Operator, now: Time)
    requires OperatorsKeyed(operators, next)
    ensures var after := operators[next := StampedOperator(o, next, now)];
      |after| == |operators| + 1 && forall k :: k in operators ==> k in after && after[k] == operators[k]
  {
    assert next !in operators;
  }

  // ------------------------------------------------------------ update

  /**
   * The operator an update leaves behind: the incoming operator's fields, with
   * the existing operator's Id, CreatedAt, CreatedBy and ModifiedBy and ModifiedAt = now.
   */
  function CopyOperatorFields(existing: Operator, incoming: Operator, now: Time): (r: Operator)
    ensures r == incoming.(id := existing.id, createdAt := existing.createdAt,
                           createdBy := existing.createdBy, modifiedBy := existing.modifiedBy, modifiedAt := now)
  {
    existing.(
      firstName := incoming.firstName,
      lastName := incoming.lastName,
      email := incoming.email,
      phone := incoming.phone,
      employeeId := incoming.employeeId,
      licenseNumber := incoming.licenseNumber,
      licenseExpiryDate := incoming.licenseExpiryDate,
      status := incoming.status,
      dateOfBirth := incoming.dateOfBirth,
      hireDate := incoming.hireDate,
      address := incoming.address,
      emergencyContact := incoming.emergencyContact,
      emergencyPhone := incoming.emergencyPhone,
      modifiedAt := now)
  }

  /** The operator is found by the incoming operator's own id. */
  method UpdateOperator(db: Database, o: Operator, now: Time) returns (r: Result<Operator, OperatorError>)
    requires db.Valid()
    modifies db
    ensures db.Valid()
    ensures db.trips == old(db.trips) && db.places == old(db.places)
    ensures db.nextTripId == old(db.nextTripId) && db.nextPlaceId == old(db.nextPlaceId)
    ensures db.nextOperatorId == old(db.nextOperatorId)
    ensures o.id !in old(db.operators) ==> r == Failure(OperatorNotFound(o.id)) && db.operators == old(db.operators)
    ensures o.id in old(db.operators) ==>
      && r == Success(CopyOperatorFields(old(db.operators)[o.id], o, now))
      && db.operators == old(db.operators)[o.id := r.value]
  {
    if o.id !in db.operators {
      return Failure(OperatorNotFound(o.id));
    }
    var existing := db.operators[o.id];
    existing := existing.(firstName := o.firstName);
    existing := existing.(lastName := o.lastName);
    existing := existing.(email := o.email);
    existing := existing.(phone := o.phone);
    existing := existing.(employeeId := o.employeeId);
    existing := existing.(licenseNumber := o.licenseNumber);
    existing := existing.(licenseExpiryDate := o.licenseExpiryDate);
    existing := existing.(status := o.status);
    existing := existing.(dateOfBirth := o.dateOfBirth);
    existing := existing.(hireDate := o.hireDate);
    existing := existing.(address := o.address);
    existing := existing.(emergencyContact := o.emergencyContact);
    existing := existing.(emergencyPhone := o.emergencyPhone);
    existing := existing.(modifiedAt := now);
    db.operators := db.operators[o.id := existing];
    r := Success(existing);
  }

  /** In a keyed table the updated operator keeps the id it is stored under. */
  lemma UpdateKeepsKey(operators: map<int, Operator>, next: int, o: Operator, now: Time)
    requires OperatorsKeyed(operators, next) && o.id in operators
    ensures OperatorsKeyed(operators[o.id := CopyOperatorFields(operators[o.id], o, now)], next)
  {
  }

  // ------------------------------------------------------------ delete

  /** Some trip is assigned to operator `id`. */
  function HasTrips(trips: map<int, Trip>, id: int): (r: bool)
    ensures r <==> exists k :: k in trips && trips[k].operatorId == id
  {
    AnyRow(trips, (t: Trip) => t.operatorId == id)
  }

  /** Deleting reports false for a missing operator and refuses an operator with trips. */
  method DeleteOperator(db: Database, id: int) returns (r: Result<bool, OperatorError>)
    requires db.Valid()
    modifies db
    ensures db.Valid()
    ensures db.trips == old(db.trips) && db.places == old(db.places)
    ensures db.nextTripId == old(db.nextTripId) && db.nextPlaceId == old(db.nextPlaceId)
    ensures db.nextOperatorId == old(db.nextOperatorId)
    ensures id !in old(db.operators) ==> r == Success(false) && db.operators == old(db.operators)
    ensures id in old(db.operators) && HasTrips(old(db.trips), id) ==>
      r == Failure(OperatorHasTrips) && db.operators == old(db.operators)
    ensures id in old(db.operators) && !HasTrips(old(db.trips), id) ==>
      r == Success(true) && db.operators == old(db.operators) - {id}
  {
    if id !in db.operators {
      return Success(false);
    }
    var hasTrips := HasTrips(db.trips, id);
    if hasTrips {
      return Failure(OperatorHasTrips);
    }
    db.operators := db.operators - {id};
    r := Success(true);
  }

  /** A delete that goes through leaves every trip's references resolvable. */
  lemma DeleteKeepsReferences(trips: map<int, Trip>, places: map<int, Place>, operators: map<int, Operator>, id: int)
    requires ReferencesResolve(trips, places, operators)
    requires !HasTrips(trips, id)
    ensures ReferencesResolve(trips, places, operators - {id})
  {
  }

  // ------------------------------------------------------------ queries

  /** `OrderBy(FirstName).ThenBy(LastName)`: `a` may come before `b`. */
  predicate FirstThenLast(a: Operator, b: Operator) {
    ThenByLe(a.firstName, a.lastName, b.firstName, b.lastName)
  }

  lemma FirstThenLastIsOrder()
    ensures Total(FirstThenLast) && Transitive(FirstThenLast)
  {
    forall a: Operator, b: Operator ensures FirstThenLast(a, b) || FirstThenLast(b, a) {
      ThenByLeTotal(a.firstName, a.lastName, b.firstName, b.lastName);
    }
    forall a: Operator, b: Operator, c: Operator | FirstThenLast(a, b) && FirstThenLast(b, c)
      ensures FirstThenLast(a, c)
    {
      ThenByLeTransitive(a.firstName, a.lastName, b.firstName, b.lastName, c.firstName, c.lastName);
    }
  }

  /** The operators satisfying `keep`, by first name and then last name. */
  function OperatorsByFirstName(operators: map<int, Operator>, keep: Operator -> bool): (r: seq<Operator>)
    ensures forall x :: x in r <==> x in operators.Values && keep(x)
    ensures forall x :: multiset(r)[x] == if keep(x) then |KeysHolding(operators, x)| else 0
    ensures forall i, j :: 0 <= i < j < |r| ==>
      StrLe(r[i].firstName, r[j].firstName) && (r[i].firstName == r[j].firstName ==> StrLe(r[i].lastName, r[j].lastName))
  {
    FirstThenLastIsOrder();
    ScanFilterSort(operators, keep, FirstThenLast);
    SortedPairwise(SortBy(Filter(Rows(operators), keep), FirstThenLast), FirstThenLast);
    SortBy(Filter(Rows(operators), keep), FirstThenLast)
  }

  /** Every operator, whatever its status. */
  function GetOperators(operators: map<int, Operator>): (r: seq<Operator>)
    ensures forall x :: x in r <==> x in operators.Values
    ensures |r| == |operators|
    ensures forall x :: multiset(r)[x] == |KeysHolding(operators, x)|
    ensures forall i, j :: 0 <= i < j < |r| ==>
      StrLe(r[i].firstName, r[j].firstName) && (r[i].firstName == r[j].firstName ==> StrLe(r[i].lastName, r[j].lastName))
  {
    var all := (o: Operator) => true;
    FilterKeepsAll(Rows(operators), all);
    SortByPermutes(Rows(operators), FirstThenLast);
    var r := OperatorsByFirstName(operators, all);
    assert |r| == |multiset(r)| == |multiset(Rows(operators))|;
    r
  }

  /** The active operators only. */
  function GetActiveOperators(operators: map<int, Operator>): (r: seq<Operator>)
    ensures forall x :: x in r <==> x in operators.Values && x.status == OperatorActive
    ensures forall x :: multiset(r)[x] == if x.status == OperatorActive then |KeysHolding(operators, x)| else 0
    ensures forall i, j :: 0 <= i < j < |r| ==>
      StrLe(r[i].firstName, r[j].firstName) && (r[i].firstName == r[j].firstName ==> StrLe(r[i].lastName, r[j].lastName))
  {
    OperatorsByFirstName(operators, (o: Operator) => o.status == OperatorActive)
  }
}
