/**
 * The three tables (Places, Operators, Trips), each keyed by its integer
 * identity, and the counters from which the database hands out new
 * identities. The services and controllers share one instance and change it
 * in place.
 */
module Store {
  import opened Wrappers
  import opened Text
  import opened Entities
  import opened Queries

  /** Every stored row sits under its own id, a positive identity already handed out. */
  predicate PlacesKeyed(m: map<int, Place>, next: int) {
    forall id :: id in m ==> 1 <= id < next && m[id].id == id
  }

  predicate OperatorsKeyed(m: map<int, Operator>, next: int) {
    forall id :: id in m ==> 1 <= id < next && m[id].id == id
  }

  predicate TripsKeyed(m: map<int, Trip>, next: int) {
    forall id :: id in m ==> 1 <= id < next && m[id].id == id
  }

  /** No two places share a non-empty code. */
  predicate UniquePlaceCodes(places: map<int, Place>) {
    forall a, b :: a in places && b in places && a != b && !IsNullOrEmpty(places[a].code)
      ==> places[a].code != places[b].code
  }

  /** Every trip's origin, destination and operator exist (referential integrity). */
  predicate ReferencesResolve(trips: map<int, Trip>, places: map<int, Place>, operators: map<int, Operator>) {
    forall id :: id in trips ==>
      trips[id].originId in places && trips[id].destinationId in places && trips[id].operatorId in operators
  }

  /** In a keyed table, `Places.Any(p => p.Id == x)` is the same as looking `x` up as a key. */
  lemma PlaceExistsById(places: map<int, Place>, next: int, x: int)
    requires PlacesKeyed(places, next)
    ensures AnyRow(places, (p: Place) => p.id == x) <==> x in places
  {
  }

  /** In a keyed table, `Operators.Any(o => o.Id == x)` is the same as looking `x` up as a key. */
  lemma OperatorExistsById(operators: map<int, Operator>, next: int, x: int)
    requires OperatorsKeyed(operators, next)
    ensures AnyRow(operators, (o: Operator) => o.id == x) <==> x in operators
  {
  }

  /** In keyed tables every stored row is stored under exactly one key, its own id. */
  lemma RowsStoredOnce(places: map<int, Place>, operators: map<int, Operator>, trips: map<int, Trip>,
                       nextPlace: int, nextOperator: int, nextTrip: int)
    requires PlacesKeyed(places, nextPlace) && OperatorsKeyed(operators, nextOperator) && TripsKeyed(trips, nextTrip)
    ensures forall x: Place :: |KeysHolding(places, x)| == if x in places.Values then 1 else 0
    ensures forall x: Operator :: |KeysHolding(operators, x)| == if x in operators.Values then 1 else 0
    ensures forall x: Trip :: |KeysHolding(trips, x)| == if x in trips.Values then 1 else 0
  {
    KeyedRowsOnce(places, (p: Place) => p.id);
    KeyedRowsOnce(operators, (o: Operator) => o.id);
    KeyedRowsOnce(trips, (t: Trip) => t.id);
  }

  class Database {
    var places: map<int, Place>
    var operators: map<int, Operator>
    var trips: map<int, Trip>
    var nextPlaceId: int
    var nextOperatorId: int
    var nextTripId: int

    ghost predicate Valid()
      reads this
    {
      && 1 <= nextPlaceId && 1 <= nextOperatorId && 1 <= nextTripId
      && PlacesKeyed(places, nextPlaceId)
      && OperatorsKeyed(operators, nextOperatorId)
      && TripsKeyed(trips, nextTripId)
    }

    /** An empty database whose identities start at 1. */
    constructor ()
      ensures Valid()
      ensures places == map[] && operators == map[] && trips == map[]
      ensures nextPlaceId == 1 && nextOperatorId == 1 && nextTripId == 1
    {
      places, operators, trips := map[], map[], map[];
      nextPlaceId, nextOperatorId, nextTripId := 1, 1, 1;
    }
  }
}
