/**
 * The place service: a name is required, a non-empty code must be unique
 * (an update ignores the place's own row), a place used by a trip cannot be
 * deleted, and the list queries are filters over the table ordered by name,
 * one of them paged with clamped parameters.
 */
module PlaceService {
  import opened Wrappers
  import opened Text
  import opened Entities
  import opened Queries
  import opened Store

  datatype PlaceError =
    | PlaceNotFound(id: int)
    | NameRequired
    | DuplicateCode
    | DuplicateCodeOther
    | PlaceInUse

  function Message(e: PlaceError): string {
    match e
    case PlaceNotFound(id) => "Lugar con ID " + IntToString(id) + " no encontrado"
    case NameRequired => "El nombre del lugar es requerido"
    case DuplicateCode => "Ya existe un lugar con este código"
    case DuplicateCodeOther => "Ya existe otro lugar con este código"
    case PlaceInUse => "No se puede eliminar el lugar porque está siendo usado en viajes"
  }

  // ------------------------------------------------------------ code lookup

  /** Some place other than `excludeId` (when given) has exactly this code. */
  function ExistsByCode(places: map<int, Place>, code: string, excludeId: Option<int>): (r: bool)
    ensures r <==> exists k :: k in places && places[k].code == Some(code)
                                && (excludeId.None? || places[k].id != excludeId.value)
  {
    var byCode := (p: Place) => p.code == Some(code);
    if excludeId.Some? then
      AnyRow(places, (p: Place) => byCode(p) && p.id != excludeId.value)
    else
      AnyRow(places, byCode)
  }

  /** In a keyed table, excluding an id excludes exactly the row stored under it. */
  lemma ExistsByCodeExcluding(places: map<int, Place>, next: int, code: string, id: int)
    requires PlacesKeyed(places, next)
    ensures ExistsByCode(places, code, Some(id)) <==> exists k :: k in places && k != id && places[k].code == Some(code)
  {
  }

  // ------------------------------------------------------------ create

  /** The place as stored by a create: its new identity and both audit stamps set to `now`. */
  function StampedPlace(p: Place, id: int, now: Time): (r: Place)
    ensures r.id == id && r.createdAt == now && r.modifiedAt == now
    ensures r.(id := p.id, createdAt := p.createdAt, modifiedAt := p.modifiedAt) == p
  {
    p.(id := id, createdAt := now, modifiedAt := now)
  }

  /** Why a create is refused, checked in the source's order: the name first, then the code. */
  function CreateRejection(places: map<int, Place>, p: Place): Option<PlaceError> {
    if IsNullOrWhiteSpace(Some(p.name)) then Some(NameRequired)
    else if !IsNullOrEmpty(p.code) && ExistsByCode(places, p.code.value, None) then Some(DuplicateCode)
    else None
  }

  /** A create is accepted exactly when the name is not blank and no place holds its non-empty code. */
  lemma CreateAcceptedIff(places: map<int, Place>, p: Place)
    ensures CreateRejection(places, p).None? <==>
      && !Blank(p.name)
      && (IsNullOrEmpty(p.code) || forall k :: k in places ==> places[k].code != p.code)
  {
  }

  /** A default-constructed place is refused: its name is the empty string. */
  lemma DefaultPlaceRejected(places: map<int, Place>, now: Time)
    ensures CreateRejection(places, NewPlace(now)) == Some(NameRequired)
  {
  }

  method CreatePlace(db: Database, p: Place, now: Time) returns (r: Result<Place, PlaceError>)
    requires db.Valid()
    modifies db
    ensures db.Valid()
    ensures db.trips == old(db.trips) && db.operators == old(db.operators)
    ensures db.nextTripId == old(db.nextTripId) && db.nextOperatorId == old(db.nextOperatorId)
    ensures var rejection := CreateRejection(old(db.places), p);
      if rejection.Some? then
        r == Failure(rejection.value) && db.places == old(db.places) && db.nextPlaceId == old(db.nextPlaceId)
      else
        var id := old(db.nextPlaceId);
        && r == Success(StampedPlace(p, id, now))
        && db.places == old(db.places)[id := r.value]
        && db.nextPlaceId == id + 1
  {
    if IsNullOrWhiteSpace(Some(p.name)) {
      return Failure(NameRequired);
    }
    if !IsNullOrEmpty(p.code) {
      var existingByCode := ExistsByCode(db.places, p.code.value, None);
      if existingByCode {
        return Failure(DuplicateCode);
      }
    }
    var stored := p.(createdAt := now, modifiedAt := now);
    stored := stored.(id := db.nextPlaceId);
    db.places := db.places[stored.id := stored];
    db.nextPlaceId := db.nextPlaceId + 1;
    r := Success(stored);
  }

  /** An accepted create keeps non-empty place codes unique. */
  lemma CreatePreservesUniqueCodes(places: map<int, Place>, next: int, p: Place, now: Time)
    requires PlacesKeyed(places, next) && UniquePlaceCodes(places)
    requires CreateRejection(places, p).None?
    ensures UniquePlaceCodes(places[next := StampedPlace(p, next, now)])
  {
    var q := StampedPlace(p, next, now);
    var after := places[next := q];
    CreateAcceptedIff(places, p);
    forall a, b | a in after && b in after && a != b && !IsNullOrEmpty(after[a].code)
      ensures after[a].code != after[b].code
    {
      if a == next {
        assert b in places;
      } else if b == next {
        assert a in places;
      }
    }
  }

  // ------------------------------------------------------------ update

  /** Why an update is refused, in the source's order: a missing place, a blank name, a code held by another place. */
  function UpdateRejection(places: map<int, Place>, id: int, p: Place): Option<PlaceError> {
    if id !in places then Some(PlaceNotFound(id))
    else if IsNullOrWhiteSpace(Some(p.name)) then Some(NameRequired)
    else if !IsNullOrEmpty(p.code) && ExistsByCode(places, p.code.value, Some(id)) then Some(DuplicateCodeOther)
    else None
  }

  /**
   * The place an update leaves behind: the incoming place's fields, with the
   * existing place's Id, CreatedAt, CreatedBy and ModifiedBy and ModifiedAt = now.
   */
  function CopyPlaceFields(existing: Place, incoming: Place, now: Time): (r: Place)
    ensures r == incoming.(id := existing.id, createdAt := existing.createdAt,
                           createdBy := existing.createdBy, modifiedBy := existing.modifiedBy, modifiedAt := now)
  {
    existing.(
      name := incoming.name,
      code := incoming.code,
      description := incoming.description,
      address := incoming.address,
      city := incoming.city,
      state := incoming.state,
      country := incoming.country,
      postalCode := incoming.postalCode,
      latitude := incoming.latitude,
      longitude := incoming.longitude,
      placeType := incoming.placeType,
      status := incoming.status,
      isOriginAllowed := incoming.isOriginAllowed,
      isDestinationAllowed := incoming.isDestinationAllowed,
      contactPerson := incoming.contactPerson,
      contactPhone := incoming.contactPhone,
      contactEmail := incoming.contactEmail,
      operatingHoursStart := incoming.operatingHoursStart,
      operatingHoursEnd := incoming.operatingHoursEnd,
      specialInstructions := incoming.specialInstructions,
      modifiedAt := now)
  }

  method UpdatePlace(db: Database, id: int, p: Place, now: Time) returns (r: Result<Place, PlaceError>)
    requires db.Valid()
    modifies db
    ensures db.Valid()
    ensures db.trips == old(db.trips) && db.operators == old(db.operators)
    ensures db.nextTripId == old(db.nextTripId) && db.nextOperatorId == old(db.nextOperatorId)
    ensures db.nextPlaceId == old(db.nextPlaceId)
    ensures var rejection := UpdateRejection(old(db.places), id, p);
      if rejection.Some? then
        r == Failure(rejection.value) && db.places == old(db.places)
      else
        && r == Success(CopyPlaceFields(old(db.places)[id], p, now))
        && db.places == old(db.places)[id := r.value]
  {
    if id !in db.places {
      return Failure(PlaceNotFound(id));
    }
    var existing := db.places[id];
    if IsNullOrWhiteSpace(Some(p.name)) {
      return Failure(NameRequired);
    }
    if !IsNullOrEmpty(p.code) {
      var existingByCode := ExistsByCode(db.places, p.code.value, Some(id));
      if existingByCode {
        return Failure(DuplicateCodeOther);
      }
    }
    existing := CopyPlaceFields(existing, p, now);
    db.places := db.places[id := existing];
    r := Success(existing);
  }

  /** An accepted update keeps non-empty place codes unique: the only row it may share a code with is its own. */
  lemma UpdatePreservesUniqueCodes(places: map<int, Place>, next: int, id: int, p: Place, now: Time)
    requires PlacesKeyed(places, next) && UniquePlaceCodes(places)
    requires UpdateRejection(places, id, p).None?
    ensures UniquePlaceCodes(places[id := CopyPlaceFields(places[id], p, now)])
  {
    var q := CopyPlaceFields(places[id], p, now);
    if !IsNullOrEmpty(p.code) {
      ExistsByCodeExcluding(places, next, p.code.value, id);
    }
    assert forall k :: k in places && k != id && !IsNullOrEmpty(q.code) ==> places[k].code != q.code;
    ReplaceKeepsUniqueCodes(places, id, q);
  }

  /** Storing `q` under `id` keeps codes unique when no other row holds `q`'s non-empty code. */
  lemma ReplaceKeepsUniqueCodes(places: map<int, Place>, id: int, q: Place)
    requires UniquePlaceCodes(places)
    requires forall k :: k in places && k != id && !IsNullOrEmpty(q.code) ==> places[k].code != q.code
    ensures UniquePlaceCodes(places[id := q])
  {
    var after := places[id := q];
    forall a, b | a in after && b in after && a != b && !IsNullOrEmpty(after[a].code)
      ensures after[a].code != after[b].code
    {
      if a == id {
        assert b in places && after[b] == places[b];
      } else if b == id {
        assert a in places && after[a] == places[a];
      } else {
        assert after[a] == places[a] && after[b] == places[b];
      }
    }
  }

  // ------------------------------------------------------------ delete

  /** Some trip starts or ends at place `id` (the two `Any` queries of the delete). */
  function UsedByTrips(trips: map<int, Trip>, id: int): (r: bool)
    ensures r <==> exists k :: k in trips && (trips[k].originId == id || trips[k].destinationId == id)
  {
    var hasTripsAsOrigin := AnyRow(trips, (t: Trip) => t.originId == id);
    var hasTripsAsDestination := AnyRow(trips, (t: Trip) => t.destinationId == id);
    hasTripsAsOrigin || hasTripsAsDestination
  }

  /** Deleting reports false for a missing place and refuses a place that a trip uses. */
  method DeletePlace(db: Database, id: int) returns (r: Result<bool, PlaceError>)
    requires db.Valid()
    modifies db
    ensures db.Valid()
    ensures db.trips == old(db.trips) && db.operators == old(db.operators)
    ensures db.nextTripId == old(db.nextTripId) && db.nextOperatorId == old(db.nextOperatorId)
    ensures db.nextPlaceId == old(db.nextPlaceId)
    ensures id !in old(db.places) ==> r == Success(false) && db.places == old(db.places)
    ensures id in old(db.places) && UsedByTrips(old(db.trips), id) ==>
      r == Failure(PlaceInUse) && db.places == old(db.places)
    ensures id in old(db.places) && !UsedByTrips(old(db.trips), id) ==>
      r == Success(true) && db.places == old(db.places) - {id}
  {
    if id !in db.places {
      return Success(false);
    }
    var used := UsedByTrips(db.trips, id);
    if used {
      return Failure(PlaceInUse);
    }
    db.places := db.places - {id};
    r := Success(true);
  }

  /** A delete that goes through leaves every trip's references resolvable. */
  lemma DeleteKeepsReferences(trips: map<int, Trip>, places: map<int, Place>, operators: map<int, Operator>, id: int)
    requires ReferencesResolve(trips, places, operators)
    requires !UsedByTrips(trips, id)
    ensures ReferencesResolve(trips, places - {id}, operators)
  {
  }

  // ------------------------------------------------------------ queries

  /** `OrderBy(Name)`: `a` may come before `b`. */
  predicate NameNoLater(a: Place, b: Place) {
    StrLe(a.name, b.name)
  }

  lemma NameNoLaterIsOrder()
    ensures Total(NameNoLater) && Transitive(NameNoLater)
  {
    forall a: Place, b: Place ensures NameNoLater(a, b) || NameNoLater(b, a) {
      StrLeTotal(a.name, b.name);
    }
    forall a: Place, b: Place, c: Place | NameNoLater(a, b) && NameNoLater(b, c) ensures NameNoLater(a, c) {
      StrLeTransitive(a.name, b.name, c.name);
    }
  }

  /** The places satisfying `keep`, ordered by name. */
  function PlacesByName(places: map<int, Place>, keep: Place -> bool): (r: seq<Place>)
    ensures forall x :: x in r <==> x in places.Values && keep(x)
    ensures forall x :: multiset(r)[x] == if keep(x) then |KeysHolding(places, x)| else 0
    ensures forall i, j :: 0 <= i < j < |r| ==> StrLe(r[i].name, r[j].name)
  {
    NameNoLaterIsOrder();
    ScanFilterSort(places, keep, NameNoLater);
    SortedPairwise(SortBy(Filter(Rows(places), keep), NameNoLater), NameNoLater);
    SortBy(Filter(Rows(places), keep), NameNoLater)
  }

  /** The places that can start a trip: active and open as origin, by name. */
  function GetOriginPlaces(places: map<int, Place>): (r: seq<Place>)
    ensures forall x :: x in r <==> x in places.Values && x.status == PlaceActive && x.isOriginAllowed
    ensures forall x :: multiset(r)[x] == if x.status == PlaceActive && x.isOriginAllowed then |KeysHolding(places, x)| else 0
    ensures forall i, j :: 0 <= i < j < |r| ==> StrLe(r[i].name, r[j].name)
  {
    PlacesByName(places, (p: Place) => p.status == PlaceActive && p.isOriginAllowed)
  }

  /** The places that can end a trip: active and open as destination, by name. */
  function GetDestinationPlaces(places: map<int, Place>): (r: seq<Place>)
    ensures forall x :: x in r <==> x in places.Values && x.status == PlaceActive && x.isDestinationAllowed
    ensures forall x :: multiset(r)[x] == if x.status == PlaceActive && x.isDestinationAllowed then |KeysHolding(places, x)| else 0
    ensures forall i, j :: 0 <= i < j < |r| ==> StrLe(r[i].name, r[j].name)
  {
    PlacesByName(places, (p: Place) => p.status == PlaceActive && p.isDestinationAllowed)
  }

  /** The active places, by name. */
  function GetActivePlaces(places: map<int, Place>): (r: seq<Place>)
    ensures forall x :: x in r <==> x in places.Values && x.status == PlaceActive
    ensures forall x :: multiset(r)[x] == if x.status == PlaceActive then |KeysHolding(places, x)| else 0
    ensures forall i, j :: 0 <= i < j < |r| ==> StrLe(r[i].name, r[j].name)
  {
    PlacesByName(places, (p: Place) => p.status == PlaceActive)
  }

  /** Every origin place and every destination place is an active place. */
  lemma OriginAndDestinationAreActive(places: map<int, Place>)
    ensures forall x :: x in GetOriginPlaces(places) ==> x in GetActivePlaces(places)
    ensures forall x :: x in GetDestinationPlaces(places) ==> x in GetActivePlaces(places)
  {
  }

  /** The page number after clamping: below 1 becomes 1. */
  function ClampPage(page: Int32): (r: Int32)
    ensures r >= 1 && (page >= 1 ==> r == page)
  {
    if page < 1 then 1 else page
  }

  /** The page size after clamping: outside 1..100 becomes 10. */
  function ClampPageSize(pageSize: Int32): (r: Int32)
    ensures 1 <= r <= 100
    ensures 1 <= pageSize <= 100 ==> r == pageSize
    ensures !(1 <= pageSize <= 100) ==> r == 10
  {
    if pageSize < 1 || pageSize > 100 then 10 else pageSize
  }

  /** Every place, ordered by name. */
  function AllPlacesByName(places: map<int, Place>): (r: seq<Place>)
    ensures forall x :: x in r <==> x in places.Values
    ensures |r| == |places|
    ensures forall x :: multiset(r)[x] == |KeysHolding(places, x)|
    ensures forall i, j :: 0 <= i < j < |r| ==> StrLe(r[i].name, r[j].name)
  {
    var all := (p: Place) => true;
    FilterKeepsAll(Rows(places), all);
    PlacesByName(places, all)
  }

  /**
   * One page of all places ordered by name, after clamping the parameters.
   * The offset is computed on 32-bit `int`, so a huge page number wraps and
   * the database refuses the negative offset.
   */
  function GetPlaces(places: map<int, Place>, page: Int32, pageSize: Int32): (r: Result<seq<Place>, QueryError>)
    ensures r.Success? <==> PageOffset(ClampPage(page), ClampPageSize(pageSize)) >= 0
    ensures r.Failure? ==> r.error == NegativeOffset
    ensures r.Success? ==> |r.value| <= ClampPageSize(pageSize) <= 100
    ensures r.Success? ==> forall x :: x in r.value ==> x in places.Values
    ensures r.Success? ==> forall i, j :: 0 <= i < j < |r.value| ==> StrLe(r.value[i].name, r.value[j].name)
    ensures r.Success? ==> PageSlice(AllPlacesByName(places), PageOffset(ClampPage(page), ClampPageSize(pageSize)), ClampPageSize(pageSize), r.value)
  {
    var size := ClampPageSize(pageSize);
    var offset := PageOffset(ClampPage(page), size);
    var all := AllPlacesByName(places);
    var r := Page(all, offset, size);
    if r.Success? then
      assert forall x :: x in r.value ==> x in all;
      r
    else r
  }

  /** Pages below 1 read as page 1, and page sizes outside 1..100 as 10. */
  lemma GetPlacesClamps(places: map<int, Place>, page: Int32, pageSize: Int32)
    ensures page < 1 ==> GetPlaces(places, page, pageSize) == GetPlaces(places, 1, pageSize)
    ensures (pageSize < 1 || pageSize > 100) ==> GetPlaces(places, page, pageSize) == GetPlaces(places, page, 10)
  {
  }

  /** The first page holds the first `pageSize` places by name (or all of them when there are fewer). */
  lemma FirstPage(places: map<int, Place>, pageSize: Int32)
    requires 1 <= pageSize <= 100
    ensures GetPlaces(places, 1, pageSize).Success?
    ensures |GetPlaces(places, 1, pageSize).value| == if |places| < pageSize then |places| else pageSize as int
  {
    var all := PlacesByName(places, (p: Place) => true);
    FilterKeepsAll(Rows(places), (p: Place) => true);
    SortByPermutes(Rows(places), NameNoLater);
    assert |all| == |multiset(all)| == |multiset(Rows(places))| == |places|;
  }

  /** Page 30,000,000 of 100: `(page - 1) * pageSize` wraps to a negative offset, which the database refuses. */
  lemma HugePageOverflows(places: map<int, Place>)
    ensures GetPlaces(places, 30_000_000, 100) == Failure(NegativeOffset)
  {
    assert Wrap32(29_999_999) == 29_999_999;
    assert (2_999_999_900 + TwoTo31) % TwoTo32 == 852_516_252;
    assert Wrap32(2_999_999_900) == -1_294_967_396;
  }
}
