/**
 * The places controller. Its list endpoints run the same queries as
 * `PlaceService.GetActivePlaces`, `GetOriginPlaces` and
 * `GetDestinationPlaces`, and its create makes the same two checks as
 * `PlaceService.CreatePlace`. Its update differs from the service's: it
 * checks that the route id matches the body and skips the duplicate-code check.
 */
module PlacesController {
  import opened Wrappers
  import opened Text
  import opened Entities
  import opened Queries
  import opened Store
  import PS = PlaceService

  datatype PlacesError = IdMismatch | PlaceNotFound(id: int) | NameRequired

  function Message(e: PlacesError): string {
    match e
    case IdMismatch => "El ID del lugar no coincide"
    case PlaceNotFound(id) => "Lugar con ID " + IntToString(id) + " no encontrado"
    case NameRequired => "El nombre del lugar es requerido"
  }

  /** Why the update is refused, in order: id mismatch, missing place, blank name. No code is checked. */
  function UpdateRejection(places: map<int, Place>, id: int, p: Place): Option<PlacesError> {
    if id != p.id then Some(IdMismatch)
    else if id !in places then Some(PlaceNotFound(id))
    else if IsNullOrWhiteSpace(Some(p.name)) then Some(NameRequired)
    else None
  }

  method UpdatePlace(db: Database, id: int, p: Place, now: Time) returns (r: Result<Place, PlacesError>)
    requires db.Valid()
    modifies db
    ensures db.Valid()
    ensures db.trips == old(db.trips) && db.operators == old(db.operators)
    ensures db.nextTripId == old(db.nextTripId) && db.nextOperatorId == old(db.nextOperatorId)
    ensures db.nextPlaceId == old(db.nextPlaceId)
    ensures var rejection := UpdateRejection(old(db.places), id, p);
      if rejection.Some? then
        r == Failure(rejection.value) && db.places == old(db.places)
      else
        && r == Success(PS.CopyPlaceFields(old(db.places)[id], p, now))
        && db.places == old(db.places)[id := r.value]
  {
    if id != p.id {
      return Failure(IdMismatch);
    }
    if id !in db.places {
      return Failure(PlaceNotFound(id));
    }
    var existing := db.places[id];
    if IsNullOrWhiteSpace(Some(p.name)) {
      return Failure(NameRequired);
    }
    existing := PS.CopyPlaceFields(existing, p, now);
    db.places := db.places[id := existing];
    r := Success(existing);
  }

  /**
   * Giving place `id` the code another place already holds passes every check
   * here, and the resulting table has two places with one code, while the
   * service refuses the same update.
   */
  lemma UpdateCanDuplicateCode(places: map<int, Place>, next: int, id: int, other: int, p: Place, now: Time)
    requires PlacesKeyed(places, next)
    requires id in places && other in places && id != other
    requires !IsNullOrEmpty(places[other].code) && p.code == places[other].code
    requires p.id == id && !Blank(p.name)
    ensures UpdateRejection(places, id, p) == None
    ensures !UniquePlaceCodes(places[id := PS.CopyPlaceFields(places[id], p, now)])
    ensures PS.UpdateRejection(places, id, p) == Some(PS.DuplicateCodeOther)
  {
    var after := places[id := PS.CopyPlaceFields(places[id], p, now)];
    assert after[other] == places[other];
    assert after[id].code == after[other].code;
    PS.ExistsByCodeExcluding(places, next, p.code.value, id);
  }

  /** Where the update has no code to clash with (no code, or an empty one), uniqueness is kept. */
  lemma UpdateWithoutCodeKeepsUniqueCodes(places: map<int, Place>, id: int, p: Place, now: Time)
    requires UniquePlaceCodes(places) && id in places
    requires IsNullOrEmpty(p.code)
    ensures UniquePlaceCodes(places[id := PS.CopyPlaceFields(places[id], p, now)])
  {
    var after := places[id := PS.CopyPlaceFields(places[id], p, now)];
    forall a, b | a in after && b in after && a != b && !IsNullOrEmpty(after[a].code)
      ensures after[a].code != after[b].code
    {
      if b == id {
        assert after[a] == places[a];
      }
    }
  }
}
