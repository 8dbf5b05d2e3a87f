# Transport control: a Dafny model

The system manages the trips of a transport company. A trip runs from an
origin **place** to a destination place, driven by an **operator**, and has
a scheduled start and end, actual start and end times, a status
(Scheduled, InProgress, Completed, Cancelled, Delayed) and free-text notes.
The back end exposes three services (trips, places, operators) and three
controllers. The controllers talk to the tables directly and repeat, or
differ from, the services' checks. The web client's trip management screen
lists trips, creates and edits them from a form, and offers three status
buttons, whose requests no back-end action serves.

This model covers:

- **Tables** (`Store`): a `Database` class holding three maps (trips,
  places, operators) keyed by identity, plus the next identity of each.
  Its invariant says every row is stored under its own id. Table
  invariants the operations keep or break are stated as predicates: unique
  non-empty place codes, and trips whose origin, destination and operator
  exist.
- **Entities** (`Entities`): the three records and their enumerations with
  their numeric codes. Constructors give the source's defaults.
- **Trip service** (`TripService`): validation as a list of failing checks
  in check order, and create, update, status change and delete as methods
  on the database. Paged and by-status queries are ordered by scheduled
  start, latest first.
- **Place service** (`PlaceService`): a required name, unique non-empty
  codes (an update ignores the place's own row), and delete refused while
  trips use the place. Its ordered queries include a paged query with
  clamped parameters and 32-bit offset arithmetic.
- **Operator service** (`OperatorService`): create with no validation,
  update, delete refused while trips are assigned, and ordered queries.
- **Controllers** (`TripsController`, `PlacesController`,
  `OperatorsController`): their own checks, with lemmas relating each one
  to the matching service's checks. These include where a controller's
  checks let through what the service refuses, and the reverse.
- **Trip management screen** (`TripManagement`): the status buttons and
  labels, and the requests built from the form and the buttons. Its
  local-list updates after create, delete and status change are methods
  on a component class.

Shared pieces:

- `Text` holds C#'s `string.IsNullOrEmpty` / `IsNullOrWhiteSpace`, integer
  formatting, and ordinal string order.
- `Queries` holds table scans, `Where`, a stable `OrderBy`, `Any`, and
  SQL Server's `OFFSET … FETCH` paging.
- `Wrappers` holds `Option` and `Result`.

Time is an integer count of seconds. The current time is a parameter
(`now`) of every operation that reads the clock.

Where the system's description and its code disagree, the model follows the
code:

- The description asks that a trip's origin and destination be places that
  admit trips (origin-allowed, destination-allowed). The code checks only
  that they exist; see `TripService.ExistenceOnlyCheck`.
- The description says a trip whose origin equals its destination is
  rejected. Only the trip service checks this. The trips controller, the
  endpoint the web client posts to, stores such a trip; see
  `TripsController.SameEndsAndPastStartAccepted`.

## Model

| member | source | states |
|---|---|---|
| Entities.TripStatusCodesDistinct | Backend/TransportControl.Core/Entities/Trip.cs:37-44 | Trip status codes 1..5 are distinct and each code reads back as its status |
| Entities.NewTrip | Backend/TransportControl.Core/Entities/Trip.cs:10-27 | A new trip is Scheduled, has no actual times, no notes and zero references, and is stamped `now` |
| Entities.PlaceTypeCodesDistinct | Backend/TransportControl.Core/Entities/Place.cs:49-59 | Place type codes are distinct |
| Entities.PlaceStatusCodesDistinct | Backend/TransportControl.Core/Entities/Place.cs:64-70 | Place status codes are distinct |
| Entities.NewPlace | Backend/TransportControl.Core/Entities/Place.cs:10-31 | A new place is an active Terminal open to origin and destination, has an empty name and no code, and its country defaults to "Mexico" |
| Entities.OperatorStatusCodesDistinct | Backend/TransportControl.Core/Entities/Operator.cs:38-44 | Operator status codes are distinct |
| Entities.FullName | Backend/TransportControl.Core/Entities/Operator.cs:12 | The full name is the first name, one space, then the last name |
| Entities.NewOperator | Backend/TransportControl.Core/Entities/Operator.cs:10-22 | A new operator is Active with empty names |
| Entities.DefaultFullName | Backend/TransportControl.Core/Entities/Operator.cs:10-12 | A new operator's full name is a single space |
| Store.PlaceExistsById | Backend/TransportControl.Infrastructure/Services/TripService.cs:220-229 | In a keyed table, `Any(p => p.Id == x)` holds exactly when `x` is a stored key |
| Store.OperatorExistsById | Backend/TransportControl.Infrastructure/Services/TripService.cs:238-241 | Same for operators |
| Store.RowsStoredOnce | Backend/TransportControl.Core/Entities/BaseEntity.cs:12 | In keyed tables each stored place, operator and trip is stored under exactly one key, so every list query below holds it once |
| Text.IsNullOrWhiteSpace | Backend/TransportControl.Infrastructure/Services/PlaceService.cs:101-104 | Null, or only white-space characters |
| Text.NatToString | Backend/TransportControl.Infrastructure/Services/TripService.cs:94 | Decimal digits of an id in an error message, with no leading zero, whose value read back (`DigitsValue`) is the id |
| Text.IntToString | Frontend/src/app/components/trip-management/trip-management.ts:345 | A number's text: a leading minus exactly for negatives, then decimal digits only, with no leading zero, which read back as its magnitude |
| Text.StrLeTotal | Backend/TransportControl.Infrastructure/Services/PlaceService.cs:40 | Ordinal string order is total |
| Text.StrLeTransitive | Backend/TransportControl.Infrastructure/Services/PlaceService.cs:40 | Ordinal string order is transitive |
| Text.StrLeAntisymmetric | Backend/TransportControl.Infrastructure/Services/PlaceService.cs:40 | Ordinal string order is antisymmetric |
| Text.ThenByLeTransitive | Backend/TransportControl.Infrastructure/Services/OperatorService.cs:28-29 | `OrderBy(a).ThenBy(b)` on two strings is transitive |
| Queries.RowsMembership | Backend/TransportControl.Infrastructure/Services/OperatorService.cs:27-30 | A table scan yields exactly the table's rows |
| Queries.RowsCount | Backend/TransportControl.Infrastructure/Services/OperatorService.cs:27-30 | A table scan holds each row as many times as the table stores it |
| Queries.FilterMembership | Backend/TransportControl.Infrastructure/Services/PlaceService.cs:249-252 | `Where` keeps exactly the elements satisfying the condition |
| Queries.FilterCount | Backend/TransportControl.Infrastructure/Services/PlaceService.cs:249-252 | `Where` keeps every copy of a matching element and drops every other |
| Queries.FilterAppend | Backend/TransportControl.Infrastructure/Services/PlaceService.cs:249-252 | `Where` distributes over concatenation, so the original order is kept |
| Queries.AnyRow | Backend/TransportControl.Infrastructure/Services/OperatorService.cs:119 | `Where(keep).Any()` on a table holds exactly when some stored row satisfies `keep` |
| Queries.KeyedRowsOnce | Backend/TransportControl.Core/Entities/BaseEntity.cs:12 | In a table whose rows carry their own key, a row is stored under one key or none |
| Queries.SortByPermutes | Backend/TransportControl.Infrastructure/Services/PlaceService.cs:39-43 | `OrderBy` is a permutation of its input |
| Queries.SortBySorted | Backend/TransportControl.Infrastructure/Services/PlaceService.cs:39-43 | `OrderBy` under a total order yields a sorted sequence |
| Queries.ScanFilterSort | Backend/TransportControl.Infrastructure/Services/PlaceService.cs:249-252 | A filtered, ordered scan holds exactly the matching rows, in order, each as many times as the table stores it |
| Queries.Page | Backend/TransportControl.Infrastructure/Services/PlaceService.cs:39-43 | `Skip(o).Take(n)` fails for a negative offset or a non-positive count; otherwise it returns the up to `n` elements starting at `o`, which is what `PageSlice` says of a page |
| Queries.Wrap32 | Backend/TransportControl.Infrastructure/Services/PlaceService.cs:41 | Unchecked 32-bit arithmetic agrees with exact arithmetic in range and is congruent modulo 2^32 |
| Queries.PageOffset | Backend/TransportControl.Infrastructure/Services/PlaceService.cs:41 | `(page - 1) * pageSize` on `int` is the exact product when that fits in 32 bits |
| TripService.ValidateTrip | Backend/TransportControl.Infrastructure/Services/TripService.cs:213-253 | Validation runs all six checks, and its error list is the failing checks in check order |
| TripService.ValidationErrorsIff | Backend/TransportControl.Infrastructure/Services/TripService.cs:220-253 | An error is reported exactly when its check fails |
| TripService.NoErrorsIff | Backend/TransportControl.Infrastructure/Services/TripService.cs:220-253 | No errors exactly when origin, destination and operator exist, the ends differ, start < end, and a new trip does not start over an hour in the past |
| TripService.ErrorsInCheckOrder | Backend/TransportControl.Infrastructure/Services/TripService.cs:220-253 | Errors come in check order, each at most once, so there are at most six |
| TripService.FailingChecksKeepRankOrder | Backend/TransportControl.Infrastructure/Services/TripService.cs:220-253 | Keeping only the failing checks preserves check order |
| TripService.PastCheckOnlyForNewTrips | Backend/TransportControl.Infrastructure/Services/TripService.cs:250-253 | A trip with a non-zero Id is never told its start is in the past |
| TripService.MissingOperatorIsSingleError | Backend/TransportControl.Infrastructure/Services/TripService.cs:238-241 | An otherwise valid trip with a missing operator gets exactly that one error |
| TripService.ExistenceOnlyCheck | Backend/TransportControl.Infrastructure/Services/TripService.cs:220-229 | A closed place that admits no trips still passes the origin and destination checks |
| TripService.StampedTrip | Backend/TransportControl.Infrastructure/Services/TripService.cs:71-74 | A created trip gets the new identity and both stamps `now`; every other field is the caller's |
| TripService.CreateTrip | Backend/TransportControl.Infrastructure/Services/TripService.cs:60-85 | Any validation error rejects the trip with the full list and changes nothing; otherwise the stamped trip is added under the next identity |
| TripService.CreateKeepsReferences | Backend/TransportControl.Infrastructure/Services/TripService.cs:65-74 | A created trip keeps every trip's references resolvable |
| TripService.CopyTripFields | Backend/TransportControl.Infrastructure/Services/TripService.cs:105-117 | An update keeps the stored Id, CreatedAt, CreatedBy and ModifiedBy, takes every other field from the request, and sets ModifiedAt to `now` |
| TripService.UpdateTrip | Backend/TransportControl.Infrastructure/Services/TripService.cs:87-129 | A missing trip is reported by id; validation errors reject the update; otherwise only that trip changes, to the copied fields |
| TripService.UpdateSkipsPastCheck | Backend/TransportControl.Infrastructure/Services/TripService.cs:98-102 | Updating a stored trip never fails the past-start check |
| TripService.UpdateKeepsReferences | Backend/TransportControl.Infrastructure/Services/TripService.cs:98-117 | An accepted update keeps references resolvable |
| TripService.DeleteTrip | Backend/TransportControl.Infrastructure/Services/TripService.cs:173-192 | Delete reports whether the trip existed and removes it; nothing else changes |
| TripService.AppendNoteKeepsHistory | Backend/TransportControl.Infrastructure/Services/TripService.cs:157-160 | An empty note leaves the notes alone; a non-empty note ends the notes and follows earlier notes after "; " |
| TripService.AppendNoteExamples | Backend/TransportControl.Infrastructure/Services/TripService.cs:157-160 | "A" plus "B" gives "A; B", and empty notes or an empty note are skipped |
| TripService.StatusChangeUnguarded | Backend/TransportControl.Infrastructure/Services/TripService.cs:142-143 | Any status may follow any other, and ModifiedAt becomes `now` |
| TripService.StatusStampsActualTimes | Backend/TransportControl.Infrastructure/Services/TripService.cs:146-154 | InProgress sets the actual start (given, or `now`), Completed the actual end; other statuses touch neither |
| TripService.StatusChangeFrame | Backend/TransportControl.Infrastructure/Services/TripService.cs:142-160 | A status change touches only status, actual times, notes and ModifiedAt |
| TripService.ScheduledToCompleted | Backend/TransportControl.Infrastructure/Services/TripService.cs:142-154 | A scheduled trip can be marked Completed directly, which sets its actual end |
| TripService.UpdateTripStatus | Backend/TransportControl.Infrastructure/Services/TripService.cs:131-171 | A missing trip is reported; otherwise only that trip changes, as the status change specifies |
| TripService.TripsByStartDescending | Backend/TransportControl.Infrastructure/Services/TripService.cs:27-31 | All trips, as many rows as the table and each as many times as the table stores it, latest scheduled start first |
| TripService.GetTrips | Backend/TransportControl.Infrastructure/Services/TripService.cs:23-41 | The page is the slice (`Queries.PageSlice`) of all trips, latest start first (`TripsByStartDescending`), starting at the 32-bit offset `(page - 1) * pageSize`: its length is what `Skip`/`Take` leaves and its i-th row is the row at offset + i. It fails exactly when the offset is negative (NegativeOffset) or the size is below 1 (NonPositiveFetch) |
| TripService.GetTripsByStatus | Backend/TransportControl.Infrastructure/Services/TripService.cs:194-211 | Exactly the trips with that status, each as many times as the table stores it, latest start first |
| TripService.StatusListHoldsEachOnce | Backend/TransportControl.Infrastructure/Services/TripService.cs:194-211 | In a keyed table the by-status list holds each trip with the status exactly once and nothing else |
| PlaceService.ExistsByCode | Backend/TransportControl.Infrastructure/Services/PlaceService.cs:309-329 | True exactly when some place other than the excluded id has this code |
| PlaceService.ExistsByCodeExcluding | Backend/TransportControl.Infrastructure/Services/PlaceService.cs:315-322 | In a keyed table, excluding an id excludes exactly the row stored under it |
| PlaceService.StampedPlace | Backend/TransportControl.Infrastructure/Services/PlaceService.cs:116-119 | A created place gets the new identity and both stamps `now`; all other fields are the caller's |
| PlaceService.CreateAcceptedIff | Backend/TransportControl.Infrastructure/Services/PlaceService.cs:101-114 | Create is accepted exactly when the name is not blank and any non-empty code is held by no place |
| PlaceService.DefaultPlaceRejected | Backend/TransportControl.Infrastructure/Services/PlaceService.cs:101-104 | A place with the default empty name is rejected for its name |
| PlaceService.CreatePlace | Backend/TransportControl.Infrastructure/Services/PlaceService.cs:94-130 | A rejected place changes nothing; an accepted one is stored under the next identity |
| PlaceService.CreatePreservesUniqueCodes | Backend/TransportControl.Infrastructure/Services/PlaceService.cs:107-114 | An accepted create keeps non-empty codes unique |
| PlaceService.CopyPlaceFields | Backend/TransportControl.Infrastructure/Services/PlaceService.cs:167-187 | An update keeps Id, CreatedAt, CreatedBy and ModifiedBy, takes every other field from the request, and sets ModifiedAt to `now` |
| PlaceService.UpdatePlace | Backend/TransportControl.Infrastructure/Services/PlaceService.cs:138-199 | Missing place, blank name, then a code held by another place are refused in that order; otherwise only that place changes |
| PlaceService.UpdatePreservesUniqueCodes | Backend/TransportControl.Infrastructure/Services/PlaceService.cs:157-164 | An accepted update keeps non-empty codes unique, since it may share a code only with its own row |
| PlaceService.ReplaceKeepsUniqueCodes | Backend/TransportControl.Infrastructure/Services/PlaceService.cs:157-164 | Storing a place whose non-empty code no other row holds keeps codes unique |
| PlaceService.UsedByTrips | Backend/TransportControl.Infrastructure/Services/PlaceService.cs:219-225 | True exactly when some trip starts or ends at the place |
| PlaceService.DeletePlace | Backend/TransportControl.Infrastructure/Services/PlaceService.cs:206-238 | A missing place gives false; a place in use is refused; otherwise it is removed and true is returned |
| PlaceService.DeleteKeepsReferences | Backend/TransportControl.Infrastructure/Services/PlaceService.cs:219-227 | A delete that goes through keeps every trip's references resolvable |
| PlaceService.NameNoLaterIsOrder | Backend/TransportControl.Infrastructure/Services/PlaceService.cs:40 | Ordering by name is total and transitive |
| PlaceService.GetOriginPlaces | Backend/TransportControl.Infrastructure/Services/PlaceService.cs:249-252 | Exactly the active places that allow origin, each as many times as the table stores it (once in a keyed table), by name |
| PlaceService.GetDestinationPlaces | Backend/TransportControl.Infrastructure/Services/PlaceService.cs:270-273 | Exactly the active places that allow destination, each as many times as the table stores it (once in a keyed table), by name |
| PlaceService.GetActivePlaces | Backend/TransportControl.Infrastructure/Services/PlaceService.cs:291-294 | Exactly the active places, each as many times as the table stores it (once in a keyed table), by name |
| PlaceService.OriginAndDestinationAreActive | Backend/TransportControl.Infrastructure/Services/PlaceService.cs:249-294 | Origin and destination lists are contained in the active list |
| PlaceService.ClampPageSize | Backend/TransportControl.Infrastructure/Services/PlaceService.cs:37 | A page size outside 1..100 becomes 10; one inside is kept |
| PlaceService.ClampPage | Backend/TransportControl.Infrastructure/Services/PlaceService.cs:36 | A page below 1 becomes 1; one inside is kept |
| PlaceService.AllPlacesByName | Backend/TransportControl.Infrastructure/Services/PlaceService.cs:39-40 | Every place, as many rows as the table and each as many times as the table stores it, ordered by name: the list the paged query cuts its page from |
| PlaceService.GetPlaces | Backend/TransportControl.Infrastructure/Services/PlaceService.cs:29-50 | After clamping, the page is the slice (`Queries.PageSlice`) of all places by name (`AllPlacesByName`) starting at the 32-bit offset: its length is what `Skip`/`Take` leaves, at most 100, and its i-th row is the row at offset + i. The query fails, with NegativeOffset, exactly when the offset is negative |
| PlaceService.GetPlacesClamps | Backend/TransportControl.Infrastructure/Services/PlaceService.cs:36-37 | Pages below 1 read as page 1 and sizes outside 1..100 as 10 |
| PlaceService.FirstPage | Backend/TransportControl.Infrastructure/Services/PlaceService.cs:39-43 | Page 1 holds `pageSize` places, or all when there are fewer |
| PlaceService.HugePageOverflows | Backend/TransportControl.Infrastructure/Services/PlaceService.cs:41 | Page 30,000,000 of 100 wraps to a negative offset, and the query fails |
| OperatorService.StampedOperator | Backend/TransportControl.Infrastructure/Services/OperatorService.cs:56-59 | A created operator gets the new identity and both stamps `now` |
| OperatorService.CreateOperator | Backend/TransportControl.Infrastructure/Services/OperatorService.cs:52-69 | Create always succeeds and stores the stamped operator under the next identity |
| OperatorService.CreateAddsOne | Backend/TransportControl.Infrastructure/Services/OperatorService.cs:56-62 | Create adds exactly one operator and keeps every earlier one |
| OperatorService.CopyOperatorFields | Backend/TransportControl.Infrastructure/Services/OperatorService.cs:82-95 | An update keeps Id, CreatedAt, CreatedBy and ModifiedBy, takes the other fields, and sets ModifiedAt to `now` |
| OperatorService.UpdateOperator | Backend/TransportControl.Infrastructure/Services/OperatorService.cs:71-106 | The operator is found by the incoming id: a missing one is reported, otherwise only it changes |
| OperatorService.UpdateKeepsKey | Backend/TransportControl.Infrastructure/Services/OperatorService.cs:82-95 | The updated operator keeps the id it is stored under |
| OperatorService.HasTrips | Backend/TransportControl.Infrastructure/Services/OperatorService.cs:119 | True exactly when some trip is assigned to the operator |
| OperatorService.DeleteOperator | Backend/TransportControl.Infrastructure/Services/OperatorService.cs:108-134 | A missing operator gives false; one with trips is refused; otherwise it is removed |
| OperatorService.DeleteKeepsReferences | Backend/TransportControl.Infrastructure/Services/OperatorService.cs:112-127 | A delete that goes through keeps references resolvable |
| OperatorService.FirstThenLastIsOrder | Backend/TransportControl.Infrastructure/Services/OperatorService.cs:28-29 | First name then last name is a total, transitive order |
| OperatorService.GetOperators | Backend/TransportControl.Infrastructure/Services/OperatorService.cs:23-37 | Every operator, as many rows as the table and each as many times as the table stores it, by first then last name |
| OperatorService.GetActiveOperators | Backend/TransportControl.Infrastructure/Services/OperatorService.cs:136-151 | Exactly the active operators, each as many times as the table stores it (once in a keyed table), by first then last name |
| TripsController.FirstFailureIsFirstServiceError | Backend/TransportControl.API/Controllers/TripsController.cs:95-113 | The controller reports the first error the service would report, ignoring the two checks it lacks |
| TripsController.ServiceAcceptedPasses | Backend/TransportControl.API/Controllers/TripsController.cs:95-113 | A trip the service accepts passes the controller's checks |
| TripsController.SameEndsAndPastStartAccepted | Backend/TransportControl.API/Controllers/TripsController.cs:95-113 | A round trip starting in the past passes the controller, while the service reports both missing checks |
| TripsController.ScheduledTrip | Backend/TransportControl.API/Controllers/TripsController.cs:116-120 | Create forces status Scheduled, assigns the new identity, and stamps both times |
| TripsController.CreateTrip | Backend/TransportControl.API/Controllers/TripsController.cs:90-141 | The first failed check rejects the trip and changes nothing; otherwise the scheduled trip is added under the next identity |
| TripsController.PassedChecksResolve | Backend/TransportControl.API/Controllers/TripsController.cs:95-107 | A trip that passes the checks keeps references resolvable |
| TripsController.UpdateTrip | Backend/TransportControl.API/Controllers/TripsController.cs:150-221 | Id mismatch first, then a missing trip, then the first failed check; otherwise only that trip changes, to the copied fields |
| TripsController.DeleteTrip | Backend/TransportControl.API/Controllers/TripsController.cs:229-249 | A missing trip gives NotFound; otherwise it is removed |
| TripsController.DeleteRemovesOne | Backend/TransportControl.API/Controllers/TripsController.cs:233-242 | A delete removes exactly one trip and keeps the others |
| PlacesController.UpdatePlace | Backend/TransportControl.API/Controllers/PlacesController.cs:123-176 | Id mismatch, missing place, blank name are refused in order; otherwise only that place changes |
| PlacesController.UpdateCanDuplicateCode | Backend/TransportControl.API/Controllers/PlacesController.cs:139-165 | Taking another place's code passes every check and leaves two places with one code, while the service refuses it |
| PlacesController.UpdateWithoutCodeKeepsUniqueCodes | Backend/TransportControl.API/Controllers/PlacesController.cs:145-165 | An update with no code keeps codes unique |
| OperatorsController.LastThenFirstIsOrder | Backend/TransportControl.API/Controllers/OperatorsController.cs:36-37 | Last name then first name is a total, transitive order |
| OperatorsController.GetOperators | Backend/TransportControl.API/Controllers/OperatorsController.cs:30-47 | Exactly the active operators, each as many times as the table stores it (once in a keyed table), by last then first name |
| OperatorsController.ListOrdersDiffer | Backend/TransportControl.API/Controllers/OperatorsController.cs:34-38 | The controller and the service list two active operators in opposite orders when their first and last names compare oppositely |
| OperatorsController.OppositeOrderWitness | Backend/TransportControl.API/Controllers/OperatorsController.cs:34-38 | Such a pair of names exists |
| OperatorsController.EmployeeIdInUse | Backend/TransportControl.API/Controllers/OperatorsController.cs:97-105 | True exactly when some operator has this EmployeeId |
| OperatorsController.EmailInUse | Backend/TransportControl.API/Controllers/OperatorsController.cs:107-115 | True exactly when some operator has this Email |
| OperatorsController.CreateOperator | Backend/TransportControl.API/Controllers/OperatorsController.cs:81-130 | First name, last name, EmployeeId in use, then Email in use are refused in order; otherwise the operator is stored under the next identity |
| OperatorsController.CreatePreservesUniqueKeys | Backend/TransportControl.API/Controllers/OperatorsController.cs:97-120 | An accepted create keeps non-empty EmployeeIds and Emails unique |
| OperatorsController.LicenseNumberNotChecked | Backend/TransportControl.API/Controllers/OperatorsController.cs:86-115 | The license number plays no part in accepting a create |
| OperatorsController.ServiceCreateCanDuplicateEmployeeId | Backend/TransportControl.Infrastructure/Services/OperatorService.cs:52-69 | The unchecking service stores a repeated EmployeeId that the controller refuses |
| OperatorsController.UpdateOperator | Backend/TransportControl.API/Controllers/OperatorsController.cs:139-190 | Id mismatch, missing operator, then blank names are refused in order; otherwise only that operator changes |
| OperatorsController.UpdateCanDuplicateEmail | Backend/TransportControl.API/Controllers/OperatorsController.cs:155-179 | Taking another operator's Email passes every check of the update and breaks uniqueness |
| TripManagement.ActionsOnlyForOpenTrips | Frontend/src/app/components/trip-management/trip-management.ts:330-340 | Some button is offered exactly for Scheduled and InProgress trips; Completed, Cancelled and Delayed get none |
| TripManagement.ButtonsExclusive | Frontend/src/app/components/trip-management/trip-management.ts:330-340 | Start and complete are never offered together; both imply cancel |
| TripManagement.FindLabel | Frontend/src/app/components/trip-management/trip-management.ts:343 | `find` gives nothing exactly when no option has the value, else the caption of the first option with it |
| TripManagement.GetStatusLabel | Frontend/src/app/components/trip-management/trip-management.ts:342-345 | A listed status shows its option's caption; Delayed shows its number |
| TripManagement.OptionLabel | Frontend/src/app/components/trip-management/trip-management.ts:68-73 | Each option's status shows that option's caption |
| TripManagement.ListedStatusLabels | Frontend/src/app/components/trip-management/trip-management.ts:68-73 | The labels are Programado, En Progreso, Completado and Cancelado |
| TripManagement.DelayedLabel | Frontend/src/app/components/trip-management/trip-management.ts:342-345 | Delayed is shown as "5" |
| TripManagement.BuildStatusRequest | Frontend/src/app/components/trip-management/trip-management.ts:305-310 | Actual start is sent exactly for InProgress, actual end exactly for Completed, both as the client's time; the notes are the message |
| TripManagement.StartButtonOnServer | Frontend/src/app/components/trip-management/trip-management.ts:292-294 | If a status endpoint passed the start button's request to `TripService.UpdateTripStatus`, the trip would become InProgress with the client's time as actual start and "Viaje iniciado" appended to its notes. The back end has no such endpoint |
| TripManagement.CompleteButtonOnServer | Frontend/src/app/components/trip-management/trip-management.ts:296-298 | If a status endpoint passed the complete button's request to `TripService.UpdateTripStatus`, the trip would become Completed with the client's time as actual end. The back end has no such endpoint |
| TripManagement.CancelButtonOnServer | Frontend/src/app/components/trip-management/trip-management.ts:300-302 | If a status endpoint passed the cancel button's request to `TripService.UpdateTripStatus`, the trip would become Cancelled with neither actual time stamped. The back end has no such endpoint |
| TripManagement.AtHour | Frontend/src/app/components/trip-management/trip-management.ts:153-156 | `setHours(h, 0, 0, 0)` gives hour `h` of the day containing the date |
| TripManagement.BuildTripRequest | Frontend/src/app/components/trip-management/trip-management.ts:151-166 | The trip starts at AtHour(date, 8) and ends at AtHour(date, 18), 08:00 to 18:00 on the chosen day, so start < end by ten hours. Origin, destination, operator and status are the form's values, and empty notes are sent as null. The update (lines 190-206) builds the same request with its id |
| TripManagement.FormTripPassesDateCheck | Frontend/src/app/components/trip-management/trip-management.ts:151-156 | A trip from the form never fails the controller's date check |
| TripManagement.IndexOfId | Frontend/src/app/components/trip-management/trip-management.ts:315 | `findIndex` is -1 exactly when no entry has the id, else the first position with it |
| TripManagement.WithoutId | Frontend/src/app/components/trip-management/trip-management.ts:244 | Exactly the trips without that id remain, each as many times as before |
| TripManagement.WithoutIdKeepsOrder | Frontend/src/app/components/trip-management/trip-management.ts:244 | Removal distributes over concatenation, so the remaining trips keep their order |
| TripManagement.WithoutAbsentId | Frontend/src/app/components/trip-management/trip-management.ts:244 | Removing an id no trip has changes nothing |
| TripManagement.TripManagementComponent.constructor | Frontend/src/app/components/trip-management/trip-management.ts:58-83 | The list starts empty, not editing, not loading, with status Scheduled and empty notes |
| TripManagement.TripManagementComponent.ResetForm | Frontend/src/app/components/trip-management/trip-management.ts:258-265 | The form is cleared except status Scheduled; editing ends; the list is kept |
| TripManagement.TripManagementComponent.EditTrip | Frontend/src/app/components/trip-management/trip-management.ts:226-237 | Editing starts with the trip's id and its values in the form |
| TripManagement.TripManagementComponent.OnSubmit | Frontend/src/app/components/trip-management/trip-management.ts:135-166 | An invalid form sends nothing; while editing a non-zero id an update is sent, otherwise a create; loading starts |
| TripManagement.TripManagementComponent.CreateSucceeded | Frontend/src/app/components/trip-management/trip-management.ts:171-176 | The new trip is appended at the end, the form is reset and loading stops |
| TripManagement.TripManagementComponent.UpdateSucceeded | Frontend/src/app/components/trip-management/trip-management.ts:211-216 | The form is reset and loading stops |
| TripManagement.TripManagementComponent.RequestFailed | Frontend/src/app/components/trip-management/trip-management.ts:178-182 | A failed request only stops loading |
| TripManagement.TripManagementComponent.DeleteRequested | Frontend/src/app/components/trip-management/trip-management.ts:239-242 | Only a confirmed delete is sent, and it starts loading |
| TripManagement.TripManagementComponent.DeleteSucceeded | Frontend/src/app/components/trip-management/trip-management.ts:243-247 | The trips with that id leave the list, the rest stay in order, and loading stops |
| TripManagement.TripManagementComponent.StatusUpdated | Frontend/src/app/components/trip-management/trip-management.ts:313-319 | The first entry with the id is replaced by the server's trip; with none, the list is unchanged |
| TripManagement.StatusUpdateFrame | Frontend/src/app/components/trip-management/trip-management.ts:315-319 | The list keeps its length and every other entry |
| TripManagement.EditingIdZeroCreates | Frontend/src/app/components/trip-management/trip-management.ts:139 | Editing a trip with id 0 submits a create (JavaScript truthiness) |

## Left out

- Controller endpoints that repeat a service's code have no members of their own. They are modelled by the service's members:
  - `GetTrips` (Backend/TransportControl.API/Controllers/TripsController.cs:36-43) by `TripService.GetTrips`.
  - `GetTripsByStatus` (TripsController.cs:261-267) by `TripService.GetTripsByStatus`.
  - `GetPlaces`, `GetOriginPlaces` and `GetDestinationPlaces` (PlacesController.cs:34-37, 187-190, 210-213) by `PlaceService.GetActivePlaces`, `GetOriginPlaces` and `GetDestinationPlaces`.
  - `CreatePlace` (PlacesController.cs:85-105) by `PlaceService.CreatePlace`.
- Entity Framework mechanics are not modelled. This covers `Include` of navigation properties, change tracking, `SaveChangesAsync` and `UpdateAuditFields`. A stored row is a map entry and ModifiedAt is set to `now` directly.
- The database's filtered unique indexes (Code, EmployeeId, LicenseNumber, Email) and restricting foreign keys are not modelled. The lemmas showing duplicates passing a controller's checks describe the application code; the database would then refuse the save.
- Exceptions, logging and HTTP status wiring are left out. Every `try`/`catch` that turns a failure into a 500 response is among them, as is the catch-all error text of trip validation.
- Errors are modelled as datatypes with their message texts. The joined validation message of the trip service's create and update is not built.
- DTOs, mapping extensions, seed data and dependency injection are left out. They move data without deciding anything.
- Single-row reads are left out: `GetTripByIdAsync`, `GetPlaceByIdAsync`, `GetOperatorByIdAsync`, `GetPlacesCountAsync` and the controllers' `GetTrip`/`GetPlace`/`GetOperator`. Each is a lookup or a count with no rule of its own.
- A caller-supplied non-zero Id on create is ignored. The model always assigns the next identity, where the database would refuse an explicit identity value.
- String comparison is ordinal. SQL Server's default collation is case-insensitive, its ordering and equality are not modelled, and the order of rows with equal sort keys is fixed by the model's scan order (ascending id).
- Decimal coordinates and distances are `real`, operating hours are integer seconds, and the 1000-character notes limit is not enforced.
- `DateTime.Now` and `DateTime.UtcNow` are one clock, passed as `now`. Time zones and daylight saving are left out: `TripManagement.AtHour` treats local days as 86,400-second blocks.
- The status buttons' request (`PATCH api/trips/{id}/status`, Frontend/src/app/services/trip.service.ts:50-51) reaches no endpoint in the back end as written. `TripsController` has no PATCH action, and no controller calls `TripService.UpdateTripStatus`. `TripManagement.StartButtonOnServer`, `CompleteButtonOnServer` and `CancelButtonOnServer` state what would happen if one did; as written, the request is refused and the trip stays as it was.
- Enumerations are Dafny datatypes, so they cannot hold the out-of-range codes that C# and TypeScript enums accept (a status of 7 bound from JSON, say). `TripManagement.GetStatusLabel`'s fallback to the status's number is therefore modelled only for `Delayed`, the one listed status with no option.
- TripManagement.BuildTripRequest: the form's date is assumed to be a valid date. JavaScript's invalid `Date` is not modelled.
- The web client's asynchrony is left out: subscriptions, the snackbar and console messages, `confirm` and the reload (`loadData`). A success or failure handler is a method called with the server's answer. Concurrent requests racing on `isLoading` are not modelled.
- The table data source, paginator, sort and the client's text filter (`applyFilter`) are presentation and are not modelled. The client's service classes only forward HTTP requests.
