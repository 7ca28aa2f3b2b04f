# Hotel reservation core in Dafny

This project models the business core of a hotel booking service. The service keeps two stores: rooms and reservations. Each store is a map from id to an immutable record.

- Rooms are registered with a unique number and can later be deactivated.
- Reservations are booked against a room for a range of days. A reservation then moves through its lifecycle: CREATED → CHECKED_IN → CHECKED_OUT, or CREATED → CANCELED.
- Booking is refused when a CREATED or CHECKED_IN reservation on the same room has a stay that meets the requested one. The test is closed on both ends, so a stay that starts on the day another ends is refused too.
- Check-in is allowed at most one day before the expected date.
- Check-out bills the room's nightly price times the number of nights between the expected dates.

Each operation is a pure function from the stores to a `Result`. An error produces no new state, so a failed operation changes nothing. The three error kinds of the code are kept abstract: `BusinessError`, `NotFound` and `Conflict`.

Modelling choices:

- Dates are integer day ordinals.
- "Today" and "now" are parameters.
- Ids are supplied by the caller. The operations that create a record require a fresh id, which stands for the uniqueness of generated UUIDs.
- Money is an integer count of minor units.
- Status strings are enums. Each enum has `Name()`, so the status queries that take a string still return nothing for a string that names no status.
- Request DTO constraints are modelled as sets of violations over optional (nullable) fields.

Files:

- `base.dfy` holds the shared types.
- `rooms.dfy` and `reservations.dfy` hold the entities.
- `reservation_repository.dfy` holds the store queries.
- `room_service.dfy` and `reservation_service.dfy` hold the two services.
- `hotel_invariant.dfy` holds the global invariant. It shows that every operation preserves the invariant and covers runs of any length.
- `requests.dfy` holds the request validation.
- `scenarios.dfy` holds concrete end-to-end runs.

The global invariant `HotelInvariant.Inv` has six parts:

- room numbers are unique;
- every reservation refers to a stored room;
- every stay ends after it starts;
- an amount is set exactly on CHECKED_OUT reservations;
- that amount equals the price times the number of nights;
- no two active reservations on one room overlap under the closed test.

Error kinds and boundaries, as the services raise them:

- A duplicate room number raises a business error (service/RoomService.java:44).
- A check-out date not after the check-in date, and a check-in date before today, each raise a business error (service/ReservationService.java:118,122).
- The availability test is closed on both ends: existing check-in ≤ requested check-out and existing check-out ≥ requested check-in (repository/ReservationRepository.java:23).
- A check-in, check-out or cancellation whose lookup finds the reservation in the wrong status fails with NotFound (service/ReservationService.java:73-75,88-90,107-109). The controllers document a 409 response for that case (controller/ReservationController.java:135,164,193); the model follows the service.
- Booking never checks whether the room is INACTIVE (service/ReservationService.java:56-58), although the deactivation endpoint is documented as preventing new bookings (controller/RoomController.java:116); the model follows the service.

## Model

| member | source | states |
|---|---|---|
| Reservations.New | src/main/java/com/fiap/hotel_reservation_system/model/Reservation.java:41-62 | A new reservation is CREATED and has no total amount. Its createdAt and updatedAt are both the construction time. The room, guest and date setters then fill in the given values and leave the timestamps as they are. |
| Reservations.SetStatus | src/main/java/com/fiap/hotel_reservation_system/model/Reservation.java:65-68 | Setting the status refreshes updatedAt to now. It keeps the room, guest, dates, createdAt and amount. |
| Reservations.SetTotalAmount | src/main/java/com/fiap/hotel_reservation_system/model/Reservation.java:71 | Setting the amount changes only the amount. The status and updatedAt stay the same. |
| ReservationRepository.FindOverlappingReservations | src/main/java/com/fiap/hotel_reservation_system/repository/ReservationRepository.java:22-26 | Returns exactly the reservations on the same room, in CREATED or CHECKED_IN, with existing.checkin ≤ checkout and existing.checkout ≥ checkin. They are returned unchanged. |
| ReservationRepository.OverlapsIffSharesDay | src/main/java/com/fiap/hotel_reservation_system/repository/ReservationRepository.java:23 | For non-empty stays, the closed overlap test holds exactly when the two stays have a day in common. |
| ReservationRepository.OverlapsSymmetric | src/main/java/com/fiap/hotel_reservation_system/repository/ReservationRepository.java:23 | Swapping the existing and the requested stay does not change the overlap answer. |
| ReservationRepository.BackToBackOverlaps | src/main/java/com/fiap/hotel_reservation_system/repository/ReservationRepository.java:23 | A stay that starts on the day an existing stay ends counts as overlapping it. |
| ReservationRepository.InactiveNeverBlocks | src/main/java/com/fiap/hotel_reservation_system/repository/ReservationRepository.java:22 | A CHECKED_OUT or CANCELED reservation is never returned by the availability query. |
| ReservationRepository.FindByIdAndCreatedStatus | src/main/java/com/fiap/hotel_reservation_system/repository/ReservationRepository.java:28-29 | Finds a reservation if and only if the id exists and its status is CREATED. It then returns that stored reservation. |
| ReservationRepository.FindByIdAndCheckedInStatus | src/main/java/com/fiap/hotel_reservation_system/repository/ReservationRepository.java:31-32 | Finds a reservation if and only if the id exists and its status is CHECKED_IN. It then returns that stored reservation. |
| ReservationRepository.FindByStatus | src/main/java/com/fiap/hotel_reservation_system/repository/ReservationRepository.java:20 | Returns exactly the reservations whose status string equals the argument. |
| ReservationRepository.FindByStatusSelectsStatus | src/main/java/com/fiap/hotel_reservation_system/service/ReservationService.java:40-44 | A status's name selects exactly the reservations in that status. A string that names no status selects nothing. |
| ReservationRepository.FindByRoom | src/main/java/com/fiap/hotel_reservation_system/repository/ReservationRepository.java:19 | Returns exactly the reservations on the given room, in any status. |
| ReservationRepository.StatusLookupsAgreeWithFindByStatus | src/main/java/com/fiap/hotel_reservation_system/repository/ReservationRepository.java:20-32 | The lookup by id with status CREATED (CHECKED_IN) finds a reservation exactly when the status filter for the string "CREATED" ("CHECKED_IN") contains that id, and both return the same record. |
| ReservationRepository.OverlappingWithinRoom | src/main/java/com/fiap/hotel_reservation_system/repository/ReservationRepository.java:19-23 | Every row of the availability query is a reservation on the room; among the room's reservations it returns exactly the CREATED or CHECKED_IN ones whose stay meets the requested one. |
| RoomService.FindByStatus | src/main/java/com/fiap/hotel_reservation_system/service/RoomService.java:28-32 | Returns exactly the rooms whose status string equals the argument. |
| RoomService.FindByStatusSelectsStatus | src/main/java/com/fiap/hotel_reservation_system/service/RoomService.java:28-32 | ACTIVE or INACTIVE selects exactly the rooms in that status. Any other string selects nothing. |
| RoomService.FindRoomEntityById | src/main/java/com/fiap/hotel_reservation_system/service/RoomService.java:76-79 | Fails with NotFound exactly when the id is absent. Otherwise it returns that room. |
| RoomService.CreatedRoomIsFound | src/main/java/com/fiap/hotel_reservation_system/service/RoomService.java:47-54 | After a successful registration the id is found as an ACTIVE room with the requested number, type, capacity and price; lookups of every other id are unchanged. |
| RoomService.DeactivatedRoomIsFound | src/main/java/com/fiap/hotel_reservation_system/service/RoomService.java:58-63 | After a successful deactivation the room is still found under its id, now INACTIVE with its number kept; lookups of every other id are unchanged. |
| RoomService.Create | src/main/java/com/fiap/hotel_reservation_system/service/RoomService.java:40-56 | Fails with a duplicate-number business error exactly when some room, in any status, has the number. On success it adds exactly one ACTIVE room with the requested fields and leaves the other rooms alone. It keeps room numbers unique. |
| RoomService.Deactivate | src/main/java/com/fiap/hotel_reservation_system/service/RoomService.java:58-63 | An unknown id gives NotFound. Otherwise the room becomes INACTIVE, its other fields stay the same, and no other room changes. |
| RoomService.DeactivatePreservesUniqueNumbers | src/main/java/com/fiap/hotel_reservation_system/service/RoomService.java:58-63 | Deactivation keeps room numbers unique. |
| RoomService.DeactivateIdempotent | src/main/java/com/fiap/hotel_reservation_system/service/RoomService.java:61 | Deactivating twice gives the same store as deactivating once. Deactivating an INACTIVE room leaves the store unchanged. |
| ReservationService.ValidateDates | src/main/java/com/fiap/hotel_reservation_system/service/ReservationService.java:116-124 | Passes exactly when checkin < checkout and checkin ≥ today. The ordering error takes precedence over the past-date error. |
| ReservationService.CheckRoomAvailability | src/main/java/com/fiap/hotel_reservation_system/service/ReservationService.java:126-133 | Fails with Conflict exactly when some stored reservation blocks the room for the requested dates. |
| ReservationService.Create | src/main/java/com/fiap/hotel_reservation_system/service/ReservationService.java:52-69 | Error precedence: checkout not after checkin gives a business error, then checkin before today gives a business error, then an unknown room gives NotFound, then any blocking reservation gives Conflict. Otherwise exactly one reservation is added: CREATED, with no amount, the given room, guest and dates, and timestamps set to now. All others stay unchanged and the room store is untouched. |
| ReservationService.CheckIn | src/main/java/com/fiap/hotel_reservation_system/service/ReservationService.java:71-84 | Succeeds if and only if the reservation exists, is CREATED and has checkin ≤ today + 1. A missing reservation or a wrong status gives NotFound. A checkin later than tomorrow gives a business error. On success only that reservation changes: it becomes CHECKED_IN at time now and keeps its booking and amount. |
| ReservationService.CheckOut | src/main/java/com/fiap/hotel_reservation_system/service/ReservationService.java:86-103 | Succeeds if and only if the reservation exists and is CHECKED_IN. Otherwise it gives NotFound. On success only that reservation changes: it becomes CHECKED_OUT, with amount = room price × (checkout − checkin). |
| ReservationService.Cancel | src/main/java/com/fiap/hotel_reservation_system/service/ReservationService.java:105-114 | Succeeds if and only if the reservation exists and is CREATED. Otherwise it gives NotFound. On success only that reservation changes: it becomes CANCELED and its amount is left as it was. |
| ReservationService.FindById | src/main/java/com/fiap/hotel_reservation_system/service/ReservationService.java:46-50 | Fails with NotFound exactly when the id is absent. Otherwise it returns that reservation. |
| ReservationService.CreateThenFindById | src/main/java/com/fiap/hotel_reservation_system/service/ReservationService.java:60-67 | After a successful booking, looking the id up finds a CREATED reservation with no amount. |
| ReservationService.BackToBackBookingRefused | src/main/java/com/fiap/hotel_reservation_system/service/ReservationService.java:126-133 | A booking that starts on the day an active stay on the same room ends is refused with Conflict. |
| HotelInvariant.CreatePreservesInv | src/main/java/com/fiap/hotel_reservation_system/service/ReservationService.java:52-69 | A successful booking preserves the global invariant, including no overlap between active reservations on a room. |
| HotelInvariant.CheckInPreservesInv | src/main/java/com/fiap/hotel_reservation_system/service/ReservationService.java:71-84 | A successful check-in preserves the global invariant. |
| HotelInvariant.CheckOutPreservesInv | src/main/java/com/fiap/hotel_reservation_system/service/ReservationService.java:86-103 | A successful check-out preserves the global invariant, including correct billing. |
| HotelInvariant.CancelPreservesInv | src/main/java/com/fiap/hotel_reservation_system/service/ReservationService.java:105-114 | A successful cancellation preserves the global invariant. |
| HotelInvariant.RegisterRoomPreservesInv | src/main/java/com/fiap/hotel_reservation_system/service/RoomService.java:40-56 | A successful room registration preserves the global invariant, including unique room numbers. |
| HotelInvariant.DeactivateRoomPreservesInv | src/main/java/com/fiap/hotel_reservation_system/service/RoomService.java:58-63 | A successful deactivation preserves the global invariant. |
| HotelInvariant.Apply | src/main/java/com/fiap/hotel_reservation_system/service/ReservationService.java:52-114 | Any single request keeps the invariant. It removes no room. A stored reservation keeps its booking and either stays the same or takes one lifecycle step. A new reservation starts CREATED. |
| HotelInvariant.Run | src/main/java/com/fiap/hotel_reservation_system/service/ReservationService.java:52-114 | Over any sequence of requests the invariant holds and no room is removed. Every reservation keeps its booking facts, and its status only moves forward along the lifecycle. |
| Requests.ReservationViolations | src/main/java/com/fiap/hotel_reservation_system/dto/ReservationRequestDTO.java:9-22 | Says which constraints a booking request breaks. The room id and guest name must not be blank, and the name must be 2 to 120 characters. Both dates must be present, checkin ≥ today and checkout > today. A null field breaks only its not-null or not-blank constraint. |
| Requests.ReservationRequestValidIffNoViolations | src/main/java/com/fiap/hotel_reservation_system/dto/ReservationRequestDTO.java:9-22 | A booking request breaks no constraint exactly when all its fields are present and within their bounds. |
| Requests.MissingDateReportedOnce | src/main/java/com/fiap/hotel_reservation_system/dto/ReservationRequestDTO.java:16-22 | A null date is reported only as missing. It is not also reported as a date-bound violation. |
| Requests.ValidRequestDateCheck | src/main/java/com/fiap/hotel_reservation_system/service/ReservationService.java:116-124 | For a valid request the service's past-date check cannot fire. Its date validation passes exactly when checkout > checkin. |
| Requests.RoomViolations | src/main/java/com/fiap/hotel_reservation_system/dto/RoomRequestDTO.java:8-21 | Says which constraints a room request breaks: number present and > 0, type not blank, capacity present and ≥ 1, price present and > 0 (the bound is exclusive). |
| Requests.RoomRequestValidIffNoViolations | src/main/java/com/fiap/hotel_reservation_system/dto/RoomRequestDTO.java:8-21 | A room request breaks no constraint exactly when all its fields are present and within their bounds. |
| Scenarios.ThreeNightStay | src/main/java/com/fiap/hotel_reservation_system/service/ReservationService.java:52-103 | Room 101 costs 100.00 a night and Ana books three nights. A stay inside Ana's is refused with Conflict. Ana then checks in and checks out and is billed 300.00. |
| Scenarios.WrongStatusIsNotFound | src/main/java/com/fiap/hotel_reservation_system/service/ReservationService.java:105-114 | Cancelling or re-checking-in a CHECKED_IN reservation gives NotFound, and so does checking out a CREATED one. |
| Scenarios.ZeroNightStayRefused | src/main/java/com/fiap/hotel_reservation_system/service/ReservationService.java:116-119 | A booking whose checkout equals its checkin is refused with a business error. |

## Left out

- The HTTP controllers, the OpenAPI configuration and the response DTOs with their `toDTO` mappers are routing, documentation and field copying. The two services' `findAll` and RoomService's `findById` are such projections too, and `findById` returns the same room as `FindRoomEntityById`.
- The mapping of exceptions to HTTP status codes lives in a handler that is not part of this model. The error kinds stay abstract.
- `@Transactional` and races between concurrent bookings are not modelled. The model is single-threaded, and each operation is atomic by construction.
- UUID generation, `LocalDate.now()` and `LocalDateTime.now()` become parameters. The constructor reads the clock twice and `setStatus` reads it again; the model uses one `now` per operation.
- A colliding id is not modelled. JPA would merge the new record over the stored one. The creating operations instead require a fresh id.
- JPA persistence mechanics are not modelled: entity identity, lazy loading and the unique and foreign-key columns of the schema.
- ReservationService.CheckOut: requires every reservation to refer to a stored room. The schema's non-null foreign key guarantees this, and `HotelInvariant.Inv` carries it.
- A reservation stores its room's id, not the room entity. Check-out reads the price from the room store. Prices never change after registration, so this agrees with the entity reference.
- `BigDecimal` prices become integer minor units. Prices with more decimal places than the currency has are not modelled.
- Room number and capacity are unbounded integers. Java's 32-bit `Integer` range is enforced when the request is deserialised, which this model does not cover.
- Requests.ReservationViolations: counts name length in Unicode scalar values. Java counts UTF-16 code units, so names with characters outside the Basic Multilingual Plane differ.
- The setters `setId`, `setCreatedAt` and `setUpdatedAt`, and `RoomRepository.findByTypeAndStatus`, are never used by the services and are not modelled.
- The individual room, guest and date setters are folded into `Reservations.New`. Their only observable effect there is to fill in those fields.
- The room store's `findByNumber` is folded into `RoomService.Create` as the duplicate-number test. If duplicates existed, the real query would throw; the unique-number invariant rules that case out.
