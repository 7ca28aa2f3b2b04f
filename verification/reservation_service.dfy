/** The reservation lifecycle: booking with date validation and the
    availability check, then check-in, check-out (billing) and cancellation.
    Every operation is a pure transition of the two stores; an error leaves
    both stores as they were, since no new state is produced. */
module ReservationService {
  import opened Base
  import opened Rooms
  import opened Reservations
  import opened ReservationRepository
  import RoomService

  /** The two stores the services work on. */
  datatype Hotel = Hotel(rooms: RoomStore, reservations: ReservationStore)

  /** Every reservation refers to a stored room (the non-null foreign key). */
  ghost predicate RoomsReferenced(h: Hotel) {
    forall id :: id in h.reservations ==> h.reservations[id].roomId in h.rooms
  }

  /** `m'` keeps the keys of `m` and differs from it at most at `id`. */
  ghost predicate UpdatedOnly(m: ReservationStore, m': ReservationStore, id: Id) {
    && m'.Keys == m.Keys
    && forall x :: x in m && x != id ==> m'[x] == m[x]
  }

  /** `after` is `before` moved to `status` at time `now`, its booking and amount kept. */
  ghost predicate MovedTo(before: Reservation, after: Reservation, status: ReservationStatus, now: Instant) {
    && SameBooking(before, after)
    && after.status == status
    && after.updatedAt == now
  }

  /** Check-out must come strictly after check-in, and check-in may not lie before today. */
  function ValidateDates(checkin: Day, checkout: Day, today: Day): (r: Outcome)
    ensures r == Pass <==> checkin < checkout && today <= checkin
    ensures checkout <= checkin ==> r == Fail(BusinessError(CheckoutNotAfterCheckin))
    ensures checkin < checkout && checkin < today ==> r == Fail(BusinessError(CheckinInPast))
  {
    if !(checkout > checkin) then Fail(BusinessError(CheckoutNotAfterCheckin))
    else if checkin < today then Fail(BusinessError(CheckinInPast))
    else Pass
  }

  /** The room is unavailable exactly when the availability query returns a row. */
  function CheckRoomAvailability(m: ReservationStore, roomId: Id, checkin: Day, checkout: Day): (r: Outcome)
    ensures r.Fail? <==> exists x :: x in m && Blocks(m[x], roomId, checkin, checkout)
    ensures r.Fail? ==> r.error == Conflict
  {
    var found := FindOverlappingReservations(m, roomId, checkin, checkout);
    if found.Keys != {} then
      var x :| x in found.Keys;
      assert x in m && Blocks(m[x], roomId, checkin, checkout);
      Fail(Conflict)
    else
      assert forall x :: x in m && Blocks(m[x], roomId, checkin, checkout) ==> x in found;
      Pass
  }

  /** Books `roomId` for `guestName` from `checkin` to `checkout` under the
      fresh id `id`. The date checks come first, then the room lookup, then
      the availability check; the room's own status is not consulted. */
  function Create(h: Hotel, id: Id, roomId: Id, guestName: string, checkin: Day, checkout: Day, today: Day, now: Instant): (r: Result<Hotel>)
    requires id !in h.reservations
    ensures checkout <= checkin ==> r == Err(BusinessError(CheckoutNotAfterCheckin))
    ensures checkin < checkout && checkin < today ==> r == Err(BusinessError(CheckinInPast))
    ensures checkin < checkout && today <= checkin && roomId !in h.rooms ==> r == Err(NotFound)
    ensures checkin < checkout && today <= checkin && roomId in h.rooms
            && (exists x :: x in h.reservations && Blocks(h.reservations[x], roomId, checkin, checkout))
            ==> r == Err(Conflict)
    ensures r.Ok? <==>
            && checkin < checkout && today <= checkin && roomId in h.rooms
            && !(exists x :: x in h.reservations && Blocks(h.reservations[x], roomId, checkin, checkout))
    ensures r.Ok? ==> r.value.rooms == h.rooms
    ensures r.Ok? ==> r.value.reservations.Keys == h.reservations.Keys + {id}
    ensures r.Ok? ==> forall x :: x in h.reservations ==> r.value.reservations[x] == h.reservations[x]
    ensures r.Ok? ==>
              r.value.reservations[id] == Reservation(roomId, guestName, checkin, checkout, Created, None, now, now)
  {
    var dates := ValidateDates(checkin, checkout, today);
    if dates.Fail? then Err(dates.error)
    else
      var room := RoomService.FindRoomEntityById(h.rooms, roomId);
      if room.Err? then Err(room.error)
      else
        var free := CheckRoomAvailability(h.reservations, roomId, checkin, checkout);
        if free.Fail? then Err(free.error)
        else
          var res := SetStatus(New(roomId, guestName, checkin, checkout, now), Created, now);
          Ok(h.(reservations := h.reservations[id := res]))
  }

  /** Checks a CREATED reservation in. Any other status, or an unknown id, is
      NotFound; an expected check-in more than one day after today is a
      business error. */
  function CheckIn(h: Hotel, id: Id, today: Day, now: Instant): (r: Result<Hotel>)
    ensures r.Ok? <==>
            id in h.reservations && h.reservations[id].status == Created
            && h.reservations[id].checkinExpected <= today + 1
    ensures !(id in h.reservations && h.reservations[id].status == Created) ==> r == Err(NotFound)
    ensures id in h.reservations && h.reservations[id].status == Created
            && h.reservations[id].checkinExpected > today + 1
            ==> r == Err(BusinessError(CheckinTooEarly))
    ensures r.Ok? ==> r.value.rooms == h.rooms && UpdatedOnly(h.reservations, r.value.reservations, id)
    ensures r.Ok? ==> MovedTo(h.reservations[id], r.value.reservations[id], CheckedIn, now)
    ensures r.Ok? ==> r.value.reservations[id].totalAmount == h.reservations[id].totalAmount
  {
    var found := FindByIdAndCreatedStatus(h.reservations, id);
    if found.None? then Err(NotFound)
    else if found.value.checkinExpected > today + 1 then Err(BusinessError(CheckinTooEarly))
    else Ok(h.(reservations := h.reservations[id := SetStatus(found.value, CheckedIn, now)]))
  }

  /** Checks a CHECKED_IN reservation out, billing the room's nightly price
      times the number of nights between the expected dates. Any other status,
      or an unknown id, is NotFound. */
  function CheckOut(h: Hotel, id: Id, now: Instant): (r: Result<Hotel>)
    requires RoomsReferenced(h)
    ensures r.Ok? <==> id in h.reservations && h.reservations[id].status == CheckedIn
    ensures r.Err? ==> r.error == NotFound
    ensures r.Ok? ==> r.value.rooms == h.rooms && UpdatedOnly(h.reservations, r.value.reservations, id)
    ensures r.Ok? ==> MovedTo(h.reservations[id], r.value.reservations[id], CheckedOut, now)
    ensures r.Ok? ==>
            var before := h.reservations[id];
            r.value.reservations[id].totalAmount == Some(h.rooms[before.roomId].pricePerNight * Nights(before))
  {
    var found := FindByIdAndCheckedInStatus(h.reservations, id);
    if found.None? then Err(NotFound)
    else
      var res := found.value;
      var total := h.rooms[res.roomId].pricePerNight * Nights(res);
      var billed := SetStatus(SetTotalAmount(res, total), CheckedOut, now);
      Ok(h.(reservations := h.reservations[id := billed]))
  }

  /** Cancels a CREATED reservation; any other status, or an unknown id, is
      NotFound. The amount is left as it was. */
  function Cancel(h: Hotel, id: Id, now: Instant): (r: Result<Hotel>)
    ensures r.Ok? <==> id in h.reservations && h.reservations[id].status == Created
    ensures r.Err? ==> r.error == NotFound
    ensures r.Ok? ==> r.value.rooms == h.rooms && UpdatedOnly(h.reservations, r.value.reservations, id)
    ensures r.Ok? ==> MovedTo(h.reservations[id], r.value.reservations[id], Canceled, now)
    ensures r.Ok? ==> r.value.reservations[id].totalAmount == h.reservations[id].totalAmount
  {
    var found := FindByIdAndCreatedStatus(h.reservations, id);
    if found.None? then Err(NotFound)
    else Ok(h.(reservations := h.reservations[id := SetStatus(found.value, Canceled, now)]))
  }

  /** The reservation with this id, in any status, or NotFound. */
  function FindById(h: Hotel, id: Id): (r: Result<Reservation>)
    ensures r.Ok? <==> id in h.reservations
    ensures r.Ok? ==> r.value == h.reservations[id]
    ensures r.Err? ==> r.error == NotFound
  {
    if id in h.reservations then Ok(h.reservations[id]) else Err(NotFound)
  }

  /** A booking that succeeds is found straight away in CREATED with no amount. */
  lemma CreateThenFindById(h: Hotel, id: Id, roomId: Id, guestName: string, checkin: Day, checkout: Day, today: Day, now: Instant)
    requires id !in h.reservations
    requires Create(h, id, roomId, guestName, checkin, checkout, today, now).Ok?
    ensures var found := FindById(Create(h, id, roomId, guestName, checkin, checkout, today, now).value, id);
            found.Ok? && found.value.status == Created && found.value.totalAmount == None
  {
  }

  /** A stay starting on the day an active stay on the same room ends is refused. */
  lemma BackToBackBookingRefused(h: Hotel, id: Id, other: Id, guestName: string, checkout: Day, today: Day, now: Instant)
    requires id !in h.reservations && other in h.reservations
    requires h.reservations[other].status.IsActive()
    requires h.reservations[other].roomId in h.rooms
    requires h.reservations[other].checkinExpected < h.reservations[other].checkoutExpected
    requires today <= h.reservations[other].checkoutExpected < checkout
    ensures Create(h, id, h.reservations[other].roomId, guestName,
                   h.reservations[other].checkoutExpected, checkout, today, now) == Err(Conflict)
  {
  }
}
