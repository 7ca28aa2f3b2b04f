/** The global invariant of the two stores, its preservation by every
    operation, and the lifecycle guarantees over any sequence of requests. */
module HotelInvariant {
  import opened Base
  import opened Rooms
  import opened Reservations
  import opened ReservationRepository
  import opened ReservationService
  import RoomService

  /** Every stored stay ends strictly after it starts. */
  ghost predicate DatesOrdered(m: ReservationStore) {
    forall id :: id in m ==> m[id].checkinExpected < m[id].checkoutExpected
  }

  /** The amount is set exactly on the checked-out reservations. */
  ghost predicate AmountOnlyWhenCheckedOut(m: ReservationStore) {
    forall id :: id in m ==> (m[id].totalAmount.Some? <==> m[id].status == CheckedOut)
  }

  /** Every checked-out reservation was billed its room's nightly price per night. */
  ghost predicate Billed(h: Hotel) {
    forall id :: id in h.reservations && h.reservations[id].status == CheckedOut ==>
      && h.reservations[id].roomId in h.rooms
      && h.reservations[id].totalAmount == Some(h.rooms[h.reservations[id].roomId].pricePerNight * Nights(h.reservations[id]))
  }

  /** No two distinct CREATED or CHECKED_IN reservations on one room have stays
      that meet under the closed-interval test of the availability query. */
  ghost predicate NoActiveOverlap(m: ReservationStore) {
    forall a, b ::
      a in m && b in m && a != b
      && m[a].status.IsActive() && m[b].status.IsActive()
      && m[a].roomId == m[b].roomId
      ==> !Overlaps(m[a].checkinExpected, m[a].checkoutExpected, m[b].checkinExpected, m[b].checkoutExpected)
  }

  /** The invariant every reachable state of the two stores satisfies. */
  ghost predicate Inv(h: Hotel) {
    && NumbersUnique(h.rooms)
    && RoomsReferenced(h)
    && DatesOrdered(h.reservations)
    && AmountOnlyWhenCheckedOut(h.reservations)
    && Billed(h)
    && NoActiveOverlap(h.reservations)
  }

  /** The empty hotel satisfies the invariant. */
  lemma EmptyHotelInv()
    ensures Inv(Hotel(map[], map[]))
  {
  }

  // Each operation, when it succeeds, takes a state satisfying the invariant
  // to another one; a failed operation produces no state at all.

  lemma CreatePreservesInv(h: Hotel, id: Id, roomId: Id, guestName: string, checkin: Day, checkout: Day, today: Day, now: Instant)
    requires Inv(h) && id !in h.reservations
    ensures var r := ReservationService.Create(h, id, roomId, guestName, checkin, checkout, today, now);
            r.Ok? ==> Inv(r.value)
  {
  }

  lemma CheckInPreservesInv(h: Hotel, id: Id, today: Day, now: Instant)
    requires Inv(h)
    ensures var r := ReservationService.CheckIn(h, id, today, now);
            r.Ok? ==> Inv(r.value)
  {
  }

  lemma CheckOutPreservesInv(h: Hotel, id: Id, now: Instant)
    requires Inv(h)
    ensures var r := ReservationService.CheckOut(h, id, now);
            r.Ok? ==> Inv(r.value)
  {
  }

  lemma CancelPreservesInv(h: Hotel, id: Id, now: Instant)
    requires Inv(h)
    ensures var r := ReservationService.Cancel(h, id, now);
            r.Ok? ==> Inv(r.value)
  {
  }

  lemma RegisterRoomPreservesInv(h: Hotel, id: Id, number: int, roomType: string, capacity: int, pricePerNight: Money)
    requires Inv(h) && id !in h.rooms
    ensures var r := RoomService.Create(h.rooms, id, number, roomType, capacity, pricePerNight);
            r.Ok? ==> Inv(h.(rooms := r.value))
  {
  }

  lemma DeactivateRoomPreservesInv(h: Hotel, id: Id)
    requires Inv(h)
    ensures var r := RoomService.Deactivate(h.rooms, id);
            r.Ok? ==> Inv(h.(rooms := r.value))
  {
  }

  /** The operations a client can invoke. Creating commands carry the fresh
      id the system would generate. */
  datatype Command =
    | RegisterRoom(id: Id, number: int, roomType: string, capacity: int, pricePerNight: Money)
    | DeactivateRoom(id: Id)
    | Book(id: Id, roomId: Id, guestName: string, checkin: Day, checkout: Day)
    | CheckInGuest(id: Id)
    | CheckOutGuest(id: Id)
    | CancelBooking(id: Id)

  /** A command together with the date and the time at which it runs. */
  datatype Request = Request(command: Command, today: Day, now: Instant)

  /** A creating command's id is not yet in use (generated ids are unique). */
  predicate Fresh(h: Hotel, c: Command) {
    match c
    case RegisterRoom(id, _, _, _, _) => id !in h.rooms
    case Book(id, _, _, _, _) => id !in h.reservations
    case _ => true
  }

  /** Runs one request: the new state when it succeeds, the old one when it fails. */
  function Apply(h: Hotel, q: Request): (h': Hotel)
    requires Inv(h) && Fresh(h, q.command)
    ensures Inv(h')
    ensures h.rooms.Keys <= h'.rooms.Keys
    ensures forall x :: x in h.reservations ==>
              && x in h'.reservations
              && SameBooking(h.reservations[x], h'.reservations[x])
              && (h'.reservations[x] == h.reservations[x]
                  || Advances(h.reservations[x].status, h'.reservations[x].status))
    ensures forall x :: x in h'.reservations && x !in h.reservations ==> h'.reservations[x].status == Created
  {
    match q.command
    case RegisterRoom(id, number, roomType, capacity, price) =>
      RegisterRoomPreservesInv(h, id, number, roomType, capacity, price);
      var r := RoomService.Create(h.rooms, id, number, roomType, capacity, price);
      if r.Ok? then h.(rooms := r.value) else h
    case DeactivateRoom(id) =>
      DeactivateRoomPreservesInv(h, id);
      var r := RoomService.Deactivate(h.rooms, id);
      if r.Ok? then h.(rooms := r.value) else h
    case Book(id, roomId, guestName, checkin, checkout) =>
      CreatePreservesInv(h, id, roomId, guestName, checkin, checkout, q.today, q.now);
      var r := ReservationService.Create(h, id, roomId, guestName, checkin, checkout, q.today, q.now);
      if r.Ok? then r.value else h
    case CheckInGuest(id) =>
      CheckInPreservesInv(h, id, q.today, q.now);
      var r := ReservationService.CheckIn(h, id, q.today, q.now);
      if r.Ok? then r.value else h
    case CheckOutGuest(id) =>
      CheckOutPreservesInv(h, id, q.now);
      var r := ReservationService.CheckOut(h, id, q.now);
      if r.Ok? then r.value else h
    case CancelBooking(id) =>
      CancelPreservesInv(h, id, q.now);
      var r := ReservationService.Cancel(h, id, q.now);
      if r.Ok? then r.value else h
  }

  /** Every creating request in `qs` carries an id unused at the point it runs. */
  ghost predicate Runnable(h: Hotel, qs: seq<Request>)
    requires Inv(h)
    decreases |qs|
  {
    |qs| == 0 || (Fresh(h, qs[0].command) && Runnable(Apply(h, qs[0]), qs[1..]))
  }

  /** One lifecycle step followed by any number of them is again a run of
      lifecycle steps. */
  lemma ComposeSteps(h: Hotel, next: Hotel, last: Hotel)
    requires forall x :: x in h.reservations ==>
               && x in next.reservations
               && SameBooking(h.reservations[x], next.reservations[x])
               && (next.reservations[x] == h.reservations[x]
                   || Advances(h.reservations[x].status, next.reservations[x].status))
    requires forall x :: x in next.reservations ==>
               && x in last.reservations
               && SameBooking(next.reservations[x], last.reservations[x])
               && Reaches(next.reservations[x].status, last.reservations[x].status)
    ensures forall x :: x in h.reservations ==>
              && x in last.reservations
              && SameBooking(h.reservations[x], last.reservations[x])
              && Reaches(h.reservations[x].status, last.reservations[x].status)
  {
  }

  /** Runs the requests in order. The invariant holds throughout; rooms are
      never removed; a stored reservation keeps its booking facts and its
      status only moves forward along the lifecycle. */
  function Run(h: Hotel, qs: seq<Request>): (h': Hotel)
    requires Inv(h) && Runnable(h, qs)
    ensures Inv(h')
    ensures h.rooms.Keys <= h'.rooms.Keys
    ensures forall x :: x in h.reservations ==>
              && x in h'.reservations
              && SameBooking(h.reservations[x], h'.reservations[x])
              && Reaches(h.reservations[x].status, h'.reservations[x].status)
    decreases |qs|
  {
    if |qs| == 0 then h
    else
      var next := Apply(h, qs[0]);
      var last := Run(next, qs[1..]);
      ComposeSteps(h, next, last);
      last
  }
}
