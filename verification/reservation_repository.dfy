/** The reservation store and its derived queries: the availability
    (overlap) query, the status-filtered lookups by id, and the filters by
    status and by room. */
module ReservationRepository {
  import opened Base
  import opened Reservations

  type ReservationStore = map<Id, Reservation>

  /** The date test of the availability query: the existing stay
      [existingIn, existingOut] and the requested stay [checkin, checkout]
      meet, with both endpoints included. */
  predicate Overlaps(existingIn: Day, existingOut: Day, checkin: Day, checkout: Day) {
    existingIn <= checkout && existingOut >= checkin
  }

  /** `res` is one of the rows the availability query returns for the room and dates. */
  predicate Blocks(res: Reservation, roomId: Id, checkin: Day, checkout: Day) {
    && res.roomId == roomId
    && res.status.IsActive()
    && Overlaps(res.checkinExpected, res.checkoutExpected, checkin, checkout)
  }

  /** Day `d` lies in the closed range [first, last]. */
  predicate Within(d: Day, first: Day, last: Day) {
    first <= d <= last
  }

  /** Some day lies in both closed ranges. */
  ghost predicate SharesDay(aIn: Day, aOut: Day, bIn: Day, bOut: Day) {
    exists d: Day :: Within(d, aIn, aOut) && Within(d, bIn, bOut)
  }

  /** The availability query: the reservations on `roomId`, in CREATED or
      CHECKED_IN, whose stay meets [checkin, checkout]. */
  function FindOverlappingReservations(m: ReservationStore, roomId: Id, checkin: Day, checkout: Day): (r: ReservationStore)
    ensures forall id :: id in r <==>
      && id in m
      && m[id].roomId == roomId
      && (m[id].status == Created || m[id].status == CheckedIn)
      && m[id].checkinExpected <= checkout
      && m[id].checkoutExpected >= checkin
    ensures forall id :: id in r ==> r[id] == m[id]
  {
    map id | id in m && Blocks(m[id], roomId, checkin, checkout) :: m[id]
  }

  /** The lookup by id that also demands a status. */
  function FindByIdAndStatus(m: ReservationStore, id: Id, status: ReservationStatus): (r: Option<Reservation>)
    ensures r.Some? <==> id in m && m[id].status == status
    ensures r.Some? ==> r.value == m[id]
  {
    if id in m && m[id].status == status then Some(m[id]) else None
  }

  /** The reservation with this id, only while it is in CREATED. */
  function FindByIdAndCreatedStatus(m: ReservationStore, id: Id): (r: Option<Reservation>)
    ensures r.Some? <==> id in m && m[id].status == Created
    ensures r.Some? ==> r.value == m[id]
  {
    FindByIdAndStatus(m, id, Created)
  }

  /** The reservation with this id, only while it is in CHECKED_IN. */
  function FindByIdAndCheckedInStatus(m: ReservationStore, id: Id): (r: Option<Reservation>)
    ensures r.Some? <==> id in m && m[id].status == CheckedIn
    ensures r.Some? ==> r.value == m[id]
  {
    FindByIdAndStatus(m, id, CheckedIn)
  }

  /** The reservations whose persisted status string equals `name`. */
  function FindByStatus(m: ReservationStore, name: string): (r: ReservationStore)
    ensures forall id :: id in r <==> id in m && m[id].status.Name() == name
    ensures forall id :: id in r ==> r[id] == m[id]
  {
    map id | id in m && m[id].status.Name() == name :: m[id]
  }

  /** The reservations on the room `roomId`, in every status. */
  function FindByRoom(m: ReservationStore, roomId: Id): (r: ReservationStore)
    ensures forall id :: id in r <==> id in m && m[id].roomId == roomId
    ensures forall id :: id in r ==> r[id] == m[id]
  {
    map id | id in m && m[id].roomId == roomId :: m[id]
  }

  /** For non-empty stays the closed-interval test says exactly that the two
      stays have a day in common. */
  lemma OverlapsIffSharesDay(aIn: Day, aOut: Day, bIn: Day, bOut: Day)
    requires aIn <= aOut && bIn <= bOut
    ensures Overlaps(aIn, aOut, bIn, bOut) <==> SharesDay(aIn, aOut, bIn, bOut)
  {
    if Overlaps(aIn, aOut, bIn, bOut) {
      var d := if aIn <= bIn then bIn else aIn;
      assert Within(d, aIn, aOut) && Within(d, bIn, bOut);
    }
  }

  /** Swapping the existing and the requested stay does not change the answer. */
  lemma OverlapsSymmetric(aIn: Day, aOut: Day, bIn: Day, bOut: Day)
    ensures Overlaps(aIn, aOut, bIn, bOut) <==> Overlaps(bIn, bOut, aIn, aOut)
  {
  }

  /** A stay that starts on the day another ends counts as overlapping it. */
  lemma BackToBackOverlaps(existingIn: Day, existingOut: Day, checkout: Day)
    requires existingIn <= existingOut < checkout
    ensures Overlaps(existingIn, existingOut, existingOut, checkout)
  {
  }

  /** A CHECKED_OUT or CANCELED reservation never blocks a booking. */
  lemma InactiveNeverBlocks(m: ReservationStore, id: Id, roomId: Id, checkin: Day, checkout: Day)
    requires id in m && !m[id].status.IsActive()
    ensures id !in FindOverlappingReservations(m, roomId, checkin, checkout)
  {
  }

  /** The two status-filtered lookups by id agree with the status filter on
      the status strings their queries name. */
  lemma StatusLookupsAgreeWithFindByStatus(m: ReservationStore, id: Id)
    ensures FindByIdAndCreatedStatus(m, id).Some? <==> id in FindByStatus(m, "CREATED")
    ensures FindByIdAndCheckedInStatus(m, id).Some? <==> id in FindByStatus(m, "CHECKED_IN")
    ensures FindByIdAndCreatedStatus(m, id).Some? ==> FindByIdAndCreatedStatus(m, id).value == FindByStatus(m, "CREATED")[id]
    ensures FindByIdAndCheckedInStatus(m, id).Some? ==> FindByIdAndCheckedInStatus(m, id).value == FindByStatus(m, "CHECKED_IN")[id]
  {
  }

  /** The availability query returns a subset of the room's reservations,
      namely those whose stay is held and meets the requested one. */
  lemma OverlappingWithinRoom(m: ReservationStore, roomId: Id, checkin: Day, checkout: Day)
    ensures var r := FindOverlappingReservations(m, roomId, checkin, checkout);
            var onRoom := FindByRoom(m, roomId);
            && r.Keys <= onRoom.Keys
            && forall id :: id in onRoom ==>
                 (id in r <==> onRoom[id].status.IsActive()
                               && Overlaps(onRoom[id].checkinExpected, onRoom[id].checkoutExpected, checkin, checkout))
  {
  }

  /** Each status name selects exactly the reservations in that status, and a
      string that names no status selects nothing. */
  lemma FindByStatusSelectsStatus(m: ReservationStore, status: ReservationStatus, name: string)
    ensures forall id :: id in FindByStatus(m, status.Name()) <==> id in m && m[id].status == status
    ensures (forall s: ReservationStatus :: s.Name() != name) ==> FindByStatus(m, name) == map[]
  {
  }
}
