/** The Reservation entity: its fields, its constructor defaults and the
    setters with side effects. */
module Reservations {
  import opened Base

  datatype ReservationStatus = Created | CheckedIn | CheckedOut | Canceled {

    /** The status string the store persists and the status query matches. */
    function Name(): string {
      match this
      case Created => "CREATED"
      case CheckedIn => "CHECKED_IN"
      case CheckedOut => "CHECKED_OUT"
      case Canceled => "CANCELED"
    }

    /** The statuses that hold the room: the availability query counts only these. */
    predicate IsActive() {
      this == Created || this == CheckedIn
    }
  }

  /** A reservation; its identifier is its key in the reservation store.
      `totalAmount` is the nullable amount column, `None` until check-out. */
  datatype Reservation = Reservation(
    roomId: Id,
    guestName: string,
    checkinExpected: Day,
    checkoutExpected: Day,
    status: ReservationStatus,
    totalAmount: Option<Money>,
    createdAt: Instant,
    updatedAt: Instant)

  /** The status moves allowed by the lifecycle: CREATED to CHECKED_IN or
      CANCELED, and CHECKED_IN to CHECKED_OUT. CHECKED_OUT and CANCELED are final. */
  predicate Advances(from: ReservationStatus, to: ReservationStatus) {
    || (from == Created && to == CheckedIn)
    || (from == Created && to == Canceled)
    || (from == CheckedIn && to == CheckedOut)
  }

  /** `to` is `from` or can be reached from it by lifecycle moves. */
  predicate Reaches(from: ReservationStatus, to: ReservationStatus) {
    || from == to
    || Advances(from, to)
    || (from == Created && to == CheckedOut)
  }

  /** The whole days between the expected check-in and check-out dates. */
  function Nights(res: Reservation): int {
    res.checkoutExpected - res.checkinExpected
  }

  /** The facts fixed when the booking is made; no status change or billing touches them. */
  predicate SameBooking(a: Reservation, b: Reservation) {
    && a.roomId == b.roomId
    && a.guestName == b.guestName
    && a.checkinExpected == b.checkinExpected
    && a.checkoutExpected == b.checkoutExpected
    && a.createdAt == b.createdAt
  }

  /** The no-argument constructor (status CREATED, both timestamps taken at
      `now`, amount left null) followed by the room, guest and date setters,
      none of which refreshes `updatedAt`. */
  function New(roomId: Id, guestName: string, checkin: Day, checkout: Day, now: Instant): (r: Reservation)
    ensures r.status == Created
    ensures r.totalAmount == None
    ensures r.createdAt == now && r.updatedAt == now
    ensures r.roomId == roomId && r.guestName == guestName
    ensures r.checkinExpected == checkin && r.checkoutExpected == checkout
  {
    Reservation(roomId, guestName, checkin, checkout, Created, None, now, now)
  }

  /** `setStatus`: changes the status and refreshes `updatedAt` to `now`. */
  function SetStatus(res: Reservation, status: ReservationStatus, now: Instant): (r: Reservation)
    ensures r.status == status
    ensures r.updatedAt == now
    ensures SameBooking(res, r)
    ensures r.totalAmount == res.totalAmount
  {
    res.(status := status, updatedAt := now)
  }

  /** `setTotalAmount`: a plain setter, it neither changes the status nor refreshes `updatedAt`. */
  function SetTotalAmount(res: Reservation, amount: Money): (r: Reservation)
    ensures r.totalAmount == Some(amount)
    ensures SameBooking(res, r)
    ensures r.status == res.status && r.updatedAt == res.updatedAt
  {
    res.(totalAmount := Some(amount))
  }
}
