/** The declarative field constraints of the two creation requests, checked
    before a request reaches a service. A null field is `None`. As in Bean
    Validation, only the not-null and not-blank constraints reject a null
    field; the size, date and bound constraints accept it. */
module Requests {
  import opened Base
  import ReservationService

  /** Not blank as the validator implements it: present, and something is
      left after trimming the characters at or below U+0020. */
  predicate NotBlank(s: Option<string>) {
    s.Some? && exists i :: 0 <= i < |s.value| && s.value[i] > ' '
  }

  /** The request body for booking a room. */
  datatype ReservationRequest = ReservationRequest(
    roomId: Option<Id>,
    guestName: Option<string>,
    checkinExpected: Option<Day>,
    checkoutExpected: Option<Day>)

  /** One broken constraint of a booking request. */
  datatype ReservationViolation =
    | RoomIdBlank
    | GuestNameBlank
    | GuestNameSize
    | CheckinMissing
    | CheckinNotFutureOrPresent
    | CheckoutMissing
    | CheckoutNotInFuture

  /** The constraints a booking request breaks, given today's date. */
  function ReservationViolations(q: ReservationRequest, today: Day): (r: set<ReservationViolation>)
    ensures RoomIdBlank in r <==> !NotBlank(q.roomId)
    ensures GuestNameBlank in r <==> !NotBlank(q.guestName)
    ensures GuestNameSize in r <==> q.guestName.Some? && !(2 <= |q.guestName.value| <= 120)
    ensures CheckinMissing in r <==> q.checkinExpected.None?
    ensures CheckinNotFutureOrPresent in r <==> q.checkinExpected.Some? && q.checkinExpected.value < today
    ensures CheckoutMissing in r <==> q.checkoutExpected.None?
    ensures CheckoutNotInFuture in r <==> q.checkoutExpected.Some? && q.checkoutExpected.value <= today
  {
    (if NotBlank(q.roomId) then {} else {RoomIdBlank})
    + (if NotBlank(q.guestName) then {} else {GuestNameBlank})
    + (match q.guestName
       case Some(name) => if 2 <= |name| <= 120 then {} else {GuestNameSize}
       case None => {})
    + (match q.checkinExpected
       case Some(d) => if d >= today then {} else {CheckinNotFutureOrPresent}
       case None => {CheckinMissing})
    + (match q.checkoutExpected
       case Some(d) => if d > today then {} else {CheckoutNotInFuture}
       case None => {CheckoutMissing})
  }

  /** A booking request fit for the service: a room id and a guest name with
      a visible character, a name of 2 to 120 characters, check-in today or
      later, and check-out after today. */
  ghost predicate ReservationRequestValid(q: ReservationRequest, today: Day) {
    && q.roomId.Some? && q.guestName.Some? && q.checkinExpected.Some? && q.checkoutExpected.Some?
    && (exists i :: 0 <= i < |q.roomId.value| && q.roomId.value[i] > ' ')
    && (exists i :: 0 <= i < |q.guestName.value| && q.guestName.value[i] > ' ')
    && 2 <= |q.guestName.value| <= 120
    && today <= q.checkinExpected.value
    && today < q.checkoutExpected.value
  }

  /** The request is valid exactly when it breaks no constraint. */
  lemma ReservationRequestValidIffNoViolations(q: ReservationRequest, today: Day)
    ensures ReservationRequestValid(q, today) <==> ReservationViolations(q, today) == {}
  {
  }

  /** A null date breaks only its not-null constraint, never the date bound. */
  lemma MissingDateReportedOnce(q: ReservationRequest, today: Day)
    requires q.checkinExpected.None? && q.checkoutExpected.None?
    ensures var r := ReservationViolations(q, today);
            CheckinMissing in r && CheckinNotFutureOrPresent !in r && CheckoutMissing in r && CheckoutNotInFuture !in r
  {
  }

  /** Once the request constraints hold, the service's past-date check can no
      longer fire, and its date validation passes exactly when check-out is
      after check-in: the request constraints alone do not order the dates. */
  lemma ValidRequestDateCheck(q: ReservationRequest, today: Day)
    requires ReservationRequestValid(q, today)
    ensures var v := ReservationService.ValidateDates(q.checkinExpected.value, q.checkoutExpected.value, today);
            && v != Fail(BusinessError(BusinessRule.CheckinInPast))
            && (v == Pass <==> q.checkinExpected.value < q.checkoutExpected.value)
  {
  }

  /** The request body for registering a room. */
  datatype RoomRequest = RoomRequest(
    number: Option<int>,
    roomType: Option<string>,
    capacity: Option<int>,
    pricePerNight: Option<Money>)

  /** One broken constraint of a room request. */
  datatype RoomViolation =
    | NumberMissing
    | NumberNotPositive
    | TypeBlank
    | CapacityMissing
    | CapacityBelowOne
    | PriceMissing
    | PriceNotPositive

  /** The constraints a room request breaks. */
  function RoomViolations(q: RoomRequest): (r: set<RoomViolation>)
    ensures NumberMissing in r <==> q.number.None?
    ensures NumberNotPositive in r <==> q.number.Some? && q.number.value <= 0
    ensures TypeBlank in r <==> !NotBlank(q.roomType)
    ensures CapacityMissing in r <==> q.capacity.None?
    ensures CapacityBelowOne in r <==> q.capacity.Some? && q.capacity.value < 1
    ensures PriceMissing in r <==> q.pricePerNight.None?
    ensures PriceNotPositive in r <==> q.pricePerNight.Some? && q.pricePerNight.value <= 0
  {
    (match q.number
     case Some(n) => if n > 0 then {} else {NumberNotPositive}
     case None => {NumberMissing})
    + (if NotBlank(q.roomType) then {} else {TypeBlank})
    + (match q.capacity
       case Some(c) => if c >= 1 then {} else {CapacityBelowOne}
       case None => {CapacityMissing})
    + (match q.pricePerNight
       case Some(p) => if p > 0 then {} else {PriceNotPositive}
       case None => {PriceMissing})
  }

  /** A room request fit for the service: a positive number, a type with a
      visible character, a capacity of at least one and a price above zero. */
  ghost predicate RoomRequestValid(q: RoomRequest) {
    && q.number.Some? && q.roomType.Some? && q.capacity.Some? && q.pricePerNight.Some?
    && q.number.value > 0
    && (exists i :: 0 <= i < |q.roomType.value| && q.roomType.value[i] > ' ')
    && q.capacity.value >= 1
    && q.pricePerNight.value > 0
  }

  /** The request is valid exactly when it breaks no constraint. */
  lemma RoomRequestValidIffNoViolations(q: RoomRequest)
    ensures RoomRequestValid(q) <==> RoomViolations(q) == {}
  {
  }
}
