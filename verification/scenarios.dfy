/** Concrete end-to-end runs of the services, stated for every `today` and `now`. */
module Scenarios {
  import opened Base
  import opened Rooms
  import opened Reservations
  import opened ReservationService
  import RoomService

  /** Room 101 at 100.00 a night; a three-night stay for Ana; a second stay
      inside hers is refused; Ana checks in and out and is billed 300.00. */
  lemma ThreeNightStay(today: Day, now: Instant)
    ensures var rooms := RoomService.Create(map[], "room-101", 101, "DOUBLE", 2, 10000);
            && rooms.Ok?
            && var h1 := Hotel(rooms.value, map[]);
               var booked := Create(h1, "ana", "room-101", "Ana", today, today + 3, today, now);
               && booked.Ok?
               && booked.value.reservations["ana"].status == Created
               && Create(booked.value, "bia", "room-101", "Bia", today + 1, today + 2, today, now) == Err(Conflict)
               && var inside := CheckIn(booked.value, "ana", today, now);
                  && inside.Ok?
                  && inside.value.reservations["ana"].status == CheckedIn
                  && var done := CheckOut(inside.value, "ana", now);
                     && done.Ok?
                     && done.value.reservations["ana"].status == CheckedOut
                     && done.value.reservations["ana"].totalAmount == Some(30000)
  {
  }

  /** A checked-in reservation can no longer be canceled, and a checked-in or
      fresh one cannot be checked in again or checked out early: NotFound. */
  lemma WrongStatusIsNotFound(today: Day, now: Instant)
    ensures var res := Reservation("room-101", "Ana", today, today + 3, CheckedIn, None, now, now);
            var h := Hotel(map["room-101" := Room(101, "DOUBLE", 2, 10000, Active)], map["ana" := res]);
            && Cancel(h, "ana", now) == Err(NotFound)
            && CheckIn(h, "ana", today, now) == Err(NotFound)
            && CheckOut(h.(reservations := map["ana" := res.(status := Created)]), "ana", now) == Err(NotFound)
  {
  }

  /** A stay that ends on the day it starts is refused before the room is looked up. */
  lemma ZeroNightStayRefused(h: Hotel, id: Id, roomId: Id, guestName: string, today: Day, now: Instant)
    requires id !in h.reservations
    ensures Create(h, id, roomId, guestName, today, today, today, now) == Err(BusinessError(CheckoutNotAfterCheckin))
  {
  }
}
