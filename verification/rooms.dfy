/** The Room entity and the room store. */
module Rooms {
  import opened Base

  datatype RoomStatus = Active | Inactive {

    /** The status string the store persists and the status query matches. */
    function Name(): string {
      match this
      case Active => "ACTIVE"
      case Inactive => "INACTIVE"
    }
  }

  /** A bookable room; its identifier is its key in the room store. */
  datatype Room = Room(
    number: int,
    roomType: string,
    capacity: int,
    pricePerNight: Money,
    status: RoomStatus)

  type RoomStore = map<Id, Room>

  /** No two distinct rooms share a number, whatever their status. */
  ghost predicate NumbersUnique(rooms: RoomStore) {
    forall a, b :: a in rooms && b in rooms && a != b ==> rooms[a].number != rooms[b].number
  }
}
