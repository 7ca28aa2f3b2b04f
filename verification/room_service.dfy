/** Room registration, deactivation and the room queries, with the room
    store's lookups by number and by status folded in. */
module RoomService {
  import opened Base
  import opened Rooms

  /** Some room, in any status, already carries `number`. */
  predicate NumberTaken(rooms: RoomStore, number: int) {
    exists id :: id in rooms && rooms[id].number == number
  }

  /** The rooms whose persisted status string equals `name`. */
  function FindByStatus(rooms: RoomStore, name: string): (r: RoomStore)
    ensures forall id :: id in r <==> id in rooms && rooms[id].status.Name() == name
    ensures forall id :: id in r ==> r[id] == rooms[id]
  {
    map id | id in rooms && rooms[id].status.Name() == name :: rooms[id]
  }

  /** The room with this id, or NotFound. */
  function FindRoomEntityById(rooms: RoomStore, id: Id): (r: Result<Room>)
    ensures r.Ok? <==> id in rooms
    ensures r.Ok? ==> r.value == rooms[id]
    ensures r.Err? ==> r.error == NotFound
  {
    if id in rooms then Ok(rooms[id]) else Err(NotFound)
  }

  /** Registers a room under the fresh id `id`. A number already in use by any
      room is a business error; otherwise the room is stored ACTIVE with the
      requested fields. */
  function Create(rooms: RoomStore, id: Id, number: int, roomType: string, capacity: int, pricePerNight: Money): (r: Result<RoomStore>)
    requires id !in rooms
    ensures r.Err? <==> exists x :: x in rooms && rooms[x].number == number
    ensures r.Err? ==> r.error == BusinessError(DuplicateRoomNumber)
    ensures r.Ok? ==> r.value.Keys == rooms.Keys + {id}
    ensures r.Ok? ==> forall x :: x in rooms ==> r.value[x] == rooms[x]
    ensures r.Ok? ==> r.value[id] == Room(number, roomType, capacity, pricePerNight, Active)
    ensures r.Ok? && NumbersUnique(rooms) ==> NumbersUnique(r.value)
  {
    if NumberTaken(rooms, number) then Err(BusinessError(DuplicateRoomNumber))
    else Ok(rooms[id := Room(number, roomType, capacity, pricePerNight, Active)])
  }

  /** Marks the room INACTIVE; an unknown id is NotFound. */
  function Deactivate(rooms: RoomStore, id: Id): (r: Result<RoomStore>)
    ensures r.Err? <==> id !in rooms
    ensures r.Err? ==> r.error == NotFound
    ensures r.Ok? ==> r.value.Keys == rooms.Keys
    ensures r.Ok? ==> forall x :: x in rooms && x != id ==> r.value[x] == rooms[x]
    ensures r.Ok? ==> r.value[id].status == Inactive
    ensures r.Ok? ==> r.value[id] == rooms[id].(status := r.value[id].status)
  {
    if id !in rooms then Err(NotFound)
    else Ok(rooms[id := rooms[id].(status := Inactive)])
  }

  /** A registered room is found under its id, ACTIVE with the requested
      fields, and every other id is looked up as before. */
  lemma CreatedRoomIsFound(rooms: RoomStore, id: Id, number: int, roomType: string, capacity: int, pricePerNight: Money, other: Id)
    requires id !in rooms
    ensures var r := Create(rooms, id, number, roomType, capacity, pricePerNight);
            r.Ok? ==>
              && FindRoomEntityById(r.value, id) == Ok(Room(number, roomType, capacity, pricePerNight, Active))
              && (other != id ==> FindRoomEntityById(r.value, other) == FindRoomEntityById(rooms, other))
  {
  }

  /** A deactivated room is still found, now INACTIVE; other lookups are unchanged. */
  lemma DeactivatedRoomIsFound(rooms: RoomStore, id: Id, other: Id)
    ensures var r := Deactivate(rooms, id);
            r.Ok? ==>
              && FindRoomEntityById(r.value, id).Ok?
              && FindRoomEntityById(r.value, id).value.status == Inactive
              && FindRoomEntityById(r.value, id).value.number == rooms[id].number
              && (other != id ==> FindRoomEntityById(r.value, other) == FindRoomEntityById(rooms, other))
  {
  }

  /** Deactivation keeps room numbers unique: it changes no number. */
  lemma DeactivatePreservesUniqueNumbers(rooms: RoomStore, id: Id)
    requires NumbersUnique(rooms)
    ensures Deactivate(rooms, id).Ok? ==> NumbersUnique(Deactivate(rooms, id).value)
  {
  }

  /** Deactivating twice is deactivating once; an INACTIVE room stays INACTIVE
      and nothing else changes. */
  lemma DeactivateIdempotent(rooms: RoomStore, id: Id)
    requires id in rooms
    ensures Deactivate(rooms, id).Ok?
    ensures Deactivate(Deactivate(rooms, id).value, id) == Deactivate(rooms, id)
    ensures rooms[id].status == Inactive ==> Deactivate(rooms, id) == Ok(rooms)
  {
    var once := Deactivate(rooms, id).value;
    assert once[id].(status := Inactive) == once[id];
    assert once[id := once[id]] == once;
    if rooms[id].status == Inactive {
      assert rooms[id].(status := Inactive) == rooms[id];
      assert rooms[id := rooms[id]] == rooms;
    }
  }

  /** Each status name selects exactly the rooms in that status, and a string
      that names no status selects nothing. */
  lemma FindByStatusSelectsStatus(rooms: RoomStore, status: RoomStatus, name: string)
    ensures forall id :: id in FindByStatus(rooms, status.Name()) <==> id in rooms && rooms[id].status == status
    ensures name != "ACTIVE" && name != "INACTIVE" ==> FindByStatus(rooms, name) == map[]
  {
  }
}
