/** The decoded floor/room/bed records of the housing portal's floor listing, and what makes a
    bed selectable. Fields that the JSON may lack are options, read with `dict.get`. */
module Housing {
  import opened Wrappers
  import opened Replies

  /** The status marker of a bed nobody has chosen yet. */
  const NotChosen := "notCho"

  /** `bedPrice` is only passed through for display; it is kept as opaque text. */
  datatype Bed = Bed(name: Option<string>, id: Option<string>, choose: Option<string>, price: Option<string>)

  /** A room's `name` is both compared and displayed, so a `null` name is kept apart from a
      missing one. */
  datatype Room = Room(name: JsonText, id: Option<string>, floorId: Option<string>, beds: seq<Bed>)

  /** The floor number `no` is only displayed. */
  datatype Floor = Floor(no: JsonText, rooms: seq<Room>)

  /** `bed.get('choose') == 'notCho'`: only the exact marker counts; a missing marker does not. */
  predicate IsFree(b: Bed) {
    b.choose == Some(NotChosen)
  }

  /** Python truthiness of an optional string: present and not empty. */
  predicate Truthy(s: Option<string>) {
    s.Some? && s.value != ""
  }

  predicate RoomHasFree(room: Room) {
    exists k :: 0 <= k < |room.beds| && IsFree(room.beds[k])
  }

  predicate FloorHasFree(floor: Floor) {
    exists j :: 0 <= j < |floor.rooms| && RoomHasFree(floor.rooms[j])
  }

  /** Some bed on some floor is free. */
  predicate AnyFree(floors: seq<Floor>) {
    exists i :: 0 <= i < |floors| && FloorHasFree(floors[i])
  }

  /** The free beds of a room, in the room's order. */
  function FreeBeds(beds: seq<Bed>): (r: seq<Bed>)
    ensures |r| <= |beds|
    ensures forall k :: 0 <= k < |r| ==> IsFree(r[k])
  {
    if beds == [] then []
    else
      var last := beds[|beds| - 1];
      FreeBeds(beds[..|beds| - 1]) + (if IsFree(last) then [last] else [])
  }

  /** A bed is listed exactly when it is in the room and free. */
  lemma {:induction false} FreeBedsMembers(beds: seq<Bed>, b: Bed)
    ensures b in FreeBeds(beds) <==> b in beds && IsFree(b)
  {
    if beds != [] {
      var init := beds[..|beds| - 1];
      FreeBedsMembers(init, b);
      assert beds == init + [beds[|beds| - 1]];
    }
  }

  /** Filtering keeps the order: it distributes over concatenation. */
  lemma {:induction false} FreeBedsAppend(a: seq<Bed>, c: seq<Bed>)
    ensures FreeBeds(a + c) == FreeBeds(a) + FreeBeds(c)
    decreases |c|
  {
    if c == [] {
      assert a + c == a;
    } else {
      var init := c[..|c| - 1];
      FreeBedsAppend(a, init);
      assert (a + c)[..|a + c| - 1] == a + init;
    }
  }

  /** A room offers something exactly when one of its beds is free. */
  lemma FreeBedsNonEmpty(room: Room)
    ensures FreeBeds(room.beds) != [] <==> RoomHasFree(room)
  {
    if FreeBeds(room.beds) != [] {
      FreeBedsMembers(room.beds, FreeBeds(room.beds)[0]);
    }
    if RoomHasFree(room) {
      var k :| 0 <= k < |room.beds| && IsFree(room.beds[k]);
      FreeBedsMembers(room.beds, room.beds[k]);
    }
  }
}
