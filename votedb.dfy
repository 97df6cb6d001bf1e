/** The room table. Each row holds a room's state, stored as versioned JSON, and the time the
    room was last active. The SQL engine and the JSON codec are abstracted: a row's payload is
    either the encoding of a state or text that does not decode as one. */
module VoteDb {
  import opened Wrappers
  import opened VoteUtil
  import Api

  /** Seconds in the retention window of the cleanup ('now', '-1 day'). */
  const DAY: int := 86400

  datatype DbRoomStateV1 = DbRoomStateV1(choices: seq<string>, votes: map<ClientId, Api.UserVote>, tallied: bool)

  /** The stored form, tagged with its version. */
  datatype DbRoomState = V1(v1: DbRoomStateV1)

  /** A room as the server works with it. */
  datatype DbRoom = DbRoom(choices: seq<string>, votes: map<ClientId, Api.UserVote>, tallied: bool)

  /** From<DbRoomState> for DbRoom. */
  function FromState(s: DbRoomState): DbRoom {
    match s
    case V1(v1) => DbRoom(v1.choices, v1.votes, v1.tallied)
  }

  /** From<DbRoom> for DbRoomState: always the current version, and read back unchanged. */
  function ToState(room: DbRoom): (s: DbRoomState)
    ensures s.V1?
    ensures FromState(s) == room
  {
    V1(DbRoomStateV1(room.choices, room.votes, room.tallied))
  }

  /** Every stored state is the encoding of the room it decodes to. */
  lemma StateRoundTrip(s: DbRoomState)
    ensures ToState(FromState(s)) == s
  {
  }

  /** The JSON column. */
  datatype Payload = Encoded(state: DbRoomState) | Undecodable

  datatype Row = Row(payload: Payload, lastActive: int)

  type Table = map<RoomId, Row>

  /** What read_room_state finds: nothing for a missing row or a payload that does not decode. */
  function Stored(t: Table, id: RoomId): (r: Option<DbRoom>)
    ensures r.None? <==> id !in t || t[id].payload.Undecodable?
    ensures r.Some? ==> t[id].payload == Encoded(ToState(r.value))
  {
    if id in t && t[id].payload.Encoded? then Some(FromState(t[id].payload.state)) else None
  }

  /** The room made by create_room: the given choices, no ballots, not tallied. */
  function NewRoom(choices: seq<string>): (room: DbRoom)
    ensures room.choices == choices && room.votes == map[] && !room.tallied
  {
    DbRoom(choices, map[], false)
  }

  /** The table after inserting a new room. */
  function Created(t: Table, id: RoomId, choices: seq<string>, now: int): (r: Table)
    requires id !in t
    ensures r.Keys == t.Keys + {id}
    ensures Stored(r, id) == Some(NewRoom(choices)) && r[id].lastActive == now
    ensures forall x :: x in t ==> r[x] == t[x]
  {
    t[id := Row(Encoded(ToState(NewRoom(choices))), now)]
  }

  /** The table after write_room_state: a present row gets the new state and a fresh activity
      time; a missing room changes nothing. */
  function Written(t: Table, id: RoomId, room: DbRoom, now: int): (r: Table)
    ensures r.Keys == t.Keys
    ensures id in t ==> Stored(r, id) == Some(room) && r[id].lastActive == now
    ensures forall x :: x in t && x != id ==> r[x] == t[x]
    ensures id !in t ==> r == t
  {
    if id in t then t[id := Row(Encoded(ToState(room)), now)] else t
  }

  /** The table after bump_room_activity: only the activity time of that room changes. */
  function Bumped(t: Table, id: RoomId, now: int): (r: Table)
    ensures r.Keys == t.Keys
    ensures forall x :: x in t ==> r[x].payload == t[x].payload
    ensures forall x :: x in t ==> r[x].lastActive == if x == id then now else t[x].lastActive
  {
    if id in t then t[id := t[id].(lastActive := now)] else t
  }

  /** The table after bumping the activity time of every room in ids. */
  function BumpedAll(t: Table, ids: set<RoomId>, now: int): (r: Table)
    ensures r.Keys == t.Keys
    ensures forall x :: x in t ==> r[x].payload == t[x].payload
    ensures forall x :: x in t ==> r[x].lastActive == if x in ids then now else t[x].lastActive
  {
    map x | x in t :: if x in ids then t[x].(lastActive := now) else t[x]
  }

  /** Bumping one more room extends the set of bumped rooms. */
  lemma BumpOneMore(t: Table, ids: set<RoomId>, id: RoomId, now: int)
    ensures Bumped(BumpedAll(t, ids, now), id, now) == BumpedAll(t, ids + {id}, now)
  {
    var a, b := Bumped(BumpedAll(t, ids, now), id, now), BumpedAll(t, ids + {id}, now);
    assert a.Keys == b.Keys;
    forall x | x in a ensures a[x] == b[x] {
    }
  }

  /** A row is recent when it was active within the last day. */
  predicate Recent(row: Row, now: int) {
    row.lastActive >= now - DAY
  }

  /** The table after cleanup_rooms: exactly the recent rows, unchanged. */
  function Cleaned(t: Table, now: int): (r: Table)
    ensures forall x :: x in r <==> x in t && Recent(t[x], now)
    ensures forall x :: x in r ==> r[x] == t[x]
  {
    map x | x in t && Recent(t[x], now) :: t[x]
  }

  /** The SQLite database holding the room table. */
  class Db {
    var table: Table

    /** A connection to a database whose room table already holds rows. */
    constructor (rows: Table)
      ensures table == rows
    {
      table := rows;
    }

    /** Inserts a new room under id, which the caller draws at random; an id already in the
        table violates the primary key, which the source treats as fatal. */
    method CreateRoom(choices: seq<string>, id: RoomId, now: int) returns (roomId: RoomId)
      requires id !in table
      modifies this
      ensures roomId == id
      ensures table == Created(old(table), id, choices, now)
    {
      roomId := id;
      table := table[id := Row(Encoded(ToState(NewRoom(choices))), now)];
    }

    /** The state of a room, or None when the row is missing or does not decode. */
    method ReadRoomState(id: RoomId) returns (r: Option<DbRoom>)
      ensures r == Stored(table, id)
    {
      if id !in table {
        return None;
      }
      match table[id].payload
      case Encoded(s) => r := Some(FromState(s));
      case Undecodable => r := None;
    }

    /** Replaces the state of a room and refreshes its activity time; returns whether the room
        was there to update. */
    method WriteRoomState(id: RoomId, room: DbRoom, now: int) returns (ok: bool)
      modifies this
      ensures ok <==> id in old(table)
      ensures table == Written(old(table), id, room, now)
    {
      ok := id in table;
      if ok {
        table := table[id := Row(Encoded(ToState(room)), now)];
      }
    }

    method BumpRoomActivity(id: RoomId, now: int)
      modifies this
      ensures table == Bumped(old(table), id, now)
    {
      if id in table {
        table := table[id := table[id].(lastActive := now)];
      }
    }

    /** Deletes every room inactive for more than a day. */
    method CleanupRooms(now: int)
      modifies this
      ensures table == Cleaned(old(table), now)
    {
      table := map x | x in table && Recent(table[x], now) :: table[x];
    }
  }

  // ---- what the coordinator relies on ----

  /** Reading after a write to a present room gives back what was written; other rooms read as before. */
  lemma ReadYourWrite(t: Table, id: RoomId, room: DbRoom, now: int, other: RoomId)
    requires id in t && other != id
    ensures Stored(Written(t, id, room, now), id) == Some(room)
    ensures Stored(Written(t, id, room, now), other) == Stored(t, other)
  {
  }

  /** Bumping the activity time leaves every room's state as it reads. */
  lemma BumpKeepsStates(t: Table, id: RoomId, now: int, x: RoomId)
    ensures Stored(Bumped(t, id, now), x) == Stored(t, x)
  {
  }

  /** Rooms bumped at time now survive a cleanup at time now and read as before. */
  lemma CleanupKeepsBumped(t: Table, ids: set<RoomId>, now: int)
    ensures forall x :: x in ids && x in t ==> x in Cleaned(BumpedAll(t, ids, now), now)
    ensures forall x :: x in ids ==> Stored(Cleaned(BumpedAll(t, ids, now), now), x) == Stored(t, x)
  {
    var b := BumpedAll(t, ids, now);
    forall x | x in ids ensures Stored(Cleaned(b, now), x) == Stored(t, x) {
      if x in t {
        assert Recent(b[x], now);
      }
    }
  }
}
