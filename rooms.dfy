/**
 * Socket.IO rooms of the price server: a map from room name to the set of
 * socket ids currently in it. The adapter drops a room as soon as its last
 * member leaves, so no room is ever kept empty.
 */
module Rooms {

  type SocketId = string

  type RoomMap = map<string, set<SocketId>>

  const RoomPrefix: string := "TICKER_"

  /** The room that carries one ticker's updates: `TICKER_${t}`. */
  function RoomOf(ticker: string): (room: string)
    ensures |room| == |RoomPrefix| + |ticker|
    ensures room[..|RoomPrefix|] == RoomPrefix && room[|RoomPrefix|..] == ticker
  {
    RoomPrefix + ticker
  }

  /** Distinct tickers never share a room. */
  lemma RoomOfInjective(a: string, b: string)
    ensures RoomOf(a) == RoomOf(b) ==> a == b
  {
    if RoomOf(a) == RoomOf(b) {
      assert a == RoomOf(a)[|RoomPrefix|..];
    }
  }

  /** The rooms of the given tickers. */
  function RoomsOf(tickers: seq<string>): set<string> {
    set t | t in tickers :: RoomOf(t)
  }

  /** A ticker's room is among the rooms of some tickers exactly when the ticker is among them. */
  lemma RoomsOfExact(t: string, tickers: seq<string>)
    ensures RoomOf(t) in RoomsOf(tickers) <==> t in tickers
  {
    if RoomOf(t) in RoomsOf(tickers) {
      var u :| u in tickers && RoomOf(u) == RoomOf(t);
      RoomOfInjective(u, t);
    }
  }

  ghost predicate NoEmptyRooms(rooms: RoomMap) {
    forall r :: r in rooms ==> rooms[r] != {}
  }

  /** The sockets in a room; a room that does not exist has none. */
  function Members(rooms: RoomMap, room: string): set<SocketId> {
    if room in rooms then rooms[room] else {}
  }

  /** `socket.join(room)` */
  function Join(rooms: RoomMap, room: string, sid: SocketId): (r: RoomMap)
    ensures Members(r, room) == Members(rooms, room) + {sid}
    ensures forall other :: other != room ==> Members(r, other) == Members(rooms, other)
    ensures NoEmptyRooms(rooms) ==> NoEmptyRooms(r)
    ensures r.Keys == rooms.Keys + {room}
  {
    rooms[room := Members(rooms, room) + {sid}]
  }

  /** `socket.leave(room)`: also fine for a socket that is not a member. */
  function Leave(rooms: RoomMap, room: string, sid: SocketId): (r: RoomMap)
    ensures Members(r, room) == Members(rooms, room) - {sid}
    ensures forall other :: other != room ==> Members(r, other) == Members(rooms, other)
    ensures NoEmptyRooms(rooms) ==> NoEmptyRooms(r)
    ensures r.Keys <= rooms.Keys
  {
    var rest := Members(rooms, room) - {sid};
    if rest == {} then rooms - {room} else rooms[room := rest]
  }

  /** Joining a room a second time changes nothing. */
  lemma JoinIdempotent(rooms: RoomMap, room: string, sid: SocketId)
    ensures Join(Join(rooms, room, sid), room, sid) == Join(rooms, room, sid)
  {
  }

  /** Leaving a room one has just joined, as a newcomer, restores the rooms exactly. */
  lemma LeaveUndoesJoin(rooms: RoomMap, room: string, sid: SocketId)
    requires NoEmptyRooms(rooms) && sid !in Members(rooms, room)
    ensures Leave(Join(rooms, room, sid), room, sid) == rooms
  {
    var r := Leave(Join(rooms, room, sid), room, sid);
    if room in rooms {
      assert r == rooms[room := rooms[room]];
    } else {
      assert r == rooms - {room};
    }
  }
}
