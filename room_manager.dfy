/**
 * The room manager (game/room_manager.py): the rooms table by code, the
 * in-memory cache of live rooms, their locks, and the map from each user
 * to the one room they are in.
 */
module RoomManagement {
  import opened Wrappers
  import opened PlayerModel
  import opened RoomModel
  import opened UserModel

  /** The result of a manager operation: `Done`, or why it was refused. */
  datatype Outcome =
    | Done
    | UserNotFound
    | AlreadyInThisRoom
    | InAnotherRoom
    | RoomNotFound
    | RoomFull
    | NotJoinable
    | WrongPassword
    | AlreadySeated
    | NotInAnyRoom
    | NotSeated
    | NotCreator
    | NotWaiting
    | NoFreeCode

  /** The statuses under which a room found in the table is cached. */
  predicate Live(s: RoomStatus)
  {
    s == Waiting || s == Starting || s == Playing
  }

  /** A stored password admits a given one unless it is set, not empty, and different. */
  predicate Admits(stored: Option<string>, given: Option<string>)
  {
    !(PasswordRequired(stored) && stored != given)
  }

  /** Every active seat is ready. */
  predicate AllReady(seats: seq<Seat>)
  {
    forall i :: 0 <= i < |seats| ==> seats[i].isReady
  }

  /** The user ids of some seats, as a set. */
  function IdSet(seats: seq<Seat>): (s: set<Id>)
    ensures forall u :: u in s <==> exists i :: 0 <= i < |seats| && seats[i].userId == u
  {
    set i | 0 <= i < |seats| :: seats[i].userId
  }

  /** Removing a key just added to a map that lacked it gives the map back. */
  lemma AddThenRemove<K, V>(m: map<K, V>, k: K, v: V)
    requires k !in m
    ensures m[k := v] - {k} == m
  {
    assert (m[k := v] - {k}).Keys == m.Keys;
  }

  /** Every candidate draw spells a code that is already taken. */
  predicate CodesTaken(existing: set<string>, candidates: seq<seq<nat>>)
  {
    forall i :: 0 <= i < |candidates| ==> CodeOf(candidates[i]) in existing
  }

  /** The checks `create_room` makes before it stores a room: a known user, in no room, and a free code. */
  predicate CanCreate(creatorId: Id, users: map<Id, User>, playerRooms: map<Id, string>, existing: set<string>,
                      candidates: seq<seq<nat>>)
  {
    creatorId in users && creatorId !in playerRooms && !CodesTaken(existing, candidates)
  }

  class RoomManager {
    /** The rooms table, by room code. */
    var rooms: map<string, Room>
    /** The cache of rooms in memory, by room code. */
    var activeRooms: map<string, Room>
    /** user id -> code of the room the user is in */
    var playerRooms: map<Id, string>
    /** The codes that have a lock. */
    var roomLocks: set<string>
    /** The id the next created room receives. */
    var nextRoomId: Id

    /** Every room sits under its own code, in the table and in the cache, and keeps its seat invariant. */
    ghost predicate Valid()
      reads this, rooms.Values`currentPlayers, rooms.Values`seats
      reads activeRooms.Values`currentPlayers, activeRooms.Values`seats
    {
      (forall c :: c in rooms ==> rooms[c].roomCode == c && rooms[c].Valid()) &&
      (forall c :: c in activeRooms ==> activeRooms[c].roomCode == c && activeRooms[c].Valid())
    }

    constructor ()
      ensures rooms == map[] && activeRooms == map[] && playerRooms == map[] && roomLocks == {}
      ensures Valid()
    {
      rooms := map[];
      activeRooms := map[];
      playerRooms := map[];
      roomLocks := {};
      nextRoomId := 1;
    }

    /** The room `get_room` finds for a code: the cached one first, else the table's. */
    function Lookup(code: string): (r: Option<Room>)
      reads this
      ensures r.Some? <==> code in activeRooms || code in rooms
      ensures r.Some? ==> r.value in activeRooms.Values || r.value in rooms.Values
    {
      if code in activeRooms then Some(activeRooms[code])
      else if code in rooms then Some(rooms[code])
      else None
    }

    /** Every room the manager holds, in the table or in the cache. */
    function Rooms(): set<Room>
      reads this
    {
      rooms.Values + activeRooms.Values
    }

    /** The table's room under a code, as a set of at most one room. */
    function TableRoom(code: string): (s: set<Room>)
      reads this
      ensures s <= rooms.Values
      ensures code in rooms ==> s == {rooms[code]}
      ensures code !in rooms ==> s == {}
    {
      if code in rooms then {rooms[code]} else {}
    }

    /** The room found under a code, as a set of at most one room. */
    function Found(code: string): (s: set<Room>)
      reads this
      ensures s <= Rooms()
      ensures Lookup(code).Some? ==> s == {Lookup(code).value}
      ensures Lookup(code).None? ==> s == {}
    {
      if Lookup(code).Some? then {Lookup(code).value} else {}
    }

    lemma LookupValid(code: string)
      requires Valid() && Lookup(code).Some?
      ensures Lookup(code).value.Valid() && Lookup(code).value.roomCode == code
    {
    }

    /**
     * `get_room`: the room under a code. A live room found only in the table
     * is put into the cache and given a lock; the room every code leads to
     * stays the same.
     */
    method GetRoom(code: string) returns (r: Option<Room>)
      requires Valid()
      modifies this`activeRooms, this`roomLocks
      ensures Valid()
      ensures r == old(Lookup(code))
      ensures forall c :: Lookup(c) == old(Lookup(c))
      ensures code !in old(activeRooms) && code in rooms && Live(rooms[code].status) ==>
        activeRooms == old(activeRooms)[code := rooms[code]] && roomLocks == old(roomLocks) + {code}
      ensures !(code !in old(activeRooms) && code in rooms && Live(rooms[code].status)) ==>
        activeRooms == old(activeRooms) && roomLocks == old(roomLocks)
    {
      if code in activeRooms {
        return Some(activeRooms[code]);
      }
      if code !in rooms {
        return None;
      }
      var room := rooms[code];
      if Live(room.status) {
        activeRooms := activeRooms[code := room];
        roomLocks := roomLocks + {code};
      }
      return Some(room);
    }

    /**
     * `_cleanup_empty_room`: drops the code from the cache and the locks;
     * the table's room under the code is cancelled when it has no players.
     */
    method CleanupEmptyRoom(code: string)
      requires Valid()
      modifies this`activeRooms, this`roomLocks, TableRoom(code)`status
      ensures Valid()
      ensures activeRooms == old(activeRooms) - {code} && roomLocks == old(roomLocks) - {code}
      ensures code in rooms && rooms[code].currentPlayers == 0 ==> rooms[code].status == RoomCancelled
      ensures code in rooms && rooms[code].currentPlayers != 0 ==> rooms[code].status == old(rooms[code].status)
      ensures forall c :: c in rooms && c != code ==> rooms[c].status == old(rooms[c].status)
      ensures Lookup(code) == old(if code in rooms then Some(rooms[code]) else None)
    {
      activeRooms := activeRooms - {code};
      roomLocks := roomLocks - {code};
      if code in rooms && rooms[code].currentPlayers == 0 {
        rooms[code].status := RoomCancelled;
      }
    }

    /**
     * Stores a new room under `code` in the table and the cache and gives it
     * a lock; the room takes the next id.
     */
    method StoreNewRoom(code: string, name: string, creatorId: Id, settings: RoomSettings) returns (room: Room)
      requires Valid()
      modifies this`rooms, this`activeRooms, this`roomLocks, this`nextRoomId
      ensures Valid()
      ensures fresh(room) && room.roomCode == code && room.id == old(nextRoomId) && nextRoomId == old(nextRoomId) + 1
      ensures room.name == name && room.creatorId == creatorId && room.password == settings.password
      ensures room.maxPlayers == Or(settings.maxPlayers, DefaultMaxPlayers) && room.status == Waiting && room.seats == []
      ensures rooms == old(rooms)[code := room] && activeRooms == old(activeRooms)[code := room]
      ensures roomLocks == old(roomLocks) + {code} && Lookup(code) == Some(room)
    {
      room := new Room(nextRoomId, code, name, creatorId, settings);
      nextRoomId := nextRoomId + 1;
      rooms := rooms[code := room];
      activeRooms := activeRooms[code := room];
      roomLocks := roomLocks + {code};
    }

    /**
     * `create_room`, with the password the creator joins with as a
     * parameter: refuses an unknown user and a user already in a room, draws
     * a free code, stores the room, and seats the creator through the steps
     * of `join_room` (whose first checks pass here: the user exists, has no
     * room, and the room is cached under its code). When seating fails the
     * room is deleted from the table again; its cache entry and lock stay.
     */
    method CreateRoomJoining(creatorId: Id, name: string, settings: RoomSettings, candidates: seq<seq<nat>>,
                             users: map<Id, User>, now: int, joinPassword: Option<string>)
      returns (res: Outcome, room: Option<Room>)
      requires Valid()
      requires forall i :: 0 <= i < |candidates| ==> |candidates[i]| == CodeLength
      modifies this`rooms, this`activeRooms, this`roomLocks, this`playerRooms, this`nextRoomId
      modifies users.Values`lastSeen, users.Values`isOnline
      ensures Valid()
      ensures res == UserNotFound <==> creatorId !in users
      ensures res == InAnotherRoom <==> creatorId in users && creatorId in old(playerRooms)
      ensures res == NoFreeCode <==> (creatorId in users && creatorId !in old(playerRooms) &&
        CodesTaken(old(rooms).Keys, candidates))
      ensures res == RoomFull <==> (CanCreate(creatorId, users, old(playerRooms), old(rooms).Keys, candidates) &&
        Or(settings.maxPlayers, DefaultMaxPlayers) <= 0)
      ensures res == WrongPassword <==> (CanCreate(creatorId, users, old(playerRooms), old(rooms).Keys, candidates) &&
        Or(settings.maxPlayers, DefaultMaxPlayers) > 0 && !Admits(settings.password, joinPassword))
      ensures res == Done <==> (CanCreate(creatorId, users, old(playerRooms), old(rooms).Keys, candidates) &&
        Or(settings.maxPlayers, DefaultMaxPlayers) > 0 && Admits(settings.password, joinPassword))
      ensures res != Done ==> room.None? && rooms == old(rooms) && playerRooms == old(playerRooms)
      ensures res == Done ==> (room.Some? && fresh(room.value) && room.value.roomCode !in old(rooms) &&
        rooms == old(rooms)[room.value.roomCode := room.value] &&
        playerRooms == old(playerRooms)[creatorId := room.value.roomCode] &&
        room.value.seats == [Seat(creatorId, true, false)] && room.value.creatorId == creatorId &&
        room.value.name == name && room.value.id == old(nextRoomId))
    {
      if creatorId !in users {
        return UserNotFound, None;
      }
      if creatorId in playerRooms {
        return InAnotherRoom, None;
      }
      var code := GenerateRoomCode(rooms.Keys, candidates);
      if code.None? {
        return NoFreeCode, None;
      }
      res, room := OpenRoom(code.value, name, creatorId, settings, joinPassword, users[creatorId], now);
    }

    /**
     * The steps of `create_room` once a free code is drawn: the room is
     * stored, the creator joins it through the checks of `join_room`, and
     * the room is deleted from the table again when that fails.
     */
    method OpenRoom(code: string, name: string, creatorId: Id, settings: RoomSettings, password: Option<string>,
                    user: User, now: int)
      returns (res: Outcome, room: Option<Room>)
      requires Valid() && code !in rooms && creatorId !in playerRooms
      modifies this`rooms, this`activeRooms, this`roomLocks, this`playerRooms, this`nextRoomId
      modifies user`lastSeen, user`isOnline
      ensures Valid()
      ensures res == RoomFull <==> Or(settings.maxPlayers, DefaultMaxPlayers) <= 0
      ensures res == WrongPassword <==> Or(settings.maxPlayers, DefaultMaxPlayers) > 0 && !Admits(settings.password, password)
      ensures res == Done <==> Or(settings.maxPlayers, DefaultMaxPlayers) > 0 && Admits(settings.password, password)
      ensures res != Done ==> room.None? && rooms == old(rooms) && playerRooms == old(playerRooms)
      ensures res == Done ==> (room.Some? && fresh(room.value) && room.value.roomCode == code &&
        rooms == old(rooms)[code := room.value] && playerRooms == old(playerRooms)[creatorId := code] &&
        room.value.seats == [Seat(creatorId, true, false)] && room.value.creatorId == creatorId &&
        room.value.name == name && room.value.id == old(nextRoomId))
    {
      var r := StoreNewRoom(code, name, creatorId, settings);
      LookupValid(code);
      assert r.currentPlayers == 0 && !r.HasMember(creatorId);
      assert r.IsFull() <==> Or(settings.maxPlayers, DefaultMaxPlayers) <= 0;
      res := AdmitPlayer(r, creatorId, code, password, user, now);
      if res != Done {
        rooms := rooms - {code};
        AddThenRemove(old(rooms), code, r);
        return res, None;
      }
      assert r.seats == [] + [Seat(creatorId, true, false)];
      return Done, Some(r);
    }

    /**
     * `create_room` as written: the creator joins without a password, so a
     * room created with a non-empty password can never be created.
     */
    method CreateRoomAsWritten(creatorId: Id, name: string, settings: RoomSettings, candidates: seq<seq<nat>>,
                               users: map<Id, User>, now: int)
      returns (res: Outcome, room: Option<Room>)
      requires Valid()
      requires forall i :: 0 <= i < |candidates| ==> |candidates[i]| == CodeLength
      modifies this`rooms, this`activeRooms, this`roomLocks, this`playerRooms, this`nextRoomId
      modifies users.Values`lastSeen, users.Values`isOnline
      ensures Valid()
      ensures PasswordRequired(settings.password) ==> res != Done && room.None?
      ensures (CanCreate(creatorId, users, old(playerRooms), old(rooms).Keys, candidates) &&
        Or(settings.maxPlayers, DefaultMaxPlayers) > 0 && PasswordRequired(settings.password)) ==> res == WrongPassword
    {
      res, room := CreateRoomJoining(creatorId, name, settings, candidates, users, now, None);
    }

    /**
     * `create_room` with the creator joining under the room's own password:
     * it succeeds exactly when the user is known and in no room, a code is
     * free, and the room has a seat, and then the creator sits in it alone.
     */
    method CreateRoom(creatorId: Id, name: string, settings: RoomSettings, candidates: seq<seq<nat>>,
                      users: map<Id, User>, now: int)
      returns (res: Outcome, room: Option<Room>)
      requires Valid()
      requires forall i :: 0 <= i < |candidates| ==> |candidates[i]| == CodeLength
      modifies this`rooms, this`activeRooms, this`roomLocks, this`playerRooms, this`nextRoomId
      modifies users.Values`lastSeen, users.Values`isOnline
      ensures Valid()
      ensures res != WrongPassword
      ensures res == Done <==> (CanCreate(creatorId, users, old(playerRooms), old(rooms).Keys, candidates) &&
        Or(settings.maxPlayers, DefaultMaxPlayers) > 0)
      ensures res == Done ==> (room.Some? && fresh(room.value) &&
        playerRooms == old(playerRooms)[creatorId := room.value.roomCode] &&
        room.value.seats == [Seat(creatorId, true, false)] && room.value.creatorId == creatorId)
      ensures res != Done ==> room.None? && rooms == old(rooms) && playerRooms == old(playerRooms)
    {
      res, room := CreateRoomJoining(creatorId, name, settings, candidates, users, now, settings.password);
    }

    /**
     * The checks `join_room` makes once the room is found, in order: room
     * full, room not waiting, password, and a seat the user already has.
     */
    method AdmitPlayer(room: Room, userId: Id, code: string, password: Option<string>, user: User, now: int)
      returns (res: Outcome)
      requires Valid() && Lookup(code) == Some(room) && userId !in playerRooms
      modifies this`playerRooms, room`seats, room`currentPlayers, room`status, room`startedAt
      modifies user`lastSeen, user`isOnline
      ensures Valid()
      ensures res in {RoomFull, NotJoinable, WrongPassword, AlreadySeated, Done}
      ensures res == RoomFull <==> old(room.IsFull())
      ensures res == NotJoinable <==> !old(room.IsFull()) && old(room.status) != Waiting
      ensures res == WrongPassword <==> old(room.CanJoin()) && !Admits(room.password, password)
      ensures res == AlreadySeated <==> old(room.CanJoin()) && Admits(room.password, password) && old(room.HasMember(userId))
      ensures res == Done <==> old(room.CanJoin()) && Admits(room.password, password) && !old(room.HasMember(userId))
      ensures res == Done ==> (playerRooms == old(playerRooms)[userId := code] && Admitted(room, userId, now) &&
        user.isOnline && user.lastSeen == Some(now))
      ensures res != Done ==> playerRooms == old(playerRooms) && unchanged(room) && unchanged(user)
    {
      LookupValid(code);
      if !room.CanJoin() {
        if room.IsFull() {
          return RoomFull;
        }
        return NotJoinable;
      }
      if !Admits(room.password, password) {
        return WrongPassword;
      }
      var ok := room.AddPlayer(userId, now);
      if !ok {
        return AlreadySeated;
      }
      playerRooms := playerRooms[userId := code];
      user.UpdateLastSeen(now);
      return Done;
    }

    /**
     * `join_room`: refuses an unknown user, a user already in a room (this
     * one or another), an unknown room, and whatever the room refuses; only
     * success maps the user to the room.
     */
    method JoinRoom(userId: Id, code: string, password: Option<string>, users: map<Id, User>, now: int)
      returns (res: Outcome)
      requires Valid()
      modifies this`activeRooms, this`roomLocks, this`playerRooms
      modifies rooms.Values`seats, rooms.Values`currentPlayers, rooms.Values`status, rooms.Values`startedAt
      modifies activeRooms.Values`seats, activeRooms.Values`currentPlayers, activeRooms.Values`status, activeRooms.Values`startedAt
      modifies users.Values`lastSeen, users.Values`isOnline
      ensures Valid()
      ensures rooms == old(rooms) && forall c :: Lookup(c) == old(Lookup(c))
      ensures res == UserNotFound <==> userId !in users
      ensures res == AlreadyInThisRoom <==> userId in users && userId in old(playerRooms) && old(playerRooms)[userId] == code
      ensures res == InAnotherRoom <==> userId in users && userId in old(playerRooms) && old(playerRooms)[userId] != code
      ensures res == RoomNotFound <==> userId in users && userId !in old(playerRooms) && old(Lookup(code)).None?
      ensures res == Done <==> (userId in users && userId !in old(playerRooms) && old(Lookup(code)).Some? &&
        old(Lookup(code).value.CanJoin()) && Admits(old(Lookup(code).value.password), password) &&
        !old(Lookup(code).value.HasMember(userId)))
      ensures res == RoomFull <==> (userId in users && userId !in old(playerRooms) && old(Lookup(code)).Some? &&
        old(Lookup(code).value.IsFull()))
      ensures res == WrongPassword <==> (userId in users && userId !in old(playerRooms) && old(Lookup(code)).Some? &&
        old(Lookup(code).value.CanJoin()) && !Admits(old(Lookup(code).value.password), password))
      ensures res == NotJoinable <==> (userId in users && userId !in old(playerRooms) && old(Lookup(code)).Some? &&
        !old(Lookup(code).value.IsFull()) && old(Lookup(code).value.status) != Waiting)
      ensures res == AlreadySeated <==> (userId in users && userId !in old(playerRooms) && old(Lookup(code)).Some? &&
        old(Lookup(code).value.CanJoin()) && Admits(old(Lookup(code).value.password), password) &&
        old(Lookup(code).value.HasMember(userId)))
      ensures res in {UserNotFound, AlreadyInThisRoom, InAnotherRoom, RoomNotFound, RoomFull, NotJoinable,
                      WrongPassword, AlreadySeated, Done}
      ensures res == Done ==> (playerRooms == old(playerRooms)[userId := code] &&
        Admitted(old(Lookup(code)).value, userId, now) &&
        users[userId].isOnline && users[userId].lastSeen == Some(now))
      ensures res != Done ==> playerRooms == old(playerRooms)
      ensures res != Done && old(Lookup(code)).Some? ==> unchanged(old(Lookup(code)).value)
      ensures forall r :: r in old(Rooms()) && r.roomCode != code ==> unchanged(r)
      ensures forall u :: u in users.Values && !(res == Done && userId in users && u == users[userId]) ==> unchanged(u)
    {
      if userId !in users {
        return UserNotFound;
      }
      if userId in playerRooms {
        if playerRooms[userId] == code {
          return AlreadyInThisRoom;
        }
        return InAnotherRoom;
      }
      res := JoinFreeUser(userId, code, password, users[userId], now);
    }

    /** The part of `join_room` for a known user in no room: the room is looked up and admits the user or not. */
    method JoinFreeUser(userId: Id, code: string, password: Option<string>, user: User, now: int)
      returns (res: Outcome)
      requires Valid() && userId !in playerRooms
      modifies this`activeRooms, this`roomLocks, this`playerRooms
      modifies Found(code)`seats, Found(code)`currentPlayers, Found(code)`status, Found(code)`startedAt
      modifies user`lastSeen, user`isOnline
      ensures Valid()
      ensures rooms == old(rooms) && forall c :: Lookup(c) == old(Lookup(c))
      ensures res in {RoomNotFound, RoomFull, NotJoinable, WrongPassword, AlreadySeated, Done}
      ensures res == RoomNotFound <==> old(Lookup(code)).None?
      ensures res == Done <==> (old(Lookup(code)).Some? && old(Lookup(code).value.CanJoin()) &&
        Admits(old(Lookup(code).value.password), password) && !old(Lookup(code).value.HasMember(userId)))
      ensures res == RoomFull <==> old(Lookup(code)).Some? && old(Lookup(code).value.IsFull())
      ensures res == WrongPassword <==> (old(Lookup(code)).Some? && old(Lookup(code).value.CanJoin()) &&
        !Admits(old(Lookup(code).value.password), password))
      ensures res == NotJoinable <==> (old(Lookup(code)).Some? && !old(Lookup(code).value.IsFull()) &&
        old(Lookup(code).value.status) != Waiting)
      ensures res == AlreadySeated <==> (old(Lookup(code)).Some? && old(Lookup(code).value.CanJoin()) &&
        Admits(old(Lookup(code).value.password), password) && old(Lookup(code).value.HasMember(userId)))
      ensures res == Done ==> (playerRooms == old(playerRooms)[userId := code] &&
        Admitted(old(Lookup(code)).value, userId, now) && user.isOnline && user.lastSeen == Some(now))
      ensures res != Done ==> playerRooms == old(playerRooms) && unchanged(user)
      ensures res != Done && old(Lookup(code)).Some? ==> unchanged(old(Lookup(code)).value)
      ensures forall r :: r in old(Rooms()) && r.roomCode != code ==> unchanged(r)
    {
      ghost var before := Lookup(code);
      var found := GetRoom(code);
      assert found == before;
      if found.None? {
        return RoomNotFound;
      }
      res := AdmitPlayer(found.value, userId, code, password, user, now);
    }

    /**
     * The part of `leave_room` after the room is found: the user leaves it
     * and loses the mapping, and a room left empty is cleaned up.
     */
    method Depart(room: Room, userId: Id, code: string) returns (res: Outcome)
      requires Valid() && Lookup(code) == Some(room) && userId in playerRooms
      modifies this`activeRooms, this`roomLocks, this`playerRooms
      modifies room`seats, room`currentPlayers, room`creatorId, room`status, TableRoom(code)`status
      ensures Valid()
      ensures rooms == old(rooms)
      ensures res == Done <==> old(room.HasMember(userId))
      ensures res != Done ==> res == NotSeated && playerRooms == old(playerRooms) && unchanged(room)
      ensures res == Done ==> playerRooms == old(playerRooms) - {userId} && Departed(room, userId)
      ensures res == Done && room.currentPlayers == 0 ==> code !in activeRooms && code !in roomLocks
      ensures res == Done && room.currentPlayers == 0 && code in rooms && rooms[code] == room ==>
        room.status == RoomCancelled
      ensures forall r :: r in old(Rooms()) && r.roomCode != code ==> unchanged(r)
    {
      var ok := Unseat(room, userId, code);
      if !ok {
        return NotSeated;
      }
      if room.currentPlayers == 0 {
        CleanupEmptyRoom(code);
      }
      return Done;
    }

    /** The user's seat in the room and their mapping go; the cache is not touched. */
    method Unseat(room: Room, userId: Id, code: string) returns (ok: bool)
      requires Valid() && Lookup(code) == Some(room) && userId in playerRooms
      modifies this`playerRooms, room`seats, room`currentPlayers, room`creatorId, room`status
      ensures Valid() && Lookup(code) == Some(room)
      ensures ok <==> old(room.HasMember(userId))
      ensures !ok ==> playerRooms == old(playerRooms) && unchanged(room)
      ensures ok ==> playerRooms == old(playerRooms) - {userId} && Departed(room, userId)
    {
      LookupValid(code);
      ok := room.RemovePlayer(userId);
      if ok {
        playerRooms := playerRooms - {userId};
      }
    }

    /**
     * `leave_room`: refuses an unmapped user; a mapping to a room that no
     * longer exists is dropped; otherwise the user leaves the room, loses the
     * mapping, and a room left empty is cleaned up.
     */
    method LeaveRoom(userId: Id) returns (res: Outcome)
      requires Valid()
      modifies this`activeRooms, this`roomLocks, this`playerRooms
      modifies rooms.Values`seats, rooms.Values`currentPlayers, rooms.Values`creatorId, rooms.Values`status
      modifies activeRooms.Values`seats, activeRooms.Values`currentPlayers, activeRooms.Values`creatorId
      modifies activeRooms.Values`status
      ensures Valid()
      ensures rooms == old(rooms)
      ensures res == NotInAnyRoom <==> userId !in old(playerRooms)
      ensures res == RoomNotFound <==> userId in old(playerRooms) && old(Lookup(playerRooms[userId])).None?
      ensures res == Done <==> (userId in old(playerRooms) && old(Lookup(playerRooms[userId])).Some? &&
        old(Lookup(playerRooms[userId]).value.HasMember(userId)))
      ensures res == Done || res == RoomNotFound ==> playerRooms == old(playerRooms) - {userId}
      ensures res != Done && res != RoomNotFound ==> playerRooms == old(playerRooms)
      ensures res in {NotInAnyRoom, RoomNotFound, NotSeated, Done}
      ensures res == NotSeated ==> unchanged(old(Lookup(playerRooms[userId])).value)
      ensures res == Done ==> (var room := old(Lookup(playerRooms[userId])).value;
        Departed(room, userId) &&
        (room.currentPlayers == 0 ==> old(playerRooms[userId]) !in activeRooms && old(playerRooms[userId]) !in roomLocks))
      ensures forall r :: r in old(Rooms()) && (userId !in old(playerRooms) || r.roomCode != old(playerRooms[userId])) ==>
        unchanged(r)
    {
      if userId !in playerRooms {
        return NotInAnyRoom;
      }
      res := LeaveMapped(userId, playerRooms[userId]);
    }

    /** `leave_room` for a user mapped to `code`: the room is looked up and the user departs from it. */
    method LeaveMapped(userId: Id, code: string) returns (res: Outcome)
      requires Valid() && userId in playerRooms && playerRooms[userId] == code
      modifies this`activeRooms, this`roomLocks, this`playerRooms
      modifies Found(code)`seats, Found(code)`currentPlayers, Found(code)`creatorId, Found(code)`status
      modifies TableRoom(code)`status
      ensures Valid()
      ensures rooms == old(rooms)
      ensures res in {RoomNotFound, NotSeated, Done}
      ensures res == RoomNotFound <==> old(Lookup(code)).None?
      ensures res == Done <==> old(Lookup(code)).Some? && old(Lookup(code).value.HasMember(userId))
      ensures res == Done || res == RoomNotFound ==> playerRooms == old(playerRooms) - {userId}
      ensures res == NotSeated ==> playerRooms == old(playerRooms) && unchanged(old(Lookup(code)).value)
      ensures res == Done ==> (var room := old(Lookup(code)).value;
        Departed(room, userId) && (room.currentPlayers == 0 ==> code !in activeRooms && code !in roomLocks))
      ensures forall r :: r in old(Rooms()) && r.roomCode != code ==> unchanged(r)
    {
      var found := GetRoom(code);
      if found.None? {
        playerRooms := playerRooms - {userId};
        return RoomNotFound;
      }
      res := Depart(found.value, userId, code);
    }

    /** `remove_player_from_all_rooms`: leaves the user's room, if any, and marks a known user offline. */
    method RemovePlayerFromAllRooms(userId: Id, users: map<Id, User>, now: int)
      requires Valid()
      modifies this`activeRooms, this`roomLocks, this`playerRooms
      modifies rooms.Values`seats, rooms.Values`currentPlayers, rooms.Values`creatorId, rooms.Values`status
      modifies activeRooms.Values`seats, activeRooms.Values`currentPlayers, activeRooms.Values`creatorId
      modifies activeRooms.Values`status
      modifies users.Values`lastSeen, users.Values`isOnline
      ensures Valid()
      ensures rooms == old(rooms)
      ensures userId !in old(playerRooms) ==> playerRooms == old(playerRooms) && forall r :: r in old(Rooms()) ==> unchanged(r)
      ensures userId in old(playerRooms) ==> (var code := old(playerRooms[userId]); var found := old(Lookup(code));
        (found.None? ==> playerRooms == old(playerRooms) - {userId}) &&
        (found.Some? && old(found.value.HasMember(userId)) ==>
          playerRooms == old(playerRooms) - {userId} && Departed(found.value, userId) &&
          (found.value.currentPlayers == 0 ==> code !in activeRooms && code !in roomLocks)) &&
        (found.Some? && !old(found.value.HasMember(userId)) ==> playerRooms == old(playerRooms) && unchanged(found.value)) &&
        (forall r :: r in old(Rooms()) && r.roomCode != code ==> unchanged(r)))
      ensures userId in users ==> !users[userId].isOnline && users[userId].lastSeen == Some(now)
      ensures forall u :: u in users.Values && (userId !in users || u != users[userId]) ==> unchanged(u)
    {
      if userId in playerRooms {
        var _ := LeaveRoom(userId);
      }
      if userId in users {
        users[userId].SetOffline(now);
      }
    }

    /**
     * `set_player_ready`: sets the user's ready flag; readying up in an
     * auto-start room whose active players are all ready and at least the
     * minimum in number asks the room to start.
     */
    method SetPlayerReady(userId: Id, ready: bool, now: int) returns (res: Outcome)
      requires Valid()
      modifies this`activeRooms, this`roomLocks
      modifies (if userId in playerRooms then Found(playerRooms[userId]) else {})`seats
      modifies (if userId in playerRooms then Found(playerRooms[userId]) else {})`status
      modifies (if userId in playerRooms then Found(playerRooms[userId]) else {})`startedAt
      ensures Valid()
      ensures rooms == old(rooms) && playerRooms == old(playerRooms)
      ensures res == NotInAnyRoom <==> userId !in playerRooms || old(Lookup(playerRooms[userId])).None?
      ensures res != NotInAnyRoom ==> (var room := old(Lookup(playerRooms[userId])).value;
        ReadyEffect(room, userId, ready, now, res))
    {
      if userId !in playerRooms {
        return NotInAnyRoom;
      }
      var found := GetRoom(playerRooms[userId]);
      if found.None? {
        return NotInAnyRoom;
      }
      LookupValid(playerRooms[userId]);
      res := ReadyUp(found.value, userId, ready, now);
    }

    /**
     * `update_room_settings`: only the creator, and only while the room is
     * waiting, may change settings, and only the whitelisted ones.
     */
    method UpdateRoomSettings(code: string, userId: Id, name: Option<string>, settings: RoomSettings)
      returns (res: Outcome)
      requires Valid()
      modifies this`activeRooms, this`roomLocks
      modifies Found(code)`name, Found(code)`description, Found(code)`maxPlayers, Found(code)`minPlayers
      modifies Found(code)`allowVoiceChat, Found(code)`allowTextChat, Found(code)`autoStart
      ensures Valid()
      ensures rooms == old(rooms) && playerRooms == old(playerRooms)
      ensures res == RoomNotFound <==> old(Lookup(code)).None?
      ensures res != RoomNotFound ==> SettingsEffect(old(Lookup(code)).value, userId, name, settings, res)
      ensures res == RoomNotFound ==> forall r :: r in old(Rooms()) ==> unchanged(r)
      ensures forall r :: r in old(Rooms()) && r !in old(Found(code)) ==> unchanged(r)
    {
      ghost var before := Lookup(code);
      var found := GetRoom(code);
      assert found == before;
      if found.None? {
        return RoomNotFound;
      }
      res := ApplySettings(found.value, userId, name, settings);
    }

    /** Drops the mapping of every listed player that has one. */
    method UnmapPlayers(players: seq<Seat>)
      modifies this`playerRooms
      ensures forall u :: u in playerRooms <==> u in old(playerRooms) && u !in IdSet(players)
      ensures forall u :: u in playerRooms ==> playerRooms[u] == old(playerRooms)[u]
    {
      var i := 0;
      while i < |players|
        invariant 0 <= i <= |players|
        invariant forall u :: u in playerRooms <==> u in old(playerRooms) && u !in IdSet(players[..i])
        invariant forall u :: u in playerRooms ==> playerRooms[u] == old(playerRooms)[u]
      {
        assert IdSet(players[..i + 1]) == IdSet(players[..i]) + {players[i].userId} by {
          assert players[..i + 1] == players[..i] + [players[i]];
        }
        if players[i].userId in playerRooms {
          playerRooms := playerRooms - {players[i].userId};
        }
        i := i + 1;
      }
      assert players[..i] == players;
    }

    /**
     * `delete_room`: only the creator may delete a room; every active player
     * loses their mapping, the room is cancelled and cleaned up.
     */
    method DeleteRoom(code: string, userId: Id, now: int) returns (res: Outcome)
      requires Valid()
      modifies this`activeRooms, this`roomLocks, this`playerRooms
      modifies Found(code)`status, Found(code)`finishedAt, TableRoom(code)`status
      ensures Valid()
      ensures rooms == old(rooms)
      ensures res == RoomNotFound <==> old(Lookup(code)).None?
      ensures res == NotCreator <==> old(Lookup(code)).Some? && old(Lookup(code).value.creatorId) != userId
      ensures res == Done <==> old(Lookup(code)).Some? && old(Lookup(code).value.creatorId) == userId
      ensures res != Done ==> playerRooms == old(playerRooms)
      ensures res == Done ==> (var room := old(Lookup(code)).value;
        (forall u :: u in playerRooms <==> u in old(playerRooms) && u !in IdSet(ActiveSeats(room.seats))) &&
        code !in activeRooms && code !in roomLocks && room.finishedAt == Some(now) &&
        room.status == RoomCancelled && room.seats == old(room.seats))
      ensures res != Done ==> forall r :: r in old(Rooms()) ==> unchanged(r)
      ensures forall r :: r in old(Rooms()) && r.roomCode != code ==> unchanged(r)
    {
      var found := GetRoom(code);
      if found.None? {
        return RoomNotFound;
      }
      if found.value.creatorId != userId {
        return NotCreator;
      }
      Dissolve(found.value, code, now);
      return Done;
    }

    /** The part of `delete_room` after the creator check. */
    method Dissolve(room: Room, code: string, now: int)
      requires Valid() && Lookup(code) == Some(room)
      modifies this`activeRooms, this`roomLocks, this`playerRooms, room`status, room`finishedAt, TableRoom(code)`status
      ensures Valid()
      ensures rooms == old(rooms)
      ensures forall u :: u in playerRooms <==> u in old(playerRooms) && u !in IdSet(ActiveSeats(room.seats))
      ensures code !in activeRooms && code !in roomLocks && room.finishedAt == Some(now)
      ensures room.status == RoomCancelled && room.seats == old(room.seats)
      ensures forall r :: r in old(Rooms()) && r.roomCode != code ==> unchanged(r)
    {
      LookupValid(code);
      var players := room.GetActivePlayers();
      UnmapPlayers(players);
      room.CancelGame(now);
      CleanupEmptyRoom(code);
    }
  }

  /**
   * What admitting a user does to a room: one active, not ready seat is
   * added at the end, and with auto start set the room starts as soon as it
   * reaches its minimum.
   */
  twostate predicate Admitted(room: Room, userId: Id, now: int)
    reads room
  {
    room.seats == old(room.seats) + [Seat(userId, true, false)] && room.HasMember(userId) &&
    room.currentPlayers == old(room.currentPlayers) + 1 &&
    (room.status == Waiting || room.status == Starting) &&
    (room.status == Starting <==> room.autoStart && room.currentPlayers >= room.minPlayers) &&
    room.startedAt == (if room.status == Starting then Some(now) else old(room.startedAt))
  }

  /**
   * What a user's leaving does to a room: the seat goes and the count drops;
   * a departing creator hands the room to the first remaining player, or
   * leaves it cancelled when nobody remains; only an emptied room can change
   * its status, and then only to cancelled.
   */
  twostate predicate Departed(room: Room, userId: Id)
    reads room
  {
    room.seats == RemoveSeat(old(room.seats), userId) && !room.HasMember(userId) &&
    room.currentPlayers == old(room.currentPlayers) - 1 &&
    (userId == old(room.creatorId) && room.seats != [] ==> room.creatorId == room.seats[0].userId) &&
    (userId != old(room.creatorId) || room.seats == [] ==> room.creatorId == old(room.creatorId)) &&
    (room.status == old(room.status) || (room.seats == [] && room.status == RoomCancelled)) &&
    (userId == old(room.creatorId) && room.seats == [] ==> room.status == RoomCancelled)
  }

  /**
   * What readying up does to a room: a user without a seat is refused and
   * nothing changes; otherwise the seat's flag is set, and the room starts
   * exactly when the user readied up, auto start is on, every active player
   * is ready, there are enough of them, and the room could start; a room
   * that starts records the start time, any other keeps its own.
   */
  twostate predicate ReadyEffect(room: Room, userId: Id, ready: bool, now: int, res: Outcome)
    reads room
  {
    (res == Done || res == NotSeated) &&
    (res == NotSeated <==> !old(room.HasMember(userId))) &&
    (res == NotSeated ==> unchanged(room)) &&
    (res == Done ==> (
      room.seats == SetReady(old(room.seats), userId, ready) &&
      (room.status == old(room.status) || room.status == Starting) &&
      (room.status == Starting && old(room.status) != Starting <==>
        ready && room.autoStart && AllReady(ActiveSeats(room.seats)) &&
        |ActiveSeats(room.seats)| >= room.minPlayers && room.currentPlayers >= room.minPlayers &&
        old(room.status) == Waiting) &&
      room.startedAt == (if room.status == Starting && old(room.status) != Starting then Some(now)
                         else old(room.startedAt))))
  }

  /** The room-side steps of `set_player_ready`. */
  method ReadyUp(room: Room, userId: Id, ready: bool, now: int) returns (res: Outcome)
    requires room.Valid()
    modifies room`seats, room`status, room`startedAt
    ensures room.Valid()
    ensures ReadyEffect(room, userId, ready, now, res)
  {
    var seated := room.SetSeatReady(userId, ready);
    if !seated {
      return NotSeated;
    }
    if ready && room.autoStart {
      var players := room.GetActivePlayers();
      if AllReady(players) && |players| >= room.minPlayers {
        var _ := room.StartGame(now);
      }
    }
    return Done;
  }

  /**
   * What a settings update does to a room: refused for anyone but the
   * creator and outside the waiting status, with nothing changed; otherwise
   * each whitelisted key that is given is applied, and the password, status,
   * seats and creator stay as they were.
   */
  twostate predicate SettingsEffect(room: Room, userId: Id, name: Option<string>, settings: RoomSettings, res: Outcome)
    reads room
  {
    (res == Done || res == NotCreator || res == NotWaiting) &&
    (res == NotCreator <==> old(room.creatorId) != userId) &&
    (res == NotWaiting <==> old(room.creatorId) == userId && old(room.status) != Waiting) &&
    (res != Done ==> unchanged(room)) &&
    (res == Done ==>
      room.name == Or(name, old(room.name)) &&
      room.description == (if settings.description.Some? then settings.description else old(room.description)) &&
      room.maxPlayers == Or(settings.maxPlayers, old(room.maxPlayers)) &&
      room.minPlayers == Or(settings.minPlayers, old(room.minPlayers)) &&
      room.allowVoiceChat == Or(settings.allowVoiceChat, old(room.allowVoiceChat)) &&
      room.allowTextChat == Or(settings.allowTextChat, old(room.allowTextChat)) &&
      room.autoStart == Or(settings.autoStart, old(room.autoStart)) &&
      room.password == old(room.password) && room.status == old(room.status) &&
      room.seats == old(room.seats) && room.currentPlayers == old(room.currentPlayers) &&
      room.creatorId == old(room.creatorId))
  }

  /** The room-side steps of `update_room_settings`. */
  method ApplySettings(room: Room, userId: Id, name: Option<string>, settings: RoomSettings) returns (res: Outcome)
    modifies room`name, room`description, room`maxPlayers, room`minPlayers
    modifies room`allowVoiceChat, room`allowTextChat, room`autoStart
    ensures SettingsEffect(room, userId, name, settings, res)
  {
    if room.creatorId != userId {
      return NotCreator;
    }
    if room.status != Waiting {
      return NotWaiting;
    }
    room.name := Or(name, room.name);
    if settings.description.Some? {
      room.description := settings.description;
    }
    room.maxPlayers := Or(settings.maxPlayers, room.maxPlayers);
    room.minPlayers := Or(settings.minPlayers, room.minPlayers);
    room.allowVoiceChat := Or(settings.allowVoiceChat, room.allowVoiceChat);
    room.allowTextChat := Or(settings.allowTextChat, room.allowTextChat);
    room.autoStart := Or(settings.autoStart, room.autoStart);
    return Done;
  }
}
