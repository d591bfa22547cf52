/**
 * A game room (models/room.py): capacity, status, ownership and the
 * membership rows of the players table that belong to the room.
 */
module RoomModel {
  import opened Wrappers
  import opened PlayerModel

  datatype RoomStatus = Waiting | Starting | Playing | RoomFinished | RoomCancelled

  /** A players-table row of this room, reduced to what the room logic reads. */
  datatype Seat = Seat(userId: Id, isActive: bool, isReady: bool)

  /**
   * The optional settings a room is created with; `None` means the key was
   * not given. The name is passed on its own.
   */
  datatype RoomSettings = RoomSettings(
    description: Option<string>,
    password: Option<string>,
    maxPlayers: Option<int>,
    minPlayers: Option<int>,
    allowVoiceChat: Option<bool>,
    allowTextChat: Option<bool>,
    autoStart: Option<bool>)

  /** Room codes are drawn from the upper-case letters and the digits. */
  const Alphabet: string := "ABCDEFGHIJKLMNOPQRSTUVWXYZ0123456789"
  const CodeLength: nat := 6
  const DefaultMaxPlayers: int := 12
  const DefaultMinPlayers: int := 4

  function Or<T>(o: Option<T>, default: T): T
  {
    if o.Some? then o.value else default
  }

  /** A password guards a room only when it is present and not empty. */
  predicate PasswordRequired(p: Option<string>)
  {
    p.Some? && p.value != ""
  }

  // ---------------------------------------------------------------------
  // Room codes
  // ---------------------------------------------------------------------

  /** The code spelled by one draw of `random.choices`: draw k picks character k. */
  function CodeOf(draws: seq<nat>): (code: string)
    ensures |code| == |draws|
    ensures forall k :: 0 <= k < |code| ==> code[k] in Alphabet
  {
    seq(|draws|, k requires 0 <= k < |draws| => Alphabet[draws[k] % |Alphabet|])
  }

  /**
   * Tries the candidate draws in order and returns the first code no room
   * uses yet; the draws stand in for the random generator, which the source
   * calls until it finds a free code.
   */
  method GenerateRoomCode(existing: set<string>, candidates: seq<seq<nat>>) returns (code: Option<string>)
    requires forall i :: 0 <= i < |candidates| ==> |candidates[i]| == CodeLength
    ensures code.Some? ==> |code.value| == CodeLength && code.value !in existing
    ensures code.Some? ==> forall k :: 0 <= k < |code.value| ==> code.value[k] in Alphabet
    ensures code.Some? ==> exists i :: (0 <= i < |candidates| && code.value == CodeOf(candidates[i]) &&
      forall j :: 0 <= j < i ==> CodeOf(candidates[j]) in existing)
    ensures code.None? <==> forall i :: 0 <= i < |candidates| ==> CodeOf(candidates[i]) in existing
  {
    var i := 0;
    while i < |candidates|
      invariant 0 <= i <= |candidates|
      invariant forall j :: 0 <= j < i ==> CodeOf(candidates[j]) in existing
    {
      var c := CodeOf(candidates[i]);
      if c !in existing {
        return Some(c);
      }
      i := i + 1;
    }
    return None;
  }

  // ---------------------------------------------------------------------
  // Seats
  // ---------------------------------------------------------------------

  function SeatIds(seats: seq<Seat>): (ids: seq<Id>)
    ensures |ids| == |seats|
    ensures forall i :: 0 <= i < |seats| ==> ids[i] == seats[i].userId
  {
    seq(|seats|, i requires 0 <= i < |seats| => seats[i].userId)
  }

  predicate SeatsDistinct(seats: seq<Seat>)
  {
    forall i, j :: 0 <= i < j < |seats| ==> seats[i].userId != seats[j].userId
  }

  /** The seats without the one of user `u`, in their order. */
  function RemoveSeat(seats: seq<Seat>, u: Id): (r: seq<Seat>)
    ensures forall s :: s in r <==> s in seats && s.userId != u
    ensures |r| <= |seats|
  {
    if seats == [] then []
    else
      var rest := RemoveSeat(seats[1..], u);
      if seats[0].userId == u then rest else [seats[0]] + rest
  }

  /**
   * Removing a user's seat removes nothing when the user has none; on
   * distinct seats it removes exactly one seat and keeps them distinct.
   */
  lemma RemoveSeatFacts(seats: seq<Seat>, u: Id)
    ensures u !in SeatIds(seats) ==> RemoveSeat(seats, u) == seats
    ensures SeatsDistinct(seats) ==> SeatsDistinct(RemoveSeat(seats, u))
    ensures SeatsDistinct(seats) && u in SeatIds(seats) ==> |RemoveSeat(seats, u)| == |seats| - 1
    ensures u !in SeatIds(RemoveSeat(seats, u))
  {
    RemoveSeatIds(seats, u);
    RemoveSeatDistinct(seats, u);
  }

  /** Removing the seat of a user without one changes nothing, and afterwards the user has no seat. */
  lemma {:induction false} RemoveSeatIds(seats: seq<Seat>, u: Id)
    ensures u !in SeatIds(seats) ==> RemoveSeat(seats, u) == seats
    ensures u !in SeatIds(RemoveSeat(seats, u))
  {
    if seats != [] {
      RemoveSeatIds(seats[1..], u);
      assert SeatIds(seats) == [seats[0].userId] + SeatIds(seats[1..]);
    }
  }

  /** On distinct seats, removing a user's seat keeps them distinct and removes exactly one seat when there is one. */
  lemma {:induction false} RemoveSeatDistinct(seats: seq<Seat>, u: Id)
    ensures SeatsDistinct(seats) ==> SeatsDistinct(RemoveSeat(seats, u))
    ensures SeatsDistinct(seats) && u in SeatIds(seats) ==> |RemoveSeat(seats, u)| == |seats| - 1
  {
    if seats != [] {
      var rest := RemoveSeat(seats[1..], u);
      RemoveSeatDistinct(seats[1..], u);
      assert SeatIds(seats) == [seats[0].userId] + SeatIds(seats[1..]);
      if seats[0].userId != u {
        ConsDistinct(seats, rest);
      } else if SeatsDistinct(seats) {
        assert u !in SeatIds(seats[1..]);
        RemoveSeatIds(seats[1..], u);
      }
    }
  }

  /** Putting the first seat back in front of seats taken from the rest keeps the user ids distinct. */
  lemma ConsDistinct(seats: seq<Seat>, r: seq<Seat>)
    requires |seats| > 0
    requires forall s :: s in r ==> s in seats[1..]
    requires SeatsDistinct(seats[1..]) ==> SeatsDistinct(r)
    ensures SeatsDistinct(seats) ==> SeatsDistinct([seats[0]] + r)
  {
    if SeatsDistinct(seats) {
      forall k | 0 <= k < |r| ensures r[k].userId != seats[0].userId {
        assert r[k] in seats[1..];
        var j :| 0 <= j < |seats[1..]| && seats[1..][j] == r[k];
        assert seats[j + 1] == r[k];
      }
      var t := [seats[0]] + r;
      forall i, j | 0 <= i < j < |t| ensures t[i].userId != t[j].userId {
        if i == 0 {
          assert t[j] == r[j - 1];
        } else {
          assert t[i] == r[i - 1] && t[j] == r[j - 1];
        }
      }
    }
  }

  /** The seats whose player is still active, in their order. */
  function ActiveSeats(seats: seq<Seat>): (r: seq<Seat>)
    ensures forall s :: s in r <==> s in seats && s.isActive
    ensures |r| <= |seats|
  {
    if seats == [] then []
    else (if seats[0].isActive then [seats[0]] else []) + ActiveSeats(seats[1..])
  }

  /** `seats` with the ready flag of user `u` set to `ready`. */
  function SetReady(seats: seq<Seat>, u: Id, ready: bool): (r: seq<Seat>)
    ensures |r| == |seats| && SeatIds(r) == SeatIds(seats)
    ensures forall i :: 0 <= i < |r| ==> r[i].isActive == seats[i].isActive
    ensures forall i :: 0 <= i < |r| ==> r[i].isReady == (if seats[i].userId == u then ready else seats[i].isReady)
  {
    seq(|seats|, i requires 0 <= i < |seats| =>
      if seats[i].userId == u then seats[i].(isReady := ready) else seats[i])
  }

  class Room {
    const id: Id
    const roomCode: string
    var name: string
    var description: Option<string>
    var password: Option<string>
    var maxPlayers: int
    var minPlayers: int
    var status: RoomStatus
    var currentPlayers: int
    var creatorId: Id
    var startedAt: Option<int>
    var finishedAt: Option<int>
    var allowVoiceChat: bool
    var allowTextChat: bool
    var autoStart: bool
    var seats: seq<Seat>

    /** The player counter counts the seats, and no user sits twice. */
    ghost predicate Valid()
      reads this`currentPlayers, this`seats
    {
      currentPlayers == |seats| && SeatsDistinct(seats)
    }

    predicate HasMember(u: Id)
      reads this
    {
      u in SeatIds(seats)
    }

    /** A new room with the given settings, or the defaults: 12 seats, 4 to start, both chats, no auto start. */
    constructor (id: Id, roomCode: string, name: string, creatorId: Id, settings: RoomSettings)
      ensures this.id == id && this.roomCode == roomCode && this.name == name && this.creatorId == creatorId
      ensures description == settings.description && password == settings.password
      ensures maxPlayers == Or(settings.maxPlayers, DefaultMaxPlayers)
      ensures minPlayers == Or(settings.minPlayers, DefaultMinPlayers)
      ensures allowVoiceChat == Or(settings.allowVoiceChat, true) && allowTextChat == Or(settings.allowTextChat, true)
      ensures autoStart == Or(settings.autoStart, false)
      ensures status == Waiting && currentPlayers == 0 && seats == []
      ensures startedAt == None && finishedAt == None
      ensures Valid()
    {
      this.id := id;
      this.roomCode := roomCode;
      this.name := name;
      this.creatorId := creatorId;
      description := settings.description;
      password := settings.password;
      maxPlayers := Or(settings.maxPlayers, DefaultMaxPlayers);
      minPlayers := Or(settings.minPlayers, DefaultMinPlayers);
      allowVoiceChat := Or(settings.allowVoiceChat, true);
      allowTextChat := Or(settings.allowTextChat, true);
      autoStart := Or(settings.autoStart, false);
      status := Waiting;
      currentPlayers := 0;
      seats := [];
      startedAt := None;
      finishedAt := None;
    }

    predicate IsFull()
      reads this
    {
      currentPlayers >= maxPlayers
    }

    predicate CanJoin()
      reads this
    {
      status == Waiting && !IsFull()
    }

    /**
     * Moves a waiting room with enough players to Starting; otherwise
     * reports failure and leaves the room as it is.
     */
    method StartGame(now: int) returns (ok: bool)
      modifies this`status, this`startedAt
      ensures ok <==> old(currentPlayers) >= minPlayers && old(status) == Waiting
      ensures ok ==> status == Starting && startedAt == Some(now)
      ensures !ok ==> status == old(status) && startedAt == old(startedAt)
    {
      if currentPlayers < minPlayers {
        return false;
      }
      if status != Waiting {
        return false;
      }
      status := Starting;
      startedAt := Some(now);
      return true;
    }

    /**
     * Seats a new user in a waiting room that is not full; with auto start
     * set, reaching the minimum starts the game at once.
     */
    method AddPlayer(userId: Id, now: int) returns (ok: bool)
      requires Valid()
      modifies this`seats, this`currentPlayers, this`status, this`startedAt
      ensures Valid()
      ensures ok <==> !old(HasMember(userId)) && old(CanJoin())
      ensures ok ==> seats == old(seats) + [Seat(userId, true, false)] && HasMember(userId)
      ensures ok ==> currentPlayers == old(currentPlayers) + 1 && currentPlayers <= maxPlayers
      ensures ok ==> (status == Starting <==> autoStart && currentPlayers >= minPlayers)
      ensures ok ==> status == Waiting || status == Starting
      ensures ok ==> startedAt == (if status == Starting then Some(now) else old(startedAt))
      ensures !ok ==> unchanged(this)
    {
      if userId in SeatIds(seats) {
        return false;
      }
      if currentPlayers >= maxPlayers {
        return false;
      }
      if status != Waiting {
        return false;
      }
      assert forall i :: 0 <= i < |seats| ==> seats[i].userId in SeatIds(seats);
      seats := seats + [Seat(userId, true, false)];
      assert SeatIds(seats)[|seats| - 1] == userId;
      currentPlayers := currentPlayers + 1;
      if autoStart && currentPlayers >= minPlayers {
        var _ := StartGame(now);
      }
      return true;
    }

    /**
     * Removes a seated user. When the creator leaves, the first remaining
     * player becomes creator; when nobody remains the room is cancelled.
     */
    method RemovePlayer(userId: Id) returns (ok: bool)
      requires Valid()
      modifies this`seats, this`currentPlayers, this`creatorId, this`status
      ensures Valid()
      ensures ok <==> old(HasMember(userId))
      ensures !ok ==> unchanged(this)
      ensures ok ==> seats == RemoveSeat(old(seats), userId) && !HasMember(userId)
      ensures ok ==> currentPlayers == old(currentPlayers) - 1
      ensures ok && userId == old(creatorId) && seats != [] ==> creatorId == seats[0].userId && status == old(status)
      ensures ok && userId == old(creatorId) && seats == [] ==> creatorId == old(creatorId) && status == RoomCancelled
      ensures ok && userId != old(creatorId) ==> creatorId == old(creatorId) && status == old(status)
    {
      if userId !in SeatIds(seats) {
        return false;
      }
      RemoveSeatFacts(seats, userId);
      seats := RemoveSeat(seats, userId);
      currentPlayers := currentPlayers - 1;
      if userId == creatorId {
        if seats != [] {
          creatorId := seats[0].userId;
        } else {
          status := RoomCancelled;
        }
      }
      return true;
    }

    method FinishGame(now: int)
      modifies this`status, this`finishedAt
      ensures status == RoomFinished && finishedAt == Some(now)
    {
      status := RoomFinished;
      finishedAt := Some(now);
    }

    method CancelGame(now: int)
      modifies this`status, this`finishedAt
      ensures status == RoomCancelled && finishedAt == Some(now)
    {
      status := RoomCancelled;
      finishedAt := Some(now);
    }

    /** The seats of active players, in joining order. */
    function GetActivePlayers(): (r: seq<Seat>)
      reads this
      ensures forall s :: s in r <==> s in seats && s.isActive
    {
      ActiveSeats(seats)
    }

    /** Sets the ready flag of a seated user; the seat set and the counter stay as they are. */
    method SetSeatReady(userId: Id, ready: bool) returns (found: bool)
      requires Valid()
      modifies this`seats
      ensures Valid()
      ensures found <==> HasMember(userId)
      ensures found ==> seats == SetReady(old(seats), userId, ready)
      ensures !found ==> seats == old(seats)
    {
      if userId !in SeatIds(seats) {
        return false;
      }
      seats := SetReady(seats, userId, ready);
      return true;
    }
  }
}
