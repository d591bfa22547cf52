/**
 * One participant of one room: role, life state, death record and the
 * per-player counters (models/player.py).
 */
module PlayerModel {
  import opened Wrappers

  /** Database primary keys are positive, so testing an id for truth is testing it for presence. */
  type Id = x: int | x > 0 witness 1

  datatype Role = Citizen | Mafia | Doctor | Detective | Vigilante | Mayor | Jester
  datatype PlayerStatus = Alive | Dead | Eliminated | Left
  datatype DeathCause = MafiaKill | Lynch | VigilanteKill | LeftGame | Other

  /** One entry of the action history a player keeps in its extra data. */
  datatype ActionRecord = ActionRecord(actionType: string, targetId: Option<Id>, at: int)

  /** The roles that act at night. */
  predicate HasNightAction(role: Option<Role>)
  {
    role == Some(Doctor) || role == Some(Detective) || role == Some(Vigilante) || role == Some(Mafia)
  }

  class Player {
    const id: Id
    const userId: Id
    const roomId: Id
    var role: Option<Role>
    var status: PlayerStatus
    var isActive: bool
    var isAlive: bool
    var isReady: bool
    var deathCause: Option<DeathCause>
    var deathRound: Option<int>
    var deathTime: Option<int>
    var killedById: Option<Id>
    var votesCast: nat
    var votesReceived: nat
    var actionsTaken: nat
    var actions: seq<ActionRecord>
    var leftAt: Option<int>

    /** The alive flag and the status agree, and every dead player has a recorded cause and time. */
    ghost predicate Consistent()
      reads this
    {
      (isAlive <==> status == Alive) && (!isAlive ==> deathCause.Some? && deathTime.Some?)
    }

    /** A player joins alive, active, not ready and without a role. */
    constructor (id: Id, userId: Id, roomId: Id)
      ensures this.id == id && this.userId == userId && this.roomId == roomId
      ensures role == None && status == Alive && isActive && isAlive && !isReady
      ensures deathCause == None && deathRound == None && deathTime == None && killedById == None
      ensures votesCast == 0 && votesReceived == 0 && actionsTaken == 0 && actions == [] && leftAt == None
      ensures Consistent()
    {
      this.id := id;
      this.userId := userId;
      this.roomId := roomId;
      role := None;
      status := Alive;
      isActive := true;
      isAlive := true;
      isReady := false;
      deathCause := None;
      deathRound := None;
      deathTime := None;
      killedById := None;
      votesCast := 0;
      votesReceived := 0;
      actionsTaken := 0;
      actions := [];
      leftAt := None;
    }

    method AssignRole(r: Role)
      modifies this`role
      ensures role == Some(r)
    {
      role := Some(r);
    }

    /**
     * Kills a living player and records cause, round, time and (when given)
     * the killer; a dead player is left as it is and the call reports failure.
     */
    method Kill(cause: DeathCause, killedBy: Option<Id>, roundNumber: Option<int>, now: int) returns (killed: bool)
      requires Consistent()
      modifies this`isAlive, this`status, this`deathCause, this`deathTime, this`deathRound, this`killedById
      ensures Consistent()
      ensures killed <==> old(isAlive)
      ensures !killed ==> unchanged(this)
      ensures killed ==> !isAlive && status == Dead && deathCause == Some(cause)
      ensures killed ==> deathTime == Some(now) && deathRound == roundNumber
      ensures killed ==> killedById == (if killedBy.Some? then killedBy else old(killedById))
    {
      if !isAlive {
        return false;
      }
      isAlive := false;
      status := Dead;
      deathCause := Some(cause);
      deathTime := Some(now);
      deathRound := roundNumber;
      if killedBy.Some? {
        killedById := killedBy;
      }
      return true;
    }

    /** Elimination by the day vote is a kill with cause Lynch and no killer. */
    method Eliminate(roundNumber: Option<int>, now: int) returns (killed: bool)
      requires Consistent()
      modifies this`isAlive, this`status, this`deathCause, this`deathTime, this`deathRound, this`killedById
      ensures Consistent()
      ensures killed <==> old(isAlive)
      ensures !killed ==> unchanged(this)
      ensures killed ==> !isAlive && status == Dead && deathCause == Some(Lynch)
      ensures killed ==> deathRound == roundNumber && killedById == old(killedById)
    {
      killed := Kill(Lynch, None, roundNumber, now);
    }

    /** Leaving deactivates the player and kills it with cause LeftGame when it was alive. */
    method LeaveGame(now: int)
      requires Consistent()
      modifies this`isActive, this`leftAt
      modifies this`isAlive, this`status, this`deathCause, this`deathTime, this`deathRound, this`killedById
      ensures Consistent()
      ensures !isActive && leftAt == Some(now) && !isAlive
      ensures old(isAlive) ==> status == Dead && deathCause == Some(LeftGame) && deathRound == None
      ensures !old(isAlive) ==> status == old(status) && deathCause == old(deathCause) && deathTime == old(deathTime)
      ensures deathRound == old(deathRound) || old(isAlive)
      ensures killedById == old(killedById)
    {
      isActive := false;
      leftAt := Some(now);
      if isAlive {
        var _ := Kill(LeftGame, None, None, now);
      }
    }

    /**
     * Counts a vote cast by this player; `target` is the player the given
     * target id resolved to, or null when no id was given or none was found.
     */
    method Vote(target: Player?)
      modifies this`votesCast, {target}`votesReceived
      ensures votesCast == old(votesCast) + 1
      ensures target != null ==> target.votesReceived == old(target.votesReceived) + 1
      ensures target == this ==> votesReceived == old(votesReceived) + 1
      ensures target != null && target != this ==>
        unchanged(target`role, target`status, target`isActive, target`isAlive, target`isReady, target`deathCause,
                  target`deathRound, target`deathTime, target`killedById, target`votesCast, target`actionsTaken,
                  target`actions, target`leftAt)
      ensures unchanged(this`role, this`status, this`isActive, this`isAlive, this`isReady, this`deathCause,
                        this`deathRound, this`deathTime, this`killedById, this`actionsTaken, this`actions, this`leftAt)
      ensures target != this ==> votesReceived == old(votesReceived)
    {
      votesCast := votesCast + 1;
      if target != null {
        target.votesReceived := target.votesReceived + 1;
      }
    }

    /** Counts an action and appends it to the action history. */
    method TakeAction(actionType: string, targetId: Option<Id>, now: int)
      modifies this`actionsTaken, this`actions
      ensures actionsTaken == old(actionsTaken) + 1
      ensures actions == old(actions) + [ActionRecord(actionType, targetId, now)]
    {
      actionsTaken := actionsTaken + 1;
      actions := actions + [ActionRecord(actionType, targetId, now)];
    }

    predicate CanVote()
      reads this
    {
      isAlive && isActive
    }

    /** Only living, active holders of a night role can act; a role-less player cannot. */
    predicate CanTakeAction()
      reads this
      ensures CanTakeAction() ==> CanVote() && role.Some? && role != Some(Citizen)
      ensures CanTakeAction() ==> role != Some(Mayor) && role != Some(Jester)
    {
      CanVote() && HasNightAction(role)
    }

    predicate IsMafia()
      reads this
    {
      role == Some(Mafia)
    }

    /** Every player is exactly one of mafia or citizen; a player with no role counts as a citizen. */
    predicate IsCitizen()
      reads this
      ensures IsCitizen() <==> !IsMafia()
      ensures role == None ==> IsCitizen()
    {
      role != Some(Mafia)
    }
  }

  /** The players of `ps`, in order, that are alive. */
  function AlivePlayers(ps: seq<Player>): (r: seq<Player>)
    reads set p | p in ps
    ensures forall q :: q in r ==> q in ps && q.isAlive
    ensures forall i :: 0 <= i < |ps| ==> (ps[i] in r <==> ps[i].isAlive)
    ensures |r| <= |ps|
  {
    if ps == [] then []
    else AlivePlayers(ps[..|ps| - 1]) + (if ps[|ps| - 1].isAlive then [ps[|ps| - 1]] else [])
  }

  /**
   * The living players keep their order: the living players of two lists
   * put together are those of the first list followed by those of the second.
   */
  lemma {:induction false} AlivePlayersAppend(ps: seq<Player>, qs: seq<Player>)
    ensures AlivePlayers(ps + qs) == AlivePlayers(ps) + AlivePlayers(qs)
    decreases |qs|
  {
    if qs == [] {
      assert ps + qs == ps;
    } else {
      assert (ps + qs)[..|ps + qs| - 1] == ps + qs[..|qs| - 1];
      AlivePlayersAppend(ps, qs[..|qs| - 1]);
    }
  }

  /** The living mafia among `ps`, in order. */
  function AliveMafia(ps: seq<Player>): (r: seq<Player>)
    reads set p | p in ps
    ensures forall q :: q in r ==> q in ps && q.isAlive && q.role == Some(Mafia)
    ensures forall i :: 0 <= i < |ps| ==> (ps[i] in r <==> ps[i].isAlive && ps[i].role == Some(Mafia))
    ensures |r| <= |AlivePlayers(ps)|
  {
    if ps == [] then []
    else AliveMafia(ps[..|ps| - 1]) + (if ps[|ps| - 1].isAlive && ps[|ps| - 1].role == Some(Mafia) then [ps[|ps| - 1]] else [])
  }

  /** The living players among `ps` that are not mafia, in order; a player without a role counts here. */
  function CitizenPlayers(ps: seq<Player>): (r: seq<Player>)
    reads set p | p in ps
    ensures forall q :: q in r ==> q in ps && q.isAlive && q.role != Some(Mafia)
    ensures forall i :: 0 <= i < |ps| ==> (ps[i] in r <==> ps[i].isAlive && ps[i].role != Some(Mafia))
  {
    if ps == [] then []
    else CitizenPlayers(ps[..|ps| - 1]) + (if ps[|ps| - 1].isAlive && ps[|ps| - 1].role != Some(Mafia) then [ps[|ps| - 1]] else [])
  }

  /**
   * The living mafia and the living non-mafia split the living players: each
   * living player is in exactly one of the two lists, no dead player is in
   * either, and the two lengths add up to the number of living players.
   */
  lemma {:induction false} MafiaCitizenPartition(ps: seq<Player>)
    ensures forall i :: 0 <= i < |ps| ==> (ps[i] in AliveMafia(ps) || ps[i] in CitizenPlayers(ps) <==> ps[i].isAlive)
    ensures forall i :: 0 <= i < |ps| ==> !(ps[i] in AliveMafia(ps) && ps[i] in CitizenPlayers(ps))
    ensures |AliveMafia(ps)| + |CitizenPlayers(ps)| == |AlivePlayers(ps)|
  {
    if ps != [] {
      MafiaCitizenPartition(ps[..|ps| - 1]);
    }
  }

  /** The ids of the living players of `ps`, in order. */
  function AliveIds(ps: seq<Player>): (r: seq<Id>)
    reads set p | p in ps
    ensures |r| == |AlivePlayers(ps)|
    ensures forall x :: x in r <==> exists k :: 0 <= k < |ps| && ps[k].isAlive && ps[k].id == x
  {
    if ps == [] then []
    else
      var last := ps[|ps| - 1];
      AliveIds(ps[..|ps| - 1]) + (if last.isAlive then [last.id] else [])
  }
}
