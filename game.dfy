/**
 * One played game of a room: status, phase, round, phase deadline and
 * result (models/game.py).
 */
module GameModel {
  import opened Wrappers
  import opened PlayerModel

  datatype GamePhase = Day | Night | Voting | Trial | Finished
  datatype GameStatus = Starting | Active | Paused | GameFinished | Cancelled
  datatype WinCondition = MafiaWin | CitizensWin | Draw | WinCancelled

  /** A decided game: the win condition and the name of the winning team. */
  datatype Verdict = Verdict(winner: WinCondition, team: string)

  /**
   * The win rule shared by the game record and the game session: no living
   * mafia means the citizens win, otherwise the mafia win as soon as they are
   * at least as many as everybody else alive, and otherwise nobody has won yet.
   */
  function DecideWinner(mafiaAlive: nat, othersAlive: nat): (v: Option<Verdict>)
    ensures v == Some(Verdict(CitizensWin, "citizens")) <==> mafiaAlive == 0
    ensures v == Some(Verdict(MafiaWin, "mafia")) <==> 0 < mafiaAlive && othersAlive <= mafiaAlive
    ensures v == None <==> 0 < mafiaAlive < othersAlive
  {
    if mafiaAlive == 0 then Some(Verdict(CitizensWin, "citizens"))
    else if mafiaAlive >= othersAlive then Some(Verdict(MafiaWin, "mafia"))
    else None
  }

  /** The verdict over a set of players: counts living mafia against the other living players. */
  function WinnerAmong(ps: seq<Player>): (v: Option<Verdict>)
    reads set p | p in ps
    ensures v == Some(Verdict(CitizensWin, "citizens")) <==> forall i :: 0 <= i < |ps| && ps[i].isAlive ==> ps[i].role != Some(Mafia)
    ensures v == Some(Verdict(MafiaWin, "mafia")) <==> 0 < |AliveMafia(ps)| && |AlivePlayers(ps)| <= 2 * |AliveMafia(ps)|
    ensures v == None <==> 0 < 2 * |AliveMafia(ps)| < |AlivePlayers(ps)|
    ensures v == None || v == Some(Verdict(CitizensWin, "citizens")) || v == Some(Verdict(MafiaWin, "mafia"))
  {
    NoAliveMafia(ps);
    DecideWinner(|AliveMafia(ps)|, |AlivePlayers(ps)| - |AliveMafia(ps)|)
  }

  /** There is no living mafia exactly when the list of living mafia is empty. */
  lemma NoAliveMafia(ps: seq<Player>)
    ensures |AliveMafia(ps)| == 0 <==> forall i :: 0 <= i < |ps| && ps[i].isAlive ==> ps[i].role != Some(Mafia)
  {
    if |AliveMafia(ps)| != 0 {
      var q := AliveMafia(ps)[0];
      assert q in AliveMafia(ps);
      var i :| 0 <= i < |ps| && ps[i] == q;
    }
  }

  /** The largest game number of a room's existing games. */
  function MaxNumber(ns: seq<int>): (m: int)
    requires ns != []
    ensures m in ns && forall k :: k in ns ==> k <= m
  {
    if |ns| == 1 then ns[0]
    else
      var rest := MaxNumber(ns[1..]);
      assert forall k :: k in ns ==> k == ns[0] || k in ns[1..];
      if ns[0] >= rest then ns[0] else rest
  }

  /** A new game is numbered one past the room's last game, or 1 when the room has none. */
  function NextGameNumber(roomGameNumbers: seq<int>): (n: int)
    ensures roomGameNumbers == [] ==> n == 1
    ensures roomGameNumbers != [] ==> n - 1 in roomGameNumbers && forall k :: k in roomGameNumbers ==> k < n
  {
    if roomGameNumbers == [] then 1 else MaxNumber(roomGameNumbers) + 1
  }

  class Game {
    const id: Id
    const roomId: Id
    const gameNumber: int
    const totalPlayers: int
    var status: GameStatus
    var phase: GamePhase
    var currentRound: int
    var phaseStartTime: int
    var phaseEndTime: Option<int>
    var startedAt: int
    var finishedAt: Option<int>
    var winner: Option<WinCondition>
    var winnerTeam: Option<string>

    /** `roomGameNumbers` are the numbers of the games the room already has. */
    constructor (id: Id, roomId: Id, totalPlayers: int, roomGameNumbers: seq<int>, now: int)
      ensures this.id == id && this.roomId == roomId && this.totalPlayers == totalPlayers
      ensures gameNumber == NextGameNumber(roomGameNumbers)
      ensures status == Starting && phase == Day && currentRound == 1
      ensures phaseStartTime == now && phaseEndTime == None && startedAt == now
      ensures finishedAt == None && winner == None && winnerTeam == None
    {
      this.id := id;
      this.roomId := roomId;
      this.totalPlayers := totalPlayers;
      gameNumber := NextGameNumber(roomGameNumbers);
      status := Starting;
      phase := Day;
      currentRound := 1;
      phaseStartTime := now;
      phaseEndTime := None;
      startedAt := now;
      finishedAt := None;
      winner := None;
      winnerTeam := None;
    }

    /** A phase ends `duration` seconds after it starts; a missing or zero duration means no deadline. */
    method StartPhase(newPhase: GamePhase, duration: Option<int>, now: int)
      modifies this`phase, this`phaseStartTime, this`phaseEndTime
      ensures phase == newPhase && phaseStartTime == now
      ensures duration.Some? && duration.value != 0 ==> phaseEndTime == Some(now + duration.value)
      ensures duration.None? || duration.value == 0 ==> phaseEndTime == None
    {
      phase := newPhase;
      phaseStartTime := now;
      if duration.Some? && duration.value != 0 {
        phaseEndTime := Some(now + duration.value);
      } else {
        phaseEndTime := None;
      }
    }

    method NextRound()
      modifies this`currentRound
      ensures currentRound == old(currentRound) + 1
    {
      currentRound := currentRound + 1;
    }

    method FinishGame(w: WinCondition, team: Option<string>, now: int)
      modifies this`status, this`phase, this`winner, this`winnerTeam, this`finishedAt
      ensures status == GameFinished && phase == Finished
      ensures winner == Some(w) && winnerTeam == team && finishedAt == Some(now)
    {
      status := GameFinished;
      phase := Finished;
      winner := Some(w);
      winnerTeam := team;
      finishedAt := Some(now);
    }

    /** Cancelling records the Cancelled result but leaves the winning team as it was. */
    method CancelGame(now: int)
      modifies this`status, this`phase, this`winner, this`finishedAt
      ensures status == Cancelled && phase == Finished
      ensures winner == Some(WinCancelled) && finishedAt == Some(now)
    {
      status := Cancelled;
      phase := Finished;
      winner := Some(WinCancelled);
      finishedAt := Some(now);
    }

    method PauseGame()
      modifies this`status
      ensures status == Paused
    {
      status := Paused;
    }

    method ResumeGame()
      modifies this`status
      ensures status == Active
    {
      status := Active;
    }

    predicate IsPhaseExpired(now: int)
      reads this
    {
      phaseEndTime.Some? && now >= phaseEndTime.value
    }

    /**
     * Seconds left in the phase: none without a deadline, never negative,
     * and zero exactly when the phase has expired.
     */
    function PhaseRemainingTime(now: int): (r: Option<int>)
      reads this
      ensures r.None? <==> phaseEndTime.None?
      ensures r.Some? ==> r.value >= 0 && (r.value == 0 <==> IsPhaseExpired(now))
      ensures r.Some? && r.value > 0 ==> now + r.value == phaseEndTime.value
    {
      if phaseEndTime.None? then None
      else if phaseEndTime.value - now > 0 then Some(phaseEndTime.value - now)
      else Some(0)
    }

    /**
     * The win check of the game record, over the players of its room; every
     * living player must hold a role, since the record reads the role's name.
     */
    function CheckWinCondition(roomPlayers: seq<Player>): (v: Option<Verdict>)
      requires forall i :: 0 <= i < |roomPlayers| && roomPlayers[i].isAlive ==> roomPlayers[i].role.Some?
      reads set p | p in roomPlayers
      ensures v == Some(Verdict(CitizensWin, "citizens")) <==> forall i :: 0 <= i < |roomPlayers| && roomPlayers[i].isAlive ==> roomPlayers[i].role != Some(Mafia)
      ensures v == Some(Verdict(MafiaWin, "mafia")) <==>
        0 < |AliveMafia(roomPlayers)| && |CitizenPlayers(roomPlayers)| <= |AliveMafia(roomPlayers)|
      ensures v == None <==> 0 < |AliveMafia(roomPlayers)| < |CitizenPlayers(roomPlayers)|
      ensures v == None || v == Some(Verdict(CitizensWin, "citizens")) || v == Some(Verdict(MafiaWin, "mafia"))
    {
      MafiaCitizenPartition(roomPlayers);
      WinnerAmong(roomPlayers)
    }
  }
}
