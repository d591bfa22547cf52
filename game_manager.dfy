/**
 * The game sessions (game/game_manager.py): one session per running game,
 * with its phase and voting managers, the win check, the end of the game
 * with the players' statistics, and the manager's registry of sessions by
 * room and by game.
 */
module GameManagement {
  import opened Wrappers
  import opened PlayerModel
  import opened GameModel
  import RoomModel
  import UserModel
  import StatisticsModel
  import RoleManagement
  import PhaseManagement
  import VotingManagement

  /** A lynch vote lasts one minute. */
  const VotingDuration: int := 60
  const LynchVote: string := "lynch"

  // ---------------------------------------------------------------------
  // Who won
  // ---------------------------------------------------------------------

  /**
   * Whether a player of the given role won: `None` for a draw; a citizens'
   * win is won by everybody who is not mafia, a mafia win by the mafia, and
   * any other ending, a cancelled game included, is a loss.
   */
  function PlayerWon(winner: WinCondition, role: Option<Role>): (won: Option<bool>)
    ensures won.None? <==> winner == Draw
    ensures won == Some(true) <==>
      (winner == CitizensWin && role != Some(Mafia)) || (winner == MafiaWin && role == Some(Mafia))
  {
    if winner == CitizensWin && role != Some(Mafia) then Some(true)
    else if winner == MafiaWin && role == Some(Mafia) then Some(true)
    else if winner == Draw then None
    else Some(false)
  }

  /**
   * In a game the win check decided, a player won exactly when they are on
   * the side the verdict names: the mafia for the "mafia" team, everybody
   * else for the "citizens" team.
   */
  lemma {:induction false} VerdictWinners(ps: seq<Player>, role: Option<Role>)
    requires WinnerAmong(ps).Some?
    ensures PlayerWon(WinnerAmong(ps).value.winner, role).Some?
    ensures PlayerWon(WinnerAmong(ps).value.winner, role) == Some(true) <==>
      (role == Some(Mafia) <==> WinnerAmong(ps).value.team == "mafia")
  {
    var v := WinnerAmong(ps).value;
    assert v == Verdict(CitizensWin, "citizens") || v == Verdict(MafiaWin, "mafia");
  }

  /** The two decided outcomes split every role into winners and losers the opposite way. */
  lemma TeamsOpposite(role: Option<Role>)
    ensures PlayerWon(CitizensWin, role).Some? && PlayerWon(MafiaWin, role).Some?
    ensures PlayerWon(CitizensWin, role) == Some(true) <==> PlayerWon(MafiaWin, role) == Some(false)
  {
  }

  /** A cancelled game is counted as lost by every player, and a draw by nobody. */
  lemma CancelledIsLost(role: Option<Role>)
    ensures PlayerWon(WinCancelled, role) == Some(false)
    ensures PlayerWon(Draw, role) == None
  {
  }

  // ---------------------------------------------------------------------
  // Counting a finished game for the players
  // ---------------------------------------------------------------------

  /** No two players share a user. */
  predicate DistinctUsers(ps: seq<Player>)
  {
    forall i, j :: 0 <= i < j < |ps| ==> ps[i].userId != ps[j].userId
  }

  /**
   * `users[i]` is the user row of `ps[i]` (`player.user`), null when there
   * is none; `stats[i]` is that user's statistics row, null when the user
   * has none.
   */
  predicate Linked(ps: seq<Player>, users: seq<UserModel.User?>, stats: seq<StatisticsModel.UserStatistics?>)
  {
    |users| == |ps| && |stats| == |ps| &&
    forall i :: 0 <= i < |ps| ==>
      (users[i] != null ==> users[i].id == ps[i].userId) &&
      (stats[i] != null ==> users[i] != null && stats[i].userId == ps[i].userId)
  }

  /** Every user row keeps its invariant. */
  ghost predicate UsersValid(users: seq<UserModel.User?>)
    reads users
  {
    forall k :: 0 <= k < |users| && users[k] != null ==> users[k].Valid()
  }

  /** Every statistics row keeps its invariant. */
  ghost predicate StatsValid(stats: seq<StatisticsModel.UserStatistics?>)
    reads stats
  {
    forall k :: 0 <= k < |stats| && stats[k] != null ==> stats[k].Valid()
  }

  /** What the end of the game means for one player. */
  datatype Outcome = Outcome(role: Option<Role>, result: Option<bool>, alive: bool)

  /** Each player's role, result (`None` for a draw) and survival. */
  function Outcomes(ps: seq<Player>, winner: WinCondition): (os: seq<Outcome>)
    reads ps
    ensures |os| == |ps|
    ensures forall k :: 0 <= k < |ps| ==> os[k] == Outcome(ps[k].role, PlayerWon(winner, ps[k].role), ps[k].isAlive)
  {
    if ps == [] then []
    else [Outcome(ps[0].role, PlayerWon(winner, ps[0].role), ps[0].isAlive)] + Outcomes(ps[1..], winner)
  }

  /** The game counters of a user row. */
  datatype UserTally = UserTally(games: int, won: int, lost: int)

  /** A user row's counters after one more game with the given result; a draw (`None`) is not counted. */
  function UserAfter(t: UserTally, result: Option<bool>): UserTally
  {
    match result
    case None => t
    case Some(true) => t.(games := t.games + 1, won := t.won + 1)
    case Some(false) => t.(games := t.games + 1, lost := t.lost + 1)
  }

  /** The counters of a statistics row that the end of a game moves. */
  datatype StatsTally = StatsTally(played: nat, won: int, lost: int, survived: int,
                                   gamesAs: StatisticsModel.RoleCounts, winsAs: StatisticsModel.RoleCounts,
                                   playtime: int, average: real)

  /**
   * A statistics row's counters after one more game with the given
   * outcome: won only on `Some(true)` and lost otherwise, a draw included;
   * counted for the player's role, and as a win for it when won; the
   * duration added to the play time, and the average taken again.
   */
  function StatsAfter(t: StatsTally, o: Outcome, duration: int): StatsTally
  {
    t.(played := t.played + 1,
       won := t.won + (if o.result == Some(true) then 1 else 0),
       lost := t.lost + (if o.result == Some(true) then 0 else 1),
       survived := t.survived + (if o.alive then 1 else 0),
       gamesAs := if o.role.Some? then StatisticsModel.Bump(t.gamesAs, o.role.value) else t.gamesAs,
       winsAs := if o.result == Some(true) && o.role.Some? then StatisticsModel.Bump(t.winsAs, o.role.value)
                 else t.winsAs,
       playtime := t.playtime + duration,
       average := StatisticsModel.Average(t.playtime + duration, t.played + 1))
  }

  /** The counters of each user row, `None` where a player has none. */
  ghost function Tallies(users: seq<UserModel.User?>): (r: seq<Option<UserTally>>)
    reads users
    ensures |r| == |users|
    ensures forall k :: 0 <= k < |users| ==>
      r[k] == if users[k] == null then None else Some(TallyOf(users[k]))
  {
    if users == [] then []
    else
      [if users[0] == null then None else Some(TallyOf(users[0]))] + Tallies(users[1..])
  }

  /** The counters of each statistics row, `None` where a player has none. */
  ghost function StatsTallies(stats: seq<StatisticsModel.UserStatistics?>): (r: seq<Option<StatsTally>>)
    reads stats
    ensures |r| == |stats|
    ensures forall k :: 0 <= k < |stats| ==>
      r[k] == if stats[k] == null then None else Some(StatsOf(stats[k]))
  {
    if stats == [] then []
    else
      [if stats[0] == null then None else Some(StatsOf(stats[0]))] + StatsTallies(stats[1..])
  }

  /** The user rows' counters once the first `n` players have been counted. */
  function UsersAfter(t: seq<Option<UserTally>>, os: seq<Outcome>, n: int): (r: seq<Option<UserTally>>)
    requires |t| == |os|
    ensures |r| == |t|
    ensures forall k :: 0 <= k < |t| ==>
      r[k] == if k < n && t[k].Some? then Some(UserAfter(t[k].value, os[k].result)) else t[k]
  {
    seq(|t|, k requires 0 <= k < |t| => if k < n && t[k].Some? then Some(UserAfter(t[k].value, os[k].result)) else t[k])
  }

  /** The statistics rows' counters once the first `n` players have been counted. */
  function StatsAfterAll(t: seq<Option<StatsTally>>, os: seq<Outcome>, n: int, duration: int)
    : (r: seq<Option<StatsTally>>)
    requires |t| == |os|
    ensures |r| == |t|
    ensures forall k :: 0 <= k < |t| ==>
      r[k] == if k < n && t[k].Some? then Some(StatsAfter(t[k].value, os[k], duration)) else t[k]
  {
    seq(|t|, k requires 0 <= k < |t| => if k < n && t[k].Some? then Some(StatsAfter(t[k].value, os[k], duration)) else t[k])
  }

  /** Counting a game keeps a user row's games equal to its wins plus its losses, and counts it unless drawn. */
  lemma UserAfterBalanced(t: UserTally, result: Option<bool>)
    requires t.games == t.won + t.lost
    ensures var t' := UserAfter(t, result); t'.games == t'.won + t'.lost
    ensures UserAfter(t, result).games == t.games + (if result.Some? then 1 else 0)
  {
  }

  /**
   * Every player's rows hold their counters from before, after one more
   * game with the player's outcome.
   */
  ghost predicate Counted(ps: seq<Player>, users: seq<UserModel.User?>, stats: seq<StatisticsModel.UserStatistics?>,
                          winner: WinCondition, duration: int, before: seq<Option<UserTally>>,
                          statsBefore: seq<Option<StatsTally>>)
    requires Linked(ps, users, stats)
    reads users, stats, ps
  {
    |before| == |ps| && |statsBefore| == |ps| &&
    Tallies(users) == UsersAfter(before, Outcomes(ps, winner), |ps|) &&
    StatsTallies(stats) == StatsAfterAll(statsBefore, Outcomes(ps, winner), |ps|, duration)
  }

  /** The rows are linked, and the game left them as `AfterGame` says. */
  ghost predicate Settled(ps: seq<Player>, users: seq<UserModel.User?>, stats: seq<StatisticsModel.UserStatistics?>,
                          winner: WinCondition, duration: int, before: seq<Option<UserTally>>,
                          statsBefore: seq<Option<StatsTally>>)
    reads users, stats, ps
  {
    Linked(ps, users, stats) && |before| == |ps| && |statsBefore| == |ps| &&
    Rows(ps, users, stats, winner) == AfterGame(Outcomes(ps, winner), before, statsBefore, duration)
  }

  /**
   * The rows a game with these outcomes leaves: both kinds valid, and each
   * holding its counters from before after one more game.
   */
  function AfterGame(os: seq<Outcome>, before: seq<Option<UserTally>>, statsBefore: seq<Option<StatsTally>>,
                     duration: int): RowsView
    requires |before| == |os| && |statsBefore| == |os|
  {
    (os, UsersAfter(before, os, |os|), StatsAfterAll(statsBefore, os, |os|, duration), true, true)
  }

  /** Each player's outcome, the counters of the user and statistics rows, and whether both kinds are valid. */
  type RowsView = (seq<Outcome>, seq<Option<UserTally>>, seq<Option<StatsTally>>, bool, bool)

  /** Everything about the players and their rows that the end of a game reads or establishes. */
  ghost function Rows(ps: seq<Player>, users: seq<UserModel.User?>, stats: seq<StatisticsModel.UserStatistics?>,
                      winner: WinCondition): RowsView
    reads ps, users, stats
  {
    (Outcomes(ps, winner), Tallies(users), StatsTallies(stats), UsersValid(users), StatsValid(stats))
  }

  function TallyOf(u: UserModel.User): UserTally
    reads u
  {
    UserTally(u.totalGames, u.gamesWon, u.gamesLost)
  }

  function StatsOf(s: StatisticsModel.UserStatistics): StatsTally
    reads s
  {
    StatsTally(s.totalGamesPlayed, s.gamesWon, s.gamesLost, s.timesSurvived, s.gamesAs, s.winsAs,
               s.totalPlaytimeSeconds, s.averageGameDuration)
  }

  /** A user row, when there is one, holds the counters `t`, or `t` after the game once it has been counted. */
  ghost predicate UserStep(u: UserModel.User?, t: Option<UserTally>, done: bool, result: Option<bool>)
    reads u
  {
    if u == null then t.None? else t.Some? && TallyOf(u) == if done then UserAfter(t.value, result) else t.value
  }

  /** A statistics row, when there is one, holds the counters `t`, or `t` after the game once it has been counted. */
  ghost predicate StatsStep(s: StatisticsModel.UserStatistics?, t: Option<StatsTally>, done: bool, o: Outcome,
                            duration: int)
    reads s
  {
    if s == null then t.None? else t.Some? && StatsOf(s) == if done then StatsAfter(t.value, o, duration) else t.value
  }

  /**
   * The state of the counting loop: the user rows of the first `nu`
   * players and the statistics rows of the first `ns` have counted the
   * game on top of the counters in `before` and `statsBefore`; the rest
   * still hold those counters.
   */
  ghost predicate Counting(ps: seq<Player>, users: seq<UserModel.User?>, stats: seq<StatisticsModel.UserStatistics?>,
                           winner: WinCondition, duration: int, os: seq<Outcome>, before: seq<Option<UserTally>>,
                           statsBefore: seq<Option<StatsTally>>, nu: int, ns: int)
    reads users, stats, ps
  {
    Linked(ps, users, stats) && DistinctUsers(ps) && (forall k :: 0 <= k < |ps| ==> ps[k].role.Some?) &&
    os == Outcomes(ps, winner) &&
    UsersCounting(users, os, before, nu) && StatsCounting(stats, os, statsBefore, ns, duration)
  }

  /** The user-row half of `Counting`. */
  ghost predicate UsersCounting(users: seq<UserModel.User?>, os: seq<Outcome>, before: seq<Option<UserTally>>, nu: int)
    reads users
  {
    |users| == |os| == |before| && UsersValid(users) &&
    forall k :: 0 <= k < |users| ==> UserStep(users[k], before[k], k < nu, os[k].result)
  }

  /** The statistics-row half of `Counting`. */
  ghost predicate StatsCounting(stats: seq<StatisticsModel.UserStatistics?>, os: seq<Outcome>,
                                statsBefore: seq<Option<StatsTally>>, ns: int, duration: int)
    reads stats
  {
    |stats| == |os| == |statsBefore| && StatsValid(stats) &&
    forall k :: 0 <= k < |stats| ==> StatsStep(stats[k], statsBefore[k], k < ns, os[k], duration)
  }

  /** Before any player is counted, the counters of the rows are their own. */
  lemma CountingStarts(ps: seq<Player>, users: seq<UserModel.User?>, stats: seq<StatisticsModel.UserStatistics?>,
                       winner: WinCondition, duration: int)
    requires Linked(ps, users, stats) && DistinctUsers(ps) && UsersValid(users) && StatsValid(stats)
    requires forall k :: 0 <= k < |ps| ==> ps[k].role.Some?
    ensures Counting(ps, users, stats, winner, duration, Outcomes(ps, winner), Tallies(users), StatsTallies(stats), 0, 0)
  {
  }

  /** Once every player is counted, the rows hold the counters of `UsersAfter` and `StatsAfterAll`. */
  lemma CountingEnds(ps: seq<Player>, users: seq<UserModel.User?>, stats: seq<StatisticsModel.UserStatistics?>,
                     winner: WinCondition, duration: int, os: seq<Outcome>, before: seq<Option<UserTally>>,
                     statsBefore: seq<Option<StatsTally>>)
    requires Counting(ps, users, stats, winner, duration, os, before, statsBefore, |ps|, |ps|)
    ensures Counted(ps, users, stats, winner, duration, before, statsBefore)
  {
    assert forall k :: 0 <= k < |ps| ==> Tallies(users)[k] == UsersAfter(before, os, |ps|)[k];
    assert forall k :: 0 <= k < |ps| ==> StatsTallies(stats)[k] == StatsAfterAll(statsBefore, os, |ps|, duration)[k];
  }

  /** One statistics row counts one game with the given outcome. */
  method CountGameFor(st: StatisticsModel.UserStatistics, o: Outcome, duration: int)
    requires st.Valid() && o.role.Some?
    modifies st`totalGamesPlayed, st`gamesWon, st`gamesLost, st`timesSurvived
    modifies st`gamesAs, st`winsAs, st`totalPlaytimeSeconds, st`averageGameDuration
    ensures st.Valid() && StatsOf(st) == StatsAfter(old(StatsOf(st)), o, duration)
  {
    StatisticsModel.RoleNameRoundTrip(o.role.value);
    st.UpdateGameStats(StatisticsModel.RoleName(o.role.value), o.result, duration, o.alive);
  }

  /** One user row counts one result; a draw leaves it as it is. */
  method CountResultFor(u: UserModel.User, result: Option<bool>)
    requires u.Valid()
    modifies u`totalGames, u`gamesWon, u`gamesLost
    ensures u.Valid() && TallyOf(u) == UserAfter(old(TallyOf(u)), result)
  {
    if result.Some? {
      u.UpdateGameStats(result.value);
    }
  }

  /** The user row of player `i`, when there is one, counts the result unless it is a draw. */
  method CountUser(ps: seq<Player>, users: seq<UserModel.User?>, stats: seq<StatisticsModel.UserStatistics?>,
                   i: nat, winner: WinCondition, duration: int, ghost os: seq<Outcome>,
                   ghost before: seq<Option<UserTally>>, ghost statsBefore: seq<Option<StatsTally>>)
    requires i < |ps| && Counting(ps, users, stats, winner, duration, os, before, statsBefore, i, i)
    modifies {users[i]}`totalGames
    modifies {users[i]}`gamesWon
    modifies {users[i]}`gamesLost
    ensures Counting(ps, users, stats, winner, duration, os, before, statsBefore, i + 1, i)
  {
    assert forall k :: 0 <= k < |ps| && k != i && users[k] != null ==> users[k] != users[i];
    var user := users[i];
    if user != null {
      var won := PlayerWon(winner, ps[i].role);
      assert won == os[i].result;
      CountResultFor(user, won);
    }
    forall k | 0 <= k < |users|
      ensures UserStep(users[k], before[k], k < i + 1, os[k].result)
      ensures users[k] != null ==> users[k].Valid()
    {
      if k != i {
        assert old(UserStep(users[k], before[k], k < i, os[k].result));
      }
    }
  }

  /**
   * The statistics row of player `i`, when there is one, counts the game in
   * the player's role, with its duration and whether the player survived.
   */
  method CountStats(ps: seq<Player>, users: seq<UserModel.User?>, stats: seq<StatisticsModel.UserStatistics?>,
                    i: nat, winner: WinCondition, duration: int, ghost os: seq<Outcome>,
                    ghost before: seq<Option<UserTally>>, ghost statsBefore: seq<Option<StatsTally>>)
    requires i < |ps| && Counting(ps, users, stats, winner, duration, os, before, statsBefore, i + 1, i)
    modifies {stats[i]}`totalGamesPlayed
    modifies {stats[i]}`gamesWon
    modifies {stats[i]}`gamesLost
    modifies {stats[i]}`timesSurvived
    modifies {stats[i]}`gamesAs
    modifies {stats[i]}`winsAs
    modifies {stats[i]}`totalPlaytimeSeconds
    modifies {stats[i]}`averageGameDuration
    ensures Counting(ps, users, stats, winner, duration, os, before, statsBefore, i + 1, i + 1)
  {
    assert forall k :: 0 <= k < |ps| && k != i && stats[k] != null ==> stats[k] != stats[i];
    if users[i] != null && stats[i] != null {
      var o := Outcome(ps[i].role, PlayerWon(winner, ps[i].role), ps[i].isAlive);
      assert o == os[i];
      CountGameFor(stats[i], o, duration);
    }
  }

  /**
   * `_update_player_statistics`: for each player with a user row, counts the
   * result on that row unless it is a draw, and counts the game in the
   * player's role, with its duration and whether the player survived, on
   * the user's statistics row when there is one. Every row is counted once,
   * for its own player.
   */
  method UpdatePlayerStatistics(ps: seq<Player>, users: seq<UserModel.User?>,
                                stats: seq<StatisticsModel.UserStatistics?>, winner: WinCondition, duration: int)
    requires Linked(ps, users, stats) && DistinctUsers(ps) && UsersValid(users) && StatsValid(stats)
    requires forall i :: 0 <= i < |ps| ==> ps[i].role.Some?
    modifies users`totalGames, users`gamesWon, users`gamesLost
    modifies stats`totalGamesPlayed, stats`gamesWon, stats`gamesLost, stats`timesSurvived
    modifies stats`gamesAs, stats`winsAs, stats`totalPlaytimeSeconds, stats`averageGameDuration
    ensures UsersValid(users) && StatsValid(stats)
    ensures Counted(ps, users, stats, winner, duration, old(Tallies(users)), old(StatsTallies(stats)))
  {
    ghost var os := Outcomes(ps, winner);
    ghost var before := Tallies(users);
    ghost var statsBefore := StatsTallies(stats);
    CountingStarts(ps, users, stats, winner, duration);
    var i := 0;
    while i < |ps|
      invariant 0 <= i <= |ps|
      invariant before == old(Tallies(users)) && statsBefore == old(StatsTallies(stats))
      invariant Counting(ps, users, stats, winner, duration, os, before, statsBefore, i, i)
    {
      CountUser(ps, users, stats, i, winner, duration, os, before, statsBefore);
      CountStats(ps, users, stats, i, winner, duration, os, before, statsBefore);
      i := i + 1;
    }
    CountingEnds(ps, users, stats, winner, duration, os, before, statsBefore);
  }

  /** `get_duration` of a finished game; 0 without a game. */
  function DurationOf(game: Game?): (d: int)
    reads game
    ensures game == null || game.finishedAt.None? ==> d == 0
    ensures game != null && game.finishedAt.Some? ==> game.startedAt + d == game.finishedAt.value
  {
    if game == null then 0
    else if game.finishedAt.Some? then game.finishedAt.value - game.startedAt
    else 0
  }

  // ---------------------------------------------------------------------
  // One game session
  // ---------------------------------------------------------------------

  /** The fields of a game row that `finish_game` writes. */
  ghost function Recorded(game: Game): (GameStatus, GamePhase, Option<WinCondition>, Option<string>, Option<int>)
    reads game
  {
    (game.status, game.phase, game.winner, game.winnerTeam, game.finishedAt)
  }

  /** The game row once `finish_game` has run: finished, in the Finished phase, with the result and the time. */
  ghost predicate Ended(game: Game, winner: WinCondition, team: Option<string>, now: int)
    reads game
  {
    Recorded(game) == (GameFinished, Finished, Some(winner), team, Some(now))
  }

  class GameSession {
    const gameId: Id
    const roomId: Id
    var isActive: bool
    var players: seq<Player>
    var currentRound: int
    const phaseManager: PhaseManagement.PhaseManager
    const votingManager: VotingManagement.VotingManager

    /** Each player appears once and no two players share a user. */
    ghost predicate Valid()
      reads this
    {
      (forall i, j :: 0 <= i < j < |players| ==> players[i] != players[j]) && DistinctUsers(players)
    }

    /** Every player holds a role, as the end of the game needs to count it. */
    predicate RolesAssigned()
      reads this, players
    {
      forall i :: 0 <= i < |players| ==> players[i].role.Some?
    }

    /** A new session is active in round 1, without players, with fresh phase and voting managers. */
    constructor (gameId: Id, roomId: Id, now: int)
      ensures this.gameId == gameId && this.roomId == roomId && isActive && players == [] && currentRound == 1
      ensures fresh(phaseManager) && fresh(votingManager)
      ensures phaseManager.gameId == gameId && phaseManager.isActive && phaseManager.currentPhase == Day
      ensures phaseManager.phaseTimer == null && phaseManager.Valid()
      ensures votingManager.Valid() && votingManager.activeSessions == map[] && votingManager.roomSessions == map[]
      ensures Valid()
    {
      this.gameId := gameId;
      this.roomId := roomId;
      isActive := true;
      players := [];
      currentRound := 1;
      phaseManager := new PhaseManagement.PhaseManager(gameId, now);
      votingManager := new VotingManagement.VotingManager();
    }

    /**
     * `_check_win_condition`: no living mafia means the citizens win; living
     * mafia at least as many as the other living players means the mafia
     * win; otherwise the game goes on.
     */
    function CheckWinCondition(): (v: Option<Verdict>)
      reads this, players
      ensures v == Some(Verdict(CitizensWin, "citizens")) <==> |AliveMafia(players)| == 0
      ensures v == Some(Verdict(MafiaWin, "mafia")) <==>
        0 < |AliveMafia(players)| && |CitizenPlayers(players)| <= |AliveMafia(players)|
      ensures v.None? <==> 0 < |AliveMafia(players)| < |CitizenPlayers(players)|
      ensures v == WinnerAmong(players)
    {
      MafiaCitizenPartition(players);
      DecideWinner(|AliveMafia(players)|, |AlivePlayers(players)| - |AliveMafia(players)|)
    }

    /**
     * `_end_game`: the first call deactivates the session, records the
     * result on the game, counts it for every player, finishes the room
     * and stops the phase manager; any later call changes nothing. The game
     * and the room are the rows of this session's ids, null when missing.
     */
    method EndGame(winner: WinCondition, team: Option<string>, game: Game?, room: RoomModel.Room?,
                   users: seq<UserModel.User?>, stats: seq<StatisticsModel.UserStatistics?>, now: int)
      requires Valid() && RolesAssigned() && Linked(players, users, stats) && UsersValid(users) && StatsValid(stats)
      modifies this`isActive
      modifies {game}`status, {game}`phase, {game}`winner, {game}`winnerTeam, {game}`finishedAt
      modifies {room}`status, {room}`finishedAt
      modifies phaseManager`isActive, phaseManager`phaseTimer
      modifies {phaseManager.phaseTimer}`isActive
      modifies users`totalGames, users`gamesWon, users`gamesLost
      modifies stats`totalGamesPlayed, stats`gamesWon, stats`gamesLost, stats`timesSurvived
      modifies stats`gamesAs, stats`winsAs, stats`totalPlaytimeSeconds, stats`averageGameDuration
      ensures !isActive
      ensures !old(isActive) ==> (phaseManager.isActive == old(phaseManager.isActive) &&
        phaseManager.phaseTimer == old(phaseManager.phaseTimer) &&
        (phaseManager.phaseTimer != null ==> phaseManager.phaseTimer.isActive == old(phaseManager.phaseTimer.isActive)) &&
        Rows(players, users, stats, winner) == old(Rows(players, users, stats, winner)) &&
        (game != null ==> Recorded(game) == old(Recorded(game))) && (room != null ==> unchanged(room)))
      ensures old(isActive) ==> (!phaseManager.isActive && phaseManager.phaseTimer == null &&
        Settled(players, users, stats, winner, if game != null then now - old(game.startedAt) else 0,
        old(Tallies(users)), old(StatsTallies(stats))))
      ensures old(isActive) && old(phaseManager.phaseTimer) != null ==> !old(phaseManager.phaseTimer).isActive
      ensures old(isActive) && game != null ==> Ended(game, winner, team, now)
      ensures old(isActive) && room != null ==> room.status == RoomModel.RoomFinished && room.finishedAt == Some(now)
    {
      if !isActive {
        return;
      }
      ghost var rows := Rows(players, users, stats, winner);
      isActive := false;
      assert Rows(players, users, stats, winner) == rows;
      ghost var before, statsBefore := Tallies(users), StatsTallies(stats);
      ghost var duration := if game != null then now - game.startedAt else 0;
      assert before == old(Tallies(users)) && statsBefore == old(StatsTallies(stats));
      assert duration == if game != null then now - old(game.startedAt) else 0;
      Finish(winner, team, game, room, users, stats, now);
      assert Settled(players, users, stats, winner, duration, before, statsBefore);
    }

    /** The steps that end an active game, in their order: the game, the players, the room, the phases. */
    method Finish(winner: WinCondition, team: Option<string>, game: Game?, room: RoomModel.Room?,
                  users: seq<UserModel.User?>, stats: seq<StatisticsModel.UserStatistics?>, now: int)
      requires Valid() && RolesAssigned() && Linked(players, users, stats) && UsersValid(users) && StatsValid(stats)
      modifies {game}`status, {game}`phase, {game}`winner, {game}`winnerTeam, {game}`finishedAt
      modifies {room}`status, {room}`finishedAt
      modifies phaseManager`isActive, phaseManager`phaseTimer
      modifies {phaseManager.phaseTimer}`isActive
      modifies users`totalGames, users`gamesWon, users`gamesLost
      modifies stats`totalGamesPlayed, stats`gamesWon, stats`gamesLost, stats`timesSurvived
      modifies stats`gamesAs, stats`winsAs, stats`totalPlaytimeSeconds, stats`averageGameDuration
      ensures !phaseManager.isActive && phaseManager.phaseTimer == null
      ensures old(phaseManager.phaseTimer) != null ==> !old(phaseManager.phaseTimer).isActive
      ensures Settled(players, users, stats, winner, if game != null then now - old(game.startedAt) else 0,
        old(Tallies(users)), old(StatsTallies(stats)))
      ensures game != null ==> Ended(game, winner, team, now)
      ensures room != null ==> room.status == RoomModel.RoomFinished && room.finishedAt == Some(now)
    {
      ghost var timer := phaseManager.phaseTimer;
      Record(winner, team, game, users, stats, now);
      assert phaseManager.phaseTimer == timer;
      Shutdown(winner, game, room, users, stats, now);
      assert timer != null ==> !timer.isActive;
    }

    /**
     * The room, then the phases: finishes the room and stops the phase
     * manager; the game's result and every player's row stay.
     */
    method Shutdown(winner: WinCondition, game: Game?, room: RoomModel.Room?, users: seq<UserModel.User?>,
                    stats: seq<StatisticsModel.UserStatistics?>, now: int)
      modifies {room}`status, {room}`finishedAt
      modifies phaseManager`isActive, phaseManager`phaseTimer
      modifies {phaseManager.phaseTimer}`isActive
      ensures !phaseManager.isActive && phaseManager.phaseTimer == null
      ensures old(phaseManager.phaseTimer) != null ==> !old(phaseManager.phaseTimer).isActive
      ensures room != null ==> room.status == RoomModel.RoomFinished && room.finishedAt == Some(now)
      ensures Rows(players, users, stats, winner) == old(Rows(players, users, stats, winner))
      ensures game != null ==> Recorded(game) == old(Recorded(game))
    {
      CloseRoom(winner, room, users, stats, now);
      StopPhases(winner, users, stats);
    }

    /** Finishes the room, when there is one; no player and no player's row changes. */
    method CloseRoom(winner: WinCondition, room: RoomModel.Room?, users: seq<UserModel.User?>,
                     stats: seq<StatisticsModel.UserStatistics?>, now: int)
      modifies {room}`status, {room}`finishedAt
      ensures room != null ==> room.status == RoomModel.RoomFinished && room.finishedAt == Some(now)
      ensures room != null ==> (room.seats == old(room.seats) && room.currentPlayers == old(room.currentPlayers) &&
        room.creatorId == old(room.creatorId) && room.startedAt == old(room.startedAt))
      ensures Rows(players, users, stats, winner) == old(Rows(players, users, stats, winner))
    {
      if room != null {
        room.FinishGame(now);
      }
    }

    /**
     * Stops the phase manager and its timer; the phase, the ledger of
     * actions, the notifications and the phase's start time stay, and no
     * player and no player's row changes.
     */
    method StopPhases(winner: WinCondition, users: seq<UserModel.User?>, stats: seq<StatisticsModel.UserStatistics?>)
      modifies phaseManager`isActive, phaseManager`phaseTimer
      modifies {phaseManager.phaseTimer}`isActive
      ensures !phaseManager.isActive && phaseManager.phaseTimer == null
      ensures old(phaseManager.phaseTimer) != null ==> !old(phaseManager.phaseTimer).isActive
      ensures phaseManager.currentPhase == old(phaseManager.currentPhase) && phaseManager.actions == old(phaseManager.actions)
      ensures phaseManager.phaseChanges == old(phaseManager.phaseChanges) &&
        phaseManager.phaseStartTime == old(phaseManager.phaseStartTime) && phaseManager.wedged == old(phaseManager.wedged)
      ensures phaseManager.View() == PhaseManagement.StepAsWritten(old(phaseManager.View()), PhaseManagement.StopCall)
      ensures Rows(players, users, stats, winner) == old(Rows(players, users, stats, winner))
    {
      phaseManager.Stop();
    }

    /** Records the result on the game, then counts the game, with its duration, for every player. */
    method Record(winner: WinCondition, team: Option<string>, game: Game?,
                  users: seq<UserModel.User?>, stats: seq<StatisticsModel.UserStatistics?>, now: int)
      requires Valid() && RolesAssigned() && Linked(players, users, stats) && UsersValid(users) && StatsValid(stats)
      modifies {game}`status, {game}`phase, {game}`winner, {game}`winnerTeam, {game}`finishedAt
      modifies users`totalGames, users`gamesWon, users`gamesLost
      modifies stats`totalGamesPlayed, stats`gamesWon, stats`gamesLost, stats`timesSurvived
      modifies stats`gamesAs, stats`winsAs, stats`totalPlaytimeSeconds, stats`averageGameDuration
      ensures Settled(players, users, stats, winner, if game != null then now - old(game.startedAt) else 0,
        old(Tallies(users)), old(StatsTallies(stats)))
      ensures game != null ==> Ended(game, winner, team, now)
    {
      MarkFinished(winner, team, game, users, stats, now);
      var duration := DurationOf(game);
      assert duration == if game != null then now - old(game.startedAt) else 0;
      UpdatePlayerStatistics(players, users, stats, winner, duration);
    }

    /** Records the result on the game, when there is one; no player and no player's row changes. */
    method MarkFinished(winner: WinCondition, team: Option<string>, game: Game?,
                        users: seq<UserModel.User?>, stats: seq<StatisticsModel.UserStatistics?>, now: int)
      modifies {game}`status, {game}`phase, {game}`winner, {game}`winnerTeam, {game}`finishedAt
      ensures game != null ==> Ended(game, winner, team, now) && game.startedAt == old(game.startedAt)
      ensures Rows(players, users, stats, winner) == old(Rows(players, users, stats, winner))
    {
      if game != null {
        game.FinishGame(winner, team, now);
      }
    }

    /** `stop`: ends an active session as cancelled, which counts as a loss for every player. */
    method Stop(game: Game?, room: RoomModel.Room?, users: seq<UserModel.User?>,
                stats: seq<StatisticsModel.UserStatistics?>, now: int)
      requires Valid() && RolesAssigned() && Linked(players, users, stats) && UsersValid(users) && StatsValid(stats)
      modifies this`isActive
      modifies {game}`status, {game}`phase, {game}`winner, {game}`winnerTeam, {game}`finishedAt
      modifies {room}`status, {room}`finishedAt
      modifies phaseManager`isActive, phaseManager`phaseTimer
      modifies {phaseManager.phaseTimer}`isActive
      modifies users`totalGames, users`gamesWon, users`gamesLost
      modifies stats`totalGamesPlayed, stats`gamesWon, stats`gamesLost, stats`timesSurvived
      modifies stats`gamesAs, stats`winsAs, stats`totalPlaytimeSeconds, stats`averageGameDuration
      ensures !isActive
      ensures !old(isActive) ==> (unchanged(phaseManager) && Tallies(users) == old(Tallies(users)) &&
        StatsTallies(stats) == old(StatsTallies(stats)) && (game != null ==> unchanged(game)) &&
        (room != null ==> unchanged(room)))
      ensures old(isActive) ==> (!phaseManager.isActive && phaseManager.phaseTimer == null &&
        Settled(players, users, stats, WinCancelled, if game != null then now - old(game.startedAt) else 0,
        old(Tallies(users)), old(StatsTallies(stats))))
      ensures old(isActive) && old(phaseManager.phaseTimer) != null ==> !old(phaseManager.phaseTimer).isActive
      ensures old(isActive) && game != null ==> Ended(game, WinCancelled, None, now)
      ensures old(isActive) && room != null ==> room.status == RoomModel.RoomFinished && room.finishedAt == Some(now)
    {
      if isActive {
        EndGame(WinCancelled, None, game, room, users, stats, now);
      }
    }

    /**
     * `_start_day_phase`: runs the win check and ends the game when it
     * decided one, with the verdict's condition and team.
     */
    method StartDayPhase(game: Game?, room: RoomModel.Room?, users: seq<UserModel.User?>,
                         stats: seq<StatisticsModel.UserStatistics?>, now: int)
      returns (v: Option<Verdict>)
      requires Valid() && RolesAssigned() && Linked(players, users, stats) && UsersValid(users) && StatsValid(stats)
      modifies this`isActive
      modifies {game}`status, {game}`phase, {game}`winner, {game}`winnerTeam, {game}`finishedAt
      modifies {room}`status, {room}`finishedAt
      modifies phaseManager`isActive, phaseManager`phaseTimer
      modifies {phaseManager.phaseTimer}`isActive
      modifies users`totalGames, users`gamesWon, users`gamesLost
      modifies stats`totalGamesPlayed, stats`gamesWon, stats`gamesLost, stats`timesSurvived
      modifies stats`gamesAs, stats`winsAs, stats`totalPlaytimeSeconds, stats`averageGameDuration
      ensures v == old(CheckWinCondition())
      ensures v.Some? ==> !isActive
      ensures v.Some? && old(isActive) ==> (!phaseManager.isActive && phaseManager.phaseTimer == null &&
        Settled(players, users, stats, v.value.winner, if game != null then now - old(game.startedAt) else 0,
        old(Tallies(users)), old(StatsTallies(stats))))
      ensures v.Some? && old(isActive) && old(phaseManager.phaseTimer) != null ==> !old(phaseManager.phaseTimer).isActive
      ensures v.Some? && old(isActive) && game != null ==> Ended(game, v.value.winner, Some(v.value.team), now)
      ensures v.Some? && old(isActive) && room != null ==>
        room.status == RoomModel.RoomFinished && room.finishedAt == Some(now)
      ensures v.None? || !old(isActive) ==> (isActive == old(isActive) &&
        phaseManager.isActive == old(phaseManager.isActive) && phaseManager.phaseTimer == old(phaseManager.phaseTimer) &&
        (phaseManager.phaseTimer != null ==> phaseManager.phaseTimer.isActive == old(phaseManager.phaseTimer.isActive)) &&
        Tallies(users) == old(Tallies(users)) && StatsTallies(stats) == old(StatsTallies(stats)) &&
        (game != null ==> Recorded(game) == old(Recorded(game))) && (room != null ==> unchanged(room)))
    {
      v := CheckWinCondition();
      if v.Some? {
        EndGame(v.value.winner, Some(v.value.team), game, room, users, stats, now);
      }
    }

    /**
     * `_start_voting_phase`: opens a one-minute lynch vote in the room in
     * which the living players, and only they, both vote and can be voted
     * for; the voting manager refuses while the room's last vote is active.
     */
    method StartVotingPhase(now: int) returns (ok: bool)
      requires votingManager.Valid()
      modifies votingManager
      ensures votingManager.Valid()
      ensures ok <==> !old(votingManager.RoomBusy(roomId))
      ensures !ok ==> unchanged(votingManager)
      ensures ok ==> (roomId in votingManager.roomSessions &&
        votingManager.roomSessions[roomId] in votingManager.activeSessions && (
        var s := votingManager.activeSessions[votingManager.roomSessions[roomId]];
        s.voteType == LynchVote && s.endTime == now + VotingDuration && s.isActive &&
        s.eligibleVoters == s.eligibleTargets &&
        forall x :: x in s.eligibleVoters <==> exists k :: 0 <= k < |players| && players[k].isAlive && players[k].id == x))
    {
      var alive := AliveIds(players);
      var started, session := votingManager.StartVotingSession(roomId, LynchVote, VotingDuration, alive, alive, now);
      ok := started;
    }
  }

  // ---------------------------------------------------------------------
  // The manager of all sessions
  // ---------------------------------------------------------------------

  datatype StartOutcome = Started | GameAlreadyActive | NoSuchRoom | TooFewPlayers | RolesFailed

  /** The rooms whose registered session is no longer active. */
  function FinishedRooms(games: map<Id, GameSession>): (r: set<Id>)
    reads games.Values
    ensures forall k :: k in r <==> k in games && !games[k].isActive
  {
    set k | k in games && !games[k].isActive
  }

  /**
   * Two registries hold the same sessions: each under its own room and its
   * own game id; game ids are below `next`.
   */
  predicate Consistent(byRoom: map<Id, GameSession>, byGame: map<Id, GameSession>, next: Id)
  {
    (forall r :: r in byRoom ==> (byRoom[r].roomId == r &&
      byRoom[r].gameId in byGame && byGame[byRoom[r].gameId] == byRoom[r])) &&
    (forall g :: g in byGame ==> (byGame[g].gameId == g && g < next &&
      byGame[g].roomId in byRoom && byRoom[byGame[g].roomId] == byGame[g]))
  }

  class GameManager {
    /** room id -> its session */
    var activeGames: map<Id, GameSession>
    /** game id -> its session */
    var gameSessionsById: map<Id, GameSession>
    /** The id the next created game receives. */
    var nextGameId: Id

    /** The two registries hold the same sessions, each under its own room and its own game id. */
    ghost predicate Valid()
      reads this
    {
      Consistent(activeGames, gameSessionsById, nextGameId)
    }

    constructor ()
      ensures activeGames == map[] && gameSessionsById == map[] && Valid()
    {
      activeGames := map[];
      gameSessionsById := map[];
      nextGameId := 1;
    }

    /** A session is registered under a game id exactly when it is registered under its room. */
    lemma RegistriesAgree(s: GameSession)
      requires Valid()
      ensures s in gameSessionsById.Values <==> s in activeGames.Values
    {
      if s in activeGames.Values {
        var r :| r in activeGames && activeGames[r] == s;
        assert gameSessionsById[s.gameId] == s;
      }
      if s in gameSessionsById.Values {
        var g :| g in gameSessionsById && gameSessionsById[g] == s;
        assert activeGames[s.roomId] == s;
      }
    }

    /**
     * `start_game`: refuses a room that already has a session, an unknown
     * room, and too few active players; then creates the game and the
     * session and deals the roles. When dealing fails the game is discarded
     * and nothing is registered; otherwise the room is playing, the session
     * is registered under the room and the game, and its Day phase starts.
     * `players` are the room's active player rows.
     */
    method StartGame(roomId: Id, room: RoomModel.Room?, players: seq<Player>, roomGameNumbers: seq<int>,
                     draws: seq<nat>, now: int)
      returns (res: StartOutcome, game: Game?)
      requires Valid()
      requires room != null ==> room.id == roomId
      requires forall i, j :: 0 <= i < j < |players| ==> players[i] != players[j]
      requires DistinctUsers(players)
      modifies this`activeGames, this`gameSessionsById, this`nextGameId, players`role
      modifies {room}`status
      ensures Valid()
      ensures res == GameAlreadyActive <==> roomId in old(activeGames)
      ensures res == NoSuchRoom <==> roomId !in old(activeGames) && room == null
      ensures res == TooFewPlayers <==> roomId !in old(activeGames) && room != null && |players| < old(room.minPlayers)
      ensures res == RolesFailed <==> (roomId !in old(activeGames) && room != null && |players| >= old(room.minPlayers) &&
        !(|players| >= 4 && RoleManagement.GetRoleDistribution(|players|, None).Some?))
      ensures res == Started <==> (roomId !in old(activeGames) && room != null && |players| >= old(room.minPlayers) &&
        |players| >= 4 && RoleManagement.GetRoleDistribution(|players|, None).Some?)
      ensures res != Started ==> (game == null && activeGames == old(activeGames) &&
        gameSessionsById == old(gameSessionsById) && (room != null ==> room.status == old(room.status)))
      ensures res != Started ==> forall k :: 0 <= k < |players| ==> players[k].role == old(players[k].role)
      ensures res == Started ==> (game != null && fresh(game) && game.roomId == roomId && game.totalPlayers == |players| &&
        game.id == old(nextGameId) && roomId in activeGames && fresh(activeGames[roomId]) &&
        activeGames == old(activeGames)[roomId := activeGames[roomId]] &&
        gameSessionsById == old(gameSessionsById)[game.id := activeGames[roomId]])
      ensures res == Started ==> (var s := activeGames[roomId];
        s.gameId == game.id && s.isActive && s.players == players && s.Valid() && s.RolesAssigned() &&
        s.phaseManager.isActive && s.phaseManager.currentPhase == Day && room.status == RoomModel.Playing)
    {
      if roomId in activeGames {
        return GameAlreadyActive, null;
      }
      if room == null {
        return NoSuchRoom, null;
      }
      if |players| < room.minPlayers {
        return TooFewPlayers, null;
      }
      var g, session, dealt := CreateAndDeal(roomId, players, roomGameNumbers, draws, now);
      if !dealt {
        return RolesFailed, null;
      }
      Activate(session, room, now);
      return Started, g;
    }

    /**
     * Creates the game under the next game id and its session holding the
     * players, and deals the roles to the players.
     */
    method CreateAndDeal(roomId: Id, players: seq<Player>, roomGameNumbers: seq<int>, draws: seq<nat>, now: int)
      returns (game: Game, session: GameSession, dealt: bool)
      requires Valid()
      requires forall i, j :: 0 <= i < j < |players| ==> players[i] != players[j]
      requires DistinctUsers(players)
      modifies this`nextGameId, players`role
      ensures Valid() && nextGameId == old(nextGameId) + 1
      ensures fresh(game) && game.id == old(nextGameId) && game.roomId == roomId && game.totalPlayers == |players|
      ensures fresh(session) && fresh(session.phaseManager) && fresh(session.votingManager)
      ensures session.gameId == game.id && session.roomId == roomId && session.isActive && session.players == players
      ensures session.Valid() && session.phaseManager.phaseTimer == null && session.phaseManager.Valid()
      ensures session.phaseManager.isActive
      ensures dealt <==> |players| >= 4 && RoleManagement.GetRoleDistribution(|players|, None).Some?
      ensures dealt ==> session.RolesAssigned()
      ensures !dealt ==> forall k :: 0 <= k < |players| ==> players[k].role == old(players[k].role)
    {
      game := new Game(nextGameId, roomId, |players|, roomGameNumbers, now);
      nextGameId := nextGameId + 1;
      session := new GameSession(game.id, roomId, now);
      session.players := players;
      dealt := RoleManagement.AssignRoles(players, None, draws);
    }

    /** Marks the room as playing, registers the session and starts its Day phase. */
    method Activate(session: GameSession, room: RoomModel.Room, now: int)
      requires Valid() && session.roomId !in activeGames && session.gameId !in gameSessionsById
      requires session.gameId < nextGameId && session.phaseManager.Valid() && session.phaseManager.isActive
      modifies this`activeGames, this`gameSessionsById, room`status, session.phaseManager
      modifies session.phaseManager.phaseTimer
      ensures Valid() && room.status == RoomModel.Playing
      ensures activeGames == old(activeGames)[session.roomId := session]
      ensures gameSessionsById == old(gameSessionsById)[session.gameId := session]
      ensures session.phaseManager.isActive && session.phaseManager.currentPhase == Day
    {
      room.status := RoomModel.Playing;
      Register(session);
      var _ := session.phaseManager.StartPhase(Day, None, now);
    }

    /** Registers a session under its room and its game id, both new. */
    method Register(s: GameSession)
      requires Valid() && s.roomId !in activeGames && s.gameId !in gameSessionsById
      requires s.gameId < nextGameId
      modifies this`activeGames, this`gameSessionsById
      ensures Valid()
      ensures activeGames == old(activeGames)[s.roomId := s] && gameSessionsById == old(gameSessionsById)[s.gameId := s]
    {
      activeGames := activeGames[s.roomId := s];
      gameSessionsById := gameSessionsById[s.gameId := s];
    }

    /**
     * `end_game`: refuses a room without a session; otherwise ends the
     * session as cancelled (no-op when it had already ended), removes it
     * from both registries and marks the room finished. Ending an active
     * session finishes the game as cancelled and counts a loss for every
     * player; a refusal changes nothing.
     */
    method EndGame(roomId: Id, game: Game?, room: RoomModel.Room?, users: seq<UserModel.User?>,
                   stats: seq<StatisticsModel.UserStatistics?>, now: int)
      returns (ok: bool)
      requires Valid()
      requires roomId in activeGames ==> (var s := activeGames[roomId];
        s.Valid() && s.RolesAssigned() && Linked(s.players, users, stats) && UsersValid(users) && StatsValid(stats))
      modifies this`activeGames, this`gameSessionsById
      modifies {game}`status, {game}`phase, {game}`winner, {game}`winnerTeam, {game}`finishedAt
      modifies {room}`status, {room}`finishedAt
      modifies (if roomId in activeGames then {activeGames[roomId]} else {})`isActive
      modifies (if roomId in activeGames then {activeGames[roomId].phaseManager} else {})`isActive
      modifies (if roomId in activeGames then {activeGames[roomId].phaseManager} else {})`phaseTimer
      modifies (if roomId in activeGames && activeGames[roomId].phaseManager.phaseTimer != null
                then {activeGames[roomId].phaseManager.phaseTimer} else {})`isActive
      modifies users`totalGames, users`gamesWon, users`gamesLost
      modifies stats`totalGamesPlayed, stats`gamesWon, stats`gamesLost, stats`timesSurvived
      modifies stats`gamesAs, stats`winsAs, stats`totalPlaytimeSeconds, stats`averageGameDuration
      ensures Valid()
      ensures ok <==> roomId in old(activeGames)
      ensures !ok ==> activeGames == old(activeGames) && gameSessionsById == old(gameSessionsById)
      ensures ok ==> (var s := old(activeGames[roomId]);
        !s.isActive && activeGames == old(activeGames) - {roomId} &&
        gameSessionsById == old(gameSessionsById) - {s.gameId} &&
        (room != null ==> (room.status == RoomModel.RoomFinished &&
          room.finishedAt == if old(s.isActive) then Some(now) else old(room.finishedAt))))
      ensures ok ==> (var s := old(activeGames[roomId]);
        old(s.isActive) ==> (!s.phaseManager.isActive && s.phaseManager.phaseTimer == null &&
          Settled(s.players, users, stats, WinCancelled,
          if game != null then now - old(game.startedAt) else 0, old(Tallies(users)), old(StatsTallies(stats)))))
      ensures ok && old(activeGames[roomId].isActive) && game != null ==> Ended(game, WinCancelled, None, now)
      ensures ok && !old(activeGames[roomId].isActive) ==> (Tallies(users) == old(Tallies(users)) &&
        StatsTallies(stats) == old(StatsTallies(stats)) && (game != null ==> Recorded(game) == old(Recorded(game))))
      ensures !ok ==> ((game != null ==> unchanged(game)) && (room != null ==> unchanged(room)) &&
        Tallies(users) == old(Tallies(users)) && StatsTallies(stats) == old(StatsTallies(stats)))
    {
      if roomId !in activeGames {
        return false;
      }
      EndRegistered(activeGames[roomId], game, room, users, stats, now);
      return true;
    }

    /** Ends a registered session as cancelled, then retires it. */
    method EndRegistered(s: GameSession, game: Game?, room: RoomModel.Room?, users: seq<UserModel.User?>,
                         stats: seq<StatisticsModel.UserStatistics?>, now: int)
      requires Valid() && s.roomId in activeGames && activeGames[s.roomId] == s
      requires s.Valid() && s.RolesAssigned() && Linked(s.players, users, stats) && UsersValid(users) && StatsValid(stats)
      modifies this`activeGames, this`gameSessionsById, s`isActive
      modifies {game}`status, {game}`phase, {game}`winner, {game}`winnerTeam, {game}`finishedAt
      modifies {room}`status, {room}`finishedAt
      modifies s.phaseManager`isActive, s.phaseManager`phaseTimer
      modifies {s.phaseManager.phaseTimer}`isActive
      modifies users`totalGames, users`gamesWon, users`gamesLost
      modifies stats`totalGamesPlayed, stats`gamesWon, stats`gamesLost, stats`timesSurvived
      modifies stats`gamesAs, stats`winsAs, stats`totalPlaytimeSeconds, stats`averageGameDuration
      ensures Valid() && !s.isActive
      ensures activeGames == old(activeGames) - {s.roomId} && gameSessionsById == old(gameSessionsById) - {s.gameId}
      ensures room != null ==> (room.status == RoomModel.RoomFinished &&
        room.finishedAt == if old(s.isActive) then Some(now) else old(room.finishedAt))
      ensures old(s.isActive) ==> (!s.phaseManager.isActive && s.phaseManager.phaseTimer == null &&
        Settled(s.players, users, stats, WinCancelled,
        if game != null then now - old(game.startedAt) else 0, old(Tallies(users)), old(StatsTallies(stats))))
      ensures old(s.isActive) && game != null ==> Ended(game, WinCancelled, None, now)
      ensures !old(s.isActive) ==> (Tallies(users) == old(Tallies(users)) &&
        StatsTallies(stats) == old(StatsTallies(stats)) && (game != null ==> Recorded(game) == old(Recorded(game))))
    {
      EndSession(s, game, room, users, stats, now);
      ghost var rows := Rows(s.players, users, stats, WinCancelled);
      Retire(s, game, room, users, stats);
      assert Rows(s.players, users, stats, WinCancelled) == rows;
    }

    /** `session._end_game(CANCELLED, None)` as the manager sees it: its registries stay as they were. */
    method EndSession(s: GameSession, game: Game?, room: RoomModel.Room?, users: seq<UserModel.User?>,
                      stats: seq<StatisticsModel.UserStatistics?>, now: int)
      requires Valid() && s.roomId in activeGames && activeGames[s.roomId] == s
      requires s.Valid() && s.RolesAssigned() && Linked(s.players, users, stats) && UsersValid(users) && StatsValid(stats)
      modifies s`isActive
      modifies {game}`status, {game}`phase, {game}`winner, {game}`winnerTeam, {game}`finishedAt
      modifies {room}`status, {room}`finishedAt
      modifies s.phaseManager`isActive, s.phaseManager`phaseTimer
      modifies {s.phaseManager.phaseTimer}`isActive
      modifies users`totalGames, users`gamesWon, users`gamesLost
      modifies stats`totalGamesPlayed, stats`gamesWon, stats`gamesLost, stats`timesSurvived
      modifies stats`gamesAs, stats`winsAs, stats`totalPlaytimeSeconds, stats`averageGameDuration
      ensures Valid() && activeGames == old(activeGames) && gameSessionsById == old(gameSessionsById)
      ensures !s.isActive
      ensures !old(s.isActive) ==> (Rows(s.players, users, stats, WinCancelled) ==
        old(Rows(s.players, users, stats, WinCancelled)) && (game != null ==> Recorded(game) == old(Recorded(game))) &&
        (room != null ==> unchanged(room)))
      ensures old(s.isActive) ==> (!s.phaseManager.isActive && s.phaseManager.phaseTimer == null &&
        Settled(s.players, users, stats, WinCancelled, if game != null then now - old(game.startedAt) else 0,
        old(Tallies(users)), old(StatsTallies(stats))))
      ensures old(s.isActive) && game != null ==> Ended(game, WinCancelled, None, now)
      ensures old(s.isActive) && room != null ==> room.status == RoomModel.RoomFinished && room.finishedAt == Some(now)
    {
      s.EndGame(WinCancelled, None, game, room, users, stats, now);
    }

    /**
     * Removes an ended session from both registries and marks the room
     * finished, keeping its finish time and seats; no player's row changes.
     */
    method Retire(s: GameSession, game: Game?, room: RoomModel.Room?, users: seq<UserModel.User?>,
                  stats: seq<StatisticsModel.UserStatistics?>)
      requires Valid() && s.roomId in activeGames && activeGames[s.roomId] == s
      modifies this`activeGames, this`gameSessionsById, {room}`status
      ensures Valid() && unchanged(s, s.phaseManager) && (game != null ==> unchanged(game))
      ensures activeGames == old(activeGames) - {s.roomId} && gameSessionsById == old(gameSessionsById) - {s.gameId}
      ensures room != null ==> room.status == RoomModel.RoomFinished
      ensures room != null ==> (room.finishedAt == old(room.finishedAt) && room.seats == old(room.seats) &&
        room.currentPlayers == old(room.currentPlayers))
      ensures Rows(s.players, users, stats, WinCancelled) == old(Rows(s.players, users, stats, WinCancelled))
    {
      Unregister(s);
      if room != null {
        room.status := RoomModel.RoomFinished;
      }
    }

    /** Removes a registered session from both registries. */
    method Unregister(s: GameSession)
      requires Valid() && s.roomId in activeGames && activeGames[s.roomId] == s
      modifies this`activeGames, this`gameSessionsById
      ensures Valid()
      ensures activeGames == old(activeGames) - {s.roomId} && gameSessionsById == old(gameSessionsById) - {s.gameId}
    {
      activeGames := activeGames - {s.roomId};
      gameSessionsById := gameSessionsById - {s.gameId};
    }

    /**
     * `cleanup_finished_games`: collects the rooms whose session is no
     * longer active, removes those sessions from both registries, keeps
     * every active one, and returns how many it removed.
     */
    method CleanupFinishedGames() returns (count: nat)
      requires Valid()
      modifies this`activeGames, this`gameSessionsById
      ensures Valid()
      ensures forall r :: r in activeGames <==> r in old(activeGames) && old(activeGames[r]).isActive
      ensures forall r :: r in activeGames ==> activeGames[r] == old(activeGames[r])
      ensures forall g :: g in gameSessionsById <==> g in old(gameSessionsById) && old(gameSessionsById[g]).isActive
      ensures count == |FinishedRooms(old(activeGames))|
    {
      var finished := CollectFinished();
      RemoveAll(finished);
      assert (set k | 0 <= k < |finished| :: finished[k]) == FinishedRooms(old(activeGames));
      UniqueCount(finished);
      count := |finished|;
    }

    /** Removes the given rooms, each once, and their sessions from both registries. */
    method RemoveAll(finished: seq<Id>)
      requires Valid() && forall k :: 0 <= k < |finished| ==> finished[k] in activeGames
      requires forall i, j :: 0 <= i < j < |finished| ==> finished[i] != finished[j]
      modifies this`activeGames, this`gameSessionsById
      ensures Swept(old(activeGames), old(gameSessionsById), set k | 0 <= k < |finished| :: finished[k])
    {
      var i := 0;
      ghost var removed: set<Id> := {};
      while i < |finished|
        invariant 0 <= i <= |finished| && nextGameId == old(nextGameId)
        invariant removed == set k | 0 <= k < i :: finished[k]
        invariant Swept(old(activeGames), old(gameSessionsById), removed)
      {
        assert finished[i] !in removed;
        RemoveFinished(finished[i], old(activeGames), old(gameSessionsById), removed);
        removed := removed + {finished[i]};
        i := i + 1;
      }
    }

    /**
     * The registries are those of `byRoom` and `byGame` without the rooms in
     * `removed` and their sessions.
     */
    ghost predicate Swept(byRoom: map<Id, GameSession>, byGame: map<Id, GameSession>, removed: set<Id>)
      reads this
    {
      Valid() && Consistent(byRoom, byGame, nextGameId) &&
      (forall r :: r in activeGames <==> r in byRoom && r !in removed) &&
      (forall r :: r in activeGames ==> activeGames[r] == byRoom[r]) &&
      (forall g :: g in gameSessionsById <==> g in byGame && byGame[g].roomId !in removed)
    }

    /** Removes one more room, not yet removed, and its session. */
    method RemoveFinished(r: Id, ghost byRoom: map<Id, GameSession>, ghost byGame: map<Id, GameSession>,
                          ghost removed: set<Id>)
      requires Swept(byRoom, byGame, removed) && r in byRoom && r !in removed
      modifies this`activeGames, this`gameSessionsById
      ensures Swept(byRoom, byGame, removed + {r}) && nextGameId == old(nextGameId)
    {
      Unregister(activeGames[r]);
    }

    /** The rooms whose session is finished, each once. */
    method CollectFinished() returns (finished: seq<Id>)
      ensures forall k :: 0 <= k < |finished| ==> finished[k] in FinishedRooms(activeGames)
      ensures forall r :: r in FinishedRooms(activeGames) ==> r in finished
      ensures forall i, j :: 0 <= i < j < |finished| ==> finished[i] != finished[j]
    {
      finished := [];
      var keys := activeGames.Keys;
      while keys != {}
        invariant keys <= activeGames.Keys
        invariant forall k :: 0 <= k < |finished| ==> finished[k] in FinishedRooms(activeGames) && finished[k] !in keys
        invariant forall r :: r in FinishedRooms(activeGames) ==> r in finished || r in keys
        invariant forall i, j :: 0 <= i < j < |finished| ==> finished[i] != finished[j]
        decreases |keys|
      {
        var r :| r in keys;
        if !activeGames[r].isActive {
          finished := finished + [r];
        }
        keys := keys - {r};
      }
    }
  }

  /** A list without repetitions has as many elements as the set of its elements. */
  lemma {:induction false} UniqueCount(s: seq<Id>)
    requires forall i, j :: 0 <= i < j < |s| ==> s[i] != s[j]
    ensures |set k | 0 <= k < |s| :: s[k]| == |s|
  {
    if s != [] {
      var pre := s[..|s| - 1];
      UniqueCount(pre);
      assert (set k | 0 <= k < |s| :: s[k]) == (set k | 0 <= k < |pre| :: pre[k]) + {s[|s| - 1]};
    }
  }
}
