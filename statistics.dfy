/**
 * The detailed per-user statistics (models/statistics.py): game, role,
 * survival, vote and action counters, the average game length, the rates
 * derived from them and the favourite and best roles.
 */
module StatisticsModel {
  import opened Wrappers
  import opened PlayerModel
  import UserModel

  /** The roles in the order the statistics list them. */
  const RoleOrder: seq<Role> := [Citizen, Mafia, Doctor, Detective, Vigilante, Mayor, Jester]

  /** The value string of a role, as stored and as passed to the counters. */
  function RoleName(r: Role): string
  {
    match r
    case Citizen => "citizen"
    case Mafia => "mafia"
    case Doctor => "doctor"
    case Detective => "detective"
    case Vigilante => "vigilante"
    case Mayor => "mayor"
    case Jester => "jester"
  }

  /** The role whose per-role counters a name addresses; any other name addresses none. */
  function RoleOfName(name: string): (r: Option<Role>)
    ensures r.Some? ==> RoleName(r.value) == name
  {
    if name == "citizen" then Some(Citizen)
    else if name == "mafia" then Some(Mafia)
    else if name == "doctor" then Some(Doctor)
    else if name == "detective" then Some(Detective)
    else if name == "vigilante" then Some(Vigilante)
    else if name == "mayor" then Some(Mayor)
    else if name == "jester" then Some(Jester)
    else None
  }

  /** Every role's name addresses that role's counters. */
  lemma RoleNameRoundTrip(r: Role)
    ensures RoleOfName(RoleName(r)) == Some(r)
  {
  }

  /** Every role is listed. */
  lemma RoleListed(r: Role)
    ensures r in RoleOrder
  {
  }

  /** One counter per role, as the per-role columns of the statistics row. */
  datatype RoleCounts = RoleCounts(citizen: nat, mafia: nat, doctor: nat, detective: nat,
                                   vigilante: nat, mayor: nat, jester: nat)

  const NoCounts: RoleCounts := RoleCounts(0, 0, 0, 0, 0, 0, 0)

  function Count(c: RoleCounts, r: Role): nat
  {
    match r
    case Citizen => c.citizen
    case Mafia => c.mafia
    case Doctor => c.doctor
    case Detective => c.detective
    case Vigilante => c.vigilante
    case Mayor => c.mayor
    case Jester => c.jester
  }

  /** The sum of a per-role counter over the seven roles. */
  function RoleSum(c: RoleCounts): nat
  {
    c.citizen + c.mafia + c.doctor + c.detective + c.vigilante + c.mayor + c.jester
  }

  /** The counters with the one of `r` increased by one: only that count moves, and the sum grows by one. */
  function Bump(c: RoleCounts, r: Role): (d: RoleCounts)
    ensures Count(d, r) == Count(c, r) + 1
    ensures forall q :: q != r ==> Count(d, q) == Count(c, q)
    ensures RoleSum(d) == RoleSum(c) + 1
  {
    match r
    case Citizen => c.(citizen := c.citizen + 1)
    case Mafia => c.(mafia := c.mafia + 1)
    case Doctor => c.(doctor := c.doctor + 1)
    case Detective => c.(detective := c.detective + 1)
    case Vigilante => c.(vigilante := c.vigilante + 1)
    case Mayor => c.(mayor := c.mayor + 1)
    case Jester => c.(jester := c.jester + 1)
  }

  /** Role by role, `w` does not exceed `g`. */
  predicate AtMost(w: RoleCounts, g: RoleCounts)
  {
    w.citizen <= g.citizen && w.mafia <= g.mafia && w.doctor <= g.doctor && w.detective <= g.detective &&
    w.vigilante <= g.vigilante && w.mayor <= g.mayor && w.jester <= g.jester
  }

  /** Counting a game for a role, and a win for it when won, keeps wins within games and the sums in step. */
  lemma BumpKeepsAtMost(w: RoleCounts, g: RoleCounts, role: Option<Role>, isWin: bool)
    requires AtMost(w, g)
    ensures var g' := if role.Some? then Bump(g, role.value) else g;
      var w' := if role.Some? && isWin then Bump(w, role.value) else w;
      AtMost(w', g') && RoleSum(g') <= RoleSum(g) + 1 && RoleSum(w') <= RoleSum(w) + (if isWin then 1 else 0)
  {
    if role.Some? {
      match role.value
      case Citizen =>
      case Mafia =>
      case Doctor =>
      case Detective =>
      case Vigilante =>
      case Mayor =>
      case Jester =>
    }
  }

  lemma AtMostCount(w: RoleCounts, g: RoleCounts, r: Role)
    requires AtMost(w, g)
    ensures Count(w, r) <= Count(g, r)
  {
  }

  class UserStatistics {
    const userId: Id
    var totalGamesPlayed: nat
    var gamesWon: nat
    var gamesLost: nat
    var gamesDrawn: nat
    var gamesAs: RoleCounts
    var winsAs: RoleCounts
    var timesSurvived: nat
    var timesKilledByMafia: nat
    var timesLynched: nat
    var timesKilledByVigilante: nat
    var totalVotesCast: nat
    var correctVotes: nat
    var incorrectVotes: nat
    var timesVotedOut: nat
    var successfulHeals: nat
    var failedHeals: nat
    var successfulInvestigations: nat
    var mafiaKillsMade: nat
    var vigilanteKillsMade: nat
    var totalPlaytimeSeconds: int
    var averageGameDuration: real

    /**
     * The counters agree with each other: every game was won, lost or drawn;
     * a game counts for at most one role and a role is never won more often
     * than played; every vote was correct or incorrect; the average covers
     * the whole play time.
     */
    ghost predicate Valid()
      reads this
    {
      totalGamesPlayed == gamesWon + gamesLost + gamesDrawn &&
      AtMost(winsAs, gamesAs) &&
      RoleSum(gamesAs) <= totalGamesPlayed && RoleSum(winsAs) <= gamesWon &&
      timesSurvived <= totalGamesPlayed &&
      totalVotesCast == correctVotes + incorrectVotes &&
      (totalGamesPlayed > 0 ==> averageGameDuration == Average(totalPlaytimeSeconds, totalGamesPlayed))
    }

    constructor (userId: Id)
      ensures this.userId == userId && Valid()
      ensures totalGamesPlayed == 0 && gamesWon == 0 && gamesLost == 0 && gamesDrawn == 0
      ensures gamesAs == NoCounts && winsAs == NoCounts && timesSurvived == 0
      ensures timesKilledByMafia == 0 && timesLynched == 0 && timesKilledByVigilante == 0
      ensures totalVotesCast == 0 && correctVotes == 0 && incorrectVotes == 0 && timesVotedOut == 0
      ensures successfulHeals == 0 && failedHeals == 0 && successfulInvestigations == 0
      ensures mafiaKillsMade == 0 && vigilanteKillsMade == 0
      ensures totalPlaytimeSeconds == 0 && averageGameDuration == 0.0
    {
      this.userId := userId;
      totalGamesPlayed := 0;
      gamesWon := 0;
      gamesLost := 0;
      gamesDrawn := 0;
      gamesAs := NoCounts;
      winsAs := NoCounts;
      timesSurvived := 0;
      timesKilledByMafia := 0;
      timesLynched := 0;
      timesKilledByVigilante := 0;
      totalVotesCast := 0;
      correctVotes := 0;
      incorrectVotes := 0;
      timesVotedOut := 0;
      successfulHeals := 0;
      failedHeals := 0;
      successfulInvestigations := 0;
      mafiaKillsMade := 0;
      vigilanteKillsMade := 0;
      totalPlaytimeSeconds := 0;
      averageGameDuration := 0.0;
    }

    /**
     * Counts one finished game. Only `Some(true)` is a win: a draw, passed as
     * `None`, is counted as a loss, so `gamesDrawn` never moves. The role's
     * counters move only for one of the seven role names.
     */
    method UpdateGameStats(roleName: string, won: Option<bool>, gameDuration: int, survived: bool)
      requires Valid()
      modifies this`totalGamesPlayed, this`gamesWon, this`gamesLost, this`timesSurvived
      modifies this`gamesAs, this`winsAs, this`totalPlaytimeSeconds, this`averageGameDuration
      ensures Valid()
      ensures totalGamesPlayed == old(totalGamesPlayed) + 1
      ensures won == Some(true) ==> gamesWon == old(gamesWon) + 1 && gamesLost == old(gamesLost)
      ensures won != Some(true) ==> gamesLost == old(gamesLost) + 1 && gamesWon == old(gamesWon)
      ensures timesSurvived == old(timesSurvived) + (if survived then 1 else 0)
      ensures RoleOfName(roleName).None? ==> gamesAs == old(gamesAs) && winsAs == old(winsAs)
      ensures RoleOfName(roleName).Some? ==>
        var r := RoleOfName(roleName).value;
        gamesAs == Bump(old(gamesAs), r) &&
        winsAs == (if won == Some(true) then Bump(old(winsAs), r) else old(winsAs))
      ensures totalPlaytimeSeconds == old(totalPlaytimeSeconds) + gameDuration
      ensures averageGameDuration == Average(totalPlaytimeSeconds, totalGamesPlayed)
    {
      var role := RoleOfName(roleName);
      CountGame(role, won, gameDuration, survived);
    }

    /** The counting of UpdateGameStats once the role name has been resolved. */
    method CountGame(role: Option<Role>, won: Option<bool>, gameDuration: int, survived: bool)
      requires Valid()
      modifies this`totalGamesPlayed, this`gamesWon, this`gamesLost, this`timesSurvived
      modifies this`gamesAs, this`winsAs, this`totalPlaytimeSeconds, this`averageGameDuration
      ensures Valid()
      ensures totalGamesPlayed == old(totalGamesPlayed) + 1
      ensures won == Some(true) ==> gamesWon == old(gamesWon) + 1 && gamesLost == old(gamesLost)
      ensures won != Some(true) ==> gamesLost == old(gamesLost) + 1 && gamesWon == old(gamesWon)
      ensures timesSurvived == old(timesSurvived) + (if survived then 1 else 0)
      ensures role.None? ==> gamesAs == old(gamesAs) && winsAs == old(winsAs)
      ensures role.Some? ==>
        gamesAs == Bump(old(gamesAs), role.value) &&
        winsAs == (if won == Some(true) then Bump(old(winsAs), role.value) else old(winsAs))
      ensures totalPlaytimeSeconds == old(totalPlaytimeSeconds) + gameDuration
      ensures averageGameDuration == Average(totalPlaytimeSeconds, totalGamesPlayed)
    {
      var isWin := won == Some(true);
      var g := if role.Some? then Bump(gamesAs, role.value) else gamesAs;
      var w := if role.Some? && isWin then Bump(winsAs, role.value) else winsAs;
      BumpKeepsAtMost(winsAs, gamesAs, role, isWin);
      totalGamesPlayed := totalGamesPlayed + 1;
      gamesWon := gamesWon + (if isWin then 1 else 0);
      gamesLost := gamesLost + (if isWin then 0 else 1);
      timesSurvived := timesSurvived + (if survived then 1 else 0);
      gamesAs := g;
      winsAs := w;
      totalPlaytimeSeconds := totalPlaytimeSeconds + gameDuration;
      UpdateAverageGameDuration();
    }

    /** After at least one game the average is the play time per game; before, it is left alone. */
    method UpdateAverageGameDuration()
      modifies this`averageGameDuration
      ensures totalGamesPlayed > 0 ==> averageGameDuration == Average(totalPlaytimeSeconds, totalGamesPlayed)
      ensures totalGamesPlayed == 0 ==> averageGameDuration == old(averageGameDuration)
    {
      if totalGamesPlayed > 0 {
        averageGameDuration := Average(totalPlaytimeSeconds, totalGamesPlayed);
      }
    }

    /** One of the three death counters moves for its cause name; any other cause changes nothing. */
    method UpdateDeathStats(cause: string)
      modifies this`timesKilledByMafia, this`timesLynched, this`timesKilledByVigilante
      ensures timesKilledByMafia == old(timesKilledByMafia) + (if cause == "mafia_kill" then 1 else 0)
      ensures timesLynched == old(timesLynched) + (if cause == "lynch" then 1 else 0)
      ensures timesKilledByVigilante == old(timesKilledByVigilante) + (if cause == "vigilante_kill" then 1 else 0)
    {
      if cause == "mafia_kill" {
        timesKilledByMafia := timesKilledByMafia + 1;
      } else if cause == "lynch" {
        timesLynched := timesLynched + 1;
      } else if cause == "vigilante_kill" {
        timesKilledByVigilante := timesKilledByVigilante + 1;
      }
    }

    method UpdateVoteStats(wasCorrect: bool)
      requires Valid()
      modifies this`totalVotesCast, this`correctVotes, this`incorrectVotes
      ensures Valid()
      ensures totalVotesCast == old(totalVotesCast) + 1
      ensures wasCorrect ==> correctVotes == old(correctVotes) + 1 && incorrectVotes == old(incorrectVotes)
      ensures !wasCorrect ==> incorrectVotes == old(incorrectVotes) + 1 && correctVotes == old(correctVotes)
    {
      totalVotesCast := totalVotesCast + 1;
      if wasCorrect {
        correctVotes := correctVotes + 1;
      } else {
        incorrectVotes := incorrectVotes + 1;
      }
    }

    /**
     * One action counter moves for a heal (successful or failed), a
     * successful investigation, a mafia kill or a vigilante kill; a failed
     * investigation and any other action change nothing.
     */
    method UpdateActionStats(actionType: string, wasSuccessful: bool)
      modifies this`successfulHeals, this`failedHeals, this`successfulInvestigations
      modifies this`mafiaKillsMade, this`vigilanteKillsMade
      ensures successfulHeals == old(successfulHeals) + (if actionType == "heal" && wasSuccessful then 1 else 0)
      ensures failedHeals == old(failedHeals) + (if actionType == "heal" && !wasSuccessful then 1 else 0)
      ensures successfulInvestigations == old(successfulInvestigations) + (if actionType == "investigate" && wasSuccessful then 1 else 0)
      ensures mafiaKillsMade == old(mafiaKillsMade) + (if actionType == "mafia_kill" then 1 else 0)
      ensures vigilanteKillsMade == old(vigilanteKillsMade) + (if actionType == "vigilante_kill" then 1 else 0)
    {
      if actionType == "heal" {
        if wasSuccessful {
          successfulHeals := successfulHeals + 1;
        } else {
          failedHeals := failedHeals + 1;
        }
      } else if actionType == "investigate" {
        if wasSuccessful {
          successfulInvestigations := successfulInvestigations + 1;
        }
      } else if actionType == "mafia_kill" {
        mafiaKillsMade := mafiaKillsMade + 1;
      } else if actionType == "vigilante_kill" {
        vigilanteKillsMade := vigilanteKillsMade + 1;
      }
    }

    /** The percentage of games won; 0 before the first game, at most 100 under the invariant. */
    function GetWinRate(): (r: real)
      reads this
      ensures totalGamesPlayed == 0 ==> r == 0.0
      ensures totalGamesPlayed > 0 ==> r * (totalGamesPlayed as real) == (gamesWon as real) * 100.0
      ensures Valid() ==> 0.0 <= r <= 100.0
    {
      if totalGamesPlayed == 0 then 0.0 else UserModel.Percentage(gamesWon, totalGamesPlayed)
    }

    /** The percentage of games survived; 0 before the first game, at most 100 under the invariant. */
    function GetSurvivalRate(): (r: real)
      reads this
      ensures totalGamesPlayed == 0 ==> r == 0.0
      ensures totalGamesPlayed > 0 ==> r * (totalGamesPlayed as real) == (timesSurvived as real) * 100.0
      ensures Valid() ==> 0.0 <= r <= 100.0
    {
      if totalGamesPlayed == 0 then 0.0 else UserModel.Percentage(timesSurvived, totalGamesPlayed)
    }

    /** The percentage of correct votes; 0 before the first vote, at most 100 under the invariant. */
    function GetVoteAccuracy(): (r: real)
      reads this
      ensures totalVotesCast == 0 ==> r == 0.0
      ensures totalVotesCast > 0 ==> r * (totalVotesCast as real) == (correctVotes as real) * 100.0
      ensures Valid() ==> 0.0 <= r <= 100.0
    {
      if totalVotesCast == 0 then 0.0 else UserModel.Percentage(correctVotes, totalVotesCast)
    }

    /** The win percentage of one role: 0 for a role never played. */
    function RoleWinRate(r: Role): (rate: real)
      requires Valid()
      reads this
      ensures Count(gamesAs, r) == 0 ==> rate == 0.0
      ensures Count(gamesAs, r) > 0 ==> rate * (Count(gamesAs, r) as real) == (Count(winsAs, r) as real) * 100.0
      ensures 0.0 <= rate <= 100.0
      ensures rate > 0.0 <==> Count(winsAs, r) > 0
    {
      AtMostCount(winsAs, gamesAs, r);
      if Count(gamesAs, r) == 0 then 0.0 else UserModel.Percentage(Count(winsAs, r), Count(gamesAs, r))
    }

    /** The win percentage for a role name; a name that is no role gives 0. */
    function GetRoleWinRate(roleName: string): (rate: real)
      requires Valid()
      reads this
      ensures RoleOfName(roleName).None? ==> rate == 0.0
      ensures RoleOfName(roleName).Some? ==> rate == RoleWinRate(RoleOfName(roleName).value)
      ensures 0.0 <= rate <= 100.0
    {
      var r := RoleOfName(roleName);
      if r.None? then 0.0 else RoleWinRate(r.value)
    }

    /**
     * The most played role, the earliest in the listing order on a tie, or
     * None when no game was played in any role.
     */
    function GetFavoriteRole(): (fav: Option<Role>)
      requires Valid()
      reads this
      ensures fav.None? <==> forall r :: Count(gamesAs, r) == 0
      ensures fav.Some? ==> Count(gamesAs, fav.value) > 0 && forall r :: Count(gamesAs, r) <= Count(gamesAs, fav.value)
      ensures fav.Some? ==> forall i :: 0 <= i < |RoleOrder| && RoleOrder[i] == fav.value ==>
        forall j :: 0 <= j < i ==> Count(gamesAs, RoleOrder[j]) < Count(gamesAs, fav.value)
    {
      var best := FirstMax(RoleOrder, gamesAs);
      forall r: Role ensures Count(gamesAs, r) <= Count(gamesAs, best) {
        RoleListed(r);
      }
      if Count(gamesAs, best) > 0 then Some(best) else None
    }

    /**
     * Walks the roles in order and keeps the first one whose win rate is
     * strictly above the best so far, starting from 0: the result is a role
     * with the highest rate, earlier roles all below it, or (None, 0) when no
     * role has a positive rate.
     */
    method GetBestRole() returns (best: Option<Role>, bestRate: real)
      requires Valid()
      ensures best.None? ==> bestRate == 0.0 && forall r :: RoleWinRate(r) == 0.0
      ensures best.Some? ==> bestRate == RoleWinRate(best.value) && bestRate > 0.0
      ensures best.Some? ==> forall r :: RoleWinRate(r) <= bestRate
      ensures best.Some? ==> forall i :: 0 <= i < |RoleOrder| && RoleOrder[i] == best.value ==>
        forall j :: 0 <= j < i ==> RoleWinRate(RoleOrder[j]) < bestRate
    {
      best := None;
      bestRate := 0.0;
      var k := 0;
      while k < |RoleOrder|
        invariant 0 <= k <= |RoleOrder|
        invariant bestRate >= 0.0
        invariant forall j :: 0 <= j < k ==> RoleWinRate(RoleOrder[j]) <= bestRate
        invariant best.None? ==> bestRate == 0.0
        invariant best.Some? ==> bestRate == RoleWinRate(best.value) && bestRate > 0.0
        invariant best.Some? ==> exists i :: (0 <= i < k && RoleOrder[i] == best.value &&
          forall j :: 0 <= j < i ==> RoleWinRate(RoleOrder[j]) < bestRate)
      {
        var rate := RoleWinRate(RoleOrder[k]);
        if rate > bestRate {
          bestRate := rate;
          best := Some(RoleOrder[k]);
        }
        k := k + 1;
      }
      forall r: Role ensures RoleWinRate(r) <= bestRate {
        RoleListed(r);
      }
      OrderPositions(best);
    }
  }

  /** The play time per game; multiplied back by the number of games it gives the whole play time. */
  function Average(playtime: int, games: nat): (avg: real)
    requires games > 0
    ensures avg * (games as real) == playtime as real
  {
    (playtime as real) / (games as real)
  }

  /** Each role sits at one position of the listing order. */
  lemma OrderPositions(best: Option<Role>)
    ensures forall i, j :: 0 <= i < |RoleOrder| && 0 <= j < |RoleOrder| && RoleOrder[i] == RoleOrder[j] ==> i == j
  {
  }

  /**
   * The first element of `rs` with the largest count: every element's count
   * is at most its count, and every element before it has a smaller count.
   */
  function FirstMax(rs: seq<Role>, c: RoleCounts): (best: Role)
    requires |rs| > 0
    ensures best in rs
    ensures forall i :: 0 <= i < |rs| ==> Count(c, rs[i]) <= Count(c, best)
    ensures exists i :: 0 <= i < |rs| && rs[i] == best && forall j :: 0 <= j < i ==> Count(c, rs[j]) < Count(c, best)
  {
    if |rs| == 1 then rs[0]
    else
      var rest := FirstMax(rs[1..], c);
      assert forall i :: 1 <= i < |rs| ==> rs[i] == rs[1..][i - 1];
      if Count(c, rs[0]) >= Count(c, rest) then rs[0]
      else
        ghost var i :| 0 <= i < |rs[1..]| && rs[1..][i] == rest && forall j :: 0 <= j < i ==> Count(c, rs[1..][j]) < Count(c, rest);
        assert rs[i + 1] == rest;
        rest
  }
}
