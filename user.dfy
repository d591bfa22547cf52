/**
 * A registered user (models/user.py): the online flag and the basic game
 * counters kept on the user row.
 */
module UserModel {
  import opened Wrappers
  import opened PlayerModel

  class User {
    const id: Id
    var username: string
    var displayName: string
    var isActive: bool
    var isOnline: bool
    var lastSeen: Option<int>
    var totalGames: nat
    var gamesWon: nat
    var gamesLost: nat

    /** Every counted game was either won or lost. */
    ghost predicate Valid()
      reads this
    {
      totalGames == gamesWon + gamesLost
    }

    constructor (id: Id, username: string, displayName: string, now: int)
      ensures this.id == id && this.username == username && this.displayName == displayName
      ensures isActive && !isOnline && lastSeen == Some(now)
      ensures totalGames == 0 && gamesWon == 0 && gamesLost == 0
      ensures Valid()
    {
      this.id := id;
      this.username := username;
      this.displayName := displayName;
      isActive := true;
      isOnline := false;
      lastSeen := Some(now);
      totalGames := 0;
      gamesWon := 0;
      gamesLost := 0;
    }

    method UpdateLastSeen(now: int)
      modifies this`lastSeen, this`isOnline
      ensures isOnline && lastSeen == Some(now)
    {
      lastSeen := Some(now);
      isOnline := true;
    }

    method SetOffline(now: int)
      modifies this`lastSeen, this`isOnline
      ensures !isOnline && lastSeen == Some(now)
    {
      isOnline := false;
      lastSeen := Some(now);
    }

    /**
     * The percentage of games won, 0 before the first game; under the
     * invariant it lies between 0 and 100.
     */
    function GetWinRate(): (r: real)
      reads this
      ensures totalGames == 0 ==> r == 0.0
      ensures totalGames > 0 ==> r * (totalGames as real) == (gamesWon as real) * 100.0
      ensures Valid() ==> 0.0 <= r <= 100.0
    {
      if totalGames == 0 then 0.0
      else Percentage(gamesWon, totalGames)
    }

    /** Counts one finished game as won or lost. */
    method UpdateGameStats(won: bool)
      requires Valid()
      modifies this`totalGames, this`gamesWon, this`gamesLost
      ensures Valid()
      ensures totalGames == old(totalGames) + 1
      ensures won ==> gamesWon == old(gamesWon) + 1 && gamesLost == old(gamesLost)
      ensures !won ==> gamesLost == old(gamesLost) + 1 && gamesWon == old(gamesWon)
    {
      totalGames := totalGames + 1;
      if won {
        gamesWon := gamesWon + 1;
      } else {
        gamesLost := gamesLost + 1;
      }
    }
  }

  /**
   * `part / whole * 100` as an exact ratio (the source computes it in floating
   * point): it scales back to `part`, and it stays within 0..100 when the part
   * does not exceed the whole.
   */
  function Percentage(part: nat, whole: nat): (r: real)
    requires whole > 0
    ensures r * (whole as real) == (part as real) * 100.0
    ensures r >= 0.0
    ensures r > 0.0 <==> part > 0
    ensures part <= whole ==> r <= 100.0
  {
    var q := (part as real) / (whole as real);
    assert q * (whole as real) == part as real;
    assert part <= whole ==> q <= 1.0;
    q * 100.0
  }
}
