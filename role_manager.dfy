/**
 * Role distribution, balance validation, random assignment and the ability
 * and target filters of the role manager (game/role_manager.py).
 */
module RoleManagement {
  import opened Wrappers
  import opened PlayerModel
  import opened GameModel

  /** One entry of a distribution: how many players get `role`. */
  datatype RoleCount = RC(role: Role, count: int)

  /**
   * A distribution lists role counts in dictionary order; a dictionary
   * has no repeated keys.
   */
  type Distribution = seq<RoleCount>

  predicate DistinctRoles(d: Distribution)
  {
    forall i, j :: 0 <= i < j < |d| ==> d[i].role != d[j].role
  }

  /** The sum of all counts. */
  function Total(d: Distribution): int
  {
    if d == [] then 0 else d[0].count + Total(d[1..])
  }

  /** The count recorded for `r`, or 0 when `r` is absent. */
  function CountOf(d: Distribution, r: Role): int
  {
    if d == [] then 0
    else if d[0].role == r then d[0].count
    else CountOf(d[1..], r)
  }

  predicate Lists(d: Distribution, r: Role)
  {
    exists i :: 0 <= i < |d| && d[i].role == r
  }

  lemma {:induction false} TotalConcat(a: Distribution, b: Distribution)
    ensures Total(a + b) == Total(a) + Total(b)
  {
    if a == [] {
      assert a + b == b;
    } else {
      assert (a + b)[0] == a[0];
      assert (a + b)[1..] == a[1..] + b;
      TotalConcat(a[1..], b);
    }
  }

  /** A role that is not listed counts 0. */
  lemma {:induction false} CountOfAbsent(d: Distribution, r: Role)
    requires !Lists(d, r)
    ensures CountOf(d, r) == 0
  {
    if d != [] {
      assert forall i :: 0 <= i < |d[1..]| ==> d[1..][i] == d[i + 1];
      CountOfAbsent(d[1..], r);
    }
  }

  /** The fixed distributions for 4, 5, ..., 20 players, in that order. */
  const DefaultDistributions: seq<Distribution> := [
    [RC(Mafia, 1), RC(Citizen, 2), RC(Doctor, 1)],
    [RC(Mafia, 1), RC(Citizen, 3), RC(Doctor, 1)],
    [RC(Mafia, 2), RC(Citizen, 3), RC(Doctor, 1)],
    [RC(Mafia, 2), RC(Citizen, 3), RC(Doctor, 1), RC(Detective, 1)],
    [RC(Mafia, 2), RC(Citizen, 4), RC(Doctor, 1), RC(Detective, 1)],
    [RC(Mafia, 2), RC(Citizen, 5), RC(Doctor, 1), RC(Detective, 1)],
    [RC(Mafia, 3), RC(Citizen, 5), RC(Doctor, 1), RC(Detective, 1)],
    [RC(Mafia, 3), RC(Citizen, 5), RC(Doctor, 1), RC(Detective, 1), RC(Vigilante, 1)],
    [RC(Mafia, 3), RC(Citizen, 6), RC(Doctor, 1), RC(Detective, 1), RC(Vigilante, 1)],
    [RC(Mafia, 3), RC(Citizen, 7), RC(Doctor, 1), RC(Detective, 1), RC(Vigilante, 1)],
    [RC(Mafia, 4), RC(Citizen, 7), RC(Doctor, 1), RC(Detective, 1), RC(Vigilante, 1)],
    [RC(Mafia, 4), RC(Citizen, 8), RC(Doctor, 1), RC(Detective, 1), RC(Vigilante, 1)],
    [RC(Mafia, 4), RC(Citizen, 8), RC(Doctor, 1), RC(Detective, 1), RC(Vigilante, 1), RC(Mayor, 1)],
    [RC(Mafia, 4), RC(Citizen, 9), RC(Doctor, 1), RC(Detective, 1), RC(Vigilante, 1), RC(Mayor, 1)],
    [RC(Mafia, 5), RC(Citizen, 9), RC(Doctor, 1), RC(Detective, 1), RC(Vigilante, 1), RC(Mayor, 1)],
    [RC(Mafia, 5), RC(Citizen, 10), RC(Doctor, 1), RC(Detective, 1), RC(Vigilante, 1), RC(Mayor, 1)],
    [RC(Mafia, 5), RC(Citizen, 10), RC(Doctor, 1), RC(Detective, 1), RC(Vigilante, 1), RC(Mayor, 1), RC(Jester, 1)]
  ]

  /** The table entry for `n` players; None for a count the table lacks. */
  function DefaultDistribution(n: int): Option<Distribution>
  {
    if 4 <= n <= 20 then Some(DefaultDistributions[n - 4]) else None
  }

  /** The outcome of the balance check; every value but `Balanced` names the first rule broken. */
  datatype Balance =
    | Balanced
    | TooFewPlayers
    | TooManyPlayers
    | NoMafia
    | MafiaNotMinority
    | MafiaRatioTooHigh
    | MafiaRatioTooLow

  /**
   * The balance rules, checked in order: 4 to 20 players, at least one
   * mafia, fewer mafia than others, and a mafia share between 20% and 40%.
   * The share is compared by cross-multiplication, which is exact because
   * the total is at most 20 by the time the share is examined.
   */
  function ValidateRoleDistribution(d: Distribution): (b: Balance)
    ensures b == Balanced <==>
      var t := Total(d); var m := CountOf(d, Mafia);
      4 <= t <= 20 && 1 <= m && m < t - m && 5 * m <= 2 * t && t <= 5 * m
    ensures b == TooFewPlayers <==> Total(d) < 4
    ensures b == TooManyPlayers <==> Total(d) > 20
    ensures b == Balanced ==> 1 <= CountOf(d, Mafia) < Total(d)
  {
    var t := Total(d);
    var m := CountOf(d, Mafia);
    if t < 4 then TooFewPlayers
    else if t > 20 then TooManyPlayers
    else if m == 0 then NoMafia
    else if m >= t - m then MafiaNotMinority
    else if 5 * m > 2 * t then MafiaRatioTooHigh
    else if 5 * m < t then MafiaRatioTooLow
    else Balanced
  }

  /** A table entry that lists each role once, sums to its player count and is balanced. */
  predicate EntryBalanced(n: int)
  {
    DefaultDistribution(n).Some? && DistinctRoles(DefaultDistribution(n).value) &&
    Total(DefaultDistribution(n).value) == n && ValidateRoleDistribution(DefaultDistribution(n).value) == Balanced
  }

  // One lemma per table entry keeps each proof small.
  lemma Entry4Balanced() ensures EntryBalanced(4) {}
  lemma Entry5Balanced() ensures EntryBalanced(5) {}
  lemma Entry6Balanced() ensures EntryBalanced(6) {}
  lemma Entry7Balanced() ensures EntryBalanced(7) {}
  lemma Entry8Balanced() ensures EntryBalanced(8) {}
  lemma Entry9Balanced() ensures EntryBalanced(9) {}
  lemma Entry10Balanced() ensures EntryBalanced(10) {}
  lemma Entry11Balanced() ensures EntryBalanced(11) {}
  lemma Entry12Balanced() ensures EntryBalanced(12) {}
  lemma Entry13Balanced() ensures EntryBalanced(13) {}
  lemma Entry14Balanced() ensures EntryBalanced(14) {}
  lemma Entry15Balanced() ensures EntryBalanced(15) {}
  lemma Entry16Balanced() ensures EntryBalanced(16) {}
  lemma Entry17Balanced() ensures EntryBalanced(17) {}
  lemma Entry18Balanced() ensures EntryBalanced(18) {}
  lemma Entry19Balanced() ensures EntryBalanced(19) {}
  lemma Entry20Balanced() ensures EntryBalanced(20) {}

  /** Entry by entry: the table covers exactly 4 to 20 players, and each entry lists each role once, sums to its key and is balanced. */
  lemma DefaultDistributionsBalanced()
    ensures forall n :: DefaultDistribution(n).Some? <==> 4 <= n <= 20
    ensures forall n :: 4 <= n <= 20 ==> EntryBalanced(n)
  {
    Entry4Balanced();
    Entry5Balanced();
    Entry6Balanced();
    Entry7Balanced();
    Entry8Balanced();
    Entry9Balanced();
    Entry10Balanced();
    Entry11Balanced();
    Entry12Balanced();
    Entry13Balanced();
    Entry14Balanced();
    Entry15Balanced();
    Entry16Balanced();
    Entry17Balanced();
    Entry18Balanced();
    Entry19Balanced();
    Entry20Balanced();
    forall n | 4 <= n <= 20
      ensures EntryBalanced(n)
    {
      assert n in {4, 5, 6, 7, 8, 9, 10, 11, 12, 13, 14, 15, 16, 17, 18, 19, 20};
    }
  }

  /** The table entry for one player count: present exactly for 4 to 20 players, and then balanced. */
  lemma DefaultEntry(n: int)
    ensures DefaultDistribution(n).Some? <==> 4 <= n <= 20
    ensures 4 <= n <= 20 ==> EntryBalanced(n)
  {
    DefaultDistributionsBalanced();
  }

  function Min(a: int, b: int): int { if a <= b then a else b }
  function Max(a: int, b: int): int { if a >= b then a else b }

  /** The number of mafia in the automatic distribution; at least one. */
  function AutomaticMafiaCount(n: int): (m: int)
    ensures m == Max(1, Min(n / 3, n / 4 + 1))
    ensures n >= 4 ==> m == Min(n / 3, n / 4 + 1) >= 1
  {
    Max(1, Min(n / 3, n / 4 + 1))
  }

  /** The counts of the automatic distribution, role by role. */
  datatype Slots = Slots(mafia: int, doctor: int, detective: int, vigilante: int, mayor: int, citizens: int)

  /**
   * The slots left after the mafia are handed out in priority order: one
   * Doctor if more than 2 remain, one Detective if more than 3 then remain,
   * one Vigilante above 5, one Mayor above 7, and citizens for the rest.
   */
  function AutomaticSlots(n: int): Slots
  {
    var m := AutomaticMafiaCount(n);
    var r0 := n - m;
    var dr := if r0 > 2 then 1 else 0;
    var de := if r0 - dr > 3 then 1 else 0;
    var vi := if r0 - dr - de > 5 then 1 else 0;
    var ma := if r0 - dr - de - vi > 7 then 1 else 0;
    Slots(m, dr, de, vi, ma, r0 - dr - de - vi - ma)
  }

  /** An entry for a role added at most once: present with count 1, or absent. */
  function Optional(r: Role, c: int): Distribution
  {
    if c == 0 then [] else [RC(r, c)]
  }

  /** The slots laid out in the order the generator inserts them. */
  function Layout(s: Slots): Distribution
  {
    [RC(Mafia, s.mafia)] + (Optional(Doctor, s.doctor) + (Optional(Detective, s.detective)
      + (Optional(Vigilante, s.vigilante) + (Optional(Mayor, s.mayor) + [RC(Citizen, s.citizens)]))))
  }

  lemma OptionalFront(r: Role, c: int, rest: Distribution, x: Role)
    ensures Total(Optional(r, c) + rest) == c + Total(rest)
    ensures CountOf(Optional(r, c) + rest, x) == if x == r && c != 0 then c else CountOf(rest, x)
    ensures Lists(Optional(r, c) + rest, x) <==> (x == r && c != 0) || Lists(rest, x)
  {
    if c != 0 {
      assert ([RC(r, c)] + rest)[1..] == rest;
      assert forall i :: 1 <= i < |rest| + 1 ==> ([RC(r, c)] + rest)[i] == rest[i - 1];
    } else {
      assert Optional(r, c) + rest == rest;
    }
  }

  /** The layout lists each role once, with the slot's count, and sums the slots. */
  lemma LayoutCounts(s: Slots, x: Role)
    requires s.doctor in {0, 1} && s.detective in {0, 1} && s.vigilante in {0, 1} && s.mayor in {0, 1}
    ensures DistinctRoles(Layout(s))
    ensures Total(Layout(s)) == s.mafia + s.doctor + s.detective + s.vigilante + s.mayor + s.citizens
    ensures CountOf(Layout(s), x) == match x
      case Mafia => s.mafia
      case Doctor => s.doctor
      case Detective => s.detective
      case Vigilante => s.vigilante
      case Mayor => s.mayor
      case Citizen => s.citizens
      case Jester => 0
  {
    var e := [RC(Citizen, s.citizens)];
    var l4 := Optional(Mayor, s.mayor) + e;
    var l3 := Optional(Vigilante, s.vigilante) + l4;
    var l2 := Optional(Detective, s.detective) + l3;
    var l1 := Optional(Doctor, s.doctor) + l2;
    OptionalFront(Mayor, s.mayor, e, x);
    OptionalFront(Vigilante, s.vigilante, l4, x);
    OptionalFront(Detective, s.detective, l3, x);
    OptionalFront(Doctor, s.doctor, l2, x);
    assert Layout(s) == [RC(Mafia, s.mafia)] + l1;
    assert Layout(s)[1..] == l1;
    DistinctLayout(s);
  }

  /** Each role appears at most once in the layout. */
  lemma DistinctLayout(s: Slots)
    ensures DistinctRoles(Layout(s))
  {
    var d := Layout(s);
    forall i, j | 0 <= i < j < |d|
      ensures d[i].role != d[j].role
    {
      assert Rank(d[i].role) < Rank(d[j].role) by {
        RanksIncrease(s);
      }
    }
  }

  /** The position of a role in the generator's insertion order. */
  function Rank(r: Role): nat
  {
    match r
    case Mafia => 0
    case Doctor => 1
    case Detective => 2
    case Vigilante => 3
    case Mayor => 4
    case Citizen => 5
    case Jester => 6
  }

  lemma RanksIncrease(s: Slots)
    ensures forall i, j :: 0 <= i < j < |Layout(s)| ==> Rank(Layout(s)[i].role) < Rank(Layout(s)[j].role)
  {
  }

  /**
   * The generated distribution for player counts outside the table; None
   * stands for the error raised below 4 players.
   */
  function AutomaticDistribution(n: int): (r: Option<Distribution>)
    ensures r.None? <==> n < 4
    ensures r.Some? ==> DistinctRoles(r.value) && Total(r.value) == n
    ensures r.Some? ==> CountOf(r.value, Mafia) == Min(n / 3, n / 4 + 1) >= 1
  {
    if n < 4 then None
    else
      LayoutCounts(AutomaticSlots(n), Mafia);
      Some(Layout(AutomaticSlots(n)))
  }

  /**
   * The special roles of the automatic distribution, each at most once,
   * in priority order: a Mayor only with a Vigilante, a Vigilante only with
   * a Detective, a Detective only with a Doctor; each is added exactly when
   * more slots remain than its threshold after the earlier ones, and the
   * citizens fill the rest.
   */
  lemma AutomaticDistributionPriority(n: int)
    requires n >= 4
    ensures var d := AutomaticDistribution(n).value;
      var m := CountOf(d, Mafia);
      var dr := CountOf(d, Doctor); var de := CountOf(d, Detective);
      var vi := CountOf(d, Vigilante); var ma := CountOf(d, Mayor);
      0 <= ma <= vi <= de <= dr <= 1 &&
      (dr == 1 <==> n - m > 2) &&
      (de == 1 <==> n - m - dr > 3) &&
      (vi == 1 <==> n - m - dr - de > 5) &&
      (ma == 1 <==> n - m - dr - de - vi > 7) &&
      CountOf(d, Citizen) == n - m - dr - de - vi - ma >= 2 &&
      CountOf(d, Jester) == 0
  {
    var s := AutomaticSlots(n);
    LayoutCounts(s, Mafia);
    LayoutCounts(s, Doctor);
    LayoutCounts(s, Detective);
    LayoutCounts(s, Vigilante);
    LayoutCounts(s, Mayor);
    LayoutCounts(s, Citizen);
    LayoutCounts(s, Jester);
    AutomaticDistributionShares(n);
  }

  /**
   * The automatic distribution always meets the minority and share rules,
   * so it is balanced for 4 to 20 players and fails only on the player cap above.
   */
  lemma AutomaticDistributionShares(n: int)
    ensures n >= 4 ==> var m := AutomaticMafiaCount(n); 2 * m < n && 5 * m <= 2 * n && n <= 5 * m
    ensures 4 <= n <= 20 ==> ValidateRoleDistribution(AutomaticDistribution(n).value) == Balanced
    ensures n > 20 ==> ValidateRoleDistribution(AutomaticDistribution(n).value) == TooManyPlayers
  {
    if n >= 4 {
      var q3 := n / 3;
      var q4 := n / 4;
      assert 3 * q3 <= n < 3 * q3 + 3;
      assert 4 * q4 <= n < 4 * q4 + 4;
      var m := AutomaticMafiaCount(n);
      assert m == q3 || m == q4 + 1;
      assert m <= q3 && m <= q4 + 1;
    }
  }

  /**
   * The same distribution built step by step: the remaining slots shrink
   * as each special role is added.
   */
  method GenerateAutomaticDistribution(n: int) returns (r: Option<Distribution>)
    ensures r == AutomaticDistribution(n)
  {
    if n < 4 {
      return None;
    }
    ghost var s := AutomaticSlots(n);
    var mafiaCount := Max(1, Min(n / 3, n / 4 + 1));
    var remaining := n - mafiaCount;
    var distribution := [RC(Mafia, mafiaCount)];
    if remaining > 2 {
      distribution := distribution + [RC(Doctor, 1)];
      remaining := remaining - 1;
    }
    assert distribution == [RC(Mafia, s.mafia)] + Optional(Doctor, s.doctor);
    assert remaining == n - s.mafia - s.doctor;
    if remaining > 3 {
      distribution := distribution + [RC(Detective, 1)];
      remaining := remaining - 1;
    }
    assert distribution == [RC(Mafia, s.mafia)] + Optional(Doctor, s.doctor) + Optional(Detective, s.detective);
    assert remaining == n - s.mafia - s.doctor - s.detective;
    if remaining > 5 {
      distribution := distribution + [RC(Vigilante, 1)];
      remaining := remaining - 1;
    }
    if remaining > 7 {
      distribution := distribution + [RC(Mayor, 1)];
      remaining := remaining - 1;
    }
    distribution := distribution + [RC(Citizen, remaining)];
    assert distribution == [RC(Mafia, s.mafia)] + Optional(Doctor, s.doctor) + Optional(Detective, s.detective)
      + Optional(Vigilante, s.vigilante) + Optional(Mayor, s.mayor) + [RC(Citizen, s.citizens)];
    assert distribution == Layout(s);
    return Some(distribution);
  }

  /** A dictionary is true exactly when it is not empty. */
  predicate Given(custom: Option<Distribution>)
  {
    custom.Some? && custom.value != []
  }

  /**
   * The distribution for `n` players: a given custom one when its counts add
   * up to `n` (and none otherwise), else the table entry, else the automatic
   * one; None stands for the error the source raises.
   */
  function GetRoleDistribution(n: int, custom: Option<Distribution>): (r: Option<Distribution>)
    ensures Given(custom) ==> (r.Some? <==> Total(custom.value) == n) && (r.Some? ==> r.value == custom.value)
    ensures !Given(custom) ==> (r.Some? <==> n >= 4)
    ensures !Given(custom) && 4 <= n <= 20 ==> r == Some(DefaultDistribution(n).value)
    ensures !Given(custom) && n > 20 ==> r == AutomaticDistribution(n)
    ensures r.Some? ==> Total(r.value) == n
  {
    DefaultEntry(n);
    if Given(custom) then
      if Total(custom.value) != n then None else custom
    else if DefaultDistribution(n).Some? then DefaultDistribution(n)
    else AutomaticDistribution(n)
  }

  /** The last-resort distribution: a quarter mafia, a Doctor above four players, citizens for the rest. */
  function FallbackDistribution(n: int): (d: Distribution)
    ensures Total(d) == n && DistinctRoles(d)
  {
    var m := Max(1, n / 4);
    var doctor := if n > 4 then 1 else 0;
    var d := [RC(Mafia, m), RC(Doctor, doctor), RC(Citizen, n - m - doctor)];
    assert d[1..] == [RC(Doctor, doctor), RC(Citizen, n - m - doctor)];
    assert d[1..][1..] == [RC(Citizen, n - m - doctor)];
    assert Total(d[1..][1..]) == n - m - doctor;
    assert Total(d[1..]) == n - m;
    d
  }

  /** What each try of the balanced lookup yields, by player count. */
  lemma BalancedDistributionSteps(n: int)
    ensures 4 <= n <= 20 ==> GetRoleDistribution(n, None) == DefaultDistribution(n) && EntryBalanced(n)
    ensures n > 20 ==>
      GetRoleDistribution(n, None) == AutomaticDistribution(n) && AutomaticDistribution(n).Some? &&
      ValidateRoleDistribution(AutomaticDistribution(n).value) == TooManyPlayers
    ensures n < 4 ==> GetRoleDistribution(n, None).None?
  {
    DefaultDistributionsBalanced();
    AutomaticDistributionShares(n);
  }

  /**
   * The balanced distribution: the table's for 4 to 20 players, and the
   * fallback otherwise, since for more than 20 both tries fail the player
   * cap and for fewer than 4 the lookup itself fails. It always has `n` places.
   */
  function GetBalancedDistribution(n: int): (d: Distribution)
    ensures Total(d) == n
    ensures 4 <= n <= 20 ==> d == DefaultDistribution(n).value && ValidateRoleDistribution(d) == Balanced
    ensures (n < 4 || n > 20) ==> d == FallbackDistribution(n)
  {
    BalancedDistributionSteps(n);
    var first := GetRoleDistribution(n, None);
    if first.None? then FallbackDistribution(n)
    else if ValidateRoleDistribution(first.value) == Balanced then first.value
    else
      match AutomaticDistribution(n)
      case Some(second) => if ValidateRoleDistribution(second) == Balanced then second else FallbackDistribution(n)
      case None => FallbackDistribution(n)
  }

  function Repeat(r: Role, k: int): (s: seq<Role>)
    ensures |s| == Max(0, k) && forall x :: x in s ==> x == r
    decreases k
  {
    if k <= 0 then [] else Repeat(r, k - 1) + [r]
  }

  /**
   * The flat list of roles, entry by entry; a negative count contributes
   * nothing, so the list is never shorter than the total.
   */
  function RoleList(d: Distribution): (s: seq<Role>)
    ensures |s| >= Total(d)
    ensures DistinctRoles(d) ==> forall r :: multiset(s)[r] == Max(0, CountOf(d, r))
  {
    if d == [] then []
    else
      var rest := d[1..];
      var s := Repeat(d[0].role, d[0].count) + RoleList(rest);
      if DistinctRoles(d) then
        assert DistinctRoles(rest) && !Lists(rest, d[0].role) by {
          forall i | 0 <= i < |rest| ensures rest[i] == d[i + 1] { }
        }
        CountOfAbsent(rest, d[0].role);
        MultisetRepeat(d[0].role, d[0].count);
        s
      else s
  }

  lemma {:induction false} RoleListAppend(d: Distribution, e: RoleCount)
    ensures RoleList(d + [e]) == RoleList(d) + Repeat(e.role, e.count)
  {
    if d == [] {
      assert RoleList([e]) == Repeat(e.role, e.count) + RoleList([]);
    } else {
      assert (d + [e])[1..] == d[1..] + [e];
      RoleListAppend(d[1..], e);
    }
  }

  /** Builds the flat list by extending it entry by entry. */
  method BuildRoleList(d: Distribution) returns (roleList: seq<Role>)
    ensures roleList == RoleList(d)
  {
    roleList := [];
    var k := 0;
    while k < |d|
      invariant 0 <= k <= |d|
      invariant roleList == RoleList(d[..k])
    {
      assert d[..k + 1] == d[..k] + [d[k]];
      RoleListAppend(d[..k], d[k]);
      roleList := roleList + Repeat(d[k].role, d[k].count);
      k := k + 1;
    }
    assert d[..|d|] == d;
  }

  lemma MultisetRepeat(r: Role, k: int)
    ensures multiset(Repeat(r, k)) == multiset{}[r := Max(0, k)]
    decreases k
  {
    if k > 0 {
      MultisetRepeat(r, k - 1);
    }
  }

  /** With no negative count, the flat list has exactly `Total(d)` roles. */
  lemma {:induction false} RoleListLength(d: Distribution)
    requires forall i :: 0 <= i < |d| ==> d[i].count >= 0
    ensures |RoleList(d)| == Total(d)
  {
    if d != [] {
      RoleListLength(d[1..]);
    }
  }

  /**
   * Random shuffling, Fisher and Yates' way as Python does it: for i from
   * the end down to 1, swap a[i] with a[j], j drawn from 0..i. The draws
   * are a parameter; once they run out, the remaining swaps are identities.
   */
  method Shuffle(a: array<Role>, draws: seq<nat>)
    modifies a
    ensures multiset(a[..]) == multiset(old(a[..]))
  {
    var i := a.Length - 1;
    var k := 0;
    while i > 0
      invariant i < a.Length
      invariant multiset(a[..]) == multiset(old(a[..]))
      decreases i
    {
      var j := if k < |draws| then draws[k] % (i + 1) else i;
      a[i], a[j] := a[j], a[i];
      i := i - 1;
      k := k + 1;
    }
  }

  /** The roles the players hold, in order. */
  function AssignedRoles(ps: seq<Player>): (s: seq<Role>)
    requires forall i :: 0 <= i < |ps| ==> ps[i].role.Some?
    reads set p | p in ps
    ensures |s| == |ps| && forall i :: 0 <= i < |ps| ==> s[i] == ps[i].role.value
  {
    if ps == [] then [] else AssignedRoles(ps[..|ps| - 1]) + [ps[|ps| - 1].role.value]
  }

  /**
   * Gives every player one role drawn from the flat list of the chosen
   * distribution after shuffling it. It fails, assigning nothing, with
   * fewer than 4 players or a custom distribution whose counts do not add
   * up. On success every player has a role and the multiset of assigned
   * roles is contained in the distribution's, and equal to it when no count
   * is negative.
   */
  method AssignRoles(players: seq<Player>, custom: Option<Distribution>, draws: seq<nat>) returns (ok: bool)
    requires forall i, j :: 0 <= i < j < |players| ==> players[i] != players[j]
    requires Given(custom) ==> DistinctRoles(custom.value)
    modifies players`role
    ensures ok <==> |players| >= 4 && GetRoleDistribution(|players|, custom).Some?
    ensures !ok ==> forall i :: 0 <= i < |players| ==> players[i].role == old(players[i].role)
    ensures ok ==> forall i :: 0 <= i < |players| ==> players[i].role.Some?
    ensures ok ==> var d := GetRoleDistribution(|players|, custom).value;
      multiset(AssignedRoles(players)) <= multiset(RoleList(d)) &&
      ((forall i :: 0 <= i < |d| ==> d[i].count >= 0) ==> multiset(AssignedRoles(players)) == multiset(RoleList(d)))
  {
    var n := |players|;
    if n < 4 {
      return false;
    }
    var distribution := GetRoleDistribution(n, custom);
    if distribution.None? {
      return false;
    }
    var d := distribution.value;
    if forall i :: 0 <= i < |d| ==> d[i].count >= 0 {
      RoleListLength(d);
    }
    DealShuffled(players, d, draws);
    return true;
  }

  /**
   * Builds the flat role list of `d`, shuffles it and gives player i the
   * i-th role: the assigned roles are a sub-multiset of the list, and all
   * of it when the list has exactly one role per player.
   */
  method DealShuffled(players: seq<Player>, d: Distribution, draws: seq<nat>)
    requires forall i, j :: 0 <= i < j < |players| ==> players[i] != players[j]
    requires |RoleList(d)| >= |players|
    modifies players`role
    ensures forall i :: 0 <= i < |players| ==> players[i].role.Some?
    ensures multiset(AssignedRoles(players)) <= multiset(RoleList(d))
    ensures |RoleList(d)| == |players| ==> multiset(AssignedRoles(players)) == multiset(RoleList(d))
  {
    var n := |players|;
    var a := ShuffledRoles(d, draws);
    ghost var shuffled := a[..];
    GiveRoles(players, a);
    assert a[..] == shuffled;
    assert AssignedRoles(players) == shuffled[..n];
    PrefixSubMultiset(shuffled, n);
  }

  /** The flat role list of `d` in a new array, shuffled. */
  method ShuffledRoles(d: Distribution, draws: seq<nat>) returns (a: array<Role>)
    ensures fresh(a) && a.Length == |RoleList(d)| && multiset(a[..]) == multiset(RoleList(d))
  {
    var roleList := BuildRoleList(d);
    a := new Role[|roleList|](i requires 0 <= i < |roleList| => roleList[i]);
    assert a[..] == roleList;
    Shuffle(a, draws);
  }

  lemma PrefixSubMultiset(s: seq<Role>, n: nat)
    requires n <= |s|
    ensures multiset(s[..n]) <= multiset(s)
    ensures n == |s| ==> multiset(s[..n]) == multiset(s)
  {
    assert s == s[..n] + s[n..];
  }

  /** Player i receives role a[i]. */
  method GiveRoles(players: seq<Player>, a: array<Role>)
    requires |players| <= a.Length
    requires forall i, j :: 0 <= i < j < |players| ==> players[i] != players[j]
    modifies players`role
    ensures forall k :: 0 <= k < |players| ==> players[k].role == Some(a[k])
  {
    var i := 0;
    while i < |players|
      invariant 0 <= i <= |players|
      invariant forall k :: 0 <= k < i ==> players[k].role == Some(a[k])
      modifies players`role
    {
      players[i].AssignRole(a[i]);
      i := i + 1;
    }
  }

  datatype Team = MafiaTeam | CitizensTeam | NeutralTeam

  function TeamOf(r: Role): Team
  {
    match r
    case Mafia => MafiaTeam
    case Jester => NeutralTeam
    case _ => CitizensTeam
  }

  datatype Ability =
    | VoteAbility
    | KillAbility
    | HealAbility
    | InvestigateAbility
    | VigilanteKillAbility
    | DoubleVoteAbility
    | OtherAbility(name: string)

  /** The abilities of each role; a player without a role has none. */
  function Abilities(role: Option<Role>): seq<Ability>
  {
    match role
    case None => []
    case Some(Mafia) => [VoteAbility, KillAbility]
    case Some(Doctor) => [VoteAbility, HealAbility]
    case Some(Detective) => [VoteAbility, InvestigateAbility]
    case Some(Vigilante) => [VoteAbility, VigilanteKillAbility]
    case Some(Mayor) => [VoteAbility, DoubleVoteAbility]
    case Some(_) => [VoteAbility]
  }

  predicate IsNightAbility(a: Ability)
  {
    a == KillAbility || a == HealAbility || a == InvestigateAbility || a == VigilanteKillAbility
  }

  predicate IsDayAbility(a: Ability)
  {
    a == VoteAbility || a == DoubleVoteAbility
  }

  /**
   * A living player may use an ability of its role: night abilities at
   * night, voting by day or in the voting phase, and nothing else.
   */
  function CanUseAbility(p: Player, a: Ability, phase: GamePhase): (r: bool)
    reads p
    ensures r ==> p.isAlive && a in Abilities(p.role)
    ensures phase == Night ==> (r <==> p.isAlive && IsNightAbility(a) && a in Abilities(p.role))
    ensures phase == Night && r ==> HasNightAction(p.role)
    ensures (phase == Day || phase == Voting) ==>
      (r <==> p.isAlive && p.role.Some? && (a == VoteAbility || (a == DoubleVoteAbility && p.role == Some(Mayor))))
    ensures phase == Trial || phase == Finished ==> !r
  {
    p.isAlive && a in Abilities(p.role) &&
    ((phase == Night && IsNightAbility(a)) || ((phase == Day || phase == Voting) && IsDayAbility(a)))
  }

  /** The living players of `ps` other than the actor, leaving out mafia when `excludeMafia`. */
  function OtherLiving(ps: seq<Player>, actor: Id, excludeMafia: bool): (r: seq<Player>)
    reads set p | p in ps
    ensures forall q :: q in r ==> q in ps && q.isAlive && q.id != actor && (excludeMafia ==> q.role != Some(Mafia))
    ensures forall i :: 0 <= i < |ps| && ps[i].isAlive && ps[i].id != actor && (excludeMafia ==> ps[i].role != Some(Mafia)) ==> ps[i] in r
  {
    if ps == [] then []
    else
      var q := ps[|ps| - 1];
      OtherLiving(ps[..|ps| - 1], actor, excludeMafia)
        + (if q.isAlive && q.id != actor && (excludeMafia ==> q.role != Some(Mafia)) then [q] else [])
  }

  /**
   * The players the actor may target with a night ability: never the actor
   * itself, never a dead player, and never a mafia member for a kill. An
   * ability the actor cannot use at night, voting included, has no targets.
   */
  function GetRoleTargets(actor: Player, all: seq<Player>, a: Ability): (r: seq<Player>)
    reads actor, set p | p in all
    ensures forall q :: q in r ==> q in all && q.isAlive && q.id != actor.id
    ensures a == KillAbility ==> forall q :: q in r ==> q.role != Some(Mafia)
    ensures !CanUseAbility(actor, a, Night) ==> r == []
    ensures a == VoteAbility || a == DoubleVoteAbility ==> r == []
  {
    if !CanUseAbility(actor, a, Night) then []
    else if a == KillAbility then OtherLiving(all, actor.id, true)
    else if a == HealAbility || a == InvestigateAbility || a == VigilanteKillAbility then OtherLiving(all, actor.id, false)
    else []
  }

  /** When the actor can use the ability at night, every eligible player is a target. */
  lemma RoleTargetsComplete(actor: Player, all: seq<Player>, a: Ability, i: int)
    requires CanUseAbility(actor, a, Night) && 0 <= i < |all|
    requires all[i].isAlive && all[i].id != actor.id && (a == KillAbility ==> all[i].role != Some(Mafia))
    ensures all[i] in GetRoleTargets(actor, all, a)
  {
  }

  /** The living players whose role has the ability, in order. */
  function GetPlayersWithAbility(ps: seq<Player>, a: Ability): (r: seq<Player>)
    reads set p | p in ps
    ensures forall q :: q in r ==> q in ps && q.isAlive && a in Abilities(q.role)
    ensures forall i :: 0 <= i < |ps| ==> (ps[i] in r <==> ps[i].isAlive && a in Abilities(ps[i].role))
  {
    if ps == [] then []
    else
      var q := ps[|ps| - 1];
      var front := ps[..|ps| - 1];
      assert forall i :: 0 <= i < |front| ==> front[i] == ps[i];
      GetPlayersWithAbility(front, a) + (if q.isAlive && a in Abilities(q.role) then [q] else [])
  }

  /** Who holds which role, per team, and how many live. */
  datatype RoleSummary = RoleSummary(
    total: nat,
    roleCounts: map<Role, nat>,
    mafiaTeam: nat,
    citizensTeam: nat,
    neutralTeam: nat,
    alive: nat,
    dead: nat)

  function CountRole(ps: seq<Player>, r: Role): nat
    reads set p | p in ps
  {
    if ps == [] then 0 else CountRole(ps[..|ps| - 1], r) + (if ps[|ps| - 1].role == Some(r) then 1 else 0)
  }

  function CountTeam(ps: seq<Player>, t: Team): nat
    reads set p | p in ps
  {
    if ps == [] then 0
    else CountTeam(ps[..|ps| - 1], t) + (if ps[|ps| - 1].role.Some? && TeamOf(ps[|ps| - 1].role.value) == t then 1 else 0)
  }

  function CountWithRole(ps: seq<Player>): nat
    reads set p | p in ps
  {
    if ps == [] then 0 else CountWithRole(ps[..|ps| - 1]) + (if ps[|ps| - 1].role.Some? then 1 else 0)
  }

  function CountDead(ps: seq<Player>): nat
    reads set p | p in ps
  {
    if ps == [] then 0 else CountDead(ps[..|ps| - 1]) + (if ps[|ps| - 1].isAlive then 0 else 1)
  }

  /** Every player is counted alive or dead, and every player with a role in exactly one team. */
  lemma {:induction false} SummaryCounts(ps: seq<Player>)
    ensures |AlivePlayers(ps)| + CountDead(ps) == |ps|
    ensures CountTeam(ps, MafiaTeam) + CountTeam(ps, CitizensTeam) + CountTeam(ps, NeutralTeam) == CountWithRole(ps)
  {
    if ps != [] {
      SummaryCounts(ps[..|ps| - 1]);
    }
  }

  /**
   * Tallies the players one by one: role counts for the roles present,
   * team counts over the players with a role, and living against dead.
   */
  method GetRoleSummary(ps: seq<Player>) returns (s: RoleSummary)
    ensures s.total == |ps| && s.alive == |AlivePlayers(ps)| && s.dead == CountDead(ps)
    ensures s.alive + s.dead == s.total
    ensures forall r :: (r in s.roleCounts <==> CountRole(ps, r) > 0) && (r in s.roleCounts ==> s.roleCounts[r] == CountRole(ps, r))
    ensures s.mafiaTeam == CountTeam(ps, MafiaTeam) && s.citizensTeam == CountTeam(ps, CitizensTeam)
    ensures s.neutralTeam == CountTeam(ps, NeutralTeam)
    ensures s.mafiaTeam + s.citizensTeam + s.neutralTeam == CountWithRole(ps)
  {
    var roleCounts: map<Role, nat> := map[];
    var mafia, citizens, neutral := 0, 0, 0;
    var i := 0;
    while i < |ps|
      invariant 0 <= i <= |ps|
      invariant forall r :: (r in roleCounts <==> CountRole(ps[..i], r) > 0) && (r in roleCounts ==> roleCounts[r] == CountRole(ps[..i], r))
      invariant mafia == CountTeam(ps[..i], MafiaTeam) && citizens == CountTeam(ps[..i], CitizensTeam)
      invariant neutral == CountTeam(ps[..i], NeutralTeam)
    {
      assert ps[..i + 1][..i] == ps[..i];
      var p := ps[i];
      if p.role.Some? {
        var r := p.role.value;
        roleCounts := roleCounts[r := (if r in roleCounts then roleCounts[r] else 0) + 1];
        match TeamOf(r)
        case MafiaTeam => mafia := mafia + 1;
        case CitizensTeam => citizens := citizens + 1;
        case NeutralTeam => neutral := neutral + 1;
      }
      i := i + 1;
    }
    assert ps[..|ps|] == ps;
    SummaryCounts(ps);
    s := RoleSummary(|ps|, roleCounts, mafia, citizens, neutral, |AlivePlayers(ps)|, CountDead(ps));
  }
}
