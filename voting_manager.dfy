/**
 * Weighted day voting (game/voting_manager.py): a session keeps one vote
 * per voter and a tally of vote weight per target, updated in place on every
 * cast; completing the session yields no votes, an elimination or a tie; a
 * manager keeps the sessions and, per room, the session last started there.
 */
module VotingManagement {
  import opened Wrappers
  import opened PlayerModel

  datatype Vote = Vote(voter: Id, target: Id, weight: int, castAt: int)

  /** The stored result of a session; a tie lists every target at the maximum. */
  datatype VoteResult =
    | NoVotes
    | Elimination(eliminated: Id, count: int)
    | Tie(tied: set<Id>, count: int)
    | CancelledResult

  predicate NoDup(s: seq<Id>)
  {
    forall i, j :: 0 <= i < j < |s| ==> s[i] != s[j]
  }

  // ---------------------------------------------------------------------
  // The tally: the weight of the recorded votes for a target.
  // ---------------------------------------------------------------------

  /** The total weight of the votes for `t` cast by the voters listed in `voters`. */
  function Tally(voters: seq<Id>, votes: map<Id, Vote>, t: Id): int
  {
    if |voters| == 0 then 0
    else
      var v := voters[|voters| - 1];
      Tally(voters[..|voters| - 1], votes, t) + (if v in votes && votes[v].target == t then votes[v].weight else 0)
  }

  predicate PositiveWeights(votes: map<Id, Vote>)
  {
    forall v :: v in votes ==> votes[v].weight >= 1
  }

  /** The tally of a target is never negative, and it includes the full weight of every vote for it. */
  lemma {:induction false} TallyBounds(voters: seq<Id>, votes: map<Id, Vote>, t: Id)
    requires PositiveWeights(votes)
    ensures Tally(voters, votes, t) >= 0
    ensures forall v :: v in voters && v in votes && votes[v].target == t ==> Tally(voters, votes, t) >= votes[v].weight
  {
    if |voters| > 0 {
      var pre := voters[..|voters| - 1];
      TallyBounds(pre, votes, t);
      forall v | v in voters && v in votes && votes[v].target == t
        ensures Tally(voters, votes, t) >= votes[v].weight
      {
        if v != voters[|voters| - 1] {
          assert v in pre;
        }
      }
    }
  }

  /** Recording a vote for a voter who had none adds its weight to its target only. */
  lemma {:induction false} TallyInsert(voters: seq<Id>, votes: map<Id, Vote>, v: Id, nv: Vote, t: Id)
    requires NoDup(voters) && v in voters && v !in votes
    ensures Tally(voters, votes[v := nv], t) == Tally(voters, votes, t) + (if nv.target == t then nv.weight else 0)
  {
    var pre := voters[..|voters| - 1];
    var last := voters[|voters| - 1];
    if last == v {
      assert v !in pre;
      TallyUnaffected(pre, votes, v, nv, t);
    } else {
      assert v in pre;
      TallyInsert(pre, votes, v, nv, t);
    }
  }

  /** Votes of voters outside the list do not count. */
  lemma {:induction false} TallyUnaffected(voters: seq<Id>, votes: map<Id, Vote>, v: Id, nv: Vote, t: Id)
    requires v !in voters
    ensures Tally(voters, votes[v := nv], t) == Tally(voters, votes, t)
    ensures Tally(voters, votes - {v}, t) == Tally(voters, votes, t)
  {
    if |voters| > 0 {
      TallyUnaffected(voters[..|voters| - 1], votes, v, nv, t);
    }
  }

  /** Deleting a voter's vote takes its weight off its target only. */
  lemma {:induction false} TallyRemove(voters: seq<Id>, votes: map<Id, Vote>, v: Id, t: Id)
    requires NoDup(voters) && v in voters && v in votes
    ensures Tally(voters, votes - {v}, t) == Tally(voters, votes, t) - (if votes[v].target == t then votes[v].weight else 0)
  {
    var pre := voters[..|voters| - 1];
    var last := voters[|voters| - 1];
    if last == v {
      assert v !in pre;
      TallyUnaffected(pre, votes, v, votes[v], t);
    } else {
      assert v in pre;
      TallyRemove(pre, votes, v, t);
    }
  }

  /** Listing a voter who has not voted changes no tally. */
  lemma TallyNewVoter(voters: seq<Id>, votes: map<Id, Vote>, v: Id, t: Id)
    requires v !in votes
    ensures Tally(voters + [v], votes, t) == Tally(voters, votes, t)
  {
    assert (voters + [v])[..|voters|] == voters;
  }

  /** Only the last of several casts by one voter is in the votes, so only it counts. */
  lemma RecastReplaces(voters: seq<Id>, votes: map<Id, Vote>, v: Id, first: Vote, second: Vote, t: Id)
    ensures Tally(voters, votes[v := first][v := second], t) == Tally(voters, votes[v := second], t)
  {
    assert votes[v := first][v := second] == votes[v := second];
  }

  // ---------------------------------------------------------------------
  // The result of a completed session.
  // ---------------------------------------------------------------------

  /** The largest count of a non-empty tally. */
  ghost function MaxCount(c: map<Id, int>): (m: int)
    requires c != map[]
    ensures forall t :: t in c ==> c[t] <= m
    ensures exists t :: t in c && c[t] == m
    decreases |c|
  {
    var k :| k in c;
    var rest := c - {k};
    assert rest.Keys == c.Keys - {k};
    if rest == map[] then
      assert forall u :: u in c ==> u in rest.Keys || u == k;
      c[k]
    else
      assert |rest| < |c| by {
        assert c.Keys == rest.Keys + {k};
      }
      var r := MaxCount(rest);
      if c[k] >= r then c[k] else r
  }

  lemma SubsetCardinality(a: set<Id>, b: set<Id>)
    requires a <= b
    ensures |a| <= |b|
  {
    assert b == a + (b - a);
  }

  /** The targets holding the count `m`. */
  function Leaders(c: map<Id, int>, m: int): set<Id>
  {
    set t | t in c && c[t] == m
  }

  /** The result `complete_voting` computes from a tally. */
  ghost function Outcome(c: map<Id, int>): VoteResult
  {
    if c == map[] then NoVotes
    else
      var m := MaxCount(c);
      var tied := Leaders(c, m);
      if |tied| == 1 then
        var t :| t in tied;
        Elimination(t, m)
      else Tie(tied, m)
  }

  lemma SingletonMember(s: set<Id>, x: Id, y: Id)
    requires |s| == 1 && x in s && y in s
    ensures x == y
  {
    if x != y {
      assert {x, y} <= s;
      SubsetCardinality({x, y}, s);
    }
  }

  /** An elimination names the one target whose count is strictly the largest. */
  lemma OutcomeElimination(c: map<Id, int>, t: Id, n: int)
    ensures Outcome(c) == Elimination(t, n) <==>
      t in c && c[t] == n && forall u :: u in c && u != t ==> c[u] < n
  {
    if c != map[] {
      var m := MaxCount(c);
      var tied := Leaders(c, m);
      if Outcome(c) == Elimination(t, n) {
        assert |tied| == 1 && t in tied;
        forall u | u in c && u != t
          ensures c[u] < n
        {
          if c[u] == m {
            SingletonMember(tied, t, u);
          }
        }
      }
      if t in c && c[t] == n && forall u :: u in c && u != t ==> c[u] < n {
        assert m == n;
        assert tied == {t};
      }
    }
  }

  /** A tie lists exactly the targets at the maximum, and there are at least two of them. */
  lemma OutcomeTie(c: map<Id, int>)
    requires c != map[]
    ensures Outcome(c).Tie? <==> |Leaders(c, MaxCount(c))| >= 2
    ensures Outcome(c).Tie? ==> Outcome(c).tied == Leaders(c, MaxCount(c)) && Outcome(c).count == MaxCount(c)
    ensures Outcome(c).Tie? || Outcome(c).Elimination?
  {
    var t :| t in c && c[t] == MaxCount(c);
    assert t in Leaders(c, MaxCount(c));
  }

  /** A running maximum that has seen every target determines the result. */
  lemma OutcomeOfMaximum(c: map<Id, int>, best: int, leaders: set<Id>)
    requires c != map[] && leaders != {}
    requires forall t :: t in c ==> c[t] <= best
    requires forall t :: t in leaders <==> t in c && c[t] == best
    ensures |leaders| == 1 ==> forall t :: t in leaders ==> Outcome(c) == Elimination(t, best)
    ensures |leaders| != 1 ==> Outcome(c) == Tie(leaders, best)
  {
    var m := MaxCount(c);
    var w :| w in leaders;
    assert best == m;
    assert leaders == Leaders(c, m);
    if |leaders| == 1 {
      forall t | t in leaders
        ensures Outcome(c) == Elimination(t, best)
      {
        var u :| u in Leaders(c, m) && Outcome(c) == Elimination(u, m);
        SingletonMember(leaders, t, u);
      }
    }
  }

  /** Computes the result of a tally by one pass over its targets. */
  method ComputeOutcome(c: map<Id, int>) returns (r: VoteResult)
    ensures r == Outcome(c)
  {
    if c == map[] {
      return NoVotes;
    }
    var best, leaders := RunningMaximum(c);
    OutcomeOfMaximum(c, best, leaders);
    if |leaders| == 1 {
      var t :| t in leaders;
      r := Elimination(t, best);
    } else {
      r := Tie(leaders, best);
    }
  }

  /** The largest count of a non-empty tally and the targets that hold it. */
  method RunningMaximum(c: map<Id, int>) returns (best: int, leaders: set<Id>)
    requires c != map[]
    ensures leaders != {}
    ensures forall t :: t in c ==> c[t] <= best
    ensures forall t :: t in leaders <==> t in c && c[t] == best
  {
    var first :| first in c;
    var keys := c.Keys - {first};
    ghost var seen: set<Id> := {first};
    best := c[first];
    leaders := {first};
    while keys != {}
      invariant seen + keys == c.Keys && seen !! keys
      invariant leaders != {}
      invariant forall t :: t in seen ==> c[t] <= best
      invariant forall t :: t in leaders <==> t in seen && c[t] == best
      decreases |keys|
    {
      var k :| k in keys;
      if c[k] > best {
        best := c[k];
        leaders := {k};
      } else if c[k] == best {
        leaders := leaders + {k};
      }
      seen := seen + {k};
      keys := keys - {k};
    }
  }

  // ---------------------------------------------------------------------
  // One voting session.
  // ---------------------------------------------------------------------

  /** The list with later repetitions dropped, as `add_eligible_*` builds it. */
  function Dedup(s: seq<Id>): (r: seq<Id>)
    ensures NoDup(r)
    ensures forall x :: x in r <==> x in s
    ensures |r| <= |s|
  {
    if |s| == 0 then []
    else
      var pre := Dedup(s[..|s| - 1]);
      var x := s[|s| - 1];
      assert forall y :: y in s <==> y in s[..|s| - 1] || y == x;
      if x in pre then pre else pre + [x]
  }

  lemma DedupAppend(s: seq<Id>, x: Id)
    ensures Dedup(s + [x]) == if x in Dedup(s) then Dedup(s) else Dedup(s) + [x]
  {
    assert (s + [x])[..|s|] == s;
  }

  /** One step of the deduplicating loop extends the deduplicated prefix. */
  lemma DedupStep(xs: seq<Id>, i: nat, before: seq<Id>, after: seq<Id>)
    requires i < |xs| && before == Dedup(xs[..i])
    requires after == if xs[i] in before then before else before + [xs[i]]
    ensures after == Dedup(xs[..i + 1])
  {
    assert xs[..i + 1] == xs[..i] + [xs[i]];
    DedupAppend(xs[..i], xs[i]);
  }

  /** The list without `x`, in its order. */
  function Without(s: seq<Id>, x: Id): (r: seq<Id>)
    ensures forall y :: y in r <==> y in s && y != x
    ensures NoDup(s) ==> NoDup(r)
  {
    if |s| == 0 then []
    else
      var pre := Without(s[..|s| - 1], x);
      var y := s[|s| - 1];
      assert forall z :: z in s <==> z in s[..|s| - 1] || z == y;
      if y == x then pre
      else
        assert NoDup(s) ==> y !in s[..|s| - 1];
        pre + [y]
  }

  /**
   * The tally and its key order once the vote `v` is taken off: its target
   * leaves both when its count drops to zero, and keeps its place otherwise.
   */
  function TakeOff(counts: map<Id, int>, order: seq<Id>, v: Vote): (map<Id, int>, seq<Id>)
  {
    if v.target !in counts then (counts, order)
    else if counts[v.target] - v.weight <= 0 then (counts - {v.target}, Without(order, v.target))
    else (counts[v.target := counts[v.target] - v.weight], order)
  }

  /** The tally and its key order once the vote `v` is added: a target counted for the first time goes to the end. */
  function PutOn(counts: map<Id, int>, order: seq<Id>, v: Vote): (map<Id, int>, seq<Id>)
  {
    if v.target in counts then (counts[v.target := counts[v.target] + v.weight], order)
    else (counts[v.target := v.weight], order + [v.target])
  }

  /**
   * The tally and its key order after a cast by `voter`: the voter's earlier
   * vote, if any, is taken off, then the new vote, if any, is added.
   */
  function AfterCast(counts: map<Id, int>, order: seq<Id>, votes: map<Id, Vote>, voter: Id, cast: Option<Vote>)
    : (map<Id, int>, seq<Id>)
  {
    var after := if voter in votes then TakeOff(counts, order, votes[voter]) else (counts, order);
    if cast.Some? then PutOn(after.0, after.1, cast.value) else after
  }

  /** The position of `x` in the list, counted from 0: its first occurrence. */
  function Pos(s: seq<Id>, x: Id): (i: nat)
    requires x in s
    ensures i < |s| && s[i] == x && x !in s[..i]
  {
    if s[0] == x then 0
    else
      assert s == [s[0]] + s[1..];
      1 + Pos(s[1..], x)
  }

  /** In a list without repetitions, the element at position `k` has position `k`. */
  lemma PosOfIndex(s: seq<Id>, k: nat)
    requires NoDup(s) && k < |s|
    ensures Pos(s, s[k]) == k
  {
  }

  /** The elements of a list, as a set. */
  function Elements(s: seq<Id>): (r: set<Id>)
    ensures forall x :: x in r <==> x in s
  {
    set x | x in s
  }

  /** A list without repetitions has as many elements as the set of its elements. */
  lemma {:induction false} NoDupCard(s: seq<Id>)
    requires NoDup(s)
    ensures |Elements(s)| == |s|
  {
    if |s| > 0 {
      var pre := s[..|s| - 1];
      var y := s[|s| - 1];
      NoDupCard(pre);
      assert y !in Elements(pre);
      assert Elements(s) == Elements(pre) + {y};
    }
  }

  class VotingSession {
    const sessionId: nat
    const roomId: Id
    const voteType: string
    const duration: int
    const startTime: int
    const endTime: int
    /** voter -> vote */
    var votes: map<Id, Vote>
    /** target -> total weight of the votes for it */
    var counts: map<Id, int>
    /**
     * The targets of `counts` in the order the dict holds them: a target
     * enters at the end when it is first counted, and leaves when its count
     * drops to zero.
     */
    var countOrder: seq<Id>
    var eligibleVoters: seq<Id>
    var eligibleTargets: seq<Id>
    var isActive: bool
    var isCompleted: bool
    var result: Option<VoteResult>

    /**
     * The tally invariant: a target is in `counts` exactly when its tally is
     * positive, and then its count is that tally.
     */
    ghost predicate TallyMatches()
      reads this
    {
      forall t ::
        (t in counts ==> counts[t] == Tally(eligibleVoters, votes, t) && counts[t] > 0) &&
        (t !in counts ==> Tally(eligibleVoters, votes, t) == 0)
    }

    ghost predicate Valid()
      reads this
    {
      NoDup(eligibleVoters) && NoDup(eligibleTargets) &&
      (forall v :: v in votes ==>
        v in eligibleVoters && votes[v].voter == v && votes[v].weight >= 1 && votes[v].target in eligibleTargets) &&
      TallyMatches() &&
      NoDup(countOrder) && (forall t :: t in countOrder <==> t in counts) &&
      (isCompleted ==> !isActive && result.Some?)
    }

    /** `cancel_voting_session` on the session: it stops with a cancelled result. */
    method Cancel()
      requires Valid()
      modifies this`isActive, this`result
      ensures Valid() && !isActive && result == Some(CancelledResult)
    {
      isActive := false;
      result := Some(CancelledResult);
    }

    /** A new session is active, empty and ends `duration` seconds from now. */
    constructor (sessionId: nat, roomId: Id, voteType: string, duration: int, now: int)
      ensures this.sessionId == sessionId && this.roomId == roomId && this.voteType == voteType
      ensures this.duration == duration && startTime == now && endTime == now + duration
      ensures votes == map[] && counts == map[] && countOrder == [] && eligibleVoters == [] && eligibleTargets == []
      ensures isActive && !isCompleted && result == None
      ensures Valid()
    {
      this.sessionId := sessionId;
      this.roomId := roomId;
      this.voteType := voteType;
      this.duration := duration;
      startTime := now;
      endTime := now + duration;
      votes := map[];
      counts := map[];
      countOrder := [];
      eligibleVoters := [];
      eligibleTargets := [];
      isActive := true;
      isCompleted := false;
      result := None;
    }

    method AddEligibleVoter(v: Id)
      requires Valid()
      modifies this`eligibleVoters
      ensures Valid()
      ensures eligibleVoters == if v in old(eligibleVoters) then old(eligibleVoters) else old(eligibleVoters) + [v]
    {
      if v !in eligibleVoters {
        forall t
          ensures Tally(eligibleVoters + [v], votes, t) == Tally(eligibleVoters, votes, t)
        {
          TallyNewVoter(eligibleVoters, votes, v, t);
        }
        eligibleVoters := eligibleVoters + [v];
      }
    }

    method AddEligibleTarget(t: Id)
      requires Valid()
      modifies this`eligibleTargets
      ensures Valid()
      ensures eligibleTargets == if t in old(eligibleTargets) then old(eligibleTargets) else old(eligibleTargets) + [t]
    {
      if t !in eligibleTargets {
        eligibleTargets := eligibleTargets + [t];
      }
    }

    /** The deadline has passed (whether or not the session is still active). */
    predicate IsExpired(now: int)
      reads this
    {
      now >= endTime
    }

    predicate CanVote(voter: Id, now: int)
      reads this
    {
      isActive && !IsExpired(now) && voter in eligibleVoters
    }

    predicate CanBeVotedFor(t: Id)
      reads this
    {
      t in eligibleTargets
    }

    /** Whole seconds left: 0 once inactive or past the deadline. */
    function RemainingTime(now: int): (r: int)
      reads this
      ensures r >= 0
      ensures r == 0 <==> !isActive || IsExpired(now)
      ensures r > 0 ==> now + r == endTime
    {
      if !isActive then 0 else if endTime - now > 0 then endTime - now else 0
    }

    /**
     * The effect of a cast: it is refused, changing nothing, unless the voter
     * may vote now and a given target is eligible; then the votes map the
     * voter to the new vote, or, for an abstention, forget the voter, and the
     * tally and its key order are those of taking the earlier vote off and
     * adding the new one.
     */
    twostate predicate CastEffect(voter: Id, target: Option<Id>, weight: int, now: int, ok: bool)
      reads this
    {
      (ok <==> old(CanVote(voter, now)) && (target.Some? ==> old(CanBeVotedFor(target.value)))) &&
      (!ok ==> votes == old(votes) && counts == old(counts) && countOrder == old(countOrder)) &&
      (ok && target.Some? ==> votes == old(votes)[voter := Vote(voter, target.value, weight, now)]) &&
      (ok && target.None? ==> votes == old(votes) - {voter}) &&
      (ok ==> (counts, countOrder) == AfterCast(old(counts), old(countOrder), old(votes), voter,
                                               if target.Some? then Some(Vote(voter, target.value, weight, now)) else None))
    }

    method CastVote(voter: Id, target: Option<Id>, weight: int, now: int) returns (ok: bool)
      requires Valid() && weight >= 1
      modifies this`votes, this`counts, this`countOrder
      ensures Valid()
      ensures CastEffect(voter, target, weight, now, ok)
    {
      if !CanVote(voter, now) {
        return false;
      }
      if target.Some? && !CanBeVotedFor(target.value) {
        return false;
      }
      if voter in votes {
        WithdrawVote(voter);
      }
      if target.Some? {
        RecordVote(Vote(voter, target.value, weight, now));
      }
      return true;
    }

    /**
     * Takes a voter's vote off the tally and out of the votes; a target whose
     * count drops to zero leaves the tally and its order.
     */
    method WithdrawVote(voter: Id)
      requires Valid() && voter in votes
      modifies this`votes, this`counts, this`countOrder
      ensures Valid()
      ensures votes == old(votes) - {voter}
      ensures var t := old(votes[voter]).target;
        countOrder == if t in counts then old(countOrder) else Without(old(countOrder), t)
      ensures (counts, countOrder) == TakeOff(old(counts), old(countOrder), old(votes[voter]))
    {
      var prev := votes[voter];
      forall t
        ensures Tally(eligibleVoters, votes - {voter}, t) ==
                Tally(eligibleVoters, votes, t) - (if prev.target == t then prev.weight else 0)
      {
        TallyRemove(eligibleVoters, votes, voter, t);
      }
      TallyBounds(eligibleVoters, votes - {voter}, prev.target);
      TallyBounds(eligibleVoters, votes, prev.target);
      ghost var next := TakeOff(counts, countOrder, prev);
      var c := counts[prev.target] - prev.weight;
      if c <= 0 {
        counts := counts - {prev.target};
        countOrder := Without(countOrder, prev.target);
      } else {
        counts := counts[prev.target := c];
      }
      assert (counts, countOrder) == next;
      votes := votes - {voter};
    }

    /**
     * Adds a vote of a voter who has none to the votes and to the tally; a
     * target counted for the first time goes to the end of the order.
     */
    method RecordVote(v: Vote)
      requires Valid() && v.voter !in votes && v.voter in eligibleVoters
      requires v.weight >= 1 && v.target in eligibleTargets
      modifies this`votes, this`counts, this`countOrder
      ensures Valid()
      ensures votes == old(votes)[v.voter := v]
      ensures countOrder == if v.target in old(counts) then old(countOrder) else old(countOrder) + [v.target]
      ensures (counts, countOrder) == PutOn(old(counts), old(countOrder), v)
    {
      forall t
        ensures Tally(eligibleVoters, votes[v.voter := v], t) ==
                Tally(eligibleVoters, votes, t) + (if v.target == t then v.weight else 0)
      {
        TallyInsert(eligibleVoters, votes, v.voter, v, t);
      }
      ghost var next := PutOn(counts, countOrder, v);
      var c := if v.target in counts then counts[v.target] else 0;
      if v.target !in counts {
        countOrder := countOrder + [v.target];
      }
      counts := counts[v.target := c + v.weight];
      assert (counts, countOrder) == next;
      votes := votes[v.voter := v];
    }

    /**
     * Completes the session once: it becomes inactive and completed with the
     * result of its tally; a completed session returns its stored result.
     */
    method CompleteVoting() returns (r: VoteResult)
      requires Valid()
      modifies this`isActive, this`isCompleted, this`result
      ensures Valid()
      ensures isCompleted && !isActive && result == Some(r)
      ensures old(isCompleted) ==> r == old(result).value && unchanged(this)
      ensures !old(isCompleted) ==> r == Outcome(counts)
    {
      if isCompleted {
        return result.value;
      }
      isActive := false;
      isCompleted := true;
      r := ComputeOutcome(counts);
      result := Some(r);
    }
  }

  /** Adds the voters one by one, as `start_voting_session` does. */
  method AddEligibleVoters(s: VotingSession, voters: seq<Id>)
    requires s.Valid() && s.eligibleVoters == []
    modifies s`eligibleVoters
    ensures s.Valid() && s.eligibleVoters == Dedup(voters)
  {
    for i := 0 to |voters|
      invariant s.Valid() && s.eligibleVoters == Dedup(voters[..i])
    {
      ghost var before := s.eligibleVoters;
      s.AddEligibleVoter(voters[i]);
      DedupStep(voters, i, before, s.eligibleVoters);
    }
    assert voters[..|voters|] == voters;
  }

  /** Adds the targets one by one, as `start_voting_session` does. */
  method AddEligibleTargets(s: VotingSession, targets: seq<Id>)
    requires s.Valid() && s.eligibleTargets == []
    modifies s`eligibleTargets
    ensures s.Valid() && s.eligibleTargets == Dedup(targets)
  {
    for i := 0 to |targets|
      invariant s.Valid() && s.eligibleTargets == Dedup(targets[..i])
    {
      ghost var before := s.eligibleTargets;
      s.AddEligibleTarget(targets[i]);
      DedupStep(targets, i, before, s.eligibleTargets);
    }
    assert targets[..|targets|] == targets;
  }

  /** A fresh session whose eligibility lists are the given ones without repetitions. */
  method NewSession(sessionId: nat, roomId: Id, voteType: string, duration: int,
                    voters: seq<Id>, targets: seq<Id>, now: int) returns (s: VotingSession)
    ensures fresh(s) && s.Valid()
    ensures s.sessionId == sessionId && s.roomId == roomId && s.voteType == voteType
    ensures s.duration == duration && s.startTime == now && s.endTime == now + duration
    ensures s.votes == map[] && s.counts == map[] && s.countOrder == [] && s.isActive && !s.isCompleted && s.result == None
    ensures s.eligibleVoters == Dedup(voters) && s.eligibleTargets == Dedup(targets)
  {
    s := new VotingSession(sessionId, roomId, voteType, duration, now);
    AddEligibleVoters(s, voters);
    AddEligibleTargets(s, targets);
  }

  // ---------------------------------------------------------------------
  // The vote summary: targets ordered by count, highest first.
  // ---------------------------------------------------------------------

  datatype SummaryEntry = SummaryEntry(target: Id, count: int)

  datatype VoteSummary = VoteSummary(
    sessionId: nat, voteType: string, remainingTime: int, totalVoters: nat, votesCast: nat,
    entries: seq<SummaryEntry>, leading: Option<Id>)

  predicate SortedByCount(s: seq<SummaryEntry>)
  {
    forall i, j :: 0 <= i < j < |s| ==> s[i].count >= s[j].count
  }

  predicate DistinctTargets(s: seq<SummaryEntry>)
  {
    forall i, j :: 0 <= i < j < |s| ==> s[i].target != s[j].target
  }

  /** Inserts `e` after every entry whose count is at least its own. */
  function InsertByCount(s: seq<SummaryEntry>, e: SummaryEntry): (r: seq<SummaryEntry>)
    ensures multiset(r) == multiset(s) + multiset{e}
  {
    if |s| == 0 then [e]
    else if s[0].count >= e.count then
      assert s == [s[0]] + s[1..];
      [s[0]] + InsertByCount(s[1..], e)
    else
      [e] + s
  }

  lemma InsertMembers(s: seq<SummaryEntry>, e: SummaryEntry)
    ensures forall x :: x in InsertByCount(s, e) <==> x in s || x == e
  {
    forall x
      ensures x in InsertByCount(s, e) <==> x in s || x == e
    {
      calc {
        x in InsertByCount(s, e);
        x in multiset(InsertByCount(s, e));
        x in multiset(s) + multiset{e};
      }
    }
  }

  lemma {:induction false} InsertKeepsSorted(s: seq<SummaryEntry>, e: SummaryEntry)
    requires SortedByCount(s)
    ensures SortedByCount(InsertByCount(s, e))
    decreases |s|
  {
    if |s| > 0 && s[0].count >= e.count {
      var rest := InsertByCount(s[1..], e);
      InsertKeepsSorted(s[1..], e);
      InsertMembers(s[1..], e);
      forall x | x in rest
        ensures s[0].count >= x.count
      {
        if x != e {
          var k :| 0 <= k < |s[1..]| && s[1..][k] == x;
          assert s[k + 1] == x;
        }
      }
      assert InsertByCount(s, e) == [s[0]] + rest;
      forall i, j | 0 <= i < j < |[s[0]] + rest|
        ensures ([s[0]] + rest)[i].count >= ([s[0]] + rest)[j].count
      {
        if i > 0 {
          assert ([s[0]] + rest)[i] == rest[i - 1];
        } else {
          assert rest[j - 1] in rest;
        }
      }
    }
  }

  lemma {:induction false} InsertKeepsDistinct(s: seq<SummaryEntry>, e: SummaryEntry)
    requires DistinctTargets(s) && forall x :: x in s ==> x.target != e.target
    ensures DistinctTargets(InsertByCount(s, e))
    decreases |s|
  {
    if |s| > 0 && s[0].count >= e.count {
      var rest := InsertByCount(s[1..], e);
      assert forall x :: x in s[1..] ==> x in s;
      InsertKeepsDistinct(s[1..], e);
      InsertMembers(s[1..], e);
      forall x | x in rest
        ensures x.target != s[0].target
      {
        if x != e {
          var k :| 0 <= k < |s[1..]| && s[1..][k] == x;
          assert s[k + 1] == x;
        }
      }
      assert InsertByCount(s, e) == [s[0]] + rest;
      forall i, j | 0 <= i < j < |[s[0]] + rest|
        ensures ([s[0]] + rest)[i].target != ([s[0]] + rest)[j].target
      {
        if i > 0 {
          assert ([s[0]] + rest)[i] == rest[i - 1];
        } else {
          assert rest[j - 1] in rest;
        }
      }
    } else if |s| > 0 {
      assert InsertByCount(s, e) == [e] + s;
      forall i, j | 0 <= i < j < |[e] + s|
        ensures ([e] + s)[i].target != ([e] + s)[j].target
      {
        if i > 0 {
          assert ([e] + s)[i] == s[i - 1];
        } else {
          assert s[j - 1] in s;
        }
      }
    }
  }

  /**
   * Entries with equal counts keep the order their targets have in `order`,
   * as a stable sort leaves them.
   */
  ghost predicate StableIn(s: seq<SummaryEntry>, order: seq<Id>)
  {
    (forall i :: 0 <= i < |s| ==> s[i].target in order) &&
    forall i, j :: 0 <= i < j < |s| && s[i].count == s[j].count ==> Pos(order, s[i].target) < Pos(order, s[j].target)
  }

  /** Inserting an entry whose target comes after every present one in `order` keeps a sorted list stable. */
  lemma {:induction false} InsertKeepsStable(s: seq<SummaryEntry>, e: SummaryEntry, order: seq<Id>)
    requires SortedByCount(s) && StableIn(s, order) && e.target in order
    requires forall x :: x in s ==> x.target in order && Pos(order, x.target) < Pos(order, e.target)
    ensures StableIn(InsertByCount(s, e), order)
    decreases |s|
  {
    if |s| > 0 && s[0].count >= e.count {
      var tail := s[1..];
      assert forall x :: x in tail ==> x in s;
      assert forall i :: 0 <= i < |tail| ==> tail[i] == s[i + 1];
      InsertKeepsStable(tail, e, order);
      InsertMembers(tail, e);
      StableCons(s, e, InsertByCount(tail, e), order);
    } else if |s| > 0 {
      StableFront(s, e, order);
    }
  }

  /** Putting the head back in front of a stable insertion into the tail keeps the list stable. */
  lemma StableCons(s: seq<SummaryEntry>, e: SummaryEntry, rest: seq<SummaryEntry>, order: seq<Id>)
    requires |s| > 0 && StableIn(s, order) && StableIn(rest, order) && e.target in order
    requires forall x :: x in rest <==> x in s[1..] || x == e
    requires s[0].target in order && Pos(order, s[0].target) < Pos(order, e.target)
    ensures StableIn([s[0]] + rest, order)
  {
    var h := s[0];
    forall x | x in rest && x.count == h.count
      ensures Pos(order, h.target) < Pos(order, x.target)
    {
      if x != e {
        var k :| 0 <= k < |s[1..]| && s[1..][k] == x;
        assert s[k + 1] == x;
      }
    }
    StableHead(h, rest, order);
  }

  /** A head that comes before every entry of equal count in `order` keeps a stable list stable. */
  lemma StableHead(h: SummaryEntry, rest: seq<SummaryEntry>, order: seq<Id>)
    requires StableIn(rest, order) && h.target in order
    requires forall x :: x in rest && x.count == h.count ==> Pos(order, h.target) < Pos(order, x.target)
    ensures StableIn([h] + rest, order)
  {
    var t := [h] + rest;
    forall i, j | 0 <= i < j < |t| && t[i].count == t[j].count
      ensures Pos(order, t[i].target) < Pos(order, t[j].target)
    {
      assert t[j] == rest[j - 1] && rest[j - 1] in rest;
      if i > 0 {
        assert t[i] == rest[i - 1];
      }
    }
  }

  /** An entry with a count above every present one goes in front and keeps the list stable. */
  lemma StableFront(s: seq<SummaryEntry>, e: SummaryEntry, order: seq<Id>)
    requires |s| > 0 && SortedByCount(s) && StableIn(s, order) && e.target in order
    requires s[0].count < e.count
    ensures StableIn([e] + s, order)
  {
    var t := [e] + s;
    forall j | 0 < j < |t|
      ensures t[j].count < e.count
    {
      assert t[j] == s[j - 1];
      assert j - 1 == 0 || s[0].count >= s[j - 1].count;
    }
    forall i, j | 0 < i < j < |t| && t[i].count == t[j].count
      ensures Pos(order, t[i].target) < Pos(order, t[j].target)
    {
      assert t[i] == s[i - 1] && t[j] == s[j - 1];
    }
  }

  /**
   * The (target, count) entries of a tally, sorted by count, highest first,
   * by a stable sort over the tally in its order: equal counts keep the
   * order in which their targets entered the tally.
   */
  method SortedSummary(order: seq<Id>, counts: map<Id, int>) returns (entries: seq<SummaryEntry>)
    requires NoDup(order) && forall t :: t in order <==> t in counts
    ensures SortedByCount(entries) && DistinctTargets(entries) && StableIn(entries, order)
    ensures forall e :: e in entries <==> e.target in counts && counts[e.target] == e.count
    ensures |entries| == |counts|
  {
    entries := [];
    for k := 0 to |order|
      invariant SummaryPrefix(entries, order, counts, k)
    {
      InsertStep(entries, order, counts, k);
      entries := InsertByCount(entries, SummaryEntry(order[k], counts[order[k]]));
    }
    assert order[..|order|] == order;
    assert counts.Keys == Elements(order);
    NoDupCard(order);
  }

  /** The summary after the first `k` targets of the order have been inserted. */
  ghost predicate SummaryPrefix(entries: seq<SummaryEntry>, order: seq<Id>, counts: map<Id, int>, k: nat)
  {
    k <= |order| && (forall t :: t in order ==> t in counts) &&
    SortedByCount(entries) && DistinctTargets(entries) && StableIn(entries, order) &&
    (forall e :: e in entries <==> e.target in order[..k] && counts[e.target] == e.count) &&
    (forall e :: e in entries ==> Pos(order, e.target) < k) &&
    |entries| == k
  }

  /** Inserting the entry of the next target of the order extends the summary by one target. */
  lemma InsertStep(entries: seq<SummaryEntry>, order: seq<Id>, counts: map<Id, int>, k: nat)
    requires NoDup(order) && k < |order| && SummaryPrefix(entries, order, counts, k)
    ensures SummaryPrefix(InsertByCount(entries, SummaryEntry(order[k], counts[order[k]])), order, counts, k + 1)
  {
    var t := order[k];
    var e := SummaryEntry(t, counts[t]);
    PosOfIndex(order, k);
    forall x | x in entries
      ensures x.target != t
    {
      var i :| 0 <= i < k && order[..k][i] == x.target;
      assert order[i] == x.target;
    }
    InsertKeepsSorted(entries, e);
    InsertKeepsDistinct(entries, e);
    InsertKeepsStable(entries, e, order);
    InsertMembers(entries, e);
    assert order[..k + 1] == order[..k] + [t];
    var r := InsertByCount(entries, e);
    assert |multiset(r)| == |r|;
  }

  /** The first entry of a sorted summary has the highest count. */
  lemma LeaderHasMaximum(entries: seq<SummaryEntry>, counts: map<Id, int>, t: Id)
    requires SortedByCount(entries) && |entries| > 0
    requires forall e :: e in entries <==> e.target in counts && counts[e.target] == e.count
    requires t in counts
    ensures counts[t] <= entries[0].count
  {
    var e := SummaryEntry(t, counts[t]);
    assert e in entries;
    var i :| 0 <= i < |entries| && entries[i] == e;
    assert i == 0 || entries[0].count >= entries[i].count;
  }

  /**
   * The first entry of a stably sorted summary is, among the targets with the
   * highest count, the one that comes first in the tally's order.
   */
  lemma LeaderCountedFirst(entries: seq<SummaryEntry>, counts: map<Id, int>, order: seq<Id>, t: Id)
    requires SortedByCount(entries) && StableIn(entries, order) && |entries| > 0
    requires forall e :: e in entries <==> e.target in counts && counts[e.target] == e.count
    requires t in counts && t in order && counts[t] == entries[0].count
    ensures Pos(order, entries[0].target) <= Pos(order, t)
  {
    var e := SummaryEntry(t, counts[t]);
    assert e in entries;
    var i :| 0 <= i < |entries| && entries[i] == e;
  }

  predicate Ascending(s: seq<nat>)
  {
    forall i, j :: 0 <= i < j < |s| ==> s[i] < s[j]
  }

  lemma AscendingAppend(s: seq<nat>, x: nat)
    requires Ascending(s) && forall e :: e in s ==> e < x
    ensures Ascending(s + [x])
  {
    forall i, j | 0 <= i < j < |s + [x]|
      ensures (s + [x])[i] < (s + [x])[j]
    {
      assert (s + [x])[i] == s[i];
      if j == |s| {
        assert s[i] in s;
      }
    }
  }

  // ---------------------------------------------------------------------
  // The sweep over expired sessions, on snapshots of the sessions.
  // ---------------------------------------------------------------------

  /** What a sweep reads or writes of one session. */
  datatype SessionView = SessionView(
    isActive: bool, isCompleted: bool, result: Option<VoteResult>, endTime: int, counts: map<Id, int>)

  ghost function ViewOf(s: VotingSession): (v: SessionView)
    reads s
    ensures v.isActive == s.isActive && v.isCompleted == s.isCompleted && v.result == s.result
    ensures v.endTime == s.endTime && v.counts == s.counts
  {
    SessionView(s.isActive, s.isCompleted, s.result, s.endTime, s.counts)
  }

  /** The view of a session once `complete_voting` has run on it the first time. */
  ghost function Completed(v: SessionView): (w: SessionView)
    ensures !w.isActive && w.isCompleted && w.result == Some(Outcome(v.counts))
    ensures w.endTime == v.endTime && w.counts == v.counts
  {
    v.(isActive := false, isCompleted := true, result := Some(Outcome(v.counts)))
  }

  // ---------------------------------------------------------------------
  // The manager: sessions by id and the session registered for each room.
  // ---------------------------------------------------------------------

  class VotingManager {
    /** session id -> session; ids come from `sessionCounter` */
    var activeSessions: map<nat, VotingSession>
    /** room -> id of the session last started there */
    var roomSessions: map<Id, nat>
    var sessionCounter: nat

    /** The room's registered session exists and is active. */
    predicate RoomBusy(roomId: Id)
      reads this, activeSessions.Values
    {
      roomId in roomSessions && roomSessions[roomId] in activeSessions &&
      activeSessions[roomSessions[roomId]].isActive
    }

    ghost predicate Valid()
      reads this, activeSessions.Values
    {
      (forall sid :: sid in activeSessions ==>
        activeSessions[sid].Valid() && activeSessions[sid].sessionId == sid && 0 < sid <= sessionCounter) &&
      (forall r :: r in roomSessions ==>
        roomSessions[r] in activeSessions && activeSessions[roomSessions[r]].roomId == r) &&
      // an active session is the one registered for its room
      (forall sid :: sid in activeSessions && activeSessions[sid].isActive ==>
        activeSessions[sid].roomId in roomSessions && roomSessions[activeSessions[sid].roomId] == sid)
    }

    constructor ()
      ensures activeSessions == map[] && roomSessions == map[] && sessionCounter == 0
      ensures Valid()
    {
      activeSessions := map[];
      roomSessions := map[];
      sessionCounter := 0;
    }

    /** A room has at most one active session. */
    lemma OneActivePerRoom(sid1: nat, sid2: nat)
      requires Valid()
      requires sid1 in activeSessions && sid2 in activeSessions
      requires activeSessions[sid1].isActive && activeSessions[sid2].isActive
      requires activeSessions[sid1].roomId == activeSessions[sid2].roomId
      ensures sid1 == sid2
    {
    }

    /**
     * Starts a session unless the room's registered session is still active;
     * the new session gets the next id and becomes the room's registered one.
     */
    method StartVotingSession(roomId: Id, voteType: string, duration: int,
                              voters: seq<Id>, targets: seq<Id>, now: int)
      returns (ok: bool, session: VotingSession?)
      requires Valid()
      modifies this
      ensures Valid()
      ensures ok <==> !old(RoomBusy(roomId))
      ensures !ok ==> session == null && unchanged(this)
      ensures ok ==> (session != null && fresh(session) &&
        sessionCounter == old(sessionCounter) + 1 && session.sessionId == sessionCounter &&
        activeSessions == old(activeSessions)[sessionCounter := session] &&
        roomSessions == old(roomSessions)[roomId := sessionCounter])
      ensures ok ==> (session.roomId == roomId && session.voteType == voteType &&
        session.endTime == now + duration && session.isActive && session.votes == map[] &&
        session.eligibleVoters == Dedup(voters) && session.eligibleTargets == Dedup(targets))
    {
      if RoomBusy(roomId) {
        return false, null;
      }
      sessionCounter := sessionCounter + 1;
      session := NewSession(sessionCounter, roomId, voteType, duration, voters, targets, now);
      activeSessions := activeSessions[sessionCounter := session];
      roomSessions := roomSessions[roomId := sessionCounter];
      ok := true;
    }

    /** The room's registered session, when it is active and not yet expired. */
    function GetActiveSession(roomId: Id, now: int): (s: VotingSession?)
      reads this, activeSessions.Values
      ensures s != null <==> RoomBusy(roomId) && !activeSessions[roomSessions[roomId]].IsExpired(now)
      ensures s != null ==> s == activeSessions[roomSessions[roomId]]
    {
      if RoomBusy(roomId) && !activeSessions[roomSessions[roomId]].IsExpired(now) then
        activeSessions[roomSessions[roomId]]
      else
        null
    }

    /** The session found for a room is its only active session. */
    lemma ActiveSessionIsTheRoomsOnly(roomId: Id, now: int, sid: nat)
      requires Valid() && GetActiveSession(roomId, now) != null
      requires sid in activeSessions && activeSessions[sid].isActive && activeSessions[sid].roomId == roomId
      ensures activeSessions[sid] == GetActiveSession(roomId, now)
    {
      OneActivePerRoom(sid, roomSessions[roomId]);
    }

    /** A cast through the manager: refused without an active session, else the session's cast. */
    method CastVote(roomId: Id, voter: Id, target: Option<Id>, now: int, players: map<Id, Player>)
      returns (ok: bool)
      requires Valid()
      modifies activeSessions.Values`votes, activeSessions.Values`counts, activeSessions.Values`countOrder
      ensures Valid()
      ensures old(GetActiveSession(roomId, now)) == null ==> !ok && unchanged(activeSessions.Values)
      ensures old(GetActiveSession(roomId, now)) != null ==>
        old(GetActiveSession(roomId, now)).CastEffect(voter, target, VoteWeight(players, voter), now, ok)
      ensures old(GetActiveSession(roomId, now)) != null ==> var s := old(GetActiveSession(roomId, now));
        s.isActive == old(s.isActive) && s.isCompleted == old(s.isCompleted) && s.result == old(s.result) &&
        s.eligibleVoters == old(s.eligibleVoters) && s.eligibleTargets == old(s.eligibleTargets)
      ensures forall s :: s in activeSessions.Values && s != old(GetActiveSession(roomId, now)) ==> unchanged(s)
    {
      var s := GetActiveSession(roomId, now);
      if s == null {
        return false;
      }
      ok := s.CastVote(voter, target, VoteWeight(players, voter), now);
    }

    /** Completes the room's active session and returns its result. */
    method CompleteVoting(roomId: Id, now: int) returns (ok: bool, r: Option<VoteResult>)
      requires Valid()
      modifies activeSessions.Values`isActive, activeSessions.Values`isCompleted, activeSessions.Values`result
      ensures Valid()
      ensures ok <==> old(GetActiveSession(roomId, now)) != null
      ensures !ok ==> r == None && unchanged(activeSessions.Values)
      ensures ok ==> var s := old(GetActiveSession(roomId, now));
        r == Some(Outcome(s.counts)) && s.result == r && s.isCompleted && !s.isActive &&
        s.votes == old(s.votes) && s.counts == old(s.counts) && s.countOrder == old(s.countOrder) &&
        s.eligibleVoters == old(s.eligibleVoters) && s.eligibleTargets == old(s.eligibleTargets)
      ensures forall s :: s in activeSessions.Values && s != old(GetActiveSession(roomId, now)) ==> unchanged(s)
    {
      var s := GetActiveSession(roomId, now);
      if s == null {
        return false, None;
      }
      var res := s.CompleteVoting();
      return true, Some(res);
    }

    /** Everything a sweep reads or writes of each session, by id. */
    ghost function Views(): (m: map<nat, SessionView>)
      reads this, activeSessions.Values
      ensures m.Keys == activeSessions.Keys
    {
      map e | e in activeSessions :: ViewOf(activeSessions[e])
    }

    /** Completes session `sid` when it is active and past its deadline. */
    method ExpireSession(sid: nat, now: int) returns (done: bool)
      requires Valid()
      modifies activeSessions.Values`isActive, activeSessions.Values`isCompleted, activeSessions.Values`result
      ensures Valid()
      ensures done <==> sid in activeSessions && old(activeSessions[sid].isActive) && activeSessions[sid].IsExpired(now)
      ensures done ==> ViewOf(activeSessions[sid]) == Completed(old(ViewOf(activeSessions[sid])))
      ensures forall e :: e in activeSessions && (e != sid || !done) ==>
        ViewOf(activeSessions[e]) == old(ViewOf(activeSessions[e]))
    {
      done := false;
      if sid in activeSessions {
        var s := activeSessions[sid];
        if s.isActive && s.IsExpired(now) {
          var _ := s.CompleteVoting();
          done := true;
        }
      }
    }

    /**
     * The sweep over the ids below `bound`: `expired` lists, in ascending
     * order, exactly the ids whose session was active and past its deadline
     * in `before`; those sessions are now completed with the outcome of their
     * tally, and every other session is as it was.
     */
    ghost predicate Swept(expired: seq<nat>, bound: nat, now: int, before: map<nat, SessionView>)
      reads this, activeSessions.Values
    {
      before.Keys == activeSessions.Keys && Ascending(expired) &&
      (forall e :: e in expired <==> e < bound && e in before && before[e].isActive && now >= before[e].endTime) &&
      (forall e :: e in expired ==> ViewOf(activeSessions[e]) == Completed(before[e])) &&
      (forall e :: e in activeSessions && e !in expired ==> ViewOf(activeSessions[e]) == before[e])
    }

    /** One step of the sweep: handles id `sid` and extends `expired` when it completes that session. */
    method SweepOne(sid: nat, now: int, expired: seq<nat>, ghost before: map<nat, SessionView>)
      returns (expired': seq<nat>)
      requires Valid() && Swept(expired, sid, now, before)
      modifies activeSessions.Values`isActive, activeSessions.Values`isCompleted, activeSessions.Values`result
      ensures Valid() && Swept(expired', sid + 1, now, before)
    {
      var done := ExpireSession(sid, now);
      if done {
        AscendingAppend(expired, sid);
      }
      expired' := if done then expired + [sid] else expired;
    }

    /**
     * Completes every active session whose deadline has passed and returns
     * their ids in ascending order, which is the order in which the sessions
     * were registered since ids are handed out by a counter.
     */
    method CheckExpiredSessions(now: int) returns (expired: seq<nat>)
      requires Valid()
      modifies activeSessions.Values`isActive, activeSessions.Values`isCompleted, activeSessions.Values`result
      ensures Valid()
      ensures Swept(expired, sessionCounter + 1, now, old(Views()))
    {
      ghost var before := Views();
      expired := [];
      var sid := 1;
      while sid <= sessionCounter
        invariant 1 <= sid <= sessionCounter + 1
        invariant Valid() && Swept(expired, sid, now, before)
      {
        expired := SweepOne(sid, now, expired, before);
        sid := sid + 1;
      }
    }

    /** The active session's figures, with its tally sorted by count. */
    method GetVoteSummary(roomId: Id, now: int) returns (r: Option<VoteSummary>)
      requires Valid()
      ensures r.None? <==> GetActiveSession(roomId, now) == null
      ensures r.Some? ==> var s := GetActiveSession(roomId, now); var e := r.value.entries;
        r.value.sessionId == s.sessionId && r.value.voteType == s.voteType &&
        r.value.remainingTime == s.RemainingTime(now) &&
        r.value.totalVoters == |s.eligibleVoters| && r.value.votesCast == |s.votes| &&
        SortedByCount(e) && DistinctTargets(e) && |e| == |s.counts| &&
        (forall x :: x in e <==> x.target in s.counts && s.counts[x.target] == x.count) &&
        StableIn(e, s.countOrder) &&
        (r.value.leading.None? <==> s.counts == map[]) &&
        (r.value.leading.Some? ==> (r.value.leading.value in s.counts &&
          (forall t :: t in s.counts ==> s.counts[t] <= s.counts[r.value.leading.value]) &&
          forall t :: t in s.countOrder && s.counts[t] == s.counts[r.value.leading.value] ==>
            Pos(s.countOrder, r.value.leading.value) <= Pos(s.countOrder, t)))
    {
      var s := GetActiveSession(roomId, now);
      if s == null {
        return None;
      }
      var entries := SortedSummary(s.countOrder, s.counts);
      var leading: Option<Id> := None;
      if |entries| > 0 {
        leading := Some(entries[0].target);
        assert entries[0] in entries;
        forall t | t in s.counts
          ensures s.counts[t] <= s.counts[entries[0].target]
        {
          LeaderHasMaximum(entries, s.counts, t);
        }
        forall t | t in s.countOrder && s.counts[t] == s.counts[entries[0].target]
          ensures Pos(s.countOrder, entries[0].target) <= Pos(s.countOrder, t)
        {
          LeaderCountedFirst(entries, s.counts, s.countOrder, t);
        }
      }
      r := Some(VoteSummary(s.sessionId, s.voteType, s.RemainingTime(now), |s.eligibleVoters|,
                            |s.votes|, entries, leading));
    }

    /** The session registered for a room, as a set of at most one session. */
    function Registered(roomId: Id): (s: set<VotingSession>)
      reads this
      ensures s <= activeSessions.Values
      ensures roomId in roomSessions && roomSessions[roomId] in activeSessions ==>
        s == {activeSessions[roomSessions[roomId]]}
    {
      if roomId in roomSessions && roomSessions[roomId] in activeSessions then {activeSessions[roomSessions[roomId]]}
      else {}
    }

    /**
     * Cancels the room's registered session: it is marked inactive with a
     * cancelled result and both registry entries are removed.
     */
    method CancelVotingSession(roomId: Id) returns (ok: bool)
      requires Valid()
      modifies this, Registered(roomId)`isActive, Registered(roomId)`result
      ensures Valid()
      ensures ok <==> roomId in old(roomSessions)
      ensures !ok ==> unchanged(this) && unchanged(activeSessions.Values)
      ensures ok ==> var sid := old(roomSessions[roomId]); var s := old(activeSessions[sid]);
        roomSessions == old(roomSessions) - {roomId} && activeSessions == old(activeSessions) - {sid} &&
        !s.isActive && s.result == Some(CancelledResult) && sessionCounter == old(sessionCounter) &&
        s.votes == old(s.votes) && s.counts == old(s.counts) && s.countOrder == old(s.countOrder) &&
        s.eligibleVoters == old(s.eligibleVoters) && s.eligibleTargets == old(s.eligibleTargets) &&
        s.isCompleted == old(s.isCompleted)
      ensures forall s :: s in old(activeSessions.Values) && (!ok || s != old(activeSessions[roomSessions[roomId]])) ==>
        unchanged(s)
    {
      if roomId !in roomSessions {
        return false;
      }
      var s := Unregister(roomId);
      s.Cancel();
      ok := true;
    }

    /** The room's session leaves both maps; the sessions themselves are not touched. */
    method Unregister(roomId: Id) returns (s: VotingSession)
      requires Valid() && roomId in roomSessions
      modifies this`roomSessions, this`activeSessions
      ensures Valid() && s.Valid()
      ensures s == old(activeSessions[roomSessions[roomId]])
      ensures roomSessions == old(roomSessions) - {roomId}
      ensures activeSessions == old(activeSessions) - {old(roomSessions[roomId])}
      ensures s !in activeSessions.Values
    {
      var sid := roomSessions[roomId];
      s := activeSessions[sid];
      roomSessions := roomSessions - {roomId};
      activeSessions := activeSessions - {sid};
      forall k | k in activeSessions
        ensures activeSessions[k] != s
      {
        assert activeSessions[k].sessionId == k != sid == s.sessionId;
      }
    }
  }

  /** A Mayor's vote counts twice, every other vote once. */
  function VoteWeight(players: map<Id, Player>, voter: Id): (w: int)
    reads players.Values
    ensures w == 1 || w == 2
    ensures w == 2 <==> voter in players && players[voter].role == Some(Mayor)
  {
    if voter in players && players[voter].role == Some(Mayor) then 2 else 1
  }
}
