/**
 * The phase state machine of one game (game/phase_manager.py): the current
 * phase and its deadline, the ledger of actions submitted in the phase (one
 * per actor, the last submission wins), the validation of a submission,
 * and the resolution of the night's kills, heals and investigations.
 *
 * The player table the source reads through the ORM is a map from player
 * id to player object; time is an explicit `now`, in whole seconds.
 */
module PhaseManagement {
  import opened Wrappers
  import opened PlayerModel
  import opened GameModel

  /** The action kinds named by the source's action strings; any other string is `OtherAct`. */
  datatype ActionType =
    | SpeakAct | AccuseAct | DefendAct | VoteAct
    | KillAct | HealAct | InvestigateAct | VigilanteKillAct
    | OtherAct(name: string)

  /** One ledger entry; the source's free-form details are not modelled. */
  datatype PhaseAction = PhaseAction(actor: Id, kind: ActionType, target: Option<Id>, submittedAt: int)

  /** The default length of a phase in seconds, 300 for a phase outside the table. */
  function DefaultDuration(phase: GamePhase): (d: int)
    ensures d > 0
  {
    match phase
    case Day => 300
    case Voting => 60
    case Night => 120
    case Trial => 180
    case Finished => 300
  }

  /** The duration a phase is started with: the one given, else the default. */
  function ResolvedDuration(phase: GamePhase, duration: Option<int>): int
  {
    match duration
    case Some(d) => d
    case None => DefaultDuration(phase)
  }

  // ---------------------------------------------------------------------
  // The action ledger: a dictionary keyed by actor, in insertion order.
  // ---------------------------------------------------------------------

  predicate UniqueActors(s: seq<PhaseAction>)
  {
    forall i, j :: 0 <= i < j < |s| ==> s[i].actor != s[j].actor
  }

  /** The entry recorded for `actor`, if any. */
  function Lookup(s: seq<PhaseAction>, actor: Id): (r: Option<PhaseAction>)
    ensures r.Some? <==> exists i :: 0 <= i < |s| && s[i].actor == actor
    ensures r.Some? ==> r.value in s && r.value.actor == actor
  {
    if |s| == 0 then None
    else if s[0].actor == actor then Some(s[0])
    else
      var r := Lookup(s[1..], actor);
      assert forall i :: 0 <= i < |s| - 1 ==> s[1..][i] == s[i + 1];
      r
  }

  /**
   * Dictionary assignment `ledger[a.actor] = a`: an existing entry for the
   * actor is replaced where it stands, otherwise the entry is appended.
   */
  function Upsert(s: seq<PhaseAction>, a: PhaseAction): (r: seq<PhaseAction>)
    ensures Lookup(s, a.actor).None? ==> r == s + [a]
    ensures Lookup(s, a.actor).Some? ==> |r| == |s|
    ensures forall i :: 0 <= i < |s| && s[i].actor != a.actor ==> r[i] == s[i]
    ensures forall i :: 0 <= i < |s| ==> r[i].actor == s[i].actor
    ensures forall x :: x in r ==> x in s || x == a
  {
    if |s| == 0 then [a]
    else if s[0].actor == a.actor then [a] + s[1..]
    else
      assert forall i :: 0 <= i < |s| - 1 ==> s[1..][i] == s[i + 1];
      [s[0]] + Upsert(s[1..], a)
  }

  /** An assignment keeps one entry per actor. */
  lemma UpsertKeepsUnique(s: seq<PhaseAction>, a: PhaseAction)
    requires UniqueActors(s)
    ensures UniqueActors(Upsert(s, a))
  {
    var r := Upsert(s, a);
    if Lookup(s, a.actor).None? {
      forall i, j | 0 <= i < j < |r|
        ensures r[i].actor != r[j].actor
      {
        if j == |s| {
          assert s[i].actor != a.actor;
        }
      }
    }
  }

  /** After an assignment the actor maps to exactly the new entry and every other actor keeps its entry. */
  lemma {:induction false} UpsertLookup(s: seq<PhaseAction>, a: PhaseAction, x: Id)
    ensures Lookup(Upsert(s, a), x) == if x == a.actor then Some(a) else Lookup(s, x)
  {
    if |s| == 0 {
    } else if s[0].actor == a.actor {
    } else {
      UpsertLookup(s[1..], a, x);
      assert Upsert(s, a)[1..] == Upsert(s[1..], a);
    }
  }

  /** Of two submissions by the same actor only the later one is kept. */
  lemma LastSubmissionWins(s: seq<PhaseAction>, a: PhaseAction, b: PhaseAction)
    requires a.actor == b.actor
    ensures Lookup(Upsert(Upsert(s, a), b), a.actor) == Some(b)
    ensures forall x :: x != a.actor ==> Lookup(Upsert(Upsert(s, a), b), x) == Lookup(s, x)
  {
    UpsertLookup(Upsert(s, a), b, a.actor);
    forall x | x != a.actor
      ensures Lookup(Upsert(Upsert(s, a), b), x) == Lookup(s, x)
    {
      UpsertLookup(Upsert(s, a), b, x);
      UpsertLookup(s, a, x);
    }
  }

  // ---------------------------------------------------------------------
  // Validation of a submitted action.
  // ---------------------------------------------------------------------

  datatype Rejection =
    | ActorMissingOrDead | NotAllowedByDay | OnlyVoting | NotAllowedForRole
    | TargetMissingOrDead | SelfTarget | MafiaTarget

  /** Every player record is stored under its own id. */
  predicate StoreConsistent(players: map<Id, Player>)
  {
    forall i :: i in players ==> players[i].id == i
  }

  ghost predicate AllConsistent(players: map<Id, Player>)
    reads players.Values
  {
    forall i :: i in players ==> players[i].Consistent()
  }

  predicate Living(players: map<Id, Player>, i: Id)
    reads players.Values
  {
    i in players && players[i].isAlive
  }

  /** The one night action each acting role may take. */
  function RoleAction(role: Option<Role>): (a: Option<ActionType>)
    ensures a.Some? <==> HasNightAction(role)
  {
    match role
    case Some(Mafia) => Some(KillAct)
    case Some(Doctor) => Some(HealAct)
    case Some(Detective) => Some(InvestigateAct)
    case Some(Vigilante) => Some(VigilanteKillAct)
    case _ => None
  }

  /** The night checks on a given target. */
  predicate TargetAcceptable(players: map<Id, Player>, actor: Id, kind: ActionType, t: Id)
    reads players.Values
  {
    Living(players, t) && t != actor && !(kind == KillAct && players[t].role == Some(Mafia))
  }

  /** `None` accepts the submission; otherwise the first check that failed. */
  function ValidateAction(phase: GamePhase, actor: Id, kind: ActionType, target: Option<Id>,
                          players: map<Id, Player>): (r: Option<Rejection>)
    reads players.Values
    ensures !Living(players, actor) ==> r == Some(ActorMissingOrDead)
    ensures Living(players, actor) && phase == Day ==>
      (r == None <==> kind in {SpeakAct, AccuseAct, DefendAct})
    ensures Living(players, actor) && phase == Voting ==> (r == None <==> kind == VoteAct)
    ensures Living(players, actor) && (phase == Trial || phase == Finished) ==> r == None
    ensures Living(players, actor) && phase == Night ==>
      (r == None <==>
        RoleAction(players[actor].role) == Some(kind) &&
        (target.Some? ==> TargetAcceptable(players, actor, kind, target.value)))
    ensures Living(players, actor) && phase == Night && RoleAction(players[actor].role) == Some(kind) &&
            target.Some? && !Living(players, target.value) ==>
      r == Some(TargetMissingOrDead)
  {
    if !Living(players, actor) then Some(ActorMissingOrDead)
    else
      match phase
      case Day => if kind in {SpeakAct, AccuseAct, DefendAct} then None else Some(NotAllowedByDay)
      case Voting => if kind == VoteAct then None else Some(OnlyVoting)
      case Night =>
        if RoleAction(players[actor].role) != Some(kind) then Some(NotAllowedForRole)
        else (
          match target
          case None => None
          case Some(t) =>
            if !Living(players, t) then Some(TargetMissingOrDead)
            else if t == actor then Some(SelfTarget)
            else if kind == KillAct && players[t].role == Some(Mafia) then Some(MafiaTarget)
            else None)
      case _ => None
  }

  // ---------------------------------------------------------------------
  // Night resolution, specified as folds over the ledger.
  // ---------------------------------------------------------------------

  /** The actions of one kind, in ledger order. */
  function OfKind(s: seq<PhaseAction>, kind: ActionType): (r: seq<PhaseAction>)
    ensures forall a :: a in r <==> a in s && a.kind == kind
    ensures |r| <= |s|
  {
    if |s| == 0 then []
    else OfKind(s[..|s| - 1], kind) + (if s[|s| - 1].kind == kind then [s[|s| - 1]] else [])
  }

  /** The protected set: the targets of the heals. */
  function HealTargets(heals: seq<PhaseAction>): set<Id>
  {
    set h | h in heals && h.target.Some? :: h.target.value
  }

  datatype KillOutcome = KillOutcome(blocked: bool, killer: Id, target: Id)
  datatype HealOutcome = HealOutcome(healer: Id, target: Id)
  datatype InvestigationOutcome = InvestigationOutcome(investigator: Id, target: Id, isMafia: bool)
  datatype NightResults = NightResults(kills: seq<KillOutcome>, heals: seq<HealOutcome>,
                                       investigations: seq<InvestigationOutcome>,
                                       vigilanteKills: seq<KillOutcome>)

  /** The outcomes reported so far and who is alive. */
  datatype KillState = KillState(outcomes: seq<KillOutcome>, alive: map<Id, bool>)

  /** One kill: only a target that exists and is alive yields an outcome, blocked when protected. */
  function KillStep(st: KillState, k: PhaseAction, protected: set<Id>): (r: KillState)
    ensures r.alive.Keys == st.alive.Keys
  {
    match k.target
    case None => st
    case Some(t) =>
      if t in st.alive && st.alive[t] then
        if t in protected then KillState(st.outcomes + [KillOutcome(true, k.actor, t)], st.alive)
        else KillState(st.outcomes + [KillOutcome(false, k.actor, t)], st.alive[t := false])
      else st
  }

  /**
   * A kill pass of the night: the kills in ledger order, each a KillStep on
   * the outcomes and survivors left by the ones before it; the pass keeps
   * the same players in the table.
   */
  function KillPass(ks: seq<PhaseAction>, protected: set<Id>, alive: map<Id, bool>): (r: KillState)
    ensures r.alive.Keys == alive.Keys
  {
    if |ks| == 0 then KillState([], alive)
    else KillStep(KillPass(ks[..|ks| - 1], protected, alive), ks[|ks| - 1], protected)
  }

  /** No two successful outcomes name the same target. */
  predicate DistinctSuccesses(out: seq<KillOutcome>)
  {
    forall i, j :: 0 <= i < j < |out| && !out[i].blocked && !out[j].blocked ==> out[i].target != out[j].target
  }

  /** A kill pass kills nobody outside the table, raises nobody and leaves protected players as they were. */
  lemma {:induction false} KillPassAlive(ks: seq<PhaseAction>, protected: set<Id>, alive: map<Id, bool>)
    ensures forall t :: t in alive && KillPass(ks, protected, alive).alive[t] ==> alive[t]
    ensures forall t :: t in alive && t in protected ==> KillPass(ks, protected, alive).alive[t] == alive[t]
  {
    if |ks| > 0 {
      KillPassAlive(ks[..|ks| - 1], protected, alive);
    }
  }

  /**
   * Every outcome answers a kill on a target that was alive, is blocked
   * exactly when the target is protected, and a successful one leaves its
   * target dead; and no target is killed twice.
   */
  lemma {:induction false} KillPassOutcomes(ks: seq<PhaseAction>, protected: set<Id>, alive: map<Id, bool>)
    ensures forall o :: o in KillPass(ks, protected, alive).outcomes ==>
      o.target in alive && alive[o.target] && (o.blocked <==> o.target in protected)
    ensures forall o :: o in KillPass(ks, protected, alive).outcomes && !o.blocked ==>
      !KillPass(ks, protected, alive).alive[o.target]
    ensures forall o :: o in KillPass(ks, protected, alive).outcomes ==>
      exists k :: k in ks && k.actor == o.killer && k.target == Some(o.target)
    ensures DistinctSuccesses(KillPass(ks, protected, alive).outcomes)
  {
    if |ks| > 0 {
      var pre := ks[..|ks| - 1];
      KillPassOutcomes(pre, protected, alive);
      KillPassAlive(pre, protected, alive);
      var st := KillPass(pre, protected, alive);
      var out := KillPass(ks, protected, alive).outcomes;
      forall i, j | 0 <= i < j < |out| && !out[i].blocked && !out[j].blocked
        ensures out[i].target != out[j].target
      {
        if j < |st.outcomes| {
          assert out[i] == st.outcomes[i] && out[j] == st.outcomes[j];
        } else {
          var k := ks[|ks| - 1];
          assert KillPass(ks, protected, alive) == KillStep(st, k, protected);
          assert k.target.Some? && k.target.value in st.alive && st.alive[k.target.value];
          assert out == st.outcomes + [out[j]] && out[j].target == k.target.value;
          assert out[i] == st.outcomes[i];
          assert out[i] in st.outcomes;
          assert !st.alive[out[i].target];
        }
      }
      forall o | o in KillPass(ks, protected, alive).outcomes
        ensures exists k :: k in ks && k.actor == o.killer && k.target == Some(o.target)
      {
        if o in st.outcomes {
          var k :| k in pre && k.actor == o.killer && k.target == Some(o.target);
          assert k in ks;
        } else {
          assert ks[|ks| - 1] in ks;
        }
      }
    }
  }

  /** Whoever was alive and dies in the pass has a successful outcome, and every unprotected living target dies. */
  lemma {:induction false} KillPassDeaths(ks: seq<PhaseAction>, protected: set<Id>, alive: map<Id, bool>)
    ensures forall t :: t in alive && alive[t] && !KillPass(ks, protected, alive).alive[t] ==>
      exists o :: o in KillPass(ks, protected, alive).outcomes && !o.blocked && o.target == t
    ensures forall k :: k in ks && k.target.Some? && k.target.value in alive && alive[k.target.value] &&
                        k.target.value !in protected ==>
      !KillPass(ks, protected, alive).alive[k.target.value]
  {
    if |ks| > 0 {
      var pre := ks[..|ks| - 1];
      KillPassDeaths(pre, protected, alive);
      KillPassAlive(pre, protected, alive);
      forall k | k in ks && k.target.Some? && k.target.value in alive && alive[k.target.value] &&
                 k.target.value !in protected
        ensures !KillPass(ks, protected, alive).alive[k.target.value]
      {
        if k in pre {
        } else {
          assert k == ks[|ks| - 1];
        }
      }
    }
  }

  /** The heals whose target exists; a heal never changes who is alive. */
  function HealResults(heals: seq<PhaseAction>, known: set<Id>): (r: seq<HealOutcome>)
    ensures |r| <= |heals|
    ensures forall o :: o in r ==>
      o.target in known && exists h :: h in heals && h.actor == o.healer && h.target == Some(o.target)
    ensures forall h :: h in heals && h.target.Some? && h.target.value in known ==>
      HealOutcome(h.actor, h.target.value) in r
  {
    if |heals| == 0 then []
    else
      var h := heals[|heals| - 1];
      assert forall x :: x in heals[..|heals| - 1] ==> x in heals;
      HealResults(heals[..|heals| - 1], known) +
        (if h.target.Some? && h.target.value in known then [HealOutcome(h.actor, h.target.value)] else [])
  }

  /** The investigations whose target exists, each reporting whether the target's role is Mafia. */
  function InvestigationResults(invs: seq<PhaseAction>, roles: map<Id, Option<Role>>): (r: seq<InvestigationOutcome>)
    ensures |r| <= |invs|
    ensures forall o :: o in r ==>
      o.target in roles && (o.isMafia <==> roles[o.target] == Some(Mafia)) &&
      exists v :: v in invs && v.actor == o.investigator && v.target == Some(o.target)
    ensures forall v :: v in invs && v.target.Some? && v.target.value in roles ==>
      InvestigationOutcome(v.actor, v.target.value, roles[v.target.value] == Some(Mafia)) in r
  {
    if |invs| == 0 then []
    else
      var v := invs[|invs| - 1];
      assert forall x :: x in invs[..|invs| - 1] ==> x in invs;
      InvestigationResults(invs[..|invs| - 1], roles) +
        (if v.target.Some? && v.target.value in roles
         then [InvestigationOutcome(v.actor, v.target.value, roles[v.target.value] == Some(Mafia))]
         else [])
  }

  /**
   * The whole night on a ledger: Mafia kills first, then the heal and
   * investigation reports, then the vigilante kills against the players the
   * Mafia left alive; both kill passes share one protected set.
   */
  function MafiaPass(acts: seq<PhaseAction>, alive: map<Id, bool>): KillState
  {
    KillPass(OfKind(acts, KillAct), HealTargets(OfKind(acts, HealAct)), alive)
  }

  function VigilantePass(acts: seq<PhaseAction>, alive: map<Id, bool>): KillState
  {
    KillPass(OfKind(acts, VigilanteKillAct), HealTargets(OfKind(acts, HealAct)), MafiaPass(acts, alive).alive)
  }

  function NightOutcome(acts: seq<PhaseAction>, alive: map<Id, bool>, roles: map<Id, Option<Role>>): NightResults
  {
    NightResults(MafiaPass(acts, alive).outcomes,
                 HealResults(OfKind(acts, HealAct), alive.Keys),
                 InvestigationResults(OfKind(acts, InvestigateAct), roles),
                 VigilantePass(acts, alive).outcomes)
  }

  /** Who is alive after the night. */
  function NightSurvivors(acts: seq<PhaseAction>, alive: map<Id, bool>): (r: map<Id, bool>)
    ensures r.Keys == alive.Keys
  {
    VigilantePass(acts, alive).alive
  }

  /**
   * Over the whole night nobody comes back to life, a healed player ends the
   * night as they began it, and every death is reported by a successful kill
   * of one of the two passes.
   */
  lemma NightSurvivorsFacts(acts: seq<PhaseAction>, alive: map<Id, bool>)
    ensures forall t :: t in alive && NightSurvivors(acts, alive)[t] ==> alive[t]
    ensures forall t :: t in alive && t in HealTargets(OfKind(acts, HealAct)) ==>
      NightSurvivors(acts, alive)[t] == alive[t]
    ensures forall t :: t in alive && alive[t] && !NightSurvivors(acts, alive)[t] ==>
      (exists o :: o in MafiaPass(acts, alive).outcomes && !o.blocked && o.target == t) ||
      (exists o :: o in VigilantePass(acts, alive).outcomes && !o.blocked && o.target == t)
  {
    var p := HealTargets(OfKind(acts, HealAct));
    var m := MafiaPass(acts, alive);
    KillPassAlive(OfKind(acts, KillAct), p, alive);
    KillPassAlive(OfKind(acts, VigilanteKillAct), p, m.alive);
    KillPassDeaths(OfKind(acts, KillAct), p, alive);
    KillPassDeaths(OfKind(acts, VigilanteKillAct), p, m.alive);
  }

  /** Nobody is killed twice in a night: the successful kills of both passes name distinct targets. */
  lemma NightKillsOnce(acts: seq<PhaseAction>, alive: map<Id, bool>)
    ensures DistinctSuccesses(MafiaPass(acts, alive).outcomes + VigilantePass(acts, alive).outcomes)
  {
    var p := HealTargets(OfKind(acts, HealAct));
    var m := MafiaPass(acts, alive);
    var v := VigilantePass(acts, alive);
    KillPassOutcomes(OfKind(acts, KillAct), p, alive);
    KillPassOutcomes(OfKind(acts, VigilanteKillAct), p, m.alive);
    var out := m.outcomes + v.outcomes;
    forall i, j | 0 <= i < j < |out| && !out[i].blocked && !out[j].blocked
      ensures out[i].target != out[j].target
    {
      if j < |m.outcomes| {
        assert out[i] == m.outcomes[i] && out[j] == m.outcomes[j];
      } else if i >= |m.outcomes| {
        assert out[i] == v.outcomes[i - |m.outcomes|] && out[j] == v.outcomes[j - |m.outcomes|];
      } else {
        assert out[i] == m.outcomes[i] && out[i] in m.outcomes;
        assert out[j] == v.outcomes[j - |m.outcomes|] && out[j] in v.outcomes;
      }
    }
  }

  /** Only a kill changes a player: the alive flags of a player table. */
  function AliveOf(players: map<Id, Player>): (m: map<Id, bool>)
    reads players.Values
    ensures m.Keys == players.Keys
  {
    map i | i in players :: players[i].isAlive
  }

  function RolesOf(players: map<Id, Player>): (m: map<Id, Option<Role>>)
    reads players.Values
    ensures m.Keys == players.Keys
  {
    map i | i in players :: players[i].role
  }

  /** The death record left by a successful kill. */
  ghost predicate KilledBy(p: Player, cause: DeathCause, killer: Id, now: int)
    reads p
  {
    !p.isAlive && p.status == Dead && p.deathCause == Some(cause) && p.killedById == Some(killer) &&
    p.deathTime == Some(now) && p.deathRound == None
  }

  /** Every successful outcome of `out` has left its target's death record. */
  ghost predicate Recorded(players: map<Id, Player>, out: seq<KillOutcome>, cause: DeathCause, now: int)
    reads players.Values
  {
    forall x :: x in out && !x.blocked ==> x.target in players && KilledBy(players[x.target], cause, x.killer, now)
  }

  /**
   * One kill pass applied to the player table: the outcomes and the new
   * alive flags are those of `KillPass`, each successful outcome kills its
   * target with the given cause, credited to the killer, and the death
   * records of an earlier pass are kept.
   */
  method ResolveKills(kills: seq<PhaseAction>, heals: seq<PhaseAction>, cause: DeathCause,
                      players: map<Id, Player>, now: int,
                      ghost earlier: seq<KillOutcome>, ghost earlierCause: DeathCause)
    returns (outcomes: seq<KillOutcome>)
    requires StoreConsistent(players) && AllConsistent(players)
    requires Recorded(players, earlier, earlierCause, now)
    modifies players.Values`isAlive, players.Values`status, players.Values`deathCause
    modifies players.Values`deathTime, players.Values`deathRound, players.Values`killedById
    ensures AllConsistent(players)
    ensures KillPass(kills, HealTargets(heals), old(AliveOf(players))) == KillState(outcomes, AliveOf(players))
    ensures Recorded(players, outcomes, cause, now)
    ensures Recorded(players, earlier, earlierCause, now)
  {
    var protected := HealTargets(heals);
    ghost var alive0 := AliveOf(players);
    outcomes := [];
    var i := 0;
    while i < |kills|
      invariant 0 <= i <= |kills|
      invariant AllConsistent(players)
      invariant KillPass(kills[..i], protected, alive0) == KillState(outcomes, AliveOf(players))
      invariant Recorded(players, outcomes, cause, now)
      invariant Recorded(players, earlier, earlierCause, now)
    {
      assert kills[..i + 1][..i] == kills[..i];
      ghost var st := KillState(outcomes, AliveOf(players));
      var o := ApplyKill(kills[i], protected, cause, players, now, outcomes, earlier, earlierCause);
      KillStepAppend(st, kills[i], protected);
      outcomes := outcomes + o;
      i := i + 1;
    }
    assert kills[..|kills|] == kills;
  }

  lemma KillStepAppend(st: KillState, k: PhaseAction, protected: set<Id>)
    ensures KillStep(st, k, protected) ==
      KillState(st.outcomes + KillStep(KillState([], st.alive), k, protected).outcomes,
                KillStep(KillState([], st.alive), k, protected).alive)
  {
  }

  /** One kill of a pass, applied to the player table; only a living target is touched. */
  method ApplyKill(k: PhaseAction, protected: set<Id>, cause: DeathCause, players: map<Id, Player>, now: int,
                   ghost done: seq<KillOutcome>, ghost earlier: seq<KillOutcome>, ghost earlierCause: DeathCause)
    returns (o: seq<KillOutcome>)
    requires StoreConsistent(players) && AllConsistent(players)
    requires Recorded(players, done, cause, now) && Recorded(players, earlier, earlierCause, now)
    modifies players.Values`isAlive, players.Values`status, players.Values`deathCause
    modifies players.Values`deathTime, players.Values`deathRound, players.Values`killedById
    ensures AllConsistent(players)
    ensures KillStep(KillState([], old(AliveOf(players))), k, protected) == KillState(o, AliveOf(players))
    ensures Recorded(players, done + o, cause, now) && Recorded(players, earlier, earlierCause, now)
  {
    o := [];
    if k.target.Some? && k.target.value in players && players[k.target.value].isAlive {
      var t := k.target.value;
      var target := players[t];
      if t in protected {
        o := [KillOutcome(true, k.actor, t)];
      } else {
        ghost var before := AliveOf(players);
        var killed := target.Kill(cause, Some(k.actor), None, now);
        assert AliveOf(players) == before[t := false];
        o := [KillOutcome(false, k.actor, t)];
      }
    }
  }

  /** The heal reports, built by one pass over the heals. */
  method ProcessHeals(heals: seq<PhaseAction>, players: map<Id, Player>) returns (r: seq<HealOutcome>)
    ensures r == HealResults(heals, players.Keys)
  {
    r := [];
    var i := 0;
    while i < |heals|
      invariant 0 <= i <= |heals|
      invariant r == HealResults(heals[..i], players.Keys)
    {
      var h := heals[i];
      assert heals[..i + 1][..i] == heals[..i];
      if h.target.Some? && h.target.value in players {
        r := r + [HealOutcome(h.actor, h.target.value)];
      }
      i := i + 1;
    }
    assert heals[..|heals|] == heals;
  }

  /** The investigation reports, built by one pass over the investigations. */
  method ProcessInvestigations(invs: seq<PhaseAction>, players: map<Id, Player>)
    returns (r: seq<InvestigationOutcome>)
    ensures r == InvestigationResults(invs, RolesOf(players))
  {
    r := [];
    var i := 0;
    while i < |invs|
      invariant 0 <= i <= |invs|
      invariant r == InvestigationResults(invs[..i], RolesOf(players))
    {
      var v := invs[i];
      assert invs[..i + 1][..i] == invs[..i];
      if v.target.Some? && v.target.value in players {
        var isMafia := players[v.target.value].role == Some(Mafia);
        r := r + [InvestigationOutcome(v.actor, v.target.value, isMafia)];
      }
      i := i + 1;
    }
    assert invs[..|invs|] == invs;
  }

  /** One more action of the ledger adds itself to its own kind's list. */
  lemma OfKindStep(acts: seq<PhaseAction>, i: nat, kind: ActionType)
    requires i < |acts|
    ensures OfKind(acts[..i + 1], kind) == OfKind(acts[..i], kind) + (if acts[i].kind == kind then [acts[i]] else [])
  {
    assert acts[..i + 1][..i] == acts[..i];
  }

  /** The ledger split by kind, in ledger order, by one pass over it. */
  method Partition(acts: seq<PhaseAction>)
    returns (kills: seq<PhaseAction>, heals: seq<PhaseAction>, invs: seq<PhaseAction>, vigilante: seq<PhaseAction>)
    ensures kills == OfKind(acts, KillAct) && heals == OfKind(acts, HealAct)
    ensures invs == OfKind(acts, InvestigateAct) && vigilante == OfKind(acts, VigilanteKillAct)
  {
    kills, heals, invs, vigilante := [], [], [], [];
    var i := 0;
    while i < |acts|
      invariant 0 <= i <= |acts|
      invariant kills == OfKind(acts[..i], KillAct) && heals == OfKind(acts[..i], HealAct)
      invariant invs == OfKind(acts[..i], InvestigateAct) && vigilante == OfKind(acts[..i], VigilanteKillAct)
    {
      var a := acts[i];
      OfKindStep(acts, i, KillAct);
      OfKindStep(acts, i, HealAct);
      OfKindStep(acts, i, InvestigateAct);
      OfKindStep(acts, i, VigilanteKillAct);
      match a.kind {
        case KillAct => kills := kills + [a];
        case HealAct => heals := heals + [a];
        case InvestigateAct => invs := invs + [a];
        case VigilanteKillAct => vigilante := vigilante + [a];
        case _ =>
      }
      i := i + 1;
    }
    assert acts[..|acts|] == acts;
  }

  /**
   * The night on the player table: the reports are those of `NightOutcome`
   * and the players left alive are exactly `NightSurvivors`.
   */
  method ProcessNightActions(acts: seq<PhaseAction>, players: map<Id, Player>, now: int) returns (night: NightResults)
    requires StoreConsistent(players) && AllConsistent(players)
    modifies players.Values`isAlive, players.Values`status, players.Values`deathCause
    modifies players.Values`deathTime, players.Values`deathRound, players.Values`killedById
    ensures AllConsistent(players)
    ensures night == NightOutcome(acts, old(AliveOf(players)), old(RolesOf(players)))
    ensures AliveOf(players) == NightSurvivors(acts, old(AliveOf(players)))
    ensures Recorded(players, night.kills, MafiaKill, now)
    ensures Recorded(players, night.vigilanteKills, VigilanteKill, now)
  {
    var kills, heals, invs, vigilante := Partition(acts);
    night := ResolveNight(kills, heals, invs, vigilante, players, now);
  }

  /** The night on the ledger already split by kind, in the source's order of passes. */
  method ResolveNight(kills: seq<PhaseAction>, heals: seq<PhaseAction>, invs: seq<PhaseAction>,
                      vigilante: seq<PhaseAction>, players: map<Id, Player>, now: int)
    returns (night: NightResults)
    requires StoreConsistent(players) && AllConsistent(players)
    modifies players.Values`isAlive, players.Values`status, players.Values`deathCause
    modifies players.Values`deathTime, players.Values`deathRound, players.Values`killedById
    ensures AllConsistent(players)
    ensures var m := KillPass(kills, HealTargets(heals), old(AliveOf(players)));
      night.kills == m.outcomes &&
      night.heals == HealResults(heals, players.Keys) &&
      night.investigations == InvestigationResults(invs, old(RolesOf(players))) &&
      KillPass(vigilante, HealTargets(heals), m.alive) == KillState(night.vigilanteKills, AliveOf(players))
    ensures Recorded(players, night.kills, MafiaKill, now)
    ensures Recorded(players, night.vigilanteKills, VigilanteKill, now)
  {
    ghost var roles0 := RolesOf(players);
    var killResults := ResolveKills(kills, heals, MafiaKill, players, now, [], MafiaKill);
    var healResults := ProcessHeals(heals, players);
    assert RolesOf(players) == roles0;
    var invResults := ProcessInvestigations(invs, players);
    var vigilanteResults := ResolveKills(vigilante, heals, VigilanteKill, players, now, killResults, MafiaKill);
    night := NightResults(killResults, healResults, invResults, vigilanteResults);
  }

  // ---------------------------------------------------------------------
  // The timer and the manager.
  // ---------------------------------------------------------------------

  /** A phase deadline; the source's background thread becomes `PhaseManager.TimerFired`. */
  class PhaseTimer {
    const duration: int
    const startTime: int
    var endTime: int
    var isActive: bool

    constructor (duration: int, now: int)
      ensures this.duration == duration && startTime == now && endTime == now + duration && isActive
    {
      this.duration := duration;
      startTime := now;
      endTime := now + duration;
      isActive := true;
    }

    /** The deadline has passed; this does not look at whether the timer was cancelled. */
    predicate IsExpired(now: int)
      reads this
    {
      now >= endTime
    }

    /** Whole seconds left: 0 once cancelled or past the deadline, else the distance to it. */
    function RemainingTime(now: int): (r: int)
      reads this
      ensures r >= 0
      ensures !isActive ==> r == 0
      ensures isActive && !IsExpired(now) ==> now + r == endTime
      ensures isActive ==> (r == 0 <==> IsExpired(now))
    {
      if !isActive then 0
      else if endTime - now > 0 then endTime - now
      else 0
    }

    method Cancel()
      modifies this`isActive
      ensures !isActive
    {
      isActive := false;
    }

    /** Moves the deadline while the timer runs; a cancelled timer stays as it is. */
    method Extend(seconds: int)
      modifies this`endTime
      ensures isActive ==> endTime == old(endTime) + seconds
      ensures !isActive ==> endTime == old(endTime)
    {
      if isActive {
        endTime := endTime + seconds;
      }
    }
  }

  /** One entry of the phase-change notifications: the phase and the duration it was started with. */
  datatype PhaseChange = PhaseChange(phase: GamePhase, duration: int)

  /** The phase that a timeout moves to, if any: Day goes to Voting, Night to Day, nothing else moves. */
  function TimeoutTarget(active: bool, phase: GamePhase): (r: Option<GamePhase>)
    ensures r.Some? <==> active && (phase == Day || phase == Night)
  {
    if !active then None
    else
      match phase
      case Day => Some(Voting)
      case Night => Some(Day)
      case _ => None
  }

  /**
   * The part of a manager that decides where the game can go next: its
   * phase, whether it is active, and whether its lock is wedged (held for
   * good by a thread that asked for it a second time).
   */
  datatype PhaseView = PhaseView(phase: GamePhase, active: bool, wedged: bool)

  /** The manager's entry points, as seen from outside. */
  datatype Call = TimeoutCall | ForceEndCall(hasTimer: bool) | StartCall(target: GamePhase)
                | SubmitCall | ExtendCall | StopCall

  /**
   * One call as the source is written. `_on_phase_timeout` holds the lock
   * while it calls `start_phase`, which asks for the same non-reentrant lock:
   * an active Day or Night timeout never returns and the lock stays taken.
   * From then on every call that takes the lock (timeout, forced end, start,
   * submit) blocks and changes nothing; `stop` and `extend_phase` take no lock.
   */
  function StepAsWritten(v: PhaseView, c: Call): (r: PhaseView)
    ensures v.wedged ==> r.wedged && r.phase == v.phase
    ensures c == TimeoutCall && !v.wedged ==> (r.wedged <==> TimeoutTarget(v.active, v.phase).Some?)
  {
    match c
    case TimeoutCall =>
      if v.wedged || TimeoutTarget(v.active, v.phase).None? then v else v.(wedged := true)
    case ForceEndCall(hasTimer) =>
      if !hasTimer || v.wedged || TimeoutTarget(v.active, v.phase).None? then v else v.(wedged := true)
    case StartCall(target) =>
      if v.wedged || !v.active then v else v.(phase := target)
    case SubmitCall => v
    case ExtendCall => v
    case StopCall => v.(active := false)
  }

  /** The view after a sequence of calls, the first call first. */
  function RunAsWritten(v: PhaseView, calls: seq<Call>): PhaseView
    decreases |calls|
  {
    if calls == [] then v else RunAsWritten(StepAsWritten(v, calls[0]), calls[1..])
  }

  /** Once the lock is wedged no sequence of calls moves the phase or frees the lock. */
  lemma {:induction false} WedgedForever(v: PhaseView, calls: seq<Call>)
    requires v.wedged
    ensures RunAsWritten(v, calls).wedged && RunAsWritten(v, calls).phase == v.phase
    decreases |calls|
  {
    if calls != [] {
      WedgedForever(StepAsWritten(v, calls[0]), calls[1..]);
    }
  }

  /**
   * An active Day timeout, as written, leaves the game in Day whatever is
   * called afterwards, where the intended timeout moves it to Voting.
   */
  lemma DayTimeoutNeverVotes(v: PhaseView, calls: seq<Call>)
    requires v.active && v.phase == Day && !v.wedged
    ensures TimeoutTarget(v.active, v.phase) == Some(Voting)
    ensures RunAsWritten(StepAsWritten(v, TimeoutCall), calls).phase == Day
  {
    WedgedForever(StepAsWritten(v, TimeoutCall), calls);
  }

  /** The same for Night: the game never reaches Day, where the intended timeout starts it. */
  lemma NightTimeoutNeverDawns(v: PhaseView, calls: seq<Call>)
    requires v.active && v.phase == Night && !v.wedged
    ensures TimeoutTarget(v.active, v.phase) == Some(Day)
    ensures RunAsWritten(StepAsWritten(v, TimeoutCall), calls).phase == Night
  {
    WedgedForever(StepAsWritten(v, TimeoutCall), calls);
  }

  class PhaseManager {
    const gameId: Id
    var currentPhase: GamePhase
    var phaseTimer: PhaseTimer?
    var actions: seq<PhaseAction>
    var phaseStartTime: int
    var isActive: bool
    /** The notifications sent to the phase-change callback, oldest first. */
    var phaseChanges: seq<PhaseChange>
    /** Whether the lock is held for good; only the as-written timeout sets it. */
    var wedged: bool

    ghost function View(): PhaseView
      reads this
    {
      PhaseView(currentPhase, isActive, wedged)
    }

    ghost predicate Valid()
      reads this
    {
      UniqueActors(actions)
    }

    /** A new manager is active in the Day phase with no timer and an empty ledger. */
    constructor (gameId: Id, now: int)
      ensures this.gameId == gameId && currentPhase == Day && phaseTimer == null && actions == []
      ensures phaseStartTime == now && isActive && phaseChanges == [] && !wedged
      ensures Valid()
    {
      this.gameId := gameId;
      currentPhase := Day;
      phaseTimer := null;
      actions := [];
      phaseStartTime := now;
      isActive := true;
      phaseChanges := [];
      wedged := false;
    }

    /**
     * Starts `phase`: a stopped manager refuses and changes nothing; otherwise
     * the old timer is cancelled, the ledger emptied, and a fresh timer set
     * only for a positive duration (the given one, else the default).
     */
    method StartPhase(phase: GamePhase, duration: Option<int>, now: int) returns (ok: bool)
      modifies this, phaseTimer
      ensures ok == old(isActive)
      ensures !ok ==> unchanged(this) && (old(phaseTimer) != null ==> unchanged(old(phaseTimer)))
      ensures ok ==> currentPhase == phase && actions == [] && phaseStartTime == now && isActive
      ensures ok ==> old(phaseTimer) != null ==> !old(phaseTimer).isActive
      ensures ok ==> phaseChanges == old(phaseChanges) + [PhaseChange(phase, ResolvedDuration(phase, duration))]
      ensures ok && ResolvedDuration(phase, duration) > 0 ==>
        phaseTimer != null && fresh(phaseTimer) && phaseTimer.isActive &&
        phaseTimer.duration == ResolvedDuration(phase, duration) && phaseTimer.startTime == now &&
        phaseTimer.endTime == now + ResolvedDuration(phase, duration)
      ensures ok && ResolvedDuration(phase, duration) <= 0 ==> phaseTimer == null
      ensures wedged == old(wedged)
      ensures old(Valid()) ==> Valid()
    {
      if !isActive {
        return false;
      }
      if phaseTimer != null {
        phaseTimer.Cancel();
        phaseTimer := null;
      }
      currentPhase := phase;
      phaseStartTime := now;
      actions := [];
      var d := if duration.Some? then duration.value else DefaultDuration(phase);
      if d > 0 {
        phaseTimer := new PhaseTimer(d, now);
      }
      phaseChanges := phaseChanges + [PhaseChange(phase, d)];
      return true;
    }

    /**
     * Records an action: refused while stopped or when validation fails,
     * leaving the ledger as it was; otherwise the actor's entry becomes
     * exactly the new action.
     */
    method SubmitAction(actor: Id, kind: ActionType, target: Option<Id>, now: int, players: map<Id, Player>)
      returns (r: Submission)
      requires Valid()
      modifies this`actions
      ensures Valid()
      ensures r == NotActive <==> !isActive
      ensures r == Accepted <==> isActive && ValidateAction(currentPhase, actor, kind, target, players) == None
      ensures r.Rejected? ==> isActive && ValidateAction(currentPhase, actor, kind, target, players) == Some(r.reason)
      ensures r == Accepted ==> actions == Upsert(old(actions), PhaseAction(actor, kind, target, now))
      ensures r != Accepted ==> actions == old(actions)
      ensures r == Accepted ==> Lookup(actions, actor) == Some(PhaseAction(actor, kind, target, now))
      ensures r == Accepted ==> forall x :: x != actor ==> Lookup(actions, x) == Lookup(old(actions), x)
    {
      if !isActive {
        return NotActive;
      }
      var check := ValidateAction(currentPhase, actor, kind, target, players);
      if check.Some? {
        return Rejected(check.value);
      }
      var a := PhaseAction(actor, kind, target, now);
      UpsertKeepsUnique(actions, a);
      forall x
        ensures Lookup(Upsert(actions, a), x) == if x == actor then Some(a) else Lookup(actions, x)
      {
        UpsertLookup(actions, a, x);
      }
      actions := Upsert(actions, a);
      return Accepted;
    }

    /**
     * What a timeout does, relating the state before it to the state after:
     * a stopped manager, and the Voting, Trial and Finished phases, change
     * nothing; Day moves to Voting; Night resolves the ledger and moves to Day.
     */
    twostate predicate TimedOut(players: map<Id, Player>, now: int, new night: Option<NightResults>)
      reads this, phaseTimer, players.Values
    {
      var next := TimeoutTarget(old(isActive), old(currentPhase));
      (next.None? ==>
        night.None? && unchanged(this) && unchanged(players.Values)) &&
      (next.Some? ==>
        currentPhase == next.value && actions == [] && phaseStartTime == now && isActive &&
        phaseChanges == old(phaseChanges) + [PhaseChange(next.value, DefaultDuration(next.value))] &&
        phaseTimer != null && phaseTimer.isActive && phaseTimer.endTime == now + DefaultDuration(next.value)) &&
      (night.Some? <==> old(isActive) && old(currentPhase) == Night) &&
      (night.Some? ==>
        night.value == NightOutcome(old(actions), old(AliveOf(players)), old(RolesOf(players))) &&
        AliveOf(players) == NightSurvivors(old(actions), old(AliveOf(players))) &&
        Recorded(players, night.value.kills, MafiaKill, now) &&
        Recorded(players, night.value.vigilanteKills, VigilanteKill, now)) &&
      (night.None? ==> unchanged(players.Values))
    }

    method OnPhaseTimeout(players: map<Id, Player>, now: int) returns (night: Option<NightResults>)
      requires Valid() && StoreConsistent(players) && AllConsistent(players)
      modifies this, phaseTimer
      modifies players.Values`isAlive, players.Values`status, players.Values`deathCause
      modifies players.Values`deathTime, players.Values`deathRound, players.Values`killedById
      ensures Valid() && AllConsistent(players)
      ensures TimedOut(players, now, night)
      ensures phaseTimer != null && TimeoutTarget(old(isActive), old(currentPhase)).Some? ==> fresh(phaseTimer)
      ensures old(phaseTimer) != null && old(phaseTimer).isActive ==> old(phaseTimer.isActive)
    {
      if !isActive {
        return None;
      }
      match currentPhase {
        case Day =>
          var ok := StartPhase(Voting, None, now);
          night := None;
        case Night =>
          var n := EndNight(players, now);
          night := Some(n);
        case _ =>
          night := None;
      }
    }

    /** The Night timeout: the ledger is resolved against the players, then Day starts. */
    method EndNight(players: map<Id, Player>, now: int) returns (night: NightResults)
      requires isActive && currentPhase == Night
      requires Valid() && StoreConsistent(players) && AllConsistent(players)
      modifies this, phaseTimer
      modifies players.Values`isAlive, players.Values`status, players.Values`deathCause
      modifies players.Values`deathTime, players.Values`deathRound, players.Values`killedById
      ensures Valid() && AllConsistent(players)
      ensures currentPhase == Day && actions == [] && phaseStartTime == now && isActive
      ensures phaseChanges == old(phaseChanges) + [PhaseChange(Day, DefaultDuration(Day))]
      ensures phaseTimer != null && fresh(phaseTimer) && phaseTimer.isActive
      ensures phaseTimer.endTime == now + DefaultDuration(Day)
      ensures old(phaseTimer) != null ==> !old(phaseTimer).isActive
      ensures night == NightOutcome(old(actions), old(AliveOf(players)), old(RolesOf(players)))
      ensures AliveOf(players) == NightSurvivors(old(actions), old(AliveOf(players)))
      ensures Recorded(players, night.kills, MafiaKill, now)
      ensures Recorded(players, night.vigilanteKills, VigilanteKill, now)
    {
      night := ProcessNightActions(actions, players, now);
      var ok := StartPhase(Day, None, now);
    }

    /** The timer's thread: once an active timer's deadline has passed, the timeout runs. */
    method TimerFired(players: map<Id, Player>, now: int) returns (night: Option<NightResults>)
      requires Valid() && StoreConsistent(players) && AllConsistent(players)
      modifies this, phaseTimer
      modifies players.Values`isAlive, players.Values`status, players.Values`deathCause
      modifies players.Values`deathTime, players.Values`deathRound, players.Values`killedById
      ensures Valid() && AllConsistent(players)
      ensures old(phaseTimer == null || !phaseTimer.isActive || now < phaseTimer.endTime) ==>
        night.None? && unchanged(this) && unchanged(players.Values)
      ensures old(phaseTimer != null && phaseTimer.isActive && now >= phaseTimer.endTime) ==>
        TimedOut(players, now, night)
    {
      if phaseTimer != null && phaseTimer.isActive && phaseTimer.IsExpired(now) {
        night := OnPhaseTimeout(players, now);
      } else {
        night := None;
      }
    }

    /** Adds seconds to the running timer; without a timer or once stopped nothing happens. */
    method ExtendPhase(seconds: int) returns (ok: bool)
      modifies phaseTimer
      ensures ok == (phaseTimer != null && isActive)
      ensures ok && phaseTimer.isActive ==> phaseTimer.endTime == old(phaseTimer.endTime) + seconds
      ensures phaseTimer != null && !(ok && phaseTimer.isActive) ==> unchanged(phaseTimer)
    {
      if phaseTimer != null && isActive {
        phaseTimer.Extend(seconds);
        return true;
      }
      return false;
    }

    /** Cancels the timer and runs the timeout at once; without a timer or once stopped nothing happens. */
    method ForceEndPhase(players: map<Id, Player>, now: int) returns (ok: bool, night: Option<NightResults>)
      requires Valid() && StoreConsistent(players) && AllConsistent(players)
      modifies this, phaseTimer
      modifies players.Values`isAlive, players.Values`status, players.Values`deathCause
      modifies players.Values`deathTime, players.Values`deathRound, players.Values`killedById
      ensures Valid() && AllConsistent(players)
      ensures ok == old(phaseTimer != null && isActive)
      ensures !ok ==> night.None? && unchanged(this) && unchanged(players.Values)
      ensures ok ==> !old(phaseTimer).isActive && TimedOut(players, now, night)
    {
      if phaseTimer != null && isActive {
        phaseTimer.Cancel();
        night := OnPhaseTimeout(players, now);
        return true, night;
      }
      return false, None;
    }

    /** Stops the manager: it becomes inactive and its timer is cancelled and dropped. */
    method Stop()
      modifies this`isActive, this`phaseTimer, {phaseTimer}`isActive
      ensures !isActive && phaseTimer == null
      ensures old(phaseTimer) != null ==> !old(phaseTimer).isActive
      ensures currentPhase == old(currentPhase) && actions == old(actions) && phaseChanges == old(phaseChanges)
      ensures phaseStartTime == old(phaseStartTime) && wedged == old(wedged)
      ensures View() == StepAsWritten(old(View()), StopCall)
    {
      isActive := false;
      if phaseTimer != null {
        phaseTimer.Cancel();
      }
      phaseTimer := null;
    }

    /**
     * `_on_phase_timeout` as written. A wedged lock blocks it at once. An
     * active Day timeout blocks inside `start_phase` with nothing changed; an
     * active Night timeout first resolves the ledger against the players, then
     * blocks the same way, still in Night and with the ledger kept. Either way
     * the lock stays taken. The other phases change nothing.
     */
    method OnPhaseTimeoutAsWritten(players: map<Id, Player>, now: int)
      requires Valid() && StoreConsistent(players) && AllConsistent(players)
      modifies this`wedged
      modifies players.Values`isAlive, players.Values`status, players.Values`deathCause
      modifies players.Values`deathTime, players.Values`deathRound, players.Values`killedById
      ensures AllConsistent(players)
      ensures View() == StepAsWritten(old(View()), TimeoutCall)
      ensures currentPhase == old(currentPhase) && actions == old(actions)
      ensures !(!old(wedged) && old(isActive) && old(currentPhase) == Night) ==> unchanged(players.Values)
      ensures !old(wedged) && old(isActive) && old(currentPhase) == Night ==>
        AliveOf(players) == NightSurvivors(old(actions), old(AliveOf(players))) &&
        Recorded(players, NightOutcome(old(actions), old(AliveOf(players)), old(RolesOf(players))).kills, MafiaKill, now) &&
        Recorded(players, NightOutcome(old(actions), old(AliveOf(players)), old(RolesOf(players))).vigilanteKills, VigilanteKill, now)
    {
      if wedged || TimeoutTarget(isActive, currentPhase).None? {
        return;
      }
      if currentPhase == Night {
        NightAsWritten(players, now);
      } else {
        wedged := true;
      }
    }

    /** The Night branch as written: the ledger is resolved, then `start_phase` blocks on the lock. */
    method NightAsWritten(players: map<Id, Player>, now: int)
      requires !wedged && isActive && currentPhase == Night
      requires Valid() && StoreConsistent(players) && AllConsistent(players)
      modifies this`wedged
      modifies players.Values`isAlive, players.Values`status, players.Values`deathCause
      modifies players.Values`deathTime, players.Values`deathRound, players.Values`killedById
      ensures AllConsistent(players) && wedged
      ensures AliveOf(players) == NightSurvivors(actions, old(AliveOf(players)))
      ensures Recorded(players, NightOutcome(actions, old(AliveOf(players)), old(RolesOf(players))).kills, MafiaKill, now)
      ensures Recorded(players, NightOutcome(actions, old(AliveOf(players)), old(RolesOf(players))).vigilanteKills, VigilanteKill, now)
    {
      var n := ProcessNightActions(actions, players, now);
      wedged := true;
    }

    /** `force_end_phase` as written: with a timer on an active manager it cancels the timer and runs the as-written timeout. */
    method ForceEndPhaseAsWritten(players: map<Id, Player>, now: int) returns (ok: bool)
      requires Valid() && StoreConsistent(players) && AllConsistent(players)
      modifies this`wedged, phaseTimer
      modifies players.Values`isAlive, players.Values`status, players.Values`deathCause
      modifies players.Values`deathTime, players.Values`deathRound, players.Values`killedById
      ensures AllConsistent(players)
      ensures ok == old(phaseTimer != null && isActive)
      ensures View() == StepAsWritten(old(View()), ForceEndCall(old(phaseTimer) != null))
      ensures !ok ==> unchanged(this) && unchanged(players.Values)
      ensures ok ==> !old(phaseTimer).isActive
    {
      if phaseTimer != null && isActive {
        phaseTimer.Cancel();
        OnPhaseTimeoutAsWritten(players, now);
        return true;
      }
      return false;
    }

    /** `start_phase` as written: a wedged lock blocks it with nothing changed; otherwise it is `StartPhase`. */
    method StartPhaseAsWritten(phase: GamePhase, duration: Option<int>, now: int) returns (blocked: bool, ok: bool)
      modifies this, phaseTimer
      ensures blocked == old(wedged)
      ensures blocked ==> !ok && unchanged(this) && (old(phaseTimer) != null ==> unchanged(old(phaseTimer)))
      ensures !blocked ==> ok == old(isActive) && wedged == old(wedged)
      ensures !blocked && ok ==> currentPhase == phase && actions == [] && phaseStartTime == now && isActive
      ensures !blocked && ok ==> phaseChanges == old(phaseChanges) + [PhaseChange(phase, ResolvedDuration(phase, duration))]
      ensures View() == StepAsWritten(old(View()), StartCall(phase))
    {
      if wedged {
        return true, false;
      }
      ok := StartPhase(phase, duration, now);
      blocked := false;
    }

    /** `submit_action` as written: a wedged lock blocks it with nothing changed; otherwise it is `SubmitAction`. */
    method SubmitActionAsWritten(actor: Id, kind: ActionType, target: Option<Id>, now: int, players: map<Id, Player>)
      returns (blocked: bool, r: Submission)
      requires Valid()
      modifies this`actions
      ensures Valid()
      ensures blocked == old(wedged)
      ensures blocked ==> actions == old(actions)
      ensures !blocked ==> (r == Accepted <==> isActive && ValidateAction(currentPhase, actor, kind, target, players) == None)
      ensures !blocked && r == Accepted ==> actions == Upsert(old(actions), PhaseAction(actor, kind, target, now))
      ensures View() == StepAsWritten(old(View()), SubmitCall)
    {
      if wedged {
        return true, NotActive;
      }
      r := SubmitAction(actor, kind, target, now, players);
      blocked := false;
    }

    /** The action the player submitted in this phase, if any. */
    function GetPlayerAction(actor: Id): (r: Option<PhaseAction>)
      reads this
      ensures r.Some? <==> exists i :: 0 <= i < |actions| && actions[i].actor == actor
      ensures r.Some? ==> r.value in actions && r.value.actor == actor
    {
      Lookup(actions, actor)
    }
  }

  datatype Submission = Accepted | NotActive | Rejected(reason: Rejection)
}
