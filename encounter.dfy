/**
 * The rules of one combat turn of the encounter screen, stated on values:
 * the roster is the sequence of the monsters' stats in list order and the
 * hero is represented by its current life. The damage rules of the game
 * (Logic/Game.java) are not part of this model; they enter as the functions
 * of a Rules value.
 */
module Encounter {
  import opened Wrappers
  import opened ListOps
  import opened Characters

  /** The four buttons of the action bar, left to right. */
  datatype Action = Battle | Item | Defend | Escape

  /**
   * heroHit: the hero's strike (`game.heroCombat`), giving the target's new actualLife
   *          from the hero's life and the target's stats;
   * monsterHit: a monster's strike (`game.combat`), giving the hero's new life;
   * dead: `game.checkGameOver` on a life value.
   */
  datatype Rules = Rules(
    heroHit: (int, MonsterStats) -> int,
    monsterHit: (MonsterStats, int) -> int,
    dead: int -> bool)

  /** The position of the first monster with actualLife > 0: the Battle target. */
  function FirstLiving(roster: seq<MonsterStats>): (r: Option<nat>)
    ensures r.None? <==> forall i :: 0 <= i < |roster| ==> roster[i].actualLife <= 0
    ensures r.Some? ==> r.value < |roster| && roster[r.value].actualLife > 0
    ensures r.Some? ==> forall i :: 0 <= i < r.value ==> roster[i].actualLife <= 0
  {
    if |roster| == 0 then None
    else if roster[0].actualLife > 0 then Some(0)
    else match FirstLiving(roster[1..])
      case None => None
      case Some(k) => Some(k + 1)
  }

  /** A living monster with no living one before it is the first living one. */
  lemma {:induction false} FirstLivingAt(roster: seq<MonsterStats>, k: nat)
    requires k < |roster| && roster[k].actualLife > 0
    requires forall i :: 0 <= i < k ==> roster[i].actualLife <= 0
    ensures FirstLiving(roster) == Some(k)
  {
    if k > 0 {
      FirstLivingAt(roster[1..], k - 1);
    }
  }

  /** The hero's life after every monster of `attackers` strikes once, in order, with no death check. */
  function LifeAfter(attackers: seq<MonsterStats>, life: int, rules: Rules): int {
    if |attackers| == 0 then life
    else LifeAfter(attackers[1..], rules.monsterHit(attackers[0], life), rules)
  }

  /**
   * The outcome of the monster phase: the hero's life afterwards, how many
   * monsters struck (always the first ones of the roster) and whether the
   * phase stopped because the hero died.
   */
  datatype PhaseResult = PhaseResult(heroLife: int, attacks: nat, heroDied: bool)

  /**
   * The monster phase: the monsters strike in roster order, whatever their
   * own life, and the hero's death is checked after each strike; the first
   * fatal strike ends the phase.
   */
  function Phase(roster: seq<MonsterStats>, life: int, rules: Rules): (r: PhaseResult)
    ensures r.attacks <= |roster|
    ensures r.heroDied ==> 0 < r.attacks && rules.dead(r.heroLife)
    ensures !r.heroDied ==> r.attacks == |roster|
  {
    if |roster| == 0 then PhaseResult(life, 0, false)
    else
      var hit := rules.monsterHit(roster[0], life);
      if rules.dead(hit) then PhaseResult(hit, 1, true)
      else
        var rest := Phase(roster[1..], hit, rules);
        PhaseResult(rest.heroLife, rest.attacks + 1, rest.heroDied)
  }

  /** The strike of the monster at `i` in a phase over `roster[i..]`, and the rest of the phase after it. */
  lemma PhaseStep(roster: seq<MonsterStats>, i: nat, life: int, rules: Rules)
    requires i < |roster|
    ensures var hit := rules.monsterHit(roster[i], life);
      var rest := Phase(roster[i + 1..], hit, rules);
      Phase(roster[i..], life, rules) ==
        if rules.dead(hit) then PhaseResult(hit, 1, true)
        else PhaseResult(rest.heroLife, rest.attacks + 1, rest.heroDied)
  {
    assert roster[i..][1..] == roster[i + 1..];
  }

  /**
   * The monster phase is the strikes of exactly its first `attacks` monsters,
   * in order: no check after an earlier strike found the hero dead, and the
   * phase reports a death exactly when the check after the last strike did.
   */
  lemma {:induction false} PhaseStopsAtFirstDeath(roster: seq<MonsterStats>, life: int, rules: Rules)
    ensures var r := Phase(roster, life, rules);
      && r.heroLife == LifeAfter(roster[..r.attacks], life, rules)
      && (forall k :: 0 < k < r.attacks ==> !rules.dead(LifeAfter(roster[..k], life, rules)))
      && (r.heroDied <==> 0 < r.attacks && rules.dead(LifeAfter(roster[..r.attacks], life, rules)))
  {
    if |roster| > 0 {
      var hit := rules.monsterHit(roster[0], life);
      var r := Phase(roster, life, rules);
      assert LifeAfter(roster[..1], life, rules) == hit;
      if !rules.dead(hit) {
        var tail := roster[1..];
        PhaseStopsAtFirstDeath(tail, hit, rules);
        forall k | 0 < k <= r.attacks
          ensures LifeAfter(roster[..k], life, rules) == LifeAfter(tail[..k - 1], hit, rules)
        {
          assert roster[..k][1..] == tail[..k - 1];
        }
      }
    }
  }

  /**
   * An instance of the rules for illustration: a strike takes the attacker's
   * attack off the defender's life, and a life of zero or less is death.
   */
  function SubtractAttack(heroAttack: int): Rules {
    Rules((life: int, m: MonsterStats) => m.actualLife - heroAttack,
          (m: MonsterStats, life: int) => life - m.attack,
          (life: int) => life <= 0)
  }

  /**
   * Two monsters that each deal 100 against a hero with 50 life: the first
   * strike ends the phase in the hero's death and the second never acts.
   */
  lemma FirstFatalStrikeEndsPhase()
    ensures var m := MonsterStats(NoWeapon, 100, 0, 0, 0, 1, 12, 12);
      Phase([m, m], 50, SubtractAttack(10)) == PhaseResult(-50, 1, true)
  {
  }

  /**
   * The phase does not skip a monster whose own life is gone: one with
   * actualLife 0 still strikes, and so does every one after it.
   */
  lemma DeadMonstersStillStrike()
    ensures var dead := MonsterStats(NoWeapon, 5, 0, 0, 0, 1, 12, 0);
      var alive := MonsterStats(NoWeapon, 3, 0, 0, 0, 1, 12, 12);
      Phase([dead, alive], 50, SubtractAttack(10)) == PhaseResult(42, 2, false)
  {
    var dead := MonsterStats(NoWeapon, 5, 0, 0, 0, 1, 12, 0);
    var alive := MonsterStats(NoWeapon, 3, 0, 0, 0, 1, 12, 12);
    var rules := SubtractAttack(10);
    assert [dead, alive][1..] == [alive];
    assert Phase([alive], 45, rules) == PhaseResult(42, 1, false) by {
      assert [alive][1..] == [];
    }
  }

  /** The result of one action of the hero and the monster phase that follows it. */
  datatype Turn = Turn(
    struck: Option<nat>,            // roster position the hero struck (Battle only)
    pruned: bool,                   // the struck monster was removed from the roster
    exit: bool,                     // the screen asked to end the combat and return to the map
    phase: Option<PhaseResult>,     // the monster phase, when it ran
    roster: seq<MonsterStats>,      // the roster afterwards
    heroLife: int)                  // the hero's life afterwards

  /**
   * Battle: strike the first living monster, prune it if the death check
   * holds of its new life, end the combat if that emptied the roster, then
   * run the monster phase on what is left. With no living monster, end the
   * combat and do nothing else.
   */
  function BattleTurn(roster: seq<MonsterStats>, life: int, rules: Rules): (t: Turn)
    ensures t.struck == FirstLiving(roster)
    ensures t.struck.None? ==> t.exit && t.phase.None? && t.roster == roster && t.heroLife == life
    ensures t.struck.Some? ==> t.phase.Some?
  {
    match FirstLiving(roster)
    case None => Turn(None, false, true, None, roster, life)
    case Some(k) => StrikeTurn(roster, life, rules, k)
  }

  /** The roster after the hero's strike at `k`, and whether the struck monster was pruned. */
  datatype Strike = Strike(roster: seq<MonsterStats>, killed: bool)

  /**
   * The hero's strike at `k`: the struck entry's actualLife becomes the life
   * the damage rule gives, and the entry is dropped if the death check holds.
   */
  function StrikeAt(roster: seq<MonsterStats>, life: int, rules: Rules, k: nat): (s: Strike)
    requires k < |roster|
    ensures s.killed <==> rules.dead(rules.heroHit(life, roster[k]))
    ensures |s.roster| == if s.killed then |roster| - 1 else |roster|
  {
    var struck := roster[k := roster[k].(actualLife := rules.heroHit(life, roster[k]))];
    var killed := rules.dead(struck[k].actualLife);
    Strike(if killed then RemoveAt(struck, k) else struck, killed)
  }

  /** The Battle turn once the hero's target is known to be at `k`. */
  function StrikeTurn(roster: seq<MonsterStats>, life: int, rules: Rules, k: nat): (t: Turn)
    requires k < |roster|
    ensures t.struck == Some(k) && t.phase == Some(Phase(t.roster, life, rules))
    ensures t.heroLife == t.phase.value.heroLife
    ensures t.exit <==> t.pruned && |t.roster| == 0
  {
    var s := StrikeAt(roster, life, rules, k);
    var p := Phase(s.roster, life, rules);
    Turn(Some(k), s.killed, s.killed && |s.roster| == 0, Some(p), s.roster, p.heroLife)
  }

  /** One press of an action button. Item and Defend only let the monsters strike. */
  function Resolve(a: Action, roster: seq<MonsterStats>, life: int, rules: Rules): (t: Turn)
    ensures t.struck.Some? ==> a == Battle
    ensures a != Battle ==> t.roster == roster && !t.pruned
    ensures t.phase.None? <==> a == Escape || (a == Battle && FirstLiving(roster).None?)
    ensures a == Escape ==> t.exit && t.heroLife == life
  {
    match a
    case Battle => BattleTurn(roster, life, rules)
    case Item | Defend =>
      var p := Phase(roster, life, rules);
      Turn(None, false, false, Some(p), roster, p.heroLife)
    case Escape => Turn(None, false, true, None, roster, life)
  }

  /**
   * Battle strikes a monster exactly when one is alive, and then the first
   * living one: no later monster while an earlier one lives.
   */
  lemma BattleTargetsFirstLiving(roster: seq<MonsterStats>, life: int, rules: Rules)
    ensures var t := BattleTurn(roster, life, rules);
      && (t.struck.Some? <==> exists i :: 0 <= i < |roster| && roster[i].actualLife > 0)
      && (t.struck.Some? ==> t.struck.value < |roster| && roster[t.struck.value].actualLife > 0)
      && (t.struck.Some? ==> forall i :: 0 <= i < t.struck.value ==> roster[i].actualLife <= 0)
  {
  }

  /** With no living monster, Battle ends the combat with no strike by anyone. */
  lemma BattleWithNoLivingMonster(roster: seq<MonsterStats>, life: int, rules: Rules)
    requires forall i :: 0 <= i < |roster| ==> roster[i].actualLife <= 0
    ensures BattleTurn(roster, life, rules) == Turn(None, false, true, None, roster, life)
  {
  }

  /**
   * The struck monster is pruned exactly when the death check holds of its
   * new life; pruning removes that entry only and keeps the others in order,
   * and otherwise only its actualLife changes.
   */
  lemma BattlePrunesOnlyTheKilled(roster: seq<MonsterStats>, life: int, rules: Rules)
    ensures var t := BattleTurn(roster, life, rules);
      t.struck.Some? ==>
        var k := t.struck.value;
        var newLife := rules.heroHit(life, roster[k]);
        && (t.pruned <==> rules.dead(newLife))
        && (t.pruned ==> t.roster == roster[..k] + roster[k + 1..])
        && (!t.pruned ==> t.roster == roster[k := roster[k].(actualLife := newLife)])
  {
    var t := BattleTurn(roster, life, rules);
    if t.struck.Some? && t.pruned {
      var k := t.struck.value;
      var s := roster[k := roster[k].(actualLife := rules.heroHit(life, roster[k]))];
      assert RemoveAt(s, k) == roster[..k] + roster[k + 1..];
    }
  }

  /**
   * Battle ends the combat exactly when no monster is alive or the strike
   * pruned the last one; in the second case no monster strikes and the hero's
   * life is what it was before the turn.
   */
  lemma BattleVictory(roster: seq<MonsterStats>, life: int, rules: Rules)
    ensures var t := BattleTurn(roster, life, rules);
      && (t.exit <==> t.struck.None? || (t.pruned && |roster| == 1))
      && (t.exit && t.struck.Some? ==> t.roster == [] && t.phase == Some(PhaseResult(life, 0, false)) && t.heroLife == life)
  {
  }

  /** Item and Defend never strike a monster: the roster is kept and only the monster phase runs. */
  lemma ItemAndDefendOnlyLetMonstersStrike(a: Action, roster: seq<MonsterStats>, life: int, rules: Rules)
    requires a == Item || a == Defend
    ensures var t := Resolve(a, roster, life, rules);
      && t.struck.None? && !t.exit && t.roster == roster
      && t.phase == Some(Phase(roster, life, rules))
      && t.heroLife == LifeAfter(roster[..t.phase.value.attacks], life, rules)
  {
    PhaseStopsAtFirstDeath(roster, life, rules);
  }

  /** Escape ends the combat and changes nothing. */
  lemma EscapeChangesNothing(roster: seq<MonsterStats>, life: int, rules: Rules)
    ensures Resolve(Escape, roster, life, rules) == Turn(None, false, true, None, roster, life)
  {
  }
}
