/**
 * The encounter screen (GUI/CombatScreen.java): the roster of monsters it
 * generates, the action bar and its keyboard selection, and the synchronous
 * state changes of the Battle, Item, Defend and Escape actions. Requests to
 * the rest of the game (a strike through `game.heroCombat` or `game.combat`,
 * ending the combat, showing game over) are recorded in a ghost log of effects.
 */
module Combat {
  import opened Wrappers
  import opened ListOps
  import opened Characters
  import opened Encounter

  /** The sprite used when no sprite list is given. */
  const DefaultSprite: string := "/Resources/sprites/monster1.png"

  /** The action bar, left to right. */
  const Buttons: seq<Action> := [Battle, Item, Defend, Escape]

  /**
   * A sprite for a new monster: the default one when the list is null or
   * empty, otherwise the entry picked by `draw`, a value `nextInt(size)`
   * returned.
   */
  function ChooseRandomSprite(paths: Option<seq<string>>, draw: nat): (r: string)
    requires paths.Some? && |paths.value| > 0 ==> draw < |paths.value|
    ensures paths.None? || |paths.value| == 0 ==> r == DefaultSprite
    ensures paths.Some? && |paths.value| > 0 ==> r in paths.value
  {
    if paths.None? || |paths.value| == 0 then DefaultSprite
    else paths.value[draw]
  }

  /** The stats every generated monster starts with. */
  function DebugStats(weapon: WeaponRef): (r: MonsterStats)
    ensures r.life == r.actualLife == 12 && r.actualLife > 0
    ensures r.attack == 4 && r.defense == 1 && r.magic == 0 && r.weapon == weapon
  {
    MonsterStats(weapon, 4, 0, 1, 6, 1, 12, 12)
  }

  /** The name of the `n`-th generated monster (1 to 3). */
  function MonsterName(n: nat): (r: string)
    requires 1 <= n <= 9
    ensures |r| == 10 && r[..9] == "Monstruo " && '1' <= r[9] <= '9'
  {
    "Monstruo " + [('0' as int + n) as char]
  }

  /** The monsters of one encounter get different names. */
  lemma MonsterNamesDiffer(n: nat, m: nat)
    requires 1 <= n <= 9 && 1 <= m <= 9 && n != m
    ensures MonsterName(n) != MonsterName(m)
  {
    assert MonsterName(n)[9] != MonsterName(m)[9];
  }

  /**
   * A fresh monster with the fixed starting stats. The weapon is the one the
   * game's item catalogue holds at index 1; the catalogue is not part of this model.
   */
  method CreateDebugMonster(weapon: WeaponRef, sprite: string, name: string) returns (m: Monster)
    ensures fresh(m)
    ensures m.Stats() == DebugStats(weapon)
    ensures m.Stats().life == m.Stats().actualLife == 12 && m.attack == 4 && m.defense == 1
    ensures m.name == name && m.sprite == sprite && m.loot == []
  {
    var attack := 4;
    var magic := 0;
    var defense := 1;
    var velocidad := 6;
    var level := 1;
    var life := 12;
    var actualLife := 12;
    m := new Monster(weapon, attack, magic, defense, velocidad, level, name, sprite, life, actualLife);
  }

  /**
   * A key press on the combat screen. Confirm is ENTER or SPACE; Shortcut(n)
   * is DIGITn or NUMPADn for n in 1..4 (any other n has no effect); Esc is
   * ESCAPE; Other is every other key.
   */
  datatype CombatKey = Left | Right | Confirm | Shortcut(n: int) | Esc | Other

  /** `Math.max` and `Math.min` on ints. */
  function Max(a: int, b: int): int { if a >= b then a else b }
  function Min(a: int, b: int): int { if a <= b then a else b }

  /** LEFT and RIGHT move the selection along the bar, stopping at both ends. */
  function NextSelection(i: int, k: CombatKey): (r: int)
    ensures 0 <= i < |Buttons| ==> 0 <= r < |Buttons|
    ensures k == Left && 0 <= i < |Buttons| ==> r <= i && (i > 0 ==> r == i - 1)
    ensures k == Right && 0 <= i < |Buttons| ==> r >= i && (i < |Buttons| - 1 ==> r == i + 1)
    ensures k != Left && k != Right ==> r == i
  {
    match k
    case Left => Max(0, i - 1)
    case Right => Min(|Buttons| - 1, i + 1)
    case _ => i
  }

  /** The selection after a sequence of key presses. */
  function SelectionAfter(keys: seq<CombatKey>, i: int): int {
    if |keys| == 0 then i else SelectionAfter(keys[1..], NextSelection(i, keys[0]))
  }

  /** From any position on the bar, no sequence of keys moves the selection off it. */
  lemma {:induction false} SelectionStaysOnBar(keys: seq<CombatKey>, i: int)
    requires 0 <= i < |Buttons|
    ensures 0 <= SelectionAfter(keys, i) < |Buttons|
  {
    if |keys| > 0 {
      SelectionStaysOnBar(keys[1..], NextSelection(i, keys[0]));
    }
  }

  /** LEFT on the first button and RIGHT on the last one keep the selection. */
  lemma SelectionClampsAtBothEnds()
    ensures NextSelection(0, Left) == 0
    ensures NextSelection(|Buttons| - 1, Right) == |Buttons| - 1
  {
  }

  /** The action a key fires, if any, with `selected` the highlighted button. */
  function KeyCommand(k: CombatKey, selected: int): (r: Option<Action>)
    requires 0 <= selected < |Buttons|
    ensures k == Confirm ==> r == Some(Buttons[selected])
    ensures k.Shortcut? && 1 <= k.n <= |Buttons| ==> r == Some(Buttons[k.n - 1])
    ensures k == Esc ==> r == Some(Escape)
    ensures r.None? <==> k in {Left, Right, Other} || (k.Shortcut? && !(1 <= k.n <= |Buttons|))
  {
    match k
    case Confirm => Some(Buttons[selected])
    case Shortcut(n) => if 1 <= n <= |Buttons| then Some(Buttons[n - 1]) else None
    case Esc => Some(Escape)
    case _ => None
  }

  /** A request the screen makes of the rest of the game. */
  datatype Effect =
    | HeroAttacks(target: Monster)      // game.heroCombat(target)
    | MonsterAttacks(attacker: Monster) // game.combat(attacker)
    | ExitToMap                         // endCombatAndReturnToMap()
    | GameOver                          // showGameOver()

  /** One strike request per monster, in order. */
  ghost function Attacks(ms: seq<Monster>): (r: seq<Effect>)
    ensures |r| == |ms|
  {
    if |ms| == 0 then [] else [MonsterAttacks(ms[0])] + Attacks(ms[1..])
  }

  lemma AttacksStep(ms: seq<Monster>, i: nat)
    requires i < |ms|
    ensures Attacks(ms[..i + 1]) == Attacks(ms[..i]) + [MonsterAttacks(ms[i])]
  {
    assert ms[..i + 1] == ms[..i] + [ms[i]];
    AttacksAppend(ms[..i], ms[i]);
  }

  lemma {:induction false} AttacksAppend(ms: seq<Monster>, m: Monster)
    ensures Attacks(ms + [m]) == Attacks(ms) + [MonsterAttacks(m)]
  {
    if |ms| > 0 {
      assert (ms + [m])[1..] == ms[1..] + [m];
      AttacksAppend(ms[1..], m);
    }
  }

  /** The monster list after a turn: the struck monster is dropped if it was pruned. */
  function Survivors(ms: seq<Monster>, t: Turn): seq<Monster> {
    if t.pruned && t.struck.Some? && t.struck.value < |ms| then RemoveAt(ms, t.struck.value) else ms
  }

  /** The requests of a monster phase over the list `ms`. */
  ghost function PhaseEffects(ms: seq<Monster>, p: PhaseResult): seq<Effect> {
    Attacks(ms[..if p.attacks <= |ms| then p.attacks else |ms|]) + (if p.heroDied then [GameOver] else [])
  }

  /** The requests a turn makes, in the order the screen makes them. */
  ghost function TurnEffects(ms: seq<Monster>, t: Turn): seq<Effect> {
    (if t.struck.Some? && t.struck.value < |ms| then [HeroAttacks(ms[t.struck.value])] else [])
    + (if t.exit then [ExitToMap] else [])
    + (if t.phase.Some? then PhaseEffects(Survivors(ms, t), t.phase.value) else [])
  }

  /**
   * A log that grew by the strike's requests and then by the phase's over the
   * survivors grew by the requests of the whole turn.
   */
  lemma StrikeThenPhase(log0: seq<Effect>, log1: seq<Effect>, log2: seq<Effect>, ms: seq<Monster>, t: Turn, k: nat)
    requires t.struck == Some(k) && k < |ms| && t.phase.Some?
    requires log1 == log0 + [HeroAttacks(ms[k])] + (if t.exit then [ExitToMap] else [])
    requires log2 == log1 + PhaseEffects(Survivors(ms, t), t.phase.value)
    ensures log2 == log0 + TurnEffects(ms, t)
  {
  }

  /**
   * The loop of the monster phase over a snapshot of the list, whose stats
   * are `roster`: each monster strikes in order, whatever its own life, and
   * the phase stops at the first strike after which the hero is dead. The
   * result is the hero's new life and the requests made, in order.
   */
  method MonsterPhase(snapshot: seq<Monster>, roster: seq<MonsterStats>, life: int, rules: Rules)
    returns (newLife: int, ghost log: seq<Effect>)
    requires |roster| == |snapshot|
    ensures var p := Phase(roster, life, rules);
      newLife == p.heroLife && log == PhaseEffects(snapshot, p)
  {
    ghost var p0 := Phase(roster, life, rules);
    newLife, log := life, [];
    var i, died := 0, false;
    while i < |snapshot|
      invariant 0 <= i <= |snapshot| && i <= p0.attacks
      invariant Phase(roster[i..], newLife, rules) == PhaseResult(p0.heroLife, p0.attacks - i, p0.heroDied)
      invariant log == Attacks(snapshot[..i])
    {
      PhaseStep(roster, i, newLife, rules);
      AttacksStep(snapshot, i);
      log := log + [MonsterAttacks(snapshot[i])];
      newLife := rules.monsterHit(roster[i], newLife);
      i := i + 1;
      if rules.dead(newLife) {
        died := true;
        break;
      }
    }
    if died {
      assert p0 == PhaseResult(newLife, i, true);
      log := log + [GameOver];
    } else {
      assert roster[i..] == [];
      assert p0 == PhaseResult(newLife, i, false);
      assert snapshot[..i] == snapshot;
    }
  }

  class CombatScreen {
    var monsters: seq<Monster>
    var heroLife: int                 // the life of the game's hero
    var selectedButtonIndex: int
    ghost var effects: seq<Effect>
    const rules: Rules                // the damage rules of the game

    ghost predicate Valid()
      reads this`monsters, this`selectedButtonIndex
    {
      Distinct(monsters) && 0 <= selectedButtonIndex < |Buttons|
    }

    /** The roster as values: the stats of the monsters, in list order. */
    function Roster(): seq<MonsterStats>
      reads this`monsters, monsters
    {
      StatsOf(monsters)
    }

    /**
     * The state a turn `t` prescribes, reached from the monster list
     * `monsters0` and the effect log `effects0`.
     */
    ghost predicate Reached(t: Turn, monsters0: seq<Monster>, effects0: seq<Effect>)
      reads this, monsters
    {
      && Roster() == t.roster
      && heroLife == t.heroLife
      && monsters == Survivors(monsters0, t)
      && effects == effects0 + TurnEffects(monsters0, t)
    }

    /**
     * A new encounter: `countDraw` is the value `nextInt(3)` returned and
     * `spriteDraws` the values drawn for each monster's sprite.
     */
    constructor (rules: Rules, heroLife: int, weapon: WeaponRef, monsterSpritePaths: Option<seq<string>>,
                 countDraw: nat, spriteDraws: seq<nat>)
      requires countDraw < 3
      requires |spriteDraws| == 1 + countDraw
      requires monsterSpritePaths.Some? ==>
        forall i :: 0 <= i < |spriteDraws| ==> |monsterSpritePaths.value| == 0 || spriteDraws[i] < |monsterSpritePaths.value|
      ensures Valid()
      ensures 1 <= |monsters| <= 3 && |monsters| == 1 + countDraw
      ensures forall i :: 0 <= i < |monsters| ==> fresh(monsters[i])
      ensures forall i :: 0 <= i < |monsters| ==>
        && monsters[i].Stats() == DebugStats(weapon)
        && monsters[i].name == MonsterName(i + 1)
        && monsters[i].sprite == ChooseRandomSprite(monsterSpritePaths, spriteDraws[i])
        && monsters[i].loot == []
      ensures this.heroLife == heroLife && this.rules == rules
      ensures selectedButtonIndex == 0 && effects == []
    {
      this.rules := rules;
      this.heroLife := heroLife;
      this.selectedButtonIndex := 0;
      this.effects := [];
      this.monsters := [];
      new;
      var count := 1 + countDraw;
      var i := 0;
      while i < count
        invariant 0 <= i <= count && |monsters| == i
        invariant Distinct(monsters)
        invariant forall j :: 0 <= j < i ==> fresh(monsters[j])
        invariant forall j :: 0 <= j < i ==>
          && monsters[j].Stats() == DebugStats(weapon)
          && monsters[j].name == MonsterName(j + 1)
          && monsters[j].sprite == ChooseRandomSprite(monsterSpritePaths, spriteDraws[j])
          && monsters[j].loot == []
        invariant this.heroLife == heroLife && selectedButtonIndex == 0 && effects == []
      {
        var sprite := ChooseRandomSprite(monsterSpritePaths, spriteDraws[i]);
        var m := CreateDebugMonster(weapon, sprite, MonsterName(i + 1));
        DistinctAppend(monsters, m);
        monsters := monsters + [m];
        i := i + 1;
      }
    }

    /** The first monster, in list order, whose actualLife is positive. */
    method FindTarget() returns (target: Option<Monster>)
      ensures target.None? <==> FirstLiving(Roster()).None?
      ensures target.Some? ==> target.value == monsters[FirstLiving(Roster()).value]
    {
      ghost var roster := Roster();
      var i := 0;
      while i < |monsters|
        invariant 0 <= i <= |monsters|
        invariant forall j :: 0 <= j < i ==> roster[j].actualLife <= 0
      {
        StatsOfAt(monsters, i);
        if monsters[i].actualLife > 0 {
          FirstLivingAt(roster, i);
          return Some(monsters[i]);
        }
        i := i + 1;
      }
      return None;
    }

    /** Drops the first occurrence of `m` from the list; a monster not in it changes nothing. */
    method RemoveMonster(m: Monster)
      requires Valid()
      modifies this`monsters
      ensures Valid()
      ensures monsters == RemoveFirst(old(monsters), m)
    {
      var idx := IndexOf(monsters, m);
      if idx.Some? {
        RemoveAtDistinct(monsters, idx.value);
        monsters := RemoveAt(monsters, idx.value);
      }
    }

    /**
     * `monstersAttackAfterHeroAction`: the monster phase over the current
     * list, with the hero's life as it stands.
     */
    method MonstersAttackAfterHeroAction()
      modifies this`heroLife, this`effects
      ensures Roster() == old(Roster())
      ensures var p := Phase(old(Roster()), old(heroLife), rules);
        && heroLife == p.heroLife
        && effects == old(effects) + PhaseEffects(monsters, p)
    {
      var life, log := MonsterPhase(monsters, Roster(), heroLife, rules);
      heroLife, effects := life, effects + log;
    }

    /**
     * Battle: the hero strikes the first living monster, which is removed if
     * the death check holds of its new life; if that empties the list the
     * combat ends. The monster phase then runs on whatever is left. With no
     * living monster the combat ends and nothing else happens.
     */
    method OnBattle()
      requires Valid()
      modifies this`monsters, this`heroLife, this`effects, monsters`actualLife
      ensures Valid()
      ensures Reached(BattleTurn(old(Roster()), old(heroLife), rules), old(monsters), old(effects))
    {
      ghost var roster0, life0, ms0, effects0 := Roster(), heroLife, monsters, effects;
      var target := FindTarget();
      if target.None? {
        EndCombatAndReturnToMap();
        return;
      }
      StrikeThenMonsters(target.value, FirstLiving(roster0).value);
    }

    /** A Battle turn whose target `m`, at position `k`, is known: the hero's strike, then the monster phase. */
    method StrikeThenMonsters(m: Monster, ghost k: nat)
      requires Valid() && k < |monsters| && monsters[k] == m
      modifies this`monsters, this`heroLife, this`effects, m`actualLife
      ensures Valid()
      ensures Reached(StrikeTurn(old(Roster()), old(heroLife), rules, k), old(monsters), old(effects))
    {
      ghost var roster0, life0, ms0, effects0 := Roster(), heroLife, monsters, effects;
      ghost var t := StrikeTurn(roster0, life0, rules, k);
      HeroStrike(m, k);
      assert Roster() == t.roster && monsters == Survivors(ms0, t) && heroLife == life0;
      ghost var effects1 := effects;
      MonstersAttackAfterHeroAction();
      StrikeThenPhase(effects0, effects1, effects, ms0, t, k);
    }

    /**
     * The hero's strike of a Battle against `m`, found at position `k`: the
     * strike sets its actualLife; if the death check holds of the new life the
     * monster is removed, and if the list is then empty the combat ends.
     */
    method HeroStrike(m: Monster, ghost k: nat)
      requires Valid() && k < |monsters| && monsters[k] == m
      modifies this`monsters, this`effects, m`actualLife
      ensures Valid()
      ensures var s := StrikeAt(old(Roster()), heroLife, rules, k);
        && Roster() == s.roster
        && monsters == (if s.killed then RemoveAt(old(monsters), k) else old(monsters))
        && effects == old(effects) + [HeroAttacks(m)] + (if s.killed && |monsters| == 0 then [ExitToMap] else [])
    {
      ghost var ms0 := monsters;
      HeroCombat(m, k);
      if rules.dead(m.actualLife) {
        IndexOfDistinct(monsters, k);
        RemoveMonster(m);
        StatsOfRemoveAt(ms0, k);
        if |monsters| == 0 {
          EndCombatAndReturnToMap();
        }
      }
    }

    /**
     * `game.heroCombat(target)` as seen from the screen: the request is logged
     * and the target's actualLife becomes the life the damage rule gives.
     */
    method HeroCombat(m: Monster, ghost k: nat)
      requires Valid() && k < |monsters| && monsters[k] == m
      modifies this`effects, m`actualLife
      ensures effects == old(effects) + [HeroAttacks(m)]
      ensures m.actualLife == rules.heroHit(heroLife, old(Roster())[k])
      ensures Roster() == old(Roster())[k := old(Roster())[k].(actualLife := m.actualLife)]
    {
      ghost var roster0 := Roster();
      forall i | 0 <= i < |monsters|
        ensures roster0[i] == monsters[i].Stats()
      {
        StatsOfAt(monsters, i);
      }
      effects := effects + [HeroAttacks(m)];
      m.SetActualLife(rules.heroHit(heroLife, m.Stats()));
      ghost var struck := roster0[k := roster0[k].(actualLife := m.actualLife)];
      forall i | 0 <= i < |monsters|
        ensures Roster()[i] == struck[i]
      {
        StatsOfAt(monsters, i);
        if i != k { DistinctAt(monsters, i, k); }
      }
    }

    /** `endCombatAndReturnToMap`: the request is deferred, so nothing else changes. */
    method EndCombatAndReturnToMap()
      modifies this`effects
      ensures effects == old(effects) + [ExitToMap]
    {
      effects := effects + [ExitToMap];
    }

    /** Fires the handler of an action button. */
    method Perform(a: Action)
      requires Valid()
      modifies this`monsters, this`heroLife, this`effects, monsters`actualLife
      ensures Valid()
      ensures Reached(Resolve(a, old(Roster()), old(heroLife), rules), old(monsters), old(effects))
    {
      match a
      case Battle => OnBattle();
      case Item => MonstersAttackAfterHeroAction();
      case Defend => MonstersAttackAfterHeroAction();
      case Escape => EndCombatAndReturnToMap();
    }

    /** The key filter of the screen. */
    method OnKey(k: CombatKey)
      requires Valid()
      modifies this`monsters, this`heroLife, this`effects, this`selectedButtonIndex, monsters`actualLife
      ensures Valid()
      ensures selectedButtonIndex == NextSelection(old(selectedButtonIndex), k)
      ensures var cmd := KeyCommand(k, old(selectedButtonIndex));
        && (cmd.None? ==> monsters == old(monsters) && Roster() == old(Roster())
                          && heroLife == old(heroLife) && effects == old(effects))
        && (cmd.Some? ==> Reached(Resolve(cmd.value, old(Roster()), old(heroLife), rules), old(monsters), old(effects)))
    {
      match k
      case Left | Right =>
        selectedButtonIndex := NextSelection(selectedButtonIndex, k);
      case Confirm | Shortcut(_) | Esc =>
        var cmd := KeyCommand(k, selectedButtonIndex);
        if cmd.Some? {
          Perform(cmd.value);
        }
      case Other =>
    }
  }
}
