/**
 * The monster record of the game (Characters/Monster.java): a mutable bag of
 * stats with one setter per field and no invariant between the fields.
 */
module Characters {
  import opened Wrappers
  import opened ListOps

  /** A weapon of the game's item catalogue, by identity; null is NoWeapon. */
  datatype WeaponRef = NoWeapon | Weapon(id: nat)

  /** An item of the game's item catalogue, by identity. */
  datatype ItemRef = ItemRef(id: nat)

  /**
   * The combat-relevant fields of a monster at one moment. The damage rules
   * of the game are functions of this view.
   */
  datatype MonsterStats = MonsterStats(
    weapon: WeaponRef,
    attack: int,
    magic: int,
    defense: int,
    velocidad: int,
    level: int,
    life: int,
    actualLife: int)

  class Monster {
    // fields inherited from NPC
    var name: string
    var sprite: string             // the resource path the NPC image is loaded from
    var dialogue: Option<seq<string>>
    // fields of Monster
    var actualWeapon: WeaponRef
    var attack: int
    var life: int
    var actualLife: int
    var magic: int
    var defense: int
    var velocidad: int
    var loot: seq<ItemRef>
    var level: int

    /** The current stats of this monster. */
    function Stats(): MonsterStats
      reads this
    {
      MonsterStats(actualWeapon, attack, magic, defense, velocidad, level, life, actualLife)
    }

    /** Stores every argument unchanged; the loot starts empty and the dialogue unset. */
    constructor (actualWeapon: WeaponRef, attack: int, magic: int, defense: int, velocidad: int,
                 level: int, name: string, sprite: string, life: int, actualLife: int)
      ensures Stats() == MonsterStats(actualWeapon, attack, magic, defense, velocidad, level, life, actualLife)
      ensures this.name == name && this.sprite == sprite
      ensures loot == [] && dialogue == None
    {
      this.name := name;
      this.sprite := sprite;
      this.dialogue := None;
      this.actualWeapon := actualWeapon;
      this.attack := attack;
      this.magic := magic;
      this.defense := defense;
      this.velocidad := velocidad;
      this.level := level;
      this.actualLife := actualLife;
      this.life := life;
      this.loot := [];
    }

    method SetLife(life: int)
      modifies this`life
      ensures this.life == life
      ensures Stats() == old(Stats()).(life := life)
    {
      this.life := life;
    }

    /** Any value is accepted: negative, or above `life`. */
    method SetActualLife(actualLife: int)
      modifies this`actualLife
      ensures this.actualLife == actualLife
      ensures Stats() == old(Stats()).(actualLife := actualLife)
    {
      this.actualLife := actualLife;
    }

    method SetActualWeapon(actualWeapon: WeaponRef)
      modifies this`actualWeapon
      ensures this.actualWeapon == actualWeapon
      ensures Stats() == old(Stats()).(weapon := actualWeapon)
    {
      this.actualWeapon := actualWeapon;
    }

    method SetVelocidad(velocidad: int)
      modifies this`velocidad
      ensures this.velocidad == velocidad
      ensures Stats() == old(Stats()).(velocidad := velocidad)
    {
      this.velocidad := velocidad;
    }

    method SetAttack(attack: int)
      modifies this`attack
      ensures this.attack == attack
      ensures Stats() == old(Stats()).(attack := attack)
    {
      this.attack := attack;
    }

    method SetMagic(magic: int)
      modifies this`magic
      ensures this.magic == magic
      ensures Stats() == old(Stats()).(magic := magic)
    {
      this.magic := magic;
    }

    method SetDefense(defense: int)
      modifies this`defense
      ensures this.defense == defense
      ensures Stats() == old(Stats()).(defense := defense)
    {
      this.defense := defense;
    }

    /** Replaces the loot list; the stats are untouched. */
    method SetLoot(loot: seq<ItemRef>)
      modifies this`loot
      ensures this.loot == loot
      ensures Stats() == old(Stats())
    {
      this.loot := loot;
    }

    method SetLevel(level: int)
      modifies this`level
      ensures this.level == level
      ensures Stats() == old(Stats()).(level := level)
    {
      this.level := level;
    }

    /** Replaces the dialogue lines; the stats are untouched. */
    method SetDialogue(dialogue: Option<seq<string>>)
      modifies this`dialogue
      ensures this.dialogue == dialogue
      ensures Stats() == old(Stats())
    {
      this.dialogue := dialogue;
    }
  }

  /** The stats of each monster of a list, in list order. */
  function StatsOf(ms: seq<Monster>): (r: seq<MonsterStats>)
    reads ms
    ensures |r| == |ms|
  {
    if |ms| == 0 then [] else [ms[0].Stats()] + StatsOf(ms[1..])
  }

  lemma {:induction false} StatsOfAt(ms: seq<Monster>, i: nat)
    requires i < |ms|
    ensures StatsOf(ms)[i] == ms[i].Stats()
  {
    if i > 0 { StatsOfAt(ms[1..], i - 1); }
  }

  /** Removing a monster from the list removes its stats from the roster. */
  lemma StatsOfRemoveAt(ms: seq<Monster>, k: nat)
    requires k < |ms|
    ensures StatsOf(RemoveAt(ms, k)) == RemoveAt(StatsOf(ms), k)
  {
    var a, b := StatsOf(RemoveAt(ms, k)), RemoveAt(StatsOf(ms), k);
    forall i | 0 <= i < |a|
      ensures a[i] == b[i]
    {
      StatsOfAt(RemoveAt(ms, k), i);
      StatsOfAt(ms, if i < k then i else i + 1);
    }
  }
}
