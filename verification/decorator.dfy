/** Hero effects as decorators (week3/decorator/abstractdecorator.py). A hero
    is the bare `Hero` or an effect wrapped around another hero; the getters
    compute the stats and effect lists of a wrapped hero from those of its base.
    Python's getters return copies, so here every value is immutable and a
    wrapper can never change what its base reports. */
module Decorator {

  datatype Hero =
    | Hero
    | Berserk(base: Hero)
    | Blessing(base: Hero)
    | Weakness(base: Hero)
    | Curse(base: Hero)
    | EvilEye(base: Hero)

  /** The keys of the source's stats dictionary. */
  datatype Stat = HP | MP | SP | Strength | Perception | Endurance | Charisma | Intelligence | Agility | Luck

  /** The names the getters put in the effect lists. */
  datatype EffectName = BerserkEffect | BlessingEffect | WeaknessEffect | CurseEffect | EvilEyeEffect

  /** The stats dictionary. Every hero's dictionary holds the same ten keys
      (the getters copy it and only update existing keys), so it is a record
      with one field per key. */
  datatype Stats = Stats(
    hp: int, mp: int, sp: int,
    strength: int, perception: int, endurance: int,
    charisma: int, intelligence: int, agility: int, luck: int)

  /** `stats[name]`. */
  function Get(s: Stats, k: Stat): (r: int) {
    match k
    case HP => s.hp
    case MP => s.mp
    case SP => s.sp
    case Strength => s.strength
    case Perception => s.perception
    case Endurance => s.endurance
    case Charisma => s.charisma
    case Intelligence => s.intelligence
    case Agility => s.agility
    case Luck => s.luck
  }

  /** Health, magic and skill points: skipped by the effects that touch "all" stats. */
  predicate IsPoint(k: Stat) {
    k == HP || k == MP || k == SP
  }

  /** The stats of a fresh hero. */
  const BaseStats: Stats := Stats(128, 42, 100, 15, 4, 8, 2, 3, 8, 1)

  /** The change an effect makes to one stat, as each effect class documents it. */
  function Delta(effect: EffectName, stat: Stat): (r: int) {
    match effect
    case BerserkEffect =>
      if stat in {Strength, Endurance, Agility, Luck} then 7
      else if stat in {Perception, Charisma, Intelligence} then -3
      else if stat == HP then 50
      else 0
    case BlessingEffect => if IsPoint(stat) then 0 else 2
    case WeaknessEffect => if stat in {Strength, Endurance, Agility} then -4 else 0
    case CurseEffect => if IsPoint(stat) then 0 else -2
    case EvilEyeEffect => if stat == Luck then -10 else 0
  }

  /** Adds `d` to every stat other than HP, MP and SP: the loop over all keys
      that skips those three. */
  function AddToNonPoint(s: Stats, d: int): (r: Stats) {
    s.(strength := s.strength + d, perception := s.perception + d,
       endurance := s.endurance + d, charisma := s.charisma + d,
       intelligence := s.intelligence + d, agility := s.agility + d, luck := s.luck + d)
  }

  /** `Berserk.get_stats` on the base's stats: the two loops over fixed key
      lists, then the HP bonus. */
  function BerserkStats(s: Stats): (r: Stats) {
    s.(strength := s.strength + 7, endurance := s.endurance + 7,
       agility := s.agility + 7, luck := s.luck + 7,
       perception := s.perception - 3, charisma := s.charisma - 3,
       intelligence := s.intelligence - 3, hp := s.hp + 50)
  }

  /** `Blessing.get_stats` on the base's stats. */
  function BlessingStats(s: Stats): (r: Stats) {
    AddToNonPoint(s, 2)
  }

  /** `Weakness.get_stats` on the base's stats. */
  function WeaknessStats(s: Stats): (r: Stats) {
    s.(strength := s.strength - 4, endurance := s.endurance - 4, agility := s.agility - 4)
  }

  /** `Curse.get_stats` on the base's stats. */
  function CurseStats(s: Stats): (r: Stats) {
    AddToNonPoint(s, -2)
  }

  /** `EvilEye.get_stats` on the base's stats. */
  function EvilEyeStats(s: Stats): (r: Stats) {
    s.(luck := s.luck - 10)
  }

  /** `get_stats`: each wrapper computes from its base's stats. */
  function GetStats(h: Hero): (r: Stats) {
    match h
    case Hero => BaseStats
    case Berserk(b) => BerserkStats(GetStats(b))
    case Blessing(b) => BlessingStats(GetStats(b))
    case Weakness(b) => WeaknessStats(GetStats(b))
    case Curse(b) => CurseStats(GetStats(b))
    case EvilEye(b) => EvilEyeStats(GetStats(b))
  }

  /** `get_positive_effects`: positive effects append their name to the base's list. */
  function GetPositiveEffects(h: Hero): (r: seq<EffectName>) {
    match h
    case Hero => []
    case Berserk(b) => GetPositiveEffects(b) + [BerserkEffect]
    case Blessing(b) => GetPositiveEffects(b) + [BlessingEffect]
    case Weakness(b) => GetPositiveEffects(b)
    case Curse(b) => GetPositiveEffects(b)
    case EvilEye(b) => GetPositiveEffects(b)
  }

  /** `get_negative_effects`: negative effects append their name to the base's list. */
  function GetNegativeEffects(h: Hero): (r: seq<EffectName>) {
    match h
    case Hero => []
    case Berserk(b) => GetNegativeEffects(b)
    case Blessing(b) => GetNegativeEffects(b)
    case Weakness(b) => GetNegativeEffects(b) + [WeaknessEffect]
    case Curse(b) => GetNegativeEffects(b) + [CurseEffect]
    case EvilEye(b) => GetNegativeEffects(b) + [EvilEyeEffect]
  }

  /** A fresh hero: the ten listed stats and no effects. */
  lemma FreshHero()
    ensures GetStats(Hero) == Stats(hp := 128, mp := 42, sp := 100, strength := 15,
      perception := 4, endurance := 8, charisma := 2, intelligence := 3, agility := 8, luck := 1)
    ensures GetPositiveEffects(Hero) == [] && GetNegativeEffects(Hero) == []
  {
  }

  /** Berserk: +7 Strength, Endurance, Agility and Luck; -3 Perception,
      Charisma and Intelligence; +50 HP; MP and SP unchanged. It is listed
      last among the positive effects and leaves the negative ones alone. */
  lemma BerserkChanges(b: Hero, k: Stat)
    ensures Get(GetStats(Berserk(b)), k) == Get(GetStats(b), k) +
        (if k in {Strength, Endurance, Agility, Luck} then 7
         else if k in {Perception, Charisma, Intelligence} then -3
         else if k == HP then 50
         else 0)
    ensures GetPositiveEffects(Berserk(b)) == GetPositiveEffects(b) + [BerserkEffect]
    ensures GetNegativeEffects(Berserk(b)) == GetNegativeEffects(b)
  {
  }

  /** Blessing: +2 to every stat except HP, MP and SP. */
  lemma BlessingChanges(b: Hero, k: Stat)
    ensures Get(GetStats(Blessing(b)), k) == Get(GetStats(b), k) + (if IsPoint(k) then 0 else 2)
    ensures GetPositiveEffects(Blessing(b)) == GetPositiveEffects(b) + [BlessingEffect]
    ensures GetNegativeEffects(Blessing(b)) == GetNegativeEffects(b)
  {
  }

  /** Weakness: -4 Strength, Endurance and Agility only. */
  lemma WeaknessChanges(b: Hero, k: Stat)
    ensures Get(GetStats(Weakness(b)), k) == Get(GetStats(b), k) + (if k in {Strength, Endurance, Agility} then -4 else 0)
    ensures GetPositiveEffects(Weakness(b)) == GetPositiveEffects(b)
    ensures GetNegativeEffects(Weakness(b)) == GetNegativeEffects(b) + [WeaknessEffect]
  {
  }

  /** Curse: -2 to every stat except HP, MP and SP. */
  lemma CurseChanges(b: Hero, k: Stat)
    ensures Get(GetStats(Curse(b)), k) == Get(GetStats(b), k) + (if IsPoint(k) then 0 else -2)
    ensures GetPositiveEffects(Curse(b)) == GetPositiveEffects(b)
    ensures GetNegativeEffects(Curse(b)) == GetNegativeEffects(b) + [CurseEffect]
  {
  }

  /** EvilEye: -10 Luck and nothing else. */
  lemma EvilEyeChanges(b: Hero, k: Stat)
    ensures Get(GetStats(EvilEye(b)), k) == Get(GetStats(b), k) + (if k == Luck then -10 else 0)
    ensures GetPositiveEffects(EvilEye(b)) == GetPositiveEffects(b)
    ensures GetNegativeEffects(EvilEye(b)) == GetNegativeEffects(b) + [EvilEyeEffect]
  {
  }

  // ---------------------------------------------------------------------------
  // A flat reference reading of a stack of effects: the effects in the order
  // they were applied, each with a fixed per-stat change taken from the
  // classes' documentation, and the stats as base value plus the sum of changes.

  /** Effect names from the innermost wrapper outwards. */
  function Applied(h: Hero): (r: seq<EffectName>) {
    match h
    case Hero => []
    case Berserk(b) => Applied(b) + [BerserkEffect]
    case Blessing(b) => Applied(b) + [BlessingEffect]
    case Weakness(b) => Applied(b) + [WeaknessEffect]
    case Curse(b) => Applied(b) + [CurseEffect]
    case EvilEye(b) => Applied(b) + [EvilEyeEffect]
  }

  predicate IsPositive(effect: EffectName) {
    effect == BerserkEffect || effect == BlessingEffect
  }

  function TotalDelta(effects: seq<EffectName>, stat: Stat): (r: int) {
    if |effects| == 0 then 0
    else TotalDelta(effects[..|effects| - 1], stat) + Delta(effects[|effects| - 1], stat)
  }

  function Positives(effects: seq<EffectName>): (r: seq<EffectName>) {
    if |effects| == 0 then []
    else Positives(effects[..|effects| - 1]) +
         (if IsPositive(effects[|effects| - 1]) then [effects[|effects| - 1]] else [])
  }

  function Negatives(effects: seq<EffectName>): (r: seq<EffectName>) {
    if |effects| == 0 then []
    else Negatives(effects[..|effects| - 1]) +
         (if IsPositive(effects[|effects| - 1]) then [] else [effects[|effects| - 1]])
  }

  /** Applying one more effect adds that effect's change to the total. */
  lemma AppendDelta(effects: seq<EffectName>, e: EffectName, k: Stat)
    ensures TotalDelta(effects + [e], k) == TotalDelta(effects, k) + Delta(e, k)
  {
    assert (effects + [e])[..|effects|] == effects;
  }

  /** Applying one more effect extends the list of its kind by that effect. */
  lemma AppendKind(effects: seq<EffectName>, e: EffectName)
    ensures Positives(effects + [e]) == Positives(effects) + (if IsPositive(e) then [e] else [])
    ensures Negatives(effects + [e]) == Negatives(effects) + (if IsPositive(e) then [] else [e])
  {
    assert (effects + [e])[..|effects|] == effects;
  }

  /** Every stat of a decorated hero is its fresh value plus the changes of
      all applied effects, in whatever order they were stacked. */
  lemma {:induction false} StackedStats(h: Hero, k: Stat)
    ensures Get(GetStats(h), k) == Get(BaseStats, k) + TotalDelta(Applied(h), k)
  {
    match h
    case Hero =>
    case Berserk(b) =>
      StackedStats(b, k);
      BerserkChanges(b, k);
      AppendDelta(Applied(b), BerserkEffect, k);
    case Blessing(b) =>
      StackedStats(b, k);
      BlessingChanges(b, k);
      AppendDelta(Applied(b), BlessingEffect, k);
    case Weakness(b) =>
      StackedStats(b, k);
      WeaknessChanges(b, k);
      AppendDelta(Applied(b), WeaknessEffect, k);
    case Curse(b) =>
      StackedStats(b, k);
      CurseChanges(b, k);
      AppendDelta(Applied(b), CurseEffect, k);
    case EvilEye(b) =>
      StackedStats(b, k);
      EvilEyeChanges(b, k);
      AppendDelta(Applied(b), EvilEyeEffect, k);
  }

  /** The positive and negative effect lists are the applied effects, split
      by kind, each in application order. */
  lemma {:induction false} StackedEffectLists(h: Hero)
    ensures GetPositiveEffects(h) == Positives(Applied(h))
    ensures GetNegativeEffects(h) == Negatives(Applied(h))
  {
    match h
    case Hero =>
    case Berserk(b) =>
      StackedEffectLists(b);
      AppendKind(Applied(b), BerserkEffect);
    case Blessing(b) =>
      StackedEffectLists(b);
      AppendKind(Applied(b), BlessingEffect);
    case Weakness(b) =>
      StackedEffectLists(b);
      AppendKind(Applied(b), WeaknessEffect);
    case Curse(b) =>
      StackedEffectLists(b);
      AppendKind(Applied(b), CurseEffect);
    case EvilEye(b) =>
      StackedEffectLists(b);
      AppendKind(Applied(b), EvilEyeEffect);
  }
}
