/// Skill identifiers and skill specifications (`SkillSpec`), with the three
/// transformations `resolve_skill` applies to a queued skill before it is
/// performed: evolve, sabotage and enhance.
module Skills {
  import opened Arith

  /// The skills the battle engine refers to.  In the program a skill is an
  /// enumerator whose numeric value indexes per-skill arrays of a card
  /// (`m_skill_value`, `m_primary_skill_offset`, `m_skill_cd`, ...), and
  /// evolve works by adding offsets to that value; `Code` is that value.
  datatype Skill =
    | NoSkill
    // passive and defensive skills
    | Allegiance | Armor | Avenge | Barrier | Berserk | Coalition | Corrosive
    | Counter | Drain | Evade | Flurry | Inhibit | Leech | Legion | Payback
    | Pierce | Poison | Refresh | Revenge | Rupture | Sabotage | Stasis | Swipe
    | Valor | Venom | Wall
    // activation skills
    | Enfeeble | Enhance | Evolve | Heal | Jam | Mend | Mimic | Mortar
    | Overload | Protect | Rally | Enrage | Rush | Siege | Strike | Sunder
    | Weaken

  /// `Skill::num_skills`, the length of every per-skill array.
  const NumSkills: nat := 44

  /// The numeric value of a skill enumerator.
  function Code(s: Skill): (r: nat)
    ensures r < NumSkills && SkillOfCode(r) == s
  {
    match s
    case NoSkill => 0
    case Allegiance => 1
    case Armor => 2
    case Avenge => 3
    case Barrier => 4
    case Berserk => 5
    case Coalition => 6
    case Corrosive => 7
    case Counter => 8
    case Drain => 9
    case Evade => 10
    case Flurry => 11
    case Inhibit => 12
    case Leech => 13
    case Legion => 14
    case Payback => 15
    case Pierce => 16
    case Poison => 17
    case Refresh => 18
    case Revenge => 19
    case Rupture => 20
    case Sabotage => 21
    case Stasis => 22
    case Swipe => 23
    case Valor => 24
    case Venom => 25
    case Wall => 26
    case Enfeeble => 27
    case Enhance => 28
    case Evolve => 29
    case Heal => 30
    case Jam => 31
    case Mend => 32
    case Mimic => 33
    case Mortar => 34
    case Overload => 35
    case Protect => 36
    case Rally => 37
    case Enrage => 38
    case Rush => 39
    case Siege => 40
    case Strike => 41
    case Sunder => 42
    case Weaken => 43
  }

  /// The skill whose enumerator value is `c`.
  function SkillOfCode(c: nat): Skill
    requires c < NumSkills
  {
    if c == 0 then NoSkill
    else if c == 1 then Allegiance
    else if c == 2 then Armor
    else if c == 3 then Avenge
    else if c == 4 then Barrier
    else if c == 5 then Berserk
    else if c == 6 then Coalition
    else if c == 7 then Corrosive
    else if c == 8 then Counter
    else if c == 9 then Drain
    else if c == 10 then Evade
    else if c == 11 then Flurry
    else if c == 12 then Inhibit
    else if c == 13 then Leech
    else if c == 14 then Legion
    else if c == 15 then Payback
    else if c == 16 then Pierce
    else if c == 17 then Poison
    else if c == 18 then Refresh
    else if c == 19 then Revenge
    else if c == 20 then Rupture
    else if c == 21 then Sabotage
    else if c == 22 then Stasis
    else if c == 23 then Swipe
    else if c == 24 then Valor
    else if c == 25 then Venom
    else if c == 26 then Wall
    else if c == 27 then Enfeeble
    else if c == 28 then Enhance
    else if c == 29 then Evolve
    else if c == 30 then Heal
    else if c == 31 then Jam
    else if c == 32 then Mend
    else if c == 33 then Mimic
    else if c == 34 then Mortar
    else if c == 35 then Overload
    else if c == 36 then Protect
    else if c == 37 then Rally
    else if c == 38 then Enrage
    else if c == 39 then Rush
    else if c == 40 then Siege
    else if c == 41 then Strike
    else if c == 42 then Sunder
    else Weaken
  }

  /// Distinct skills have distinct codes, so per-skill arrays never alias.
  lemma CodeInjective(s: Skill, t: Skill)
    ensures Code(s) == Code(t) <==> s == t
  {
    if Code(s) == Code(t) {
      assert SkillOfCode(Code(s)) == SkillOfCode(Code(t));
    }
  }

  /// Activation skills are the ones with an entry in the skill table.
  predicate IsActivationSkill(s: Skill)
  {
    Code(s) >= Code(Enfeeble)
  }

  /// `is_activation_skill_with_x`: activation skills whose strength is X;
  /// sabotage lowers X and a skill whose X is zeroed is not performed.
  predicate IsActivationSkillWithX(s: Skill)
  {
    IsActivationSkill(s) && s !in {Evolve, Jam, Mimic, Overload}
  }

  /// Faction value meaning "any faction" in a skill's Y.
  const AllFactions: nat := 0

  /// `SkillSpec`: skill id, X, faction filter Y, target count N, cooldown C,
  /// the skill(s) S and S2 that enhance / evolve name, and the "all" flag.
  datatype SkillSpec = SkillSpec(
    id: Skill, x: nat, y: nat, n: nat, c: nat, s: Skill, s2: Skill, all: bool)

  /// `apply_evolve`: the skill id moves by the evolved offset.
  function ApplyEvolve(spec: SkillSpec, offset: int): (r: SkillSpec)
    requires 0 <= Code(spec.id) + offset < NumSkills
    ensures Code(r.id) == Code(spec.id) + offset
    ensures r == spec.(id := r.id)
  {
    var id := SkillOfCode(Code(spec.id) + offset);
    assert Code(id) == Code(spec.id) + offset by {
      CodeOfSkillOfCode(Code(spec.id) + offset);
    }
    spec.(id := id)
  }

  /// `Code` and `SkillOfCode` are inverse on the valid codes.
  lemma CodeOfSkillOfCode(c: nat)
    requires c < NumSkills
    ensures Code(SkillOfCode(c)) == c
  {
  }

  /// `apply_enhance`: X grows by the enhanced value.
  function ApplyEnhance(spec: SkillSpec, v: nat): (r: SkillSpec)
    ensures r.x == spec.x + v && r == spec.(x := r.x)
  {
    spec.(x := spec.x + v)
  }

  /// `apply_sabotage`: X drops by the sabotaged value but not below zero.
  function ApplySabotage(spec: SkillSpec, v: nat): (r: SkillSpec)
    ensures r.x <= spec.x
    ensures r.x == 0 <==> spec.x <= v
    ensures r.x > 0 ==> r.x + v == spec.x
    ensures r == spec.(x := r.x)
  {
    spec.(x := spec.x - Min(spec.x, v))
  }

  /// Sabotage undoes an enhance by the same amount.
  lemma SabotageUndoesEnhance(spec: SkillSpec, v: nat)
    ensures ApplySabotage(ApplyEnhance(spec, v), v) == spec
  {
  }

  /// Two sabotages add up.
  lemma SabotageComposes(spec: SkillSpec, a: nat, b: nat)
    ensures ApplySabotage(ApplySabotage(spec, a), b) == ApplySabotage(spec, a + b)
  {
  }

  /// Evolving by an offset and then by its opposite restores the skill.
  lemma EvolveRoundTrip(spec: SkillSpec, offset: int)
    requires 0 <= Code(spec.id) + offset < NumSkills
    ensures ApplyEvolve(ApplyEvolve(spec, offset), -offset) == spec
  {
    var e := ApplyEvolve(spec, offset);
    var back := ApplyEvolve(e, -offset);
    CodeInjective(back.id, spec.id);
  }
}
