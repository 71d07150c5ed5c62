/// The parts of the skill handlers and of the attack that change a single
/// status and read nothing but their arguments: the `perform_skill<...>`
/// bodies that only touch the target, valor, the battleground effects'
/// bonuses, and the arithmetic of `PerformAttack`.
module Handlers {
  import opened Arith
  import opened Skills
  import opened Cards

  /// The passive battleground effects the engine consults.
  datatype Bge =
    | Bloodlust | Brigade | Counterflux | CriticalReach | Devour | Divert
    | EnduringRage | Fortification | Furiosity | HaltedOrders | Heroism
    | Metamorphosis | Revenge | TemporalBacklash | TurningTides | Virulence
    | ZealotsPreservation

  /// How far `adjacent_assaults` reaches for mend, swipe and drain: two
  /// places under Critical Reach, otherwise one.
  function Reach(bg: map<Bge, nat>): (r: nat)
    ensures r == 1 || r == 2
    ensures r == 2 <==> CriticalReach in bg
  {
    if CriticalReach in bg then 2 else 1
  }

  /// Damage of a hit of `base` on `st`: the target's enfeeble adds to it and
  /// its protection absorbs it, unless the hitter ignores protection.  This
  /// is the shape of strike, mortar on assaults, counter, swipe and poison.
  function HitDamage(base: nat, st: Status, ignoreProtection: bool): (r: nat)
    ensures r <= base + st.enfeebled
    ensures ignoreProtection ==> r == base + st.enfeebled
    ensures !ignoreProtection ==>
      (r == 0 <==> base + st.enfeebled <= ProtectedValue(st)) &&
      (r > 0 ==> r + ProtectedValue(st) == base + st.enfeebled)
  {
    SafeMinus(base + st.enfeebled, if ignoreProtection then 0 else ProtectedValue(st))
  }

  /// `perform_skill<enfeeble>`.
  function Enfeeble(st: Status, x: nat): (r: Status)
    ensures r.enfeebled == st.enfeebled + x
    ensures r == st.(enfeebled := r.enfeebled)
  {
    st.(enfeebled := st.enfeebled + x)
  }

  /// Enfeebling by `x` makes every later hit on the card between 0 and `x`
  /// harder, and exactly `x` harder once the hit gets through protection.
  lemma EnfeebleRaisesHits(st: Status, x: nat, base: nat, ignoreProtection: bool)
    ensures HitDamage(base, st, ignoreProtection) <= HitDamage(base, Enfeeble(st, x), ignoreProtection)
    ensures HitDamage(base, Enfeeble(st, x), ignoreProtection) <= HitDamage(base, st, ignoreProtection) + x
    ensures HitDamage(base, st, ignoreProtection) > 0 ==>
      HitDamage(base, Enfeeble(st, x), ignoreProtection) == HitDamage(base, st, ignoreProtection) + x
  {
  }

  /// `perform_skill<protect>`.
  function Protect(st: Status, x: nat): (r: Status)
    ensures ProtectedValue(r) == ProtectedValue(st) + x
    ensures r == st.(protected := r.protected)
  {
    st.(protected := st.protected + x)
  }

  /// Protection by `x` absorbs up to `x` of every later hit.
  lemma ProtectAbsorbsHits(st: Status, x: nat, base: nat)
    ensures HitDamage(base, Protect(st, x), false) <= HitDamage(base, st, false)
    ensures HitDamage(base, Protect(st, x), false) == SafeMinus(HitDamage(base, st, false), x)
  {
  }

  /// `perform_skill<rally>`: raises attack power by at most `x`, and by
  /// exactly `x` when the rally already exceeds the derally or the weakened
  /// attack covers the difference.
  function Rally(st: Status, x: nat): (r: Status)
    ensures AttackPower(st) <= AttackPower(r) <= AttackPower(st) + x
    ensures SafeMinus(st.attack, st.weakened + st.corrodedWeakened) + st.rallied >= st.derallied ==>
      AttackPower(r) == AttackPower(st) + x
    ensures r == st.(rallied := r.rallied)
  {
    st.(rallied := st.rallied + x)
  }

  /// `perform_skill<heal>` (and, with `zealot` false, `perform_skill<mend>`):
  /// heals by `x`; under Zealot's Preservation an assault's heal also
  /// protects by half of `x`, rounded up.
  function Heal(st: Status, x: nat, zealot: bool): (r: Status)
    ensures st.hp <= st.maxHp ==> st.hp <= r.hp <= r.maxHp
    ensures r.hp == Min(st.hp + x, st.maxHp)
    ensures ProtectedValue(r) == ProtectedValue(st) + (if zealot then (x + 1) / 2 else 0)
    ensures r == st.(hp := r.hp, protected := r.protected)
  {
    var healed := AddHp(st, x);
    if zealot then healed.(protected := healed.protected + (x + 1) / 2) else healed
  }

  /// `perform_skill<enrage>`: raises the berserk bonus by `x`; under
  /// Furiosity a damaged target also heals by `x`.
  function Enrage(st: Status, x: nat, furiosity: bool): (r: Status)
    requires ValidStatus(st)
    ensures ValidStatus(r)
    ensures SkillBaseValue(r, Skills.Berserk) == SkillBaseValue(st, Skills.Berserk) + x
    ensures r.hp == if furiosity && CanBeHealed(st) then Min(st.hp + x, st.maxHp) else st.hp
    ensures r == st.(enraged := r.enraged, hp := r.hp)
  {
    var raged := st.(enraged := st.enraged + x);
    if furiosity && CanBeHealed(raged) then AddHp(raged, x) else raged
  }

  /// `perform_skill<jam>`: the target cannot act until the flag is cleared.
  function Jam(st: Status): (r: Status)
    ensures !CanAct(r) && !IsActive(r) && !IsActiveNextTurn(r)
    ensures r == st.(jammed := r.jammed)
  {
    st.(jammed := true)
  }

  /// `perform_skill<overload>`: the target's skills ignore evade and
  /// protection, and inhibit does not stop its allied skills.
  function Overload(st: Status): (r: Status)
    ensures r.overloaded
    ensures r == st.(overloaded := r.overloaded)
  {
    st.(overloaded := true)
  }

  /// The gain of avenge, allegiance and devour: maximum health and health
  /// rise by `v`, and so does attack unless the card is sundered.
  function Strengthen(st: Status, v: nat): (r: Status)
    ensures r.maxHp == st.maxHp + v && r.hp == st.hp + v
    ensures r.attack == st.attack + (if st.sundered then 0 else v)
    ensures st.hp <= st.maxHp ==> r.hp <= r.maxHp
    ensures r == st.(attack := r.attack, maxHp := r.maxHp, hp := r.hp)
  {
    st.(attack := if st.sundered then st.attack else st.attack + v,
        maxHp := st.maxHp + v, hp := st.hp + v)
  }

  /// `check_and_perform_valor`: a card with valor that is not sundered
  /// gains its valor in attack when the enemy assault across from it is
  /// alive and has more attack power than it.
  function Valor(st: Status, blockers: seq<Status>): (r: Status)
    requires ValidStatus(st)
    ensures r.attack > st.attack <==>
      SkillValue(st, Skills.Valor) > 0 && !st.sundered && st.index < |blockers| &&
      IsAlive(blockers[st.index]) && AttackPower(blockers[st.index]) > AttackPower(st)
    ensures r.attack > st.attack ==> r.attack == st.attack + SkillValue(st, Skills.Valor)
    ensures r == st.(attack := r.attack)
  {
    var v := SkillValue(st, Skills.Valor);
    if v > 0 && !st.sundered && st.index < |blockers| && IsAlive(blockers[st.index]) &&
       AttackPower(blockers[st.index]) > AttackPower(st)
    then st.(attack := st.attack + v)
    else st
  }

  /// The divisor battleground effects use: their value, or `dflt` when the
  /// value is zero.
  function Denominator(v: nat, dflt: nat): (r: nat)
    requires dflt > 0
    ensures r > 0 && (v > 0 ==> r == v)
  {
    if v > 0 then v else dflt
  }

  /// `(v - 1) / d + 1`, the rounded-up share of a skill value that
  /// Counterflux, Enduring Rage and Devour grant (`v` is positive where the
  /// engine uses it).
  function Share(v: nat, d: nat): (r: nat)
    requires v > 0 && d > 0
    ensures r >= 1 && (r - 1) * d < v <= r * d
  {
    (v - 1) / d + 1
  }

  /// What `modify_attack_damage` reads besides the two statuses: the number
  /// of living same-faction neighbours of the attacker, the number of
  /// distinct factions among the attacker's living allies, the current
  /// Bloodlust bonus, and the defender's armor (its own, or with
  /// Fortification the best of it and its neighbours').
  datatype AttackEnv = AttackEnv(legionCount: nat, factions: nat, bloodlust: nat, armor: nat)

  /// Legion's bonus: the legion value times the qualifying neighbours, when
  /// the attacker is active.
  function LegionBonus(att: Status, env: AttackEnv): (r: nat)
    requires ValidStatus(att)
    ensures r > 0 <==> !att.sundered && SkillValue(att, Legion) > 0 && env.legionCount > 0 && IsActive(att)
    ensures r > 0 ==> r == env.legionCount * SkillValue(att, Legion)
  {
    if !att.sundered && SkillValue(att, Legion) > 0 && env.legionCount > 0 && IsActive(att)
    then env.legionCount * SkillValue(att, Legion)
    else 0
  }

  /// Coalition's bonus: the coalition value per distinct allied faction.
  function CoalitionBonus(att: Status, env: AttackEnv): (r: nat)
    requires ValidStatus(att)
    ensures r > 0 <==> SkillValue(att, Coalition) > 0 && env.factions > 0
    ensures r == env.factions * SkillValue(att, Coalition)
  {
    SkillValue(att, Coalition) * env.factions
  }

  /// The damage bonuses an attack gains unless the attacker is sundered:
  /// legion, coalition, rupture, venom against a poisoned defender,
  /// Bloodlust, and the defender's enfeeble.
  function Bonus(att: Status, def: Status, env: AttackEnv): nat
    requires ValidStatus(att)
  {
    LegionBonus(att, env) + CoalitionBonus(att, env) + SkillValue(att, Rupture)
    + (if def.poisoned > 0 then SkillValue(att, Venom) else 0)
    + env.bloodlust + def.enfeebled
  }

  /// `modify_attack_damage`: adds the bonuses one by one (none when the
  /// attacker is sundered), then takes off armor and protection, of which
  /// pierce and rupture cancel up to their value.
  function ModifyAttackDamage(att: Status, def: Status, pre: nat, env: AttackEnv): (r: nat)
    requires ValidStatus(att)
    ensures pre == 0 ==> r == 0
    ensures r <= pre + (if att.sundered then 0 else Bonus(att, def, env))
  {
    if pre == 0 then 0
    else
      var legion := LegionBonus(att, env);
      var dmg := if att.sundered then pre else
        var withLegion := pre + legion;
        var withCoalition := withLegion + CoalitionBonus(att, env);
        var withRupture := withCoalition + SkillValue(att, Rupture);
        var withVenom := withRupture + (if def.poisoned > 0 then SkillValue(att, Venom) else 0);
        var withBloodlust := withVenom + env.bloodlust;
        withBloodlust + def.enfeebled;
      var reduced := env.armor + ProtectedValue(def);
      var pierce := SkillValue(att, Pierce) + SkillValue(att, Rupture);
      var reduced' := if reduced > 0 && pierce > 0 then SafeMinus(reduced, pierce) else reduced;
      SafeMinus(dmg, reduced')
  }

  /// The damage formula: the boosted damage less what armor and protection
  /// absorb after pierce and rupture.
  lemma AttackDamageFormula(att: Status, def: Status, pre: nat, env: AttackEnv)
    requires ValidStatus(att) && pre > 0
    ensures ModifyAttackDamage(att, def, pre, env) ==
      SafeMinus(pre + (if att.sundered then 0 else Bonus(att, def, env)),
                SafeMinus(env.armor + ProtectedValue(def), SkillValue(att, Pierce) + SkillValue(att, Rupture)))
  {
  }

  /// A sundered attacker gains no bonus: it deals at most its attack power,
  /// and exactly that when nothing absorbs the hit.
  lemma SunderedGainsNoBonus(att: Status, def: Status, pre: nat, env: AttackEnv)
    requires ValidStatus(att) && att.sundered
    ensures ModifyAttackDamage(att, def, pre, env) <= pre
    ensures env.armor + ProtectedValue(def) == 0 ==> ModifyAttackDamage(att, def, pre, env) == pre
  {
  }

  /// More protection on the defender never raises the damage.
  lemma ProtectionNeverRaisesDamage(att: Status, def: Status, pre: nat, env: AttackEnv, x: nat)
    requires ValidStatus(att)
    ensures ModifyAttackDamage(att, Protect(def, x), pre, env) <= ModifyAttackDamage(att, def, pre, env)
  {
    if pre > 0 {
      var def' := Protect(def, x);
      assert Bonus(att, def', env) == Bonus(att, def, env);
      AttackDamageFormula(att, def, pre, env);
      AttackDamageFormula(att, def', pre, env);
    }
  }

  /// `counter_damage`: the defender's counter value plus the attacker's
  /// enfeeble, less the attacker's protection.
  function CounterDamage(att: Status, def: Status): (r: nat)
    requires ValidStatus(def)
    ensures r <= SkillValue(def, Counter) + att.enfeebled
    ensures r == 0 <==> SkillValue(def, Counter) + att.enfeebled <= ProtectedValue(att)
    ensures r > 0 ==> r + ProtectedValue(att) == SkillValue(def, Counter) + att.enfeebled
  {
    HitDamage(SkillValue(def, Counter), att, false)
  }

  /// The damage-dependent statuses an attack leaves on a defending assault:
  /// poison (the larger of poison and venom), inhibit and sabotage each rise
  /// to the attacker's value when that is strictly greater.
  function DamageDependent(att: Status, def: Status): (r: Status)
    requires ValidStatus(att)
    ensures r.poisoned == Max(def.poisoned, Max(SkillValue(att, Poison), SkillValue(att, Venom)))
    ensures r.inhibited == Max(def.inhibited, SkillValue(att, Inhibit))
    ensures r.sabotaged == Max(def.sabotaged, SkillValue(att, Sabotage))
    ensures r == def.(poisoned := r.poisoned, inhibited := r.inhibited, sabotaged := r.sabotaged)
  {
    var poison := Max(SkillValue(att, Poison), SkillValue(att, Venom));
    var p := if poison > def.poisoned then def.(poisoned := poison) else def;
    var inhibit := SkillValue(att, Inhibit);
    var i := if inhibit > p.inhibited then p.(inhibited := inhibit) else p;
    var sabotage := SkillValue(att, Sabotage);
    if sabotage > i.sabotaged then i.(sabotaged := sabotage) else i
  }

  /// Being high-water marks, the damage-dependent statuses do not build up:
  /// a second hit by the same attacker changes nothing.
  lemma DamageDependentIdempotent(att: Status, def: Status)
    requires ValidStatus(att)
    ensures DamageDependent(att, DamageDependent(att, def)) == DamageDependent(att, def)
  {
  }

  /// The corrosion an attacker receives from a defender with corrosive: the
  /// rate rises to the corrosive value when that is strictly greater.
  function Corrode(att: Status, def: Status): (r: Status)
    requires ValidStatus(def)
    ensures r.corrodedRate == Max(att.corrodedRate, SkillValue(def, Corrosive))
    ensures r == att.(corrodedRate := r.corrodedRate)
  {
    var v := SkillValue(def, Corrosive);
    if v > att.corrodedRate then att.(corrodedRate := v) else att
  }

  /// Berserk after an attack: attack rises by the berserk value unless the
  /// attacker is sundered; under Enduring Rage (value `rage`, 2 when zero)
  /// it also heals and protects by a share of it.
  function Berserk(att: Status, enduringRage: bool, rage: nat): (r: Status)
    requires ValidStatus(att)
    ensures ValidStatus(r)
    ensures att.sundered || SkillValue(att, Skills.Berserk) == 0 ==> r == att
    ensures !att.sundered ==> r.attack == att.attack + SkillValue(att, Skills.Berserk)
    ensures att.sundered || SkillValue(att, Skills.Berserk) == 0 || !enduringRage ==>
      r.hp == att.hp && r.protected == att.protected
    ensures !att.sundered && SkillValue(att, Skills.Berserk) > 0 && enduringRage ==>
      var share := Share(SkillValue(att, Skills.Berserk), Denominator(rage, 2));
      r.hp == Min(att.hp + share, att.maxHp) && r.protected == att.protected + share
    ensures r == att.(attack := r.attack, hp := r.hp, protected := r.protected)
  {
    var v := SkillValue(att, Skills.Berserk);
    if att.sundered || v == 0 then att
    else
      var raged := att.(attack := att.attack + v);
      if enduringRage then
        var share := Share(v, Denominator(rage, 2));
        Protect(AddHp(raged, share), share)
      else raged
  }

  /// Leech after an attack on an assault: heals by the damage dealt, at most
  /// the leech value, when the attacker can be healed.
  function Leech(att: Status, dmg: nat): (r: Status)
    requires ValidStatus(att)
    ensures ValidStatus(r)
    ensures r.hp <= att.hp + Min(dmg, SkillValue(att, Skills.Leech))
    ensures att.hp <= r.hp <= att.maxHp
    ensures Min(dmg, SkillValue(att, Skills.Leech)) == 0 || !CanBeHealed(att) ==> r.hp == att.hp
    ensures Min(dmg, SkillValue(att, Skills.Leech)) > 0 && CanBeHealed(att) ==>
      r.hp == Min(att.hp + Min(dmg, SkillValue(att, Skills.Leech)), att.maxHp)
    ensures r == att.(hp := r.hp)
  {
    var v := Min(dmg, SkillValue(att, Skills.Leech));
    if v > 0 && CanBeHealed(att) then AddHp(att, v) else att
  }

  /// The turn-end clearing of a living defending assault: enfeeble,
  /// protection, evolve and enhance, and evade and payback counts reset.
  function ClearDefender(st: Status): (r: Status)
    requires ValidStatus(st)
    ensures ValidStatus(r)
    ensures r.enfeebled == 0 && r.protected == 0 && r.evaded == 0 && r.paybacked == 0
    ensures forall k :: 0 <= k < NumSkills ==>
      r.primaryOffset[k] == 0 && r.evolvedOffset[k] == 0 && r.enhancedValue[k] == 0
    ensures forall t :: Slot(r, t) == Code(t) && Enhanced(r, t) == 0
    ensures r == st.(enfeebled := 0, protected := 0, primaryOffset := r.primaryOffset,
                     evolvedOffset := r.evolvedOffset, enhancedValue := r.enhancedValue,
                     evaded := 0, paybacked := 0)
  {
    st.(enfeebled := 0, protected := 0, primaryOffset := Zeros(NumSkills),
        evolvedOffset := Zeros(NumSkills), enhancedValue := Zeros(NumSkills),
        evaded := 0, paybacked := 0)
  }

  /// The turn-end clearing of a living active assault: the effects that
  /// last until the end of its owner's next turn wear off.
  function ClearAttacker(st: Status): (r: Status)
    ensures !r.jammed && !r.sundered && !r.overloaded && r.step == NoStep
    ensures r.rallied == 0 && r.enraged == 0 && r.derallied == 0 && r.weakened == 0
    ensures r.inhibited == 0 && r.sabotaged == 0
    ensures AttackPower(r) == SafeMinus(st.attack, st.corrodedWeakened)
    ensures r == st.(jammed := false, rallied := 0, enraged := 0, derallied := 0, sundered := false,
                     weakened := 0, inhibited := 0, sabotaged := 0, overloaded := false, step := NoStep)
  {
    st.(jammed := false, rallied := 0, enraged := 0, derallied := 0, sundered := false,
        weakened := 0, inhibited := 0, sabotaged := 0, overloaded := false, step := NoStep)
  }
}
