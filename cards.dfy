/// The per-card state of a battle (`CardStatus`) and the arithmetic on it:
/// skill values through the primary-skill offsets, attack power, and the
/// status changes the activation skills make to the card they target.
module Cards {
  import opened Arith
  import opened Skills

  datatype CardType = Commander | Assault | Structure

  /// The static description of a card.  `skillValue` is indexed by skill
  /// code and holds the card's value for that skill (zero when it lacks it).
  datatype Card = Card(
    id: nat, cardType: CardType, faction: nat,
    attack: nat, health: nat, delay: nat,
    skills: seq<SkillSpec>, skillValue: seq<nat>)

  /// `CardStep`: where an assault is in its action during the turn.
  datatype Step = NoStep | Attacking | Attacked

  /// `CardStatus`: the live state of a card on the board.  The four
  /// per-skill arrays are indexed by skill code.
  datatype Status = Status(
    card: Card,
    index: nat, player: nat, delay: nat, faction: nat,
    attack: nat, hp: nat, maxHp: nat, step: Step,
    corrodedRate: nat, corrodedWeakened: nat,
    enfeebled: nat, evaded: nat, inhibited: nat, sabotaged: nat,
    jammed: bool, overloaded: bool,
    paybacked: nat, poisoned: nat,
    protected: nat, protectedStasis: nat,
    rallied: nat, enraged: nat, derallied: nat,
    rushAttempted: bool, sundered: bool, weakened: nat,
    primaryOffset: seq<int>, evolvedOffset: seq<int>,
    enhancedValue: seq<nat>, skillCd: seq<nat>)

  /// Every per-skill array has one entry per skill, every offset leads to a
  /// valid skill code, distinct skills read distinct primary slots, and
  /// health never exceeds maximum health.
  predicate ValidStatus(st: Status)
  {
    && |st.card.skillValue| == NumSkills
    && |st.primaryOffset| == NumSkills
    && |st.evolvedOffset| == NumSkills
    && |st.enhancedValue| == NumSkills
    && |st.skillCd| == NumSkills
    && InRange(st.primaryOffset) && Injective(st.primaryOffset)
    && InRange(st.evolvedOffset)
    && st.hp <= st.maxHp
  }

  /// `n` zeros, for the per-skill offsets and bonuses of a fresh status.
  function Zeros(n: nat): (r: seq<nat>)
    ensures |r| == n && forall k :: 0 <= k < n ==> r[k] == 0
  {
    seq(n, _ => 0)
  }

  /// `CardStatus::set`: a fresh status for a card entering play.
  function NewStatus(card: Card): (r: Status)
    requires |card.skillValue| == NumSkills
    ensures ValidStatus(r)
    ensures r.card == card && r.index == 0 && r.player == 0
    ensures r.delay == card.delay && r.faction == card.faction && r.attack == card.attack
    ensures r.hp == card.health && r.maxHp == card.health && r.step == NoStep
    ensures r.enfeebled == r.evaded == r.inhibited == r.sabotaged == r.paybacked == 0
    ensures r.poisoned == r.protected == r.protectedStasis == 0
    ensures r.rallied == r.enraged == r.derallied == r.weakened == 0
    ensures r.corrodedRate == r.corrodedWeakened == 0
    ensures !r.jammed && !r.overloaded && !r.rushAttempted && !r.sundered
    ensures forall k :: 0 <= k < NumSkills ==>
      r.primaryOffset[k] == 0 && r.evolvedOffset[k] == 0 &&
      r.enhancedValue[k] == 0 && r.skillCd[k] == 0
  {
    Status(card, 0, 0, card.delay, card.faction, card.attack, card.health, card.health, NoStep,
      0, 0, 0, 0, 0, 0, false, false, 0, 0, 0, 0, 0, 0, 0, false, false, 0,
      Zeros(NumSkills), Zeros(NumSkills), Zeros(NumSkills), Zeros(NumSkills))
  }

  // The liveness predicates of the engine.
  predicate IsAlive(st: Status) { st.hp > 0 }
  predicate CanAct(st: Status) { IsAlive(st) && !st.jammed }
  predicate IsActive(st: Status) { CanAct(st) && st.delay == 0 }
  predicate IsActiveNextTurn(st: Status) { CanAct(st) && st.delay <= 1 }
  predicate CanBeHealed(st: Status) { IsAlive(st) && st.hp < st.maxHp }
  predicate HasAttacked(st: Status) { st.step == Attacked }

  /// The primary slot a skill currently reads (`skill_id + m_primary_skill_offset[skill_id]`).
  function Slot(st: Status, s: Skill): (r: nat)
    requires ValidStatus(st)
    ensures r < NumSkills
  {
    Code(s) + st.primaryOffset[Code(s)]
  }

  /// `skill_base_value`: the card's value in the skill's primary slot,
  /// plus the enrage bonus for berserk.
  function SkillBaseValue(st: Status, s: Skill): nat
    requires ValidStatus(st)
  {
    st.card.skillValue[Slot(st, s)] + (if s == Berserk then st.enraged else 0)
  }

  /// `enhanced`: the enhance bonus stored for the skill's primary slot.
  function Enhanced(st: Status, s: Skill): nat
    requires ValidStatus(st)
  {
    st.enhancedValue[Slot(st, s)]
  }

  /// `CardStatus::skill`: the effective value of a skill.  Sabotage lowers
  /// only X-based activation skills and never below zero; enhance adds.
  function SkillValue(st: Status, s: Skill): (r: nat)
    requires ValidStatus(st)
    ensures r <= SkillBaseValue(st, s) + Enhanced(st, s)
    ensures r + st.sabotaged >= SkillBaseValue(st, s) + Enhanced(st, s)
    ensures !IsActivationSkillWithX(s) || st.sabotaged == 0 ==>
      r == SkillBaseValue(st, s) + Enhanced(st, s)
  {
    (if IsActivationSkillWithX(s)
     then SafeMinus(SkillBaseValue(st, s), st.sabotaged)
     else SkillBaseValue(st, s))
    + Enhanced(st, s)
  }

  /// `has_skill`: the base value is non-zero.
  predicate HasSkill(st: Status, s: Skill)
    requires ValidStatus(st)
  {
    SkillBaseValue(st, s) != 0
  }

  /// `protected_value`: protection plus stasis protection.
  function ProtectedValue(st: Status): nat
  {
    st.protected + st.protectedStasis
  }

  /// `attack_power`: attack less weakening and corrosion (saturating),
  /// plus rally, less derally (saturating).
  function AttackPower(st: Status): (r: nat)
    ensures r <= st.attack + st.rallied
    ensures r + st.weakened + st.corrodedWeakened + st.derallied >= st.attack + st.rallied
    ensures st.weakened + st.corrodedWeakened + st.derallied == 0 ==> r == st.attack + st.rallied
  {
    SafeMinus(SafeMinus(st.attack, st.weakened + st.corrodedWeakened) + st.rallied, st.derallied)
  }

  /// `add_hp`: heal by `v`, capped at maximum health.
  function AddHp(st: Status, v: nat): (r: Status)
    ensures st.hp <= st.maxHp ==> st.hp <= r.hp <= r.maxHp
    ensures r.hp == st.hp + v || r.hp == st.maxHp
    ensures r.hp <= st.hp + v
    ensures r == st.(hp := r.hp)
  {
    st.(hp := Min(st.hp + v, st.maxHp))
  }

  /// The health part of `remove_hp`: saturating subtraction.
  function LoseHp(st: Status, dmg: nat): (r: Status)
    ensures r.hp <= st.hp
    ensures r.hp == 0 <==> st.hp <= dmg
    ensures r.hp > 0 ==> r.hp + dmg == st.hp
    ensures r == st.(hp := r.hp)
  {
    st.(hp := SafeMinus(st.hp, dmg))
  }

  /// `perform_skill<weaken>`: first cancels up to `x` of the rally that
  /// exceeds the derally, then weakens by the rest, at most the attack
  /// power that is left.
  function Weaken(st: Status, x: nat): (r: Status)
    ensures AttackPower(r) == SafeMinus(AttackPower(st), x)
    ensures r.derallied >= st.derallied && r.weakened >= st.weakened
    ensures (r.derallied - st.derallied) + (r.weakened - st.weakened) <= x
    ensures r == st.(derallied := r.derallied, weakened := r.weakened)
  {
    var split := WeakenSplit(st.attack, st.weakened, st.corrodedWeakened, st.rallied, st.derallied, x);
    st.(derallied := st.derallied + split.0, weakened := st.weakened + split.1)
  }

  /// How weaken `x` splits between taking back rally (`d`, first) and
  /// weakening what attack is left (the second part), on the attack
  /// power's terms: attack `a`, weakening `wk` and `cw`, rally `r` and
  /// derally `dr`.
  function WeakenSplit(a: nat, wk: nat, cw: nat, r: nat, dr: nat, x: nat): (res: (nat, nat))
    ensures res.0 + res.1 <= x
    ensures SafeMinus(SafeMinus(a, wk + res.1 + cw) + r, dr + res.0) == SafeMinus(SafeMinus(SafeMinus(a, wk + cw) + r, dr), x)
  {
    var d := if r > dr then Min(x, r - dr) else 0;
    var gain := if x > d then Min(x - d, SafeMinus(SafeMinus(a, wk + cw) + r, dr + d)) else 0;
    WeakenArith(a, wk, cw, r, dr, x, d, gain);
    (d, gain)
  }

  /// The arithmetic of weaken on the attack power's terms: attack `a`,
  /// weakening `wk` and `cw`, rally `r` and derally `dr`, of which `d` is
  /// taken back from the rally and `w` added to the weakening.
  lemma WeakenArith(a: nat, wk: nat, cw: nat, r: nat, dr: nat, x: nat, d: nat, w: nat)
    requires d == (if r > dr then Min(x, r - dr) else 0)
    requires w == (if x > d then Min(x - d, SafeMinus(SafeMinus(a, wk + cw) + r, dr + d)) else 0)
    ensures SafeMinus(SafeMinus(a, wk + w + cw) + r, dr + d) == SafeMinus(SafeMinus(SafeMinus(a, wk + cw) + r, dr), x)
  {
    var base := SafeMinus(a, wk + cw);
    if r > dr {
      assert SafeMinus(base + r, dr + d) == base + r - dr - d;
      if x > d {
        assert dr + d == r;
        assert SafeMinus(a, wk + w + cw) == base - w;
      }
    } else if x > 0 {
      assert SafeMinus(a, wk + w + cw) == base - w;
    }
  }

  /// `perform_skill<sunder>`: marks the target sundered, then weakens it.
  function Sunder(st: Status, x: nat): (r: Status)
    ensures r.sundered
    ensures AttackPower(r) == SafeMinus(AttackPower(st), x)
  {
    Weaken(st.(sundered := true), x)
  }

  /// `perform_skill<rush>`: lowers the delay by `max(x, 1)`, not below zero.
  function Rush(st: Status, x: nat): (r: Status)
    ensures r.delay == SafeMinus(st.delay, Max(x, 1))
    ensures st.delay > 0 ==> r.delay < st.delay
    ensures r == st.(delay := r.delay)
  {
    st.(delay := st.delay - Min(Max(x, 1), st.delay))
  }

  /// `perform_skill<enhance>`: adds `x` to the enhance bonus of the slot `s`
  /// reads.
  function EnhanceSkill(st: Status, s: Skill, x: nat): (r: Status)
    requires ValidStatus(st)
    ensures ValidStatus(r)
    ensures r == st.(enhancedValue := r.enhancedValue)
  {
    st.(enhancedValue := st.enhancedValue[Slot(st, s) := st.enhancedValue[Slot(st, s)] + x])
  }

  /// Enhancing `s` by `x` raises the value of `s` by exactly `x` and leaves
  /// every skill reading another slot alone.
  lemma EnhanceRaisesSkill(st: Status, s: Skill, x: nat, t: Skill)
    requires ValidStatus(st)
    ensures Slot(EnhanceSkill(st, s, x), t) == Slot(st, t)
    ensures SkillBaseValue(EnhanceSkill(st, s, x), t) == SkillBaseValue(st, t)
    ensures Enhanced(EnhanceSkill(st, s, x), t) ==
      Enhanced(st, t) + (if Slot(st, t) == Slot(st, s) then x else 0)
    ensures Slot(st, t) == Slot(st, s) ==>
      SkillValue(EnhanceSkill(st, s, x), t) == SkillValue(st, t) + x
  {
  }

  /// Offsets `off` send every skill code to a valid code.
  predicate InRange(off: seq<int>)
  {
    |off| == NumSkills && forall k :: 0 <= k < NumSkills ==> 0 <= k + off[k] < NumSkills
  }

  /// Primary offsets send distinct skills to distinct slots.
  predicate Injective(off: seq<int>)
    requires |off| == NumSkills
  {
    forall j, k :: 0 <= j < k < NumSkills ==> j + off[j] != k + off[k]
  }

  /// The transposition of `a` and `b`.
  function Swap(v: int, a: int, b: int): int
  {
    if v == a then b else if v == b then a else v
  }

  /// The primary-offset half of evolve, on skill codes: codes `c1` and `c2`
  /// exchange the slots they read.
  function SwapPrimary(po: seq<int>, c1: nat, c2: nat): (r: seq<int>)
    requires InRange(po) && Injective(po) && c1 < NumSkills && c2 < NumSkills
    ensures InRange(r) && Injective(r)
    ensures c1 + r[c1] == c2 + po[c2] && c2 + r[c2] == c1 + po[c1]
    ensures forall k :: 0 <= k < NumSkills && k != c1 && k != c2 ==> r[k] == po[k]
  {
    var p1 := c1 + po[c1];
    var p2 := c2 + po[c2];
    var r := po[c1 := p2 - c1][c2 := p1 - c2];
    assert forall k :: 0 <= k < NumSkills ==> k + r[k] == Swap(k + po[k], p1, p2);
    r
  }

  /// The evolved-offset half of evolve: a skill queued from slot `p1`
  /// resolves as `c2` and one queued from `p2` as `c1`.
  function Redirect(eo: seq<int>, p1: nat, c2: nat, p2: nat, c1: nat): (r: seq<int>)
    requires InRange(eo) && p1 < NumSkills && p2 < NumSkills && c1 < NumSkills && c2 < NumSkills
    requires p1 == p2 ==> c1 == c2
    ensures InRange(r)
    ensures p1 + r[p1] == c2 && p2 + r[p2] == c1
  {
    eo[p1 := c2 - p1][p2 := c1 - p2]
  }

  /// Distinct codes read distinct slots.
  lemma DistinctSlots(po: seq<int>, j: nat, k: nat)
    requires InRange(po) && Injective(po) && j < NumSkills && k < NumSkills
    ensures j + po[j] == k + po[k] ==> j == k
  {
    if j < k {
      assert j + po[j] != k + po[k];
    } else if k < j {
      assert k + po[k] != j + po[j];
    }
  }

  /// `perform_skill<evolve>`: swaps the primary slots of `s` and `s2`, and
  /// records in the evolved offsets that a skill queued from either slot
  /// now resolves as the other skill.
  function Evolve(st: Status, s: Skill, s2: Skill): (r: Status)
    requires ValidStatus(st)
    ensures ValidStatus(r)
    ensures Slot(r, s) == Slot(st, s2) && Slot(r, s2) == Slot(st, s)
    ensures Slot(st, s) + r.evolvedOffset[Slot(st, s)] == Code(s2)
    ensures Slot(st, s2) + r.evolvedOffset[Slot(st, s2)] == Code(s)
    ensures forall k :: 0 <= k < NumSkills && k != Code(s) && k != Code(s2) ==>
      r.primaryOffset[k] == st.primaryOffset[k]
    ensures r == st.(primaryOffset := r.primaryOffset, evolvedOffset := r.evolvedOffset)
  {
    var c1, c2 := Code(s), Code(s2);
    var p1, p2 := Slot(st, s), Slot(st, s2);
    DistinctSlots(st.primaryOffset, c1, c2);
    st.(primaryOffset := SwapPrimary(st.primaryOffset, c1, c2),
        evolvedOffset := Redirect(st.evolvedOffset, p1, c2, p2, c1))
  }

  /// Applying the same evolve twice restores the primary offsets of both
  /// skills.
  lemma {:induction false} EvolveTwiceRestoresOffsets(st: Status, s: Skill, s2: Skill)
    requires ValidStatus(st)
    ensures Evolve(Evolve(st, s, s2), s, s2).primaryOffset == st.primaryOffset
  {
    var r := Evolve(st, s, s2);
    var r2 := Evolve(r, s, s2);
    var c1, c2 := Code(s), Code(s2);
    assert c1 + r2.primaryOffset[c1] == c1 + st.primaryOffset[c1] by {
      assert Slot(r2, s) == Slot(r, s2) == Slot(st, s);
    }
    assert c2 + r2.primaryOffset[c2] == c2 + st.primaryOffset[c2] by {
      assert Slot(r2, s2) == Slot(r, s) == Slot(st, s2);
    }
    forall k | 0 <= k < NumSkills
      ensures r2.primaryOffset[k] == st.primaryOffset[k]
    {
    }
  }

  /// Number of entries of `skills` whose id has code `k`.
  function Occurrences(skills: seq<SkillSpec>, k: nat): nat
  {
    if skills == [] then 0
    else Occurrences(skills[..|skills| - 1], k) + (if Code(skills[|skills| - 1].id) == k then 1 else 0)
  }

  /// The status after `cooldown_skills`.
  function CooledDown(st: Status): (r: Status)
    requires ValidStatus(st)
  {
    st.(skillCd := seq(NumSkills, k requires 0 <= k < NumSkills && ValidStatus(st) =>
      SafeMinus(st.skillCd[k], Occurrences(st.card.skills, k))))
  }

  /// `cooldown_skills`: every skill listed on the card ticks its cooldown
  /// down by one, not below zero; a skill listed twice ticks twice.
  method CooldownSkills(st: Status) returns (r: Status)
    requires ValidStatus(st)
    ensures ValidStatus(r)
    ensures forall k :: 0 <= k < NumSkills ==>
      r.skillCd[k] == SafeMinus(st.skillCd[k], Occurrences(st.card.skills, k))
    ensures r == st.(skillCd := r.skillCd)
    ensures r == CooledDown(st)
  {
    var cd := st.skillCd;
    var skills := st.card.skills;
    var i := 0;
    while i < |skills|
      invariant 0 <= i <= |skills|
      invariant |cd| == NumSkills
      invariant forall k :: 0 <= k < NumSkills ==>
        cd[k] == SafeMinus(st.skillCd[k], Occurrences(skills[..i], k))
    {
      var id := Code(skills[i].id);
      if cd[id] > 0 {
        cd := cd[id := cd[id] - 1];
      }
      assert skills[..i + 1][..i] == skills[..i];
      i := i + 1;
    }
    assert skills[..i] == skills;
    r := st.(skillCd := cd);
    assert r.skillCd == CooledDown(st).skillCd;
  }
}
