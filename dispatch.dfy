/// What `resolve_skill` does to a queued skill before the skill table runs
/// it, the skill table itself, and the effect of each handler on one
/// target, as functions of the statuses involved.
module Dispatch {
  import opened Arith
  import opened Wrappers
  import opened Skills
  import opened Cards
  import opened Board
  import opened Handlers
  import opened Targeting

  /// A queued skill is not resolved when its caster is dead or jammed.
  predicate Skips(st: Status)
  {
    !IsAlive(st) || st.jammed
  }

  /// The skill as the caster performs it: its id moved by the caster's
  /// evolved offset, then (for an X-based activation skill) its X lowered
  /// by the caster's sabotage, then raised by the caster's enhance bonus.
  function Modified(st: Status, ss: SkillSpec): (r: SkillSpec)
    requires ValidStatus(st)
    ensures Code(r.id) == Code(ss.id) + st.evolvedOffset[Code(ss.id)]
    ensures r.x <= ss.x + Enhanced(st, r.id)
    ensures r.x + st.sabotaged >= ss.x + Enhanced(st, r.id)
    ensures !IsActivationSkillWithX(r.id) ==> r.x == ss.x + Enhanced(st, r.id)
    ensures IsActivationSkillWithX(r.id) ==> r.x == SafeMinus(ss.x, st.sabotaged) + Enhanced(st, r.id)
    ensures r == ss.(id := r.id, x := r.x)
  {
    var off := st.evolvedOffset[Code(ss.id)];
    var evolved := if off != 0 then ApplyEvolve(ss, off) else ss;
    var sabotaged :=
      if st.sabotaged > 0 && IsActivationSkillWithX(evolved.id)
      then ApplySabotage(evolved, st.sabotaged) else evolved;
    var bonus := Enhanced(st, sabotaged.id);
    if bonus > 0 then ApplyEnhance(sabotaged, bonus) else sabotaged
  }

  /// An X-based activation skill whose X has been sabotaged to zero is not
  /// performed.
  predicate Dropped(st: Status, ss: SkillSpec)
    requires ValidStatus(st)
  {
    IsActivationSkillWithX(Modified(st, ss).id) && Modified(st, ss).x == 0
  }

  /// A skill is dropped exactly when it is X-based after evolve, the
  /// sabotage covers its X, and the caster has no enhance bonus for it.
  lemma DroppedIff(st: Status, ss: SkillSpec)
    requires ValidStatus(st)
    ensures Dropped(st, ss) <==>
      IsActivationSkillWithX(Modified(st, ss).id) && ss.x <= st.sabotaged &&
      Enhanced(st, Modified(st, ss).id) == 0
  {
  }

  /// A caster that is not sabotaged never drops a skill with a positive X.
  lemma UnsabotagedNeverDropped(st: Status, ss: SkillSpec)
    requires ValidStatus(st) && st.sabotaged == 0 && ss.x > 0
    ensures !Dropped(st, ss)
  {
  }

  /// A card's own unevolved skill, queued at its base value, is performed
  /// at the value `CardStatus::skill` reports for it.
  lemma ModifiedIsSkillValue(st: Status, ss: SkillSpec)
    requires ValidStatus(st) && st.evolvedOffset[Code(ss.id)] == 0
    requires ss.x == SkillBaseValue(st, ss.id)
    ensures Modified(st, ss).id == ss.id
    ensures Modified(st, ss).x == SkillValue(st, ss.id)
  {
    assert SkillOfCode(Code(Modified(st, ss).id)) == SkillOfCode(Code(ss.id));
  }

  /// A caster without evolved offsets, such as a commander, performs its
  /// skill under the same id.
  lemma UnevolvedKeepsSkill(st: Status, ss: SkillSpec)
    requires ValidStatus(st) && st.evolvedOffset == Zeros(NumSkills)
    ensures Modified(st, ss).id == ss.id
  {
    var r := Modified(st, ss);
    assert st.evolvedOffset[Code(ss.id)] == 0;
    assert SkillOfCode(Code(r.id)) == SkillOfCode(Code(ss.id));
  }

  /// The handler the skill table holds for a skill.
  datatype Handler = Allied | Rushing | Hostile | NoHandler

  /// `fill_skill_table`: the hostile activation skills go to
  /// `perform_targetted_hostile_fast`, rush to
  /// `perform_targetted_allied_fast_rush`, the other activation skills to
  /// `perform_targetted_allied_fast`; other skills have no entry.
  function HandlerOf(id: Skill): (r: Handler)
    ensures r == Hostile <==> IsActivationHostileSkill(id)
    ensures r == Rushing <==> id == Rush
  {
    match id
    case Mortar => Hostile
    case Enfeeble => Hostile
    case Jam => Hostile
    case Siege => Hostile
    case Strike => Hostile
    case Sunder => Hostile
    case Weaken => Hostile
    case Mimic => Hostile
    case Enhance => Allied
    case Evolve => Allied
    case Heal => Allied
    case Mend => Allied
    case Overload => Allied
    case Protect => Allied
    case Rally => Allied
    case Enrage => Allied
    case Rush => Rushing
    case _ => NoHandler
  }

  /// The skill table has an entry exactly for the activation skills.
  lemma HandlerIffActivation(id: Skill)
    ensures HandlerOf(id) != NoHandler <==> IsActivationSkill(id)
  {
  }

  /// `skill_targets<skill>`: hostile skills aim at the opponent, the others
  /// at the caster's side; siege aims at structures, the others at assaults
  /// (mortar tries structures first).
  function TargetPlayer(id: Skill, caster: nat): (r: nat)
    requires caster < 2
    ensures r < 2 && (r == caster <==> !IsActivationHostileSkill(id))
  {
    if IsActivationHostileSkill(id) then Opponent(caster) else caster
  }

  function TargetKind(id: Skill): (r: CardType)
    ensures r != Commander && (r == Structure <==> id == Siege)
  {
    if id == Siege then Structure else Assault
  }

  /// Whether some living assault of a storage is inhibited, as the
  /// overload predicate asks of the target's side.
  predicate HasInhibited(a: seq<Status>)
  {
    exists i :: 0 <= i < |a| && IsAlive(a[i]) && a[i].inhibited > 0
  }

  /// A cooldown of `c` started for the skill with code `k`.
  function StartCooldown(st: Status, k: nat, c: nat): (r: Status)
    requires ValidStatus(st) && k < NumSkills
    ensures ValidStatus(r) && r.skillCd[k] == c
    ensures forall j :: 0 <= j < NumSkills && j != k ==> r.skillCd[j] == st.skillCd[j]
    ensures r == st.(skillCd := r.skillCd)
  {
    st.(skillCd := st.skillCd[k := c])
  }

  /// `perform_skill<skill>` of an allied skill on `dst`.  A heal cast by an
  /// assault under Zealot's Preservation also protects; a rush that brings
  /// the delay to zero lets the target try valor against `blockers`, the
  /// opposing assaults.
  function AlliedEffect(sk: Skill, dst: Status, s: SkillSpec, srcIsAssault: bool,
                        bg: map<Bge, nat>, blockers: seq<Status>): (r: Status)
    requires ValidStatus(dst)
    ensures ValidStatus(r)
    ensures r.card == dst.card && r.player == dst.player && r.index == dst.index
    ensures sk !in {Enhance, Evolve, Heal, Mend, Overload, Protect, Rally, Enrage, Rush} ==> r == dst
    ensures sk in {Heal, Mend} ==> r.hp == Min(dst.hp + s.x, dst.maxHp)
    ensures sk == Protect ==> ProtectedValue(r) == ProtectedValue(dst) + s.x
    ensures sk == Rush ==> r.delay == SafeMinus(dst.delay, Max(s.x, 1))
    ensures sk == Rally ==> AttackPower(dst) <= AttackPower(r) <= AttackPower(dst) + s.x
  {
    match sk
    case Enhance => EnhanceSkill(dst, s.s, s.x)
    case Evolve => Cards.Evolve(dst, s.s, s.s2)
    case Heal => Handlers.Heal(dst, s.x, srcIsAssault && ZealotsPreservation in bg)
    case Mend => Handlers.Heal(dst, s.x, false)
    case Overload => Handlers.Overload(dst)
    case Protect => Handlers.Protect(dst, s.x)
    case Rally => Handlers.Rally(dst, s.x)
    case Enrage => Handlers.Enrage(dst, s.x, Furiosity in bg)
    case Rush =>
      var rushed := Cards.Rush(dst, s.x);
      if rushed.delay == 0 then Handlers.Valor(rushed, blockers) else rushed
    case _ => dst
  }

  /// Heal changes only health and, with Zealot's Preservation for an
  /// assault caster, protection by half of X rounded up.
  lemma AlliedHealFrame(dst: Status, s: SkillSpec, srcIsAssault: bool, bg: map<Bge, nat>, blockers: seq<Status>)
    requires ValidStatus(dst)
    ensures var r := AlliedEffect(Heal, dst, s, srcIsAssault, bg, blockers);
      r == dst.(hp := Min(dst.hp + s.x, dst.maxHp), protected := r.protected) &&
      ProtectedValue(r) == ProtectedValue(dst) + (if srcIsAssault && ZealotsPreservation in bg then (s.x + 1) / 2 else 0)
  {
    assert AlliedEffect(Heal, dst, s, srcIsAssault, bg, blockers) == Handlers.Heal(dst, s.x, srcIsAssault && ZealotsPreservation in bg);
  }

  /// Mend changes only health.
  lemma AlliedMendFrame(dst: Status, s: SkillSpec, srcIsAssault: bool, bg: map<Bge, nat>, blockers: seq<Status>)
    requires ValidStatus(dst)
    ensures AlliedEffect(Mend, dst, s, srcIsAssault, bg, blockers) == dst.(hp := Min(dst.hp + s.x, dst.maxHp))
  {
    assert AlliedEffect(Mend, dst, s, srcIsAssault, bg, blockers) == Handlers.Heal(dst, s.x, false);
  }

  /// Enrage raises only the enrage bonus by X and, under Furiosity, heals
  /// a target that can be healed by X.
  lemma AlliedEnrageFrame(dst: Status, s: SkillSpec, srcIsAssault: bool, bg: map<Bge, nat>, blockers: seq<Status>)
    requires ValidStatus(dst)
    ensures var r := AlliedEffect(Enrage, dst, s, srcIsAssault, bg, blockers);
      r == dst.(enraged := dst.enraged + s.x, hp := r.hp) &&
      r.hp == (if Furiosity in bg && CanBeHealed(dst) then Min(dst.hp + s.x, dst.maxHp) else dst.hp)
  {
    assert AlliedEffect(Enrage, dst, s, srcIsAssault, bg, blockers) == Handlers.Enrage(dst, s.x, Furiosity in bg);
  }

  /// Overload sets only the overloaded flag.
  lemma AlliedOverloadFrame(dst: Status, s: SkillSpec, srcIsAssault: bool, bg: map<Bge, nat>, blockers: seq<Status>)
    requires ValidStatus(dst)
    ensures AlliedEffect(Overload, dst, s, srcIsAssault, bg, blockers) == dst.(overloaded := true)
  {
    assert AlliedEffect(Overload, dst, s, srcIsAssault, bg, blockers) == Handlers.Overload(dst);
  }

  /// Protect raises only protection, by X.
  lemma AlliedProtectFrame(dst: Status, s: SkillSpec, srcIsAssault: bool, bg: map<Bge, nat>, blockers: seq<Status>)
    requires ValidStatus(dst)
    ensures AlliedEffect(Protect, dst, s, srcIsAssault, bg, blockers) == dst.(protected := dst.protected + s.x)
  {
    assert AlliedEffect(Protect, dst, s, srcIsAssault, bg, blockers) == Handlers.Protect(dst, s.x);
  }

  /// Rally raises only the rally bonus, by X.
  lemma AlliedRallyFrame(dst: Status, s: SkillSpec, srcIsAssault: bool, bg: map<Bge, nat>, blockers: seq<Status>)
    requires ValidStatus(dst)
    ensures AlliedEffect(Rally, dst, s, srcIsAssault, bg, blockers) == dst.(rallied := dst.rallied + s.x)
  {
    assert AlliedEffect(Rally, dst, s, srcIsAssault, bg, blockers) == Handlers.Rally(dst, s.x);
  }

  /// Enhance raises only the enhance bonus of the slot its skill reads, by
  /// X.
  lemma AlliedEnhanceFrame(dst: Status, s: SkillSpec, srcIsAssault: bool, bg: map<Bge, nat>, blockers: seq<Status>)
    requires ValidStatus(dst)
    ensures var r := AlliedEffect(Enhance, dst, s, srcIsAssault, bg, blockers);
      r == dst.(enhancedValue := r.enhancedValue) &&
      r.enhancedValue[Slot(dst, s.s)] == dst.enhancedValue[Slot(dst, s.s)] + s.x &&
      forall k :: 0 <= k < NumSkills && k != Slot(dst, s.s) ==> r.enhancedValue[k] == dst.enhancedValue[k]
  {
    assert AlliedEffect(Enhance, dst, s, srcIsAssault, bg, blockers) == EnhanceSkill(dst, s.s, s.x);
  }

  /// Evolve only exchanges the slots its two skills read.
  lemma AlliedEvolveFrame(dst: Status, s: SkillSpec, srcIsAssault: bool, bg: map<Bge, nat>, blockers: seq<Status>)
    requires ValidStatus(dst)
    ensures var r := AlliedEffect(Evolve, dst, s, srcIsAssault, bg, blockers);
      r == dst.(primaryOffset := r.primaryOffset, evolvedOffset := r.evolvedOffset) &&
      Slot(r, s.s) == Slot(dst, s.s2) && Slot(r, s.s2) == Slot(dst, s.s)
  {
    assert AlliedEffect(Evolve, dst, s, srcIsAssault, bg, blockers) == Cards.Evolve(dst, s.s, s.s2);
  }

  /// Rush lowers only the delay and, once the delay reaches zero, lets
  /// valor raise the attack; a target still waiting keeps its attack.
  lemma AlliedRushFrame(dst: Status, s: SkillSpec, srcIsAssault: bool, bg: map<Bge, nat>, blockers: seq<Status>)
    requires ValidStatus(dst)
    ensures var r := AlliedEffect(Rush, dst, s, srcIsAssault, bg, blockers);
      r == dst.(delay := r.delay, attack := r.attack) &&
      (r.delay > 0 ==> r.attack == dst.attack)
  {
    var rushed := Cards.Rush(dst, s.x);
    RushedFrame(dst, s.x, blockers);
    assert AlliedEffect(Rush, dst, s, srcIsAssault, bg, blockers) ==
      if rushed.delay == 0 then Handlers.Valor(rushed, blockers) else rushed;
  }

  /// A rush, followed by valor when it brings the delay to zero, changes
  /// only the delay and the attack.
  lemma RushedFrame(dst: Status, x: nat, blockers: seq<Status>)
    requires ValidStatus(dst)
    ensures var rushed := Cards.Rush(dst, x);
      var r := if rushed.delay == 0 then Handlers.Valor(rushed, blockers) else rushed;
      r == dst.(delay := r.delay, attack := r.attack) && (r.delay > 0 ==> r.attack == dst.attack)
  {
    var rushed := Cards.Rush(dst, x);
    assert rushed == dst.(delay := rushed.delay);
  }

  /// `perform_skill<skill>` of a hostile skill that changes the target's
  /// status without damaging it.
  function HostileEffect(sk: Skill, dst: Status, s: SkillSpec): (r: Status)
    ensures ValidStatus(dst) ==> ValidStatus(r)
    ensures r.card == dst.card && r.player == dst.player && r.index == dst.index
    ensures r.hp == dst.hp && r.maxHp == dst.maxHp
    ensures sk == Enfeeble ==> r.enfeebled == dst.enfeebled + s.x
    ensures sk == Jam ==> !CanAct(r)
    ensures sk in {Weaken, Sunder} ==> AttackPower(r) == SafeMinus(AttackPower(dst), s.x)
    ensures sk == Sunder ==> r.sundered
    ensures sk !in {Enfeeble, Jam, Weaken, Sunder} ==> r == dst
  {
    match sk
    case Enfeeble => Handlers.Enfeeble(dst, s.x)
    case Jam => Handlers.Jam(dst)
    case Weaken => Cards.Weaken(dst, s.x)
    case Sunder => Cards.Sunder(dst, s.x)
    case _ => dst
  }

  /// The damage `perform_skill<skill>` deals: siege X; strike X plus the
  /// target's enfeeble less its protection; mortar X on a structure and
  /// half of X (rounded up) on an assault, as strike.  An overloaded caster
  /// ignores protection.
  function HostileDamage(sk: Skill, overloaded: bool, dst: Status, s: SkillSpec): (r: nat)
    ensures sk !in {Mortar, Siege, Strike} ==> r == 0
    ensures sk == Siege ==> r == s.x
    ensures sk == Strike ==> r <= s.x + dst.enfeebled
    ensures sk == Strike && overloaded ==> r == s.x + dst.enfeebled
    ensures sk == Mortar && dst.card.cardType == Structure ==> r == s.x
    ensures sk == Mortar && dst.card.cardType != Structure ==> r <= s.x / 2 + 1 + dst.enfeebled
  {
    match sk
    case Siege => s.x
    case Strike => HitDamage(s.x, dst, overloaded)
    case Mortar =>
      if dst.card.cardType == Structure then s.x else HitDamage((s.x + 1) / 2, dst, overloaded)
    case _ => 0
  }

  /// The evade check of `check_and_perform_skill`: a hostile skill of a
  /// caster that is not overloaded is evaded by an enemy whose evades so far
  /// are fewer than its evade value.
  predicate Evades(src: Status, dst: Status, evadable: bool)
    requires ValidStatus(dst)
  {
    evadable && dst.evaded < SkillValue(dst, Evade) && dst.player != src.player
  }

  /// The evade check on the board, for a caster at `src` whose overload
  /// makes its skill unevadable.
  predicate EvadesOn(sides: seq<Side>, src: Loc, dst: Loc)
    requires WellFormed(sides) && ValidLoc(sides, src) && ValidLoc(sides, dst)
  {
    WellFormedAt(sides, dst);
    Evades(At(sides, src), At(sides, dst), !At(sides, src).overloaded)
  }

  /// One evade spent.
  function SpendEvade(dst: Status): (r: Status)
    ensures r.evaded == dst.evaded + 1 && r == dst.(evaded := r.evaded)
  {
    dst.(evaded := dst.evaded + 1)
  }

  /// Evading uses up the evade value: a target evades at most its evade
  /// value's worth of skills.
  lemma EvadeSpends(src: Status, dst: Status)
    requires ValidStatus(dst) && Evades(src, dst, true)
    ensures ValidStatus(SpendEvade(dst))
    ensures SkillValue(SpendEvade(dst), Evade) == SkillValue(dst, Evade)
    ensures SpendEvade(dst).evaded <= SkillValue(dst, Evade)
  {
  }

  /// The payback check: a target with payback or revenge left strikes back
  /// at a living assault caster, except against mimic.
  predicate PaysBack(sk: Skill, dst: Status, src: Status)
    requires ValidStatus(dst)
  {
    sk != Mimic && dst.paybacked < SkillValue(dst, Payback) + SkillValue(dst, Skills.Revenge) &&
    src.card.cardType == Assault && IsAlive(src)
  }

  /// The unit revenge strikes back at in case `c` of its three: the living
  /// assault left of the caster, the caster itself, the living assault
  /// right of it.
  function RevengeTarget(assaults: seq<Status>, src: Loc, c: nat): (r: Option<Loc>)
    requires src.pos < |assaults|
    ensures r.Some? ==>
      r.value.player == src.player && r.value.kind == Assault && r.value.pos < |assaults| &&
      r.value.pos + 1 == src.pos + c
    ensures c == 1 ==> r == Some(src.(kind := Assault))
    ensures c == 0 ==> (r.Some? <==> src.pos > 0 && IsAlive(assaults[src.pos - 1]))
    ensures c == 2 ==> (r.Some? <==> src.pos + 1 < |assaults| && IsAlive(assaults[src.pos + 1]))
    ensures c > 2 ==> r == None
  {
    match c
    case 0 =>
      var left := LeftAssault(assaults, src.pos, 1);
      if left.Some? then Some(Loc(src.player, Assault, left.value)) else None
    case 1 => Some(src.(kind := Assault))
    case 2 =>
      var right := RightAssault(assaults, src.pos, 1);
      if right.Some? then Some(Loc(src.player, Assault, right.value)) else None
    case _ => None
  }

  /// One payback or revenge used.
  function UsePayback(st: Status): (r: Status)
    ensures r.paybacked == st.paybacked + 1 && r == st.(paybacked := r.paybacked)
  {
    st.(paybacked := st.paybacked + 1)
  }

  /// One inhibit spent by an allied skill that it stops.
  function Uninhibit(st: Status): (r: Status)
    requires st.inhibited > 0
    ensures r.inhibited + 1 == st.inhibited && r == st.(inhibited := r.inhibited)
  {
    st.(inhibited := st.inhibited - 1)
  }

  /// The skill mimic performs: the chosen skill of the target, at mimic's X
  /// plus the caster's enhance bonus for it, for all factions, without
  /// cooldown.
  function Mimicked(src: Status, mim: SkillSpec, s: SkillSpec): (r: SkillSpec)
    requires ValidStatus(src)
    ensures r.id == mim.id && r.x == s.x + Enhanced(src, mim.id)
    ensures r.y == AllFactions && r.c == 0
    ensures r.n == mim.n && r.s == mim.s && r.s2 == mim.s2 && r.all == mim.all
  {
    SkillSpec(mim.id, s.x + Enhanced(src, mim.id), AllFactions, mim.n, 0, mim.s, mim.s2, mim.all)
  }

  /// Mimic's choice among `n` mimickable skills: the only one, or one drawn
  /// from the random stream.
  function MimicChoice(n: nat, rng: seq<nat>): (r: (nat, seq<nat>))
    requires n > 0
    ensures r.0 < n
    ensures n == 1 ==> r == (0, rng)
  {
    if n == 1 then (0, rng) else Rand(rng, 0, n - 1)
  }

  /// Mimic never copies mimic, so a mimicked skill never mimics again.
  lemma MimicNeverNests(dst: Status, srcIsAssault: bool, i: nat)
    requires i < |MimickableSkills(dst.card.skills, srcIsAssault)|
    ensures dst.card.skills[MimickableSkills(dst.card.skills, srcIsAssault)[i]].id != Mimic
    ensures IsActivationSkill(dst.card.skills[MimickableSkills(dst.card.skills, srcIsAssault)[i]].id)
  {
  }

  /// Every status of a well-formed board is valid.
  lemma BoardValid(sides: seq<Side>, p: nat)
    requires WellFormed(sides) && p < 2
    ensures AllValid(sides[p].assaults) && AllValid(sides[p].structures)
    ensures ValidStatus(sides[p].commander)
  {
    forall i | 0 <= i < |sides[p].structures|
      ensures ValidStatus(sides[p].structures[i])
    {
      assert Fits(sides[p].structures[i], Loc(p, Structure, i));
    }
    forall i | 0 <= i < |sides[p].assaults|
      ensures ValidStatus(sides[p].assaults[i])
    {
      assert Fits(sides[p].assaults[i], Loc(p, Assault, i));
    }
  }

  /// The mimic nesting depth a skill can still reach: a mimic performs one
  /// non-mimic skill.
  function Rank(id: Skill): (r: nat)
    ensures r == 0 <==> id != Mimic
  {
    if id == Mimic then 1 else 0
  }

  /// One target `dst` of `perform_targetted_allied_fast` by the caster at
  /// `src`: when the target is inhibited and the caster was not overloaded,
  /// the target loses one inhibit instead; otherwise the skill takes effect
  /// on it and, for a skill with a cooldown, the caster's cooldown starts.
  function AlliedOnBoard(sides: seq<Side>, src: Loc, dst: Loc, s: SkillSpec, overloaded: bool,
                         bg: map<Bge, nat>): (r: seq<Side>)
    requires WellFormed(sides) && ValidLoc(sides, src) && ValidLoc(sides, dst) && dst.kind == Assault
    ensures WellFormed(r) && SameShape(sides, r)
    ensures forall m :: ValidLoc(sides, m) && m != src && m != dst ==> At(r, m) == At(sides, m)
    ensures forall p :: 0 <= p < 2 ==>
      r[p].commander.hp == sides[p].commander.hp && r[p].totalCardsDestroyed == sides[p].totalCardsDestroyed
    ensures At(sides, dst).inhibited > 0 && !overloaded ==> At(r, dst) == Uninhibit(At(sides, dst))
  {
    var d := At(sides, dst);
    WellFormedAt(sides, dst);
    if d.inhibited > 0 && !overloaded then
      PutKeepsBoard(sides, dst, Uninhibit(d));
      Put(sides, dst, Uninhibit(d))
    else
      var done := AlliedApplied(sides, src, dst, s, bg);
      SameShapeLocs(sides, done);
      WithCooldown(done, src, s)
  }

  /// The board after the skill's effect lands on `dst`.
  function AlliedApplied(sides: seq<Side>, src: Loc, dst: Loc, s: SkillSpec, bg: map<Bge, nat>): (r: seq<Side>)
    requires WellFormed(sides) && ValidLoc(sides, src) && ValidLoc(sides, dst) && dst.kind == Assault
    ensures WellFormed(r) && SameShape(sides, r)
    ensures forall m :: ValidLoc(sides, m) && m != dst ==> At(r, m) == At(sides, m)
    ensures forall p :: 0 <= p < 2 ==>
      r[p].commander.hp == sides[p].commander.hp && r[p].totalCardsDestroyed == sides[p].totalCardsDestroyed
  {
    var d := At(sides, dst);
    WellFormedAt(sides, dst);
    var e := AlliedEffect(s.id, d, s, At(sides, src).card.cardType == Assault, bg,
                          sides[Opponent(dst.player)].assaults);
    PutKeepsBoard(sides, dst, e);
    Put(sides, dst, e)
  }

  /// The board after the caster at `src` starts the skill's cooldown, when
  /// it has one.
  function WithCooldown(sides: seq<Side>, src: Loc, s: SkillSpec): (r: seq<Side>)
    requires WellFormed(sides) && ValidLoc(sides, src)
    ensures WellFormed(r) && SameShape(sides, r)
    ensures forall m :: ValidLoc(sides, m) && m != src ==> At(r, m) == At(sides, m)
    ensures forall p :: 0 <= p < 2 ==>
      r[p].commander.hp == sides[p].commander.hp && r[p].totalCardsDestroyed == sides[p].totalCardsDestroyed
  {
    if s.c > 0 then
      WellFormedAt(sides, src);
      var cd := StartCooldown(At(sides, src), Code(s.id), s.c);
      PutKeepsBoard(sides, src, cd);
      Put(sides, src, cd)
    else sides
  }

  /// Addresses of player-side assaults on the board.
  predicate AssaultsOn(sides: seq<Side>, ts: seq<Loc>)
  {
    forall i :: 0 <= i < |ts| ==> ValidLoc(sides, ts[i]) && ts[i].kind == Assault
  }

  /// The first pass of `perform_targetted_allied_fast` over the selected
  /// targets `ts`, in order.  Only the targets and the caster change.
  function AlliedAll(sides: seq<Side>, src: Loc, ts: seq<Loc>, s: SkillSpec, overloaded: bool,
                     bg: map<Bge, nat>): (r: seq<Side>)
    requires WellFormed(sides) && ValidLoc(sides, src) && AssaultsOn(sides, ts)
    ensures WellFormed(r) && SameShape(sides, r)
    ensures forall m :: ValidLoc(sides, m) && m != src && m !in ts ==> At(r, m) == At(sides, m)
    ensures forall p :: 0 <= p < 2 ==>
      r[p].commander.hp == sides[p].commander.hp && r[p].totalCardsDestroyed == sides[p].totalCardsDestroyed
    decreases |ts|
  {
    if ts == [] then sides
    else
      var prev := AlliedAll(sides, src, ts[..|ts| - 1], s, overloaded, bg);
      SameShapeLocs(sides, prev);
      assert forall m :: m in ts[..|ts| - 1] ==> m in ts;
      AlliedOnBoard(prev, src, ts[|ts| - 1], s, overloaded, bg)
  }

  /// `select_fast<mend>`: the damaged assaults among the living neighbours
  /// of position `pos` within `reach`.
  method HealableNeighbours(a: seq<Status>, pos: nat, reach: nat) returns (r: seq<nat>)
    requires pos <= |a|
    ensures forall i :: 0 <= i < |r| ==>
      r[i] < |a| && r[i] in Neighbours(a, pos, reach) && CanBeHealed(a[r[i]])
    ensures forall q :: q in Neighbours(a, pos, reach) && CanBeHealed(a[q]) ==> q in r
  {
    var adj := AdjacentAssaults(a, pos, reach);
    r := [];
    var k := 0;
    while k < |adj|
      invariant 0 <= k <= |adj|
      invariant forall i :: 0 <= i < |r| ==> r[i] < |a| && r[i] in adj && CanBeHealed(a[r[i]])
      invariant forall j :: 0 <= j < k && CanBeHealed(a[adj[j]]) ==> adj[j] in r
    {
      if CanBeHealed(a[adj[k]]) {
        r := r + [adj[k]];
      }
      k := k + 1;
    }
  }

  /// The storage of a side that addresses of kind `kind` point into.
  function StorageOf(side: Side, kind: CardType): seq<Status>
  {
    match kind
    case Structure => side.structures
    case _ => side.assaults
  }

  /// Extending the targets by one is one more `AlliedOnBoard` step.
  lemma AlliedAllNext(sides: seq<Side>, src: Loc, ts: seq<Loc>, k: nat, s: SkillSpec,
                      overloaded: bool, bg: map<Bge, nat>)
    requires WellFormed(sides) && ValidLoc(sides, src) && AssaultsOn(sides, ts) && k < |ts|
    ensures AssaultsOn(sides, ts[..k]) && AssaultsOn(sides, ts[..k + 1])
    ensures ValidLoc(AlliedAll(sides, src, ts[..k], s, overloaded, bg), src)
    ensures ValidLoc(AlliedAll(sides, src, ts[..k], s, overloaded, bg), ts[k])
    ensures AlliedAll(sides, src, ts[..k + 1], s, overloaded, bg) ==
      AlliedOnBoard(AlliedAll(sides, src, ts[..k], s, overloaded, bg), src, ts[k], s, overloaded, bg)
  {
    assert ts[..k + 1][..k] == ts[..k];
    SameShapeLocs(sides, AlliedAll(sides, src, ts[..k], s, overloaded, bg));
  }

  /// The addresses of positions `sel` in the storage `kind` of player `p`.
  function Addresses(p: nat, kind: CardType, sel: seq<nat>): (r: seq<Loc>)
    ensures |r| == |sel| && forall i :: 0 <= i < |r| ==> r[i] == Loc(p, kind, sel[i])
  {
    seq(|sel|, i requires 0 <= i < |sel| => Loc(p, kind, sel[i]))
  }

  /// Positions drawn from candidates of a storage address units of it.
  lemma AddressesOn(sides: seq<Side>, p: nat, kind: CardType, sel: seq<nat>, cands: seq<nat>)
    requires p < |sides| && kind != Commander && multiset(sel) <= multiset(cands)
    requires forall i :: 0 <= i < |cands| ==> cands[i] < |StorageOf(sides[p], kind)|
    ensures forall i :: 0 <= i < |sel| ==> ValidLoc(sides, Addresses(p, kind, sel)[i])
  {
    forall i | 0 <= i < |sel|
      ensures ValidLoc(sides, Addresses(p, kind, sel)[i])
    {
      assert sel[i] in multiset(sel);
      assert sel[i] in cands;
    }
  }
}
