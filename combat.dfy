/// The parts of an assault's attack that read the board but change only one
/// status: what `modify_attack_damage` counts around the attacker and the
/// defender, the first wall, the swipe damage, and what the attacker gains
/// after it has hit (`PerformAttack::op`).
module Combat {
  import opened Arith
  import opened Wrappers
  import opened Skills
  import opened Cards
  import opened Board
  import opened Handlers
  import opened Effects
  import opened Dispatch

  /// The living assault at `j` shares the faction of the one at `i`.
  predicate Ally(assaults: seq<Status>, i: nat, j: int)
    requires i < |assaults|
  {
    0 <= j < |assaults| && IsAlive(assaults[j]) && assaults[j].faction == assaults[i].faction
  }

  /// Legion's count: the living same-faction neighbours of the assault at
  /// `i`, left and right.
  function LegionCount(assaults: seq<Status>, i: nat): (r: nat)
    requires i < |assaults|
    ensures r <= 2
    ensures r == 0 <==> !Ally(assaults, i, i - 1) && !Ally(assaults, i, i + 1)
    ensures r == 2 <==> Ally(assaults, i, i - 1) && Ally(assaults, i, i + 1)
  {
    (if Ally(assaults, i, i - 1) then 1 else 0) + (if Ally(assaults, i, i + 1) then 1 else 0)
  }

  /// The factions of the living assaults (the coalition bitmap).
  function LivingFactions(assaults: seq<Status>): (r: set<nat>)
    ensures forall f :: f in r <==> exists j :: 0 <= j < |assaults| && IsAlive(assaults[j]) && assaults[j].card.faction == f
    ensures |r| <= |assaults|
  {
    if assaults == [] then {}
    else
      var rest := LivingFactions(assaults[..|assaults| - 1]);
      var last := assaults[|assaults| - 1];
      assert forall j :: 0 <= j < |assaults| - 1 ==> assaults[..|assaults| - 1][j] == assaults[j];
      if IsAlive(last) then rest + {last.card.faction} else rest
  }

  /// The largest armor value among the living assaults at `adj`, or `acc`
  /// when that is larger.
  function MaxArmor(assaults: seq<Status>, adj: seq<nat>, acc: nat): (r: nat)
    requires forall k :: 0 <= k < |adj| ==> adj[k] < |assaults| && ValidStatus(assaults[adj[k]])
    ensures r >= acc
    ensures forall k :: 0 <= k < |adj| ==> r >= SkillValue(assaults[adj[k]], Armor)
    ensures r == acc || exists k :: 0 <= k < |adj| && r == SkillValue(assaults[adj[k]], Armor)
  {
    if adj == [] then acc
    else
      var v := SkillValue(assaults[adj[0]], Armor);
      var rest := adj[1..];
      assert forall k :: 0 <= k < |rest| ==> rest[k] == adj[k + 1];
      MaxArmor(assaults, rest, if acc >= v then acc else v)
  }

  /// The armor that protects the defender at `def`: its own, or under
  /// Fortification, for an assault, the best of its own and its living
  /// neighbours'.
  function DefenderArmor(sides: seq<Side>, def: Loc, fortification: bool): (r: nat)
    requires WellFormed(sides) && ValidLoc(sides, def)
    ensures r >= SkillValue(At(sides, def), Armor)
    ensures !fortification || def.kind != Assault ==> r == SkillValue(At(sides, def), Armor)
    ensures def.kind == Assault ==> forall k :: k in Neighbours(sides[def.player].assaults, def.pos, 1) ==>
      (fortification ==> r >= SkillValue(sides[def.player].assaults[k], Armor))
  {
    WellFormedAt(sides, def);
    var own := SkillValue(At(sides, def), Armor);
    if def.kind == Assault && fortification then
      var a := sides[def.player].assaults;
      var adj := Neighbours(a, def.pos, 1);
      assert forall k :: 0 <= k < |adj| ==> ValidStatus(a[adj[k]]) by {
        forall k | 0 <= k < |adj| ensures ValidStatus(a[adj[k]]) {
          WellFormedAt(sides, Loc(def.player, Assault, adj[k]));
        }
      }
      MaxArmor(a, adj, own)
    else own
  }

  /// Everything `modify_attack_damage` reads besides the two statuses, for
  /// the assault at `att` attacking `def` with Bloodlust at `bloodlust`.
  function EnvAt(sides: seq<Side>, att: Loc, def: Loc, bloodlust: nat, fortification: bool): (r: AttackEnv)
    requires WellFormed(sides) && ValidLoc(sides, att) && att.kind == Assault && ValidLoc(sides, def)
    ensures r.legionCount <= 2 && r.bloodlust == bloodlust
    ensures r.factions <= |sides[att.player].assaults|
    ensures r.armor >= SkillValue(At(sides, def), Armor)
  {
    var a := sides[att.player].assaults;
    AttackEnv(LegionCount(a, att.pos), |LivingFactions(a)|, bloodlust, DefenderArmor(sides, def, fortification))
  }

  /// What Brigade heals the attacker by: the legion bonus when legion
  /// applies, and the bare neighbour count when the attacker is not active
  /// (the count is only multiplied by the legion value for an active one).
  function BrigadeHeal(att: Status, env: AttackEnv): (r: nat)
    requires ValidStatus(att)
    ensures IsActive(att) ==> r == LegionBonus(att, env)
    ensures r > 0 ==> !att.sundered && SkillValue(att, Legion) > 0 && env.legionCount > 0
  {
    if att.sundered || SkillValue(att, Legion) == 0 then 0
    else if IsActive(att) then LegionBonus(att, env)
    else env.legionCount
  }

  /// The attacker after Brigade: a non-zero brigade value heals it when it
  /// can be healed.
  function Brigaded(att: Status, env: AttackEnv, brigade: bool): (r: Status)
    requires ValidStatus(att)
    ensures ValidStatus(r) && r == att.(hp := r.hp)
    ensures att.hp <= r.hp <= att.hp + BrigadeHeal(att, env)
    ensures !brigade || BrigadeHeal(att, env) == 0 ==> r == att
  {
    if brigade && BrigadeHeal(att, env) > 0 && CanBeHealed(att) then AddHp(att, BrigadeHeal(att, env)) else att
  }

  /// The first living wall among the defending structures
  /// (`select_first_enemy_wall`).
  function FirstWall(structures: seq<Status>): (r: Option<nat>)
    requires forall i :: 0 <= i < |structures| ==> ValidStatus(structures[i])
    ensures r.Some? ==> r.value < |structures| && HasSkill(structures[r.value], Wall) && IsAlive(structures[r.value])
    ensures r.Some? ==> forall i :: 0 <= i < r.value ==> !(HasSkill(structures[i], Wall) && IsAlive(structures[i]))
    ensures r.None? ==> forall i :: 0 <= i < |structures| ==> !(HasSkill(structures[i], Wall) && IsAlive(structures[i]))
  {
    if structures == [] then None
    else if HasSkill(structures[0], Wall) && IsAlive(structures[0]) then Some(0)
    else match FirstWall(structures[1..])
      case None => None
      case Some(j) => Some(j + 1)
  }

  /// `(v - 1) / d + 1` in unsigned arithmetic: the rounded-up share for a
  /// positive `v`, and a wrapped-around value for zero.
  function UnsignedShare(v: nat, d: nat): (r: nat)
    requires d > 0
    ensures v > 0 ==> r == Share(v, d)
  {
    if v > 0 then Share(v, d) else U32(v - 1) / d + 1
  }

  /// Counterflux runs only inside the counter branch, for a defender that
  /// has the counter skill.  Counter takes no X, so sabotage cannot lower
  /// it: its value is positive and the unsigned share never wraps.
  lemma CounterfluxShareNeverWraps(def: Status, d: nat)
    requires ValidStatus(def) && HasSkill(def, Counter) && d > 0
    ensures SkillValue(def, Counter) > 0
    ensures UnsignedShare(SkillValue(def, Counter), d) == Share(SkillValue(def, Counter), d)
  {
    assert !IsActivationSkillWithX(Counter);
  }

  /// Counterflux: a living defending assault that countered heals by a
  /// share of its counter value (`flux`, 4 when zero) and, unless sundered,
  /// gains as much attack.
  function CounterfluxGain(def: Status, flux: nat): (r: Status)
    requires ValidStatus(def)
    ensures ValidStatus(r) && r == def.(attack := r.attack, hp := r.hp)
    ensures var v := UnsignedShare(SkillValue(def, Counter), Denominator(flux, 4));
      r.hp == Min(def.hp + v, def.maxHp) && r.attack == (if def.sundered then def.attack else def.attack + v)
  {
    var v := UnsignedShare(SkillValue(def, Counter), Denominator(flux, 4));
    var healed := AddHp(def, v);
    if def.sundered then healed else healed.(attack := healed.attack + v)
  }

  /// Heroism after an attack on an assault: an attacker with valor that is
  /// not sundered gains its valor in attack when the defender is dead.
  function HeroismGain(att: Status, defDead: bool): (r: Status)
    requires ValidStatus(att)
    ensures ValidStatus(r) && r == att.(attack := r.attack)
    ensures r.attack == att.attack + (if defDead && !att.sundered then SkillValue(att, Valor) else 0)
  {
    if SkillValue(att, Valor) > 0 && !att.sundered && defDead then att.(attack := att.attack + SkillValue(att, Valor))
    else att
  }

  /// Devour after an attack on an assault: an attacker with leech or
  /// refresh gains a share (`devour`, 4 when zero) of their sum in maximum
  /// health, health and, unless sundered, attack.
  function DevourGain(att: Status, devour: nat): (r: Status)
    requires ValidStatus(att)
    ensures ValidStatus(r) && r == att.(attack := r.attack, hp := r.hp, maxHp := r.maxHp)
    ensures r.maxHp - r.hp == att.maxHp - att.hp
    ensures var v := SkillValue(att, Skills.Leech) + SkillValue(att, Refresh);
      v == 0 ==> r == att
    ensures var v := SkillValue(att, Skills.Leech) + SkillValue(att, Refresh);
      v > 0 ==> r.hp == att.hp + Share(v, Denominator(devour, 4)) &&
                r.attack == att.attack + (if att.sundered then 0 else Share(v, Denominator(devour, 4)))
  {
    var v := SkillValue(att, Skills.Leech) + SkillValue(att, Refresh);
    if v == 0 then att
    else
      var g := Share(v, Denominator(devour, 4));
      att.(attack := if att.sundered then att.attack else att.attack + g, maxHp := att.maxHp + g, hp := att.hp + g)
  }

  /// The value a battleground effect was given, when it is present.
  function BgValue(bg: map<Bge, nat>, e: Bge): (r: nat)
    ensures e !in bg ==> r == 0
    ensures e in bg ==> r == bg[e]
  {
    if e in bg then bg[e] else 0
  }

  /// The attacker after a hit is unchanged in all that the gains of a hit
  /// never touch: its card, owner, place, sunder, weaken and poison, and
  /// its skill tables; and it has lost no health.
  predicate GainFrame(att: Status, r: Status)
  {
    && r.card == att.card && r.player == att.player && r.index == att.index
    && r.sundered == att.sundered && r.weakened == att.weakened && r.poisoned == att.poisoned
    && r.primaryOffset == att.primaryOffset && r.evolvedOffset == att.evolvedOffset
    && r.enhancedValue == att.enhancedValue && r.skillCd == att.skillCd
    && (att.sundered ==> r.attack == att.attack)
    && att.hp <= r.hp
  }

  /// What the attacker gains after a hit on an assault: leech, then
  /// Heroism and Devour when they are in play.
  function AssaultGains(att: Status, def: Status, dmg: nat, bg: map<Bge, nat>): (r: Status)
    requires ValidStatus(att)
    ensures ValidStatus(r) && GainFrame(att, r) && r.corrodedRate == att.corrodedRate
  {
    var leeched := Handlers.Leech(att, dmg);
    var heroic := if Bge.Heroism in bg then HeroismGain(leeched, !IsAlive(def)) else leeched;
    if Bge.Devour in bg then DevourGain(heroic, BgValue(bg, Bge.Devour)) else heroic
  }

  /// What the attacker gains after a hit of `dmg` that it survived:
  /// corrosion from the defender, berserk (with Enduring Rage), and against
  /// an assault leech, Heroism and Devour.
  function Aftermath(att: Status, def: Status, defKind: CardType, dmg: nat, bg: map<Bge, nat>): (r: Status)
    requires ValidStatus(att) && ValidStatus(def)
    ensures ValidStatus(r) && GainFrame(att, r)
    ensures r.corrodedRate == Max(att.corrodedRate, SkillValue(def, Corrosive))
  {
    var corroded := Corrode(att, def);
    var raged := Handlers.Berserk(corroded, EnduringRage in bg, BgValue(bg, EnduringRage));
    if defKind != Assault then raged
    else AssaultGains(raged, def, dmg, bg)
  }

  /// Swipe and drain damage on each neighbour of the defender: the swipe
  /// and drain values plus the defender's enfeeble, less the defender's
  /// protection (the defender's, not the neighbour's).
  function SwipeDamage(swipe: nat, drain: nat, def: Status): (r: nat)
    ensures r <= swipe + drain + def.enfeebled
    ensures r == HitDamage(swipe + drain, def, false)
  {
    SafeMinus(swipe + drain + def.enfeebled, ProtectedValue(def))
  }

  /// The board after a swipe hits each of player `o`'s assaults at `adj`,
  /// in order, for `d` through `remove_hp`.
  function Swiped(sides: seq<Side>, o: nat, adj: seq<nat>, d: nat, vip: set<nat>): (r: seq<Side>)
    requires WellFormed(sides) && o < 2 && forall k :: 0 <= k < |adj| ==> adj[k] < |sides[o].assaults|
    ensures WellFormed(r) && SameShape(sides, r)
    decreases |adj|
  {
    if adj == [] then sides
    else
      var l := Loc(o, Assault, adj[0]);
      HitEffects(sides, l, d, vip);
      Swiped(Hit(sides, l, d, vip), o, adj[1..], d, vip)
  }

  /// What a swipe does: each assault at the distinct positions `adj` loses
  /// `d` health, and every other assault and every structure keeps its
  /// status.
  lemma SwipedEffects(sides: seq<Side>, o: nat, adj: seq<nat>, d: nat, vip: set<nat>)
    requires WellFormed(sides) && o < 2 && forall k :: 0 <= k < |adj| ==> adj[k] < |sides[o].assaults|
    requires forall j, k :: 0 <= j < k < |adj| ==> adj[j] != adj[k]
    ensures forall k :: 0 <= k < |adj| ==>
      At(Swiped(sides, o, adj, d, vip), Loc(o, Assault, adj[k])) == LoseHp(At(sides, Loc(o, Assault, adj[k])), d)
    ensures forall m :: ValidLoc(sides, m) && m.kind != Commander && !(m.player == o && m.kind == Assault && m.pos in adj) ==>
      At(Swiped(sides, o, adj, d, vip), m) == At(sides, m)
  {
    SwipedHits(sides, o, adj, d, vip);
    SwipedKeeps(sides, o, adj, d, vip);
  }

  /// A swipe leaves every unit it does not aim at alone.
  lemma {:induction false} SwipedKeeps(sides: seq<Side>, o: nat, adj: seq<nat>, d: nat, vip: set<nat>)
    requires WellFormed(sides) && o < 2 && forall k :: 0 <= k < |adj| ==> adj[k] < |sides[o].assaults|
    ensures SameShape(sides, Swiped(sides, o, adj, d, vip))
    ensures forall m :: ValidLoc(sides, m) && m.kind != Commander && !(m.player == o && m.kind == Assault && m.pos in adj) ==>
      At(Swiped(sides, o, adj, d, vip), m) == At(sides, m)
    decreases |adj|
  {
    if adj != [] {
      var l := Loc(o, Assault, adj[0]);
      var s1 := Hit(sides, l, d, vip);
      HitEffects(sides, l, d, vip);
      SameShapeLocs(sides, s1);
      SwipedKeeps(s1, o, adj[1..], d, vip);
      forall m | ValidLoc(sides, m) && m.kind != Commander && !(m.player == o && m.kind == Assault && m.pos in adj)
        ensures At(Swiped(sides, o, adj, d, vip), m) == At(sides, m)
      {
        assert m.pos in adj[1..] ==> m.pos in adj;
      }
    }
  }

  /// Each aimed-at assault loses the swipe damage once.
  lemma {:induction false} SwipedHits(sides: seq<Side>, o: nat, adj: seq<nat>, d: nat, vip: set<nat>)
    requires WellFormed(sides) && o < 2 && forall k :: 0 <= k < |adj| ==> adj[k] < |sides[o].assaults|
    requires forall j, k :: 0 <= j < k < |adj| ==> adj[j] != adj[k]
    ensures forall k :: 0 <= k < |adj| ==>
      At(Swiped(sides, o, adj, d, vip), Loc(o, Assault, adj[k])) == LoseHp(At(sides, Loc(o, Assault, adj[k])), d)
    decreases |adj|
  {
    if adj != [] {
      var l := Loc(o, Assault, adj[0]);
      var s1 := Hit(sides, l, d, vip);
      HitEffects(sides, l, d, vip);
      SameShapeLocs(sides, s1);
      SwipedHits(s1, o, adj[1..], d, vip);
      SwipedKeeps(s1, o, adj[1..], d, vip);
      forall k | 0 <= k < |adj|
        ensures At(Swiped(sides, o, adj, d, vip), Loc(o, Assault, adj[k])) == LoseHp(At(sides, Loc(o, Assault, adj[k])), d)
      {
        if k == 0 {
          assert adj[0] !in adj[1..] by {
            forall j | 0 <= j < |adj| - 1
              ensures adj[1..][j] != adj[0]
            {
              assert adj[1..][j] == adj[j + 1];
            }
          }
          assert At(s1, l) == LoseHp(At(sides, l), d);
        } else {
          assert adj[k] == adj[1..][k - 1] && adj[k] != adj[0];
          assert At(s1, Loc(o, Assault, adj[k])) == At(sides, Loc(o, Assault, adj[k]));
        }
      }
    }
  }

  /// Drain: after a swipe the attacker heals the total damage it dealt,
  /// when it has drain and can be healed.
  function Drained(att: Status, drain: nat, total: nat): (r: Status)
    ensures r == att.(hp := r.hp)
    ensures att.hp <= att.maxHp ==> att.hp <= r.hp <= att.maxHp && r.hp <= att.hp + total
    ensures drain == 0 || !CanBeHealed(att) ==> r == att
    ensures drain > 0 && CanBeHealed(att) && att.hp + total <= att.maxHp ==> r.hp == att.hp + total
  {
    if drain > 0 && CanBeHealed(att) then AddHp(att, total) else att
  }

  /// The total a drain heals: the attack's damage plus the swipe damage
  /// `d` once for each of the `n` neighbours swiped, summed as the swipe
  /// loop sums it.
  function DrainTotal(dmg: nat, n: nat, d: nat): (r: nat)
    ensures r == dmg + n * d
  {
    if n == 0 then dmg else DrainTotal(dmg, n - 1, d) + d
  }

  /// What the assault of player `p` at position `ci` attacks: the assault
  /// across from it while that one is alive, otherwise the first living
  /// wall, otherwise the opposing commander.
  function AttackTarget(sides: seq<Side>, p: nat, ci: nat): (r: Loc)
    requires WellFormed(sides) && p < 2
    ensures ValidLoc(sides, r) && r.player == Opponent(p)
    ensures var o := sides[Opponent(p)];
      && (r.kind == Assault <==> ci < |o.assaults| && IsAlive(o.assaults[ci]))
      && (r.kind == Assault ==> r.pos == ci)
      && (r.kind == Structure ==> r.pos < |o.structures| && HasSkill(o.structures[r.pos], Wall) &&
                                  IsAlive(o.structures[r.pos]))
      && (r.kind != Assault ==> forall i :: 0 <= i < |o.structures| && i != r.pos ==>
            (r.kind == Structure && i > r.pos) || !(HasSkill(o.structures[i], Wall) && IsAlive(o.structures[i])))
  {
    var q := Opponent(p);
    var o := sides[q];
    if ci < |o.assaults| && IsAlive(o.assaults[ci]) then Loc(q, Assault, ci)
    else
      assert forall i :: 0 <= i < |o.structures| ==> Fits(o.structures[i], Loc(q, Structure, i));
      match FirstWall(o.structures)
      case Some(w) => Loc(q, Structure, w)
      case None => Loc(q, Commander, 0)
  }

  /// A skill `evaluate_skills` fires for `st`: an activation skill that is
  /// not cooling down.
  predicate Ready(st: Status, ss: SkillSpec)
    requires ValidStatus(st)
  {
    HandlerOf(ss.id) != NoHandler && st.skillCd[Code(ss.id)] == 0
  }

  /// Flurry grants more actions after this one: the unit can act, the
  /// opposing commander lives, and its flurry is not cooling down.
  predicate FlurryFires(st: Status, opponentAlive: bool)
    requires ValidStatus(st)
  {
    CanAct(st) && opponentAlive && HasSkill(st, Flurry) && st.skillCd[Code(Flurry)] == 0
  }

  /// The skill `ss` has evolved into flurry, by the card's evolution offsets.
  predicate EvolvesToFlurry(evolved: seq<int>, ss: SkillSpec)
    requires |evolved| == NumSkills
  {
    Code(ss.id) + evolved[Code(ss.id)] == Code(Flurry)
  }

  /// After Flurry fires, every skill of the card that evolved into flurry
  /// goes on its cooldown; when a skill is listed twice the later
  /// cooldown counts.
  function FlurryCooled(st: Status, skills: seq<SkillSpec>): (r: Status)
    requires ValidStatus(st)
    ensures ValidStatus(r) && r == st.(skillCd := r.skillCd)
  {
    st.(skillCd := FlurryCooldowns(st.skillCd, st.evolvedOffset, skills, |skills|))
  }

  /// The cooldowns `cd` once the first `n` skills evolved into flurry have
  /// started theirs.
  function FlurryCooldowns(cd: seq<nat>, evolved: seq<int>, skills: seq<SkillSpec>, n: nat): (r: seq<nat>)
    requires |cd| == NumSkills && |evolved| == NumSkills && n <= |skills|
    ensures |r| == NumSkills
  {
    if n == 0 then cd
    else
      var r := FlurryCooldowns(cd, evolved, skills, n - 1);
      var ss := skills[n - 1];
      if EvolvesToFlurry(evolved, ss) then r[Code(ss.id) := ss.c] else r
  }

  /// A cooldown that no skill evolved into flurry names is left alone.
  lemma FlurryCooledKeeps(st: Status, skills: seq<SkillSpec>, k: nat)
    requires ValidStatus(st) && k < NumSkills
    requires forall j :: 0 <= j < |skills| && EvolvesToFlurry(st.evolvedOffset, skills[j]) ==> Code(skills[j].id) != k
    ensures FlurryCooled(st, skills).skillCd[k] == st.skillCd[k]
  {
    FlurryCooldownsKeep(st.skillCd, st.evolvedOffset, skills, |skills|, k);
  }

  lemma {:induction false} FlurryCooldownsKeep(cd: seq<nat>, evolved: seq<int>, skills: seq<SkillSpec>, n: nat, k: nat)
    requires |cd| == NumSkills && |evolved| == NumSkills && n <= |skills| && k < NumSkills
    requires forall j :: 0 <= j < n && EvolvesToFlurry(evolved, skills[j]) ==> Code(skills[j].id) != k
    ensures FlurryCooldowns(cd, evolved, skills, n)[k] == cd[k]
  {
    if n > 0 {
      var prev := FlurryCooldowns(cd, evolved, skills, n - 1);
      FlurryCooldownsKeep(cd, evolved, skills, n - 1, k);
      var c := Code(skills[n - 1].id);
      assert EvolvesToFlurry(evolved, skills[n - 1]) ==> c != k;
      assert FlurryCooldowns(cd, evolved, skills, n)[k] == prev[k];
    }
  }

  /// A skill evolved into flurry starts the cooldown of its own skill,
  /// unless a later skill of the same kind starts it over.
  lemma FlurryCooledSets(st: Status, skills: seq<SkillSpec>, j: nat)
    requires ValidStatus(st) && j < |skills| && EvolvesToFlurry(st.evolvedOffset, skills[j])
    requires forall i :: j < i < |skills| ==> skills[i].id != skills[j].id
    ensures FlurryCooled(st, skills).skillCd[Code(skills[j].id)] == skills[j].c
  {
    FlurryCooldownsSet(st.skillCd, st.evolvedOffset, skills, |skills|, j);
  }

  lemma {:induction false} FlurryCooldownsSet(cd: seq<nat>, evolved: seq<int>, skills: seq<SkillSpec>, n: nat, j: nat)
    requires |cd| == NumSkills && |evolved| == NumSkills && j < n <= |skills|
    requires EvolvesToFlurry(evolved, skills[j])
    requires forall i :: j < i < n ==> skills[i].id != skills[j].id
    ensures FlurryCooldowns(cd, evolved, skills, n)[Code(skills[j].id)] == skills[j].c
  {
    var c := Code(skills[j].id);
    if j < n - 1 {
      var prev := FlurryCooldowns(cd, evolved, skills, n - 1);
      FlurryCooldownsSet(cd, evolved, skills, n - 1, j);
      CodeInjective(skills[j].id, skills[n - 1].id);
      assert Code(skills[n - 1].id) != c;
      assert FlurryCooldowns(cd, evolved, skills, n)[c] == prev[c];
    }
  }

  /// The corrosion an assault suffers once its action is over: having
  /// attacked, it loses attack by its corrosion rate (at most its attack
  /// power); otherwise corrosion wears off.  Either way it has attacked.
  function ActionEnded(st: Status, attacked: bool): (r: Status)
    ensures r.step == Attacked
    ensures r == st.(corrodedRate := r.corrodedRate, corrodedWeakened := r.corrodedWeakened, step := Attacked)
    ensures st.corrodedRate > 0 && !attacked ==> r.corrodedRate == 0 && r.corrodedWeakened == 0
    ensures st.corrodedRate == 0 || attacked ==> r.corrodedRate == st.corrodedRate
  {
    var c := if st.corrodedRate == 0 then st
             else if attacked then st.(corrodedWeakened := st.corrodedWeakened + Min(st.corrodedRate, AttackPower(st)))
             else st.(corrodedRate := 0, corrodedWeakened := 0);
    c.(step := Attacked)
  }

  /// Corrosion after an attack lowers attack power by at most the
  /// corrosion rate, and never raises it; when corrosion wears off attack
  /// power does not drop.
  lemma {:induction false} ActionEndedAttackPower(st: Status, attacked: bool)
    ensures attacked ==> AttackPower(ActionEnded(st, attacked)) <= AttackPower(st)
    ensures attacked ==> AttackPower(st) <= AttackPower(ActionEnded(st, attacked)) + st.corrodedRate
    ensures !attacked ==> AttackPower(ActionEnded(st, attacked)) >= AttackPower(st)
  {
    var r := ActionEnded(st, attacked);
    if st.corrodedRate > 0 && attacked {
      var v := Min(st.corrodedRate, AttackPower(st));
      assert r.corrodedWeakened == st.corrodedWeakened + v;
      CorrosionArith(st.attack, st.weakened + st.corrodedWeakened, st.rallied, st.derallied, v);
    } else if st.corrodedRate > 0 {
      assert r.corrodedWeakened == 0;
    }
  }

  /// The arithmetic behind `ActionEndedAttackPower`: taking `v` more off
  /// the attack, with `v` at most the attack power, lowers the attack power
  /// by at most `v`.
  lemma CorrosionArith(a: nat, w: nat, r: nat, d: nat, v: nat)
    requires v <= SafeMinus(SafeMinus(a, w) + r, d)
    ensures SafeMinus(SafeMinus(a, w + v) + r, d) <= SafeMinus(SafeMinus(a, w) + r, d)
    ensures SafeMinus(SafeMinus(a, w) + r, d) <= SafeMinus(SafeMinus(a, w + v) + r, d) + v
  {
  }
}
