/// Target selection for activation skills: the per-skill target predicates
/// (`skill_predicate<...>`), the faction filter (`select_fast`) and the
/// random draw of `select_targets`.
module Targeting {
  import opened Arith
  import opened Skills
  import opened Cards

  /// Faction value of progenitor cards, which pass every faction filter.
  const Progenitor: nat := 6

  /// `is_defensive_skill`.
  predicate IsDefensiveSkill(s: Skill)
  {
    s in {Armor, Avenge, Barrier, Corrosive, Counter, Evade, Payback, Refresh, Revenge, Wall}
  }

  /// `is_activation_hostile_skill`: the skills the skill table runs through
  /// `perform_targetted_hostile_fast`.
  predicate IsActivationHostileSkill(s: Skill)
  {
    s in {Enfeeble, Jam, Mimic, Mortar, Siege, Strike, Sunder, Weaken}
  }

  /// `is_activation_helpful_skill`: the other activation skills.
  predicate IsActivationHelpfulSkill(s: Skill)
  {
    IsActivationSkill(s) && !IsActivationHostileSkill(s)
  }

  /// A skill of the target that mimic may copy: an activation skill other
  /// than mimic, and mend only when the mimicking card is an assault.
  predicate Mimickable(id: Skill, srcIsAssault: bool)
  {
    IsActivationSkill(id) && id != Mimic && (id != Mend || srcIsAssault)
  }

  /// The positions of the elements of `s` satisfying `f`, in order.
  function Where<T>(s: seq<T>, f: T -> bool): (r: seq<nat>)
    ensures forall i :: 0 <= i < |r| ==> r[i] < |s| && f(s[r[i]])
    ensures forall k :: 0 <= k < |s| && f(s[k]) ==> k in r
  {
    if s == [] then []
    else
      var init := s[..|s| - 1];
      var prev := Where(init, f);
      assert forall i :: 0 <= i < |prev| ==> s[prev[i]] == init[prev[i]];
      assert forall k :: 0 <= k < |init| ==> s[k] == init[k];
      prev + (if f(s[|s| - 1]) then [|s| - 1] else [])
  }

  /// The positions of the skills in `skills` that mimic may copy.
  function MimickableSkills(skills: seq<SkillSpec>, srcIsAssault: bool): (r: seq<nat>)
    ensures forall i :: 0 <= i < |r| ==> r[i] < |skills| && Mimickable(skills[r[i]].id, srcIsAssault)
    ensures forall k :: 0 <= k < |skills| && Mimickable(skills[k].id, srcIsAssault) ==> k in r
  {
    Where(skills, (sk: SkillSpec) => Mimickable(sk.id, srcIsAssault))
  }

  /// The overload condition on the target's skills: some skill that is off
  /// cooldown resolves (after evolve) as a hostile activation skill, or, when
  /// the target's side has an inhibited unit, as a helpful one other than
  /// mend.
  predicate OverloadWorthy(dst: Status, skills: seq<SkillSpec>, inhibitedAlly: bool)
    requires ValidStatus(dst)
  {
    exists i :: 0 <= i < |skills| && dst.skillCd[Code(skills[i].id)] == 0 &&
      var evolved := SkillOfCode(Code(skills[i].id) + dst.evolvedOffset[Code(skills[i].id)]);
      (IsActivationHostileSkill(evolved) ||
       (inhibitedAlly && evolved != Mend && IsActivationHelpfulSkill(evolved)))
  }

  /// `skill_predicate<skill>`: whether `dst` may be targeted by `src`'s skill
  /// `s` (whose id resolves as `sk`).  `tapi` is the active player,
  /// `srcGilian` whether the source is a Gilian card, and `inhibitedAlly`
  /// whether the target's side has a living inhibited assault.
  predicate SkillPredicate(sk: Skill, tapi: nat, src: Status, srcGilian: bool, dst: Status,
                           s: SkillSpec, inhibitedAlly: bool)
    requires ValidStatus(src) && ValidStatus(dst)
  {
    match sk
    case Enhance =>
      IsAlive(dst) && HasSkill(dst, s.s) &&
      (IsActive(dst) || IsDefensiveSkill(s.s) || (IsAlive(src) && srcGilian))
    case Evolve =>
      IsAlive(dst) && HasSkill(dst, s.s) && !HasSkill(dst, s.s2) &&
      (IsActive(dst) || IsDefensiveSkill(s.s2) || (IsAlive(src) && srcGilian))
    case Mend => CanBeHealed(dst)
    case Heal => CanBeHealed(dst)
    case Jam => IsActiveNextTurn(dst)
    case Mimic =>
      IsAlive(dst) && MimickableSkills(dst.card.skills, src.card.cardType == Assault) != []
    case Overload =>
      !dst.overloaded && !HasAttacked(dst) && IsActive(dst) &&
      OverloadWorthy(dst, dst.card.skills, inhibitedAlly)
    case Rally =>
      !dst.sundered &&
      (if tapi == dst.player then IsActive(dst) && !HasAttacked(dst) else IsActiveNextTurn(dst))
    case Enrage => IsActive(dst) && dst.step == NoStep && AttackPower(dst) > 0
    case Rush =>
      !src.rushAttempted &&
      dst.delay >= (if src.card.cardType == Assault && dst.index < src.index then 2 else 1)
    case Weaken => AttackPower(dst) > 0 && IsActiveNextTurn(dst)
    case Sunder => AttackPower(dst) > 0 && IsActiveNextTurn(dst)
    case _ => IsAlive(dst)
  }

  /// The predicate `select_fast` filters with: the faction filter Y (waived
  /// for "all factions", under metamorphosis, and for progenitor cards) and
  /// the skill's target predicate.
  predicate Eligible(sk: Skill, tapi: nat, src: Status, srcGilian: bool, dst: Status,
                     s: SkillSpec, inhibitedAlly: bool, metamorphosis: bool)
    requires ValidStatus(src) && ValidStatus(dst)
  {
    (s.y == AllFactions || metamorphosis || dst.faction == s.y || dst.faction == Progenitor) &&
    SkillPredicate(sk, tapi, src, srcGilian, dst, s, inhibitedAlly)
  }

  predicate AllValid(cards: seq<Status>)
  {
    forall i :: 0 <= i < |cards| ==> ValidStatus(cards[i])
  }

  /// Which cards of the storage are eligible, position by position.
  function Mask(sk: Skill, tapi: nat, src: Status, srcGilian: bool, cards: seq<Status>,
                s: SkillSpec, inhibitedAlly: bool, metamorphosis: bool): (r: seq<bool>)
    requires ValidStatus(src) && AllValid(cards)
    ensures |r| == |cards|
    ensures forall p :: 0 <= p < |cards| ==>
      r[p] == Eligible(sk, tapi, src, srcGilian, cards[p], s, inhibitedAlly, metamorphosis)
  {
    seq(|cards|, p requires 0 <= p < |cards| =>
      Eligible(sk, tapi, src, srcGilian, cards[p], s, inhibitedAlly, metamorphosis))
  }

  /// The positions below `hi` that `mask` selects, in storage order.
  function Selection(mask: seq<bool>, hi: nat): seq<nat>
    requires hi <= |mask|
  {
    if hi == 0 then [] else Selection(mask, hi - 1) + (if mask[hi - 1] then [hi - 1] else [])
  }

  /// A position is selected exactly when the mask holds there, and the
  /// selection is in ascending order without repeats.
  lemma {:induction false} SelectionSpec(mask: seq<bool>, hi: nat)
    requires hi <= |mask|
    ensures forall p :: 0 <= p < hi ==> (p in Selection(mask, hi) <==> mask[p])
    ensures forall i :: 0 <= i < |Selection(mask, hi)| ==> Selection(mask, hi)[i] < hi
    ensures Ascending(Selection(mask, hi))
  {
    if hi > 0 {
      SelectionSpec(mask, hi - 1);
      var prev := Selection(mask, hi - 1);
      var r := Selection(mask, hi);
      assert forall i :: 0 <= i < |prev| ==> r[i] == prev[i];
    }
  }

  /// `make_selection_array` as `select_fast` calls it: one pass over the
  /// storage keeping the eligible cards, so a position is selected exactly
  /// when its card is eligible, in storage order.
  method SelectFast(sk: Skill, tapi: nat, src: Status, srcGilian: bool, cards: seq<Status>,
                    s: SkillSpec, inhibitedAlly: bool, metamorphosis: bool) returns (sel: seq<nat>)
    requires ValidStatus(src) && AllValid(cards)
    ensures sel == Selection(Mask(sk, tapi, src, srcGilian, cards, s, inhibitedAlly, metamorphosis), |cards|)
    ensures forall p :: 0 <= p < |cards| ==>
      (p in sel <==> Eligible(sk, tapi, src, srcGilian, cards[p], s, inhibitedAlly, metamorphosis))
    ensures forall i :: 0 <= i < |sel| ==> sel[i] < |cards|
    ensures Ascending(sel)
  {
    var mask := Mask(sk, tapi, src, srcGilian, cards, s, inhibitedAlly, metamorphosis);
    sel := [];
    var i := 0;
    while i < |cards|
      invariant 0 <= i <= |cards|
      invariant sel == Selection(mask, i)
    {
      if Eligible(sk, tapi, src, srcGilian, cards[i], s, inhibitedAlly, metamorphosis) {
        sel := sel + [i];
      }
      i := i + 1;
    }
    SelectionSpec(mask, |cards|);
  }

  predicate Ascending(s: seq<nat>)
  {
    forall i, j :: 0 <= i < j < |s| ==> s[i] < s[j]
  }

  predicate NonDecreasing(s: seq<nat>)
  {
    forall i, j :: 0 <= i < j < |s| ==> s[i] <= s[j]
  }

  /// Inserts `x` into a non-decreasing sequence.
  function Insert(s: seq<nat>, x: nat): (r: seq<nat>)
    requires NonDecreasing(s)
    ensures NonDecreasing(r) && multiset(r) == multiset(s) + multiset{x}
    ensures r[0] == (if s == [] || x <= s[0] then x else s[0])
  {
    if s == [] then [x]
    else if x <= s[0] then [x] + s
    else
      var t := Insert(s[1..], x);
      assert s == [s[0]] + s[1..];
      ConsNonDecreasing(s[0], t);
      [s[0]] + t
  }

  /// A head no larger than the first element of a non-decreasing sequence
  /// keeps it non-decreasing.
  lemma ConsNonDecreasing(h: nat, t: seq<nat>)
    requires NonDecreasing(t) && (t != [] ==> h <= t[0])
    ensures NonDecreasing([h] + t)
  {
    var r := [h] + t;
    forall i, j | 0 <= i < j < |r|
      ensures r[i] <= r[j]
    {
      assert r[j] == t[j - 1];
      if i > 0 {
        assert r[i] == t[i - 1];
      } else if j > 1 {
        assert t[0] <= t[j - 1];
      }
    }
  }

  /// The `std::sort` by `m_index` of `select_targets`: a non-decreasing
  /// permutation.
  function Sort(s: seq<nat>): (r: seq<nat>)
    ensures NonDecreasing(r) && multiset(r) == multiset(s)
  {
    if s == [] then []
    else
      assert s == s[..|s| - 1] + [s[|s| - 1]];
      Insert(Sort(s[..|s| - 1]), s[|s| - 1])
  }

  /// A sequence without repeats.
  predicate Distinct(s: seq<nat>)
  {
    forall i, j :: 0 <= i < j < |s| ==> s[i] != s[j]
  }

  /// A draw from the supplied random stream in `lo .. hi` (the program's
  /// `fd->rand(lo, hi)`); an exhausted stream yields `lo`.
  function Rand(rng: seq<nat>, lo: nat, hi: nat): (r: (nat, seq<nat>))
    requires lo <= hi
    ensures lo <= r.0 <= hi
    ensures rng != [] ==> r.1 == rng[1..]
  {
    if rng == [] then (lo, rng) else (lo + rng[0] % (hi - lo + 1), rng[1..])
  }

  /// Exchanging two entries keeps the multiset.
  lemma SwapKeepsMultiset(a: seq<nat>, i: nat, j: nat)
    requires i < |a| && j < |a|
    ensures multiset(a[i := a[j]][j := a[i]]) == multiset(a)
  {
    if i != j {
      var b := a[i := a[j]];
      assert multiset(b) == multiset(a) - multiset{a[i]} + multiset{a[j]};
      assert b[j] == a[j];
      assert multiset(b[j := a[i]]) == multiset(b) - multiset{a[j]} + multiset{a[i]};
    }
  }

  /// A sub-multiset of a sequence without repeats has no repeats.
  lemma SubmultisetDistinct(a: seq<nat>, b: seq<nat>)
    requires Distinct(b) && multiset(a) <= multiset(b)
    ensures Distinct(a)
  {
    forall i, j | 0 <= i < j < |a|
      ensures a[i] != a[j]
    {
      if a[i] == a[j] {
        assert multiset(a)[a[i]] >= 2 by {
          var rest := a[..i] + a[i + 1..];
          assert a == a[..i] + [a[i]] + a[i + 1..];
          assert a[j] in rest by {
            assert rest[j - 1] == a[j];
          }
          assert multiset(a) == multiset(rest) + multiset{a[i]};
        }
        assert multiset(b)[a[i]] >= 2;
        DistinctCountsOnce(b, a[i]);
      }
    }
  }

  /// In a sequence without repeats every value occurs at most once.
  lemma {:induction false} DistinctCountsOnce(b: seq<nat>, x: nat)
    requires Distinct(b)
    ensures multiset(b)[x] <= 1
  {
    if b != [] {
      var t := b[1..];
      assert b == [b[0]] + t;
      DistinctCountsOnce(t, x);
      if x == b[0] {
        assert x !in t;
      }
    }
  }

  /// `select_targets` after `select_fast`: keeps every candidate for "all",
  /// for mend, or when the target count `max(n, 1)` covers the candidates;
  /// otherwise draws that many with a partial Fisher-Yates shuffle over the
  /// supplied random stream, trims to them, and sorts them by position when
  /// there is more than one.
  method SelectTargets(cands: seq<nat>, sk: Skill, s: SkillSpec, rng: seq<nat>)
    returns (sel: seq<nat>, rest: seq<nat>)
    ensures |sel| <= |cands|
    ensures multiset(sel) <= multiset(cands)
    ensures Distinct(cands) ==> Distinct(sel)
    ensures s.all || sk == Mend || Max(s.n, 1) >= |cands| ==> sel == cands && rest == rng
    ensures !(s.all || sk == Mend || Max(s.n, 1) >= |cands|) ==>
      |sel| == Max(s.n, 1) && NonDecreasing(sel)
  {
    var nTargets := if s.n > 0 then s.n else 1;
    if |cands| == 0 || s.all || nTargets >= |cands| || sk == Mend {
      return cands, rng;
    }
    var a := cands;
    rest := rng;
    var i := 0;
    while i < nTargets
      invariant 0 <= i <= nTargets
      invariant |a| == |cands| && multiset(a) == multiset(cands)
    {
      var draw := Rand(rest, i, |cands| - 1);
      var j := draw.0;
      rest := draw.1;
      SwapKeepsMultiset(a, i, j);
      a := a[i := a[j]][j := a[i]];
      i := i + 1;
    }
    sel := a[..nTargets];
    assert a == sel + a[nTargets..];
    assert multiset(sel) <= multiset(a);
    if nTargets > 1 {
      sel := Sort(sel);
    }
    if Distinct(cands) {
      SubmultisetDistinct(sel, cands);
    }
  }
}
