/// Playing a card (`PlayCard`) and the effects that react to it in the
/// play phase: Allegiance and the stasis protection of a delayed assault.
module Deploy {
  import opened Arith
  import opened Skills
  import opened Cards
  import opened Board
  import opened Handlers
  import opened Dispatch

  /// `PlayCard::placeCard`: the card's fresh status at the end of its
  /// storage, at position `pos`, owned by player `p`; a card without delay
  /// checks Valor against the enemy assault across from it.
  function Placed(card: Card, p: nat, pos: nat, blockers: seq<Status>): (r: Status)
    requires |card.skillValue| == NumSkills
    ensures ValidStatus(r) && r.card == card && r.player == p && r.index == pos
    ensures r.hp == r.maxHp == card.health && r.delay == card.delay && r.step == NoStep
    ensures r.attack == card.attack ||
      (card.delay == 0 && r.attack == card.attack + SkillValue(r, Skills.Valor))
  {
    var st := NewStatus(card).(index := pos, player := p);
    if st.delay == 0 then Handlers.Valor(st, blockers) else st
  }

  /// The board with `st` added at the end of player `p`'s storage of
  /// `kind` (`Storage::add_back`).
  function Added(sides: seq<Side>, p: nat, kind: CardType, st: Status): (r: seq<Side>)
    requires WellFormed(sides) && p < 2 && kind != Commander
    requires Fits(st, Loc(p, kind, |StorageOf(sides[p], kind)|))
    ensures WellFormed(r)
    ensures ValidLoc(r, Loc(p, kind, |StorageOf(sides[p], kind)|))
    ensures At(r, Loc(p, kind, |StorageOf(sides[p], kind)|)) == st
    ensures forall m :: ValidLoc(sides, m) ==> ValidLoc(r, m) && At(r, m) == At(sides, m)
    ensures forall q :: 0 <= q < 2 ==>
      r[q].commander == sides[q].commander && r[q].totalCardsDestroyed == sides[q].totalCardsDestroyed
    ensures forall q :: 0 <= q < 2 && q != p ==> r[q] == sides[q]
    ensures kind == Assault ==> r[p].structures == sides[p].structures && r[p].assaults == sides[p].assaults + [st]
    ensures kind == Structure ==> r[p].assaults == sides[p].assaults && r[p].structures == sides[p].structures + [st]
  {
    var side := sides[p];
    if kind == Assault then sides[p := side.(assaults := side.assaults + [st])]
    else sides[p := side.(structures := side.structures + [st])]
  }

  /// Allegiance: when a card of its faction is played, a living assault
  /// with allegiance gains its allegiance value in health and maximum
  /// health, and in attack unless it is sundered.
  function Allegiant(st: Status, faction: nat): (r: Status)
    requires ValidStatus(st)
    ensures ValidStatus(r) && r == st.(attack := r.attack, hp := r.hp, maxHp := r.maxHp)
    ensures r.maxHp - r.hp == st.maxHp - st.hp && r.hp >= st.hp && r.attack >= st.attack
    ensures r != st <==> SkillValue(st, Allegiance) > 0 && IsAlive(st) && st.card.faction == faction
    ensures st.sundered ==> r.attack == st.attack
    ensures r.hp - st.hp == SkillValue(st, Allegiance) || r == st
  {
    var v := SkillValue(st, Allegiance);
    if v > 0 && IsAlive(st) && st.card.faction == faction then
      st.(attack := if st.sundered then st.attack else st.attack + v, maxHp := st.maxHp + v, hp := st.hp + v)
    else st
  }

  /// Allegiance over a whole storage of assaults.
  function AllegiantAll(a: seq<Status>, faction: nat): (r: seq<Status>)
    requires forall i :: 0 <= i < |a| ==> ValidStatus(a[i])
    ensures |r| == |a| && forall i :: 0 <= i < |a| ==> r[i] == Allegiant(a[i], faction)
  {
    seq(|a|, i requires 0 <= i < |a| => Allegiant(a[i], faction))
  }

  /// What one unit of the played assault's faction adds to its stasis: its
  /// own stasis, and under Temporal Backlash half its counter, rounded up.
  function StasisShare(st: Status, backlash: bool): (r: nat)
    requires ValidStatus(st)
    ensures r >= SkillValue(st, Stasis)
    ensures !backlash ==> r == SkillValue(st, Stasis)
  {
    SkillValue(st, Stasis) + (if backlash && SkillValue(st, Counter) > 0 then (SkillValue(st, Counter) + 1) / 2 else 0)
  }

  /// What each unit of `units` adds to the stasis of the given faction:
  /// its share when it is of that faction, nothing otherwise.
  function Shares(units: seq<Status>, faction: nat, backlash: bool): (r: seq<nat>)
    requires forall i :: 0 <= i < |units| ==> ValidStatus(units[i])
    ensures |r| == |units|
    ensures forall i :: 0 <= i < |units| ==>
      r[i] == if units[i].faction == faction then StasisShare(units[i], backlash) else 0
  {
    seq(|units|, i requires 0 <= i < |units| =>
      if units[i].faction == faction then StasisShare(units[i], backlash) else 0)
  }

  /// The sum of a sequence of counts, added in order.
  function Sum(s: seq<nat>): nat
  {
    if s == [] then 0 else Sum(s[..|s| - 1]) + s[|s| - 1]
  }

  /// A sum is at least each of its terms.
  lemma {:induction false} SumBound(s: seq<nat>, i: nat)
    requires i < |s|
    ensures Sum(s) >= s[i]
  {
    var n := |s| - 1;
    if i < n {
      assert s[..n][i] == s[i];
      SumBound(s[..n], i);
    }
  }

  /// A sum of zeros is zero.
  lemma {:induction false} SumZero(s: seq<nat>)
    requires forall i :: 0 <= i < |s| ==> s[i] == 0
    ensures Sum(s) == 0
  {
    if s != [] {
      var n := |s| - 1;
      assert forall i :: 0 <= i < n ==> s[..n][i] == s[i];
      SumZero(s[..n]);
    }
  }

  /// The stasis the units of `units` of the given faction stack, in
  /// storage order.
  function StasisFrom(units: seq<Status>, faction: nat, backlash: bool): (r: nat)
    requires forall i :: 0 <= i < |units| ==> ValidStatus(units[i])
    ensures (forall i :: 0 <= i < |units| ==> units[i].faction != faction) ==> r == 0
  {
    var sh := Shares(units, faction, backlash);
    SumZeroWhenNone(units, faction, backlash);
    Sum(sh)
  }

  /// Without a unit of the faction the shares are all zero.
  lemma SumZeroWhenNone(units: seq<Status>, faction: nat, backlash: bool)
    requires forall i :: 0 <= i < |units| ==> ValidStatus(units[i])
    ensures (forall i :: 0 <= i < |units| ==> units[i].faction != faction) ==>
      Sum(Shares(units, faction, backlash)) == 0
  {
    if forall i :: 0 <= i < |units| ==> units[i].faction != faction {
      SumZero(Shares(units, faction, backlash));
    }
  }

  /// Every unit of the faction contributes its whole share to the stack.
  lemma StasisFromBound(units: seq<Status>, faction: nat, backlash: bool, i: nat)
    requires forall k :: 0 <= k < |units| ==> ValidStatus(units[k])
    requires i < |units| && units[i].faction == faction
    ensures StasisFrom(units, faction, backlash) >= StasisShare(units[i], backlash)
  {
    SumBound(Shares(units, faction, backlash), i);
  }

  /// Stasis marks the played card's faction when the card has stasis, or
  /// counter under Temporal Backlash.
  predicate MarksStasis(st: Status, backlash: bool)
    requires ValidStatus(st)
  {
    SkillValue(st, Stasis) > 0 || (backlash && SkillValue(st, Counter) > 0)
  }

  /// The stasis protection a delayed assault of `faction` gets when it is
  /// played: its commander's stasis if the commander shares the faction,
  /// plus what the structures and the assaults of that faction stack.
  function StackedStasis(side: Side, faction: nat, backlash: bool): (r: nat)
    requires ValidStatus(side.commander)
    requires forall i :: 0 <= i < |side.structures| ==> ValidStatus(side.structures[i])
    requires forall i :: 0 <= i < |side.assaults| ==> ValidStatus(side.assaults[i])
    ensures r >= StasisFrom(side.assaults, faction, backlash) + StasisFrom(side.structures, faction, false)
    ensures side.commander.faction == faction ==>
      r >= SkillValue(side.commander, Stasis) + StasisFrom(side.structures, faction, false) +
        StasisFrom(side.assaults, faction, backlash)
    ensures side.commander.faction != faction ==>
      r == StasisFrom(side.structures, faction, false) + StasisFrom(side.assaults, faction, backlash)
  {
    (if side.commander.faction == faction then SkillValue(side.commander, Stasis) else 0)
      + StasisFrom(side.structures, faction, false) + StasisFrom(side.assaults, faction, backlash)
  }

  /// Without a unit of the faction that has stasis, and without Temporal
  /// Backlash, nothing is stacked.
  lemma NoStasisWithoutSource(units: seq<Status>, faction: nat)
    requires forall i :: 0 <= i < |units| ==> ValidStatus(units[i])
    requires forall i :: 0 <= i < |units| && units[i].faction == faction ==> SkillValue(units[i], Stasis) == 0
    ensures StasisFrom(units, faction, false) == 0
  {
    SumZero(Shares(units, faction, false));
  }

  /// The stack is the sum of the shares: appending a unit adds its share
  /// when it is of the faction, and nothing otherwise.
  lemma StasisFromAppend(units: seq<Status>, u: Status, faction: nat, backlash: bool)
    requires forall i :: 0 <= i < |units| ==> ValidStatus(units[i])
    requires ValidStatus(u)
    ensures StasisFrom(units + [u], faction, backlash) ==
      StasisFrom(units, faction, backlash) + (if u.faction == faction then StasisShare(u, backlash) else 0)
  {
    var all := Shares(units + [u], faction, backlash);
    assert all[..|units|] == Shares(units, faction, backlash);
  }

  /// The assault just played counts towards its own stack, so a card that
  /// marks its faction never has it unmarked at once: what it stacks is
  /// positive.
  lemma PlayedKeepsMark(side: Side, i: nat, backlash: bool)
    requires ValidStatus(side.commander)
    requires forall k :: 0 <= k < |side.structures| ==> ValidStatus(side.structures[k])
    requires forall k :: 0 <= k < |side.assaults| ==> ValidStatus(side.assaults[k])
    requires i < |side.assaults| && MarksStasis(side.assaults[i], backlash)
    ensures StackedStasis(side, side.assaults[i].faction, backlash) >= StasisShare(side.assaults[i], backlash) > 0
  {
    StasisFromBound(side.assaults, side.assaults[i].faction, backlash, i);
  }
}
