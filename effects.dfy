/// The board-level effects of damage, death and barrier as functions of
/// the board, and the skill queue's entries.
module Effects {
  import opened Arith
  import opened Skills
  import opened Cards
  import opened Board
  import opened Wrappers
  import opened Handlers
  import opened Targeting

  /// A queued skill: the address of its caster and the skill.
  type Entry = (Loc, SkillSpec)

  /// An allied heal or rally cast by a commander, as Revenge queues them.
  /// Resolving one never adds to the queue.
  predicate IsSupport(e: Entry)
  {
    e.0.kind == Commander && (e.1.id == Heal || e.1.id == Rally)
  }

  /// The number of queued entries that are not support entries.
  function PendingCount(q: seq<Entry>): nat
  {
    if q == [] then 0 else (if IsSupport(q[0]) then 0 else 1) + PendingCount(q[1..])
  }

  /// `after` is `before` with support entries put in front.
  predicate SupportPrefix(before: seq<Entry>, after: seq<Entry>)
  {
    |before| <= |after| && after[|after| - |before|..] == before &&
    forall i :: 0 <= i < |after| - |before| ==> IsSupport(after[i])
  }

  /// Support entries put in front leave the pending count alone.
  lemma {:induction false} SupportPrefixKeepsPending(before: seq<Entry>, after: seq<Entry>)
    requires SupportPrefix(before, after)
    ensures PendingCount(after) == PendingCount(before)
    decreases |after|
  {
    if |after| > |before| {
      assert after[1..][|after| - 1 - |before|..] == before;
      SupportPrefixKeepsPending(before, after[1..]);
    } else {
      assert after == before;
    }
  }

  /// Putting support entries in front twice is putting them in front once.
  lemma SupportPrefixTrans(a: seq<Entry>, b: seq<Entry>, c: seq<Entry>)
    requires SupportPrefix(a, b) && SupportPrefix(b, c)
    ensures SupportPrefix(a, c)
  {
    assert c[|c| - |a|..] == c[|c| - |b|..][|b| - |a|..];
    forall i | 0 <= i < |c| - |a|
      ensures IsSupport(c[i])
    {
      if i >= |c| - |b| {
        assert c[i] == b[i - (|c| - |b|)];
      }
    }
  }

  /// Putting no entries in front.
  lemma SupportPrefixRefl(q: seq<Entry>)
    ensures SupportPrefix(q, q)
  {
    assert q[|q| - |q|..] == q;
  }

  /// The heal and rally of the Revenge battleground effect that
  /// `prepend_on_death` queues for each killed unit's commander.
  function RevengeSkill(id: Skill, bg: map<Bge, nat>): SkillSpec
    requires Bge.Revenge in bg
  {
    SkillSpec(id, bg[Bge.Revenge], AllFactions, 0, 0, NoSkill, NoSkill, true)
  }

  /// The entries Revenge queues: for each killed unit in turn, a heal and
  /// then a rally cast by that unit's commander; none without Revenge.
  function RevengeEntries(killed: seq<Loc>, bg: map<Bge, nat>): (r: seq<Entry>)
    ensures |r| == if Bge.Revenge in bg then 2 * |killed| else 0
    ensures forall i :: 0 <= i < |r| ==>
      IsSupport(r[i]) && r[i].0 == Loc(killed[i / 2].player, Commander, 0) &&
      r[i].1 == RevengeSkill(if i % 2 == 0 then Heal else Rally, bg)
  {
    if killed == [] || Bge.Revenge !in bg then []
    else
      var c := Loc(killed[0].player, Commander, 0);
      var rest := RevengeEntries(killed[1..], bg);
      RevengeEntriesCons(killed, bg, rest);
      [(c, RevengeSkill(Heal, bg)), (c, RevengeSkill(Rally, bg))] + rest
  }

  /// The step of `RevengeEntries`: the first killed unit's heal and rally
  /// in front of the entries of the others.
  lemma RevengeEntriesCons(killed: seq<Loc>, bg: map<Bge, nat>, rest: seq<Entry>)
    requires killed != [] && Bge.Revenge in bg && |rest| == 2 * (|killed| - 1)
    requires forall i :: 0 <= i < |rest| ==>
      IsSupport(rest[i]) && rest[i].0 == Loc(killed[1..][i / 2].player, Commander, 0) &&
      rest[i].1 == RevengeSkill(if i % 2 == 0 then Heal else Rally, bg)
    ensures var c := Loc(killed[0].player, Commander, 0);
      var r := [(c, RevengeSkill(Heal, bg)), (c, RevengeSkill(Rally, bg))] + rest;
      forall i :: 0 <= i < |r| ==>
        IsSupport(r[i]) && r[i].0 == Loc(killed[i / 2].player, Commander, 0) &&
        r[i].1 == RevengeSkill(if i % 2 == 0 then Heal else Rally, bg)
  {
    var c := Loc(killed[0].player, Commander, 0);
    var r := [(c, RevengeSkill(Heal, bg)), (c, RevengeSkill(Rally, bg))] + rest;
    forall i | 0 <= i < |r|
      ensures IsSupport(r[i]) && r[i].0 == Loc(killed[i / 2].player, Commander, 0)
      ensures r[i].1 == RevengeSkill(if i % 2 == 0 then Heal else Rally, bg)
    {
      if i >= 2 {
        var j := i - 2;
        assert r[i] == rest[j];
        assert i / 2 == j / 2 + 1 && i % 2 == j % 2;
        assert killed[1..][j / 2] == killed[i / 2];
      }
    }
  }

  /// What `prepend_on_death` queues goes in front as support entries.
  lemma RevengeEntriesPrefix(killed: seq<Loc>, bg: map<Bge, nat>, q: seq<Entry>)
    ensures SupportPrefix(q, RevengeEntries(killed, bg) + q)
  {
    var r := RevengeEntries(killed, bg);
    assert (r + q)[|r + q| - |q|..] == q;
    assert forall i :: 0 <= i < |r| ==> (r + q)[i] == r[i];
  }

  /// How often a unit has been damaged during the current action.
  function TimesOf(m: map<Loc, nat>, l: Loc): nat
  {
    if l in m then m[l] else 0
  }

  /// `++ total_cards_destroyed` of player `p`.
  function CountDestroyed(sides: seq<Side>, p: nat): (r: seq<Side>)
    requires p < |sides|
    ensures SameShape(sides, r)
    ensures forall m :: ValidLoc(sides, m) ==> At(r, m) == At(sides, m)
    ensures forall q :: 0 <= q < |sides| ==>
      r[q].totalCardsDestroyed == sides[q].totalCardsDestroyed + (if q == p then 1 else 0)
  {
    sides[p := sides[p].(totalCardsDestroyed := sides[p].totalCardsDestroyed + 1)]
  }

  /// Whether `remove_hp(l, dmg)` kills the unit.
  predicate Dies(sides: seq<Side>, l: Loc, dmg: nat)
    requires ValidLoc(sides, l)
  {
    dmg > 0 && At(sides, l).hp <= dmg
  }

  /// Whether `remove_hp(l, dmg)` kills one of player 0's VIP cards.
  predicate LosesVip(sides: seq<Side>, l: Loc, dmg: nat, vip: set<nat>)
    requires ValidLoc(sides, l)
  {
    Dies(sides, l, dmg) && l.player == 0 && At(sides, l).card.id in vip
  }

  /// The board after a unit of player `p` dies: the destroyed count of `p`
  /// rises, and when the unit was a VIP card player 0's commander dies.
  function Bury(sides: seq<Side>, p: nat, vip: bool): (r: seq<Side>)
    requires |sides| == 2 && p < 2
    ensures SameShape(sides, r)
  {
    var s2 := CountDestroyed(sides, p);
    if vip then Put(s2, Loc(0, Commander, 0), s2[0].commander.(hp := 0)) else s2
  }

  /// The board after `remove_hp(l, dmg)`.
  function Hit(sides: seq<Side>, l: Loc, dmg: nat, vip: set<nat>): (r: seq<Side>)
    requires |sides| == 2 && ValidLoc(sides, l)
    ensures SameShape(sides, r)
  {
    if dmg == 0 then sides
    else
      var s1 := Put(sides, l, LoseHp(At(sides, l), dmg));
      if Dies(sides, l, dmg) then Bury(s1, l.player, LosesVip(sides, l, dmg, vip)) else s1
  }

  /// Burying a unit of player `p` keeps the board well formed, raises only
  /// `p`'s destroyed count, and touches no unit but player 0's commander,
  /// which dies exactly when a VIP card was lost.
  lemma BuryEffects(sides: seq<Side>, p: nat, vip: bool)
    requires WellFormed(sides) && p < 2
    ensures WellFormed(Bury(sides, p, vip)) && SameShape(sides, Bury(sides, p, vip))
    ensures forall m :: ValidLoc(sides, m) && m != Loc(0, Commander, 0) ==>
      At(Bury(sides, p, vip), m) == At(sides, m)
    ensures Bury(sides, p, vip)[0].commander ==
      if vip then sides[0].commander.(hp := 0) else sides[0].commander
    ensures forall q :: 0 <= q < 2 ==>
      Bury(sides, p, vip)[q].totalCardsDestroyed == sides[q].totalCardsDestroyed + (if q == p then 1 else 0)
  {
    var s2 := CountDestroyed(sides, p);
    SameShapeLocs(sides, s2);
    assert s2[0].commander == At(s2, Loc(0, Commander, 0));
    if vip {
      var c := Loc(0, Commander, 0);
      PutKeepsWellFormed(s2, c, s2[0].commander.(hp := 0));
      SameShapeLocs(s2, Put(s2, c, s2[0].commander.(hp := 0)));
      assert Put(s2, c, s2[0].commander.(hp := 0))[0].commander == At(Put(s2, c, s2[0].commander.(hp := 0)), c);
    }
  }

  /// What `remove_hp` does to the board: the unit loses `dmg` health
  /// (saturating), its owner's destroyed count rises when it dies, player
  /// 0's commander dies exactly when a VIP card of player 0 dies, and every
  /// other unit is untouched.
  lemma HitEffects(sides: seq<Side>, l: Loc, dmg: nat, vip: set<nat>)
    requires WellFormed(sides) && ValidLoc(sides, l) && l.kind != Commander
    ensures WellFormed(Hit(sides, l, dmg, vip)) && SameShape(sides, Hit(sides, l, dmg, vip))
    ensures dmg == 0 ==> Hit(sides, l, dmg, vip) == sides
    ensures At(Hit(sides, l, dmg, vip), l) == LoseHp(At(sides, l), dmg)
    ensures forall m :: ValidLoc(sides, m) && m != l && m != Loc(0, Commander, 0) ==>
      At(Hit(sides, l, dmg, vip), m) == At(sides, m)
    ensures Hit(sides, l, dmg, vip)[0].commander ==
      if LosesVip(sides, l, dmg, vip) then sides[0].commander.(hp := 0) else sides[0].commander
    ensures forall p :: 0 <= p < 2 ==>
      Hit(sides, l, dmg, vip)[p].totalCardsDestroyed ==
        sides[p].totalCardsDestroyed + (if Dies(sides, l, dmg) && p == l.player then 1 else 0)
  {
    if dmg > 0 {
      var s1 := Put(sides, l, LoseHp(At(sides, l), dmg));
      PutKeepsWellFormed(sides, l, LoseHp(At(sides, l), dmg));
      SameShapeLocs(sides, s1);
      assert s1[0].commander == At(s1, Loc(0, Commander, 0)) == At(sides, Loc(0, Commander, 0));
      if Dies(sides, l, dmg) {
        BuryEffects(s1, l.player, LosesVip(sides, l, dmg, vip));
      }
    } else {
      assert LoseHp(At(sides, l), dmg) == At(sides, l);
    }
  }

  /// The protection `finalize_action` grants a unit with status `st` hit
  /// `n` times: its barrier value per hit, if it is still alive.
  function Gain(st: Status, n: nat): (r: nat)
    requires ValidStatus(st)
    ensures r > 0 <==> IsAlive(st) && n > 0 && SkillValue(st, Barrier) > 0
  {
    if n > 0 && IsAlive(st) then SkillValue(st, Barrier) * n else 0
  }

  /// The protection `finalize_action` grants the unit at `l`.
  function BarrierGain(sides: seq<Side>, times: map<Loc, nat>, l: Loc): (r: nat)
    requires WellFormed(sides) && ValidLoc(sides, l)
  {
    Gain(At(sides, l), TimesOf(times, l))
  }

  /// A storage after `finalize_action`.
  function FinalizedStorage(s: seq<Status>, p: nat, kind: CardType, times: map<Loc, nat>): (r: seq<Status>)
    requires StorageFits(s, p, kind)
    ensures |r| == |s|
  {
    seq(|s|, i requires 0 <= i < |s| && StorageFits(s, p, kind) =>
      Handlers.Protect(s[i], Gain(s[i], TimesOf(times, Loc(p, kind, i)))))
  }

  /// Player `p`'s side after `finalize_action`.
  function FinalizedSide(s: Side, p: nat, times: map<Loc, nat>): (r: Side)
    requires ValidStatus(s.commander) && StorageFits(s.assaults, p, Assault) && StorageFits(s.structures, p, Structure)
  {
    Side(Handlers.Protect(s.commander, Gain(s.commander, TimesOf(times, Loc(p, Commander, 0)))),
         FinalizedStorage(s.assaults, p, Assault, times),
         FinalizedStorage(s.structures, p, Structure, times),
         s.totalCardsDestroyed)
  }

  /// The board after `finalize_action`: every unit gains the protection
  /// its hits earned.
  function Finalized(sides: seq<Side>, times: map<Loc, nat>): (r: seq<Side>)
    requires WellFormed(sides)
  {
    [FinalizedSide(sides[0], 0, times), FinalizedSide(sides[1], 1, times)]
  }

  /// Each unit on the finalized board has its protection added, and
  /// nothing else changes.
  lemma FinalizedAt(sides: seq<Side>, times: map<Loc, nat>)
    requires WellFormed(sides)
    ensures SameShape(sides, Finalized(sides, times))
    ensures forall m :: ValidLoc(sides, m) ==>
      At(Finalized(sides, times), m) == Handlers.Protect(At(sides, m), BarrierGain(sides, times, m))
    ensures forall p :: 0 <= p < 2 ==>
      Finalized(sides, times)[p].totalCardsDestroyed == sides[p].totalCardsDestroyed
  {
    var r := Finalized(sides, times);
    forall m | ValidLoc(sides, m)
      ensures At(r, m) == Handlers.Protect(At(sides, m), BarrierGain(sides, times, m))
    {
      var p := m.player;
      assert r[p] == FinalizedSide(sides[p], p, times);
      match m.kind
      case Commander =>
      case Assault => FinalizedStorageAt(sides[p].assaults, p, Assault, times, m.pos);
      case Structure => FinalizedStorageAt(sides[p].structures, p, Structure, times, m.pos);
    }
  }

  /// The unit at place `i` of a finalized storage.
  lemma FinalizedStorageAt(s: seq<Status>, p: nat, kind: CardType, times: map<Loc, nat>, i: nat)
    requires StorageFits(s, p, kind) && i < |s|
    ensures ValidStatus(s[i])
    ensures FinalizedStorage(s, p, kind, times)[i] == Handlers.Protect(s[i], Gain(s[i], TimesOf(times, Loc(p, kind, i))))
  {
  }

  /// Protection keeps every unit fitting its address.
  lemma FinalizedWellFormed(sides: seq<Side>, times: map<Loc, nat>)
    requires WellFormed(sides)
    ensures WellFormed(Finalized(sides, times))
  {
    var r := Finalized(sides, times);
    FinalizedAt(sides, times);
    SameShapeLocs(sides, r);
    forall l | ValidLoc(r, l)
      ensures Fits(At(r, l), l)
    {
      WellFormedAt(sides, l);
    }
  }

  /// Two boards of the same shape and destroyed counts with the same
  /// status at every address are equal.
  lemma BoardsEqual(a: seq<Side>, b: seq<Side>)
    requires SameShape(a, b) && forall p :: 0 <= p < |a| ==> a[p].totalCardsDestroyed == b[p].totalCardsDestroyed
    requires forall m :: ValidLoc(a, m) ==> At(a, m) == At(b, m)
    ensures a == b
  {
    forall p | 0 <= p < |a|
      ensures a[p] == b[p]
    {
      assert a[p].commander == At(a, Loc(p, Commander, 0));
      forall i | 0 <= i < |a[p].assaults|
        ensures a[p].assaults[i] == b[p].assaults[i]
      {
        assert At(a, Loc(p, Assault, i)) == At(b, Loc(p, Assault, i));
      }
      forall i | 0 <= i < |a[p].structures|
        ensures a[p].structures[i] == b[p].structures[i]
      {
        assert At(a, Loc(p, Structure, i)) == At(b, Loc(p, Structure, i));
      }
    }
  }

  /// Midway through `finalize_action`: the units of `done` have their
  /// protection, the others are as they were.
  ghost predicate Finalizing(before: seq<Side>, cur: seq<Side>, times: map<Loc, nat>, done: set<Loc>)
    requires WellFormed(before) && SameShape(before, cur)
  {
    (forall p :: 0 <= p < |before| ==> cur[p].totalCardsDestroyed == before[p].totalCardsDestroyed) &&
    forall m :: ValidLoc(before, m) ==>
      ValidLoc(cur, m) &&
      At(cur, m) == if m in done then Handlers.Protect(At(before, m), BarrierGain(before, times, m)) else At(before, m)
  }

  lemma FinalizeStep(before: seq<Side>, cur: seq<Side>, times: map<Loc, nat>, done: set<Loc>, l: Loc)
    requires WellFormed(before) && SameShape(before, cur) && Finalizing(before, cur, times, done)
    requires ValidLoc(before, l) && l !in done && l in times
    ensures SameShape(before, Put(cur, l, Handlers.Protect(At(cur, l), Gain(At(cur, l), times[l]))))
    ensures Finalizing(before, Put(cur, l, Handlers.Protect(At(cur, l), Gain(At(cur, l), times[l]))), times, done + {l})
  {
    var next := Put(cur, l, Handlers.Protect(At(cur, l), Gain(At(cur, l), times[l])));
    SameShapeLocs(before, cur);
    SameShapeLocs(cur, next);
  }

  lemma FinalizeStart(before: seq<Side>, times: map<Loc, nat>)
    requires WellFormed(before)
    ensures SameShape(before, before) && Finalizing(before, before, times, {})
  {
  }

  lemma FinalizeSkip(before: seq<Side>, cur: seq<Side>, times: map<Loc, nat>, done: set<Loc>, l: Loc)
    requires WellFormed(before) && SameShape(before, cur) && Finalizing(before, cur, times, done)
    requires !ValidLoc(before, l)
    ensures Finalizing(before, cur, times, done + {l})
  {
  }

  /// Once every hit unit has been visited, the board is the finalized one.
  lemma FinalizeDone(before: seq<Side>, cur: seq<Side>, times: map<Loc, nat>, done: set<Loc>)
    requires WellFormed(before) && SameShape(before, cur) && Finalizing(before, cur, times, done)
    requires times.Keys <= done
    ensures cur == Finalized(before, times)
  {
    FinalizedAt(before, times);
    forall m | ValidLoc(before, m) && m !in done
      ensures BarrierGain(before, times, m) == 0
    {
    }
    SameShapeLocs(before, cur);
    BoardsEqual(cur, Finalized(before, times));
  }

  /// Every assault of player `p` is a valid status that fits its address.
  lemma AssaultsFit(sides: seq<Side>, p: nat)
    requires WellFormed(sides) && p < |sides|
    ensures AllValid(sides[p].assaults)
    ensures forall i :: 0 <= i < |sides[p].assaults| ==> Fits(sides[p].assaults[i], Loc(p, Assault, i))
  {
    forall i | 0 <= i < |sides[p].assaults|
      ensures Fits(sides[p].assaults[i], Loc(p, Assault, i))
    {
      assert At(sides, Loc(p, Assault, i)) == sides[p].assaults[i];
    }
  }

  /// `sides` with player `p`'s assaults replaced by `a`.
  function WithAssaults(sides: seq<Side>, p: nat, a: seq<Status>): seq<Side>
    requires p < |sides|
  {
    sides[p := sides[p].(assaults := a)]
  }

  /// Writing one assault is replacing the storage by its update.
  lemma PutAssault(sides: seq<Side>, p: nat, a: seq<Status>, i: nat, st: Status)
    requires p < |sides| && i < |a|
    ensures ValidLoc(WithAssaults(sides, p, a), Loc(p, Assault, i))
    ensures Put(WithAssaults(sides, p, a), Loc(p, Assault, i), st) == WithAssaults(sides, p, a[i := st])
  {
  }

  /// Replacing a storage by one whose statuses fit keeps the board well
  /// formed.
  lemma WithAssaultsKeepsWellFormed(sides: seq<Side>, p: nat, a: seq<Status>)
    requires WellFormed(sides) && p < |sides| && |a| == |sides[p].assaults|
    requires forall i :: 0 <= i < |a| ==> Fits(a[i], Loc(p, Assault, i))
    ensures WellFormed(WithAssaults(sides, p, a)) && SameShape(sides, WithAssaults(sides, p, a))
  {
    var r := WithAssaults(sides, p, a);
    forall l | ValidLoc(r, l)
      ensures Fits(At(r, l), l)
    {
      if l.player != p || l.kind != Assault {
        assert At(r, l) == At(sides, l);
      }
    }
  }

  /// `b` differs from `a` only in living statuses, which stay alive.
  predicate LivingChanged(a: seq<Status>, b: seq<Status>)
  {
    |a| == |b| &&
    forall i :: 0 <= i < |a| ==>
      (IsAlive(a[i]) ==> IsAlive(b[i])) && (!IsAlive(a[i]) ==> b[i] == a[i])
  }

  /// The on-death effects touch only living assaults: commanders,
  /// structures, destroyed counts and dead assaults stay as they were, and
  /// no assault dies or comes back to life.
  ghost predicate OnlyLivingAssaultsChange(a: seq<Side>, b: seq<Side>)
  {
    SameShape(a, b) &&
    forall p :: 0 <= p < |a| ==>
      b[p].commander == a[p].commander && b[p].structures == a[p].structures &&
      b[p].totalCardsDestroyed == a[p].totalCardsDestroyed &&
      LivingChanged(a[p].assaults, b[p].assaults)
  }

  lemma OnlyLivingAssaultsChangeTrans(a: seq<Side>, b: seq<Side>, c: seq<Side>)
    requires OnlyLivingAssaultsChange(a, b) && OnlyLivingAssaultsChange(b, c)
    ensures OnlyLivingAssaultsChange(a, c)
  {
  }

  lemma WithLivingChanged(sides: seq<Side>, p: nat, a: seq<Status>)
    requires p < |sides| && LivingChanged(sides[p].assaults, a)
    ensures OnlyLivingAssaultsChange(sides, WithAssaults(sides, p, a))
  {
  }

  /// Avenge of one neighbour: a non-zero avenge value strengthens it.
  function Avenged(st: Status): (r: Status)
    requires ValidStatus(st)
    ensures ValidStatus(r) && r == st.(attack := r.attack, maxHp := r.maxHp, hp := r.hp)
    ensures r.hp >= st.hp
  {
    var v := SkillValue(st, Avenge);
    if v > 0 then Strengthen(st, v) else st
  }

  /// Avenge adds its value to maximum health and health, and to attack
  /// unless the neighbour is sundered.
  lemma AvengedValues(st: Status)
    requires ValidStatus(st)
    ensures Avenged(st).maxHp == st.maxHp + SkillValue(st, Avenge)
    ensures Avenged(st).hp == st.hp + SkillValue(st, Avenge)
    ensures Avenged(st).attack == st.attack + (if st.sundered then 0 else SkillValue(st, Avenge))
  {
  }

  /// The assaults after the first `k` neighbours of `adj` avenge, one after
  /// the other (a position off the storage avenges nothing).
  function AvengeFirst(a: seq<Status>, adj: seq<nat>, k: nat): (r: seq<Status>)
    requires AllValid(a) && k <= |adj|
    ensures |r| == |a| && AllValid(r)
    decreases k
  {
    if k == 0 then a
    else
      var prev := AvengeFirst(a, adj, k - 1);
      var x := adj[k - 1];
      if x < |prev| then prev[x := Avenged(prev[x])] else prev
  }

  /// The assaults after the neighbours `adj` of a killed assault avenge it.
  function AvengeAll(a: seq<Status>, adj: seq<nat>): (r: seq<Status>)
    requires AllValid(a)
    ensures |r| == |a| && AllValid(r)
  {
    AvengeFirst(a, adj, |adj|)
  }

  /// The avenge loop of `prepend_on_death` over one player's assaults:
  /// the neighbours at `adj` avenge one after the other.
  method AvengeAssaults(a: seq<Status>, adj: seq<nat>) returns (r: seq<Status>)
    requires AllValid(a)
    ensures r == AvengeAll(a, adj)
  {
    r := a;
    var k := 0;
    while k < |adj|
      invariant 0 <= k <= |adj| && r == AvengeFirst(a, adj, k)
    {
      var x := adj[k];
      if x < |r| {
        r := r[x := Avenged(r[x])];
      }
      k := k + 1;
    }
  }

  /// An avenging status still fits its address.
  lemma AvengedFits(st: Status, l: Loc)
    requires Fits(st, l)
    ensures Fits(Avenged(st), l)
  {
    var r := Avenged(st);
    assert r.player == st.player && r.card == st.card && r.evolvedOffset == st.evolvedOffset;
  }

  /// Avenging keeps every assault fitting its address.
  lemma {:induction false} AvengeFirstFits(a: seq<Status>, adj: seq<nat>, k: nat, p: nat)
    requires StorageFits(a, p, Assault) && k <= |adj|
    ensures AllValid(a) && StorageFits(AvengeFirst(a, adj, k), p, Assault)
    decreases k
  {
    if k > 0 {
      AvengeFirstFits(a, adj, k - 1, p);
      var prev := AvengeFirst(a, adj, k - 1);
      var x := adj[k - 1];
      if x < |prev| {
        AvengedFits(prev[x], Loc(p, Assault, x));
      }
    }
  }

  /// Each listed neighbour is avenged once, with its own avenge value, and
  /// every other assault is untouched.
  lemma AvengeAllSpec(a: seq<Status>, adj: seq<nat>)
    requires AllValid(a) && forall k :: 0 <= k < |adj| ==> adj[k] < |a|
    requires forall j, k :: 0 <= j < k < |adj| ==> adj[j] < adj[k]
    ensures forall i :: 0 <= i < |a| ==> AvengeAll(a, adj)[i] == if i in adj then Avenged(a[i]) else a[i]
  {
    AvengeFirstSpec(a, adj, |adj|);
    assert adj[..|adj|] == adj;
  }

  /// `AvengeFirst` avenges exactly the first `k` neighbours.
  lemma AvengeFirstSpec(a: seq<Status>, adj: seq<nat>, k: nat)
    requires AllValid(a) && k <= |adj| && forall j :: 0 <= j < |adj| ==> adj[j] < |a|
    requires forall i, j :: 0 <= i < j < |adj| ==> adj[i] < adj[j]
    ensures forall i :: 0 <= i < |a| ==> AvengeFirst(a, adj, k)[i] == if i in adj[..k] then Avenged(a[i]) else a[i]
  {
    forall i | 0 <= i < |a|
      ensures AvengeFirst(a, adj, k)[i] == if i in adj[..k] then Avenged(a[i]) else a[i]
    {
      AvengeFirstAt(a, adj, k, i);
    }
  }

  /// The assault at `i` after the first `k` neighbours avenge: avenged
  /// once if it is one of them, as it was otherwise.
  lemma {:induction false} AvengeFirstAt(a: seq<Status>, adj: seq<nat>, k: nat, i: nat)
    requires AllValid(a) && k <= |adj| && forall j :: 0 <= j < |adj| ==> adj[j] < |a|
    requires forall x, y :: 0 <= x < y < |adj| ==> adj[x] < adj[y]
    requires i < |a|
    ensures AvengeFirst(a, adj, k)[i] == if i in adj[..k] then Avenged(a[i]) else a[i]
    decreases k
  {
    if k > 0 {
      var last, init := adj[k - 1], adj[..k - 1];
      assert adj[..k] == init + [last];
      var prev := AvengeFirst(a, adj, k - 1);
      AvengeFirstAt(a, adj, k - 1, i);
      assert (i in adj[..k]) == (i in init || i == last);
      if i == last {
        assert i !in init by {
          forall j | 0 <= j < |init|
            ensures init[j] != last
          {
            assert init[j] == adj[j];
          }
        }
        assert prev[i] == a[i];
        assert AvengeFirst(a, adj, k)[i] == Avenged(a[i]);
      } else {
        assert AvengeFirst(a, adj, k)[i] == prev[i];
      }
    }
  }

  /// Avenge strengthens only living neighbours, so no assault dies or comes
  /// back to life and dead ones stay as they were.
  lemma AvengeAllLiving(a: seq<Status>, adj: seq<nat>)
    requires AllValid(a) && forall k :: 0 <= k < |adj| ==> adj[k] < |a| && IsAlive(a[adj[k]])
    requires forall j, k :: 0 <= j < k < |adj| ==> adj[j] < adj[k]
    ensures LivingChanged(a, AvengeAll(a, adj))
  {
    AvengeAllSpec(a, adj);
  }

  /// The state Virulence keeps while `prepend_on_death` walks the killed
  /// units: the poison stacked by the current run of adjacent deaths, the
  /// position of the previous killed assault, and the living assault left
  /// of the run.
  datatype Spread = Spread(stacked: nat, last: nat, left: Option<nat>)

  /// `last_index` before the first killed assault.
  const FirstLast: nat := 99

  /// The left victim is a living assault of the storage.
  predicate SpreadOk(a: seq<Status>, sp: Spread)
  {
    sp.left.Some? ==> sp.left.value < |a| && IsAlive(a[sp.left.value])
  }

  /// `st` with `v` more poison.
  function AddPoison(st: Status, v: nat): (r: Status)
    ensures r == st.(poisoned := st.poisoned + v)
  {
    st.(poisoned := st.poisoned + v)
  }

  /// The run a killed assault at `pos` joins: one that does not follow
  /// the previous death starts a new run with nothing stacked, whose left
  /// victim is the living assault just left of it.
  function RunStart(a: seq<Status>, pos: nat, sp: Spread): (r: Spread)
    requires SpreadOk(a, sp)
    ensures SpreadOk(a, r)
    ensures pos == sp.last + 1 ==> r == sp
    ensures pos != sp.last + 1 ==>
      r.stacked == 0 &&
      (r.left.Some? <==> 0 < pos && pos - 1 < |a| && IsAlive(a[pos - 1])) &&
      (r.left.Some? ==> r.left.value == pos - 1)
  {
    if pos != sp.last + 1
    then Spread(0, sp.last, if 0 < pos && pos - 1 < |a| && IsAlive(a[pos - 1]) then Some(pos - 1) else None)
    else sp
  }

  /// Poisoning the assault at `i` with `v`, if it is there and alive.
  function PoisonLiving(a: seq<Status>, i: nat, v: nat): (r: seq<Status>)
    ensures |r| == |a|
  {
    if i < |a| && IsAlive(a[i]) then a[i := AddPoison(a[i], v)] else a
  }

  /// Only the assault at `i` changes, and only when it is alive: it gains
  /// `v` poison.
  lemma PoisonLivingSpec(a: seq<Status>, i: nat, v: nat)
    ensures forall j :: 0 <= j < |a| && j != i ==> PoisonLiving(a, i, v)[j] == a[j]
    ensures i < |a| ==> PoisonLiving(a, i, v)[i] == if IsAlive(a[i]) then AddPoison(a[i], v) else a[i]
  {
  }

  /// Virulence for the killed assault at position `pos` carrying `poison`:
  /// the poison goes to the run's left victim and onto the stack, and the
  /// living assault just right of the dead one takes the whole stack.
  function Virulent(a: seq<Status>, pos: nat, poison: nat, sp: Spread): (r: (seq<Status>, Spread))
    requires SpreadOk(a, sp)
    ensures |r.0| == |a|
  {
    var run := RunStart(a, pos, sp);
    var a1 := if poison > 0 && run.left.Some? then PoisonLiving(a, run.left.value, poison) else a;
    var stacked := run.stacked + poison;
    (PoisonLiving(a1, pos + 1, stacked), Spread(stacked, pos, run.left))
  }

  /// `Virulent` as its two poisoning steps.
  lemma VirulentSteps(a: seq<Status>, pos: nat, poison: nat, sp: Spread, run: Spread, a1: seq<Status>)
    requires SpreadOk(a, sp) && run == RunStart(a, pos, sp)
    requires a1 == if poison > 0 && run.left.Some? then PoisonLiving(a, run.left.value, poison) else a
    ensures Virulent(a, pos, poison, sp).0 == PoisonLiving(a1, pos + 1, run.stacked + poison)
    ensures Virulent(a, pos, poison, sp).1 == Spread(run.stacked + poison, pos, run.left)
  {
  }

  /// Replacing a storage by its own value changes nothing, and a second
  /// replacement of the same storage overrides the first.
  lemma WithAssaultsSelf(sides: seq<Side>, p: nat, a: seq<Status>, b: seq<Status>)
    requires p < |sides|
    ensures WithAssaults(sides, p, sides[p].assaults) == sides
    ensures WithAssaults(WithAssaults(sides, p, a), p, b) == WithAssaults(sides, p, b)
  {
  }

  /// Poison keeps every status fitting its address.
  lemma PoisonLivingFits(a: seq<Status>, p: nat, i: nat, v: nat)
    requires forall j :: 0 <= j < |a| ==> Fits(a[j], Loc(p, Assault, j))
    ensures forall j :: 0 <= j < |a| ==> Fits(PoisonLiving(a, i, v)[j], Loc(p, Assault, j))
  {
    PoisonLivingSpec(a, i, v);
  }

  /// Virulence keeps every assault fitting its address.
  lemma VirulentFits(a: seq<Status>, p: nat, pos: nat, poison: nat, sp: Spread)
    requires SpreadOk(a, sp) && forall j :: 0 <= j < |a| ==> Fits(a[j], Loc(p, Assault, j))
    ensures forall j :: 0 <= j < |a| ==> Fits(Virulent(a, pos, poison, sp).0[j], Loc(p, Assault, j))
  {
    var run := RunStart(a, pos, sp);
    var a1 := if poison > 0 && run.left.Some? then PoisonLiving(a, run.left.value, poison) else a;
    if poison > 0 && run.left.Some? {
      PoisonLivingFits(a, p, run.left.value, poison);
    }
    PoisonLivingFits(a1, p, pos + 1, run.stacked + poison);
  }

  /// Adding poison to a living assault changes nothing else.
  lemma AddPoisonLiving(a: seq<Status>, i: nat, v: nat)
    ensures LivingChanged(a, PoisonLiving(a, i, v))
  {
  }

  lemma LivingChangedTrans(a: seq<Status>, b: seq<Status>, c: seq<Status>)
    requires LivingChanged(a, b) && LivingChanged(b, c)
    ensures LivingChanged(a, c)
  {
  }

  /// Virulence adds poison only to living assaults, so no assault dies or
  /// comes back to life and dead ones stay as they were; the left victim
  /// stays a living assault.
  lemma VirulentLiving(a: seq<Status>, pos: nat, poison: nat, sp: Spread)
    requires SpreadOk(a, sp)
    ensures SpreadOk(Virulent(a, pos, poison, sp).0, Virulent(a, pos, poison, sp).1)
    ensures LivingChanged(a, Virulent(a, pos, poison, sp).0)
  {
    var run := RunStart(a, pos, sp);
    var a1 := if poison > 0 && run.left.Some? then PoisonLiving(a, run.left.value, poison) else a;
    if poison > 0 && run.left.Some? {
      AddPoisonLiving(a, run.left.value, poison);
    }
    AddPoisonLiving(a1, pos + 1, run.stacked + poison);
    LivingChangedTrans(a, a1, PoisonLiving(a1, pos + 1, run.stacked + poison));
  }

  /// Avenge keeps every assault fitting its address.
  lemma AvengeAllFits(a: seq<Status>, p: nat, adj: seq<nat>)
    requires AllValid(a)
    requires forall j :: 0 <= j < |a| ==> Fits(a[j], Loc(p, Assault, j))
    ensures forall j :: 0 <= j < |a| ==> Fits(AvengeAll(a, adj)[j], Loc(p, Assault, j))
  {
    AvengeFirstFits(a, adj, |adj|, p);
  }

  /// A left victim that stays alive stays a valid left victim.
  lemma SpreadOkLiving(a: seq<Status>, b: seq<Status>, sp: Spread)
    requires SpreadOk(a, sp) && LivingChanged(a, b)
    ensures SpreadOk(b, sp)
  {
  }

  /// The on-death effects of one killed unit at `l`: a killed assault is
  /// avenged by its living neighbours and then, under Virulence, spreads
  /// its poison through player `p0`'s assaults.
  function OnDeathStep(sides: seq<Side>, l: Loc, p0: nat, sp: Spread, virulence: bool): (r: (seq<Side>, Spread))
    requires WellFormed(sides) && ValidLoc(sides, l) && p0 < 2 && SpreadOk(sides[p0].assaults, sp)
    ensures WellFormed(r.0) && SpreadOk(r.0[p0].assaults, r.1)
    ensures OnlyLivingAssaultsChange(sides, r.0)
  {
    if l.kind != Assault then (sides, sp)
    else
      var a := sides[l.player].assaults;
      AssaultsFit(sides, l.player);
      var adj := Neighbours(a, l.pos, 1);
      AvengeAllLiving(a, adj);
      AvengeAllFits(a, l.player, adj);
      var s1 := WithAssaults(sides, l.player, AvengeAll(a, adj));
      WithAssaultsKeepsWellFormed(sides, l.player, AvengeAll(a, adj));
      WithLivingChanged(sides, l.player, AvengeAll(a, adj));
      SpreadOkLiving(sides[p0].assaults, s1[p0].assaults, sp);
      if !virulence then (s1, sp)
      else
        SameShapeLocs(sides, s1);
        var poison := At(s1, l).poisoned;
        var v := Virulent(s1[p0].assaults, l.pos, poison, sp);
        AssaultsFit(s1, p0);
        VirulentFits(s1[p0].assaults, p0, l.pos, poison, sp);
        VirulentLiving(s1[p0].assaults, l.pos, poison, sp);
        WithAssaultsKeepsWellFormed(s1, p0, v.0);
        WithLivingChanged(s1, p0, v.0);
        OnlyLivingAssaultsChangeTrans(sides, s1, WithAssaults(s1, p0, v.0));
        (WithAssaults(s1, p0, v.0), v.1)
  }

  /// Every address of `ks` is on the board.
  predicate AllOn(sides: seq<Side>, ks: seq<Loc>)
  {
    forall i :: 0 <= i < |ks| ==> ValidLoc(sides, ks[i])
  }

  /// Addresses on a board are on every board of its shape.
  lemma AllOnSameShape(a: seq<Side>, b: seq<Side>, ks: seq<Loc>)
    requires AllOn(a, ks) && SameShape(a, b)
    ensures AllOn(b, ks)
  {
    SameShapeLocs(a, b);
  }

  /// One more address on the board.
  lemma AllOnAppend(sides: seq<Side>, ks: seq<Loc>, l: Loc)
    requires AllOn(sides, ks) && ValidLoc(sides, l)
    ensures AllOn(sides, ks + [l])
  {
    assert forall i :: 0 <= i < |ks| ==> (ks + [l])[i] == ks[i];
  }

  /// The on-death effects of the killed units `ks`, in order, with the
  /// Virulence run carried from one to the next.  However many units died,
  /// only living assaults change.
  function OnDeathFrom(sides: seq<Side>, ks: seq<Loc>, p0: nat, sp: Spread, virulence: bool): (r: seq<Side>)
    requires WellFormed(sides) && AllOn(sides, ks) && p0 < 2 && SpreadOk(sides[p0].assaults, sp)
    ensures WellFormed(r) && OnlyLivingAssaultsChange(sides, r)
    decreases |ks|
  {
    if ks == [] then sides
    else
      var step := OnDeathStep(sides, ks[0], p0, sp, virulence);
      SameShapeLocs(sides, step.0);
      var r := OnDeathFrom(step.0, ks[1..], p0, step.1, virulence);
      OnlyLivingAssaultsChangeTrans(sides, step.0, r);
      r
  }

  /// `prepend_on_death`'s effect on the board: the killed units' on-death
  /// effects, the Virulence run starting afresh in the first killed unit's
  /// assaults.
  function OnDeath(sides: seq<Side>, killed: seq<Loc>, bg: map<Bge, nat>): (r: seq<Side>)
    requires WellFormed(sides) && AllOn(sides, killed)
    ensures OnlyLivingAssaultsChange(sides, r)
  {
    if killed == [] then sides
    else OnDeathFrom(sides, killed, killed[0].player, Spread(0, FirstLast, None), Bge.Virulence in bg)
  }

  /// Walking the killed units one at a time: what is left after unit `i`
  /// is the rest of the walk from the board after unit `i`.
  lemma OnDeathFromNext(sides: seq<Side>, ks: seq<Loc>, i: nat, p0: nat, sp: Spread, virulence: bool)
    requires WellFormed(sides) && AllOn(sides, ks) && i < |ks| && p0 < 2 && SpreadOk(sides[p0].assaults, sp)
    ensures AllOn(sides, ks[i..]) && AllOn(sides, ks)
    ensures AllOn(OnDeathStep(sides, ks[i], p0, sp, virulence).0, ks[i + 1..])
    ensures OnDeathFrom(sides, ks[i..], p0, sp, virulence) ==
      OnDeathFrom(OnDeathStep(sides, ks[i], p0, sp, virulence).0, ks[i + 1..], p0,
        OnDeathStep(sides, ks[i], p0, sp, virulence).1, virulence)
  {
    SameShapeLocs(sides, OnDeathStep(sides, ks[i], p0, sp, virulence).0);
    assert ks[i..][1..] == ks[i + 1..];
  }
}
