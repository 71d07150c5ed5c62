/// The battle state (`Field`) and the operations that change it in place:
/// damage and death, the on-death effects, the skill queue and its
/// dispatch, the attack of an assault, and the turn phases.
module Battle {
  import opened Arith
  import opened Wrappers
  import opened Skills
  import opened Cards
  import opened Board
  import opened Targeting
  import opened Handlers
  import opened Effects
  import opened Dispatch
  import opened Turns
  import opened Combat
  import opened Deploy
  import opened Scoring

  /// `Field::current_phase`.
  datatype Phase = PlaycardPhase | CommanderPhase | StructuresPhase | AssaultsPhase | EndPhase

  /// `Field`: both players' cards in play, whose turn it is, whether the
  /// battle has ended, the units killed since the last on-death pass, the
  /// skill queue, the damage counts for barrier, the Bloodlust state, the
  /// supplied random stream, and each player's stasis factions.
  class Field {
    var sides: seq<Side>
    var tapi: nat
    var turn: nat
    var end: bool
    var phase: Phase
    var killed: seq<Loc>
    var queue: seq<Entry>
    var damagedTimes: map<Loc, nat>
    var bloodlustValue: nat
    var assaultBloodlusted: bool
    var rng: seq<nat>
    var stasisFactions: seq<set<nat>>
    /// The battleground effects and their values.
    const bg: map<Bge, nat>
    /// The ids of player 0's VIP cards: losing one loses the battle.
    const vipCards: set<nat>
    /// Each player's battleground activation skills, cast by its commander.
    const bgSkills: seq<seq<SkillSpec>>
    /// The ids of the Gilian cards (`is_gilian`).
    const gilian: set<nat>

    /// The board is well formed, the battle has ended exactly when a
    /// commander is dead, and every killed unit and queued caster is on the
    /// board.
    ghost predicate Valid()
      reads this
    {
      WellFormed(sides) && tapi < 2 && |stasisFactions| == 2 && |bgSkills| == 2 &&
      (end <==> (sides[0].commander.hp == 0 || sides[1].commander.hp == 0)) &&
      (forall i :: 0 <= i < |killed| ==> ValidLoc(sides, killed[i]) && killed[i].kind != Commander) &&
      (forall i :: 0 <= i < |queue| ==> ValidLoc(sides, queue[i].0))
    }

    /// The turn bookkeeping is unchanged.
    twostate predicate SameClock()
      reads this
    {
      tapi == old(tapi) && turn == old(turn) && phase == old(phase) &&
      bloodlustValue == old(bloodlustValue) && assaultBloodlusted == old(assaultBloodlusted) &&
      stasisFactions == old(stasisFactions)
    }

    /// A battle about to be played: both players' cards, the battleground
    /// effects and skills, the VIP cards and the random stream.
    constructor (sides0: seq<Side>, bg0: map<Bge, nat>, bgSkills0: seq<seq<SkillSpec>>,
                 vip: set<nat>, gilianIds: set<nat>, stream: seq<nat>, stasis0: seq<set<nat>>)
      requires WellFormed(sides0) && |bgSkills0| == 2 && |stasis0| == 2
      requires sides0[0].commander.hp > 0 && sides0[1].commander.hp > 0
      ensures Valid()
      ensures sides == sides0 && bg == bg0 && bgSkills == bgSkills0 && vipCards == vip && gilian == gilianIds
      ensures rng == stream && stasisFactions == stasis0
      ensures tapi == 0 && turn == 1 && !end && phase == PlaycardPhase
      ensures killed == [] && queue == [] && damagedTimes == map[]
    {
      sides := sides0;
      bg := bg0;
      bgSkills := bgSkills0;
      vipCards := vip;
      gilian := gilianIds;
      rng := stream;
      stasisFactions := stasis0;
      tapi := 0;
      turn := 1;
      end := false;
      phase := PlaycardPhase;
      killed := [];
      queue := [];
      damagedTimes := map[];
      bloodlustValue := 0;
      assaultBloodlusted := false;
    }

    /// The battle's records other than the board and the random stream are
    /// unchanged.
    twostate predicate SameRecords()
      reads this
    {
      end == old(end) && killed == old(killed) && queue == old(queue) && damagedTimes == old(damagedTimes)
    }

    /// Writes a status through its address.  A commander's health is never
    /// written this way.
    method Store(l: Loc, st: Status)
      requires Valid() && ValidLoc(sides, l) && Fits(st, l)
      requires l.kind == Commander ==> st.hp == At(sides, l).hp
      modifies this
      ensures Valid() && SameClock()
      ensures sides == Put(old(sides), l, st)
      ensures end == old(end) && killed == old(killed) && queue == old(queue)
      ensures damagedTimes == old(damagedTimes) && rng == old(rng)
    {
      PutKeepsBoard(sides, l, st);
      SameShapeLocs(sides, Put(sides, l, st));
      sides := Put(sides, l, st);
    }

    /// The bookkeeping of a death: the unit joins the killed list and its
    /// owner's destroyed-card count rises.
    method MarkKilled(l: Loc)
      requires Valid() && ValidLoc(sides, l) && l.kind != Commander
      modifies this
      ensures Valid() && SameClock()
      ensures sides == CountDestroyed(old(sides), l.player) && killed == old(killed) + [l]
      ensures end == old(end) && queue == old(queue) && damagedTimes == old(damagedTimes) && rng == old(rng)
    {
      var r := CountDestroyed(sides, l.player);
      SameShapeLocs(sides, r);
      assert At(sides, Loc(0, Commander, 0)) == sides[0].commander == At(r, Loc(0, Commander, 0)) == r[0].commander;
      assert At(sides, Loc(1, Commander, 0)) == sides[1].commander == At(r, Loc(1, Commander, 0)) == r[1].commander;
      sides := r;
      killed := killed + [l];
    }

    /// Losing one of player 0's VIP cards kills player 0's commander and
    /// ends the battle.
    method LoseVip()
      requires Valid()
      modifies this
      ensures Valid() && SameClock() && end
      ensures sides == Put(old(sides), Loc(0, Commander, 0), old(sides[0].commander).(hp := 0))
      ensures killed == old(killed) && queue == old(queue) && damagedTimes == old(damagedTimes) && rng == old(rng)
    {
      var c := Loc(0, Commander, 0);
      var st := At(sides, c).(hp := 0);
      PutKeepsWellFormed(sides, c, st);
      SameShapeLocs(sides, Put(sides, c, st));
      assert At(sides, Loc(1, Commander, 0)) == sides[1].commander;
      sides := Put(sides, c, st);
      assert At(sides, c) == sides[0].commander;
      assert At(sides, Loc(1, Commander, 0)) == sides[1].commander;
      end := true;
    }

    /// The death of the unit at `l`: it joins the killed list, its owner's
    /// destroyed count rises, and a VIP card of player 0 takes player 0's
    /// commander with it.
    method Kill(l: Loc)
      requires Valid() && ValidLoc(sides, l) && l.kind != Commander
      modifies this
      ensures Valid() && SameClock()
      ensures sides == Bury(old(sides), l.player, l.player == 0 && At(old(sides), l).card.id in vipCards)
      ensures killed == old(killed) + [l]
      ensures end == (old(end) || (l.player == 0 && At(old(sides), l).card.id in vipCards))
      ensures queue == old(queue) && damagedTimes == old(damagedTimes) && rng == old(rng)
    {
      var vip := l.player == 0 && At(sides, l).card.id in vipCards;
      MarkKilled(l);
      if vip {
        LoseVip();
      }
    }

    /// While the turn is not ending, a hit on a unit with barrier is counted.
    method CountBarrierHit(l: Loc, barrier: bool)
      requires Valid()
      modifies this
      ensures Valid() && SameClock()
      ensures damagedTimes ==
        if phase != EndPhase && barrier then old(damagedTimes)[l := TimesOf(old(damagedTimes), l) + 1]
        else old(damagedTimes)
      ensures sides == old(sides) && end == old(end) && killed == old(killed)
      ensures queue == old(queue) && rng == old(rng)
    {
      if phase != EndPhase && barrier {
        damagedTimes := damagedTimes[l := TimesOf(damagedTimes, l) + 1];
      }
    }

    /// `remove_hp`, proved against `Hit`: the unit loses `dmg` health; while
    /// the turn is not ending a unit with barrier counts the hit; a unit that
    /// dies joins the killed list, and losing a VIP card ends the battle.
    method RemoveHp(l: Loc, dmg: nat)
      requires Valid() && ValidLoc(sides, l) && l.kind != Commander
      modifies this
      ensures Valid() && SameClock()
      ensures sides == Hit(old(sides), l, dmg, vipCards)
      ensures killed == old(killed) + (if Dies(old(sides), l, dmg) then [l] else [])
      ensures end == (old(end) || LosesVip(old(sides), l, dmg, vipCards))
      ensures damagedTimes ==
        if dmg > 0 && phase != EndPhase && HasSkill(At(old(sides), l), Barrier)
        then old(damagedTimes)[l := TimesOf(old(damagedTimes), l) + 1]
        else old(damagedTimes)
      ensures queue == old(queue) && rng == old(rng)
    {
      if dmg == 0 {
        return;
      }
      var dies := Damage(l, dmg);
      if dies {
        Kill(l);
      }
    }

    /// The health loss of `remove_hp` before any death: the unit at `l`
    /// loses `dmg` health and a hit on a unit with barrier is counted while
    /// the turn is not ending.
    method Damage(l: Loc, dmg: nat) returns (dies: bool)
      requires Valid() && ValidLoc(sides, l) && l.kind != Commander && dmg > 0
      modifies this
      ensures Valid() && SameClock() && ValidLoc(sides, l)
      ensures sides == Put(old(sides), l, LoseHp(At(old(sides), l), dmg))
      ensures dies == Dies(old(sides), l, dmg)
      ensures At(sides, l).card == At(old(sides), l).card
      ensures damagedTimes ==
        if phase != EndPhase && HasSkill(At(old(sides), l), Barrier)
        then old(damagedTimes)[l := TimesOf(old(damagedTimes), l) + 1]
        else old(damagedTimes)
      ensures end == old(end) && killed == old(killed) && queue == old(queue) && rng == old(rng)
    {
      var st := At(sides, l);
      var hit := LoseHp(st, dmg);
      CountBarrierHit(l, HasSkill(st, Barrier));
      Store(l, hit);
      assert At(sides, l) == hit;
      dies := hit.hp == 0;
    }

    /// `remove_commander_hp`: the commander of player `p` loses `dmg` health,
    /// saturating at zero; the battle ends when it reaches zero.
    method RemoveCommanderHp(p: nat, dmg: nat)
      requires Valid() && p < 2
      modifies this
      ensures Valid() && SameClock() && SameShape(old(sides), sides)
      ensures sides == Put(old(sides), Loc(p, Commander, 0), LoseHp(old(sides[p].commander), dmg))
      ensures end == (old(end) || sides[p].commander.hp == 0)
      ensures killed == old(killed) && queue == old(queue) && damagedTimes == old(damagedTimes) && rng == old(rng)
    {
      var c := Loc(p, Commander, 0);
      var st := LoseHp(At(sides, c), dmg);
      PutKeepsWellFormed(sides, c, st);
      SameShapeLocs(sides, Put(sides, c, st));
      assert At(sides, Loc(0, Commander, 0)) == sides[0].commander;
      assert At(sides, Loc(1, Commander, 0)) == sides[1].commander;
      sides := Put(sides, c, st);
      assert At(sides, Loc(0, Commander, 0)) == sides[0].commander;
      assert At(sides, Loc(1, Commander, 0)) == sides[1].commander;
      if st.hp == 0 {
        end := true;
      }
    }

    /// `prepare_action`: forgets the damage counts of the previous action.
    method PrepareAction()
      requires Valid()
      modifies this
      ensures Valid() && SameClock() && damagedTimes == map[]
      ensures sides == old(sides) && end == old(end) && killed == old(killed)
      ensures queue == old(queue) && rng == old(rng)
    {
      damagedTimes := map[];
    }

    /// One visit of `finalize_action`: the unit at `l`, if it is on the
    /// board, gains its barrier value per hit it took, if it is alive.
    method BarrierProtect(l: Loc, ghost before: seq<Side>, ghost done: set<Loc>)
      requires Valid() && WellFormed(before) && SameShape(before, sides)
      requires Finalizing(before, sides, damagedTimes, done) && l in damagedTimes && l !in done
      modifies this
      ensures Valid() && SameClock() && SameShape(before, sides)
      ensures Finalizing(before, sides, damagedTimes, done + {l})
      ensures SameRecords() && rng == old(rng)
    {
      SameShapeLocs(before, sides);
      if ValidLoc(sides, l) {
        var st := At(sides, l);
        WellFormedAt(sides, l);
        ghost var cur := sides;
        Store(l, Handlers.Protect(st, Gain(st, damagedTimes[l])));
        FinalizeStep(before, cur, damagedTimes, done, l);
      } else {
        FinalizeSkip(before, sides, damagedTimes, done, l);
      }
    }

    /// `finalize_action`: every living unit that was hit during the action
    /// gains protection of its barrier value per hit.  Each visit changes
    /// only its own unit, so the order of the visits is immaterial.
    method FinalizeAction()
      requires Valid()
      modifies this
      ensures Valid() && SameClock() && sides == Finalized(old(sides), damagedTimes)
      ensures end == old(end) && killed == old(killed) && queue == old(queue)
      ensures damagedTimes == old(damagedTimes) && rng == old(rng)
    {
      var todo := damagedTimes.Keys;
      ghost var done: set<Loc> := {};
      ghost var before := sides;
      FinalizeStart(before, damagedTimes);
      while todo != {}
        invariant Valid() && SameClock() && SameRecords() && rng == old(rng) && SameShape(before, sides)
        invariant todo <= damagedTimes.Keys && done == damagedTimes.Keys - todo
        invariant Finalizing(before, sides, damagedTimes, done)
        decreases |todo|
      {
        var l :| l in todo;
        BarrierProtect(l, before, done);
        todo := todo - {l};
        done := done + {l};
      }
      FinalizeDone(before, sides, damagedTimes, done);
    }

    /// One neighbour's avenge: a non-zero avenge value strengthens it.
    method AvengeOne(a: Loc)
      requires Valid() && ValidLoc(sides, a) && a.kind == Assault
      modifies this
      ensures Valid() && SameClock()
      ensures sides == Put(old(sides), a, Avenged(At(old(sides), a)))
      ensures end == old(end) && killed == old(killed) && queue == old(queue)
      ensures damagedTimes == old(damagedTimes) && rng == old(rng)
    {
      var st := At(sides, a);
      var v := SkillValue(st, Skills.Avenge);
      if v > 0 {
        Store(a, Strengthen(st, v));
      } else {
        PutSame(sides, a);
      }
    }

    /// Avenge around the killed assault at `l`: each living neighbour with
    /// avenge is strengthened by its avenge value.
    method Avenge(l: Loc)
      requires Valid() && ValidLoc(sides, l) && l.kind == Assault
      modifies this
      ensures Valid() && SameClock()
      ensures sides == WithAssaults(old(sides), l.player,
        AvengeAll(old(sides)[l.player].assaults, Neighbours(old(sides)[l.player].assaults, l.pos, 1)))
      ensures end == old(end) && killed == old(killed) && queue == old(queue)
      ensures damagedTimes == old(damagedTimes) && rng == old(rng)
    {
      var adj := AdjacentAssaults(sides[l.player].assaults, l.pos, 1);
      AvengeEach(l.player, adj);
    }

    /// The neighbours at `adj` of player `p` avenge, in order: the
    /// player's assaults are updated one neighbour after the other, as
    /// `AvengeAssaults` does, and written back (an avenge reads and writes
    /// its own status only).
    method AvengeEach(p: nat, adj: seq<nat>)
      requires Valid() && p < 2 && forall j :: 0 <= j < |adj| ==> adj[j] < |sides[p].assaults|
      modifies this
      ensures Valid() && SameClock() && SameRecords() && rng == old(rng)
      ensures sides == WithAssaults(old(sides), p, AvengeAll(old(sides)[p].assaults, adj))
    {
      assert StorageFits(sides[p].assaults, p, Assault);
      AvengeFirstFits(sides[p].assaults, adj, |adj|, p);
      var a := AvengeAssaults(sides[p].assaults, adj);
      SetAssaults(p, a);
    }

    /// The status at `v` gains `amount` poison.
    method Poison(v: Loc, amount: nat)
      requires Valid() && ValidLoc(sides, v)
      modifies this
      ensures Valid() && SameClock()
      ensures sides == Put(old(sides), v, AddPoison(At(old(sides), v), amount))
      ensures end == old(end) && killed == old(killed) && queue == old(queue)
      ensures damagedTimes == old(damagedTimes) && rng == old(rng)
    {
      WellFormedAt(sides, v);
      Store(v, AddPoison(At(sides, v), amount));
    }

    /// Replaces player `p`'s assaults by statuses that fit their places.
    method SetAssaults(p: nat, a: seq<Status>)
      requires Valid() && p < 2 && |a| == |sides[p].assaults|
      requires forall i :: 0 <= i < |a| ==> Fits(a[i], Loc(p, Assault, i))
      modifies this
      ensures Valid() && SameClock()
      ensures sides == WithAssaults(old(sides), p, a)
      ensures end == old(end) && killed == old(killed) && queue == old(queue)
      ensures damagedTimes == old(damagedTimes) && rng == old(rng)
    {
      WithAssaultsKeepsWellFormed(sides, p, a);
      SameShapeLocs(sides, WithAssaults(sides, p, a));
      sides := WithAssaults(sides, p, a);
    }

    /// Virulence for the killed assault at `l`, spreading through player
    /// `p0`'s assaults: the storage is poisoned as `Virulent` says and the
    /// run goes on from `next`.
    method SpreadPoison(l: Loc, p0: nat, sp: Spread) returns (next: Spread)
      requires Valid() && ValidLoc(sides, l) && p0 < 2 && SpreadOk(sides[p0].assaults, sp)
      modifies this
      ensures Valid() && SameClock()
      ensures sides == WithAssaults(old(sides), p0,
        Virulent(old(sides)[p0].assaults, l.pos, At(old(sides), l).poisoned, sp).0)
      ensures next == Virulent(old(sides)[p0].assaults, l.pos, At(old(sides), l).poisoned, sp).1
      ensures end == old(end) && killed == old(killed) && queue == old(queue)
      ensures damagedTimes == old(damagedTimes) && rng == old(rng)
    {
      var v := Virulent(sides[p0].assaults, l.pos, At(sides, l).poisoned, sp);
      AssaultsFit(sides, p0);
      VirulentFits(sides[p0].assaults, p0, l.pos, At(sides, l).poisoned, sp);
      SetAssaults(p0, v.0);
      next := v.1;
    }

    /// The on-death effects of the killed unit at `l`: Avenge for a killed
    /// assault and then, under Virulence, the spread of its poison.
    method OnDeathOne(l: Loc, p0: nat, sp: Spread) returns (next: Spread)
      requires Valid() && ValidLoc(sides, l) && p0 < 2 && SpreadOk(sides[p0].assaults, sp)
      modifies this
      ensures Valid() && SameClock()
      ensures sides == OnDeathStep(old(sides), l, p0, sp, Bge.Virulence in bg).0
      ensures next == OnDeathStep(old(sides), l, p0, sp, Bge.Virulence in bg).1
      ensures end == old(end) && killed == old(killed) && queue == old(queue)
      ensures damagedTimes == old(damagedTimes) && rng == old(rng)
    {
      next := sp;
      if l.kind == Assault {
        AssaultsFit(sides, l.player);
        AvengeAllLiving(sides[l.player].assaults, Neighbours(sides[l.player].assaults, l.pos, 1));
        WithLivingChanged(sides, l.player,
          AvengeAll(sides[l.player].assaults, Neighbours(sides[l.player].assaults, l.pos, 1)));
        ghost var before := sides;
        Avenge(l);
        SpreadOkLiving(before[p0].assaults, sides[p0].assaults, sp);
        if Bge.Virulence in bg {
          next := SpreadPoison(l, p0, sp);
        }
      }
    }

    /// `prepend_on_death`: for each killed unit in order, a killed assault
    /// is avenged by its living neighbours and, under Virulence, spreads
    /// its poison; under Revenge each killed unit's commander queues a heal
    /// and a rally.  These entries go to the front of the queue, and the
    /// killed list is emptied.
    method PrependOnDeath()
      requires Valid()
      modifies this
      ensures Valid() && SameClock()
      ensures old(AllOn(sides, killed)) && sides == OnDeath(old(sides), old(killed), bg)
      ensures killed == [] && queue == RevengeEntries(old(killed), bg) + old(queue)
      ensures end == old(end) && damagedTimes == old(damagedTimes) && rng == old(rng)
    {
      if killed == [] {
        return;
      }
      var p0 := killed[0].player;
      var sp := Spread(0, FirstLast, None);
      var i := 0;
      while i < |killed|
        invariant 0 <= i <= |killed|
        invariant Valid() && SameClock() && killed == old(killed) && queue == old(queue)
        invariant end == old(end) && damagedTimes == old(damagedTimes) && rng == old(rng)
        invariant p0 < 2 && SpreadOk(sides[p0].assaults, sp)
        invariant OnDeathFrom(sides, killed[i..], p0, sp, Bge.Virulence in bg) == OnDeath(old(sides), killed, bg)
      {
        OnDeathFromNext(sides, killed, i, p0, sp, Bge.Virulence in bg);
        sp := OnDeathOne(killed[i], p0, sp);
        i := i + 1;
      }
      QueueRevenge();
    }

    /// Under Revenge, each killed unit's commander heals and rallies: the
    /// entries go to the front of the queue, and the killed list is emptied.
    method QueueRevenge()
      requires Valid()
      modifies this
      ensures Valid() && SameClock() && sides == old(sides)
      ensures killed == [] && queue == RevengeEntries(old(killed), bg) + old(queue)
      ensures end == old(end) && damagedTimes == old(damagedTimes) && rng == old(rng)
    {
      queue := RevengeEntries(killed, bg) + queue;
      killed := [];
    }
  
    /// The skill with code `k` of the unit at `l` goes on a cooldown of `c`.
    method SetCooldown(l: Loc, k: nat, c: nat)
      requires Valid() && ValidLoc(sides, l) && k < NumSkills
      modifies this
      ensures Valid() && SameClock() && SameRecords() && rng == old(rng)
      ensures sides == Put(old(sides), l, StartCooldown(At(old(sides), l), k, c))
    {
      WellFormedAt(sides, l);
      Store(l, StartCooldown(At(sides, l), k, c));
    }

    /// The candidates `select_fast` finds for the skill `s` of the unit at
    /// `src`: the units of the storage the skill aims at that pass the
    /// faction filter and the skill's target predicate; for mortar the
    /// enemy structures siege could hit or else the assaults strike could;
    /// for mend the damaged living assaults next to the caster's index (0
    /// for a commander).
    method Candidates(src: Loc, s: SkillSpec) returns (p: nat, kind: CardType, cands: seq<nat>)
      requires Valid() && ValidLoc(sides, src)
      ensures p == TargetPlayer(s.id, src.player) && kind != Commander
      ensures s.id != Mortar ==> kind == TargetKind(s.id)
      ensures forall i :: 0 <= i < |cands| ==> cands[i] < |StorageOf(sides[p], kind)|
      ensures s.id == Mend && src.pos <= |sides[p].assaults| ==>
        (forall i :: 0 <= i < |cands| ==>
          cands[i] in Neighbours(sides[p].assaults, src.pos, Reach(bg)) &&
          CanBeHealed(sides[p].assaults[cands[i]])) &&
        (forall q :: (q in Neighbours(sides[p].assaults, src.pos, Reach(bg)) &&
          CanBeHealed(sides[p].assaults[q])) ==> q in cands)
      ensures s.id == Mend && src.pos > |sides[p].assaults| ==> cands == []
    {
      var st := At(sides, src);
      WellFormedAt(sides, src);
      p := TargetPlayer(s.id, src.player);
      BoardValid(sides, p);
      var side := sides[p];
      var gil := st.card.id in gilian;
      var meta := Bge.Metamorphosis in bg;
      var inh := HasInhibited(side.assaults);
      kind := TargetKind(s.id);
      if s.id == Mend {
        cands := [];
        if src.pos <= |side.assaults| {
          cands := HealableNeighbours(side.assaults, src.pos, Reach(bg));
        }
      } else if s.id == Mortar {
        kind := Structure;
        cands := SelectFast(Siege, tapi, st, gil, side.structures, s, inh, meta);
        if cands == [] {
          kind := Assault;
          cands := SelectFast(Strike, tapi, st, gil, side.assaults, s, inh, meta);
        }
      } else {
        var storage := StorageOf(side, kind);
        cands := SelectFast(s.id, tapi, st, gil, storage, s, inh, meta);
      }
    }

    /// `select_targets`: the candidates, then the draw of `select_targets`
    /// over the random stream; the targets are addresses in the storage the
    /// candidates come from.
    method Targets(src: Loc, s: SkillSpec) returns (targets: seq<Loc>)
      requires Valid() && ValidLoc(sides, src)
      modifies this
      ensures Valid() && SameClock() && SameRecords() && sides == old(sides)
      ensures forall i :: 0 <= i < |targets| ==>
        ValidLoc(sides, targets[i]) && targets[i].kind != Commander &&
        targets[i].player == TargetPlayer(s.id, src.player)
      ensures s.id != Mortar ==> forall i :: 0 <= i < |targets| ==> targets[i].kind == TargetKind(s.id)
    {
      var p, kind, cands := Candidates(src, s);
      var sel, rest := Targeting.SelectTargets(cands, s.id, s, rng);
      Consume(rest);
      AddressesOn(sides, p, kind, sel, cands);
      targets := Addresses(p, kind, sel);
    }

    /// What is left of the random stream after a draw.
    method Consume(rest: seq<nat>)
      requires Valid()
      modifies this
      ensures Valid() && SameClock() && SameRecords() && sides == old(sides) && rng == rest
    {
      rng := rest;
    }

    /// One target of `perform_targetted_allied_fast`, proved against
    /// `AlliedOnBoard`.
    method AlliedOn(src: Loc, dst: Loc, s: SkillSpec, overloaded: bool) returns (stopped: bool)
      requires Valid() && ValidLoc(sides, src) && ValidLoc(sides, dst) && dst.kind == Assault
      modifies this
      ensures Valid() && SameClock() && SameRecords() && rng == old(rng)
      ensures sides == AlliedOnBoard(old(sides), src, dst, s, overloaded, bg)
      ensures stopped <==> At(old(sides), dst).inhibited > 0 && !overloaded
    {
      var d := At(sides, dst);
      WellFormedAt(sides, dst);
      stopped := d.inhibited > 0 && !overloaded;
      if stopped {
        Store(dst, Uninhibit(d));
        return;
      }
      ApplyAllied(src, dst, s);
      SameShapeLoc(old(sides), sides, src);
      Cooldown(src, s);
    }

    /// The skill's effect lands on the assault at `dst`.
    method ApplyAllied(src: Loc, dst: Loc, s: SkillSpec)
      requires Valid() && ValidLoc(sides, src) && ValidLoc(sides, dst) && dst.kind == Assault
      modifies this
      ensures Valid() && SameClock() && SameRecords() && rng == old(rng)
      ensures sides == AlliedApplied(old(sides), src, dst, s, bg)
    {
      WellFormedAt(sides, dst);
      var e := AlliedEffect(s.id, At(sides, dst), s, At(sides, src).card.cardType == Assault, bg,
                            sides[Opponent(dst.player)].assaults);
      Store(dst, e);
    }

    /// The caster at `src` starts the skill's cooldown, when it has one.
    method Cooldown(src: Loc, s: SkillSpec)
      requires Valid() && ValidLoc(sides, src)
      modifies this
      ensures Valid() && SameClock() && SameRecords() && rng == old(rng)
      ensures sides == WithCooldown(old(sides), src, s)
    {
      if s.c > 0 {
        SetCooldown(src, Code(s.id), s.c);
      }
    }

    /// The first pass of `perform_targetted_allied_fast` over the targets,
    /// proved against `AlliedAll`; it counts the targets inhibit stopped.
    method AlliedTargets(src: Loc, ts: seq<Loc>, s: SkillSpec, overloaded: bool) returns (stopped: nat)
      requires Valid() && ValidLoc(sides, src) && AssaultsOn(sides, ts)
      modifies this
      ensures Valid() && SameClock() && SameRecords() && rng == old(rng)
      ensures sides == AlliedAll(old(sides), src, ts, s, overloaded, bg)
    {
      stopped := 0;
      var k := 0;
      while k < |ts|
        invariant 0 <= k <= |ts|
        invariant Valid() && SameClock() && SameRecords() && rng == old(rng)
        invariant sides == AlliedAll(old(sides), src, ts[..k], s, overloaded, bg)
      {
        var st := AlliedNext(old(sides), src, ts, k, s, overloaded);
        if st {
          stopped := stopped + 1;
        }
        k := k + 1;
      }
      assert ts[..k] == ts;
    }

    /// The step of `AlliedTargets` on target `k`.
    method AlliedNext(ghost sides0: seq<Side>, src: Loc, ts: seq<Loc>, k: nat, s: SkillSpec,
                      overloaded: bool) returns (stopped: bool)
      requires Valid() && WellFormed(sides0) && ValidLoc(sides0, src) && AssaultsOn(sides0, ts)
      requires k < |ts| && sides == AlliedAll(sides0, src, ts[..k], s, overloaded, bg)
      modifies this
      ensures Valid() && SameClock() && SameRecords() && rng == old(rng)
      ensures sides == AlliedAll(sides0, src, ts[..k + 1], s, overloaded, bg)
    {
      AlliedAllNext(sides0, src, ts, k, s, overloaded, bg);
      stopped := AlliedOn(src, ts[k], s, overloaded);
    }

    /// One Divert retry: a target drawn as if the waiting player's
    /// commander cast the skill for all factions on one target, so among
    /// that player's assaults; an inhibited target again only loses one
    /// inhibit, and no cooldown starts.
    method DivertOnce(src: Loc, s: SkillSpec)
      requires Valid() && ValidLoc(sides, src) && !IsActivationHostileSkill(s.id)
      modifies this
      ensures Valid() && SameClock() && SameRecords() && SameShape(old(sides), sides)
    {
      var ds := s.(y := AllFactions, n := 1, all := false);
      var srcIsAssault := At(sides, src).card.cardType == Assault;
      var targets := Targets(Loc(Opponent(tapi), Commander, 0), ds);
      var k := 0;
      while k < |targets|
        invariant Valid() && SameClock() && SameRecords() && SameShape(old(sides), sides)
      {
        SameShapeLocs(old(sides), sides);
        var dst := targets[k];
        var d := At(sides, dst);
        WellFormedAt(sides, dst);
        if d.inhibited > 0 {
          Store(dst, Uninhibit(d));
        } else {
          Store(dst, AlliedEffect(s.id, d, ds, srcIsAssault, bg, sides[Opponent(dst.player)].assaults));
        }
        k := k + 1;
      }
    }

    /// Divert: the skill is retried once per target inhibit stopped.
    method Divert(src: Loc, s: SkillSpec, times: nat)
      requires Valid() && ValidLoc(sides, src) && !IsActivationHostileSkill(s.id)
      modifies this
      ensures Valid() && SameClock() && SameRecords() && SameShape(old(sides), sides)
    {
      var i := 0;
      while i < times
        invariant Valid() && SameClock() && SameRecords() && SameShape(old(sides), sides)
      {
        SameShapeLocs(old(sides), sides);
        DivertOnce(src, s);
        i := i + 1;
      }
    }

    /// `perform_targetted_allied_fast`: the skill on each selected target in
    /// turn, then, under Divert, a retry per target inhibit stopped.
    method AlliedFast(src: Loc, s: SkillSpec) returns (targets: seq<Loc>)
      requires Valid() && ValidLoc(sides, src) && !IsActivationHostileSkill(s.id)
      modifies this
      ensures Valid() && SameClock() && SameRecords() && SameShape(old(sides), sides)
      ensures AssaultsOn(old(sides), targets)
      ensures Bge.Divert !in bg ==>
        sides == AlliedAll(old(sides), src, targets, s, At(old(sides), src).overloaded, bg)
    {
      var overloaded := At(sides, src).overloaded;
      targets := Targets(src, s);
      var stopped := AlliedTargets(src, targets, s, overloaded);
      ghost var mid := sides;
      if stopped > 0 && Bge.Divert in bg {
        SameShapeLocs(old(sides), sides);
        Divert(src, s, stopped);
      }
      SameShapeTrans(old(sides), mid, sides);
    }

    /// `perform_targetted_allied_fast_rush`: a commander (casting a
    /// battleground skill) always rushes; any other card tries rush once,
    /// and is marked as having tried.
    method RushFast(src: Loc, s: SkillSpec)
      requires Valid() && ValidLoc(sides, src) && s.id == Rush
      modifies this
      ensures Valid() && SameClock() && SameRecords() && SameShape(old(sides), sides)
      ensures src.kind != Commander && At(old(sides), src).rushAttempted ==>
        sides == old(sides) && rng == old(rng)
      ensures src.kind != Commander ==> At(sides, src).rushAttempted
    {
      if src.kind == Commander {
        var _ := AlliedFast(src, s);
      } else if !At(sides, src).rushAttempted {
        var _ := AlliedFast(src, s);
        SameShapeLocs(old(sides), sides);
        var st := At(sides, src);
        WellFormedAt(sides, src);
        Store(src, st.(rushAttempted := true));
      }
    }

    /// `perform_skill<skill>` of a hostile skill by the unit at `caster` on
    /// the unit at `dst`: a status effect is written to the target, damage
    /// goes through `remove_hp`, and mimic performs one of the target's
    /// skills.
    method PerformHostile(caster: Loc, dst: Loc, s: SkillSpec)
      requires Valid() && ValidLoc(sides, caster) && ValidLoc(sides, dst) && dst.kind != Commander
      requires IsActivationHostileSkill(s.id)
      modifies this
      ensures Valid() && SameClock() && SameShape(old(sides), sides) && SupportPrefix(old(queue), queue)
      ensures s.id in {Enfeeble, Jam, Weaken, Sunder} ==>
        sides == Put(old(sides), dst, HostileEffect(s.id, At(old(sides), dst), s)) &&
        SameRecords() && rng == old(rng)
      ensures s.id in {Mortar, Siege, Strike} ==>
        sides == Hit(old(sides), dst, HostileDamage(s.id, At(old(sides), caster).overloaded, At(old(sides), dst), s),
                     vipCards) &&
        queue == old(queue) && rng == old(rng)
      decreases Rank(s.id), 1
    {
      if s.id == Mimic {
        MimicOn(caster, dst, s);
      } else if s.id in {Mortar, Siege, Strike} {
        var dmg := HostileDamage(s.id, At(sides, caster).overloaded, At(sides, dst), s);
        HitEffects(sides, dst, dmg, vipCards);
        RemoveHp(dst, dmg);
        SupportPrefixRefl(queue);
      } else {
        WellFormedAt(sides, dst);
        Store(dst, HostileEffect(s.id, At(sides, dst), s));
        SupportPrefixRefl(queue);
      }
    }

    /// `perform_skill<mimic>`: one of the target's mimickable skills, the
    /// only one or one drawn from the random stream, performed by the
    /// mimic's caster at mimic's X plus its enhance bonus.
    method MimicOn(caster: Loc, dst: Loc, s: SkillSpec)
      requires Valid() && ValidLoc(sides, caster) && ValidLoc(sides, dst) && s.id == Mimic
      modifies this
      ensures Valid() && SameClock() && SameShape(old(sides), sides) && SupportPrefix(old(queue), queue)
      ensures MimickableSkills(At(old(sides), dst).card.skills, At(old(sides), caster).card.cardType == Assault) == [] ==>
        sides == old(sides) && queue == old(queue) && rng == old(rng)
      decreases Rank(s.id), 0
    {
      var src := At(sides, caster);
      var d := At(sides, dst);
      var ms := MimickableSkills(d.card.skills, src.card.cardType == Assault);
      if ms == [] {
        SupportPrefixRefl(queue);
        return;
      }
      var choice := MimicChoice(|ms|, rng);
      Consume(choice.1);
      MimicNeverNests(d, src.card.cardType == Assault, choice.0);
      WellFormedAt(sides, caster);
      Perform(caster, Mimicked(src, d.card.skills[ms[choice.0]], s));
    }

    /// `check_and_perform_skill` for a hostile skill: a target that evades
    /// spends one evade; otherwise the skill is performed and the caster's
    /// cooldown starts.
    method HostileOn(src: Loc, dst: Loc, s: SkillSpec) returns (performed: bool)
      requires Valid() && ValidLoc(sides, src) && ValidLoc(sides, dst) && dst.kind != Commander
      requires IsActivationHostileSkill(s.id)
      modifies this
      ensures Valid() && SameClock() && SameShape(old(sides), sides) && SupportPrefix(old(queue), queue)
      ensures performed <==> !old(EvadesOn(sides, src, dst))
      ensures !performed ==>
        sides == Put(old(sides), dst, SpendEvade(At(old(sides), dst))) && SameRecords() && rng == old(rng)
      decreases Rank(s.id), 3
    {
      if EvadesOn(sides, src, dst) {
        SpendEvadeAt(dst);
        return false;
      }
      PerformCooled(src, dst, s);
      performed := true;
    }

    /// The target at `dst` spends one evade.
    method SpendEvadeAt(dst: Loc)
      requires Valid() && ValidLoc(sides, dst)
      modifies this
      ensures Valid() && SameClock() && SameRecords() && rng == old(rng)
      ensures sides == Put(old(sides), dst, SpendEvade(At(old(sides), dst)))
      ensures SupportPrefix(old(queue), queue)
    {
      WellFormedAt(sides, dst);
      Store(dst, SpendEvade(At(sides, dst)));
      SupportPrefixRefl(queue);
    }

    /// A hostile skill that was not evaded: performed, then the caster's
    /// cooldown for it starts.
    method PerformCooled(src: Loc, dst: Loc, s: SkillSpec)
      requires Valid() && ValidLoc(sides, src) && ValidLoc(sides, dst) && dst.kind != Commander
      requires IsActivationHostileSkill(s.id)
      modifies this
      ensures Valid() && SameClock() && SameShape(old(sides), sides) && SupportPrefix(old(queue), queue)
      decreases Rank(s.id), 2
    {
      PerformHostile(src, dst, s);
      if s.c > 0 {
        SameShapeLocs(old(sides), sides);
        ghost var mid := sides;
        SetCooldown(src, Code(s.id), s.c);
        SameShapeTrans(old(sides), mid, sides);
      }
    }

    /// One target of the first pass of `perform_targetted_hostile_fast`:
    /// the attack the target lost under Turning Tides, and whether it will
    /// pay the skill back.
    method HostileStep(src: Loc, dst: Loc, s: SkillSpec, tt: bool) returns (drop: nat, pays: bool)
      requires Valid() && ValidLoc(sides, src) && ValidLoc(sides, dst) && dst.kind != Commander
      requires IsActivationHostileSkill(s.id)
      modifies this
      ensures Valid() && SameClock() && SameShape(old(sides), sides) && SupportPrefix(old(queue), queue)
      ensures pays ==> s.id != Mimic && src.kind == Assault
      ensures !tt ==> drop == 0
      decreases Rank(s.id), 4
    {
      var before := if tt then AttackPower(At(sides, dst)) else 0;
      var performed := HostileOn(src, dst, s);
      drop, pays := 0, false;
      if performed {
        SameShapeLocs(old(sides), sides);
        if tt {
          drop := SafeMinus(before, AttackPower(At(sides, dst)));
        }
        WellFormedAt(sides, dst);
        WellFormedAt(sides, src);
        pays := PaysBack(s.id, At(sides, dst), At(sides, src));
      }
    }

    /// The first pass of `perform_targetted_hostile_fast`: the skill on each
    /// target in turn.  It collects the targets that will pay the skill back
    /// and, under Turning Tides, the largest attack drop a target suffered.
    method HostileTargets(src: Loc, ts: seq<Loc>, s: SkillSpec, tt: bool)
      returns (ttValue: nat, paybackers: seq<Loc>)
      requires Valid() && ValidLoc(sides, src) && IsActivationHostileSkill(s.id)
      requires forall i :: 0 <= i < |ts| ==> ValidLoc(sides, ts[i]) && ts[i].kind != Commander
      modifies this
      ensures Valid() && SameClock() && SameShape(old(sides), sides) && SupportPrefix(old(queue), queue)
      ensures AllOn(old(sides), paybackers)
      ensures paybackers != [] ==> s.id != Mimic && src.kind == Assault
      ensures !tt ==> ttValue == 0
      decreases Rank(s.id), 5
    {
      ttValue, paybackers := 0, [];
      SupportPrefixRefl(queue);
      var k := 0;
      while k < |ts|
        invariant 0 <= k <= |ts|
        invariant Valid() && SameClock() && SameShape(old(sides), sides) && SupportPrefix(old(queue), queue)
        invariant AllOn(old(sides), paybackers)
        invariant paybackers != [] ==> s.id != Mimic && src.kind == Assault
        invariant !tt ==> ttValue == 0
      {
        SameShapeLoc(old(sides), sides, src);
        SameShapeLoc(old(sides), sides, ts[k]);
        ghost var mid, q := sides, queue;
        var drop, pays := HostileStep(src, ts[k], s, tt);
        SameShapeTrans(old(sides), mid, sides);
        SupportPrefixTrans(old(queue), q, queue);
        ttValue := if drop > ttValue then drop else ttValue;
        if pays {
          AllOnAppend(old(sides), paybackers, ts[k]);
          paybackers := paybackers + [ts[k]];
        }
        k := k + 1;
      }
    }

    /// Turning Tides: the commander of player `p` rallies its assaults by
    /// the attack the skill took away.
    method TurningTidesRally(p: nat, v: nat, all: bool)
      requires Valid() && p < 2
      modifies this
      ensures Valid() && SameClock() && SameRecords() && SameShape(old(sides), sides)
    {
      var _ := AlliedFast(Loc(p, Commander, 0), SkillSpec(Rally, v, AllFactions, 0, 0, NoSkill, NoSkill, all));
    }

    /// One strike back of the paybacker at `pb` on `dst`: skipped when the
    /// target fails the skill's predicate or is dead; otherwise the skill is
    /// performed, neither evadable nor starting a cooldown.  It reports the
    /// attack the target lost.
    method StrikeBack(pb: Loc, dst: Loc, s: SkillSpec) returns (did: bool, drop: nat)
      requires Valid() && ValidLoc(sides, pb) && ValidLoc(sides, dst) && dst.kind != Commander
      requires IsActivationHostileSkill(s.id) && s.id != Mimic
      modifies this
      ensures Valid() && SameClock() && SameShape(old(sides), sides) && SupportPrefix(old(queue), queue)
      ensures !did ==> sides == old(sides) && queue == old(queue) && rng == old(rng)
      decreases Rank(s.id), 2
    {
      var t := At(sides, dst);
      WellFormedAt(sides, dst);
      if !SkillPredicate(s.id, tapi, t, false, t, s, false) || !IsAlive(t) {
        SupportPrefixRefl(queue);
        return false, 0;
      }
      PerformHostile(pb, dst, s);
      SameShapeLocs(old(sides), sides);
      did, drop := true, SafeMinus(AttackPower(t), AttackPower(At(sides, dst)));
    }

    /// A paybacker whose strikes landed spends one payback; under Turning
    /// Tides the attack they took away, `v`, rallies its side.
    method SpendPayback(pb: Loc, v: nat)
      requires Valid() && ValidLoc(sides, pb)
      modifies this
      ensures Valid() && SameClock() && SameRecords() && SameShape(old(sides), sides)
    {
      WellFormedAt(sides, pb);
      Store(pb, UsePayback(At(sides, pb)));
      if v > 0 {
        ghost var mid := sides;
        TurningTidesRally(pb.player, v, false);
        SameShapeTrans(old(sides), mid, sides);
      }
    }

    /// Revenge: the paybacker strikes the caster and the living assaults
    /// beside it, and spends one use if any strike landed.
    method RevengeAll(src: Loc, pb: Loc, s: SkillSpec, tt: bool)
      requires Valid() && ValidLoc(sides, src) && ValidLoc(sides, pb) && src.kind == Assault
      requires IsActivationHostileSkill(s.id) && s.id != Mimic
      modifies this
      ensures Valid() && SameClock() && SameShape(old(sides), sides) && SupportPrefix(old(queue), queue)
      decreases Rank(s.id), 4
    {
      SupportPrefixRefl(queue);
      var count: nat, ttValue: nat := 0, 0;
      var c := 0;
      while c < 3
        invariant Valid() && SameClock() && SameShape(old(sides), sides) && SupportPrefix(old(queue), queue)
      {
        SameShapeLoc(old(sides), sides, src);
        SameShapeLoc(old(sides), sides, pb);
        ghost var mid, q := sides, queue;
        var did, drop := RevengeCase(src, pb, s, c);
        SameShapeTrans(old(sides), mid, sides);
        SupportPrefixTrans(old(queue), q, queue);
        if did {
          count, ttValue := count + 1, if drop > ttValue then drop else ttValue;
        }
        c := c + 1;
      }
      if count > 0 {
        SameShapeLocs(old(sides), sides);
        ghost var mid := sides;
        SpendPayback(pb, if tt then ttValue else 0);
        SameShapeTrans(old(sides), mid, sides);
      }
    }

    /// Case `c` of revenge: the strike on `RevengeTarget`, if there is one.
    method RevengeCase(src: Loc, pb: Loc, s: SkillSpec, c: nat) returns (did: bool, drop: nat)
      requires Valid() && ValidLoc(sides, src) && ValidLoc(sides, pb) && src.kind == Assault
      requires IsActivationHostileSkill(s.id) && s.id != Mimic
      modifies this
      ensures Valid() && SameClock() && SameShape(old(sides), sides) && SupportPrefix(old(queue), queue)
      decreases Rank(s.id), 3
    {
      var tgt := RevengeTarget(sides[src.player].assaults, src, c);
      if tgt.None? {
        SupportPrefixRefl(queue);
        return false, 0;
      }
      did, drop := StrikeBack(pb, tgt.value, s);
    }

    /// The payback or revenge of one paybacker on the caster at `src`: with
    /// revenge, `RevengeAll`; with payback alone, one strike on the caster,
    /// which spends one payback if it landed.
    method PaybackOne(src: Loc, pb: Loc, s: SkillSpec, tt: bool)
      requires Valid() && ValidLoc(sides, src) && ValidLoc(sides, pb) && src.kind == Assault
      requires IsActivationHostileSkill(s.id) && s.id != Mimic
      modifies this
      ensures Valid() && SameClock() && SameShape(old(sides), sides) && SupportPrefix(old(queue), queue)
      decreases Rank(s.id), 5
    {
      WellFormedAt(sides, pb);
      if SkillValue(At(sides, pb), Skills.Revenge) > 0 {
        RevengeAll(src, pb, s, tt);
      } else {
        var did, drop := StrikeBack(pb, src, s);
        if did {
          SameShapeLocs(old(sides), sides);
          ghost var mid := sides;
          SpendPayback(pb, if tt then drop else 0);
          SameShapeTrans(old(sides), mid, sides);
        }
      }
    }

    /// The second pass of `perform_targetted_hostile_fast`: each paybacker
    /// in turn strikes back.
    method PaybackAll(src: Loc, pbs: seq<Loc>, s: SkillSpec, tt: bool)
      requires Valid() && ValidLoc(sides, src) && (pbs != [] ==> src.kind == Assault)
      requires AllOn(sides, pbs)
      requires IsActivationHostileSkill(s.id) && (pbs != [] ==> s.id != Mimic)
      modifies this
      ensures Valid() && SameClock() && SameShape(old(sides), sides) && SupportPrefix(old(queue), queue)
      decreases Rank(s.id), 6
    {
      SupportPrefixRefl(queue);
      var k := 0;
      while k < |pbs|
        invariant 0 <= k <= |pbs|
        invariant Valid() && SameClock() && SameShape(old(sides), sides) && SupportPrefix(old(queue), queue)
      {
        SameShapeLocs(old(sides), sides);
        ghost var mid, q := sides, queue;
        PaybackOne(src, pbs[k], s, tt);
        SameShapeTrans(old(sides), mid, sides);
        SupportPrefixTrans(old(queue), q, queue);
        k := k + 1;
      }
    }

    /// `prepend_on_death`, seen from the skill queue: what it queues goes
    /// in front as support entries.
    method DeathSkills()
      requires Valid()
      modifies this
      ensures Valid() && SameClock() && SameShape(old(sides), sides) && SupportPrefix(old(queue), queue)
      ensures killed == []
    {
      RevengeEntriesPrefix(killed, bg, queue);
      PrependOnDeath();
    }

    /// The first half of `perform_targetted_hostile_fast`: the skill on each
    /// selected target, Turning Tides, then the death skills.  It returns
    /// the paybackers.
    method FirstPass(src: Loc, s: SkillSpec, tt: bool) returns (pbs: seq<Loc>)
      requires Valid() && ValidLoc(sides, src) && IsActivationHostileSkill(s.id)
      modifies this
      ensures Valid() && SameClock() && SameShape(old(sides), sides) && SupportPrefix(old(queue), queue)
      ensures AllOn(sides, pbs) && (pbs != [] ==> s.id != Mimic && src.kind == Assault)
      decreases Rank(s.id), 6
    {
      var targets := Targets(src, s);
      var ttValue;
      ttValue, pbs := HostileTargets(src, targets, s, tt);
      ghost var q1, b1 := queue, sides;
      if tt && ttValue > 0 {
        TurningTidesRally(src.player, ttValue, s.all);
      }
      SameShapeTrans(old(sides), b1, sides);
      ghost var b2 := sides;
      DeathSkills();
      SameShapeTrans(old(sides), b2, sides);
      SupportPrefixTrans(old(queue), q1, queue);
      AllOnSameShape(old(sides), sides, pbs);
    }

    /// `perform_targetted_hostile_fast`: the first pass over the selected
    /// targets, then payback and revenge, then the death skills again.
    method HostileFast(src: Loc, s: SkillSpec)
      requires Valid() && ValidLoc(sides, src) && IsActivationHostileSkill(s.id)
      modifies this
      ensures Valid() && SameClock() && SameShape(old(sides), sides) && SupportPrefix(old(queue), queue)
      ensures killed == []
      decreases Rank(s.id), 7
    {
      var tt := Bge.TurningTides in bg && s.id in {Weaken, Sunder};
      var pbs := FirstPass(src, s, tt);
      SameShapeLoc(old(sides), sides, src);
      ghost var q1, b1 := queue, sides;
      PaybackAll(src, pbs, s, tt);
      SameShapeTrans(old(sides), b1, sides);
      SupportPrefixTrans(old(queue), q1, queue);
      ghost var q2, b2 := queue, sides;
      DeathSkills();
      SameShapeTrans(old(sides), b2, sides);
      SupportPrefixTrans(old(queue), q2, queue);
    }

    /// The skill table's entry for the skill `s` of the unit at `src`.
    method Perform(src: Loc, s: SkillSpec)
      requires Valid() && ValidLoc(sides, src)
      modifies this
      ensures Valid() && SameClock() && SameShape(old(sides), sides) && SupportPrefix(old(queue), queue)
      ensures !IsActivationHostileSkill(s.id) ==> queue == old(queue)
      ensures old(killed) == [] ==> killed == []
      decreases Rank(s.id), 8
    {
      SupportPrefixRefl(queue);
      match HandlerOf(s.id)
      case Allied => var _ := AlliedFast(src, s);
      case Rushing => RushFast(src, s);
      case Hostile => HostileFast(src, s);
      case NoHandler =>
    }

    /// Takes the first entry off the skill queue.
    method Pop() returns (e: Entry)
      requires Valid() && queue != []
      modifies this
      ensures Valid() && SameClock() && sides == old(sides) && rng == old(rng)
      ensures e == old(queue)[0] && queue == old(queue)[1..] && ValidLoc(sides, e.0)
      ensures end == old(end) && killed == old(killed) && damagedTimes == old(damagedTimes)
    {
      e := queue[0];
      queue := queue[1..];
    }

    /// The queued skill `e`, unless its caster is dead or jammed or sabotage
    /// has zeroed its X, performed as the caster's evolve, sabotage and
    /// enhance modify it.  A support entry queues nothing.
    method ResolveEntry(e: Entry)
      requires Valid() && ValidLoc(sides, e.0)
      modifies this
      ensures Valid() && SameClock() && SameShape(old(sides), sides) && SupportPrefix(old(queue), queue)
      ensures IsSupport(e) ==> queue == old(queue)
      ensures old(Skips(At(sides, e.0)) || (ValidStatus(At(sides, e.0)) && Dropped(At(sides, e.0), e.1))) ==>
        sides == old(sides) && queue == old(queue) && rng == old(rng) && end == old(end) &&
        killed == old(killed) && damagedTimes == old(damagedTimes)
      ensures old(killed) == [] ==> killed == []
    {
      var st := At(sides, e.0);
      WellFormedAt(sides, e.0);
      if Skips(st) || Dropped(st, e.1) {
        SupportPrefixRefl(queue);
        return;
      }
      PerformEntry(e);
    }

    /// A queued skill that is neither skipped nor dropped: its caster
    /// performs it as `Modified` makes it.
    method PerformEntry(e: Entry)
      requires Valid() && ValidLoc(sides, e.0) && !Skips(At(sides, e.0))
      requires ValidStatus(At(sides, e.0)) && !Dropped(At(sides, e.0), e.1)
      modifies this
      ensures Valid() && SameClock() && SameShape(old(sides), sides) && SupportPrefix(old(queue), queue)
      ensures IsSupport(e) ==> queue == old(queue)
      ensures old(killed) == [] ==> killed == []
    {
      var st := At(sides, e.0);
      if IsSupport(e) {
        UnevolvedKeepsSkill(st, e.1);
      }
      Perform(e.0, Modified(st, e.1));
    }

    /// One round of `resolve_skill`: the first queued skill is taken off
    /// the queue and resolved.  Every round lowers the number of pending
    /// entries or, for a support entry, shortens the queue.
    method ResolveNext()
      requires Valid() && queue != []
      modifies this
      ensures Valid() && SameClock() && SameShape(old(sides), sides)
      ensures PendingCount(queue) < PendingCount(old(queue)) ||
        (PendingCount(queue) == PendingCount(old(queue)) && |queue| < |old(queue)|)
      ensures old(killed) == [] ==> killed == []
    {
      var e := Pop();
      ghost var q := queue;
      ResolveEntry(e);
      SupportPrefixKeepsPending(q, queue);
    }

    /// `resolve_skill`: rounds until the skill queue is empty.  It ends
    /// because only the death skills add entries, and those are support
    /// entries, which add none when they resolve.
    method ResolveSkill()
      requires Valid()
      modifies this
      ensures Valid() && SameClock() && SameShape(old(sides), sides) && queue == []
      ensures old(killed) == [] ==> killed == []
    {
      while queue != []
        invariant Valid() && SameClock() && SameShape(old(sides), sides)
        invariant old(killed) == [] ==> killed == []
        decreases PendingCount(queue), |queue|
      {
        ghost var mid := sides;
        ResolveNext();
        SameShapeTrans(old(sides), mid, sides);
      }
    }

    /// Replaces the board by one of the same shape that keeps both
    /// commanders' health.
    method SetBoard(b: seq<Side>)
      requires Valid() && WellFormed(b) && SameShape(sides, b)
      requires forall q :: 0 <= q < 2 ==> b[q].commander.hp == sides[q].commander.hp
      modifies this
      ensures Valid() && SameClock() && SameRecords() && rng == old(rng) && sides == b
    {
      SameShapeLocs(sides, b);
      sides := b;
    }

    /// `turn_start_phase`, proved against `TurnStarted`: afterwards every
    /// assault and structure knows its position.
    method TurnStart()
      requires Valid()
      modifies this
      ensures Valid() && SameClock() && SameRecords() && rng == old(rng)
      ensures sides == TurnStarted(old(sides), tapi)
      ensures Indexed(sides)
    {
      var p := tapi;
      var o := Opponent(p);
      StoragesValid(sides, p);
      WellFormedAt(sides, Loc(p, Commander, 0));
      var commander := CooldownSkills(sides[p].commander);
      var assaults := StartAssaults(sides[p].assaults, sides[o].assaults);
      var structures := StartStructures(sides[p].structures);
      var waitingAssaults := Reindex(sides[o].assaults);
      var waitingStructures := Reindex(sides[o].structures);
      TurnStartedBoard(sides, p);
      SetBoard(sides[p := Side(commander, assaults, structures, sides[p].totalCardsDestroyed)]
                    [o := sides[o].(assaults := waitingAssaults, structures := waitingStructures)]);
    }

    /// The waiting player's part of `turn_end_phase`, proved against
    /// `EndedInactive`.
    method EndInactive()
      requires Valid()
      modifies this
      ensures Valid() && SameClock() && SameRecords() && rng == old(rng)
      ensures sides == EndedInactive(old(sides), Opponent(tapi))
    {
      var o := Opponent(tapi);
      StoragesValid(sides, o);
      var assaults := EndDefenders(sides[o].assaults);
      var structures := EndStructures(sides[o].structures);
      EndedInactiveBoard(sides, o);
      SetBoard(sides[o := sides[o].(assaults := assaults, structures := structures)]);
    }

    /// The active assault at `l` ends its turn, proved against
    /// `AttackerEnded`: refresh through `add_hp`, poison through
    /// `remove_hp`, then the clearing.
    method EndAttacker(l: Loc)
      requires Valid() && ValidLoc(sides, l) && l.kind == Assault && phase == EndPhase
      modifies this
      ensures Valid() && SameClock() && rng == old(rng)
      ensures sides == AttackerEnded(old(sides), l, vipCards)
      ensures queue == old(queue) && damagedTimes == old(damagedTimes)
      ensures killed == old(killed) +
        if PoisonKills(At(old(sides), l)) then [l] else []
    {
      RefreshAt(l);
      ghost var s1 := sides;
      PoisonAt(l);
      SameShapeLoc(s1, sides, l);
      WellFormedAt(sides, l);
      Store(l, ClearAttacker(At(sides, l)));
    }

    /// Refresh: the assault at `l` heals its refresh value when it can be
    /// healed.
    method RefreshAt(l: Loc)
      requires Valid() && ValidLoc(sides, l) && l.kind == Assault
      modifies this
      ensures Valid() && SameClock() && SameRecords() && rng == old(rng)
      ensures sides == Put(old(sides), l, Refreshed(At(old(sides), l)))
    {
      WellFormedAt(sides, l);
      var st := At(sides, l);
      var v := SkillValue(st, Refresh);
      if v > 0 && CanBeHealed(st) {
        Store(l, AddHp(st, v));
      } else {
        PutSame(sides, l);
      }
    }

    /// Poison: the assault at `l` takes its poison damage through
    /// `remove_hp`, which does not count barrier hits at the end of a turn.
    method PoisonAt(l: Loc)
      requires Valid() && ValidLoc(sides, l) && l.kind == Assault && phase == EndPhase
      modifies this
      ensures Valid() && SameClock() && rng == old(rng)
      ensures sides == Hit(old(sides), l, PoisonDamage(At(old(sides), l)), vipCards)
      ensures queue == old(queue) && damagedTimes == old(damagedTimes)
      ensures killed == old(killed) + if Dies(old(sides), l, PoisonDamage(At(old(sides), l))) then [l] else []
    {
      var st := At(sides, l);
      if st.poisoned > 0 {
        var dmg := SafeMinus(st.poisoned + st.enfeebled, ProtectedValue(st));
        if dmg > 0 {
          RemoveHp(l, dmg);
        }
      }
    }

    /// The active player's assaults end their turn in storage order,
    /// proved against `ActiveEnded`; dead ones are passed over.
    method EndActive()
      requires Valid() && phase == EndPhase
      modifies this
      ensures Valid() && SameClock() && rng == old(rng)
      ensures sides == ActiveEnded(old(sides), tapi, |old(sides)[tapi].assaults|, vipCards)
      ensures queue == old(queue) && damagedTimes == old(damagedTimes)
    {
      var p := tapi;
      var n := |sides[p].assaults|;
      var i := 0;
      while i < n
        invariant 0 <= i <= n && Valid() && SameClock() && rng == old(rng)
        invariant sides == ActiveEnded(old(sides), p, i, vipCards)
        invariant queue == old(queue) && damagedTimes == old(damagedTimes)
      {
        EndActiveNext(old(sides), i);
        i := i + 1;
      }
    }

    /// The step of `EndActive` on the active player's assault `i`.
    method EndActiveNext(ghost sides0: seq<Side>, i: nat)
      requires Valid() && phase == EndPhase && WellFormed(sides0) && i < |sides0[tapi].assaults|
      requires sides == ActiveEnded(sides0, tapi, i, vipCards)
      modifies this
      ensures Valid() && SameClock() && rng == old(rng)
      ensures sides == ActiveEnded(sides0, tapi, i + 1, vipCards)
      ensures queue == old(queue) && damagedTimes == old(damagedTimes)
    {
      var l := Loc(tapi, Assault, i);
      SameShapeLoc(sides0, sides, l);
      if IsAlive(At(sides, l)) {
        EndAttacker(l);
      }
    }

    /// `remove_dead` on the four storages, proved against `Compacted`.
    method Compact()
      requires Valid() && killed == [] && queue == []
      modifies this
      ensures Valid() && SameClock() && SameRecords() && rng == old(rng)
      ensures sides == Compacted(old(sides)) && NoDead(sides)
    {
      CompactedWellFormed(sides);
      CompactedNoDead(sides);
      sides := Compacted(sides);
    }

    /// `turn_end_phase`: the waiting player's units, then the active
    /// player's assaults, end the turn; the death skills of whoever the
    /// poison killed are resolved; the dead leave the board.
    method TurnEnd()
      requires Valid() && phase == EndPhase
      modifies this
      ensures Valid() && SameClock() && queue == [] && killed == []
      ensures NoDead(sides)
    {
      EndInactive();
      EndActive();
      DeathSkills();
      ResolveSkill();
      Compact();
    }

    /// `prepend_on_death` followed by `resolve_skill`: the death skills of
    /// the units just killed are queued and resolved.
    method SettleDeaths()
      requires Valid() && queue == []
      modifies this
      ensures Valid() && SameClock() && SameShape(old(sides), sides) && killed == [] && queue == []
    {
      DeathSkills();
      ghost var mid := sides;
      ResolveSkill();
      SameShapeTrans(old(sides), mid, sides);
    }

    /// `attack_damage`: a commander loses the damage directly, which ends
    /// the battle at zero health; any other defender takes it through
    /// `remove_hp`, and the death skills it triggers are resolved.
    method DealDamage(def: Loc, dmg: nat)
      requires Valid() && ValidLoc(sides, def) && killed == [] && queue == []
      modifies this
      ensures Valid() && SameClock() && SameShape(old(sides), sides) && killed == [] && queue == []
      ensures def.kind == Commander ==> sides == Put(old(sides), def, LoseHp(At(old(sides), def), dmg))
      ensures def.kind == Commander ==> (end <==> old(end) || At(old(sides), def).hp <= dmg)
    {
      if def.kind == Commander {
        RemoveCommanderHp(def.player, dmg);
      } else {
        RemoveHp(def, dmg);
        ghost var mid := sides;
        SettleDeaths();
        SameShapeTrans(old(sides), mid, sides);
      }
    }

    /// Counterflux: under that battleground effect a living assault that
    /// countered heals and gains attack by a share of its counter value.
    method Counterflux(def: Loc)
      requires Valid() && ValidLoc(sides, def)
      modifies this
      ensures Valid() && SameClock() && SameRecords() && rng == old(rng)
      ensures sides == if def.kind == Assault && Bge.Counterflux in bg && IsAlive(At(old(sides), def))
        then Put(old(sides), def, CounterfluxGain(At(old(sides), def), BgValue(bg, Bge.Counterflux)))
        else old(sides)
    {
      if def.kind == Assault && Bge.Counterflux in bg && IsAlive(At(sides, def)) {
        WellFormedAt(sides, def);
        Store(def, CounterfluxGain(At(sides, def), BgValue(bg, Bge.Counterflux)));
      }
    }

    /// The counter blow: the attacker at `att` loses the counter damage of
    /// the defender at `def` through `remove_hp`, and the death skills are
    /// resolved.
    method TakeCounter(att: Loc, def: Loc)
      requires Valid() && ValidLoc(sides, att) && att.kind == Assault && ValidLoc(sides, def)
      requires killed == [] && queue == []
      modifies this
      ensures Valid() && SameClock() && SameShape(old(sides), sides) && killed == [] && queue == []
    {
      WellFormedAt(sides, def);
      RemoveHp(att, CounterDamage(At(sides, att), At(sides, def)));
      ghost var mid := sides;
      SettleDeaths();
      SameShapeTrans(old(sides), mid, sides);
    }

    /// Counter: the defender at `def` strikes the attacker at `att` back,
    /// and Counterflux may strengthen the defender.  It returns whether the
    /// attacker survived.
    method CounterStrike(att: Loc, def: Loc) returns (survived: bool)
      requires Valid() && ValidLoc(sides, att) && att.kind == Assault && ValidLoc(sides, def)
      requires killed == [] && queue == []
      modifies this
      ensures Valid() && SameClock() && SameShape(old(sides), sides) && killed == [] && queue == []
      ensures survived == IsAlive(At(sides, att))
    {
      TakeCounter(att, def);
      SameShapeLoc(old(sides), sides, def);
      SameShapeLoc(old(sides), sides, att);
      Counterflux(def);
      survived := IsAlive(At(sides, att));
    }

    /// `damage_dependant_pre_oa`: an assault defender takes the statuses
    /// that depend on having been hit.
    method MarkDefender(att: Loc, def: Loc)
      requires Valid() && ValidLoc(sides, att) && att.kind == Assault && ValidLoc(sides, def)
      requires att.player != def.player
      modifies this
      ensures Valid() && SameClock() && SameRecords() && SameShape(old(sides), sides)
      ensures sides == if def.kind == Assault
        then Put(old(sides), def, DamageDependent(At(old(sides), att), At(old(sides), def)))
        else old(sides)
    {
      if def.kind == Assault {
        WellFormedAt(sides, att);
        WellFormedAt(sides, def);
        Store(def, DamageDependent(At(sides, att), At(sides, def)));
      }
    }

    /// The defender's reaction to a hit: an assault defender takes the
    /// damage-dependent statuses, and a defender with counter strikes back.
    /// It returns whether the attacker is still standing.
    method Retaliate(att: Loc, def: Loc) returns (survived: bool)
      requires Valid() && ValidLoc(sides, att) && att.kind == Assault && ValidLoc(sides, def)
      requires att.player != def.player && killed == [] && queue == []
      modifies this
      ensures Valid() && SameClock() && SameShape(old(sides), sides) && killed == [] && queue == []
      ensures !survived ==> !IsAlive(At(sides, att))
    {
      MarkDefender(att, def);
      ghost var mid := sides;
      SameShapeLoc(old(sides), sides, att);
      SameShapeLoc(old(sides), sides, def);
      survived := true;
      if HasSkill(At(sides, def), Counter) {
        survived := CounterStrike(att, def);
        SameShapeTrans(old(sides), mid, sides);
      }
    }

    /// The aftermath of a hit for the attacker at `att`.
    method GainAftermath(att: Loc, def: Loc, dmg: nat)
      requires Valid() && ValidLoc(sides, att) && att.kind == Assault && ValidLoc(sides, def)
      modifies this
      ensures Valid() && SameClock() && SameRecords() && SameShape(old(sides), sides)
      ensures sides == Put(old(sides), att, Aftermath(At(old(sides), att), At(old(sides), def), def.kind, dmg, bg))
    {
      WellFormedAt(sides, att);
      WellFormedAt(sides, def);
      Store(att, Aftermath(At(sides, att), At(sides, def), def.kind, dmg, bg));
    }

    /// What follows a hit that did not end the battle: the defender's
    /// reaction, then the aftermath for an attacker that survived it.
    method AfterHit(att: Loc, def: Loc, dmg: nat)
      requires Valid() && ValidLoc(sides, att) && att.kind == Assault && ValidLoc(sides, def)
      requires att.player != def.player && killed == [] && queue == []
      modifies this
      ensures Valid() && SameClock() && SameShape(old(sides), sides) && killed == [] && queue == []
    {
      var survived := Retaliate(att, def);
      if survived {
        ghost var mid := sides;
        SameShapeLoc(old(sides), sides, att);
        SameShapeLoc(old(sides), sides, def);
        GainAftermath(att, def, dmg);
        SameShapeTrans(old(sides), mid, sides);
      }
    }

    /// The hit itself and what follows it, unless it ended the battle.
    method Land(att: Loc, def: Loc, dmg: nat)
      requires Valid() && ValidLoc(sides, att) && att.kind == Assault && ValidLoc(sides, def)
      requires att.player != def.player && killed == [] && queue == []
      modifies this
      ensures Valid() && SameClock() && SameShape(old(sides), sides) && killed == [] && queue == []
      ensures def.kind == Commander && dmg >= At(old(sides), def).hp ==> end
    {
      DealDamage(def, dmg);
      if end {
        return;
      }
      ghost var mid := sides;
      SameShapeLocs(old(sides), sides);
      AfterHit(att, def, dmg);
      SameShapeTrans(old(sides), mid, sides);
    }

    /// Brigade: after a powered attack the attacker heals by its brigade
    /// value, when that battleground effect is active.
    method BrigadeStep(att: Loc, env: AttackEnv)
      requires Valid() && ValidLoc(sides, att) && att.kind == Assault
      modifies this
      ensures Valid() && SameClock() && SameRecords() && SameShape(old(sides), sides)
      ensures sides == Put(old(sides), att, Brigaded(At(old(sides), att), env, Brigade in bg))
    {
      WellFormedAt(sides, att);
      Store(att, Brigaded(At(sides, att), env, Brigade in bg));
    }

    /// `PerformAttack::op`: one attack of the assault at `att` on `def`.  It
    /// returns the modified damage; an attack without power does nothing,
    /// and one whose damage is absorbed only lets Brigade heal the attacker.
    /// A hit of at least the defending commander's health ends the battle.
    method PerformAttack(att: Loc, def: Loc) returns (dmg: nat)
      requires Valid() && ValidLoc(sides, att) && att.kind == Assault && ValidLoc(sides, def)
      requires att.player != def.player && killed == [] && queue == []
      modifies this
      ensures Valid() && SameClock() && SameShape(old(sides), sides) && killed == [] && queue == []
      ensures dmg == ModifyAttackDamage(At(old(sides), att), At(old(sides), def), AttackPower(At(old(sides), att)),
                                        EnvAt(old(sides), att, def, bloodlustValue, Fortification in bg))
      ensures AttackPower(At(old(sides), att)) == 0 ==> sides == old(sides)
      ensures AttackPower(At(old(sides), att)) > 0 && dmg == 0 ==>
        sides == Put(old(sides), att, Brigaded(At(old(sides), att),
                     EnvAt(old(sides), att, def, bloodlustValue, Fortification in bg), Brigade in bg))
      ensures def.kind == Commander && dmg >= At(old(sides), def).hp ==> end
    {
      assert def.kind == Commander && At(sides, def).hp == 0 ==> end;
      WellFormedAt(sides, att);
      var a0, d0 := At(sides, att), At(sides, def);
      var env := EnvAt(sides, att, def, bloodlustValue, Fortification in bg);
      var pre := AttackPower(a0);
      dmg := ModifyAttackDamage(a0, d0, pre, env);
      if pre == 0 {
        return;
      }
      Powered(att, def, env, dmg);
    }

    /// A powered attack: Brigade heals the attacker, then a non-zero damage
    /// lands on the defender.
    method Powered(att: Loc, def: Loc, env: AttackEnv, dmg: nat)
      requires Valid() && ValidLoc(sides, att) && att.kind == Assault && ValidLoc(sides, def)
      requires att.player != def.player && killed == [] && queue == []
      modifies this
      ensures Valid() && SameClock() && SameShape(old(sides), sides) && killed == [] && queue == []
      ensures dmg == 0 ==> sides == Put(old(sides), att, Brigaded(At(old(sides), att), env, Brigade in bg))
      ensures def.kind == Commander && dmg > 0 && dmg >= At(old(sides), def).hp ==> end
    {
      ghost var d0 := At(sides, def);
      BrigadeStep(att, env);
      if dmg == 0 {
        return;
      }
      ghost var s1 := sides;
      SameShapeLoc(old(sides), sides, def);
      assert At(sides, def) == d0;
      Land(att, def, dmg);
      SameShapeTrans(old(sides), s1, sides);
    }

    /// The swipe loop: each of player `o`'s assaults at `adj`, in order,
    /// takes `d` through `remove_hp`; proved against `Swiped`.
    method SwipeAll(o: nat, adj: seq<nat>, d: nat)
      requires Valid() && o < 2 && forall k :: 0 <= k < |adj| ==> adj[k] < |sides[o].assaults|
      modifies this
      ensures Valid() && SameClock() && SameShape(old(sides), sides) && queue == old(queue)
      ensures sides == Swiped(old(sides), o, adj, d, vipCards)
    {
      var k := 0;
      while k < |adj|
        invariant 0 <= k <= |adj|
        invariant Valid() && SameClock() && SameShape(old(sides), sides) && queue == old(queue)
        invariant Swiped(sides, o, adj[k..], d, vipCards) == Swiped(old(sides), o, adj, d, vipCards)
      {
        ghost var before := sides;
        var l := Loc(o, Assault, adj[k]);
        RemoveHp(l, d);
        assert adj[k..][1..] == adj[k + 1..];
        SameShapeTrans(old(sides), before, sides);
        k := k + 1;
      }
    }

    /// Drain: the attacker at `att` heals the total damage it dealt.
    method DrainStep(att: Loc, drain: nat, total: nat)
      requires Valid() && ValidLoc(sides, att) && att.kind == Assault
      modifies this
      ensures Valid() && SameClock() && SameRecords() && SameShape(old(sides), sides)
      ensures sides == Put(old(sides), att, Drained(At(old(sides), att), drain, total))
    {
      WellFormedAt(sides, att);
      Store(att, Drained(At(sides, att), drain, total));
    }

    /// Swipe and drain after an attack on the assault at `def`: every
    /// living neighbour of the defender, within two places under Critical
    /// Reach and one otherwise, takes the swipe damage; drain heals the
    /// attacker by the attack's damage plus all the swipe damage; then the
    /// death skills are resolved.
    method SwipeAndDrain(att: Loc, def: Loc, dmg: nat)
      requires Valid() && ValidLoc(sides, att) && att.kind == Assault
      requires ValidLoc(sides, def) && def.kind == Assault && killed == [] && queue == []
      modifies this
      ensures Valid() && SameClock() && SameShape(old(sides), sides) && killed == [] && queue == []
    {
      WellFormedAt(sides, att);
      WellFormedAt(sides, def);
      var a := At(sides, att);
      var swipe, drain := SkillValue(a, Swipe), SkillValue(a, Drain);
      if swipe == 0 && drain == 0 {
        return;
      }
      SwipeThenDrain(att, def, dmg, swipe, drain);
      ghost var s2 := sides;
      SettleDeaths();
      SameShapeTrans(old(sides), s2, sides);
    }

    /// The swipe damage on the defender's living neighbours, then the
    /// attacker's drain of the total.
    method SwipeThenDrain(att: Loc, def: Loc, dmg: nat, swipe: nat, drain: nat)
      requires Valid() && ValidLoc(sides, att) && att.kind == Assault
      requires ValidLoc(sides, def) && def.kind == Assault && queue == []
      modifies this
      ensures Valid() && SameClock() && SameShape(old(sides), sides) && queue == []
    {
      var adj := AdjacentAssaults(sides[def.player].assaults, def.pos, Reach(bg));
      WellFormedAt(sides, def);
      var d := SwipeDamage(swipe, drain, At(sides, def));
      SwipeAll(def.player, adj, d);
      ghost var s1 := sides;
      SameShapeLoc(old(sides), sides, att);
      DrainStep(att, drain, DrainTotal(dmg, |adj|, d));
      SameShapeTrans(old(sides), s1, sides);
    }

    /// Bloodlust: the first damaging attack of an assault's action raises
    /// the Bloodlust bonus of the following attacks by the effect's value.
    method BloodlustStep(dmg: nat)
      requires Valid()
      modifies this
      ensures Valid() && SameRecords() && sides == old(sides) && rng == old(rng)
      ensures tapi == old(tapi) && turn == old(turn) && phase == old(phase) && stasisFactions == old(stasisFactions)
      ensures if dmg > 0 && !old(assaultBloodlusted) && Bge.Bloodlust in bg
        then assaultBloodlusted && bloodlustValue == old(bloodlustValue) + BgValue(bg, Bge.Bloodlust)
        else assaultBloodlusted == old(assaultBloodlusted) && bloodlustValue == old(bloodlustValue)
    {
      if dmg > 0 && !assaultBloodlusted && Bge.Bloodlust in bg {
        bloodlustValue := bloodlustValue + BgValue(bg, Bge.Bloodlust);
        assaultBloodlusted := true;
      }
    }

    /// `attack_phase`: the assault of the active player at `ci` attacks
    /// the target `AttackTarget` picks, followed by swipe and drain when
    /// that is an assault, and Bloodlust.  It attacks exactly when it has
    /// attack power, and changes nothing otherwise.
    method AttackPhase(ci: nat) returns (attacked: bool)
      requires Valid() && ci < |sides[tapi].assaults| && killed == [] && queue == []
      modifies this
      ensures Valid() && SameShape(old(sides), sides) && killed == [] && queue == []
      ensures tapi == old(tapi) && turn == old(turn) && phase == old(phase) && stasisFactions == old(stasisFactions)
      ensures attacked <==> AttackPower(At(old(sides), Loc(tapi, Assault, ci))) > 0
      ensures !attacked ==> sides == old(sides) && end == old(end)
      ensures old(assaultBloodlusted) ==> assaultBloodlusted && bloodlustValue == old(bloodlustValue)
      ensures bloodlustValue == old(bloodlustValue) +
        (if assaultBloodlusted && !old(assaultBloodlusted) then BgValue(bg, Bge.Bloodlust) else 0)
      ensures assaultBloodlusted && !old(assaultBloodlusted) ==> attacked && Bge.Bloodlust in bg
      ensures var att, def := Loc(tapi, Assault, ci), AttackTarget(old(sides), tapi, ci);
        attacked && def.kind == Commander &&
        ModifyAttackDamage(At(old(sides), att), At(old(sides), def), AttackPower(At(old(sides), att)),
                           EnvAt(old(sides), att, def, old(bloodlustValue), Fortification in bg)) >= At(old(sides), def).hp
        ==> end
    {
      var att := Loc(tapi, Assault, ci);
      if AttackPower(At(sides, att)) == 0 {
        return false;
      }
      var def := AttackTarget(sides, tapi, ci);
      var dmg := PerformAttack(att, def);
      if def.kind == Assault {
        ghost var s1 := sides;
        SameShapeLoc(old(sides), sides, att);
        SameShapeLoc(old(sides), sides, def);
        SwipeAndDrain(att, def, dmg);
        SameShapeTrans(old(sides), s1, sides);
      }
      BloodlustStep(dmg);
      attacked := true;
    }

    /// Queues the skill `ss` of the unit at `l` and resolves it.
    method Fire(l: Loc, ss: SkillSpec)
      requires Valid() && ValidLoc(sides, l) && killed == [] && queue == []
      modifies this
      ensures Valid() && SameClock() && SameShape(old(sides), sides) && killed == [] && queue == []
    {
      queue := [(l, ss)];
      ResolveSkill();
    }

    /// The skill loop of one action: each ready skill of `skills` is queued
    /// for the unit at `l` and resolved, until the battle ends.  A unit
    /// none of whose skills is ready changes nothing.
    method ActivateSkills(l: Loc, skills: seq<SkillSpec>)
      requires Valid() && ValidLoc(sides, l) && killed == [] && queue == []
      modifies this
      ensures Valid() && SameClock() && SameShape(old(sides), sides) && killed == [] && queue == []
      ensures (forall k :: 0 <= k < |skills| ==> !Ready(At(old(sides), l), skills[k])) ==>
        sides == old(sides) && end == old(end)
    {
      WellFormedAt(sides, l);
      var k := 0;
      while k < |skills|
        invariant 0 <= k <= |skills|
        invariant Valid() && SameClock() && SameShape(old(sides), sides) && killed == [] && queue == []
        invariant (forall j :: 0 <= j < k ==> !Ready(At(old(sides), l), skills[j])) ==>
          sides == old(sides) && end == old(end)
      {
        SameShapeLoc(old(sides), sides, l);
        WellFormedAt(sides, l);
        if Ready(At(sides, l), skills[k]) {
          ghost var mid := sides;
          Fire(l, skills[k]);
          SameShapeTrans(old(sides), mid, sides);
          if end {
            return;
          }
        }
        k := k + 1;
      }
    }

    /// Flurry's cooldown: every skill of the unit at `l` that evolved into
    /// flurry goes on its cooldown.
    method FlurryCooldown(l: Loc, skills: seq<SkillSpec>)
      requires Valid() && ValidLoc(sides, l)
      modifies this
      ensures Valid() && SameClock() && SameRecords() && SameShape(old(sides), sides)
      ensures sides == Put(old(sides), l, FlurryCooled(At(old(sides), l), skills))
    {
      WellFormedAt(sides, l);
      Store(l, FlurryCooled(At(sides, l), skills));
    }

    /// One action of the unit at `l`: its ready skills, then for an assault
    /// that can act the attack phase, then `finalize_action`.  `stop` is
    /// set when the action's first attack ended the battle, which skips the
    /// rest of the action.
    method Act(l: Loc, skills: seq<SkillSpec>, attackedBefore: bool) returns (attacked: bool, stop: bool)
      requires Valid() && ValidLoc(sides, l) && l.player == tapi && killed == [] && queue == []
      modifies this
      ensures Valid() && SameShape(old(sides), sides) && killed == [] && queue == []
      ensures tapi == old(tapi) && turn == old(turn) && phase == old(phase) && stasisFactions == old(stasisFactions)
      ensures attackedBefore ==> attacked
      ensures attacked ==> attackedBefore || l.kind == Assault
      ensures stop ==> end && attacked && !attackedBefore
    {
      PrepareAction();
      ActivateSkills(l, skills);
      attacked, stop := attackedBefore, false;
      SameShapeLoc(old(sides), sides, l);
      WellFormedAt(sides, l);
      if l.kind == Assault && CanAct(At(sides, l)) {
        ghost var mid := sides;
        var did := AttackPhase(l.pos);
        SameShapeTrans(old(sides), mid, sides);
        if did && !attacked {
          attacked := true;
          if end {
            stop := true;
            return;
          }
        }
      }
      ghost var pre := sides;
      FinalizeAction();
      FinalizedAt(pre, damagedTimes);
      SameShapeTrans(old(sides), pre, sides);
    }

    /// Flurry after an action: when it fires, the unit at `l` gains its
    /// flurry value in further actions and the skills that evolved into
    /// flurry start their cooldown.
    method FlurryStep(l: Loc, skills: seq<SkillSpec>) returns (extra: nat)
      requires Valid() && ValidLoc(sides, l) && l.player == tapi
      modifies this
      ensures Valid() && SameClock() && SameRecords() && SameShape(old(sides), sides)
      ensures var st := At(old(sides), l);
        && ValidStatus(st)
        && extra == (if FlurryFires(st, IsAlive(old(sides)[Opponent(tapi)].commander)) then SkillBaseValue(st, Flurry) else 0)
        && sides == if FlurryFires(st, IsAlive(old(sides)[Opponent(tapi)].commander))
                    then Put(old(sides), l, FlurryCooled(st, skills)) else old(sides)
    {
      WellFormedAt(sides, l);
      var st := At(sides, l);
      extra := 0;
      if FlurryFires(st, IsAlive(sides[Opponent(tapi)].commander)) {
        extra := SkillBaseValue(st, Flurry);
        FlurryCooldown(l, skills);
      }
    }

    /// `evaluate_skills`: the actions of the unit at `l`, one plus those
    /// Flurry grants, at most `fuel` of them.  An action whose first attack
    /// ends the battle is the last.  Only an assault attacks.
    method EvaluateSkills(l: Loc, skills: seq<SkillSpec>, fuel: nat) returns (attacked: bool)
      requires Valid() && ValidLoc(sides, l) && l.player == tapi && killed == [] && queue == []
      modifies this
      ensures Valid() && SameShape(old(sides), sides) && killed == [] && queue == []
      ensures tapi == old(tapi) && turn == old(turn) && phase == old(phase) && stasisFactions == old(stasisFactions)
      ensures attacked ==> l.kind == Assault
      ensures fuel == 0 ==> sides == old(sides) && !attacked
    {
      var actions, i := 1, 0;
      attacked := false;
      while i < actions && i < fuel
        invariant Valid() && SameShape(old(sides), sides) && killed == [] && queue == []
        invariant tapi == old(tapi) && turn == old(turn) && phase == old(phase) && stasisFactions == old(stasisFactions)
        invariant attacked ==> l.kind == Assault
        invariant i <= fuel && (i == 0 ==> sides == old(sides) && !attacked)
        decreases fuel - i
      {
        SameShapeLoc(old(sides), sides, l);
        ghost var s0 := sides;
        var stop;
        attacked, stop := Act(l, skills, attacked);
        SameShapeTrans(old(sides), s0, sides);
        if stop {
          return;
        }
        SameShapeLoc(old(sides), sides, l);
        ghost var s1 := sides;
        var extra := FlurryStep(l, skills);
        SameShapeTrans(old(sides), s1, sides);
        actions, i := actions + extra, i + 1;
      }
    }

    /// Halted Orders: an assault that is still waiting to be played out
    /// inhibits the living assault across from it up to its inhibit value.
    method HaltedOrders(ci: nat)
      requires Valid() && ci < |sides[tapi].assaults|
      modifies this
      ensures Valid() && SameClock() && SameRecords() && SameShape(old(sides), sides)
      ensures var st, o := At(old(sides), Loc(tapi, Assault, ci)), old(sides)[Opponent(tapi)].assaults;
        && ValidStatus(st)
        && sides == if Bge.HaltedOrders in bg && st.delay > 0 && ci < |o| && IsAlive(o[ci]) &&
                       SkillValue(st, Inhibit) > o[ci].inhibited
                    then Put(old(sides), Loc(Opponent(tapi), Assault, ci), o[ci].(inhibited := SkillValue(st, Inhibit)))
                    else old(sides)
    {
      var l := Loc(tapi, Assault, ci);
      WellFormedAt(sides, l);
      var st, o := At(sides, l), sides[Opponent(tapi)].assaults;
      if Bge.HaltedOrders in bg && st.delay > 0 && ci < |o| && IsAlive(o[ci]) && SkillValue(st, Inhibit) > o[ci].inhibited {
        var across := Loc(Opponent(tapi), Assault, ci);
        WellFormedAt(sides, across);
        Store(across, o[ci].(inhibited := SkillValue(st, Inhibit)));
      }
    }

    /// The end of an assault's turn: corrosion as `ActionEnded` says, and
    /// the assault has attacked.
    method EndAction(l: Loc, attacked: bool)
      requires Valid() && ValidLoc(sides, l) && l.kind == Assault
      modifies this
      ensures Valid() && SameClock() && SameRecords() && SameShape(old(sides), sides)
      ensures sides == Put(old(sides), l, ActionEnded(At(old(sides), l), attacked))
      ensures ValidLoc(sides, l) && At(sides, l).step == Attacked
    {
      WellFormedAt(sides, l);
      Store(l, ActionEnded(At(sides, l), attacked));
      assert At(sides, l) == ActionEnded(At(old(sides), l), attacked);
    }

    /// An active assault starts its action: it loses its stasis
    /// protection, starts attacking, and has not yet raised Bloodlust.
    method StartAction(l: Loc)
      requires Valid() && ValidLoc(sides, l) && l.kind == Assault
      modifies this
      ensures Valid() && SameRecords() && SameShape(old(sides), sides) && rng == old(rng) && !assaultBloodlusted
      ensures tapi == old(tapi) && turn == old(turn) && phase == old(phase) && stasisFactions == old(stasisFactions)
      ensures bloodlustValue == old(bloodlustValue)
      ensures sides == Put(old(sides), l, At(old(sides), l).(protectedStasis := 0, step := Attacking))
    {
      WellFormedAt(sides, l);
      Store(l, At(sides, l).(protectedStasis := 0, step := Attacking));
      assaultBloodlusted := false;
    }

    /// One assault's turn in the assaults phase: an inactive assault may
    /// apply Halted Orders, an active one acts; unless that ended the
    /// battle, corrosion follows and the assault has attacked.
    method AssaultTurn(ci: nat, fuel: nat)
      requires Valid() && ci < |sides[tapi].assaults| && killed == [] && queue == []
      modifies this
      ensures Valid() && SameShape(old(sides), sides) && killed == [] && queue == []
      ensures tapi == old(tapi) && turn == old(turn) && phase == old(phase) && stasisFactions == old(stasisFactions)
      ensures !end ==> At(sides, Loc(tapi, Assault, ci)).step == Attacked
      ensures !IsActive(At(old(sides), Loc(tapi, Assault, ci))) ==> end == old(end)
    {
      var l := Loc(tapi, Assault, ci);
      var attacked := false;
      if !IsActive(At(sides, l)) {
        HaltedOrders(ci);
      } else {
        attacked := ActiveAction(l, fuel);
        if end {
          return;
        }
      }
      SameShapeLoc(old(sides), sides, l);
      ghost var s2 := sides;
      EndAction(l, attacked);
      SameShapeTrans(old(sides), s2, sides);
    }

    /// The action of the active assault at `l`: it starts attacking and
    /// evaluates its skills; returns whether it attacked.
    method ActiveAction(l: Loc, fuel: nat) returns (attacked: bool)
      requires Valid() && ValidLoc(sides, l) && l.kind == Assault && l.player == tapi
      requires killed == [] && queue == []
      modifies this
      ensures Valid() && SameShape(old(sides), sides) && killed == [] && queue == []
      ensures tapi == old(tapi) && turn == old(turn) && phase == old(phase) && stasisFactions == old(stasisFactions)
    {
      WellFormedAt(sides, l);
      var skills := At(sides, l).card.skills;
      StartAction(l);
      ghost var s1 := sides;
      attacked := EvaluateSkills(l, skills, fuel);
      SameShapeTrans(old(sides), s1, sides);
    }

    /// One battleground skill of the active player: an action of its own
    /// in which the skill is cast by the active player's commander.
    method BgSkill(ss: SkillSpec)
      requires Valid() && killed == [] && queue == []
      modifies this
      ensures Valid() && SameClock() && SameShape(old(sides), sides) && killed == [] && queue == []
    {
      PrepareAction();
      Fire(Loc(tapi, Commander, 0), ss);
      ghost var pre := sides;
      FinalizeAction();
      FinalizedAt(pre, damagedTimes);
    }

    /// The active player's battleground skills, in order.
    method BgSkills()
      requires Valid() && killed == [] && queue == []
      modifies this
      ensures Valid() && SameClock() && SameShape(old(sides), sides) && killed == [] && queue == []
    {
      var skills := bgSkills[tapi];
      var k := 0;
      while k < |skills|
        invariant Valid() && SameClock() && SameShape(old(sides), sides) && killed == [] && queue == []
      {
        ghost var mid := sides;
        BgSkill(skills[k]);
        SameShapeTrans(old(sides), mid, sides);
        k := k + 1;
      }
    }

    /// Heroism on the active player's assault at `i`: half its valor,
    /// rounded up, as protection cast by the active player's commander; an
    /// inhibited assault loses one inhibit instead, and under Divert the
    /// protection then goes to a unit drawn on the waiting player's side.
    method HeroismOn(i: nat)
      requires Valid() && i < |sides[tapi].assaults|
      modifies this
      ensures Valid() && SameClock() && SameRecords() && SameShape(old(sides), sides)
      ensures var st := At(old(sides), Loc(tapi, Assault, i));
        ValidStatus(st) && SkillValue(st, Skills.Valor) == 0 ==> sides == old(sides)
    {
      var l := Loc(tapi, Assault, i);
      WellFormedAt(sides, l);
      var v := HalfUp(SkillValue(At(sides, l), Skills.Valor));
      if v == 0 {
        return;
      }
      HeroicProtect(l, SkillSpec(Protect, v, AllFactions, 0, 0, NoSkill, NoSkill, false));
    }

    /// The protection Heroism casts on the assault at `l`.
    method HeroicProtect(l: Loc, ss: SkillSpec)
      requires Valid() && ValidLoc(sides, l) && l.kind == Assault && ss.id == Protect
      modifies this
      ensures Valid() && SameClock() && SameRecords() && SameShape(old(sides), sides)
    {
      var stopped := AlliedOn(Loc(tapi, Commander, 0), l, ss, false);
      ghost var mid := sides;
      if stopped && Bge.Divert in bg {
        DivertOnce(Loc(tapi, Commander, 0), ss);
      }
      SameShapeTrans(old(sides), mid, sides);
    }

    /// The Heroism battleground effect over every assault of the active
    /// player.
    method HeroismPhase()
      requires Valid()
      modifies this
      ensures Valid() && SameClock() && SameRecords() && SameShape(old(sides), sides)
      ensures Bge.Heroism !in bg ==> sides == old(sides) && rng == old(rng)
    {
      if Bge.Heroism !in bg {
        return;
      }
      var i := 0;
      while i < |sides[tapi].assaults|
        invariant Valid() && SameClock() && SameRecords() && SameShape(old(sides), sides)
        decreases |sides[tapi].assaults| - i
      {
        ghost var mid := sides;
        HeroismOn(i);
        SameShapeTrans(old(sides), mid, sides);
        i := i + 1;
      }
    }

    /// The commander phase: the active player's commander acts.
    method EvaluateCommander(fuel: nat)
      requires Valid() && killed == [] && queue == []
      modifies this
      ensures Valid() && SameShape(old(sides), sides) && killed == [] && queue == []
      ensures tapi == old(tapi) && turn == old(turn) && phase == CommanderPhase && stasisFactions == old(stasisFactions)
    {
      phase := CommanderPhase;
      var l := Loc(tapi, Commander, 0);
      var _ := EvaluateSkills(l, sides[tapi].commander.card.skills, fuel);
    }

    /// The structures phase: each active structure of the active player
    /// acts in turn, until the battle ends.
    method EvaluateStructures(fuel: nat)
      requires Valid() && killed == [] && queue == []
      modifies this
      ensures Valid() && SameShape(old(sides), sides) && killed == [] && queue == []
      ensures tapi == old(tapi) && turn == old(turn) && phase == StructuresPhase && stasisFactions == old(stasisFactions)
    {
      phase := StructuresPhase;
      var ci := 0;
      while !end && ci < |sides[tapi].structures|
        invariant Valid() && SameShape(old(sides), sides) && killed == [] && queue == []
        invariant tapi == old(tapi) && turn == old(turn) && phase == StructuresPhase && stasisFactions == old(stasisFactions)
        decreases |sides[tapi].structures| - ci
      {
        var l := Loc(tapi, Structure, ci);
        WellFormedAt(sides, l);
        if IsActive(At(sides, l)) {
          ghost var mid := sides;
          var _ := EvaluateSkills(l, At(sides, l).card.skills, fuel);
          SameShapeTrans(old(sides), mid, sides);
        }
        ci := ci + 1;
      }
    }

    /// The assaults phase: Bloodlust starts from zero, and each assault of
    /// the active player takes its turn, until the battle ends.
    method EvaluateAssaults(fuel: nat)
      requires Valid() && killed == [] && queue == []
      modifies this
      ensures Valid() && SameShape(old(sides), sides) && killed == [] && queue == []
      ensures tapi == old(tapi) && turn == old(turn) && phase == AssaultsPhase && stasisFactions == old(stasisFactions)
    {
      phase := AssaultsPhase;
      bloodlustValue := 0;
      var ci := 0;
      while !end && ci < |sides[tapi].assaults|
        invariant Valid() && SameShape(old(sides), sides) && killed == [] && queue == []
        invariant tapi == old(tapi) && turn == old(turn) && phase == AssaultsPhase && stasisFactions == old(stasisFactions)
        decreases |sides[tapi].assaults| - ci
      {
        ghost var mid := sides;
        AssaultTurn(ci, fuel);
        SameShapeTrans(old(sides), mid, sides);
        ci := ci + 1;
      }
    }

    /// `PlayCard::op`: the active player puts `card` at the end of its
    /// assaults or structures, as `Placed` and `Added` say; the card is
    /// returned by its address.
    method PlayCard(card: Card) returns (l: Loc)
      requires Valid() && card.cardType != Commander && |card.skillValue| == NumSkills
      modifies this
      ensures Valid() && SameClock() && SameRecords() && rng == old(rng)
      ensures l == Loc(tapi, card.cardType, |StorageOf(old(sides)[tapi], card.cardType)|)
      ensures ValidLoc(sides, l)
      ensures sides == Added(old(sides), tapi, card.cardType,
        Placed(card, tapi, l.pos, old(sides)[Opponent(tapi)].assaults))
    {
      l := Loc(tapi, card.cardType, |StorageOf(sides[tapi], card.cardType)|);
      var st := Placed(card, tapi, l.pos, sides[Opponent(tapi)].assaults);
      var b := Added(sides, tapi, card.cardType, st);
      assert forall i :: 0 <= i < |killed| ==> ValidLoc(b, killed[i]);
      assert forall i :: 0 <= i < |queue| ==> ValidLoc(b, queue[i].0);
      sides := b;
    }

    /// Allegiance for a card of `faction` about to be played: every assault
    /// of the active player reacts as `Allegiant` says.
    method Allegiance(faction: nat)
      requires Valid()
      modifies this
      ensures Valid() && SameClock() && SameRecords() && rng == old(rng)
      ensures sides == WithAssaults(old(sides), tapi, AllegiantAll(old(sides)[tapi].assaults, faction))
    {
      var p := tapi;
      StoragesValid(sides, p);
      var a := AllegiantAll(sides[p].assaults, faction);
      assert forall i :: 0 <= i < |a| ==> Fits(a[i], Loc(p, Assault, i)) by {
        forall i | 0 <= i < |a|
          ensures Fits(a[i], Loc(p, Assault, i))
        {
          WellFormedAt(sides, Loc(p, Assault, i));
        }
      }
      SetAssaults(p, a);
    }

    /// The turn bookkeeping other than the stasis factions is unchanged.
    twostate predicate SameTurn()
      reads this
    {
      tapi == old(tapi) && turn == old(turn) && phase == old(phase) &&
      bloodlustValue == old(bloodlustValue) && assaultBloodlusted == old(assaultBloodlusted)
    }

    /// Replaces the active player's stasis factions by `f`.
    method SetStasisFactions(f: set<nat>)
      requires Valid()
      modifies this
      ensures Valid() && SameTurn() && SameRecords() && sides == old(sides) && rng == old(rng)
      ensures stasisFactions == old(stasisFactions)[tapi := f]
    {
      stasisFactions := stasisFactions[tapi := f];
    }

    /// Marks the faction of the card just played at `l` for stasis when
    /// the card has stasis, or counter under Temporal Backlash.
    method MarkStasis(l: Loc)
      requires Valid() && ValidLoc(sides, l)
      modifies this
      ensures Valid() && SameTurn() && SameRecords() && sides == old(sides) && rng == old(rng)
      ensures stasisFactions == old(stasisFactions)[tapi :=
        if MarksStasis(At(sides, l), TemporalBacklash in bg)
        then old(stasisFactions)[tapi] + {At(sides, l).faction}
        else old(stasisFactions)[tapi]]
    {
      WellFormedAt(sides, l);
      var st := At(sides, l);
      if MarksStasis(st, TemporalBacklash in bg) {
        SetStasisFactions(stasisFactions[tapi] + {st.faction});
      }
    }

    /// The stasis a delayed assault of a marked faction gets when it is
    /// played at `l`: everything its side stacks; a faction that stacks
    /// nothing is unmarked.
    method StackStasis(l: Loc) returns (stacked: nat)
      requires Valid() && ValidLoc(sides, l) && l.player == tapi && l.kind == Assault
      modifies this
      ensures Valid() && SameTurn() && SameRecords() && rng == old(rng)
      ensures stacked == StackedStasis(old(sides)[tapi], At(old(sides), l).faction, TemporalBacklash in bg)
      ensures sides == Put(old(sides), l, At(old(sides), l).(protectedStasis := stacked))
      ensures stasisFactions == old(stasisFactions)[tapi :=
        if stacked == 0 then old(stasisFactions)[tapi] - {At(old(sides), l).faction} else old(stasisFactions)[tapi]]
    {
      var st := At(sides, l);
      stacked := StackedFor(l);
      Store(l, st.(protectedStasis := stacked));
      Unmark(st.faction, stacked);
    }

    /// A faction that stacks nothing is no longer marked for stasis.
    method Unmark(faction: nat, stacked: nat)
      requires Valid()
      modifies this
      ensures Valid() && SameTurn() && SameRecords() && sides == old(sides) && rng == old(rng)
      ensures stasisFactions == old(stasisFactions)[tapi :=
        if stacked == 0 then old(stasisFactions)[tapi] - {faction} else old(stasisFactions)[tapi]]
    {
      if stacked == 0 {
        SetStasisFactions(stasisFactions[tapi] - {faction});
      }
    }

    /// What the active player's side stacks for the faction of the unit
    /// at `l`.
    method StackedFor(l: Loc) returns (stacked: nat)
      requires Valid() && ValidLoc(sides, l)
      ensures stacked == StackedStasis(sides[tapi], At(sides, l).faction, TemporalBacklash in bg)
    {
      WellFormedAt(sides, l);
      StoragesValid(sides, tapi);
      WellFormedAt(sides, Loc(tapi, Commander, 0));
      stacked := StackedStasis(sides[tapi], At(sides, l).faction, TemporalBacklash in bg);
    }

    /// A drawn card is played and Stasis is evaluated for it: its faction
    /// may be marked, and a delayed assault of a marked faction gets the
    /// stacked protection.
    method PlaceDrawn(card: Card) returns (l: Loc)
      requires Valid() && card.cardType != Commander && |card.skillValue| == NumSkills
      modifies this
      ensures Valid() && SameTurn() && SameRecords() && rng == old(rng)
      ensures l == Loc(tapi, card.cardType, |StorageOf(old(sides)[tapi], card.cardType)|)
      ensures ValidLoc(sides, l) && At(sides, l).card == card
    {
      l := PlayCard(card);
      MarkStasis(l);
      WellFormedAt(sides, l);
      var st := At(sides, l);
      if card.delay > 0 && card.cardType == Assault && st.faction in stasisFactions[tapi] {
        var _ := StackStasis(l);
      }
    }

    /// The play phase after the draw: Allegiance, then the card is played,
    /// then Stasis is evaluated for it.  The program asserts that a drawn
    /// card is never a commander.
    method PlayDrawn(drawn: Option<Card>)
      requires Valid()
      requires drawn.Some? ==> drawn.value.cardType != Commander && |drawn.value.skillValue| == NumSkills
      modifies this
      ensures Valid() && SameTurn() && SameRecords() && rng == old(rng)
      ensures drawn.None? ==> sides == old(sides) && stasisFactions == old(stasisFactions)
      ensures drawn.Some? ==>
        var l := Loc(tapi, drawn.value.cardType, |StorageOf(old(sides)[tapi], drawn.value.cardType)|);
        ValidLoc(sides, l) && At(sides, l).card == drawn.value
    {
      if drawn.None? {
        return;
      }
      var card := drawn.value;
      Allegiance(card.faction);
      var _ := PlaceDrawn(card);
    }

    /// One turn of `play` for the active player: the turn starts, the
    /// drawn card is played, the units act, and the turn ends.  A battle
    /// that ends before the structures phase stops the turn at once; one
    /// that ends in the structures or assaults phase still has its end
    /// phase.  Unless the battle ended, the other player becomes active and
    /// the turn counter advances.
    method Turn(drawn: Option<Card>, fuel: nat)
      requires Valid() && !end && killed == [] && queue == []
      requires drawn.Some? ==> drawn.value.cardType != Commander && |drawn.value.skillValue| == NumSkills
      modifies this
      ensures Valid() && killed == [] && queue == []
      ensures !end ==> tapi == Opponent(old(tapi)) && turn == old(turn) + 1
      ensures end ==> tapi == old(tapi) && turn == old(turn)
      ensures phase == EndPhase || (end && (phase == PlaycardPhase || phase == CommanderPhase))
      ensures phase == EndPhase ==> NoDead(sides)
    {
      StartTurn(drawn);
      if end {
        return;
      }
      var stopped := Actions(fuel);
      if stopped {
        return;
      }
      FinishTurn();
    }

    /// The play-card phase: the turn starts and the drawn card is played.
    method StartTurn(drawn: Option<Card>)
      requires Valid() && killed == [] && queue == []
      requires drawn.Some? ==> drawn.value.cardType != Commander && |drawn.value.skillValue| == NumSkills
      modifies this
      ensures Valid() && killed == [] && queue == [] && tapi == old(tapi) && turn == old(turn)
      ensures phase == PlaycardPhase
    {
      phase := PlaycardPhase;
      TurnStart();
      PlayDrawn(drawn);
    }

    /// Heroism, the battleground skills, then the commander, the
    /// structures and the assaults of the active player act.  `stopped`
    /// tells that the battle ended before the structures phase, which skips
    /// the rest of the turn; the structures and assaults phases only stop
    /// their loops, and the assaults phase is then the current one.
    method Actions(fuel: nat) returns (stopped: bool)
      requires Valid() && killed == [] && queue == []
      modifies this
      ensures Valid() && killed == [] && queue == [] && tapi == old(tapi) && turn == old(turn)
      ensures stopped ==> end && (phase == old(phase) || phase == CommanderPhase)
      ensures !stopped ==> phase == AssaultsPhase
    {
      HeroismPhase();
      BgSkills();
      if end {
        return true;
      }
      EvaluateCommander(fuel);
      if end {
        return true;
      }
      EvaluateStructures(fuel);
      EvaluateAssaults(fuel);
      stopped := false;
    }

    /// The end phase; unless the battle ended in it, the other player
    /// becomes active and the turn counter advances.
    method FinishTurn()
      requires Valid() && killed == [] && queue == []
      modifies this
      ensures Valid() && killed == [] && queue == [] && phase == EndPhase && NoDead(sides)
      ensures !end ==> tapi == Opponent(old(tapi)) && turn == old(turn) + 1
      ensures end ==> tapi == old(tapi) && turn == old(turn)
    {
      phase := EndPhase;
      TurnEnd();
      if end {
        return;
      }
      tapi := Opponent(tapi);
      turn := turn + 1;
    }

    /// The fortresses: each player in turn, starting with the active one,
    /// puts its fortress cards into its structures.
    method PlayFortresses(forts: seq<seq<Card>>)
      requires Valid() && |forts| == 2
      requires forall p, k :: 0 <= p < 2 && 0 <= k < |forts[p]| ==>
        forts[p][k].cardType == Structure && |forts[p][k].skillValue| == NumSkills
      modifies this
      ensures Valid() && SameClock() && SameRecords() && rng == old(rng)
      ensures forall p :: 0 <= p < 2 ==>
        |sides[p].structures| == |old(sides)[p].structures| + |forts[p]| &&
        |sides[p].assaults| == |old(sides)[p].assaults|
    {
      var round := 0;
      while round < 2
        invariant round <= 2 && Valid() && SameRecords() && rng == old(rng)
        invariant turn == old(turn) && phase == old(phase) && stasisFactions == old(stasisFactions)
        invariant bloodlustValue == old(bloodlustValue) && assaultBloodlusted == old(assaultBloodlusted)
        invariant tapi == if round == 1 then Opponent(old(tapi)) else old(tapi)
        invariant forall p :: 0 <= p < 2 ==> |sides[p].assaults| == |old(sides)[p].assaults|
        invariant forall p :: 0 <= p < 2 ==>
          |sides[p].structures| == |old(sides)[p].structures| +
            (if round == 2 || (round == 1 && p == old(tapi)) then |forts[p]| else 0)
      {
        FortressRound(forts);
        round := round + 1;
      }
    }

    /// The active player's fortress cards are played, then the other
    /// player becomes active.
    method FortressRound(forts: seq<seq<Card>>)
      requires Valid() && |forts| == 2
      requires forall p, k :: 0 <= p < 2 && 0 <= k < |forts[p]| ==>
        forts[p][k].cardType == Structure && |forts[p][k].skillValue| == NumSkills
      modifies this
      ensures Valid() && SameRecords() && rng == old(rng) && tapi == Opponent(old(tapi))
      ensures turn == old(turn) && phase == old(phase) && stasisFactions == old(stasisFactions)
      ensures bloodlustValue == old(bloodlustValue) && assaultBloodlusted == old(assaultBloodlusted)
      ensures forall p :: 0 <= p < 2 ==>
        |sides[p].assaults| == |old(sides)[p].assaults| &&
        |sides[p].structures| == |old(sides)[p].structures| + (if p == old(tapi) then |forts[p]| else 0)
    {
      PlayFortsOf(forts[tapi]);
      tapi := Opponent(tapi);
    }

    /// The active player's fortress cards, in order.
    method PlayFortsOf(cards: seq<Card>)
      requires Valid()
      requires forall k :: 0 <= k < |cards| ==> cards[k].cardType == Structure && |cards[k].skillValue| == NumSkills
      modifies this
      ensures Valid() && SameClock() && SameRecords() && rng == old(rng)
      ensures |sides[tapi].structures| == |old(sides)[tapi].structures| + |cards|
      ensures forall p :: 0 <= p < 2 ==> |sides[p].assaults| == |old(sides)[p].assaults|
      ensures |sides[Opponent(tapi)].structures| == |old(sides)[Opponent(tapi)].structures|
    {
      var k := 0;
      while k < |cards|
        invariant k <= |cards| && Valid() && SameClock() && SameRecords() && rng == old(rng)
        invariant |sides[tapi].structures| == |old(sides)[tapi].structures| + k
        invariant forall p :: 0 <= p < 2 ==> |sides[p].assaults| == |old(sides)[p].assaults|
        invariant |sides[Opponent(tapi)].structures| == |old(sides)[Opponent(tapi)].structures|
      {
        var _ := PlayCard(cards[k]);
        k := k + 1;
      }
    }

    /// `play`: the active player is player 1 in surge mode and player 0
    /// otherwise; the fortresses are played, then turns alternate until a
    /// commander dies or the turn limit is passed.  `draws[t - 1]` is the
    /// card drawn in turn `t`; past its end nothing is drawn.
    method Play(surge: bool, forts: seq<seq<Card>>, draws: seq<Option<Card>>, turnLimit: nat, fuel: nat)
      requires Valid() && !end && killed == [] && queue == [] && turn == 1
      requires |forts| == 2
      requires forall p, k :: 0 <= p < 2 && 0 <= k < |forts[p]| ==>
        forts[p][k].cardType == Structure && |forts[p][k].skillValue| == NumSkills
      requires forall t :: 0 <= t < |draws| && draws[t].Some? ==>
        draws[t].value.cardType != Commander && |draws[t].value.skillValue| == NumSkills
      modifies this
      ensures Valid() && killed == [] && queue == []
      ensures end || turn > turnLimit
      ensures turn <= turnLimit + 1
      ensures end <==> !IsAlive(sides[0].commander) || !IsAlive(sides[1].commander)
    {
      tapi := if surge then 1 else 0;
      PlayFortresses(forts);
      while turn <= turnLimit && !end
        invariant Valid() && killed == [] && queue == [] && 1 <= turn <= turnLimit + 1
        decreases turnLimit + 1 - turn, if end then 0 else 1
      {
        var drawn := if turn - 1 < |draws| then draws[turn - 1] else None;
        Turn(drawn, fuel);
      }
    }

    /// The result `play` returns for a finished battle, scored for `mode`:
    /// lost exactly when player 0's commander is dead.
    method Result(mode: Mode, decks: seq<DeckCounts>, turnLimit: nat, maxScore: nat, minScore: nat)
      returns (r: Results)
      requires Valid() && |decks| == 2 && (end || turn > turnLimit)
      requires mode == Raid ==> sides[1].commander.maxHp > 0
      ensures r == Outcome(mode, sides, decks, turn, turnLimit, maxScore, minScore)
      ensures r.losses == 1 <==> sides[0].commander.hp == 0
      ensures r.wins + r.draws + r.losses == 1
    {
      r := Outcome(mode, sides, decks, turn, turnLimit, maxScore, minScore);
    }
  }
}
