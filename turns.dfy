/// The start and the end of a turn (`turn_start_phase`, `turn_end_phase`)
/// as functions of the board, and the loops that compute them storage by
/// storage.
module Turns {
  import opened Arith
  import opened Skills
  import opened Cards
  import opened Board
  import opened Targeting
  import opened Handlers
  import opened Effects

  /// An assault of the active player, at position `i`, at the start of its
  /// owner's turn: it learns its position; a card still waiting counts its
  /// delay down and, on reaching zero, tries valor against the enemy
  /// assault across from it in `blockers`; a card already in play cools
  /// its skills down.
  function StartAssault(st: Status, i: nat, blockers: seq<Status>): (r: Status)
    requires ValidStatus(st)
    ensures ValidStatus(r) && r.index == i
    ensures r.card == st.card && r.player == st.player && r.hp == st.hp
    ensures r.primaryOffset == st.primaryOffset && r.evolvedOffset == st.evolvedOffset
    ensures st.delay > 0 ==> r.delay + 1 == st.delay && r.skillCd == st.skillCd
    ensures st.delay > 1 ==> r == st.(index := i, delay := st.delay - 1)
    ensures st.delay == 1 ==> r.attack >= st.attack && r == st.(index := i, delay := 0, attack := r.attack)
    ensures st.delay == 0 ==> r == CooledDown(st).(index := i)
  {
    var s := st.(index := i);
    if s.delay > 0 then
      var d := s.(delay := s.delay - 1);
      if d.delay == 0 then Handlers.Valor(d, blockers) else d
    else CooledDown(s)
  }

  /// A structure of the active player at the start of its owner's turn:
  /// as an assault, without valor.
  function StartStructure(st: Status, i: nat): (r: Status)
    requires ValidStatus(st)
    ensures ValidStatus(r) && r.index == i
    ensures st.delay > 0 ==> r == st.(index := i, delay := st.delay - 1)
    ensures st.delay == 0 ==> r == CooledDown(st).(index := i)
  {
    var s := st.(index := i);
    if s.delay > 0 then s.(delay := s.delay - 1) else CooledDown(s)
  }

  /// The active player's assaults at the start of its turn.
  function StartedAssaults(a: seq<Status>, blockers: seq<Status>): (r: seq<Status>)
    requires AllValid(a)
    ensures |r| == |a|
  {
    seq(|a|, i requires 0 <= i < |a| && AllValid(a) => StartAssault(a[i], i, blockers))
  }

  /// The active player's structures at the start of its turn.
  function StartedStructures(s: seq<Status>): (r: seq<Status>)
    requires AllValid(s)
    ensures |r| == |s|
  {
    seq(|s|, i requires 0 <= i < |s| && AllValid(s) => StartStructure(s[i], i))
  }

  /// A storage whose statuses have learnt their positions.
  function Reindexed(s: seq<Status>): (r: seq<Status>)
    ensures |r| == |s|
  {
    seq(|s|, i requires 0 <= i < |s| => s[i].(index := i))
  }

  /// The board after `turn_start_phase` with `p` to play: `p`'s commander
  /// cools down, `p`'s assaults and structures start their turn, and the
  /// other player's units only learn their positions.
  function TurnStarted(sides: seq<Side>, p: nat): (r: seq<Side>)
    requires WellFormed(sides) && p < 2
  {
    var o := Opponent(p);
    var side := sides[p];
    var other := sides[o];
    var started := Side(CooledDown(side.commander), StartedAssaults(side.assaults, other.assaults),
                        StartedStructures(side.structures), side.totalCardsDestroyed);
    sides[p := started][o := other.(assaults := Reindexed(other.assaults),
                                    structures := Reindexed(other.structures))]
  }

  /// Every storage of a well-formed board holds valid statuses.
  lemma StoragesValid(sides: seq<Side>, p: nat)
    requires WellFormed(sides) && p < 2
    ensures AllValid(sides[p].assaults) && AllValid(sides[p].structures)
  {
    assert forall i :: 0 <= i < |sides[p].assaults| ==> Fits(sides[p].assaults[i], Loc(p, Assault, i));
    assert forall i :: 0 <= i < |sides[p].structures| ==> Fits(sides[p].structures[i], Loc(p, Structure, i));
  }

  /// The start of a turn at one address: the unit still fits there,
  /// knows its position, keeps its card and health, and a unit of the
  /// waiting player changes in nothing but its position.
  lemma TurnStartedAt(sides: seq<Side>, p: nat, m: Loc)
    requires WellFormed(sides) && p < 2 && ValidLoc(sides, m)
    ensures ValidLoc(TurnStarted(sides, p), m) && Fits(At(TurnStarted(sides, p), m), m)
    ensures m.kind != Commander ==> At(TurnStarted(sides, p), m).index == m.pos
    ensures At(TurnStarted(sides, p), m).hp == At(sides, m).hp
    ensures At(TurnStarted(sides, p), m).card == At(sides, m).card
    ensures m.player != p ==>
      At(TurnStarted(sides, p), m) == if m.kind == Commander then At(sides, m) else At(sides, m).(index := m.pos)
  {
    if m.player == p {
      TurnStartedActive(sides, p, m);
    } else {
      TurnStartedWaiting(sides, p, m);
    }
  }

  /// `TurnStartedAt` for a unit of the active player.
  lemma TurnStartedActive(sides: seq<Side>, p: nat, m: Loc)
    requires WellFormed(sides) && p < 2 && ValidLoc(sides, m) && m.player == p
    ensures ValidLoc(TurnStarted(sides, p), m) && Fits(At(TurnStarted(sides, p), m), m)
    ensures m.kind != Commander ==> At(TurnStarted(sides, p), m).index == m.pos
    ensures At(TurnStarted(sides, p), m).hp == At(sides, m).hp
    ensures At(TurnStarted(sides, p), m).card == At(sides, m).card
  {
    var r := TurnStarted(sides, p);
    var o := Opponent(p);
    StoragesValid(sides, p);
    WellFormedAt(sides, m);
    assert r[p].commander == CooledDown(sides[p].commander);
    match m.kind
    case Commander =>
    case Assault =>
      assert At(r, m) == StartAssault(sides[p].assaults[m.pos], m.pos, sides[o].assaults);
    case Structure =>
      assert At(r, m) == StartStructure(sides[p].structures[m.pos], m.pos);
  }

  /// `TurnStartedAt` for a unit of the waiting player.
  lemma TurnStartedWaiting(sides: seq<Side>, p: nat, m: Loc)
    requires WellFormed(sides) && p < 2 && ValidLoc(sides, m) && m.player != p
    ensures ValidLoc(TurnStarted(sides, p), m) && Fits(At(TurnStarted(sides, p), m), m)
    ensures At(TurnStarted(sides, p), m) == if m.kind == Commander then At(sides, m) else At(sides, m).(index := m.pos)
  {
    WellFormedAt(sides, m);
    assert m.player == Opponent(p);
  }

  /// What the start of a turn does to the board: it stays well formed and
  /// of the same shape, every unit learns its position, nobody gains or
  /// loses health, the destroyed counts stay, and the waiting player's
  /// units change in nothing but their positions.
  lemma TurnStartedBoard(sides: seq<Side>, p: nat)
    requires WellFormed(sides) && p < 2
    ensures WellFormed(TurnStarted(sides, p)) && SameShape(sides, TurnStarted(sides, p))
    ensures Indexed(TurnStarted(sides, p))
    ensures forall m :: ValidLoc(sides, m) ==>
      At(TurnStarted(sides, p), m).hp == At(sides, m).hp &&
      At(TurnStarted(sides, p), m).card == At(sides, m).card
    ensures forall m :: ValidLoc(sides, m) && m.player != p ==>
      At(TurnStarted(sides, p), m) == if m.kind == Commander then At(sides, m) else At(sides, m).(index := m.pos)
    ensures forall q :: 0 <= q < 2 ==>
      TurnStarted(sides, p)[q].commander.hp == sides[q].commander.hp &&
      TurnStarted(sides, p)[q].totalCardsDestroyed == sides[q].totalCardsDestroyed
  {
    var r := TurnStarted(sides, p);
    forall m | ValidLoc(sides, m)
      ensures ValidLoc(r, m) && Fits(At(r, m), m) && (m.kind != Commander ==> At(r, m).index == m.pos)
      ensures At(r, m).hp == At(sides, m).hp && At(r, m).card == At(sides, m).card
      ensures m.player != p ==>
        At(r, m) == if m.kind == Commander then At(sides, m) else At(sides, m).(index := m.pos)
    {
      TurnStartedAt(sides, p, m);
    }
    assert SameShape(sides, r);
    SameShapeLocs(sides, r);
    FitsWellFormed(r);
    forall q | 0 <= q < 2
      ensures r[q].commander.hp == sides[q].commander.hp
    {
      assert At(r, Loc(q, Commander, 0)) == r[q].commander;
      assert At(sides, Loc(q, Commander, 0)) == sides[q].commander;
    }
  }

  /// An assault of the waiting player at the end of the turn: a living one
  /// loses the marks that last until the end of the enemy turn (enfeeble,
  /// protection, evolve and enhance, evade and payback uses); a dead one is
  /// left as it is.
  function EndDefender(st: Status): (r: Status)
    requires ValidStatus(st)
    ensures ValidStatus(r) && r.card == st.card && r.player == st.player && r.index == st.index
    ensures r.hp == st.hp && r.attack == st.attack && r.delay == st.delay
    ensures r.poisoned == st.poisoned && r.skillCd == st.skillCd && r.jammed == st.jammed
    ensures IsAlive(st) ==> r.enfeebled == 0 && r.protected == 0 && r.evaded == 0 && r.paybacked == 0
    ensures IsAlive(st) ==> forall t :: Slot(r, t) == Code(t) && Enhanced(r, t) == 0
    ensures !IsAlive(st) ==> r == st
  {
    if IsAlive(st) then ClearDefender(st) else st
  }

  /// A structure of the waiting player at the end of the turn: a living
  /// one may evade again.
  function EndStructure(st: Status): (r: Status)
    ensures r == st.(evaded := r.evaded)
    ensures r.evaded == if IsAlive(st) then 0 else st.evaded
  {
    if IsAlive(st) then st.(evaded := 0) else st
  }

  /// The waiting player's assaults at the end of the turn.
  function EndedDefenders(a: seq<Status>): (r: seq<Status>)
    requires AllValid(a)
    ensures |r| == |a|
  {
    seq(|a|, i requires 0 <= i < |a| && AllValid(a) => EndDefender(a[i]))
  }

  /// The waiting player's structures at the end of the turn.
  function EndedStructures(s: seq<Status>): (r: seq<Status>)
    ensures |r| == |s|
  {
    seq(|s|, i requires 0 <= i < |s| => EndStructure(s[i]))
  }

  /// The board after the waiting player `o`'s units end the turn.
  function EndedInactive(sides: seq<Side>, o: nat): (r: seq<Side>)
    requires WellFormed(sides) && o < 2
  {
    StoragesValid(sides, o);
    sides[o := sides[o].(assaults := EndedDefenders(sides[o].assaults),
                         structures := EndedStructures(sides[o].structures))]
  }

  /// The end of the turn for the waiting player `o` keeps the board well
  /// formed and of the same shape, changes nobody's health, card or
  /// position, and leaves the commanders and the other player's units
  /// alone.
  lemma EndedInactiveBoard(sides: seq<Side>, o: nat)
    requires WellFormed(sides) && o < 2
    ensures WellFormed(EndedInactive(sides, o)) && SameShape(sides, EndedInactive(sides, o))
    ensures forall m :: ValidLoc(sides, m) ==>
      At(EndedInactive(sides, o), m).hp == At(sides, m).hp &&
      At(EndedInactive(sides, o), m).card == At(sides, m).card &&
      At(EndedInactive(sides, o), m).index == At(sides, m).index
    ensures forall m :: ValidLoc(sides, m) && (m.player != o || m.kind == Commander) ==>
      At(EndedInactive(sides, o), m) == At(sides, m)
    ensures forall q :: 0 <= q < 2 ==>
      EndedInactive(sides, o)[q].commander == sides[q].commander &&
      EndedInactive(sides, o)[q].totalCardsDestroyed == sides[q].totalCardsDestroyed
  {
    var r := EndedInactive(sides, o);
    StoragesValid(sides, o);
    forall m | ValidLoc(sides, m)
      ensures ValidLoc(r, m) && Fits(At(r, m), m)
      ensures At(r, m).hp == At(sides, m).hp && At(r, m).card == At(sides, m).card
      ensures At(r, m).index == At(sides, m).index
      ensures m.player != o || m.kind == Commander ==> At(r, m) == At(sides, m)
    {
      WellFormedAt(sides, m);
      if m.player == o && m.kind == Assault {
        assert At(r, m) == EndDefender(sides[o].assaults[m.pos]);
      } else if m.player == o && m.kind == Structure {
        assert At(r, m) == EndStructure(sides[o].structures[m.pos]);
      }
    }
    SameShapeLocs(sides, r);
  }

  /// The refresh of a living active assault at the end of its turn: it
  /// heals its refresh value, up to its maximum health, when it can be
  /// healed.
  function Refreshed(st: Status): (r: Status)
    requires ValidStatus(st)
    ensures ValidStatus(r) && r == st.(hp := r.hp)
    ensures st.hp <= r.hp <= r.maxHp
    ensures r.hp > st.hp <==> SkillValue(st, Refresh) > 0 && CanBeHealed(st)
    ensures r.hp > st.hp ==> r.hp == Min(st.hp + SkillValue(st, Refresh), st.maxHp)
  {
    var v := SkillValue(st, Refresh);
    if v > 0 && CanBeHealed(st) then AddHp(st, v) else st
  }

  /// The poison damage an active assault takes at the end of its turn:
  /// its poison plus its enfeeblement, less its protection, when it is
  /// poisoned at all.
  function PoisonDamage(st: Status): (r: nat)
    ensures r > 0 ==> st.poisoned > 0
    ensures r <= st.poisoned + st.enfeebled
    ensures st.poisoned > 0 ==> r + ProtectedValue(st) >= st.poisoned + st.enfeebled
    ensures st.poisoned > 0 && ProtectedValue(st) <= st.poisoned + st.enfeebled ==>
      r + ProtectedValue(st) == st.poisoned + st.enfeebled
  {
    if st.poisoned > 0 then SafeMinus(st.poisoned + st.enfeebled, ProtectedValue(st)) else 0
  }

  /// The poison at the end of its turn kills the living active assault
  /// `st` once it has refreshed.
  predicate PoisonKills(st: Status)
    requires ValidStatus(st)
  {
    var a := Refreshed(st);
    0 < PoisonDamage(a) && a.hp <= PoisonDamage(a)
  }

  /// The board after the living active assault at `l` ends its turn: it
  /// refreshes, takes its poison damage through `remove_hp`, and the
  /// effects that last until the end of its owner's next turn wear off.
  function AttackerEnded(sides: seq<Side>, l: Loc, vip: set<nat>): (r: seq<Side>)
    requires WellFormed(sides) && ValidLoc(sides, l) && l.kind == Assault
    ensures SameShape(sides, r)
  {
    WellFormedAt(sides, l);
    var a := Refreshed(At(sides, l));
    var s1 := Put(sides, l, a);
    SameShapeLoc(sides, s1, l);
    var s2 := Hit(s1, l, PoisonDamage(a), vip);
    SameShapeLoc(s1, s2, l);
    Put(s2, l, ClearAttacker(At(s2, l)))
  }

  /// What the end of its turn does to a living active assault and the
  /// board: the assault refreshes, loses its poison damage and is cleared;
  /// it dies exactly when the damage reaches its refreshed health, and then
  /// its owner's destroyed count rises and, for a VIP card, player 0's
  /// commander dies; every other unit is untouched.
  lemma AttackerEndedEffects(sides: seq<Side>, l: Loc, vip: set<nat>)
    requires WellFormed(sides) && ValidLoc(sides, l) && l.kind == Assault
    ensures WellFormed(AttackerEnded(sides, l, vip))
    ensures var a := Refreshed(At(sides, l));
      At(AttackerEnded(sides, l, vip), l) == ClearAttacker(LoseHp(a, PoisonDamage(a)))
    ensures forall m :: ValidLoc(sides, m) && m != l && m != Loc(0, Commander, 0) ==>
      At(AttackerEnded(sides, l, vip), m) == At(sides, m)
    ensures AttackerEnded(sides, l, vip)[0].commander ==
      if l.player == 0 && At(sides, l).card.id in vip && PoisonKills(At(sides, l))
      then sides[0].commander.(hp := 0) else sides[0].commander
    ensures forall p :: 0 <= p < 2 ==>
      AttackerEnded(sides, l, vip)[p].totalCardsDestroyed == sides[p].totalCardsDestroyed +
        (if p == l.player && PoisonKills(At(sides, l)) then 1 else 0)
  {
    WellFormedAt(sides, l);
    var a := Refreshed(At(sides, l));
    var d := PoisonDamage(a);
    var s1 := Put(sides, l, a);
    PutKeepsWellFormed(sides, l, a);
    SameShapeLocs(sides, s1);
    PutKeepsCommanders(sides, l, a);
    assert At(s1, l) == a;
    assert Dies(s1, l, d) == (0 < d && a.hp <= d);
    HitEffects(s1, l, d, vip);
    var s2 := Hit(s1, l, d, vip);
    SameShapeLocs(s1, s2);
    assert At(s2, l) == LoseHp(a, d);
    var c := ClearAttacker(At(s2, l));
    WellFormedAt(s2, l);
    PutKeepsWellFormed(s2, l, c);
    PutKeepsCommanders(s2, l, c);
  }

  /// The end of the turn of the assault at `l` keeps the board well
  /// formed.
  lemma AttackerEndedWellFormed(sides: seq<Side>, l: Loc, vip: set<nat>)
    requires WellFormed(sides) && ValidLoc(sides, l) && l.kind == Assault
    ensures WellFormed(AttackerEnded(sides, l, vip))
  {
    AttackerEndedEffects(sides, l, vip);
  }

  /// The board after the active player `p`'s first `k` assaults end the
  /// turn in storage order; dead assaults are passed over.  The structures
  /// and the waiting player's assaults are left alone.
  function ActiveEnded(sides: seq<Side>, p: nat, k: nat, vip: set<nat>): (r: seq<Side>)
    requires WellFormed(sides) && p < 2 && k <= |sides[p].assaults|
    ensures WellFormed(r) && SameShape(sides, r)
    ensures forall m :: ValidLoc(sides, m) && m.kind != Commander && (m.player != p || m.kind == Structure) ==>
      At(r, m) == At(sides, m)
    decreases k
  {
    if k == 0 then sides
    else
      var s := ActiveEnded(sides, p, k - 1, vip);
      var l := Loc(p, Assault, k - 1);
      SameShapeLoc(sides, s, l);
      if IsAlive(At(s, l)) then
        AttackerEndedWellFormed(s, l, vip);
        AttackerEndedOthers(s, l, vip);
        SameShapeLocs(sides, s);
        AttackerEnded(s, l, vip)
      else s
  }

  /// The end of the turn of the assault at `l` leaves every other unit
  /// alone, except player 0's commander.
  lemma AttackerEndedOthers(sides: seq<Side>, l: Loc, vip: set<nat>)
    requires WellFormed(sides) && ValidLoc(sides, l) && l.kind == Assault
    ensures forall m :: ValidLoc(sides, m) && m != l && m.kind != Commander ==>
      At(AttackerEnded(sides, l, vip), m) == At(sides, m)
  {
    AttackerEndedEffects(sides, l, vip);
  }

  /// No assault or structure on the board is dead.
  ghost predicate NoDead(sides: seq<Side>)
  {
    forall l :: ValidLoc(sides, l) && l.kind != Commander ==> IsAlive(At(sides, l))
  }

  /// The board after `remove_dead` on every storage; the commanders and
  /// the destroyed counts stay.
  function Compacted(sides: seq<Side>): (r: seq<Side>)
    requires |sides| == 2
    ensures |r| == 2
  {
    [CompactSide(sides[0]), CompactSide(sides[1])]
  }

  /// One side after `remove_dead` on both its storages.
  function CompactSide(side: Side): (r: Side)
    ensures r.commander == side.commander && r.totalCardsDestroyed == side.totalCardsDestroyed
  {
    side.(assaults := RemoveDead(side.assaults), structures := RemoveDead(side.structures))
  }

  /// `remove_dead` on one side: the kept statuses still fit and are all
  /// alive.
  lemma CompactedSide(sides: seq<Side>, q: nat)
    requires WellFormed(sides) && q < 2
    ensures StorageFits(Compacted(sides)[q].assaults, q, Assault)
    ensures StorageFits(Compacted(sides)[q].structures, q, Structure)
    ensures forall i :: 0 <= i < |Compacted(sides)[q].assaults| ==> IsAlive(Compacted(sides)[q].assaults[i])
    ensures forall i :: 0 <= i < |Compacted(sides)[q].structures| ==> IsAlive(Compacted(sides)[q].structures[i])
  {
    RemoveDeadFits(sides[q].assaults, q, Assault);
    RemoveDeadFits(sides[q].structures, q, Structure);
  }

  /// Every assault and structure of the side is alive.
  predicate Living(side: Side)
  {
    (forall i :: 0 <= i < |side.assaults| ==> IsAlive(side.assaults[i])) &&
    (forall i :: 0 <= i < |side.structures| ==> IsAlive(side.structures[i]))
  }

  /// On a side with no dead unit `remove_dead` changes nothing.
  lemma CompactSideLiving(side: Side)
    requires Living(side)
    ensures CompactSide(side) == side
  {
    RemoveDeadLiving(side.assaults);
    RemoveDeadLiving(side.structures);
  }

  /// On a board with no dead unit every side is living.
  lemma NoDeadLiving(sides: seq<Side>, q: nat)
    requires |sides| == 2 && q < 2 && NoDead(sides)
    ensures Living(sides[q])
  {
    var side := sides[q];
    forall i | 0 <= i < |side.assaults|
      ensures IsAlive(side.assaults[i])
    {
      var l := Loc(q, Assault, i);
      assert ValidLoc(sides, l) && At(sides, l) == side.assaults[i];
    }
    forall i | 0 <= i < |side.structures|
      ensures IsAlive(side.structures[i])
    {
      var l := Loc(q, Structure, i);
      assert ValidLoc(sides, l) && At(sides, l) == side.structures[i];
    }
  }

  /// After `remove_dead` the board is well formed.
  lemma CompactedWellFormed(sides: seq<Side>)
    requires WellFormed(sides)
    ensures WellFormed(Compacted(sides))
  {
    var r := Compacted(sides);
    CompactedSide(sides, 0);
    CompactedSide(sides, 1);
    assert r[0].commander == sides[0].commander && r[1].commander == sides[1].commander;
    assert Fits(r[0].commander, Loc(0, Commander, 0)) && Fits(r[1].commander, Loc(1, Commander, 0));
  }

  /// After `remove_dead` no assault or structure on the board is dead.
  lemma CompactedNoDead(sides: seq<Side>)
    requires WellFormed(sides)
    ensures NoDead(Compacted(sides))
  {
    var r := Compacted(sides);
    CompactedSide(sides, 0);
    CompactedSide(sides, 1);
    forall l | ValidLoc(r, l) && l.kind != Commander
      ensures IsAlive(At(r, l))
    {
      if l.kind == Assault {
        assert At(r, l) == r[l.player].assaults[l.pos];
      } else {
        assert At(r, l) == r[l.player].structures[l.pos];
      }
    }
  }

  /// `remove_dead` leaves a board whose sides are living as it is.
  lemma CompactedLiving(sides: seq<Side>)
    requires |sides| == 2 && Living(sides[0]) && Living(sides[1])
    ensures Compacted(sides) == sides
  {
    CompactSideLiving(sides[0]);
    CompactSideLiving(sides[1]);
    assert Compacted(sides) == [sides[0], sides[1]];
  }

  /// `remove_dead` is idempotent: a second pass removes nothing.
  lemma CompactedIdempotent(sides: seq<Side>)
    requires WellFormed(sides)
    ensures Compacted(Compacted(sides)) == Compacted(sides)
  {
    CompactedSide(sides, 0);
    CompactedSide(sides, 1);
    CompactedLiving(Compacted(sides));
  }

  /// The assault loop of `turn_start_phase`, proved against
  /// `StartedAssaults`.
  method StartAssaults(a: seq<Status>, blockers: seq<Status>) returns (r: seq<Status>)
    requires AllValid(a)
    ensures r == StartedAssaults(a, blockers)
  {
    r := [];
    var i := 0;
    while i < |a|
      invariant 0 <= i <= |a| && |r| == i
      invariant forall j :: 0 <= j < i ==> r[j] == StartAssault(a[j], j, blockers)
    {
      var st := StartAssaultAt(a[i], i, blockers);
      r := r + [st];
      i := i + 1;
    }
  }

  /// The body of the assault loop of `turn_start_phase` for the assault at
  /// position `i`.
  method StartAssaultAt(st: Status, i: nat, blockers: seq<Status>) returns (r: Status)
    requires ValidStatus(st)
    ensures r == StartAssault(st, i, blockers)
  {
    r := st.(index := i);
    if r.delay > 0 {
      r := r.(delay := r.delay - 1);
      if r.delay == 0 {
        r := Handlers.Valor(r, blockers);
      }
    } else {
      r := CooldownSkills(r);
    }
  }

  /// The structure loop of `turn_start_phase`, proved against
  /// `StartedStructures`.
  method StartStructures(s: seq<Status>) returns (r: seq<Status>)
    requires AllValid(s)
    ensures r == StartedStructures(s)
  {
    r := [];
    var i := 0;
    while i < |s|
      invariant 0 <= i <= |s| && |r| == i
      invariant forall j :: 0 <= j < i ==> r[j] == StartStructure(s[j], j)
    {
      var st := s[i].(index := i);
      if st.delay > 0 {
        st := st.(delay := st.delay - 1);
      } else {
        st := CooldownSkills(st);
      }
      r := r + [st];
      i := i + 1;
    }
  }

  /// The loops of `turn_start_phase` over the waiting player's storages.
  method Reindex(s: seq<Status>) returns (r: seq<Status>)
    ensures r == Reindexed(s)
  {
    r := [];
    var i := 0;
    while i < |s|
      invariant 0 <= i <= |s| && |r| == i
      invariant forall j :: 0 <= j < i ==> r[j] == s[j].(index := j)
    {
      r := r + [s[i].(index := i)];
      i := i + 1;
    }
  }

  /// The loop of `turn_end_phase` over the waiting player's assaults.
  method EndDefenders(a: seq<Status>) returns (r: seq<Status>)
    requires AllValid(a)
    ensures r == EndedDefenders(a)
  {
    r := [];
    var i := 0;
    while i < |a|
      invariant 0 <= i <= |a| && |r| == i
      invariant forall j :: 0 <= j < i ==> r[j] == EndDefender(a[j])
    {
      var st := a[i];
      if IsAlive(st) {
        st := ClearDefender(st);
      }
      r := r + [st];
      i := i + 1;
    }
  }

  /// The loop of `turn_end_phase` over the waiting player's structures.
  method EndStructures(s: seq<Status>) returns (r: seq<Status>)
    ensures r == EndedStructures(s)
  {
    r := [];
    var i := 0;
    while i < |s|
      invariant 0 <= i <= |s| && |r| == i
      invariant forall j :: 0 <= j < i ==> r[j] == EndStructure(s[j])
    {
      var st := s[i];
      if IsAlive(st) {
        st := st.(evaded := 0);
      }
      r := r + [st];
      i := i + 1;
    }
  }
}
