/// Board storage and neighbour queries.  Each side keeps its commander and
/// two storages (assaults and structures) of card statuses by value; a
/// status is addressed by its side, its storage and its position.
module Board {
  import opened Arith
  import opened Skills
  import opened Cards
  import opened Wrappers

  /// The address of a status on the board (what a `CardStatus*` points at).
  datatype Loc = Loc(player: nat, kind: CardType, pos: nat)

  /// `Hand`: one player's cards in play and the number of its cards that
  /// have been destroyed.
  datatype Side = Side(
    commander: Status, assaults: seq<Status>, structures: seq<Status>,
    totalCardsDestroyed: nat)

  /// `opponent`.
  function Opponent(p: nat): (r: nat)
    ensures r < 2 && (p < 2 ==> r != p && (r + 1) % 2 == p)
  {
    (p + 1) % 2
  }

  /// Positions `p` in `lo .. hi - 1` (ascending) whose assault is alive.
  function AliveBetween(assaults: seq<Status>, lo: nat, hi: nat): seq<nat>
    requires lo <= hi <= |assaults|
    decreases hi - lo
  {
    if lo == hi then []
    else AliveBetween(assaults, lo, hi - 1) + (if IsAlive(assaults[hi - 1]) then [hi - 1] else [])
  }

  /// `AliveBetween` lists exactly the living positions of the range, in
  /// ascending order.
  lemma {:induction false} AliveBetweenSpec(assaults: seq<Status>, lo: nat, hi: nat)
    requires lo <= hi <= |assaults|
    ensures forall i :: 0 <= i < |AliveBetween(assaults, lo, hi)| ==>
      lo <= AliveBetween(assaults, lo, hi)[i] < hi && IsAlive(assaults[AliveBetween(assaults, lo, hi)[i]])
    ensures forall p :: lo <= p < hi && IsAlive(assaults[p]) ==> p in AliveBetween(assaults, lo, hi)
    ensures forall i, j :: 0 <= i < j < |AliveBetween(assaults, lo, hi)| ==>
      AliveBetween(assaults, lo, hi)[i] < AliveBetween(assaults, lo, hi)[j]
    decreases hi - lo
  {
    if lo < hi {
      AliveBetweenSpec(assaults, lo, hi - 1);
      var prev := AliveBetween(assaults, lo, hi - 1);
      var r := AliveBetween(assaults, lo, hi);
      assert forall i :: 0 <= i < |prev| ==> r[i] == prev[i];
    }
  }

  /// The positions `adjacent_assaults(status, n)` returns: the living
  /// assaults at most `n` places left of `index` and then those at most `n`
  /// places right of it, in ascending order.
  function Neighbours(assaults: seq<Status>, index: nat, n: nat): (r: seq<nat>)
    requires index <= |assaults|
    ensures forall i :: 0 <= i < |r| ==>
      r[i] < |assaults| && r[i] != index && IsAlive(assaults[r[i]]) &&
      index - n <= r[i] <= index + n
    ensures forall p :: (0 <= p < |assaults| && p != index && index - n <= p <= index + n
      && IsAlive(assaults[p])) ==> p in r
    ensures forall i, j :: 0 <= i < j < |r| ==> r[i] < r[j]
  {
    var lo := if index >= n then index - n else 0;
    var mid, hi := Min(index + 1, |assaults|), Min(index + n + 1, |assaults|);
    AliveBetweenSpec(assaults, lo, index);
    AliveBetweenSpec(assaults, mid, hi);
    var left, right := AliveBetween(assaults, lo, index), AliveBetween(assaults, mid, hi);
    assert forall i :: |left| <= i < |left| + |right| ==> (left + right)[i] == right[i - |left|];
    assert forall i :: 0 <= i < |left| ==> (left + right)[i] == left[i];
    assert mid == index + 1 || right == [];
    forall i | 0 <= i < |left + right|
      ensures (left + right)[i] < |assaults| && (left + right)[i] != index
      ensures IsAlive(assaults[(left + right)[i]])
      ensures index - n <= (left + right)[i] <= index + n
    {
      if i < |left| {
        assert lo <= left[i] < index;
      } else {
        assert mid <= right[i - |left|] < hi;
      }
    }
    left + right
  }

  /// `left_assault(status, n)`: the assault `n` places left, if alive.
  function LeftAssault(assaults: seq<Status>, index: nat, n: nat): (r: Option<nat>)
    requires n <= index ==> index - n < |assaults|
    ensures r.Some? <==> n <= index && IsAlive(assaults[index - n])
    ensures r.Some? ==> r.value == index - n
  {
    if index >= n && IsAlive(assaults[index - n]) then Some(index - n) else None
  }

  /// `right_assault(status, n)`: the assault `n` places right, if alive.
  function RightAssault(assaults: seq<Status>, index: nat, n: nat): (r: Option<nat>)
    ensures r.Some? <==> index + n < |assaults| && IsAlive(assaults[index + n])
    ensures r.Some? ==> r.value == index + n
  {
    if index + n < |assaults| && IsAlive(assaults[index + n]) then Some(index + n) else None
  }

  /// `adjacent_assaults(status, n)`: asks `left_assault` for distances
  /// `n` down to 1, then `right_assault` for distances 1 up to `n`.
  method AdjacentAssaults(assaults: seq<Status>, index: nat, n: nat) returns (res: seq<nat>)
    requires index <= |assaults|
    ensures res == Neighbours(assaults, index, n)
  {
    var left := LeftOf(assaults, index, n);
    var right := RightOf(assaults, index, n);
    res := left + right;
  }

  /// The `left_assault` half of `adjacent_assaults`.
  method LeftOf(assaults: seq<Status>, index: nat, n: nat) returns (res: seq<nat>)
    requires index <= |assaults|
    ensures res == AliveBetween(assaults, if index >= n then index - n else 0, index)
  {
    var lo := if index >= n then index - n else 0;
    res := [];
    var i := n;
    while i > 0
      invariant 0 <= i <= n
      invariant res == AliveBetween(assaults, lo, if index >= i then index - i else 0)
    {
      var left := LeftAssault(assaults, index, i);
      if left.Some? {
        res := res + [left.value];
      }
      if index >= i {
        assert AliveBetween(assaults, lo, index - i + 1) ==
          AliveBetween(assaults, lo, index - i) + (if IsAlive(assaults[index - i]) then [index - i] else []);
      }
      i := i - 1;
    }
  }

  /// The `right_assault` half of `adjacent_assaults`.
  method RightOf(assaults: seq<Status>, index: nat, n: nat) returns (res: seq<nat>)
    requires index <= |assaults|
    ensures res == AliveBetween(assaults, Min(index + 1, |assaults|), Min(index + n + 1, |assaults|))
  {
    var mid := Min(index + 1, |assaults|);
    res := [];
    var j := 1;
    while j <= n
      invariant 1 <= j <= n + 1
      invariant res == AliveBetween(assaults, mid, Min(index + j, |assaults|))
    {
      var right := RightAssault(assaults, index, j);
      if right.Some? {
        res := res + [right.value];
      }
      assert index + j < |assaults| ==> Min(index + j + 1, |assaults|) == Min(index + j, |assaults|) + 1;
      j := j + 1;
    }
  }

  /// `remove_dead`: drops every status whose health is 0, keeping the
  /// order of the rest.
  function RemoveDead(storage: seq<Status>): (r: seq<Status>)
    ensures forall i :: 0 <= i < |r| ==> IsAlive(r[i])
    ensures multiset(r) <= multiset(storage)
  {
    if storage == [] then []
    else
      assert storage == [storage[0]] + storage[1..];
      if IsAlive(storage[0]) then [storage[0]] + RemoveDead(storage[1..])
    else RemoveDead(storage[1..])
  }

  /// Every living status survives `remove_dead`.
  lemma {:induction false} RemoveDeadKeepsLiving(storage: seq<Status>, i: nat)
    requires i < |storage| && IsAlive(storage[i])
    ensures storage[i] in RemoveDead(storage)
  {
    if i > 0 {
      RemoveDeadKeepsLiving(storage[1..], i - 1);
      assert storage[1..][i - 1] == storage[i];
    }
  }

  /// `remove_dead` leaves a storage without dead statuses as it is.
  lemma {:induction false} RemoveDeadLiving(storage: seq<Status>)
    requires forall i :: 0 <= i < |storage| ==> IsAlive(storage[i])
    ensures RemoveDead(storage) == storage
  {
    if storage != [] {
      RemoveDeadLiving(storage[1..]);
      assert storage == [storage[0]] + storage[1..];
    }
  }

  /// `remove_dead` keeps a single status exactly when it is alive.
  lemma RemoveDeadSingle(x: Status)
    ensures RemoveDead([x]) == if IsAlive(x) then [x] else []
  {
    assert [x][1..] == [];
  }

  /// `remove_dead` works piecewise: the survivors of a concatenation are
  /// the survivors of the first part followed by those of the second, so
  /// together with `RemoveDeadSingle` it is the order-keeping filter.
  lemma {:induction false} RemoveDeadAppend(a: seq<Status>, b: seq<Status>)
    ensures RemoveDead(a + b) == RemoveDead(a) + RemoveDead(b)
  {
    if a == [] {
      assert a + b == b;
    } else {
      var ab := a + b;
      assert ab[0] == a[0] && ab[1..] == a[1..] + b;
      RemoveDeadAppend(a[1..], b);
      if IsAlive(a[0]) {
        assert RemoveDead(ab) == [a[0]] + RemoveDead(ab[1..]);
        assert RemoveDead(a) == [a[0]] + RemoveDead(a[1..]);
      } else {
        assert RemoveDead(ab) == RemoveDead(ab[1..]);
        assert RemoveDead(a) == RemoveDead(a[1..]);
      }
    }
  }

  /// The statuses `remove_dead` keeps still fit their storage.
  lemma RemoveDeadFits(storage: seq<Status>, p: nat, kind: CardType)
    requires StorageFits(storage, p, kind)
    ensures StorageFits(RemoveDead(storage), p, kind)
  {
    var r := RemoveDead(storage);
    forall i | 0 <= i < |r|
      ensures Fits(r[i], Loc(p, kind, i))
    {
      assert r[i] in multiset(r);
      assert r[i] in multiset(storage);
      var j :| 0 <= j < |storage| && storage[j] == r[i];
      assert Fits(storage[j], Loc(p, kind, j));
    }
  }

  /// Whether `l` addresses a status present on the board.
  predicate ValidLoc(sides: seq<Side>, l: Loc)
  {
    l.player < |sides| &&
    match l.kind
    case Commander => l.pos == 0
    case Assault => l.pos < |sides[l.player].assaults|
    case Structure => l.pos < |sides[l.player].structures|
  }

  /// The status `l` points at.
  function At(sides: seq<Side>, l: Loc): Status
    requires ValidLoc(sides, l)
  {
    match l.kind
    case Commander => sides[l.player].commander
    case Assault => sides[l.player].assaults[l.pos]
    case Structure => sides[l.player].structures[l.pos]
  }

  /// Both boards have the same players and storages of the same sizes, so
  /// they have the same valid addresses.
  predicate SameShape(a: seq<Side>, b: seq<Side>)
  {
    |a| == |b| &&
    forall p :: 0 <= p < |a| ==>
      |a[p].assaults| == |b[p].assaults| && |a[p].structures| == |b[p].structures|
  }

  /// Boards of the same shape have the same valid addresses.
  lemma SameShapeLocs(a: seq<Side>, b: seq<Side>)
    requires SameShape(a, b)
    ensures forall m :: ValidLoc(a, m) <==> ValidLoc(b, m)
  {
    forall m
      ensures ValidLoc(a, m) <==> ValidLoc(b, m)
    {
      if m.player < |a| {
        assert |a[m.player].assaults| == |b[m.player].assaults|;
      }
    }
  }

  /// One address valid on a board is valid on a board of the same shape.
  lemma SameShapeLoc(a: seq<Side>, b: seq<Side>, m: Loc)
    requires SameShape(a, b) && ValidLoc(a, m)
    ensures ValidLoc(b, m)
  {
    SameShapeLocs(a, b);
  }

  /// Having the same shape is transitive.
  lemma SameShapeTrans(a: seq<Side>, b: seq<Side>, c: seq<Side>)
    requires SameShape(a, b) && SameShape(b, c)
    ensures SameShape(a, c)
  {
  }

  /// Writing a status through its address: the status at `l` becomes `st`,
  /// every other address keeps its status, and the storages keep their
  /// sizes and destroyed-card counts.
  function Put(sides: seq<Side>, l: Loc, st: Status): (r: seq<Side>)
    requires ValidLoc(sides, l)
    ensures SameShape(sides, r)
    ensures forall m :: ValidLoc(sides, m) ==> At(r, m) == if m == l then st else At(sides, m)
    ensures forall p :: 0 <= p < |sides| ==> r[p].totalCardsDestroyed == sides[p].totalCardsDestroyed
  {
    var side := sides[l.player];
    var side' := match l.kind
      case Commander => side.(commander := st)
      case Assault => side.(assaults := side.assaults[l.pos := st])
      case Structure => side.(structures := side.structures[l.pos := st]);
    sides[l.player := side']
  }

  /// Writing back the status already at `l` changes nothing.
  lemma PutSame(sides: seq<Side>, l: Loc)
    requires ValidLoc(sides, l)
    ensures Put(sides, l, At(sides, l)) == sides
  {
    var side := sides[l.player];
    match l.kind
    case Commander => assert side.(commander := side.commander) == side;
    case Assault => assert side.assaults[l.pos := side.assaults[l.pos]] == side.assaults;
    case Structure => assert side.structures[l.pos := side.structures[l.pos]] == side.structures;
    assert sides[l.player := side] == sides;
  }

  /// The invariant every status on the board keeps: it is well formed, it
  /// belongs to the side and storage holding it, and a commander is never
  /// evolved (evolve only targets assaults).
  predicate Fits(st: Status, l: Loc)
  {
    ValidStatus(st) && st.player == l.player && st.card.cardType == l.kind &&
    (l.kind == Commander ==> st.evolvedOffset == Zeros(NumSkills))
  }

  /// Writing a unit that is not a commander leaves both commanders alone.
  lemma PutKeepsCommanders(sides: seq<Side>, l: Loc, st: Status)
    requires ValidLoc(sides, l) && l.kind != Commander
    ensures forall p :: 0 <= p < |sides| ==> Put(sides, l, st)[p].commander == sides[p].commander
  {
  }

  /// Every status of a storage of player `p` fits its address.
  predicate StorageFits(s: seq<Status>, p: nat, kind: CardType)
  {
    forall i :: 0 <= i < |s| ==> Fits(s[i], Loc(p, kind, i))
  }

  /// Two players, every status fitting its address.
  predicate WellFormed(sides: seq<Side>)
  {
    |sides| == 2 &&
    forall p :: 0 <= p < 2 ==>
      Fits(sides[p].commander, Loc(p, Commander, 0)) &&
      StorageFits(sides[p].assaults, p, Assault) && StorageFits(sides[p].structures, p, Structure)
  }

  /// A two-player board whose every status fits its address is well
  /// formed.
  lemma FitsWellFormed(r: seq<Side>)
    requires |r| == 2 && forall l :: ValidLoc(r, l) ==> Fits(At(r, l), l)
    ensures WellFormed(r)
  {
    forall q | 0 <= q < 2
      ensures Fits(r[q].commander, Loc(q, Commander, 0))
      ensures StorageFits(r[q].assaults, q, Assault) && StorageFits(r[q].structures, q, Structure)
    {
      assert At(r, Loc(q, Commander, 0)) == r[q].commander;
      forall i | 0 <= i < |r[q].assaults|
        ensures Fits(r[q].assaults[i], Loc(q, Assault, i))
      {
        assert At(r, Loc(q, Assault, i)) == r[q].assaults[i];
      }
      forall i | 0 <= i < |r[q].structures|
        ensures Fits(r[q].structures[i], Loc(q, Structure, i))
      {
        assert At(r, Loc(q, Structure, i)) == r[q].structures[i];
      }
    }
  }

  /// Every status on a well-formed board fits its address.
  lemma WellFormedAt(sides: seq<Side>, l: Loc)
    requires WellFormed(sides) && ValidLoc(sides, l)
    ensures Fits(At(sides, l), l)
  {
  }

  /// Every assault's and structure's `m_index` is its position, as
  /// `turn_start_phase` and `PlayCard` leave it until `remove_dead`
  /// compacts the storages.
  ghost predicate Indexed(sides: seq<Side>)
  {
    forall l :: ValidLoc(sides, l) && l.kind != Commander ==> At(sides, l).index == l.pos
  }

  /// A write that fits its address keeps the board well formed, and one
  /// that keeps the index keeps it indexed.
  lemma PutKeepsWellFormed(sides: seq<Side>, l: Loc, st: Status)
    requires WellFormed(sides) && ValidLoc(sides, l) && Fits(st, l)
    ensures WellFormed(Put(sides, l, st))
    ensures Indexed(sides) && st.index == l.pos ==> Indexed(Put(sides, l, st))
  {
    SameShapeLocs(sides, Put(sides, l, st));
  }

  /// A write that fits its address and leaves a commander's health alone
  /// keeps the board well formed and both commanders' health.
  lemma PutKeepsBoard(sides: seq<Side>, l: Loc, st: Status)
    requires WellFormed(sides) && ValidLoc(sides, l) && Fits(st, l)
    requires l.kind == Commander ==> st.hp == At(sides, l).hp
    ensures WellFormed(Put(sides, l, st))
    ensures forall p :: 0 <= p < 2 ==> Put(sides, l, st)[p].commander.hp == sides[p].commander.hp
  {
    PutKeepsWellFormed(sides, l, st);
    SameShapeLocs(sides, Put(sides, l, st));
    forall p | 0 <= p < 2
      ensures Put(sides, l, st)[p].commander.hp == sides[p].commander.hp
    {
      assert At(Put(sides, l, st), Loc(p, Commander, 0)) == Put(sides, l, st)[p].commander;
      assert At(sides, Loc(p, Commander, 0)) == sides[p].commander;
    }
  }
}
