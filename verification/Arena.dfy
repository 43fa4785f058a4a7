/**
 The arena under every interleaving (src/arena.rs): the bump frontier moves by
 compare-and-swap, holes are taken and given under the lock, and a claim is
 committed or handed back with no lock held. Offsets of tiles are in 64 KiB
 pages.
 */
module Arena {
  import opened Seqs
  import opened HoleStore

  /** `Claimed` slices are exclusively held by one thread between two steps; `Parked` ones are in
      the hole store; `Abandoned` ones stay reserved and are never used again. */
  datatype Status = Live(owner: nat) | Claimed(tid: nat) | Parked | Abandoned

  datatype Tile = Tile(pages: nat, status: Status)

  datatype State = State(size: nat, bump: nat, tiles: map<nat, Tile>, holes: seq<Hole>, bytes: nat)

  function Initial(size: nat): State { State(size, 0, map[], [], 0) }

  // ------------------------------------------------------------- invariant

  ghost predicate Covers(tiles: map<nat, Tile>, a: nat, x: nat) { a in tiles && a <= x < a + tiles[a].pages }

  ghost predicate Covered(tiles: map<nat, Tile>, x: nat) { exists a :: Covers(tiles, a, x) }

  /** The tiles are non-empty, lie below the frontier, do not overlap and leave no gap. */
  ghost predicate Partition(tiles: map<nat, Tile>, bump: nat) {
    && (forall a :: a in tiles ==> tiles[a].pages > 0 && a + tiles[a].pages <= bump)
    && (forall a, b :: a in tiles && b in tiles && a < b ==> a + tiles[a].pages <= b)
    && (forall x: nat :: x < bump ==> Covered(tiles, x))
  }

  function StartOf(h: Hole): nat { h.off / ARENA_ALIGN }

  /** The hole store lists exactly the parked tiles. */
  ghost predicate HolesMatch(tiles: map<nat, Tile>, holes: seq<Hole>) {
    && (forall i :: 0 <= i < |holes| ==>
          && holes[i].off % ARENA_ALIGN == 0 && StartOf(holes[i]) in tiles
          && tiles[StartOf(holes[i])] == Tile(holes[i].pages, Parked))
    && (forall i, j :: 0 <= i < j < |holes| ==> holes[i].off != holes[j].off)
    && (forall a :: a in tiles && tiles[a].status == Parked ==> exists i :: 0 <= i < |holes| && StartOf(holes[i]) == a)
  }

  ghost predicate Inv(s: State) {
    && s.bump <= s.size && Partition(s.tiles, s.bump) && HolesMatch(s.tiles, s.holes)
    && s.bytes == TotalPages(s.holes) * ARENA_ALIGN
  }

  // ----------------------------------------------------------------- steps

  datatype Step =
    | TakeHole(tid: nat, at: nat, pages: nat)     // locked: pop a best-fit hole, splitting it
    | BumpClaim(tid: nat, pages: nat)             // CAS on the frontier
    | Commit(tid: nat, base: nat)                 // the kernel mapped the claim: it is live
    | GiveBack(tid: nat, base: nat, kept: bool)   // locked: park a claim, or abandon it
    | Discard(tid: nat, base: nat)                // purge a slice the thread holds, before parking it
    | Pass(tid: nat, base: nat, to: nat)          // a pointer into the slice reaches another thread
    | GrowClaim(tid: nat, base: nat, pages: nat)  // CAS: claim pages right above a live slice
    | GrowCommit(tid: nat, base: nat)             // the added pages join the slice

  ghost predicate Enabled(s: State, e: Step) {
    match e
    case TakeHole(t, i, n) => n > 0 && BestFit(s.holes, n, i)
    case BumpClaim(t, n) => n > 0 && s.bump + n <= s.size
    case Commit(t, a) => a in s.tiles && s.tiles[a].status == Claimed(t)
    case GiveBack(t, a, kept) => a in s.tiles && s.tiles[a].status == Claimed(t)
    case Discard(t, a) => a in s.tiles && s.tiles[a].status == Live(t)
    case Pass(t, a, u) => a in s.tiles && s.tiles[a].status == Live(t)
    case GrowClaim(t, a, k) =>
      a in s.tiles && s.tiles[a].status == Live(t) && k > 0 && a + s.tiles[a].pages == s.bump && s.bump + k <= s.size
    case GrowCommit(t, a) =>
      && a in s.tiles && s.tiles[a].status == Live(t)
      && a + s.tiles[a].pages in s.tiles && s.tiles[a + s.tiles[a].pages].status == Claimed(t)
  }

  function Mark(s: State, a: nat, st: Status): State
    requires a in s.tiles
  {
    s.(tiles := s.tiles[a := s.tiles[a].(status := st)])
  }

  function Extend(s: State, n: nat, st: Status): State {
    s.(tiles := s.tiles[s.bump := Tile(n, st)], bump := s.bump + n)
  }

  function Split(tiles: map<nat, Tile>, a: nat, n: nat, st: Status): (r: map<nat, Tile>)
    requires a in tiles && n <= tiles[a].pages
  {
    if n == tiles[a].pages then tiles[a := Tile(n, st)]
    else tiles[a := Tile(n, st)][a + n := Tile(tiles[a].pages - n, tiles[a].status)]
  }

  function Join(tiles: map<nat, Tile>, a: nat): (r: map<nat, Tile>)
    requires a in tiles && a + tiles[a].pages in tiles
  {
    var b := a + tiles[a].pages;
    (tiles - {b})[a := Tile(tiles[a].pages + tiles[b].pages, tiles[a].status)]
  }

  /** The slice is discarded by the thread that holds it: from then on it is that thread's claim. */
  ghost function Apply(s: State, e: Step): (r: State)
    requires Inv(s) && Enabled(s, e)
  {
    match e
    case TakeHole(t, i, n) =>
      s.(tiles := Split(s.tiles, StartOf(s.holes[i]), n, Claimed(t)),
         holes := AfterTake(s.holes, i, n),
         bytes := SubBytes(s.bytes, n))
    case BumpClaim(t, n) => Extend(s, n, Claimed(t))
    case Commit(t, a) => Mark(s, a, Live(t))
    case GiveBack(t, a, kept) =>
      if kept then Give(s, a) else Mark(s, a, Abandoned)
    case Discard(t, a) => Mark(s, a, Claimed(t))
    case Pass(t, a, u) => Mark(s, a, Live(u))
    case GrowClaim(t, a, k) => Extend(s, k, Claimed(t))
    case GrowCommit(t, a) => s.(tiles := Join(s.tiles, a))
  }

  function SubBytes(bytes: nat, pages: nat): nat {
    if pages * ARENA_ALIGN <= bytes then bytes - pages * ARENA_ALIGN else 0
  }

  // ----------------------------------------------------------- preservation

  /** Tiles of the same extents partition the same range, whatever their status. */
  lemma SameExtents(a: map<nat, Tile>, b: map<nat, Tile>, bump: nat)
    requires Partition(a, bump) && a.Keys == b.Keys && forall k :: k in a ==> a[k].pages == b[k].pages
    ensures Partition(b, bump)
  {
    forall x: nat | x < bump ensures Covered(b, x) {
      assert Covered(a, x);
      var k :| Covers(a, k, x);
      assert Covers(b, k, x);
    }
  }

  lemma ExtendPartition(s: State, n: nat, st: Status)
    requires Partition(s.tiles, s.bump) && n > 0
    ensures Partition(Extend(s, n, st).tiles, s.bump + n)
    ensures s.bump !in s.tiles
  {
    var r := Extend(s, n, st);
    assert s.bump !in s.tiles;
    forall x: nat | x < s.bump + n ensures Covered(r.tiles, x) {
      if x < s.bump {
        assert Covered(s.tiles, x);
        var k :| Covers(s.tiles, k, x);
        assert Covers(r.tiles, k, x);
      } else {
        assert Covers(r.tiles, s.bump, x);
      }
    }
  }

  lemma SplitPartition(tiles: map<nat, Tile>, bump: nat, a: nat, n: nat, st: Status)
    requires Partition(tiles, bump) && a in tiles && 0 < n <= tiles[a].pages
    ensures Partition(Split(tiles, a, n, st), bump)
    ensures n < tiles[a].pages ==> a + n !in tiles
  {
    if n == tiles[a].pages {
      SameExtents(tiles, Split(tiles, a, n, st), bump);
    } else {
      assert a + n !in tiles;
      SplitNoOverlap(tiles, bump, a, n, st);
      var r := Split(tiles, a, n, st);
      forall x: nat | x < bump ensures Covered(r, x) {
        assert Covered(tiles, x);
        var k :| Covers(tiles, k, x);
        assert Covers(r, if k == a && x >= a + n then a + n else k, x);
      }
    }
  }

  lemma SplitNoOverlap(tiles: map<nat, Tile>, bump: nat, a: nat, n: nat, st: Status)
    requires Partition(tiles, bump) && a in tiles && 0 < n < tiles[a].pages
    ensures var r := Split(tiles, a, n, st);
            && (forall k :: k in r ==> r[k].pages > 0 && k + r[k].pages <= bump)
            && (forall k, l :: k in r && l in r && k < l ==> k + r[k].pages <= l)
  {
  }

  lemma JoinNoOverlap(tiles: map<nat, Tile>, bump: nat, a: nat)
    requires Partition(tiles, bump) && a in tiles && a + tiles[a].pages in tiles
    ensures var r := Join(tiles, a);
            && (forall k :: k in r ==> r[k].pages > 0 && k + r[k].pages <= bump)
            && (forall k, l :: k in r && l in r && k < l ==> k + r[k].pages <= l)
  {
    hide Covered;
  }

  lemma JoinPartition(tiles: map<nat, Tile>, bump: nat, a: nat)
    requires Partition(tiles, bump) && a in tiles && a + tiles[a].pages in tiles
    ensures Partition(Join(tiles, a), bump)
  {
    var b := a + tiles[a].pages;
    var r := Join(tiles, a);
    JoinNoOverlap(tiles, bump, a);
    forall x: nat | x < bump ensures Covered(r, x) {
      assert Covered(tiles, x);
      var k :| Covers(tiles, k, x);
      assert Covers(r, if k == b then a else k, x);
    }
  }

  lemma HolesUnchanged(a: map<nat, Tile>, b: map<nat, Tile>, holes: seq<Hole>)
    requires HolesMatch(a, holes)
    requires forall k :: k in a && a[k].status == Parked ==> k in b && b[k] == a[k]
    requires forall k :: k in b && b[k].status == Parked ==> k in a && a[k] == b[k]
    ensures HolesMatch(b, holes)
  {
  }

  lemma HolesGiven(tiles: map<nat, Tile>, holes: seq<Hole>, a: nat)
    requires HolesMatch(tiles, holes) && a in tiles && tiles[a].status != Parked
    ensures HolesMatch(tiles[a := tiles[a].(status := Parked)], holes + [Hole(a * ARENA_ALIGN, tiles[a].pages)])
  {
    var t, h := tiles[a := tiles[a].(status := Parked)], holes + [Hole(a * ARENA_ALIGN, tiles[a].pages)];
    assert StartOf(h[|holes|]) == a;
    forall i | 0 <= i < |holes| ensures holes[i].off != a * ARENA_ALIGN {
      assert StartOf(holes[i]) in tiles;
    }
    forall k | k in t && t[k].status == Parked ensures exists i :: 0 <= i < |h| && StartOf(h[i]) == k {
      if k != a {
        var i :| 0 <= i < |holes| && StartOf(holes[i]) == k;
        assert h[i] == holes[i];
      }
    }
  }

  lemma StartsDiffer(tiles: map<nat, Tile>, holes: seq<Hole>, i: nat, j: nat)
    requires HolesMatch(tiles, holes) && i < |holes| && j < |holes| && i != j
    ensures StartOf(holes[i]) != StartOf(holes[j])
  {
    assert holes[i].off == StartOf(holes[i]) * ARENA_ALIGN && holes[j].off == StartOf(holes[j]) * ARENA_ALIGN;
  }

  lemma HolesTakenWhole(tiles: map<nat, Tile>, holes: seq<Hole>, i: nat, t: nat)
    requires HolesMatch(tiles, holes) && i < |holes|
    ensures HolesMatch(Split(tiles, StartOf(holes[i]), holes[i].pages, Claimed(t)), SwapRemove(holes, i))
  {
    var a := StartOf(holes[i]);
    var r, h := Split(tiles, a, holes[i].pages, Claimed(t)), SwapRemove(holes, i);
    var last := |holes| - 1;
    forall j | 0 <= j < |h|
      ensures h[j].off % ARENA_ALIGN == 0 && StartOf(h[j]) in r && r[StartOf(h[j])] == Tile(h[j].pages, Parked)
    {
      StartsDiffer(tiles, holes, i, if j == i then last else j);
    }
    HolesWholeBack(tiles, holes, i, t);
    hide StartOf;
  }

  lemma HolesWholeBack(tiles: map<nat, Tile>, holes: seq<Hole>, i: nat, t: nat)
    requires HolesMatch(tiles, holes) && i < |holes|
    ensures var r, h := Split(tiles, StartOf(holes[i]), holes[i].pages, Claimed(t)), SwapRemove(holes, i);
            forall k :: k in r && r[k].status == Parked ==> exists j :: 0 <= j < |h| && StartOf(h[j]) == k
  {
    hide StartOf;
    var r, h := Split(tiles, StartOf(holes[i]), holes[i].pages, Claimed(t)), SwapRemove(holes, i);
    var last := |holes| - 1;
    forall k | k in r && r[k].status == Parked ensures exists j :: 0 <= j < |h| && StartOf(h[j]) == k {
      var j :| 0 <= j < |holes| && StartOf(holes[j]) == k;
      assert h[if j == last then i else j] == holes[j];
    }
  }

  lemma HolesTakenPart(tiles: map<nat, Tile>, bump: nat, holes: seq<Hole>, i: nat, n: nat, t: nat)
    requires Partition(tiles, bump) && HolesMatch(tiles, holes) && i < |holes| && 0 < n < holes[i].pages
    ensures HolesMatch(Split(tiles, StartOf(holes[i]), n, Claimed(t)), AfterTake(holes, i, n))
  {
    var a := StartOf(holes[i]);
    var r, h := Split(tiles, a, n, Claimed(t)), AfterTake(holes, i, n);
    SplitPartition(tiles, bump, a, n, Claimed(t));
    assert holes[i].off == a * ARENA_ALIGN && StartOf(h[i]) == a + n;
    forall j | 0 <= j < |h| && j != i
      ensures StartOf(h[j]) in r && r[StartOf(h[j])] == Tile(h[j].pages, Parked) && h[j].off != h[i].off
    {
      StartsDiffer(tiles, holes, i, j);
      assert StartOf(h[j]) in tiles;
    }
    HolesPartBack(tiles, holes, i, n, t);
  }

  lemma HolesPartBack(tiles: map<nat, Tile>, holes: seq<Hole>, i: nat, n: nat, t: nat)
    requires HolesMatch(tiles, holes) && i < |holes| && 0 < n < holes[i].pages
    ensures var r, h := Split(tiles, StartOf(holes[i]), n, Claimed(t)), AfterTake(holes, i, n);
            forall k :: k in r && r[k].status == Parked ==> exists j :: 0 <= j < |h| && StartOf(h[j]) == k
  {
    var a := StartOf(holes[i]);
    var r, h := Split(tiles, a, n, Claimed(t)), AfterTake(holes, i, n);
    assert holes[i].off == a * ARENA_ALIGN && StartOf(h[i]) == a + n;
    forall k | k in r && r[k].status == Parked ensures exists j :: 0 <= j < |h| && StartOf(h[j]) == k {
      if k == a + n {
        assert StartOf(h[i]) == k;
      } else {
        var j :| 0 <= j < |holes| && StartOf(holes[j]) == k;
        assert h[j] == holes[j];
      }
    }
  }

  lemma TakeHoleInv(s: State, t: nat, i: nat, n: nat)
    requires Inv(s) && Enabled(s, TakeHole(t, i, n))
    ensures Inv(Apply(s, TakeHole(t, i, n)))
  {
    var a := StartOf(s.holes[i]);
    SplitPartition(s.tiles, s.bump, a, n, Claimed(t));
    AfterTakeTotal(s.holes, i, n);
    if n < s.holes[i].pages {
      HolesTakenPart(s.tiles, s.bump, s.holes, i, n, t);
    } else {
      HolesTakenWhole(s.tiles, s.holes, i, t);
    }
  }

  lemma MarkInv(s: State, a: nat, st: Status)
    requires Inv(s) && a in s.tiles && s.tiles[a].status != Parked && st != Parked
    ensures Inv(Mark(s, a, st))
  {
    var r := Mark(s, a, st);
    SameExtents(s.tiles, r.tiles, s.bump);
    HolesUnchanged(s.tiles, r.tiles, s.holes);
  }

  lemma ExtendInv(s: State, n: nat, t: nat)
    requires Inv(s) && n > 0 && s.bump + n <= s.size
    ensures Inv(Extend(s, n, Claimed(t)))
  {
    ExtendPartition(s, n, Claimed(t));
    HolesUnchanged(s.tiles, Extend(s, n, Claimed(t)).tiles, s.holes);
  }

  /** A slice parked in the store. */
  function Give(s: State, a: nat): State
    requires a in s.tiles
  {
    Mark(s, a, Parked).(holes := s.holes + [Hole(a * ARENA_ALIGN, s.tiles[a].pages)],
                        bytes := s.bytes + s.tiles[a].pages * ARENA_ALIGN)
  }

  lemma GiveInv(s: State, a: nat)
    requires Inv(s) && a in s.tiles && s.tiles[a].status != Parked
    ensures Inv(Give(s, a))
  {
    hide Partition, HolesMatch, TotalPages;
    GivePartition(s.tiles, s.bump, a);
    HolesGiven(s.tiles, s.holes, a);
    GiveBytes(s.holes, s.bytes, Hole(a * ARENA_ALIGN, s.tiles[a].pages));
  }

  lemma GivePartition(tiles: map<nat, Tile>, bump: nat, a: nat)
    requires Partition(tiles, bump) && a in tiles
    ensures Partition(tiles[a := tiles[a].(status := Parked)], bump)
  {
    hide Partition;
    SameExtents(tiles, tiles[a := tiles[a].(status := Parked)], bump);
  }

  lemma GiveBytes(holes: seq<Hole>, bytes: nat, h: Hole)
    requires bytes == TotalPages(holes) * ARENA_ALIGN
    ensures bytes + h.pages * ARENA_ALIGN == TotalPages(holes + [h]) * ARENA_ALIGN
  {
    hide TotalPages;
    TotalSnoc(holes, h);
  }

  lemma JoinParked(tiles: map<nat, Tile>, a: nat)
    requires a in tiles && a + tiles[a].pages in tiles
    requires tiles[a].status != Parked && tiles[a + tiles[a].pages].status != Parked
    ensures forall k :: k in tiles && tiles[k].status == Parked ==> k in Join(tiles, a) && Join(tiles, a)[k] == tiles[k]
    ensures forall k :: k in Join(tiles, a) && Join(tiles, a)[k].status == Parked ==> k in tiles && tiles[k] == Join(tiles, a)[k]
  {
  }

  lemma JoinInv(s: State, t: nat, a: nat)
    requires Inv(s) && Enabled(s, GrowCommit(t, a))
    ensures Inv(s.(tiles := Join(s.tiles, a)))
  {
    hide Partition, HolesMatch, Join;
    JoinPartition(s.tiles, s.bump, a);
    JoinParked(s.tiles, a);
    HolesUnchanged(s.tiles, Join(s.tiles, a), s.holes);
  }

  /** Every step of every thread keeps the partition and the hole accounts. */
  lemma StepInv(s: State, e: Step)
    requires Inv(s) && Enabled(s, e)
    ensures Inv(Apply(s, e))
  {
    hide Partition, HolesMatch;
    match e
    case TakeHole(t, i, n) => TakeHoleInv(s, t, i, n);
    case BumpClaim(t, n) => ExtendInv(s, n, t);
    case GrowClaim(t, a, k) => ExtendInv(s, k, t);
    case GrowCommit(t, a) => JoinInv(s, t, a);
    case GiveBack(t, a, kept) => if kept { GiveInv(s, a); } else { MarkInv(s, a, Abandoned); }
    case Commit(t, a) => MarkInv(s, a, Live(t));
    case Discard(t, a) => MarkInv(s, a, Claimed(t));
    case Pass(t, a, u) => MarkInv(s, a, Live(u));
  }

  ghost predicate Runs(s: State, es: seq<Step>, r: State)
    requires Inv(s)
    decreases |es|
  {
    if es == [] then r == s
    else Enabled(s, es[0]) && (StepInv(s, es[0]); Runs(Apply(s, es[0]), es[1..], r))
  }

  lemma InitialInv(size: nat)
    ensures Inv(Initial(size))
  {
  }

  lemma {:induction false} RunsInv(s: State, es: seq<Step>, r: State)
    requires Inv(s) && Runs(s, es, r)
    ensures Inv(r) && r.bump >= s.bump
    decreases |es|
  {
    if es != [] {
      StepInv(s, es[0]);
      RunsInv(Apply(s, es[0]), es[1..], r);
    }
  }

  // --------------------------------------------------------------- theorems

  /** In every run each page below the frontier is in exactly one slice, and the byte counter is
      the total size of the parked ones. */
  lemma EveryPageInOneSlice(size: nat, es: seq<Step>, s: State, x: nat)
    requires (InitialInv(size); Runs(Initial(size), es, s)) && x < s.bump
    ensures Covered(s.tiles, x)
    ensures forall a, b :: Covers(s.tiles, a, x) && Covers(s.tiles, b, x) ==> a == b
    ensures s.bytes == TotalPages(s.holes) * ARENA_ALIGN && s.bump <= s.size
  {
    InitialInv(size);
    RunsInv(Initial(size), es, s);
  }

  /** What a purge touches belongs to the purging thread alone: no other slice shares a page with it,
      and no hole lies in it. */
  lemma DiscardIsExclusive(size: nat, es: seq<Step>, s: State, t: nat, a: nat, b: nat, x: nat)
    requires (InitialInv(size); Runs(Initial(size), es, s))
    requires Enabled(s, Discard(t, a)) && Covers(s.tiles, a, x) && b in s.tiles && b != a
    ensures !Covers(s.tiles, b, x)
    ensures forall i :: 0 <= i < |s.holes| ==> StartOf(s.holes[i]) != a
  {
    InitialInv(size);
    RunsInv(Initial(size), es, s);
  }

  // ------------------------------------------------------- the life of a slice

  /** A claim at the frontier that the kernel maps becomes a live slice of the length asked for. */
  lemma BumpThenCommit(s: State, t: nat, n: nat)
    requires Inv(s) && n > 0 && s.bump + n <= s.size
    ensures var e, c := BumpClaim(t, n), Commit(t, s.bump);
            && Enabled(s, e) && Inv(Apply(s, e)) && Enabled(Apply(s, e), c)
            && Apply(Apply(s, e), c) == s.(tiles := s.tiles[s.bump := Tile(n, Live(t))], bump := s.bump + n)
  {
    hide Partition, HolesMatch;
    StepInv(s, BumpClaim(t, n));
  }

  /** Growing in place makes the slice longer by what was claimed, and changes no other. */
  lemma GrowthExtends(s: State, t: nat, a: nat, k: nat)
    requires Inv(s) && a in s.tiles && s.tiles[a].status == Live(t) && a + s.tiles[a].pages == s.bump
    requires 0 < k <= s.size - s.bump
    ensures Enabled(s, GrowClaim(t, a, k))
    ensures var e, c := GrowClaim(t, a, k), GrowCommit(t, a);
            && Inv(Apply(s, e)) && Enabled(Apply(s, e), c)
            && Apply(Apply(s, e), c) == s.(tiles := s.tiles[a := Tile(s.tiles[a].pages + k, Live(t))], bump := s.bump + k)
  {
    hide HolesMatch, Covered;
    StepInv(s, GrowClaim(t, a, k));
    assert s.bump !in s.tiles;
    var r := Apply(s, GrowClaim(t, a, k));
    assert r.tiles - {s.bump} == s.tiles;
  }

  /** A slice given up by the thread that holds it, after a pointer into it may have travelled, is purged by
      that thread and then parked, or abandoned if the store does not take it. */
  lemma DiscardThenGive(s: State, t: nat, a: nat, u: nat, kept: bool)
    requires Inv(s) && a in s.tiles && s.tiles[a].status == Live(t)
    ensures Enabled(s, Pass(t, a, u))
    ensures var p, d, g := Pass(t, a, u), Discard(u, a), GiveBack(u, a, kept);
            && Inv(Apply(s, p)) && Enabled(Apply(s, p), d) && Inv(Apply(Apply(s, p), d)) && Enabled(Apply(Apply(s, p), d), g)
            && Apply(Apply(Apply(s, p), d), g) ==
               if kept then
                 s.(tiles := s.tiles[a := Tile(s.tiles[a].pages, Parked)],
                    holes := s.holes + [Hole(a * ARENA_ALIGN, s.tiles[a].pages)],
                    bytes := s.bytes + s.tiles[a].pages * ARENA_ALIGN)
               else s.(tiles := s.tiles[a := Tile(s.tiles[a].pages, Abandoned)])
  {
    hide Partition, HolesMatch;
    StepInv(s, Pass(t, a, u));
    StepInv(Apply(s, Pass(t, a, u)), Discard(u, a));
  }

  lemma HoleTile(tiles: map<nat, Tile>, holes: seq<Hole>, i: nat)
    requires HolesMatch(tiles, holes) && i < |holes|
    ensures StartOf(holes[i]) in tiles && tiles[StartOf(holes[i])] == Tile(holes[i].pages, Parked)
  {
  }

  lemma SplitAt(tiles: map<nat, Tile>, a: nat, n: nat, st: Status)
    requires a in tiles && 0 < n <= tiles[a].pages
    ensures a in Split(tiles, a, n, st) && Split(tiles, a, n, st)[a] == Tile(n, st)
  {
  }

  lemma BytesBack(holes: seq<Hole>, i: nat, n: nat)
    requires i < |holes| && n <= holes[i].pages
    ensures var bytes := TotalPages(holes) * ARENA_ALIGN; SubBytes(bytes, n) + n * ARENA_ALIGN == bytes
  {
    AfterTakeTotal(holes, i, n);
  }

  /** Taking from the best-fitting hole claims the hole's first pages, and giving the claim back parks as many
      bytes as before, if in more pieces. */
  lemma TakeThenGive(s: State, t: nat, i: nat, n: nat)
    requires Inv(s) && n > 0 && BestFit(s.holes, n, i)
    ensures var e, g := TakeHole(t, i, n), GiveBack(t, StartOf(s.holes[i]), true);
            && Inv(Apply(s, e)) && Enabled(Apply(s, e), g)
            && Apply(s, e).tiles[StartOf(s.holes[i])] == Tile(n, Claimed(t))
            && Apply(Apply(s, e), g).bytes == s.bytes && Apply(Apply(s, e), g).bump == s.bump
  {
    hide Partition, HolesMatch, TotalPages, AfterTake, Split;
    StepInv(s, TakeHole(t, i, n));
    var a := StartOf(s.holes[i]);
    HoleTile(s.tiles, s.holes, i);
    SplitAt(s.tiles, a, n, Claimed(t));
    BytesBack(s.holes, i, n);
  }

  /** The frontier can be moved to the very end of the arena, by one claim or by growing the slice below it. */
  lemma FrontierReachesEnd(s: State, t: nat, a: nat)
    requires Inv(s) && s.bump < s.size
    ensures Enabled(s, BumpClaim(t, s.size - s.bump)) && Apply(s, BumpClaim(t, s.size - s.bump)).bump == s.size
    ensures a in s.tiles && s.tiles[a].status == Live(t) && a + s.tiles[a].pages == s.bump ==>
              Enabled(s, GrowClaim(t, a, s.size - s.bump)) && Apply(s, GrowClaim(t, a, s.size - s.bump)).bump == s.size
  {
    hide Partition, HolesMatch;
  }
}
