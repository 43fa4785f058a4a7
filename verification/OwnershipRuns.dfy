/**
 Whole runs of the ownership protocol, and what holds in every state they
 reach: a page dies only when nobody holds one of its blocks (src/heap.rs:4-8).
 */
module OwnershipRuns {
  import opened Seqs
  import opened PageSpec
  import opened PageLife
  import opened Ownership
  import Batch

  datatype Event =
    | AllocHit(key: Key)                                       // pop a bin, or split the refill chain
    | Free(key: Key, block: Block)                             // push a user block
    | Write(block: Block, value: int)                          // the user writes into its block
    | Hand(from: Key, to: Key)                                 // install a refill, steal a bin
    | Flush(key: Key, tid: nat, n: nat)                        // pop n blocks to return them
    | Take(tid: nat, want: nat, junk: map<Block, int>)         // locked section of take_blocks
    | Map(page: PageId)                                        // map and initialize, no lock held
    | LinkTake(tid: nat, page: PageId, want: nat)              // second locked section of take_blocks
    | ReleaseBatch(tid: nat, groups: seq<Group>)               // locked section of a release
    | Discharge(page: PageId)                                  // unmap a doomed page, no lock held

  ghost predicate BatchOk(s: State, t: nat, groups: seq<Group>)
    requires Inv(s)
    decreases |groups|
  {
    groups == [] ||
    (&& GroupOk(s, t, groups[0])
     && (GroupChunk(s, t, groups[0]);
         ReleaseInv(s, t, groups[0]);
         BatchOk(ReleaseGroup(s, t, groups[0]), t, groups[1..])))
  }

  ghost function ReleaseAll(s: State, t: nat, groups: seq<Group>): (r: State)
    requires Inv(s) && BatchOk(s, t, groups)
    ensures Inv(r)
    decreases |groups|
  {
    if groups == [] then s
    else
      GroupChunk(s, t, groups[0]);
      ReleaseInv(s, t, groups[0]);
      ReleaseAll(ReleaseGroup(s, t, groups[0]), t, groups[1..])
  }

  ghost predicate Enabled(s: State, e: Event)
    requires Inv(s)
  {
    match e
    case AllocHit(k) => ChainOf(s, k).blocks != []
    case Free(k, b) => b in s.owner && s.owner[b] == User
    case Write(b, v) => b in s.owner && s.owner[b] == User
    case Hand(from, to) => from != to && ChainOf(s, to).blocks == []
    case Flush(k, t, n) => k in s.chains && k.Bin? && n <= |s.chains[k].blocks| && ChainOf(s, Flight(t)).blocks == []
    case Take(t, want, junk) => ChainOf(s, Flight(t)).blocks == []
    case Map(p) => p !in s.h.pages && !ColdPage(s.h, p)
    case LinkTake(t, p, want) => p in s.h.newborn && ChainOf(s, Flight(t)).blocks == []
    case ReleaseBatch(t, groups) => BatchOk(s, t, groups)
    case Discharge(p) => p in s.h.doomed
  }

  ghost function Apply(s: State, e: Event): (r: State)
    requires Inv(s) && Enabled(s, e)
  {
    match e
    case AllocHit(k) => PopTop(s, k)
    case Free(k, b) => PushTop(s, k, b)
    case Write(b, v) => s.(mem := s.mem[b := v])
    case Hand(from, to) => MoveChain(s, from, to)
    case Flush(k, t, n) => Detach(s, k, t, n)
    case Take(t, want, junk) => TakeLocked(s, t, want, junk)
    case Map(p) => MapZeroed(s, p)
    case LinkTake(t, p, want) =>
      LinkInv(s, p);
      FillFlight(s.(h := LinkFresh(s.h, p)), t, want)
    case ReleaseBatch(t, groups) => ReleaseAll(s, t, groups)
    case Discharge(p) => s.(h := Unmap(s.h, p))
  }

  lemma TakeInv(s: State, t: nat, want: nat, junk: map<Block, int>)
    requires Inv(s) && ChainOf(s, Flight(t)).blocks == []
    ensures Inv(TakeLocked(s, t, want, junk))
  {
    hide InvOwner, InvChains, InvAbsent, Supplied, Fill, ReuseCold, ReuseEmpty, Overwrite;
    FillInv(s, t, want);
    var a := FillFlight(s, t, want);
    var b := RefillEmpty(a, t, want);
    if !Refilled(a, t) && a.h.empty != [] {
      assert a.h.empty[0] in a.h.empty;
      WakeEmptyInv(a);
      FillInv(WakeEmpty(a), t, want);
    }
    if !Refilled(b, t) && b.h.cold != [] {
      WakeColdInv(b, junk);
      FillInv(WakeCold(b, junk), t, want);
    }
  }

  /** Every step of every thread keeps the invariant. */
  lemma StepInv(s: State, e: Event)
    requires Inv(s) && Enabled(s, e)
    ensures Inv(Apply(s, e))
  {
    match e
    case AllocHit(k) => PopInv(s, k);
    case Free(k, b) => PushInv(s, k, b);
    case Write(b, v) => WriteInv(s, b, v);
    case Hand(from, to) => MoveInv(s, from, to);
    case Flush(k, t, n) => DetachInv(s, k, t, n);
    case Take(t, want, junk) => TakeInv(s, t, want, junk);
    case Map(p) => MapInv(s, p);
    case LinkTake(t, p, want) =>
      LinkInv(s, p);
      FillInv(s.(h := LinkFresh(s.h, p)), t, want);
    case ReleaseBatch(t, groups) =>
    case Discharge(p) => UnmapInv(s, p);
  }

  /** `es` is a run from `s` that ends in `r`. */
  ghost predicate Runs(s: State, es: seq<Event>, r: State)
    requires Inv(s)
    decreases |es|
  {
    if es == [] then r == s
    else Enabled(s, es[0]) && (StepInv(s, es[0]); Runs(Apply(s, es[0]), es[1..], r))
  }

  lemma InitialInv(cls: SizeClass)
    requires cls.capacity > 0
    ensures Inv(Initial(cls))
  {
  }

  ghost predicate Reachable(cls: SizeClass, es: seq<Event>, s: State)
    requires cls.capacity > 0
  {
    InitialInv(cls);
    Runs(Initial(cls), es, s)
  }

  lemma {:induction false} RunsInv(s: State, es: seq<Event>, r: State)
    requires Inv(s) && Runs(s, es, r)
    ensures Inv(r)
    decreases |es|
  {
    if es != [] {
      StepInv(s, es[0]);
      RunsInv(Apply(s, es[0]), es[1..], r);
    }
  }

  lemma ReachableInv(cls: SizeClass, es: seq<Event>, s: State)
    requires cls.capacity > 0 && Reachable(cls, es, s)
    ensures Inv(s)
  {
    InitialInv(cls);
    RunsInv(Initial(cls), es, s);
  }

  // -------------------------------------------------------- exactly one place

  datatype Place = Tail | OnPage(i: nat) | OnChain(key: Key, j: nat) | WithUser

  ghost predicate At(s: State, b: Block, pl: Place)
    requires b.page in s.h.pages
  {
    match pl
    case Tail => Materialized(s.h.pages[b.page]) <= b.slot
    case OnPage(i) => i < |s.h.pages[b.page].free| && s.h.pages[b.page].free[i] == b.slot
    case OnChain(k, j) => k in s.chains && j < |s.chains[k].blocks| && s.chains[k].blocks[j] == b
    case WithUser => b in s.owner && s.owner[b] == User
  }

  /** In every reachable state each slot of each mapped page is in exactly one place. */
  lemma OnePlace(cls: SizeClass, es: seq<Event>, s: State, b: Block)
    requires cls.capacity > 0 && Reachable(cls, es, s) && b.page in s.h.pages && b.slot < s.h.cls.capacity
    ensures exists pl :: At(s, b, pl)
    ensures forall x, y :: At(s, b, x) && At(s, b, y) ==> x == y
  {
    ReachableInv(cls, es, s);
    var pg := s.h.pages[b.page];
    if Materialized(pg) <= b.slot {
      assert At(s, b, Tail);
    } else if b.slot in pg.free {
      var i :| 0 <= i < |pg.free| && pg.free[i] == b.slot;
      assert At(s, b, OnPage(i));
    } else {
      assert IsOut(s.h, b);
      if s.owner[b] == User {
        assert At(s, b, WithUser);
      } else {
        var k := s.owner[b].key;
        assert Holds(s.chains, k, b);
        var j :| 0 <= j < |s.chains[k].blocks| && s.chains[k].blocks[j] == b;
        assert At(s, b, OnChain(k, j));
      }
    }
    forall x, y | At(s, b, x) && At(s, b, y) ensures x == y {
      PlaceUnique(s, b, x, y);
    }
  }

  lemma PlaceUnique(s: State, b: Block, x: Place, y: Place)
    requires Inv(s) && b.page in s.h.pages && At(s, b, x) && At(s, b, y)
    ensures x == y
  {
    assert WfPage(s.h.cls, s.h.pages[b.page]);
    assert x.OnPage? ==> b.slot in s.h.pages[b.page].free;
    assert y.OnPage? ==> b.slot in s.h.pages[b.page].free;
    assert x.OnChain? ==> Holds(s.chains, x.key, b);
    assert y.OnChain? ==> Holds(s.chains, y.key, b);
  }

  // ------------------------------------------------------------ `used` counts

  ghost function HeldOf(s: State, p: PageId): set<Block> { set b | b in s.owner && b.page == p }

  lemma {:induction false} BlocksOfSize(p: PageId, slots: set<nat>)
    ensures |set x | x in slots :: Block(p, x)| == |slots|
  {
    if slots != {} {
      var x :| x in slots;
      BlocksOfSize(p, slots - {x});
      assert (set y | y in slots :: Block(p, y)) == (set y | y in slots - {x} :: Block(p, y)) + {Block(p, x)};
    }
  }

  /** `used` is exactly the number of blocks that a cache, a carried chain or a user holds. */
  lemma UsedCountsHolders(cls: SizeClass, es: seq<Event>, s: State, p: PageId)
    requires cls.capacity > 0 && Reachable(cls, es, s) && p in s.h.pages
    ensures s.h.pages[p].used == |HeldOf(s, p)|
  {
    ReachableInv(cls, es, s);
    var pg := s.h.pages[p];
    var m := Materialized(pg);
    NoDupElems(pg.free);
    assert Elems(pg.free) <= Upto(m);
    SubsetSize(Elems(pg.free), Upto(m));
    var outside := Upto(m) - Elems(pg.free);
    BlocksOfSize(p, outside);
    var image := set x | x in outside :: Block(p, x);
    forall b ensures b in image <==> b in HeldOf(s, p) {
      if b in HeldOf(s, p) {
        assert IsOut(s.h, b);
        assert b.slot in outside && b == Block(p, b.slot);
      }
    }
    assert HeldOf(s, p) == image;
  }

  // ------------------------------------------- no page dies while it is needed

  /** Every page on the empty list, in the cold array or waiting to be unmapped is held by nobody. */
  lemma DeadPagesAreFree(cls: SizeClass, es: seq<Event>, s: State, p: PageId)
    requires cls.capacity > 0 && Reachable(cls, es, s)
    requires p in s.h.empty || p in s.h.doomed || ColdPage(s.h, p)
    ensures HeldOf(s, p) == {}
  {
    ReachableInv(cls, es, s);
    if p in s.h.empty || p in s.h.doomed {
      IdleHoldsAll(s.h, p);
    }
    assert forall b :: b in HeldOf(s, p) ==> IsOut(s.h, b);
  }

  /** In every run, when a release takes a page off the heap or purges it, the releasing thread was carrying
      every block of the page that was outside: the purge acts on exclusively owned memory. A batch reaches
      the states between its chunks as releases of one chunk each do. */
  lemma PurgeIsExclusive(cls: SizeClass, es: seq<Event>, s: State, t: nat, g: Group, b: Block)
    requires cls.capacity > 0 && Reachable(cls, es, s) && GroupOk(s, t, g)
    requires g.page in s.h.pages && |g.slots| <= s.h.pages[g.page].used
    requires b in s.owner && b.page == g.page
    requires var r := HeapAfter(s.h, g);
             g.page in r.empty || g.page in r.doomed || ColdPage(r, g.page)
    ensures s.owner[b] == InChain(Flight(t))
  {
    ReachableInv(cls, es, s);
    PurgeByHolder(s, t, g, b);
  }

  lemma PurgeByHolder(s: State, t: nat, g: Group, b: Block)
    requires Inv(s) && GroupOk(s, t, g)
    requires g.page in s.h.pages && |g.slots| <= s.h.pages[g.page].used
    requires b in s.owner && b.page == g.page
    requires var r := HeapAfter(s.h, g);
             g.page in r.empty || g.page in r.doomed || ColdPage(r, g.page)
    ensures s.owner[b] == InChain(Flight(t))
  {
    HeapAfterFacts(s, t, g);
    var r := HeapAfter(s.h, g);
    if g.page in r.empty || g.page in r.doomed {
      IdleHoldsAll(r, g.page);
    }
    assert IsOut(s.h, b) && !IsOut(r, b);
    assert Holds(s.chains, Flight(t), Block(g.page, b.slot));
  }

  /** No header that is read or written and no block that anybody holds lies in a decommitted range. */
  lemma NothingTouchesAbsent(cls: SizeClass, es: seq<Event>, s: State)
    requires cls.capacity > 0 && Reachable(cls, es, s)
    ensures forall p :: p in s.h.pages ==> p !in s.absent
    ensures forall b :: b in s.owner ==> b.page !in s.absent
    ensures s.h.cold != [] ==> forall junk :: s.h.cold[|s.h.cold| - 1].page !in WakeCold(s, junk).absent
  {
    ReachableInv(cls, es, s);
    forall p | p in s.h.pages ensures p !in s.absent {
    }
    forall b | b in s.owner ensures b.page !in s.absent {
      assert IsOut(s.h, b);
    }
  }

  /** A refill fails to find a block only when nothing linked, parked or cold is left. */
  lemma TakeFindsBlocks(cls: SizeClass, es: seq<Event>, s: State, t: nat, want: nat, junk: map<Block, int>)
    requires cls.capacity > 0 && Reachable(cls, es, s) && ChainOf(s, Flight(t)).blocks == [] && want > 0
    ensures Wf(s.h)
    ensures Refilled(TakeLocked(s, t, want, junk), t) <==> s.h.partial != [] || s.h.empty != [] || s.h.cold != []
  {
    ReachableInv(cls, es, s);
    TakeFinds(s, t, want, junk);
  }

  lemma TakeFinds(s: State, t: nat, want: nat, junk: map<Block, int>)
    requires Inv(s) && ChainOf(s, Flight(t)).blocks == [] && want > 0
    ensures Refilled(TakeLocked(s, t, want, junk), t) <==> s.h.partial != [] || s.h.empty != [] || s.h.cold != []
  {
    hide InvOwner, InvChains, InvAbsent, Supplied, Fill;
    FillInv(s, t, want);
    LinkedYields(s.h, want);
    var a := FillFlight(s, t, want);
    if !Refilled(a, t) && a.h.empty != [] {
      assert a.h.empty[0] in a.h.empty;
      WakeEmptyInv(a);
      LinkedYields(ReuseEmpty(a.h), want);
    }
    var b := RefillEmpty(a, t, want);
    if !Refilled(b, t) && b.h.cold != [] {
      WakeColdInv(b, junk);
      LinkedYields(ReuseCold(b.h), want);
    }
  }

  lemma LinkedYields(h: Heap, want: nat)
    requires Wf(h) && Supplied(h) && want > 0
    ensures Fill(h, want).out != [] <==> h.partial != []
    ensures h.partial == [] ==> Fill(h, want).h == h
  {
    if h.partial != [] {
      assert h.partial[0] in h.partial;
    }
  }

  ghost predicate Matches(s: State, t: nat, f: Taken) {
    && s.h == f.h && ChainOf(s, Flight(t)) == Chain(f.out, if f.virgin then |f.out| else 0)
    && (f.out == [] ==> f.virgin)
  }

  lemma FillMatches(s: State, t: nat, want: nat)
    requires Inv(s) && want > 0
    ensures Matches(FillFlight(s, t, want), t, Fill(s.h, want))
  {
    LinkedYields(s.h, want);
  }

  lemma EmptyMatches(a: State, t: nat, want: nat, f: Taken)
    requires Inv(a) && want > 0 && Matches(a, t, f)
    ensures Matches(RefillEmpty(a, t, want), t, TakeEmpty(f, want)) && Inv(RefillEmpty(a, t, want))
  {
    if !Refilled(a, t) && a.h.empty != [] {
      assert a.h.empty[0] in a.h.empty;
      WakeEmptyInv(a);
      FillMatches(WakeEmpty(a), t, want);
      FillInv(WakeEmpty(a), t, want);
    }
  }

  lemma ColdMatches(b: State, t: nat, want: nat, junk: map<Block, int>, f: Taken)
    requires Inv(b) && want > 0 && Matches(b, t, f)
    ensures Matches(RefillCold(b, t, want, junk), t, TakeCold(f, want))
  {
    if !Refilled(b, t) && b.h.cold != [] {
      WakeColdInv(b, junk);
      FillMatches(WakeCold(b, junk), t, want);
    }
  }

  /** The step of the protocol is what the locked section computes: the same heap, the same chain
      and, as a watermark, the same virgin report. */
  lemma TakeIsTakeHeap(s: State, t: nat, want: nat, junk: map<Block, int>)
    requires Inv(s) && ChainOf(s, Flight(t)).blocks == [] && want > 0
    ensures var r := TakeLocked(s, t, want, junk);
            var f := TakeHeap(s.h, want);
            r.h == f.h && ChainOf(r, Flight(t)) == Chain(f.out, if f.virgin then |f.out| else 0)
  {
    FillInv(s, t, want);
    FillMatches(s, t, want);
    var a := FillFlight(s, t, want);
    EmptyMatches(a, t, want, Fill(s.h, want));
    ColdMatches(RefillEmpty(a, t, want), t, want, junk, TakeEmpty(Fill(s.h, want), want));
  }

  // --------------------------------------------------- blocks come and go

  lemma Three(s: State, a: Event, b: Event, c: Event)
    requires Inv(s) && Enabled(s, a) && Inv(Apply(s, a)) && Enabled(Apply(s, a), b)
    requires Inv(Apply(Apply(s, a), b)) && Enabled(Apply(Apply(s, a), b), c)
    ensures Runs(s, [a, b, c], Apply(Apply(Apply(s, a), b), c))
  {
    hide Inv, Enabled, Apply;
    var s1 := Apply(s, a);
    var s2 := Apply(s1, b);
    StepInv(s, a);
    StepInv(s1, b);
    StepInv(s2, c);
    assert [a, b, c][1..] == [b, c] && [b, c][1..] == [c] && [c][1..] == [];
    assert Runs(Apply(s2, c), [], Apply(s2, c));
    assert Runs(s2, [c], Apply(s2, c));
    assert Runs(s1, [b, c], Apply(s2, c));
  }

  /** Freeing and allocating again returns the same block and leaves the chain as it was. */
  lemma FreeThenAlloc(s: State, k: Key, b: Block)
    requires b in s.owner && s.owner[b] == User && ChainOf(s, k).virgin <= |ChainOf(s, k).blocks|
    ensures var r := PushTop(s, k, b);
            ChainOf(r, k).blocks != [] && ChainOf(r, k).blocks[|ChainOf(r, k).blocks| - 1] == b
            && !ReportsZero(ChainOf(r, k)) && PopTop(r, k) == s.(chains := s.chains[k := ChainOf(s, k)])
  {
    var r := PushTop(s, k, b);
    var c := ChainOf(s, k);
    assert (c.blocks + [b])[..|c.blocks|] == c.blocks;
    assert PopTop(r, k).owner == s.owner;
    assert PopTop(r, k).chains == s.chains[k := c];
  }

  /** A whole chain can always be handed to an empty key, and changes hands with its watermark. */
  lemma HandMoves(s: State, from: Key, to: Key)
    requires Inv(s) && from != to && ChainOf(s, to).blocks == []
    ensures Enabled(s, Hand(from, to))
    ensures var r := MoveChain(s, from, to);
            ChainOf(r, to) == ChainOf(s, from) && ChainOf(r, from).blocks == []
            && forall k :: k != from && k != to ==> ChainOf(r, k) == ChainOf(s, k)
  {
    hide Inv;
  }

  /** Any number of a bin's blocks can be flushed: the top ones are carried, in order, and the rest stays. */
  lemma FlushMoves(s: State, k: Key, t: nat, n: nat)
    requires Inv(s) && k in s.chains && k.Bin? && n <= |s.chains[k].blocks| && ChainOf(s, Flight(t)).blocks == []
    ensures Enabled(s, Flush(k, t, n))
    ensures var r := Apply(s, Flush(k, t, n));
            var m := |s.chains[k].blocks| - n;
            && ChainOf(r, k) == Keep(s.chains[k], m) && ChainOf(r, Flight(t)).blocks == s.chains[k].blocks[m..]
            && forall j :: j != k && j != Flight(t) ==> ChainOf(r, j) == ChainOf(s, j)
  {
    hide Inv;
  }

  lemma FlushOne(s: State, k: Key, t: nat, b: Block)
    requires b in s.owner && k != Flight(t)
    ensures |ChainOf(PushTop(s, k, b), k).blocks| >= 1
    ensures var m := Detach(PushTop(s, k, b), k, t, 1);
            && m.h == s.h && m.owner.Keys == s.owner.Keys
            && (forall x :: x in s.owner && x !in [b] ==> m.owner[x] == s.owner[x])
            && ChainOf(m, Flight(t)).blocks == [b] && ChainOf(m, k).blocks == ChainOf(s, k).blocks
  {
    var c := ChainOf(s, k);
    assert (c.blocks + [b])[..|c.blocks|] == c.blocks && (c.blocks + [b])[|c.blocks|..] == [b];
  }

  lemma ReleaseOne(m: State, k: Key, t: nat, g: Group, b: Block)
    requires Inv(m) && ChainOf(m, Flight(t)).blocks == [b] && g.page == b.page && g.slots == [b.slot] && k != Flight(t)
    ensures BatchOk(m, t, [g])
    ensures var r := ReleaseAll(m, t, [g]);
            && (forall x :: IsOut(r.h, x) <==> IsOut(m.h, x) && x != b) && r.owner == m.owner - {b}
            && ChainOf(r, k) == ChainOf(m, k) && ChainOf(r, Flight(t)).blocks == []
  {
    hide InvOwner, InvChains, InvAbsent, Supplied, Wf, IsOut, HeapAfter;
    forall x: nat | x in g.slots ensures Block(g.page, x) in ChainOf(m, Flight(t)).blocks {
      assert b == Block(g.page, x);
    }
    GroupChunk(m, t, g);
    HeapAfterFacts(m, t, g);
    ReleaseInv(m, t, g);
    var r := ReleaseGroup(m, t, g);
    assert forall x: Block :: x.page == g.page && x.slot in g.slots <==> x == b;
    assert Without([b], b.page, [b.slot]) == [];
    assert ReleaseAll(m, t, [g]) == r;
  }

  /** Every block a user holds can come home, whatever the backend reports: freed, flushed out of its bin
      and released, it, and no other block, is back inside its page. */
  lemma BlockComesHome(s: State, k: Key, t: nat, b: Block, d: Discard, shortcut: bool)
    requires Inv(s) && b in s.owner && s.owner[b] == User && k.Bin? && ChainOf(s, Flight(t)).blocks == []
    ensures exists r :: Runs(s, [Free(k, b), Flush(k, t, 1), ReleaseBatch(t, [Group(b.page, [b.slot], d, shortcut)])], r) &&
              (forall x :: IsOut(r.h, x) <==> IsOut(s.h, x) && x != b) && r.owner == s.owner - {b}
              && ChainOf(r, k).blocks == ChainOf(s, k).blocks && ChainOf(r, Flight(t)).blocks == []
  {
    hide InvOwner, InvChains, InvAbsent, Supplied, Wf, IsOut, ReleaseAll, BatchOk, PushTop, Detach, Runs;
    FlushOne(s, k, t, b);
    var e, f, g := Free(k, b), Flush(k, t, 1), Group(b.page, [b.slot], d, shortcut);
    StepInv(s, e);
    var a := Apply(s, e);
    assert ChainOf(a, Flight(t)).blocks == [] && k in a.chains by { FreeKeeps(s, k, t, b); }
    StepInv(a, f);
    var m := Apply(a, f);
    ReleaseOne(m, k, t, g, b);
    Three(s, e, f, ReleaseBatch(t, [g]));
    assert m.owner - {b} == s.owner - {b};
  }

  lemma FreeKeeps(s: State, k: Key, t: nat, b: Block)
    requires k != Flight(t)
    ensures ChainOf(PushTop(s, k, b), Flight(t)) == ChainOf(s, Flight(t)) && k in PushTop(s, k, b).chains
  {
  }

  /** The thread's carried chain may have gained blocks that were inside their pages; nothing else moved. */
  ghost predicate Gained(s: State, r: State, t: nat) {
    && (forall k :: k != Flight(t) ==> ChainOf(r, k) == ChainOf(s, k))
    && (forall x :: x in s.owner ==> x in r.owner && r.owner[x] == s.owner[x])
  }

  lemma FillGains(s: State, t: nat, want: nat)
    requires Inv(s)
    ensures Gained(s, FillFlight(s, t, want), t)
  {
    FillMoves(s.h, want);
    hide Wf, Supplied, Fill, IsOut, Pristine, InvChains, NoDup, InvAbsent;
    var f := Fill(s.h, want);
    forall b | b in f.out ensures b !in s.owner {
      var i :| 0 <= i < |f.out| && f.out[i] == b;
    }
  }

  lemma GainsAdd(s: State, a: State, r: State, t: nat)
    requires Gained(s, a, t) && Gained(a, r, t)
    ensures Gained(s, r, t)
  {
  }

  lemma TakeGains(s: State, t: nat, want: nat, junk: map<Block, int>)
    requires Inv(s) && ChainOf(s, Flight(t)).blocks == []
    ensures Gained(s, TakeLocked(s, t, want, junk), t)
  {
    hide InvOwner, InvChains, InvAbsent, Supplied, Fill, ReuseCold, ReuseEmpty, Overwrite, Wf, Gained, FillFlight;
    FillInv(s, t, want);
    FillGains(s, t, want);
    var a := FillFlight(s, t, want);
    EmptyGains(a, t, want);
    var b := RefillEmpty(a, t, want);
    GainsAdd(s, a, b, t);
    ColdGains(b, t, want, junk);
    GainsAdd(s, b, RefillCold(b, t, want, junk), t);
  }

  lemma EmptyGains(a: State, t: nat, want: nat)
    requires Inv(a)
    ensures Gained(a, RefillEmpty(a, t, want), t) && Inv(RefillEmpty(a, t, want))
  {
    hide InvOwner, InvChains, InvAbsent, Supplied, Fill, ReuseEmpty, FillFlight;
    if !Refilled(a, t) && a.h.empty != [] {
      assert a.h.empty[0] in a.h.empty;
      WakeEmptyInv(a);
      FillInv(WakeEmpty(a), t, want);
      FillGains(WakeEmpty(a), t, want);
    }
  }

  lemma ColdGains(b: State, t: nat, want: nat, junk: map<Block, int>)
    requires Inv(b)
    ensures Gained(b, RefillCold(b, t, want, junk), t)
  {
    hide InvOwner, InvChains, InvAbsent, Supplied, Fill, ReuseCold, Overwrite, FillFlight;
    if !Refilled(b, t) && b.h.cold != [] {
      WakeColdInv(b, junk);
      FillGains(WakeCold(b, junk), t, want);
    }
  }

  /** The top block of a chain that changed hands belongs to the user who pops it. */
  lemma HandOwners(s: State, from: Key, to: Key)
    requires Inv(s) && from != to && ChainOf(s, to).blocks == [] && ChainOf(s, from).blocks != []
    ensures var c := ChainOf(s, from);
            var b := c.blocks[|c.blocks| - 1];
            var r := PopTop(MoveChain(s, from, to), to);
            && b in s.owner && s.owner[b] == InChain(from) && b in r.owner && r.owner[b] == User
            && forall x :: x in s.owner && s.owner[x] != InChain(from) ==> x in r.owner && r.owner[x] == s.owner[x]
  {
    HandMoves(s, from, to);
    forall x | x in ChainOf(s, from).blocks ensures x in s.owner && s.owner[x] == InChain(from) {
      assert Holds(s.chains, from, x);
    }
  }

  lemma NobodyIn(s: State, k: Key)
    requires Inv(s) && ChainOf(s, k).blocks == []
    ensures forall x :: x in s.owner ==> s.owner[x] != InChain(k)
  {
    forall x | x in s.owner && s.owner[x].InChain? ensures ChainOf(s, s.owner[x].key).blocks != [] {
      assert Holds(s.chains, s.owner[x].key, x);
    }
  }

  /** While a page of the class is linked, parked or cold, any thread with an empty bin can get a block to its
      user: a locked take, the installation of its chain and one allocation. The block was inside its page,
      and nobody loses one. */
  lemma BlockCanBeHad(s: State, k: Key, t: nat, want: nat, junk: map<Block, int>)
    requires Inv(s) && k.Bin? && ChainOf(s, k).blocks == [] && ChainOf(s, Flight(t)).blocks == [] && want > 0
    requires s.h.partial != [] || s.h.empty != [] || s.h.cold != []
    ensures exists r, b :: Runs(s, [Take(t, want, junk), Hand(Flight(t), k), AllocHit(k)], r)
              && b in r.owner && r.owner[b] == User && !IsOut(s.h, b)
              && forall x :: x in s.owner ==> x in r.owner && r.owner[x] == s.owner[x]
  {
    hide InvChains, InvAbsent, Supplied, Wf, IsOut, TakeLocked, MoveChain, Runs;
    var e, f, g := Take(t, want, junk), Hand(Flight(t), k), AllocHit(k);
    StepInv(s, e);
    TakeFinds(s, t, want, junk);
    TakeGains(s, t, want, junk);
    assert forall x :: x in s.owner ==> s.owner[x] != InChain(Flight(t)) by { NobodyIn(s, Flight(t)); }
    var a := Apply(s, e);
    StepInv(a, f);
    var m := Apply(a, f);
    HandMoves(a, Flight(t), k);
    Three(s, e, f, g);
    var c := ChainOf(m, k);
    var b := c.blocks[|c.blocks| - 1];
    HandOwners(a, Flight(t), k);
    assert b !in s.owner;
  }

  /** A refill while a page is linked yields blocks that were inside their pages. */
  lemma FillYields(l: State, t: nat, want: nat)
    requires Inv(l) && l.h.partial != [] && want > 0
    ensures var r := FillFlight(l, t, want);
            && Refilled(r, t) && Gained(l, r, t) && forall x :: x in ChainOf(r, Flight(t)).blocks ==> !IsOut(l.h, x)
  {
    hide InvOwner, InvChains, InvAbsent, Fill, IsOut, Pristine, NoDup;
    LinkedYields(l.h, want);
    FillGains(l, t, want);
    FillMoves(l.h, want);
    hide Wf, Supplied;
    var out := Fill(l.h, want).out;
    assert forall x :: x in out ==> exists i :: 0 <= i < |out| && out[i] == x;
  }

  /** A page mapped outside the lock and linked under it yields blocks that were not outside before, whatever
      else there is. */
  lemma FreshPageYields(s: State, t: nat, p: PageId, want: nat)
    requires Inv(s) && p !in s.h.pages && !ColdPage(s.h, p) && ChainOf(s, Flight(t)).blocks == [] && want > 0
    ensures Enabled(s, Map(p))
    ensures var m := Apply(s, Map(p));
            && Inv(m) && Enabled(m, LinkTake(t, p, want))
            && var r := Apply(m, LinkTake(t, p, want));
               Refilled(r, t) && Gained(s, r, t) && forall x :: x in ChainOf(r, Flight(t)).blocks ==> !IsOut(s.h, x)
  {
    hide InvOwner, InvChains, InvAbsent, Supplied, Wf, FillFlight, Overwrite, IsOut, Pristine;
    StepInv(s, Map(p));
    MapFreshFacts(s.h, p);
    var m := MapZeroed(s, p);
    LinkInv(m, p);
    LinkFreshFacts(m.h, p);
    FillYields(m.(h := LinkFresh(m.h, p)), t, want);
  }

  /** Unmapping a page forgets it, and its address may be mapped again. */
  lemma DischargedIsGone(s: State, p: PageId)
    requires Inv(s) && p in s.h.doomed
    ensures Enabled(s, Discharge(p))
    ensures var r := Apply(s, Discharge(p));
            && Inv(r) && p !in r.h.pages && p !in r.h.doomed && Enabled(r, Map(p))
            && (forall q :: q != p ==> (q in r.h.pages <==> q in s.h.pages)) && r.chains == s.chains && r.owner == s.owner
  {
    StepInv(s, Discharge(p));
    UnmapFacts(s.h, p);
    NotCold(s.h, p);
  }

  /** A user's write changes what its own block holds, and nothing else. */
  lemma WriteLands(s: State, b: Block, v: int)
    requires Inv(s) && b in s.owner && s.owner[b] == User
    ensures Enabled(s, Write(b, v))
    ensures var r := Apply(s, Write(b, v));
            && s.owner[b] == User && r == s.(mem := r.mem) && Body(r.mem, b) == v
            && forall x :: x != b ==> Body(r.mem, x) == Body(s.mem, x)
  {
    hide Inv;
  }

  // ------------------------------------------------------------ whole batches

  /** One chunk per page, each of blocks that the thread carries. */
  ghost predicate Carried(s: State, t: nat, groups: seq<Group>) {
    && (forall i, j :: 0 <= i < j < |groups| ==> groups[i].page != groups[j].page)
    && (forall i :: 0 <= i < |groups| ==> GroupOk(s, t, groups[i]))
  }

  lemma CarriedRest(s: State, t: nat, groups: seq<Group>)
    requires Inv(s) && Carried(s, t, groups) && groups != []
    requires groups[0].page in s.h.pages && |groups[0].slots| <= s.h.pages[groups[0].page].used
    ensures Carried(ReleaseGroup(s, t, groups[0]), t, groups[1..])
  {
    hide Inv, HeapAfter, NoDup;
    var r := ReleaseGroup(s, t, groups[0]);
    forall i | 0 <= i < |groups[1..]| ensures GroupOk(r, t, groups[1..][i]) {
      assert GroupOk(s, t, groups[i + 1]);
    }
  }

  /** Whatever a thread carries can be released in one batch, one chunk for each page, and the heap afterwards
      is the batch's. */
  lemma {:induction false} CarriedCanBeReleased(s: State, t: nat, groups: seq<Group>)
    requires Inv(s) && Carried(s, t, groups)
    ensures Batch.Plan(s.h, groups) && Enabled(s, ReleaseBatch(t, groups))
    ensures Apply(s, ReleaseBatch(t, groups)).h == Batch.Grouped(s.h, groups)
    decreases |groups|
  {
    hide InvOwner, InvChains, InvAbsent, Wf, Supplied, HeapAfter, NoDup, IsOut, Without;
    forall i | 0 <= i < |groups| ensures Chunk(s.h, groups[i].page, groups[i].slots) {
      GroupChunk(s, t, groups[i]);
    }
    if groups != [] {
      GroupChunk(s, t, groups[0]);
      ReleaseInv(s, t, groups[0]);
      CarriedRest(s, t, groups);
      CarriedCanBeReleased(ReleaseGroup(s, t, groups[0]), t, groups[1..]);
    }
  }

  // -------------------------------------------------------- what users rely on

  /** The contents of every block a user holds are kept. */
  ghost predicate UsersKept(s: State, r: State) {
    forall b :: b in s.owner && s.owner[b] == User ==> Body(r.mem, b) == Body(s.mem, b)
  }

  lemma WakeColdKeeps(s: State, junk: map<Block, int>)
    requires Inv(s) && s.h.cold != []
    ensures UsersKept(s, WakeCold(s, junk)) && WakeCold(s, junk).owner == s.owner
  {
    hide InvChains, InvAbsent, Supplied;
    var p := s.h.cold[|s.h.cold| - 1].page;
    assert ColdPage(s.h, p);
    forall b | b in s.owner ensures b.page != p {
      assert IsOut(s.h, b);
    }
  }

  lemma TakeKeeps(s: State, t: nat, want: nat, junk: map<Block, int>)
    requires Inv(s) && ChainOf(s, Flight(t)).blocks == []
    ensures UsersKept(s, TakeLocked(s, t, want, junk))
  {
    hide InvOwner, InvChains, InvAbsent, Supplied, Fill, ReuseCold, ReuseEmpty, Overwrite, Wf, UsersKept, WakeCold;
    FillInv(s, t, want);
    FillGains(s, t, want);
    var a := FillFlight(s, t, want);
    EmptyGains(a, t, want);
    var b := RefillEmpty(a, t, want);
    GainsAdd(s, a, b, t);
    MemFrame(s, b);
    if !Refilled(b, t) && b.h.cold != [] {
      WakeColdKeeps(b, junk);
      KeptSame(b, WakeCold(b, junk), TakeLocked(s, t, want, junk));
      KeptFrom(s, b, TakeLocked(s, t, want, junk), t);
    }
  }

  lemma MemFrame(s: State, r: State)
    ensures r.mem == s.mem ==> UsersKept(s, r)
  {
  }

  lemma KeptSame(s: State, a: State, r: State)
    requires UsersKept(s, a) && r.mem == a.mem
    ensures UsersKept(s, r)
  {
  }

  lemma KeptFrom(s: State, a: State, r: State, t: nat)
    requires Gained(s, a, t) && a.mem == s.mem
    ensures UsersKept(a, r) ==> UsersKept(s, r)
  {
  }

  lemma ReleaseKeeps(s: State, t: nat, g: Group)
    requires Inv(s) && GroupOk(s, t, g)
    requires g.page in s.h.pages && |g.slots| <= s.h.pages[g.page].used
    ensures UsersKept(s, ReleaseGroup(s, t, g))
    ensures forall b :: b in s.owner && s.owner[b] == User ==>
              b in ReleaseGroup(s, t, g).owner && ReleaseGroup(s, t, g).owner[b] == User
  {
    hide InvOwner, InvChains, InvAbsent, Supplied, Wf, HeapAfter, NoDup, Overwrite;
    var r := HeapAfter(s.h, g);
    ColdAfter(s.h, g);
    if Purged(s.h, r) {
      assert r.cold[|s.h.cold|].page == g.page;
      forall b | b in s.owner && s.owner[b] == User ensures b.page != g.page {
        if b.page == g.page {
          PurgeByHolder(s, t, g, b);
        }
      }
    }
    forall x: nat | x in g.slots ensures Holds(s.chains, Flight(t), Block(g.page, x)) {
    }
    CarriedIsNotUsers(s, t, g);
  }

  lemma CarriedIsNotUsers(s: State, t: nat, g: Group)
    requires Inv(s) && GroupOk(s, t, g)
    ensures forall b :: b in s.owner && s.owner[b] == User ==> !(b.page == g.page && b.slot in g.slots)
  {
    hide Wf, Supplied, InvAbsent;
    forall b: Block | b.page == g.page && b.slot in g.slots ensures b in s.owner && s.owner[b] != User {
      assert b == Block(g.page, b.slot);
      assert Holds(s.chains, Flight(t), b);
    }
  }

  lemma {:induction false} BatchKeeps(s: State, t: nat, groups: seq<Group>)
    requires Inv(s) && BatchOk(s, t, groups)
    ensures UsersKept(s, ReleaseAll(s, t, groups))
    decreases |groups|
  {
    hide InvOwner, InvChains, InvAbsent, Wf, Supplied, HeapAfter, NoDup, IsOut, Without, Overwrite;
    if groups != [] {
      GroupChunk(s, t, groups[0]);
      ReleaseInv(s, t, groups[0]);
      ReleaseKeeps(s, t, groups[0]);
      BatchKeeps(ReleaseGroup(s, t, groups[0]), t, groups[1..]);
    }
  }

  /** No step of any thread, purges and recommits that leave anything included, changes what a block in a
      user's hands holds, except that user's own write. */
  lemma UserDataStays(s: State, e: Event, b: Block)
    requires Inv(s) && Enabled(s, e) && b in s.owner && s.owner[b] == User && (e.Write? ==> e.block != b)
    ensures Body(Apply(s, e).mem, b) == Body(s.mem, b)
  {
    hide InvOwner, InvChains, InvAbsent, Wf, Supplied, HeapAfter, NoDup, IsOut, Without, Overwrite, Fill;
    match e
    case Take(t, want, junk) => TakeKeeps(s, t, want, junk);
    case ReleaseBatch(t, groups) => BatchKeeps(s, t, groups);
    case Map(p) => OutIsMapped(s, b);
    case LinkTake(t, p, want) => LinkInv(s, p);
    case _ =>
  }

  lemma OutIsMapped(s: State, b: Block)
    requires Inv(s) && b in s.owner
    ensures b.page in s.h.pages
  {
    assert IsOut(s.h, b);
  }
}
