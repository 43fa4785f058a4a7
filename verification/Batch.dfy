/**
 Returning blocks in page-grouped batches has the effect of returning them one
 by one (src/cache.rs flush_bin, src/heap.rs release_many).
 */
module Batch {
  import opened Seqs
  import opened PageSpec
  import opened PageLife
  import opened Ownership

  ghost predicate HasUser(h: Heap, p: PageId) { exists b :: IsOut(h, b) && b.page == p }

  /** Two heaps agree on every page that still has users: the same count, the same
      available slots, the same materialized area and the same list membership. */
  ghost predicate SameForUsers(a: Heap, b: Heap) {
    && (forall x :: IsOut(a, x) <==> IsOut(b, x))
    && (forall p :: HasUser(a, p) ==>
          && p in a.pages && p in b.pages
          && a.pages[p].used == b.pages[p].used
          && Elems(a.pages[p].free) == Elems(b.pages[p].free)
          && Materialized(a.pages[p]) == Materialized(b.pages[p])
          && a.pages[p].linked == b.pages[p].linked)
  }

  /** `r` came from `h` by releases: pages that still have users kept their carved area. */
  ghost predicate Later(h: Heap, r: Heap) {
    && Wf(r) && Supplied(r) && r.cls == h.cls
    && (forall b :: IsOut(r, b) ==> IsOut(h, b))
    && (forall b :: IsOut(r, b) ==>
          b.page in h.pages && Materialized(r.pages[b.page]) == Materialized(h.pages[b.page]))
  }

  lemma LaterTrans(a: Heap, b: Heap, c: Heap)
    requires Later(a, b) && Later(b, c)
    ensures Later(a, c)
  {
  }

  lemma OneLater(h: Heap, g: Group)
    requires Wf(h) && Supplied(h) && Chunk(h, g.page, g.slots) && |g.slots| <= h.pages[g.page].used
    ensures Later(h, HeapAfter(h, g))
    ensures CameHome(h, HeapAfter(h, g), g.page, g.slots)
  {
    ReleaseSupplied(h, g.page, g.slots, g.discard);
    if g.shortcut && |g.slots| == h.pages[g.page].used {
      RetireFacts(h, g.page, g.slots, g.discard);
      RetireOthers(h, g.page, g.slots, g.discard);
    } else {
      ReleaseFacts(h, g.page, g.slots, g.discard);
      ReleaseOthers(h, g.page, g.slots, g.discard);
    }
  }

  lemma RetireOthers(h: Heap, p: PageId, slots: seq<nat>, d: Discard)
    requires Wf(h) && Chunk(h, p, slots) && |slots| == h.pages[p].used
    ensures forall q :: q in h.pages && q != p ==>
              q in Retire(h, p, d).pages && Materialized(Retire(h, p, d).pages[q]) == Materialized(h.pages[q])
    ensures forall b :: IsOut(Retire(h, p, d), b) ==> b.page != p
  {
    assert slots[0] in slots;
    OutPagesNotParked(h, Block(p, slots[0]));
    var pg := h.pages[p].(free := [], used := 0, virgin := false, reinit := true);
    ParkFacts(h.(pages := h.pages[p := pg]), p, d);
  }

  lemma ReleaseOthers(h: Heap, p: PageId, slots: seq<nat>, d: Discard)
    requires Wf(h) && Chunk(h, p, slots) && |slots| <= h.pages[p].used
    ensures var r := Release(h, p, slots, d);
            && (forall q :: q in h.pages && q != p ==>
                  q in r.pages && Materialized(r.pages[q]) == Materialized(h.pages[q]))
            && (forall b :: IsOut(r, b) && b.page == p ==> Materialized(r.pages[p]) == Materialized(h.pages[p]))
  {
    assert slots[0] in slots;
    OutPagesNotParked(h, Block(p, slots[0]));
    assert forall x: nat :: x in slots ==> IsOut(h, Block(p, x));
    OutBound(h.cls, h.pages[p], slots);
    ReturnedFacts(h, p, slots);
    var pg := Returned(h.pages[p], slots);
    if pg.used == 0 {
      ParkFacts(h.(pages := h.pages[p := pg]), p, d);
    }
  }

  // ----------------------------------------------------------- the two ways

  ghost predicate InGroups(groups: seq<Group>, b: Block) {
    exists i :: 0 <= i < |groups| && groups[i].page == b.page && b.slot in groups[i].slots
  }

  /** What grouping a chain produces: one chunk per page. */
  ghost predicate Plan(h: Heap, groups: seq<Group>) {
    && (forall i, j :: 0 <= i < j < |groups| ==> groups[i].page != groups[j].page)
    && (forall i :: 0 <= i < |groups| ==> Chunk(h, groups[i].page, groups[i].slots))
  }

  lemma ChunkFits(h: Heap, p: PageId, slots: seq<nat>)
    requires Wf(h) && Chunk(h, p, slots)
    ensures |slots| <= h.pages[p].used
  {
    assert forall x: nat :: x in slots ==> IsOut(h, Block(p, x));
    OutBound(h.cls, h.pages[p], slots);
  }

  lemma PlanRest(h: Heap, groups: seq<Group>)
    requires Wf(h) && Supplied(h) && Plan(h, groups) && groups != []
    requires |groups[0].slots| <= h.pages[groups[0].page].used
    ensures Plan(HeapAfter(h, groups[0]), groups[1..])
  {
    OneLater(h, groups[0]);
    var r := HeapAfter(h, groups[0]);
    var rest := groups[1..];
    forall i | 0 <= i < |rest| ensures Chunk(r, rest[i].page, rest[i].slots) {
      var g := groups[i + 1];
      assert Chunk(h, g.page, g.slots);
      assert forall x: nat :: x in g.slots ==> IsOut(r, Block(g.page, x));
      assert g.slots[0] in g.slots;
    }
  }

  ghost function Grouped(h: Heap, groups: seq<Group>): (r: Heap)
    requires Wf(h) && Supplied(h) && Plan(h, groups)
    decreases |groups|
  {
    if groups == [] then h
    else
      ChunkFits(h, groups[0].page, groups[0].slots);
      PlanRest(h, groups);
      OneLater(h, groups[0]);
      Grouped(HeapAfter(h, groups[0]), groups[1..])
  }

  function Single(b: Block, d: Discard): Group { Group(b.page, [b.slot], d, false) }

  ghost predicate AllOut(h: Heap, bs: seq<Block>) {
    NoDup(bs) && forall b :: b in bs ==> IsOut(h, b)
  }

  lemma SingleStep(h: Heap, bs: seq<Block>, d: Discard)
    requires Wf(h) && Supplied(h) && AllOut(h, bs) && bs != []
    ensures var g := Single(bs[0], d);
            && Chunk(h, g.page, g.slots) && 1 <= h.pages[g.page].used
            && HeapAfter(h, g) == Release(h, bs[0].page, [bs[0].slot], d)
            && Later(h, HeapAfter(h, g)) && AllOut(HeapAfter(h, g), bs[1..])
            && (forall b :: IsOut(HeapAfter(h, g), b) <==> IsOut(h, b) && b != bs[0])
  {
    var g := Single(bs[0], d);
    assert bs[0] in bs && bs[0] == Block(g.page, bs[0].slot);
    ChunkFits(h, g.page, g.slots);
    OneLater(h, g);
    assert forall b :: b in bs[1..] ==> b in bs && b != bs[0];
  }

  /** Return the blocks one at a time; `ds[i]` is what the backend reports if the i-th return purges. */
  ghost function OneByOne(h: Heap, bs: seq<Block>, ds: seq<Discard>): (r: Heap)
    requires Wf(h) && Supplied(h) && AllOut(h, bs) && |ds| == |bs|
    decreases |bs|
  {
    if bs == [] then h
    else
      SingleStep(h, bs, ds[0]);
      OneByOne(HeapAfter(h, Single(bs[0], ds[0])), bs[1..], ds[1..])
  }

  lemma {:induction false} GroupedFacts(h: Heap, groups: seq<Group>)
    requires Wf(h) && Supplied(h) && Plan(h, groups)
    ensures Later(h, Grouped(h, groups))
    ensures forall b :: IsOut(Grouped(h, groups), b) <==> IsOut(h, b) && !InGroups(groups, b)
    decreases |groups|
  {
    if groups != [] {
      ChunkFits(h, groups[0].page, groups[0].slots);
      PlanRest(h, groups);
      OneLater(h, groups[0]);
      var r := HeapAfter(h, groups[0]);
      GroupedFacts(r, groups[1..]);
      LaterTrans(h, r, Grouped(h, groups));
      forall b ensures InGroups(groups, b) <==>
        (groups[0].page == b.page && b.slot in groups[0].slots) || InGroups(groups[1..], b)
      {
        InGroupsCons(groups, b);
      }
    }
  }

  lemma InGroupsCons(groups: seq<Group>, b: Block)
    requires groups != []
    ensures InGroups(groups, b) <==>
      (groups[0].page == b.page && b.slot in groups[0].slots) || InGroups(groups[1..], b)
  {
    if InGroups(groups[1..], b) {
      var i :| 0 <= i < |groups[1..]| && groups[1..][i].page == b.page && b.slot in groups[1..][i].slots;
      assert groups[i + 1] == groups[1..][i];
    }
    if InGroups(groups, b) {
      var i :| 0 <= i < |groups| && groups[i].page == b.page && b.slot in groups[i].slots;
      if i > 0 {
        assert groups[1..][i - 1] == groups[i];
      }
    }
  }

  lemma {:induction false} OneByOneFacts(h: Heap, bs: seq<Block>, ds: seq<Discard>)
    requires Wf(h) && Supplied(h) && AllOut(h, bs) && |ds| == |bs|
    ensures Later(h, OneByOne(h, bs, ds))
    ensures forall b :: IsOut(OneByOne(h, bs, ds), b) <==> IsOut(h, b) && b !in bs
    decreases |bs|
  {
    if bs != [] {
      SingleStep(h, bs, ds[0]);
      var r := HeapAfter(h, Single(bs[0], ds[0]));
      OneByOneFacts(r, bs[1..], ds[1..]);
      LaterTrans(h, r, OneByOne(h, bs, ds));
      assert forall b :: b in bs <==> b == bs[0] || b in bs[1..];
    }
  }

  /** Users and the carved area determine the rest of a page. */
  lemma UsersDetermine(h: Heap, a: Heap, b: Heap, p: PageId)
    requires Later(h, a) && Later(h, b) && (forall x :: IsOut(a, x) <==> IsOut(b, x)) && HasUser(a, p)
    ensures p in a.pages && p in b.pages && Materialized(a.pages[p]) == Materialized(b.pages[p])
    ensures Elems(a.pages[p].free) == Elems(b.pages[p].free) && a.pages[p].used == b.pages[p].used
    ensures a.pages[p].linked == b.pages[p].linked
  {
    var x :| IsOut(a, x) && x.page == p;
    assert IsOut(b, x);
    OutPagesNotParked(a, x);
    OutPagesNotParked(b, x);
    assert forall i: nat :: IsOut(a, Block(p, i)) <==> IsOut(b, Block(p, i));
    NoDupElems(a.pages[p].free);
    NoDupElems(b.pages[p].free);
    forall i: nat ensures i in a.pages[p].free <==> i in b.pages[p].free {
      assert IsOut(a, Block(p, i)) <==> IsOut(b, Block(p, i));
    }
  }

  /** Grouping by page and releasing the chunks, with or without the retire shortcut, leaves every
      page that still has users as returning the same blocks one by one does. */
  lemma BatchEqualsSingles(h: Heap, groups: seq<Group>, bs: seq<Block>, ds: seq<Discard>)
    requires Wf(h) && Supplied(h) && Plan(h, groups) && AllOut(h, bs) && |ds| == |bs|
    requires forall b :: b in bs <==> InGroups(groups, b)
    ensures SameForUsers(Grouped(h, groups), OneByOne(h, bs, ds))
  {
    GroupedFacts(h, groups);
    OneByOneFacts(h, bs, ds);
    var a, c := Grouped(h, groups), OneByOne(h, bs, ds);
    forall p | HasUser(a, p)
      ensures && p in a.pages && p in c.pages && a.pages[p].used == c.pages[p].used
              && Elems(a.pages[p].free) == Elems(c.pages[p].free)
              && Materialized(a.pages[p]) == Materialized(c.pages[p])
              && a.pages[p].linked == c.pages[p].linked
    {
      UsersDetermine(h, a, c, p);
    }
  }

  // ------------------------------------------------- which pages a batch purges

  /** Returning a chunk changes no other page's header. */
  lemma OthersUntouched(h: Heap, g: Group, q: PageId)
    requires g.page in h.pages && |g.slots| <= h.pages[g.page].used && q in h.pages && q != g.page
    ensures q in HeapAfter(h, g).pages && HeapAfter(h, g).pages[q] == h.pages[q]
  {
  }

  /** A page that is purged or given up for unmapping got all its blocks back in this chunk. */
  lemma LeavesOnlyWhole(h: Heap, g: Group)
    requires g.page in h.pages && |g.slots| <= h.pages[g.page].used && g.page !in h.doomed
    requires var r := HeapAfter(h, g); g.page !in r.pages || g.page in r.doomed
    ensures |g.slots| == h.pages[g.page].used
  {
  }

  /** The heap when the i-th chunk's turn comes. */
  ghost function HeapAt(h: Heap, groups: seq<Group>, i: nat): (r: Heap)
    requires Wf(h) && Supplied(h) && Plan(h, groups) && i < |groups|
    decreases |groups|
  {
    if i == 0 then h
    else
      ChunkFits(h, groups[0].page, groups[0].slots);
      PlanRest(h, groups);
      OneLater(h, groups[0]);
      HeapAt(HeapAfter(h, groups[0]), groups[1..], i - 1)
  }

  lemma {:induction false} PageAtTurn(h: Heap, groups: seq<Group>, i: nat)
    requires Wf(h) && Supplied(h) && Plan(h, groups) && i < |groups|
    ensures var p, r := groups[i].page, HeapAt(h, groups, i);
            p in h.pages && p in r.pages && r.pages[p] == h.pages[p] && Wf(r) && Chunk(r, p, groups[i].slots)
    decreases |groups|
  {
    if i > 0 {
      ChunkFits(h, groups[0].page, groups[0].slots);
      PlanRest(h, groups);
      OneLater(h, groups[0]);
      OthersUntouched(h, groups[0], groups[i].page);
      hide Wf, Supplied, Plan, HeapAfter, Later, CameHome;
      PageAtTurn(HeapAfter(h, groups[0]), groups[1..], i - 1);
    }
  }

  /** The i-th chunk's page is purged, or given up for unmapping, when its turn comes. */
  ghost predicate PurgedAt(h: Heap, groups: seq<Group>, i: nat)
    requires Wf(h) && Supplied(h) && Plan(h, groups) && i < |groups|
  {
    var g, r := groups[i], HeapAt(h, groups, i);
    PageAtTurn(h, groups, i);
    ChunkFits(r, g.page, g.slots);
    g.page !in HeapAfter(r, g).pages || g.page in HeapAfter(r, g).doomed
  }

  /** Only a page all of whose used blocks are in the batch can be purged by it. */
  lemma PurgedIsWhole(h: Heap, groups: seq<Group>, i: nat)
    requires Wf(h) && Supplied(h) && Plan(h, groups) && i < |groups| && PurgedAt(h, groups, i)
    ensures groups[i].page in h.pages && |groups[i].slots| == h.pages[groups[i].page].used
  {
    var g, r := groups[i], HeapAt(h, groups, i);
    PageAtTurn(h, groups, i);
    ChunkFits(r, g.page, g.slots);
    assert g.slots[0] in g.slots;
    OutPagesNotParked(r, Block(g.page, g.slots[0]));
    hide Wf, Supplied, Plan, HeapAt, HeapAfter;
    LeavesOnlyWhole(r, g);
  }

  // --------------------------------------------------------------- grouping

  /** The slots of page `p` in a chain, in the chain's order. */
  ghost function SlotsOn(blocks: seq<Block>, p: PageId): (r: seq<nat>)
    ensures forall x :: x in r <==> Block(p, x) in blocks
  {
    if blocks == [] then [] else (if blocks[0].page == p then [blocks[0].slot] else []) + SlotsOn(blocks[1..], p)
  }

  /** `groups` are the blocks of `blocks`, one chunk per page, each in the chain's order. */
  ghost predicate GroupsOf(groups: seq<Group>, blocks: seq<Block>, d: Discard, exit: bool) {
    && (forall i, j :: 0 <= i < j < |groups| ==> groups[i].page != groups[j].page)
    && (forall i :: 0 <= i < |groups| ==> groups[i] == Group(groups[i].page, SlotsOn(blocks, groups[i].page), d, exit))
    && (forall i :: 0 <= i < |groups| ==> groups[i].slots != [] && NoDup(groups[i].slots))
    && (forall b :: b in blocks <==> InGroups(groups, b))
  }

  /** The grouping loop of a flush: pop the chain from the top and put each block under its page's
      chunk, opening a chunk for a page not seen yet. A flush at thread exit allows the shortcut. */
  method GroupByPage(blocks: seq<Block>, d: Discard, exit: bool) returns (groups: seq<Group>)
    requires NoDup(blocks)
    ensures GroupsOf(groups, blocks, d, exit)
    ensures |groups| <= |blocks|
  {
    hide GroupsOf, SlotsOn, InGroups, NoDup;
    groups := [];
    var n := |blocks|;
    NoGroups(d, exit);
    assert blocks[n..] == [];
    while n > 0
      invariant 0 <= n <= |blocks| && |groups| <= |blocks| - n
      invariant GroupsOf(groups, blocks[n..], d, exit)
    {
      n := n - 1;
      var b := blocks[n];
      var slot := 0;
      while slot < |groups| && groups[slot].page != b.page
        invariant slot <= |groups|
        invariant forall i :: 0 <= i < slot ==> groups[i].page != b.page
      {
        slot := slot + 1;
      }
      NewTop(blocks, n);
      if slot < |groups| {
        var g := groups[slot];
        ChunkGrows(groups, blocks[n + 1..], d, exit, slot, b);
        groups := groups[slot := g.(slots := [b.slot] + g.slots)];
      } else {
        ChunkOpens(groups, blocks[n + 1..], d, exit, b);
        groups := groups + [Group(b.page, [b.slot], d, exit)];
      }
    }
    assert blocks[0..] == blocks;
  }

  lemma NoGroups(d: Discard, exit: bool)
    ensures GroupsOf([], [], d, exit)
  {
  }

  lemma NewTop(blocks: seq<Block>, n: nat)
    requires NoDup(blocks) && n < |blocks|
    ensures blocks[n..] == [blocks[n]] + blocks[n + 1..] && blocks[n] !in blocks[n + 1..]
  {
  }

  lemma SlotsOnCons(b: Block, rest: seq<Block>, p: PageId)
    ensures SlotsOn([b] + rest, p) == (if b.page == p then [b.slot] else []) + SlotsOn(rest, p)
  {
    assert ([b] + rest)[1..] == rest;
  }

  lemma ChunkGrows(groups: seq<Group>, rest: seq<Block>, d: Discard, exit: bool, k: nat, b: Block)
    requires GroupsOf(groups, rest, d, exit) && b !in rest && k < |groups| && groups[k].page == b.page
    ensures var g := groups[k];
            GroupsOf(groups[k := g.(slots := [b.slot] + g.slots)], [b] + rest, d, exit)
  {
    var g := groups[k];
    var r := groups[k := g.(slots := [b.slot] + g.slots)];
    assert !InGroups(groups, b);
    NoDupSnoc(g.slots, b.slot);
    GroupsGrew(groups, r, k, b);
    hide SlotsOn, InGroups, NoDup;
    forall i | 0 <= i < |r| ensures r[i] == Group(r[i].page, SlotsOn([b] + rest, r[i].page), d, exit) {
      SlotsOnCons(b, rest, r[i].page);
    }
  }

  lemma ChunkOpens(groups: seq<Group>, rest: seq<Block>, d: Discard, exit: bool, b: Block)
    requires GroupsOf(groups, rest, d, exit) && forall i :: 0 <= i < |groups| ==> groups[i].page != b.page
    ensures GroupsOf(groups + [Group(b.page, [b.slot], d, exit)], [b] + rest, d, exit)
  {
    var r := groups + [Group(b.page, [b.slot], d, exit)];
    NotSeen(groups, rest, b.page);
    GroupsGrew(groups, r, |groups|, b);
    hide SlotsOn, InGroups;
    forall i | 0 <= i < |r| ensures r[i] == Group(r[i].page, SlotsOn([b] + rest, r[i].page), d, exit) {
      SlotsOnCons(b, rest, r[i].page);
    }
  }

  /** A page without a chunk has no block among those grouped. */
  lemma NotSeen(groups: seq<Group>, blocks: seq<Block>, p: PageId)
    requires forall b :: b in blocks <==> InGroups(groups, b)
    requires forall i :: 0 <= i < |groups| ==> groups[i].page != p
    ensures SlotsOn(blocks, p) == []
  {
    var s := SlotsOn(blocks, p);
    forall x: nat ensures x !in s {
      assert !InGroups(groups, Block(p, x));
    }
    SomeElement(s);
  }

  /** What the grouping loop builds from a chain the thread holds is a plan for those blocks. */
  lemma GroupsArePlan(h: Heap, blocks: seq<Block>, groups: seq<Group>, d: Discard, exit: bool)
    requires AllOut(h, blocks) && GroupsOf(groups, blocks, d, exit)
    ensures Plan(h, groups)
  {
    forall i | 0 <= i < |groups| ensures Chunk(h, groups[i].page, groups[i].slots) {
      var g := groups[i];
      forall x: nat | x in g.slots ensures IsOut(h, Block(g.page, x)) {
        assert InGroups(groups, Block(g.page, x));
      }
      assert g.slots[0] in g.slots;
    }
  }

  lemma GroupsGrew(before: seq<Group>, after: seq<Group>, k: nat, b: Block)
    requires k <= |before| && |after| == (if k < |before| then |before| else |before| + 1)
    requires forall i :: 0 <= i < |before| && i != k ==> after[i] == before[i]
    requires after[k].page == b.page
    requires k < |before| ==> before[k].page == b.page && after[k].slots == [b.slot] + before[k].slots
    requires k == |before| ==> after[k].slots == [b.slot]
    ensures forall x :: InGroups(after, x) <==> InGroups(before, x) || x == b
  {
    forall x ensures InGroups(after, x) <==> InGroups(before, x) || x == b {
      if InGroups(before, x) {
        var i :| 0 <= i < |before| && before[i].page == x.page && x.slot in before[i].slots;
        assert after[i].page == x.page && x.slot in after[i].slots;
      }
      if x == b {
        assert after[k].page == x.page && x.slot in after[k].slots;
      }
      if InGroups(after, x) {
        var i :| 0 <= i < |after| && after[i].page == x.page && x.slot in after[i].slots;
        assert i == k || before[i] == after[i];
        assert i == k && k < |before| && x.slot != b.slot ==> x.slot in before[k].slots;
        assert x == Block(x.page, x.slot) && b == Block(b.page, b.slot);
      }
    }
  }
}
