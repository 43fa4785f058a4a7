/**
 One size class of the page heap as plain values: what each section that runs
 under the class lock does to the class' pages and lists (src/heap.rs) and how
 a page materializes its blocks (src/page.rs).

 The same values describe the three tiers. A small page carves lazily; a
 medium or big span carves everything when it is initialized, so for it
 `Provision` never finds anything left to carve.
 */
module PageSpec {
  import opened Seqs

  type PageId = nat

  datatype Block = Block(page: PageId, slot: nat)

  /** `emptyCap` and `coldCap` bound the two retention lists of the class. */
  datatype SizeClass = SizeClass(capacity: nat, lazy: bool, emptyCap: nat, coldCap: nat)

  /** A page header. `free` lists the free slots from the bottom of the intrusive
      list to its top, so the slot that the next pop yields is the last one. */
  datatype Page = Page(free: seq<nat>, used: nat, virgin: bool, reinit: bool, linked: bool)

  /** A cold entry keeps what the purge reported beside the pointer: the header is gone. */
  datatype Cold = Cold(page: PageId, zeroed: bool, decommitted: bool)

  /** What the backend's purge reports. */
  datatype Discard = Discard(physical: bool, zeroed: bool)

  /** `newborn` pages are initialized by their mapper and not yet linked; `doomed`
      pages were released over the caps and wait to be unmapped outside the lock. */
  datatype Heap = Heap(
    cls: SizeClass,
    pages: map<PageId, Page>,
    partial: seq<PageId>,
    empty: seq<PageId>,
    cold: seq<Cold>,
    newborn: set<PageId>,
    doomed: set<PageId>)

  // ---------------------------------------------------------------- pages

  function Materialized(pg: Page): nat { pg.used + |pg.free| }

  /** Blocks the page can still supply: free ones and ones not carved yet. */
  function Avail(cls: SizeClass, pg: Page): nat {
    if pg.used <= cls.capacity then cls.capacity - pg.used else 0
  }

  function Ascending(n: nat): (r: seq<nat>) { seq(n, i requires 0 <= i < n => i) }

  /** Slots `m .. m + n` as a stack whose top is `m`. */
  function Descending(m: nat, n: nat): (r: seq<nat>) { seq(n, i requires 0 <= i < n => m + n - 1 - i) }

  function InitPage(cls: SizeClass): (r: Page)
  {
    Page(if cls.lazy then [] else Ascending(cls.capacity), 0, true, false, false)
  }

  /** Materialize up to `max` further blocks, lowest slot on top. */
  function Provision(cls: SizeClass, pg: Page, max: nat): (r: Page)
  {
    var m := Materialized(pg);
    var n := if m <= cls.capacity then Min(cls.capacity - m, max) else 0;
    pg.(free := pg.free + Descending(m, n))
  }

  /** Take one block off a page, provisioning first when its free list is empty. */
  function TakeOne(cls: SizeClass, pg: Page, want: nat): (r: (nat, Page))
    requires Materialized(pg) <= cls.capacity && pg.used < cls.capacity && want > 0
  {
    var q := if pg.free == [] then Provision(cls, pg, want) else pg;
    (q.free[|q.free| - 1], Pop(q))
  }

  ghost predicate WfPage(cls: SizeClass, pg: Page) {
    && Materialized(pg) <= cls.capacity
    && NoDup(pg.free)
    && (forall x: nat :: x in pg.free ==> x < Materialized(pg))
  }

  // ---------------------------------------------------------------- heap

  /** The block is outside its page: carved and not on the page's free list. */
  ghost predicate IsOut(h: Heap, b: Block) {
    b.page in h.pages && b.slot < Materialized(h.pages[b.page]) && b.slot !in h.pages[b.page].free
  }

  /** The page still carries FLAG_VIRGIN and the slot has not left it. */
  ghost predicate Pristine(h: Heap, b: Block) {
    b.page in h.pages && h.pages[b.page].virgin && b.slot < h.cls.capacity && !IsOut(h, b)
  }

  ghost predicate ColdPage(h: Heap, p: PageId) { exists i :: 0 <= i < |h.cold| && h.cold[i].page == p }

  /** Every page header is well formed and the lists are disjoint and linked as their flags say. */
  ghost predicate Wf(h: Heap) {
    && h.cls.capacity > 0
    && (forall p :: p in h.pages ==> WfPage(h.cls, h.pages[p]))
    && NoDup(h.partial) && NoDup(h.empty)
    && (forall p :: p in h.partial ==> p in h.pages && h.pages[p].linked)
    && (forall p :: p in h.pages && h.pages[p].linked ==> p in h.partial)
    && (forall p :: p in h.empty ==> Idle(h, p) && p !in h.newborn && p !in h.doomed)
    && (forall p :: p in h.newborn ==> Idle(h, p) && p !in h.doomed)
    && (forall p :: p in h.doomed ==> Idle(h, p))
    && (forall i, j :: 0 <= i < j < |h.cold| ==> h.cold[i].page != h.cold[j].page)
    && (forall i :: 0 <= i < |h.cold| ==> h.cold[i].page !in h.pages)
    && |h.empty| <= h.cls.emptyCap && |h.cold| <= h.cls.coldCap
  }

  /** Mapped, no user, on no partial list. */
  ghost predicate Idle(h: Heap, p: PageId) {
    p in h.pages && h.pages[p].used == 0 && !h.pages[p].linked
  }

  ghost predicate Parked(h: Heap, p: PageId) { p in h.empty || p in h.newborn || p in h.doomed }

  /** Nothing that could supply a block is lost: exactly the pages that are in use
      and can still supply one are linked. */
  ghost predicate Supplied(h: Heap) {
    && (forall p :: p in h.pages && h.pages[p].linked ==> Avail(h.cls, h.pages[p]) > 0)
    && (forall p :: p in h.pages && !h.pages[p].linked && !Parked(h, p) ==> h.pages[p].used == h.cls.capacity)
  }

  function Link(h: Heap, p: PageId): (r: Heap)
    requires p in h.pages
  {
    h.(pages := h.pages[p := h.pages[p].(linked := true)], partial := [p] + h.partial)
  }

  function Unlink(h: Heap, p: PageId): (r: Heap)
    requires p in h.pages
  {
    if !h.pages[p].linked then h
    else h.(pages := h.pages[p := h.pages[p].(linked := false)], partial := Remove(h.partial, p))
  }

  /** One block off the head of the partial list; an exhausted page leaves the list. */
  function TakeHead(h: Heap, want: nat): (r: (Heap, Block))
    requires Wf(h) && h.partial != [] && want > 0 && Avail(h.cls, h.pages[h.partial[0]]) > 0
  {
    var p := h.partial[0];
    var (slot, pg) := TakeOne(h.cls, h.pages[p], want);
    var h1 := h.(pages := h.pages[p := pg]);
    (if Avail(h.cls, pg) == 0 then Unlink(h1, p) else h1, Block(p, slot))
  }

  // ------------------------------------------------------------ page facts

  lemma DescendingFacts(m: nat, n: nat)
    ensures NoDup(Descending(m, n))
    ensures forall x: nat :: x in Descending(m, n) <==> m <= x < m + n
  {
    var d := Descending(m, n);
    forall x: nat | m <= x < m + n ensures x in d {
      assert d[m + n - 1 - x] == x;
    }
  }

  lemma ProvisionFacts(cls: SizeClass, pg: Page, max: nat)
    requires WfPage(cls, pg)
    ensures WfPage(cls, Provision(cls, pg, max))
    ensures Materialized(Provision(cls, pg, max)) == Min(cls.capacity, Materialized(pg) + max)
    ensures forall x: nat :: x in Provision(cls, pg, max).free <==>
                             x in pg.free || Materialized(pg) <= x < Materialized(Provision(cls, pg, max))
  {
    var m := Materialized(pg);
    var n := Min(cls.capacity - m, max);
    DescendingFacts(m, n);
    NoDupConcat(pg.free, Descending(m, n));
  }

  function Pop(pg: Page): (r: Page)
    requires pg.free != []
  {
    pg.(free := pg.free[..|pg.free| - 1], used := pg.used + 1)
  }

  lemma PopFacts(cls: SizeClass, pg: Page)
    requires WfPage(cls, pg) && pg.free != []
    ensures WfPage(cls, Pop(pg)) && Materialized(Pop(pg)) == Materialized(pg)
    ensures pg.free[|pg.free| - 1] < Materialized(pg)
    ensures forall x: nat :: x in Pop(pg).free <==> x in pg.free && x != pg.free[|pg.free| - 1]
  {
    assert pg.free[|pg.free| - 1] in pg.free;
    NoDupPrefix(pg.free);
  }

  /** Taking from a page yields a slot that was inside it, and moves exactly that slot out. */
  lemma TakeOneFacts(cls: SizeClass, pg: Page, want: nat)
    requires WfPage(cls, pg) && pg.used < cls.capacity && want > 0
    ensures var (slot, q) := TakeOne(cls, pg, want);
            && WfPage(cls, q) && q.used == pg.used + 1 && slot < Materialized(q) && slot !in q.free
            && (slot in pg.free || slot >= Materialized(pg))
            && (forall x: nat :: x < Materialized(q) && x !in q.free <==>
                                 x == slot || (x < Materialized(pg) && x !in pg.free))
  {
    if pg.free == [] {
      ProvisionFacts(cls, pg, want);
      PopFacts(cls, Provision(cls, pg, want));
    } else {
      PopFacts(cls, pg);
    }
  }

  lemma InitFacts(cls: SizeClass)
    ensures WfPage(cls, InitPage(cls))
    ensures forall x: nat :: x < Materialized(InitPage(cls)) ==> x in InitPage(cls).free
  {
    forall x: nat | x < Materialized(InitPage(cls)) ensures x in InitPage(cls).free {
      assert InitPage(cls).free[x] == x;
    }
  }

  /** A page without users has no block outside it. */
  lemma IdleHoldsAll(h: Heap, p: PageId)
    requires p in h.pages && WfPage(h.cls, h.pages[p]) && h.pages[p].used == 0
    ensures forall b: Block :: b.page == p ==> !IsOut(h, b)
  {
    Pigeonhole(h.pages[p].free, Materialized(h.pages[p]));
  }

  // ------------------------------------------------------- partial-list facts

  /** Replacing a linked page's header by another well-formed linked one keeps the heap well formed. */
  lemma WfUpdate(h: Heap, p: PageId, pg: Page)
    requires Wf(h) && p in h.partial && WfPage(h.cls, pg) && pg.linked
    ensures Wf(h.(pages := h.pages[p := pg]))
  {
  }

  lemma UnlinkFacts(h: Heap, p: PageId)
    requires Wf(h) && p in h.pages
    ensures var r := Unlink(h, p);
            && Wf(r) && r.pages.Keys == h.pages.Keys && !r.pages[p].linked
            && r.pages == h.pages[p := h.pages[p].(linked := false)]
            && (forall b :: IsOut(r, b) <==> IsOut(h, b))
            && (forall b :: Pristine(r, b) <==> Pristine(h, b))
            && (forall q :: q in r.partial <==> q in h.partial && q != p)
  {
    RemoveNoDup(h.partial, p);
    if !h.pages[p].linked {
      assert h.pages == h.pages[p := h.pages[p].(linked := false)];
    }
    UnlinkWf(h, p);
    hide Wf, NoDup, Remove;
    FlagKeepsBlocks(h, Unlink(h, p), p, false);
    assert !h.pages[p].linked ==> p !in h.partial;
  }

  lemma UnlinkWf(h: Heap, p: PageId)
    requires Wf(h) && p in h.pages
    ensures Wf(Unlink(h, p)) && (!h.pages[p].linked ==> p !in h.partial)
  {
    RemoveNoDup(h.partial, p);
    FlagFacts(h.cls, h.pages[p], false);
    hide NoDup, WfPage, Materialized;
  }

  lemma FlagKeepsBlocks(h: Heap, r: Heap, p: PageId, linked: bool)
    requires p in h.pages && r.cls == h.cls && r.pages == h.pages[p := h.pages[p].(linked := linked)]
    ensures forall b :: IsOut(r, b) <==> IsOut(h, b)
    ensures forall b :: Pristine(r, b) <==> Pristine(h, b)
  {
    FlagFacts(h.cls, h.pages[p], linked);
    hide WfPage, Materialized;
  }

  /** The list flag is no part of a page's block bookkeeping. */
  lemma FlagFacts(cls: SizeClass, pg: Page, linked: bool)
    ensures WfPage(cls, pg) <==> WfPage(cls, pg.(linked := linked))
    ensures Materialized(pg) == Materialized(pg.(linked := linked))
  {
  }

  lemma LinkFacts(h: Heap, p: PageId)
    requires Wf(h) && p in h.pages && !h.pages[p].linked && !Parked(h, p)
    ensures var r := Link(h, p);
            && Wf(r)
            && (forall b :: IsOut(r, b) <==> IsOut(h, b))
            && (forall b :: Pristine(r, b) <==> Pristine(h, b))
  {
    NoDupSnoc(h.partial, p);
    FlagFacts(h.cls, h.pages[p], true);
    hide NoDup, WfPage, Materialized;
  }

  /** Blocks the linked pages can supply together. */
  ghost function SumAvail(cls: SizeClass, pages: map<PageId, Page>, list: seq<PageId>): nat
    requires forall p :: p in list ==> p in pages
  {
    if list == [] then 0 else Avail(cls, pages[list[0]]) + SumAvail(cls, pages, list[1..])
  }

  lemma {:induction false} SumAvailFrame(cls: SizeClass, a: map<PageId, Page>, b: map<PageId, Page>, list: seq<PageId>)
    requires forall p :: p in list ==> p in a && p in b && a[p].used == b[p].used
    ensures SumAvail(cls, a, list) == SumAvail(cls, b, list)
  {
    if list != [] {
      SumAvailFrame(cls, a, b, list[1..]);
    }
  }

  /** What leaves the heap when `out` is taken: those blocks and no others, and nothing turns pristine. */
  ghost predicate Moved(h: Heap, r: Heap, out: seq<Block>) {
    && Wf(r) && r.cls == h.cls && r.empty == h.empty && r.cold == h.cold
    && r.newborn == h.newborn && r.doomed == h.doomed
    && (forall b :: b in out ==> !IsOut(h, b))
    && (forall b :: IsOut(r, b) <==> IsOut(h, b) || b in out)
    && (forall b :: Pristine(r, b) ==> Pristine(h, b))
  }

  /** Rewriting one linked page's header so that only `slot` leaves it moves only that block. */
  lemma UpdateMoves(h: Heap, p: PageId, slot: nat, pg: Page)
    requires Wf(h) && p in h.partial && WfPage(h.cls, pg) && pg.linked
    requires pg.virgin == h.pages[p].virgin && !IsOut(h, Block(p, slot))
    requires forall x: nat :: x < Materialized(pg) && x !in pg.free <==> x == slot || IsOut(h, Block(p, x))
    ensures Moved(h, h.(pages := h.pages[p := pg]), [Block(p, slot)])
  {
    WfUpdate(h, p, pg);
    var r := h.(pages := h.pages[p := pg]);
    forall b ensures IsOut(r, b) <==> IsOut(h, b) || b in [Block(p, slot)] {
      if b.page == p {
        assert b == Block(p, b.slot);
      }
    }
  }

  lemma MovedTrans(a: Heap, b: Heap, c: Heap, s: seq<Block>, t: seq<Block>)
    requires Moved(a, b, s) && Moved(b, c, t)
    ensures Moved(a, c, s + t)
  {
  }

  lemma UnlinkMoves(h: Heap, p: PageId)
    requires Wf(h) && p in h.pages
    ensures Moved(h, Unlink(h, p), []) && Moved(h, h, [])
  {
    UnlinkFacts(h, p);
    hide Wf, IsOut, Pristine;
  }

  /** The header after one block was taken, before the page leaves the list. */
  lemma TakenOnce(h: Heap, want: nat)
    requires Wf(h) && h.partial != [] && want > 0 && Avail(h.cls, h.pages[h.partial[0]]) > 0
    ensures var p := h.partial[0];
            var (slot, pg) := TakeOne(h.cls, h.pages[p], want);
            var h1 := h.(pages := h.pages[p := pg]);
            Moved(h, h1, [Block(p, slot)]) && (h.pages[p].virgin ==> Pristine(h, Block(p, slot)))
  {
    var p := h.partial[0];
    TakeOneFacts(h.cls, h.pages[p], want);
    var (slot, pg) := TakeOne(h.cls, h.pages[p], want);
    UpdateMoves(h, p, slot, pg);
  }

  lemma TakeHeadMoves(h: Heap, want: nat)
    requires Wf(h) && h.partial != [] && want > 0 && Avail(h.cls, h.pages[h.partial[0]]) > 0
    ensures var (r, b) := TakeHead(h, want);
            Moved(h, r, [b]) && (h.pages[h.partial[0]].virgin ==> Pristine(h, b))
  {
    TakenOnce(h, want);
    hide Wf, WfPage, NoDup, TakeOne, Avail, IsOut, Pristine, Unlink;
    var p := h.partial[0];
    var (slot, pg) := TakeOne(h.cls, h.pages[p], want);
    var h1 := h.(pages := h.pages[p := pg]);
    UnlinkMoves(h1, p);
    MovedTrans(h, h1, TakeHead(h, want).0, [Block(p, slot)], []);
    assert [Block(p, slot)] + [] == [Block(p, slot)];
  }

  lemma TakeHeadSum(h: Heap, want: nat)
    requires Wf(h) && h.partial != [] && want > 0 && Avail(h.cls, h.pages[h.partial[0]]) > 0
    ensures var (r, b) := TakeHead(h, want);
            Wf(r) && SumAvail(h.cls, r.pages, r.partial) == SumAvail(h.cls, h.pages, h.partial) - 1
  {
    var p := h.partial[0];
    TakeHeadMoves(h, want);
    TakeOneFacts(h.cls, h.pages[p], want);
    var (r, b) := TakeHead(h, want);
    var rest := h.partial[1..];
    assert p !in rest;
    assert forall q :: q in rest ==> q in h.partial;
    SumAvailFrame(h.cls, h.pages, r.pages, rest);
    assert r.partial == h.partial || r.partial == rest;
  }

  lemma UnlinkHeadSum(h: Heap)
    requires Wf(h) && h.partial != [] && Avail(h.cls, h.pages[h.partial[0]]) == 0
    ensures var r := Unlink(h, h.partial[0]);
            && Wf(r) && r.cls == h.cls && r.partial == h.partial[1..]
            && SumAvail(h.cls, r.pages, r.partial) == SumAvail(h.cls, h.pages, h.partial)
  {
    var p := h.partial[0];
    UnlinkFacts(h, p);
    assert forall q :: q in h.partial[1..] ==> q in h.partial;
    SumAvailFrame(h.cls, h.pages, Unlink(h, p).pages, h.partial[1..]);
  }

  lemma TakeHeadSupplied(h: Heap, want: nat)
    requires Wf(h) && Supplied(h) && h.partial != [] && want > 0
    ensures h.partial[0] in h.pages && Avail(h.cls, h.pages[h.partial[0]]) > 0
    ensures Wf(TakeHead(h, want).0) && Supplied(TakeHead(h, want).0)
  {
    var p := h.partial[0];
    TakeOneFacts(h.cls, h.pages[p], want);
    var (slot, pg) := TakeOne(h.cls, h.pages[p], want);
    WfUpdate(h, p, pg);
    var h1 := h.(pages := h.pages[p := pg]);
    TakeHeadMoves(h, want);
    assert pg.linked && pg.used == h.pages[p].used + 1 && p in h.partial;
    hide IsOut, Pristine, TakeOne, WfPage, NoDup, Materialized;
    UnlinkFacts(h1, p);
    ExhaustedSupplied(h, p, pg);
  }

  /** A linked page that hands out one more block stays linked unless it was its last. */
  lemma ExhaustedSupplied(h: Heap, p: PageId, pg: Page)
    requires Wf(h) && Supplied(h) && p in h.partial && pg.linked && pg.used == h.pages[p].used + 1
    ensures var h1 := h.(pages := h.pages[p := pg]);
            Supplied(if Avail(h.cls, pg) == 0 then Unlink(h1, p) else h1)
  {
    hide WfPage, NoDup, Materialized;
    assert h.pages[p].linked;
    assert !Parked(h, p) by {
      assert p in h.empty ==> Idle(h, p);
      assert p in h.newborn ==> Idle(h, p);
      assert p in h.doomed ==> Idle(h, p);
    }
  }

  // ---------------------------------------------------------------- refill

  datatype Taken = Taken(h: Heap, out: seq<Block>, virgin: bool)

  /** Move up to `want` blocks from the partial list into a detached chain, `out`
      from bottom to top. `virgin` survives only if every visited page is virgin. */
  ghost function Fill(h: Heap, want: nat): (r: Taken)
    requires Wf(h)
    decreases want, |h.partial|
  {
    if want == 0 || h.partial == [] then Taken(h, [], true)
    else
      var p := h.partial[0];
      var pg := h.pages[p];
      if Avail(h.cls, pg) == 0 then
        UnlinkFacts(h, p);
        var r := Fill(Unlink(h, p), want);
        r.(virgin := r.virgin && pg.virgin)
      else
        TakeHeadMoves(h, want);
        var (h1, b) := TakeHead(h, want);
        var r := Fill(h1, want - 1);
        Taken(r.h, [b] + r.out, r.virgin && pg.virgin)
  }

  lemma FillStop(h: Heap, w: nat)
    requires Wf(h) && (w == 0 || h.partial == [])
    ensures Fill(h, w) == Taken(h, [], true)
  {
    hide Wf;
  }

  /** One round of the refill that finds the head exhausted. */
  lemma FillSkip(h: Heap, w: nat)
    requires Wf(h) && w > 0 && h.partial != [] && h.partial[0] in h.pages && Avail(h.cls, h.pages[h.partial[0]]) == 0
    ensures Wf(Unlink(h, h.partial[0])) && |Unlink(h, h.partial[0]).partial| < |h.partial|
    ensures var r := Fill(Unlink(h, h.partial[0]), w);
            Fill(h, w) == r.(virgin := r.virgin && h.pages[h.partial[0]].virgin)
  {
    UnlinkFacts(h, h.partial[0]);
    UnlinkHeadSum(h);
    hide Unlink, Wf, IsOut, Pristine, SumAvail;
  }

  /** One round of the refill that takes a block. */
  lemma FillStep(h: Heap, w: nat)
    requires Wf(h) && w > 0 && h.partial != [] && h.partial[0] in h.pages && Avail(h.cls, h.pages[h.partial[0]]) > 0
    ensures Wf(TakeHead(h, w).0)
    ensures var (h1, b) := TakeHead(h, w);
            var r := Fill(h1, w - 1);
            Fill(h, w) == Taken(r.h, [b] + r.out, r.virgin && h.pages[h.partial[0]].virgin)
  {
    TakeHeadMoves(h, w);
    hide TakeHead, Wf, IsOut, Pristine;
    MovedWf(h, TakeHead(h, w).0, [TakeHead(h, w).1]);
    hide Moved;
  }

  lemma MovedWf(h: Heap, r: Heap, out: seq<Block>)
    requires Moved(h, r, out)
    ensures Wf(r) && r.cls == h.cls
  {
  }

  lemma HeadIsPage(h: Heap)
    requires Wf(h) && h.partial != []
    ensures h.partial[0] in h.pages
    ensures forall p :: p in h.partial ==> p in h.pages
  {
    assert h.partial[0] in h.partial;
  }

  lemma NothingMoved(h: Heap)
    requires Wf(h)
    ensures Moved(h, h, []) && NoDup<Block>([])
  {
    hide Wf, IsOut, Pristine;
  }

  /** The refill takes out distinct blocks that were inside their pages and nothing else,
      and reports virgin only when each of them was pristine. */
  lemma {:induction false} FillMoves(h: Heap, want: nat)
    requires Wf(h)
    ensures var r := Fill(h, want);
            && Moved(h, r.h, r.out) && NoDup(r.out)
            && (r.virgin ==> forall b :: b in r.out ==> Pristine(h, b))
    decreases want, |h.partial|
  {
    hide Wf, Fill, TakeHead, Unlink, IsOut, Pristine, NoDup;
    if want == 0 || h.partial == [] {
      FillStop(h, want);
      NothingMoved(h);
    } else {
      HeadIsPage(h);
      var p := h.partial[0];
      if Avail(h.cls, h.pages[p]) == 0 {
        FillSkip(h, want);
        var r := Fill(Unlink(h, p), want);
        FillMoves(Unlink(h, p), want);
        SkipMoves(h, p, r.h, r.out);
      } else {
        FillStep(h, want);
        TakeHeadMoves(h, want);
        var (h1, b) := TakeHead(h, want);
        FillMoves(h1, want - 1);
        var r := Fill(h1, want - 1);
        StepMoves(h, h1, r.h, b, r.out);
      }
    }
  }

  lemma SkipMoves(h: Heap, p: PageId, r: Heap, out: seq<Block>)
    requires Wf(h) && p in h.pages && Moved(Unlink(h, p), r, out)
    ensures Moved(h, r, out) && forall b :: Pristine(Unlink(h, p), b) <==> Pristine(h, b)
  {
    UnlinkFacts(h, p);
    UnlinkMoves(h, p);
    hide Wf, IsOut, Pristine, Unlink;
    MovedTrans(h, Unlink(h, p), r, [], out);
    assert [] + out == out;
  }

  lemma StepMoves(h: Heap, h1: Heap, r: Heap, b: Block, out: seq<Block>)
    requires Moved(h, h1, [b]) && Moved(h1, r, out) && NoDup(out)
    ensures Moved(h, r, [b] + out) && NoDup([b] + out)
    ensures forall x :: Pristine(h1, x) ==> Pristine(h, x)
  {
    hide Wf, Pristine;
    MovedTrans(h, h1, r, [b], out);
    assert b in [b];
    NoDupSnoc(out, b);
  }

  /** The refill stops only at the batch size or when every linked page is exhausted. */
  lemma {:induction false} FillCount(h: Heap, want: nat)
    requires Wf(h)
    ensures |Fill(h, want).out| == Min(want, SumAvail(h.cls, h.pages, h.partial))
    decreases want, |h.partial|
  {
    hide Wf, Fill, TakeHead, Unlink;
    if want == 0 || h.partial == [] {
      FillStop(h, want);
    } else {
      HeadIsPage(h);
      var p := h.partial[0];
      if Avail(h.cls, h.pages[p]) == 0 {
        FillSkip(h, want);
        UnlinkHeadSum(h);
        hide SumAvail;
        FillCount(Unlink(h, p), want);
      } else {
        FillStep(h, want);
        TakeHeadSum(h, want);
        hide SumAvail;
        TakeHeadCls(h, want);
        FillCount(TakeHead(h, want).0, want - 1);
      }
    }
  }

  lemma TakeHeadCls(h: Heap, want: nat)
    requires Wf(h) && h.partial != [] && want > 0 && h.partial[0] in h.pages && Avail(h.cls, h.pages[h.partial[0]]) > 0
    ensures TakeHead(h, want).0.cls == h.cls
  {
    hide Wf, TakeOne;
  }

  lemma {:induction false} FillSupplied(h: Heap, want: nat)
    requires Wf(h) && Supplied(h)
    ensures Supplied(Fill(h, want).h)
    decreases want
  {
    hide TakeHead, Wf, Supplied, Avail, Fill;
    if want == 0 || h.partial == [] {
      FillStop(h, want);
    } else {
      TakeHeadSupplied(h, want);
      FillStep(h, want);
      FillSupplied(TakeHead(h, want).0, want - 1);
    }
  }

  /** What a refill takes is what the linked pages can supply less afterwards. */
  lemma {:induction false} FillSum(h: Heap, want: nat)
    requires Wf(h)
    ensures var r := Fill(h, want);
            && Wf(r.h)
            && SumAvail(h.cls, r.h.pages, r.h.partial) + |r.out| == SumAvail(h.cls, h.pages, h.partial)
    decreases want, |h.partial|
  {
    hide Wf, TakeHead, Unlink, SumAvail, Fill;
    if want == 0 || h.partial == [] {
      FillStop(h, want);
    } else {
      HeadIsPage(h);
      var p := h.partial[0];
      if Avail(h.cls, h.pages[p]) == 0 {
        FillSkip(h, want);
        UnlinkHeadSum(h);
        FillSum(Unlink(h, p), want);
      } else {
        FillStep(h, want);
        TakeHeadSum(h, want);
        TakeHeadCls(h, want);
        FillSum(TakeHead(h, want).0, want - 1);
      }
    }
  }
}
