/**
 The life of a page after its first block is taken: release, the retention
 ladder (empty list, cold array, unmap) and reuse (src/heap.rs).

 Every operation is characterized by what it does to `IsOut`, the set of
 blocks held by somebody outside the page.
 */
module PageLife {
  import opened Seqs
  import opened PageSpec

  // --------------------------------------------------------- retention ladder

  /** Where an idle page goes: empty list, cold array with its contents purged, or unmapping.
      Only lazily carved (small) pages record what the purge reported; a span is always
      recommitted and never trusted to read as zero. */
  function Park(h: Heap, p: PageId, d: Discard): (r: Heap)
    requires p in h.pages
  {
    var u := Unlink(h, p);
    if |u.empty| < u.cls.emptyCap then u.(empty := [p] + u.empty)
    else if |u.cold| < u.cls.coldCap then
      u.(pages := u.pages - {p}, cold := u.cold + [Cold(p, u.cls.lazy && d.zeroed, !u.cls.lazy || d.physical)])
    else u.(doomed := u.doomed + {p})
  }

  /** A header after `slots` were spliced on top of its free list. */
  function Returned(pg: Page, slots: seq<nat>): (r: Page)
    requires |slots| <= pg.used
  {
    pg.(free := pg.free + slots, used := pg.used - |slots|, virgin := false)
  }

  /** Splice a chunk of one page's blocks back onto it. */
  function Release(h: Heap, p: PageId, slots: seq<nat>, d: Discard): (r: Heap)
    requires p in h.pages && |slots| <= h.pages[p].used
  {
    var pg := Returned(h.pages[p], slots);
    var h1 := h.(pages := h.pages[p := pg]);
    if pg.used == 0 then Park(h1, p, d)
    else if pg.linked then h1 else Link(h1, p)
  }

  /** The shortcut for a chunk that holds every used block of its page: forget the
      free list, mark the page for reinitialization and park it. */
  function Retire(h: Heap, p: PageId, d: Discard): (r: Heap)
    requires p in h.pages
  {
    Park(h.(pages := h.pages[p := h.pages[p].(free := [], used := 0, virgin := false, reinit := true)]), p, d)
  }

  /** A chunk that may be released: distinct blocks of one page, all outside it. */
  ghost predicate Chunk(h: Heap, p: PageId, slots: seq<nat>) {
    && p in h.pages && slots != [] && NoDup(slots)
    && (forall x: nat :: x in slots ==> IsOut(h, Block(p, x)))
  }

  /** The chunk's blocks come home, nobody else's do, and no page turns virgin. */
  ghost predicate CameHome(h: Heap, r: Heap, p: PageId, slots: seq<nat>) {
    && Wf(r) && r.cls == h.cls && r.newborn == h.newborn
    && (forall b :: IsOut(r, b) <==> IsOut(h, b) && !(b.page == p && b.slot in slots))
    && (forall b :: Pristine(r, b) ==> Pristine(h, b))
    && (forall q :: ColdPage(h, q) ==> ColdPage(r, q))
  }

  lemma OutPagesNotParked(h: Heap, b: Block)
    requires Wf(h) && IsOut(h, b)
    ensures !Parked(h, b.page) && h.pages[b.page].used > 0
  {
    if h.pages[b.page].used == 0 {
      IdleHoldsAll(h, b.page);
    }
  }

  /** `used` blocks are outside a page, so distinct ones among them are no more than that. */
  lemma OutBound(cls: SizeClass, pg: Page, slots: seq<nat>)
    requires WfPage(cls, pg) && NoDup(slots)
    requires forall x: nat :: x in slots ==> x < Materialized(pg) && x !in pg.free
    ensures |slots| <= pg.used && WfPage(cls, Returned(pg, slots))
  {
    var all := pg.free + slots;
    NoDupConcat(pg.free, slots);
    NoDupElems(all);
    assert Elems(all) <= Upto(Materialized(pg));
    SubsetSize(Elems(all), Upto(Materialized(pg)));
  }

  /** A chunk as long as `used` holds every block that is outside the page. */
  lemma OutAll(cls: SizeClass, pg: Page, slots: seq<nat>)
    requires WfPage(cls, pg) && NoDup(slots) && |slots| == pg.used
    requires forall x: nat :: x in slots ==> x < Materialized(pg) && x !in pg.free
    ensures forall x: nat :: x < Materialized(pg) && x !in pg.free ==> x in slots
  {
    NoDupConcat(pg.free, slots);
    Pigeonhole(pg.free + slots, Materialized(pg));
    assert forall x: nat :: x in pg.free + slots <==> x in pg.free || x in slots;
  }

  /** Parking moves no block that is outside, and only the parked page changes. */
  ghost predicate ParkedPage(h: Heap, r: Heap, p: PageId) {
    && Wf(r) && r.cls == h.cls && r.newborn == h.newborn
    && (forall b :: IsOut(r, b) <==> IsOut(h, b) && b.page != p)
    && (forall b :: Pristine(r, b) ==> Pristine(h, b))
    && (forall q :: ColdPage(h, q) ==> ColdPage(r, q))
    && (forall q :: q in h.pages && q != p ==> q in r.pages && r.pages[q] == h.pages[q])
    && (forall q :: q in r.pages ==> q in h.pages)
  }

  lemma ParkEmptyFacts(u: Heap, p: PageId)
    requires Wf(u) && Idle(u, p) && !Parked(u, p) && |u.empty| < u.cls.emptyCap
    ensures ParkedPage(u, u.(empty := [p] + u.empty), p)
  {
    IdleHoldsAll(u, p);
    NoDupSnoc(u.empty, p);
  }

  lemma ParkColdFacts(u: Heap, p: PageId, c: Cold)
    requires Wf(u) && Idle(u, p) && !Parked(u, p) && |u.cold| < u.cls.coldCap && c.page == p
    ensures ParkedPage(u, u.(pages := u.pages - {p}, cold := u.cold + [c]), p)
  {
    IdleHoldsAll(u, p);
    var r := u.(pages := u.pages - {p}, cold := u.cold + [c]);
    forall q | ColdPage(u, q) ensures ColdPage(r, q) {
      var i :| 0 <= i < |u.cold| && u.cold[i].page == q;
      assert r.cold[i] == u.cold[i];
    }
  }

  lemma DoomFacts(u: Heap, p: PageId)
    requires Wf(u) && Idle(u, p) && !Parked(u, p)
    ensures ParkedPage(u, u.(doomed := u.doomed + {p}), p)
  {
    IdleHoldsAll(u, p);
  }

  lemma UnlinkThenPark(h: Heap, u: Heap, r: Heap, p: PageId)
    requires Wf(h) && p in h.pages && u == Unlink(h, p) && ParkedPage(u, r, p)
    ensures ParkedPage(h, r, p)
  {
    UnlinkFacts(h, p);
    assert forall q :: ColdPage(h, q) ==> ColdPage(u, q);
  }

  /** Parking an idle, unparked page keeps the heap well formed and moves no block. */
  lemma ParkFacts(h: Heap, p: PageId, d: Discard)
    requires Wf(h) && p in h.pages && h.pages[p].used == 0 && !Parked(h, p)
    ensures ParkedPage(h, Park(h, p, d), p)
  {
    UnlinkFacts(h, p);
    var u := Unlink(h, p);
    if |u.empty| < u.cls.emptyCap {
      ParkEmptyFacts(u, p);
    } else if |u.cold| < u.cls.coldCap {
      ParkColdFacts(u, p, Cold(p, u.cls.lazy && d.zeroed, !u.cls.lazy || d.physical));
    } else {
      DoomFacts(u, p);
    }
    UnlinkThenPark(h, u, Park(h, p, d), p);
  }

  lemma {:induction false} ReleaseFacts(h: Heap, p: PageId, slots: seq<nat>, d: Discard)
    requires Wf(h) && Chunk(h, p, slots)
    ensures |slots| <= h.pages[p].used && CameHome(h, Release(h, p, slots, d), p, slots)
  {
    ReturnedHome(h, p, slots);
    hide Wf, IsOut, Pristine, Park, Parked, Chunk, ColdPage;
    var pg := Returned(h.pages[p], slots);
    var h1 := h.(pages := h.pages[p := pg]);
    if pg.used == 0 {
      ParkFacts(h1, p, d);
      IdleHome(h1, p);
    } else if !pg.linked {
      LinkFacts(h1, p);
      LinkKeepsCold(h1, p);
    }
  }

  lemma IdleHome(h: Heap, p: PageId)
    requires Wf(h) && p in h.pages && h.pages[p].used == 0
    ensures forall b: Block :: b.page == p ==> !IsOut(h, b)
  {
    IdleHoldsAll(h, p);
  }

  lemma LinkKeepsCold(h: Heap, p: PageId)
    requires p in h.pages
    ensures forall q :: ColdPage(h, q) <==> ColdPage(Link(h, p), q)
  {
  }

  lemma ReturnedHome(h: Heap, p: PageId, slots: seq<nat>)
    requires Wf(h) && Chunk(h, p, slots)
    ensures |slots| <= h.pages[p].used && !Parked(h, p)
    ensures var h1 := h.(pages := h.pages[p := Returned(h.pages[p], slots)]);
            CameHome(h, h1, p, slots) && Wf(h1) && !Parked(h1, p)
  {
    assert slots[0] in slots;
    OutPagesNotParked(h, Block(p, slots[0]));
    assert forall x: nat :: x in slots ==> IsOut(h, Block(p, x));
    OutBound(h.cls, h.pages[p], slots);
    ReturnedFacts(h, p, slots);
    hide Wf, IsOut, Pristine, Chunk, ColdPage;
  }

  lemma ReturnedFacts(h: Heap, p: PageId, slots: seq<nat>)
    requires Wf(h) && Chunk(h, p, slots) && |slots| <= h.pages[p].used && !Parked(h, p)
    requires WfPage(h.cls, Returned(h.pages[p], slots))
    ensures CameHome(h, h.(pages := h.pages[p := Returned(h.pages[p], slots)]), p, slots)
  {
  }

  lemma ReturnedWf(h: Heap, p: PageId, slots: seq<nat>)
    requires Wf(h) && Chunk(h, p, slots)
    ensures p in h.pages && |slots| <= h.pages[p].used <= h.cls.capacity && slots != [] && !Parked(h, p)
    ensures Wf(h.(pages := h.pages[p := Returned(h.pages[p], slots)]))
  {
    assert slots[0] in slots;
    OutPagesNotParked(h, Block(p, slots[0]));
    assert forall x: nat :: x in slots ==> IsOut(h, Block(p, x));
    OutBound(h.cls, h.pages[p], slots);
    ReturnedFacts(h, p, slots);
  }

  /** The retire shortcut is a release of the whole page. */
  lemma RetireFacts(h: Heap, p: PageId, slots: seq<nat>, d: Discard)
    requires Wf(h) && Chunk(h, p, slots) && |slots| == h.pages[p].used
    ensures CameHome(h, Retire(h, p, d), p, slots)
  {
    hide NoDup, WfPage, IsOut, Pristine, Park, Wf, ColdPage, Materialized;
    ReturnedWf(h, p, slots);
    WholeChunk(h, p, slots);
    var pg := h.pages[p].(free := [], used := 0, virgin := false, reinit := true);
    ForgottenFacts(h, p, slots, pg);
    ParkFacts(h.(pages := h.pages[p := pg]), p, d);
    assert forall b :: IsOut(h, b) && b.page == p ==> b.slot in slots;
  }

  lemma WholeChunk(h: Heap, p: PageId, slots: seq<nat>)
    requires Wf(h) && Chunk(h, p, slots) && |slots| == h.pages[p].used
    ensures forall x: nat :: x < Materialized(h.pages[p]) && x !in h.pages[p].free ==> x in slots
    ensures forall x: nat :: x in slots ==> IsOut(h, Block(p, x))
  {
    assert forall x: nat :: x in slots ==> IsOut(h, Block(p, x));
    OutAll(h.cls, h.pages[p], slots);
  }

  lemma ForgottenFacts(h: Heap, p: PageId, slots: seq<nat>, pg: Page)
    requires Wf(h) && p in h.pages && !Parked(h, p) && pg.free == [] && pg.used == 0 && !pg.virgin
    requires pg.linked == h.pages[p].linked
    requires forall x: nat :: x < Materialized(h.pages[p]) && x !in h.pages[p].free ==> x in slots
    ensures var r := h.(pages := h.pages[p := pg]);
            && Wf(r) && !Parked(r, p)
            && (forall b :: IsOut(h, b) && b.page == p ==> b.slot in slots)
            && (forall b: Block :: b.page != p ==> (IsOut(r, b) <==> IsOut(h, b)))
            && (forall b :: Pristine(r, b) ==> Pristine(h, b))
            && (forall q :: ColdPage(r, q) <==> ColdPage(h, q))
  {
    assert WfPage(h.cls, pg);
    hide NoDup, WfPage;
  }

  lemma ParkSupplied(h: Heap, p: PageId, d: Discard)
    requires Wf(h) && p in h.pages && h.pages[p].used == 0 && !Parked(h, p)
    requires forall q :: q in h.pages && q != p && h.pages[q].linked ==> Avail(h.cls, h.pages[q]) > 0
    requires forall q :: q in h.pages && q != p && !h.pages[q].linked && !Parked(h, q) ==> h.pages[q].used == h.cls.capacity
    ensures Supplied(Park(h, p, d))
  {
    ParkFacts(h, p, d);
    ParkedWhere(h, p, d);
    hide Park, Wf, NoDup, WfPage, IsOut, Pristine, Parked;
  }

  /** Parking settles one page and leaves the others where they are. */
  lemma ParkedWhere(h: Heap, p: PageId, d: Discard)
    requires Wf(h) && p in h.pages
    ensures var r := Park(h, p, d);
            && (p in r.pages ==> !r.pages[p].linked && Parked(r, p))
            && (forall q :: q != p ==> (Parked(r, q) <==> Parked(h, q)))
  {
    UnlinkFacts(h, p);
    hide Wf, IsOut, Pristine;
  }

  /** The ladder, by where the page is found afterwards: the empty list while it has room, else the cold
      array while that has room, else waiting to be unmapped. A cold entry records the purge only where
      pages are carved lazily; a span is recommitted and not trusted whatever was reported. */
  lemma ParkLadder(h: Heap, p: PageId, d: Discard)
    requires Wf(h) && p in h.pages && h.pages[p].used == 0 && !Parked(h, p)
    ensures var r := Park(h, p, d);
            && (p in r.empty <==> |h.empty| < h.cls.emptyCap)
            && (ColdPage(r, p) <==> |h.empty| >= h.cls.emptyCap && |h.cold| < h.cls.coldCap)
            && (p in r.doomed <==> BothFull(h))
            && (p in r.empty ==> r.empty[0] == p && r.empty[1..] == h.empty)
            && (p in r.pages <==> !ColdPage(r, p))
            && (ColdPage(r, p) ==> r.cold[..|h.cold|] == h.cold && |r.cold| == |h.cold| + 1 && LastCold(r, p, d))
  {
    UnlinkFacts(h, p);
    NotCold(h, p);
    hide Wf, IsOut, Pristine, NoDup;
    var r := Park(h, p, d);
    if |h.empty| >= h.cls.emptyCap && |h.cold| < h.cls.coldCap {
      assert r.cold[|h.cold|].page == p;
    }
  }

  lemma NotCold(h: Heap, p: PageId)
    requires Wf(h) && p in h.pages
    ensures !ColdPage(h, p)
  {
  }

  predicate BothFull(h: Heap) { |h.empty| >= h.cls.emptyCap && |h.cold| >= h.cls.coldCap }

  /** What the newest cold entry says about a page purged with report `d`. */
  predicate LastCold(r: Heap, p: PageId, d: Discard) {
    r.cold != [] && r.cold[|r.cold| - 1] == if r.cls.lazy then Cold(p, d.zeroed, d.physical) else Cold(p, false, true)
  }

  /** A release gives its page up for unmapping exactly when the chunk holds all its used blocks and both
      retention lists are full; nobody holds a block of such a page. */
  lemma ReleaseDooms(h: Heap, p: PageId, slots: seq<nat>, d: Discard)
    requires Wf(h) && Chunk(h, p, slots) && |slots| <= h.pages[p].used
    ensures p in Release(h, p, slots, d).doomed <==> |slots| == h.pages[p].used && BothFull(h)
    ensures |slots| == h.pages[p].used ==> (p in Retire(h, p, d).doomed <==> BothFull(h))
    ensures p in Release(h, p, slots, d).doomed ==> forall b: Block :: b.page == p ==> !IsOut(Release(h, p, slots, d), b)
    ensures |slots| == h.pages[p].used ==> forall b: Block :: b.page == p ==> !IsOut(Retire(h, p, d), b)
  {
    ReturnedWf(h, p, slots);
    ReleaseFacts(h, p, slots, d);
    var h1 := h.(pages := h.pages[p := Returned(h.pages[p], slots)]);
    if |slots| == h.pages[p].used {
      RetireFacts(h, p, slots, d);
      ParkLadder(h1, p, d);
      RetireLadder(h, p, slots, d);
      AllHome(h, p, slots);
    }
    hide Wf, IsOut, Pristine, Park, Chunk, ColdPage, Parked;
    assert h1.doomed == h.doomed;
  }

  lemma RetireLadder(h: Heap, p: PageId, slots: seq<nat>, d: Discard)
    requires Wf(h) && Chunk(h, p, slots) && |slots| == h.pages[p].used
    ensures p in Retire(h, p, d).doomed <==> BothFull(h)
  {
    var pg := h.pages[p].(free := [], used := 0, virgin := false, reinit := true);
    ReturnedWf(h, p, slots);
    WholeChunk(h, p, slots);
    ForgottenFacts(h, p, slots, pg);
    hide Wf, IsOut, Pristine, Park, Chunk, ColdPage;
    ParkLadder(h.(pages := h.pages[p := pg]), p, d);
  }

  lemma AllHome(h: Heap, p: PageId, slots: seq<nat>)
    requires Wf(h) && Chunk(h, p, slots) && |slots| == h.pages[p].used
    ensures forall b :: IsOut(h, b) && b.page == p ==> b.slot in slots
  {
    WholeChunk(h, p, slots);
  }

  /** A release leaves exactly the pages that can supply a block linked. */
  lemma ReleaseSupplied(h: Heap, p: PageId, slots: seq<nat>, d: Discard)
    requires Wf(h) && Supplied(h) && Chunk(h, p, slots) && |slots| <= h.pages[p].used
    ensures Supplied(Release(h, p, slots, d)) && Supplied(Retire(h, p, d))
  {
    hide NoDup, WfPage, IsOut, Pristine, Park, Retire, Wf, Chunk;
    ReturnedWf(h, p, slots);
    var pg := Returned(h.pages[p], slots);
    RetireSupplied(h, p, d);
    var h1 := h.(pages := h.pages[p := pg]);
    if pg.used == 0 {
      ParkSupplied(h1, p, d);
    }
  }

  lemma RetireSupplied(h: Heap, p: PageId, d: Discard)
    requires Wf(h) && Supplied(h) && p in h.pages && !Parked(h, p)
    ensures Supplied(Retire(h, p, d))
  {
    var pg := h.pages[p].(free := [], used := 0, virgin := false, reinit := true);
    assert WfPage(h.cls, pg);
    hide NoDup, WfPage, Park, Avail;
    ParkSupplied(h.(pages := h.pages[p := pg]), p, d);
  }

  // ------------------------------------------------------------------- reuse

  /** Pop the empty list back onto the partial list, reinitializing a retired page. */
  function ReuseEmpty(h: Heap): (r: Heap)
    requires h.empty != [] && h.empty[0] in h.pages
  {
    var p := h.empty[0];
    var pg := if h.pages[p].reinit then InitPage(h.cls).(virgin := false) else h.pages[p];
    Link(h.(pages := h.pages[p := pg], empty := h.empty[1..]), p)
  }

  /** Re-carve the newest cold page; it is virgin only if the purge proved zeros. */
  function ReuseCold(h: Heap): (r: Heap)
    requires h.cold != []
  {
    var c := h.cold[|h.cold| - 1];
    Link(h.(pages := h.pages[c.page := InitPage(h.cls).(virgin := c.zeroed)], cold := h.cold[..|h.cold| - 1]), c.page)
  }

  /** A freshly mapped page, initialized by its mapper before anyone else can see it. */
  function MapFresh(h: Heap, p: PageId): (r: Heap)
  {
    h.(pages := h.pages[p := InitPage(h.cls)], newborn := h.newborn + {p})
  }

  function LinkFresh(h: Heap, p: PageId): (r: Heap)
    requires p in h.pages
  {
    Link(h.(newborn := h.newborn - {p}), p)
  }

  function Unmap(h: Heap, p: PageId): (r: Heap)
  {
    h.(pages := h.pages - {p}, doomed := h.doomed - {p})
  }

  /** Reuse moves no block; only the reused page may become pristine. */
  ghost predicate Reused(h: Heap, r: Heap, p: PageId) {
    && Wf(r) && r.cls == h.cls
    && (forall b :: IsOut(r, b) <==> IsOut(h, b))
    && (forall b :: Pristine(r, b) && b.page != p ==> Pristine(h, b))
  }

  /** An idle page's header may be replaced by another idle one while it is off every list. */
  lemma RenewFacts(h: Heap, p: PageId, pg: Page)
    requires Wf(h) && p !in h.partial && !Parked(h, p) && !ColdPage(h, p)
    requires p in h.pages ==> h.pages[p].used == 0
    requires WfPage(h.cls, pg) && pg.used == 0 && !pg.linked
    ensures Reused(h, h.(pages := h.pages[p := pg]), p)
  {
    if p in h.pages {
      IdleHoldsAll(h, p);
    }
    IdleHoldsAll(h.(pages := h.pages[p := pg]), p);
  }

  lemma ReuseEmptyFacts(h: Heap)
    requires Wf(h) && h.empty != [] && h.empty[0] in h.empty
    ensures var r := ReuseEmpty(h);
            && Reused(h, r, h.empty[0])
            && (forall b :: Pristine(r, b) ==> Pristine(h, b))
            && r.cold == h.cold && r.newborn == h.newborn && r.doomed == h.doomed
  {
    var p := h.empty[0];
    InitFacts(h.cls);
    var pg := if h.pages[p].reinit then InitPage(h.cls).(virgin := false) else h.pages[p];
    var h0 := h.(empty := h.empty[1..]);
    PopEmptyFacts(h);
    RenewFacts(h0, p, pg);
    var h1 := h0.(pages := h.pages[p := pg]);
    IdleHoldsAll(h, p);
    LinkFacts(h1, p);
    hide NoDup, WfPage, InitPage;
  }

  lemma PopEmptyFacts(h: Heap)
    requires Wf(h) && h.empty != [] && h.empty[0] in h.empty
    ensures Wf(h.(empty := h.empty[1..])) && h.empty[0] !in h.empty[1..]
    ensures h.empty[0] !in h.partial && !ColdPage(h, h.empty[0])
    ensures forall q :: q in h.empty <==> q == h.empty[0] || q in h.empty[1..]
  {
    NoDupTail(h.empty);
    hide NoDup, WfPage;
    assert Idle(h, h.empty[0]);
  }

  lemma ReuseColdFacts(h: Heap)
    requires Wf(h) && h.cold != []
    ensures var r := ReuseCold(h);
            var c := h.cold[|h.cold| - 1];
            && Reused(h, r, c.page) && c.page in r.pages && r.pages[c.page].virgin == c.zeroed
            && r.newborn == h.newborn && r.doomed == h.doomed && r.empty == h.empty
  {
    var c := h.cold[|h.cold| - 1];
    InitFacts(h.cls);
    PopColdFacts(h);
    var h0 := h.(cold := h.cold[..|h.cold| - 1]);
    var pg := InitPage(h.cls).(virgin := c.zeroed);
    assert WfPage(h.cls, pg);
    hide NoDup, WfPage, InitPage, Wf;
    RenewFacts(h0, c.page, pg);
    LinkFacts(h0.(pages := h.pages[c.page := pg]), c.page);
    hide IsOut, Materialized;
    PristineCold(h, h0);
  }

  lemma PopColdFacts(h: Heap)
    requires Wf(h) && h.cold != []
    ensures var p := h.cold[|h.cold| - 1].page;
            var r := h.(cold := h.cold[..|h.cold| - 1]);
            Wf(r) && p !in h.pages && p !in h.partial && !Parked(r, p) && !ColdPage(r, p)
  {
    hide NoDup, WfPage;
    var p := h.cold[|h.cold| - 1].page;
    assert p in h.empty ==> Idle(h, p);
    assert p in h.newborn ==> Idle(h, p);
    assert p in h.doomed ==> Idle(h, p);
  }

  /** What is outside and what is pristine depends on the headers alone. */
  lemma PristineCold(h: Heap, r: Heap)
    requires r.pages == h.pages && r.cls == h.cls
    ensures forall b :: IsOut(r, b) <==> IsOut(h, b)
    ensures forall b :: Pristine(r, b) <==> Pristine(h, b)
  {
  }

  /** Reuse links a page that can supply blocks, so nothing that could is left out. */
  lemma ReuseSupplied(h: Heap)
    requires Wf(h) && Supplied(h)
    ensures h.empty != [] && h.empty[0] in h.empty ==> Supplied(ReuseEmpty(h))
    ensures h.cold != [] ==> Supplied(ReuseCold(h))
  {
    if h.empty != [] && h.empty[0] in h.empty {
      PopEmptyFacts(h);
    }
  }

  lemma MapFreshFacts(h: Heap, p: PageId)
    requires Wf(h) && p !in h.pages && !ColdPage(h, p)
    ensures p in MapFresh(h, p).newborn && p in MapFresh(h, p).pages
    ensures Reused(h, MapFresh(h, p), p) && (Supplied(h) ==> Supplied(MapFresh(h, p)))
  {
    InitFacts(h.cls);
    var pg := InitPage(h.cls);
    assert WfPage(h.cls, pg) && pg.used == 0 && !pg.linked;
    hide NoDup, WfPage, InitPage;
    IdleHoldsAll(MapFresh(h, p), p);
  }

  lemma LinkFreshFacts(h: Heap, p: PageId)
    requires Wf(h) && p in h.newborn
    ensures p !in LinkFresh(h, p).newborn && p in LinkFresh(h, p).partial
    ensures Reused(h, LinkFresh(h, p), p) && (Supplied(h) ==> Supplied(LinkFresh(h, p)))
    ensures forall b :: Pristine(LinkFresh(h, p), b) ==> Pristine(h, b)
  {
    LinkFacts(h.(newborn := h.newborn - {p}), p);
  }

  lemma UnmapFacts(h: Heap, p: PageId)
    requires Wf(h) && p in h.doomed
    ensures p !in Unmap(h, p).pages && p !in Unmap(h, p).doomed
    ensures Reused(h, Unmap(h, p), p) && (Supplied(h) ==> Supplied(Unmap(h, p)))
    ensures forall b :: Pristine(Unmap(h, p), b) ==> Pristine(h, b)
  {
    IdleHoldsAll(h, p);
  }

  // -------------------------------------------------- the locked part of a take

  ghost function TakeEmpty(a: Taken, want: nat): (r: Taken)
    requires Wf(a.h)
  {
    if a.out != [] || a.h.empty == [] then a
    else
      assert a.h.empty[0] in a.h.empty;
      ReuseEmptyFacts(a.h);
      var f := Fill(ReuseEmpty(a.h), want);
      f.(virgin := f.virgin && a.virgin)
  }

  ghost function TakeCold(a: Taken, want: nat): (r: Taken)
    requires Wf(a.h)
  {
    if a.out != [] || a.h.cold == [] then a
    else
      ReuseColdFacts(a.h);
      Fill(ReuseCold(a.h), want)
  }

  lemma TakeEmptyWf(a: Taken, want: nat)
    requires Wf(a.h)
    ensures Wf(TakeEmpty(a, want).h)
  {
    if a.out == [] && a.h.empty != [] {
      assert a.h.empty[0] in a.h.empty;
      ReuseEmptyFacts(a.h);
      FillMoves(ReuseEmpty(a.h), want);
    }
  }

  /** Partial list first, then an empty page, then a cold one. */
  ghost function TakeHeap(h: Heap, want: nat): (r: Taken)
    requires Wf(h)
  {
    FillMoves(h, want);
    TakeEmptyWf(Fill(h, want), want);
    TakeCold(TakeEmpty(Fill(h, want), want), want)
  }
}
