/**
 When a block that is reported as zeroed really reads zero: in every run, for
 every backend that obeys the purge contract, exactly if the backend and the
 class cannot recommit a page on whose zeros the heap still relies
 (src/heap.rs park_empty_page and take_blocks, src/cache.rs alloc_zeroed).
 */
module ZeroReports {
  import opened Seqs
  import opened PageSpec
  import opened PageLife
  import opened Ownership
  import opened OwnershipRuns

  /** What a backend adds to the purge contract. `keeps`: a recommit of a readable range changes nothing.
      `both`: a purge may report physical and zeroed together. */
  datatype Backend = Backend(keeps: bool, both: bool)

  predicate ReportOk(be: Backend, d: Discard) { be.both || !(d.physical && d.zeroed) }

  /** The contents after the recommit that a take may perform. */
  ghost predicate RecommitOk(be: Backend, s: State, junk: map<Block, int>) {
    be.keeps && s.h.cold != [] && s.h.cold[|s.h.cold| - 1].page !in s.absent ==>
      forall b: Block :: b.page == s.h.cold[|s.h.cold| - 1].page ==> Body(junk, b) == Body(s.mem, b)
  }

  ghost predicate Obeys(be: Backend, s: State, e: Event) {
    match e
    case Take(t, want, junk) => RecommitOk(be, s, junk)
    case ReleaseBatch(t, groups) => Reports(be, groups)
    case _ => true
  }

  ghost predicate Reports(be: Backend, groups: seq<Group>) {
    forall i :: 0 <= i < |groups| ==> ReportOk(be, groups[i].discard)
  }

  /** `es` is a run on this backend. */
  ghost predicate RunsOn(be: Backend, s: State, es: seq<Event>, r: State)
    requires Inv(s)
    decreases |es|
  {
    if es == [] then r == s
    else Enabled(s, es[0]) && Obeys(be, s, es[0]) && (StepInv(s, es[0]); RunsOn(be, Apply(s, es[0]), es[1..], r))
  }

  ghost predicate ReachableOn(be: Backend, cls: SizeClass, es: seq<Event>, s: State)
    requires cls.capacity > 0
  {
    InitialInv(cls);
    RunsOn(be, Initial(cls), es, s)
  }

  /** The backend keeps a readable range, or never makes the heap recommit a page it believes to be zero,
      or the class has no cold pages or never believes a purge. */
  predicate Safe(be: Backend, cls: SizeClass) { be.keeps || !be.both || !cls.lazy || cls.coldCap == 0 }

  // -------------------------------------------------------------- invariant

  /** Blocks below a watermark, slots that never left a virgin page, and pages the backend
      proved zero all read as zero. */
  ghost predicate InvZero(s: State) {
    && (forall b :: Pristine(s.h, b) ==> Body(s.mem, b) == 0)
    && (forall k, i :: k in s.chains && 0 <= i < s.chains[k].virgin && i < |s.chains[k].blocks| ==>
          Body(s.mem, s.chains[k].blocks[i]) == 0)
    && (forall i, b: Block :: 0 <= i < |s.h.cold| && s.h.cold[i].zeroed && b.page == s.h.cold[i].page ==>
          Body(s.mem, b) == 0)
  }

  ghost predicate NoBoth(cold: seq<Cold>) { forall i :: 0 <= i < |cold| ==> !(cold[i].zeroed && cold[i].decommitted) }

  ghost predicate Truth(be: Backend, s: State) {
    InvZero(s) && Safe(be, s.h.cls) && (be.keeps || NoBoth(s.h.cold))
  }

  // ----------------------------------------------------------- preservation

  lemma PopTruth(be: Backend, s: State, k: Key)
    requires Inv(s) && Truth(be, s) && ChainOf(s, k).blocks != []
    ensures Truth(be, PopTop(s, k))
  {
    hide Pristine, Wf, Supplied, InvOwner, InvAbsent;
  }

  lemma PushTruth(be: Backend, s: State, k: Key, b: Block)
    requires Inv(s) && Truth(be, s)
    ensures Truth(be, PushTop(s, k, b))
  {
    hide Pristine, Wf, Supplied, InvOwner, InvAbsent;
  }

  lemma UserBlock(s: State, b: Block)
    requires Inv(s) && b in s.owner && s.owner[b] == User
    ensures !Pristine(s.h, b) && !ColdPage(s.h, b.page)
    ensures forall k, i :: k in s.chains && 0 <= i < |s.chains[k].blocks| ==> s.chains[k].blocks[i] != b
  {
    assert IsOut(s.h, b);
    forall k, i | k in s.chains && 0 <= i < |s.chains[k].blocks| ensures s.chains[k].blocks[i] != b {
      assert Holds(s.chains, k, s.chains[k].blocks[i]);
    }
  }

  /** A user's write reaches no block that is believed to be zero. */
  lemma WriteTruth(be: Backend, s: State, b: Block, v: int)
    requires Inv(s) && Truth(be, s) && b in s.owner && s.owner[b] == User
    ensures Truth(be, s.(mem := s.mem[b := v]))
  {
    UserBlock(s, b);
    hide Pristine, Wf, Supplied, InvOwner, InvAbsent, InvChains;
    assert forall i :: 0 <= i < |s.h.cold| ==> s.h.cold[i].page != b.page;
  }

  lemma MoveTruth(be: Backend, s: State, from: Key, to: Key)
    requires Inv(s) && Truth(be, s)
    ensures Truth(be, MoveChain(s, from, to))
  {
    hide Pristine, Wf, Supplied, InvOwner, InvAbsent, InvChains;
  }

  lemma DetachTruth(be: Backend, s: State, k: Key, t: nat, n: nat)
    requires Inv(s) && Truth(be, s) && n <= |ChainOf(s, k).blocks|
    ensures Truth(be, Detach(s, k, t, n))
  {
    hide Pristine, Wf, Supplied, InvOwner, InvAbsent, InvChains;
  }

  lemma FillTruth(be: Backend, s: State, t: nat, want: nat)
    requires Inv(s) && Truth(be, s)
    ensures Truth(be, FillFlight(s, t, want))
    ensures var r := FillFlight(s, t, want); r.h.cold == s.h.cold && r.mem == s.mem && r.absent == s.absent
  {
    hide Pristine, IsOut, Wf, Supplied, InvOwner, InvAbsent, InvChains, Fill, NoDup;
    FillMoves(s.h, want);
    var f := Fill(s.h, want);
    assert forall i :: 0 <= i < |f.out| ==> f.out[i] in f.out;
  }

  lemma WakeEmptyTruth(be: Backend, s: State)
    requires Inv(s) && Truth(be, s) && s.h.empty != [] && s.h.empty[0] in s.h.empty
    ensures Truth(be, WakeEmpty(s))
    ensures var r := WakeEmpty(s); r.h.cold == s.h.cold && r.mem == s.mem && r.absent == s.absent
  {
    hide Pristine, IsOut, Supplied, InvOwner, InvAbsent, InvChains;
    ReuseEmptyFacts(s.h);
  }

  /** No block on a chain lies in a page that is not mapped. */
  lemma ChainsMapped(s: State, p: PageId)
    requires Inv(s) && p !in s.h.pages
    ensures forall k, i :: k in s.chains && 0 <= i < |s.chains[k].blocks| ==> s.chains[k].blocks[i].page != p
  {
    forall k, i | k in s.chains && 0 <= i < |s.chains[k].blocks| ensures s.chains[k].blocks[i].page != p {
      assert Holds(s.chains, k, s.chains[k].blocks[i]);
      assert IsOut(s.h, s.chains[k].blocks[i]);
    }
  }

  /** The contents of the newest cold page, if it is believed to be zero, survive its recommit. */
  lemma ColdStaysZero(be: Backend, s: State, junk: map<Block, int>, b: Block)
    requires Inv(s) && Truth(be, s) && s.h.cold != [] && RecommitOk(be, s, junk)
    requires var c := s.h.cold[|s.h.cold| - 1]; b.page == c.page && c.zeroed
    ensures Body(WakeCold(s, junk).mem, b) == 0
  {
    hide Pristine, IsOut, Wf, Supplied, InvOwner, InvChains;
  }

  lemma WakeColdTruth(be: Backend, s: State, junk: map<Block, int>)
    requires Inv(s) && Truth(be, s) && s.h.cold != [] && RecommitOk(be, s, junk)
    ensures Truth(be, WakeCold(s, junk))
  {
    var r := WakeCold(s, junk);
    var last := |s.h.cold| - 1;
    var p := s.h.cold[last].page;
    assert r.h.cold == s.h.cold[..last] && r.h.cls == s.h.cls;
    ColdElsewhere(s.h);
    hide Inv, Pristine, Wf, RecommitOk, ReuseCold;
    WakeColdPristine(be, s, junk);
    assert forall i :: 0 <= i < |r.h.cold| ==> r.h.cold[i] == s.h.cold[i] && r.h.cold[i].page != p;
    Unmapped(s);
    ChainsMapped(s, p);
  }

  lemma Unmapped(s: State)
    requires Inv(s) && s.h.cold != []
    ensures s.h.cold[|s.h.cold| - 1].page !in s.h.pages
  {
  }

  lemma ColdElsewhere(h: Heap)
    requires h.cold != [] && Wf(h)
    ensures forall i :: 0 <= i < |h.cold| - 1 ==> h.cold[i].page != h.cold[|h.cold| - 1].page
  {
  }

  lemma WakeColdPristine(be: Backend, s: State, junk: map<Block, int>)
    requires Inv(s) && Truth(be, s) && s.h.cold != [] && RecommitOk(be, s, junk)
    ensures forall b :: Pristine(WakeCold(s, junk).h, b) ==> Body(WakeCold(s, junk).mem, b) == 0
  {
    var r := WakeCold(s, junk);
    var c := s.h.cold[|s.h.cold| - 1];
    assert Wf(s.h);
    hide Inv, Wf, RecommitOk, IsOut, ReuseCold;
    ReuseColdFacts(s.h);
    forall b | Pristine(r.h, b) ensures Body(r.mem, b) == 0 {
      if b.page == c.page {
        ColdStaysZero(be, s, junk, b);
      } else {
        assert Pristine(s.h, b);
      }
    }
  }

  lemma MapTruth(be: Backend, s: State, p: PageId)
    requires Inv(s) && Truth(be, s) && p !in s.h.pages && !ColdPage(s.h, p)
    ensures Truth(be, MapZeroed(s, p))
  {
    hide Pristine, IsOut, Supplied, InvOwner, InvAbsent, InvChains, Wf;
    MapFreshFacts(s.h, p);
    ChainsMapped(s, p);
  }

  lemma LinkTruth(be: Backend, s: State, p: PageId)
    requires Inv(s) && Truth(be, s) && p in s.h.newborn
    ensures Truth(be, s.(h := LinkFresh(s.h, p)))
  {
    hide Pristine, IsOut, Supplied, InvOwner, InvAbsent, InvChains;
    LinkFreshFacts(s.h, p);
  }

  lemma LinkedNewborn(s: State, p: PageId)
    requires Inv(s) && p in s.h.newborn
    ensures p in s.h.pages
  {
  }

  lemma LinkTakeTruth(be: Backend, s: State, t: nat, p: PageId, want: nat)
    requires Inv(s) && Truth(be, s) && Enabled(s, LinkTake(t, p, want))
    ensures Truth(be, Apply(s, LinkTake(t, p, want)))
  {
    hide InvOwner, InvChains, InvAbsent, Supplied, Fill, Truth, IsOut, Pristine, Wf;
    LinkedNewborn(s, p);
    LinkInv(s, p);
    LinkTruth(be, s, p);
    FillTruth(be, s.(h := LinkFresh(s.h, p)), t, want);
  }

  lemma UnmapTruth(be: Backend, s: State, p: PageId)
    requires Inv(s) && Truth(be, s) && p in s.h.doomed
    ensures Truth(be, s.(h := Unmap(s.h, p)))
  {
    hide Pristine, IsOut, Supplied, InvOwner, InvAbsent, InvChains, Wf;
    UnmapFacts(s.h, p);
  }

  lemma ReleaseTruth(be: Backend, s: State, t: nat, g: Group)
    requires Inv(s) && Truth(be, s) && GroupOk(s, t, g) && ReportOk(be, g.discard)
    requires g.page in s.h.pages && |g.slots| <= s.h.pages[g.page].used
    ensures Truth(be, ReleaseGroup(s, t, g))
  {
    hide Inv, Pristine, IsOut, Wf, ColdPage, HeapAfter, GroupOk;
    HeapAfterFacts(s, t, g);
    ColdAfter(s.h, g);
    var r := ReleaseGroup(s, t, g);
    ZeroKept(s, t, g);
    ColdCap(r.h);
  }

  lemma ColdCap(h: Heap)
    requires Wf(h)
    ensures |h.cold| <= h.cls.coldCap
  {
  }

  /** A release makes nothing nonzero. */
  lemma ZeroKept(s: State, t: nat, g: Group)
    requires g.page in s.h.pages && |g.slots| <= s.h.pages[g.page].used
    ensures forall b :: Body(s.mem, b) == 0 ==> Body(ReleaseGroup(s, t, g).mem, b) == 0
  {
    hide HeapAfter;
  }

  lemma {:induction false} BatchTruth(be: Backend, s: State, t: nat, groups: seq<Group>)
    requires Inv(s) && Truth(be, s) && BatchOk(s, t, groups) && Reports(be, groups)
    ensures Truth(be, ReleaseAll(s, t, groups))
    decreases |groups|
  {
    hide Inv, Truth, ReleaseGroup, GroupOk;
    if groups != [] {
      GroupChunk(s, t, groups[0]);
      ReleaseInv(s, t, groups[0]);
      ReleaseTruth(be, s, t, groups[0]);
      BatchTruth(be, ReleaseGroup(s, t, groups[0]), t, groups[1..]);
    }
  }

  lemma SameRecommit(be: Backend, s: State, r: State, junk: map<Block, int>)
    requires RecommitOk(be, s, junk) && r.h.cold == s.h.cold && r.mem == s.mem && r.absent == s.absent
    ensures RecommitOk(be, r, junk)
  {
  }

  lemma TakeTruth(be: Backend, s: State, t: nat, want: nat, junk: map<Block, int>)
    requires Inv(s) && Truth(be, s) && ChainOf(s, Flight(t)).blocks == [] && RecommitOk(be, s, junk)
    ensures Truth(be, TakeLocked(s, t, want, junk))
  {
    hide InvOwner, InvChains, InvAbsent, Supplied, Fill, ReuseCold, ReuseEmpty, Overwrite, Truth, RecommitOk;
    FillInv(s, t, want);
    FillTruth(be, s, t, want);
    var a := FillFlight(s, t, want);
    var b := RefillEmpty(a, t, want);
    if !Refilled(a, t) && a.h.empty != [] {
      assert a.h.empty[0] in a.h.empty;
      WakeEmptyInv(a);
      WakeEmptyTruth(be, a);
      FillInv(WakeEmpty(a), t, want);
      FillTruth(be, WakeEmpty(a), t, want);
    }
    if !Refilled(b, t) && b.h.cold != [] {
      SameRecommit(be, s, b, junk);
      WakeColdInv(b, junk);
      WakeColdTruth(be, b, junk);
      FillTruth(be, WakeCold(b, junk), t, want);
    }
  }

  /** On a safe backend every step keeps the truth of all zero reports. */
  lemma StepTruth(be: Backend, s: State, e: Event)
    requires Inv(s) && Truth(be, s) && Enabled(s, e) && Obeys(be, s, e)
    ensures Truth(be, Apply(s, e))
  {
    hide Inv, Truth, RecommitOk, Reports;
    match e
    case AllocHit(k) => PopTruth(be, s, k);
    case Free(k, b) => PushTruth(be, s, k, b);
    case Write(b, v) => WriteTruth(be, s, b, v);
    case Hand(from, to) => MoveTruth(be, s, from, to);
    case Flush(k, t, n) => DetachTruth(be, s, k, t, n);
    case Take(t, want, junk) => TakeTruth(be, s, t, want, junk);
    case Map(p) => MapTruth(be, s, p);
    case LinkTake(t, p, want) => LinkTakeTruth(be, s, t, p, want);
    case ReleaseBatch(t, groups) => BatchTruth(be, s, t, groups);
    case Discharge(p) => UnmapTruth(be, s, p);
  }

  lemma {:induction false} RunsTruth(be: Backend, s: State, es: seq<Event>, r: State)
    requires Inv(s) && Truth(be, s) && RunsOn(be, s, es, r)
    ensures Truth(be, r)
    decreases |es|
  {
    hide Inv, Truth, Enabled, Apply, Obeys;
    if es != [] {
      StepInv(s, es[0]);
      StepTruth(be, s, es[0]);
      RunsTruth(be, Apply(s, es[0]), es[1..], r);
    }
  }

  // --------------------------------------------------------------- theorems

  /** If the block about to be popped is reported as zeroed, it reads zero beyond its link word. */
  ghost predicate TrueReport(s: State, k: Key) {
    ChainOf(s, k).blocks != [] && ReportsZero(ChainOf(s, k)) ==>
      Body(s.mem, ChainOf(s, k).blocks[|ChainOf(s, k).blocks| - 1]) == 0
  }

  /** In every run on a safe backend a block reported as zeroed reads zero. */
  lemma ZeroReportIsTrue(be: Backend, cls: SizeClass, es: seq<Event>, s: State, k: Key)
    requires cls.capacity > 0 && ReachableOn(be, cls, es, s) && Safe(be, cls)
    ensures TrueReport(s, k)
  {
    InitialInv(cls);
    InitialTruth(be, cls);
    RunsTruth(be, Initial(cls), es, s);
  }

  lemma InitialTruth(be: Backend, cls: SizeClass)
    requires Safe(be, cls)
    ensures Truth(be, Initial(cls))
  {
  }

  // ------------------------------------------------- the report can be false

  // The run: threads that found nothing map a page each, take a block and give it back, until the empty
  // list is full and one page goes cold; takes of whole pages then use up the empty list; the next take
  // recommits the cold page.

  lemma {:induction false} RunsSnoc(be: Backend, s: State, es: seq<Event>, r: State, e: Event)
    requires Inv(s) && RunsOn(be, s, es, r) && Inv(r) && Enabled(r, e) && Obeys(be, r, e)
    ensures RunsOn(be, s, es + [e], Apply(r, e))
    decreases |es|
  {
    hide Inv, Enabled, Apply, Obeys;
    if es == [] {
      assert [e][1..] == [];
      StepInv(s, e);
    } else {
      StepInv(s, es[0]);
      RunsSnoc(be, Apply(s, es[0]), es[1..], r, e);
      assert (es + [e])[1..] == es[1..] + [e];
    }
  }

  /** A backend on which every step obeys, for a class that relies on its reports. */
  predicate Hostile(be: Backend, cls: SizeClass) { cls.capacity > 0 && !Safe(be, cls) }

  lemma Extend(be: Backend, cls: SizeClass, es: seq<Event>, s: State, e: Event)
    requires Hostile(be, cls) && ReachableOn(be, cls, es, s) && Inv(s) && Enabled(s, e)
    ensures ReachableOn(be, cls, es + [e], Apply(s, e)) && Inv(Apply(s, e))
  {
    InitialInv(cls);
    StepInv(s, e);
    hide Inv, Enabled, Apply;
    RunsSnoc(be, Initial(cls), es, s, e);
  }

  const BOTH: Discard := Discard(true, true)

  /** The heap after page `p` was mapped and linked and one block of it was taken and returned. */
  function Parked1(h: Heap, p: PageId): Heap {
    if |h.empty| < h.cls.emptyCap
    then h.(pages := h.pages[p := Page([0], 0, false, false, false)], empty := [p] + h.empty)
    else h.(cold := h.cold + [Cold(p, true, true)])
  }

  ghost predicate NoneHeld(chains: map<Key, Chain>) { forall k :: k in chains ==> chains[k].blocks == [] }

  /** Nothing is linked and nobody holds a block; the mapped pages are numbered below `n`. */
  ghost predicate Calm(cls: SizeClass, s: State, n: nat) {
    && Inv(s) && s.h.cls == cls && s.h.partial == [] && s.h.cold == [] && |s.h.empty| == n <= cls.emptyCap
    && NoneHeld(s.chains) && (forall p :: p in s.h.pages ==> p < n)
    && s.h.newborn == {}
  }

  lemma LinkedFirst(h: Heap, p: PageId)
    requires Wf(h) && h.cls.lazy && h.partial == [] && p !in h.pages && h.newborn == {}
    ensures var r := LinkFresh(MapFresh(h, p), p);
            r == h.(pages := h.pages[p := Page([], 0, true, false, true)], partial := [p])
  {
    var m := MapFresh(h, p);
    assert m.newborn - {p} == h.newborn;
    assert h.pages[p := InitPage(h.cls)][p := Page([], 0, true, false, true)] == h.pages[p := Page([], 0, true, false, true)];
  }

  /** The heap after slot 0 of page `p`, the only linked page, was taken. */
  function Took(h: Heap, p: PageId, virgin: bool): Heap {
    var more := h.cls.capacity > 1;
    h.(pages := h.pages[p := Page([], 1, virgin, false, more)], partial := if more then [p] else [])
  }

  lemma FirstHead(h: Heap, p: PageId, virgin: bool)
    requires Wf(h) && h.partial == [p] && p in h.pages && h.pages[p] == Page([], 0, virgin, false, true)
    ensures var (r, b) := TakeHead(h, 1);
            b == Block(p, 0) && r == Took(h, p, virgin)
  {
    var pg := Page([], 1, virgin, false, true);
    assert Descending(0, 1) == [0];
    assert TakeOne(h.cls, h.pages[p], 1) == (0, pg);
    hide TakeOne, Wf;
    assert Remove([p], p) == [];
    assert h.pages[p := pg][p := pg.(linked := false)] == h.pages[p := pg.(linked := false)];
  }

  /** A refill of one block from a linked page without a free list takes its slot 0. */
  lemma FirstBlock(h: Heap, p: PageId, virgin: bool)
    requires Wf(h) && h.partial == [p] && p in h.pages && h.pages[p] == Page([], 0, virgin, false, true)
    ensures var f := Fill(h, 1);
            f.out == [Block(p, 0)] && f.virgin == virgin && f.h == Took(h, p, virgin)
  {
    hide *;
    FreshSupplies(h, p);
    FirstHead(h, p, virgin);
    FillStep(h, 1);
    FillStop(Took(h, p, virgin), 0);
    assert [Block(p, 0)] + [] == [Block(p, 0)];
  }

  lemma FreshSupplies(h: Heap, p: PageId)
    requires Wf(h) && p in h.pages && h.pages[p].used == 0
    ensures Avail(h.cls, h.pages[p]) > 0
  {
  }

  lemma ReturnFirst(h: Heap, p: PageId)
    requires p !in h.pages && h.partial == [] && |h.cold| < h.cls.coldCap && h.cls.lazy
    ensures p in Took(h, p, true).pages && Release(Took(h, p, true), p, [0], BOTH) == Parked1(h, p)
  {
    var r := Took(h, p, true);
    var pg := Page([0], 0, false, false, h.cls.capacity > 1);
    assert [] + [0] == [0];
    assert Returned(r.pages[p], [0]) == pg;
    assert Remove([p], p) == [];
    var idle := h.pages[p := Page([0], 0, false, false, false)];
    assert r.pages[p := pg][p := pg.(linked := false)] == idle;
    assert !pg.linked ==> r.pages[p := pg] == idle;
    assert idle - {p} == h.pages;
  }

  /** After a page was mapped, linked and gave up its first block. */
  ghost predicate OneOut(h: Heap, s: State, n: nat) {
    && s.h == Took(h, n, true)
    && Flight(0) in s.chains && s.chains[Flight(0)].blocks == [Block(n, 0)]
    && (forall k :: k in s.chains && k != Flight(0) ==> s.chains[k].blocks == [])
  }

  lemma FirstMap(cls: SizeClass, s: State, n: nat)
    requires Calm(cls, s, n)
    ensures Enabled(s, Map(n)) && Apply(s, Map(n)) == MapZeroed(s, n) && Inv(MapZeroed(s, n))
    ensures n !in s.h.pages && Wf(s.h)
  {
    MapInv(s, n);
    hide InvOwner, InvChains, InvAbsent, Supplied, Wf;
  }

  lemma FirstLink(s: State, n: nat)
    requires Inv(s) && n in s.h.newborn && NoneHeld(s.chains)
    ensures Enabled(s, LinkTake(0, n, 1)) && n in s.h.pages && Wf(LinkFresh(s.h, n))
    ensures Apply(s, LinkTake(0, n, 1)) == FillFlight(s.(h := LinkFresh(s.h, n)), 0, 1)
  {
    LinkInv(s, n);
    LinkedWf(s, n);
    hide Inv, LinkFresh, Wf;
  }

  lemma LinkedWf(s: State, n: nat)
    requires Inv(s) && n in s.h.newborn
    ensures n in s.h.pages && Wf(LinkFresh(s.h, n)) && Inv(s.(h := LinkFresh(s.h, n)))
  {
    LinkInv(s, n);
    hide InvOwner, InvChains, InvAbsent, Supplied;
  }

  lemma FirstTake(cls: SizeClass, s: State, n: nat)
    requires Calm(cls, s, n) && cls.lazy
    ensures Enabled(s, Map(n)) && Inv(Apply(s, Map(n))) && Enabled(Apply(s, Map(n)), LinkTake(0, n, 1))
    ensures OneOut(s.h, Apply(Apply(s, Map(n)), LinkTake(0, n, 1)), n)
  {
    hide Inv, Enabled, Apply, Wf, Fill, LinkFresh, Overwrite;
    FirstMap(cls, s, n);
    var s1 := MapZeroed(s, n);
    FirstLink(s1, n);
    LinkedFirst(s.h, n);
    hide MapFresh;
    FirstBlock(LinkFresh(s1.h, n), n, true);
  }

  /** One page is mapped, gives up a block, gets it back and moves down the retention ladder. */
  lemma Cycle(be: Backend, cls: SizeClass, es: seq<Event>, s: State, n: nat) returns (fs: seq<Event>, r: State)
    requires Hostile(be, cls) && ReachableOn(be, cls, es, s) && Calm(cls, s, n)
    ensures ReachableOn(be, cls, fs, r) && Inv(r) && r.h == Parked1(s.h, n) && NoneHeld(r.chains)
  {
    FirstTake(cls, s, n);
    hide Inv, Enabled, Apply, ReachableOn, OneOut, Parked1;
    Extend(be, cls, es, s, Map(n));
    var s1 := Apply(s, Map(n));
    Extend(be, cls, es + [Map(n)], s1, LinkTake(0, n, 1));
    var s2 := Apply(s1, LinkTake(0, n, 1));
    var f2 := es + [Map(n)] + [LinkTake(0, n, 1)];
    var e := FirstReturn(cls, s.h, s2, n);
    Extend(be, cls, f2, s2, e);
    fs, r := f2 + [e], Apply(s2, e);
  }

  lemma OneGroup(s: State, g: Group)
    requires Inv(s) && GroupOk(s, 0, g)
    ensures var e := ReleaseBatch(0, [g]);
            && g.page in s.h.pages && |g.slots| <= s.h.pages[g.page].used
            && Enabled(s, e) && Apply(s, e) == ReleaseGroup(s, 0, g)
  {
    hide Inv, GroupOk, ReleaseGroup, Chunk;
    GroupChunk(s, 0, g);
    ReleaseInv(s, 0, g);
    assert [g][1..] == [];
    assert BatchOk(ReleaseGroup(s, 0, g), 0, []);
    assert ReleaseAll(ReleaseGroup(s, 0, g), 0, []) == ReleaseGroup(s, 0, g);
  }

  lemma FirstReturn(cls: SizeClass, h: Heap, s: State, n: nat) returns (e: Event)
    requires Inv(s) && OneOut(h, s, n) && n !in h.pages && h.partial == [] && h.cold == [] && h.cls == cls
    requires cls.lazy && cls.coldCap > 0
    ensures Enabled(s, e) && Apply(s, e).h == Parked1(h, n) && NoneHeld(Apply(s, e).chains)
  {
    var g := Group(n, [0], BOTH, false);
    hide Inv, Parked1;
    assert GroupOk(s, 0, g);
    OneGroup(s, g);
    e := ReleaseBatch(0, [g]);
    hide Enabled, Apply, GroupOk;
    ReturnFirst(h, n);
    hide Release;
    assert Without([Block(n, 0)], n, [0]) == [];
  }

  /** Runs that park `n` pages on the empty list. */
  lemma {:induction false} FillEmptyList(be: Backend, cls: SizeClass, n: nat) returns (es: seq<Event>, s: State)
    requires Hostile(be, cls) && n <= cls.emptyCap
    ensures ReachableOn(be, cls, es, s) && Calm(cls, s, n)
  {
    InitialInv(cls);
    if n == 0 {
      es, s := [], Initial(cls);
    } else {
      var fs, r := FillEmptyList(be, cls, n - 1);
      es, s := Cycle(be, cls, fs, r, n - 1);
      hide Inv, ReachableOn;
    }
  }

  /** Only the empty list and one cold page, believed to be zero and to be recommitted, are left;
      threads from `t` on carry nothing. */
  ghost predicate Draining(cls: SizeClass, s: State, n: nat, t: nat) {
    && Inv(s) && s.h.cls == cls && s.h.partial == [] && |s.h.empty| == n
    && s.h.cold == [Cold(cls.emptyCap, true, true)]
    && (forall u: nat :: u >= t && Flight(u) in s.chains ==> s.chains[Flight(u)].blocks == [])
  }

  lemma ParkCold(be: Backend, cls: SizeClass) returns (es: seq<Event>, s: State)
    requires Hostile(be, cls)
    ensures ReachableOn(be, cls, es, s) && Draining(cls, s, cls.emptyCap, 0)
  {
    var fs, r := FillEmptyList(be, cls, cls.emptyCap);
    es, s := Cycle(be, cls, fs, r, cls.emptyCap);
    hide Inv, ReachableOn;
  }

  /** A whole page's refill leaves nothing linked. */
  lemma DrainHeap(h: Heap)
    requires Wf(h) && Supplied(h) && h.partial == [] && h.empty != [] && h.empty[0] in h.pages && h.empty[0] in h.empty
    ensures Wf(ReuseEmpty(h))
    ensures var f := Fill(ReuseEmpty(h), h.cls.capacity);
            f.out != [] && f.h.partial == [] && f.h.empty == h.empty[1..] && f.h.cold == h.cold && f.h.cls == h.cls
  {
    ReuseEmptyFacts(h);
    ReuseSupplied(h);
    var r := ReuseEmpty(h);
    OnePageSum(h, r);
    hide Wf, Supplied, ReuseEmpty, IsOut, Pristine, NoDup, Fill;
    FillCount(r, h.cls.capacity);
    FillSum(r, h.cls.capacity);
    FillMoves(r, h.cls.capacity);
    FillSupplied(r, h.cls.capacity);
    var f := Fill(r, h.cls.capacity);
    NothingLinked(f.h);
  }

  lemma OnePageSum(h: Heap, r: Heap)
    requires Wf(h) && h.partial == [] && h.empty != [] && h.empty[0] in h.pages && h.empty[0] in h.empty && r == ReuseEmpty(h)
    ensures r.partial == [h.empty[0]] && r.empty == h.empty[1..] && r.cold == h.cold && r.cls == h.cls && h.empty[0] in r.pages
    ensures SumAvail(h.cls, r.pages, r.partial) == h.cls.capacity > 0
  {
    assert Idle(h, h.empty[0]);
    assert r.partial[1..] == [];
  }

  lemma NothingLinked(h: Heap)
    requires Wf(h) && Supplied(h) && (forall p :: p in h.partial ==> p in h.pages) && SumAvail(h.cls, h.pages, h.partial) == 0
    ensures h.partial == []
  {
    hide NoDup, WfPage;
  }

  /** A take with nothing linked fills from the first empty page and stops there. */
  lemma DrainStep(cls: SizeClass, s: State, n: nat, t: nat)
    requires Draining(cls, s, n, t) && n > 0 && cls.capacity > 0
    ensures var e := Take(t, cls.capacity, map[]);
            Enabled(s, e) && Draining(cls, Apply(s, e), n - 1, t + 1)
  {
    hide Inv, Wf, Supplied, Fill, ReuseEmpty, TakeLocked, Enabled, Apply;
    TakeApplies(s, t, cls.capacity, map[]);
    FirstEmpty(s);
    DrainHeap(s.h);
    TakesEmpty(s, t, cls.capacity);
  }

  lemma FirstEmpty(s: State)
    requires Inv(s) && s.h.empty != []
    ensures s.h.empty[0] in s.h.empty && s.h.empty[0] in s.h.pages && Supplied(s.h)
  {
    assert s.h.empty[0] in s.h.empty;
    assert Idle(s.h, s.h.empty[0]);
  }

  lemma TakeApplies(s: State, t: nat, want: nat, junk: map<Block, int>)
    requires Inv(s) && (Flight(t) in s.chains ==> s.chains[Flight(t)].blocks == [])
    ensures Enabled(s, Take(t, want, junk)) && Wf(s.h)
    ensures Apply(s, Take(t, want, junk)) == TakeLocked(s, t, want, junk) && Inv(TakeLocked(s, t, want, junk))
  {
    hide InvOwner, InvChains, InvAbsent, Supplied, Wf, TakeLocked;
    TakeInv(s, t, want, junk);
  }

  lemma TakesEmpty(s: State, t: nat, want: nat)
    requires Inv(s) && s.h.partial == [] && s.h.empty != [] && s.h.empty[0] in s.h.pages && want > 0
    requires Wf(ReuseEmpty(s.h)) && Fill(ReuseEmpty(s.h), want).out != []
    ensures var r := TakeLocked(s, t, want, map[]);
            && r.h == Fill(ReuseEmpty(s.h), want).h
            && (forall k :: k in r.chains && k != Flight(t) ==> k in s.chains && r.chains[k] == s.chains[k])
  {
    hide InvOwner, InvChains, InvAbsent, Supplied, ReuseEmpty;
    assert Fill(s.h, want) == Taken(s.h, [], true);
    hide Fill;
  }

  lemma {:induction false} DrainAll(be: Backend, cls: SizeClass, es: seq<Event>, s: State, n: nat, t: nat)
      returns (fs: seq<Event>, r: State, u: nat)
    requires Hostile(be, cls) && ReachableOn(be, cls, es, s) && Draining(cls, s, n, t)
    ensures ReachableOn(be, cls, fs, r) && Draining(cls, r, 0, u)
    decreases n
  {
    if n == 0 {
      fs, r, u := es, s, t;
    } else {
      var e := Take(t, cls.capacity, map[]);
      DrainStep(cls, s, n, t);
      assert Inv(s);
      hide Inv, ReachableOn, Draining, Enabled, Apply;
      Extend(be, cls, es, s, e);
      fs, r, u := DrainAll(be, cls, es + [e], Apply(s, e), n - 1, t + 1);
    }
  }

  /** With nothing else left a take recommits the cold page, believes its old report, and passes its
      first block on as zeroed, whatever the recommit left there. */
  lemma LastTake(cls: SizeClass, s: State, t: nat)
    requires Draining(cls, s, 0, t) && cls.lazy && cls.capacity > 0
    ensures var p := cls.emptyCap;
            var e := Take(t, 1, map[Block(p, 0) := 1]);
            Enabled(s, e) && Inv(Apply(s, e)) && !TrueReport(Apply(s, e), Flight(t))
  {
    var p := cls.emptyCap;
    var junk := map[Block(p, 0) := 1];
    TakeApplies(s, t, 1, junk);
    hide Inv, Wf, Fill, ReuseCold, TakeLocked, Enabled, Apply;
    ReuseColdFacts(s.h);
    Recarved(s.h, p);
    FirstBlock(ReuseCold(s.h), p, true);
    TakesCold(s, t, 1, junk);
  }

  lemma Recarved(h: Heap, p: PageId)
    requires Wf(h) && h.cls.lazy && h.partial == [] && h.cold == [Cold(p, true, true)]
    ensures var r := ReuseCold(h); r.partial == [p] && p in r.pages && r.pages[p] == Page([], 0, true, false, true)
  {
  }

  lemma TakesCold(s: State, t: nat, want: nat, junk: map<Block, int>)
    requires Inv(s) && s.h.partial == [] && s.h.empty == [] && s.h.cold != [] && want > 0 && Wf(ReuseCold(s.h))
    ensures var r := TakeLocked(s, t, want, junk);
            var f := Fill(ReuseCold(s.h), want);
            && Flight(t) in r.chains && r.chains[Flight(t)] == Chain(f.out, if f.virgin then |f.out| else 0)
            && (s.h.cold[|s.h.cold| - 1].decommitted ==> r.mem == Overwrite(s.mem, s.h.cold[|s.h.cold| - 1].page, junk))
  {
    hide InvOwner, InvChains, InvAbsent, Supplied, ReuseCold, Overwrite;
    assert Fill(s.h, want) == Taken(s.h, [], true);
    hide Fill;
  }

  /** A run on a hostile backend that ends in a false report. */
  lemma FalseReport(be: Backend, cls: SizeClass) returns (es: seq<Event>, s: State, k: Key)
    requires Hostile(be, cls)
    ensures ReachableOn(be, cls, es, s) && !TrueReport(s, k)
  {
    var e1, s1 := ParkCold(be, cls);
    var e2, s2, t := DrainAll(be, cls, e1, s1, cls.emptyCap, 0);
    LastTake(cls, s2, t);
    assert Inv(s2);
    hide Inv, ReachableOn, Draining, Enabled, Apply, TrueReport;
    var e := Take(t, 1, map[Block(cls.emptyCap, 0) := 1]);
    Extend(be, cls, e2, s2, e);
    es, s, k := e2 + [e], Apply(s2, e), Flight(t);
  }

  ghost predicate AlwaysTrue(be: Backend, cls: SizeClass)
    requires cls.capacity > 0
  {
    forall es, s, k :: ReachableOn(be, cls, es, s) ==> TrueReport(s, k)
  }

  /** Zero reports are true in every run of a class on a backend if and only if a recommit keeps readable
      contents, or physical and zeroed are never reported together, or the class does not rely on purges. */
  lemma ZeroReportsExactly(be: Backend, cls: SizeClass)
    requires cls.capacity > 0
    ensures AlwaysTrue(be, cls) <==> Safe(be, cls)
  {
    if Safe(be, cls) {
      forall es, s, k | ReachableOn(be, cls, es, s) ensures TrueReport(s, k) {
        ZeroReportIsTrue(be, cls, es, s, k);
      }
    } else {
      var es, s, k := FalseReport(be, cls);
      hide ReachableOn, TrueReport;
      assert ReachableOn(be, cls, es, s) && !TrueReport(s, k);
    }
  }
}
