/**
 The ownership protocol of one size class in every run of any number of
 threads (src/heap.rs, src/cache.rs).

 A step is one section under the class lock or one action a thread performs on
 storage it owns. A cache is named by a number that stays with it through
 thread exit, the retirement queue and adoption, so moving a whole cache is not
 a step here; stealing a chain out of one is.
 */
module Ownership {
  import opened Seqs
  import opened PageSpec
  import opened PageLife

  /** A detached chain: a bin or active chain of some cache, or the chain a thread is
      carrying between a cache and the heap. */
  datatype Key = Bin(cache: nat, active: bool) | Flight(tid: nat)

  datatype Owner = InChain(key: Key) | User

  /** `blocks` from bottom to top; the bottom `virgin` of them were never handed out. */
  datatype Chain = Chain(blocks: seq<Block>, virgin: nat)

  /** `mem` holds what a block contains beyond its link word (absent key: all zero).
      `owner` is an auxiliary variable recording who holds each block outside its page.
      `absent` pages are decommitted: touching them faults. */
  datatype State = State(
    h: Heap,
    chains: map<Key, Chain>,
    owner: map<Block, Owner>,
    mem: map<Block, int>,
    absent: set<PageId>)

  /** A chain after its top block left; the watermark never exceeds the length. */
  function PopChain(c: Chain): (r: Chain)
    requires c.blocks != []
  {
    var n := |c.blocks| - 1;
    Chain(c.blocks[..n], Min(c.virgin, n))
  }

  /** A chain with a block on top; the watermark still describes the blocks below it. */
  function PushChain(c: Chain, b: Block): (r: Chain) { c.(blocks := c.blocks + [b]) }

  /** The bottom `floor` blocks of a chain, with what the watermark still says about them. */
  function Keep(c: Chain, floor: nat): (r: Chain)
  {
    var n := Min(floor, |c.blocks|);
    Chain(c.blocks[..n], Min(c.virgin, n))
  }

  function Excess(c: Chain, floor: nat): (r: seq<Block>) { c.blocks[Min(floor, |c.blocks|)..] }

  function ChainOf(s: State, k: Key): Chain { if k in s.chains then s.chains[k] else Chain([], 0) }

  function Body(mem: map<Block, int>, b: Block): int { if b in mem then mem[b] else 0 }

  // ------------------------------------------------------------- invariant

  /** Who holds a block is recorded for exactly the blocks outside their pages. */
  ghost predicate InvOwner(s: State) {
    forall b :: b in s.owner <==> IsOut(s.h, b)
  }

  ghost predicate Holds(chains: map<Key, Chain>, k: Key, b: Block) { k in chains && b in chains[k].blocks }

  /** Each chain is duplicate-free, and its blocks are exactly the ones it owns. */
  ghost predicate InvChains(chains: map<Key, Chain>, owner: map<Block, Owner>) {
    && (forall k :: k in chains ==> NoDup(chains[k].blocks) && chains[k].virgin <= |chains[k].blocks|)
    && (forall k, b :: Holds(chains, k, b) ==> b in owner && owner[b] == InChain(k))
    && (forall b :: b in owner && owner[b].InChain? ==> Holds(chains, owner[b].key, b))
  }

  /** A decommitted page is a cold page whose entry says that it must be recommitted. A cold page of a lazily
      carved class is decommitted exactly if its entry says so; a span's entry always asks for a recommit. */
  ghost predicate InvAbsent(s: State) { AbsentFits(s.h.cls.lazy, s.h.cold, s.absent) }

  ghost predicate AbsentFits(lazy: bool, cold: seq<Cold>, absent: set<PageId>) {
    && (forall p :: p in absent ==> exists i :: 0 <= i < |cold| && cold[i].page == p)
    && (forall i :: 0 <= i < |cold| && cold[i].page in absent ==> cold[i].decommitted && !cold[i].zeroed)
    && (forall i :: 0 <= i < |cold| && lazy && cold[i].decommitted && !cold[i].zeroed ==> cold[i].page in absent)
  }

  ghost predicate Inv(s: State) {
    Wf(s.h) && Supplied(s.h) && InvOwner(s) && InvChains(s.chains, s.owner) && InvAbsent(s)
  }

  function Initial(cls: SizeClass): State {
    State(Heap(cls, map[], [], [], [], {}, {}), map[], map[], map[], {})
  }

  // --------------------------------------------------- thread-private actions

  /** Allocation hit: the top of a chain goes to the user. */
  function PopTop(s: State, k: Key): (r: State)
    requires ChainOf(s, k).blocks != []
  {
    var c := ChainOf(s, k);
    s.(chains := s.chains[k := PopChain(c)], owner := s.owner[c.blocks[|c.blocks| - 1] := User])
  }

  /** Whether the block about to be popped is reported as still zero. */
  predicate ReportsZero(c: Chain)
    requires c.blocks != []
  {
    |c.blocks| - 1 < c.virgin
  }

  /** Free: a user block goes on top of a chain. */
  function PushTop(s: State, k: Key, b: Block): (r: State)
  {
    s.(chains := s.chains[k := PushChain(ChainOf(s, k), b)], owner := s.owner[b := InChain(k)])
  }

  /** Hand a whole chain, with its watermark, to a key whose chain is empty. */
  function MoveChain(s: State, from: Key, to: Key): (r: State)
  {
    var c := ChainOf(s, from);
    s.(chains := s.chains[from := Chain([], 0)][to := c],
       owner := map b | b in s.owner :: if b in c.blocks then InChain(to) else s.owner[b])
  }

  /** Pop `n` blocks off a bin into the chain the thread carries to the heap. */
  function Detach(s: State, k: Key, t: nat, n: nat): (r: State)
    requires n <= |ChainOf(s, k).blocks|
  {
    var c := ChainOf(s, k);
    var m := |c.blocks| - n;
    s.(chains := s.chains[k := Keep(c, m)][Flight(t) := Chain(Excess(c, m), 0)],
       owner := map b | b in s.owner :: if b in Excess(c, m) then InChain(Flight(t)) else s.owner[b])
  }

  // ------------------------------------------------------ sections under lock

  /** Refill from the partial list into the carried chain. */
  ghost function FillFlight(s: State, t: nat, want: nat): (r: State)
    requires Wf(s.h)
  {
    var f := Fill(s.h, want);
    s.(h := f.h,
       chains := s.chains[Flight(t) := Chain(f.out, if f.virgin then |f.out| else 0)],
       owner := s.owner + map b | b in f.out :: InChain(Flight(t)))
  }

  function WakeEmpty(s: State): (r: State)
    requires s.h.empty != [] && s.h.empty[0] in s.h.pages
  {
    s.(h := ReuseEmpty(s.h))
  }

  /** Recommit whenever the entry says so, then re-carve. After a recommit the page holds `junk`; what a
      backend promises about it is stated in module ZeroReports. */
  function WakeCold(s: State, junk: map<Block, int>): (r: State)
    requires s.h.cold != []
  {
    var c := s.h.cold[|s.h.cold| - 1];
    s.(h := ReuseCold(s.h),
       mem := if c.decommitted then Overwrite(s.mem, c.page, junk) else s.mem,
       absent := if c.decommitted then s.absent - {c.page} else s.absent)
  }

  /** Replace everything `mem` says about page `p`. */
  function Overwrite(mem: map<Block, int>, p: PageId, now: map<Block, int>): (r: map<Block, int>)
    ensures forall b :: Body(r, b) == if b.page == p then Body(now, b) else Body(mem, b)
  {
    map b | b in mem.Keys + now.Keys && (if b.page == p then b in now else b in mem) ::
      if b.page == p then now[b] else mem[b]
  }

  ghost predicate Refilled(s: State, t: nat) { ChainOf(s, Flight(t)).blocks != [] }

  ghost function RefillEmpty(s: State, t: nat, want: nat): (r: State)
    requires Wf(s.h)
  {
    if Refilled(s, t) || s.h.empty == [] then s
    else
      assert s.h.empty[0] in s.h.empty;
      ReuseEmptyFacts(s.h);
      FillFlight(WakeEmpty(s), t, want)
  }

  ghost function RefillCold(s: State, t: nat, want: nat, junk: map<Block, int>): (r: State)
    requires Wf(s.h)
  {
    if Refilled(s, t) || s.h.cold == [] then s
    else
      ReuseColdFacts(s.h);
      FillFlight(WakeCold(s, junk), t, want)
  }

  /** The locked section of a take: partial list, else an empty page, else a cold page. */
  ghost function TakeLocked(s: State, t: nat, want: nat, junk: map<Block, int>): (r: State)
    requires Wf(s.h)
  {
    FillMoves(s.h, want);
    var a := FillFlight(s, t, want);
    var b := RefillEmpty(a, t, want);
    assert Wf(b.h) by {
      if !Refilled(a, t) && a.h.empty != [] {
        assert a.h.empty[0] in a.h.empty;
        ReuseEmptyFacts(a.h);
        FillMoves(ReuseEmpty(a.h), want);
      }
    }
    RefillCold(b, t, want, junk)
  }

  /** One chunk of a batch: distinct blocks of one page, what the backend will report
      if the page is purged, and whether the caller uses the retire shortcut. */
  datatype Group = Group(page: PageId, slots: seq<nat>, discard: Discard, shortcut: bool)

  function Without(blocks: seq<Block>, p: PageId, slots: seq<nat>): (r: seq<Block>)
    ensures forall b :: b in r <==> b in blocks && !(b.page == p && b.slot in slots)
  {
    if blocks == [] then []
    else
      var rest := Without(blocks[1..], p, slots);
      if blocks[0].page == p && blocks[0].slot in slots then rest else [blocks[0]] + rest
  }

  function HeapAfter(h: Heap, g: Group): (r: Heap)
    requires g.page in h.pages && |g.slots| <= h.pages[g.page].used
  {
    if g.shortcut && |g.slots| == h.pages[g.page].used then Retire(h, g.page, g.discard)
    else Release(h, g.page, g.slots, g.discard)
  }

  /** The page was purged by this release: it is the new last cold entry. */
  predicate Purged(h: Heap, r: Heap) { |r.cold| > |h.cold| }

  /** Return one chunk to its page; if the page goes cold its contents obey the purge contract. */
  function ReleaseGroup(s: State, t: nat, g: Group): (r: State)
    requires g.page in s.h.pages && |g.slots| <= s.h.pages[g.page].used
  {
    var c := ChainOf(s, Flight(t));
    var h := HeapAfter(s.h, g);
    s.(h := h,
       chains := s.chains[Flight(t) := Chain(Without(c.blocks, g.page, g.slots), 0)],
       owner := map b | b in s.owner && !(b.page == g.page && b.slot in g.slots) :: s.owner[b],
       mem := if Purged(s.h, h) && g.discard.zeroed then Overwrite(s.mem, g.page, map[]) else s.mem,
       absent := if Purged(s.h, h) && g.discard.physical && !g.discard.zeroed then s.absent + {g.page} else s.absent)
  }

  ghost predicate GroupOk(s: State, t: nat, g: Group) {
    && g.slots != [] && NoDup(g.slots)
    && (forall x: nat :: x in g.slots ==> Block(g.page, x) in ChainOf(s, Flight(t)).blocks)
  }

  /** Freshly mapped memory reads as zero. */
  function MapZeroed(s: State, p: PageId): (r: State)
  {
    s.(h := MapFresh(s.h, p), mem := Overwrite(s.mem, p, map[]))
  }

  // ------------------------------------- preservation: chains and their owners

  lemma ChainsPop(chains: map<Key, Chain>, owner: map<Block, Owner>, k: Key)
    requires InvChains(chains, owner) && k in chains && chains[k].blocks != []
    ensures var c := chains[k];
            var n := |c.blocks| - 1;
            InvChains(chains[k := Chain(c.blocks[..n], Min(c.virgin, n))], owner[c.blocks[n] := User])
  {
    var c := chains[k];
    NoDupPrefix(c.blocks);
    var b, n := c.blocks[|c.blocks| - 1], |c.blocks| - 1;
    assert Holds(chains, k, b);
    var after := chains[k := Chain(c.blocks[..n], Min(c.virgin, n))];
    assert forall j, x :: Holds(after, j, x) <==> Holds(chains, j, x) && !(j == k && x == b);
  }

  lemma ChainsPush(chains: map<Key, Chain>, owner: map<Block, Owner>, k: Key, b: Block)
    requires InvChains(chains, owner) && b in owner && owner[b] == User
    ensures var c := if k in chains then chains[k] else Chain([], 0);
            InvChains(chains[k := c.(blocks := c.blocks + [b])], owner[b := InChain(k)])
  {
    var c := if k in chains then chains[k] else Chain([], 0);
    if b in c.blocks {
      assert Holds(chains, k, b);
    }
    NoDupSnoc(c.blocks, b);
    var after := chains[k := c.(blocks := c.blocks + [b])];
    assert forall j, x :: Holds(after, j, x) <==> Holds(chains, j, x) || (j == k && x == b);
  }

  lemma SplitNoDup(s: seq<Block>, m: nat)
    requires NoDup(s) && m <= |s|
    ensures NoDup(s[..m]) && NoDup(s[m..])
    ensures forall b :: b in s <==> b in s[..m] || b in s[m..]
    ensures forall b :: b in s[..m] ==> b !in s[m..]
  {
    assert s == s[..m] + s[m..];
  }

  /** Splitting a chain between two keys, the second of which was empty, hands the upper part over. */
  lemma ChainsSplit(chains: map<Key, Chain>, owner: map<Block, Owner>, k: Key, to: Key, m: nat, v: nat, w: nat)
    requires InvChains(chains, owner) && k in chains && m <= |chains[k].blocks| && k != to
    requires to in chains ==> chains[to].blocks == []
    requires v <= m && w <= |chains[k].blocks| - m
    ensures var c := chains[k];
            InvChains(chains[k := Chain(c.blocks[..m], v)][to := Chain(c.blocks[m..], w)],
                      map b | b in owner :: if b in c.blocks[m..] then InChain(to) else owner[b])
  {
    var c := chains[k];
    SplitNoDup(c.blocks, m);
    hide NoDup;
    var after := chains[k := Chain(c.blocks[..m], v)][to := Chain(c.blocks[m..], w)];
    assert forall j, x :: Holds(after, j, x) <==>
      if j == to then x in c.blocks[m..] else if j == k then x in c.blocks[..m] else Holds(chains, j, x);
    forall j, x | Holds(after, j, x) ensures Holds(chains, if j == to then k else j, x) {
    }
  }

  lemma ChainsFill(chains: map<Key, Chain>, owner: map<Block, Owner>, k: Key, out: seq<Block>, v: nat)
    requires InvChains(chains, owner) && (k in chains ==> chains[k].blocks == [])
    requires NoDup(out) && v <= |out| && forall b :: b in out ==> b !in owner
    ensures InvChains(chains[k := Chain(out, v)], owner + map b | b in out :: InChain(k))
  {
    var after := chains[k := Chain(out, v)];
    assert forall j, x :: Holds(after, j, x) <==> if j == k then x in out else Holds(chains, j, x);
  }

  lemma {:induction false} WithoutNoDup(blocks: seq<Block>, p: PageId, slots: seq<nat>)
    requires NoDup(blocks)
    ensures NoDup(Without(blocks, p, slots))
  {
    if blocks != [] {
      assert NoDup(blocks[1..]) && blocks[0] !in blocks[1..];
      WithoutNoDup(blocks[1..], p, slots);
    }
  }

  lemma ChainsRelease(chains: map<Key, Chain>, owner: map<Block, Owner>, k: Key, p: PageId, slots: seq<nat>)
    requires InvChains(chains, owner) && k in chains
    requires forall x: nat :: x in slots ==> Block(p, x) in chains[k].blocks
    ensures InvChains(chains[k := Chain(Without(chains[k].blocks, p, slots), 0)],
                      map b | b in owner && !(b.page == p && b.slot in slots) :: owner[b])
  {
    WithoutNoDup(chains[k].blocks, p, slots);
    forall b: Block | b.page == p && b.slot in slots ensures Holds(chains, k, b) {
      assert b == Block(p, b.slot);
    }
    var after := chains[k := Chain(Without(chains[k].blocks, p, slots), 0)];
    forall j, x ensures Holds(after, j, x) <==> Holds(chains, j, x) && !(x.page == p && x.slot in slots) {
      if Holds(chains, j, x) && x.page == p && x.slot in slots {
        assert Holds(chains, k, x);
      }
    }
  }

  // ----------------------------------------------- preservation: private actions

  lemma PopInv(s: State, k: Key)
    requires Inv(s) && ChainOf(s, k).blocks != []
    ensures Inv(PopTop(s, k))
  {
    ChainsPop(s.chains, s.owner, k);
    assert Holds(s.chains, k, ChainOf(s, k).blocks[|ChainOf(s, k).blocks| - 1]);
  }

  lemma PushInv(s: State, k: Key, b: Block)
    requires Inv(s) && b in s.owner && s.owner[b] == User
    ensures Inv(PushTop(s, k, b))
  {
    ChainsPush(s.chains, s.owner, k, b);
  }

  lemma WriteInv(s: State, b: Block, v: int)
    requires Inv(s)
    ensures Inv(s.(mem := s.mem[b := v]))
  {
  }

  lemma MoveInv(s: State, from: Key, to: Key)
    requires Inv(s) && from != to && ChainOf(s, to).blocks == []
    ensures Inv(MoveChain(s, from, to))
  {
    var r := MoveChain(s, from, to);
    if from in s.chains {
      var c := s.chains[from];
      ChainsSplit(s.chains, s.owner, from, to, 0, 0, c.virgin);
      assert c.blocks[0..] == c.blocks && c.blocks[..0] == [];
      assert r.chains == s.chains[from := Chain(c.blocks[..0], 0)][to := Chain(c.blocks[0..], c.virgin)];
    } else {
      assert r.owner == s.owner;
      assert forall j, x :: Holds(r.chains, j, x) <==> Holds(s.chains, j, x);
    }
  }

  lemma DetachInv(s: State, k: Key, t: nat, n: nat)
    requires Inv(s) && n <= |ChainOf(s, k).blocks| && k in s.chains && k != Flight(t)
    requires ChainOf(s, Flight(t)).blocks == []
    ensures Inv(Detach(s, k, t, n))
  {
    var c := s.chains[k];
    var m := |c.blocks| - n;
    ChainsSplit(s.chains, s.owner, k, Flight(t), m, Min(c.virgin, m), 0);
  }

  // ---------------------------------------------- preservation: locked sections

  lemma FillInv(s: State, t: nat, want: nat)
    requires Inv(s) && ChainOf(s, Flight(t)).blocks == []
    ensures Inv(FillFlight(s, t, want))
  {
    hide Wf, Supplied, Fill, IsOut, Pristine, InvChains, NoDup;
    FillMoves(s.h, want);
    FillSupplied(s.h, want);
    var f := Fill(s.h, want);
    ChainsFill(s.chains, s.owner, Flight(t), f.out, if f.virgin then |f.out| else 0);
    assert forall i :: 0 <= i < |f.out| ==> f.out[i] in f.out;
  }

  lemma WakeEmptyInv(s: State)
    requires Inv(s) && s.h.empty != [] && s.h.empty[0] in s.h.empty
    ensures Inv(WakeEmpty(s))
  {
    ReuseEmptyFacts(s.h);
    ReuseSupplied(s.h);
  }

  lemma WakeColdInv(s: State, junk: map<Block, int>)
    requires Inv(s) && s.h.cold != []
    ensures Inv(WakeCold(s, junk))
  {
    ReuseColdFacts(s.h);
    ReuseSupplied(s.h);
    WakeColdAbsent(s, junk);
  }

  lemma WakeColdAbsent(s: State, junk: map<Block, int>)
    requires Inv(s) && s.h.cold != []
    ensures InvAbsent(WakeCold(s, junk))
  {
    var r := WakeCold(s, junk);
    var last := |s.h.cold| - 1;
    assert r.h.cold == s.h.cold[..last];
    forall p | p in r.absent ensures exists i :: 0 <= i < |r.h.cold| && r.h.cold[i].page == p {
      var i :| 0 <= i < |s.h.cold| && s.h.cold[i].page == p;
      assert i != last;
      assert r.h.cold[i] == s.h.cold[i];
    }
  }

  lemma MapInv(s: State, p: PageId)
    requires Inv(s) && p !in s.h.pages && !ColdPage(s.h, p)
    ensures Inv(MapZeroed(s, p))
  {
    MapFreshFacts(s.h, p);
  }

  lemma LinkInv(s: State, p: PageId)
    requires Inv(s) && p in s.h.newborn
    ensures Inv(s.(h := LinkFresh(s.h, p)))
  {
    LinkFreshFacts(s.h, p);
  }

  lemma UnmapInv(s: State, p: PageId)
    requires Inv(s) && p in s.h.doomed
    ensures Inv(s.(h := Unmap(s.h, p)))
  {
    UnmapFacts(s.h, p);
  }

  /** The blocks of a group are outside their page, so they form a releasable chunk. */
  lemma GroupChunk(s: State, t: nat, g: Group)
    requires Inv(s) && GroupOk(s, t, g)
    ensures Chunk(s.h, g.page, g.slots) && |g.slots| <= s.h.pages[g.page].used
  {
    forall x: nat | x in g.slots ensures IsOut(s.h, Block(g.page, x)) {
      assert Holds(s.chains, Flight(t), Block(g.page, x));
    }
    assert g.slots[0] in g.slots;
    OutBound(s.h.cls, s.h.pages[g.page], g.slots);
  }

  lemma HeapAfterFacts(s: State, t: nat, g: Group)
    requires Inv(s) && GroupOk(s, t, g)
    requires g.page in s.h.pages && |g.slots| <= s.h.pages[g.page].used
    ensures CameHome(s.h, HeapAfter(s.h, g), g.page, g.slots) && Supplied(HeapAfter(s.h, g))
  {
    GroupChunk(s, t, g);
    ReleaseSupplied(s.h, g.page, g.slots, g.discard);
    if g.shortcut && |g.slots| == s.h.pages[g.page].used {
      RetireFacts(s.h, g.page, g.slots, g.discard);
    } else {
      ReleaseFacts(s.h, g.page, g.slots, g.discard);
    }
  }

  /** A release changes the cold array only by appending the page it purged. */
  lemma ColdAfter(h: Heap, g: Group)
    requires g.page in h.pages && |g.slots| <= h.pages[g.page].used
    ensures var r := HeapAfter(h, g);
            r.cold == h.cold ||
            r.cold == h.cold + [Cold(g.page, h.cls.lazy && g.discard.zeroed, !h.cls.lazy || g.discard.physical)]
  {
  }

  lemma ReleaseInv(s: State, t: nat, g: Group)
    requires Inv(s) && GroupOk(s, t, g)
    requires g.page in s.h.pages && |g.slots| <= s.h.pages[g.page].used
    ensures Inv(ReleaseGroup(s, t, g))
  {
    HeapAfterFacts(s, t, g);
    assert g.slots[0] in g.slots;
    ChainsRelease(s.chains, s.owner, Flight(t), g.page, g.slots);
    ReleaseAbsent(s, t, g);
  }

  lemma AbsentSnoc(lazy: bool, cold: seq<Cold>, absent: set<PageId>, c: Cold, gone: bool)
    requires AbsentFits(lazy, cold, absent) && forall i :: 0 <= i < |cold| ==> cold[i].page != c.page
    requires gone ==> c.decommitted && !c.zeroed
    requires lazy && c.decommitted && !c.zeroed ==> gone
    ensures AbsentFits(lazy, cold + [c], if gone then absent + {c.page} else absent)
  {
    var r := if gone then absent + {c.page} else absent;
    forall p | p in r ensures exists i :: 0 <= i < |cold + [c]| && (cold + [c])[i].page == p {
      if p in absent {
        var i :| 0 <= i < |cold| && cold[i].page == p;
        assert (cold + [c])[i].page == p;
      } else {
        assert (cold + [c])[|cold|].page == p;
      }
    }
  }

  lemma ReleaseAbsent(s: State, t: nat, g: Group)
    requires Inv(s) && GroupOk(s, t, g)
    requires g.page in s.h.pages && |g.slots| <= s.h.pages[g.page].used
    ensures InvAbsent(ReleaseGroup(s, t, g))
  {
    hide InvOwner, InvChains, Supplied, AbsentFits, Release, Retire;
    ColdAfter(s.h, g);
    HeapAfterFacts(s, t, g);
    var r := ReleaseGroup(s, t, g);
    if r.h.cold != s.h.cold {
      AbsentSnoc(s.h.cls.lazy, s.h.cold, s.absent, r.h.cold[|s.h.cold|], g.discard.physical && !g.discard.zeroed);
    }
  }
}
