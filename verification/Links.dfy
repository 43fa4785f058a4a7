/**
 Intrusive free lists: the first word of a free block holds the next pointer
 (src/page.rs push_block, pop_block, provision; the chain walks of src/heap.rs).

 `IsChain` justifies describing a list elsewhere by the sequence of its blocks.
 A block whose page is purged or unmapped has no link word, so every read
 `link[b]` below carries the obligation that the page is still there.
 */
module Links {
  import opened Seqs
  import opened PageSpec
  import Ownership
  import Batch

  datatype Ptr = Null | To(block: Block)

  type Words = map<Block, Ptr>

  /** Following the links from `head` visits `s` from its last block down to its first and ends at `end`. */
  ghost predicate IsSegment(link: Words, head: Ptr, s: seq<Block>, end: Ptr)
    decreases |s|
  {
    if s == [] then head == end
    else
      var top := s[|s| - 1];
      head == To(top) && top in link && IsSegment(link, link[top], s[..|s| - 1], end)
  }

  ghost predicate IsChain(link: Words, head: Ptr, s: seq<Block>) { IsSegment(link, head, s, Null) }

  /** A chain is not disturbed by writes to other blocks. */
  lemma {:induction false} Frame(a: Words, b: Words, head: Ptr, s: seq<Block>, end: Ptr)
    requires IsSegment(a, head, s, end) && forall x :: x in s ==> x in a && x in b && a[x] == b[x]
    ensures IsSegment(b, head, s, end)
    decreases |s|
  {
    if s != [] {
      var top := s[|s| - 1];
      assert top in s;
      assert forall x :: x in s[..|s| - 1] ==> x in s;
      Frame(a, b, a[top], s[..|s| - 1], end);
    }
  }

  lemma {:induction false} SegmentMapped(link: Words, head: Ptr, s: seq<Block>, end: Ptr)
    requires IsSegment(link, head, s, end)
    ensures forall x :: x in s ==> x in link
    decreases |s|
  {
    if s != [] {
      SegmentMapped(link, link[s[|s| - 1]], s[..|s| - 1], end);
      assert s == s[..|s| - 1] + [s[|s| - 1]];
    }
  }

  /** The links determine the sequence. */
  lemma {:induction false} ChainUnique(link: Words, head: Ptr, s: seq<Block>, t: seq<Block>)
    requires IsChain(link, head, s) && IsChain(link, head, t)
    ensures s == t
    decreases |s|
  {
    if s != [] && t != [] {
      var top := s[|s| - 1];
      ChainUnique(link, link[top], s[..|s| - 1], t[..|t| - 1]);
      assert s == s[..|s| - 1] + [top] && t == t[..|t| - 1] + [top];
    }
  }

  /** Part of a chain below a given block is itself a chain. */
  lemma {:induction false} Below(link: Words, head: Ptr, s: seq<Block>, i: nat)
    requires IsChain(link, head, s) && i < |s|
    ensures IsChain(link, To(s[i]), s[..i + 1])
    decreases |s|
  {
    if i + 1 < |s| {
      Below(link, link[s[|s| - 1]], s[..|s| - 1], i);
      assert s[..|s| - 1][..i + 1] == s[..i + 1];
    } else {
      assert s[..i + 1] == s;
    }
  }

  /** A finite chain is acyclic: no block is on it twice. */
  lemma ChainNoDup(link: Words, head: Ptr, s: seq<Block>)
    requires IsChain(link, head, s)
    ensures NoDup(s)
  {
    forall i, j | 0 <= i < j < |s| ensures s[i] != s[j] {
      Below(link, head, s, i);
      Below(link, head, s, j);
      if s[i] == s[j] {
        ChainUnique(link, To(s[i]), s[..i + 1], s[..j + 1]);
      }
    }
  }

  /** Redirecting the bottom link of a segment to another chain puts the segment on top of it. */
  lemma {:induction false} SpliceLemma(link: Words, head: Ptr, c: seq<Block>, end: Ptr, below: Ptr, s: seq<Block>)
    requires c != [] && NoDup(c) && IsSegment(link, head, c, end) && IsChain(link, below, s)
    requires forall x :: x in c ==> x !in s
    ensures IsChain(link[c[0] := below], head, s + c)
    decreases |c|
  {
    var after := link[c[0] := below];
    var top := c[|c| - 1];
    SegmentMapped(link, below, s, Null);
    Frame(link, after, below, s, Null);
    assert (s + c)[..|s + c| - 1] == s + c[..|c| - 1];
    assert (s + c)[|s + c| - 1] == top;
    if |c| == 1 {
      assert s + c[..|c| - 1] == s;
    } else {
      assert forall x :: x in c[..|c| - 1] ==> x in c;
      SpliceLemma(link, link[top], c[..|c| - 1], end, below, s);
    }
  }

  /** Setting the bottom link of a chain to null cuts it there and keeps the part above. */
  lemma {:induction false} CutLemma(link: Words, head: Ptr, c: seq<Block>, end: Ptr)
    requires c != [] && NoDup(c) && IsSegment(link, head, c, end)
    ensures IsChain(link[c[0] := Null], head, c)
  {
    SpliceLemma(link, head, c, end, Null, []);
    assert [] + c == c;
  }

  ghost function OnPage(p: PageId, slots: seq<nat>): (r: seq<Block>)
    ensures |r| == |slots|
  {
    seq(|slots|, i requires 0 <= i < |slots| => Block(p, slots[i]))
  }

  /** The blocks of `s` that lie in page `p`, in order. */
  ghost function OfPage(s: seq<Block>, p: PageId): (r: seq<Block>)
    ensures forall b :: b in r <==> b in s && b.page == p
  {
    if s == [] then [] else (if s[0].page == p then [s[0]] else []) + OfPage(s[1..], p)
  }

  lemma {:induction false} OfPageNoDup(s: seq<Block>, p: PageId)
    requires NoDup(s)
    ensures NoDup(OfPage(s, p))
  {
    if s != [] {
      assert NoDup(s[1..]) && s[0] !in s[1..];
      OfPageNoDup(s[1..], p);
      if s[0].page == p {
        NoDupSnoc(OfPage(s[1..], p), s[0]);
      }
    }
  }

  /** One group of a release: where its chain starts and ends, and whether its page is
      being retired, so that no chain is needed. */
  datatype Chunk = Chunk(page: PageId, head: Ptr, tail: Ptr, retired: bool)

  class LinkWords {
    var link: Words

    method PushBlock(head: Ptr, b: Block, ghost s: seq<Block>) returns (r: Ptr)
      requires b in link && IsChain(link, head, s) && b !in s
      modifies this
      ensures r == To(b) && link == old(link)[b := head] && IsChain(link, r, s + [b])
    {
      SegmentMapped(link, head, s, Null);
      Frame(link, link[b := head], head, s, Null);
      link := link[b := head];
      r := To(b);
      assert (s + [b])[..|s|] == s;
    }

    method PopBlock(head: Ptr, ghost s: seq<Block>) returns (b: Ptr, r: Ptr)
      requires IsChain(link, head, s)
      ensures s == [] ==> b == Null && r == head
      ensures s != [] ==> b == To(s[|s| - 1]) && IsChain(link, r, s[..|s| - 1])
    {
      if head == Null {
        b, r := Null, head;
      } else {
        b, r := head, link[head.block];
      }
    }

    /** Lazy carving: link `count` further slots in front of the page's list, lowest slot first. */
    method Provision(p: PageId, cls: SizeClass, pg: Page, head: Ptr, max: nat) returns (r: Ptr, count: nat)
      requires WfPage(cls, pg) && IsChain(link, head, OnPage(p, pg.free))
      requires forall i: nat :: i < cls.capacity ==> Block(p, i) in link
      modifies this
      ensures IsChain(link, r, OnPage(p, PageSpec.Provision(cls, pg, max).free))
      ensures count == |PageSpec.Provision(cls, pg, max).free| - |pg.free|
      ensures link.Keys == old(link.Keys)
      ensures forall b :: b in link && link[b] != old(link)[b] ==>
                b.page == p && Materialized(pg) <= b.slot < Materialized(pg) + count
    {
      count := Min(cls.capacity - Materialized(pg), max);
      r := CarveRun(p, Materialized(pg), count, head, pg.free);
    }

    method CarveRun(p: PageId, m: nat, count: nat, head: Ptr, ghost base: seq<nat>) returns (r: Ptr)
      requires IsChain(link, head, OnPage(p, base)) && (forall x: nat :: x in base ==> x < m)
      requires forall i: nat :: m <= i < m + count ==> Block(p, i) in link
      modifies this
      ensures IsChain(link, r, OnPage(p, base + Descending(m, count)))
      ensures link.Keys == old(link.Keys)
      ensures forall b :: b in link && link[b] != old(link)[b] ==> b.page == p && m <= b.slot < m + count
    {
      hide IsChain, OnPage, Descending;
      r := head;
      var i := count;
      ghost var slots := base;
      CarveEnds(m, count, base);
      while i > 0
        invariant 0 <= i <= count && link.Keys == old(link.Keys)
        invariant slots == base + Descending(m, count)[..count - i]
        invariant IsChain(link, r, OnPage(p, slots))
        invariant forall b :: b in link && link[b] != old(link)[b] ==> b.page == p && m + i <= b.slot < m + count
      {
        i := i - 1;
        CarveStep(p, base, m, count, i, slots);
        r := PushBlock(r, Block(p, m + i), OnPage(p, slots));
        slots := slots + [m + i];
      }
    }

    /** Splice a chain, given by head and tail, on top of a page's list. */
    method Splice(head: Ptr, tail: Block, below: Ptr, ghost c: seq<Block>, ghost s: seq<Block>)
      requires c != [] && c[0] == tail && IsChain(link, head, c) && IsChain(link, below, s)
      requires forall x :: x in c ==> x !in s
      modifies this
      ensures link == old(link)[tail := below] && IsChain(link, head, s + c)
    {
      ChainNoDup(link, head, c);
      SpliceLemma(link, head, c, Null, below, s);
      SegmentMapped(link, head, c, Null);
      link := link[tail := below];
    }

    /** Walk a chain to its tail. */
    method Tail(head: Block, ghost c: seq<Block>) returns (tail: Block)
      requires c != [] && IsChain(link, To(head), c)
      ensures tail == c[0]
    {
      tail := head;
      ghost var n := |c|;
      assert c[..n] == c;
      while link[tail] != Null
        invariant 0 < n <= |c| && IsChain(link, To(tail), c[..n]) && tail == c[n - 1]
        decreases n
      {
        assert c[..n][..n - 1] == c[..n - 1];
        assert IsChain(link, link[tail], c[..n - 1]);
        n := n - 1;
        tail := link[tail].block;
      }
      assert IsChain(link, link[tail], c[..n][..n - 1]);
    }

    /** The chunk of a page; the one found last is tried first. */
    static method FindSlot(chunks: seq<Chunk>, p: PageId, last: nat) returns (slot: nat)
      requires exists i :: 0 <= i < |chunks| && chunks[i].page == p
      ensures slot < |chunks| && chunks[slot].page == p
    {
      if last < |chunks| && chunks[last].page == p {
        return last;
      }
      slot := 0;
      while chunks[slot].page != p
        invariant slot < |chunks| && exists i :: slot <= i < |chunks| && chunks[i].page == p
        decreases |chunks| - slot
      {
        slot := slot + 1;
      }
    }

    method RouteOne(b: Block, slot: nat, olds: seq<Chunk>, ghost s: seq<Block>, ghost n: nat, ghost next: Ptr)
      returns (chunks: seq<Chunk>)
      requires NoDup(s) && 0 < n <= |s| && b == s[n - 1] && b in link && Slots(olds, s)
      requires slot < |olds| && olds[slot].page == b.page
      requires IsChain(link, next, s[..n - 1])
      requires forall i :: 0 <= i < |olds| ==> Routed(link, olds[i], OfPage(s[n..], olds[i].page))
      modifies this
      ensures SameChunks(olds, chunks) && Slots(chunks, s)
      ensures link.Keys == old(link.Keys) && IsChain(link, next, s[..n - 1])
      ensures forall i :: 0 <= i < |chunks| ==> Routed(link, chunks[i], OfPage(s[n - 1..], chunks[i].page))
      ensures forall x :: x in link && x !in s ==> link[x] == old(link)[x]
    {
      hide IsChain, Routed, OfPage, NoDup, Slots;
      chunks := olds;
      var g := olds[slot];
      ghost var c := OfPage(s[n..], g.page);
      NextOfPage(s, n);
      SlotsDiffer(olds, s);
      RetiredRouted(link, g, c, [b] + c);
      if !g.retired {
        RoutedEnds(link, g, c);
        if g.head == Null {
          g := g.(head := To(b));
        } else {
          link := link[g.tail.block := To(b)];
        }
        g := g.(tail := To(b));
        link := link[b := Null];
        RouteStep(old(link), link, olds[slot], g, b, c);
        chunks := chunks[slot := g];
      }
      RouteFrame(old(link), link, s, n, next, olds, chunks, slot);
      SameSlots(olds, chunks, s);
    }

    /** Route every block of a chain to its page's chunk, rebuilding the links of the chunks that
        will be spliced. The page looked up last is remembered. */
    method Route(chain: Ptr, ghost s: seq<Block>, given: seq<Chunk>) returns (chunks: seq<Chunk>)
      requires IsChain(link, chain, s) && Slots(given, s)
      requires forall i :: 0 <= i < |given| ==> given[i].head == Null
      modifies this
      ensures SameChunks(given, chunks) && link.Keys == old(link.Keys)
      ensures forall i :: 0 <= i < |chunks| ==> Routed(link, chunks[i], OfPage(s, chunks[i].page))
      ensures forall b :: b in link && b !in s ==> link[b] == old(link)[b]
    {
      hide IsChain, Routed, OfPage, NoDup, Slots;
      chunks := given;
      var cursor, last := chain, 0;
      ghost var n := |s|;
      assert s[..n] == s && s[n..] == [];
      ChainNoDup(link, chain, s);
      NothingRouted(link, given);
      while cursor != Null
        invariant 0 <= n <= |s| && IsChain(link, cursor, s[..n]) && link.Keys == old(link.Keys)
        invariant SameChunks(given, chunks) && Slots(chunks, s) && 0 <= last <= |chunks|
        invariant forall i :: 0 <= i < |chunks| ==> Routed(link, chunks[i], OfPage(s[n..], chunks[i].page))
        invariant forall b :: b in link && b !in s ==> link[b] == old(link)[b]
        decreases n
      {
        ChainTop(link, cursor, s, n);
        var b := cursor.block;
        var next := link[b];
        SlotOf(chunks, s, b);
        last := FindSlot(chunks, b.page, last);
        ghost var olds := chunks;
        chunks := RouteOne(b, last, chunks, s, n, next);
        SameTrans(given, olds, chunks);
        cursor := next;
        n := n - 1;
      }
      ChainTop(link, cursor, s, n);
      assert s[n..] == s;
    }

    /** The whole locked section of an exit flush: route, then splice each surviving page's chunk
        onto its list and let retired pages go. A chunk is retired when it is as long as its page's used
        count in the class heap `h`. Purging a page removes its link words, so that no link is read
        after its page may be gone is part of what is verified here. */
    method ReleaseBinChunks(chain: Ptr, ghost s: seq<Block>, given: seq<Chunk>, free: seq<Ptr>, ghost lists: seq<seq<Block>>,
                            purged: seq<bool>, ghost h: Heap, ghost groups: seq<Ownership.Group>)
      returns (heads: seq<Ptr>)
      requires IsChain(link, chain, s) && Slots(given, s)
      requires |free| == |lists| == |purged| == |given|
      requires forall i :: 0 <= i < |given| ==> given[i].head == Null
      requires Wf(h) && Supplied(h) && Batch.Plan(h, groups) && Decided(given, s, h, groups)
      requires forall i :: 0 <= i < |given| && purged[i] ==> Batch.PurgedAt(h, groups, i)
      requires forall i :: 0 <= i < |given| ==> Listed(link, given[i].page, free[i], lists[i])
      requires forall i, b :: 0 <= i < |given| && b in lists[i] ==> b !in s
      requires forall i :: 0 <= i < |given| && !given[i].retired ==> OfPage(s, given[i].page) != []
      modifies this
      ensures |heads| == |given|
      ensures forall i :: 0 <= i < |given| && !given[i].retired ==>
                IsChain(link, heads[i], lists[i] + OfPage(s, given[i].page))
      ensures forall b :: b in link <==> b in old(link) && !Gone(given, purged, |given|, b)
    {
      hide Batch.Plan, Batch.PurgedAt, Wf, Supplied;
      forall i | 0 <= i < |given| && purged[i] ensures given[i].retired {
        Batch.PurgedIsWhole(h, groups, i);
      }
      var chunks := Route(chain, s, given);
      forall j | 0 <= j < |given| ensures Pending(link, chunks[j], OfPage(s, chunks[j].page), free[j], lists[j]) {
        SegmentMapped(old(link), free[j], lists[j], Null);
        Frame(old(link), link, free[j], lists[j], Null);
      }
      heads := SpliceAll(s, chunks, free, lists, purged);
    }

    method SpliceAll(ghost s: seq<Block>, chunks: seq<Chunk>, free: seq<Ptr>, ghost lists: seq<seq<Block>>, purged: seq<bool>)
      returns (heads: seq<Ptr>)
      requires |free| == |lists| == |purged| == |chunks|
      requires forall i, j :: 0 <= i < j < |chunks| ==> chunks[i].page != chunks[j].page
      requires forall i :: 0 <= i < |chunks| && purged[i] ==> chunks[i].retired
      requires forall j :: 0 <= j < |chunks| ==> Pending(link, chunks[j], OfPage(s, chunks[j].page), free[j], lists[j])
      modifies this
      ensures |heads| == |chunks|
      ensures forall j :: 0 <= j < |chunks| && !chunks[j].retired ==>
                Listed(link, chunks[j].page, heads[j], lists[j] + OfPage(s, chunks[j].page))
      ensures forall b :: b in link <==> b in old(link) && !Gone(chunks, purged, |chunks|, b)
    {
      hide Pending, Listed, Gone;
      NoneGone(chunks, purged);
      heads := [];
      var i := 0;
      while i < |chunks|
        invariant 0 <= i <= |chunks| && |heads| == i
        invariant forall j :: i <= j < |chunks| ==>
                    Pending(link, chunks[j], OfPage(s, chunks[j].page), free[j], lists[j])
        invariant forall j :: 0 <= j < i && !chunks[j].retired ==>
                    Listed(link, chunks[j].page, heads[j], lists[j] + OfPage(s, chunks[j].page))
        invariant forall b :: b in link <==> b in old(link) && !Gone(chunks, purged, i, b)
      {
        ghost var before := link;
        var head := SpliceOne(chunks[i], free[i], purged[i], OfPage(s, chunks[i].page), lists[i]);
        heads := heads + [head];
        SpliceFrame(before, link, chunks, free, heads, lists, s, i);
        GoneStep(chunks, purged, i, before, link, old(link));
        i := i + 1;
      }
    }

    method SpliceOne(g: Chunk, free: Ptr, purged: bool, ghost c: seq<Block>, ghost list: seq<Block>) returns (head: Ptr)
      requires Pending(link, g, c, free, list) && (purged ==> g.retired) && (forall b :: b in c ==> b.page == g.page)
      modifies this
      ensures !g.retired ==> Listed(link, g.page, head, list + c)
      ensures forall b :: b in link <==> b in old(link) && !(purged && b.page == g.page)
      ensures forall b :: b in old(link) && b.page != g.page ==> link[b] == old(link)[b]
    {
      head := g.head;
      if g.retired {
        if purged {
          link := map b | b in link && b.page != g.page :: link[b];
        }
      } else {
        SegmentMapped(link, g.head, c, Null);
        Splice(g.head, g.tail.block, free, c, list);
      }
    }
  }

  /** The groups stand for the chunks, and a chunk is marked retired exactly when it holds all the blocks
      its page has outside. */
  ghost predicate Decided(given: seq<Chunk>, s: seq<Block>, h: Heap, groups: seq<Ownership.Group>) {
    && |groups| == |given|
    && (forall i :: 0 <= i < |given| ==>
          && groups[i].page == given[i].page && |groups[i].slots| == |OfPage(s, given[i].page)|
          && given[i].page in h.pages && (given[i].retired <==> |groups[i].slots| == h.pages[given[i].page].used))
  }

  /** A page's own list: a chain of that page's blocks. */
  ghost predicate Listed(link: Words, p: PageId, head: Ptr, s: seq<Block>) {
    IsChain(link, head, s) && forall b :: b in s ==> b.page == p
  }

  /** A chunk still to be spliced, and the list it will be spliced onto. */
  ghost predicate Pending(link: Words, g: Chunk, c: seq<Block>, free: Ptr, list: seq<Block>) {
    Listed(link, g.page, free, list) && Routed(link, g, c) && (!g.retired ==> c != [] && forall b :: b in c ==> b !in list)
  }

  ghost predicate Gone(given: seq<Chunk>, purged: seq<bool>, i: nat, b: Block)
    requires i <= |given| == |purged|
  {
    exists j :: 0 <= j < i && purged[j] && given[j].page == b.page
  }

  lemma NoneGone(given: seq<Chunk>, purged: seq<bool>)
    requires |given| == |purged|
    ensures forall b :: !Gone(given, purged, 0, b)
  {
  }

  lemma GoneStep(chunks: seq<Chunk>, purged: seq<bool>, i: nat, before: Words, after: Words, first: Words)
    requires i < |chunks| == |purged|
    requires forall b :: b in before <==> b in first && !Gone(chunks, purged, i, b)
    requires forall b :: b in after <==> b in before && !(purged[i] && b.page == chunks[i].page)
    ensures forall b :: b in after <==> b in first && !Gone(chunks, purged, i + 1, b)
  {
  }

  lemma ListedFrame(before: Words, after: Words, p: PageId, head: Ptr, s: seq<Block>)
    requires Listed(before, p, head, s)
    requires forall b :: b in before && b.page == p ==> b in after && after[b] == before[b]
    ensures Listed(after, p, head, s)
  {
    SegmentMapped(before, head, s, Null);
    Frame(before, after, head, s, Null);
  }

  /** Splicing or purging one page leaves the lists and chunks of the other pages alone. */
  lemma SpliceFrame(before: Words, after: Words, chunks: seq<Chunk>, free: seq<Ptr>, heads: seq<Ptr>,
                    lists: seq<seq<Block>>, s: seq<Block>, i: nat)
    requires i < |chunks| == |free| == |lists| && |heads| == i + 1
    requires forall j, k :: 0 <= j < k < |chunks| ==> chunks[j].page != chunks[k].page
    requires forall b :: b in before && b.page != chunks[i].page ==> b in after && after[b] == before[b]
    requires forall j :: i < j < |chunks| ==>
               Pending(before, chunks[j], OfPage(s, chunks[j].page), free[j], lists[j])
    requires forall j :: 0 <= j < i && !chunks[j].retired ==>
               Listed(before, chunks[j].page, heads[j], lists[j] + OfPage(s, chunks[j].page))
    ensures forall j :: i < j < |chunks| ==>
              Pending(after, chunks[j], OfPage(s, chunks[j].page), free[j], lists[j])
    ensures forall j :: 0 <= j < i && !chunks[j].retired ==>
              Listed(after, chunks[j].page, heads[j], lists[j] + OfPage(s, chunks[j].page))
  {
    forall j | i < j < |chunks|
      ensures Pending(after, chunks[j], OfPage(s, chunks[j].page), free[j], lists[j])
    {
      ListedFrame(before, after, chunks[j].page, free[j], lists[j]);
      if !chunks[j].retired {
        ListedFrame(before, after, chunks[j].page, chunks[j].head, OfPage(s, chunks[j].page));
      }
    }
    forall j | 0 <= j < i && !chunks[j].retired
      ensures Listed(after, chunks[j].page, heads[j], lists[j] + OfPage(s, chunks[j].page))
    {
      ListedFrame(before, after, chunks[j].page, heads[j], lists[j] + OfPage(s, chunks[j].page));
    }
  }

  /** One chunk per page, covering every block of the chain. */
  ghost predicate Slots(chunks: seq<Chunk>, s: seq<Block>) {
    && (forall i, j :: 0 <= i < j < |chunks| ==> chunks[i].page != chunks[j].page)
    && (forall b :: b in s ==> exists i :: 0 <= i < |chunks| && chunks[i].page == b.page)
  }

  ghost predicate SameChunks(a: seq<Chunk>, b: seq<Chunk>) {
    |a| == |b| && forall i :: 0 <= i < |a| ==> a[i].page == b[i].page && a[i].retired == b[i].retired
  }

  lemma SameSlots(a: seq<Chunk>, b: seq<Chunk>, s: seq<Block>)
    requires SameChunks(a, b) && Slots(a, s)
    ensures Slots(b, s)
  {
    forall x | x in s ensures exists i :: 0 <= i < |b| && b[i].page == x.page {
      var i :| 0 <= i < |a| && a[i].page == x.page;
      assert b[i].page == x.page;
    }
  }

  lemma SameTrans(a: seq<Chunk>, b: seq<Chunk>, c: seq<Chunk>)
    requires SameChunks(a, b) && SameChunks(b, c)
    ensures SameChunks(a, c)
  {
  }

  /** The chunk's links chain the blocks `c`, from its head down to its tail. */
  ghost predicate Routed(link: Words, g: Chunk, c: seq<Block>) {
    g.retired || (if c == [] then g.head == Null else IsChain(link, g.head, c) && g.tail == To(c[0]))
  }

  lemma NothingRouted(link: Words, given: seq<Chunk>)
    requires forall i :: 0 <= i < |given| ==> given[i].head == Null
    ensures forall i :: 0 <= i < |given| ==> Routed(link, given[i], OfPage([], given[i].page))
  {
  }

  lemma SlotOf(chunks: seq<Chunk>, s: seq<Block>, b: Block)
    requires Slots(chunks, s) && b in s
    ensures exists i :: 0 <= i < |chunks| && chunks[i].page == b.page
  {
  }

  /** The head of a chain of the lowest `n` blocks. */
  lemma ChainTop(link: Words, head: Ptr, s: seq<Block>, n: nat)
    requires n <= |s| && IsChain(link, head, s[..n])
    ensures head == Null <==> n == 0
    ensures n > 0 ==> head == To(s[n - 1]) && s[n - 1] in link && s[n - 1] in s && IsChain(link, link[s[n - 1]], s[..n - 1])
  {
    if n > 0 {
      assert s[..n][..n - 1] == s[..n - 1];
    }
  }

  lemma RetiredRouted(link: Words, g: Chunk, c: seq<Block>, d: seq<Block>)
    ensures g.retired ==> Routed(link, g, d)
  {
  }

  lemma SlotsDiffer(chunks: seq<Chunk>, s: seq<Block>)
    requires Slots(chunks, s)
    ensures forall i, j :: 0 <= i < j < |chunks| ==> chunks[i].page != chunks[j].page
  {
  }

  /** The ends of a chunk's chain. */
  lemma RoutedEnds(link: Words, g: Chunk, c: seq<Block>)
    requires Routed(link, g, c) && !g.retired
    ensures c == [] <==> g.head == Null
    ensures c != [] ==> g.tail == To(c[0]) && c[0] in link && c[0] in c
  {
    if c != [] {
      SegmentMapped(link, g.head, c, Null);
    }
  }

  /** Routing block `n - 1` puts it below what its page already has. */
  lemma NextOfPage(s: seq<Block>, n: nat)
    requires NoDup(s) && 0 < n <= |s|
    ensures var b := s[n - 1];
            var c := OfPage(s[n..], b.page);
            && OfPage(s[n - 1..], b.page) == [b] + c && b !in c && NoDup(c)
            && (forall x :: x in c ==> x.page == b.page && x in s[n - 1..] && x in s)
            && b in s[n - 1..] && b in s
  {
    var b, t := s[n - 1], s[n..];
    assert s[n - 1..] == [b] + t && ([b] + t)[1..] == t;
    assert NoDup(t) && b !in t;
    OfPageNoDup(t, b.page);
  }

  /** Hanging a block under the tail of a chunk's chain. */
  lemma RouteStep(before: Words, after: Words, g: Chunk, r: Chunk, b: Block, c: seq<Block>)
    requires Routed(before, g, c) && !g.retired && b in before && b !in c && NoDup(c)
    requires r == g.(head := if c == [] then To(b) else g.head, tail := To(b))
    requires after == (if c == [] then before else before[c[0] := To(b)])[b := Null]
    ensures Routed(after, r, [b] + c)
  {
    if c != [] {
      var cut := before[b := Null];
      SegmentMapped(before, g.head, c, Null);
      Frame(before, cut, g.head, c, Null);
      SpliceLemma(cut, g.head, c, Null, To(b), [b]);
      assert after == cut[c[0] := To(b)];
    } else {
      assert [b] + c == [b] && [b][..0] == [];
      assert IsSegment(after, Null, [b][..0], Null);
      assert IsChain(after, To(b), [b]);
    }
  }

  /** A step changes links of the routed block's page only, so the unrouted rest and the chunks
      of other pages are as before. */
  lemma RouteFrame(before: Words, after: Words, s: seq<Block>, n: nat, next: Ptr,
                   olds: seq<Chunk>, news: seq<Chunk>, slot: nat)
    requires NoDup(s) && 0 < n <= |s| && before.Keys == after.Keys && slot < |olds|
    requires forall x :: x in before && after[x] != before[x] ==> x.page == s[n - 1].page && x in s[n - 1..]
    requires IsChain(before, next, s[..n - 1])
    requires forall i, j :: 0 <= i < j < |olds| ==> olds[i].page != olds[j].page
    requires forall i :: 0 <= i < |olds| ==> Routed(before, olds[i], OfPage(s[n..], olds[i].page))
    requires |news| == |olds| && (forall i :: 0 <= i < |olds| && i != slot ==> news[i] == olds[i])
    requires olds[slot].page == s[n - 1].page == news[slot].page
    requires Routed(after, news[slot], OfPage(s[n - 1..], s[n - 1].page))
    ensures IsChain(after, next, s[..n - 1])
    ensures forall i :: 0 <= i < |news| ==> Routed(after, news[i], OfPage(s[n - 1..], news[i].page))
  {
    SegmentMapped(before, next, s[..n - 1], Null);
    var lo, hi := s[..n - 1], s[n - 1..];
    assert forall x :: x in lo ==> x !in hi;
    Frame(before, after, next, s[..n - 1], Null);
    forall i | 0 <= i < |news| ensures Routed(after, news[i], OfPage(s[n - 1..], news[i].page)) {
      if i != slot {
        var c := OfPage(s[n..], news[i].page);
        assert s[n - 1..] == [s[n - 1]] + s[n..];
        assert OfPage(s[n - 1..], news[i].page) == c;
        if !news[i].retired && c != [] {
          SegmentMapped(before, news[i].head, c, Null);
          Frame(before, after, news[i].head, c, Null);
        }
      }
    }
  }

  /** The next slot down is not on the list yet, and pushing it extends the carved prefix. */
  lemma CarveEnds(m: nat, count: nat, base: seq<nat>)
    ensures |Descending(m, count)| == count
    ensures base + Descending(m, count)[..0] == base && base + Descending(m, count)[..count] == base + Descending(m, count)
  {
    assert Descending(m, count)[..count] == Descending(m, count);
  }

  lemma CarveStep(p: PageId, base: seq<nat>, m: nat, count: nat, i: nat, slots: seq<nat>)
    requires i < count && (forall x: nat :: x in base ==> x < m)
    requires slots == base + Descending(m, count)[..count - i - 1]
    ensures Block(p, m + i) !in OnPage(p, slots)
    ensures OnPage(p, slots) + [Block(p, m + i)] == OnPage(p, slots + [m + i])
    ensures slots + [m + i] == base + Descending(m, count)[..count - i]
  {
    var s := OnPage(p, slots);
    forall j | 0 <= j < |s| ensures s[j] != Block(p, m + i) {
      assert s[j] == Block(p, slots[j]);
      if j < |base| {
        assert slots[j] in base;
      }
    }
    assert Descending(m, count)[count - i - 1] == m + i;
  }
}
