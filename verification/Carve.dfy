/**
 Where blocks lie inside pages and spans (src/page.rs), how many there are, and
 how many pages a span needs (src/classes.rs).
 */
module Carve {

  const PAGE_SIZE: nat := 65536
  const PAGE_HEADER: nat := 48
  const MASTER: nat := 64          // header of a medium or big span
  const SUB_HEADER: nat := 16      // header of every further page of a span outside the arena
  const TARGET_BLOCKS: nat := 8

  // -------------------------------------------------------------- one run

  /** Blocks of `size` bytes that fit between `start` and `end`. */
  function Fit(start: nat, end: nat, size: nat): (r: nat)
    requires size > 0
  {
    if end < start then 0 else (end - start) / size
  }

  function SlotAt(start: nat, size: nat, i: nat): nat { start + i * size }

  lemma MulMono(a: nat, b: nat, c: nat)
    requires a <= b
    ensures a * c <= b * c
  {
  }

  /** Slots lie inside the run and do not overlap, and no further slot would fit. */
  lemma SlotsTile(start: nat, end: nat, size: nat, i: nat)
    requires size > 0 && start <= end
    ensures i < Fit(start, end, size) <==> SlotAt(start, size, i) + size <= end
    ensures forall j: nat :: j < i ==> SlotAt(start, size, j) + size <= SlotAt(start, size, i)
  {
    var n := (end - start) / size;
    assert n * size <= end - start < n * size + size;
    if i < n {
      MulMono(i + 1, n, size);
    } else {
      MulMono(n, i, size);
    }
    forall j: nat | j < i ensures SlotAt(start, size, j) + size <= SlotAt(start, size, i) {
      MulMono(j + 1, i, size);
    }
  }

  /** The carving loop: exactly the slots that fit, in order. */
  method CarveRun(start: nat, end: nat, size: nat) returns (slots: seq<nat>)
    requires size > 0 && start <= end
    ensures |slots| == Fit(start, end, size)
    ensures forall i :: 0 <= i < |slots| ==> slots[i] == SlotAt(start, size, i) && slots[i] + size <= end
  {
    slots := [];
    var b := start;
    while b + size <= end
      invariant b == SlotAt(start, size, |slots|)
      invariant forall i :: 0 <= i < |slots| ==> slots[i] == SlotAt(start, size, i) && slots[i] + size <= end
      decreases end - b
    {
      slots := slots + [b];
      b := b + size;
    }
    SlotsTile(start, end, size, |slots|);
    if |slots| > 0 {
      SlotsTile(start, end, size, |slots| - 1);
    }
  }

  // -------------------------------------------------------------- small pages

  function PageCapacity(size: nat): nat
    requires size > 0
  {
    (PAGE_SIZE - PAGE_HEADER) / size
  }

  /** A small page has exactly the slots that fit behind its header. */
  lemma PageHoldsExactly(size: nat, i: nat)
    requires size > 0
    ensures i < PageCapacity(size) <==> SlotAt(PAGE_HEADER, size, i) + size <= PAGE_SIZE
  {
    SlotsTile(PAGE_HEADER, PAGE_SIZE, size, i);
  }

  /** A lazily carved slot lies in its page behind the header, and masking its address finds the page. */
  lemma SmallSlot(base: nat, size: nat, i: nat)
    requires base % PAGE_SIZE == 0 && size >= 16 && i < PageCapacity(size)
    ensures base + PAGE_HEADER <= SlotAt(base + PAGE_HEADER, size, i)
    ensures SlotAt(base + PAGE_HEADER, size, i) + size <= base + PAGE_SIZE
    ensures SlotAt(base + PAGE_HEADER, size, i) / PAGE_SIZE * PAGE_SIZE == base
  {
    SlotsTile(base + PAGE_HEADER, base + PAGE_SIZE, size, i);
    hide SlotAt;
    SlotAbove(base + PAGE_HEADER, size, i);
    Mask(base, SlotAt(base + PAGE_HEADER, size, i));
  }

  lemma SlotAbove(start: nat, size: nat, i: nat)
    ensures SlotAt(start, size, i) >= start
  {
  }

  lemma Mask(base: nat, a: nat)
    requires base % PAGE_SIZE == 0 && base <= a < base + PAGE_SIZE
    ensures a / PAGE_SIZE * PAGE_SIZE == base
  {
  }

  /** Block counts fit the 16-bit header fields with the top bit, used as a flag, to spare. */
  lemma CountsFit(size: nat)
    requires size >= 16
    ensures PageCapacity(size) < 0x8000
  {
    var n := PageCapacity(size);
    assert n * size <= PAGE_SIZE - PAGE_HEADER;
    MulMono(16, size, n);
  }

  // -------------------------------------------------------------- spans

  /** A span in the arena, medium or big: blocks run contiguously behind the master header. */
  function SpanCapacity(size: nat, pages: nat): nat
    requires size > 0
  {
    if pages == 0 then 0 else (pages * PAGE_SIZE - MASTER) / size
  }

  /** A span outside the arena: each page is carved by itself behind its own header. */
  function LegacyCapacity(size: nat, pages: nat): nat
    requires size > 0
  {
    if pages == 0 then 0 else BlocksIn(PAGE_SIZE - MASTER, size) + Times(pages - 1, BlocksIn(PAGE_SIZE - SUB_HEADER, size))
  }

  /** How many blocks fit in `room` bytes. */
  function BlocksIn(room: nat, size: nat): nat
    requires size > 0
  {
    room / size
  }

  function Times(a: nat, b: nat): nat { a * b }

  method InitArenaSpan(base: nat, size: nat, pages: nat) returns (slots: seq<nat>)
    requires size > 0 && pages > 0
    ensures |slots| == SpanCapacity(size, pages)
    ensures forall i :: 0 <= i < |slots| ==>
              slots[i] == SlotAt(base + MASTER, size, i) && slots[i] + size <= base + pages * PAGE_SIZE
  {
    slots := CarveRun(base + MASTER, base + pages * PAGE_SIZE, size);
  }

  /** The block lies in one page of the span and misses that page's header. */
  ghost predicate InChunk(base: nat, size: nat, pages: nat, a: nat, page: nat) {
    && page < pages
    && base + page * PAGE_SIZE + (if page == 0 then MASTER else SUB_HEADER) <= a
    && a + size <= base + page * PAGE_SIZE + PAGE_SIZE
  }

  ghost predicate Placed(base: nat, size: nat, pages: nat, a: nat) { exists page: nat :: InChunk(base, size, pages, a, page) }

  /** Carving outside the arena: the formula's number of blocks, none on a header or across a page. */
  method InitLegacySpan(base: nat, size: nat, pages: nat) returns (slots: seq<nat>)
    requires size > 0
    ensures |slots| == LegacyCapacity(size, pages)
    ensures forall i :: 0 <= i < |slots| ==> Placed(base, size, pages, slots[i])
    ensures forall i, j :: 0 <= i < j < |slots| ==> slots[i] + size <= slots[j]
  {
    slots := [];
    var page := 0;
    while page < pages
      invariant 0 <= page <= pages && |slots| == LegacyCapacity(size, page)
      invariant forall i :: 0 <= i < |slots| ==> slots[i] + size <= base + page * PAGE_SIZE
      invariant forall i :: 0 <= i < |slots| ==> Placed(base, size, pages, slots[i])
      invariant forall i, j :: 0 <= i < j < |slots| ==> slots[i] + size <= slots[j]
    {
      var chunk := base + page * PAGE_SIZE;
      var start := chunk + if page == 0 then MASTER else SUB_HEADER;
      var run := CarveRun(start, chunk + PAGE_SIZE, size);
      forall i | 0 <= i < |run| ensures InChunk(base, size, pages, run[i], page) {
        assert run[i] >= start;
      }
      forall i, j | 0 <= i < j < |run| ensures run[i] + size <= run[j] {
        SlotsTile(start, chunk + PAGE_SIZE, size, j);
      }
      AppendRun(slots, run, base, size, pages, page, chunk);
      LegacyNext(size, page);
      slots := slots + run;
      page := page + 1;
    }
  }

  lemma LegacyNext(size: nat, page: nat)
    requires size > 0
    ensures LegacyCapacity(size, page + 1) ==
            LegacyCapacity(size, page) + (PAGE_SIZE - (if page == 0 then MASTER else SUB_HEADER)) / size
  {
    var k := (PAGE_SIZE - SUB_HEADER) / size;
    if page > 0 {
      assert page * k == (page - 1) * k + k;
    }
  }

  lemma AppendRun(slots: seq<nat>, run: seq<nat>, base: nat, size: nat, pages: nat, page: nat, chunk: nat)
    requires forall i :: 0 <= i < |slots| ==> slots[i] + size <= chunk
    requires forall i :: 0 <= i < |slots| ==> Placed(base, size, pages, slots[i])
    requires forall i, j :: 0 <= i < j < |slots| ==> slots[i] + size <= slots[j]
    requires forall i :: 0 <= i < |run| ==> InChunk(base, size, pages, run[i], page) && run[i] >= chunk
    requires forall i, j :: 0 <= i < j < |run| ==> run[i] + size <= run[j]
    ensures var r := slots + run;
            && (forall i :: 0 <= i < |r| ==> Placed(base, size, pages, r[i]))
            && (forall i, j :: 0 <= i < j < |r| ==> r[i] + size <= r[j])
  {
    var r := slots + run;
    forall i | 0 <= i < |r| ensures Placed(base, size, pages, r[i]) {
      if i >= |slots| {
        assert InChunk(base, size, pages, r[i], page);
      } else {
        assert r[i] == slots[i];
      }
    }
  }

  // -------------------------------------------------------------- span length

  lemma CapacityGrows(size: nat, p: nat, q: nat)
    requires size > 0 && p <= q
    ensures SpanCapacity(size, p) <= SpanCapacity(size, q)
  {
    if p > 0 {
      var a, b := p * PAGE_SIZE - MASTER, q * PAGE_SIZE - MASTER;
      DivMono(a, b, size);
    }
  }

  lemma DivMono(a: nat, b: nat, c: nat)
    requires a <= b && c > 0
    ensures a / c <= b / c
  {
    var x, y := a / c, b / c;
    assert x * c <= a && b < y * c + c;
    if x > y {
      MulMono(y + 1, x, c);
    }
  }

  /** A span holds `n` blocks exactly when their bytes and the master header fit. */
  lemma CapacityAtLeast(size: nat, pages: nat, n: nat)
    requires size > 0 && pages > 0
    ensures SpanCapacity(size, pages) >= n <==> MASTER + n * size <= pages * PAGE_SIZE
  {
    var k := SpanCapacity(size, pages);
    assert k * size <= pages * PAGE_SIZE - MASTER < k * size + size;
    if k >= n {
      MulMono(n, k, size);
    } else {
      MulMono(k + 1, n, size);
    }
  }

  /** The search for the span length stops at the least number of pages that holds the target. */
  method SpanPagesFor(size: nat) returns (pages: nat)
    requires size > 0
    ensures pages > 0 && SpanCapacity(size, pages) >= TARGET_BLOCKS
    ensures forall q: nat :: q < pages ==> SpanCapacity(size, q) < TARGET_BLOCKS
    ensures pages == BigSpanPagesFor(size)
  {
    pages := 1;
    CapacityAtLeast(size, 1, TARGET_BLOCKS);
    while SpanCapacity(size, pages) < TARGET_BLOCKS
      invariant pages > 0 && forall q: nat :: q < pages ==> SpanCapacity(size, q) < TARGET_BLOCKS
      decreases MASTER + TARGET_BLOCKS * size + PAGE_SIZE - pages * PAGE_SIZE
    {
      CapacityAtLeast(size, pages, TARGET_BLOCKS);
      pages := pages + 1;
    }
    BigSpanPagesLeast(size);
    var q := BigSpanPagesFor(size);
    assert !(pages < q) && !(q < pages);
  }

  /** The closed form used for big spans. */
  function BigSpanPagesFor(size: nat): nat { (MASTER + TARGET_BLOCKS * size + 65536 - 1) / 65536 }

  /** The closed form is the least length that holds the target. */
  lemma BigSpanPagesLeast(size: nat)
    requires size > 0
    ensures BigSpanPagesFor(size) > 0
    ensures SpanCapacity(size, BigSpanPagesFor(size)) >= TARGET_BLOCKS
    ensures forall q: nat :: q < BigSpanPagesFor(size) ==> SpanCapacity(size, q) < TARGET_BLOCKS
  {
    var p := BigSpanPagesFor(size);
    CapacityAtLeast(size, p, TARGET_BLOCKS);
    forall q: nat | q < p ensures SpanCapacity(size, q) < TARGET_BLOCKS {
      if q > 0 {
        CapacityAtLeast(size, q, TARGET_BLOCKS);
      }
    }
  }
}
