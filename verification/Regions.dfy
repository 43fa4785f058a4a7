/**
 Large regions (src/lib.rs): where the user pointer and its header go inside a
 mapping, in-place growth at the arena frontier, and promotion of a big block
 into a reserve.
 */
module Regions {

  const PAGE_SIZE: nat := 65536
  const HEADER: nat := 48
  const USIZE: nat := 0x1_0000_0000_0000_0000
  const U32: nat := 0x1_0000_0000
  const MAX_BIG_BLOCK: nat := 1048576
  const SLACK_FACTOR: nat := 8

  function AlignUp(v: nat, align: nat): (r: nat)
    requires align > 0
  {
    (v + align - 1) / align * align
  }

  lemma DivBounds(v: nat, a: nat)
    requires a > 0
    ensures v / a * a <= v < v / a * a + a
    ensures (v / a * a) % a == 0
  {
    MultipleMod(v / a, a);
  }

  lemma MulAtLeast(n: nat, a: nat)
    requires n >= 1
    ensures n * a >= a
  {
  }

  lemma MultipleMod(k: nat, a: nat)
    requires a > 0
    ensures (k * a) % a == 0
  {
    var q, r := (k * a) / a, (k * a) % a;
    Remainder(k * a, a, q, r);
    if k > q {
      MulAtLeast(k - q, a);
    } else if q > k {
      MulAtLeast(q - k, a);
    }
  }

  lemma Remainder(x: nat, a: nat, q: nat, r: nat)
    requires a > 0 && q == x / a && r == x % a
    ensures x == q * a + r && r < a
  {
  }

  lemma AlignUpFacts(v: nat, align: nat)
    requires align > 0
    ensures v <= AlignUp(v, align) < v + align && AlignUp(v, align) % align == 0
    ensures v > 0 ==> AlignUp(v, align) >= align
  {
    DivBounds(v + align - 1, align);
    var k := (v + align - 1) / align;
    if k >= 1 {
      MulAtLeast(k, align);
    }
  }

  // ----------------------------------------------------------------- layout

  datatype Option<T> = None | Some(value: T)

  /** Bytes to map for a request; None when an addition would overflow. */
  function Mapped(size: nat, align: nat, slack: nat): (r: Option<nat>)
  {
    if size + align >= USIZE || size + align + HEADER >= USIZE || size + align + HEADER + slack >= USIZE then None
    else
      var total := size + align + HEADER + slack;
      if total + PAGE_SIZE - 1 >= USIZE then None else Some((total + PAGE_SIZE - 1) / PAGE_SIZE * PAGE_SIZE)
  }

  /** A request is refused only when its total, rounded up, would not fit a word; otherwise it maps the
      least whole number of pages that holds the size, the alignment, the header and the reserve. */
  lemma MappedExact(size: nat, align: nat, slack: nat)
    ensures Mapped(size, align, slack).Some? <==> size + align + HEADER + slack + PAGE_SIZE - 1 < USIZE
    ensures Mapped(size, align, slack).Some? ==>
              var m := Mapped(size, align, slack).value;
              m % PAGE_SIZE == 0 && m - PAGE_SIZE < size + align + HEADER + slack <= m
  {
    DivBounds(size + align + HEADER + slack + PAGE_SIZE - 1, PAGE_SIZE);
  }

  function Place(base: nat, align: nat): (r: nat)
    requires align > 0
  {
    AlignUp(base + HEADER, align)
  }

  /** The header lies inside the mapping below the pointer, the pointer is aligned, and the request ends inside. */
  ghost predicate Sound(base: nat, mapped: nat, p: nat, size: nat, align: nat)
    requires align > 0
  {
    base + HEADER <= p && p % align == 0 && p + size <= base + mapped
  }

  /** The test that decides whether a recycled region is kept or dropped. */
  predicate Usable(base: nat, region: nat, size: nat, align: nat)
    requires align > 0
  {
    Place(base, align) + size <= base + region
  }

  /** A request is refused only if it would overflow; otherwise any mapping at least as long as computed holds
      it at every base, reserve included. */
  lemma LayoutIsSound(size: nat, align: nat, slack: nat, base: nat, region: nat)
    requires align > 0
    ensures Mapped(size, align, slack) == None <==> size + align + HEADER + slack + PAGE_SIZE > USIZE
    ensures Mapped(size, align, slack).Some? && region >= Mapped(size, align, slack).value ==>
              && Sound(base, region, Place(base, align), size, align) && Usable(base, region, size, align)
              && Place(base, align) + size + slack <= base + region
    ensures Place(base, align) - base < HEADER + align
    ensures Mapped(size, align, slack).Some? ==> Mapped(size, align, slack).value % PAGE_SIZE == 0
  {
    AlignUpFacts(base + HEADER, align);
    var total := size + align + HEADER + slack;
    DivBounds(total + PAGE_SIZE - 1, PAGE_SIZE);
  }

  /** The page count the caches are asked for is narrowed to 32 bits. */
  function WantedPages(mapped: nat): nat { mapped / PAGE_SIZE % U32 }

  /** A recycled region of at least the wanted number of pages is always usable if and only if the
      request maps fewer than 2^32 pages; so the drop branches are dead exactly for those requests. */
  lemma RecycledAlwaysUsable(size: nat, align: nat, slack: nat)
    requires align > 0 && slack <= MAX_BIG_BLOCK && Mapped(size, align, slack).Some?
    ensures var m := Mapped(size, align, slack).value;
            (forall base: nat, pages: nat :: pages >= WantedPages(m) ==> Usable(base, pages * PAGE_SIZE, size, align)) <==>
            m / PAGE_SIZE < U32
  {
    var m := Mapped(size, align, slack).value;
    var total := size + align + HEADER + slack;
    DivBounds(total + PAGE_SIZE - 1, PAGE_SIZE);
    if m / PAGE_SIZE < U32 {
      forall base: nat, pages: nat | pages >= WantedPages(m) ensures Usable(base, pages * PAGE_SIZE, size, align) {
        LayoutIsSound(size, align, slack, base, pages * PAGE_SIZE);
      }
    } else {
      AlignUpFacts(4096 + HEADER, align);
      assert WantedPages(m) <= m / PAGE_SIZE - U32;
      assert !Usable(4096, WantedPages(m) * PAGE_SIZE, size, align);
    }
  }

  /** A request of 2^48 bytes is asked of the caches as a request for one page. */
  lemma HugeRequestDropsARegion()
    ensures Mapped(0x1_0000_0000_0000, 16, 0) == Some(0x1_0000_0001_0000)
    ensures WantedPages(0x1_0000_0001_0000) == 1
    ensures !Usable(PAGE_SIZE, 1 * PAGE_SIZE, 0x1_0000_0000_0000, 16)
  {
    AlignUpFacts(PAGE_SIZE + HEADER, 16);
  }

  // ------------------------------------------------------- pointer alignment

  /** The lowest set bit of an address. */
  function PointerAlignment(p: nat): (r: nat)
    ensures r > 0
  {
    if p == 0 then 1 else if p % 2 == 1 then 1 else 2 * PointerAlignment(p / 2)
  }

  /** The alignment of an address is the largest power of two that divides it. */
  lemma {:induction false} AlignmentExact(p: nat)
    requires p > 0
    ensures exists k: nat, odd: nat :: PowerTimes(p, k, odd) && PointerAlignment(p) == Pow2(k)
  {
    if p % 2 == 1 {
      assert PowerTimes(p, 0, p);
    } else {
      AlignmentExact(p / 2);
      var k: nat, odd: nat :| PowerTimes(p / 2, k, odd) && PointerAlignment(p / 2) == Pow2(k);
      assert 2 * (Pow2(k) * odd) == Pow2(k + 1) * odd;
      assert PowerTimes(p, k + 1, odd);
    }
  }

  ghost predicate PowerTimes(p: nat, k: nat, odd: nat) { odd % 2 == 1 && p == Pow2(k) * odd }

  function Pow2(k: nat): (r: nat)
    ensures r > 0
  {
    if k == 0 then 1 else 2 * Pow2(k - 1)
  }

  /** An aligned pointer is at least as aligned as it was asked to be. */
  lemma {:induction false} AlignmentRecovered(p: nat, k: nat)
    requires p > 0 && p % Pow2(k) == 0
    ensures PointerAlignment(p) >= Pow2(k)
    decreases k
  {
    if k > 0 {
      HalfMultiple(p, Pow2(k - 1));
      AlignmentRecovered(p / 2, k - 1);
    }
  }

  lemma HalfMultiple(p: nat, a: nat)
    requires a > 0 && p > 0 && p % (2 * a) == 0
    ensures p % 2 == 0 && p / 2 > 0 && (p / 2) % a == 0
  {
    var q := p / (2 * a);
    assert p == q * (2 * a) == 2 * (q * a);
    MultipleMod(q, a);
  }

  // ------------------------------------------------------------------ growth

  datatype Header = Header(base: nat, mapped: nat, requested: nat)

  /** What is true of the header of every live region. */
  ghost predicate HeaderOk(h: Header, p: nat) {
    && p > 0 && h.base + HEADER <= p && p + h.requested <= h.base + h.mapped && h.mapped % PAGE_SIZE == 0
    && p - h.base < HEADER + PointerAlignment(p)
  }

  datatype Growth = Refused | InPlace(header: Header) | Extended(header: Header, addedPages: nat)

  function Capacity(h: Header, p: nat): nat {
    if h.base <= p <= h.base + h.mapped then h.mapped - (p - h.base) else 0
  }

  /** Rounding up to pages on machine words: the addition wraps. */
  function PagesUp(v: nat): nat { (v + PAGE_SIZE - 1) % USIZE / PAGE_SIZE * PAGE_SIZE }

  /** What an extension maps in all. */
  function Total(p: nat, size: nat): nat { size + PointerAlignment(p) + HEADER }

  /** In-place growth of a live region: only in the arena; inside the mapping, or by claiming the pages
      above it, where `frontier` says whether the arena could extend the slice. */
  function Grow(h: Header, p: nat, size: nat, arena: bool, frontier: bool): (r: Growth)
  {
    if !arena then Refused
    else if size <= h.requested then Refused
    else if size <= Capacity(h, p) then InPlace(h.(requested := size))
    else if Total(p, size) >= USIZE then Refused
    else
      var mapped := PagesUp(Total(p, size));
      if mapped <= h.mapped then Refused
      else if mapped / PAGE_SIZE - h.mapped / PAGE_SIZE >= U32 then Refused
      else if !frontier then Refused
      else Extended(Header(h.base, mapped, size), mapped / PAGE_SIZE - h.mapped / PAGE_SIZE)
  }

  lemma AllocatedHeaderOk(size: nat, k: nat, slack: nat, base: nat, region: nat)
    requires Mapped(size, Pow2(k), slack).Some? && region >= Mapped(size, Pow2(k), slack).value && region % PAGE_SIZE == 0
    ensures HeaderOk(Header(base, region, size), Place(base, Pow2(k)))
  {
    LayoutIsSound(size, Pow2(k), slack, base, region);
    AlignmentRecovered(Place(base, Pow2(k)), k);
  }

  /** Why a growth is refused, in terms a caller knows before the call. */
  ghost predicate CannotGrow(h: Header, p: nat, size: nat, arena: bool, frontier: bool) {
    || !arena || size <= h.requested
    || (size > Capacity(h, p) && (|| Total(p, size) + PAGE_SIZE > USIZE
                                  || (Total(p, size) + PAGE_SIZE - 1) / PAGE_SIZE >= h.mapped / PAGE_SIZE + U32
                                  || !frontier))
  }

  ghost predicate GrowthSound(h: Header, p: nat, size: nat, r: Growth) {
    r.Refused? ||
    (&& HeaderOk(r.header, p) && size > h.requested
     && (r.InPlace? <==> size <= Capacity(h, p))
     && (r.InPlace? ==> r.header == h.(requested := size))
     && (r.Extended? ==> && r.header.base == h.base && r.header.requested == size && 0 < r.addedPages < U32
                         && r.header.mapped == h.mapped + r.addedPages * PAGE_SIZE
                         && r.header.mapped - PAGE_SIZE < Total(p, size) <= r.header.mapped))
  }

  /** Growth keeps every live region sound and extends it, only when the request exceeds the mapping, by the
      fewest whole pages that hold the total. It is refused
      if and only if the region is outside the arena, the size does not grow, or it exceeds the mapping
      and the rounding would wrap, the added pages exceed 32 bits, or the frontier is not free. */
  lemma GrowKeepsSound(h: Header, p: nat, size: nat, arena: bool, frontier: bool)
    requires HeaderOk(h, p)
    ensures GrowthSound(h, p, size, Grow(h, p, size, arena, frontier))
    ensures Grow(h, p, size, arena, frontier).Refused? <==> CannotGrow(h, p, size, arena, frontier)
  {
    if size > Capacity(h, p) && Total(p, size) < USIZE {
      RoundUp(Total(p, size));
      WholePages(h.mapped);
      hide PagesUp, PointerAlignment;
    }
  }

  lemma WholePages(m: nat)
    requires m % PAGE_SIZE == 0
    ensures m == m / PAGE_SIZE * PAGE_SIZE
  {
  }

  /** The rounding wraps to nothing within a page of the word limit and is exact below. */
  lemma RoundUp(v: nat)
    requires v < USIZE
    ensures v + PAGE_SIZE > USIZE ==> PagesUp(v) == 0
    ensures v + PAGE_SIZE <= USIZE ==> v <= PagesUp(v) < v + PAGE_SIZE && PagesUp(v) % PAGE_SIZE == 0
                                       && PagesUp(v) / PAGE_SIZE == (v + PAGE_SIZE - 1) / PAGE_SIZE
  {
    if v + PAGE_SIZE > USIZE {
      assert (v + PAGE_SIZE - 1) % USIZE == v + PAGE_SIZE - 1 - USIZE;
    } else {
      DivBounds(v + PAGE_SIZE - 1, PAGE_SIZE);
    }
  }

  /** The "nothing to add" branch: a request whose rounding wraps looks like no growth at all. */
  lemma WrappedGrowth(h: Header, p: nat, size: nat, frontier: bool)
    requires HeaderOk(h, p) && size > Capacity(h, p) && Total(p, size) < USIZE
    ensures PagesUp(Total(p, size)) <= h.mapped <==> Total(p, size) + PAGE_SIZE > USIZE
  {
    RoundUp(Total(p, size));
    hide PagesUp, PointerAlignment;
  }

  // --------------------------------------------------------------- promotion

  function Reserve(size: nat): nat { if size * SLACK_FACTOR <= MAX_BIG_BLOCK then size * SLACK_FACTOR else MAX_BIG_BLOCK }

  ghost predicate Increasing(from: nat, sizes: seq<nat>) {
    && (forall i :: 0 <= i < |sizes| ==> from < sizes[i])
    && (forall i, j :: 0 <= i < j < |sizes| ==> sizes[i] < sizes[j])
  }

  /** Serve a list of growth requests; None as soon as one cannot be served inside the mapping. */
  function ServeAll(h: Header, p: nat, arena: bool, sizes: seq<nat>): (r: Option<Header>)
    decreases |sizes|
  {
    if sizes == [] then Some(h)
    else match Grow(h, p, sizes[0], arena, false)
      case InPlace(g) => ServeAll(g, p, arena, sizes[1..])
      case _ => None
  }

  lemma {:induction false} ServedInside(h: Header, p: nat, sizes: seq<nat>)
    requires Increasing(h.requested, sizes) && forall i :: 0 <= i < |sizes| ==> sizes[i] <= Capacity(h, p)
    ensures ServeAll(h, p, true, sizes).Some?
    decreases |sizes|
  {
    if sizes != [] {
      ServedInside(h.(requested := sizes[0]), p, sizes[1..]);
    }
  }

  /** The reserve is eight times the size, up to the cap. */
  lemma ReserveExact(size: nat)
    requires size < MAX_BIG_BLOCK
    ensures size <= Reserve(size) <= MAX_BIG_BLOCK
    ensures Reserve(size) == SLACK_FACTOR * size || (Reserve(size) == MAX_BIG_BLOCK && SLACK_FACTOR * size > MAX_BIG_BLOCK)
    ensures Reserve(size) == MAX_BIG_BLOCK <==> size >= MAX_BIG_BLOCK / SLACK_FACTOR
  {
  }

  /** A promoted big block is reserved eight times its size, up to the cap. Every later increasing request up
      to the reserve is then served in place, without the frontier and without a copy, if and only if the
      promoted region lies in the arena. */
  lemma PromotionServesTheRest(size: nat, k: nat, base: nat, region: nat, arena: bool)
    requires 0 < size < MAX_BIG_BLOCK
    requires Mapped(size, Pow2(k), Reserve(size) - size).Some? && region >= Mapped(size, Pow2(k), Reserve(size) - size).value
    ensures ServesAll(Header(base, region, size), Place(base, Pow2(k)), arena, Reserve(size)) <==> arena
  {
    var h, p := Header(base, region, size), Place(base, Pow2(k));
    ReserveExact(size);
    LayoutIsSound(size, Pow2(k), Reserve(size) - size, base, region);
    if arena {
      forall sizes | Increasing(h.requested, sizes) && (forall i :: 0 <= i < |sizes| ==> sizes[i] <= Reserve(size))
        ensures ServeAll(h, p, arena, sizes).Some?
      {
        ServedInside(h, p, sizes);
      }
    } else {
      var sizes := [Reserve(size)];
      assert Increasing(h.requested, sizes) && ServeAll(h, p, arena, sizes) == None;
    }
  }

  /** From an eighth of the cap on, that is every request up to the cap. */
  lemma PromotionServesToTheCap(size: nat, k: nat, base: nat, region: nat, arena: bool)
    requires MAX_BIG_BLOCK / SLACK_FACTOR <= size < MAX_BIG_BLOCK
    requires Mapped(size, Pow2(k), Reserve(size) - size).Some? && region >= Mapped(size, Pow2(k), Reserve(size) - size).value
    ensures Reserve(size) == MAX_BIG_BLOCK
    ensures ServesAll(Header(base, region, size), Place(base, Pow2(k)), arena, MAX_BIG_BLOCK) <==> arena
  {
    ReserveExact(size);
    PromotionServesTheRest(size, k, base, region, arena);
  }

  /** Every increasing list of requests up to `cap` is served in place. */
  ghost predicate ServesAll(h: Header, p: nat, arena: bool, cap: nat) {
    forall sizes :: Increasing(h.requested, sizes) && (forall i :: 0 <= i < |sizes| ==> sizes[i] <= cap) ==>
      ServeAll(h, p, arena, sizes).Some?
  }
}
