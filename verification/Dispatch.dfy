/**
 The frees and the tables they read, together (src/lib.rs dealloc_impl,
 dealloc_with_layout): in every run of the arena, the side table and the
 registry, what is read for the address of a live block leads to the heap it was
 carved from, and blocks of different pages, classes and tiers share no byte.
 */
module Dispatch {
  import opened Routing
  import Arena
  import SideTable
  import OwnerTable
  import Registry
  import Regions
  import Carve

  const PAGE: nat := 65536

  /** The shared tables, and memory: what stands at each page start and at each master's address. Page
      starts that hold no header are user data and may look like anything. `regions` gives the mapping
      behind each registered header. */
  datatype World = World(
    start: nat,
    table: OwnerTable.State,
    registry: Registry.State,
    regions: map<nat, Regions.Header>,
    pageAt: nat -> Magic,
    masterAt: nat -> Master)

  predicate InArena(w: World, p: nat) { w.start <= p < w.start + PAGE * |w.table.words| }

  function PageIndex(w: World, p: nat): nat
    requires InArena(w, p)
  {
    (p - w.start) / PAGE
  }

  lemma IndexInTable(w: World, p: nat)
    requires InArena(w, p)
    ensures PageIndex(w, p) < |w.table.words|
  {
  }

  /** The validation of a region header that the registry named. */
  predicate HeaderValid(w: World, p: nat) {
    && p >= Regions.HEADER && p - Regions.HEADER in w.regions
    && var h := w.regions[p - Regions.HEADER];
       Regions.HEADER <= h.mapped && h.mapped % PAGE == 0 && h.base < p < h.base + h.mapped
  }

  /** What a free of `p` reads. */
  function Read(w: World, p: nat): (r: Reading)
    requires |w.registry.buckets| == Registry.BUCKETS
  {
    var word := if InArena(w, p) then (IndexInTable(w, p); w.table.words[PageIndex(w, p)]) else 0;
    Reading(p, InArena(w, p), word, Registry.Lookup(w.registry, p) && HeaderValid(w, p), w.pageAt(p / PAGE * PAGE), w.masterAt)
  }

  // ------------------------------------------------------- where blocks live

  /** Where a block was carved: a slot of a small page, a slot of a span in the arena, a chunk of a span
      outside it, or a large region in or outside the arena. */
  datatype Site =
    | SmallSlot(base: nat, slot: nat)
    | SpanSlot(a: nat, slot: nat)
    | LegacySlot(base: nat, pages: nat, chunk: nat)
    | ArenaRegion(a: nat)
    | LegacyRegion

  function Addr(w: World, a: nat): nat { w.start + PAGE * a }

  ghost predicate Outside(w: World, base: nat, len: nat) { base + len <= w.start || w.start + PAGE * |w.table.words| <= base }

  /** A mapping outside the arena that shares no byte with the mapping of any registered region. */
  ghost predicate OwnMapping(w: World, base: nat, len: nat) {
    && Outside(w, base, len)
    && (forall h :: h in w.registry.members && h in w.regions ==>
          base + len <= w.regions[h].base || w.regions[h].base + w.regions[h].mapped <= base)
  }

  /** The mapping behind every registered header contains the header. */
  ghost predicate Backed(w: World) {
    forall h :: h in w.registry.members ==> h in w.regions && Regions.HeaderOk(w.regions[h], h + Regions.HEADER)
  }

  /** The slice at page `a` is live and its span is recorded with this kind. */
  ghost predicate Recorded(w: World, a: nat, k: SideTable.Kind) {
    a in w.table.spans && w.table.spans[a].kind == k && a !in w.table.phase
  }

  /** What allocation established about a block at `p`, and what its headers still say. */
  ghost predicate Lives(c: Config, w: World, b: Block, p: nat, site: Site) {
    match site
    case SmallSlot(base, i) =>
      && b.kind.Small? && b.usable == ClassSize(c, b.kind) >= 16 && base % PAGE == 0
      && i < Carve.PageCapacity(b.usable) && p == Carve.SlotAt(base + Carve.PAGE_HEADER, b.usable, i)
      && w.pageAt(base) == PageMagic(b.kind.cls)
      && (if b.arena then SmallPage(w, base) else OwnMapping(w, base, PAGE))
    case SpanSlot(a, i) =>
      && (b.kind.Medium? || b.kind.Big?) && b.arena && b.usable == ClassSize(c, b.kind) > 0
      && Recorded(w, a, if b.kind.Medium? then SideTable.Medium else SideTable.Big)
      && w.table.spans[a].owner == Addr(w, a)
      && w.masterAt(Addr(w, a)) == Master(b.kind.cls, PAGE * w.table.spans[a].pages)
      && i < Carve.SpanCapacity(b.usable, w.table.spans[a].pages)
      && p == Carve.SlotAt(Addr(w, a) + Carve.MASTER, b.usable, i)
    case LegacySlot(base, n, j) =>
      && b.kind.Medium? && !b.arena && b.usable == ClassSize(c, b.kind) > 0 && base % PAGE == 0
      && Carve.InChunk(base, b.usable, n, p, j)
      && w.pageAt(base + j * PAGE) == SpanMagic(base) && w.masterAt(base) == Master(b.kind.cls, PAGE * n)
      && OwnMapping(w, base, PAGE * n)
    case ArenaRegion(a) =>
      && b.kind.Large? && b.arena && a in w.table.spans && w.table.spans[a].kind == SideTable.Large
      && Addr(w, a) + Regions.HEADER <= p && p + b.usable <= Addr(w, a) + PAGE * w.table.spans[a].pages && b.usable > 0
      && w.table.spans[a].owner == p - Regions.HEADER
      && !SideTable.Blank(w.table.phase, a, a + (p - Addr(w, a)) / PAGE)
      && (a in w.table.phase ==> w.table.phase[a].Filling?)
    case LegacyRegion =>
      && b.kind.Large? && !b.arena && p >= Regions.HEADER && (p - Regions.HEADER) % 16 == 0 && p > Regions.HEADER
      && p - Regions.HEADER in w.registry.members && Outside(w, p, 1)
      && p - Regions.HEADER in w.regions && w.regions[p - Regions.HEADER].requested > 0
  }

  /** A page of the arena on its own, with no entry in the side table. */
  ghost predicate SmallPage(w: World, base: nat) {
    && w.start <= base && base == Addr(w, (base - w.start) / PAGE)
    && var a := (base - w.start) / PAGE;
       a in w.table.arena.tiles && w.table.arena.tiles[a].status.Live? && a !in w.table.spans
  }

  /** The tables are in a state some run reaches. */
  ghost predicate Running(w: World, size: nat, es: seq<OwnerTable.Step>, fs: seq<Registry.Step>) {
    && OwnerTable.Reachable(size, es, w.table)
    && Registry.Reachable(fs, w.registry)
    && Backed(w)
  }

  // ---------------------------------------------------------------- readings

  lemma RunningFacts(w: World, size: nat, es: seq<OwnerTable.Step>, fs: seq<Registry.Step>)
    requires Running(w, size, es, fs)
    ensures OwnerTable.Inv(w.table) && Registry.Inv(w.registry) && |w.registry.buckets| == Registry.BUCKETS
  {
    OwnerTable.InitialInv(size);
    OwnerTable.RunsInv(OwnerTable.Initial(size), es, w.table);
    Registry.InitialInv();
    Registry.RunsInv(Registry.Initial(), fs, w.registry);
  }

  lemma IndexOf(w: World, a: nat, off: nat)
    requires a + off / PAGE < |w.table.words|
    ensures InArena(w, Addr(w, a) + off) && PageIndex(w, Addr(w, a) + off) == a + off / PAGE
  {
    assert Addr(w, a) + off - w.start == PAGE * a + off;
  }

  /** An address inside a mapping of its own is not registered: a registered header lies inside the
      mapping of its region. */
  lemma NotRegistered(w: World, fs: seq<Registry.Step>, p: nat, base: nat, len: nat)
    requires Registry.Reachable(fs, w.registry) && Backed(w)
    requires OwnMapping(w, base, len) && base + Regions.HEADER <= p < base + len + Regions.HEADER
    ensures |w.registry.buckets| == Registry.BUCKETS && !Registry.Lookup(w.registry, p)
  {
    Registry.RegistryIsASet(fs, w.registry, p);
    hide Registry.Runs, Registry.Bucket;
    var h: nat := p - Regions.HEADER;
    if h in w.registry.members {
      assert Regions.HeaderOk(w.regions[h], h + Regions.HEADER);
    }
  }

  lemma SmallReading(c: Config, w: World, b: Block, p: nat, site: Site, size: nat, es: seq<OwnerTable.Step>, fs: seq<Registry.Step>)
    requires Running(w, size, es, fs) && site.SmallSlot? && Lives(c, w, b, p, site)
    ensures |w.registry.buckets| == Registry.BUCKETS && ReadingOf(b, Read(w, p))
  {
    hide Registry.Inv, OwnerTable.Inv, Registry.Lookup, Running, OwnerTable.Reachable, Registry.Reachable, Backed, SideTable.Get;
    hide Carve.SlotAt, Carve.PageCapacity;
    RunningFacts(w, size, es, fs);
    RunningParts(w, size, es, fs);
    Carve.SmallSlot(site.base, b.usable, site.slot);
    if b.arena {
      SmallInArena(w, p, site.base, size, es);
    } else {
      NotRegistered(w, fs, p, site.base, PAGE);
    }
  }

  lemma RunningParts(w: World, size: nat, es: seq<OwnerTable.Step>, fs: seq<Registry.Step>)
    requires Running(w, size, es, fs)
    ensures OwnerTable.Reachable(size, es, w.table) && Backed(w) && Registry.Reachable(fs, w.registry)
  {
  }

  /** A page of the arena without an entry answers none of the three lookups. */
  lemma SmallInArena(w: World, p: nat, base: nat, size: nat, es: seq<OwnerTable.Step>)
    requires OwnerTable.Reachable(size, es, w.table) && SmallPage(w, base) && base <= p < base + PAGE
    ensures InArena(w, p) && PageIndex(w, p) < |w.table.words|
    ensures forall j :: SideTable.Get(j, w.table.words[PageIndex(w, p)]) == 0
  {
    OwnerTable.InitialInv(size);
    OwnerTable.RunsInv(OwnerTable.Initial(size), es, w.table);
    var a := (base - w.start) / PAGE;
    OwnerTable.InTable(w.table, a);
    IndexOf(w, a, p - base);
    hide OwnerTable.Inv, OwnerTable.Runs;
    forall j ensures SideTable.Get(j, w.table.words[PageIndex(w, p)]) == 0 {
      OwnerTable.OtherPagesDecodeToNone(size, es, w.table, a, PageIndex(w, p), j);
    }
  }

  /** A page of a recorded span answers its own lookup with the owner and no other. */
  lemma SpanInArena(w: World, p: nat, a: nat, size: nat, es: seq<OwnerTable.Step>)
    requires OwnerTable.Reachable(size, es, w.table) && a in w.table.spans
    requires Addr(w, a) <= p < Addr(w, a) + PAGE * w.table.spans[a].pages
    requires !SideTable.Blank(w.table.phase, a, a + (p - Addr(w, a)) / PAGE)
    ensures InArena(w, p) && PageIndex(w, p) < |w.table.words| && w.table.spans[a].owner != 0
    ensures forall j :: SideTable.Get(j, w.table.words[PageIndex(w, p)]) ==
                        if j == w.table.spans[a].kind then w.table.spans[a].owner else 0
  {
    OwnerTable.InitialInv(size);
    OwnerTable.RunsInv(OwnerTable.Initial(size), es, w.table);
    OwnerTable.InTable(w.table, a);
    var off := p - Addr(w, a);
    IndexOf(w, a, off);
    hide OwnerTable.Inv, OwnerTable.Runs;
    assert SideTable.Covers(w.table.spans, a, a + off / PAGE);
    forall j ensures SideTable.Get(j, w.table.words[PageIndex(w, p)]) ==
                     if j == w.table.spans[a].kind then w.table.spans[a].owner else 0 {
      OwnerTable.OwnedPageDecodes(size, es, w.table, a, PageIndex(w, p), j);
    }
  }

  /** A slot of a span lies behind the master and inside the span. */
  lemma SpanSlotInside(base: nat, usable: nat, pages: nat, i: nat)
    requires usable > 0 && i < Carve.SpanCapacity(usable, pages)
    ensures base + Carve.MASTER <= Carve.SlotAt(base + Carve.MASTER, usable, i)
    ensures Carve.SlotAt(base + Carve.MASTER, usable, i) + usable <= base + PAGE * pages
  {
    Carve.SlotsTile(base + Carve.MASTER, base + PAGE * pages, usable, i);
    Carve.SlotAbove(base + Carve.MASTER, usable, i);
  }

  lemma SpanReading(c: Config, w: World, b: Block, p: nat, site: Site, size: nat, es: seq<OwnerTable.Step>, fs: seq<Registry.Step>)
    requires Running(w, size, es, fs) && site.SpanSlot? && Lives(c, w, b, p, site)
    ensures |w.registry.buckets| == Registry.BUCKETS && ReadingOf(b, Read(w, p))
  {
    hide Registry.Inv, OwnerTable.Inv, Registry.Lookup, Running, OwnerTable.Reachable, Registry.Reachable, Backed, SideTable.Get;
    hide Carve.SlotAt, Carve.SpanCapacity;
    RunningFacts(w, size, es, fs);
    RunningParts(w, size, es, fs);
    SpanSlotInside(Addr(w, site.a), b.usable, w.table.spans[site.a].pages, site.slot);
    SpanInArena(w, p, site.a, size, es);
  }

  lemma LegacySlotReading(c: Config, w: World, b: Block, p: nat, site: Site, size: nat, es: seq<OwnerTable.Step>, fs: seq<Registry.Step>)
    requires Running(w, size, es, fs) && site.LegacySlot? && Lives(c, w, b, p, site)
    ensures |w.registry.buckets| == Registry.BUCKETS && ReadingOf(b, Read(w, p))
  {
    hide Registry.Inv, OwnerTable.Inv, Registry.Lookup, Running, OwnerTable.Reachable, Registry.Reachable, Backed, SideTable.Get;
    RunningFacts(w, size, es, fs);
    RunningParts(w, size, es, fs);
    var chunk := site.base + site.chunk * PAGE;
    ChunkStart(site.base, site.chunk);
    Carve.Mask(chunk, p);
    assert chunk + PAGE <= site.base + PAGE * site.pages;
    NotRegistered(w, fs, p, site.base, PAGE * site.pages);
  }

  lemma ChunkStart(base: nat, j: nat)
    requires base % PAGE == 0
    ensures (base + j * PAGE) % PAGE == 0
  {
  }

  lemma ArenaRegionReading(c: Config, w: World, b: Block, p: nat, site: Site, size: nat, es: seq<OwnerTable.Step>, fs: seq<Registry.Step>)
    requires Running(w, size, es, fs) && site.ArenaRegion? && Lives(c, w, b, p, site)
    ensures |w.registry.buckets| == Registry.BUCKETS && ReadingOf(b, Read(w, p))
  {
    hide Registry.Inv, OwnerTable.Inv, Registry.Lookup, Running, OwnerTable.Reachable, Registry.Reachable, Backed, SideTable.Get;
    RunningFacts(w, size, es, fs);
    RunningParts(w, size, es, fs);
    SpanInArena(w, p, site.a, size, es);
  }

  lemma LegacyRegionReading(c: Config, w: World, b: Block, p: nat, size: nat, es: seq<OwnerTable.Step>, fs: seq<Registry.Step>)
    requires Running(w, size, es, fs) && Lives(c, w, b, p, LegacyRegion)
    ensures |w.registry.buckets| == Registry.BUCKETS && ReadingOf(b, Read(w, p))
  {
    hide Registry.Inv, OwnerTable.Inv, Registry.Lookup, Running, OwnerTable.Reachable, Registry.Reachable, Backed, SideTable.Get;
    RunningFacts(w, size, es, fs);
    RunningParts(w, size, es, fs);
    Registry.RegistryIsASet(fs, w.registry, p);
    BackedAt(w, p - Regions.HEADER);
  }

  lemma BackedAt(w: World, h: nat)
    requires Backed(w) && h in w.registry.members && h in w.regions && w.regions[h].requested > 0
    ensures HeaderValid(w, h + Regions.HEADER)
  {
    hide Regions.PointerAlignment;
  }

  /** In every run of the tables, what is read for a live block's address is what its kind calls for. */
  lemma ReadingIsRight(c: Config, w: World, b: Block, p: nat, site: Site, size: nat, es: seq<OwnerTable.Step>, fs: seq<Registry.Step>)
    requires Running(w, size, es, fs) && Lives(c, w, b, p, site)
    ensures |w.registry.buckets| == Registry.BUCKETS && ReadingOf(b, Read(w, p))
  {
    hide Running, Lives, ReadingOf, Read;
    match site
    case SmallSlot(_, _) => SmallReading(c, w, b, p, site, size, es, fs);
    case SpanSlot(_, _) => SpanReading(c, w, b, p, site, size, es, fs);
    case LegacySlot(_, _, _) => LegacySlotReading(c, w, b, p, site, size, es, fs);
    case ArenaRegion(_) => ArenaRegionReading(c, w, b, p, site, size, es, fs);
    case LegacyRegion => LegacyRegionReading(c, w, b, p, size, es, fs);
  }

  /** In every run of the arena, the side table and the registry, and after every history of reallocs, the
      layout-routed and the pointer-routed free of a block both find the tier and class it was carved from. */
  lemma BothFreesFindTheHeap(c: Config, b: Block, bigOk: bool, h: seq<Request>, w: World, p: nat, site: Site,
                             size: nat, es: seq<OwnerTable.Step>, fs: seq<Registry.Step>)
    requires ConfigOk(c) && Allocated(c, b, bigOk) && HistoryOk(c, b, h)
    requires Running(w, size, es, fs) && Lives(c, w, AfterAll(c, b, h), p, site)
    ensures |w.registry.buckets| == Registry.BUCKETS && FreesFind(c, AfterAll(c, b, h), Read(w, p))
  {
    hide ConfigOk, Running, Lives, ReadingOf, Read, FreesFind, AfterAll, HistoryOk, Allocated, Routed;
    HistoryIsRouted(c, b, bigOk, h);
    ReadingIsRight(c, w, AfterAll(c, b, h), p, site, size, es, fs);
  }

  // --------------------------------------------------- what steps of the tables keep

  /** A page of the arena keeps its slice, and has no entry, until it is discarded or recorded. */
  lemma SmallPageStays(w: World, base: nat, e: OwnerTable.Step)
    requires OwnerTable.Inv(w.table) && OwnerTable.Enabled(w.table, e) && SmallPage(w, base)
    requires var a := (base - w.start) / PAGE;
             !(e.InArena? && e.e.Discard? && e.e.base == a) && !(e.BeginSet? && e.base == a)
    ensures SmallPage(w.(table := OwnerTable.Apply(w.table, e)), base)
  {
    var a := (base - w.start) / PAGE;
    if e.InArena? {
      OwnerTable.LiveStays(w.table.arena, e.e, a);
    }
    hide Arena.Inv, Arena.Apply, Arena.Enabled, SideTable.ExactUpTo, OwnerTable.Housed, SideTable.Encode;
  }

  /** A recorded span stays recorded, stores in the middle of its own growth included, until it is cleared. */
  lemma SpanStays(w: World, a: nat, e: OwnerTable.Step)
    requires OwnerTable.Inv(w.table) && OwnerTable.Enabled(w.table, e) && a in w.table.spans
    requires (a in w.table.phase ==> w.table.phase[a].Filling?) && e != OwnerTable.BeginClear(a)
    ensures var s, r := w.table, OwnerTable.Apply(w.table, e);
            && |r.words| == |s.words| && a in r.spans
            && r.spans[a] == s.spans[a].(pages := r.spans[a].pages) && r.spans[a].pages >= s.spans[a].pages
            && (a in r.phase ==> r.phase[a].Filling?)
            && (e != OwnerTable.BeginGrow(a) ==> r.spans[a] == s.spans[a] && (a !in s.phase ==> a !in r.phase))
            && (forall i: nat :: i < a + s.spans[a].pages && !SideTable.Blank(s.phase, a, i) ==> !SideTable.Blank(r.phase, a, i))
  {
    hide Arena.Inv, Arena.Apply, Arena.Enabled, SideTable.ExactUpTo, OwnerTable.Housed, SideTable.Encode;
  }

  // ------------------------------------------------------- no two blocks overlap

  /** The slice of the arena a site lies in. */
  function SliceOf(w: World, site: Site): nat {
    match site
    case SmallSlot(base, _) => if w.start <= base then (base - w.start) / PAGE else 0
    case SpanSlot(a, _) => a
    case ArenaRegion(a) => a
    case _ => 0
  }

  /** The bytes from `p` on lie inside the slice at `a`. */
  ghost predicate Inside(w: World, a: nat, p: nat, n: nat) {
    a in w.table.arena.tiles && Addr(w, a) <= p && p + n <= Addr(w, a) + PAGE * w.table.arena.tiles[a].pages
  }

  lemma SiteInside(c: Config, w: World, b: Block, p: nat, site: Site)
    requires OwnerTable.Inv(w.table) && b.arena && Lives(c, w, b, p, site)
    ensures Inside(w, SliceOf(w, site), p, b.usable)
  {
    hide ClassSize, SideTable.ExactUpTo, Arena.HolesMatch;
    var a := SliceOf(w, site);
    if site.SmallSlot? {
      Carve.SmallSlot(site.base, b.usable, site.slot);
      OwnerTable.InTable(w.table, a);
      hide Carve.SlotAt, Carve.PageCapacity, Arena.Inv;
    } else if site.SpanSlot? {
      SpanSlotInside(Addr(w, a), b.usable, w.table.spans[a].pages, site.slot);
      hide Carve.SlotAt, Carve.SpanCapacity, Arena.Inv;
    } else {
      hide Carve.SlotAt, Carve.SpanCapacity, Arena.Inv;
    }
  }

  lemma SlicesApart(w: World, a: nat, p: nat, m: nat, b: nat, q: nat, n: nat)
    requires Arena.Inv(w.table.arena) && Inside(w, a, p, m) && Inside(w, b, q, n) && a != b
    ensures p + m <= q || q + n <= p
  {
    hide Arena.HolesMatch;
    if a < b {
      assert a + w.table.arena.tiles[a].pages <= b;
    } else {
      assert b + w.table.arena.tiles[b].pages <= a;
    }
  }

  lemma SlotsApart(start: nat, size: nat, i: nat, j: nat)
    requires i < j
    ensures Carve.SlotAt(start, size, i) + size <= Carve.SlotAt(start, size, j)
  {
    Carve.MulMono(i + 1, j, size);
  }

  /** Two blocks carved from one slice come from the same carving, so they are different slots of it. */
  lemma SameSlice(c: Config, w: World, b: Block, p: nat, s: Site, d: Block, q: nat, t: Site)
    requires OwnerTable.Inv(w.table) && b.arena && d.arena && Lives(c, w, b, p, s) && Lives(c, w, d, q, t)
    requires s != t && SliceOf(w, s) == SliceOf(w, t)
    ensures p + b.usable <= q || q + d.usable <= p
  {
    hide OwnerTable.Inv, Carve.PageCapacity, Carve.SpanCapacity;
    if s.SmallSlot? && t.SmallSlot? {
      SlotsApart(s.base + Carve.PAGE_HEADER, b.usable, if s.slot < t.slot then s.slot else t.slot, if s.slot < t.slot then t.slot else s.slot);
    } else if s.SpanSlot? && t.SpanSlot? {
      SlotsApart(Addr(w, s.a) + Carve.MASTER, b.usable, if s.slot < t.slot then s.slot else t.slot, if s.slot < t.slot then t.slot else s.slot);
    }
  }

  /** In every run no two live blocks of the arena share a byte, whatever their classes and tiers. */
  lemma BlocksApart(c: Config, w: World, size: nat, es: seq<OwnerTable.Step>, b: Block, p: nat, s: Site, d: Block, q: nat, t: Site)
    requires OwnerTable.Reachable(size, es, w.table)
    requires b.arena && d.arena && Lives(c, w, b, p, s) && Lives(c, w, d, q, t) && s != t
    ensures p + b.usable <= q || q + d.usable <= p
  {
    OwnerTable.InitialInv(size);
    OwnerTable.RunsInv(OwnerTable.Initial(size), es, w.table);
    hide Lives, OwnerTable.Reachable, Inside, SliceOf, Arena.Inv, SideTable.ExactUpTo, OwnerTable.Housed;
    if SliceOf(w, s) == SliceOf(w, t) {
      SameSlice(c, w, b, p, s, d, q, t);
    } else {
      SiteInside(c, w, b, p, s);
      SiteInside(c, w, d, q, t);
      SlicesApart(w, SliceOf(w, s), p, b.usable, SliceOf(w, t), q, d.usable);
    }
  }
}
