/**
 Where blocks live, over runs (src/page.rs init, src/heap.rs, src/lib.rs): pages,
 spans and regions are opened by writing their headers and recording them in the
 side table or the registry, hand out blocks, and are closed before they are
 given back. Users write anything into their blocks. In every run both frees
 find the heap of every block.
 */
module Homes {
  import opened Routing
  import opened Dispatch
  import Arena
  import SideTable
  import OwnerTable
  import Registry
  import Regions
  import Carve

  /** What a slice of the arena has been opened as. */
  datatype InHome = SmallIn(cls: nat) | SpanIn(kind: SideTable.Kind, cls: nat) | RegionIn(p: nat)

  /** What a mapping outside the arena, named by its base address, has been opened as. */
  datatype OutHome = SmallOut(cls: nat) | LegacyOut(cls: nat, pages: nat) | RegionOut(p: nat, mapped: nat)

  datatype State = State(w: World, inside: map<nat, InHome>, outside: map<nat, OutHome>)

  function Len(o: OutHome): nat {
    match o
    case SmallOut(_) => PAGE
    case LegacyOut(_, n) => PAGE * n
    case RegionOut(_, m) => m
  }

  function KindOf(k: SideTable.Kind, cls: nat): Kind { if k == SideTable.Medium then Medium(cls) else Big(cls) }

  // ------------------------------------------------------------- invariant

  ghost predicate InOk(c: Config, w: World, a: nat, home: InHome) {
    match home
    case SmallIn(i) => SmallPage(w, Addr(w, a)) && w.pageAt(Addr(w, a)) == PageMagic(i) && ClassSize(c, Small(i)) >= 16
    case SpanIn(k, i) =>
      && k != SideTable.Large && Recorded(w, a, k) && w.table.spans[a].owner == Addr(w, a)
      && w.masterAt(Addr(w, a)) == Master(i, PAGE * w.table.spans[a].pages) && ClassSize(c, KindOf(k, i)) > 0
    case RegionIn(p) =>
      && a in w.table.spans && w.table.spans[a].kind == SideTable.Large && w.table.spans[a].owner == p - Regions.HEADER
      && Addr(w, a) + Regions.HEADER <= p < Addr(w, a) + PAGE * w.table.spans[a].pages
      && !SideTable.Blank(w.table.phase, a, a + (p - Addr(w, a)) / PAGE)
      && (a in w.table.phase ==> w.table.phase[a].Filling?)
  }

  ghost predicate OutOk(c: Config, w: World, g: nat, o: OutHome) {
    && Len(o) > 0 && Outside(w, g, Len(o))
    && match o
       case SmallOut(i) => g % PAGE == 0 && w.pageAt(g) == PageMagic(i) && ClassSize(c, Small(i)) >= 16
       case LegacyOut(i, n) =>
         && g % PAGE == 0 && w.masterAt(g) == Master(i, PAGE * n) && ClassSize(c, Medium(i)) > 0
         && (forall j: nat :: j < n ==> w.pageAt(PageOf(g, j)) == SpanMagic(g))
       case RegionOut(p, m) => p > Regions.HEADER && p % 16 == 0 && Header(w, p, g, m)
  }

  function PageOf(g: nat, j: nat): nat { g + j * PAGE }

  /** The header below `p` describes the mapping at `g`. */
  ghost predicate Header(w: World, p: nat, g: nat, m: nat) {
    && p >= Regions.HEADER && p - Regions.HEADER in w.regions
    && var h := w.regions[p - Regions.HEADER];
       h.base == g && h.mapped == m && h.requested > 0 && Regions.HeaderOk(h, p)
  }

  ghost predicate Apart(g: nat, m: nat, h: nat, n: nat) { g + m <= h || h + n <= g }

  /** Mappings outside the arena are the system's, and share no byte. */
  ghost predicate MappingsApart(outside: map<nat, OutHome>) {
    forall g, h :: g in outside && h in outside && g != h ==> Apart(g, Len(outside[g]), h, Len(outside[h]))
  }

  ghost predicate RegionAt(outside: map<nat, OutHome>, g: nat, h: nat) {
    g in outside && outside[g].RegionOut? && outside[g].p == h + Regions.HEADER
  }

  /** A region is registered only while its mapping is open. */
  ghost predicate Known(s: State, h: nat) { exists g :: RegionAt(s.outside, g, h) }

  ghost predicate Ran(w: World) { exists size, es, fs :: Running(w, size, es, fs) }

  ghost predicate Inv(c: Config, s: State) {
    && Ran(s.w) && s.w.start % PAGE == 0
    && (forall a :: a in s.inside ==> InOk(c, s.w, a, s.inside[a]))
    && (forall g :: g in s.outside ==> OutOk(c, s.w, g, s.outside[g]))
    && MappingsApart(s.outside)
    && (forall h :: h in s.w.registry.members || h in s.w.registry.pending.Values ==> Known(s, h))
  }

  // ------------------------------------------------------------------ blocks

  /** A block that an open home can have handed out. */
  ghost predicate Has(c: Config, s: State, b: Block, p: nat, site: Site) {
    match site
    case SmallSlot(base, i) =>
      && b.kind.Small? && b.usable == ClassSize(c, b.kind) > 0 && i < Carve.PageCapacity(b.usable)
      && p == Carve.SlotAt(base + Carve.PAGE_HEADER, b.usable, i)
      && if b.arena then SmallAt(s, base, b.kind.cls) else base in s.outside && s.outside[base] == SmallOut(b.kind.cls)
    case SpanSlot(a, i) =>
      && b.arena && (b.kind.Medium? || b.kind.Big?) && b.usable == ClassSize(c, b.kind) > 0
      && a in s.inside && s.inside[a] == SpanIn(if b.kind.Medium? then SideTable.Medium else SideTable.Big, b.kind.cls)
      && a in s.w.table.spans && i < Carve.SpanCapacity(b.usable, s.w.table.spans[a].pages)
      && p == Carve.SlotAt(Addr(s.w, a) + Carve.MASTER, b.usable, i)
    case LegacySlot(base, n, j) =>
      && !b.arena && b.kind.Medium? && b.usable == ClassSize(c, b.kind) > 0
      && base in s.outside && s.outside[base] == LegacyOut(b.kind.cls, n) && Carve.InChunk(base, b.usable, n, p, j)
    case ArenaRegion(a) =>
      && b.arena && b.kind.Large? && b.usable > 0 && a in s.inside && s.inside[a] == RegionIn(p)
      && a in s.w.table.spans && p + b.usable <= Addr(s.w, a) + PAGE * s.w.table.spans[a].pages
    case LegacyRegion =>
      && !b.arena && b.kind.Large? && b.usable > 0 && p >= Regions.HEADER && p - Regions.HEADER in s.w.registry.members
      && p - Regions.HEADER in s.w.regions
      && var h := s.w.regions[p - Regions.HEADER];
         h.base in s.outside && s.outside[h.base] == RegionOut(p, h.mapped) && p + b.usable <= h.base + h.mapped
  }

  ghost predicate SmallAt(s: State, base: nat, cls: nat) {
    && s.w.start <= base && base == Addr(s.w, (base - s.w.start) / PAGE)
    && var a := (base - s.w.start) / PAGE;
       a in s.inside && s.inside[a] == SmallIn(cls)
  }

  /** The mapping of an open home that is no region shares no byte with any registered region. */
  lemma HomeIsOwn(c: Config, s: State, g: nat)
    requires Inv(c, s) && g in s.outside && !s.outside[g].RegionOut?
    ensures OwnMapping(s.w, g, Len(s.outside[g]))
  {
    hide Ran, InOk;
    assert OutOk(c, s.w, g, s.outside[g]);
    forall h | h in s.w.registry.members && h in s.w.regions
      ensures Apart(g, Len(s.outside[g]), s.w.regions[h].base, s.w.regions[h].mapped)
    {
      var k := RegionHome(c, s, h);
    }
  }

  lemma RegionHome(c: Config, s: State, h: nat) returns (g: nat)
    requires Inv(c, s) && (h in s.w.registry.members || h in s.w.registry.pending.Values)
    ensures RegionAt(s.outside, g, h) && Header(s.w, h + Regions.HEADER, g, s.outside[g].mapped)
  {
    hide Ran, InOk;
    assert Known(s, h);
    g :| RegionAt(s.outside, g, h);
    assert OutOk(c, s.w, g, s.outside[g]);
  }

  /** Every block of an open home lives where its home says. */
  lemma HasLives(c: Config, s: State, b: Block, p: nat, site: Site)
    requires Inv(c, s) && Has(c, s, b, p, site)
    ensures Lives(c, s.w, b, p, site)
  {
    hide Ran, MappingsApart, Carve.SlotAt, Carve.PageCapacity, Carve.SpanCapacity, SideTable.Blank;
    match site
    case SmallSlot(base, i) =>
      if b.arena {
        AddrAligned(s.w, (base - s.w.start) / PAGE);
      } else {
        HomeIsOwn(c, s, base);
        assert OutOk(c, s.w, base, s.outside[base]);
      }
    case SpanSlot(a, i) => assert InOk(c, s.w, a, s.inside[a]);
    case LegacySlot(base, n, j) =>
      HomeIsOwn(c, s, base);
      assert OutOk(c, s.w, base, s.outside[base]);
      assert s.w.pageAt(PageOf(base, j)) == SpanMagic(base);
    case ArenaRegion(a) => assert InOk(c, s.w, a, s.inside[a]);
    case LegacyRegion => RegionLives(c, s, b, p);
  }

  lemma AddrAligned(w: World, a: nat)
    requires w.start % PAGE == 0
    ensures Addr(w, a) % PAGE == 0
  {
  }

  lemma RegionLives(c: Config, s: State, b: Block, p: nat)
    requires Inv(c, s) && Has(c, s, b, p, LegacyRegion)
    ensures Lives(c, s.w, b, p, LegacyRegion)
  {
    hide Ran, MappingsApart;
    var h := s.w.regions[p - Regions.HEADER];
    assert OutOk(c, s.w, h.base, s.outside[h.base]);
  }

  // ------------------------------------------------------------------ steps

  datatype Step =
    | Table(t: OwnerTable.Step)                                  // the arena and the side table
    | Reg(r: Registry.Step)
    | OpenIn(a: nat, home: InHome)                               // headers written into a slice
    | CloseIn(a: nat)                                            // nobody holds a block of it any more
    | OpenOut(g: nat, o: OutHome, header: Regions.Header)        // a mapping is made and its headers written
    | CloseOut(g: nat)
    | UserWrite(q: nat, page: Magic, master: Master, b: Block, p: nat, site: Site)   // anything, inside a block

  /** A slice that is open is not recorded afresh, cleared, discarded or, unless it is a region, grown. */
  predicate Spares(s: State, e: OwnerTable.Step) {
    match e
    case InArena(x) => !(x.Discard? && x.base in s.inside)
    case BeginSet(a, _, _) => a !in s.inside
    case BeginClear(a) => a !in s.inside
    case BeginGrow(a) => a in s.inside ==> s.inside[a].RegionIn?
    case _ => true
  }

  ghost predicate CanOpenIn(c: Config, w: World, a: nat, home: InHome) {
    match home
    case SmallIn(i) => SmallPage(w, Addr(w, a)) && ClassSize(c, Small(i)) >= 16
    case SpanIn(k, i) =>
      k != SideTable.Large && Recorded(w, a, k) && w.table.spans[a].owner == Addr(w, a) && ClassSize(c, KindOf(k, i)) > 0
    case RegionIn(p) => Recorded(w, a, SideTable.Large) && InOk(c, w, a, home)
  }

  ghost predicate CanOpenOut(c: Config, s: State, g: nat, o: OutHome, h: Regions.Header) {
    && Len(o) > 0 && Outside(s.w, g, Len(o)) && g !in s.outside
    && (forall k :: k in s.outside ==> Apart(k, Len(s.outside[k]), g, Len(o)))
    && match o
       case SmallOut(i) => g % PAGE == 0 && ClassSize(c, Small(i)) >= 16
       case LegacyOut(i, n) => g % PAGE == 0 && ClassSize(c, Medium(i)) > 0
       case RegionOut(p, m) =>
         p > Regions.HEADER && p % 16 == 0 && h.base == g && h.mapped == m && h.requested > 0 && Regions.HeaderOk(h, p)
  }

  ghost predicate Enabled(c: Config, s: State, e: Step) {
    match e
    case Table(x) => OwnerTable.Enabled(s.w.table, x) && Spares(s, x)
    case Reg(x) => Registry.Enabled(s.w.registry, x) && (x.Count? ==> Known(s, x.hdr))
    case OpenIn(a, home) => a !in s.inside && CanOpenIn(c, s.w, a, home)
    case CloseIn(a) => true
    case OpenOut(g, o, h) => CanOpenOut(c, s, g, o, h)
    case CloseOut(g) =>
      g in s.outside && (s.outside[g].RegionOut? ==>
        forall h :: h in s.w.registry.members || h in s.w.registry.pending.Values ==> h + Regions.HEADER != s.outside[g].p)
    case UserWrite(q, page, m, b, p, site) => Has(c, s, b, p, site) && p <= q < p + b.usable
  }

  function PutPage(w: World, q: nat, x: Magic): World { w.(pageAt := (a: nat) => if a == q then x else w.pageAt(a)) }

  function PutMaster(w: World, q: nat, x: Master): World { w.(masterAt := (a: nat) => if a == q then x else w.masterAt(a)) }

  /** The master's word at the first page, and a word that leads to it at each further page. */
  function PutSpan(w: World, g: nat, n: nat): World {
    w.(pageAt := (a: nat) => if g <= a < g + n * PAGE && (a - g) % PAGE == 0 then SpanMagic(g) else w.pageAt(a))
  }

  function OpenedIn(w: World, a: nat, home: InHome): World {
    match home
    case SmallIn(i) => PutPage(w, Addr(w, a), PageMagic(i))
    case SpanIn(k, i) =>
      if a in w.table.spans then PutMaster(w, Addr(w, a), Master(i, PAGE * w.table.spans[a].pages)) else w
    case RegionIn(p) => w
  }

  function OpenedOut(w: World, g: nat, o: OutHome, h: Regions.Header): World {
    match o
    case SmallOut(i) => PutPage(w, g, PageMagic(i))
    case LegacyOut(i, n) => PutMaster(PutSpan(w, g, n), g, Master(i, PAGE * n))
    case RegionOut(p, m) => if p >= Regions.HEADER then w.(regions := w.regions[p - Regions.HEADER := h]) else w
  }

  ghost function Apply(c: Config, s: State, e: Step): (r: State)
    requires Inv(c, s) && Enabled(c, s, e)
  {
    TablesOk(s.w);
    match e
    case Table(x) => s.(w := s.w.(table := OwnerTable.Apply(s.w.table, x)))
    case Reg(x) => s.(w := s.w.(registry := Registry.Apply(s.w.registry, x)))
    case OpenIn(a, home) => s.(w := OpenedIn(s.w, a, home), inside := s.inside[a := home])
    case CloseIn(a) => s.(inside := s.inside - {a})
    case OpenOut(g, o, h) => s.(w := OpenedOut(s.w, g, o, h), outside := s.outside[g := o])
    case CloseOut(g) => s.(outside := s.outside - {g})
    case UserWrite(q, page, m, b, p, site) => s.(w := PutMaster(PutPage(s.w, q, page), q, m))
  }

  lemma TablesOk(w: World)
    requires Ran(w)
    ensures OwnerTable.Inv(w.table) && Registry.Inv(w.registry) && |w.registry.buckets| == Registry.BUCKETS
  {
    hide Running, OwnerTable.Inv, Registry.Inv;
    var size, es, fs :| Running(w, size, es, fs);
    RunningFacts(w, size, es, fs);
  }

  // ----------------------------------------------------------- runs of the tables

  lemma {:induction false} TableSnoc(s: OwnerTable.State, es: seq<OwnerTable.Step>, r: OwnerTable.State, e: OwnerTable.Step)
    requires OwnerTable.Inv(s) && OwnerTable.Runs(s, es, r) && OwnerTable.Inv(r) && OwnerTable.Enabled(r, e)
    ensures OwnerTable.Runs(s, es + [e], OwnerTable.Apply(r, e))
    decreases |es|
  {
    hide OwnerTable.Inv, OwnerTable.Enabled, OwnerTable.Apply;
    if es == [] {
      assert [e][1..] == [];
      OwnerTable.StepInv(s, e);
    } else {
      OwnerTable.StepInv(s, es[0]);
      TableSnoc(OwnerTable.Apply(s, es[0]), es[1..], r, e);
      assert (es + [e])[1..] == es[1..] + [e];
    }
  }

  lemma {:induction false} RegSnoc(s: Registry.State, es: seq<Registry.Step>, r: Registry.State, e: Registry.Step)
    requires Registry.Inv(s) && Registry.Runs(s, es, r) && Registry.Inv(r) && Registry.Enabled(r, e)
    ensures Registry.Runs(s, es + [e], Registry.Apply(r, e))
    decreases |es|
  {
    hide Registry.Inv, Registry.Apply, Registry.Represent;
    RegShape(s);
    RegShape(r);
    if es == [] {
      assert [e][1..] == [];
      Registry.StepInv(s, e);
    } else {
      Registry.StepInv(s, es[0]);
      RegSnoc(Registry.Apply(s, es[0]), es[1..], r, e);
      assert (es + [e])[1..] == es[1..] + [e];
    }
  }

  lemma RegShape(s: Registry.State)
    requires Registry.Inv(s)
    ensures |s.buckets| == Registry.BUCKETS
  {
  }

  lemma TableRan(w: World, e: OwnerTable.Step)
    requires Ran(w) && OwnerTable.Inv(w.table) && OwnerTable.Enabled(w.table, e)
    ensures Ran(w.(table := OwnerTable.Apply(w.table, e)))
  {
    var size, es, fs :| Running(w, size, es, fs);
    OwnerTable.InitialInv(size);
    hide OwnerTable.Inv, OwnerTable.Enabled, OwnerTable.Apply, OwnerTable.Runs, Registry.Reachable;
    TableSnoc(OwnerTable.Initial(size), es, w.table, e);
    assert Running(w.(table := OwnerTable.Apply(w.table, e)), size, es + [e], fs);
  }

  lemma RegReach(fs: seq<Registry.Step>, r: Registry.State, e: Registry.Step)
    requires Registry.Reachable(fs, r) && Registry.Inv(r) && |r.buckets| == Registry.BUCKETS && Registry.Enabled(r, e)
    ensures Registry.Reachable(fs + [e], Registry.Apply(r, e))
  {
    Registry.InitialInv();
    hide Registry.Inv, Registry.Enabled, Registry.Apply, Registry.Runs;
    RegSnoc(Registry.Initial(), fs, r, e);
  }

  lemma RegRan(w: World, e: Registry.Step)
    requires Ran(w) && Registry.Inv(w.registry) && |w.registry.buckets| == Registry.BUCKETS && Registry.Enabled(w.registry, e)
    requires Backed(w.(registry := Registry.Apply(w.registry, e)))
    ensures Ran(w.(registry := Registry.Apply(w.registry, e)))
  {
    hide Registry.Inv, Registry.Apply, Registry.Reachable, OwnerTable.Reachable, Backed;
    var size, es, fs :| Running(w, size, es, fs);
    RegReach(fs, w.registry, e);
    assert Running(w.(registry := Registry.Apply(w.registry, e)), size, es, fs + [e]);
  }

  /** Memory and mappings are no part of the tables' runs. */
  lemma SameRan(w: World, x: World)
    requires Ran(w) && x.table == w.table && x.registry == w.registry && Backed(x)
    ensures Ran(x)
  {
    hide Backed, OwnerTable.Reachable, Registry.Reachable;
    var size, es, fs :| Running(w, size, es, fs);
    assert Running(x, size, es, fs);
  }

  /** Every registered header is backed by its open mapping. */
  lemma KnownIsBacked(c: Config, s: State)
    requires forall g :: g in s.outside ==> OutOk(c, s.w, g, s.outside[g])
    requires forall h :: h in s.w.registry.members ==> Known(s, h)
    ensures Backed(s.w)
  {
    forall h | h in s.w.registry.members
      ensures h in s.w.regions && Regions.HeaderOk(s.w.regions[h], h + Regions.HEADER)
    {
      assert Known(s, h);
      var g :| RegionAt(s.outside, g, h);
      assert OutOk(c, s.w, g, s.outside[g]);
    }
  }

  // ----------------------------------------------------------- preservation

  predicate SparesHome(a: nat, home: InHome, e: OwnerTable.Step) {
    && !(e.InArena? && e.e.Discard? && e.e.base == a) && !(e.BeginSet? && e.base == a)
    && e != OwnerTable.BeginClear(a) && (e == OwnerTable.BeginGrow(a) ==> home.RegionIn?)
  }

  lemma InStays(c: Config, w: World, a: nat, home: InHome, e: OwnerTable.Step)
    requires InOk(c, w, a, home) && OwnerTable.Inv(w.table) && OwnerTable.Enabled(w.table, e) && SparesHome(a, home, e)
    ensures InOk(c, w.(table := OwnerTable.Apply(w.table, e)), a, home)
  {
    hide OwnerTable.Inv, OwnerTable.Enabled, OwnerTable.Apply, SideTable.Blank, SmallPage, InOk, Arena.Enabled;
    match home
    case SmallIn(i) => SmallInStays(c, w, a, home, e);
    case SpanIn(k, i) => SpanInStays(c, w, a, home, e);
    case RegionIn(p) => RegionInStays(c, w, a, home, e);
  }

  lemma SmallInStays(c: Config, w: World, a: nat, home: InHome, e: OwnerTable.Step)
    requires InOk(c, w, a, home) && OwnerTable.Inv(w.table) && OwnerTable.Enabled(w.table, e) && SparesHome(a, home, e)
    requires home.SmallIn?
    ensures InOk(c, w.(table := OwnerTable.Apply(w.table, e)), a, home)
  {
    hide OwnerTable.Inv, OwnerTable.Enabled, OwnerTable.Apply, SmallPage;
    AddrIndex(w, a);
    SmallPageStays(w, Addr(w, a), e);
  }

  lemma SpanInStays(c: Config, w: World, a: nat, home: InHome, e: OwnerTable.Step)
    requires InOk(c, w, a, home) && OwnerTable.Inv(w.table) && OwnerTable.Enabled(w.table, e) && SparesHome(a, home, e)
    requires home.SpanIn?
    ensures InOk(c, w.(table := OwnerTable.Apply(w.table, e)), a, home)
  {
    hide OwnerTable.Inv, OwnerTable.Enabled, OwnerTable.Apply, SideTable.Blank;
    SpanStays(w, a, e);
  }

  lemma RegionInStays(c: Config, w: World, a: nat, home: InHome, e: OwnerTable.Step)
    requires InOk(c, w, a, home) && OwnerTable.Inv(w.table) && OwnerTable.Enabled(w.table, e) && SparesHome(a, home, e)
    requires home.RegionIn?
    ensures InOk(c, w.(table := OwnerTable.Apply(w.table, e)), a, home)
  {
    hide OwnerTable.Inv, OwnerTable.Enabled, OwnerTable.Apply, SideTable.Blank;
    SpanStays(w, a, e);
    var i := (home.p - Addr(w, a)) / PAGE;
    assert i < w.table.spans[a].pages;
  }

  lemma AddrIndex(w: World, a: nat)
    ensures w.start <= Addr(w, a) && (Addr(w, a) - w.start) / PAGE == a
  {
  }

  lemma SameWords(t: OwnerTable.State, e: OwnerTable.Step)
    requires OwnerTable.Inv(t) && OwnerTable.Enabled(t, e)
    ensures |OwnerTable.Apply(t, e).words| == |t.words|
  {
    hide Arena.Inv, Arena.Apply, Arena.Enabled, SideTable.ExactUpTo, OwnerTable.Housed, OwnerTable.Phases;
  }

  lemma TableInv(c: Config, s: State, e: OwnerTable.Step)
    requires Inv(c, s) && Enabled(c, s, Table(e))
    ensures Inv(c, Apply(c, s, Table(e)))
  {
    hide Ran, MappingsApart, OwnerTable.Inv, OwnerTable.Enabled, OwnerTable.Apply, InOk, OutOk, Arena.Enabled;
    TablesOk(s.w);
    TableRan(s.w, e);
    SameWords(s.w.table, e);
    var x := s.w.(table := OwnerTable.Apply(s.w.table, e));
    forall a | a in s.inside ensures InOk(c, x, a, s.inside[a]) {
      InStays(c, s.w, a, s.inside[a], e);
    }
    OutFrame(c, s.w, x, s.outside);
    KnownFrame(s, s.(w := x));
  }

  lemma KnownFrame(s: State, r: State)
    requires r.outside == s.outside
    ensures forall h :: Known(s, h) <==> Known(r, h)
  {
  }

  lemma RegInv(c: Config, s: State, e: Registry.Step)
    requires Inv(c, s) && Enabled(c, s, Reg(e))
    ensures Inv(c, Apply(c, s, Reg(e)))
  {
    hide Ran, MappingsApart, Registry.Inv, Registry.Apply, InOk, OutOk, Known, Backed, Spares, CanOpenIn, CanOpenOut;
    TablesOk(s.w);
    var r := s.(w := s.w.(registry := Registry.Apply(s.w.registry, e)));
    KnownFrame(s, r);
    forall h | h in r.w.registry.members || h in r.w.registry.pending.Values ensures Known(r, h) {
      RegNames(s.w.registry, e, h);
      assert Known(s, h);
    }
    OutFrame(c, s.w, r.w, s.outside);
    KnownIsBacked(c, r);
    RegRan(s.w, e);
    forall a | a in s.inside ensures InOk(c, r.w, a, s.inside[a]) {
      InFrame(c, s.w, r.w, a, s.inside[a]);
    }
  }

  /** A registry step names no new header but the one it counts. */
  lemma RegNames(s: Registry.State, e: Registry.Step, h: nat)
    requires |s.buckets| == Registry.BUCKETS && Registry.Enabled(s, e)
    requires var r := Registry.Apply(s, e); h in r.members || h in r.pending.Values
    ensures h in s.members || h in s.pending.Values || (e.Count? && e.hdr == h)
  {
    hide Registry.Bucket;
  }

  /** A home depends on the table and on what stands at its own headers. */
  lemma InFrame(c: Config, w: World, x: World, a: nat, home: InHome)
    requires InOk(c, w, a, home) && x.start == w.start && x.table == w.table
    requires x.pageAt(Addr(w, a)) == w.pageAt(Addr(w, a)) && x.masterAt(Addr(w, a)) == w.masterAt(Addr(w, a))
    ensures InOk(c, x, a, home)
  {
    hide SideTable.Blank;
  }

  lemma OutFrame(c: Config, w: World, x: World, outside: map<nat, OutHome>)
    requires forall g :: g in outside ==> OutOk(c, w, g, outside[g])
    requires x.start == w.start && |x.table.words| == |w.table.words| && x.regions == w.regions
    requires forall g, q: nat :: g in outside && IsHeader(g, outside[g], q) ==> x.pageAt(q) == w.pageAt(q) && x.masterAt(q) == w.masterAt(q)
    ensures forall g :: g in outside ==> OutOk(c, x, g, outside[g])
  {
    forall g | g in outside ensures OutOk(c, x, g, outside[g]) {
      assert OutOk(c, w, g, outside[g]);
      OutFrame1(c, w, x, g, outside[g]);
    }
  }

  /** Where a mapping outside the arena keeps headers. */
  ghost predicate IsHeader(g: nat, o: OutHome, q: nat) {
    match o
    case SmallOut(_) => q == g
    case LegacyOut(_, n) => q == g || exists j: nat :: j < n && q == PageOf(g, j)
    case RegionOut(_, _) => false
  }

  lemma OutFrame1(c: Config, w: World, x: World, g: nat, o: OutHome)
    requires OutOk(c, w, g, o) && x.start == w.start && |x.table.words| == |w.table.words|
    requires o.RegionOut? && o.p >= Regions.HEADER && o.p - Regions.HEADER in w.regions ==>
               o.p - Regions.HEADER in x.regions && x.regions[o.p - Regions.HEADER] == w.regions[o.p - Regions.HEADER]
    requires forall q: nat :: IsHeader(g, o, q) ==> x.pageAt(q) == w.pageAt(q) && x.masterAt(q) == w.masterAt(q)
    ensures OutOk(c, x, g, o)
  {
    if o.LegacyOut? {
      forall j: nat | j < o.pages ensures x.pageAt(PageOf(g, j)) == SpanMagic(g) {
        assert IsHeader(g, o, PageOf(g, j));
      }
      assert IsHeader(g, o, g);
    } else if o.SmallOut? {
      assert IsHeader(g, o, g);
    }
  }

  /** Memory that changes at no header of an open home leaves everything as it is. */
  lemma MemoryInv(c: Config, s: State, x: World)
    requires Inv(c, s) && x.table == s.w.table && x.registry == s.w.registry && x.regions == s.w.regions && x.start == s.w.start
    requires forall a :: a in s.inside ==> x.pageAt(Addr(x, a)) == s.w.pageAt(Addr(x, a)) && x.masterAt(Addr(x, a)) == s.w.masterAt(Addr(x, a))
    requires forall g, q: nat :: g in s.outside && IsHeader(g, s.outside[g], q) ==> x.pageAt(q) == s.w.pageAt(q) && x.masterAt(q) == s.w.masterAt(q)
    ensures Inv(c, s.(w := x))
  {
    hide Ran, MappingsApart, InOk, OutOk, IsHeader;
    forall a | a in s.inside ensures InOk(c, x, a, s.inside[a]) {
      InFrame(c, s.w, x, a, s.inside[a]);
    }
    OutFrame(c, s.w, x, s.outside);
    KnownFrame(s, s.(w := x));
    KnownIsBacked(c, s.(w := x));
    SameRan(s.w, x);
  }

  /** An open slice lies in the arena. */
  lemma InSlice(c: Config, w: World, a: nat, home: InHome)
    requires OwnerTable.Inv(w.table) && (InOk(c, w, a, home) || CanOpenIn(c, w, a, home))
    ensures a in w.table.arena.tiles && w.table.arena.tiles[a].pages > 0 && a + w.table.arena.tiles[a].pages <= |w.table.words|
  {
    hide Arena.Inv, SideTable.ExactUpTo, OwnerTable.Phases, SideTable.Blank;
    AddrIndex(w, a);
    OwnerTable.InTable(w.table, a);
  }

  lemma HeaderInside(g: nat, o: OutHome, q: nat)
    requires IsHeader(g, o, q) && Len(o) > 0
    ensures g <= q < g + Len(o)
  {
  }

  /** A header at the base of a slice of the arena is no header outside it. */
  lemma ArenaHeader(c: Config, s: State, a: nat)
    requires (forall g :: g in s.outside ==> OutOk(c, s.w, g, s.outside[g])) && a < |s.w.table.words|
    ensures forall g, q: nat :: g in s.outside && IsHeader(g, s.outside[g], q) ==> q != Addr(s.w, a)
  {
    forall g, q: nat | g in s.outside && IsHeader(g, s.outside[g], q) ensures q != Addr(s.w, a) {
      assert OutOk(c, s.w, g, s.outside[g]);
      HeaderInside(g, s.outside[g], q);
    }
  }

  lemma OpenInInv(c: Config, s: State, a: nat, home: InHome)
    requires Inv(c, s) && a !in s.inside && CanOpenIn(c, s.w, a, home)
    ensures Inv(c, s.(w := OpenedIn(s.w, a, home), inside := s.inside[a := home]))
  {
    hide Inv, InOk, CanOpenIn, OpenedIn;
    OpenInMemory(c, s, a, home);
    OpenedInOk(c, s.w, a, home);
    AddHome(c, s.(w := OpenedIn(s.w, a, home)), a, home);
  }

  lemma OpenInMemory(c: Config, s: State, a: nat, home: InHome)
    requires Inv(c, s) && a !in s.inside && CanOpenIn(c, s.w, a, home)
    ensures Inv(c, s.(w := OpenedIn(s.w, a, home)))
  {
    hide Ran, MappingsApart, IsHeader, OwnerTable.Inv, Registry.Inv, Known, OutOk, InOk, CanOpenIn;
    TablesOk(s.w);
    InSlice(c, s.w, a, home);
    ArenaHeader(c, s, a);
    MemoryInv(c, s, OpenedIn(s.w, a, home));
  }

  lemma AddHome(c: Config, s: State, a: nat, home: InHome)
    requires Inv(c, s) && InOk(c, s.w, a, home)
    ensures Inv(c, s.(inside := s.inside[a := home]))
  {
    hide Ran, MappingsApart, OutOk, InOk;
    KnownFrame(s, s.(inside := s.inside[a := home]));
  }

  lemma OpenedInOk(c: Config, w: World, a: nat, home: InHome)
    requires CanOpenIn(c, w, a, home)
    ensures InOk(c, OpenedIn(w, a, home), a, home)
  {
    hide SideTable.Blank;
  }

  lemma CloseInInv(c: Config, s: State, a: nat)
    requires Inv(c, s)
    ensures Inv(c, Apply(c, s, CloseIn(a)))
  {
    hide Ran, MappingsApart, InOk, OutOk;
    KnownFrame(s, s.(inside := s.inside - {a}));
  }

  /** The headers of a new mapping lie in it, away from all others. */
  lemma OpenedOutside(c: Config, s: State, g: nat, o: OutHome, h: Regions.Header, k: nat, q: nat)
    requires CanOpenOut(c, s, g, o, h) && k in s.outside && OutOk(c, s.w, k, s.outside[k]) && IsHeader(k, s.outside[k], q)
    ensures var x := OpenedOut(s.w, g, o, h); x.pageAt(q) == s.w.pageAt(q) && x.masterAt(q) == s.w.masterAt(q)
  {
    HeaderInside(k, s.outside[k], q);
    hide IsHeader, OutOk;
  }

  lemma OpenedOk(c: Config, s: State, g: nat, o: OutHome, h: Regions.Header)
    requires CanOpenOut(c, s, g, o, h)
    ensures OutOk(c, OpenedOut(s.w, g, o, h), g, o)
  {
    if o.LegacyOut? {
      var x := OpenedOut(s.w, g, o, h);
      forall j: nat | j < o.pages ensures x.pageAt(PageOf(g, j)) == SpanMagic(g) {
        WholePage(g, j, o.pages);
      }
    }
  }

  lemma WholePage(g: nat, j: nat, n: nat)
    requires j < n
    ensures g <= PageOf(g, j) < g + n * PAGE && (PageOf(g, j) - g) % PAGE == 0
  {
    assert PageOf(g, j) - g == j * PAGE;
  }

  /** The header of another open region stays what it was. */
  lemma OtherRegion(c: Config, s: State, g: nat, o: OutHome, h: Regions.Header, k: nat)
    requires CanOpenOut(c, s, g, o, h) && o.RegionOut? && k in s.outside && OutOk(c, s.w, k, s.outside[k]) && s.outside[k].RegionOut?
    ensures s.outside[k].p != o.p
  {
    assert Apart(k, Len(s.outside[k]), g, Len(o));
  }

  lemma OpenOutInv(c: Config, s: State, g: nat, o: OutHome, h: Regions.Header)
    requires Inv(c, s) && CanOpenOut(c, s, g, o, h)
    ensures Inv(c, s.(w := OpenedOut(s.w, g, o, h), outside := s.outside[g := o]))
  {
    hide Ran, OutOk, InOk, MappingsApart, CanOpenOut, Known, Backed;
    OpenedOk(c, s, g, o, h);
    OpenOutOthers(c, s, g, o, h);
    OpenOutSlices(c, s, g, o, h);
    OpenOutApart(c, s, g, o, h);
    OpenOutKnown(c, s, g, o, h);
    SameTables(s.w, g, o, h);
    KnownIsBacked(c, s.(w := OpenedOut(s.w, g, o, h), outside := s.outside[g := o]));
    SameRan(s.w, OpenedOut(s.w, g, o, h));
    hide OpenedOut;
  }

  lemma SameTables(w: World, g: nat, o: OutHome, h: Regions.Header)
    ensures var x := OpenedOut(w, g, o, h); x.table == w.table && x.registry == w.registry && x.start == w.start
  {
  }

  lemma OpenOutKnown(c: Config, s: State, g: nat, o: OutHome, h: Regions.Header)
    requires CanOpenOut(c, s, g, o, h)
    ensures var r := s.(w := OpenedOut(s.w, g, o, h), outside := s.outside[g := o]);
            forall k :: Known(s, k) ==> Known(r, k)
  {
    var r := s.(w := OpenedOut(s.w, g, o, h), outside := s.outside[g := o]);
    assert g !in s.outside;
    hide CanOpenOut, OpenedOut;
    forall k | Known(s, k) ensures Known(r, k) {
      var m :| RegionAt(s.outside, m, k);
      assert RegionAt(r.outside, m, k);
    }
  }

  lemma OpenOutOthers(c: Config, s: State, g: nat, o: OutHome, h: Regions.Header)
    requires Inv(c, s) && CanOpenOut(c, s, g, o, h)
    ensures forall k :: k in s.outside ==> OutOk(c, OpenedOut(s.w, g, o, h), k, s.outside[k])
  {
    hide Ran, IsHeader, InOk, MappingsApart, OutOk, CanOpenOut;
    var x := OpenedOut(s.w, g, o, h);
    forall k | k in s.outside ensures OutOk(c, x, k, s.outside[k]) {
      assert OutOk(c, s.w, k, s.outside[k]);
      forall q: nat | IsHeader(k, s.outside[k], q) ensures x.pageAt(q) == s.w.pageAt(q) && x.masterAt(q) == s.w.masterAt(q) {
        OpenedOutside(c, s, g, o, h, k, q);
      }
      if o.RegionOut? && s.outside[k].RegionOut? {
        OtherRegion(c, s, g, o, h, k);
      }
      OutFrame1(c, s.w, x, k, s.outside[k]);
    }
  }

  lemma OpenOutSlices(c: Config, s: State, g: nat, o: OutHome, h: Regions.Header)
    requires Inv(c, s) && CanOpenOut(c, s, g, o, h)
    ensures forall a :: a in s.inside ==> InOk(c, OpenedOut(s.w, g, o, h), a, s.inside[a])
  {
    TablesOk(s.w);
    hide Ran, InOk, MappingsApart, OutOk, OwnerTable.Inv, Registry.Inv;
    var x := OpenedOut(s.w, g, o, h);
    forall a | a in s.inside ensures InOk(c, x, a, s.inside[a]) {
      InSlice(c, s.w, a, s.inside[a]);
      InFrame(c, s.w, x, a, s.inside[a]);
    }
  }

  lemma OpenOutApart(c: Config, s: State, g: nat, o: OutHome, h: Regions.Header)
    requires Inv(c, s) && CanOpenOut(c, s, g, o, h)
    ensures MappingsApart(s.outside[g := o])
  {
    hide Ran, InOk, OutOk;
  }

  lemma CloseOutInv(c: Config, s: State, g: nat)
    requires Inv(c, s) && Enabled(c, s, CloseOut(g))
    ensures Inv(c, Apply(c, s, CloseOut(g)))
  {
    hide Ran, InOk, OutOk;
    var r := Apply(c, s, CloseOut(g));
    forall h | h in s.w.registry.members || h in s.w.registry.pending.Values ensures Known(r, h) {
      assert Known(s, h);
      var k :| RegionAt(s.outside, k, h);
      assert RegionAt(r.outside, k, h);
    }
  }

  // ------------------------------------------------- users write into their blocks

  /** A block of the arena lies in its slice, above the slice's header. */
  lemma InsideAboveHeader(c: Config, s: State, b: Block, p: nat, site: Site)
    requires Inv(c, s) && Has(c, s, b, p, site) && b.arena
    ensures Inside(s.w, SliceOf(s.w, site), p, b.usable) && Addr(s.w, SliceOf(s.w, site)) < p
  {
    TablesOk(s.w);
    HasLives(c, s, b, p, site);
    hide Inv, Has, OwnerTable.Inv, Registry.Inv;
    SiteInside(c, s.w, b, p, site);
    AboveBase(c, s.w, b, p, site);
  }

  lemma AboveBase(c: Config, w: World, b: Block, p: nat, site: Site)
    requires Lives(c, w, b, p, site) && b.arena
    ensures Addr(w, SliceOf(w, site)) < p
  {
    match site
    case SmallSlot(base, i) => Carve.SlotAbove(base + Carve.PAGE_HEADER, b.usable, i);
    case SpanSlot(a, i) => Carve.SlotAbove(Addr(w, a) + Carve.MASTER, b.usable, i);
    case ArenaRegion(a) =>
    case _ =>
  }

  /** The mapping a block outside the arena lies in. */
  function BaseOf(w: World, p: nat, site: Site): nat {
    match site
    case SmallSlot(base, _) => base
    case LegacySlot(base, _, _) => base
    case LegacyRegion => if p >= Regions.HEADER && p - Regions.HEADER in w.regions then w.regions[p - Regions.HEADER].base else 0
    case _ => 0
  }

  /** A block outside the arena lies in its mapping and covers none of its headers. */
  lemma OutsideOffHeaders(c: Config, s: State, b: Block, p: nat, site: Site, q: nat)
    requires Inv(c, s) && Has(c, s, b, p, site) && !b.arena && p <= q < p + b.usable
    ensures var g := BaseOf(s.w, p, site);
            g in s.outside && g <= q < g + Len(s.outside[g]) && !IsHeader(g, s.outside[g], q)
  {
    hide Ran, MappingsApart, InOk, Known;
    var g := BaseOf(s.w, p, site);
    assert OutOk(c, s.w, g, s.outside[g]);
    match site
    case SmallSlot(base, i) =>
      Carve.SmallSlot(base, b.usable, i);
      hide Carve.SlotAt, Carve.PageCapacity;
    case LegacySlot(base, n, j) => ChunkOffHeaders(base, b.usable, n, p, j, q);
    case LegacyRegion =>
  }

  /** A chunk's blocks lie between the page's own header and the next page. */
  lemma ChunkOffHeaders(base: nat, size: nat, n: nat, p: nat, j: nat, q: nat)
    requires Carve.InChunk(base, size, n, p, j) && p <= q < p + size
    ensures base < q < base + PAGE * n && forall i: nat :: i < n ==> q != PageOf(base, i)
  {
    PageStart(base, j);
    forall i: nat | i < n ensures q != PageOf(base, i) {
      if i <= j {
        PagesOrdered(base, i, j);
      } else {
        PagesOrdered(base, j + 1, i);
      }
    }
    PagesOrdered(base, j + 1, n);
  }

  lemma PageStart(base: nat, j: nat)
    ensures PageOf(base, j + 1) == PageOf(base, j) + PAGE && PageOf(base, j) == base + j * PAGE
  {
  }

  lemma PagesOrdered(base: nat, i: nat, j: nat)
    requires i <= j
    ensures PageOf(base, i) <= PageOf(base, j)
  {
  }

  /** What a user may write stands at no header of any open home. */
  lemma WriteOffHeaders(c: Config, s: State, b: Block, p: nat, site: Site, q: nat)
    requires Inv(c, s) && Has(c, s, b, p, site) && p <= q < p + b.usable
    ensures forall a :: a in s.inside ==> q != Addr(s.w, a)
    ensures forall g, x: nat :: g in s.outside && IsHeader(g, s.outside[g], x) ==> x != q
  {
    if b.arena {
      ArenaWrite(c, s, b, p, site, q);
    } else {
      OutsideWrite(c, s, b, p, site, q);
    }
  }

  lemma ArenaWrite(c: Config, s: State, b: Block, p: nat, site: Site, q: nat)
    requires Inv(c, s) && Has(c, s, b, p, site) && p <= q < p + b.usable && b.arena
    ensures forall a :: a in s.inside ==> q != Addr(s.w, a)
    ensures forall g, x: nat :: g in s.outside && IsHeader(g, s.outside[g], x) ==> x != q
  {
    InsideAboveHeader(c, s, b, p, site);
    TablesOk(s.w);
    hide Ran, MappingsApart, InOk, Known, Has, SliceOf, OwnerTable.Inv, Registry.Inv;
    var d := SliceOf(s.w, site);
    SliceInTable(s.w, d);
    forall a | a in s.inside ensures q != Addr(s.w, a) {
      InSlice(c, s.w, a, s.inside[a]);
      ArenaOf(s.w);
      if a != d {
        SlicesApart(s.w, d, p, b.usable, a, Addr(s.w, a), 1);
      }
    }
    forall g, x: nat | g in s.outside && IsHeader(g, s.outside[g], x) ensures x != q {
      assert OutOk(c, s.w, g, s.outside[g]);
      HeaderInside(g, s.outside[g], x);
    }
  }

  lemma ArenaOf(w: World)
    requires OwnerTable.Inv(w.table)
    ensures Arena.Inv(w.table.arena)
  {
  }

  lemma SliceInTable(w: World, d: nat)
    requires OwnerTable.Inv(w.table) && d in w.table.arena.tiles
    ensures d + w.table.arena.tiles[d].pages <= |w.table.words|
  {
    OwnerTable.InTable(w.table, d);
  }

  lemma OutsideWrite(c: Config, s: State, b: Block, p: nat, site: Site, q: nat)
    requires Inv(c, s) && Has(c, s, b, p, site) && p <= q < p + b.usable && !b.arena
    ensures forall a :: a in s.inside ==> q != Addr(s.w, a)
    ensures forall g, x: nat :: g in s.outside && IsHeader(g, s.outside[g], x) ==> x != q
  {
    OutsideOffHeaders(c, s, b, p, site, q);
    TablesOk(s.w);
    hide Ran, InOk, Known, Has, BaseOf, OwnerTable.Inv, Registry.Inv, IsHeader;
    var d := BaseOf(s.w, p, site);
    assert OutOk(c, s.w, d, s.outside[d]);
    forall a | a in s.inside ensures q != Addr(s.w, a) {
      InSlice(c, s.w, a, s.inside[a]);
    }
    forall g, x: nat | g in s.outside && IsHeader(g, s.outside[g], x) ensures x != q {
      assert OutOk(c, s.w, g, s.outside[g]);
      HeaderInside(g, s.outside[g], x);
      assert g != d ==> Apart(g, Len(s.outside[g]), d, Len(s.outside[d]));
    }
  }

  lemma WriteInv(c: Config, s: State, q: nat, page: Magic, m: Master, b: Block, p: nat, site: Site)
    requires Inv(c, s) && Has(c, s, b, p, site) && p <= q < p + b.usable
    ensures Inv(c, s.(w := PutMaster(PutPage(s.w, q, page), q, m)))
  {
    WriteOffHeaders(c, s, b, p, site, q);
    hide Inv, Has, IsHeader;
    MemoryInv(c, s, PutMaster(PutPage(s.w, q, page), q, m));
  }

  // -------------------------------------------------------------------- runs

  /** Every step keeps every open home, whatever the tables, the system and the users do. */
  lemma StepInv(c: Config, s: State, e: Step)
    requires Inv(c, s) && Enabled(c, s, e)
    ensures Inv(c, Apply(c, s, e))
  {
    hide Inv, CanOpenIn, CanOpenOut, OpenedIn, OpenedOut, Has, Spares;
    match e
    case Table(x) => TableInv(c, s, x);
    case Reg(x) => RegInv(c, s, x);
    case OpenIn(a, home) => OpenInInv(c, s, a, home);
    case CloseIn(a) => CloseInInv(c, s, a);
    case OpenOut(g, o, h) => OpenOutInv(c, s, g, o, h);
    case CloseOut(g) => CloseOutInv(c, s, g);
    case UserWrite(q, page, m, b, p, site) => WriteInv(c, s, q, page, m, b, p, site);
  }

  ghost predicate Runs(c: Config, s: State, es: seq<Step>, r: State)
    requires Inv(c, s)
    decreases |es|
  {
    if es == [] then r == s
    else Enabled(c, s, es[0]) && (StepInv(c, s, es[0]); Runs(c, Apply(c, s, es[0]), es[1..], r))
  }

  /** An arena of `size` pages that begins at `start`; memory may hold anything. */
  function Initial(start: nat, size: nat, pageAt: nat -> Magic, masterAt: nat -> Master): State {
    State(World(start, OwnerTable.Initial(size), Registry.Initial(), map[], pageAt, masterAt), map[], map[])
  }

  lemma InitialInv(c: Config, start: nat, size: nat, pageAt: nat -> Magic, masterAt: nat -> Master)
    requires start % PAGE == 0
    ensures Inv(c, Initial(start, size, pageAt, masterAt))
  {
    var s := Initial(start, size, pageAt, masterAt);
    OwnerTable.InitialInv(size);
    Registry.InitialInv();
    hide OwnerTable.Inv, Registry.Inv;
    assert Running(s.w, size, [], []);
  }

  lemma {:induction false} RunsInv(c: Config, s: State, es: seq<Step>, r: State)
    requires Inv(c, s) && Runs(c, s, es, r)
    ensures Inv(c, r)
    decreases |es|
  {
    hide Inv, Enabled, Apply;
    if es != [] {
      StepInv(c, s, es[0]);
      RunsInv(c, Apply(c, s, es[0]), es[1..], r);
    }
  }

  // ------------------------------------------- what opening and closing are for

  /** A slot of a page or span, or the bytes of a region, in the slice at `a`. */
  ghost predicate SlotIn(c: Config, w: World, a: nat, home: InHome, b: Block, p: nat, site: Site) {
    && b.arena && b.usable > 0
    && match home
       case SmallIn(i) =>
         && b.kind == Small(i) && b.usable == ClassSize(c, b.kind) && site.SmallSlot? && site.base == Addr(w, a)
         && site.slot < Carve.PageCapacity(b.usable) && p == Carve.SlotAt(site.base + Carve.PAGE_HEADER, b.usable, site.slot)
       case SpanIn(k, i) =>
         && k != SideTable.Large && b.kind == KindOf(k, i) && b.usable == ClassSize(c, b.kind) && site.SpanSlot? && site.a == a && a in w.table.spans
         && site.slot < Carve.SpanCapacity(b.usable, w.table.spans[a].pages)
         && p == Carve.SlotAt(Addr(w, a) + Carve.MASTER, b.usable, site.slot)
       case RegionIn(q) =>
         && b.kind == Large && site == ArenaRegion(a) && p == q && a in w.table.spans
         && p + b.usable <= Addr(w, a) + PAGE * w.table.spans[a].pages
  }

  lemma SlotHad(c: Config, s: State, a: nat, home: InHome, b: Block, p: nat, site: Site)
    requires SlotIn(c, s.w, a, home, b, p, site)
    ensures a in s.inside && s.inside[a] == home ==> Has(c, s, b, p, site)
    ensures a !in s.inside ==> !Has(c, s, b, p, site)
  {
    hide Carve.SlotAt, Carve.SpanCapacity, Carve.PageCapacity;
    AddrIndex(s.w, a);
  }

  lemma SlotFrame(c: Config, w: World, x: World, a: nat, home: InHome, b: Block, p: nat, site: Site)
    requires SlotIn(c, w, a, home, b, p, site) && x.start == w.start && x.table == w.table
    ensures SlotIn(c, x, a, home, b, p, site)
  {
    hide Carve.SlotAt, Carve.SpanCapacity, Carve.PageCapacity;
  }

  /** Opening a slice makes each of its slots a block that may be handed out; closing it ends that, for this
      slice alone. */
  lemma OpenSliceHandsOut(c: Config, s: State, a: nat, home: InHome, b: Block, p: nat, site: Site)
    requires Inv(c, s) && SlotIn(c, s.w, a, home, b, p, site)
    ensures Enabled(c, s, OpenIn(a, home)) ==> Has(c, Apply(c, s, OpenIn(a, home)), b, p, site)
    ensures !Has(c, Apply(c, s, CloseIn(a)), b, p, site)
    ensures forall x :: x in s.inside && x != a ==> x in Apply(c, s, CloseIn(a)).inside
  {
    hide Inv, SlotIn, Has, CanOpenIn, ClassSize;
    if Enabled(c, s, OpenIn(a, home)) {
      var r := Apply(c, s, OpenIn(a, home));
      SlotFrame(c, s.w, r.w, a, home, b, p, site);
      SlotHad(c, r, a, home, b, p, site);
    }
    SlotHad(c, Apply(c, s, CloseIn(a)), a, home, b, p, site);
  }

  /** A slot of a page or span outside the arena. */
  ghost predicate SlotOut(c: Config, g: nat, o: OutHome, b: Block, p: nat, site: Site) {
    && !b.arena && b.usable == ClassSize(c, b.kind) > 0
    && match o
       case SmallOut(i) =>
         && b.kind == Small(i) && site.SmallSlot? && site.base == g
         && site.slot < Carve.PageCapacity(b.usable) && p == Carve.SlotAt(g + Carve.PAGE_HEADER, b.usable, site.slot)
       case LegacyOut(i, n) =>
         && b.kind == Medium(i) && site.LegacySlot? && site.base == g && site.pages == n
         && Carve.InChunk(g, b.usable, n, p, site.chunk)
       case RegionOut(_, _) => false
  }

  lemma OpenMappingHandsOut(c: Config, s: State, g: nat, o: OutHome, h: Regions.Header, b: Block, p: nat, site: Site)
    requires Inv(c, s) && Enabled(c, s, OpenOut(g, o, h)) && SlotOut(c, g, o, b, p, site)
    ensures Has(c, Apply(c, s, OpenOut(g, o, h)), b, p, site)
    ensures Inv(c, Apply(c, s, OpenOut(g, o, h))) && Enabled(c, Apply(c, s, OpenOut(g, o, h)), CloseOut(g))
    ensures !Has(c, Apply(c, Apply(c, s, OpenOut(g, o, h)), CloseOut(g)), b, p, site)
  {
    StepInv(c, s, OpenOut(g, o, h));
    hide Ran, InOk, OutOk, MappingsApart, Carve.SlotAt, Carve.PageCapacity, Carve.InChunk, Spares, Known, CanOpenOut, CanOpenIn;
  }

  /** A region's pointer lies in its own mapping, so a new mapping's region is not registered yet. */
  lemma NotYetKnown(c: Config, s: State, g: nat, p: nat, m: nat, h: Regions.Header)
    requires Inv(c, s) && Enabled(c, s, OpenOut(g, RegionOut(p, m), h))
    ensures p > Regions.HEADER && p - Regions.HEADER !in s.w.registry.members && p - Regions.HEADER !in s.w.registry.pending.Values
  {
    hide Ran, InOk, OutOk, MappingsApart, Known;
    forall x | x in s.w.registry.members || x in s.w.registry.pending.Values ensures x != p - Regions.HEADER {
      var k := RegionHome(c, s, x);
    }
  }

  lemma KnownAt(r: State, g: nat, p: nat, m: nat)
    requires g in r.outside && r.outside[g] == RegionOut(p, m) && p > Regions.HEADER
    ensures Known(r, p - Regions.HEADER)
  {
    assert RegionAt(r.outside, g, p - Regions.HEADER);
  }

  lemma RegionOpened(c: Config, s: State, g: nat, p: nat, m: nat, h: Regions.Header, t: nat)
    requires Inv(c, s) && Enabled(c, s, OpenOut(g, RegionOut(p, m), h)) && t !in s.w.registry.pending
    ensures p > Regions.HEADER && h.base == g && h.mapped == m
    ensures var r := Apply(c, s, OpenOut(g, RegionOut(p, m), h));
            && Inv(c, r) && r.outside == s.outside[g := RegionOut(p, m)] && r.w.regions == s.w.regions[p - Regions.HEADER := h]
            && Registry.Inv(r.w.registry) && Registry.Enabled(r.w.registry, Registry.Count(t, p - Regions.HEADER))
            && Known(r, p - Regions.HEADER)
  {
    hide Inv, Registry.Inv, Known, CanOpenIn, Outside, MappingsApart, InOk, OutOk, Ran;
    NotYetKnown(c, s, g, p, m, h);
    StepInv(c, s, OpenOut(g, RegionOut(p, m), h));
    TablesOk(s.w) by { assert Ran(s.w) by { RanOf(c, s); } }
    KnownAt(Apply(c, s, OpenOut(g, RegionOut(p, m), h)), g, p, m);
  }

  lemma RanOf(c: Config, s: State)
    requires Inv(c, s)
    ensures Ran(s.w)
  {
    hide Ran, InOk, OutOk, MappingsApart, Known;
  }

  lemma RegStep(c: Config, s: State, x: Registry.Step)
    requires Inv(c, s) && |s.w.registry.buckets| == Registry.BUCKETS
    requires Registry.Enabled(s.w.registry, x) && (x.Count? ==> Known(s, x.hdr))
    ensures Enabled(c, s, Reg(x)) && Inv(c, Apply(c, s, Reg(x)))
    ensures Apply(c, s, Reg(x)) == s.(w := s.w.(registry := Registry.Apply(s.w.registry, x)))
  {
    hide Inv, Registry.Enabled, Registry.Apply, Known;
    StepInv(c, s, Reg(x));
  }

  lemma RegionHad(c: Config, s: State, g: nat, p: nat, m: nat, b: Block)
    requires g in s.outside && s.outside[g] == RegionOut(p, m) && p > Regions.HEADER && p - Regions.HEADER in s.w.registry.members
    requires p - Regions.HEADER in s.w.regions && s.w.regions[p - Regions.HEADER].base == g && s.w.regions[p - Regions.HEADER].mapped == m
    requires !b.arena && b.kind == Large && b.usable > 0 && p + b.usable <= g + m
    ensures Has(c, s, b, p, LegacyRegion)
  {
  }

  lemma Linked(s: Registry.State, t: nat, h: nat)
    requires Registry.Inv(s) && Registry.Enabled(s, Registry.Count(t, h))
    ensures |s.buckets| == Registry.BUCKETS
    ensures var a := Registry.Apply(s, Registry.Count(t, h));
            && Registry.Enabled(a, Registry.LinkIn(t)) && |a.buckets| == Registry.BUCKETS
            && h in Registry.Apply(a, Registry.LinkIn(t)).members
  {
    hide Registry.Bucket;
  }

  /** The two steps of registering the region at `p`. */
  lemma RegionRegistered(c: Config, r: State, x: nat, t: nat)
    requires Inv(c, r) && Registry.Inv(r.w.registry) && Registry.Enabled(r.w.registry, Registry.Count(t, x)) && Known(r, x)
    ensures var e, l := Reg(Registry.Count(t, x)), Reg(Registry.LinkIn(t));
            && Enabled(c, r, e) && Inv(c, Apply(c, r, e)) && Enabled(c, Apply(c, r, e), l)
            && var f := Apply(c, Apply(c, r, e), l);
               f.outside == r.outside && f.w.regions == r.w.regions && x in f.w.registry.members
  {
    hide Inv, Registry.Inv, Registry.Enabled, Registry.Apply, Known, Enabled, Apply;
    Linked(r.w.registry, t, x);
    RegStep(c, r, Registry.Count(t, x));
    RegStep(c, Apply(c, r, Reg(Registry.Count(t, x))), Registry.LinkIn(t));
  }

  /** A region outside the arena can be handed out once it is registered, which takes two steps. */
  lemma RegisteredRegionHandsOut(c: Config, s: State, g: nat, p: nat, m: nat, h: Regions.Header, t: nat, b: Block)
    requires Inv(c, s) && Enabled(c, s, OpenOut(g, RegionOut(p, m), h)) && t !in s.w.registry.pending
    requires !b.arena && b.kind == Large && b.usable > 0 && p + b.usable <= g + m
    ensures p > Regions.HEADER
    ensures var e, l := Reg(Registry.Count(t, p - Regions.HEADER)), Reg(Registry.LinkIn(t));
            var r := Apply(c, s, OpenOut(g, RegionOut(p, m), h));
            && Inv(c, r) && Enabled(c, r, e) && Inv(c, Apply(c, r, e)) && Enabled(c, Apply(c, r, e), l)
            && Has(c, Apply(c, Apply(c, r, e), l), b, p, LegacyRegion)
  {
    hide *;
    RegionOpened(c, s, g, p, m, h, t);
    var r := Apply(c, s, OpenOut(g, RegionOut(p, m), h));
    RegionRegistered(c, r, p - Regions.HEADER, t);
    RegionHad(c, Apply(c, Apply(c, r, Reg(Registry.Count(t, p - Regions.HEADER))), Reg(Registry.LinkIn(t))), g, p, m, b);
  }

  lemma CommitLive(s: OwnerTable.State, t: nat, a: nat)
    requires OwnerTable.Inv(s) && OwnerTable.Enabled(s, OwnerTable.InArena(Arena.Commit(t, a)))
    ensures var r := OwnerTable.Apply(s, OwnerTable.InArena(Arena.Commit(t, a)));
            a in r.arena.tiles && r.arena.tiles[a].status.Live? && r.spans == s.spans
  {
    hide Arena.Inv;
  }

  /** A slice that was just committed can be opened as a page of any small class. */
  lemma CommittedOpens(c: Config, s: State, t: nat, a: nat, i: nat)
    requires Inv(c, s) && ConfigOk(c) && i < |c.small| && a !in s.inside && a !in s.w.table.spans
    requires OwnerTable.Enabled(s.w.table, OwnerTable.InArena(Arena.Commit(t, a)))
    ensures Enabled(c, s, Table(OwnerTable.InArena(Arena.Commit(t, a))))
    ensures var r := Apply(c, s, Table(OwnerTable.InArena(Arena.Commit(t, a)))); Inv(c, r) && Enabled(c, r, OpenIn(a, SmallIn(i)))
  {
    hide Inv, OwnerTable.Inv, OwnerTable.Apply, OwnerTable.Enabled, Arena.Inv, Ran, Registry.Inv, CanOpenOut, Has;
    StepInv(c, s, Table(OwnerTable.InArena(Arena.Commit(t, a))));
    TablesOk(s.w) by { RanOf(c, s); }
    CommitLive(s.w.table, t, a);
    AddrIndex(s.w, a);
  }

  /** The slice a step of the tables records, clears, discards or grows; none for a step inside a loop. */
  function Touches(e: OwnerTable.Step): set<nat> {
    match e
    case InArena(Discard(_, a)) => {a}
    case BeginSet(a, _, _) => {a}
    case BeginClear(a) => {a}
    case BeginGrow(a) => {a}
    case _ => {}
  }

  /** Open homes hold up no step of the tables that leaves their slices alone, and regions may grow. */
  lemma TablesGoOn(c: Config, s: State, e: OwnerTable.Step)
    requires Inv(c, s) && OwnerTable.Enabled(s.w.table, e)
    requires forall a :: a in Touches(e) && a in s.inside ==> e.BeginGrow? && s.inside[a].RegionIn?
    ensures Enabled(c, s, Table(e))
  {
    hide Inv, OwnerTable.Enabled;
  }

  ghost predicate Unnamed(s: Registry.State, h: nat) { h !in s.members && h !in s.pending.Values }

  /** Removing a region that no thread is about to insert leaves it unnamed, and then its mapping can be closed. */
  lemma RemovedIsUnnamed(s: Registry.State, h: nat)
    requires Registry.Inv(s) && h !in s.pending.Values
    ensures |s.buckets| == Registry.BUCKETS && Registry.Enabled(s, Registry.Unregister(h))
    ensures Unnamed(Registry.Apply(s, Registry.Unregister(h)), h)
  {
    Registry.UnregisterInv(s, h);
    hide Registry.Bucket, Registry.Represent;
  }

  lemma UnnamedCloses(c: Config, s: State, g: nat)
    requires Inv(c, s) && g in s.outside && s.outside[g].RegionOut?
    ensures s.outside[g].p > Regions.HEADER
    ensures Unnamed(s.w.registry, s.outside[g].p - Regions.HEADER) ==> Enabled(c, s, CloseOut(g))
    ensures Enabled(c, s, Reg(Registry.Unregister(s.outside[g].p - Regions.HEADER)))
  {
    assert OutOk(c, s.w, g, s.outside[g]);
    hide Ran, InOk, MappingsApart, Known, OutOk;
  }

  /** A recorded span can be opened for any class of its tier, and any mapping that meets nothing else can be
      opened as a page, a span or a region. */
  lemma EveryClassOpens(c: Config, s: State, a: nat, k: SideTable.Kind, i: nat, g: nat, o: OutHome, h: Regions.Header)
    requires Inv(c, s) && ConfigOk(c)
    ensures SpanReady(c, s, a, k, i) ==> Enabled(c, s, OpenIn(a, SpanIn(k, i)))
    ensures MappingReady(c, s, g, o, h) ==> Enabled(c, s, OpenOut(g, o, h))
  {
    hide Inv;
  }

  ghost predicate SpanReady(c: Config, s: State, a: nat, k: SideTable.Kind, i: nat) {
    && a !in s.inside && k != SideTable.Large && Recorded(s.w, a, k) && s.w.table.spans[a].owner == Addr(s.w, a)
    && i < |if k == SideTable.Medium then c.medium else c.big|
  }

  ghost predicate MappingReady(c: Config, s: State, g: nat, o: OutHome, h: Regions.Header) {
    && Len(o) > 0 && Outside(s.w, g, Len(o)) && g !in s.outside && g % PAGE == 0
    && (forall x :: x in s.outside ==> Apart(x, Len(s.outside[x]), g, Len(o)))
    && match o
       case SmallOut(i) => i < |c.small|
       case LegacyOut(i, _) => i < |c.medium|
       case RegionOut(p, m) =>
         h.base == g && h.mapped == m && h.requested >= 1 && p > Regions.HEADER && p % 16 == 0 && Regions.HeaderOk(h, p)
  }

  ghost predicate SameAt(w: World, x: World, q: nat) { x.pageAt(q) == w.pageAt(q) && x.masterAt(q) == w.masterAt(q) }

  lemma OpenedInWrites(w: World, a: nat, home: InHome, q: nat)
    requires q != Addr(w, a)
    ensures SameAt(w, OpenedIn(w, a, home), q) && OpenedIn(w, a, home).regions == w.regions
  {
  }

  lemma OpenedOutWrites(w: World, g: nat, o: OutHome, h: Regions.Header, q: nat)
    requires Len(o) > 0
    ensures !(g <= q < g + Len(o) && (q - g) % PAGE == 0) ==> SameAt(w, OpenedOut(w, g, o, h), q)
    ensures q in w.regions && !(o.RegionOut? && q + Regions.HEADER == o.p) ==>
              q in OpenedOut(w, g, o, h).regions && OpenedOut(w, g, o, h).regions[q] == w.regions[q]
  {
  }

  /** Opening a slice writes at its first byte only, opening a mapping at the first bytes of its pages and one
      region's header only, and no other step but a user's write touches memory. */
  lemma OpeningWritesItsOwn(c: Config, s: State, e: Step, q: nat)
    requires Inv(c, s) && Enabled(c, s, e) && !e.UserWrite?
    requires e.OpenIn? ==> q != Addr(s.w, e.a)
    requires e.OpenOut? ==> !(e.g <= q < e.g + Len(e.o) && (q - e.g) % PAGE == 0)
    ensures SameAt(s.w, Apply(c, s, e).w, q)
    ensures q !in s.w.regions || (e.OpenOut? && e.o.RegionOut? && q + Regions.HEADER == e.o.p) ||
            (q in Apply(c, s, e).w.regions && Apply(c, s, e).w.regions[q] == s.w.regions[q])
  {
    hide Inv, CanOpenIn, Outside, OwnerTable.Apply, Registry.Apply, Spares, OwnerTable.Enabled, Registry.Enabled, Known,
         OpenedIn, OpenedOut;
    match e
    case OpenIn(a, home) => OpenedInWrites(s.w, a, home, q);
    case OpenOut(g, o, h) => OpenedOutWrites(s.w, g, o, h, q);
    case _ =>
  }

  /** What the user writes into its block is what the memory then holds there, and nothing else changes. */
  lemma WriteLands(c: Config, s: State, q: nat, page: Magic, m: Master, b: Block, p: nat, site: Site)
    requires Inv(c, s) && Has(c, s, b, p, site) && p <= q && q - p < b.usable
    ensures Enabled(c, s, UserWrite(q, page, m, b, p, site))
    ensures var r := Apply(c, s, UserWrite(q, page, m, b, p, site));
            && r.w.pageAt(q) == page && r.w.masterAt(q) == m && r.inside == s.inside && r.outside == s.outside
            && (forall x: nat :: x != q ==> r.w.pageAt(x) == s.w.pageAt(x) && r.w.masterAt(x) == s.w.masterAt(x))
            && r.w.regions == s.w.regions && r.w.table == s.w.table && r.w.registry == s.w.registry
  {
    hide Ran, InOk, OutOk, MappingsApart, Has, Known;
  }

  // --------------------------------------------------------------- theorems

  /** In every run of mapping, carving, recording, growing, clearing, registering, unmapping and writing,
      and after every history of reallocs, both frees of a block that an open page, span or region handed
      out find the tier and class it was carved from. */
  lemma FreesFindEveryHome(c: Config, s0: State, es: seq<Step>, s: State, b: Block, bigOk: bool, h: seq<Request>, p: nat, site: Site)
    requires ConfigOk(c) && Allocated(c, b, bigOk) && HistoryOk(c, b, h)
    requires Inv(c, s0) && Runs(c, s0, es, s) && Has(c, s, AfterAll(c, b, h), p, site)
    ensures |s.w.registry.buckets| == Registry.BUCKETS && FreesFind(c, AfterAll(c, b, h), Read(s.w, p))
  {
    RunsInv(c, s0, es, s);
    HasLives(c, s, AfterAll(c, b, h), p, site);
    assert Ran(s.w);
    hide Inv, Has, Runs, ConfigOk, Allocated, HistoryOk, AfterAll, Lives, FreesFind, Read, Running;
    var size, ts, rs :| Running(s.w, size, ts, rs);
    BothFreesFindTheHeap(c, b, bigOk, h, s.w, p, site, size, ts, rs);
  }

  /** In every run no two different blocks that open homes handed out share a byte, in the arena or outside. */
  lemma BlocksShareNothing(c: Config, s0: State, es: seq<Step>, s: State, b: Block, p: nat, x: Site, d: Block, q: nat, y: Site)
    requires Inv(c, s0) && Runs(c, s0, es, s) && Has(c, s, b, p, x) && Has(c, s, d, q, y)
    requires b.arena == d.arena ==> Different(s.w, b, p, x, d, q, y)
    ensures p + b.usable <= q || q + d.usable <= p
  {
    RunsInv(c, s0, es, s);
    hide Inv, Has, Runs, Different;
    if b.arena && d.arena {
      ArenaBlocks(c, s, b, p, x, d, q, y);
    } else if b.arena {
      AcrossBlocks(c, s, b, p, x, d, q, y);
    } else if d.arena {
      AcrossBlocks(c, s, d, q, y, b, p, x);
    } else {
      OutsideBlocks(c, s, b, p, x, d, q, y);
    }
  }

  /** Two blocks at different places: different sites, or, of one chunk of a span outside the arena, different
      slots of the chunk. */
  ghost predicate Different(w: World, b: Block, p: nat, x: Site, d: Block, q: nat, y: Site) {
    && (x.LegacyRegion? && y.LegacyRegion? ==> p != q)
    && (x == y && !x.LegacyRegion? ==>
          exists i: nat, j: nat :: i != j && ChunkSlot(x, b.usable, i, p) && ChunkSlot(y, b.usable, j, q))
  }

  /** The `i`-th slot of a chunk. */
  ghost predicate ChunkSlot(x: Site, size: nat, i: nat, p: nat) {
    x.LegacySlot? && p == Carve.SlotAt(x.base + x.chunk * PAGE + (if x.chunk == 0 then Carve.MASTER else Carve.SUB_HEADER), size, i)
  }

  lemma ArenaBlocks(c: Config, s: State, b: Block, p: nat, x: Site, d: Block, q: nat, y: Site)
    requires Inv(c, s) && Has(c, s, b, p, x) && Has(c, s, d, q, y) && b.arena && d.arena && Different(s.w, b, p, x, d, q, y)
    ensures p + b.usable <= q || q + d.usable <= p
  {
    HasLives(c, s, b, p, x);
    HasLives(c, s, d, q, y);
    var size, ts, rs :| Running(s.w, size, ts, rs);
    assert x != y;
    hide Inv, Has, Lives, Different;
    BlocksApart(c, s.w, size, ts, b, p, x, d, q, y);
  }

  lemma AcrossBlocks(c: Config, s: State, b: Block, p: nat, x: Site, d: Block, q: nat, y: Site)
    requires Inv(c, s) && Has(c, s, b, p, x) && Has(c, s, d, q, y) && b.arena && !d.arena
    ensures p + b.usable <= q || q + d.usable <= p
  {
    InsideAboveHeader(c, s, b, p, x);
    TablesOk(s.w);
    SliceInTable(s.w, SliceOf(s.w, x));
    HasRoom(c, s, d, q, y);
    OutsideOffHeaders(c, s, d, q, y, q);
    OutsideOffHeaders(c, s, d, q, y, q + d.usable - 1);
    var g := BaseOf(s.w, q, y);
    assert OutOk(c, s.w, g, s.outside[g]);
    hide Inv, Has, BaseOf, SliceOf, IsHeader;
  }

  lemma HasRoom(c: Config, s: State, b: Block, p: nat, site: Site)
    requires Has(c, s, b, p, site)
    ensures b.usable > 0
  {
  }

  lemma OutsideBlocks(c: Config, s: State, b: Block, p: nat, x: Site, d: Block, q: nat, y: Site)
    requires Inv(c, s) && Has(c, s, b, p, x) && Has(c, s, d, q, y) && !b.arena && !d.arena && Different(s.w, b, p, x, d, q, y)
    ensures p + b.usable <= q || q + d.usable <= p
  {
    HasRoom(c, s, b, p, x);
    HasRoom(c, s, d, q, y);
    OutsideOffHeaders(c, s, b, p, x, p);
    OutsideOffHeaders(c, s, b, p, x, p + b.usable - 1);
    OutsideOffHeaders(c, s, d, q, y, q);
    OutsideOffHeaders(c, s, d, q, y, q + d.usable - 1);
    var g, k := BaseOf(s.w, p, x), BaseOf(s.w, q, y);
    if g == k {
      SameMapping(c, s, b, p, x, d, q, y);
    } else {
      assert Apart(g, Len(s.outside[g]), k, Len(s.outside[k]));
    }
  }

  lemma SameMapping(c: Config, s: State, b: Block, p: nat, x: Site, d: Block, q: nat, y: Site)
    requires Has(c, s, b, p, x) && Has(c, s, d, q, y) && !b.arena && !d.arena && Different(s.w, b, p, x, d, q, y)
    requires BaseOf(s.w, p, x) == BaseOf(s.w, q, y)
    ensures p + b.usable <= q || q + d.usable <= p
  {
    if x.SmallSlot? {
      SlotsApart(x.base + Carve.PAGE_HEADER, b.usable, if x.slot < y.slot then x.slot else y.slot, if x.slot < y.slot then y.slot else x.slot);
    } else if x.LegacySlot? {
      if x.chunk < y.chunk {
        PagesOrdered(x.base, x.chunk + 1, y.chunk);
      } else if y.chunk < x.chunk {
        PagesOrdered(x.base, y.chunk + 1, x.chunk);
      } else {
        var i: nat, j: nat :| i != j && ChunkSlot(x, b.usable, i, p) && ChunkSlot(y, b.usable, j, q);
        var at := x.base + x.chunk * PAGE + (if x.chunk == 0 then Carve.MASTER else Carve.SUB_HEADER);
        SlotsApart(at, b.usable, if i < j then i else j, if i < j then j else i);
      }
    }
  }
}
