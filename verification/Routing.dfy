/**
 Which tier serves an allocation, where a free goes, and what a realloc keeps
 (src/lib.rs): layout-routed free, pointer-routed free and every realloc path
 must agree with the choice made when the block was allocated.
 */
module Routing {
  import opened Classes
  import Regions
  import SideTable

  /** The class tables, as the builders of module Classes produce them. */
  datatype Config = Config(small: seq<nat>, medium: seq<nat>, big: seq<nat>)

  ghost predicate ConfigOk(c: Config) {
    Table(c.small, MAX_SMALL_SIZE) && Table(c.medium, MAX_MEDIUM_BLOCK) && Table(c.big, MAX_BIG_BLOCK)
  }

  datatype Kind = Small(cls: nat) | Medium(cls: nat) | Big(cls: nat) | Large

  /** A live block: the heap it was carved from, the bytes it may use, whether it lies in the arena,
      the layout its owner will free it with, and the size a large region's header records. */
  datatype Block = Block(kind: Kind, usable: nat, arena: bool, size: nat, align: nat, requested: nat)

  function ClassOf(t: seq<nat>, size: nat): nat
    requires t != []
  {
    Scan(t, size, 0)
  }

  predicate NeedsLarge(size: nat, align: nat) { align > MIN_ALIGN || size > MAX_BIG_BLOCK }

  /** The tier chosen for a request; `bigOk` is false when no big block could be had and the request
      falls back to a large region. */
  function Tier(c: Config, size: nat, align: nat, bigOk: bool): (r: Kind)
    requires ConfigOk(c)
  {
    if size <= MAX_SMALL_SIZE && align <= MIN_ALIGN then Small(ClassOf(c.small, size))
    else if NeedsLarge(size, align) then Large
    else if size > MAX_MEDIUM_BLOCK then (if bigOk then Big(ClassOf(c.big, size)) else Large)
    else Medium(ClassOf(c.medium, size))
  }

  /** What the class of a packed block can hold. */
  function ClassSize(c: Config, k: Kind): nat
  {
    match k
    case Small(i) => if i < |c.small| then c.small[i] else 0
    case Medium(i) => if i < |c.medium| then c.medium[i] else 0
    case Big(i) => if i < |c.big| then c.big[i] else 0
    case Large => 0
  }

  // ------------------------------------------------------------------ frees

  /** What stands at the start of the 64 KiB page an address lies in: a small page's header, a span's
      master or a sub-header pointing to it, or anything else, such as user data. */
  datatype Magic = PageMagic(cls: nat) | SpanMagic(master: nat) | OtherData

  /** The header of a medium or big span. */
  datatype Master = Master(cls: nat, bytes: nat)

  /** What a free reads for the pointer `p`: whether it lies in the arena, the side-table word of its page,
      whether the registry knows a valid region there, the start of its page, and headers by address. */
  datatype Reading = Reading(p: nat, arena: bool, word: nat, registered: bool, page: Magic, masterAt: nat -> Master)

  datatype Finding = Corrupt | Found(kind: Kind)

  function Entry(k: SideTable.Kind, r: Reading): nat { SideTable.Get(k, r.word) }

  /** The ownership check of a master at address `m`. */
  predicate Contains(r: Reading, m: nat) { m < r.p < m + r.masterAt(m).bytes }

  /** Layout-routed free. In the range shared by big blocks and large regions it consults the side table. */
  function FreeByLayout(c: Config, r: Reading, size: nat, align: nat): (f: Finding)
    requires ConfigOk(c)
  {
    if size <= MAX_SMALL_SIZE && align <= MIN_ALIGN then Found(Small(ClassOf(c.small, size)))
    else if NeedsLarge(size, align) then Found(Large)
    else if size > MAX_MEDIUM_BLOCK then
      if !r.arena then Found(Large)
      else if Entry(SideTable.Large, r) != 0 then Found(Large)
      else if Entry(SideTable.Big, r) == 0 then Corrupt
      else Found(Big(r.masterAt(Entry(SideTable.Big, r)).cls))
    else Found(Medium(ClassOf(c.medium, size)))
  }

  /** Pointer-routed free: in the arena the three lookups of the page's word, large first, then the page
      header; outside it the registry, then the start of the page. */
  function FreeByPointer(r: Reading): (f: Finding)
  {
    if r.arena then
      if Entry(SideTable.Large, r) != 0 then Found(Large)
      else if Entry(SideTable.Medium, r) != 0 then
        var m := Entry(SideTable.Medium, r);
        if Contains(r, m) then Found(Medium(r.masterAt(m).cls)) else Corrupt
      else if Entry(SideTable.Big, r) != 0 then
        var m := Entry(SideTable.Big, r);
        if Contains(r, m) then Found(Big(r.masterAt(m).cls)) else Corrupt
      else if r.page.PageMagic? then Found(Small(r.page.cls))
      else Corrupt
    else if r.registered then Found(Large)
    else if r.page.PageMagic? then Found(Small(r.page.cls))
    else if r.page.SpanMagic? && Contains(r, r.page.master) then Found(Medium(r.masterAt(r.page.master).cls))
    else Corrupt
  }

  /** The word of the page names a master of kind `k` and class `cls` that contains the pointer. */
  ghost predicate Names(r: Reading, k: SideTable.Kind, cls: nat) {
    && Entry(k, r) != 0 && (forall j :: j != k ==> Entry(j, r) == 0)
    && r.masterAt(Entry(k, r)).cls == cls && Contains(r, Entry(k, r))
  }

  /** What the tables and headers say about the address of a live block. That they do say so in every run
      is proved in module Dispatch. */
  ghost predicate ReadingOf(b: Block, r: Reading) {
    && r.arena == b.arena
    && match b.kind
       case Large => if b.arena then Entry(SideTable.Large, r) != 0 else r.registered
       case Medium(i) =>
         if b.arena then Names(r, SideTable.Medium, i)
         else !r.registered && r.page.SpanMagic? && Contains(r, r.page.master) && r.masterAt(r.page.master).cls == i
       case Big(i) => b.arena && Names(r, SideTable.Big, i)
       case Small(i) =>
         && (if b.arena then forall j :: Entry(j, r) == 0 else !r.registered)
         && r.page == PageMagic(i)
  }

  /** The layout a block is freed with leads to the heap it was carved from, up to what the table decides. */
  ghost predicate LayoutAgrees(c: Config, b: Block)
    requires ConfigOk(c)
  {
    if b.size <= MAX_SMALL_SIZE && b.align <= MIN_ALIGN then b.kind == Small(ClassOf(c.small, b.size))
    else if NeedsLarge(b.size, b.align) then b.kind == Large
    else if b.size > MAX_MEDIUM_BLOCK then b.kind.Large? || b.kind.Big?
    else b.kind == Medium(ClassOf(c.medium, b.size))
  }

  /** What holds of every live block between operations. */
  ghost predicate Routed(c: Config, b: Block)
    requires ConfigOk(c)
  {
    && b.size > 0 && LayoutAgrees(c, b)
    && (!b.kind.Large? ==> b.usable == ClassSize(c, b.kind))
    && (b.kind.Big? ==> b.arena && b.kind.cls == ClassOf(c.big, b.size))
    && (NeedsLarge(b.size, b.align) ==> b.requested == b.size)
  }

  /** Both frees, reading the tables for a live block's address, find its tier and class. */
  ghost predicate FreesFind(c: Config, b: Block, r: Reading)
    requires ConfigOk(c)
  {
    FreeByLayout(c, r, b.size, b.align) == Found(b.kind) && FreeByPointer(r) == Found(b.kind)
  }

  lemma RoutedIsFound(c: Config, b: Block, r: Reading)
    requires ConfigOk(c) && Routed(c, b) && ReadingOf(b, r)
    ensures FreesFind(c, b, r)
  {
    hide ConfigOk, ClassOf, Entry, ClassSize;
  }

  /** Whatever a free reads, for a live block or a stray pointer: a span is only answered if it holds the
      pointer, a small page only if its header says so, and the layout alone never sends a block of the shared
      range to a span the table does not name. */
  lemma FreesAreChecked(c: Config, r: Reading, size: nat, align: nat)
    requires ConfigOk(c)
    ensures var f := FreeByPointer(r);
            && (f.Found? && f.kind.Small? ==> r.page == PageMagic(f.kind.cls))
            && (f.Found? && f.kind.Medium? ==> exists m: nat :: m < r.p < m + r.masterAt(m).bytes && r.masterAt(m).cls == f.kind.cls)
            && (f.Found? && f.kind.Big? ==> r.arena && exists m: nat :: m < r.p < m + r.masterAt(m).bytes && r.masterAt(m).cls == f.kind.cls)
            && (f == Found(Large) ==> if r.arena then Entry(SideTable.Large, r) != 0 else r.registered)
    ensures var f := FreeByLayout(c, r, size, align);
            && (f == Corrupt ==> r.arena && Entry(SideTable.Large, r) == 0 && Entry(SideTable.Big, r) == 0)
            && (f.Found? && f.kind.Big? ==> r.arena && Entry(SideTable.Big, r) != 0)
  {
    hide ConfigOk, ClassOf, Entry;
  }

  ghost predicate Fits(b: Block) { b.size <= b.usable }

  /** A freshly allocated block: big spans exist only in the arena, and a large region is as long as asked. */
  ghost predicate Allocated(c: Config, b: Block, bigOk: bool)
    requires ConfigOk(c)
  {
    && b.size > 0 && b.kind == Tier(c, b.size, b.align, bigOk) && b.requested == b.size
    && (b.kind.Big? ==> b.arena)
    && (if b.kind.Large? then b.usable >= b.size else b.usable == ClassSize(c, b.kind))
  }

  lemma ClassHolds(t: seq<nat>, max: nat, size: nat)
    requires Table(t, max) && size <= max
    ensures Smallest(t, size, ClassOf(t, size))
  {
    ScanFrom(t, size, 0);
  }

  /** Every allocation outcome holds the request and is freed, by layout and by pointer, into the tier and
      class it came from. */
  lemma AllocationIsRouted(c: Config, b: Block, bigOk: bool)
    requires ConfigOk(c) && Allocated(c, b, bigOk)
    ensures Routed(c, b) && Fits(b)
    ensures forall r :: ReadingOf(b, r) ==> FreesFind(c, b, r)
  {
    if b.kind.Small? {
      ClassHolds(c.small, MAX_SMALL_SIZE, b.size);
    } else if b.kind.Medium? {
      ClassHolds(c.medium, MAX_MEDIUM_BLOCK, b.size);
    } else if b.kind.Big? {
      ClassHolds(c.big, MAX_BIG_BLOCK, b.size);
    }
    hide ReadingOf, FreesFind, ConfigOk, ClassOf;
    forall r | ReadingOf(b, r) ensures FreesFind(c, b, r) {
      RoutedIsFound(c, b, r);
    }
  }

  /** Which tier serves a request, over all sizes and alignments, and in it always the smallest class. */
  lemma TierExact(c: Config, size: nat, align: nat, bigOk: bool)
    requires ConfigOk(c)
    ensures var k := Tier(c, size, align, bigOk);
            && (k.Small? <==> size <= MAX_SMALL_SIZE && align <= MIN_ALIGN)
            && (k.Medium? <==> MAX_SMALL_SIZE < size <= MAX_MEDIUM_BLOCK && align <= MIN_ALIGN)
            && (k.Big? <==> MAX_MEDIUM_BLOCK < size <= MAX_BIG_BLOCK && align <= MIN_ALIGN && bigOk)
            && (k.Small? ==> Smallest(c.small, size, k.cls))
            && (k.Medium? ==> Smallest(c.medium, size, k.cls))
            && (k.Big? ==> Smallest(c.big, size, k.cls))
  {
    var k := Tier(c, size, align, bigOk);
    if k.Small? {
      ClassHolds(c.small, MAX_SMALL_SIZE, size);
    } else if k.Medium? {
      ClassHolds(c.medium, MAX_MEDIUM_BLOCK, size);
    } else if k.Big? {
      ClassHolds(c.big, MAX_BIG_BLOCK, size);
    }
    hide ConfigOk, ClassOf, Smallest;
  }

  // ---------------------------------------------------------------- realloc

  /** What the environment supplies: where and how large a new block is, whether each attempt works. */
  datatype Env = Env(ptr: nat, usable: nat, arena: bool, bigOk: bool, allocOk: bool, promoteOk: bool, growOk: bool)

  datatype Outcome = Same | GrownInPlace | Relocated | Failed

  predicate SameClass(c: Config, b: Block, want: nat)
    requires ConfigOk(c)
  {
    && b.align <= MIN_ALIGN
    && (|| (b.size <= MAX_SMALL_SIZE && want <= MAX_SMALL_SIZE && ClassOf(c.small, b.size) == ClassOf(c.small, want))
        || (MAX_SMALL_SIZE < b.size <= MAX_MEDIUM_BLOCK && MAX_SMALL_SIZE < want <= MAX_MEDIUM_BLOCK
            && ClassOf(c.medium, b.size) == ClassOf(c.medium, want))
        || SameBigClass(c, b, want))
  }

  /** The identity test of the big range looks at the two sizes only, not at where the block came from. */
  predicate SameBigClass(c: Config, b: Block, want: nat)
    requires ConfigOk(c)
  {
    && b.align <= MIN_ALIGN
    && MAX_MEDIUM_BLOCK < b.size <= MAX_BIG_BLOCK && MAX_MEDIUM_BLOCK < want <= MAX_BIG_BLOCK
    && ClassOf(c.big, b.size) == ClassOf(c.big, want)
  }

  predicate BothSmall(b: Block, want: nat) { b.align <= MIN_ALIGN && b.size <= MAX_SMALL_SIZE && want <= MAX_SMALL_SIZE }

  /** A packed big block that crosses classes upwards is promoted into a reserve. */
  predicate Promotes(c: Config, b: Block, want: nat) {
    && b.align <= MIN_ALIGN && MAX_MEDIUM_BLOCK < b.size <= MAX_BIG_BLOCK && MAX_MEDIUM_BLOCK < want <= MAX_BIG_BLOCK
    && b.arena && b.kind.Big? && want > ClassSize(c, b.kind) && want < MAX_BIG_BLOCK
  }

  /** Whether the in-place growth of a large region in the arena is attempted. It compares
      with the size in the region's header, which the identity path does not update. */
  predicate TriesGrowth(b: Block, want: nat) {
    && b.kind.Large? && b.arena && want > b.requested
    && ((b.align <= MIN_ALIGN && b.size > MAX_MEDIUM_BLOCK && want > MAX_MEDIUM_BLOCK) || NeedsLarge(b.size, b.align))
  }

  /** The same tests as the code makes them, on what it reads. */
  predicate PromotesBy(c: Config, r: Reading, size: nat, align: nat, want: nat) {
    && align <= MIN_ALIGN && MAX_MEDIUM_BLOCK < size <= MAX_BIG_BLOCK && MAX_MEDIUM_BLOCK < want <= MAX_BIG_BLOCK
    && r.arena && Entry(SideTable.Large, r) == 0 && Entry(SideTable.Big, r) != 0
    && want > ClassSize(c, Big(r.masterAt(Entry(SideTable.Big, r)).cls)) && want < MAX_BIG_BLOCK
  }

  predicate TriesGrowthBy(r: Reading, size: nat, align: nat, requested: nat, want: nat) {
    && r.arena && Entry(SideTable.Large, r) != 0 && want > requested
    && ((align <= MIN_ALIGN && size > MAX_MEDIUM_BLOCK && want > MAX_MEDIUM_BLOCK) || NeedsLarge(size, align))
  }

  /** What realloc reads tells it exactly whether the block is a packed big one or a region in the arena. */
  lemma ReallocTestsExact(c: Config, b: Block, r: Reading, want: nat)
    requires ReadingOf(b, r)
    ensures PromotesBy(c, r, b.size, b.align, want) <==> Promotes(c, b, want)
    ensures TriesGrowthBy(r, b.size, b.align, b.requested, want) <==> TriesGrowth(b, want)
    ensures !b.kind.Large? && b.arena ==> Entry(SideTable.Large, r) == 0
  {
    OneEntry(r);
    hide SideTable.Get;
  }

  lemma OneEntry(r: Reading)
    ensures Entry(SideTable.Large, r) != 0 ==> Entry(SideTable.Big, r) == 0
  {
  }

  /** The path a nonzero realloc of a live block takes. */
  function Path(c: Config, b: Block, want: nat, env: Env): (r: Outcome)
    requires ConfigOk(c)
  {
    if SameClass(c, b, want) then Same
    else if BothSmall(b, want) then (if env.allocOk then Relocated else Failed)
    else if Promotes(c, b, want) && env.promoteOk then Relocated
    else if TriesGrowth(b, want) && env.growOk then GrownInPlace
    else if env.allocOk then Relocated
    else Failed
  }

  /** The block after the realloc. */
  function After(c: Config, b: Block, want: nat, env: Env): (r: Block)
    requires ConfigOk(c)
  {
    match Path(c, b, want, env)
    case Same => b.(size := want)
    case GrownInPlace => b.(size := want, requested := want, usable := env.usable)
    case Failed => b
    case Relocated =>
      if !SameClass(c, b, want) && !BothSmall(b, want) && Promotes(c, b, want) && env.promoteOk then
        Block(Large, env.usable, env.arena, want, b.align, want)
      else
        var k := Tier(c, want, b.align, env.bigOk);
        Block(k, if k.Large? then env.usable else ClassSize(c, k), env.arena, want, b.align, want)
  }

  /** Both sizes have the same smallest class of one table. */
  ghost predicate Share(t: seq<nat>, lo: nat, hi: nat, a: nat, b: nat) {
    lo < a <= hi && lo < b <= hi && exists i: nat :: Smallest(t, a, i) && Smallest(t, b, i)
  }

  /** The old and the new size belong to one class of one tier. */
  ghost predicate SharesClass(c: Config, b: Block, want: nat) {
    && b.align <= MIN_ALIGN
    && (|| Share(c.small, 0, MAX_SMALL_SIZE, b.size, want)
        || Share(c.medium, MAX_SMALL_SIZE, MAX_MEDIUM_BLOCK, b.size, want)
        || Share(c.big, MAX_MEDIUM_BLOCK, MAX_BIG_BLOCK, b.size, want))
  }

  lemma ShareExact(t: seq<nat>, lo: nat, hi: nat, a: nat, b: nat)
    requires Table(t, hi)
    ensures Share(t, lo, hi, a, b) <==> lo < a <= hi && lo < b <= hi && ClassOf(t, a) == ClassOf(t, b)
  {
    if lo < a <= hi && lo < b <= hi {
      ClassHolds(t, hi, a);
      ClassHolds(t, hi, b);
      hide ClassOf;
      if ClassOf(t, a) != ClassOf(t, b) {
        forall i: nat | Smallest(t, a, i) ensures !Smallest(t, b, i) {
          SmallestUnique(t, a, i, ClassOf(t, a));
          NotBoth(t, b, i, ClassOf(t, b));
        }
      }
    }
  }

  lemma NotBoth(t: seq<nat>, size: nat, i: nat, j: nat)
    requires Smallest(t, size, j) && i != j
    ensures !Smallest(t, size, i)
  {
  }

  /** A region in the arena whose in-place growth is attempted. */
  predicate Growable(b: Block, want: nat) {
    && b.kind.Large? && b.arena && want > b.requested
    && (b.align > MIN_ALIGN || b.size > MAX_BIG_BLOCK || (b.size > MAX_MEDIUM_BLOCK && want > MAX_MEDIUM_BLOCK))
  }

  /** A packed big block that outgrows its class below the cap. */
  predicate Promotable(c: Config, b: Block, want: nat) {
    && b.kind.Big? && b.arena && b.align <= MIN_ALIGN && MAX_MEDIUM_BLOCK < b.size <= MAX_BIG_BLOCK
    && b.kind.cls < |c.big| && c.big[b.kind.cls] < want < MAX_BIG_BLOCK && MAX_MEDIUM_BLOCK < want
  }

  /** When a realloc fails, stays, grows in place or moves, in terms of the block, the size and the
      environment alone; and what the block is afterwards. */
  lemma PathExact(c: Config, b: Block, want: nat, env: Env)
    requires ConfigOk(c) && Routed(c, b) && want > 0
    ensures var path, x := Path(c, b, want, env), After(c, b, want, env);
            && (path == Same <==> SharesClass(c, b, want))
            && (path == GrownInPlace <==> Growable(b, want) && env.growOk && !SharesClass(c, b, want))
            && (path == Failed <==> && !SharesClass(c, b, want) && !(Growable(b, want) && env.growOk)
                                    && !(Promotable(c, b, want) && env.promoteOk) && !env.allocOk)
            && (path == Failed ==> x == b)
            && (path == Same ==> x == b.(size := want))
            && (path == GrownInPlace ==> x == b.(size := want, requested := want, usable := env.usable))
            && (path == Relocated ==> && x.size == want == x.requested && x.align == b.align && x.arena == env.arena
                                      && (x.kind.Large? ==> x.usable == env.usable))
            && (path == Relocated && Promotable(c, b, want) && env.promoteOk ==> x.kind.Large?)
            && (path == Relocated && !(Promotable(c, b, want) && env.promoteOk) ==>
                  x.kind == Tier(c, want, b.align, env.bigOk) && (!x.kind.Large? ==> x.usable == ClassSize(c, x.kind)))
  {
    ShareExact(c.small, 0, MAX_SMALL_SIZE, b.size, want);
    ShareExact(c.medium, MAX_SMALL_SIZE, MAX_MEDIUM_BLOCK, b.size, want);
    ShareExact(c.big, MAX_MEDIUM_BLOCK, MAX_BIG_BLOCK, b.size, want);
    BigClassInTable(c, b);
    hide ConfigOk, ClassOf, Share, Tier;
  }

  lemma BigClassInTable(c: Config, b: Block)
    requires ConfigOk(c) && Routed(c, b)
    ensures b.kind.Big? ==> b.kind.cls < |c.big|
  {
  }

  /** The environment keeps its side: a region is as long as asked, and big blocks come from the arena. */
  ghost predicate EnvOk(c: Config, b: Block, want: nat, env: Env)
    requires ConfigOk(c)
  {
    && env.usable >= want
    && (Tier(c, want, b.align, env.bigOk).Big? ==> env.arena)
  }

  /** In-place growth of the model is that of the region's header: if the block matches its header before,
      it does afterwards, and has the room asked for. */
  lemma GrowthIsRegionGrowth(c: Config, b: Block, want: nat, env: Env, h: Regions.Header, p: nat, frontier: bool)
    requires ConfigOk(c) && Regions.HeaderOk(h, p) && b.usable == Regions.Capacity(h, p) && b.requested == h.requested
    requires var g := Regions.Grow(h, p, want, b.arena, frontier);
             env.growOk == !g.Refused? && (env.growOk ==> env.usable == Regions.Capacity(g.header, p))
    ensures Path(c, b, want, env) == GrownInPlace ==>
              var g := Regions.Grow(h, p, want, b.arena, frontier);
              var x := After(c, b, want, env);
              && !g.Refused? && Regions.HeaderOk(g.header, p) && x.usable == Regions.Capacity(g.header, p)
              && x.requested == g.header.requested == want && want <= x.usable && b.usable <= x.usable
  {
    Regions.GrowKeepsSound(h, p, want, b.arena, frontier);
    hide ConfigOk, ClassOf, Tier, Regions.PagesUp, Regions.PointerAlignment;
  }

  /** Whatever path a realloc takes, the block is still freed into the heap it was carved from. */
  lemma ReallocIsRouted(c: Config, b: Block, want: nat, env: Env)
    requires ConfigOk(c) && Routed(c, b) && want > 0 && EnvOk(c, b, want, env)
    ensures Routed(c, After(c, b, want, env))
  {
    var r := After(c, b, want, env);
    match Path(c, b, want, env)
    case Same =>
    case GrownInPlace =>
    case Failed =>
    case Relocated =>
      if r.kind == Tier(c, want, b.align, env.bigOk) {
        AllocationIsRouted(c, r, env.bigOk);
      }
  }

  /** A realloc that reports success leaves room for the new size if and only if it is not the identity
      path of the big range taken for a large region shorter than the new size. */
  lemma ReallocFitsExactly(c: Config, b: Block, want: nat, env: Env)
    requires ConfigOk(c) && Routed(c, b) && Fits(b) && want > 0 && EnvOk(c, b, want, env)
    requires Path(c, b, want, env) != Failed
    ensures Fits(After(c, b, want, env)) <==> !(SameBigClass(c, b, want) && b.kind.Large? && want > b.usable)
  {
    var r := After(c, b, want, env);
    match Path(c, b, want, env)
    case Same => SameClassFits(c, b, want);
    case GrownInPlace =>
    case Relocated =>
      if r.kind == Tier(c, want, b.align, env.bigOk) {
        AllocationIsRouted(c, r, env.bigOk);
      }
  }

  /** A packed block's class holds every size of the class. */
  lemma SameClassFits(c: Config, b: Block, want: nat)
    requires ConfigOk(c) && Routed(c, b) && SameClass(c, b, want)
    ensures !b.kind.Large? ==> want <= b.usable
  {
    if b.size <= MAX_SMALL_SIZE && want <= MAX_SMALL_SIZE {
      ClassHolds(c.small, MAX_SMALL_SIZE, want);
    } else if SameBigClass(c, b, want) {
      ClassHolds(c.big, MAX_BIG_BLOCK, want);
    } else {
      ClassHolds(c.medium, MAX_MEDIUM_BLOCK, want);
    }
  }

  // ------------------------------------------- a same-class realloc that overruns

  lemma BigChainPrefix()
    ensures var t := Chain(MAX_MEDIUM_BLOCK, MAX_BIG_BLOCK);
            |t| > 5 && t[..6] == [73664, 82880, 93248, 104912, 118032, 132800]
  {
    BigSteps();
    hide Step, Chain;
    ChainHead(65472, 73664);
    ChainHead(73664, 82880);
    ChainHead(82880, 93248);
    ChainHead(93248, 104912);
    ChainHead(104912, 118032);
    ChainHead(118032, 132800);
  }

  lemma BigSteps()
    ensures Step(65472) == 73664 && Step(73664) == 82880 && Step(82880) == 93248
    ensures Step(93248) == 104912 && Step(104912) == 118032 && Step(118032) == 132800
  {
    hide Step;
    StepAt(65472, 73656, 4604);
    StepAt(73664, 82872, 5180);
    StepAt(82880, 93240, 5828);
    StepAt(93248, 104904, 6557);
    StepAt(104912, 118026, 7377);
    StepAt(118032, 132786, 8300);
  }

  lemma StepAt(size: nat, eighth: nat, r: nat)
    requires 8 * eighth <= size * 9 + 7 < 8 * eighth + 8 && 16 * r <= eighth + 15 < 16 * r + 16
    ensures Step(size) == 16 * r
  {
    Sixteenth(eighth + 15, r);
    assert (size * 9 + 7) / 8 == eighth;
  }

  lemma ChainHead(from: nat, next: nat)
    requires 0 < from < MAX_BIG_BLOCK && Step(from) == next <= MAX_BIG_BLOCK
    ensures Chain(from, MAX_BIG_BLOCK) == [next] + Chain(next, MAX_BIG_BLOCK)
  {
    hide Step;
  }

  lemma SizesShareAClass(t: seq<nat>)
    requires Table(t, MAX_BIG_BLOCK) && |t| > 5 && t[..6] == [73664, 82880, 93248, 104912, 118032, 132800]
    ensures ClassOf(t, 131000) == 5 == ClassOf(t, 132800)
  {
    assert t[0] == t[..6][0] && t[1] == t[..6][1] && t[2] == t[..6][2];
    assert t[3] == t[..6][3] && t[4] == t[..6][4] && t[5] == t[..6][5];
    ClassHolds(t, MAX_BIG_BLOCK, 131000);
    ClassHolds(t, MAX_BIG_BLOCK, 132800);
    SmallestUnique(t, 131000, ClassOf(t, 131000), 5);
    SmallestUnique(t, 132800, ClassOf(t, 132800), 5);
  }

  /** A request of 131000 bytes that fell back to a large region gets 131024 usable bytes; growing it to
      132800, which is in the same big class, returns the pointer unchanged. */
  lemma BigIdentityCanOverrun(c: Config, base: nat, env: Env)
    requires ConfigOk(c) && c.big == Chain(MAX_MEDIUM_BLOCK, MAX_BIG_BLOCK) && base % 65536 == 0
    ensures Regions.Mapped(131000, 16, 0) == Regions.Some(131072) && Regions.Place(base, 16) == base + 48
    ensures Overruns(c, Block(Large, 131072 - 48, false, 131000, 16, 131000), 132800, env)
  {
    BigChainPrefix();
    SizesShareAClass(c.big);
    FallbackPlace(base);
    hide ClassOf, Table, Chain, Overruns, Regions.Mapped, Regions.Place;
    FallbackOverruns(c, env);
  }

  lemma FallbackPlace(base: nat)
    requires base % 65536 == 0
    ensures Regions.Mapped(131000, 16, 0) == Regions.Some(131072) && Regions.Place(base, 16) == base + 48
  {
    var k := base / 65536;
    Sixteenth(base + 63, 4096 * k + 3);
    hide Regions.Mapped;
    FallbackMapped();
  }

  lemma FallbackMapped()
    ensures Regions.Mapped(131000, 16, 0) == Regions.Some(131072)
  {
    assert (131000 + 16 + 48 + 65535) / 65536 == 2;
  }

  lemma Sixteenth(x: nat, q: nat)
    requires 16 * q <= x < 16 * q + 16
    ensures x / 16 == q
  {
  }

  lemma FallbackOverruns(c: Config, env: Env)
    requires ConfigOk(c) && ClassOf(c.big, 131000) == ClassOf(c.big, 132800)
    ensures Overruns(c, Block(Large, 131072 - 48, false, 131000, 16, 131000), 132800, env)
  {
    hide ClassOf, Table;
    AllocationIsRouted(c, Block(Large, 131072 - 48, false, 131000, 16, 131000), false);
  }

  /** An allocated block whose realloc reports success without room for the new size. */
  ghost predicate Overruns(c: Config, b: Block, want: nat, env: Env)
    requires ConfigOk(c)
  {
    && Allocated(c, b, false) && Routed(c, b) && Fits(b)
    && Path(c, b, want, env) == Same && !Fits(After(c, b, want, env))
  }

  // -------------------------------------------------------------- histories

  datatype Request = Request(want: nat, env: Env)

  /** The block after a whole history of reallocs. */
  function AfterAll(c: Config, b: Block, h: seq<Request>): (r: Block)
    requires ConfigOk(c)
    decreases |h|
  {
    if h == [] then b else AfterAll(c, After(c, b, h[0].want, h[0].env), h[1..])
  }

  ghost predicate HistoryOk(c: Config, b: Block, h: seq<Request>)
    requires ConfigOk(c)
    decreases |h|
  {
    h == [] || (&& h[0].want > 0 && EnvOk(c, b, h[0].want, h[0].env)
                && HistoryOk(c, After(c, b, h[0].want, h[0].env), h[1..]))
  }

  /** After any history of reallocs, along any paths, both frees still find the heap the block was carved from. */
  lemma {:induction false} HistoryIsRouted(c: Config, b: Block, bigOk: bool, h: seq<Request>)
    requires ConfigOk(c) && Allocated(c, b, bigOk) && HistoryOk(c, b, h)
    ensures var x := AfterAll(c, b, h); Routed(c, x) && forall r :: ReadingOf(x, r) ==> FreesFind(c, x, r)
  {
    hide ReadingOf, FreesFind, ConfigOk, Routed, HistoryOk, AfterAll;
    AllocationIsRouted(c, b, bigOk);
    RoutedHistory(c, b, h);
    var x := AfterAll(c, b, h);
    forall r | ReadingOf(x, r) ensures FreesFind(c, x, r) {
      RoutedIsFound(c, x, r);
    }
  }

  lemma {:induction false} RoutedHistory(c: Config, b: Block, h: seq<Request>)
    requires ConfigOk(c) && Routed(c, b) && HistoryOk(c, b, h)
    ensures Routed(c, AfterAll(c, b, h))
    decreases |h|
  {
    hide ConfigOk, Routed, After, EnvOk;
    if h != [] {
      ReallocIsRouted(c, b, h[0].want, h[0].env);
      RoutedHistory(c, After(c, b, h[0].want, h[0].env), h[1..]);
    }
  }
}
