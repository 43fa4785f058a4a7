/**
 The C entry point `realloc` (src/lib.rs): it knows no layout, finds the block's
 owner through the tables, and copies as much as the old block can hold.
 */
module CRealloc {
  import opened Classes
  import opened Routing
  import opened Contents
  import Regions

  const ISIZE_MAX: nat := 0x7FFF_FFFF_FFFF_FFFF

  /** The identity test looks at the owner's class, not at a size the caller remembers. */
  predicate Identity(c: Config, b: Block, want: nat)
    requires ConfigOk(c)
  {
    match b.kind
    case Small(i) => want <= MAX_SMALL_SIZE && ClassOf(c.small, want) == i
    case Medium(i) => MAX_SMALL_SIZE < want <= MAX_MEDIUM_BLOCK && ClassOf(c.medium, want) == i
    case Big(i) => MAX_MEDIUM_BLOCK < want <= MAX_BIG_BLOCK && ClassOf(c.big, want) == i
    case Large => false
  }

  predicate PromotesTo(c: Config, b: Block, want: nat) {
    b.kind.Big? && MAX_MEDIUM_BLOCK < want <= MAX_BIG_BLOCK && want > ClassSize(c, b.kind) && want < MAX_BIG_BLOCK
  }

  /** The path a realloc of a live block takes; `want` is not zero. Growth is tried for every region of the
      arena, and there is no path of its own for small blocks. */
  function CPath(c: Config, b: Block, want: nat, env: Env): (r: Outcome)
    requires ConfigOk(c)
  {
    if want > ISIZE_MAX then Failed
    else if b.kind.Large? && b.arena && env.growOk then GrownInPlace
    else if Identity(c, b, want) then Same
    else if PromotesTo(c, b, want) && env.promoteOk then Relocated
    else if env.allocOk then Relocated
    else Failed
  }

  /** The alignment asked for: a region keeps the alignment its address has, anything else goes to malloc. */
  function NewAlign(b: Block, pointerAlign: nat): nat { if b.kind.Large? then pointerAlign else 1 }

  function CAfter(c: Config, b: Block, want: nat, env: Env, pointerAlign: nat): (r: Block)
    requires ConfigOk(c)
  {
    match CPath(c, b, want, env)
    case Same => b.(size := want)
    case GrownInPlace => b.(size := want, requested := want, usable := env.usable)
    case Failed => b
    case Relocated =>
      if PromotesTo(c, b, want) && env.promoteOk then Block(Large, env.usable, env.arena, want, pointerAlign, want)
      else
        var k := Tier(c, want, NewAlign(b, pointerAlign), env.bigOk);
        Block(k, if k.Large? then env.usable else ClassSize(c, k), env.arena, want, NewAlign(b, pointerAlign), want)
  }

  /** Regions are as long as asked, and big blocks come from the arena. */
  ghost predicate CEnvOk(c: Config, b: Block, want: nat, env: Env, pointerAlign: nat)
    requires ConfigOk(c)
  {
    env.usable >= want && (Tier(c, want, NewAlign(b, pointerAlign), env.bigOk).Big? ==> env.arena)
  }

  /** What holds of every live block of the C interface: it has the room asked for, a packed block exactly
      its class, and big blocks lie in the arena. */
  ghost predicate CValid(c: Config, b: Block) {
    && 0 < b.size <= b.usable
    && (!b.kind.Large? ==> b.usable == ClassSize(c, b.kind))
    && (b.kind.Big? ==> b.arena)
  }

  lemma IdentityFits(c: Config, b: Block, want: nat)
    requires ConfigOk(c) && CValid(c, b) && Identity(c, b, want)
    ensures want <= b.usable
  {
    match b.kind
    case Small(i) => ClassHolds(c.small, MAX_SMALL_SIZE, want);
    case Medium(i) => ClassHolds(c.medium, MAX_MEDIUM_BLOCK, want);
    case Big(i) => ClassHolds(c.big, MAX_BIG_BLOCK, want);
  }

  lemma TierFits(c: Config, want: nat, align: nat, bigOk: bool)
    requires ConfigOk(c) && want > 0
    ensures var k := Tier(c, want, align, bigOk); !k.Large? ==> want <= ClassSize(c, k)
  {
    var k := Tier(c, want, align, bigOk);
    if k.Small? {
      ClassHolds(c.small, MAX_SMALL_SIZE, want);
    } else if k.Medium? {
      ClassHolds(c.medium, MAX_MEDIUM_BLOCK, want);
    } else if k.Big? {
      ClassHolds(c.big, MAX_BIG_BLOCK, want);
    }
  }

  /** A successful C realloc always has the room asked for, on every path. */
  lemma CReallocFits(c: Config, b: Block, want: nat, env: Env, pa: nat)
    requires ConfigOk(c) && CValid(c, b) && want > 0 && CEnvOk(c, b, want, env, pa) && CPath(c, b, want, env) != Failed
    ensures var x := CAfter(c, b, want, env, pa); CValid(c, x) && x.size == want
  {
    TierFits(c, want, NewAlign(b, pa), env.bigOk);
    if CPath(c, b, want, env) == Same {
      IdentityFits(c, b, want);
    }
    hide ConfigOk, ClassOf;
  }

  /** The new size belongs to the class the block was carved for. */
  ghost predicate StaysInClass(c: Config, b: Block, want: nat) {
    match b.kind
    case Small(i) => want <= MAX_SMALL_SIZE && Smallest(c.small, want, i)
    case Medium(i) => MAX_SMALL_SIZE < want <= MAX_MEDIUM_BLOCK && Smallest(c.medium, want, i)
    case Big(i) => MAX_MEDIUM_BLOCK < want <= MAX_BIG_BLOCK && Smallest(c.big, want, i)
    case Large => false
  }

  lemma StaysExact(c: Config, b: Block, want: nat)
    requires ConfigOk(c)
    ensures Identity(c, b, want) <==> StaysInClass(c, b, want)
  {
    match b.kind
    case Small(i) => ClassExact(c.small, MAX_SMALL_SIZE, want, i);
    case Medium(i) => ClassExact(c.medium, MAX_MEDIUM_BLOCK, want, i);
    case Big(i) => ClassExact(c.big, MAX_BIG_BLOCK, want, i);
    case Large =>
  }

  lemma ClassExact(t: seq<nat>, max: nat, size: nat, i: nat)
    requires Table(t, max)
    ensures size <= max ==> (ClassOf(t, size) == i <==> Smallest(t, size, i))
  {
    if size <= max {
      ClassHolds(t, max, size);
      hide ClassOf;
      if i != ClassOf(t, size) {
        NotBoth(t, size, i, ClassOf(t, size));
      }
    }
  }

  /** When a C realloc fails, stays, grows or moves, in terms of the block, the size and the environment. */
  lemma CPathExact(c: Config, b: Block, want: nat, env: Env, pa: nat)
    requires ConfigOk(c) && CValid(c, b) && want > 0
    ensures var path, x := CPath(c, b, want, env), CAfter(c, b, want, env, pa);
            var grows := b.kind.Large? && b.arena && env.growOk;
            var moves := Outgrows(c, b, want) && env.promoteOk;
            && (path == GrownInPlace <==> want <= ISIZE_MAX && grows)
            && (path == Same <==> want <= ISIZE_MAX && StaysInClass(c, b, want))
            && (path == Failed <==> want > ISIZE_MAX || (!grows && !StaysInClass(c, b, want) && !moves && !env.allocOk))
            && (path == Failed ==> x == b)
            && (path == Same ==> x == b.(size := want))
            && (path == GrownInPlace ==> x == b.(size := want, requested := want, usable := env.usable))
            && (path == Relocated ==> x.size == want == x.requested && x.arena == env.arena && (x.kind.Large? ==> x.usable == env.usable))
            && (path == Relocated && moves ==> x.kind.Large? && x.align == pa)
            && (path == Relocated && !moves ==> x.kind == Tier(c, want, x.align, env.bigOk) && x.align == (if b.kind.Large? then pa else 1))
  {
    StaysExact(c, b, want);
    PromotionTried(c, b, want);
    hide ConfigOk, ClassOf, Tier, StaysInClass, Identity, ClassSize, PromotesTo, Outgrows;
  }

  /** A packed big block that outgrows its class, below the cap. */
  predicate Outgrows(c: Config, b: Block, want: nat) {
    b.kind.Big? && b.kind.cls < |c.big| && c.big[b.kind.cls] < want < MAX_BIG_BLOCK && want > MAX_MEDIUM_BLOCK
  }

  lemma PromotionTried(c: Config, b: Block, want: nat)
    requires CValid(c, b)
    ensures PromotesTo(c, b, want) <==> Outgrows(c, b, want)
  {
  }

  /** In-place growth is that of the region's header, as for a realloc with a layout. */
  lemma GrowthIsRegionGrowth(c: Config, b: Block, want: nat, env: Env, pa: nat, h: Regions.Header, p: nat, frontier: bool)
    requires ConfigOk(c) && Regions.HeaderOk(h, p) && b.usable == Regions.Capacity(h, p) && b.requested == h.requested
    requires var g := Regions.Grow(h, p, want, b.arena, frontier);
             env.growOk == !g.Refused? && (env.growOk ==> env.usable == Regions.Capacity(g.header, p))
    ensures CPath(c, b, want, env) == GrownInPlace ==>
              var g := Regions.Grow(h, p, want, b.arena, frontier);
              var x := CAfter(c, b, want, env, pa);
              && !g.Refused? && Regions.HeaderOk(g.header, p) && x.usable == Regions.Capacity(g.header, p)
              && x.requested == g.header.requested == want && want <= x.usable && b.usable <= x.usable
  {
    Regions.GrowKeepsSound(h, p, want, b.arena, frontier);
    hide ConfigOk, ClassOf, Tier, Identity, Regions.PagesUp, Regions.PointerAlignment;
  }

  /** Every valid block is found by the pointer-routed free, which is the only one C has. */
  lemma FreeFinds(c: Config, b: Block, r: Reading)
    requires CValid(c, b) && ReadingOf(b, r)
    ensures FreeByPointer(r) == Found(b.kind)
  {
    hide Entry, ClassSize;
  }

  /** The world after a C realloc of `p` to a nonzero size, and the pointer it returns. */
  function Resized(c: Config, w: World, p: nat, want: nat, env: Env, pa: nat, junk: nat -> int): (r: (World, nat))
    requires ConfigOk(c) && p in w.live
  {
    var b := w.live[p];
    var x := CAfter(c, b, want, env, pa);
    match CPath(c, b, want, env)
    case Failed => (w, 0)
    case Same => (w.(live := w.live[p := x]), p)
    case GrownInPlace => (w.(live := w.live[p := x]), p)
    case Relocated => (Relocate(w, p, x, env.ptr, MinSize(b.usable, want), junk), env.ptr)
  }

  ghost predicate CPlaced(c: Config, w: World, p: nat, want: nat, env: Env, pa: nat)
    requires ConfigOk(c) && p in w.live
  {
    var x := CAfter(c, w.live[p], want, env, pa);
    match CPath(c, w.live[p], want, env)
    case Relocated => env.ptr != 0 && env.ptr !in w.live && FreeExtent(w.live, env.ptr, x.usable, env.ptr)
    case GrownInPlace => FreeExtent(w.live, p, x.usable, p)
    case _ => true
  }

  ghost predicate CWorld(c: Config, w: World) {
    Separate(w.live) && 0 !in w.live && forall p :: p in w.live ==> CValid(c, w.live[p])
  }

  /** Everything the old block could hold survives up to the new size, other blocks are untouched. */
  ghost predicate CKept(w: World, p: nat, want: nat, r: World, q: nat)
    requires p in w.live
  {
    if q == 0 then r == w
    else
      && q in r.live && r.live[q].size == want
      && SameBytes(r.mem, q, w.mem, p, MinSize(w.live[p].usable, want))
      && OthersKept(w, p, r)
  }

  /** A C realloc keeps the contents and every other block, leaves all blocks separate and large enough on
      every path, and on failure leaves the original intact. */
  lemma CReallocKeeps(c: Config, w: World, p: nat, want: nat, env: Env, pa: nat, junk: nat -> int)
    requires ConfigOk(c) && CWorld(c, w) && p in w.live && want > 0
    requires CEnvOk(c, w.live[p], want, env, pa) && CPlaced(c, w, p, want, env, pa)
    ensures var (r, q) := Resized(c, w, p, want, env, pa, junk);
            var b := w.live[p];
            && CKept(w, p, want, r, q) && CWorld(c, r)
            && (q == 0 <==> want > ISIZE_MAX || (&& !(b.kind.Large? && b.arena && env.growOk) && !StaysInClass(c, b, want)
                                                 && !(Outgrows(c, b, want) && env.promoteOk) && !env.allocOk))
  {
    var b := w.live[p];
    var path, x := CPath(c, b, want, env), CAfter(c, b, want, env, pa);
    if path != Failed {
      CReallocFits(c, b, want, env, pa);
    }
    SameRoom(c, b, want, env, pa);
    CPathExact(c, b, want, env, pa);
    hide ConfigOk, CPath, CAfter, CEnvOk, CValid, Relocate, SameBytes, StaysInClass, Outgrows;
    if path == Relocated {
      CRelocated(c, w, p, x, env.ptr, want, junk);
    } else if path != Failed {
      CReplaced(c, w, p, x);
      SelfSame(w.mem, p, MinSize(b.usable, want));
      forall o | o in w.live && o != p ensures SameBytes(w.mem, o, w.mem, o, w.live[o].size) {
        SelfSame(w.mem, o, w.live[o].size);
      }
    }
  }

  lemma SelfSame(m: nat -> int, p: nat, n: nat)
    ensures SameBytes(m, p, m, p, n)
  {
  }

  lemma SameRoom(c: Config, b: Block, want: nat, env: Env, pa: nat)
    requires ConfigOk(c)
    ensures CPath(c, b, want, env) == Same ==> CAfter(c, b, want, env, pa).usable == b.usable
  {
    hide ConfigOk, ClassOf;
  }

  lemma CRelocated(c: Config, w: World, p: nat, x: Block, to: nat, want: nat, junk: nat -> int)
    requires CWorld(c, w) && p in w.live && CValid(c, x) && x.size == want && to != 0 && to !in w.live
    requires FreeExtent(w.live, to, x.usable, to)
    ensures var r := Relocate(w, p, x, to, MinSize(w.live[p].usable, want), junk);
            CKept(w, p, want, r, to) && CWorld(c, r)
  {
    var n := MinSize(w.live[p].usable, want);
    var r := Relocate(w, p, x, to, n, junk);
    assert forall o :: o in w.live ==> CValid(c, w.live[o]);
    assert forall o :: o in w.live ==> Fits(w.live[o]);
    RelocateKeeps(w, p, x, to, n, junk);
    RelocatedIn(w, p, x, to, n, junk);
    hide Relocate, SameBytes, Separate, FreeExtent;
  }

  lemma CReplaced(c: Config, w: World, p: nat, x: Block)
    requires CWorld(c, w) && p in w.live && CValid(c, x) && FreeExtent(w.live, p, x.usable, p)
    ensures CWorld(c, w.(live := w.live[p := x]))
  {
    hide CValid;
  }

  /** What a C realloc answers: null only without memory or beyond the signed range, the same pointer exactly
      for the class it has or a granted growth. */
  lemma CReallocAnswer(c: Config, w: World, p: nat, want: nat, env: Env, pa: nat, junk: nat -> int)
    requires ConfigOk(c) && CWorld(c, w) && p in w.live && want > 0
    requires CEnvOk(c, w.live[p], want, env, pa) && CPlaced(c, w, p, want, env, pa)
    ensures var b := w.live[p];
            var (r, q) := Resized(c, w, p, want, env, pa, junk);
            var grows, moves := b.kind.Large? && b.arena && env.growOk, Outgrows(c, b, want) && env.promoteOk;
            && (q == 0 <==> want > ISIZE_MAX || (!grows && !StaysInClass(c, b, want) && !moves && !env.allocOk))
            && (q == p <==> want <= ISIZE_MAX && (StaysInClass(c, b, want) || grows))
            && (q == p ==> r.mem == w.mem && r.live.Keys == w.live.Keys)
            && (q != 0 && q != p ==> q == env.ptr && p !in r.live && (moves ==> r.live[q].kind.Large?))
            && (q != 0 && q != p && !moves ==> r.live[q].kind == Tier(c, want, NewAlign(b, pa), env.bigOk))
  {
    var b := w.live[p];
    CPathExact(c, b, want, env, pa);
    hide ConfigOk, CPath, CAfter, StaysInClass, Tier, Copied, Freed, PromotesTo, Outgrows;
  }
}
