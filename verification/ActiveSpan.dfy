/**
 The span a thread cache remembers as active for a class (src/cache.rs). Frees
 go onto the active chain when they pass a test, and a flush returns the whole
 chain to the remembered span, which is right only if every block on the chain
 belongs to it. The big tier tests span identity; the medium tier tests only
 the address range.
 */
module ActiveSpan {
  import opened Seqs
  import opened HoleStore
  import opened Arena

  /** A block, by the page its first byte lies in and the base of the span it was carved from. */
  datatype Block = Block(page: nat, span: nat)

  /** A remembered span: base and extent in pages. */
  datatype Remembered = None | Span(base: nat, pages: nat)

  predicate InRange(r: Remembered, page: nat) { r.Span? && r.base <= page < r.base + r.pages }

  class ActiveChain {
    var span: Remembered
    var blocks: seq<Block>

    /** Everything on the chain belongs to the remembered span. */
    ghost predicate Valid()
      reads this
    {
      (blocks != [] ==> span.Span?) && forall b :: b in blocks ==> b.span == span.base
    }

    /** A refill whose blocks all come from one span makes that span active. */
    method Adopt(base: nat, pages: nat, rest: seq<Block>)
      requires Valid() && blocks == [] && forall b :: b in rest ==> b.span == base
      modifies this
      ensures Valid() && span == Span(base, pages) && blocks == rest
    {
      span := Span(base, pages);
      blocks := rest;
    }

    /** Big tier: an exhausted chain also forgets its span. */
    method PopBig() returns (found: bool, b: Block)
      requires Valid()
      modifies this
      ensures Valid() && found == (old(blocks) != [])
      ensures found ==> b == old(blocks)[|old(blocks)| - 1] && blocks == old(blocks)[..|old(blocks)| - 1] && span == old(span)
      ensures !found ==> blocks == [] && span == None
    {
      found, b := blocks != [], Block(0, 0);
      if found {
        b := blocks[|blocks| - 1];
        blocks := blocks[..|blocks| - 1];
      } else {
        span := None;
      }
    }

    /** Big tier: the side table supplies the block's span, which must be the remembered one. */
    method FreeBig(b: Block) returns (accepted: bool)
      requires Valid()
      modifies this
      ensures Valid() && accepted == (span.Span? && span.base == b.span && InRange(span, b.page))
      ensures span == old(span) && blocks == if accepted then old(blocks) + [b] else old(blocks)
    {
      accepted := span.Span? && span.base == b.span && InRange(span, b.page);
      if accepted {
        blocks := blocks + [b];
      }
    }

    /** Medium tier: the span stays remembered when its chain is exhausted. */
    method PopMedium() returns (found: bool, b: Block)
      modifies this`blocks
      ensures found == (old(blocks) != [])
      ensures View() == if found then Popped(old(View())) else old(View())
      ensures found ==> b == old(blocks)[|old(blocks)| - 1]
    {
      found, b := blocks != [], Block(0, 0);
      if found {
        b := blocks[|blocks| - 1];
        blocks := blocks[..|blocks| - 1];
      }
    }

    /** Medium tier: only the address range is tested. Whether the chain stays right is a question about
        runs; see `MediumRightExactly`. */
    method FreeMedium(b: Block) returns (accepted: bool)
      modifies this`blocks
      ensures accepted == InRange(span, b.page) && View() == Freed(old(View()), b)
    {
      accepted := InRange(span, b.page);
      if accepted {
        blocks := blocks + [b];
      }
    }

    function View(): Chain
      reads this
    {
      Chain(span, blocks)
    }

    /** Big tier: return the chain to the remembered span and forget it. */
    method FlushBig() returns (to: Remembered, out: seq<Block>)
      modifies this
      ensures to == old(span) && out == old(blocks) && View() == Chain(None, [])
      ensures old(Valid()) ==> Valid() && forall b :: b in out ==> to.Span? && b.span == to.base
    {
      to, out := span, blocks;
      span, blocks := None, [];
    }

    /** Medium tier: return the chain to the remembered span; an empty chain leaves the span remembered. */
    method FlushMedium() returns (to: Remembered, out: seq<Block>)
      modifies this
      ensures to == old(span) && out == old(blocks) && View() == Flushed(old(View()))
      ensures old(Valid()) ==> Valid() && forall b :: b in out ==> to.Span? && b.span == to.base
    {
      to, out := span, blocks;
      if blocks != [] {
        span, blocks := None, [];
      }
    }
  }

  /** A chain with the span it is meant for, as a value. */
  datatype Chain = Chain(span: Remembered, blocks: seq<Block>)

  function Popped(c: Chain): Chain
    requires c.blocks != []
  {
    c.(blocks := c.blocks[..|c.blocks| - 1])
  }

  function Freed(c: Chain, b: Block): Chain { if InRange(c.span, b.page) then c.(blocks := c.blocks + [b]) else c }

  function Flushed(c: Chain): Chain { if c.blocks == [] then c else Chain(None, []) }

  /** While the remembered span itself is still mapped there, the test is exact for every live slice. */
  lemma RangeTestWhileMapped(s: State, r: Remembered, a: nat, x: nat)
    requires Inv(s) && r.Span? && r.base in s.tiles && s.tiles[r.base].pages == r.pages
    requires a in s.tiles && Covers(s.tiles, a, x)
    ensures InRange(r, x) <==> a == r.base
  {
  }

  // ------------------------------- the medium chain beside the spans, over runs

  /** A thread's active medium chain of one class, the arena, whose reservation begins at page `start`, and
      the bases of the live spans of the class that were mapped outside it because the arena was unavailable,
      exhausted or failed a commit. Pages are numbered over the whole address space; an arena of size 0
      stands for one that could not be reserved. The reservation precedes every outside mapping. */
  datatype Scene = Scene(start: nat, arena: State, outside: set<nat>, chain: Chain)

  datatype Move =
    | InArena(e: Step)                        // any thread's step
    | MapOutside(base: nat)                   // a span of the class at any free place outside the reservation
    | UnmapOutside(base: nat)
    | Refill(base: nat, rest: seq<Block>)     // all blocks of a batch came from one span
    | Take                                    // allocation hit
    | Free(block: Block)                      // the range test decides
    | Flush

  /** Every block on the chain belongs to the remembered span. */
  ghost predicate Right(c: Chain) {
    (c.blocks != [] ==> c.span.Span?) && forall b :: b in c.blocks ==> b.span == c.span.base
  }

  ghost predicate ArenaSpan(n: nat, s: Scene, base: nat) {
    && s.start <= base
    && var a: nat := base - s.start;
       a in s.arena.tiles && s.arena.tiles[a].status.Live? && s.arena.tiles[a].pages == n
  }

  /** A live span of the class; all of them have `n` pages. */
  ghost predicate LiveSpan(n: nat, s: Scene, base: nat) { base in s.outside || ArenaSpan(n, s, base) }

  /** A block of the class. */
  ghost predicate OfClass(n: nat, s: Scene, b: Block) { LiveSpan(n, s, b.span) && b.span <= b.page < b.span + n }

  /** Two page ranges share no page. */
  ghost predicate Disjoint(a: nat, m: nat, b: nat, n: nat) { a + m <= b || b + n <= a }

  ghost predicate NoneOf(c: Chain, span: nat) { forall b :: b in c.blocks ==> b.span != span }

  /** A span dies only when none of its blocks is on the chain. */
  ghost predicate Can(n: nat, s: Scene, m: Move) {
    match m
    case InArena(e) => Enabled(s.arena, e) && (e.Discard? ==> NoneOf(s.chain, s.start + e.base))
    case MapOutside(b) =>
      Disjoint(b, n, s.start, s.arena.size) && b !in s.outside && forall a :: a in s.outside ==> Disjoint(a, n, b, n)
    case UnmapOutside(b) => b in s.outside && NoneOf(s.chain, b)
    case Refill(a, rest) => s.chain.blocks == [] && LiveSpan(n, s, a) && forall b :: b in rest ==> b.span == a
    case Take => s.chain.blocks != []
    case Free(b) => OfClass(n, s, b)
    case Flush => true
  }

  ghost function Moved(n: nat, s: Scene, m: Move): (r: Scene)
    requires Inv(s.arena) && Can(n, s, m)
  {
    match m
    case InArena(e) => s.(arena := Apply(s.arena, e))
    case MapOutside(b) => s.(outside := s.outside + {b})
    case UnmapOutside(b) => s.(outside := s.outside - {b})
    case Refill(a, rest) => s.(chain := Chain(Span(a, n), rest))
    case Take => s.(chain := Popped(s.chain))
    case Free(b) => s.(chain := Freed(s.chain, b))
    case Flush => s.(chain := Flushed(s.chain))
  }

  /** An allocation hit hands out the top of the chain, and a flush empties it; the span is forgotten only by
      a flush of a chain that held something. */
  lemma ChainMoves(n: nat, s: Scene)
    requires Inv(s.arena) && s.chain.blocks != []
    ensures var r := Moved(n, s, Take);
            s.chain.blocks == r.chain.blocks + [s.chain.blocks[|s.chain.blocks| - 1]] && r == s.(chain := r.chain)
            && r.chain.span == s.chain.span
    ensures Can(n, s, Flush) && Moved(n, s, Flush) == s.(chain := Chain(None, []))
    ensures Moved(n, s.(chain := Chain(s.chain.span, [])), Flush).chain.span == s.chain.span
  {
  }

  lemma MovedInv(n: nat, s: Scene, m: Move)
    requires Inv(s.arena) && Can(n, s, m)
    ensures Inv(Moved(n, s, m).arena) && Moved(n, s, m).arena.size == s.arena.size && Moved(n, s, m).start == s.start
  {
    if m.InArena? {
      StepInv(s.arena, m.e);
      BumpGrows(s.arena, m.e);
    }
  }

  /** Frontier growth joins two slices at a boundary of the remembered span. */
  ghost predicate Crosses(s: Scene, m: Move) {
    && m.InArena? && m.e.GrowCommit? && m.e.base in s.arena.tiles && s.chain.span.Span?
    && var joint := s.start + m.e.base + s.arena.tiles[m.e.base].pages;
       joint == s.chain.span.base || joint == s.chain.span.base + s.chain.span.pages
  }

  /** A span mapped outside the arena meets the remembered range at another base. */
  ghost predicate Meets(n: nat, s: Scene, m: Move) {
    && m.MapOutside? && s.chain.span.Span? && m.base != s.chain.span.base
    && !Disjoint(m.base, n, s.chain.span.base, s.chain.span.pages)
  }

  /** What runs may contain: growth across a remembered span, outside mappings that meet one. */
  datatype Policy = Policy(growth: bool, remap: bool)

  ghost predicate Allowed(n: nat, y: Policy, s: Scene, m: Move) {
    (y.growth || !Crosses(s, m)) && (y.remap || !Meets(n, s, m))
  }

  ghost predicate Plays(n: nat, y: Policy, s: Scene, ms: seq<Move>, r: Scene)
    requires Inv(s.arena)
    decreases |ms|
  {
    if ms == [] then r == s
    else && Can(n, s, ms[0]) && Allowed(n, y, s, ms[0])
         && (MovedInv(n, s, ms[0]); Plays(n, y, Moved(n, s, ms[0]), ms[1..], r))
  }

  /** The address space: where the arena's reservation begins and how long it is. */
  datatype Space = Space(start: nat, size: nat)

  function Opening(z: Space): Scene { Scene(z.start, Initial(z.size), {}, Chain(None, [])) }

  ghost predicate Reached(n: nat, y: Policy, z: Space, ms: seq<Move>, s: Scene) {
    InitialInv(z.size);
    Plays(n, y, Opening(z), ms, s)
  }

  // ----------------------------------------------------------- what keeps it right

  /** No slice reaches across page `x` of the arena. */
  ghost predicate Boundary(s: State, x: nat) { x in s.tiles || x == s.bump }

  /** The outside spans share no page with the reservation. */
  ghost predicate OutsideApart(n: nat, s: Scene) {
    && (forall a :: a in s.outside ==> Disjoint(a, n, s.start, s.arena.size))
    && (forall a, b :: a in s.outside && b in s.outside && a != b ==> Disjoint(a, n, b, n))
  }

  /** A remembered range of the arena still has its boundaries, unless no second span can meet it. */
  ghost predicate ArenaFence(n: nat, s: Scene, base: nat) {
    && s.start <= base && base + n <= s.start + s.arena.bump
    && (s.arena.size <= n || (Boundary(s.arena, base - s.start) && Boundary(s.arena, base - s.start + n)))
  }

  /** A remembered range outside the arena is met by no live span at another base. */
  ghost predicate OutsideFence(n: nat, s: Scene, base: nat) {
    && Disjoint(base, n, s.start, s.arena.size)
    && (forall a :: a in s.outside && a != base ==> Disjoint(a, n, base, n))
  }

  ghost predicate Fenced(n: nat, s: Scene) {
    && OutsideApart(n, s)
    && (s.chain.span.Span? ==>
          && s.chain.span.pages == n
          && (n <= 1 || ArenaFence(n, s, s.chain.span.base) || OutsideFence(n, s, s.chain.span.base)))
  }

  /** No step but a join removes a boundary. */
  lemma BoundaryStays(s: State, e: Step, x: nat)
    requires Inv(s) && Enabled(s, e) && Boundary(s, x)
    requires e.GrowCommit? && e.base in s.tiles ==> e.base + s.tiles[e.base].pages != x
    ensures Boundary(Apply(s, e), x)
  {
    hide Partition, HolesMatch;
    if e.TakeHole? {
      HoleTile(s, e.at);
    }
  }

  lemma HoleTile(s: State, i: nat)
    requires Inv(s) && i < |s.holes|
    ensures var a := StartOf(s.holes[i]); a in s.tiles && s.tiles[a].pages == s.holes[i].pages
  {
  }

  lemma BumpGrows(s: State, e: Step)
    requires Inv(s) && Enabled(s, e)
    ensures Apply(s, e).bump >= s.bump && Apply(s, e).size == s.size
  {
  }

  lemma TileFacts(s: State, a: nat)
    requires Inv(s) && a in s.tiles
    ensures a + s.tiles[a].pages <= s.bump <= s.size && Boundary(s, a) && s.tiles[a].pages > 0
    ensures Boundary(s, a + s.tiles[a].pages)
  {
    hide HolesMatch;
    var x := a + s.tiles[a].pages;
    if x < s.bump {
      assert Covered(s.tiles, x);
      var k :| Covers(s.tiles, k, x);
      assert a < k;
    }
  }

  /** A slice of `n` pages that meets a range of `n` pages with both boundaries is that range. */
  lemma SliceIsRange(s: State, n: nat, base: nat, a: nat)
    requires Inv(s) && a in s.tiles && s.tiles[a].pages == n && base + n <= s.bump && !Disjoint(a, n, base, n)
    requires s.size <= n || (Boundary(s, base) && Boundary(s, base + n))
    ensures a == base
  {
    hide HolesMatch;
    TileFacts(s, a);
  }

  /** A block of the class in the remembered range belongs to the remembered span. */
  lemma InRangeIsOwn(n: nat, s: Scene, b: Block)
    requires Inv(s.arena) && Fenced(n, s) && OfClass(n, s, b) && InRange(s.chain.span, b.page)
    ensures b.span == s.chain.span.base
  {
    hide Inv, Boundary;
    var base := s.chain.span.base;
    if n > 1 && ArenaSpan(n, s, b.span) {
      TileFacts(s.arena, b.span - s.start);
      if ArenaFence(n, s, base) {
        SliceIsRange(s.arena, n, base - s.start, b.span - s.start);
      }
    } else if n > 1 && ArenaFence(n, s, base) {
      BumpInSize(s.arena);
    }
  }

  lemma BumpInSize(s: State)
    requires Inv(s)
    ensures s.bump <= s.size
  {
  }

  lemma ArenaKeepsFence(n: nat, s: Scene, e: Step)
    requires Inv(s.arena) && Enabled(s.arena, e) && Fenced(n, s)
    requires n <= 1 || s.arena.size <= n || !Crosses(s, InArena(e))
    ensures Fenced(n, s.(arena := Apply(s.arena, e)))
  {
    hide Inv, Enabled, Apply, Boundary;
    BumpGrows(s.arena, e);
    if s.chain.span.Span? && n > 1 && ArenaFence(n, s, s.chain.span.base) && s.arena.size > n {
      BoundaryStays(s.arena, e, s.chain.span.base - s.start);
      BoundaryStays(s.arena, e, s.chain.span.base - s.start + n);
    }
  }

  /** A span just remembered is fenced: nothing else can be where it is. */
  lemma RefillFenced(n: nat, s: Scene, a: nat, rest: seq<Block>)
    requires Inv(s.arena) && Fenced(n, s) && LiveSpan(n, s, a)
    ensures Fenced(n, s.(chain := Chain(Span(a, n), rest)))
  {
    hide Inv, Boundary;
    if ArenaSpan(n, s, a) {
      TileFacts(s.arena, a - s.start);
    }
  }

  lemma OutsideKeepsFence(n: nat, s: Scene, m: Move)
    requires Inv(s.arena) && Fenced(n, s) && (m.MapOutside? || m.UnmapOutside?) && Can(n, s, m)
    requires n <= 1 || !Meets(n, s, m)
    ensures Fenced(n, Moved(n, s, m))
  {
    hide Inv, Boundary;
  }

  lemma FreeKeepsRight(n: nat, s: Scene, b: Block)
    requires Inv(s.arena) && Fenced(n, s) && OfClass(n, s, b) && Right(s.chain)
    ensures Right(Freed(s.chain, b)) && Freed(s.chain, b).span == s.chain.span
  {
    hide Inv, Fenced, OfClass;
    if InRange(s.chain.span, b.page) {
      InRangeIsOwn(n, s, b);
    }
  }

  lemma FenceOf(n: nat, s: Scene, c: Chain)
    requires Fenced(n, s) && (c.span == s.chain.span || c.span == None)
    ensures Fenced(n, s.(chain := c))
  {
    hide Boundary;
  }

  /** Every move that neither crosses the remembered span by growth nor meets it by an outside mapping keeps
      the chain right. */
  lemma MoveKeepsRight(n: nat, s: Scene, m: Move)
    requires Inv(s.arena) && Can(n, s, m) && Right(s.chain) && Fenced(n, s)
    requires n <= 1 || ((s.arena.size <= n || !Crosses(s, m)) && !Meets(n, s, m))
    ensures Right(Moved(n, s, m).chain) && Fenced(n, Moved(n, s, m))
  {
    hide Inv, Enabled, Apply, OfClass, LiveSpan, Fenced, Crosses, Meets;
    match m
    case InArena(e) => ArenaKeepsFence(n, s, e);
    case MapOutside(b) => OutsideKeepsFence(n, s, m);
    case UnmapOutside(b) => OutsideKeepsFence(n, s, m);
    case Refill(a, rest) => RefillFenced(n, s, a, rest);
    case Take => FenceOf(n, s, Popped(s.chain));
    case Free(b) =>
      FreeKeepsRight(n, s, b);
      FenceOf(n, s, Freed(s.chain, b));
    case Flush => FenceOf(n, s, Flushed(s.chain));
  }

  lemma {:induction false} PlaysRight(n: nat, y: Policy, s: Scene, ms: seq<Move>, r: Scene)
    requires Inv(s.arena) && Plays(n, y, s, ms, r) && Right(s.chain) && Fenced(n, s)
    requires n <= 1 || ((s.arena.size <= n || !y.growth) && !y.remap)
    ensures Right(r.chain)
    decreases |ms|
  {
    hide Inv, Can, Moved, Right, Fenced, Crosses, Meets;
    if ms != [] {
      MovedInv(n, s, ms[0]);
      MoveKeepsRight(n, s, ms[0]);
      PlaysRight(n, y, Moved(n, s, ms[0]), ms[1..], r);
    }
  }

  /** The exact condition: spans of one page; or neither frontier growth across a remembered span, which an
      arena no longer than a span rules out, nor an outside mapping that meets a remembered range at another
      base. */
  predicate Exempt(n: nat, size: nat, y: Policy) { n <= 1 || ((!y.growth || size <= n) && !y.remap) }

  lemma RightIfExempt(n: nat, y: Policy, z: Space, ms: seq<Move>, s: Scene)
    requires Exempt(n, z.size, y) && Reached(n, y, z, ms, s)
    ensures Right(s.chain)
  {
    InitialInv(z.size);
    PlaysRight(n, y, Opening(z), ms, s);
  }

  // ------------------------------------------------------- it can go wrong

  lemma {:induction false} PlaysSnoc(n: nat, y: Policy, s: Scene, ms: seq<Move>, r: Scene, m: Move)
    requires Inv(s.arena) && Plays(n, y, s, ms, r) && Inv(r.arena) && Can(n, r, m) && Allowed(n, y, r, m)
    ensures Plays(n, y, s, ms + [m], Moved(n, r, m))
    decreases |ms|
  {
    hide Inv, Can, Moved, Allowed;
    if ms == [] {
      assert [m][1..] == [];
      MovedInv(n, s, m);
    } else {
      MovedInv(n, s, ms[0]);
      PlaysSnoc(n, y, Moved(n, s, ms[0]), ms[1..], r, m);
      assert (ms + [m])[1..] == ms[1..] + [m];
    }
  }

  /** A scene that a run reaches. */
  ghost predicate There(n: nat, y: Policy, z: Space, s: Scene) {
    Inv(s.arena) && s.arena.size == z.size && s.start == z.start && exists ms :: Reached(n, y, z, ms, s)
  }

  lemma Begin(n: nat, y: Policy, z: Space)
    ensures There(n, y, z, Opening(z))
  {
    InitialInv(z.size);
    assert Reached(n, y, z, [], Opening(z));
  }

  lemma Play(n: nat, y: Policy, z: Space, s: Scene, m: Move)
    requires There(n, y, z, s) && Inv(s.arena) && Can(n, s, m) && Allowed(n, y, s, m)
    ensures There(n, y, z, Moved(n, s, m))
  {
    hide Inv, Can, Moved, Allowed, Plays;
    InitialInv(z.size);
    MovedInv(n, s, m);
    var ms :| Reached(n, y, z, ms, s);
    PlaysSnoc(n, y, Opening(z), ms, s, m);
    assert Reached(n, y, z, ms + [m], Moved(n, s, m));
  }

  lemma InvThere(n: nat, y: Policy, z: Space, s: Scene)
    requires There(n, y, z, s)
    ensures Inv(s.arena) && s.arena.size == z.size && s.start == z.start
  {
  }

  // The first witness needs no arena. A thread remembers a span that was mapped outside it; its blocks are
  // freed by others; once both retention lists of the class are full the span is unmapped; the next span of
  // the class is mapped one page higher.

  /** A run without any frontier growth that ends with a block of one live span on the chain of another,
      unmapped one. */
  lemma RemappedSpanMisleads(n: nat, y: Policy, z: Space) returns (s: Scene)
    requires n > 1 && y.remap
    ensures There(n, y, z, s) && !Right(s.chain)
  {
    hide There, Inv;
    Begin(n, y, z);
    var a := z.start + z.size;
    var s0 := Opening(z);
    InvThere(n, y, z, s0);
    Play(n, y, z, s0, MapOutside(a));
    var s1 := s0.(outside := {a});
    assert Moved(n, s0, MapOutside(a)) == s1;
    Play(n, y, z, s1, Refill(a, []));
    var s2 := s1.(chain := Chain(Span(a, n), []));
    Play(n, y, z, s2, UnmapOutside(a));
    var s3 := s2.(outside := {});
    assert Moved(n, s2, UnmapOutside(a)) == s3;
    Play(n, y, z, s3, MapOutside(a + 1));
    var s4 := s3.(outside := {a + 1});
    assert Moved(n, s3, MapOutside(a + 1)) == s4;
    var b := Block(a + 1, a + 1);
    Play(n, y, z, s4, Free(b));
    s := Moved(n, s4, Free(b));
    assert b in s.chain.blocks;
  }

  // The second witness lies in the arena. Its discards stand for a span, and later a region, that dies after
  // the retention lists of its class or the region caches have been filled by others.

  const K: nat := ARENA_ALIGN

  /** One step of thread 0 in the arena while the chain is empty. */
  lemma Go(n: nat, y: Policy, z: Space, s: Scene, e: Step)
    requires There(n, y, z, s) && y.growth && Inv(s.arena) && Enabled(s.arena, e) && s.chain.blocks == []
    ensures There(n, y, z, s.(arena := Apply(s.arena, e)))
  {
    hide Inv, There, Enabled, Apply;
    Play(n, y, z, s, InArena(e));
  }

  /** The scene with the arena in state `t`, while the chain of the dead span is empty. */
  function Remembering(n: nat, z: Space, t: State): Scene { Scene(z.start, t, {}, Chain(Span(z.start, n), [])) }

  /** A span of `n` pages is carved and becomes a thread's active span; its blocks are allocated. */
  lemma SpanRemembered(n: nat, y: Policy, z: Space)
    requires 1 < n < z.size && y.growth
    ensures There(n, y, z, Remembering(n, z, State(z.size, n, map[0 := Tile(n, Live(0))], [], 0)))
  {
    hide There, Inv;
    Begin(n, y, z);
    var s0 := Opening(z);
    InvThere(n, y, z, s0);
    Go(n, y, z, s0, BumpClaim(0, n));
    var s1 := s0.(arena := State(z.size, n, map[0 := Tile(n, Claimed(0))], [], 0));
    assert Apply(s0.arena, BumpClaim(0, n)) == s1.arena;
    InvThere(n, y, z, s1);
    Go(n, y, z, s1, Commit(0, 0));
    var s2 := s1.(arena := State(z.size, n, map[0 := Tile(n, Live(0))], [], 0));
    assert Apply(s1.arena, Commit(0, 0)) == s2.arena;
    InvThere(n, y, z, s2);
    Play(n, y, z, s2, Refill(z.start, []));
    assert Moved(n, s2, Refill(z.start, [])) == Remembering(n, z, s2.arena);
  }

  /** One step of thread 0 from one arena state to another. */
  lemma Next(n: nat, y: Policy, z: Space, t: State, e: Step, u: State)
    requires There(n, y, z, Remembering(n, z, t)) && y.growth && Inv(t) && Enabled(t, e) && Apply(t, e) == u
    ensures There(n, y, z, Remembering(n, z, u)) && Inv(u)
  {
    hide There, Inv, Enabled, Apply;
    Go(n, y, z, Remembering(n, z, t), e);
    InvThere(n, y, z, Remembering(n, z, u));
  }

  /** The span dies; its range is parked and split after its first page. */
  lemma RangeSplit(n: nat, y: Policy, z: Space)
    requires 1 < n < z.size && y.growth && There(n, y, z, Remembering(n, z, State(z.size, n, map[0 := Tile(n, Live(0))], [], 0)))
    ensures There(n, y, z, Remembering(n, z,
              State(z.size, n, map[0 := Tile(1, Claimed(0)), 1 := Tile(n - 1, Parked)], [Hole(K, n - 1)], (n - 1) * K)))
  {
    hide There, Inv;
    var t := State(z.size, n, map[0 := Tile(n, Live(0))], [], 0);
    InvThere(n, y, z, Remembering(n, z, t));
    var t1 := State(z.size, n, map[0 := Tile(n, Claimed(0))], [], 0);
    assert Apply(t, Discard(0, 0)).tiles == t1.tiles;
    Next(n, y, z, t, Discard(0, 0), t1);
    var t2 := State(z.size, n, map[0 := Tile(n, Parked)], [Hole(0, n)], n * K);
    assert Apply(t1, GiveBack(0, 0, true)).tiles == t2.tiles;
    Next(n, y, z, t1, GiveBack(0, 0, true), t2);
    var t3 := State(z.size, n, map[0 := Tile(1, Claimed(0)), 1 := Tile(n - 1, Parked)], [Hole(K, n - 1)], (n - 1) * K);
    assert BestFit(t2.holes, 1, 0) && StartOf(t2.holes[0]) == 0;
    assert Apply(t2, TakeHole(0, 0, 1)).tiles == t3.tiles && Apply(t2, TakeHole(0, 0, 1)).holes == t3.holes;
    Next(n, y, z, t2, TakeHole(0, 0, 1), t3);
  }

  /** The upper part becomes a large region at the frontier and claims the next page. */
  lemma RegionClaims(n: nat, y: Policy, z: Space)
    requires 1 < n < z.size && y.growth
    requires There(n, y, z, Remembering(n, z,
               State(z.size, n, map[0 := Tile(1, Claimed(0)), 1 := Tile(n - 1, Parked)], [Hole(K, n - 1)], (n - 1) * K)))
    ensures There(n, y, z, Remembering(n, z,
              State(z.size, n + 1, map[0 := Tile(1, Claimed(0)), 1 := Tile(n - 1, Live(0)), n := Tile(1, Claimed(0))], [], 0)))
  {
    hide There, Inv;
    var t := State(z.size, n, map[0 := Tile(1, Claimed(0)), 1 := Tile(n - 1, Parked)], [Hole(K, n - 1)], (n - 1) * K);
    InvThere(n, y, z, Remembering(n, z, t));
    assert BestFit(t.holes, n - 1, 0) && StartOf(t.holes[0]) == 1;
    var t1 := State(z.size, n, map[0 := Tile(1, Claimed(0)), 1 := Tile(n - 1, Claimed(0))], [], 0);
    assert Apply(t, TakeHole(0, 0, n - 1)).tiles == t1.tiles && Apply(t, TakeHole(0, 0, n - 1)).holes == t1.holes;
    Next(n, y, z, t, TakeHole(0, 0, n - 1), t1);
    var t2 := State(z.size, n, map[0 := Tile(1, Claimed(0)), 1 := Tile(n - 1, Live(0))], [], 0);
    assert Apply(t1, Commit(0, 1)).tiles == t2.tiles;
    Next(n, y, z, t1, Commit(0, 1), t2);
    var t3 := State(z.size, n + 1, map[0 := Tile(1, Claimed(0)), 1 := Tile(n - 1, Live(0)), n := Tile(1, Claimed(0))], [], 0);
    assert Apply(t2, GrowClaim(0, 1, 1)).tiles == t3.tiles;
    Next(n, y, z, t2, GrowClaim(0, 1, 1), t3);
  }

  /** The region grows across the end of the remembered range, and dies. */
  lemma RegionGrows(n: nat, y: Policy, z: Space)
    requires 1 < n < z.size && y.growth
    requires There(n, y, z, Remembering(n, z,
               State(z.size, n + 1, map[0 := Tile(1, Claimed(0)), 1 := Tile(n - 1, Live(0)), n := Tile(1, Claimed(0))], [], 0)))
    ensures There(n, y, z, Remembering(n, z,
              State(z.size, n + 1, map[0 := Tile(1, Claimed(0)), 1 := Tile(n, Parked)], [Hole(K, n)], n * K)))
  {
    hide There, Inv;
    var t := State(z.size, n + 1, map[0 := Tile(1, Claimed(0)), 1 := Tile(n - 1, Live(0)), n := Tile(1, Claimed(0))], [], 0);
    InvThere(n, y, z, Remembering(n, z, t));
    var t1 := State(z.size, n + 1, map[0 := Tile(1, Claimed(0)), 1 := Tile(n, Live(0))], [], 0);
    assert Apply(t, GrowCommit(0, 1)).tiles == t1.tiles;
    Next(n, y, z, t, GrowCommit(0, 1), t1);
    var t2 := State(z.size, n + 1, map[0 := Tile(1, Claimed(0)), 1 := Tile(n, Claimed(0))], [], 0);
    assert Apply(t1, Discard(0, 1)).tiles == t2.tiles;
    Next(n, y, z, t1, Discard(0, 1), t2);
    var t3 := State(z.size, n + 1, map[0 := Tile(1, Claimed(0)), 1 := Tile(n, Parked)], [Hole(K, n)], n * K);
    assert Apply(t2, GiveBack(0, 1, true)).tiles == t3.tiles && Apply(t2, GiveBack(0, 1, true)).holes == t3.holes;
    Next(n, y, z, t2, GiveBack(0, 1, true), t3);
  }

  /** A span of the class is carved one page higher. */
  lemma CarvedHigher(n: nat, y: Policy, z: Space)
    requires 1 < n < z.size && y.growth
    requires There(n, y, z, Remembering(n, z,
               State(z.size, n + 1, map[0 := Tile(1, Claimed(0)), 1 := Tile(n, Parked)], [Hole(K, n)], n * K)))
    ensures There(n, y, z, Remembering(n, z, State(z.size, n + 1, map[0 := Tile(1, Claimed(0)), 1 := Tile(n, Live(0))], [], 0)))
  {
    hide There, Inv;
    var t := State(z.size, n + 1, map[0 := Tile(1, Claimed(0)), 1 := Tile(n, Parked)], [Hole(K, n)], n * K);
    InvThere(n, y, z, Remembering(n, z, t));
    assert BestFit(t.holes, n, 0) && StartOf(t.holes[0]) == 1;
    var t1 := State(z.size, n + 1, map[0 := Tile(1, Claimed(0)), 1 := Tile(n, Claimed(0))], [], 0);
    assert Apply(t, TakeHole(0, 0, n)).tiles == t1.tiles && Apply(t, TakeHole(0, 0, n)).holes == t1.holes;
    Next(n, y, z, t, TakeHole(0, 0, n), t1);
    var t2 := State(z.size, n + 1, map[0 := Tile(1, Claimed(0)), 1 := Tile(n, Live(0))], [], 0);
    assert Apply(t1, Commit(0, 1)).tiles == t2.tiles;
    Next(n, y, z, t1, Commit(0, 1), t2);
  }

  /** A run without any outside mapping that ends with a block of one live span on the chain of another,
      dead one: the thread that still remembers the dead span frees a block of the span carved higher. */
  lemma GrownSliceMisleads(n: nat, y: Policy, z: Space) returns (s: Scene)
    requires 1 < n < z.size && y.growth
    ensures There(n, y, z, s) && !Right(s.chain)
  {
    hide There, Inv;
    SpanRemembered(n, y, z);
    RangeSplit(n, y, z);
    RegionClaims(n, y, z);
    RegionGrows(n, y, z);
    CarvedHigher(n, y, z);
    var r := Remembering(n, z, State(z.size, n + 1, map[0 := Tile(1, Claimed(0)), 1 := Tile(n, Live(0))], [], 0));
    InvThere(n, y, z, r);
    var b := Block(z.start + 1, z.start + 1);
    Play(n, y, z, r, Free(b));
    s := Moved(n, r, Free(b));
    assert b in s.chain.blocks;
  }

  lemma Misleading(n: nat, y: Policy, z: Space) returns (s: Scene)
    requires !Exempt(n, z.size, y)
    ensures There(n, y, z, s) && !Right(s.chain)
  {
    if y.remap {
      s := RemappedSpanMisleads(n, y, z);
    } else {
      s := GrownSliceMisleads(n, y, z);
    }
  }

  ghost predicate AlwaysRight(n: nat, y: Policy, z: Space) {
    forall ms, s :: Reached(n, y, z, ms, s) ==> Right(s.chain)
  }

  /** In every run every block on a thread's active medium chain belongs to the remembered span, if and only
      if spans have one page, or neither of two things happens while a span is remembered: frontier growth
      joins slices at one of its boundaries (which takes an arena longer than a span), and a span mapped
      outside the arena meets its range at another base. */
  lemma MediumRightExactly(n: nat, y: Policy, z: Space)
    ensures AlwaysRight(n, y, z) <==> Exempt(n, z.size, y)
  {
    hide Reached, Right, Inv;
    if Exempt(n, z.size, y) {
      forall ms, s | Reached(n, y, z, ms, s) ensures Right(s.chain) {
        RightIfExempt(n, y, z, ms, s);
      }
    } else {
      var s := Misleading(n, y, z);
      var ms :| Reached(n, y, z, ms, s);
    }
  }
}
