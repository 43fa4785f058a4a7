/**
 What a realloc does to memory (src/lib.rs): the first min(old, new) bytes
 survive on every path, and no other live block is written.
 */
module Contents {
  import opened Routing

  /** The live blocks by address, and the memory. */
  datatype World = World(live: map<nat, Block>, mem: nat -> int)

  ghost predicate Apart(p: nat, n: nat, q: nat, m: nat) { p + n <= q || q + m <= p }

  /** No two live blocks share a byte. */
  ghost predicate Separate(live: map<nat, Block>) {
    forall p, q :: p in live && q in live && p != q ==> Apart(p, live[p].usable, q, live[q].usable)
  }

  /** An extent that touches no live block except possibly the one at `self`. */
  ghost predicate FreeExtent(live: map<nat, Block>, at: nat, n: nat, self: nat) {
    forall p :: p in live && p != self ==> Apart(at, n, p, live[p].usable)
  }

  function At(mem: nat -> int, base: nat, i: nat): int { mem(base + i) }

  ghost predicate SameBytes(m: nat -> int, p: nat, n: nat -> int, q: nat, len: nat) {
    forall i: nat :: i < len ==> At(m, p, i) == At(n, q, i)
  }

  function Copied(mem: nat -> int, from: nat, to: nat, n: nat): (r: nat -> int)
  {
    (a: nat) => if to <= a < to + n then mem(from + (a - to)) else mem(a)
  }

  /** A freed block belongs to the allocator: link words, purges and later carving may rewrite all of it. */
  function Freed(mem: nat -> int, at: nat, n: nat, junk: nat -> int): (r: nat -> int)
  {
    (a: nat) => if at <= a < at + n then junk(a) else mem(a)
  }

  function MinSize(a: nat, b: nat): nat { if a <= b then a else b }

  /** Bytes copied by a relocation: a promotion copies the whole old class. */
  function CopyLength(c: Config, b: Block, want: nat, env: Env): (r: nat)
    requires ConfigOk(c)
  {
    if !BothSmall(b, want) && Promotes(c, b, want) && env.promoteOk then MinSize(ClassSize(c, b.kind), want)
    else MinSize(b.size, want)
  }

  /** The world after a realloc and the pointer it returns; 0 on failure. */
  function Realloc(c: Config, w: World, p: nat, want: nat, env: Env, junk: nat -> int): (r: (World, nat))
    requires ConfigOk(c) && p in w.live
  {
    var b := w.live[p];
    var x := After(c, b, want, env);
    match Path(c, b, want, env)
    case Failed => (w, 0)
    case Same => (w.(live := w.live[p := x]), p)
    case GrownInPlace => (w.(live := w.live[p := x]), p)
    case Relocated => (Relocate(w, p, x, env.ptr, CopyLength(c, b, want, env), junk), env.ptr)
  }

  function Relocate(w: World, p: nat, x: Block, to: nat, n: nat, junk: nat -> int): (r: World)
    requires p in w.live
  {
    World((w.live - {p})[to := x], Freed(Copied(w.mem, p, to, n), p, w.live[p].usable, junk))
  }

  /** New extents are disjoint from every live block: a relocation from all of them, a growth from the others. */
  ghost predicate Placed(c: Config, w: World, p: nat, want: nat, env: Env)
    requires ConfigOk(c) && p in w.live
  {
    var b := w.live[p];
    var x := After(c, b, want, env);
    match Path(c, b, want, env)
    case Relocated => env.ptr != 0 && env.ptr !in w.live && FreeExtent(w.live, env.ptr, x.usable, env.ptr)
    case GrownInPlace => FreeExtent(w.live, p, x.usable, p)
    case _ => true
  }

  ghost predicate BlockOk(c: Config, b: Block)
    requires ConfigOk(c)
  {
    Routed(c, b) && Fits(b)
  }

  ghost predicate WorldOk(c: Config, w: World)
    requires ConfigOk(c)
  {
    && Separate(w.live) && 0 !in w.live
    && (forall p :: p in w.live ==> BlockOk(c, w.live[p]))
  }

  /** Every other live block is still there, with the same bytes. */
  ghost predicate OthersKept(w: World, p: nat, r: World) {
    forall o :: o in w.live && o != p ==>
      o in r.live && r.live[o] == w.live[o] && SameBytes(r.mem, o, w.mem, o, w.live[o].size)
  }

  ghost predicate Kept(w: World, p: nat, want: nat, r: World, q: nat)
    requires p in w.live
  {
    if q == 0 then r == w
    else
      && q in r.live && r.live[q].size == want
      && SameBytes(r.mem, q, w.mem, p, MinSize(w.live[p].size, want))
      && OthersKept(w, p, r)
  }

  /** The bytes of a relocation: copied before the old block is given up, into an extent of its own. */
  lemma RelocatedBytes(mem: nat -> int, p: nat, had: nat, to: nat, room: nat, n: nat, junk: nat -> int)
    requires n <= room && n <= had && Apart(to, room, p, had)
    ensures SameBytes(Freed(Copied(mem, p, to, n), p, had, junk), to, mem, p, n)
  {
    var m := Copied(mem, p, to, n);
    forall i: nat | i < n ensures At(Freed(m, p, had, junk), to, i) == At(mem, p, i) {
      FreedAt(m, p, had, junk, to + i);
      CopiedAt(mem, p, to, n, i);
      hide Copied, Freed;
    }
  }

  lemma FreedAt(mem: nat -> int, at: nat, n: nat, junk: nat -> int, a: nat)
    ensures Freed(mem, at, n, junk)(a) == if at <= a < at + n then junk(a) else mem(a)
  {
  }

  lemma CopiedAt(mem: nat -> int, from: nat, to: nat, n: nat, i: nat)
    requires i < n
    ensures Copied(mem, from, to, n)(to + i) == mem(from + i)
  {
    assert from + (to + i - to) == from + i;
  }

  lemma UntouchedBytes(mem: nat -> int, p: nat, had: nat, to: nat, room: nat, n: nat, junk: nat -> int, o: nat, len: nat)
    requires n <= room && Apart(to, room, o, len) && Apart(p, had, o, len)
    ensures SameBytes(Freed(Copied(mem, p, to, n), p, had, junk), o, mem, o, len)
  {
  }

  lemma Shorter(m: nat -> int, p: nat, n: nat -> int, q: nat, len: nat, less: nat)
    requires SameBytes(m, p, n, q, len) && less <= len
    ensures SameBytes(m, p, n, q, less)
  {
  }

  lemma RelocateKeeps(w: World, p: nat, x: Block, to: nat, n: nat, junk: nat -> int)
    requires p in w.live && Separate(w.live) && to !in w.live && FreeExtent(w.live, to, x.usable, to)
    requires n <= x.usable && n <= w.live[p].usable
    requires forall o :: o in w.live ==> Fits(w.live[o])
    ensures var r := Relocate(w, p, x, to, n, junk);
            SameBytes(r.mem, to, w.mem, p, n) && OthersKept(w, p, r) && Separate(r.live)
  {
    var r := Relocate(w, p, x, to, n, junk);
    hide SameBytes, Copied, Freed;
    RelocatedBytes(w.mem, p, w.live[p].usable, to, x.usable, n, junk);
    forall o | o in w.live && o != p
      ensures o in r.live && r.live[o] == w.live[o] && SameBytes(r.mem, o, w.mem, o, w.live[o].size)
    {
      assert Apart(to, x.usable, o, w.live[o].usable) && Apart(p, w.live[p].usable, o, w.live[o].usable);
      assert Fits(w.live[o]);
      UntouchedBytes(w.mem, p, w.live[p].usable, to, x.usable, n, junk, o, w.live[o].size);
    }
  }

  /** What the block after a relocation looks like, and how much of the old one was copied. */
  lemma RelocationFits(c: Config, b: Block, want: nat, env: Env)
    requires ConfigOk(c) && BlockOk(c, b) && want > 0 && EnvOk(c, b, want, env) && Path(c, b, want, env) == Relocated
    ensures var x := After(c, b, want, env);
            BlockOk(c, x) && x.size == want && want <= x.usable
    ensures MinSize(b.size, want) <= CopyLength(c, b, want, env) <= MinSize(want, b.usable)
  {
    ReallocIsRouted(c, b, want, env);
    ReallocFitsExactly(c, b, want, env);
    hide Tier, ConfigOk, ClassOf, EnvOk, FreeByLayout, FreeByPointer;
  }

  /** A realloc keeps the first min(old, new) bytes and leaves every other live block and its bytes alone. It
      fails only when the block cannot stay, grow or be promoted and no memory can be had, and changes nothing then. */
  lemma ReallocKeepsBytes(c: Config, w: World, p: nat, want: nat, env: Env, junk: nat -> int)
    requires ConfigOk(c) && WorldOk(c, w) && p in w.live && want > 0
    requires EnvOk(c, w.live[p], want, env) && Placed(c, w, p, want, env)
    ensures var (r, q) := Realloc(c, w, p, want, env, junk);
            var b := w.live[p];
            && Kept(w, p, want, r, q)
            && (q == 0 <==> && !SharesClass(c, b, want) && !(Growable(b, want) && env.growOk)
                            && !(Promotable(c, b, want) && env.promoteOk) && !env.allocOk)
  {
    var b := w.live[p];
    assert BlockOk(c, b);
    PathExact(c, b, want, env);
    hide ConfigOk, Path, EnvOk, Routed, Relocate, ClassSize, SharesClass, Growable, Promotable;
    if Path(c, b, want, env) == Relocated {
      RelocationFits(c, b, want, env);
      hide After, CopyLength;
      var x, n := After(c, b, want, env), CopyLength(c, b, want, env);
      RelocateKeeps(w, p, x, env.ptr, n, junk);
      Shorter(Relocate(w, p, x, env.ptr, n, junk).mem, env.ptr, w.mem, p, n, MinSize(b.size, want));
      RelocatedIn(w, p, x, env.ptr, n, junk);
    }
  }

  lemma RelocatedIn(w: World, p: nat, x: Block, to: nat, n: nat, junk: nat -> int)
    requires p in w.live
    ensures var r := Relocate(w, p, x, to, n, junk); to in r.live && r.live[to] == x
    ensures forall o :: o in Relocate(w, p, x, to, n, junk).live ==> o == to || (o in w.live && o != p)
    ensures forall o :: o in w.live && o != p && o != to ==> Relocate(w, p, x, to, n, junk).live[o] == w.live[o]
  {
  }

  /** The blocks stay separate, routed and large enough, except in the one case where the identity path of
      the big range keeps a large region too short for the new size. */
  lemma ReallocKeepsWorld(c: Config, w: World, p: nat, want: nat, env: Env, junk: nat -> int)
    requires ConfigOk(c) && WorldOk(c, w) && p in w.live && want > 0
    requires EnvOk(c, w.live[p], want, env) && Placed(c, w, p, want, env)
    ensures var b := w.live[p];
            WorldOk(c, Realloc(c, w, p, want, env, junk).0) <==>
            !(SameBigClass(c, b, want) && b.kind.Large? && want > b.usable)
  {
    var b := w.live[p];
    assert BlockOk(c, b);
    var path := Path(c, b, want, env);
    var x := After(c, b, want, env);
    var r := Realloc(c, w, p, want, env, junk).0;
    ReallocIsRouted(c, b, want, env);
    if path == Failed {
      FailedIsNotSame(c, b, want, env);
    } else {
      ReallocFitsExactly(c, b, want, env);
      if path == Relocated {
        RelocationFits(c, b, want, env);
        hide ConfigOk, Path, After, EnvOk, Routed, Relocate, CopyLength, SameBigClass;
        var n := CopyLength(c, b, want, env);
        RelocateKeeps(w, p, x, env.ptr, n, junk);
        RelocatedIn(w, p, x, env.ptr, n, junk);
      } else {
        InPlaceUsable(c, b, want, env);
        hide ConfigOk, Path, After, EnvOk, Routed, SameBigClass;
        ReplacedOk(c, w, p, x);
      }
    }
  }

  lemma FailedIsNotSame(c: Config, b: Block, want: nat, env: Env)
    requires ConfigOk(c) && Path(c, b, want, env) == Failed
    ensures !SameBigClass(c, b, want)
  {
    hide ConfigOk, ClassOf;
  }

  lemma InPlaceUsable(c: Config, b: Block, want: nat, env: Env)
    requires ConfigOk(c)
    ensures Path(c, b, want, env) == Same ==> After(c, b, want, env).usable == b.usable
  {
    hide ConfigOk, ClassOf;
  }

  lemma ReplacedOk(c: Config, w: World, p: nat, x: Block)
    requires ConfigOk(c) && WorldOk(c, w) && p in w.live && Routed(c, x) && FreeExtent(w.live, p, x.usable, p)
    ensures WorldOk(c, w.(live := w.live[p := x])) <==> Fits(x)
  {
    hide ConfigOk, Routed;
    var r := w.(live := w.live[p := x]);
    assert r.live[p] == x;
    forall o | o in w.live && o != p ensures BlockOk(c, r.live[o]) {
      assert r.live[o] == w.live[o];
    }
  }

  /** What a realloc answers: null only without memory, the same pointer exactly for one class or a granted
      growth, and otherwise the new block. */
  lemma ReallocAnswer(c: Config, w: World, p: nat, want: nat, env: Env, junk: nat -> int)
    requires ConfigOk(c) && WorldOk(c, w) && p in w.live && want > 0
    requires EnvOk(c, w.live[p], want, env) && Placed(c, w, p, want, env)
    ensures var b := w.live[p];
            var (r, q) := Realloc(c, w, p, want, env, junk);
            var grows, moves := Growable(b, want) && env.growOk, Promotable(c, b, want) && env.promoteOk;
            && (q == 0 <==> !SharesClass(c, b, want) && !grows && !moves && !env.allocOk)
            && (q == p <==> SharesClass(c, b, want) || grows)
            && (q == p ==> r.mem == w.mem && r.live.Keys == w.live.Keys)
            && (q != 0 && q != p ==> q == env.ptr && p !in r.live && (moves ==> r.live[q].kind.Large?))
            && (q != 0 && q != p && !moves ==> r.live[q].kind == Tier(c, want, b.align, env.bigOk))
  {
    var b := w.live[p];
    assert BlockOk(c, b);
    PathExact(c, b, want, env);
    hide ConfigOk, Path, After, Routed, SharesClass, Tier, CopyLength, Copied, Freed;
  }

  /** A promotion keeps all that the old block could hold, not only what its size says. */
  lemma PromotionKeepsAll(c: Config, w: World, p: nat, want: nat, env: Env, junk: nat -> int)
    requires ConfigOk(c) && WorldOk(c, w) && p in w.live && want > 0
    requires EnvOk(c, w.live[p], want, env) && Placed(c, w, p, want, env)
    requires Promotable(c, w.live[p], want) && env.promoteOk
    ensures var (r, q) := Realloc(c, w, p, want, env, junk);
            q == env.ptr && q in r.live && SameBytes(r.mem, q, w.mem, p, w.live[p].usable)
  {
    var b := w.live[p];
    assert BlockOk(c, b);
    PromotedPath(c, b, want, env);
    RelocationFits(c, b, want, env);
    var x, n := After(c, b, want, env), CopyLength(c, b, want, env);
    hide ConfigOk, Path, After, EnvOk, Routed, Relocate, CopyLength, Promotable, Tier, ClassOf;
    RelocateKeeps(w, p, x, env.ptr, n, junk);
    RelocatedIn(w, p, x, env.ptr, n, junk);
  }

  lemma PromotedPath(c: Config, b: Block, want: nat, env: Env)
    requires ConfigOk(c) && BlockOk(c, b) && Promotable(c, b, want) && env.promoteOk && want > 0
    ensures Path(c, b, want, env) == Relocated && CopyLength(c, b, want, env) == b.usable < want
  {
    PathExact(c, b, want, env);
    BigNotShared(c, b, want);
  }

  lemma BigNotShared(c: Config, b: Block, want: nat)
    requires ConfigOk(c) && BlockOk(c, b) && Promotable(c, b, want)
    ensures !SharesClass(c, b, want)
  {
  }
}
