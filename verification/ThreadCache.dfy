/**
 The per-thread cache (src/cache.rs): detached chains with a virgin watermark,
 exact byte accounting, trimming against a budget, and adoption of a dead
 thread's cache.

 The code keeps five arrays of chains. Here they lie one after the other in
 `chains`: small bins, active medium chains, medium bins, active big chains, big
 bins. `size[i]` is the block size of chain `i`.
 */
module ThreadCache {
  import opened Seqs
  import opened PageSpec
  import opened Ownership
  import LargeCache

  const REFILL_BATCH: nat := 64
  const FLUSH_CHUNK: nat := 2048

  function SaturatingSub(a: nat, b: nat): nat { if b <= a then a - b else 0 }

  /** A byte counter after `n` blocks left one at a time. */
  function Drained(bytes: nat, n: nat, size: nat): nat { SaturatingSub(bytes, n * size) }

  lemma DrainStart(bytes: nat, size: nat)
    ensures Drained(bytes, 0, size) == bytes
  {
  }

  lemma DrainMore(bytes: nat, n: nat, m: nat, size: nat)
    ensures Drained(Drained(bytes, n, size), m, size) == Drained(bytes, n + m, size)
  {
    assert (n + m) * size == n * size + m * size;
  }

  lemma DrainStep(bytes: nat, n: nat, size: nat)
    ensures SaturatingSub(Drained(bytes, n, size), size) == Drained(bytes, n + 1, size)
  {
    assert (n + 1) * size == n * size + size;
  }

  // ------------------------------------------------------ sums over the chains

  function Weight(c: Chain, size: nat): nat { |c.blocks| * size }

  function Bytes(c: seq<Chain>, size: seq<nat>, lo: nat): nat
    requires |c| == |size|
    decreases |c| - lo
  {
    if lo >= |c| then 0 else Weight(c[lo], size[lo]) + Bytes(c, size, lo + 1)
  }

  function Count(c: seq<Chain>, lo: nat): nat
    decreases |c| - lo
  {
    if lo >= |c| then 0 else |c[lo].blocks| + Count(c, lo + 1)
  }

  ghost function Blocks(c: seq<Chain>, lo: nat): multiset<Block>
    decreases |c| - lo
  {
    if lo >= |c| then multiset{} else multiset(c[lo].blocks) + Blocks(c, lo + 1)
  }

  lemma {:induction false} BytesUpdate(c: seq<Chain>, size: seq<nat>, lo: nat, i: nat, x: Chain)
    requires |c| == |size| && i < |c|
    ensures lo <= i ==>
      Bytes(c[i := x], size, lo) == Bytes(c, size, lo) - Weight(c[i], size[i]) + Weight(x, size[i])
    ensures lo > i ==> Bytes(c[i := x], size, lo) == Bytes(c, size, lo)
    decreases |c| - lo
  {
    if lo < |c| {
      BytesUpdate(c, size, lo + 1, i, x);
    }
  }

  lemma {:induction false} CountUpdate(c: seq<Chain>, lo: nat, i: nat, x: Chain)
    requires i < |c|
    ensures lo <= i ==> Count(c[i := x], lo) == Count(c, lo) - |c[i].blocks| + |x.blocks|
    ensures lo > i ==> Count(c[i := x], lo) == Count(c, lo)
    decreases |c| - lo
  {
    if lo < |c| {
      CountUpdate(c, lo + 1, i, x);
    }
  }

  lemma {:induction false} BlocksUpdate(c: seq<Chain>, lo: nat, i: nat, x: Chain)
    requires i < |c|
    ensures lo <= i ==> Blocks(c[i := x], lo) + multiset(c[i].blocks) == Blocks(c, lo) + multiset(x.blocks)
    ensures lo > i ==> Blocks(c[i := x], lo) == Blocks(c, lo)
    decreases |c| - lo
  {
    if lo < |c| {
      BlocksUpdate(c, lo + 1, i, x);
      var l, r := Blocks(c[i := x], lo) + multiset(c[i].blocks), Blocks(c, lo) + multiset(x.blocks);
      if lo < i {
        var l', r' := Blocks(c[i := x], lo + 1) + multiset(c[i].blocks), Blocks(c, lo + 1) + multiset(x.blocks);
        assert l == multiset(c[lo].blocks) + l' && r == multiset(c[lo].blocks) + r';
      } else if lo == i {
        assert l == multiset(x.blocks) + Blocks(c, lo + 1) + multiset(c[i].blocks);
      }
    }
  }

  lemma {:induction false} BytesAtLeast(c: seq<Chain>, size: seq<nat>, lo: nat, i: nat)
    requires |c| == |size| && lo <= i < |c|
    ensures Weight(c[i], size[i]) <= Bytes(c, size, lo)
    decreases |c| - lo
  {
    if lo < i {
      BytesAtLeast(c, size, lo + 1, i);
    }
  }

  lemma {:induction false} BytesZero(c: seq<Chain>, size: seq<nat>, lo: nat)
    requires |c| == |size| && (forall i :: 0 <= i < |size| ==> size[i] > 0)
    ensures Bytes(c, size, lo) == 0 <==> forall i :: lo <= i < |c| ==> c[i].blocks == []
    ensures Bytes(c, size, lo) == 0 <==> Blocks(c, lo) == multiset{}
    decreases |c| - lo
  {
    if lo < |c| {
      BytesZero(c, size, lo + 1);
      if c[lo].blocks != [] {
        assert Weight(c[lo], size[lo]) >= 1;
        assert c[lo].blocks[0] in multiset(c[lo].blocks);
      }
    }
  }

  lemma Cancel<T>(a2: multiset<T>, c: multiset<T>, a: multiset<T>, x: multiset<T>, d: multiset<T>)
    requires a2 + c == a + x && c == x + d
    ensures a2 + d == a
  {
    forall e ensures (a2 + d)[e] == a[e] {
      assert (a2 + c)[e] == (a + x)[e];
    }
  }

  /** Everything that replacing one chain does to the sums. */
  lemma Replaced(c: seq<Chain>, size: seq<nat>, small: nat, i: nat, x: Chain)
    requires |c| == |size| && i < |c|
    ensures Bytes(c[i := x], size, 0) == Bytes(c, size, 0) - Weight(c[i], size[i]) + Weight(x, size[i])
    ensures Bytes(c[i := x], size, small) ==
            if i >= small then Bytes(c, size, small) - Weight(c[i], size[i]) + Weight(x, size[i]) else Bytes(c, size, small)
    ensures Weight(c[i], size[i]) <= Bytes(c, size, 0) && (i >= small ==> Weight(c[i], size[i]) <= Bytes(c, size, small))
    ensures Count(c[i := x], 0) == Count(c, 0) - |c[i].blocks| + |x.blocks|
    ensures Blocks(c[i := x], 0) + multiset(c[i].blocks) == Blocks(c, 0) + multiset(x.blocks)
  {
    BytesUpdate(c, size, 0, i, x);
    BytesUpdate(c, size, small, i, x);
    BytesAtLeast(c, size, 0, i);
    if i >= small {
      BytesAtLeast(c, size, small, i);
    }
    CountUpdate(c, 0, i, x);
    BlocksUpdate(c, 0, i, x);
  }

  lemma WeightSplit(c: Chain, m: nat, v: nat, size: nat)
    requires m <= |c.blocks|
    ensures Weight(c, size) == Weight(Chain(c.blocks[..m], v), size) + (|c.blocks| - m) * size
    ensures |c.blocks| == m + 1 ==> Weight(c, size) == Weight(Chain(c.blocks[..m], v), size) + size
    ensures multiset(c.blocks) == multiset(c.blocks[..m]) + multiset(c.blocks[m..])
  {
    assert c.blocks == c.blocks[..m] + c.blocks[m..];
  }

  class Cache {
    const small: nat                     // number of small classes
    const medium: nat                    // number of medium classes
    const big: nat                       // number of big classes
    const size: seq<nat>
    var chains: seq<Chain>
    var cachedBytes: nat
    var tierBytes: nat
    var budget: nat
    var large: seq<LargeCache.Entry>     // the stash of large regions

    ghost predicate Shape()
      reads this
    {
      && |chains| == |size| == small + 2 * medium + 2 * big
      && (forall i :: 0 <= i < |size| ==> size[i] > 0)
      && (forall i :: 0 <= i < |chains| ==> chains[i].virgin <= |chains[i].blocks|)
    }

    /** Both counters equal the bytes on the chains they count. */
    ghost predicate Valid()
      reads this
    {
      Shape() && cachedBytes == Bytes(chains, size, 0) && tierBytes == Bytes(chains, size, small)
    }

    /** Allocation hit: pop a chain; `zeroed` reports that the block was never handed out. */
    method Pop(i: nat) returns (b: Block, zeroed: bool)
      requires Valid() && i < |chains| && chains[i].blocks != []
      modifies this`chains, this`cachedBytes, this`tierBytes
      ensures Valid()
      ensures var c := old(chains)[i];
              b == c.blocks[|c.blocks| - 1] && zeroed == ReportsZero(c) && chains == old(chains)[i := PopChain(c)]
      ensures cachedBytes == old(cachedBytes) - size[i]
      ensures Blocks(chains, 0) + multiset{b} == old(Blocks(chains, 0))
    {
      hide Weight, Bytes, Blocks, Count;
      var c := chains[i];
      var below := |c.blocks| - 1;
      b := c.blocks[below];
      zeroed := below < c.virgin;
      var x := Chain(c.blocks[..below], if zeroed then c.virgin - 1 else c.virgin);
      Replaced(chains, size, small, i, x);
      WeightSplit(c, below, x.virgin, size[i]);
      assert c.blocks[below..] == [b];
      Cancel(Blocks(chains[i := x], 0), multiset(c.blocks), Blocks(chains, 0), multiset(x.blocks), multiset{b});
      cachedBytes := cachedBytes - size[i];
      if i >= small {
        tierBytes := SaturatingSub(tierBytes, size[i]);
      }
      chains := chains[i := x];
    }

    /** Free: push a block; the watermark still describes the blocks below it. */
    method Push(i: nat, b: Block)
      requires Valid() && i < |chains|
      modifies this`chains, this`cachedBytes, this`tierBytes
      ensures Valid() && chains == old(chains)[i := PushChain(old(chains)[i], b)]
      ensures Blocks(chains, 0) == old(Blocks(chains, 0)) + multiset{b}
    {
      hide Weight, Bytes, Blocks, Count;
      var c := chains[i];
      var x := c.(blocks := c.blocks + [b]);
      Replaced(chains, size, small, i, x);
      WeightSplit(x, |c.blocks|, c.virgin, size[i]);
      assert x.blocks[..|c.blocks|] == c.blocks && x.blocks[|c.blocks|..] == [b];
      Cancel(Blocks(chains, 0), multiset(x.blocks), Blocks(chains[i := x], 0), multiset(c.blocks), multiset{b});
      cachedBytes := cachedBytes + size[i];
      if i >= small {
        tierBytes := tierBytes + size[i];
      }
      chains := chains[i := x];
    }

    /** Refill of an empty chain: the top block of the batch goes to the caller, the rest stays. */
    method Install(i: nat, batch: seq<Block>, virgin: bool) returns (first: Block)
      requires Valid() && i < |chains| && chains[i].blocks == [] && batch != []
      modifies this`chains, this`cachedBytes, this`tierBytes
      ensures Valid() && first == batch[|batch| - 1]
      ensures chains == old(chains)[i := Chain(batch[..|batch| - 1], if virgin then |batch| - 1 else 0)]
      ensures Blocks(chains, 0) + multiset{first} == old(Blocks(chains, 0)) + multiset(batch)
    {
      hide Bytes, Blocks, Count;
      var n := |batch| - 1;
      first := batch[n];
      var x := Chain(batch[..n], if virgin then n else 0);
      assert batch == batch[..n] + [first];
      Replaced(chains, size, small, i, x);
      assert Blocks(chains[i := x], 0) == Blocks(chains, 0) + multiset(x.blocks);
      cachedBytes := cachedBytes + size[i] * n;
      if i >= small {
        tierBytes := tierBytes + size[i] * n;
      }
      chains := chains[i := x];
    }

    /** Pop blocks off a chain until `floor` are left or a chunk is full. */
    method PopUpTo(i: nat, floor: nat, chunk: nat) returns (out: seq<Block>)
      requires Shape() && i < |chains| && floor < |chains[i].blocks|
      modifies this`chains, this`cachedBytes, this`tierBytes
      ensures |out| == Min(chunk, |old(chains)[i].blocks| - floor)
      ensures Shape() && chains == old(chains)[i := Keep(old(chains)[i], |old(chains)[i].blocks| - |out|)]
      ensures out == Excess(old(chains)[i], |old(chains)[i].blocks| - |out|)
      ensures cachedBytes == Drained(old(cachedBytes), |out|, size[i])
      ensures tierBytes == if i >= small then Drained(old(tierBytes), |out|, size[i]) else old(tierBytes)
    {
      hide Drained;
      DrainStart(cachedBytes, size[i]);
      DrainStart(tierBytes, size[i]);
      var c := chains[i];
      out := [];
      while |chains[i].blocks| > floor && |out| < chunk
        invariant |chains| == |old(chains)| && |out| <= chunk && FlushInv(c, chains[i], floor, out)
        invariant chains == old(chains)[i := chains[i]]
        invariant cachedBytes == Drained(old(cachedBytes), |out|, size[i])
        invariant tierBytes == if i >= small then Drained(old(tierBytes), |out|, size[i]) else old(tierBytes)
        decreases |chains[i].blocks|
      {
        var x := chains[i];
        var below := |x.blocks| - 1;
        var b := x.blocks[below];
        assert c.blocks[below..] == [b] + c.blocks[below + 1..];
        chains := chains[i := Chain(x.blocks[..below], if below < x.virgin then x.virgin - 1 else x.virgin)];
        assert x.blocks[..below] == c.blocks[..below];
        DrainStep(old(cachedBytes), |out|, size[i]);
        DrainStep(old(tierBytes), |out|, size[i]);
        out := [b] + out;
        cachedBytes := SaturatingSub(cachedBytes, size[i]);
        if i >= small {
          tierBytes := SaturatingSub(tierBytes, size[i]);
        }
      }
    }

    /** Shrink a chain to `floor` blocks; the removed blocks go back to the heap, one chunk for each time the
        lock is taken, and every chunk but the last is full. */
    method FlushTo(i: nat, floor: nat, chunk: nat) returns (flushed: seq<Block>, ghost chunks: seq<nat>)
      requires Shape() && i < |chains| && chunk > 0
      modifies this`chains, this`cachedBytes, this`tierBytes
      ensures Shape() && chains == old(chains)[i := Keep(old(chains)[i], floor)]
      ensures flushed == Excess(old(chains)[i], floor) && Chunked(chunks, chunk, |flushed|)
      ensures cachedBytes == Drained(old(cachedBytes), |flushed|, size[i])
      ensures tierBytes == if i >= small then Drained(old(tierBytes), |flushed|, size[i]) else old(tierBytes)
    {
      hide Drained, Full, Chunked;
      DrainStart(cachedBytes, size[i]);
      DrainStart(tierBytes, size[i]);
      var c := chains[i];
      flushed, chunks := [], [];
      NoChunk(chunk);
      while |chains[i].blocks| > floor
        invariant |chains| == |old(chains)| && FlushInv(c, chains[i], floor, flushed)
        invariant if |chains[i].blocks| > floor then Full(chunks, chunk, |flushed|) else Chunked(chunks, chunk, |flushed|)
        invariant chains == old(chains)[i := chains[i]]
        invariant cachedBytes == Drained(old(cachedBytes), |flushed|, size[i])
        invariant tierBytes == if i >= small then Drained(old(tierBytes), |flushed|, size[i]) else old(tierBytes)
        decreases |chains[i].blocks|
      {
        var out := PopUpTo(i, floor, chunk);
        DrainMore(old(cachedBytes), |flushed|, |out|, size[i]);
        DrainMore(old(tierBytes), |flushed|, |out|, size[i]);
        AddChunk(chunks, chunk, |flushed|, |out|);
        FlushMore(c, flushed, out, floor);
        flushed := out + flushed;
        chunks := chunks + [|out|];
      }
    }

    /** The first heaviest chain of a range among those longer than `min`; `none` if there is none. */
    method Heaviest(lo: nat, hi: nat, min: nat) returns (none: bool, best: nat, bytes: nat)
      requires Shape() && lo <= hi <= |chains|
      ensures none ==> bytes == 0 && Light(chains, lo, hi, min)
      ensures !none ==> lo <= best < hi && IsHeaviest(chains, size, lo, hi, min, best) && bytes == Weight(chains[best], size[best])
      ensures !none ==> |chains[best].blocks| > min
      ensures bytes == 0 <==> none
      ensures none <==> Light(chains, lo, hi, min)
      ensures min == 0 ==> forall i :: lo <= i < hi ==> Weight(chains[i], size[i]) <= bytes
    {
      hide Weight, Light, IsHeaviest;
      none, best, bytes := true, 0, 0;
      var i := lo;
      NoneYet(chains, lo, min);
      while i < hi
        invariant lo <= i <= hi
        invariant if none then bytes == 0 && Light(chains, lo, i, min)
                  else best < |chains| && IsHeaviest(chains, size, lo, i, min, best) && bytes == Weight(chains[best], size[best]) > 0
      {
        var w := |chains[i].blocks| * size[i];
        Weigh(chains[i], size[i], min);
        if none {
          FirstHeavy(chains, size, lo, i, min);
        } else {
          NextHeavy(chains, size, lo, i, min, best);
        }
        if |chains[i].blocks| > min && w > bytes {
          none, best, bytes := false, i, w;
        }
        i := i + 1;
      }
      HeavyEnds(chains, size, lo, hi, min, best);
    }

    /** One round of trimming: flush a chain down to `floor`, keeping the accounts exact. */
    method Shed(i: nat, floor: nat) returns (out: seq<Block>)
      requires Valid() && i < |chains| && floor < |chains[i].blocks|
      modifies this`chains, this`cachedBytes, this`tierBytes
      ensures Valid() && |chains| == |old(chains)| && Count(chains, 0) < old(Count(chains, 0))
      ensures Blocks(chains, 0) + multiset(out) == old(Blocks(chains, 0))
      ensures chains == old(chains)[i := Keep(old(chains)[i], floor)] && out == Excess(old(chains)[i], floor)
      ensures forall j :: 0 <= j < |chains| ==> chains[j] == Keep(old(chains)[j], |chains[j].blocks|)
    {
      FlushExact(chains, size, small, i, floor);
      ghost var chunks;
      out, chunks := FlushTo(i, floor, FLUSH_CHUNK);
      forall j | 0 <= j < |chains| ensures chains[j] == Keep(old(chains)[j], |chains[j].blocks|) {
        assert old(chains)[j].blocks[..|old(chains)[j].blocks|] == old(chains)[j].blocks;
      }
    }

    /** Halve the heaviest small bin, else flush active chains, else halve the heaviest medium or
        big bin, until the cached bytes are at the target or nothing is left to trim. `trace` records
        the chains after each round. */
    method Trim() returns (flushed: seq<Block>, ghost trace: seq<seq<Chain>>)
      requires Valid()
      modifies this`chains, this`cachedBytes, this`tierBytes
      ensures Valid()
      ensures var target := budget / 2 + Min(old(tierBytes), 2 * budget);
              && (cachedBytes <= target || Untrimmable())
              && Rounds(Lay(), trace, target) && trace[0] == old(chains) && trace[|trace| - 1] == chains
              && (old(cachedBytes) <= target ==> chains == old(chains) && flushed == [])
      ensures Blocks(chains, 0) + multiset(flushed) == old(Blocks(chains, 0))
      ensures forall j :: 0 <= j < |chains| ==> chains[j] == Keep(old(chains)[j], |chains[j].blocks|)
    {
      hide Weight, Bytes, Count, Blocks, Keep, Victim;
      var target := budget / 2 + Min(tierBytes, 2 * budget);
      flushed, trace := [], [chains];
      SelfKeep(chains);
      while cachedBytes > target
        invariant Valid() && |chains| == |old(chains)|
        invariant Blocks(chains, 0) + multiset(flushed) == old(Blocks(chains, 0))
        invariant forall j :: 0 <= j < |chains| ==> chains[j] == Keep(old(chains)[j], |chains[j].blocks|)
        invariant Rounds(Lay(), trace, target) && trace[0] == old(chains) && trace[|trace| - 1] == chains
        invariant old(cachedBytes) <= target ==> chains == old(chains) && flushed == [] && cachedBytes == old(cachedBytes)
        decreases Count(chains, 0)
      {
        var stop, best, floor := PickVictim();
        if stop {
          break;
        }
        ghost var before := chains;
        var out := Shed(best, floor);
        TrimStep(old(chains), before, chains, flushed, out);
        flushed := flushed + out;
        OneRound(Lay(), trace, target, best, floor);
        trace := trace + [chains];
      }
    }

    /** How the chains are laid out. */
    function Lay(): Layout { Layout(small, medium, big, size) }

    /** The chain one round of trimming flushes and how far: the heaviest small bin longer than a
        batch by half, else a medium or big chain. It stops exactly when nothing can be trimmed. */
    method PickVictim() returns (stop: bool, best: nat, floor: nat)
      requires Shape()
      ensures stop <==> Untrimmable()
      ensures !stop ==> best < |chains| && floor < |chains[best].blocks|
      ensures !stop ==> Victim(Lay(), chains, best, floor)
    {
      hide Weight, SpanVictim;
      stop, floor := false, 0;
      var none: bool;
      var w: nat;
      none, best, w := Heaviest(0, small, REFILL_BATCH);
      if !none {
        floor := |chains[best].blocks| / 2;
        return;
      }
      stop, best, floor := PickSpan();
    }

    /** The medium and big chains, once no small bin is worth trimming. */
    method PickSpan() returns (stop: bool, best: nat, floor: nat)
      requires Shape()
      ensures stop <==> forall i :: small <= i < |chains| ==> chains[i].blocks == []
      ensures !stop ==> small <= best < |chains| && floor < |chains[best].blocks| && SpanVictim(Lay(), chains, best, floor)
    {
      hide Weight, BinVictim, IsHeaviest, Light;
      SpansLight(Lay(), chains);
      var ma, mb, ba, bb := small, small + medium, small + 2 * medium, small + 2 * medium + big;
      stop, floor := false, 0;
      var none: bool;
      var w: nat;
      none, best, w := Heaviest(ma, mb, 0);
      if !none {
        return;
      }
      none, best, w := Heaviest(ba, bb, 0);
      if !none {
        return;
      }
      stop, best, floor := PickBin();
    }

    method PickBin() returns (stop: bool, best: nat, floor: nat)
      requires Shape()
      ensures stop <==> Light(chains, small + medium, small + 2 * medium, 0) && Light(chains, small + 2 * medium + big, |chains|, 0)
      ensures !stop ==> small <= best < |chains| && floor < |chains[best].blocks| && BinVictim(Lay(), chains, best, floor)
    {
      hide Weight, IsHeaviest, Light;
      var mb, ba, bb := small + medium, small + 2 * medium, small + 2 * medium + big;
      stop, floor := false, 0;
      var mNone, m, mBytes := Heaviest(mb, ba, 0);
      var none, b, w := Heaviest(bb, |chains|, 0);
      best := b;
      if none || w <= mBytes {
        if mNone {
          stop := true;
          return;
        }
        best := m;
      }
      floor := |chains[best].blocks| / 2;
    }

    /** Take over the donor's chain for every small class whose bin is empty here. The donor's
        counter is not lowered. */
    method StealEmptyBins(other: Cache) returns (stolen: nat)
      requires other != this && Valid() && other.Valid() && small == other.small && size == other.size
      modifies this`chains, this`cachedBytes, other`chains
      ensures Valid() && other.Shape() && cachedBytes == old(cachedBytes) + stolen
      ensures other.cachedBytes == Bytes(other.chains, size, 0) + stolen
      ensures Blocks(chains, 0) + Blocks(other.chains, 0) == old(Blocks(chains, 0)) + old(Blocks(other.chains, 0))
      ensures forall i :: 0 <= i < |chains| ==>
                if i < small && old(chains)[i].blocks == [] && old(other.chains)[i].blocks != []
                then chains[i] == old(other.chains)[i] && other.chains[i] == Chain([], 0)
                else chains[i] == old(chains)[i] && other.chains[i] == old(other.chains)[i]
    {
      hide Weight, Bytes, Blocks, Count;
      stolen := 0;
      var i := 0;
      while i < small
        invariant 0 <= i <= small && Valid() && other.Shape() && |chains| == |other.chains| == |old(chains)|
        invariant cachedBytes == old(cachedBytes) + stolen
        invariant other.cachedBytes == Bytes(other.chains, size, 0) + stolen
        invariant Blocks(chains, 0) + Blocks(other.chains, 0) == old(Blocks(chains, 0)) + old(Blocks(other.chains, 0))
        invariant forall j :: i <= j < |chains| ==> chains[j] == old(chains)[j] && other.chains[j] == old(other.chains)[j]
        invariant forall j :: 0 <= j < i ==>
                    if old(chains)[j].blocks == [] && old(other.chains)[j].blocks != []
                    then chains[j] == old(other.chains)[j] && other.chains[j] == Chain([], 0)
                    else chains[j] == old(chains)[j] && other.chains[j] == old(other.chains)[j]
      {
        if other.chains[i].blocks != [] && chains[i].blocks == [] {
          var c := other.chains[i];
          StealStep(chains, other.chains, size, small, i);
          chains := chains[i := c];
          other.chains := other.chains[i := Chain([], 0)];
          cachedBytes := cachedBytes + size[i] * |c.blocks|;
          stolen := stolen + size[i] * |c.blocks|;
        }
        i := i + 1;
      }
    }

    /** Return every cached block and region; the accounts are exact afterwards whatever they were before. */
    method FlushAll() returns (flushed: seq<Block>, regions: seq<LargeCache.Entry>)
      requires Shape()
      modifies this`chains, this`cachedBytes, this`tierBytes, this`large
      ensures Valid() && cachedBytes == 0 && tierBytes == 0
      ensures regions == old(large) && large == []
      ensures |chains| == |old(chains)| && forall i :: 0 <= i < |chains| ==> chains[i] == Chain([], 0)
      ensures multiset(flushed) == old(Blocks(chains, 0))
    {
      hide Weight, Bytes, Blocks, Count;
      flushed := [];
      var i := 0;
      while i < |chains|
        invariant 0 <= i <= |chains| == |old(chains)| && Shape() && large == old(large)
        invariant forall j :: 0 <= j < i ==> chains[j] == Chain([], 0)
        invariant Blocks(chains, 0) + multiset(flushed) == old(Blocks(chains, 0))
      {
        FlushExact(chains, size, small, i, 0);
        var out, chunks := FlushTo(i, 0, FLUSH_CHUNK);
        flushed := flushed + out;
        i := i + 1;
      }
      regions, large := large, [];
      cachedBytes, tierBytes := 0, 0;
      BytesZero(chains, size, 0);
      BytesZero(chains, size, small);
    }

    /** Partial adoption: what could not be stolen goes back to the heap, and nothing is lost or duplicated. */
    method AdoptPartly(other: Cache) returns (flushed: seq<Block>, regions: seq<LargeCache.Entry>)
      requires other != this && Valid() && other.Valid() && small == other.small && size == other.size
      modifies this`chains, this`cachedBytes, other`chains, other`cachedBytes, other`tierBytes, other`large
      ensures Valid() && other.Valid() && other.cachedBytes == 0
      ensures |chains| == |old(chains)| == |old(other.chains)|
      ensures forall i :: 0 <= i < |chains| ==>
                chains[i] == if i < small && old(chains)[i].blocks == [] && old(other.chains)[i].blocks != []
                             then old(other.chains)[i] else old(chains)[i]
      ensures forall i :: 0 <= i < |other.chains| ==> other.chains[i] == Chain([], 0)
      ensures large + regions == old(large) + old(other.large) && other.large == []
      ensures Blocks(chains, 0) + multiset(flushed) == old(Blocks(chains, 0)) + old(Blocks(other.chains, 0))
    {
      hide Bytes, Blocks;
      var stolen := StealEmptyBins(other);
      flushed, regions := other.FlushAll();
    }

    /** Whole adoption, allowed when the counter reads zero and the stash is empty: the replaced cache held
        nothing. */
    method AdoptWhole(other: Cache) returns (adopted: bool)
      requires other != this && Valid() && other.Valid() && small == other.small && size == other.size
      modifies this`chains, this`cachedBytes, this`tierBytes, this`large
      ensures Valid() && adopted == (old(Blocks(chains, 0)) == multiset{} && old(large) == [])
      ensures adopted ==> Blocks(chains, 0) == old(Blocks(chains, 0)) + Blocks(other.chains, 0)
      ensures adopted ==> chains == other.chains && large == old(large) + other.large
      ensures !adopted ==> chains == old(chains) && large == old(large)
    {
      BytesZero(chains, size, 0);
      adopted := cachedBytes == 0 && |large| == 0;
      if adopted {
        chains, cachedBytes, tierBytes, large := other.chains, other.cachedBytes, other.tierBytes, other.large;
      }
    }

    /** Every medium and big chain is empty and every small bin is at most one batch. */
    ghost predicate Untrimmable()
      reads this
      requires |chains| >= small
    {
      && (forall i :: 0 <= i < small ==> |chains[i].blocks| <= REFILL_BATCH)
      && (forall i :: small <= i < |chains| ==> chains[i].blocks == [])
    }
  }

  // --------------------------------------------------------- what is trimmed

  /** Small bins, active medium chains, medium bins, active big chains and big bins, in this order. */
  datatype Layout = Layout(small: nat, medium: nat, big: nat, size: seq<nat>)

  ghost predicate Laid(l: Layout, c: seq<Chain>) { |c| == |l.size| == l.small + 2 * l.medium + 2 * l.big }

  /** No chain of the range is longer than `min`. */
  ghost predicate Light(c: seq<Chain>, lo: nat, hi: nat, min: nat) {
    forall i :: lo <= i < hi && i < |c| ==> |c[i].blocks| <= min
  }

  /** `best` is the first heaviest chain of the range among those longer than `min`. */
  ghost predicate IsHeaviest(c: seq<Chain>, size: seq<nat>, lo: nat, hi: nat, min: nat, best: nat)
    requires |c| == |size|
  {
    && lo <= best < hi && best < |c| && |c[best].blocks| > min
    && (forall i :: lo <= i < hi && i < |c| && |c[i].blocks| > min ==> Weight(c[i], size[i]) <= Weight(c[best], size[best]))
    && (forall i :: lo <= i < best && |c[i].blocks| > min ==> Weight(c[i], size[i]) < Weight(c[best], size[best]))
  }

  lemma NoneYet(c: seq<Chain>, lo: nat, min: nat)
    ensures Light(c, lo, lo, min)
  {
  }

  lemma Weigh(c: Chain, size: nat, min: nat)
    requires size > 0
    ensures Weight(c, size) == |c.blocks| * size && (|c.blocks| > min ==> Weight(c, size) > 0)
  {
    if |c.blocks| > min {
      assert |c.blocks| * size >= size;
    }
  }

  lemma FirstHeavy(c: seq<Chain>, size: seq<nat>, lo: nat, i: nat, min: nat)
    requires |c| == |size| && lo <= i < |c| && Light(c, lo, i, min)
    ensures if |c[i].blocks| > min then IsHeaviest(c, size, lo, i + 1, min, i) else Light(c, lo, i + 1, min)
  {
    hide Weight;
  }

  lemma NextHeavy(c: seq<Chain>, size: seq<nat>, lo: nat, i: nat, min: nat, best: nat)
    requires |c| == |size| && lo <= i < |c| && best < |c| && IsHeaviest(c, size, lo, i, min, best)
    ensures IsHeaviest(c, size, lo, i + 1, min,
                       if |c[i].blocks| > min && Weight(c[i], size[i]) > Weight(c[best], size[best]) then i else best)
  {
    hide Weight;
  }

  lemma HeavyEnds(c: seq<Chain>, size: seq<nat>, lo: nat, hi: nat, min: nat, best: nat)
    requires |c| == |size| && lo <= hi <= |c|
    ensures best < |c| && IsHeaviest(c, size, lo, hi, min, best) ==>
              !Light(c, lo, hi, min) && lo <= best < hi && |c[best].blocks| > min && (min == 0 ==> forall i :: lo <= i < hi ==> Weight(c[i], size[i]) <= Weight(c[best], size[best]))
    ensures Light(c, lo, hi, min) && min == 0 ==> forall i :: lo <= i < hi ==> Weight(c[i], size[i]) == 0
  {
    forall i | lo <= i < hi && c[i].blocks == [] ensures Weight(c[i], size[i]) == 0 {
    }
    hide Weight;
  }

  ghost predicate HeavierThan(c: seq<Chain>, size: seq<nat>, lo: nat, hi: nat, best: nat, strict: bool)
    requires |c| == |size| && best < |c|
  {
    forall i :: lo <= i < hi && i < |c| ==>
      Weight(c[i], size[i]) < Weight(c[best], size[best]) || (!strict && Weight(c[i], size[i]) == Weight(c[best], size[best]))
  }

  /** What one round of trimming flushes: half of the heaviest small bin longer than a batch, else a
      medium or big chain. */
  ghost predicate Victim(l: Layout, c: seq<Chain>, best: nat, floor: nat)
    requires Laid(l, c)
  {
    if !Light(c, 0, l.small, REFILL_BATCH)
    then IsHeaviest(c, l.size, 0, l.small, REFILL_BATCH, best) && floor == |c[best].blocks| / 2
    else SpanVictim(l, c, best, floor)
  }

  /** Among the medium and big chains: a whole active medium chain, else a whole active big chain, else half
      of the heavier of the heaviest bins. */
  ghost predicate SpanVictim(l: Layout, c: seq<Chain>, best: nat, floor: nat)
    requires Laid(l, c)
  {
    var ma, mb, ba, bb := l.small, l.small + l.medium, l.small + 2 * l.medium, l.small + 2 * l.medium + l.big;
    if !Light(c, ma, mb, 0) then IsHeaviest(c, l.size, ma, mb, 0, best) && floor == 0
    else if !Light(c, ba, bb, 0) then IsHeaviest(c, l.size, ba, bb, 0, best) && floor == 0
    else BinVictim(l, c, best, floor)
  }

  /** Half of the heavier of the heaviest medium and big bins; the medium one if they weigh the same. */
  ghost predicate BinVictim(l: Layout, c: seq<Chain>, best: nat, floor: nat)
    requires Laid(l, c)
  {
    var mb, ba, bb := l.small + l.medium, l.small + 2 * l.medium, l.small + 2 * l.medium + l.big;
    && best < |c| && floor == |c[best].blocks| / 2
    && (best < ba ==> IsHeaviest(c, l.size, mb, ba, 0, best) && HeavierThan(c, l.size, bb, |c|, best, false))
    && (best >= ba ==> IsHeaviest(c, l.size, bb, |c|, 0, best) && HeavierThan(c, l.size, mb, ba, best, true))
  }

  lemma SpansLight(l: Layout, c: seq<Chain>)
    requires Laid(l, c)
    ensures (forall i :: l.small <= i < |c| ==> c[i].blocks == []) <==>
            && Light(c, l.small, l.small + l.medium, 0) && Light(c, l.small + l.medium, l.small + 2 * l.medium, 0)
            && Light(c, l.small + 2 * l.medium, l.small + 2 * l.medium + l.big, 0)
            && Light(c, l.small + 2 * l.medium + l.big, |c|, 0)
  {
  }

  /** One round of trimming flushes the victim down to its floor and leaves every other chain alone. */
  ghost predicate Round(l: Layout, a: seq<Chain>, b: seq<Chain>) {
    Laid(l, a) && exists best: nat, floor: nat :: best < |a| && Victim(l, a, best, floor) && b == a[best := Keep(a[best], floor)]
  }

  /** The chains from round to round; each round starts above the target. */
  ghost predicate Rounds(l: Layout, t: seq<seq<Chain>>, target: nat) {
    && t != [] && (forall k :: 0 <= k < |t| ==> Laid(l, t[k]))
    && (forall k :: 0 <= k < |t| - 1 ==> Bytes(t[k], l.size, 0) > target && Round(l, t[k], t[k + 1]))
  }

  lemma OneRound(l: Layout, t: seq<seq<Chain>>, target: nat, best: nat, floor: nat)
    requires Rounds(l, t, target)
    requires var c := t[|t| - 1]; best < |c| && Victim(l, c, best, floor) && Bytes(c, l.size, 0) > target
    ensures var c := t[|t| - 1]; Rounds(l, t + [c[best := Keep(c[best], floor)]], target)
  {
    hide Bytes, Victim;
    var c := t[|t| - 1];
    var r := t + [c[best := Keep(c[best], floor)]];
    forall k | 0 <= k < |r| - 1 ensures Bytes(r[k], l.size, 0) > target && Round(l, r[k], r[k + 1]) {
      assert r[k] == t[k];
    }
  }

  /** Taking more off what is left of a chain. */
  lemma FlushMore(c: Chain, flushed: seq<Block>, out: seq<Block>, floor: nat)
    requires |flushed| + |out| <= |c.blocks| && floor <= |c.blocks| - |flushed| - |out|
    requires var n := |c.blocks| - |flushed|;
             c.virgin <= |c.blocks| && flushed == c.blocks[n..] && out == Excess(Keep(c, n), n - |out|)
    ensures var n := |c.blocks| - |flushed|;
            FlushInv(c, Keep(Keep(c, n), n - |out|), floor, out + flushed)
  {
  }

  lemma NoChunk(chunk: nat)
    ensures Full([], chunk, 0) && Chunked([], chunk, 0)
  {
  }

  /** `n` blocks in full chunks. */
  ghost predicate Full(chunks: seq<nat>, chunk: nat, n: int) {
    n == |chunks| * chunk && forall k :: 0 <= k < |chunks| ==> chunks[k] == chunk
  }

  /** `n` blocks in chunks of which only the last may be short, and none is empty. */
  ghost predicate Chunked(chunks: seq<nat>, chunk: nat, n: nat) {
    (chunks == [] && n == 0) ||
    (chunks != [] && var last := |chunks| - 1; 0 < chunks[last] <= chunk && Full(chunks[..last], chunk, n - chunks[last]))
  }

  lemma AddChunk(chunks: seq<nat>, chunk: nat, n: nat, more: nat)
    requires Full(chunks, chunk, n)
    ensures 0 < more <= chunk ==> Chunked(chunks + [more], chunk, n + more)
    ensures more == chunk ==> Full(chunks + [more], chunk, n + more)
  {
    assert (chunks + [more])[..|chunks|] == chunks;
    assert (|chunks| + 1) * chunk == |chunks| * chunk + chunk;
  }

  lemma FlushExact(c: seq<Chain>, size: seq<nat>, small: nat, i: nat, floor: nat)
    requires |c| == |size| && i < |c| && floor <= |c[i].blocks|
    ensures var x, out := Keep(c[i], floor), Excess(c[i], floor);
            && Bytes(c[i := x], size, 0) == Drained(Bytes(c, size, 0), |out|, size[i])
            && Bytes(c[i := x], size, small) ==
               (if i >= small then Drained(Bytes(c, size, small), |out|, size[i]) else Bytes(c, size, small))
            && Count(c[i := x], 0) == Count(c, 0) - |out|
            && Blocks(c[i := x], 0) + multiset(out) == Blocks(c, 0)
  {
    hide Weight, Bytes, Count, Blocks;
    var x, out := Keep(c[i], floor), Excess(c[i], floor);
    Replaced(c, size, small, i, x);
    WeightSplit(c[i], floor, x.virgin, size[i]);
    Cancel(Blocks(c[i := x], 0), multiset(c[i].blocks), Blocks(c, 0), multiset(x.blocks), multiset(out));
  }

  lemma StealStep(mine: seq<Chain>, theirs: seq<Chain>, size: seq<nat>, small: nat, i: nat)
    requires |mine| == |theirs| == |size| && i < small <= |size| && mine[i].blocks == []
    ensures var c := theirs[i];
            && Bytes(mine[i := c], size, 0) == Bytes(mine, size, 0) + size[i] * |c.blocks|
            && Bytes(mine[i := c], size, small) == Bytes(mine, size, small)
            && Bytes(theirs[i := Chain([], 0)], size, 0) + size[i] * |c.blocks| == Bytes(theirs, size, 0)
            && Blocks(mine[i := c], 0) + Blocks(theirs[i := Chain([], 0)], 0) == Blocks(mine, 0) + Blocks(theirs, 0)
  {
    hide Bytes, Blocks, Count;
    var c := theirs[i];
    Replaced(mine, size, small, i, c);
    Replaced(theirs, size, small, i, Chain([], 0));
    assert Blocks(mine[i := c], 0) == Blocks(mine, 0) + multiset(c.blocks);
    assert Blocks(theirs[i := Chain([], 0)], 0) + multiset(c.blocks) == Blocks(theirs, 0);
  }

  lemma SelfKeep(c: seq<Chain>)
    requires forall i :: 0 <= i < |c| ==> c[i].virgin <= |c[i].blocks|
    ensures forall j :: 0 <= j < |c| ==> c[j] == Keep(c[j], |c[j].blocks|)
  {
    forall j | 0 <= j < |c| ensures c[j] == Keep(c[j], |c[j].blocks|) {
      assert c[j].blocks[..|c[j].blocks|] == c[j].blocks;
    }
  }

  lemma TrimStep(first: seq<Chain>, before: seq<Chain>, after: seq<Chain>, flushed: seq<Block>, out: seq<Block>)
    requires |first| == |before| == |after|
    requires forall j :: 0 <= j < |before| ==> before[j] == Keep(first[j], |before[j].blocks|)
    requires forall j :: 0 <= j < |after| ==> after[j] == Keep(before[j], |after[j].blocks|)
    requires Blocks(before, 0) + multiset(flushed) == Blocks(first, 0)
    requires Blocks(after, 0) + multiset(out) == Blocks(before, 0)
    ensures forall j :: 0 <= j < |after| ==> after[j] == Keep(first[j], |after[j].blocks|)
    ensures Blocks(after, 0) + multiset(flushed + out) == Blocks(first, 0)
  {
    hide Blocks;
    forall j | 0 <= j < |after| ensures after[j] == Keep(first[j], |after[j].blocks|) {
      assert |after[j].blocks| <= |before[j].blocks| <= |first[j].blocks|;
      assert first[j].blocks[..|before[j].blocks|][..|after[j].blocks|] == first[j].blocks[..|after[j].blocks|];
    }
  }

  ghost predicate FlushInv(c: Chain, x: Chain, floor: nat, flushed: seq<Block>) {
    var n := |x.blocks|;
    n <= |c.blocks| && n >= Min(floor, |c.blocks|) && c.virgin <= |c.blocks| && x == Keep(c, n) && flushed == c.blocks[n..]
  }
}
