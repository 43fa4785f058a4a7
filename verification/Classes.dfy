/**
 Size classes (src/classes.rs): the geometric class tables, the scan for the
 smallest class that fits, and the direct-mapped tables that replace the scan.
 */
module Classes {

  const MIN_ALIGN: nat := 16
  const MAX_SMALL_SIZE: nat := 16384
  const NUM_CLASSES: nat := 64
  const MAX_MEDIUM_BLOCK: nat := 65472
  const MAX_BIG_BLOCK: nat := 1048576

  /** The next class: an eighth larger, rounded up to 16. */
  function Step(size: nat): (r: nat)
    ensures r % 16 == 0 && (size > 0 ==> r > size) && 9 * size <= 8 * r <= 9 * size + 127
  {
    ((size * 9 + 7) / 8 + 15) / 16 * 16
  }

  /** A table of classes in increasing order, all multiples of 16, that ends at `max`. */
  ghost predicate Table(t: seq<nat>, max: nat) {
    && t != [] && t[|t| - 1] == max
    && (forall i :: 0 <= i < |t| ==> t[i] > 0 && t[i] % 16 == 0)
    && (forall i, j :: 0 <= i < j < |t| ==> t[i] <= t[j])
  }

  /** Consecutive classes are at most one geometric step apart. */
  ghost predicate Geometric(t: seq<nat>, from: nat) {
    && (t != [] ==> t[0] <= Step(from))
    && (forall i :: 0 < i < |t| ==> t[i] <= Step(t[i - 1]))
  }

  /** Class `r` is the smallest that fits. */
  ghost predicate Smallest(t: seq<nat>, size: nat, r: nat) {
    r < |t| && t[r] >= size && forall j :: 0 <= j < r ==> t[j] < size
  }

  // ------------------------------------------------------------ the tables

  /** The small chain, saturating at the largest small size. */
  function SmallChain(i: nat): (r: nat)
    ensures 0 < r <= MAX_SMALL_SIZE && r % 16 == 0
  {
    if i == 0 then MIN_ALIGN
    else
      var s := Step(SmallChain(i - 1));
      if s > MAX_SMALL_SIZE then MAX_SMALL_SIZE else s
  }

  lemma {:induction false} SmallChainGrows(i: nat, j: nat)
    requires i <= j
    ensures SmallChain(i) <= SmallChain(j)
    ensures SmallChain(i) == MAX_SMALL_SIZE ==> SmallChain(j) == MAX_SMALL_SIZE
    decreases j
  {
    if i < j {
      SmallChainGrows(i, j - 1);
    }
  }

  lemma SmallChainNext(i: nat)
    ensures SmallChain(0) == MIN_ALIGN
    ensures SmallChain(i + 1) == if Step(SmallChain(i)) > MAX_SMALL_SIZE then MAX_SMALL_SIZE else Step(SmallChain(i))
  {
    hide Step;
  }

  lemma {:induction false} SmallChainLinear(i: nat)
    ensures SmallChain(i) >= 16 * (i + 1) || SmallChain(i) == MAX_SMALL_SIZE
  {
    hide Step, SmallChain;
    SmallChainNext(0);
    if i > 0 {
      SmallChainLinear(i - 1);
      SmallChainNext(i - 1);
    }
  }

  /** Six steps at least double a class. */
  lemma SmallChainDoubles(i: nat)
    ensures SmallChain(i + 6) >= 2 * SmallChain(i) || SmallChain(i + 6) == MAX_SMALL_SIZE
  {
    hide Step;
    SmallChainGrows(i, i + 6);
    assert SmallChain(i + 2) == MAX_SMALL_SIZE || 64 * SmallChain(i + 2) >= 81 * SmallChain(i);
    SmallChainGrows(i + 2, i + 6);
    assert SmallChain(i + 4) == MAX_SMALL_SIZE || 64 * SmallChain(i + 4) >= 81 * SmallChain(i + 2);
    SmallChainGrows(i + 4, i + 6);
  }

  /** The chain reaches the largest small size within the table. */
  lemma SmallChainEnds()
    ensures SmallChain(NUM_CLASSES - 1) == MAX_SMALL_SIZE
  {
    hide SmallChain;
    SmallChainLinear(7);
    SmallChainDoubles(7);
    SmallChainDoubles(13);
    SmallChainDoubles(19);
    SmallChainDoubles(25);
    SmallChainDoubles(31);
    SmallChainDoubles(37);
    SmallChainDoubles(43);
    SmallChainGrows(49, NUM_CLASSES - 1);
  }

  lemma SmallTable(t: seq<nat>)
    requires |t| == NUM_CLASSES && forall i :: 0 <= i < NUM_CLASSES ==> t[i] == SmallChain(i)
    ensures Table(t, MAX_SMALL_SIZE) && Geometric(t, 1)
  {
    assert Step(1) == 16;
    hide Step;
    SmallChainEnds();
    forall j, k | 0 <= j < k < NUM_CLASSES ensures t[j] <= t[k] {
      SmallChainGrows(j, k);
    }
  }

  /** The table builder: the loop stops at the largest size and leaves the rest saturated. */
  method BuildClasses() returns (t: seq<nat>)
    ensures |t| == NUM_CLASSES && Table(t, MAX_SMALL_SIZE) && Geometric(t, 1)
    ensures forall i :: 0 <= i < NUM_CLASSES ==> t[i] == SmallChain(i)
  {
    hide Step, Table, Geometric, SmallChain;
    SmallChainNext(0);
    t := seq(NUM_CLASSES, i => MAX_SMALL_SIZE);
    var size, i := MIN_ALIGN, 0;
    while i < NUM_CLASSES
      invariant 0 <= i <= NUM_CLASSES && |t| == NUM_CLASSES && size == SmallChain(i)
      invariant forall j :: 0 <= j < i ==> t[j] == SmallChain(j)
      invariant forall j :: i <= j < NUM_CLASSES ==> t[j] == MAX_SMALL_SIZE
    {
      t := t[i := size];
      if size >= MAX_SMALL_SIZE {
        break;
      }
      SmallChainNext(i);
      size := Step(size);
      if size > MAX_SMALL_SIZE {
        size := MAX_SMALL_SIZE;
      }
      i := i + 1;
    }
    forall j | 0 <= j < NUM_CLASSES ensures t[j] == SmallChain(j) {
      if i <= j {
        SmallChainGrows(i, j);
      }
    }
    SmallTable(t);
  }

  /** The medium and big builders: a chain of steps above `from`, then the cap itself if the chain
      stops short of it. */
  method BuildChain(from: nat, cap: nat) returns (t: seq<nat>)
    requires 0 < from < cap && from % 16 == 0 && cap % 16 == 0
    ensures t == Chain(from, cap)
    ensures Table(t, cap) && Geometric(t, from) && forall i :: 0 <= i < |t| ==> t[i] > from
    ensures forall i, j :: 0 <= i < j < |t| ==> t[i] < t[j]
  {
    hide Step, Chain, Rising, Table, Geometric;
    t := [];
    RisingStart(from, cap);
    var size := Step(from);
    while size <= cap
      invariant size == Step(Last(t, from)) && Rising(t, from, cap)
      invariant 0 < Last(t, from) <= cap && Chain(from, cap) == t + Chain(Last(t, from), cap)
      decreases cap + 1 - size
    {
      Raise(t, from, cap, size);
      ChainUnfold(t, Last(t, from), cap);
      t := t + [size];
      size := Step(size);
    }
    ChainUnfold(t, Last(t, from), cap);
    if t == [] || t[|t| - 1] < cap {
      Raise(t, from, cap, cap);
      t := t + [cap];
    }
    RisingTable(t, from, cap);
  }

  lemma RisingStart(from: nat, cap: nat)
    requires 0 < from < cap
    ensures Rising([], from, cap) && [] + Chain(from, cap) == Chain(from, cap)
  {
  }

  lemma RisingTable(t: seq<nat>, from: nat, cap: nat)
    requires Rising(t, from, cap) && t != [] && t[|t| - 1] == cap
    ensures Table(t, cap) && Geometric(t, from) && forall i :: 0 <= i < |t| ==> t[i] > from
    ensures forall i, j :: 0 <= i < j < |t| ==> t[i] < t[j]
  {
  }

  lemma ChainUnfold(t: seq<nat>, last: nat, cap: nat)
    requires 0 < last <= cap
    ensures Step(last) <= cap ==> t + Chain(last, cap) == t + [Step(last)] + Chain(Step(last), cap)
    ensures Step(last) > cap ==> t + Chain(last, cap) == if last < cap then t + [cap] else t
  {
    hide Step;
    if Step(last) <= cap {
      assert Chain(last, cap) == [Step(last)] + Chain(Step(last), cap);
    }
  }

  /** The chain of classes above `from`, closed by the cap. */
  function Chain(from: nat, cap: nat): (r: seq<nat>)
    requires 0 < from <= cap
    decreases cap - from
  {
    if Step(from) <= cap then [Step(from)] + Chain(Step(from), cap)
    else if from < cap then [cap]
    else []
  }

  function Last(t: seq<nat>, from: nat): nat { if t == [] then from else t[|t| - 1] }

  ghost predicate Rising(t: seq<nat>, from: nat, cap: nat) {
    && Geometric(t, from)
    && (forall i :: 0 <= i < |t| ==> from < t[i] <= cap && t[i] % 16 == 0)
    && (forall i, j :: 0 <= i < j < |t| ==> t[i] < t[j])
  }

  lemma Raise(t: seq<nat>, from: nat, cap: nat, x: nat)
    requires Rising(t, from, cap) && Last(t, from) < x <= cap && x % 16 == 0 && x <= Step(Last(t, from))
    ensures Rising(t + [x], from, cap)
  {
    hide Step;
    var r := t + [x];
    forall i | 0 < i < |r| ensures r[i] <= Step(r[i - 1]) {
    }
    forall i, j | 0 <= i < j < |r| ensures r[i] < r[j] {
    }
  }

  // ----------------------------------------------------------------- lookup

  /** The linear scan used to fill the lookup tables; it saturates at the last class. */
  function Scan(t: seq<nat>, size: nat, i: nat): (r: nat)
    requires i < |t|
    ensures i <= r < |t|
    decreases |t| - i
  {
    if i == |t| - 1 || t[i] >= size then i else Scan(t, size, i + 1)
  }

  lemma {:induction false} ScanFrom(t: seq<nat>, size: nat, i: nat)
    requires i < |t| && forall j :: 0 <= j < i ==> t[j] < size
    requires t[|t| - 1] >= size
    ensures Smallest(t, size, Scan(t, size, i))
    decreases |t| - i
  {
    if i < |t| - 1 && t[i] < size {
      ScanFrom(t, size, i + 1);
    }
  }

  lemma SmallestUnique(t: seq<nat>, size: nat, r: nat, q: nat)
    requires Smallest(t, size, r) && Smallest(t, size, q)
    ensures r == q
  {
  }

  /** Rounding a size up to the next multiple of 16 does not change its class. */
  lemma RoundingKeepsClass(t: seq<nat>, max: nat, size: nat, up: nat, r: nat)
    requires Table(t, max) && up % 16 == 0 && up - 16 < size <= up && Smallest(t, size, r)
    ensures Smallest(t, up, r)
  {
    assert forall i :: 0 <= i < |t| ==> (t[i] >= size <==> t[i] >= up);
  }

  /** Fill a lookup table: entry `q` is the class of the size `first + 16 * q`. */
  method BuildLut(t: seq<nat>, first: nat, entries: nat) returns (lut: seq<nat>)
    requires t != []
    ensures |lut| == entries && forall q :: 0 <= q < entries ==> lut[q] == Scan(t, first + 16 * q, 0)
  {
    lut := [];
    var q := 0;
    while q < entries
      invariant 0 <= q <= entries && |lut| == q
      invariant forall p :: 0 <= p < q ==> lut[p] == Scan(t, first + 16 * p, 0)
    {
      lut := lut + [Scan(t, first + 16 * q, 0)];
      q := q + 1;
    }
  }

  /** Small lookup, indexed by the size in 16-byte units rounded up. */
  function ClassForSize(lut: seq<nat>, size: nat): (r: nat)
    requires |lut| == MAX_SMALL_SIZE / MIN_ALIGN + 1
  {
    if size <= MAX_SMALL_SIZE then lut[(size + 15) / 16] % NUM_CLASSES else NUM_CLASSES - 1
  }

  /** The small lookup is the smallest class that fits, for every servable size, and the last one beyond. */
  lemma SmallLookupIsSmallest(t: seq<nat>, lut: seq<nat>, size: nat)
    requires |t| == NUM_CLASSES && Table(t, MAX_SMALL_SIZE) && |lut| == MAX_SMALL_SIZE / MIN_ALIGN + 1
    requires forall q :: 0 <= q < |lut| ==> lut[q] == Scan(t, 16 * q, 0)
    ensures size <= MAX_SMALL_SIZE ==> Smallest(t, size, ClassForSize(lut, size))
    ensures size > MAX_SMALL_SIZE ==> ClassForSize(lut, size) == |t| - 1
  {
    if size <= MAX_SMALL_SIZE {
      var q := (size + 15) / 16;
      var r := Scan(t, size, 0);
      ScanFrom(t, size, 0);
      RoundingKeepsClass(t, MAX_SMALL_SIZE, size, 16 * q, r);
      ScanFrom(t, 16 * q, 0);
      SmallestUnique(t, 16 * q, r, Scan(t, 16 * q, 0));
      assert lut[q] == r < NUM_CLASSES;
    }
  }

  /** Medium and big lookup, indexed by the distance above the tier below. */
  function TierClassForSize(lut: seq<nat>, classes: nat, from: nat, cap: nat, size: nat): (r: nat)
    requires classes > 0 && from < cap && |lut| == (cap - from) / 16 + 1
  {
    if size <= from || size > cap then classes - 1 else lut[(size - from - 1) / 16]
  }

  /** The medium and big lookups are the smallest class that fits, for every size of the tier, and the last one
      otherwise. */
  lemma TierLookupIsSmallest(t: seq<nat>, lut: seq<nat>, from: nat, cap: nat, size: nat)
    requires from < cap && from % 16 == 0 && Table(t, cap) && |lut| == (cap - from) / 16 + 1
    requires forall q :: 0 <= q < |lut| ==> lut[q] == Scan(t, from + 1 + 16 * q, 0)
    ensures from < size <= cap ==> Smallest(t, size, TierClassForSize(lut, |t|, from, cap, size))
    ensures !(from < size <= cap) ==> TierClassForSize(lut, |t|, from, cap, size) == |t| - 1
  {
    if from < size <= cap {
      TierEntry(t, lut, from, cap, size);
    }
  }

  lemma TierEntry(t: seq<nat>, lut: seq<nat>, from: nat, cap: nat, size: nat)
    requires from < cap && from % 16 == 0 && Table(t, cap) && |lut| == (cap - from) / 16 + 1
    requires forall q :: 0 <= q < |lut| ==> lut[q] == Scan(t, from + 1 + 16 * q, 0)
    requires from < size <= cap
    ensures Smallest(t, size, TierClassForSize(lut, |t|, from, cap, size))
  {
    var q := (size - from - 1) / 16;
    var low := from + 1 + 16 * q;
    var up := from + 16 * q + 16;
    assert low <= size <= up && up % 16 == 0;
    assert t[|t| - 1] == cap && cap % 16 == 0;
    ScanFrom(t, size, 0);
    ScanFrom(t, low, 0);
    RoundingKeepsClass(t, cap, size, up, Scan(t, size, 0));
    RoundingKeepsClass(t, cap, low, up, Scan(t, low, 0));
    SmallestUnique(t, up, Scan(t, size, 0), Scan(t, low, 0));
  }

  /** A request wastes at most an eighth of its size plus the rounding to 16. */
  lemma WasteIsBounded(t: seq<nat>, max: nat, from: nat, size: nat, r: nat)
    requires Table(t, max) && Geometric(t, from) && Smallest(t, size, r) && size >= from
    ensures 8 * t[r] <= 9 * size + 127
  {
    if r > 0 {
      assert t[r] <= Step(t[r - 1]) && t[r - 1] < size;
    }
  }
}
