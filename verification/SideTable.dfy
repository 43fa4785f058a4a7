/**
 The page-indexed owner table of the arena (src/arena.rs): one word per 64 KiB
 page holding a tagged address. Big masters are stored untagged, large headers
 with bit 0 set, medium masters with bit 1 set.
 */
module SideTable {

  datatype Kind = Large | Medium | Big

  /** A live span or region that has table entries. Small pages and holes have none. */
  datatype Span = Span(pages: nat, kind: Kind, owner: nat)

  const LARGE_TAG: nat := 1
  const MEDIUM_TAG: nat := 2

  /** Owners are headers or masters: not null and at least 16-byte aligned. */
  predicate OwnerOk(a: nat) { a != 0 && a % 16 == 0 }

  /** Bit `n` (1 or 2) of a word. */
  function Bit(raw: nat, n: nat): nat
    requires n > 0
  {
    raw / n % 2
  }

  /** Setting a tag bit that an aligned address leaves clear is adding it. */
  function Encode(k: Kind, a: nat): nat {
    match k
    case Large => a + LARGE_TAG
    case Medium => a + MEDIUM_TAG
    case Big => a
  }

  function LargeGet(raw: nat): nat { if Bit(raw, LARGE_TAG) == 0 then 0 else raw - LARGE_TAG }

  function MediumGet(raw: nat): nat { if Bit(raw, MEDIUM_TAG) == 0 then 0 else raw - MEDIUM_TAG }

  function BigGet(raw: nat): nat { if Bit(raw, LARGE_TAG) != 0 || Bit(raw, MEDIUM_TAG) != 0 then 0 else raw }

  function Get(k: Kind, raw: nat): nat {
    match k
    case Large => LargeGet(raw)
    case Medium => MediumGet(raw)
    case Big => BigGet(raw)
  }

  /** The three lookups decode an entry to its owner under its own kind and to null under the others. */
  lemma TagsAreExclusive(k: Kind, a: nat, j: Kind)
    requires OwnerOk(a)
    ensures Get(j, Encode(k, a)) == if j == k then a else 0
    ensures Encode(k, a) != 0
  {
    OwnerBits(a);
    hide Bit;
  }

  lemma OwnerBits(a: nat)
    requires OwnerOk(a)
    ensures Bit(a, 1) == 0 && Bit(a, 2) == 0
    ensures Bit(a + 1, 1) == 1 && Bit(a + 1, 2) == 0
    ensures Bit(a + 2, 1) == 0 && Bit(a + 2, 2) == 1
  {
    Bits(a, a / 4, 0);
    Bits(a + 1, a / 4, 1);
    Bits(a + 2, a / 4, 2);
  }

  lemma Bits(x: nat, k: nat, low: nat)
    requires x == 4 * k + low && low < 4
    ensures Bit(x, 1) == low % 2 && Bit(x, 2) == low / 2
  {
    assert x % 2 == low % 2;
    assert x / 2 == 2 * k + low / 2;
  }

  lemma EmptyDecodesToNone(j: Kind)
    ensures Get(j, 0) == 0
  {
  }

  /** Page `i` lies in the span that starts at page `a`. */
  ghost predicate Covers(spans: map<nat, Span>, a: nat, i: nat) { a in spans && a <= i < a + spans[a].pages }

  ghost predicate Disjoint(spans: map<nat, Span>) {
    forall a, b :: a in spans && b in spans && a < b ==> a + spans[a].pages <= b
  }

  /** A page range that no span touches. */
  ghost predicate Clear(spans: map<nat, Span>, start: nat, pages: nat) {
    forall a :: a in spans ==> a + spans[a].pages <= start || start + pages <= a
  }

  ghost predicate Owned(spans: map<nat, Span>, i: nat) { exists a :: Covers(spans, a, i) }

  ghost predicate SpansOk(spans: map<nat, Span>, n: nat) {
    Disjoint(spans) && forall a :: a in spans ==> spans[a].pages > 0 && a + spans[a].pages <= n && OwnerOk(spans[a].owner)
  }

  /** A loop of stores under way over a span: `next` is the page it stores to next. */
  datatype Phase = Filling(next: nat, end: nat) | Clearing(next: nat)

  /** The entry of page `i` of the span at `a` is not stored yet, or cleared already. */
  ghost predicate Blank(phase: map<nat, Phase>, a: nat, i: nat) {
    a in phase && match phase[a] { case Filling(n, e) => n <= i < e case Clearing(n) => i < n }
  }

  /** Every word is the tagged owner of the span covering its page, or null where there is none or the
      loop of stores has not reached it. */
  ghost predicate ExactUpTo(w: seq<nat>, spans: map<nat, Span>, phase: map<nat, Phase>) {
    && (forall a, i: nat :: Covers(spans, a, i) && i < |w| ==>
          w[i] == if Blank(phase, a, i) then 0 else Encode(spans[a].kind, spans[a].owner))
    && (forall i :: 0 <= i < |w| && w[i] != 0 ==> Owned(spans, i))
  }

  /** The same with no loop under way. */
  ghost predicate Exact(w: seq<nat>, spans: map<nat, Span>) { SpansOk(spans, |w|) && ExactUpTo(w, spans, map[]) }

  /** `now` is `was` with `value` stored over a page range. */
  ghost predicate Stored(was: seq<nat>, now: seq<nat>, start: nat, pages: nat, value: nat) {
    |now| == |was| && forall i :: 0 <= i < |was| ==> now[i] == if start <= i < start + pages then value else was[i]
  }

  lemma SetSpans(spans: map<nat, Span>, n: nat, start: nat, x: Span)
    requires SpansOk(spans, n) && Clear(spans, start, x.pages) && x.pages > 0 && start + x.pages <= n && OwnerOk(x.owner)
    ensures SpansOk(spans[start := x], n)
    ensures forall a, i: nat :: Covers(spans[start := x], a, i) <==>
              if a == start then start <= i < start + x.pages else Covers(spans, a, i)
    ensures forall a, i: nat :: Covers(spans, a, i) ==> a != start && !(start <= i < start + x.pages)
  {
    var r := spans[start := x];
    forall a: nat, i: nat
      ensures Covers(r, a, i) <==> if a == start then start <= i < start + x.pages else Covers(spans, a, i)
    {
      assert a != start && a in spans ==> r[a] == spans[a];
    }
  }

  lemma SetExact(was: seq<nat>, now: seq<nat>, spans: map<nat, Span>, start: nat, x: Span)
    requires Exact(was, spans) && Clear(spans, start, x.pages) && x.pages > 0 && start + x.pages <= |was| && OwnerOk(x.owner)
    requires Stored(was, now, start, x.pages, Encode(x.kind, x.owner))
    ensures Exact(now, spans[start := x])
  {
    hide Encode;
    var r := spans[start := x];
    SetSpans(spans, |was|, start, x);
    forall i | 0 <= i < |now| && now[i] != 0 ensures Owned(r, i) {
      if start <= i < start + x.pages {
        assert Covers(r, start, i);
      } else {
        assert Owned(spans, i);
        var a :| Covers(spans, a, i);
        assert Covers(r, a, i);
      }
    }
  }

  lemma ForgetExact(was: seq<nat>, now: seq<nat>, spans: map<nat, Span>, start: nat)
    requires Exact(was, spans) && start in spans && Stored(was, now, start, spans[start].pages, 0)
    ensures Exact(now, spans - {start})
  {
    hide Encode;
    var r := spans - {start};
    forall i | 0 <= i < |now| && now[i] != 0 ensures Owned(r, i) {
      assert Owned(spans, i);
      var a :| Covers(spans, a, i);
      assert Covers(r, a, i);
    }
    forall a, i: nat | Covers(r, a, i) && i < |now| ensures now[i] == Encode(r[a].kind, r[a].owner) {
      assert Covers(spans, a, i);
    }
  }

  lemma GrowSpans(spans: map<nat, Span>, n: nat, start: nat, added: nat)
    requires SpansOk(spans, n) && start in spans && added > 0
    requires start + spans[start].pages + added <= n && Clear(spans, start + spans[start].pages, added)
    ensures var x := spans[start].(pages := spans[start].pages + added);
            && SpansOk(spans[start := x], n)
            && (forall a, i: nat :: Covers(spans[start := x], a, i) <==>
                  if a == start then start <= i < start + x.pages else Covers(spans, a, i))
            && (forall a, i: nat :: Covers(spans, a, i) ==> !(start + spans[start].pages <= i < start + x.pages))
  {
    var x := spans[start].(pages := spans[start].pages + added);
    var r := spans[start := x];
    forall a: nat, i: nat
      ensures Covers(r, a, i) <==> if a == start then start <= i < start + x.pages else Covers(spans, a, i)
    {
      assert a != start && a in spans ==> r[a] == spans[a];
    }
  }

  lemma GrowExact(was: seq<nat>, now: seq<nat>, spans: map<nat, Span>, start: nat, added: nat)
    requires Exact(was, spans) && start in spans && added > 0
    requires start + spans[start].pages + added <= |was| && Clear(spans, start + spans[start].pages, added)
    requires Stored(was, now, start + spans[start].pages, added, Encode(spans[start].kind, spans[start].owner))
    ensures Exact(now, spans[start := spans[start].(pages := spans[start].pages + added)])
  {
    hide Encode;
    var x := spans[start].(pages := spans[start].pages + added);
    var r := spans[start := x];
    GrowSpans(spans, |was|, start, added);
    forall i | 0 <= i < |now| && now[i] != 0 ensures Owned(r, i) {
      if start <= i < start + x.pages {
        assert Covers(r, start, i);
      } else {
        assert Owned(spans, i);
        var a :| Covers(spans, a, i);
        assert Covers(r, a, i);
      }
    }
    forall a, i: nat | Covers(r, a, i) && i < |now| ensures now[i] == Encode(r[a].kind, r[a].owner) {
      if a != start || i < start + spans[start].pages {
        assert Covers(spans, a, i);
      }
    }
  }

  class Table {
    const words: array<nat>
    ghost var spans: map<nat, Span>

    ghost predicate Valid()
      reads this, words
    {
      Exact(words[..], spans)
    }

    constructor (pages: nat)
      ensures Valid() && spans == map[] && words.Length == pages
    {
      words := new nat[pages](i => 0);
      spans := map[];
    }

    method Store(start: nat, pages: nat, value: nat)
      requires start + pages <= words.Length
      modifies words
      ensures Stored(old(words[..]), words[..], start, pages, value)
    {
      var i := 0;
      while i < pages
        invariant 0 <= i <= pages && Stored(old(words[..]), words[..], start, i, value)
      {
        words[start + i] := value;
        i := i + 1;
      }
    }

    /** Carve: record the owner of every page of a span that nothing else covers. */
    method Set(start: nat, pages: nat, kind: Kind, owner: nat)
      requires Valid() && pages > 0 && start + pages <= words.Length && OwnerOk(owner) && Clear(spans, start, pages)
      modifies this, words
      ensures Valid() && spans == old(spans)[start := Span(pages, kind, owner)]
    {
      hide Exact, Stored;
      Store(start, pages, Encode(kind, owner));
      SetExact(old(words[..]), words[..], spans, start, Span(pages, kind, owner));
      spans := spans[start := Span(pages, kind, owner)];
    }

    /** True unmap or large free: forget every page of a span. */
    method Forget(start: nat, pages: nat)
      requires Valid() && start in spans && spans[start].pages == pages && start + pages <= words.Length
      modifies this, words
      ensures Valid() && spans == old(spans) - {start}
    {
      hide Exact, Stored;
      Store(start, pages, 0);
      ForgetExact(old(words[..]), words[..], spans, start);
      spans := spans - {start};
    }

    /** Frontier growth: the added pages get the region's own header. */
    method Grow(start: nat, pages: nat, owner: nat, added: nat)
      requires Valid() && start in spans && spans[start] == Span(pages, Large, owner) && added > 0
      requires start + pages + added <= words.Length && Clear(spans, start + pages, added)
      modifies this, words
      ensures Valid() && spans == old(spans)[start := Span(pages + added, Large, owner)]
    {
      hide Exact, Stored;
      Store(start + pages, added, Encode(Large, owner));
      GrowExact(old(words[..]), words[..], spans, start, added);
      spans := spans[start := Span(pages + added, Large, owner)];
    }

    /** A lookup is non-null exactly for pages of a span of that kind, and yields that span's owner. */
    method Lookup(kind: Kind, i: nat) returns (owner: nat)
      requires Valid() && i < words.Length
      ensures owner != 0 ==> exists a :: Covers(spans, a, i) && spans[a].kind == kind && spans[a].owner == owner
      ensures forall a :: Covers(spans, a, i) ==> owner == if spans[a].kind == kind then spans[a].owner else 0
      ensures !Owned(spans, i) ==> owner == 0
    {
      owner := Get(kind, words[i]);
      LookupExact(words[..], spans, kind, i);
      assert words[..][i] == words[i];
    }
  }

  /** What a lookup yields while loops of stores may be under way. */
  lemma LookupUpTo(w: seq<nat>, spans: map<nat, Span>, phase: map<nat, Phase>, a: nat, i: nat, kind: Kind)
    requires ExactUpTo(w, spans, phase) && Covers(spans, a, i) && i < |w| && OwnerOk(spans[a].owner)
    ensures Get(kind, w[i]) == if kind == spans[a].kind && !Blank(phase, a, i) then spans[a].owner else 0
  {
    hide Encode, Get;
    TagsAreExclusive(spans[a].kind, spans[a].owner, kind);
    EmptyDecodesToNone(kind);
  }

  lemma LookupExact(w: seq<nat>, spans: map<nat, Span>, kind: Kind, i: nat)
    requires Exact(w, spans) && i < |w|
    ensures var owner := Get(kind, w[i]);
            && (owner != 0 ==> exists a :: Covers(spans, a, i) && spans[a].kind == kind && spans[a].owner == owner)
            && (forall a :: Covers(spans, a, i) ==> owner == if spans[a].kind == kind then spans[a].owner else 0)
            && (!Owned(spans, i) ==> owner == 0)
  {
    hide Encode, Get;
    EmptyDecodesToNone(kind);
    forall a: nat | Covers(spans, a, i) ensures Get(kind, w[i]) == if spans[a].kind == kind then spans[a].owner else 0 {
      LookupUpTo(w, spans, map[], a, i, kind);
    }
    if Get(kind, w[i]) != 0 {
      assert Owned(spans, i);
      var a :| Covers(spans, a, i);
      assert Covers(spans, a, i) && spans[a].kind == kind;
    }
  }

  /** For any one page at most one of the three lookups is non-null, loops under way or not. */
  lemma AtMostOneLookup(w: seq<nat>, spans: map<nat, Span>, phase: map<nat, Phase>, i: nat, j: Kind, k: Kind)
    requires ExactUpTo(w, spans, phase) && i < |w| && (forall a :: a in spans ==> OwnerOk(spans[a].owner))
    requires Get(j, w[i]) != 0 && Get(k, w[i]) != 0
    ensures j == k
  {
    hide Encode, Get;
    EmptyDecodesToNone(j);
    assert Owned(spans, i);
    var a :| Covers(spans, a, i);
    LookupUpTo(w, spans, phase, a, i, j);
    LookupUpTo(w, spans, phase, a, i, k);
  }

  /** Re-carving a span that kept its entries writes what is already there. */
  lemma RewriteExact(was: seq<nat>, now: seq<nat>, spans: map<nat, Span>, start: nat)
    requires Exact(was, spans) && start in spans
    requires Stored(was, now, start, spans[start].pages, Encode(spans[start].kind, spans[start].owner))
    ensures now == was
  {
    hide Encode;
    forall i | 0 <= i < |was| ensures now[i] == was[i] {
      if start <= i < start + spans[start].pages {
        assert Covers(spans, start, i);
      }
    }
  }
}
