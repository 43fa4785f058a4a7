/**
 The arena's store of parked holes (src/arena.rs): best fit with an exact-size
 index that is repaired lazily and may hold any stale value.
 */
module HoleStore {
  import opened Seqs

  const ARENA_ALIGN: nat := 65536
  const HOLE_SLOTS: nat := 4096
  const HOLE_CAP_BYTES: nat := 4 * 1024 * 1024 * 1024
  const EXACT_BUCKET_MAX: nat := 128
  const EMPTY_BUCKET: nat := 65535

  /** A parked slice: byte offset from the arena start, length in 64 KiB pages. */
  datatype Hole = Hole(off: nat, pages: nat)

  function TotalPages(s: seq<Hole>): nat {
    if s == [] then 0 else TotalPages(s[..|s| - 1]) + s[|s| - 1].pages
  }

  lemma {:induction false} TotalUpdate(s: seq<Hole>, i: nat, x: Hole)
    requires i < |s|
    ensures TotalPages(s[i := x]) == TotalPages(s) - s[i].pages + x.pages
    ensures s[i].pages <= TotalPages(s)
  {
    var last := |s| - 1;
    if i < last {
      TotalUpdate(s[..last], i, x);
      assert s[i := x][..last] == s[..last][i := x];
    } else {
      assert s[i := x][..last] == s[..last];
    }
  }

  lemma TotalSnoc(s: seq<Hole>, x: Hole)
    ensures TotalPages(s + [x]) == TotalPages(s) + x.pages
  {
    assert (s + [x])[..|s|] == s;
  }

  lemma SwapRemoveFacts(s: seq<Hole>, i: nat)
    requires i < |s|
    ensures TotalPages(SwapRemove(s, i)) == TotalPages(s) - s[i].pages
  {
    var last := s[|s| - 1];
    TotalUpdate(s, i, last);
    var u := s[i := last];
    assert u[|u| - 1] == last;
  }

  /** A smallest hole that holds `pages`. */
  ghost predicate BestFit(s: seq<Hole>, pages: nat, i: nat) {
    && i < |s| && s[i].pages >= pages
    && (forall j :: 0 <= j < |s| && s[j].pages >= pages ==> s[i].pages <= s[j].pages)
  }

  /** What taking `pages` from entry `i` leaves: a remainder in its place, or nothing. */
  function AfterTake(s: seq<Hole>, i: nat, pages: nat): (r: seq<Hole>)
    requires i < |s| && pages <= s[i].pages
  {
    if s[i].pages > pages then s[i := Hole(s[i].off + pages * ARENA_ALIGN, s[i].pages - pages)]
    else SwapRemove(s, i)
  }

  lemma AfterTakeTotal(s: seq<Hole>, i: nat, pages: nat)
    requires i < |s| && pages <= s[i].pages
    ensures TotalPages(AfterTake(s, i, pages)) == TotalPages(s) - pages && pages <= TotalPages(s)
  {
    SwapRemoveFacts(s, i);
    TotalUpdate(s, i, if s[i].pages > pages then Hole(s[i].off + pages * ARENA_ALIGN, s[i].pages - pages) else s[i]);
  }

  /** After a split the remainder can be taken again, whole, by its exact size. */
  lemma RemainderStaysTakeable(s: seq<Hole>, i: nat, pages: nat)
    requires i < |s| && 0 < pages < s[i].pages
    ensures var r := AfterTake(s, i, pages);
            var rest := s[i].pages - pages;
            && BestFit(r, rest, i) && r[i].off == s[i].off + pages * ARENA_ALIGN
            && r[i].off + rest * ARENA_ALIGN == s[i].off + s[i].pages * ARENA_ALIGN
  {
  }

  ghost predicate FirstOf(s: seq<Hole>, pages: nat, at: nat) {
    if exists i :: 0 <= i < |s| && s[i].pages == pages
    then at < |s| && s[at].pages == pages && forall i :: 0 <= i < at ==> s[i].pages != pages
    else at == EMPTY_BUCKET
  }

  class Store {
    const entries: array<Hole>
    const exact: array<nat>
    var len: nat
    var bytes: nat
    var holeCount: nat        // the atomic copy of `len` that is read without the lock

    ghost predicate Valid()
      reads this, entries, exact
    {
      && entries.Length == HOLE_SLOTS && exact.Length == EXACT_BUCKET_MAX + 1
      && len <= HOLE_SLOTS && bytes == TotalPages(Holes()) * ARENA_ALIGN && holeCount == len
    }

    function Holes(): (r: seq<Hole>)
      reads this, entries
    {
      if len <= entries.Length then entries[..len] else []
    }

    constructor ()
      ensures Valid() && Holes() == []
    {
      entries := new Hole[HOLE_SLOTS](i => Hole(0, 0));
      exact := new nat[EXACT_BUCKET_MAX + 1](i => EMPTY_BUCKET);
      len, bytes, holeCount := 0, 0, 0;
    }

    /** The bucket points at the first entry of its size, or says that there is none. */
    ghost predicate Synced(pages: nat)
      reads this, entries, exact
    {
      len <= entries.Length && (pages < exact.Length ==> FirstOf(Holes(), pages, exact[pages]))
    }

    /** Point the bucket at the first entry of that size, if there is one. */
    method RefreshExact(pages: nat)
      requires entries.Length == HOLE_SLOTS && exact.Length == EXACT_BUCKET_MAX + 1 && len <= HOLE_SLOTS
      modifies exact
      ensures Synced(pages) && forall q :: 0 <= q < exact.Length && q != pages ==> exact[q] == old(exact[q])
    {
      if pages > EXACT_BUCKET_MAX {
        return;
      }
      var found := EMPTY_BUCKET;
      var i := 0;
      while i < len
        invariant 0 <= i <= len && found == EMPTY_BUCKET
        invariant forall j :: 0 <= j < i ==> entries[j].pages != pages
      {
        if entries[i].pages == pages {
          found := i;
          break;
        }
        i := i + 1;
      }
      exact[pages] := found;
    }

    /** An entry of exactly `pages`, through the index; a stale bucket is refreshed first. */
    method ExactHit(pages: nat) returns (hit: bool, index: nat)
      requires entries.Length == HOLE_SLOTS && exact.Length == EXACT_BUCKET_MAX + 1 && len <= HOLE_SLOTS
      modifies exact
      ensures hit ==> index < len && entries[index].pages == pages
      ensures !hit && pages <= EXACT_BUCKET_MAX ==> forall i :: 0 <= i < len ==> entries[i].pages != pages
      ensures hit ==> pages <= EXACT_BUCKET_MAX && index == exact[pages]
      ensures forall q :: 0 <= q < exact.Length && q != pages ==> exact[q] == old(exact[q])
      ensures pages <= EXACT_BUCKET_MAX ==> exact[pages] == old(exact[pages]) || Synced(pages)
    {
      hit, index := false, 0;
      if pages <= EXACT_BUCKET_MAX {
        index := exact[pages];
        if index >= len || entries[index].pages != pages {
          RefreshExact(pages);
          index := exact[pages];
        }
        hit := index < len && entries[index].pages == pages;
      }
    }

    /** The best-fit scan; an exact size ends it early. */
    method Scan(pages: nat) returns (hit: bool, best: nat)
      requires len <= entries.Length
      ensures hit ==> BestFit(Holes(), pages, best)
      ensures hit ==> forall j :: 0 <= j < best && entries[j].pages >= pages ==> entries[j].pages > entries[best].pages
      ensures !hit ==> forall i :: 0 <= i < len ==> entries[i].pages < pages
    {
      hit, best := false, 0;
      var i := 0;
      while i < len
        invariant 0 <= i <= len
        invariant hit ==> best < i && entries[best].pages > pages
        invariant hit ==> forall j :: 0 <= j < i && entries[j].pages >= pages ==> entries[best].pages <= entries[j].pages
        invariant hit ==> forall j :: 0 <= j < best && entries[j].pages >= pages ==> entries[j].pages > entries[best].pages
        invariant !hit ==> forall j :: 0 <= j < i ==> entries[j].pages < pages
        invariant forall j :: 0 <= j < i ==> entries[j].pages != pages
      {
        var p := entries[i].pages;
        if p == pages {
          return true, i;
        }
        if p > pages && (!hit || p < entries[best].pages) {
          hit, best := true, i;
        }
        i := i + 1;
      }
    }

    /** Take a smallest sufficient hole, splitting it when it is larger. */
    method Take(pages: nat) returns (found: bool, off: nat, ghost at: nat)
      requires Valid() && pages > 0
      modifies this`len, this`bytes, this`holeCount, entries, exact
      ensures Valid()
      ensures found <==> exists i :: 0 <= i < |old(Holes())| && old(Holes())[i].pages >= pages
      ensures found ==> BestFit(old(Holes()), pages, at) && off == old(Holes())[at].off
                        && Holes() == AfterTake(old(Holes()), at, pages)
      ensures !found ==> Holes() == old(Holes()) && off == 0
    {
      off, at := 0, 0;
      if holeCount == 0 {
        return false, 0, 0;
      }
      var best: nat;
      found, best := ExactHit(pages);
      if !found {
        found, best := Scan(pages);
      }
      if found {
        at := best;
        off := Remove(best, pages);
      }
    }

    method Remove(i: nat, pages: nat) returns (off: nat)
      requires Valid() && i < len && 0 < pages <= entries[i].pages
      modifies this`len, this`bytes, this`holeCount, entries, exact
      ensures Valid() && off == old(entries[i].off) && Holes() == AfterTake(old(Holes()), i, pages)
      ensures var was := old(entries[i].pages);
              && Synced(was)
              && (pages < was <= EXACT_BUCKET_MAX + pages ==> exact[was - pages] == i)
              && forall q :: 0 <= q < exact.Length && q != was && q + pages != was ==> exact[q] == old(exact[q])
    {
      AfterTakeTotal(Holes(), i, pages);
      var h := entries[i];
      off := h.off;
      bytes := bytes - pages * ARENA_ALIGN;
      if h.pages > pages {
        var rest := h.pages - pages;
        entries[i] := Hole(h.off + pages * ARENA_ALIGN, rest);
        assert Holes() == AfterTake(old(Holes()), i, pages);
        RefreshExact(h.pages);
        if rest <= EXACT_BUCKET_MAX {
          exact[rest] := i;
        }
      } else {
        var last := len - 1;
        entries[i] := entries[last];
        entries[last] := Hole(0, 0);
        len := last;
        assert Holes() == AfterTake(old(Holes()), i, pages);
        RefreshExact(h.pages);
      }
      holeCount := len;
    }

    /** Park a slice, or abandon it when the store is full. */
    method Give(off: nat, pages: nat) returns (kept: bool)
      requires Valid()
      modifies this`len, this`bytes, this`holeCount, entries, exact
      ensures Valid()
      ensures kept <==> |old(Holes())| < HOLE_SLOTS &&
                        (TotalPages(old(Holes())) + pages) * ARENA_ALIGN <= HOLE_CAP_BYTES
      ensures Holes() == if kept then old(Holes()) + [Hole(off, pages)] else old(Holes())
      ensures forall q :: 0 <= q < exact.Length ==>
                exact[q] == if kept && q == pages then old(len) else old(exact[q])
    {
      hide TotalPages;
      TotalSnoc(Holes(), Hole(off, pages));
      kept := len < HOLE_SLOTS && bytes + pages * ARENA_ALIGN <= HOLE_CAP_BYTES;
      if kept {
        entries[len] := Hole(off, pages);
        if pages <= EXACT_BUCKET_MAX {
          exact[pages] := len;
        }
        len := len + 1;
        bytes := bytes + pages * ARENA_ALIGN;
        holeCount := len;
        assert Holes() == old(Holes()) + [Hole(off, pages)];
      }
    }
  }
}
