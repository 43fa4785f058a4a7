/**
 The recycle cache for large regions (src/lib.rs LargeRegionCache): a hot and a
 cold tier of entries with an eagerly maintained exact-size index each, and the
 per-thread stash in front of it (src/cache.rs).
 */
module LargeCache {
  import opened Seqs

  const PAGE_SIZE: nat := 65536
  const EXACT_MAX: nat := 1024
  const EMPTY_INDEX: nat := 65535
  const U32: nat := 0x1_0000_0000

  /** A cached region. The two flags say what the purge reported; hot entries carry neither. */
  datatype Entry = Entry(base: nat, pages: nat, zeroed: bool, decommitted: bool)

  function TotalPages(s: seq<Entry>): nat {
    if s == [] then 0 else TotalPages(s[..|s| - 1]) + s[|s| - 1].pages
  }

  lemma {:induction false} TotalUpdate(s: seq<Entry>, i: nat, x: Entry)
    requires i < |s|
    ensures TotalPages(s[i := x]) == TotalPages(s) - s[i].pages + x.pages && s[i].pages <= TotalPages(s)
  {
    var last := |s| - 1;
    if i < last {
      TotalUpdate(s[..last], i, x);
      assert s[i := x][..last] == s[..last][i := x];
    } else {
      assert s[i := x][..last] == s[..last];
    }
  }

  lemma TotalSnoc(s: seq<Entry>, e: Entry)
    ensures TotalPages(s + [e]) == TotalPages(s) + e.pages
  {
    assert (s + [e])[..|s|] == s;
  }

  lemma SwapRemoveTotal(s: seq<Entry>, i: nat)
    requires i < |s|
    ensures TotalPages(SwapRemove(s, i)) == TotalPages(s) - s[i].pages && s[i].pages <= TotalPages(s)
  {
    TotalUpdate(s, i, s[|s| - 1]);
    assert s[i := s[|s| - 1]][|s| - 1] == s[|s| - 1];
  }

  /** As a multiset, the tier loses exactly the removed entry. */
  lemma SwapRemoveContents(s: seq<Entry>, i: nat)
    requires i < |s|
    ensures multiset(s) == multiset(SwapRemove(s, i)) + multiset{s[i]}
  {
    var last := |s| - 1;
    var r := SwapRemove(s, i);
    if i == last {
      assert s == r + [s[i]];
    } else {
      assert s == s[..i] + [s[i]] + s[i + 1..last] + [s[last]];
      assert r == s[..i] + [s[last]] + s[i + 1..last];
    }
  }

  ghost predicate HasSize(s: seq<Entry>, pages: nat) { exists i :: 0 <= i < |s| && s[i].pages == pages }

  /** A bucket is empty exactly when no entry has its size, and otherwise points at one. */
  ghost predicate BucketOk(s: seq<Entry>, pages: nat, bucket: nat) {
    if HasSize(s, pages) then bucket < |s| && s[bucket].pages == pages else bucket == EMPTY_INDEX
  }

  ghost predicate Fits(s: seq<Entry>, mapped: nat, i: nat) { i < |s| && s[i].pages * PAGE_SIZE >= mapped }

  /** A smallest entry of at least `mapped` bytes. */
  ghost predicate BestFit(s: seq<Entry>, mapped: nat, i: nat) {
    Fits(s, mapped, i) && forall j: nat :: Fits(s, mapped, j) ==> s[i].pages <= s[j].pages
  }

  class Tier {
    const entries: array<Entry>
    const exact: array<nat>
    var len: nat
    var bytes: nat

    constructor (slots: nat)
      requires slots < EMPTY_INDEX
      ensures Valid() && Entries() == [] && entries.Length == slots && fresh(entries) && fresh(exact)
    {
      entries := new Entry[slots](i => Entry(0, 0, false, false));
      exact := new nat[EXACT_MAX + 1](i => EMPTY_INDEX);
      len, bytes := 0, 0;
    }

    ghost predicate Shape()
      reads this
    {
      entries.Length < EMPTY_INDEX && exact.Length == EXACT_MAX + 1 && len <= entries.Length
    }

    function Entries(): (r: seq<Entry>)
      reads this, entries
    {
      if len <= entries.Length then entries[..len] else []
    }

    ghost predicate Valid()
      reads this, entries, exact
    {
      && Shape() && bytes == TotalPages(Entries()) * PAGE_SIZE
      && (forall p :: 0 <= p <= EXACT_MAX ==> BucketOk(Entries(), p, exact[p]))
    }

    method Refresh(pages: nat)
      requires Shape()
      modifies exact
      ensures pages <= EXACT_MAX ==> BucketOk(Entries(), pages, exact[pages])
      ensures forall p :: 0 <= p <= EXACT_MAX && p != pages ==> exact[p] == old(exact[p])
    {
      if pages > EXACT_MAX {
        return;
      }
      var found := EMPTY_INDEX;
      var i := 0;
      while i < len
        invariant 0 <= i <= len && found == EMPTY_INDEX
        invariant forall j :: 0 <= j < i ==> entries[j].pages != pages
      {
        if entries[i].pages == pages {
          found := i;
          assert Entries()[i].pages == pages;
          break;
        }
        i := i + 1;
      }
      exact[pages] := found;
    }

    /** Append an entry and index it. */
    method Add(e: Entry)
      requires Valid() && len < entries.Length
      modifies this`len, this`bytes, entries, exact
      ensures Valid() && Entries() == old(Entries()) + [e]
    {
      hide TotalPages, BucketOk;
      TotalSnoc(Entries(), e);
      AddBuckets(Entries(), e);
      var idx := len;
      entries[idx] := e;
      len := idx + 1;
      bytes := bytes + e.pages * PAGE_SIZE;
      assert Entries() == old(Entries()) + [e];
      if e.pages <= EXACT_MAX {
        var current := exact[e.pages];
        if current == EMPTY_INDEX {
          exact[e.pages] := idx;
        } else if current >= len || entries[current].pages != e.pages {
          Refresh(e.pages);
        }
      }
    }

    /** The index answers for sizes it covers, and its answer is complete. */
    method Exact(wanted: nat) returns (hit: bool, i: nat)
      requires Valid()
      ensures hit ==> wanted <= EXACT_MAX && i < len && entries[i].pages == wanted
      ensures !hit && wanted <= EXACT_MAX ==> !HasSize(Entries(), wanted)
    {
      hit, i := false, 0;
      if wanted <= EXACT_MAX {
        assert BucketOk(Entries(), wanted, exact[wanted]);
        i := exact[wanted];
        hit := i < len && entries[i].pages == wanted;
      }
    }

    method ScanExact(wanted: nat) returns (hit: bool, i: nat)
      requires Shape()
      ensures hit ==> i < len && entries[i].pages == wanted
      ensures hit <==> HasSize(Entries(), wanted)
    {
      i := 0;
      while i < len
        invariant 0 <= i <= len
        invariant forall j :: 0 <= j < i ==> entries[j].pages != wanted
      {
        if entries[i].pages == wanted {
          assert Entries()[i].pages == wanted;
          return true, i;
        }
        i := i + 1;
      }
      return false, 0;
    }

    method ScanFit(mapped: nat) returns (hit: bool, best: nat)
      requires Shape()
      ensures hit ==> BestFit(Entries(), mapped, best)
      ensures hit ==> forall j: nat :: j < best && Fits(Entries(), mapped, j) ==> Entries()[j].pages > Entries()[best].pages
      ensures !hit ==> forall i: nat :: !Fits(Entries(), mapped, i)
    {
      hit, best := false, 0;
      var i := 0;
      while i < len
        invariant 0 <= i <= len
        invariant hit ==> best < i && entries[best].pages * PAGE_SIZE >= mapped
        invariant hit ==> forall j :: 0 <= j < i && entries[j].pages * PAGE_SIZE >= mapped ==> entries[best].pages <= entries[j].pages
        invariant hit ==> forall j :: 0 <= j < best && entries[j].pages * PAGE_SIZE >= mapped ==> entries[j].pages > entries[best].pages
        invariant !hit ==> forall j :: 0 <= j < i ==> entries[j].pages * PAGE_SIZE < mapped
      {
        if entries[i].pages * PAGE_SIZE >= mapped && (!hit || entries[i].pages < entries[best].pages) {
          hit, best := true, i;
        }
        i := i + 1;
      }
    }

    /** Remove an entry, moving the last one into its place and repairing the two buckets concerned. */
    method Remove(index: nat) returns (e: Entry)
      requires Valid() && index < len
      modifies this`len, this`bytes, entries, exact
      ensures Valid() && e == old(Entries())[index] && Entries() == SwapRemove(old(Entries()), index)
    {
      hide TotalPages;
      SwapRemoveTotal(Entries(), index);
      var last := len - 1;
      e := entries[index];
      entries[index] := entries[last];
      entries[last] := Entry(0, 0, false, false);
      len := last;
      bytes := bytes - e.pages * PAGE_SIZE;
      ghost var was := old(Entries());
      assert Entries() == SwapRemove(was, index);
      if index < len {
        var moved := entries[index].pages;
        if moved <= EXACT_MAX && exact[moved] == last {
          exact[moved] := index;
        }
      }
      forall p | 0 <= p <= EXACT_MAX && p != e.pages ensures BucketOk(Entries(), p, exact[p]) {
        assert BucketOk(was, p, old(exact[p]));
        OtherBucket(was, index, p, old(exact[p]));
      }
      hide TotalPages, SwapRemove;
      if e.pages <= EXACT_MAX {
        var bucket := exact[e.pages];
        if bucket == index || bucket >= len || entries[bucket].pages != e.pages {
          Refresh(e.pages);
        } else {
          assert Entries()[bucket].pages == e.pages;
        }
      }
    }
  }

  lemma AddBuckets(s: seq<Entry>, e: Entry)
    ensures forall p, b :: p != e.pages && BucketOk(s, p, b) ==> BucketOk(s + [e], p, b)
    ensures BucketOk(s + [e], e.pages, |s|)
    ensures forall b :: BucketOk(s, e.pages, b) && b != EMPTY_INDEX ==> BucketOk(s + [e], e.pages, b)
  {
    var r := s + [e];
    assert r[|s|].pages == e.pages;
    forall p | p != e.pages ensures HasSize(r, p) <==> HasSize(s, p) {
      if HasSize(s, p) {
        var i :| 0 <= i < |s| && s[i].pages == p;
        assert r[i].pages == p;
      }
    }
  }

  /** A bucket of another size than the removed entry's only has to follow the moved entry. */
  lemma OtherBucket(s: seq<Entry>, index: nat, p: nat, b: nat)
    requires index < |s| < EMPTY_INDEX && p != s[index].pages && BucketOk(s, p, b)
    ensures BucketOk(SwapRemove(s, index), p, if index < |s| - 1 && b == |s| - 1 then index else b)
  {
    var r := SwapRemove(s, index);
    if HasSize(s, p) {
      assert r[if b == |s| - 1 then index else b].pages == p;
    }
    if HasSize(r, p) {
      var i :| 0 <= i < |r| && r[i].pages == p;
      assert s[if i == index then |s| - 1 else i].pages == p;
    }
  }

  /** What a take returns: an exact hot entry, else an exact cold one, else a smallest fitting hot
      one, else a smallest fitting cold one. */
  ghost predicate Chosen(hot: seq<Entry>, cold: seq<Entry>, wanted: nat, mapped: nat, fromHot: bool, i: nat) {
    if HasSize(hot, wanted) then fromHot && i < |hot| && hot[i].pages == wanted
    else if HasSize(cold, wanted) then !fromHot && i < |cold| && cold[i].pages == wanted
    else if exists j: nat :: Fits(hot, mapped, j) then fromHot && BestFit(hot, mapped, i)
    else !fromHot && BestFit(cold, mapped, i)
  }

  const SHARD_SLOTS: nat := 64
  const COLD_SLOTS: nat := 512
  const SHARD_CAP_BYTES: nat := 32 * 1024 * 1024
  const COLD_CAP_BYTES: nat := 64 * 1024 * 1024

  class RegionCache {
    const hot: Tier
    const cold: Tier

    constructor ()
      ensures Valid() && hot.Entries() == [] && cold.Entries() == []
    {
      var h := new Tier(SHARD_SLOTS);
      var c := new Tier(COLD_SLOTS);
      hot, cold := h, c;
    }

    ghost predicate Valid()
      reads this, hot, cold, hot.entries, hot.exact, cold.entries, cold.exact
    {
      && hot != cold && hot.entries != cold.entries && hot.exact != cold.exact && hot.Valid() && cold.Valid()
      && hot.entries.Length == SHARD_SLOTS && cold.entries.Length == COLD_SLOTS
    }

    /** Which entry a take removes. The page count is narrowed to 32 bits before exact sizes are sought. */
    method Pick(mapped: nat) returns (found: bool, fromHot: bool, i: nat)
      requires Valid()
      ensures found ==> Chosen(hot.Entries(), cold.Entries(), Wanted(mapped), mapped, fromHot, i)
      ensures !found ==> Missing(hot.Entries(), mapped) && Missing(cold.Entries(), mapped)
    {
      var wanted := mapped / PAGE_SIZE % U32;
      fromHot := true;
      found, i := hot.Exact(wanted);
      if found {
        assert hot.Entries()[i].pages == wanted;
        return;
      }
      found, i := cold.Exact(wanted);
      if found {
        assert cold.Entries()[i].pages == wanted;
        return true, false, i;
      }
      found, i := hot.ScanExact(wanted);
      if found {
        return;
      }
      found, i := cold.ScanExact(wanted);
      if found {
        return true, false, i;
      }
      found, i := hot.ScanFit(mapped);
      if found {
        return;
      }
      fromHot := false;
      found, i := cold.ScanFit(mapped);
    }

    /** Take the chosen region out, with its own flags. */
    method TakeFit(mapped: nat) returns (found: bool, e: Entry, ghost fromHot: bool, ghost at: nat)
      requires Valid()
      modifies hot, cold, hot.entries, hot.exact, cold.entries, cold.exact
      ensures Valid()
      ensures found ==> Chosen(old(hot.Entries()), old(cold.Entries()), Wanted(mapped), mapped, fromHot, at)
      ensures !found ==> Missing(old(hot.Entries()), mapped) && Missing(old(cold.Entries()), mapped)
      ensures TookFrom(old(hot.Entries()), hot.Entries(), found && fromHot, at, e)
      ensures TookFrom(old(cold.Entries()), cold.Entries(), found && !fromHot, at, e)
    {
      var isHot, i;
      found, isHot, i := Pick(mapped);
      fromHot, at, e := isHot, i, Entry(0, 0, false, false);
      if found && isHot {
        e := hot.Remove(i);
      } else if found {
        e := cold.Remove(i);
      }
    }

    /** Park a freed region: hot if there is room, else cold with what the purge reported, else not at all. */
    method Park(base: nat, pages: nat, physical: bool, zeroed: bool) returns (kept: bool)
      requires Valid()
      modifies hot, cold, hot.entries, hot.exact, cold.entries, cold.exact
      ensures Valid()
      ensures var toHot := HasRoom(old(hot.Entries()), pages, SHARD_SLOTS, SHARD_CAP_BYTES);
              var toCold := !toHot && HasRoom(old(cold.Entries()), pages, COLD_SLOTS, COLD_CAP_BYTES);
              && kept == (toHot || toCold)
              && hot.Entries() == old(hot.Entries()) + (if toHot then [Entry(base, pages, false, false)] else [])
              && cold.Entries() == old(cold.Entries()) +
                                   (if toCold then [Entry(base, pages, zeroed, physical && !zeroed)] else [])
    {
      hide TotalPages, BucketOk;
      var mapped := pages * PAGE_SIZE;
      if hot.len < SHARD_SLOTS && hot.bytes + mapped <= SHARD_CAP_BYTES {
        hot.Add(Entry(base, pages, false, false));
        kept := true;
      } else if cold.len < COLD_SLOTS && cold.bytes + mapped <= COLD_CAP_BYTES {
        cold.Add(Entry(base, pages, zeroed, physical && !zeroed));
        kept := true;
      } else {
        kept := false;
      }
    }
  }

  /** Whether a tier of `slots` entries and `cap` bytes can take another region. */
  predicate HasRoom(s: seq<Entry>, pages: nat, slots: nat, cap: nat) {
    |s| < slots && (TotalPages(s) + pages) * PAGE_SIZE <= cap
  }

  function Wanted(mapped: nat): nat { mapped / PAGE_SIZE % U32 }

  ghost predicate Missing(s: seq<Entry>, mapped: nat) {
    !HasSize(s, Wanted(mapped)) && forall i: nat :: !Fits(s, mapped, i)
  }

  /** The tier lost exactly entry `at`, or nothing. */
  ghost predicate TookFrom(was: seq<Entry>, now: seq<Entry>, taken: bool, at: nat, e: Entry) {
    if taken then at < |was| && e == was[at] && now == SwapRemove(was, at) else now == was
  }

  /** A chosen region is large enough, except that a page count of 2^32 or more may be confused with a
      smaller one that agrees with it in the low 32 bits. */
  lemma ChosenFits(hot: seq<Entry>, cold: seq<Entry>, mapped: nat, fromHot: bool, i: nat)
    requires mapped % PAGE_SIZE == 0 && Chosen(hot, cold, Wanted(mapped), mapped, fromHot, i)
    requires mapped / PAGE_SIZE < U32
    ensures var e := if fromHot then hot[i] else cold[i]; e.pages * PAGE_SIZE >= mapped
  {
  }

  // ------------------------------------------------------------- the stash

  const STASH_SLOTS: nat := 8
  const STASH_CAP_BYTES: nat := 32 * 1024 * 1024
  const STASH_HUGE_CAP_BYTES: nat := 64 * 1024 * 1024
  const STASH_HUGE_THRESHOLD: nat := 4 * 1024 * 1024

  function StashCap(bytes: nat): nat {
    if bytes >= STASH_HUGE_THRESHOLD then STASH_HUGE_CAP_BYTES else STASH_CAP_BYTES
  }

  /** A total of up to 32 MiB is always admitted, one of up to 64 MiB for a region of at least 4 MiB. */
  predicate Admitted(total: nat, size: nat) {
    total <= 32 * 1024 * 1024 || (total <= 64 * 1024 * 1024 && size >= 4 * 1024 * 1024)
  }

  /** The freeing thread's own regions, reused without a lock. */
  class Stash {
    var regions: seq<Entry>
    var bytes: nat

    ghost predicate Valid()
      reads this
    {
      |regions| <= STASH_SLOTS && bytes == TotalPages(regions) * PAGE_SIZE
    }

    /** An exact size wins; otherwise the smallest region that is large enough. */
    method Take(wanted: nat) returns (found: bool, e: Entry, ghost at: nat)
      requires Valid()
      modifies this
      ensures Valid() && TookFrom(old(regions), regions, found, at, e)
      ensures found <==> exists i :: 0 <= i < |old(regions)| && old(regions)[i].pages >= wanted
      ensures found ==> e.pages >= wanted
      ensures found ==> forall j :: 0 <= j < |old(regions)| && old(regions)[j].pages >= wanted ==> e.pages <= old(regions)[j].pages
      ensures found ==> forall j :: 0 <= j < at && old(regions)[j].pages >= wanted ==> e.pages < old(regions)[j].pages
    {
      var i := 0;
      found, e, at := false, Entry(0, 0, false, false), 0;
      var best := 0;
      while i < |regions| && regions[i].pages != wanted
        invariant 0 <= i <= |regions| && forall j :: 0 <= j < i ==> regions[j].pages != wanted
      {
        i := i + 1;
      }
      if i < |regions| {
        found, best := true, i;
      } else {
        i := 0;
        while i < |regions|
          invariant 0 <= i <= |regions|
          invariant found ==> best < i && regions[best].pages >= wanted
          invariant found ==> forall j :: 0 <= j < i && regions[j].pages >= wanted ==> regions[best].pages <= regions[j].pages
          invariant found ==> forall j :: 0 <= j < best && regions[j].pages >= wanted ==> regions[best].pages < regions[j].pages
          invariant !found ==> forall j :: 0 <= j < i ==> regions[j].pages < wanted
        {
          if regions[i].pages >= wanted && (!found || regions[i].pages < regions[best].pages) {
            found, best := true, i;
          }
          i := i + 1;
        }
      }
      if found {
        SwapRemoveTotal(regions, best);
        e, at := regions[best], best;
        bytes := bytes - e.pages * PAGE_SIZE;
        regions := SwapRemove(regions, best);
      }
    }

    method Push(base: nat, pages: nat) returns (kept: bool)
      requires Valid()
      modifies this
      ensures Valid()
      ensures kept == (|old(regions)| < STASH_SLOTS &&
                       Admitted((TotalPages(old(regions)) + pages) * PAGE_SIZE, pages * PAGE_SIZE))
      ensures regions == old(regions) + (if kept then [Entry(base, pages, false, false)] else [])
    {
      var size := pages * PAGE_SIZE;
      kept := |regions| < STASH_SLOTS && bytes + size <= StashCap(size);
      if kept {
        regions := regions + [Entry(base, pages, false, false)];
        bytes := bytes + size;
        assert regions[..|regions| - 1] == old(regions);
      }
    }
  }
}
