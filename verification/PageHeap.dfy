/**
 The class heap as the code runs it: page headers in memory, linked in place by
 prev/next, list heads, and the nested refill loop (src/heap.rs). `View` reads
 the memory back as the value of module PageSpec, and every method is tied to
 the function of that value which the ownership protocol uses.

 The intrusive free list inside a page is the sequence `free`; module Links
 shows how link words represent such a sequence.
 */
module PageHeap {
  import opened Seqs
  import opened PageSpec
  import opened PageLife
  import Ownership
  import Batch

  datatype Ref = Nil | To(page: PageId)

  /** A page header as it lies at the base of its page. */
  datatype Header = Header(prev: Ref, next: Ref, free: seq<nat>, used: nat, virgin: bool, reinit: bool, linked: bool)

  type Memory = map<PageId, Header>

  function PageOf(x: Header): Page { Page(x.free, x.used, x.virgin, x.reinit, x.linked) }

  function PagesOf(mem: Memory): map<PageId, Page> { map p | p in mem :: PageOf(mem[p]) }

  function LinkAt(ids: seq<PageId>, k: int): Ref { if 0 <= k < |ids| then To(ids[k]) else Nil }

  /** `ids` is the doubly linked list that starts at `head`. */
  ghost predicate Doubly(mem: Memory, head: Ref, ids: seq<PageId>) {
    && NoDup(ids) && head == LinkAt(ids, 0)
    && (forall k :: 0 <= k < |ids| ==> ids[k] in mem)
    && (forall k :: 0 <= k < |ids| ==> mem[ids[k]].prev == LinkAt(ids, k - 1) && mem[ids[k]].next == LinkAt(ids, k + 1))
  }

  /** `ids` is the singly linked list that starts at `head`. */
  ghost predicate Singly(mem: Memory, head: Ref, ids: seq<PageId>) {
    && NoDup(ids) && head == LinkAt(ids, 0)
    && (forall k :: 0 <= k < |ids| ==> ids[k] in mem)
    && (forall k :: 0 <= k < |ids| ==> mem[ids[k]].next == LinkAt(ids, k + 1))
  }

  function Linking(mem: Memory, head: Ref, p: PageId): (r: Memory)
    requires p in mem && (head.To? ==> head.page in mem && head.page != p)
  {
    var m := mem[p := mem[p].(prev := Nil, next := head, linked := true)];
    if head.To? then m[head.page := m[head.page].(prev := To(p))] else m
  }

  lemma DoublyPush(mem: Memory, head: Ref, ids: seq<PageId>, p: PageId)
    requires Doubly(mem, head, ids) && p in mem && p !in ids && (head.To? ==> head.page in mem && head.page != p)
    ensures Doubly(Linking(mem, head, p), To(p), [p] + ids)
  {
    NoDupSnoc(ids, p);
    var r := Linking(mem, head, p);
    forall k | 0 <= k < |ids| ensures ids[k] in r && r[ids[k]].prev == LinkAt([p] + ids, k)
                                      && r[ids[k]].next == LinkAt([p] + ids, k + 2) {
      assert ids[k] in ids;
    }
    forall k | 0 <= k < |[p] + ids|
      ensures r[([p] + ids)[k]].prev == LinkAt([p] + ids, k - 1) && r[([p] + ids)[k]].next == LinkAt([p] + ids, k + 1)
    {
      if k > 0 {
        assert ([p] + ids)[k] == ids[k - 1];
      }
    }
  }

  /** A page's neighbours are other pages in memory. */
  predicate NeighboursOk(mem: Memory, p: PageId)
    requires p in mem
  {
    && (mem[p].prev.To? ==> mem[p].prev.page in mem && mem[p].prev.page != p)
    && (mem[p].next.To? ==> mem[p].next.page in mem && mem[p].next.page != p)
  }

  function Unlinking(mem: Memory, p: PageId): (r: Memory)
    requires p in mem && NeighboursOk(mem, p)
  {
    var prev, next := mem[p].prev, mem[p].next;
    var a := if prev.To? then mem[prev.page := mem[prev.page].(next := next)] else mem;
    var b := if next.To? then a[next.page := a[next.page].(prev := prev)] else a;
    b[p := b[p].(prev := Nil, next := Nil, linked := false)]
  }

  /** The neighbours of a list member are other members. */
  lemma Neighbours(mem: Memory, head: Ref, ids: seq<PageId>, k: nat)
    requires Doubly(mem, head, ids) && k < |ids|
    ensures mem[ids[k]].prev == LinkAt(ids, k - 1) && mem[ids[k]].next == LinkAt(ids, k + 1)
    ensures k > 0 ==> ids[k - 1] in mem && ids[k - 1] != ids[k]
    ensures k + 1 < |ids| ==> ids[k + 1] in mem && ids[k + 1] != ids[k]
  {
  }

  function Cut(ids: seq<PageId>, k: nat): (r: seq<PageId>)
    requires k < |ids|
  {
    ids[..k] + ids[k + 1..]
  }

  /** What unlinking writes: the two neighbours' links and the page's own. */
  lemma UnlinkingAt(mem: Memory, head: Ref, ids: seq<PageId>, k: nat, j: nat)
    requires Doubly(mem, head, ids) && k < |ids| && j < |ids| && j != k
    requires NeighboursOk(mem, ids[k])
    ensures var r := Unlinking(mem, ids[k]);
            && ids[j] in r
            && r[ids[j]].prev == (if j == k + 1 then LinkAt(ids, k - 1) else LinkAt(ids, j - 1))
            && r[ids[j]].next == (if j + 1 == k then LinkAt(ids, k + 1) else LinkAt(ids, j + 1))
  {
    Neighbours(mem, head, ids, k);
    assert ids[j] != ids[k];
    if k > 0 && j != k - 1 {
      assert ids[j] != ids[k - 1];
    }
    if k + 1 < |ids| && j != k + 1 {
      assert ids[j] != ids[k + 1];
    }
  }

  lemma DoublyCut(mem: Memory, head: Ref, ids: seq<PageId>, k: nat)
    requires Doubly(mem, head, ids) && k < |ids|
    requires NeighboursOk(mem, ids[k])
    ensures Doubly(Unlinking(mem, ids[k]), if k == 0 then mem[ids[k]].next else head, Cut(ids, k))
  {
    var r, c := Unlinking(mem, ids[k]), Cut(ids, k);
    Neighbours(mem, head, ids, k);
    forall i | 0 <= i < |c|
      ensures c[i] in r && r[c[i]].prev == LinkAt(c, i - 1) && r[c[i]].next == LinkAt(c, i + 1)
    {
      CutLinks(mem, head, ids, k, i);
    }
    CutNoDup(ids, k);
    hide Unlinking, NoDup;
  }

  lemma CutNoDup(ids: seq<PageId>, k: nat)
    requires NoDup(ids) && k < |ids|
    ensures NoDup(Cut(ids, k))
  {
    var c := Cut(ids, k);
    forall i, j | 0 <= i < j < |c| ensures c[i] != c[j] {
      assert c[i] == ids[if i < k then i else i + 1] && c[j] == ids[if j < k then j else j + 1];
    }
  }

  lemma CutLinks(mem: Memory, head: Ref, ids: seq<PageId>, k: nat, i: nat)
    requires Doubly(mem, head, ids) && k < |ids| && i < |Cut(ids, k)|
    requires NeighboursOk(mem, ids[k])
    ensures var r, c := Unlinking(mem, ids[k]), Cut(ids, k);
            c[i] in r && r[c[i]].prev == LinkAt(c, i - 1) && r[c[i]].next == LinkAt(c, i + 1)
  {
    hide *;
    var j: nat := CutIndex(ids, k, i);
    UnlinkingAt(mem, head, ids, k, j);
    CutLinkAt(ids, k, i - 1);
    CutLinkAt(ids, k, i + 1);
  }

  /** Where the i-th of the remaining pages was. */
  lemma CutIndex(ids: seq<PageId>, k: nat, i: nat) returns (j: nat)
    requires k < |ids| && i < |Cut(ids, k)|
    ensures j == (if i < k then i else i + 1) && j < |ids| && Cut(ids, k)[i] == ids[j]
  {
    j := if i < k then i else i + 1;
  }

  lemma CutLinkAt(ids: seq<PageId>, k: nat, i: int)
    requires k < |ids|
    ensures LinkAt(Cut(ids, k), i) == if i < k then LinkAt(ids, i) else LinkAt(ids, i + 1)
  {
  }

  /** A list is not disturbed by header writes that leave its members' links alone. */
  lemma DoublyFrame(a: Memory, b: Memory, head: Ref, ids: seq<PageId>)
    requires Doubly(a, head, ids)
    requires forall p :: p in ids ==> p in b && a[p].prev == b[p].prev && a[p].next == b[p].next
    ensures Doubly(b, head, ids)
  {
    forall k | 0 <= k < |ids| ensures ids[k] in b && b[ids[k]].prev == a[ids[k]].prev && b[ids[k]].next == a[ids[k]].next {
      assert ids[k] in ids;
    }
  }

  lemma SinglyFrame(a: Memory, b: Memory, head: Ref, ids: seq<PageId>)
    requires Singly(a, head, ids) && forall p :: p in ids ==> p in b && a[p].next == b[p].next
    ensures Singly(b, head, ids)
  {
    forall k | 0 <= k < |ids| ensures ids[k] in b && b[ids[k]].next == a[ids[k]].next {
      assert ids[k] in ids;
    }
  }

  /** The memory and the two list heads represent the heap value `h`. */
  ghost predicate Represents(mem: Memory, head: Ref, empty: Ref, h: Heap) {
    h.pages == PagesOf(mem) && Doubly(mem, head, h.partial) && Singly(mem, empty, h.empty) && Wf(h)
  }

  lemma LinkRepresents(mem: Memory, head: Ref, empty: Ref, h: Heap, p: PageId)
    requires Represents(mem, head, empty, h) && p in mem && !mem[p].linked && !Parked(h, p)
    ensures p in h.pages && (head.To? ==> head.page in mem && head.page != p)
    ensures Represents(Linking(mem, head, p), To(p), empty, Link(h, p))
  {
    Unlinked(mem, head, empty, h, p);
    hide Doubly, Singly, Wf;
    DoublyPush(mem, head, h.partial, p);
    LinkFacts(h, p);
    LinkPages(mem, head, h, p);
    SinglyFrame(mem, Linking(mem, head, p), empty, h.empty);
  }

  /** A page off every list is no neighbour of a linked one. */
  lemma Unlinked(mem: Memory, head: Ref, empty: Ref, h: Heap, p: PageId)
    requires Represents(mem, head, empty, h) && p in mem && !mem[p].linked && !Parked(h, p)
    ensures p in h.pages && !h.pages[p].linked && p !in h.partial
    ensures head.To? ==> head.page in mem && head.page != p
    ensures forall q :: q in h.empty ==> q in mem && q != p && head != To(q)
  {
    hide NoDup, WfPage;
    assert head.To? ==> head.page in h.partial;
    forall q | q in h.empty ensures q in mem && q != p && head != To(q) {
      assert Idle(h, q);
    }
  }

  lemma LinkPages(mem: Memory, head: Ref, h: Heap, p: PageId)
    requires h.pages == PagesOf(mem) && p in mem && (head.To? ==> head.page in mem && head.page != p)
    ensures PagesOf(Linking(mem, head, p)) == Link(h, p).pages
  {
    var r := Linking(mem, head, p);
    assert r.Keys == mem.Keys;
    hide Linking, PageOf;
    forall q | q in mem ensures PageOf(r[q]) == if q == p then h.pages[p].(linked := true) else PageOf(mem[q]) {
      LinkingAt(mem, head, p, q);
    }
  }

  lemma LinkingAt(mem: Memory, head: Ref, p: PageId, q: PageId)
    requires p in mem && q in mem && (head.To? ==> head.page in mem && head.page != p)
    ensures var r := Linking(mem, head, p);
            q in r && PageOf(r[q]) == if q == p then PageOf(mem[p]).(linked := true) else PageOf(mem[q])
  {
  }

  /** A page is on the partial list exactly when its flag says so; its neighbours are other pages. */
  lemma LinkedMember(mem: Memory, head: Ref, empty: Ref, h: Heap, p: PageId) returns (k: nat)
    requires Represents(mem, head, empty, h) && p in mem && mem[p].linked
    ensures k < |h.partial| && h.partial[k] == p
    ensures mem[p].prev == LinkAt(h.partial, k - 1) && mem[p].next == LinkAt(h.partial, k + 1)
    ensures NeighboursOk(mem, p)
  {
    assert p in h.partial;
    k :| 0 <= k < |h.partial| && h.partial[k] == p;
    Neighbours(mem, head, h.partial, k);
  }

  lemma UnlinkRepresents(mem: Memory, head: Ref, empty: Ref, h: Heap, p: PageId)
    requires Represents(mem, head, empty, h) && p in mem && mem[p].linked
    ensures p in h.pages && h.pages[p].linked
    ensures NeighboursOk(mem, p)
    ensures Represents(Unlinking(mem, p), if mem[p].prev.To? then head else mem[p].next, empty, Unlink(h, p))
  {
    var k := LinkedMember(mem, head, empty, h, p);
    hide Doubly, Singly, Wf;
    UnlinkDoubly(mem, head, empty, h, p, k);
    UnlinkSingly(mem, head, empty, h, p, k);
    UnlinkFacts(h, p);
    UnlinkPages(mem, h, p);
  }

  lemma SamePage(mem: Memory, head: Ref, empty: Ref, h: Heap, p: PageId)
    requires Represents(mem, head, empty, h) && p in mem
    ensures p in h.pages && h.pages[p] == PageOf(mem[p])
  {
  }

  lemma UnlinkPages(mem: Memory, h: Heap, p: PageId)
    requires h.pages == PagesOf(mem) && p in mem && mem[p].linked
    requires NeighboursOk(mem, p)
    ensures PagesOf(Unlinking(mem, p)) == Unlink(h, p).pages
  {
  }

  lemma UnlinkDoubly(mem: Memory, head: Ref, empty: Ref, h: Heap, p: PageId, k: nat)
    requires Represents(mem, head, empty, h) && k < |h.partial| && h.partial[k] == p && p in mem && mem[p].linked
    requires mem[p].prev == LinkAt(h.partial, k - 1) && mem[p].next == LinkAt(h.partial, k + 1)
    requires NeighboursOk(mem, p)
    ensures p in h.pages
    ensures Doubly(Unlinking(mem, p), if mem[p].prev.To? then head else mem[p].next, Unlink(h, p).partial)
  {
    DoublyCut(mem, head, h.partial, k);
    RemoveAt(h.partial, k);
  }

  lemma UnlinkSingly(mem: Memory, head: Ref, empty: Ref, h: Heap, p: PageId, k: nat)
    requires Represents(mem, head, empty, h) && k < |h.partial| && h.partial[k] == p && p in mem
    requires mem[p].prev == LinkAt(h.partial, k - 1) && mem[p].next == LinkAt(h.partial, k + 1)
    requires NeighboursOk(mem, p)
    ensures Singly(Unlinking(mem, p), empty, h.empty)
  {
    NeighboursLinked(mem, head, empty, h, k);
    SinglyFrame(mem, Unlinking(mem, p), empty, h.empty);
  }

  lemma NeighboursLinked(mem: Memory, head: Ref, empty: Ref, h: Heap, k: nat)
    requires Represents(mem, head, empty, h) && k < |h.partial|
    ensures forall q :: q in h.empty ==> q != h.partial[k]
    ensures k > 0 ==> forall q :: q in h.empty ==> q != h.partial[k - 1]
    ensures k + 1 < |h.partial| ==> forall q :: q in h.empty ==> q != h.partial[k + 1]
  {
    assert h.partial[k] in h.partial;
    assert k > 0 ==> h.partial[k - 1] in h.partial;
    assert k + 1 < |h.partial| ==> h.partial[k + 1] in h.partial;
  }

  /** Rewriting the block bookkeeping of a header changes the represented page and nothing else. */
  lemma HeaderRepresents(mem: Memory, head: Ref, empty: Ref, h: Heap, p: PageId, x: Header)
    requires Represents(mem, head, empty, h) && p in mem
    requires x.prev == mem[p].prev && x.next == mem[p].next
    requires Wf(h.(pages := h.pages[p := PageOf(x)]))
    ensures Represents(mem[p := x], head, empty, h.(pages := h.pages[p := PageOf(x)]))
  {
    assert PagesOf(mem[p := x]) == h.pages[p := PageOf(x)];
    DoublyFrame(mem, mem[p := x], head, h.partial);
    SinglyFrame(mem, mem[p := x], empty, h.empty);
  }

  /** Block bookkeeping of a linked page rewritten in place. */
  lemma HeaderStep(mem: Memory, head: Ref, empty: Ref, h: Heap, p: PageId, x: Header)
    requires Represents(mem, head, empty, h) && p in mem && mem[p].linked && x.linked
    requires x.prev == mem[p].prev && x.next == mem[p].next
    requires WfPage(h.cls, PageOf(x)) || (x.virgin == mem[p].virgin && mem[p].free != [] && PageOf(x) == Pop(PageOf(mem[p])))
    ensures p in h.pages && h.pages[p] == PageOf(mem[p])
    ensures Represents(mem[p := x], head, empty, h.(pages := h.pages[p := PageOf(x)]))
  {
    if mem[p].free != [] && PageOf(x) == Pop(PageOf(mem[p])) {
      PopFacts(h.cls, h.pages[p]);
    }
    WfUpdate(h, p, PageOf(x));
    HeaderRepresents(mem, head, empty, h, p, x);
  }

  lemma ProvisionWf(mem: Memory, head: Ref, empty: Ref, h: Heap, p: PageId, max: nat)
    requires Represents(mem, head, empty, h) && p in mem
    ensures WfPage(h.cls, Provision(h.cls, PageOf(mem[p]), max))
  {
    assert h.pages[p] == PageOf(mem[p]);
    ProvisionFacts(h.cls, h.pages[p], max);
  }

  lemma HeadFacts(mem: Memory, head: Ref, empty: Ref, h: Heap)
    requires Represents(mem, head, empty, h)
    ensures Wf(h) && head == LinkAt(h.partial, 0)
    ensures head.To? ==> head.page in mem && mem[head.page].linked && head.page in h.pages
                         && h.pages[head.page] == PageOf(mem[head.page])
  {
    if head.To? {
      assert h.partial[0] in h.partial;
    }
  }

  lemma ParkEmptyRepresents(mem: Memory, head: Ref, empty: Ref, h: Heap, p: PageId)
    requires Represents(mem, head, empty, h) && Idle(h, p) && !Parked(h, p) && |h.empty| < h.cls.emptyCap
    ensures p in mem
    ensures Represents(mem[p := mem[p].(next := empty)], head, To(p), h.(empty := [p] + h.empty))
  {
    ParkEmptyFacts(h, p);
    var r := mem[p := mem[p].(next := empty)];
    assert PagesOf(r) == h.pages;
    DoublyFrame(mem, r, head, h.partial);
    SinglyPush(mem, empty, h.empty, p);
  }

  lemma SinglyPush(mem: Memory, head: Ref, ids: seq<PageId>, p: PageId)
    requires Singly(mem, head, ids) && p in mem && p !in ids
    ensures Singly(mem[p := mem[p].(next := head)], To(p), [p] + ids)
  {
    NoDupSnoc(ids, p);
    var r := mem[p := mem[p].(next := head)];
    SinglyFrame(mem, r, head, ids);
    forall k | 0 <= k < |[p] + ids|
      ensures ([p] + ids)[k] in r && r[([p] + ids)[k]].next == LinkAt([p] + ids, k + 1)
    {
      if k > 0 {
        assert ([p] + ids)[k] == ids[k - 1];
      }
    }
  }

  lemma NotListed(h: Heap, p: PageId)
    requires Wf(h) && Idle(h, p) && !Parked(h, p)
    ensures p !in h.partial && p !in h.empty
    ensures forall q :: q in h.partial || q in h.empty ==> q in h.pages
  {
    hide NoDup, WfPage;
    forall q | q in h.partial || q in h.empty ensures q in h.pages {
      assert q in h.empty ==> Idle(h, q);
    }
  }

  /** Forgetting a page on neither list disturbs neither. */
  lemma Removed(mem: Memory, p: PageId, head: Ref, partial: seq<PageId>, empty: Ref, idle: seq<PageId>)
    requires Doubly(mem, head, partial) && Singly(mem, empty, idle) && p !in partial && p !in idle
    ensures Doubly(mem - {p}, head, partial) && Singly(mem - {p}, empty, idle)
    ensures PagesOf(mem - {p}) == PagesOf(mem) - {p}
  {
    hide NoDup;
    assert forall k :: 0 <= k < |partial| ==> partial[k] in partial;
    assert forall k :: 0 <= k < |idle| ==> idle[k] in idle;
  }

  lemma ParkColdRepresents(mem: Memory, head: Ref, empty: Ref, h: Heap, p: PageId, c: Cold)
    requires Represents(mem, head, empty, h) && Idle(h, p) && !Parked(h, p) && |h.cold| < h.cls.coldCap && c.page == p
    ensures Represents(mem - {p}, head, empty, h.(pages := h.pages - {p}, cold := h.cold + [c]))
  {
    ParkColdFacts(h, p, c);
    NotListed(h, p);
    hide Wf, Doubly, Singly, IsOut, Pristine, ColdPage, PagesOf;
    Removed(mem, p, head, h.partial, empty, h.empty);
  }

  lemma DoomRepresents(mem: Memory, head: Ref, empty: Ref, h: Heap, p: PageId)
    requires Represents(mem, head, empty, h) && Idle(h, p) && !Parked(h, p)
    ensures Represents(mem, head, empty, h.(doomed := h.doomed + {p}))
  {
    DoomFacts(h, p);
  }

  /** Popping the empty list and renewing a retired header. */
  lemma PopEmptyRepresents(mem: Memory, head: Ref, empty: Ref, h: Heap, x: Header)
    requires Represents(mem, head, empty, h) && empty.To? && empty.page in mem
    requires x.next == Nil && !x.linked
    requires PageOf(x) == if mem[empty.page].reinit then InitPage(h.cls).(virgin := false) else PageOf(mem[empty.page])
    ensures h.empty != [] && h.empty[0] == empty.page && empty.page in h.empty
    ensures var r := h.(pages := h.pages[empty.page := PageOf(x)], empty := h.empty[1..]);
            Represents(mem[empty.page := x], head, mem[empty.page].next, r) && !Parked(r, empty.page)
  {
    var p := empty.page;
    assert h.empty[0] == p && p in h.empty;
    PopEmptyFacts(h);
    InitFacts(h.cls);
    hide NoDup, IsOut, Pristine, ColdPage;
    RenewFacts(h.(empty := h.empty[1..]), p, PageOf(x));
    assert PagesOf(mem[p := x]) == h.pages[p := PageOf(x)];
    DoublyFrame(mem, mem[p := x], head, h.partial);
    SinglyTail(mem, empty, h.empty, x);
  }

  lemma SinglyTail(mem: Memory, head: Ref, ids: seq<PageId>, x: Header)
    requires Singly(mem, head, ids) && ids != []
    ensures Singly(mem[ids[0] := x], mem[ids[0]].next, ids[1..])
  {
    var t, r := ids[1..], mem[ids[0] := x];
    forall k | 0 <= k < |t| ensures t[k] in r && r[t[k]].next == LinkAt(t, k + 1) {
      assert t[k] == ids[k + 1];
    }
  }

  lemma RenewColdRepresents(mem: Memory, head: Ref, empty: Ref, h: Heap, x: Header)
    requires Represents(mem, head, empty, h) && h.cold != [] && !x.linked
    requires PageOf(x) == InitPage(h.cls).(virgin := h.cold[|h.cold| - 1].zeroed)
    ensures var c := h.cold[|h.cold| - 1];
            var r := h.(pages := h.pages[c.page := PageOf(x)], cold := h.cold[..|h.cold| - 1]);
            Represents(mem[c.page := x], head, empty, r) && !Parked(r, c.page)
  {
    var c := h.cold[|h.cold| - 1];
    var h0 := h.(cold := h.cold[..|h.cold| - 1]);
    InitFacts(h.cls);
    PopColdFacts(h);
    hide Wf, Doubly, Singly, NoDup, IsOut, Pristine, ColdPage, WfPage;
    RenewFacts(h0, c.page, PageOf(x));
    assert PagesOf(mem[c.page := x]) == h.pages[c.page := PageOf(x)];
    DoublyFrame(mem, mem[c.page := x], head, h.partial);
    SinglyFrame(mem, mem[c.page := x], empty, h.empty);
  }

  lemma ParkReady(mem: Memory, head: Ref, empty: Ref, h: Heap, p: PageId)
    requires Represents(mem, head, empty, h) && p in mem && mem[p].used == 0 && !Parked(h, p)
    ensures p in h.pages && Idle(Unlink(h, p), p) && !Parked(Unlink(h, p), p) && p !in h.doomed
  {
    UnlinkFacts(h, p);
  }

  lemma ReleaseReady(mem: Memory, head: Ref, empty: Ref, h: Heap, p: PageId, slots: seq<nat>)
    requires Represents(mem, head, empty, h) && PageLife.Chunk(h, p, slots)
    ensures p in mem && |slots| <= mem[p].used && p in h.pages && h.pages[p] == PageOf(mem[p]) && !Parked(h, p)
    ensures var x := mem[p].(virgin := false, free := mem[p].free + slots, used := mem[p].used - |slots|);
            Represents(mem[p := x], head, empty, h.(pages := h.pages[p := Returned(h.pages[p], slots)]))
  {
    hide Represents, Wf;
    HeadFacts(mem, head, empty, h);
    ReturnedWf(h, p, slots);
    SamePageId(mem, head, empty, h, p);
    var x := mem[p].(virgin := false, free := mem[p].free + slots, used := mem[p].used - |slots|);
    HeaderRepresents(mem, head, empty, h, p, x);
  }

  lemma SamePageId(mem: Memory, head: Ref, empty: Ref, h: Heap, p: PageId)
    requires Represents(mem, head, empty, h) && p in h.pages
    ensures p in mem && h.pages[p] == PageOf(mem[p])
  {
  }

  lemma RetireReady(mem: Memory, head: Ref, empty: Ref, h: Heap, p: PageId, slots: seq<nat>)
    requires Represents(mem, head, empty, h) && PageLife.Chunk(h, p, slots)
    ensures p in mem && p in h.pages && !Parked(h, p)
    ensures var x := mem[p].(free := [], used := 0, virgin := false, reinit := true);
            Represents(mem[p := x], head, empty,
                       h.(pages := h.pages[p := h.pages[p].(free := [], used := 0, virgin := false, reinit := true)]))
  {
    hide Represents, Wf;
    HeadFacts(mem, head, empty, h);
    SamePageId(mem, head, empty, h, p);
    RetiredWf(h, p, slots);
    var x := mem[p].(free := [], used := 0, virgin := false, reinit := true);
    HeaderRepresents(mem, head, empty, h, p, x);
  }

  /** What a release of the represented heap tells its caller. */
  lemma Dooms(mem: Memory, head: Ref, empty: Ref, h: Heap, p: PageId, slots: seq<nat>, d: Discard)
    requires Represents(mem, head, empty, h) && PageLife.Chunk(h, p, slots)
    ensures p in mem && h.pages[p] == PageOf(mem[p]) && |slots| <= h.pages[p].used
    ensures p in Release(h, p, slots, d).doomed <==> |slots| == h.pages[p].used && BothFull(h)
    ensures |slots| == h.pages[p].used ==> (p in Retire(h, p, d).doomed <==> BothFull(h))
    ensures p in Release(h, p, slots, d).doomed ==> forall b: Block :: b.page == p ==> !IsOut(Release(h, p, slots, d), b)
    ensures |slots| == h.pages[p].used ==> forall b: Block :: b.page == p ==> !IsOut(Retire(h, p, d), b)
  {
    hide Represents, Wf, PageLife.Chunk, IsOut, Release, Retire;
    HeadFacts(mem, head, empty, h);
    ReturnedWf(h, p, slots);
    SamePageId(mem, head, empty, h, p);
    ReleaseDooms(h, p, slots, d);
  }

  lemma RetiredWf(h: Heap, p: PageId, slots: seq<nat>)
    requires Wf(h) && PageLife.Chunk(h, p, slots)
    ensures !Parked(h, p)
    ensures Wf(h.(pages := h.pages[p := h.pages[p].(free := [], used := 0, virgin := false, reinit := true)]))
  {
    assert slots[0] in slots;
    OutPagesNotParked(h, Block(p, slots[0]));
    var pg := h.pages[p].(free := [], used := 0, virgin := false, reinit := true);
    assert WfPage(h.cls, pg);
    hide NoDup, WfPage;
  }

  lemma WakeReady(mem: Memory, head: Ref, empty: Ref, h: Heap, x: Header)
    requires Represents(mem, head, empty, h) && empty.To? && empty.page in mem && x.next == Nil
    requires !mem[empty.page].reinit ==> x == mem[empty.page].(next := Nil)
    requires mem[empty.page].reinit ==> PageOf(x) == InitPage(h.cls).(virgin := false)
    ensures h.empty != [] && h.empty[0] == empty.page && empty.page in h.pages && h.pages[empty.page] == PageOf(mem[empty.page])
    ensures var r := h.(pages := h.pages[empty.page := PageOf(x)], empty := h.empty[1..]);
            Represents(mem[empty.page := x], head, mem[empty.page].next, r) && !Parked(r, empty.page)
    ensures !x.linked
  {
    assert h.empty[0] in h.empty;
    PopEmptyRepresents(mem, head, empty, h, x);
  }

  lemma EmptyFacts(mem: Memory, head: Ref, empty: Ref, h: Heap)
    requires Represents(mem, head, empty, h)
    ensures empty.To? <==> h.empty != []
    ensures empty.To? ==> empty.page in mem
  {
  }

  // ----------------------------------------------- the refill loop, step by step

  /** What the loop still has to do, given what it has done, adds up to the whole refill. */
  ghost predicate OnTrack(goal: Taken, h: Heap, want: nat, chain: seq<Block>, virgin: bool) {
    && Wf(h) && |chain| <= want
    && var f := Fill(h, want - |chain|);
       goal == Taken(f.h, chain + f.out, virgin && f.virgin)
  }

  function Popped(h: Heap, p: PageId): (r: Heap)
    requires p in h.pages && h.pages[p].free != []
  {
    h.(pages := h.pages[p := Pop(h.pages[p])])
  }

  function Provisioned(h: Heap, p: PageId, max: nat): (r: Heap)
    requires p in h.pages
  {
    h.(pages := h.pages[p := Provision(h.cls, h.pages[p], max)])
  }

  lemma PopOnTrack(goal: Taken, h: Heap, want: nat, chain: seq<Block>, virgin: bool, p: PageId)
    requires OnTrack(goal, h, want, chain, virgin) && |chain| < want
    requires h.partial != [] && h.partial[0] == p && p in h.pages && h.pages[p].free != []
    requires virgin ==> h.pages[p].virgin
    ensures Wf(Popped(h, p)) && p in Popped(h, p).pages
    ensures var q := Popped(h, p).pages[p];
            Avail(h.cls, q) == 0 <==> q.free == [] && q.used + |q.free| >= h.cls.capacity
    ensures var pg := h.pages[p];
            var r := Popped(h, p);
            var out := chain + [Block(p, pg.free[|pg.free| - 1])];
            OnTrack(goal, if Avail(h.cls, r.pages[p]) == 0 then Unlink(r, p) else r, want, out, virgin)
  {
    assert p in h.partial;
    PopFacts(h.cls, h.pages[p]);
    WfUpdate(h, p, Pop(h.pages[p]));
    TakeHeadMoves(h, want - |chain|);
    var (h1, b) := TakeHead(h, want - |chain|);
    var f := Fill(h1, want - |chain| - 1);
    assert chain + ([b] + f.out) == chain + [b] + f.out;
  }

  lemma ProvisionOnTrack(goal: Taken, h: Heap, want: nat, chain: seq<Block>, virgin: bool, p: PageId)
    requires OnTrack(goal, h, want, chain, virgin) && |chain| < want
    requires h.partial != [] && h.partial[0] == p && p in h.pages && h.pages[p].free == []
    requires h.pages[p].used < h.cls.capacity
    ensures OnTrack(goal, Provisioned(h, p, want - |chain|), want, chain, virgin)
    ensures Provisioned(h, p, want - |chain|).pages[p].free != []
  {
    hide *;
    var w: nat := want - |chain|;
    OnTrackFacts(goal, h, want, chain, virgin);
    FillProvisioned(h, p, w);
    OnTrackSame(goal, h, Provisioned(h, p, w), want, chain, virgin);
  }

  lemma OnTrackFacts(goal: Taken, h: Heap, want: nat, chain: seq<Block>, virgin: bool)
    requires OnTrack(goal, h, want, chain, virgin)
    ensures Wf(h) && |chain| <= want
  {
  }

  lemma OnTrackSame(goal: Taken, h: Heap, q: Heap, want: nat, chain: seq<Block>, virgin: bool)
    requires OnTrack(goal, h, want, chain, virgin) && Wf(h) && Wf(q) && |chain| <= want
    requires Fill(q, want - |chain|) == Fill(h, want - |chain|)
    ensures OnTrack(goal, q, want, chain, virgin)
  {
    hide Wf, Fill;
  }

  lemma FillProvisioned(h: Heap, p: PageId, w: nat)
    requires Wf(h) && w > 0 && h.partial != [] && h.partial[0] == p && p in h.pages && h.pages[p].free == []
    requires h.pages[p].used < h.cls.capacity
    ensures var q := Provisioned(h, p, w); Wf(q) && p in q.pages && q.pages[p].free != [] && Fill(q, w) == Fill(h, w)
  {
    hide Wf, TakeHead, Provisioned, Fill;
    ProvisionedFacts(h, p, w);
    FillStep(h, w);
    FillStep(Provisioned(h, p, w), w);
  }

  /** Provisioning a page early changes nothing about the block taken next. */
  lemma ProvisionedFacts(h: Heap, p: PageId, w: nat)
    requires Wf(h) && w > 0 && h.partial != [] && h.partial[0] == p && p in h.pages && h.pages[p].free == []
    requires h.pages[p].used < h.cls.capacity
    ensures var q := Provisioned(h, p, w);
            && Wf(q) && p in q.pages && q.pages[p].free != [] && q.partial == h.partial && q.cls == h.cls
            && q.pages[p].virgin == h.pages[p].virgin && q.pages[p].used == h.pages[p].used
            && TakeHead(q, w) == TakeHead(h, w)
  {
    assert p in h.partial;
    ProvisionFacts(h.cls, h.pages[p], w);
    WfUpdate(h, p, Provision(h.cls, h.pages[p], w));
    var q := Provisioned(h, p, w);
    hide WfPage, NoDup, Wf;
    assert q.pages[p := Pop(q.pages[p])] == h.pages[p := Pop(q.pages[p])];
  }

  lemma ExhaustedOnTrack(goal: Taken, h: Heap, want: nat, chain: seq<Block>, virgin: bool, p: PageId)
    requires OnTrack(goal, h, want, chain, virgin) && |chain| < want
    requires h.partial != [] && h.partial[0] == p && p in h.pages && Avail(h.cls, h.pages[p]) == 0
    requires virgin ==> h.pages[p].virgin
    ensures OnTrack(goal, Unlink(h, p), want, chain, virgin) && |Unlink(h, p).partial| < |h.partial|
  {
    UnlinkFacts(h, p);
    assert p in h.partial;
  }

  lemma StartOnTrack(h: Heap, want: nat)
    requires Wf(h)
    ensures OnTrack(Fill(h, want), h, want, [], true)
  {
    var f := Fill(h, want);
    assert [] + f.out == f.out;
  }

  lemma EndOnTrack(goal: Taken, h: Heap, want: nat, chain: seq<Block>, virgin: bool)
    requires OnTrack(goal, h, want, chain, virgin) && (|chain| >= want || h.partial == [])
    ensures goal == Taken(h, chain, virgin)
  {
  }

  /** Entering a page that is not virgin makes the whole batch not virgin. */
  lemma EnterOnTrack(goal: Taken, h: Heap, want: nat, chain: seq<Block>, virgin: bool)
    requires OnTrack(goal, h, want, chain, virgin) && |chain| < want && h.partial != []
    requires h.partial[0] in h.pages && !h.pages[h.partial[0]].virgin
    ensures OnTrack(goal, h, want, chain, false)
  {
  }

  // -------------------------------------------- a batched release, chunk by chunk

  /** Releasing the rest of the groups from here adds up to the whole batch. */
  ghost predicate BatchOnTrack(goal: Heap, h: Heap, rest: seq<Ownership.Group>) {
    Wf(h) && Supplied(h) && Batch.Plan(h, rest) && goal == Batch.Grouped(h, rest)
  }

  lemma StartBatch(h: Heap, groups: seq<Ownership.Group>)
    requires Wf(h) && Supplied(h) && Batch.Plan(h, groups)
    ensures BatchOnTrack(Batch.Grouped(h, groups), h, groups[0..])
  {
    hide Wf, Supplied, Batch.Plan, Batch.Grouped;
    assert groups[0..] == groups;
  }

  lemma EndBatch(goal: Heap, h: Heap, groups: seq<Ownership.Group>)
    requires BatchOnTrack(goal, h, groups[|groups|..])
    ensures goal == h
  {
    hide Wf, Supplied, Batch.Plan;
  }

  lemma NextGroup(goal: Heap, mem: Memory, head: Ref, empty: Ref, h: Heap, groups: seq<Ownership.Group>, i: nat)
    requires Represents(mem, head, empty, h) && i < |groups| && BatchOnTrack(goal, h, groups[i..])
    ensures var g := groups[i];
            && PageLife.Chunk(h, g.page, g.slots) && g.page in mem && h.pages[g.page] == PageOf(mem[g.page])
            && |g.slots| <= h.pages[g.page].used && g.page !in h.doomed
            && BatchOnTrack(goal, Ownership.HeapAfter(h, g), groups[i + 1..])
            && (forall p :: p != g.page ==> (p in Ownership.HeapAfter(h, g).doomed <==> p in h.doomed))
            && (forall p :: p in h.doomed ==> p in Ownership.HeapAfter(h, g).doomed)
  {
    var g, rest := groups[i], groups[i..];
    assert rest[0] == g && rest[1..] == groups[i + 1..];
    assert PageLife.Chunk(h, g.page, g.slots);
    Batch.ChunkFits(h, g.page, g.slots);
    ReturnedWf(h, g.page, g.slots);
    Batch.PlanRest(h, rest);
    Batch.OneLater(h, g);
    OnlyItsPage(h, g);
    hide Wf, Supplied, Batch.Plan, PageLife.Chunk, Ownership.HeapAfter, CameHome;
    SamePageId(mem, head, empty, h, g.page);
  }

  lemma OnlyItsPage(h: Heap, g: Ownership.Group)
    requires g.page in h.pages && |g.slots| <= h.pages[g.page].used
    ensures forall p :: p != g.page ==> (p in Ownership.HeapAfter(h, g).doomed <==> p in h.doomed)
    ensures forall p :: p in h.doomed ==> p in Ownership.HeapAfter(h, g).doomed
  {
  }

  class ListHead {
    const cls: SizeClass
    var mem: Memory
    var head: Ref
    var empty: Ref
    var emptyCount: nat
    var cold: seq<Cold>
    ghost var heap: Heap

    ghost predicate Valid()
      reads this
    {
      Represents(mem, head, empty, heap) && emptyCount == |heap.empty| && cold == heap.cold && cls == heap.cls
    }

    method LinkPartial(p: PageId)
      requires Valid() && p in mem && !mem[p].linked && !Parked(heap, p)
      modifies this`mem, this`head, this`heap
      ensures Valid() && heap == Link(old(heap), p)
    {
      hide Represents;
      LinkRepresents(mem, head, empty, heap, p);
      mem := mem[p := mem[p].(prev := Nil, next := head)];
      if head.To? {
        mem := mem[head.page := mem[head.page].(prev := To(p))];
      }
      mem := mem[p := mem[p].(linked := true)];
      assert mem == Linking(old(mem), head, p);
      head := To(p);
      heap := Link(heap, p);
    }

    /** Reports whether the page was linked and has been removed. */
    method UnlinkPartial(p: PageId) returns (was: bool)
      requires Valid() && p in mem
      modifies this`mem, this`head, this`heap
      ensures Valid() && heap == Unlink(old(heap), p) && was == old(mem)[p].linked
    {
      hide Represents;
      SamePage(mem, head, empty, heap, p);
      if !mem[p].linked {
        return false;
      }
      UnlinkRepresents(mem, head, empty, heap, p);
      var prev, next := mem[p].prev, mem[p].next;
      if prev.To? {
        mem := mem[prev.page := mem[prev.page].(next := next)];
      } else {
        head := next;
      }
      if next.To? {
        mem := mem[next.page := mem[next.page].(prev := prev)];
      }
      mem := mem[p := mem[p].(prev := Nil, next := Nil)];
      mem := mem[p := mem[p].(linked := false)];
      assert mem == Unlinking(old(mem), p);
      heap := Unlink(heap, p);
      return true;
    }

    method PopBlock(p: PageId) returns (slot: nat)
      requires Valid() && p in mem && mem[p].linked && mem[p].free != []
      modifies this`mem, this`heap
      ensures Valid() && p in old(heap).pages && old(heap).pages[p] == PageOf(old(mem)[p])
      ensures heap == Popped(old(heap), p) && slot == old(mem)[p].free[|old(mem)[p].free| - 1]
      ensures mem == old(mem)[p := mem[p]] && PageOf(mem[p]) == Pop(PageOf(old(mem)[p]))
    {
      hide Represents;
      var x := mem[p];
      slot := x.free[|x.free| - 1];
      x := x.(free := x.free[..|x.free| - 1], used := x.used + 1);
      HeaderStep(mem, head, empty, heap, p, x);
      mem := mem[p := x];
      heap := Popped(heap, p);
    }

    method ProvisionPage(p: PageId, max: nat)
      requires Valid() && p in mem && mem[p].linked
      modifies this`mem, this`heap
      ensures Valid() && p in old(heap).pages && heap == Provisioned(old(heap), p, max)
      ensures mem == old(mem)[p := mem[p]] && PageOf(mem[p]) == Provision(cls, PageOf(old(mem)[p]), max)
    {
      hide Represents;
      ProvisionWf(mem, head, empty, heap, p, max);
      var x := mem[p];
      var m := x.used + |x.free|;
      var n := if m <= cls.capacity then Min(cls.capacity - m, max) else 0;
      x := x.(free := x.free + Descending(m, n));
      HeaderStep(mem, head, empty, heap, p, x);
      mem := mem[p := x];
      heap := Provisioned(heap, p, max);
    }

    /** Pop up to `want` blocks from the pages of the partial list, building a detached chain. */
    method FillFromList(want: nat) returns (chain: seq<Block>, virgin: bool)
      requires Valid()
      modifies this`mem, this`head, this`heap
      ensures Valid() && Wf(old(heap)) && Taken(heap, chain, virgin) == Fill(old(heap), want)
    {
      hide Represents, OnTrack, Fill, Wf;
      HeadFacts(mem, head, empty, heap);
      ghost var goal := Fill(heap, want);
      chain, virgin := [], true;
      StartOnTrack(heap, want);
      while |chain| < want && head.To?
        invariant Valid() && OnTrack(goal, heap, want, chain, virgin) && |chain| <= want
        decreases want - |chain|, |heap.partial|
      {
        HeadFacts(mem, head, empty, heap);
        var p := head.page;
        if !mem[p].virgin {
          EnterOnTrack(goal, heap, want, chain, virgin);
          virgin := false;
        }
        chain := DrainPage(p, want, chain, virgin, goal);
      }
      HeadFacts(mem, head, empty, heap);
      EndOnTrack(goal, heap, want, chain, virgin);
    }

    /** The inner loop: take from one page until the batch is full or the page is exhausted and unlinked. */
    method DrainPage(p: PageId, want: nat, taken: seq<Block>, virgin: bool, ghost goal: Taken) returns (chain: seq<Block>)
      requires Valid() && OnTrack(goal, heap, want, taken, virgin) && |taken| < want
      requires head == To(p) && p in mem && (virgin ==> mem[p].virgin)
      modifies this`mem, this`head, this`heap
      ensures Valid() && OnTrack(goal, heap, want, chain, virgin)
      ensures |chain| <= want && (|chain| > |taken| || (|chain| == |taken| && |heap.partial| < |old(heap).partial|))
    {
      chain := taken;
      hide Represents, OnTrack, Wf;
      while |chain| < want
        invariant Valid() && OnTrack(goal, heap, want, chain, virgin) && |taken| <= |chain| <= want
        invariant head == To(p) && p in mem && (virgin ==> mem[p].virgin)
        invariant |heap.partial| == |old(heap).partial|
        decreases want - |chain|, if p in mem && mem[p].free == [] then 1 else 0
      {
        HeadFacts(mem, head, empty, heap);
        if mem[p].free != [] {
          PopOnTrack(goal, heap, want, chain, virgin, p);
          var slot := PopBlock(p);
          chain := chain + [Block(p, slot)];
          if mem[p].free == [] && mem[p].used + |mem[p].free| >= cls.capacity {
            var was := UnlinkPartial(p);
            return;
          }
        } else if mem[p].used + |mem[p].free| < cls.capacity {
          ProvisionOnTrack(goal, heap, want, chain, virgin, p);
          ProvisionPage(p, want - |chain|);
        } else {
          ExhaustedOnTrack(goal, heap, want, chain, virgin, p);
          var was := UnlinkPartial(p);
          return;
        }
      }
    }

    /** Move an idle page down the retention ladder; reports whether the caller must unmap it. */
    method ParkEmptyPage(p: PageId, d: Discard) returns (unmap: bool)
      requires Valid() && p in mem && mem[p].used == 0 && !Parked(heap, p)
      modifies this
      ensures Valid() && p in old(heap).pages && heap == Park(old(heap), p, d)
      ensures unmap <==> p in heap.doomed
      ensures unmap <==> BothFull(old(heap))
    {
      hide Represents, Wf;
      ParkReady(mem, head, empty, heap, p);
      var was := UnlinkPartial(p);
      if emptyCount < cls.emptyCap {
        ParkEmptyRepresents(mem, head, empty, heap, p);
        mem := mem[p := mem[p].(next := empty)];
        empty := To(p);
        emptyCount := emptyCount + 1;
        heap := heap.(empty := [p] + heap.empty);
        unmap := false;
      } else if |cold| < cls.coldCap {
        var c := Cold(p, cls.lazy && d.zeroed, !cls.lazy || d.physical);
        ParkColdRepresents(mem, head, empty, heap, p, c);
        cold := cold + [c];
        mem := mem - {p};
        heap := heap.(pages := heap.pages - {p}, cold := heap.cold + [c]);
        unmap := false;
      } else {
        DoomRepresents(mem, head, empty, heap, p);
        heap := heap.(doomed := heap.doomed + {p});
        unmap := true;
      }
    }

    /** Splice a chunk of blocks back onto its page. */
    method ReleaseInner(p: PageId, slots: seq<nat>, d: Discard) returns (unmap: bool)
      requires Valid() && PageLife.Chunk(heap, p, slots)
      modifies this
      ensures Valid() && p in old(heap).pages && |slots| <= old(heap).pages[p].used
      ensures heap == Release(old(heap), p, slots, d)
      ensures unmap <==> p in heap.doomed
      ensures unmap <==> |slots| == old(heap).pages[p].used && BothFull(old(heap))
      ensures unmap ==> forall b: Block :: b.page == p ==> !IsOut(heap, b)
    {
      hide Represents, Wf, PageLife.Chunk, IsOut;
      Dooms(mem, head, empty, heap, p, slots, d);
      ReleaseReady(mem, head, empty, heap, p, slots);
      var x := mem[p];
      x := x.(virgin := false);
      x := x.(free := x.free + slots);
      x := x.(used := x.used - |slots|);
      mem := mem[p := x];
      heap := heap.(pages := heap.pages[p := Returned(heap.pages[p], slots)]);
      unmap := false;
      if x.used == 0 {
        unmap := ParkEmptyPage(p, d);
      } else if !x.linked {
        LinkPartial(p);
      }
    }

    /** Forget a page whose used blocks are all in one chunk. */
    method RetirePage(p: PageId, ghost slots: seq<nat>, d: Discard) returns (unmap: bool)
      requires Valid() && PageLife.Chunk(heap, p, slots) && p in mem && |slots| == mem[p].used
      modifies this
      ensures Valid() && p in old(heap).pages && heap == Retire(old(heap), p, d)
      ensures unmap <==> p in heap.doomed
      ensures unmap <==> BothFull(old(heap))
      ensures forall b: Block :: b.page == p ==> !IsOut(heap, b)
    {
      hide Represents, Wf, PageLife.Chunk, IsOut;
      Dooms(mem, head, empty, heap, p, slots, d);
      RetireReady(mem, head, empty, heap, p, slots);
      mem := mem[p := mem[p].(free := [], used := 0, virgin := false, reinit := true)];
      heap := heap.(pages := heap.pages[p := heap.pages[p].(free := [], used := 0, virgin := false, reinit := true)]);
      unmap := ParkEmptyPage(p, d);
    }

    /** The locked section of a batched release: every chunk goes back to its page, by the shortcut where the
        caller allows it and the chunk holds all the page's used blocks. Reports the pages to unmap. */
    method ReleaseGroups(groups: seq<Ownership.Group>) returns (unmaps: seq<PageId>)
      requires Valid() && Supplied(heap) && Batch.Plan(heap, groups)
      modifies this
      ensures Valid() && Wf(old(heap)) && heap == Batch.Grouped(old(heap), groups)
      ensures forall p :: p in unmaps <==> p in heap.doomed && p !in old(heap).doomed
      ensures NoDup(unmaps)
    {
      hide Represents, BatchOnTrack, Wf, Supplied, Batch.Plan, Batch.Grouped;
      HeadFacts(mem, head, empty, heap);
      ghost var goal := Batch.Grouped(heap, groups);
      StartBatch(heap, groups);
      unmaps := [];
      var i := 0;
      while i < |groups|
        invariant 0 <= i <= |groups| && Valid() && BatchOnTrack(goal, heap, groups[i..])
        invariant forall p :: p in unmaps <==> p in heap.doomed && p !in old(heap).doomed
        invariant NoDup(unmaps) && forall p :: p in old(heap).doomed ==> p in heap.doomed
      {
        var g := groups[i];
        NextGroup(goal, mem, head, empty, heap, groups, i);
        var unmap: bool;
        if g.shortcut && |g.slots| == mem[g.page].used {
          unmap := RetirePage(g.page, g.slots, g.discard);
        } else {
          unmap := ReleaseInner(g.page, g.slots, g.discard);
        }
        if unmap {
          NoDupSnoc(unmaps, g.page);
          unmaps := unmaps + [g.page];
        }
        i := i + 1;
      }
      EndBatch(goal, heap, groups);
    }

    /** The section of a take that runs under the class lock. */
    method TakeBlocksLocked(want: nat) returns (chain: seq<Block>, virgin: bool)
      requires Valid()
      modifies this
      ensures Valid() && Wf(old(heap)) && Taken(heap, chain, virgin) == TakeHeap(old(heap), want)
    {
      hide Represents;
      HeadFacts(mem, head, empty, heap);
      chain, virgin := FillFromList(want);
      ghost var a := Taken(heap, chain, virgin);
      HeadFacts(mem, head, empty, heap);
      EmptyFacts(mem, head, empty, heap);
      if chain == [] && empty.To? {
        WakeEmptyPage();
        HeadFacts(mem, head, empty, heap);
        var v: bool;
        chain, v := FillFromList(want);
        virgin := virgin && v;
      }
      assert Taken(heap, chain, virgin) == TakeEmpty(a, want);
      HeadFacts(mem, head, empty, heap);
      if chain == [] && cold != [] {
        WakeColdPage();
        HeadFacts(mem, head, empty, heap);
        chain, virgin := FillFromList(want);
      }
    }

    method WakeEmptyPage()
      requires Valid() && empty.To? && empty.page in mem
      modifies this
      ensures Valid() && old(heap).empty != [] && old(heap).empty[0] in old(heap).pages
      ensures heap == ReuseEmpty(old(heap))
    {
      hide Represents, Wf, Parked, Link;
      var p := empty.page;
      var x := mem[p].(next := Nil);
      if x.reinit {
        x := Header(Nil, Nil, if cls.lazy then [] else Ascending(cls.capacity), 0, false, false, false);
      }
      WakeReady(mem, head, empty, heap, x);
      hide InitPage;
      empty := mem[p].next;
      emptyCount := emptyCount - 1;
      mem := mem[p := x];
      heap := heap.(pages := heap.pages[p := PageOf(x)], empty := heap.empty[1..]);
      LinkPartial(p);
    }

    method WakeColdPage()
      requires Valid() && cold != []
      modifies this
      ensures Valid() && old(heap).cold != [] && heap == ReuseCold(old(heap))
    {
      hide Represents, Wf, Parked, Link;
      var c := cold[|cold| - 1];
      var x := Header(Nil, Nil, if cls.lazy then [] else Ascending(cls.capacity), 0, c.zeroed, false, false);
      assert PageOf(x) == InitPage(cls).(virgin := c.zeroed);
      RenewColdRepresents(mem, head, empty, heap, x);
      hide InitPage;
      cold := cold[..|cold| - 1];
      mem := mem[c.page := x];
      heap := heap.(pages := heap.pages[c.page := PageOf(x)], cold := heap.cold[..|heap.cold| - 1]);
      LinkPartial(c.page);
    }
  }
}
