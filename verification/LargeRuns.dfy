/**
 The life of large regions in every interleaving (src/lib.rs alloc_large_ex,
 free_large): user, per-thread stash, hot and cold shards, and the thread that
 carries a region between two locks. Each region is in one place, is purged only
 by its holder, and is handed out readable and as zero as it is reported.
 */
module LargeRuns {
  import opened Seqs
  import opened LargeCache

  /** What a region is: its length, and whether above its header it can be touched and reads as zero. */
  datatype Contents = Contents(readable: bool, zero: bool, pages: nat)

  datatype Discarded = Discarded(physical: bool, zeroed: bool)

  /** What a purge may leave, given what it reports. */
  ghost predicate AfterDiscard(before: Contents, d: Discarded, now: Contents) {
    && now.pages == before.pages
    && (d.zeroed ==> now.readable && now.zero)
    && (!d.physical && !d.zeroed ==> now == before)
  }

  /** A recommitted range can be touched; nothing is known of its contents, readable before or not. */
  ghost predicate AfterRecommit(before: Contents, now: Contents) { now.readable && now.pages == before.pages }

  /** Purging a region that is about to be handed out: recommit unless zeros were proved. */
  ghost predicate AfterHandoffPurge(before: Contents, d: Discarded, purged: Contents, now: Contents) {
    && AfterDiscard(before, d, purged)
    && (if d.physical && !d.zeroed then AfterRecommit(purged, now) else now == purged)
  }

  datatype Key = Hot(shard: nat) | Cold(shard: nat) | Stash(cache: nat) | Flight(tid: nat)

  datatype Holder = InList(key: Key) | User

  datatype State = State(lists: map<Key, seq<Entry>>, holder: map<nat, Holder>, mem: map<nat, Contents>)

  function Initial(): State { State(map[], map[], map[]) }

  function ListOf(lists: map<Key, seq<Entry>>, k: Key): seq<Entry> { if k in lists then lists[k] else [] }

  // ------------------------------------------------------------------ steps

  datatype Step =
    | Map(base: nat, pages: nat)                                        // fresh mapping, straight to the user
    | Grow(base: nat, pages: nat)                                       // in place, at the arena frontier
    | Write(base: nat, zero: bool)                                      // the user writes
    | FreeStash(base: nat, pages: nat, cache: nat)
    | FreeHot(base: nat, pages: nat, shard: nat)
    | FreeCold(base: nat, pages: nat, shard: nat, d: Discarded, now: Contents)
    | FreeUnmap(base: nat)
    | Take(from: Key, i: nat, tid: nat)
    | Recommit(tid: nat, now: Contents)
    | Purge(tid: nat, d: Discarded, purged: Contents, now: Contents)    // zeros were asked for
    | HandOut(tid: nat)                                                 // header written, pointer returned
    | Drop(tid: nat)                                                    // unmapped or given to the arena

  ghost predicate Owned(s: State, b: nat) { b in s.holder && s.holder[b] == User && b in s.mem }

  ghost predicate Carries(s: State, t: nat) {
    |ListOf(s.lists, Flight(t))| == 1 && ListOf(s.lists, Flight(t))[0].base in s.mem
  }

  function Carried(s: State, t: nat): Entry
    requires |ListOf(s.lists, Flight(t))| == 1
  {
    ListOf(s.lists, Flight(t))[0]
  }

  ghost predicate Enabled(s: State, e: Step) {
    match e
    case Map(b, n) => b !in s.holder
    case Grow(b, n) => Owned(s, b) && n >= s.mem[b].pages
    case Write(b, z) => Owned(s, b)
    case FreeStash(b, n, c) => Owned(s, b) && n == s.mem[b].pages
    case FreeHot(b, n, k) => Owned(s, b) && n == s.mem[b].pages
    case FreeCold(b, n, k, d, now) => Owned(s, b) && n == s.mem[b].pages && AfterDiscard(s.mem[b], d, now)
    case FreeUnmap(b) => Owned(s, b)
    case Take(k, i, t) => !k.Flight? && i < |ListOf(s.lists, k)| && ListOf(s.lists, Flight(t)) == []
    case Recommit(t, now) => Carries(s, t) && Carried(s, t).decommitted && AfterRecommit(s.mem[Carried(s, t).base], now)
    case Purge(t, d, purged, now) =>
      && Carries(s, t) && !Carried(s, t).decommitted && !Carried(s, t).zeroed
      && AfterHandoffPurge(s.mem[Carried(s, t).base], d, purged, now)
    case HandOut(t) => Carries(s, t) && !Carried(s, t).decommitted
    case Drop(t) => Carries(s, t)
  }

  function Add(s: State, k: Key, e: Entry): (r: State)
  {
    s.(lists := s.lists[k := ListOf(s.lists, k) + [e]], holder := s.holder[e.base := InList(k)])
  }

  /** Take entry `i` off a list; nobody holds its region until the caller says who does. */
  function Pull(s: State, k: Key, i: nat): (r: State)
    requires i < |ListOf(s.lists, k)|
  {
    s.(lists := s.lists[k := SwapRemove(ListOf(s.lists, k), i)], holder := s.holder - {ListOf(s.lists, k)[i].base})
  }

  /** Rewrite the flags of the carried entry and the contents of its region. */
  function Rework(s: State, t: nat, e: Entry, now: Contents): (r: State)
  {
    s.(lists := s.lists[Flight(t) := [e]], mem := s.mem[e.base := now])
  }

  function Release(s: State, b: nat): (r: State) { s.(holder := s.holder - {b}) }

  ghost function Apply(s: State, e: Step): (r: State)
    requires Enabled(s, e)
  {
    match e
    case Map(b, n) => s.(holder := s.holder[b := User], mem := s.mem[b := Contents(true, true, n)])
    case Grow(b, n) => s.(mem := s.mem[b := s.mem[b].(pages := n)])
    case Write(b, z) => s.(mem := s.mem[b := Contents(true, z, s.mem[b].pages)])
    case FreeStash(b, n, c) => Add(Release(s, b), Stash(c), Entry(b, n, false, false))
    case FreeHot(b, n, k) => Add(Release(s, b), Hot(k), Entry(b, n, false, false))
    case FreeCold(b, n, k, d, now) =>
      Add(Release(s, b).(mem := s.mem[b := now]), Cold(k), Entry(b, n, d.zeroed, d.physical && !d.zeroed))
    case FreeUnmap(b) => Release(s, b)
    case Take(k, i, t) => Add(Pull(s, k, i), Flight(t), ListOf(s.lists, k)[i])
    case Recommit(t, now) => Rework(s, t, Carried(s, t).(decommitted := false), now)
    case Purge(t, d, purged, now) => Rework(s, t, Carried(s, t).(zeroed := d.zeroed), now)
    case HandOut(t) => var b := Carried(s, t).base; var r := Pull(s, Flight(t), 0); r.(holder := r.holder[b := User])
    case Drop(t) => Pull(s, Flight(t), 0)
  }

  // -------------------------------------------------------------- invariant

  ghost predicate Listed(lists: map<Key, seq<Entry>>, k: Key, i: nat, b: nat) {
    k in lists && i < |lists[k]| && lists[k][i].base == b
  }

  /** Each listed region is held by its list alone, at one position, and each held one is listed. */
  ghost predicate InvLists(lists: map<Key, seq<Entry>>, holder: map<nat, Holder>) {
    && (forall k, i: nat, b :: Listed(lists, k, i, b) ==> b in holder && holder[b] == InList(k))
    && (forall k, i: nat, j: nat, b :: Listed(lists, k, i, b) && Listed(lists, k, j, b) ==> i == j)
    && (forall b :: b in holder && holder[b].InList? ==> exists i: nat :: Listed(lists, holder[b].key, i, b))
  }

  /** The entry tells the truth: it has the region's length, a zeroed one is readable and zero, and any
      not marked decommitted is readable. Only cold entries and entries just taken from there may be decommitted. */
  ghost predicate Truthful(k: Key, e: Entry, mem: map<nat, Contents>) {
    && e.base in mem && e.pages == mem[e.base].pages
    && (e.zeroed ==> mem[e.base].readable && mem[e.base].zero)
    && (!e.decommitted ==> mem[e.base].readable)
    && (e.decommitted ==> !e.zeroed && (k.Cold? || k.Flight?))
  }

  ghost predicate InvTruth(s: State) {
    && (forall k, i: nat, b :: Listed(s.lists, k, i, b) ==> Truthful(k, s.lists[k][i], s.mem))
    && (forall b :: b in s.holder && s.holder[b] == User ==> b in s.mem && s.mem[b].readable)
    && (forall t :: |ListOf(s.lists, Flight(t))| <= 1)
  }

  ghost predicate Inv(s: State) { InvLists(s.lists, s.holder) && InvTruth(s) }

  // ----------------------------------------------------------- preservation

  lemma AddLists(s: State, k: Key, e: Entry)
    requires InvLists(s.lists, s.holder) && e.base !in s.holder
    ensures InvLists(Add(s, k, e).lists, Add(s, k, e).holder)
  {
    var r := Add(s, k, e);
    var n := |ListOf(s.lists, k)|;
    forall j, i: nat, b ensures Listed(r.lists, j, i, b) <==> Listed(s.lists, j, i, b) || (j == k && i == n && b == e.base) {
    }
    assert Listed(r.lists, k, n, e.base);
    forall b | b in r.holder && r.holder[b].InList? ensures exists i: nat :: Listed(r.lists, r.holder[b].key, i, b) {
      if b != e.base {
        var i: nat :| Listed(s.lists, s.holder[b].key, i, b);
        assert Listed(r.lists, r.holder[b].key, i, b);
      }
    }
  }

  /** Where the entries of a list are after one was pulled. */
  lemma PullListed(s: State, k: Key, at: nat, j: Key, i: nat, b: nat)
    requires k in s.lists && at < |s.lists[k]| && Listed(Pull(s, k, at).lists, j, i, b)
    ensures var was: nat := if j == k && i == at then |s.lists[k]| - 1 else i;
            Listed(s.lists, j, was, b) && s.lists[j][was] == Pull(s, k, at).lists[j][i]
            && (j == k ==> was != at)
  {
  }

  lemma PullLists(s: State, k: Key, at: nat)
    requires InvLists(s.lists, s.holder) && k in s.lists && at < |s.lists[k]|
    ensures InvLists(Pull(s, k, at).lists, Pull(s, k, at).holder)
    ensures s.lists[k][at].base in s.holder && s.holder[s.lists[k][at].base] == InList(k)
  {
    var r := Pull(s, k, at);
    var gone, last := s.lists[k][at].base, |s.lists[k]| - 1;
    assert Listed(s.lists, k, at, gone);
    forall j, i: nat, b | Listed(r.lists, j, i, b) ensures b in r.holder && r.holder[b] == InList(j) {
      PullListed(s, k, at, j, i, b);
    }
    forall j, i: nat, l: nat, b | Listed(r.lists, j, i, b) && Listed(r.lists, j, l, b) ensures i == l {
      PullListed(s, k, at, j, i, b);
      PullListed(s, k, at, j, l, b);
    }
    forall b | b in r.holder && r.holder[b].InList? ensures exists i: nat :: Listed(r.lists, r.holder[b].key, i, b) {
      var i: nat :| Listed(s.lists, s.holder[b].key, i, b);
      assert Listed(r.lists, r.holder[b].key, if r.holder[b].key == k && i == last then at else i, b);
    }
  }

  /** Handing a region over that is in no list. */
  lemma HolderLists(lists: map<Key, seq<Entry>>, holder: map<nat, Holder>, b: nat)
    requires InvLists(lists, holder) && (b in holder ==> holder[b] == User)
    ensures InvLists(lists, holder[b := User]) && InvLists(lists, holder - {b})
  {
  }

  lemma AddTruth(s: State, k: Key, e: Entry)
    requires InvTruth(s) && Truthful(k, e, s.mem) && (k.Flight? ==> ListOf(s.lists, k) == [])
    ensures InvTruth(Add(s, k, e))
  {
    var r := Add(s, k, e);
    var n := |ListOf(s.lists, k)|;
    forall j, i: nat, b | Listed(r.lists, j, i, b) ensures Truthful(j, r.lists[j][i], r.mem) {
      if !(j == k && i == n) {
        assert Listed(s.lists, j, i, b);
      }
    }
  }

  lemma PullTruth(s: State, k: Key, at: nat)
    requires InvTruth(s) && k in s.lists && at < |s.lists[k]|
    ensures InvTruth(Pull(s, k, at)) && Truthful(k, s.lists[k][at], s.mem)
  {
    var r := Pull(s, k, at);
    forall j, i: nat, b | Listed(r.lists, j, i, b) ensures Truthful(j, r.lists[j][i], r.mem) {
      PullListed(s, k, at, j, i, b);
    }
    assert Listed(s.lists, k, at, s.lists[k][at].base);
  }

  /** New contents of a region that is in no list, or whose listed entries are replaced as well. */
  lemma ContentsTruth(s: State, b: nat, now: Contents)
    requires InvTruth(s) && InvLists(s.lists, s.holder)
    requires b !in s.holder || (s.holder[b] == User && now.readable)
    ensures InvTruth(s.(mem := s.mem[b := now]))
  {
    var r := s.(mem := s.mem[b := now]);
    forall k, i: nat, x | Listed(r.lists, k, i, x) ensures Truthful(k, r.lists[k][i], r.mem) {
      assert Listed(s.lists, k, i, x);
    }
  }

  lemma TakeInv(s: State, k: Key, i: nat, t: nat)
    requires Inv(s) && Enabled(s, Take(k, i, t))
    ensures Inv(Apply(s, Take(k, i, t)))
  {
    hide InvLists, InvTruth, Truthful;
    var e := s.lists[k][i];
    PullLists(s, k, i);
    PullTruth(s, k, i);
    var m := Pull(s, k, i);
    FlightTruthful(k, e, t, s.mem);
    AddLists(m, Flight(t), e);
    AddTruth(m, Flight(t), e);
  }

  lemma FlightTruthful(k: Key, e: Entry, t: nat, mem: map<nat, Contents>)
    requires Truthful(k, e, mem)
    ensures Truthful(Flight(t), e, mem)
  {
  }

  lemma FreeInv(s: State, b: nat, k: Key, e: Entry, now: Contents)
    requires Inv(s) && Owned(s, b) && e.base == b && !k.Flight? && Truthful(k, e, s.mem[b := now])
    ensures Inv(Add(Release(s, b).(mem := s.mem[b := now]), k, e))
  {
    HolderLists(s.lists, s.holder, b);
    var m := Release(s, b);
    assert InvTruth(m);
    hide InvLists, InvTruth, Truthful;
    ContentsTruth(m, b, now);
    AddLists(m.(mem := s.mem[b := now]), k, e);
    AddTruth(m.(mem := s.mem[b := now]), k, e);
  }

  lemma SameMem(s: State, b: nat)
    requires Owned(s, b)
    ensures s.mem[b := s.mem[b]] == s.mem
  {
  }

  lemma CarriedFacts(s: State, t: nat)
    requires Inv(s) && Carries(s, t)
    ensures Flight(t) in s.lists && s.lists[Flight(t)] == [Carried(s, t)] && Truthful(Flight(t), Carried(s, t), s.mem)
    ensures var b := Carried(s, t).base; b in s.holder && s.holder[b] == InList(Flight(t))
  {
    assert Listed(s.lists, Flight(t), 0, Carried(s, t).base);
  }

  lemma ReworkInv(s: State, t: nat, e: Entry, now: Contents)
    requires Inv(s) && Carries(s, t) && e.base == Carried(s, t).base
    requires Truthful(Flight(t), e, s.mem[e.base := now])
    ensures Inv(Rework(s, t, e, now))
  {
    CarriedFacts(s, t);
    var r := Rework(s, t, e, now);
    assert forall k, i: nat, b :: Listed(r.lists, k, i, b) <==> Listed(s.lists, k, i, b);
    forall k, i: nat, b | Listed(r.lists, k, i, b) ensures Truthful(k, r.lists[k][i], r.mem) {
      if k != Flight(t) {
        assert Listed(s.lists, k, i, b) && b != e.base;
      }
    }
  }

  lemma HandOutInv(s: State, t: nat)
    requires Inv(s) && Enabled(s, HandOut(t))
    ensures Inv(Apply(s, HandOut(t)))
  {
    CarriedFacts(s, t);
    var b := Carried(s, t).base;
    PullLists(s, Flight(t), 0);
    PullTruth(s, Flight(t), 0);
    var r := Pull(s, Flight(t), 0);
    HolderLists(r.lists, r.holder, b);
  }

  /** Every step of every thread keeps each region in one place and every flag truthful. */
  lemma StepInv(s: State, e: Step)
    requires Inv(s) && Enabled(s, e)
    ensures Inv(Apply(s, e))
  {
    match e
    case Map(b, n) =>
      HolderLists(s.lists, s.holder, b);
      ContentsTruth(s, b, Contents(true, true, n));
    case Grow(b, n) => ContentsTruth(s, b, s.mem[b].(pages := n));
    case Write(b, z) => ContentsTruth(s, b, Contents(true, z, s.mem[b].pages));
    case FreeStash(b, n, c) =>
      SameMem(s, b);
      FreeInv(s, b, Stash(c), Entry(b, n, false, false), s.mem[b]);
    case FreeHot(b, n, k) =>
      SameMem(s, b);
      FreeInv(s, b, Hot(k), Entry(b, n, false, false), s.mem[b]);
    case FreeCold(b, n, k, d, now) => FreeInv(s, b, Cold(k), Entry(b, n, d.zeroed, d.physical && !d.zeroed), now);
    case FreeUnmap(b) => HolderLists(s.lists, s.holder, b);
    case Take(k, i, t) => TakeInv(s, k, i, t);
    case Recommit(t, now) =>
      CarriedFacts(s, t);
      ReworkInv(s, t, Carried(s, t).(decommitted := false), now);
    case Purge(t, d, purged, now) =>
      CarriedFacts(s, t);
      ReworkInv(s, t, Carried(s, t).(zeroed := d.zeroed), now);
    case HandOut(t) => HandOutInv(s, t);
    case Drop(t) =>
      CarriedFacts(s, t);
      PullLists(s, Flight(t), 0);
      PullTruth(s, Flight(t), 0);
  }

  ghost predicate Runs(s: State, es: seq<Step>, r: State)
    decreases |es|
  {
    if es == [] then r == s else Enabled(s, es[0]) && Runs(Apply(s, es[0]), es[1..], r)
  }

  lemma InitialInv()
    ensures Inv(Initial())
  {
  }

  lemma {:induction false} RunsInv(s: State, es: seq<Step>, r: State)
    requires Inv(s) && Runs(s, es, r)
    ensures Inv(r)
    decreases |es|
  {
    if es != [] {
      StepInv(s, es[0]);
      RunsInv(Apply(s, es[0]), es[1..], r);
    }
  }

  // --------------------------------------------------------------- theorems

  datatype Place = At(key: Key, i: nat) | WithUser

  ghost predicate In(s: State, b: nat, p: Place) {
    match p
    case At(k, i) => Listed(s.lists, k, i, b)
    case WithUser => b in s.holder && s.holder[b] == User
  }

  /** In every run each mapped region is in exactly one place: one position of one list, or the user. */
  lemma RegionInOnePlace(es: seq<Step>, s: State, b: nat)
    requires Runs(Initial(), es, s) && b in s.holder
    ensures exists p :: In(s, b, p)
    ensures forall p, q :: In(s, b, p) && In(s, b, q) ==> p == q
  {
    RunsInv(Initial(), es, s);
    if s.holder[b] == User {
      assert In(s, b, WithUser);
    } else {
      var i: nat :| Listed(s.lists, s.holder[b].key, i, b);
      assert In(s, b, At(s.holder[b].key, i));
    }
    forall p, q | In(s, b, p) && In(s, b, q) ensures p == q {
      assert p.At? ==> Listed(s.lists, p.key, p.i, b);
      assert q.At? ==> Listed(s.lists, q.key, q.i, b);
    }
  }

  /** In every run, for every backend that obeys its contract, a region is readable when its header is
      written and handed out, has the length its entry says, growth before it was freed included, and reads
      zero whenever it is reported as zero. */
  lemma HandOutIsTruthful(es: seq<Step>, s: State, t: nat)
    requires Runs(Initial(), es, s) && Enabled(s, HandOut(t))
    ensures s.mem[Carried(s, t).base].readable && s.mem[Carried(s, t).base].pages == Carried(s, t).pages
    ensures Carried(s, t).zeroed ==> s.mem[Carried(s, t).base].zero
  {
    RunsInv(Initial(), es, s);
    CarriedFacts(s, t);
  }

  /** In every run a purge acts on a region that no list and no user but the purging thread holds. */
  lemma PurgeIsExclusive(es: seq<Step>, s: State, t: nat, b: nat, p: Place)
    requires Runs(Initial(), es, s) && Carries(s, t) && b == Carried(s, t).base && In(s, b, p)
    ensures p == At(Flight(t), 0)
  {
    RunsInv(Initial(), es, s);
    CarriedFacts(s, t);
    RegionInOnePlace(es, s, b);
    assert In(s, b, At(Flight(t), 0));
  }

  // ------------------------------------------------- no region is lost on the way

  /** The region a step is about. */
  function Subject(s: State, e: Step): (b: nat)
    requires e.Take? ==> e.i < |ListOf(s.lists, e.from)|
    requires e.Recommit? || e.Purge? || e.HandOut? || e.Drop? ==> |ListOf(s.lists, Flight(e.tid))| == 1
  {
    match e
    case Take(k, i, _) => ListOf(s.lists, k)[i].base
    case Recommit(t, _) => Carried(s, t).base
    case Purge(t, _, _, _) => Carried(s, t).base
    case HandOut(t) => Carried(s, t).base
    case Drop(t) => Carried(s, t).base
    case _ => e.base
  }

  /** In every run: a region enters when it is mapped and leaves only when it is unmapped or dropped, and no step
      touches a region it is not about. */
  lemma NoRegionIsLost(es: seq<Step>, s: State, e: Step, x: nat)
    requires Runs(Initial(), es, s) && Enabled(s, e)
    ensures x == Subject(s, e) ==> (x in Apply(s, e).holder <==> !e.FreeUnmap? && !e.Drop?) && (x in s.holder <==> !e.Map?)
    ensures x != Subject(s, e) ==>
              && (x in Apply(s, e).holder <==> x in s.holder) && (x in s.holder ==> Apply(s, e).holder[x] == s.holder[x])
              && (x in Apply(s, e).mem <==> x in s.mem) && (x in s.mem ==> Apply(s, e).mem[x] == s.mem[x])
  {
    hide InvLists, InvTruth, Listed, Truthful, Runs, SwapRemove;
    InitialInv();
    RunsInv(Initial(), es, s);
    match e
    case Take(k, i, t) => PullLists(s, k, i);
    case Recommit(t, now) => CarriedFacts(s, t);
    case Purge(t, d, purged, now) => CarriedFacts(s, t);
    case HandOut(t) => CarriedFacts(s, t);
    case Drop(t) => CarriedFacts(s, t);
    case _ =>
  }

  /** Where a region lands that is freed, and what is noted about it there. */
  ghost predicate Frees(s: State, e: Step, k: Key, entry: Entry)
    requires Owned(s, entry.base)
  {
    && entry.pages == s.mem[entry.base].pages
    && match e
       case FreeStash(b, n, c) => k == Stash(c) && entry == Entry(b, n, false, false)
       case FreeHot(b, n, h) => k == Hot(h) && entry == Entry(b, n, false, false)
       case FreeCold(b, n, h, d, now) =>
         && k == Cold(h) && entry == Entry(b, n, d.zeroed, d.physical && !d.zeroed) && AfterDiscard(s.mem[b], d, now)
       case _ => false
  }

  /** A freed region can be had back: taken by any thread that carries nothing, recommitted if it was noted as
      decommitted, and handed out, it is the user's again, as long as before, and nobody else's region moved. */
  lemma FreedCanBeReused(s: State, e: Step, k: Key, entry: Entry, t: nat)
    requires Inv(s) && Owned(s, entry.base) && Frees(s, e, k, entry) && ListOf(s.lists, Flight(t)) == []
    ensures Enabled(s, e)
    ensures var a := Apply(s, e);
            && Enabled(a, Take(k, |ListOf(s.lists, k)|, t))
            && var m := Apply(a, Take(k, |ListOf(s.lists, k)|, t));
               && Carries(m, t) && Carried(m, t) == entry
               && (if entry.decommitted
                   then var r := Recommit(t, Contents(true, false, entry.pages));
                        Enabled(m, r) && Enabled(Apply(m, r), HandOut(t)) && Back(s, Apply(Apply(m, r), HandOut(t)), k, t)
                   else Enabled(m, HandOut(t)) && Back(s, Apply(m, HandOut(t)), k, t))
  {
    hide InvLists, InvTruth, Apply, SwapRemove;
    var a := Apply(s, e);
    StepInv(s, e);
    FreeLands(s, e, k, entry, t);
    var m := Apply(a, Take(k, |ListOf(s.lists, k)|, t));
    TakeLast(a, ListOf(s.lists, k), k, entry, t);
    StepInv(a, Take(k, |ListOf(s.lists, k)|, t));
    CarriedFacts(m, t);
    if entry.decommitted {
      var r := Recommit(t, Contents(true, false, entry.pages));
      RecommitKeeps(m, t, r.now);
      HandsBack(Apply(m, r), t);
    } else {
      HandsBack(m, t);
    }
    assert s.holder[entry.base := User] == s.holder;
  }

  lemma FreeLands(s: State, e: Step, k: Key, entry: Entry, t: nat)
    requires Owned(s, entry.base) && Frees(s, e, k, entry) && ListOf(s.lists, Flight(t)) == []
    ensures Enabled(s, e)
    ensures var a := Apply(s, e);
            && ListOf(a.lists, k) == ListOf(s.lists, k) + [entry] && ListOf(a.lists, Flight(t)) == [] && !k.Flight?
            && entry.base in a.mem && Owned(s, entry.base) && a.holder == s.holder[entry.base := InList(k)]
  {
  }

  lemma TakeLast(a: State, list: seq<Entry>, k: Key, entry: Entry, t: nat)
    requires ListOf(a.lists, k) == list + [entry] && ListOf(a.lists, Flight(t)) == [] && !k.Flight?
    ensures Enabled(a, Take(k, |list|, t))
    ensures var m := Apply(a, Take(k, |list|, t));
            && ListOf(m.lists, Flight(t)) == [entry] && ListOf(m.lists, k) == list && m.mem == a.mem
            && m.holder == a.holder[entry.base := InList(Flight(t))]
  {
    assert SwapRemove(list + [entry], |list|) == list;
  }

  lemma RecommitKeeps(m: State, t: nat, now: Contents)
    requires Carries(m, t) && Carried(m, t).decommitted && Enabled(m, Recommit(t, now))
    ensures var r := Apply(m, Recommit(t, now));
            && Carries(r, t) && Carried(r, t) == Carried(m, t).(decommitted := false) && r.holder == m.holder
            && forall k: Key :: !k.Flight? ==> ListOf(r.lists, k) == ListOf(m.lists, k)
  {
  }

  lemma HandsBack(m: State, t: nat)
    requires Carries(m, t) && !Carried(m, t).decommitted
    ensures Enabled(m, HandOut(t))
    ensures var r := Apply(m, HandOut(t));
            && r.holder == m.holder[Carried(m, t).base := User] && ListOf(r.lists, Flight(t)) == []
            && forall k: Key :: !k.Flight? ==> ListOf(r.lists, k) == ListOf(m.lists, k)
  {
  }

  /** The lists and their holders are as they were. */
  ghost predicate Back(s: State, r: State, k: Key, t: nat) {
    && r.holder == s.holder && ListOf(r.lists, k) == ListOf(s.lists, k) && ListOf(r.lists, Flight(t)) == []
  }

  /** What becomes of a region that no list gains or loses: a mapping is zero and as long as asked, growth only
      lengthens, a write changes what is read, and a purge of a carried region leaves its entry with the report. */
  lemma RegionChanges(es: seq<Step>, s: State, e: Step)
    requires Runs(Initial(), es, s) && Enabled(s, e)
    ensures e.Map? ==> Owned(Apply(s, e), e.base) && Apply(s, e).mem[e.base] == Contents(true, true, e.pages)
    ensures e.Grow? ==> Apply(s, e).mem[e.base] == s.mem[e.base].(pages := e.pages) && e.pages >= s.mem[e.base].pages
    ensures e.Write? ==> Apply(s, e).mem[e.base].zero == e.zero && Apply(s, e).mem[e.base].pages == s.mem[e.base].pages
    ensures e.Purge? ==>
              var r := Apply(s, e);
              && Carries(r, e.tid) && Carried(r, e.tid) == Carried(s, e.tid).(zeroed := e.d.zeroed)
              && r.mem[Carried(r, e.tid).base] == e.now && Enabled(r, HandOut(e.tid))
              && (e.d.zeroed ==> e.now.zero)
  {
    hide InvLists, InvTruth, Truthful, Runs, SwapRemove;
    InitialInv();
    RunsInv(Initial(), es, s);
  }

  /** A user's region may be written, lengthened, freed or unmapped. */
  ghost predicate UserMoves(s: State, b: nat) {
    && Owned(s, b) && Enabled(s, FreeUnmap(b)) && (forall z :: Enabled(s, Write(b, z)))
    && (forall n: nat :: n >= s.mem[b].pages ==> Enabled(s, Grow(b, n)))
  }

  /** A listed region may be taken by thread `t`. */
  ghost predicate ListMoves(s: State, k: Key, b: nat, t: nat) {
    exists i: nat :: Listed(s.lists, k, i, b) && Enabled(s, Take(k, i, t))
  }

  /** Thread `u` may drop the region it carries or, after a recommit if one is due, hand it out. */
  ghost predicate CarrierMoves(s: State, u: nat, b: nat) {
    && Carries(s, u) && Carried(s, u).base == b && Enabled(s, Drop(u))
    && if Carried(s, u).decommitted then Enabled(s, Recommit(u, s.mem[b].(readable := true))) else Enabled(s, HandOut(u))
  }

  /** In every run no region is ever stuck, whoever has it, and every other address can be mapped. */
  lemma NothingIsStuck(es: seq<Step>, s: State, b: nat, t: nat, pages: nat)
    requires Runs(Initial(), es, s)
    ensures b !in s.holder ==> Enabled(s, Map(b, pages))
    ensures b in s.holder && s.holder[b] == User ==> UserMoves(s, b)
    ensures b in s.holder && s.holder[b].InList? ==>
              match s.holder[b].key
              case Flight(u) => CarrierMoves(s, u, b)
              case k => ListOf(s.lists, Flight(t)) == [] ==> ListMoves(s, k, b, t)
  {
    hide InvLists, InvTruth, Runs, UserMoves, ListMoves, CarrierMoves;
    InitialInv();
    RunsInv(Initial(), es, s);
    if b in s.holder {
      HolderMoves(s, b, t);
    }
  }

  lemma HolderMoves(s: State, b: nat, t: nat)
    requires Inv(s) && b in s.holder
    ensures s.holder[b] == User ==> UserMoves(s, b)
    ensures s.holder[b].InList? && s.holder[b].key.Flight? ==> CarrierMoves(s, s.holder[b].key.tid, b)
    ensures s.holder[b].InList? && !s.holder[b].key.Flight? && ListOf(s.lists, Flight(t)) == [] ==> ListMoves(s, s.holder[b].key, b, t)
  {
    UsersOwn(s, b);
    hide InvLists, InvTruth;
    if s.holder[b].InList? {
      ListedTruth(s, b);
    }
  }

  lemma UsersOwn(s: State, b: nat)
    requires Inv(s) && b in s.holder
    ensures s.holder[b] == User ==> Owned(s, b)
  {
    hide InvLists, Truthful;
  }

  lemma ListedTruth(s: State, b: nat)
    requires Inv(s) && b in s.holder && s.holder[b].InList?
    ensures exists i: nat :: Listed(s.lists, s.holder[b].key, i, b)
    ensures s.holder[b].key.Flight? ==> Carries(s, s.holder[b].key.tid) && Carried(s, s.holder[b].key.tid).base == b
  {
    var i: nat :| Listed(s.lists, s.holder[b].key, i, b);
    assert Truthful(s.holder[b].key, s.lists[s.holder[b].key][i], s.mem);
  }
}
