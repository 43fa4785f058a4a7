/**
 The side table and the arena together, in every interleaving (src/arena.rs,
 src/heap.rs, src/lib.rs). Entries are stored one word at a time after a slice
 is committed and cleared one word at a time before it is released, while other
 threads look pages up without a lock.
 */
module OwnerTable {
  import Arena
  import SideTable

  datatype State = State(arena: Arena.State, words: seq<nat>, spans: map<nat, SideTable.Span>, phase: map<nat, SideTable.Phase>)

  function Initial(size: nat): State { State(Arena.Initial(size), seq(size, i => 0), map[], map[]) }

  datatype Step =
    | InArena(e: Arena.Step)
    | BeginSet(base: nat, kind: SideTable.Kind, owner: nat)   // table_set over a freshly committed slice
    | BeginGrow(base: nat)                                    // table_set over the pages frontier growth added
    | BeginClear(base: nat)                                   // table_clear before the slice is released
    | Next(base: nat)                                         // one atomic store of a loop under way
    | End(base: nat)                                          // the loop is done
    | Rewrite(base: nat, page: nat)                           // a span that went cold is recorded again

  // -------------------------------------------------------------- invariant

  ghost predicate PhaseOk(spans: map<nat, SideTable.Span>, a: nat, p: SideTable.Phase) {
    && a in spans && a <= p.next <= a + spans[a].pages
    && (p.Filling? ==> p.end == a + spans[a].pages)
  }

  /** Every recorded span lies in the live slice at its base. */
  ghost predicate Housed(tiles: map<nat, Arena.Tile>, spans: map<nat, SideTable.Span>) {
    forall a :: a in spans ==>
      a in tiles && tiles[a].status.Live? && 0 < spans[a].pages <= tiles[a].pages && SideTable.OwnerOk(spans[a].owner)
  }

  ghost predicate Phases(spans: map<nat, SideTable.Span>, phase: map<nat, SideTable.Phase>) {
    forall a :: a in phase ==> PhaseOk(spans, a, phase[a])
  }

  ghost predicate Inv(s: State) {
    && Arena.Inv(s.arena) && |s.words| == s.arena.size && Housed(s.arena.tiles, s.spans)
    && Phases(s.spans, s.phase) && SideTable.ExactUpTo(s.words, s.spans, s.phase)
  }

  // ------------------------------------------------------------------ steps

  ghost predicate Enabled(s: State, e: Step) {
    match e
    case InArena(x) => Arena.Enabled(s.arena, x) && (x.Discard? ==> x.base !in s.spans)
    case BeginSet(a, k, o) =>
      a in s.arena.tiles && s.arena.tiles[a].status.Live? && a !in s.spans && SideTable.OwnerOk(o)
    case BeginGrow(a) =>
      a in s.spans && a !in s.phase && a in s.arena.tiles && s.spans[a].pages < s.arena.tiles[a].pages
    case BeginClear(a) => a in s.spans && a !in s.phase
    case Next(a) => a in s.phase && a in s.spans && s.phase[a].next < a + s.spans[a].pages <= |s.words|
    case End(a) => a in s.phase && a in s.spans && s.phase[a].next == a + s.spans[a].pages
    case Rewrite(a, i) => a in s.spans && a !in s.phase && SideTable.Covers(s.spans, a, i) && i < |s.words|
  }

  function Word(x: SideTable.Span): nat { SideTable.Encode(x.kind, x.owner) }

  ghost function Apply(s: State, e: Step): (r: State)
    requires Inv(s) && Enabled(s, e)
  {
    match e
    case InArena(x) => s.(arena := Arena.Apply(s.arena, x))
    case BeginSet(a, k, o) =>
      var n := s.arena.tiles[a].pages;
      s.(spans := s.spans[a := SideTable.Span(n, k, o)], phase := s.phase[a := SideTable.Filling(a, a + n)])
    case BeginGrow(a) =>
      var x, n := s.spans[a], s.arena.tiles[a].pages;
      s.(spans := s.spans[a := x.(pages := n)], phase := s.phase[a := SideTable.Filling(a + x.pages, a + n)])
    case BeginClear(a) => s.(phase := s.phase[a := SideTable.Clearing(a)])
    case Next(a) =>
      var p := s.phase[a];
      s.(words := s.words[p.next := if p.Filling? then Word(s.spans[a]) else 0],
         phase := s.phase[a := p.(next := p.next + 1)])
    case End(a) =>
      if s.phase[a].Filling? then s.(phase := s.phase - {a})
      else s.(phase := s.phase - {a}, spans := s.spans - {a})
    case Rewrite(a, i) => s.(words := s.words[i := Word(s.spans[a])])
  }

  // ----------------------------------------------------------- preservation

  /** No arena step but the discard of the slice itself ends or shortens a live slice. */
  lemma LiveStays(s: Arena.State, e: Arena.Step, a: nat)
    requires Arena.Inv(s) && Arena.Enabled(s, e) && a in s.tiles && s.tiles[a].status.Live?
    requires !(e.Discard? && e.base == a)
    ensures var r := Arena.Apply(s, e);
            a in r.tiles && r.tiles[a].status.Live? && r.tiles[a].pages >= s.tiles[a].pages
  {
    hide Arena.HolesMatch;
    if e.TakeHole? {
      HoleStart(s, e.at);
      var b := Arena.StartOf(s.holes[e.at]);
      Arena.SplitPartition(s.tiles, s.bump, b, e.pages, Arena.Claimed(e.tid));
    } else if e.BumpClaim? {
      Arena.ExtendPartition(s, e.pages, Arena.Claimed(e.tid));
    } else if e.GrowClaim? {
      Arena.ExtendPartition(s, e.pages, Arena.Claimed(e.tid));
    }
  }

  lemma HoleStart(s: Arena.State, i: nat)
    requires Arena.Inv(s) && i < |s.holes|
    ensures var a := Arena.StartOf(s.holes[i]); a in s.tiles && s.tiles[a] == Arena.Tile(s.holes[i].pages, Arena.Parked)
  {
  }

  lemma SameSize(s: Arena.State, e: Arena.Step)
    requires Arena.Inv(s) && Arena.Enabled(s, e)
    ensures Arena.Apply(s, e).size == s.size
  {
  }

  lemma ArenaStepInv(s: State, e: Arena.Step)
    requires Inv(s) && Enabled(s, InArena(e))
    ensures Inv(Apply(s, InArena(e)))
  {
    hide Arena.Inv, Arena.Apply, Arena.Enabled, SideTable.ExactUpTo, Phases;
    Arena.StepInv(s.arena, e);
    SameSize(s.arena, e);
    forall a | a in s.spans
      ensures var t := Arena.Apply(s.arena, e).tiles; a in t && t[a].status.Live? && s.spans[a].pages <= t[a].pages
    {
      LiveStays(s.arena, e, a);
    }
  }

  /** Spans of different slices share no page, and all lie in the table. */
  lemma Apart(s: State, a: nat, b: nat, i: nat)
    requires Arena.Inv(s.arena) && |s.words| == s.arena.size && Housed(s.arena.tiles, s.spans)
    requires a in s.arena.tiles && a <= i < a + s.arena.tiles[a].pages && SideTable.Covers(s.spans, b, i)
    ensures a == b
  {
    hide Arena.HolesMatch;
  }

  lemma InTable(s: State, a: nat)
    requires Arena.Inv(s.arena) && |s.words| == s.arena.size && a in s.arena.tiles
    ensures s.arena.tiles[a].pages > 0 && a + s.arena.tiles[a].pages <= |s.words|
  {
    hide Arena.HolesMatch;
  }

  /** A word no span covers is null. */
  lemma Unowned(w: seq<nat>, spans: map<nat, SideTable.Span>, phase: map<nat, SideTable.Phase>, i: nat)
    requires SideTable.ExactUpTo(w, spans, phase) && i < |w| && forall b :: !SideTable.Covers(spans, b, i)
    ensures w[i] == 0
  {
  }

  lemma BeginSetInv(s: State, a: nat, k: SideTable.Kind, o: nat)
    requires Inv(s) && Enabled(s, BeginSet(a, k, o))
    ensures Inv(Apply(s, BeginSet(a, k, o)))
  {
    hide Arena.Inv, SideTable.Encode, SideTable.OwnerOk, SideTable.Owned;
    InTable(s, a);
    var r := Apply(s, BeginSet(a, k, o));
    forall b, i: nat | SideTable.Covers(r.spans, b, i) && i < |r.words|
      ensures r.words[i] == if SideTable.Blank(r.phase, b, i) then 0 else Word(r.spans[b])
    {
      if b != a {
        assert SideTable.Covers(s.spans, b, i);
      } else {
        forall c | SideTable.Covers(s.spans, c, i) ensures false {
          Apart(s, a, c, i);
        }
        Unowned(s.words, s.spans, s.phase, i);
      }
    }
    StillOwned(s.words, s.spans, r.spans);
  }

  /** Recording or enlarging a span uncovers no page. */
  lemma StillOwned(w: seq<nat>, was: map<nat, SideTable.Span>, now: map<nat, SideTable.Span>)
    requires forall i :: 0 <= i < |w| && w[i] != 0 ==> SideTable.Owned(was, i)
    requires forall a :: a in was ==> a in now && was[a].pages <= now[a].pages
    ensures forall i :: 0 <= i < |w| && w[i] != 0 ==> SideTable.Owned(now, i)
  {
    forall i | 0 <= i < |w| && w[i] != 0 ensures SideTable.Owned(now, i) {
      assert SideTable.Owned(was, i);
      var a :| SideTable.Covers(was, a, i);
      assert SideTable.Covers(now, a, i);
    }
  }

  lemma BeginGrowInv(s: State, a: nat)
    requires Inv(s) && Enabled(s, BeginGrow(a))
    ensures Inv(Apply(s, BeginGrow(a)))
  {
    hide Arena.Inv, SideTable.Encode, SideTable.OwnerOk;
    var r := Apply(s, BeginGrow(a));
    forall b, i: nat | SideTable.Covers(r.spans, b, i) && i < |r.words|
      ensures r.words[i] == if SideTable.Blank(r.phase, b, i) then 0 else Word(r.spans[b])
    {
      if b != a || i < a + s.spans[a].pages {
        assert SideTable.Covers(s.spans, b, i);
      } else {
        forall c | SideTable.Covers(s.spans, c, i) ensures false {
          Apart(s, a, c, i);
        }
        Unowned(s.words, s.spans, s.phase, i);
      }
    }
    StillOwned(s.words, s.spans, r.spans);
  }

  lemma BeginClearInv(s: State, a: nat)
    requires Inv(s) && Enabled(s, BeginClear(a))
    ensures Inv(Apply(s, BeginClear(a)))
  {
    hide Arena.Inv, SideTable.Encode, Housed;
    var r := Apply(s, BeginClear(a));
    assert forall b, i: nat :: SideTable.Covers(s.spans, b, i) ==> (SideTable.Blank(r.phase, b, i) <==> SideTable.Blank(s.phase, b, i));
  }

  lemma NextInv(s: State, a: nat)
    requires Inv(s) && Enabled(s, Next(a))
    ensures Inv(Apply(s, Next(a)))
  {
    hide Arena.Inv, SideTable.Encode;
    var r := Apply(s, Next(a));
    var n := s.phase[a].next;
    assert SideTable.Covers(s.spans, a, n);
    forall b, i: nat | SideTable.Covers(r.spans, b, i) && i < |r.words|
      ensures r.words[i] == if SideTable.Blank(r.phase, b, i) then 0 else Word(r.spans[b])
    {
      assert SideTable.Covers(s.spans, b, i);
      if i == n {
        Apart(s, a, b, i);
      }
    }
    forall i | 0 <= i < |r.words| && r.words[i] != 0 ensures SideTable.Owned(r.spans, i) {
      if i != n {
        assert SideTable.Owned(s.spans, i);
      }
    }
  }

  lemma EndInv(s: State, a: nat)
    requires Inv(s) && Enabled(s, End(a))
    ensures Inv(Apply(s, End(a)))
  {
    hide Arena.Inv, SideTable.Encode;
    var r := Apply(s, End(a));
    forall b, i: nat | SideTable.Covers(r.spans, b, i) && i < |r.words|
      ensures r.words[i] == if SideTable.Blank(r.phase, b, i) then 0 else Word(r.spans[b])
    {
      assert SideTable.Covers(s.spans, b, i);
    }
    forall i | 0 <= i < |r.words| && r.words[i] != 0 ensures SideTable.Owned(r.spans, i) {
      assert SideTable.Owned(s.spans, i);
      var b :| SideTable.Covers(s.spans, b, i);
      assert SideTable.Covers(r.spans, b, i);
    }
  }

  lemma RewriteInv(s: State, a: nat, i: nat)
    requires Inv(s) && Enabled(s, Rewrite(a, i))
    ensures Apply(s, Rewrite(a, i)) == s
  {
    hide Arena.Inv, SideTable.Encode;
    assert s.words[i] == Word(s.spans[a]);
    assert s.words[i := s.words[i]] == s.words;
  }

  /** Every atomic step keeps the table exact up to the loops under way, and its spans inside live slices. */
  lemma StepInv(s: State, e: Step)
    requires Inv(s) && Enabled(s, e)
    ensures Inv(Apply(s, e))
  {
    hide Inv, Enabled, Apply;
    match e
    case InArena(x) => ArenaStepInv(s, x);
    case BeginSet(a, k, o) => BeginSetInv(s, a, k, o);
    case BeginGrow(a) => BeginGrowInv(s, a);
    case BeginClear(a) => BeginClearInv(s, a);
    case Next(a) => NextInv(s, a);
    case End(a) => EndInv(s, a);
    case Rewrite(a, i) => RewriteInv(s, a, i);
  }

  ghost predicate Runs(s: State, es: seq<Step>, r: State)
    requires Inv(s)
    decreases |es|
  {
    if es == [] then r == s
    else Enabled(s, es[0]) && (StepInv(s, es[0]); Runs(Apply(s, es[0]), es[1..], r))
  }

  lemma InitialInv(size: nat)
    ensures Inv(Initial(size))
  {
    Arena.InitialInv(size);
  }

  ghost predicate Reachable(size: nat, es: seq<Step>, s: State) {
    InitialInv(size);
    Runs(Initial(size), es, s)
  }

  lemma {:induction false} RunsInv(s: State, es: seq<Step>, r: State)
    requires Inv(s) && Runs(s, es, r)
    ensures Inv(r)
    decreases |es|
  {
    hide Inv, Enabled, Apply;
    if es != [] {
      StepInv(s, es[0]);
      RunsInv(Apply(s, es[0]), es[1..], r);
    }
  }

  // --------------------------------------------------------------- theorems

  /** A lookup at any moment, in the middle of any loops of stores: a page of a recorded span decodes under
      the span's kind to its owner, or to none where the loop has not been or has cleared, and to none under
      the other kinds; the span lies in the live slice that covers the page. */
  lemma OwnedPageDecodes(size: nat, es: seq<Step>, s: State, a: nat, x: nat, j: SideTable.Kind)
    requires Reachable(size, es, s) && SideTable.Covers(s.spans, a, x)
    ensures x < |s.words| && Arena.Covers(s.arena.tiles, a, x) && s.arena.tiles[a].status.Live?
    ensures SideTable.Get(j, s.words[x]) ==
            if j == s.spans[a].kind && !SideTable.Blank(s.phase, a, x) then s.spans[a].owner else 0
    ensures a !in s.phase ==> !SideTable.Blank(s.phase, a, x)
  {
    InitialInv(size);
    RunsInv(Initial(size), es, s);
    hide Arena.Inv, SideTable.Encode, SideTable.Get, Runs;
    InTable(s, a);
    SideTable.LookupUpTo(s.words, s.spans, s.phase, a, x, j);
  }

  /** In every run a page of a hole, of a claim, of an abandoned slice or of a live slice without an
      entry (a small page) decodes to null under all three lookups. */
  lemma OtherPagesDecodeToNone(size: nat, es: seq<Step>, s: State, b: nat, x: nat, j: SideTable.Kind)
    requires Reachable(size, es, s) && Arena.Covers(s.arena.tiles, b, x)
    requires !s.arena.tiles[b].status.Live? || b !in s.spans
    ensures x < |s.words| && SideTable.Get(j, s.words[x]) == 0
  {
    InitialInv(size);
    RunsInv(Initial(size), es, s);
    hide Arena.Inv, SideTable.Encode, SideTable.Get, Runs;
    InTable(s, b);
    forall c | SideTable.Covers(s.spans, c, x) ensures false {
      Apart(s, b, c, x);
    }
    Unowned(s.words, s.spans, s.phase, x);
    SideTable.EmptyDecodesToNone(j);
  }

  /** In every run at most one of the three lookups of a page is non-null. */
  lemma AtMostOneOwner(size: nat, es: seq<Step>, s: State, x: nat, j: SideTable.Kind, k: SideTable.Kind)
    requires Reachable(size, es, s) && x < |s.words|
    requires SideTable.Get(j, s.words[x]) != 0 && SideTable.Get(k, s.words[x]) != 0
    ensures j == k
  {
    InitialInv(size);
    RunsInv(Initial(size), es, s);
    hide Arena.Inv, SideTable.Encode, SideTable.Get, Runs;
    SideTable.AtMostOneLookup(s.words, s.spans, s.phase, x, j, k);
  }

  // ------------------------------------------------------- a loop that runs to its end

  /** The state after the loop over the span at `a` has made its remaining stores. */
  ghost function Finish(s: State, a: nat): (r: State)
    requires Inv(s) && a in s.phase && a in s.spans
    decreases a + s.spans[a].pages - s.phase[a].next
  {
    SpanInTable(s, a);
    if s.phase[a].next >= a + s.spans[a].pages then Apply(s, End(a))
    else
      StepInv(s, Next(a));
      Finish(Apply(s, Next(a)), a)
  }

  lemma SpanInTable(s: State, a: nat)
    requires Inv(s) && a in s.phase && a in s.spans
    ensures a + s.spans[a].pages <= |s.words| && s.phase[a].next <= a + s.spans[a].pages
    ensures s.phase[a].next < a + s.spans[a].pages ==> Enabled(s, Next(a)) && SideTable.Covers(s.spans, a, s.phase[a].next)
    ensures s.phase[a].next == a + s.spans[a].pages ==> Enabled(s, End(a))
  {
    hide Arena.Inv, SideTable.ExactUpTo;
    InTable(s, a);
  }

  /** A run of single stores leads there, and then the loop is over: nothing else changed but the span's own
      words, and the span is recorded if it was being set and gone if it was being cleared. */
  lemma {:induction false} LoopEnds(s: State, a: nat)
    requires Inv(s) && a in s.phase && a in s.spans
    ensures var r := Finish(s, a);
            && Inv(r) && r.arena == s.arena && r.phase == s.phase - {a}
            && r.spans == (if s.phase[a].Filling? then s.spans else s.spans - {a})
            && |r.words| == |s.words|
            && forall i :: 0 <= i < |s.words| && !SideTable.Covers(s.spans, a, i) ==> r.words[i] == s.words[i]
    decreases a + s.spans[a].pages - s.phase[a].next
  {
    hide Inv, Arena.Inv, SideTable.ExactUpTo, Word;
    SpanInTable(s, a);
    if s.phase[a].next >= a + s.spans[a].pages {
      StepInv(s, End(a));
    } else {
      var m := Apply(s, Next(a));
      StepInv(s, Next(a));
      LoopEnds(m, a);
      assert m.phase - {a} == s.phase - {a};
    }
  }

  /** The words of a span no loop is at work on. */
  lemma SettledWords(s: State, a: nat)
    requires Inv(s) && a in s.spans && a !in s.phase
    ensures forall i: nat :: SideTable.Covers(s.spans, a, i) ==> i < |s.words| && s.words[i] == Word(s.spans[a])
  {
    hide Arena.Inv, SideTable.Encode;
    InTable(s, a);
  }

  /** Recording a live slice, run to its end: every page of the slice decodes to the owner. */
  lemma SetRecords(s: State, a: nat, k: SideTable.Kind, o: nat)
    requires Inv(s) && a in s.arena.tiles && s.arena.tiles[a].status.Live? && a !in s.spans && SideTable.OwnerOk(o)
    ensures Enabled(s, BeginSet(a, k, o))
    ensures var b := Apply(s, BeginSet(a, k, o));
            && Inv(b) && a in b.phase && a in b.spans
            && var r := Finish(b, a);
               && Inv(r) && r.spans == s.spans[a := SideTable.Span(s.arena.tiles[a].pages, k, o)] && r.phase == s.phase - {a}
               && forall i: nat :: SideTable.Covers(r.spans, a, i) ==> i < |r.words| && r.words[i] == SideTable.Encode(k, o)
  {
    hide Inv, Arena.Inv, SideTable.ExactUpTo, SideTable.Encode;
    StepInv(s, BeginSet(a, k, o));
    var b := Apply(s, BeginSet(a, k, o));
    LoopEnds(b, a);
    SettledWords(Finish(b, a), a);
  }

  /** Recording the pages that growth added, run to its end: the span is as long as the slice. */
  lemma GrowRecords(s: State, a: nat)
    requires Inv(s) && a in s.spans && a !in s.phase && a in s.arena.tiles && s.spans[a].pages < s.arena.tiles[a].pages
    ensures Enabled(s, BeginGrow(a))
    ensures var b := Apply(s, BeginGrow(a));
            && Inv(b) && a in b.phase && a in b.spans
            && var r := Finish(b, a);
               && Inv(r) && r.spans == s.spans[a := s.spans[a].(pages := s.arena.tiles[a].pages)] && r.phase == s.phase
               && forall i: nat :: SideTable.Covers(r.spans, a, i) ==> i < |r.words| && r.words[i] == Word(s.spans[a])
  {
    hide Inv, Arena.Inv, SideTable.ExactUpTo, SideTable.Encode;
    StepInv(s, BeginGrow(a));
    var b := Apply(s, BeginGrow(a));
    LoopEnds(b, a);
    SettledWords(Finish(b, a), a);
    assert b.phase - {a} == s.phase;
  }

  /** Clearing a span, run to its end: its slice is unrecorded and every page decodes to nothing. */
  lemma ClearForgets(s: State, a: nat)
    requires Inv(s) && a in s.spans && a !in s.phase
    ensures Enabled(s, BeginClear(a))
    ensures var b := Apply(s, BeginClear(a));
            && Inv(b) && a in b.phase && a in b.spans
            && var r := Finish(b, a);
               && Inv(r) && r.spans == s.spans - {a} && r.phase == s.phase
               && forall i: nat :: SideTable.Covers(s.spans, a, i) ==> i < |r.words| && r.words[i] == 0
  {
    hide Inv, Arena.Inv, SideTable.ExactUpTo, SideTable.Encode, Housed, Phases;
    StepInv(s, BeginClear(a));
    var b := Apply(s, BeginClear(a));
    LoopEnds(b, a);
    var r := Finish(b, a);
    assert b.phase - {a} == s.phase;
    forall i: nat | SideTable.Covers(s.spans, a, i) ensures i < |r.words| && r.words[i] == 0 {
      NotCovered(s, r, a, i);
    }
  }

  lemma NotCovered(s: State, r: State, a: nat, i: nat)
    requires Inv(s) && Inv(r) && SideTable.Covers(s.spans, a, i) && r.spans == s.spans - {a} && r.arena == s.arena
    ensures i < |r.words| && r.words[i] == 0
  {
    hide Arena.Inv;
    InTable(s, a);
    forall c | SideTable.Covers(r.spans, c, i) ensures false {
      assert SideTable.Covers(s.spans, c, i);
      Apart(s, a, c, i);
    }
    Unowned(r.words, r.spans, r.phase, i);
  }

  // ------------------------------------------- the table between claim and release

  /** A claim that the kernel mapped can be recorded, and a slice whose record was cleared can be discarded by
      the thread that holds it, and by nobody before. */
  lemma RecordBetween(s: State, t: nat, a: nat, k: SideTable.Kind, o: nat)
    requires Inv(s) && SideTable.OwnerOk(o)
    ensures Arena.Enabled(s.arena, Arena.Commit(t, a)) && a !in s.spans ==>
              Enabled(s, InArena(Arena.Commit(t, a))) &&
              var r := Apply(s, InArena(Arena.Commit(t, a)));
              Inv(r) && Enabled(r, BeginSet(a, k, o)) && Enabled(r, InArena(Arena.Discard(t, a)))
    ensures a in s.spans && a !in s.phase ==>
              && Enabled(s, BeginClear(a)) && !Enabled(s, InArena(Arena.Discard(t, a)))
              && Inv(Apply(s, BeginClear(a))) && a in Apply(s, BeginClear(a)).phase
              && var r := Finish(Apply(s, BeginClear(a)), a);
                 Inv(r) && (Enabled(r, InArena(Arena.Discard(t, a))) <==> s.arena.tiles[a].status == Arena.Live(t))
  {
    hide Arena.Inv, SideTable.ExactUpTo, Phases;
    if Enabled(s, InArena(Arena.Commit(t, a))) {
      StepInv(s, InArena(Arena.Commit(t, a)));
    }
    if Enabled(s, BeginClear(a)) {
      ClearForgets(s, a);
      LoopEnds(Apply(s, BeginClear(a)), a);
    }
  }
}
