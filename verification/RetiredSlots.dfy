/**
 The lock-free retirement queue (src/cache.rs retire, take_one): every atomic
 instruction is one step, for any number of retiring and taking threads.
 */
module RetiredSlots {
  import opened Seqs

  const SLOTS: nat := 8
  const WORD: nat := 0x1_0000_0000_0000_0000

  datatype SlotState = Empty | Writing | Ready | Taking

  /** `content` is what the slot's storage holds; None while it is uninitialized or moved out. */
  datatype Content = None | Some(cache: nat)

  datatype Slot = Slot(state: SlotState, content: Content)

  /** Where a thread is inside `retire` (R) or `take_one` (T). */
  datatype Pc =
    | RScan(cache: nat, i: nat)
    | RWrite(cache: nat, i: nat)
    | RStore(i: nat)
    | RAdd
    | TScan(i: nat)
    | TRead(i: nat)
    | TStore(i: nat)
    | TSub

  /** Auxiliary: who has each cache that was ever retired. */
  datatype Place = WithRetirer(tid: nat) | InSlot(i: nat) | WithTaker(tid: nat) | Flushed

  datatype State = State(slots: seq<Slot>, count: nat, pc: map<nat, Pc>, place: map<nat, Place>)

  function Initial(): State { State(seq(SLOTS, i => Slot(Empty, None)), 0, map[], map[]) }

  // ------------------------------------------------------------------ steps

  datatype Step =
    | BeginRetire(tid: nat, cache: nat)
    | BeginTake(tid: nat)
    | Advance(tid: nat)

  predicate Enabled(s: State, e: Step) {
    match e
    case BeginRetire(t, c) => t !in s.pc && c !in s.place
    case BeginTake(t) => t !in s.pc
    case Advance(t) => t in s.pc
  }

  function Done(s: State, t: nat): State { s.(pc := s.pc - {t}) }

  /** The next atomic instruction of thread `t`. */
  function Advanced(s: State, t: nat): (r: State)
    requires t in s.pc && |s.slots| == SLOTS
  {
    match s.pc[t]
    case RScan(c, i) =>
      if i >= SLOTS then Done(s, t).(place := s.place[c := Flushed])
      else if s.slots[i].state == Empty then
        s.(slots := s.slots[i := s.slots[i].(state := Writing)], pc := s.pc[t := RWrite(c, i)])
      else s.(pc := s.pc[t := RScan(c, i + 1)])
    case RWrite(c, i) =>
      if i >= SLOTS then s
      else s.(slots := s.slots[i := s.slots[i].(content := Some(c))], pc := s.pc[t := RStore(i)], place := s.place[c := InSlot(i)])
    case RStore(i) =>
      if i >= SLOTS then s
      else s.(slots := s.slots[i := s.slots[i].(state := Ready)], pc := s.pc[t := RAdd])
    case RAdd => Done(s, t).(count := (s.count + 1) % WORD)
    case TScan(i) =>
      if i >= SLOTS then Done(s, t)
      else if s.slots[i].state == Ready then
        s.(slots := s.slots[i := s.slots[i].(state := Taking)], pc := s.pc[t := TRead(i)])
      else s.(pc := s.pc[t := TScan(i + 1)])
    case TRead(i) =>
      if i >= SLOTS || s.slots[i].content == None then s
      else s.(slots := s.slots[i := s.slots[i].(content := None)], pc := s.pc[t := TStore(i)],
              place := s.place[s.slots[i].content.cache := WithTaker(t)])
    case TStore(i) =>
      if i >= SLOTS then s
      else s.(slots := s.slots[i := s.slots[i].(state := Empty)], pc := s.pc[t := TSub])
    case TSub => Done(s, t).(count := (s.count + WORD - 1) % WORD)
  }

  function Apply(s: State, e: Step): (r: State)
    requires Enabled(s, e) && |s.slots| == SLOTS
  {
    match e
    case BeginRetire(t, c) => s.(pc := s.pc[t := RScan(c, 0)], place := s.place[c := WithRetirer(t)])
    case BeginTake(t) => if s.count == 0 then s else s.(pc := s.pc[t := TScan(0)])
    case Advance(t) => Advanced(s, t)
  }

  // -------------------------------------------------------------- invariant

  /** The thread has slot `i` to itself. */
  predicate Holds(p: Pc, i: nat) {
    (p.RWrite? || p.RStore? || p.TRead? || p.TStore?) && p.i == i
  }

  predicate HeldBy(pc: map<nat, Pc>, t: nat, i: nat) { t in pc && Holds(pc[t], i) }

  /** What a slot looks like to the thread that holds it. */
  predicate SlotFor(p: Pc, x: Slot) {
    match p
    case RWrite(_, _) => x.state == Writing && x.content == None
    case RStore(_) => x.state == Writing && x.content.Some?
    case TRead(_) => x.state == Taking && x.content.Some?
    case TStore(_) => x.state == Taking && x.content == None
    case _ => true
  }

  ghost predicate InvSlots(s: State) {
    && |s.slots| == SLOTS
    && (forall t, i: nat :: HeldBy(s.pc, t, i) ==> i < SLOTS && SlotFor(s.pc[t], s.slots[i]))
    && (forall t, u, i: nat :: HeldBy(s.pc, t, i) && HeldBy(s.pc, u, i) ==> t == u)
    && (forall i :: 0 <= i < SLOTS && s.slots[i].state == Ready ==> s.slots[i].content.Some?)
    && (forall i :: 0 <= i < SLOTS && s.slots[i].state == Empty ==> s.slots[i].content == None)
  }

  /** Each retired cache is in one place: with its retirer, in one slot, or with one taker. */
  ghost predicate InvPlace(s: State) { InvStored(s) && InvRetirers(s) }

  ghost predicate InvStored(s: State) {
    && |s.slots| == SLOTS
    && (forall i :: 0 <= i < SLOTS && s.slots[i].content.Some? ==>
          s.slots[i].content.cache in s.place && s.place[s.slots[i].content.cache] == InSlot(i))
    && (forall c :: c in s.place && s.place[c].InSlot? ==> s.place[c].i < SLOTS && s.slots[s.place[c].i].content == Some(c))
  }

  ghost predicate InvRetirers(s: State) {
    forall t :: t in s.pc && (s.pc[t].RScan? || s.pc[t].RWrite?) ==>
      s.pc[t].cache in s.place && s.place[s.pc[t].cache] == WithRetirer(t)
  }

  ghost function ReadySlots(s: State): set<nat> { ReadyIn(s.slots) }

  ghost function ReadyIn(slots: seq<Slot>): set<nat> { set i: nat | i < |slots| && slots[i].state == Ready }

  ghost function PendingAdds(s: State): set<nat> { At(s.pc, OwesAdd) }

  ghost function PendingSubs(s: State): set<nat> { At(s.pc, OwesSub) }

  predicate OwesAdd(p: Pc) { p.RAdd? }

  predicate OwesSub(p: Pc) { p.TRead? || p.TStore? || p.TSub? }

  /** The threads whose program counter satisfies `f`. */
  ghost function At(pc: map<nat, Pc>, f: Pc -> bool): set<nat> { set t | t in pc && f(pc[t]) }

  /** READY slots, less the increments still to come, plus the decrements still to come. */
  ghost function Owed(s: State): int { |ReadySlots(s)| - |PendingAdds(s)| + |PendingSubs(s)| }

  ghost predicate InvCount(s: State) { s.count < WORD && s.count == Owed(s) % WORD }

  ghost predicate Inv(s: State) { InvSlots(s) && InvPlace(s) && InvCount(s) }

  // ----------------------------------------------------------- preservation

  lemma AdvanceSlots(s: State, t: nat)
    requires InvSlots(s) && t in s.pc
    ensures InvSlots(Advanced(s, t))
  {
    var r := Advanced(s, t);
    forall u, i: nat | HeldBy(r.pc, u, i) ensures i < SLOTS && SlotFor(r.pc[u], r.slots[i]) {
      if u != t {
        assert HeldBy(s.pc, u, i);
        assert s.pc[t].RWrite? || s.pc[t].RStore? || s.pc[t].TRead? || s.pc[t].TStore? ==> HeldBy(s.pc, t, s.pc[t].i);
      } else {
        assert Holds(s.pc[t], i) ==> HeldBy(s.pc, t, i);
      }
    }
    forall u, v, i: nat | HeldBy(r.pc, u, i) && HeldBy(r.pc, v, i) ensures u == v {
      assert u != t ==> HeldBy(s.pc, u, i);
      assert v != t ==> HeldBy(s.pc, v, i);
      assert Holds(s.pc[t], i) ==> HeldBy(s.pc, t, i);
    }
    assert s.pc[t].RStore? ==> HeldBy(s.pc, t, s.pc[t].i);
    assert s.pc[t].TStore? ==> HeldBy(s.pc, t, s.pc[t].i);
    assert s.pc[t].RWrite? ==> HeldBy(s.pc, t, s.pc[t].i);
    assert s.pc[t].TRead? ==> HeldBy(s.pc, t, s.pc[t].i);
  }

  lemma HeldSlot(s: State, t: nat)
    requires InvSlots(s) && t in s.pc
    ensures s.pc[t].RWrite? || s.pc[t].RStore? || s.pc[t].TRead? || s.pc[t].TStore? ==>
              s.pc[t].i < SLOTS && SlotFor(s.pc[t], s.slots[s.pc[t].i])
  {
    if s.pc[t].RWrite? || s.pc[t].RStore? || s.pc[t].TRead? || s.pc[t].TStore? {
      assert HeldBy(s.pc, t, s.pc[t].i);
    }
  }

  lemma AdvancePlace(s: State, t: nat)
    requires InvSlots(s) && InvPlace(s) && t in s.pc
    ensures InvPlace(Advanced(s, t))
  {
    AdvanceStored(s, t);
    AdvanceRetirers(s, t);
    hide InvSlots, InvStored, InvRetirers, Advanced;
  }

  lemma AdvanceStored(s: State, t: nat)
    requires InvSlots(s) && InvPlace(s) && t in s.pc
    ensures InvStored(Advanced(s, t))
  {
    HeldSlot(s, t);
    hide InvSlots;
  }

  lemma AdvanceRetirers(s: State, t: nat)
    requires InvSlots(s) && InvPlace(s) && t in s.pc
    ensures InvRetirers(Advanced(s, t))
  {
    HeldSlot(s, t);
    hide InvSlots;
  }

  lemma ModUp(a: int)
    ensures (a % WORD + 1) % WORD == (a + 1) % WORD
    ensures (a % WORD + WORD - 1) % WORD == (a - 1) % WORD
  {
  }

  function One(b: bool): nat { if b then 1 else 0 }

  lemma ReadyUpdate(slots: seq<Slot>, i: nat, x: Slot)
    requires i < |slots|
    ensures |ReadyIn(slots[i := x])| == |ReadyIn(slots)| - One(slots[i].state == Ready) + One(x.state == Ready)
  {
    var was, now := ReadyIn(slots), ReadyIn(slots[i := x]);
    assert now - {i} == was - {i};
    Without(was, i);
    Without(now, i);
  }

  lemma Without(s: set<nat>, x: nat)
    ensures |s - {x}| == |s| - One(x in s)
  {
  }

  /** How moving or finishing one thread changes the number of threads at some point of the code. */
  lemma AtUpdate(pc: map<nat, Pc>, t: nat, p: Pc, f: Pc -> bool)
    requires t in pc
    ensures |At(pc[t := p], f)| == |At(pc, f)| - One(f(pc[t])) + One(f(p))
    ensures |At(pc - {t}, f)| == |At(pc, f)| - One(f(pc[t]))
  {
    var was, now, gone := At(pc, f), At(pc[t := p], f), At(pc - {t}, f);
    assert now - {t} == was - {t} && gone == was - {t};
    Without(was, t);
    Without(now, t);
  }

  /** How one step changes what the counter still owes. */
  lemma AdvanceSets(s: State, t: nat)
    requires InvSlots(s) && t in s.pc
    ensures var r := Advanced(s, t);
            Owed(r) == Owed(s) + (if s.pc[t].RAdd? then 1 else if s.pc[t].TSub? then -1 else 0)
  {
    HeldSlot(s, t);
    assert |s.slots| == SLOTS;
    hide InvSlots, ReadyIn, At;
    var r := Advanced(s, t);
    if t in r.pc {
      AtUpdate(s.pc, t, r.pc[t], OwesAdd);
      AtUpdate(s.pc, t, r.pc[t], OwesSub);
      assert r.pc == s.pc[t := r.pc[t]];
    } else {
      AtUpdate(s.pc, t, s.pc[t], OwesAdd);
      AtUpdate(s.pc, t, s.pc[t], OwesSub);
    }
    if r.slots != s.slots {
      var i := s.pc[t].i;
      ReadyUpdate(s.slots, i, r.slots[i]);
    }
  }

  lemma AdvanceCount(s: State, t: nat)
    requires InvSlots(s) && InvCount(s) && t in s.pc
    ensures InvCount(Advanced(s, t))
  {
    AdvanceSets(s, t);
    ModUp(Owed(s));
  }

  lemma BeginInv(s: State, e: Step)
    requires Inv(s) && Enabled(s, e) && !e.Advance?
    ensures Inv(Apply(s, e))
  {
    var r := Apply(s, e);
    assert forall u, i: nat :: HeldBy(r.pc, u, i) <==> HeldBy(s.pc, u, i);
    assert ReadySlots(r) == ReadySlots(s) && PendingAdds(r) == PendingAdds(s) && PendingSubs(r) == PendingSubs(s);
  }

  lemma StepInv(s: State, e: Step)
    requires Inv(s) && Enabled(s, e)
    ensures Inv(Apply(s, e))
  {
    if e.Advance? {
      AdvanceSlots(s, e.tid);
      AdvancePlace(s, e.tid);
      AdvanceCount(s, e.tid);
    } else {
      BeginInv(s, e);
    }
  }

  ghost predicate Runs(s: State, es: seq<Step>, r: State)
    requires Inv(s)
    decreases |es|
  {
    if es == [] then r == s
    else Enabled(s, es[0]) && (StepInv(s, es[0]); Runs(Apply(s, es[0]), es[1..], r))
  }

  lemma InitialInv()
    ensures Inv(Initial())
  {
    assert ReadySlots(Initial()) == {} && PendingAdds(Initial()) == {} && PendingSubs(Initial()) == {};
  }

  lemma {:induction false} RunsInv(s: State, es: seq<Step>, r: State)
    requires Inv(s) && Runs(s, es, r)
    ensures Inv(r)
    ensures forall c :: c in s.place && s.place[c].WithTaker? ==> c in r.place && r.place[c] == s.place[c]
    decreases |es|
  {
    if es != [] {
      StepInv(s, es[0]);
      DeliveredStays(s, es[0]);
      RunsInv(Apply(s, es[0]), es[1..], r);
    }
  }

  /** No step moves a cache away from the taker it was delivered to. */
  lemma DeliveredStays(s: State, e: Step)
    requires Inv(s) && Enabled(s, e)
    ensures forall c :: c in s.place && s.place[c].WithTaker? ==> c in Apply(s, e).place && Apply(s, e).place[c] == s.place[c]
  {
  }

  // --------------------------------------------------------------- theorems

  /** In every interleaving: a slot about to be read has been written, the cache read is that slot's
      alone, and a cache delivered to one taker is never delivered to another. */
  lemma DeliveredOnce(es: seq<Step>, s: State, fs: seq<Step>, r: State)
    requires (InitialInv(); Runs(Initial(), es, s)) && Inv(s) && Runs(s, fs, r)
    ensures forall t :: t in s.pc && s.pc[t].TRead? ==> s.pc[t].i < SLOTS && s.slots[s.pc[t].i].content.Some?
    ensures forall i, j :: 0 <= i < j < |s.slots| && s.slots[i].content.Some? ==> s.slots[i].content != s.slots[j].content
    ensures forall c :: c in s.place && s.place[c].WithTaker? ==> c in r.place && r.place[c] == s.place[c]
  {
    RunsInv(s, fs, r);
    forall t | t in s.pc && s.pc[t].TRead? ensures s.pc[t].i < SLOTS && s.slots[s.pc[t].i].content.Some? {
      assert HeldBy(s.pc, t, s.pc[t].i);
    }
  }

  /** The counter is exact up to the updates still under way, modulo the word size. */
  lemma CounterFormula(es: seq<Step>, s: State)
    requires (InitialInv(); Runs(Initial(), es, s))
    ensures s.count == (|ReadySlots(s)| - |PendingAdds(s)| + |PendingSubs(s)|) % WORD
    ensures s.pc == map[] ==> s.count == |ReadySlots(s)|
  {
    InitialInv();
    RunsInv(Initial(), es, s);
    QuietCount(s);
  }

  lemma FewReady(s: State)
    requires |s.slots| == SLOTS
    ensures |ReadySlots(s)| <= SLOTS
  {
    assert ReadySlots(s) <= Upto(SLOTS);
    SubsetSize(ReadySlots(s), Upto(SLOTS));
  }

  lemma QuietCount(s: State)
    requires Inv(s)
    ensures s.pc == map[] ==> Owed(s) == |ReadySlots(s)| < WORD
  {
    assert |s.slots| == SLOTS;
    FewReady(s);
    hide Inv, ReadySlots;
    if s.pc == map[] {
      assert PendingAdds(s) == {} && PendingSubs(s) == {};
    }
  }

  // ------------------------------------------------------ a call that runs alone

  /** An upper bound on the instructions thread `t` has left. */
  function Left(p: Pc): nat {
    match p
    case RScan(_, i) => if i >= SLOTS then 1 else SLOTS - i + 4
    case TScan(i) => if i >= SLOTS then 1 else SLOTS - i + 4
    case RWrite(_, _) => 3
    case TRead(_) => 3
    case RStore(_) => 2
    case TStore(_) => 2
    case RAdd => 1
    case TSub => 1
  }

  function LeftOf(s: State, t: nat): nat { if t in s.pc then Left(s.pc[t]) else 0 }

  /** Each instruction brings its thread nearer to the end, and no other thread's instruction takes it away from there. */
  lemma OneNearer(s: State, e: Step, t: nat)
    requires Inv(s) && Enabled(s, e) && t in s.pc
    ensures LeftOf(Apply(s, e), t) <= LeftOf(s, t) - One(e == Advance(t))
  {
    HeldSlot(s, t);
    hide InvPlace, InvCount;
  }

  /** The state in which thread `t` is done when no other thread takes a step. */
  ghost function Alone(s: State, t: nat): (r: State)
    requires Inv(s)
    decreases LeftOf(s, t)
  {
    if t !in s.pc then s
    else
      StepInv(s, Advance(t));
      OneNearer(s, Advance(t), t);
      Alone(Advanced(s, t), t)
  }

  ghost predicate FirstIn(slots: seq<Slot>, x: SlotState, i: nat, k: nat) {
    i <= k <= |slots| && (k < |slots| ==> slots[k].state == x) && forall j :: i <= j < k ==> slots[j].state != x
  }

  /** What a take has done that finds its cache in slot `k`, or none if `k` is past the slots. */
  function Taken(s: State, t: nat, k: nat): (r: State)
    requires |s.slots| == SLOTS && (k < SLOTS ==> s.slots[k].content.Some?)
  {
    if k >= SLOTS then s
    else s.(slots := s.slots[k := Slot(Empty, None)], count := (s.count + WORD - 1) % WORD,
            place := s.place[s.slots[k].content.cache := WithTaker(t)])
  }

  /** What a retirement has done that finds slot `k` empty, or none if `k` is past the slots. */
  function Placed(s: State, c: nat, k: nat): (r: State)
    requires |s.slots| == SLOTS
  {
    if k >= SLOTS then s.(place := s.place[c := Flushed])
    else s.(slots := s.slots[k := Slot(Ready, Some(c))], count := (s.count + 1) % WORD, place := s.place[c := InSlot(k)])
  }

  lemma {:induction false} ScanTakes(s: State, t: nat, i: nat, k: nat)
    requires Inv(s) && t in s.pc && s.pc[t] == TScan(i) && FirstIn(s.slots, Ready, i, k)
    ensures Alone(s, t) == Taken(Done(s, t), t, k)
    decreases SLOTS - i
  {
    hide InvSlots, InvPlace, InvCount;
    EightSlots(s);
    var r := Advanced(s, t);
    StepInv(s, Advance(t));
    OneNearer(s, Advance(t), t);
    if i < k {
      ScanTakes(r, t, i + 1, k);
      assert Done(r, t) == Done(s, t);
    } else if k < SLOTS {
      TakeEnds(s, t, k);
    }
  }

  lemma AloneStep(s: State, t: nat)
    requires Inv(s) && t in s.pc
    ensures Inv(Advanced(s, t)) && Alone(s, t) == Alone(Advanced(s, t), t)
  {
    StepInv(s, Advance(t));
    OneNearer(s, Advance(t), t);
    hide Inv, Advanced;
  }

  /** What the lemmas below need of the invariant. */
  lemma EightSlots(s: State)
    requires Inv(s)
    ensures |s.slots| == SLOTS
    ensures forall i :: 0 <= i < SLOTS && s.slots[i].content.Some? ==>
              s.slots[i].content.cache in s.place && s.place[s.slots[i].content.cache] == InSlot(i)
    ensures InvRetirers(s)
  {
  }

  lemma AloneEnds(s: State, t: nat)
    requires Inv(s) && t !in s.pc
    ensures Alone(s, t) == s
  {
    hide Inv;
  }

  lemma TakeRest(s: State, t: nat, k: nat)
    requires Inv(s) && t in s.pc && s.pc[t] == TRead(k)
    ensures k < SLOTS && |s.slots| == SLOTS && s.slots[k].content.Some?
    ensures Alone(s, t) == Taken(Done(s, t), t, k)
  {
    hide InvSlots, InvPlace, InvCount, Alone;
    EightSlots(s);
    HeldSlot(s, t);
    AloneStep(s, t);
    var u := Advanced(s, t);
    AloneStep(u, t);
    var v := Advanced(u, t);
    AloneStep(v, t);
    AloneEnds(Advanced(v, t), t);
    assert u == s.(slots := s.slots[k := Slot(Taking, None)], pc := s.pc[t := TStore(k)],
                   place := s.place[s.slots[k].content.cache := WithTaker(t)]);
    assert v == u.(slots := s.slots[k := Slot(Empty, None)], pc := s.pc[t := TSub]);
    assert Done(v, t).pc == Done(s, t).pc;
  }

  lemma RetireRest(s: State, t: nat, c: nat, k: nat)
    requires Inv(s) && t in s.pc && s.pc[t] == RWrite(c, k)
    ensures k < SLOTS && |s.slots| == SLOTS
    ensures Alone(s, t) == Placed(Done(s, t), c, k)
  {
    hide InvSlots, InvPlace, InvCount, Alone;
    EightSlots(s);
    HeldSlot(s, t);
    AloneStep(s, t);
    var u := Advanced(s, t);
    AloneStep(u, t);
    var v := Advanced(u, t);
    AloneStep(v, t);
    AloneEnds(Advanced(v, t), t);
    assert u == s.(slots := s.slots[k := Slot(Writing, Some(c))], pc := s.pc[t := RStore(k)], place := s.place[c := InSlot(k)]);
    assert v == u.(slots := s.slots[k := Slot(Ready, Some(c))], pc := s.pc[t := RAdd]);
    assert Done(v, t).pc == Done(s, t).pc;
  }

  lemma TakeEnds(s: State, t: nat, k: nat)
    requires Inv(s) && t in s.pc && s.pc[t] == TScan(k) && k < SLOTS && s.slots[k].state == Ready
    ensures Alone(s, t) == Taken(Done(s, t), t, k)
  {
    hide InvSlots, InvPlace, InvCount, Alone;
    EightSlots(s);
    var r := Advanced(s, t);
    AloneStep(s, t);
    TakeRest(r, t, k);
    assert Done(r, t) == Done(s, t).(slots := r.slots);
    assert r.slots[k := Slot(Empty, None)] == s.slots[k := Slot(Empty, None)];
  }

  lemma {:induction false} ScanPlaces(s: State, t: nat, c: nat, i: nat, k: nat)
    requires Inv(s) && t in s.pc && s.pc[t] == RScan(c, i) && FirstIn(s.slots, Empty, i, k)
    ensures Alone(s, t) == Placed(Done(s, t), c, k)
    decreases SLOTS - i
  {
    hide InvSlots, InvPlace, InvCount;
    EightSlots(s);
    var r := Advanced(s, t);
    StepInv(s, Advance(t));
    OneNearer(s, Advance(t), t);
    if i < k {
      ScanPlaces(r, t, c, i + 1, k);
      assert Done(r, t) == Done(s, t);
    } else if k < SLOTS {
      RetireEnds(s, t, c, k);
    }
  }

  lemma RetireEnds(s: State, t: nat, c: nat, k: nat)
    requires Inv(s) && t in s.pc && s.pc[t] == RScan(c, k) && k < SLOTS && s.slots[k].state == Empty
    ensures Alone(s, t) == Placed(Done(s, t), c, k)
  {
    hide InvSlots, InvPlace, InvCount, Alone;
    EightSlots(s);
    var r := Advanced(s, t);
    AloneStep(s, t);
    RetireRest(r, t, c, k);
    assert Done(r, t) == Done(s, t).(slots := r.slots);
    assert r.slots[k := Slot(Ready, Some(c))] == s.slots[k := Slot(Ready, Some(c))];
  }

  /** A take that runs alone, whatever the other threads are in the middle of: unless the counter reads
      zero, the taker gets the cache in the first READY slot and empties that slot, and changes nothing
      else. With no thread in the middle of a call, it gets a cache exactly when one is READY. */
  lemma TakeAlone(s: State, t: nat, k: nat)
    requires Inv(s) && t !in s.pc && FirstIn(s.slots, Ready, 0, k)
    ensures Inv(Apply(s, BeginTake(t))) && (k < SLOTS ==> s.slots[k].content.Some?)
    ensures Alone(Apply(s, BeginTake(t)), t) == Taken(s, t, if s.count == 0 then SLOTS else k)
    ensures s.pc == map[] ==> Alone(Apply(s, BeginTake(t)), t) == Taken(s, t, k)
  {
    var r := Apply(s, BeginTake(t));
    StepInv(s, BeginTake(t));
    if s.count != 0 {
      ScanTakes(r, t, 0, k);
      assert Done(r, t) == s;
    }
    if s.pc == map[] {
      QuietCount(s);
      assert k < SLOTS ==> k in ReadySlots(s);
    }
  }

  /** A retirement that runs alone puts its cache into the first EMPTY slot, and flushes it only if there is
      none. */
  lemma RetireAlone(s: State, t: nat, c: nat, k: nat)
    requires Inv(s) && t !in s.pc && c !in s.place && FirstIn(s.slots, Empty, 0, k)
    ensures Inv(Apply(s, BeginRetire(t, c)))
    ensures Alone(Apply(s, BeginRetire(t, c)), t) == Placed(s, c, k)
  {
    hide InvSlots, InvPlace, InvCount, Alone, FirstIn;
    EightSlots(s);
    var r := Apply(s, BeginRetire(t, c));
    StepInv(s, BeginRetire(t, c));
    ScanPlaces(r, t, c, 0, k);
    assert Done(r, t) == s.(place := s.place[c := WithRetirer(t)]);
    assert s.place[c := WithRetirer(t)][c := Flushed] == s.place[c := Flushed];
    assert k < SLOTS ==> s.place[c := WithRetirer(t)][c := InSlot(k)] == s.place[c := InSlot(k)];
  }

  // ------------------------------------------------- a call among other calls

  /** No later call of thread `t` begins in `es`. */
  predicate SameCall(es: seq<Step>, t: nat) {
    forall k :: 0 <= k < |es| && es[k].tid == t ==> es[k] == Advance(t)
  }

  /** The slot a thread is about to look at, and the state it hopes for. */
  predicate LooksAt(p: Pc, i: nat, x: SlotState) {
    match p
    case RScan(_, j) => i == j && x == Empty
    case TScan(j) => i == j && x == Ready
    case _ => false
  }

  /** Somewhere in the run thread `t` looks at slot `i` and finds it in another state than `x`. */
  ghost predicate Missed(s: State, es: seq<Step>, t: nat, i: nat, x: SlotState)
    requires Inv(s)
    decreases |es|
  {
    && es != [] && Enabled(s, es[0])
    && (StepInv(s, es[0]);
        || (es[0] == Advance(t) && LooksAt(s.pc[t], i, x) && i < |s.slots| && s.slots[i].state != x)
        || Missed(Apply(s, es[0]), es[1..], t, i, x))
  }

  ghost predicate Got(s: State, r: State, t: nat) {
    exists c :: c in r.place && r.place[c] == WithTaker(t) && !(c in s.place && s.place[c] == WithTaker(t))
  }

  /** How many of the steps are instructions of thread `t`. */
  function Own(es: seq<Step>, t: nat): nat {
    if es == [] then 0 else One(es[0] == Advance(t)) + Own(es[1..], t)
  }

  /** In every interleaving a call ends within SLOTS + 4 instructions of its own thread. */
  lemma {:induction false} WaitFree(s: State, es: seq<Step>, r: State, t: nat)
    requires Inv(s) && Runs(s, es, r) && t in s.pc && SameCall(es, t)
    ensures LeftOf(s, t) <= SLOTS + 4
    ensures Own(es, t) <= LeftOf(s, t) - LeftOf(r, t)
    decreases |es|
  {
    if es != [] {
      var m := Apply(s, es[0]);
      StepInv(s, es[0]);
      OneNearer(s, es[0], t);
      assert SameCall(es[1..], t);
      if t in m.pc {
        WaitFree(m, es[1..], r, t);
      } else {
        GoneStays(m, es[1..], r, t);
      }
    }
  }

  lemma {:induction false} GoneStays(s: State, es: seq<Step>, r: State, t: nat)
    requires Inv(s) && Runs(s, es, r) && t !in s.pc && SameCall(es, t)
    ensures t !in r.pc && Own(es, t) == 0
    decreases |es|
  {
    if es != [] {
      StepInv(s, es[0]);
      assert SameCall(es[1..], t);
      GoneStays(Apply(s, es[0]), es[1..], r, t);
    }
  }

  /** A thread that has a READY slot to itself gets the cache in it. */
  lemma {:induction false} ReaderGets(s: State, es: seq<Step>, r: State, t: nat)
    requires Inv(s) && Runs(s, es, r) && t in s.pc && s.pc[t].TRead? && t !in r.pc
    ensures Got(s, r, t)
    decreases |es|
  {
    hide InvSlots, InvPlace, InvCount;
    EightSlots(s);
    var m := Apply(s, es[0]);
    StepInv(s, es[0]);
    DeliveredStays(s, es[0]);
    if es[0] == Advance(t) {
      HeldSlot(s, t);
      var c := s.slots[s.pc[t].i].content.cache;
      assert s.place[c] == InSlot(s.pc[t].i) && m.place[c] == WithTaker(t);
      RunsInv(m, es[1..], r);
    } else {
      ReaderGets(m, es[1..], r, t);
    }
  }

  /** In every interleaving: a taker that entered the scan and ends with nothing looked at every slot and
      found none of them READY when it looked. */
  lemma {:induction false} EmptyHanded(s: State, es: seq<Step>, r: State, t: nat, j: nat, i: nat)
    requires Inv(s) && Runs(s, es, r) && t in s.pc && s.pc[t] == TScan(j) && j <= i < SLOTS
    requires t !in r.pc && !Got(s, r, t)
    ensures Missed(s, es, t, i, Ready)
    decreases |es|
  {
    hide InvSlots, InvPlace, InvCount;
    EightSlots(s);
    var m := Apply(s, es[0]);
    StepInv(s, es[0]);
    DeliveredStays(s, es[0]);
    if es[0] == Advance(t) && s.slots[j].state == Ready {
      ReaderGets(m, es[1..], r, t);
    } else if es[0] != Advance(t) {
      EmptyHanded(m, es[1..], r, t, j, i);
    } else if j < i {
      EmptyHanded(m, es[1..], r, t, j + 1, i);
    }
  }

  /** The cache has a slot: its retirer is about to write it there, or has. */
  predicate Safe(s: State, c: nat) {
    c in s.place &&
    match s.place[c]
    case WithRetirer(t) => t in s.pc && s.pc[t].RWrite? && s.pc[t].cache == c
    case Flushed => false
    case _ => true
  }

  lemma {:induction false} SafeStays(s: State, es: seq<Step>, r: State, c: nat)
    requires Inv(s) && Runs(s, es, r) && Safe(s, c)
    ensures Safe(r, c)
    decreases |es|
  {
    hide InvSlots, InvCount;
    EightSlots(s);
    if es != [] {
      StepInv(s, es[0]);
      if es[0].Advance? {
        HeldSlot(s, es[0].tid);
      }
      SafeStays(Apply(s, es[0]), es[1..], r, c);
    }
  }

  /** In every interleaving: a cache that its retirer flushed found every slot in use when the retirer
      looked at it. */
  lemma {:induction false} FlushedForWant(s: State, es: seq<Step>, r: State, t: nat, c: nat, j: nat, i: nat)
    requires Inv(s) && Runs(s, es, r) && t in s.pc && s.pc[t] == RScan(c, j) && j <= i < SLOTS
    requires c in r.place && r.place[c] == Flushed
    ensures Missed(s, es, t, i, Empty)
    decreases |es|
  {
    hide InvSlots, InvPlace, InvCount;
    EightSlots(s);
    assert s.place[c] == WithRetirer(t);
    var m := Apply(s, es[0]);
    StepInv(s, es[0]);
    if es[0] == Advance(t) && s.slots[j].state == Empty {
      SafeStays(m, es[1..], r, c);
    } else if es[0] != Advance(t) {
      FlushedForWant(m, es[1..], r, t, c, j, i);
    } else if j < i {
      FlushedForWant(m, es[1..], r, t, c, j + 1, i);
    }
  }
}
