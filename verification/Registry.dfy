/**
 The bucketed registry of large regions outside the arena (src/lib.rs): hash
 chains threaded through the headers under one lock, and a length counter that
 is raised before an insert takes the lock and lowered inside a removal.
 */
module Registry {
  import opened Seqs

  const BUCKETS: nat := 4096
  const HEADER: nat := 48
  const MIN_ALIGN: nat := 16
  const WORD: nat := 0x1_0000_0000_0000_0000

  /** Headers are addresses; 0 is null. */
  type Addr = nat

  /** Fibonacci hashing: multiply modulo the word, keep the top twelve bits. */
  function Bucket(hdr: Addr): (r: nat)
    ensures r < BUCKETS
  {
    hdr * 0x9E37_79B9_7F4A_7C15 % WORD / 0x10_0000_0000_0000 % BUCKETS
  }

  /** Following `registry_next` from `head` visits exactly `s`. */
  ghost predicate IsList(next: map<Addr, Addr>, head: Addr, s: seq<Addr>)
    decreases |s|
  {
    if s == [] then head == 0
    else head == s[0] && head != 0 && head in next && IsList(next, next[head], s[1..])
  }

  lemma {:induction false} ListFrame(a: map<Addr, Addr>, b: map<Addr, Addr>, head: Addr, s: seq<Addr>)
    requires IsList(a, head, s) && forall x :: x in s && x in a ==> x in b && b[x] == a[x]
    ensures IsList(b, head, s)
    decreases |s|
  {
    if s != [] {
      assert forall x :: x in s[1..] ==> x in s;
      ListFrame(a, b, a[head], s[1..]);
    }
  }

  /** Bypassing the element after position `i` removes it. */
  lemma {:induction false} Bypass(next: map<Addr, Addr>, head: Addr, s: seq<Addr>, i: nat)
    requires IsList(next, head, s) && NoDup(s) && i + 1 < |s| && s[i] in next && s[i + 1] in next
    ensures IsList(next[s[i] := next[s[i + 1]]], head, s[..i + 1] + s[i + 2..])
    decreases i
  {
    var after := next[s[i] := next[s[i + 1]]];
    var r := s[..i + 1] + s[i + 2..];
    assert s[1..][0] == s[1];
    if i == 0 {
      assert r[1..] == s[2..] == s[1..][1..];
      ListFrame(next, after, next[s[1]], s[2..]);
    } else {
      assert NoDup(s[1..]);
      Bypass(next, next[head], s[1..], i - 1);
      assert r[1..] == s[1..][..i] + s[1..][i + 1..];
    }
  }

  lemma {:induction false} ListAt(next: map<Addr, Addr>, head: Addr, s: seq<Addr>, i: nat)
    requires IsList(next, head, s) && i < |s|
    ensures s[i] in next && s[i] != 0 && next[s[i]] == if i + 1 < |s| then s[i + 1] else 0
    decreases i
  {
    if i > 0 {
      ListAt(next, next[head], s[1..], i - 1);
    } else if |s| > 1 {
      assert s[1..][0] == s[1];
    }
  }

  /** One bucket, as the code walks it. */
  class Chain {
    var head: Addr
    var next: map<Addr, Addr>
    ghost var list: seq<Addr>

    ghost predicate Valid()
      reads this
    {
      IsList(next, head, list) && NoDup(list)
    }

    method Link(hdr: Addr)
      requires Valid() && hdr != 0 && hdr !in list
      modifies this
      ensures Valid() && list == [hdr] + old(list)
    {
      ListFrame(next, next[hdr := head], head, list);
      next := next[hdr := head];
      head := hdr;
      NoDupSnoc(list, hdr);
      list := [hdr] + list;
      assert list[1..] == old(list);
    }

    method Contains(hdr: Addr) returns (found: bool)
      requires Valid()
      ensures found == (hdr in list)
    {
      var current := head;
      ghost var i := 0;
      while current != 0
        invariant 0 <= i <= |list| && current == (if i < |list| then list[i] else 0)
        invariant hdr !in list[..i]
        decreases |list| - i
      {
        ListAt(next, head, list, i);
        if current == hdr {
          return true;
        }
        current := next[current];
        i := i + 1;
      }
      if i < |list| {
        ListAt(next, head, list, i);
      }
      assert list[..i] == list;
      return false;
    }

    /** Remove a header, if it is there, by redirecting its predecessor. */
    method Unlink(hdr: Addr) returns (found: bool)
      requires Valid()
      modifies this
      ensures Valid() && found == (hdr in old(list)) && list == Remove(old(list), hdr)
    {
      var previous, current := 0, head;
      ghost var i := 0;
      while current != 0
        invariant head == old(head) && next == old(next) && list == old(list) && Valid()
        invariant 0 <= i <= |list| && current == (if i < |list| then list[i] else 0)
        invariant previous == (if i > 0 then list[i - 1] else 0)
        invariant hdr !in list[..i]
        decreases |list| - i
      {
        ListAt(next, head, list, i);
        if current == hdr {
          var after := next[current];
          RemoveAt(list, i);
          RemoveNoDup(list, hdr);
          if previous == 0 {
            assert i == 0 by { if i > 0 { ListAt(next, head, list, i - 1); } }
            head := after;
            list := list[1..];
          } else {
            ListAt(next, head, list, i - 1);
            Bypass(next, head, list, i - 1);
            next := next[previous := after];
            list := list[..i] + list[i + 1..];
          }
          return true;
        }
        previous := current;
        current := next[current];
        i := i + 1;
      }
      if i < |list| {
        ListAt(next, head, list, i);
      }
      assert list[..i] == list;
      return false;
    }
  }

  // --------------------------------------------------------- interleavings

  /** `pending` maps a thread to the header it has counted but not yet linked. */
  datatype State = State(buckets: seq<seq<Addr>>, len: nat, pending: map<nat, Addr>, members: set<Addr>)

  function Initial(): State { State(seq(BUCKETS, i => []), 0, map[], {}) }

  datatype Step =
    | Count(tid: nat, hdr: Addr)       // register: raise the counter
    | LinkIn(tid: nat)                 // register: locked insert
    | Unregister(hdr: Addr)            // locked removal, lowering the counter if found

  ghost predicate Enabled(s: State, e: Step) {
    match e
    case Count(t, h) => t !in s.pending && h != 0 && h !in s.members && h !in s.pending.Values
    case LinkIn(t) => t in s.pending
    case Unregister(h) => true
  }

  /** The buckets represent the set `members`. */
  ghost predicate Represent(buckets: seq<seq<Addr>>, members: set<Addr>) {
    && |buckets| == BUCKETS
    && (forall h :: h in members <==> h in buckets[Bucket(h)])
    && (forall b, h :: 0 <= b < BUCKETS && h in buckets[b] ==> Bucket(h) == b)
    && (forall b :: 0 <= b < BUCKETS ==> NoDup(buckets[b]))
  }

  ghost predicate Inv(s: State) {
    && Represent(s.buckets, s.members)
    && (forall t :: t in s.pending ==> s.pending[t] !in s.members)
    && (forall t, u :: t in s.pending && u in s.pending && s.pending[t] == s.pending[u] ==> t == u)
    && s.len == |s.members| + |s.pending|
  }

  function Apply(s: State, e: Step): (r: State)
    requires |s.buckets| == BUCKETS && (e.LinkIn? ==> e.tid in s.pending)
  {
    match e
    case Count(t, h) => s.(len := s.len + 1, pending := s.pending[t := h])
    case LinkIn(t) =>
      var h := s.pending[t];
      s.(buckets := s.buckets[Bucket(h) := [h] + s.buckets[Bucket(h)]], pending := s.pending - {t}, members := s.members + {h})
    case Unregister(h) =>
      if h in s.buckets[Bucket(h)] && s.len > 0 then
        s.(buckets := s.buckets[Bucket(h) := Remove(s.buckets[Bucket(h)], h)], len := s.len - 1, members := s.members - {h})
      else s
  }

  lemma LinkRepresents(buckets: seq<seq<Addr>>, members: set<Addr>, h: Addr)
    requires Represent(buckets, members) && h !in members
    ensures Represent(buckets[Bucket(h) := [h] + buckets[Bucket(h)]], members + {h})
  {
    hide Bucket;
    NoDupSnoc(buckets[Bucket(h)], h);
  }

  lemma Smaller(m: map<nat, Addr>, t: nat)
    requires t in m
    ensures |m - {t}| == |m| - 1
  {
    assert m.Keys == (m - {t}).Keys + {t};
  }

  lemma LinkInv(s: State, t: nat)
    requires Inv(s) && t in s.pending
    ensures Inv(Apply(s, LinkIn(t)))
  {
    hide Bucket, Represent;
    LinkRepresents(s.buckets, s.members, s.pending[t]);
    Smaller(s.pending, t);
  }

  lemma UnregisterInv(s: State, h: Addr)
    requires Inv(s)
    ensures Inv(Apply(s, Unregister(h)))
    ensures h !in Apply(s, Unregister(h)).members
  {
    hide Bucket, Represent, Remove;
    var b := Bucket(h);
    UnlinkRepresents(s.buckets, s.members, h);
    if h in s.buckets[b] {
      assert s.members == (s.members - {h}) + {h};
      assert |s.members| > 0;
    }
  }

  lemma UnlinkRepresents(buckets: seq<seq<Addr>>, members: set<Addr>, h: Addr)
    requires Represent(buckets, members)
    ensures |buckets| == BUCKETS && (h in members <==> h in buckets[Bucket(h)])
    ensures Represent(buckets[Bucket(h) := Remove(buckets[Bucket(h)], h)], members - {h})
  {
    hide Bucket, NoDup, Remove;
    RemoveNoDup(buckets[Bucket(h)], h);
  }

  lemma CountInv(s: State, t: nat, h: Addr)
    requires Inv(s) && Enabled(s, Count(t, h))
    ensures Inv(Apply(s, Count(t, h)))
  {
    hide Bucket, Represent;
    assert s.pending[t := h].Keys == s.pending.Keys + {t};
    assert forall u :: u in s.pending ==> s.pending[u] in s.pending.Values;
  }

  lemma StepInv(s: State, e: Step)
    requires Inv(s) && Enabled(s, e)
    ensures Inv(Apply(s, e))
  {
    match e
    case Count(t, h) => CountInv(s, t, h);
    case LinkIn(t) => LinkInv(s, t);
    case Unregister(h) => UnregisterInv(s, h);
  }

  ghost predicate Runs(s: State, es: seq<Step>, r: State)
    requires Inv(s)
    decreases |es|
  {
    if es == [] then r == s
    else Enabled(s, es[0]) && (StepInv(s, es[0]); Runs(Apply(s, es[0]), es[1..], r))
  }

  lemma InitialInv()
    ensures Inv(Initial())
  {
  }

  ghost predicate Reachable(es: seq<Step>, s: State) {
    InitialInv();
    Runs(Initial(), es, s)
  }

  lemma {:induction false} RunsInv(s: State, es: seq<Step>, r: State)
    requires Inv(s) && Runs(s, es, r)
    ensures Inv(r)
    decreases |es|
  {
    if es != [] {
      StepInv(s, es[0]);
      RunsInv(Apply(s, es[0]), es[1..], r);
    }
  }

  /** The header a pointer would have, if it were a registered region. */
  function Expected(p: Addr): Addr { if p >= HEADER && (p - HEADER) % MIN_ALIGN == 0 then p - HEADER else 0 }

  /** The lookup, both of whose readings happen in state `s`: a zero counter answers at once. */
  predicate Lookup(s: State, p: Addr)
    requires |s.buckets| == BUCKETS
  {
    s.len != 0 && Expected(p) != 0 && Expected(p) in s.buckets[Bucket(Expected(p))]
  }

  /** In every interleaving the registry is the set of registered headers: the counter is its size plus
      the inserts under way, a zero reading means that it is empty, and a lookup answers membership. */
  lemma RegistryIsASet(es: seq<Step>, s: State, p: Addr)
    requires Reachable(es, s)
    ensures |s.buckets| == BUCKETS && s.len == |s.members| + |s.pending|
    ensures s.len == 0 ==> s.members == {}
    ensures Expected(p) != 0 ==> (Lookup(s, p) <==> Expected(p) in s.members)
    ensures Expected(p) == 0 ==> !Lookup(s, p)
  {
    InitialInv();
    RunsInv(Initial(), es, s);
  }

  /** No step but its own removal takes a linked region out of the registry. */
  lemma {:induction false} MemberStays(s: State, fs: seq<Step>, r: State, h: Addr)
    requires Inv(s) && Runs(s, fs, r) && h in s.members && Unregister(h) !in fs
    ensures h in r.members
    decreases |fs|
  {
    hide Represent, Apply, Bucket;
    if fs != [] {
      assert forall e :: e in fs[1..] ==> e in fs;
      BucketCount(s);
      OneMemberStays(s, fs[0], h);
      StepInv(s, fs[0]);
      MemberStays(Apply(s, fs[0]), fs[1..], r, h);
    }
  }

  lemma BucketCount(s: State)
    requires Inv(s)
    ensures |s.buckets| == BUCKETS
  {
    hide Bucket;
  }

  lemma OneMemberStays(s: State, e: Step, h: Addr)
    requires Inv(s) && Enabled(s, e) && h in s.members && e != Unregister(h)
    ensures |s.buckets| == BUCKETS && h in Apply(s, e).members
  {
    hide Bucket;
  }

  /** The counter and the bucket may be read in different states: a region that is linked at the first
      reading and is not removed before the second is found by the two together. */
  lemma LookupAcrossSteps(es: seq<Step>, s: State, fs: seq<Step>, r: State, h: Addr)
    requires Reachable(es, s) && Inv(s) && Runs(s, fs, r)
    requires h in s.members && Unregister(h) !in fs
    ensures s.len != 0 && |r.buckets| == BUCKETS && h in r.buckets[Bucket(h)]
  {
    hide Bucket;
    MemberStays(s, fs, r, h);
    RunsInv(s, fs, r);
    assert s.members == (s.members - {h}) + {h};
  }

  lemma NotListed(buckets: seq<seq<Addr>>, members: set<Addr>, h: Addr)
    requires Represent(buckets, members) && h !in members
    ensures |buckets| == BUCKETS && h !in buckets[Bucket(h)]
  {
    hide Bucket;
  }

  lemma PutAndRemove(buckets: seq<seq<Addr>>, b: nat, h: Addr)
    requires b < |buckets|
    ensures Remove([h] + buckets[b], h) == buckets[b]
    ensures buckets[b := [h] + buckets[b]][b := buckets[b]] == buckets
  {
    assert ([h] + buckets[b])[0] == h && ([h] + buckets[b])[1..] == buckets[b];
  }

  /** Registering a region and removing it again: in between it is found by the pointer behind its header,
      and afterwards everything is as it was. */
  lemma RegisterThenRemove(s: State, t: nat, h: Addr)
    requires Inv(s) && h != 0 && h % MIN_ALIGN == 0 && h !in s.members && h !in s.pending.Values && t !in s.pending
    ensures Enabled(s, Count(t, h))
    ensures |s.buckets| == BUCKETS && Enabled(Apply(s, Count(t, h)), LinkIn(t))
    ensures var r := Apply(Apply(s, Count(t, h)), LinkIn(t));
            && |r.buckets| == BUCKETS && Expected(h + HEADER) == h && Lookup(r, h + HEADER)
            && r.members == s.members + {h} && Enabled(r, Unregister(h)) && Apply(r, Unregister(h)) == s
  {
    hide Bucket, Represent;
    NotListed(s.buckets, s.members, h);
    PutAndRemove(s.buckets, Bucket(h), h);
    assert s.pending[t := h] - {t} == s.pending;
    assert s.members + {h} - {h} == s.members;
  }

  /** A pointer is looked up under the one header that could be in front of it. */
  lemma ExpectedExact(p: Addr, h: Addr)
    requires h != 0
    ensures Expected(p) == h <==> p == h + HEADER && h % MIN_ALIGN == 0
  {
  }
}
