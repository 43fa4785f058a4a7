/** Facts about duplicate-free sequences used throughout the model. */
module Seqs {

  ghost predicate NoDup<T(!new)>(s: seq<T>) {
    forall i, j :: 0 <= i < j < |s| ==> s[i] != s[j]
  }

  function Min(a: nat, b: nat): nat { if a <= b then a else b }

  /** The elements of `s` as a set. */
  ghost function Elems<T(!new)>(s: seq<T>): set<T> { set x | x in s }

  /** `s` without the first occurrence of `x`; the rest keeps its order. */
  function Remove<T(==)>(s: seq<T>, x: T): (r: seq<T>)
    ensures x !in s ==> r == s
    ensures x in s ==> |r| == |s| - 1
  {
    if s == [] then [] else if s[0] == x then s[1..] else [s[0]] + Remove(s[1..], x)
  }

  /** Removing from a duplicate-free sequence removes the element and nothing else. */
  lemma {:induction false} RemoveNoDup<T(!new)>(s: seq<T>, x: T)
    requires NoDup(s)
    ensures NoDup(Remove(s, x))
    ensures forall y :: y in Remove(s, x) <==> y in s && y != x
  {
    if s != [] {
      var t := s[1..];
      assert s == [s[0]] + t;
      assert NoDup(t) by { assert forall i :: 0 <= i < |t| ==> t[i] == s[i + 1]; }
      assert s[0] !in t by { assert forall i :: 0 <= i < |t| ==> t[i] == s[i + 1]; }
      RemoveNoDup(t, x);
    }
  }

  /** Removing the k-th element of a duplicate-free sequence. */
  lemma {:induction false} RemoveAt<T(!new)>(s: seq<T>, k: nat)
    requires NoDup(s) && k < |s|
    ensures Remove(s, s[k]) == s[..k] + s[k + 1..]
  {
    if k > 0 {
      var t := s[1..];
      assert NoDup(t) && t[k - 1] == s[k] && s[0] != s[k];
      RemoveAt(t, k - 1);
      hide NoDup;
      assert Remove(s, s[k]) == [s[0]] + Remove(t, s[k]);
      assert [s[0]] + (t[..k - 1] + t[k..]) == s[..k] + s[k + 1..];
    } else {
      hide NoDup;
    }
  }

  /** Removing entry `i` by moving the last entry into its place. */
  function SwapRemove<T>(s: seq<T>, i: nat): (r: seq<T>)
    requires i < |s|
  {
    s[i := s[|s| - 1]][..|s| - 1]
  }

  /** Dropping the first element of a duplicate-free sequence removes exactly that element. */
  lemma NoDupTail<T(!new)>(s: seq<T>)
    requires NoDup(s) && s != []
    ensures NoDup(s[1..]) && s[0] !in s[1..]
    ensures forall x :: x in s <==> x == s[0] || x in s[1..]
  {
    var t := s[1..];
    assert s == [s[0]] + t;
    assert forall i :: 0 <= i < |t| ==> t[i] == s[i + 1];
  }

  lemma SomeElement<T>(s: seq<T>)
    ensures s != [] ==> exists x :: x in s
  {
    if s != [] {
      assert s[0] in s;
    }
  }

  /** Appending one new element keeps a sequence duplicate-free. */
  lemma NoDupSnoc<T(!new)>(s: seq<T>, x: T)
    requires NoDup(s) && x !in s
    ensures NoDup(s + [x]) && NoDup([x] + s)
  {
  }

  lemma NoDupConcat<T(!new)>(s: seq<T>, t: seq<T>)
    requires NoDup(s) && NoDup(t) && forall x :: x in s ==> x !in t
    ensures NoDup(s + t)
    ensures forall x :: x in s + t <==> x in s || x in t
  {
    var r := s + t;
    forall i, j | 0 <= i < j < |r| ensures r[i] != r[j] {
      if i < |s| <= j {
        assert r[i] in s && r[j] in t;
      }
    }
  }

  /** Dropping the last element of a duplicate-free sequence removes exactly that element. */
  lemma NoDupPrefix<T(!new)>(s: seq<T>)
    requires NoDup(s) && s != []
    ensures var t := s[..|s| - 1];
            NoDup(t) && s == t + [s[|s| - 1]] && (forall x :: x in t <==> x in s && x != s[|s| - 1])
  {
    var t := s[..|s| - 1];
    assert s == t + [s[|s| - 1]];
  }

  lemma {:induction false} NoDupElems<T(!new)>(s: seq<T>)
    requires NoDup(s)
    ensures |Elems(s)| == |s|
  {
    if s != [] {
      var t, x := s[..|s| - 1], s[|s| - 1];
      assert Elems(s) == Elems(t) + {x} by { assert s == t + [x]; }
      assert x !in Elems(t);
      NoDupElems(t);
    }
  }

  /** The numbers below `n`. */
  ghost function Upto(n: nat): (r: set<nat>)
    ensures |r| == n
    ensures forall i: nat :: i in r <==> i < n
  {
    if n == 0 then {} else Upto(n - 1) + {n - 1}
  }

  lemma {:induction false} SubsetSize<T>(a: set<T>, b: set<T>)
    requires a <= b
    ensures |b - a| == |b| - |a|
  {
    assert b == a + (b - a);
  }

  /** Pigeonhole: n distinct numbers below n are all the numbers below n. */
  lemma Pigeonhole(s: seq<nat>, n: nat)
    requires NoDup(s) && |s| == n && forall x :: x in s ==> x < n
    ensures forall i :: 0 <= i < n ==> i in s
  {
    NoDupElems(s);
    assert Elems(s) <= Upto(n);
    SubsetSize(Elems(s), Upto(n));
    assert Upto(n) - Elems(s) == {};
    forall i | 0 <= i < n ensures i in s {
      assert i in Upto(n);
      assert i in Elems(s);
    }
  }
}
