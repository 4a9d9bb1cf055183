/** Facts about sequences used by several modules. */
module Seqs {

  /** No element occurs twice. */
  predicate NoDup<T(==)>(s: seq<T>)
  {
    forall i, j :: 0 <= i < j < |s| ==> s[i] != s[j]
  }

  /** A duplicate-free sequence counts each element at most once. */
  lemma {:induction false} NoDupCountsOnce<T>(s: seq<T>, x: T)
    requires NoDup(s)
    ensures multiset(s)[x] <= 1
  {
    if s != [] {
      assert s == [s[0]] + s[1..];
      NoDupCountsOnce(s[1..], x);
      assert x == s[0] ==> x !in s[1..];
    }
  }

  /** Two positions holding the same element make it count at least twice. */
  lemma TwiceCountsTwice<T>(s: seq<T>, i: nat, j: nat)
    requires i < j < |s| && s[i] == s[j]
    ensures multiset(s)[s[i]] >= 2
  {
    assert s == s[..j] + s[j..];
    assert s[i] in s[..j];
    assert s[j] in s[j..];
    assert multiset(s) == multiset(s[..j]) + multiset(s[j..]);
  }

  /** A rearrangement of a duplicate-free sequence is duplicate-free. */
  lemma PermutationKeepsNoDup<T>(s: seq<T>, t: seq<T>)
    requires NoDup(s) && multiset(t) == multiset(s)
    ensures NoDup(t)
  {
    forall i, j | 0 <= i < j < |t|
      ensures t[i] != t[j]
    {
      if t[i] == t[j] {
        TwiceCountsTwice(t, i, j);
        NoDupCountsOnce(s, t[i]);
      }
    }
  }

  /** A duplicate-free sequence drawn from a finite set is no longer than the set is large. */
  lemma {:induction false} NoDupBoundedBySet<T>(s: seq<T>, u: set<T>)
    requires NoDup(s) && forall x :: x in s ==> x in u
    ensures |s| <= |u|
  {
    if s != [] {
      var last := s[|s| - 1];
      var init := s[..|s| - 1];
      assert forall x :: x in init ==> x in u - {last};
      NoDupBoundedBySet(init, u - {last});
    }
  }

  /** A duplicate-free sequence drawn from a set and as long as the set holds all of it. */
  lemma {:induction false} NoDupFillsSet<T>(s: seq<T>, u: set<T>)
    requires NoDup(s) && (forall x :: x in s ==> x in u) && |s| == |u|
    ensures forall x :: x in u ==> x in s
  {
    if s == [] {
      assert u == {};
    } else {
      var last := s[|s| - 1];
      var init := s[..|s| - 1];
      assert forall x :: x in init ==> x in u - {last};
      NoDupFillsSet(init, u - {last});
      assert s == init + [last];
    }
  }

  /** A duplicate-free sequence has as many distinct elements as it is long. */
  lemma {:induction false} NoDupSetSize<T>(t: seq<T>)
    requires NoDup(t)
    ensures |set x | x in t| == |t|
  {
    if t != [] {
      var init, last := t[..|t| - 1], t[|t| - 1];
      NoDupSetSize(init);
      assert (set x | x in t) == (set x | x in init) + {last};
      assert last !in init;
    }
  }

  /** The number of `true` entries. */
  function CountTrue(bs: seq<bool>): (n: nat)
    ensures n <= |bs|
  {
    if bs == [] then 0
    else CountTrue(bs[..|bs| - 1]) + (if bs[|bs| - 1] then 1 else 0)
  }
}
