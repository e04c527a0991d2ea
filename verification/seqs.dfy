/** Small facts about sequences used by the board enumerations: filtering in
    order, duplicate-freedom, and counting. */
module Seqs {

  /** No element occurs twice. */
  ghost predicate Distinct<T>(s: seq<T>) {
    forall i, j :: 0 <= i < j < |s| ==> s[i] != s[j]
  }

  /** The elements of `s` satisfying `f`, in their original order. */
  function Filter<T(!new)>(s: seq<T>, f: T -> bool): (r: seq<T>)
    ensures forall x :: x in r <==> x in s && f(x)
    ensures |r| <= |s|
  {
    if s == [] then [] else (if f(s[0]) then [s[0]] else []) + Filter(s[1..], f)
  }

  lemma {:induction false} FilterDistinct<T(!new)>(s: seq<T>, f: T -> bool)
    requires Distinct(s)
    ensures Distinct(Filter(s, f))
  {
    if s != [] {
      FilterDistinct(s[1..], f);
      var rest := Filter(s[1..], f);
      assert s[0] !in rest;
      DistinctAppend((if f(s[0]) then [s[0]] else []), rest);
    }
  }

  /** The elements of `s` that belong to `g`, in their original order. */
  function Within<T(!new)>(s: seq<T>, g: set<T>): (r: seq<T>)
    ensures forall x :: x in r <==> x in s && x in g
  {
    if s == [] then [] else (if s[0] in g then [s[0]] else []) + Within(s[1..], g)
  }

  lemma DistinctAppend<T>(a: seq<T>, b: seq<T>)
    requires Distinct(a) && Distinct(b)
    requires forall x :: x in a ==> x !in b
    ensures Distinct(a + b)
  {
    forall i, j | 0 <= i < j < |a + b|
      ensures (a + b)[i] != (a + b)[j]
    {
      if j >= |a| && i < |a| {
        assert (a + b)[i] in a && (a + b)[j] in b;
      }
    }
  }

  /** The set of elements of `s`, built front to back. */
  function Elems<T(!new)>(s: seq<T>): (r: set<T>)
    ensures forall x :: x in r <==> x in s
  {
    if s == [] then {} else {s[0]} + Elems(s[1..])
  }

  /** Visiting the head and then the rest visits all of `s`. */
  lemma ElemsCons<T(!new)>(s: seq<T>, done: set<T>)
    requires s != []
    ensures done + {s[0]} + Elems(s[1..]) == done + Elems(s)
  {
  }


  /** How many elements of `s` satisfy `f`. */
  function Count<T>(s: seq<T>, f: T -> bool): nat
  {
    if s == [] then 0 else (if f(s[0]) then 1 else 0) + Count(s[1..], f)
  }

  lemma {:induction false} FilterLength<T(!new)>(s: seq<T>, f: T -> bool)
    ensures |Filter(s, f)| == Count(s, f)
  {
    if s != [] {
      FilterLength(s[1..], f);
    }
  }

  /** Counting along a duplicate-free enumeration is the size of the set it
      enumerates. */
  lemma {:induction false} CountIsCardinality<T(!new)>(s: seq<T>, f: T -> bool)
    requires Distinct(s)
    ensures Count(s, f) == |set x | x in s && f(x)|
  {
    if s == [] {
      assert (set x | x in s && f(x)) == {};
    } else {
      CountIsCardinality(s[1..], f);
      var rest := set x | x in s[1..] && f(x);
      assert s[0] !in s[1..];
      if f(s[0]) {
        assert (set x | x in s && f(x)) == rest + {s[0]};
      } else {
        assert (set x | x in s && f(x)) == rest;
      }
    }
  }

  /** Dropping the head of a nonempty prefix is a prefix of the tail. */
  lemma PrefixTail<T>(s: seq<T>, i: nat)
    requires 0 < i <= |s|
    ensures s[..i][0] == s[0] && s[..i][1..] == s[1..][..i - 1]
  {
  }
}
