/** Order-preserving filtering of sequences, the specification of the element-list
    helpers that build a new list by appending in a loop. */
module Sequences {

  /** The in-order subsequence of `s` whose elements satisfy `p` (LINQ `Where`). */
  function Filter<T>(s: seq<T>, p: T -> bool): (r: seq<T>)
    ensures |r| <= |s|
    ensures forall i :: 0 <= i < |r| ==> p(r[i])
  {
    if s == [] then [] else (if p(s[0]) then [s[0]] else []) + Filter(s[1..], p)
  }

  lemma {:induction false} FilterAppend<T>(a: seq<T>, b: seq<T>, p: T -> bool)
    ensures Filter(a + b, p) == Filter(a, p) + Filter(b, p)
  {
    if a == [] {
      assert a + b == b;
    } else {
      assert (a + b)[1..] == a[1..] + b;
      FilterAppend(a[1..], b, p);
    }
  }

  /** A prefix one longer is the shorter prefix and one element. */
  lemma TakeSnoc<T>(s: seq<T>, k: nat)
    requires k < |s|
    ensures s[..k + 1] == s[..k] + [s[k]]
  {
  }

  /** The shorter of two consecutive prefixes is a prefix of the longer. */
  lemma TakeTake<T>(s: seq<T>, k: nat)
    requires k < |s|
    ensures s[..k + 1][..k] == s[..k]
  {
  }

  lemma TakeAll<T>(s: seq<T>)
    ensures s[..|s|] == s
  {
  }

  lemma AppendAssoc<T>(a: seq<T>, b: seq<T>, c: seq<T>)
    ensures a + (b + c) == a + b + c
  {
  }

  /** A non-empty sequence is its front and its last element. */
  lemma LastSplit<T>(s: seq<T>)
    requires |s| > 0
    ensures s == s[..|s| - 1] + [s[|s| - 1]]
  {
  }

  /** Swapping two neighbours below `i` leaves the suffix after `i` alone and permutes the
      prefix up to `i`. */
  lemma SwapWithin<T>(s: seq<T>, i: nat, j: nat)
    requires 0 < j <= i < |s|
    ensures s[j - 1 := s[j]][j := s[j - 1]][i + 1..] == s[i + 1..]
    ensures multiset(s[j - 1 := s[j]][j := s[j - 1]][..i + 1]) == multiset(s[..i + 1])
  {
    var t := s[j - 1 := s[j]][j := s[j - 1]];
    assert t[..i + 1] == s[..i + 1][j - 1 := s[j]][j := s[j - 1]];
  }

  /** Filtering a sequence with one more element in front. */
  lemma FilterCons<T>(x: T, s: seq<T>, p: T -> bool)
    ensures Filter([x] + s, p) == (if p(x) then [x] else []) + Filter(s, p)
  {
    assert ([x] + s)[1..] == s;
  }

  /** Two elements that do not both pass may trade places without changing the filter:
      the inductive step of a stable insertion. */
  lemma FilterSwap<T>(a: T, x: T, rest: seq<T>, s: seq<T>, p: T -> bool)
    requires !(p(a) && p(x))
    requires Filter(rest, p) == Filter([x] + s, p)
    ensures Filter([a] + rest, p) == Filter([x] + ([a] + s), p)
  {
    FilterCons(a, rest, p);
    FilterCons(x, s, p);
    FilterCons(x, [a] + s, p);
    FilterCons(a, s, p);
  }

  /** Filtering a sequence extended by one element, as one loop iteration does. */
  lemma FilterSnoc<T>(s: seq<T>, x: T, p: T -> bool)
    ensures Filter(s + [x], p) == Filter(s, p) + (if p(x) then [x] else [])
  {
    FilterAppend(s, [x], p);
    assert [x][1..] == [];
  }

  /** Filtering keeps exactly the elements that pass: membership in both directions. */
  lemma {:induction false} FilterMembership<T>(s: seq<T>, p: T -> bool, x: T)
    ensures x in Filter(s, p) <==> x in s && p(x)
  {
    if s != [] {
      FilterMembership(s[1..], p, x);
      assert s == [s[0]] + s[1..];
    }
  }

  /** Filtering preserves multiplicities of the elements that pass and drops the rest. */
  lemma {:induction false} FilterMultiset<T>(s: seq<T>, p: T -> bool, x: T)
    ensures multiset(Filter(s, p))[x] == if p(x) then multiset(s)[x] else 0
  {
    if s != [] {
      FilterMultiset(s[1..], p, x);
      assert s == [s[0]] + s[1..];
    }
  }

  /** A filter whose predicate holds everywhere is the identity. */
  lemma {:induction false} FilterAll<T>(s: seq<T>, p: T -> bool)
    requires forall i :: 0 <= i < |s| ==> p(s[i])
    ensures Filter(s, p) == s
  {
    if s != [] {
      FilterAll(s[1..], p);
    }
  }
}
