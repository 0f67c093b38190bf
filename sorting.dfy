/**
 * std::sort on a vector of ids, as the OBJ writer applies it to vertex ids,
 * uv ids and face ids before numbering or writing them: the ids in
 * ascending order.
 */
module Sorting {

  import opened Remap

  predicate Ascending(s: seq<int>)
  {
    forall i, j :: 0 <= i < j < |s| ==> s[i] <= s[j]
  }

  predicate StrictlyAscending(s: seq<int>)
  {
    forall i, j :: 0 <= i < j < |s| ==> s[i] < s[j]
  }

  /** x placed before the first element of the ascending s that is not below it. */
  function Insert(s: seq<int>, x: int): (r: seq<int>)
    ensures |r| == |s| + 1
  {
    if s == [] || x <= s[0] then [x] + s else [s[0]] + Insert(s[1..], x)
  }

  /** The ids of s in ascending order. */
  function Sort(s: seq<int>): (r: seq<int>)
    ensures |r| == |s|
  {
    if s == [] then [] else Insert(Sort(s[..|s| - 1]), s[|s| - 1])
  }

  /** Insert adds x and keeps every other id. */
  lemma {:induction false} InsertPermutation(s: seq<int>, x: int)
    ensures multiset(Insert(s, x)) == multiset(s) + multiset{x}
  {
    if s != [] && x > s[0] {
      InsertPermutation(s[1..], x);
      assert s == [s[0]] + s[1..];
    }
  }

  /** Sort is a permutation of its input. */
  lemma {:induction false} SortPermutation(s: seq<int>)
    ensures multiset(Sort(s)) == multiset(s)
  {
    if s != [] {
      SortPermutation(s[..|s| - 1]);
      InsertPermutation(Sort(s[..|s| - 1]), s[|s| - 1]);
      assert s == s[..|s| - 1] + [s[|s| - 1]];
    }
  }

  lemma {:induction false} InsertAscending(s: seq<int>, x: int)
    requires Ascending(s)
    ensures Ascending(Insert(s, x))
  {
    if s != [] && x > s[0] {
      InsertAscending(s[1..], x);
      InsertPermutation(s[1..], x);
      var r := Insert(s[1..], x);
      assert r[0] in multiset(r);
      assert r[0] == x || r[0] in s[1..];
    }
  }

  /** Sort lists the ids in ascending order. */
  lemma {:induction false} SortAscending(s: seq<int>)
    ensures Ascending(Sort(s))
  {
    if s != [] {
      SortAscending(s[..|s| - 1]);
      InsertAscending(Sort(s[..|s| - 1]), s[|s| - 1]);
    }
  }

  /** Sort keeps exactly the ids of s. */
  lemma SortElements(s: seq<int>)
    ensures forall x :: x in Sort(s) <==> x in s
    ensures Elements(Sort(s)) == Elements(s)
  {
    SortPermutation(s);
    assert forall x :: x in Sort(s) <==> x in multiset(Sort(s));
  }

  /** Sorting ids listed once gives a strictly ascending list, so none is repeated. */
  lemma SortStrict(s: seq<int>)
    requires Distinct(s)
    ensures StrictlyAscending(Sort(s)) && Distinct(Sort(s))
  {
    SortAscending(s);
    SortPermutation(s);
    var r := Sort(s);
    forall i, j | 0 <= i < j < |r|
      ensures r[i] < r[j]
    {
      if r[i] == r[j] {
        TwiceCounted(r, i, j);
        DistinctOnce(s, r[i]);
        assert false;
      }
    }
  }

  /** A value at two positions is counted at least twice. */
  lemma TwiceCounted(r: seq<int>, i: nat, j: nat)
    requires i < j < |r| && r[i] == r[j]
    ensures multiset(r)[r[i]] >= 2
  {
    assert r == r[..i] + [r[i]] + r[i + 1..j] + [r[j]] + r[j + 1..];
  }

  /** A list without repeats counts each value at most once. */
  lemma {:induction false} DistinctOnce(s: seq<int>, x: int)
    requires Distinct(s)
    ensures multiset(s)[x] <= 1
  {
    if s != [] {
      assert s == [s[0]] + s[1..];
      DistinctOnce(s[1..], x);
      if s[0] == x {
        assert x !in s[1..];
      }
    }
  }
}
