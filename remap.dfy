/**
 * Id lists and id-to-position tables as the serialisers build them: an id is
 * appended to a list the first time it is met (push_back guarded by a
 * count() test) and the table maps it to the list length at that moment.
 */
module Remap {

  predicate Distinct(s: seq<int>)
  {
    forall i, j :: 0 <= i < j < |s| ==> s[i] != s[j]
  }

  /** Append x unless it is already listed. */
  function Push(d: seq<int>, x: int): (r: seq<int>)
  {
    if x in d then d else d + [x]
  }

  /** The ids of s, each once, in the order they are first met. */
  function Dedup(s: seq<int>): (r: seq<int>)
    ensures |r| <= |s|
  {
    if s == [] then [] else Push(Dedup(s[..|s| - 1]), s[|s| - 1])
  }

  /** Meeting one more id pushes it. */
  lemma DedupSnoc(s: seq<int>, x: int)
    ensures Dedup(s + [x]) == Push(Dedup(s), x)
  {
    assert (s + [x])[..|s|] == s;
  }

  /** The deduplicated list holds exactly the ids of s. */
  lemma {:induction false} DedupElements(s: seq<int>)
    ensures forall x :: x in Dedup(s) <==> x in s
  {
    if s != [] {
      DedupElements(s[..|s| - 1]);
      assert s == s[..|s| - 1] + [s[|s| - 1]];
    }
  }

  /** The deduplicated list holds no id twice. */
  lemma {:induction false} DedupDistinct(s: seq<int>)
    ensures Distinct(Dedup(s))
  {
    if s != [] {
      DedupDistinct(s[..|s| - 1]);
    }
  }

  /** Where x first occurs in s; |s| when it does not occur. */
  function FirstIndex(s: seq<int>, x: int): (r: nat)
    ensures r <= |s| && x !in s[..r]
    ensures r < |s| <==> x in s
    ensures r < |s| ==> s[r] == x
  {
    if s == [] then 0
    else if s[0] == x then 0
    else
      var r := 1 + FirstIndex(s[1..], x);
      assert s[..r] == [s[0]] + s[1..][..r - 1];
      r
  }

  /** An id keeps its first position when more ids are appended. */
  lemma {:induction false} FirstIndexSnoc(s: seq<int>, x: int, y: int)
    requires y in s
    ensures FirstIndex(s + [x], y) == FirstIndex(s, y)
  {
    if s[0] != y {
      assert (s + [x])[1..] == s[1..] + [x];
      FirstIndexSnoc(s[1..], x, y);
    }
  }

  /** Ids appear in the deduplicated list in the order of their first occurrence in s. */
  lemma {:induction false} DedupOrder(s: seq<int>)
    ensures forall i, j :: 0 <= i < j < |Dedup(s)| ==> FirstIndex(s, Dedup(s)[i]) < FirstIndex(s, Dedup(s)[j])
  {
    if s != [] {
      var init, x := s[..|s| - 1], s[|s| - 1];
      assert s == init + [x];
      DedupOrder(init);
      DedupElements(init);
      var d := Dedup(init);
      forall y | y in d
        ensures FirstIndex(s, y) == FirstIndex(init, y) < |init|
      {
        FirstIndexSnoc(init, x, y);
      }
      forall i, j | 0 <= i < j < |Dedup(s)|
        ensures FirstIndex(s, Dedup(s)[i]) < FirstIndex(s, Dedup(s)[j])
      {
        assert d[i] in d && Dedup(s)[i] == d[i];
        if j == |d| {
          assert Dedup(s)[j] == x && x !in init;
          assert FirstIndex(s, x) == |s| - 1;
        } else {
          assert d[j] in d && Dedup(s)[j] == d[j];
        }
      }
    }
  }

  /** The table from each listed id to its position; a repeated id keeps its last position. */
  function IndexMap(d: seq<int>): (r: map<int, int>)
    ensures forall x :: x in r <==> x in d
  {
    if d == [] then map[] else IndexMap(d[..|d| - 1])[d[|d| - 1] := |d| - 1]
  }

  /** Pushing an id that is not yet listed records its position. */
  lemma IndexMapSnoc(d: seq<int>, x: int)
    ensures IndexMap(d + [x]) == IndexMap(d)[x := |d|]
  {
    assert (d + [x])[..|d|] == d;
  }

  /** A prefix one longer is the prefix and the next element. */
  lemma TakeSnoc(s: seq<int>, k: nat)
    requires k < |s|
    ensures s[..k + 1] == s[..k] + [s[k]]
  {
  }

  /** A listed id has a table entry, a position that holds it. */
  lemma IndexMapAt(d: seq<int>, x: int)
    requires x in d
    ensures x in IndexMap(d) && 0 <= IndexMap(d)[x] < |d| && d[IndexMap(d)[x]] == x
  {
    IndexMapInverse(d);
  }

  /** For a list without repeats the table is the inverse of indexing: it sends d[i] back to i. */
  lemma {:induction false} IndexMapPositions(d: seq<int>)
    requires Distinct(d)
    ensures forall i :: 0 <= i < |d| ==> IndexMap(d)[d[i]] == i
  {
    if d != [] {
      var init := d[..|d| - 1];
      IndexMapPositions(init);
      forall i | 0 <= i < |d|
        ensures IndexMap(d)[d[i]] == i
      {
        if i < |d| - 1 {
          assert d[i] == init[i] && d[i] != d[|d| - 1];
        }
      }
    }
  }

  /** The table sends every listed id to a position that holds it. */
  lemma {:induction false} IndexMapInverse(d: seq<int>)
    ensures forall x {:trigger IndexMap(d)[x]} :: x in d ==> 0 <= IndexMap(d)[x] < |d| && d[IndexMap(d)[x]] == x
  {
    if d != [] {
      var init := d[..|d| - 1];
      IndexMapInverse(init);
      assert d == init + [d[|d| - 1]];
    }
  }

  /** For a list without repeats the table has one entry per listed id. */
  lemma {:induction false} IndexMapSize(d: seq<int>)
    requires Distinct(d)
    ensures |IndexMap(d)| == |d|
  {
    if d != [] {
      var init := d[..|d| - 1];
      IndexMapSize(init);
      var x := d[|d| - 1];
      assert forall i :: 0 <= i < |init| ==> init[i] == d[i];
      assert x !in init;
      assert IndexMap(d).Keys == IndexMap(init).Keys + {x};
    }
  }

  /** The table vvmap[id] = ++i builds: each listed id numbered from 1 by its position. */
  function OneBased(d: seq<int>): (r: map<int, int>)
    ensures forall x :: x in r <==> x in d
  {
    if d == [] then map[] else OneBased(d[..|d| - 1])[d[|d| - 1] := |d|]
  }

  /** Numbering from 1 is numbering from 0 shifted by one. */
  lemma {:induction false} OneBasedShift(d: seq<int>)
    ensures forall x :: x in d ==> OneBased(d)[x] == IndexMap(d)[x] + 1
  {
    if d != [] {
      OneBasedShift(d[..|d| - 1]);
    }
  }

  /** For a list without repeats the numbering from 1 sends d[i] to i + 1 and stays within 1..|d|. */
  lemma OneBasedPositions(d: seq<int>)
    requires Distinct(d)
    ensures forall i :: 0 <= i < |d| ==> OneBased(d)[d[i]] == i + 1
    ensures forall x :: x in d ==> 1 <= OneBased(d)[x] <= |d|
  {
    OneBasedOf(d);
    forall x | x in d
      ensures 1 <= OneBased(d)[x] <= |d|
    {
      IndexMapAt(d, x);
      OneBasedAt(d, x);
    }
  }

  lemma OneBasedOf(d: seq<int>)
    requires Distinct(d)
    ensures forall i :: 0 <= i < |d| ==> OneBased(d)[d[i]] == i + 1
  {
    forall i | 0 <= i < |d|
      ensures OneBased(d)[d[i]] == i + 1
    {
      assert IndexMap(d)[d[i]] == i by { IndexMapPositions(d); }
      OneBasedAt(d, d[i]);
    }
  }

  /** Every listed id numbered n sits at position n - 1 of the list. */
  lemma OneBasedInverse(d: seq<int>)
    ensures forall x {:trigger OneBased(d)[x]} :: x in d ==> 1 <= OneBased(d)[x] <= |d| && d[OneBased(d)[x] - 1] == x
  {
    forall x | x in d
      ensures 1 <= OneBased(d)[x] <= |d| && d[OneBased(d)[x] - 1] == x
    {
      IndexMapAt(d, x);
      OneBasedAt(d, x);
    }
  }

  lemma OneBasedAt(d: seq<int>, x: int)
    requires x in d
    ensures x in OneBased(d) && OneBased(d)[x] == IndexMap(d)[x] + 1
  {
    OneBasedShift(d);
  }

  function Elements(s: seq<int>): set<int>
  {
    set x | x in s
  }

  /** The ids of s that are not in out, in their order: what is left of s after erasing the ids of out. */
  function Keep(s: seq<int>, out: set<int>): (r: seq<int>)
    ensures |r| <= |s|
    ensures forall x :: x in r <==> x in s && x !in out
  {
    if s == [] then []
    else
      var r := (if s[0] in out then [] else [s[0]]) + Keep(s[1..], out);
      assert forall x :: x in s <==> x == s[0] || x in s[1..];
      r
  }

  /** Erasing two sets of ids one after the other erases their union. */
  lemma {:induction false} KeepKeep(s: seq<int>, a: set<int>, b: set<int>)
    ensures Keep(Keep(s, a), b) == Keep(s, a + b)
  {
    if s != [] {
      KeepKeep(s[1..], a, b);
      if s[0] !in a {
        assert Keep(s, a) == [s[0]] + Keep(s[1..], a);
        assert Keep(s, a)[1..] == Keep(s[1..], a);
      } else {
        assert Keep(s, a) == Keep(s[1..], a);
      }
    }
  }

  /** Erasing from a list without repeats leaves a list without repeats. */
  lemma {:induction false} KeepDistinct(s: seq<int>, out: set<int>)
    requires Distinct(s)
    ensures Distinct(Keep(s, out))
  {
    if s != [] {
      KeepDistinct(s[1..], out);
      assert s[0] !in s[1..];
    }
  }

  /** Erasing nothing leaves the list as it is. */
  lemma {:induction false} KeepNothing(s: seq<int>)
    ensures Keep(s, {}) == s
  {
    if s != [] {
      KeepNothing(s[1..]);
    }
  }

  /** Erasing the ids of a prefix and then the next id erases the ids of the longer prefix. */
  lemma EraseNext(rem: seq<int>, ids: seq<int>, k: nat)
    requires k < |ids|
    ensures Keep(Keep(rem, Elements(ids[..k])), {ids[k]}) == Keep(rem, Elements(ids[..k + 1]))
  {
    KeepKeep(rem, Elements(ids[..k]), {ids[k]});
    assert ids[..k + 1] == ids[..k] + [ids[k]];
    assert Elements(ids[..k + 1]) == Elements(ids[..k]) + {ids[k]};
  }

  /** A list without repeats has as many distinct elements as entries. */
  lemma {:induction false} ElementsCount(s: seq<int>)
    requires Distinct(s)
    ensures |Elements(s)| == |s|
  {
    if s != [] {
      var t := s[..|s| - 1];
      ElementsCount(t);
      assert Elements(s) == Elements(t) + {s[|s| - 1]};
      assert s[|s| - 1] !in Elements(t);
    }
  }

  /** Erasing from a list without repeats removes one entry per erased element that it holds. */
  lemma {:induction false} KeepCount(s: seq<int>, out: set<int>)
    requires Distinct(s)
    ensures |Keep(s, out)| + |Elements(s) * out| == |s|
  {
    if s != [] {
      var t := s[1..];
      DistinctTail(s);
      KeepCount(t, out);
      var held := Elements(t) * out;
      assert s[0] !in held;
      if s[0] in out {
        assert Elements(s) * out == held + {s[0]};
      } else {
        assert Elements(s) * out == held;
      }
    }
  }

  /** The tail of a list without repeats has none, and does not hold the head. */
  lemma DistinctTail(s: seq<int>)
    requires Distinct(s) && s != []
    ensures Distinct(s[1..]) && s[0] !in s[1..]
  {
    var t := s[1..];
    forall i, j | 0 <= i < j < |t| ensures t[i] != t[j] {
      assert t[i] == s[i + 1] && t[j] == s[j + 1];
    }
    forall j | 0 <= j < |t| ensures t[j] != s[0] {
      assert t[j] == s[j + 1];
    }
  }
}
