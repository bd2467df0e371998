/** The JavaScript array methods the store and the pages rely on
    (`filter`, `findIndex`, `find`, `some`, `every`, a stable `sort`),
    as functions on sequences, with the facts about them that the rest of
    the model uses. */
module Seqs {
  import opened Records

  /** `r` is `s` with some elements left out and the rest in their order. */
  ghost predicate IsSubsequence<T>(r: seq<T>, s: seq<T>)
    decreases |s|
  {
    r == [] || (s != [] && ((r[0] == s[0] && IsSubsequence(r[1..], s[1..])) || IsSubsequence(r, s[1..])))
  }

  lemma {:induction false} SubsequenceOfItself<T>(s: seq<T>)
    ensures IsSubsequence(s, s)
    decreases |s|
  {
    if s != [] {
      SubsequenceOfItself(s[1..]);
    }
  }

  /** `s.filter(keep)` */
  function Filter<T>(s: seq<T>, keep: T -> bool): (r: seq<T>)
    ensures |r| <= |s|
    ensures forall x :: x in r ==> x in s
    ensures forall x :: x in s ==> (x in r <==> keep(x))
    ensures IsSubsequence(r, s)
    ensures forall x {:trigger multiset(r)[x]} :: x in s ==> multiset(r)[x] == if keep(x) then multiset(s)[x] else 0
  {
    if s == [] then []
    else
      assert s == [s[0]] + s[1..];
      if keep(s[0]) then [s[0]] + Filter(s[1..], keep)
      else Filter(s[1..], keep)
  }

  /** `s.findIndex(p)`, with None for the source's -1. */
  function FindIndex<T>(s: seq<T>, p: T -> bool): (r: Option<nat>)
    ensures r.Some? ==> r.value < |s| && p(s[r.value])
    ensures r.Some? ==> forall j :: 0 <= j < r.value ==> !p(s[j])
    ensures r.None? ==> forall j :: 0 <= j < |s| ==> !p(s[j])
  {
    if s == [] then None
    else if p(s[0]) then Some(0)
    else match FindIndex(s[1..], p)
      case None => None
      case Some(k) => Some(k + 1)
  }

  /** `s.find(p)`, with None for the source's `undefined`. */
  function Find<T>(s: seq<T>, p: T -> bool): (r: Option<T>)
    ensures r.Some? ==> r.value in s && p(r.value)
    ensures r.Some? ==> exists i :: 0 <= i < |s| && s[i] == r.value && forall j :: 0 <= j < i ==> !p(s[j])
    ensures r.None? <==> forall x :: x in s ==> !p(x)
  {
    match FindIndex(s, p)
    case None => None
    case Some(i) => Some(s[i])
  }

  /** `s.some(p)` */
  function Any<T>(s: seq<T>, p: T -> bool): (b: bool)
    ensures b <==> exists i :: 0 <= i < |s| && p(s[i])
  {
    if s == [] then false else p(s[0]) || Any(s[1..], p)
  }

  /** `s.every(p)`; true of the empty sequence. */
  function Every<T>(s: seq<T>, p: T -> bool): (b: bool)
    ensures b <==> forall i :: 0 <= i < |s| ==> p(s[i])
  {
    if s == [] then true else p(s[0]) && Every(s[1..], p)
  }

  /** No two elements share a key. */
  ghost predicate UniqueBy<T, K>(s: seq<T>, key: T -> K) {
    forall i, j :: 0 <= i < j < |s| ==> key(s[i]) != key(s[j])
  }

  /** The first two elements of a sequence without repeated keys differ in
      their key. */
  lemma UniqueFirstTwo<T, K>(s: seq<T>, key: T -> K)
    requires UniqueBy(s, key)
    ensures |s| >= 2 ==> s[0] in s && s[1] in s && key(s[0]) != key(s[1])
  {
  }

  lemma UniqueAfterAppend<T, K>(s: seq<T>, x: T, key: T -> K)
    requires UniqueBy(s, key)
    requires forall j :: 0 <= j < |s| ==> key(s[j]) != key(x)
    ensures UniqueBy(s + [x], key)
  {
  }

  lemma UniqueAfterUpdate<T, K>(s: seq<T>, i: nat, x: T, key: T -> K)
    requires UniqueBy(s, key) && i < |s| && key(x) == key(s[i])
    ensures UniqueBy(s[i := x], key)
  {
  }

  /** An element satisfying `p` appended after none that does is found. */
  lemma FindIndexAppend<T>(s: seq<T>, x: T, p: T -> bool)
    requires forall j :: 0 <= j < |s| ==> !p(s[j])
    requires p(x)
    ensures FindIndex(s + [x], p) == Some(|s|)
  {
    assert (s + [x])[|s|] == x;
  }

  /** Replacing the first match by another match leaves it the first. */
  lemma FindIndexUpdate<T>(s: seq<T>, i: nat, x: T, p: T -> bool)
    requires FindIndex(s, p) == Some(i) && p(x)
    ensures FindIndex(s[i := x], p) == Some(i)
  {
    var t := s[i := x];
    assert t[i] == x;
    assert forall j :: 0 <= j < i ==> t[j] == s[j];
  }

  lemma {:induction false} FilterAppend<T>(s: seq<T>, x: T, keep: T -> bool)
    ensures Filter(s + [x], keep) == Filter(s, keep) + (if keep(x) then [x] else [])
  {
    var tail := if keep(x) then [x] else [];
    if s == [] {
      assert s + [x] == [x] && [x][1..] == [];
    } else {
      FilterAppend(s[1..], x, keep);
      var t := s + [x];
      assert t[0] == s[0] && t[1..] == s[1..] + [x];
      if keep(s[0]) {
        assert ([s[0]] + Filter(s[1..], keep)) + tail == [s[0]] + (Filter(s[1..], keep) + tail);
      }
    }
  }

  /** Overwriting a dropped element by another dropped one leaves the
      filtered sequence as it was. */
  lemma {:induction false} FilterDropsAt<T>(s: seq<T>, i: nat, x: T, keep: T -> bool)
    requires i < |s| && !keep(s[i]) && !keep(x)
    ensures Filter(s[i := x], keep) == Filter(s, keep)
    decreases i
  {
    if i > 0 {
      FilterDropsAt(s[1..], i - 1, x, keep);
      assert s[i := x][1..] == s[1..][i - 1 := x];
    } else {
      assert s[i := x][1..] == s[1..];
    }
  }

  /** Keys never increase from left to right. */
  ghost predicate SortedDesc<T>(s: seq<T>, key: T -> int) {
    forall i, j :: 0 <= i < j < |s| ==> key(s[i]) >= key(s[j])
  }

  /** Puts `x` in front of the first element whose key is not larger, so
      that elements with equal keys keep their relative order. */
  function InsertDesc<T>(x: T, s: seq<T>, key: T -> int): (r: seq<T>)
    ensures |r| == |s| + 1
  {
    if s == [] then [x]
    else if key(x) >= key(s[0]) then [x] + s
    else [s[0]] + InsertDesc(x, s[1..], key)
  }

  /** `s.sort((a, b) => key(b) - key(a))`: a stable sort, largest key first. */
  function SortDesc<T>(s: seq<T>, key: T -> int): (r: seq<T>)
    ensures |r| == |s|
  {
    if s == [] then [] else InsertDesc(s[0], SortDesc(s[1..], key), key)
  }

  lemma {:induction false} InsertDescPermutes<T>(x: T, s: seq<T>, key: T -> int)
    ensures multiset(InsertDesc(x, s, key)) == multiset(s) + multiset{x}
  {
    if s != [] && key(x) < key(s[0]) {
      InsertDescPermutes(x, s[1..], key);
      assert s == [s[0]] + s[1..];
    }
  }

  /** A bound on the keys of `x` and of `s` bounds the keys after inserting. */
  lemma {:induction false} InsertDescBounded<T>(x: T, s: seq<T>, key: T -> int, bound: int)
    requires key(x) <= bound
    requires forall j :: 0 <= j < |s| ==> key(s[j]) <= bound
    ensures forall j :: 0 <= j < |InsertDesc(x, s, key)| ==> key(InsertDesc(x, s, key)[j]) <= bound
  {
    if s != [] && key(x) < key(s[0]) {
      InsertDescBounded(x, s[1..], key, bound);
      var r := InsertDesc(x, s, key);
      forall j | 0 <= j < |r|
        ensures key(r[j]) <= bound
      {
        if j > 0 {
          assert r[j] == InsertDesc(x, s[1..], key)[j - 1];
        }
      }
    }
  }

  /** An element whose key is at least the first key of a sorted sequence
      can be put in front of it. */
  lemma SortedCons<T>(x: T, s: seq<T>, key: T -> int)
    requires SortedDesc(s, key)
    requires s != [] ==> key(x) >= key(s[0])
    ensures SortedDesc([x] + s, key)
  {
    var r := [x] + s;
    forall i, j | 0 <= i < j < |r|
      ensures key(r[i]) >= key(r[j])
    {
      assert r[j] == s[j - 1];
      if i > 0 {
        assert r[i] == s[i - 1];
      } else if j > 1 {
        assert key(s[0]) >= key(s[j - 1]);
      }
    }
  }

  lemma {:induction false} InsertDescSorted<T>(x: T, s: seq<T>, key: T -> int)
    requires SortedDesc(s, key)
    ensures SortedDesc(InsertDesc(x, s, key), key)
  {
    if s == [] {
    } else if key(x) >= key(s[0]) {
      SortedCons(x, s, key);
    } else {
      assert SortedDesc(s[1..], key);
      InsertDescSorted(x, s[1..], key);
      InsertDescBounded(x, s[1..], key, key(s[0]));
      var rest := InsertDesc(x, s[1..], key);
      assert key(rest[0]) <= key(s[0]);
      SortedCons(s[0], rest, key);
    }
  }

  /** The sort orders by non-increasing key and is a permutation. */
  lemma {:induction false} SortDescCorrect<T>(s: seq<T>, key: T -> int)
    ensures SortedDesc(SortDesc(s, key), key)
    ensures multiset(SortDesc(s, key)) == multiset(s)
  {
    if s != [] {
      SortDescCorrect(s[1..], key);
      InsertDescSorted(s[0], SortDesc(s[1..], key), key);
      InsertDescPermutes(s[0], SortDesc(s[1..], key), key);
      assert s == [s[0]] + s[1..];
    }
  }

  lemma {:induction false} FilterKeepsAll<T>(s: seq<T>, keep: T -> bool)
    requires forall x :: x in s ==> keep(x)
    ensures Filter(s, keep) == s
  {
    if s != [] {
      assert s[0] in s;
      FilterKeepsAll(s[1..], keep);
      assert s == [s[0]] + s[1..];
    }
  }

  /** Two predicates that agree on the elements of `s` filter it alike. */
  lemma {:induction false} FilterCongruent<T>(s: seq<T>, p: T -> bool, q: T -> bool)
    requires forall x :: x in s ==> p(x) == q(x)
    ensures Filter(s, p) == Filter(s, q)
  {
    if s != [] {
      assert s[0] in s;
      FilterCongruent(s[1..], p, q);
    }
  }

  /** Filtering by a predicate and by its negation splits `s` in two. */
  lemma {:induction false} FilterPartition<T>(s: seq<T>, p: T -> bool, q: T -> bool)
    requires forall x :: x in s ==> q(x) == !p(x)
    ensures |Filter(s, p)| + |Filter(s, q)| == |s|
    ensures multiset(Filter(s, p)) + multiset(Filter(s, q)) == multiset(s)
  {
    if s != [] {
      assert s[0] in s;
      FilterPartition(s[1..], p, q);
      assert s == [s[0]] + s[1..];
    }
  }

  /** Filtering keeps keys unique. */
  lemma {:induction false} FilterKeepsUnique<T, K>(s: seq<T>, keep: T -> bool, key: T -> K)
    requires UniqueBy(s, key)
    ensures UniqueBy(Filter(s, keep), key)
  {
    if s != [] {
      FilterKeepsUnique(s[1..], keep, key);
      var rest := Filter(s[1..], keep);
      forall y | y in rest
        ensures key(y) != key(s[0])
      {
        var j :| 0 <= j < |s[1..]| && s[1..][j] == y;
        assert s[j + 1] == y;
      }
      if keep(s[0]) {
        var r := [s[0]] + rest;
        forall i, j | 0 <= i < j < |r|
          ensures key(r[i]) != key(r[j])
        {
          if i == 0 {
            assert r[j] == rest[j - 1];
            assert rest[j - 1] in rest;
          }
        }
      }
    }
  }
}
