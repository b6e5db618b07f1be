/**
 * `sorted(set(keys))` over calendar keys, and the "skip equal neighbours"
 * compression that the current-streak scans perform implicitly.
 *
 * Keys are ordered through an integer rank: days rank as themselves, ISO
 * weeks rank lexicographically (see Calendar.WeekRank). A rank that is
 * injective makes the rank order a strict total order on keys.
 */
module Sorting {

  /** The set of keys occurring in `s` (Python's `set(s)`). */
  function Elements<K>(s: seq<K>): set<K> {
    set x | x in s
  }

  ghost predicate Injective<K(!new)>(rank: K -> int) {
    forall a, b :: rank(a) == rank(b) ==> a == b
  }

  /** Strictly ascending by rank: sorted, and without repeats. */
  ghost predicate Increasing<K>(s: seq<K>, rank: K -> int) {
    forall i, j :: 0 <= i < j < |s| ==> rank(s[i]) < rank(s[j])
  }

  /** Ascending by rank, repeats allowed. */
  ghost predicate NonDecreasing<K>(s: seq<K>, rank: K -> int) {
    forall i, j :: 0 <= i < j < |s| ==> rank(s[i]) <= rank(s[j])
  }

  /** Inserts `x` into the ascending `s`, unless it is already there. */
  function Insert<K(==)>(x: K, s: seq<K>, rank: K -> int): seq<K> {
    if s == [] then [x]
    else if rank(x) < rank(s[0]) then [x] + s
    else if x == s[0] then s
    else [s[0]] + Insert(x, s[1..], rank)
  }

  /** `sorted(set(s))`: the distinct keys of `s` in ascending order. */
  function SortedSet<K(==)>(s: seq<K>, rank: K -> int): seq<K> {
    if s == [] then []
    else Insert(s[|s| - 1], SortedSet(s[..|s| - 1], rank), rank)
  }

  /** Drops every key that equals its predecessor. */
  function Compress<K(==)>(s: seq<K>): seq<K> {
    if |s| <= 1 then s
    else if s[|s| - 1] == s[|s| - 2] then Compress(s[..|s| - 1])
    else Compress(s[..|s| - 1]) + [s[|s| - 1]]
  }

  lemma ElementsCons<K>(x: K, s: seq<K>)
    ensures Elements([x] + s) == {x} + Elements(s)
  {
    assert forall y :: y in [x] + s <==> y == x || y in s;
  }

  lemma ElementsSnoc<K>(s: seq<K>, x: K)
    ensures Elements(s + [x]) == Elements(s) + {x}
  {
    assert forall y :: y in s + [x] <==> y in s || y == x;
  }

  lemma IncreasingCons<K>(x: K, s: seq<K>, rank: K -> int)
    requires Increasing(s, rank)
    requires forall y :: y in Elements(s) ==> rank(x) < rank(y)
    ensures Increasing([x] + s, rank)
  {
    var r := [x] + s;
    forall i, j | 0 <= i < j < |r| ensures rank(r[i]) < rank(r[j]) {
      assert r[j] == s[j - 1] && s[j - 1] in Elements(s);
      if i > 0 {
        assert r[i] == s[i - 1];
      }
    }
  }

  lemma IncreasingSnoc<K>(s: seq<K>, x: K, rank: K -> int)
    requires Increasing(s, rank)
    requires forall y :: y in Elements(s) ==> rank(y) < rank(x)
    ensures Increasing(s + [x], rank)
  {
    var r := s + [x];
    forall i, j | 0 <= i < j < |r| ensures rank(r[i]) < rank(r[j]) {
      assert r[i] == s[i] && s[i] in Elements(s);
      if j < |s| {
        assert r[j] == s[j];
      }
    }
  }

  lemma {:induction false} InsertSpec<K(!new)>(x: K, s: seq<K>, rank: K -> int)
    requires Injective(rank) && Increasing(s, rank)
    ensures Increasing(Insert(x, s, rank), rank)
    ensures Elements(Insert(x, s, rank)) == Elements(s) + {x}
    decreases |s|, 1
  {
    if s == [] {
      ElementsCons(x, s);
    } else if rank(x) < rank(s[0]) {
      ElementsCons(x, s);
      forall y | y in Elements(s) ensures rank(x) < rank(y) {
        var k :| 0 <= k < |s| && s[k] == y;
        assert k == 0 || rank(s[0]) < rank(s[k]);
      }
      IncreasingCons(x, s, rank);
    } else if x == s[0] {
      assert x in Elements(s);
    } else {
      InsertSpecLater(x, s, rank);
    }
  }

  lemma {:induction false} InsertSpecLater<K(!new)>(x: K, s: seq<K>, rank: K -> int)
    requires Injective(rank) && Increasing(s, rank)
    requires s != [] && rank(s[0]) <= rank(x) && x != s[0]
    ensures Increasing(Insert(x, s, rank), rank)
    ensures Elements(Insert(x, s, rank)) == Elements(s) + {x}
    decreases |s|, 0
  {
    var tail := s[1..];
    IncreasingTail(s, rank);
    InsertSpec(x, tail, rank);
    var t := Insert(x, tail, rank);
    assert Insert(x, s, rank) == [s[0]] + t;
    assert s == [s[0]] + tail;
    ElementsCons(s[0], tail);
    ElementsCons(s[0], t);
    assert rank(s[0]) < rank(x);
    assert Elements(t) == Elements(tail) + {x};
    IncreasingCons(s[0], t, rank);
  }

  /** Dropping the head keeps a sequence ascending, and the head is below the rest. */
  lemma IncreasingTail<K>(s: seq<K>, rank: K -> int)
    requires s != [] && Increasing(s, rank)
    ensures Increasing(s[1..], rank)
    ensures forall y :: y in Elements(s[1..]) ==> rank(s[0]) < rank(y)
  {
    var tail := s[1..];
    forall i, j | 0 <= i < j < |tail| ensures rank(tail[i]) < rank(tail[j]) {
      assert tail[i] == s[i + 1] && tail[j] == s[j + 1];
    }
    forall y | y in Elements(tail) ensures rank(s[0]) < rank(y) {
      var k :| 0 <= k < |tail| && tail[k] == y;
      assert s[k + 1] == y;
    }
  }

  /** What `sorted(set(s))` promises: ascending, no repeats, same keys. */
  lemma {:induction false} SortedSetSpec<K(!new)>(s: seq<K>, rank: K -> int)
    requires Injective(rank)
    ensures Increasing(SortedSet(s, rank), rank)
    ensures Elements(SortedSet(s, rank)) == Elements(s)
    ensures |SortedSet(s, rank)| == |Elements(s)|
  {
    if s != [] {
      var p := s[..|s| - 1];
      SortedSetSpec(p, rank);
      InsertSpec(s[|s| - 1], SortedSet(p, rank), rank);
      assert s == p + [s[|s| - 1]];
      ElementsSnoc(p, s[|s| - 1]);
    }
    IncreasingCardinality(SortedSet(s, rank), rank);
  }

  /** An ascending sequence without repeats has as many keys as entries. */
  lemma {:induction false} IncreasingCardinality<K>(s: seq<K>, rank: K -> int)
    requires Increasing(s, rank)
    ensures |Elements(s)| == |s|
  {
    if s != [] {
      var p := s[..|s| - 1];
      var x := s[|s| - 1];
      assert Increasing(p, rank) by {
        forall i, j | 0 <= i < j < |p| ensures rank(p[i]) < rank(p[j]) {
          assert p[i] == s[i] && p[j] == s[j];
        }
      }
      IncreasingCardinality(p, rank);
      assert s == p + [x];
      ElementsSnoc(p, x);
      forall k | 0 <= k < |p| ensures p[k] != x {
        assert rank(s[k]) < rank(s[|s| - 1]);
      }
    }
  }

  /** Two ascending, repeat-free sequences of the same keys are equal. */
  lemma {:induction false} IncreasingUnique<K>(a: seq<K>, b: seq<K>, rank: K -> int)
    requires Increasing(a, rank) && Increasing(b, rank)
    requires Elements(a) == Elements(b)
    ensures a == b
  {
    if a == [] {
      assert forall k :: 0 <= k < |b| ==> b[k] in Elements(b);
    } else {
      assert a[0] in Elements(b);
      assert b != [] && b[0] in Elements(a);
      var i :| 0 <= i < |a| && a[i] == b[0];
      var j :| 0 <= j < |b| && b[j] == a[0];
      assert rank(a[0]) <= rank(a[i]) && rank(b[0]) <= rank(b[j]);
      assert i == 0;
      assert a[0] == b[0];
      TailElements(a, b, rank);
      TailElements(b, a, rank);
      IncreasingTail(a, rank);
      IncreasingTail(b, rank);
      IncreasingUnique(a[1..], b[1..], rank);
      assert a == [a[0]] + a[1..] && b == [b[0]] + b[1..];
    }
  }

  /** Two ascending sequences with the same head: the tail of the first
      holds only keys of the tail of the second, if the first holds only keys
      of the second. */
  lemma TailElements<K>(a: seq<K>, b: seq<K>, rank: K -> int)
    requires Increasing(a, rank) && a != [] && b != [] && a[0] == b[0]
    requires Elements(a) <= Elements(b)
    ensures Elements(a[1..]) <= Elements(b[1..])
  {
    forall y | y in a[1..] ensures y in b[1..] {
      var k :| 1 <= k < |a| && a[k] == y;
      assert rank(a[0]) < rank(a[k]);
      assert y in Elements(a);
      var m :| 0 <= m < |b| && b[m] == y;
      assert y == b[1..][m - 1];
    }
  }

  /** `sorted(set(s))` depends only on which keys occur in `s`: reordering
      or repeating completions changes nothing. */
  lemma SortedSetOnlyDependsOnElements<K(!new)>(s: seq<K>, t: seq<K>, rank: K -> int)
    requires Injective(rank)
    requires Elements(s) == Elements(t)
    ensures SortedSet(s, rank) == SortedSet(t, rank)
  {
    SortedSetSpec(s, rank);
    SortedSetSpec(t, rank);
    IncreasingUnique(SortedSet(s, rank), SortedSet(t, rank), rank);
  }

  /** Keys already strictly ascending come out of `sorted(set(s))` unchanged. */
  lemma SortedSetOfIncreasing<K(!new)>(s: seq<K>, rank: K -> int)
    requires Injective(rank) && Increasing(s, rank)
    ensures SortedSet(s, rank) == s
  {
    SortedSetSpec(s, rank);
    IncreasingUnique(SortedSet(s, rank), s, rank);
  }

  /** Ascending neighbour by neighbour is ascending throughout. */
  lemma {:induction false} AscendingNeighbours<K>(s: seq<K>, rank: K -> int)
    requires forall i :: 0 < i < |s| ==> rank(s[i - 1]) < rank(s[i])
    ensures Increasing(s, rank)
  {
    if |s| > 1 {
      var p := s[..|s| - 1];
      assert forall i :: 0 < i < |p| ==> rank(p[i - 1]) < rank(p[i]) by {
        assert forall i :: 0 <= i < |p| ==> p[i] == s[i];
      }
      AscendingNeighbours(p, rank);
      forall i, j | 0 <= i < j < |s| ensures rank(s[i]) < rank(s[j]) {
        if j < |s| - 1 {
          assert p[i] == s[i] && p[j] == s[j];
        } else if i < j - 1 {
          assert p[i] == s[i] && p[j - 1] == s[j - 1];
        }
      }
    }
  }

  lemma {:induction false} CompressSpec<K>(s: seq<K>)
    ensures Elements(Compress(s)) == Elements(s)
    ensures s != [] ==> Compress(s) != [] && Compress(s)[|Compress(s)| - 1] == s[|s| - 1]
  {
    if |s| > 1 {
      var p := s[..|s| - 1];
      CompressSpec(p);
      assert s == p + [s[|s| - 1]];
      assert Elements(s) == Elements(p) + {s[|s| - 1]} by {
        assert forall y :: y in s <==> y in p || y == s[|s| - 1];
      }
      if s[|s| - 1] != s[|s| - 2] {
        var c := Compress(p);
        assert Elements(c + [s[|s| - 1]]) == Elements(c) + {s[|s| - 1]} by {
          assert forall y :: y in c + [s[|s| - 1]] <==> y in c || y == s[|s| - 1];
        }
      }
    }
  }

  /** On ascending input, dropping equal neighbours gives `sorted(set(s))`. */
  lemma {:induction false} CompressIsSortedSet<K(!new)>(s: seq<K>, rank: K -> int)
    requires Injective(rank) && NonDecreasing(s, rank)
    ensures Compress(s) == SortedSet(s, rank)
  {
    CompressIncreasing(s, rank);
    CompressSpec(s);
    SortedSetSpec(s, rank);
    IncreasingUnique(Compress(s), SortedSet(s, rank), rank);
  }

  lemma {:induction false} CompressIncreasing<K(!new)>(s: seq<K>, rank: K -> int)
    requires Injective(rank) && NonDecreasing(s, rank)
    ensures Increasing(Compress(s), rank)
  {
    if |s| > 1 {
      var p := s[..|s| - 1];
      CompressIncreasing(p, rank);
      if s[|s| - 1] != s[|s| - 2] {
        var c := Compress(p);
        CompressSpec(p);
        var x := s[|s| - 1];
        assert rank(s[|s| - 2]) < rank(x);
        forall y | y in Elements(c) ensures rank(y) < rank(x) {
          var k :| 0 <= k < |p| && p[k] == y;
          assert rank(s[k]) <= rank(s[|s| - 2]);
        }
        IncreasingSnoc(c, x, rank);
      }
    }
  }
}
