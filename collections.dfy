/** Sequence utilities the engine relies on: distinctness, the order in which
    a JavaScript `Set` keeps its elements, and the stable sort that
    `Array.prototype.sort` performs. */
module Collections {

  predicate Distinct<T(==)>(s: seq<T>) {
    forall i, j :: 0 <= i < j < |s| ==> s[i] != s[j]
  }

  /** Index of the first occurrence of `x` in `s` (JavaScript's `indexOf`). */
  function FirstIndex<T(==)>(s: seq<T>, x: T): (k: nat)
    requires x in s
    ensures k < |s| && s[k] == x
    ensures forall j :: 0 <= j < k ==> s[j] != x
  {
    if s[0] == x then 0 else 1 + FirstIndex(s[1..], x)
  }

  /** A first occurrence inside a prefix is the first occurrence in the whole. */
  lemma FirstIndexPrefix<T>(s: seq<T>, k: nat, x: T)
    requires k <= |s| && x in s[..k]
    ensures FirstIndex(s, x) == FirstIndex(s[..k], x)
  {
    var a, b := FirstIndex(s, x), FirstIndex(s[..k], x);
    assert s[b] == x;
    assert a <= b;
    assert s[..k][a] == x;
  }

  /** `[...new Set(s)]`: the distinct elements of `s`, each kept where it first
      appears. */
  function Dedup<T(==)>(s: seq<T>): (r: seq<T>)
    ensures Distinct(r)
    ensures forall i :: 0 <= i < |r| ==> r[i] in s
    ensures forall i :: 0 <= i < |s| ==> s[i] in r
    ensures |r| <= |s|
  {
    if s == [] then []
    else
      var init := s[..|s| - 1];
      var d := Dedup(init);
      assert s == init + [s[|s| - 1]];
      if s[|s| - 1] in d then d else d + [s[|s| - 1]]
  }

  /** `Dedup` lists the elements in order of their first appearance in `s`. */
  lemma {:induction false} DedupFirstAppearance<T>(s: seq<T>)
    ensures forall i, j :: 0 <= i < j < |Dedup(s)| ==>
              FirstIndex(s, Dedup(s)[i]) < FirstIndex(s, Dedup(s)[j])
  {
    if s != [] {
      var n := |s| - 1;
      var init := s[..n];
      DedupFirstAppearance(init);
      var d, r := Dedup(init), Dedup(s);
      assert s[..n] == init;
      forall i | 0 <= i < |d|
        ensures FirstIndex(s, d[i]) == FirstIndex(init, d[i])
      {
        FirstIndexPrefix(s, n, d[i]);
      }
      if s[n] !in d {
        assert r == d + [s[n]];
        assert s[n] !in init;
        assert FirstIndex(s, s[n]) == n;
      }
    }
  }

  // ---------------------------------------------------------------------------
  // Stable sorting by a descending integer key.

  predicate NonIncreasing<T>(s: seq<T>, key: T -> int) {
    forall i, j :: 0 <= i < j < |s| ==> key(s[i]) >= key(s[j])
  }

  /** Inserts `x` in front of every element whose key is not larger: the
      element that came first in the input stays in front of equal keys. */
  function Insert<T>(x: T, s: seq<T>, key: T -> int): (r: seq<T>)
    ensures |r| == |s| + 1
    ensures multiset(r) == multiset(s) + multiset{x}
  {
    if s == [] || key(s[0]) <= key(x) then [x] + s
    else
      assert s == [s[0]] + s[1..];
      [s[0]] + Insert(x, s[1..], key)
  }

  /** The comparator `(a, b) => key(b) - key(a)` under a stable sort. */
  function SortDesc<T>(s: seq<T>, key: T -> int): (r: seq<T>)
    ensures |r| == |s|
    ensures multiset(r) == multiset(s)
  {
    if s == [] then []
    else
      assert s == [s[0]] + s[1..];
      Insert(s[0], SortDesc(s[1..], key), key)
  }

  /** The elements of `s` whose key is `k`, in their order in `s`. */
  function WithKey<T>(s: seq<T>, key: T -> int, k: int): seq<T> {
    if s == [] then [] else (if key(s[0]) == k then [s[0]] else []) + WithKey(s[1..], key, k)
  }

  lemma {:induction false} InsertBounded<T>(x: T, s: seq<T>, key: T -> int, m: int)
    requires key(x) <= m && forall i :: 0 <= i < |s| ==> key(s[i]) <= m
    ensures forall i :: 0 <= i < |Insert(x, s, key)| ==> key(Insert(x, s, key)[i]) <= m
  {
    if !(s == [] || key(s[0]) <= key(x)) {
      InsertBounded(x, s[1..], key, m);
    }
  }

  lemma {:induction false} InsertSorted<T>(x: T, s: seq<T>, key: T -> int)
    requires NonIncreasing(s, key)
    ensures NonIncreasing(Insert(x, s, key), key)
  {
    if !(s == [] || key(s[0]) <= key(x)) {
      InsertSorted(x, s[1..], key);
      InsertBounded(x, s[1..], key, key(s[0]));
    }
  }

  lemma WithKeyCons<T>(y: T, t: seq<T>, key: T -> int, k: int)
    ensures WithKey([y] + t, key, k) == (if key(y) == k then [y] else []) + WithKey(t, key, k)
  {
    assert ([y] + t)[1..] == t;
  }

  lemma {:induction false} InsertWithKey<T>(x: T, s: seq<T>, key: T -> int, k: int)
    ensures WithKey(Insert(x, s, key), key, k)
         == (if key(x) == k then [x] else []) + WithKey(s, key, k)
  {
    if s == [] || key(s[0]) <= key(x) {
      assert Insert(x, s, key) == [x] + s;
      WithKeyCons(x, s, key, k);
    } else {
      var t := Insert(x, s[1..], key);
      assert Insert(x, s, key) == [s[0]] + t;
      assert s == [s[0]] + s[1..];
      WithKeyCons(s[0], t, key, k);
      WithKeyCons(s[0], s[1..], key, k);
      InsertWithKey(x, s[1..], key, k);
      var a, b := (if key(s[0]) == k then [s[0]] else []), (if key(x) == k then [x] else []);
      assert a == [] || b == [];
      assert a + (b + WithKey(s[1..], key, k)) == b + (a + WithKey(s[1..], key, k));
    }
  }

  /** The result of `SortDesc` is ordered by non-increasing key. */
  lemma {:induction false} SortDescSorted<T>(s: seq<T>, key: T -> int)
    ensures NonIncreasing(SortDesc(s, key), key)
  {
    if s != [] {
      SortDescSorted(s[1..], key);
      InsertSorted(s[0], SortDesc(s[1..], key), key);
    }
  }

  /** Stability: among elements of equal key, the input order is kept. */
  lemma {:induction false} SortDescStable<T>(s: seq<T>, key: T -> int, k: int)
    ensures WithKey(SortDesc(s, key), key, k) == WithKey(s, key, k)
  {
    if s != [] {
      SortDescStable(s[1..], key, k);
      InsertWithKey(s[0], SortDesc(s[1..], key), key, k);
    }
  }

  /** An input that is already in order is left exactly as it is. */
  lemma {:induction false} SortDescSortedInput<T>(s: seq<T>, key: T -> int)
    requires NonIncreasing(s, key)
    ensures SortDesc(s, key) == s
  {
    if s != [] {
      assert NonIncreasing(s[1..], key);
      SortDescSortedInput(s[1..], key);
      assert s == [s[0]] + s[1..];
    }
  }

  /** A permutation of a sequence without repetitions has none either. */
  lemma {:induction false} DistinctCount<T>(s: seq<T>, x: T)
    requires Distinct(s)
    ensures multiset(s)[x] <= 1
  {
    if s != [] {
      assert s == [s[0]] + s[1..];
      assert Distinct(s[1..]);
      DistinctCount(s[1..], x);
      if s[0] == x {
        assert x !in s[1..];
      }
    }
  }

  lemma PermutationDistinct<T>(a: seq<T>, b: seq<T>)
    requires Distinct(a) && multiset(a) == multiset(b)
    ensures Distinct(b)
  {
    forall i, j | 0 <= i < j < |b| ensures b[i] != b[j] {
      if b[i] == b[j] {
        var x := b[i];
        assert b == b[..j] + b[j..];
        assert x in b[..j];
        assert x in b[j..];
        assert multiset(b)[x] == multiset(b[..j])[x] + multiset(b[j..])[x];
        DistinctCount(a, x);
        assert false;
      }
    }
  }

  // ---------------------------------------------------------------------------
  // Concatenating a sequence of sequences.

  /** The elements of each sequence of `rs`, one sequence after the other. */
  function Concat<T>(rs: seq<seq<T>>): seq<T> {
    if rs == [] then [] else rs[0] + Concat(rs[1..])
  }

  /** Pushing one more block of elements onto a concatenation. */
  lemma {:induction false} ConcatSnoc<T>(rs: seq<seq<T>>, r: seq<T>)
    ensures Concat(rs + [r]) == Concat(rs) + r
  {
    if rs != [] {
      assert (rs + [r])[1..] == rs[1..] + [r];
      ConcatSnoc(rs[1..], r);
    }
  }

  lemma {:induction false} ConcatEmpty<T>(rs: seq<seq<T>>)
    ensures Concat(rs) == [] <==> forall p :: 0 <= p < |rs| ==> rs[p] == []
  {
    if rs != [] {
      ConcatEmpty(rs[1..]);
      if rs[0] == [] && Concat(rs[1..]) == [] {
        forall p | 0 <= p < |rs| ensures rs[p] == [] {
          if p > 0 { assert rs[p] == rs[1..][p - 1]; }
        }
      }
    }
  }

  lemma {:induction false} ConcatMember<T>(rs: seq<seq<T>>, x: T)
    ensures x in Concat(rs) <==> exists p :: 0 <= p < |rs| && x in rs[p]
  {
    if rs != [] {
      ConcatMember(rs[1..], x);
      if x in Concat(rs[1..]) {
        var p :| 0 <= p < |rs[1..]| && x in rs[1..][p];
        assert x in rs[p + 1];
      }
      if exists p :: 0 <= p < |rs| && x in rs[p] {
        var p :| 0 <= p < |rs| && x in rs[p];
        if p > 0 { assert x in rs[1..][p - 1]; }
      }
    }
  }

  /** Blocks whose lengths shrink by two from `2 * (|rs| - 1)` down to `0`
      concatenate to at most `|rs| * (|rs| - 1)` elements. */
  lemma {:induction false} ConcatTriangle<T>(rs: seq<seq<T>>)
    requires forall p :: 0 <= p < |rs| ==> |rs[p]| <= 2 * (|rs| - p - 1)
    ensures |Concat(rs)| <= |rs| * (|rs| - 1)
  {
    if rs != [] {
      var m := |rs|;
      forall p | 0 <= p < m - 1 ensures |rs[1..][p]| <= 2 * (m - 1 - p - 1) {
        assert rs[1..][p] == rs[p + 1];
      }
      ConcatTriangle(rs[1..]);
      assert 2 * (m - 1) + (m - 1) * (m - 2) == m * (m - 1);
    }
  }
}
