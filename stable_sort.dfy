/**
 * Python's `list.sort` and `sorted` are stable: elements that compare equal
 * keep their original relative order, also with `reverse=True`.  Every sort
 * in the core is one of these, so this module gives one reference
 * definition, a stable insertion sort by a total preorder `le`, and proves
 * what callers rely on: the result is ordered, is a permutation of the
 * input, and keeps each class of equal elements in input order.
 */
module StableSort {

  /** Any two values compare, and comparison chains. */
  ghost predicate TotalPreorder<T(!new)>(le: (T, T) -> bool) {
    && (forall a, b :: le(a, b) || le(b, a))
    && (forall a, b, c :: le(a, b) && le(b, c) ==> le(a, c))
  }

  ghost predicate Sorted<T>(s: seq<T>, le: (T, T) -> bool) {
    forall i, j :: 0 <= i < j < |s| ==> le(s[i], s[j])
  }

  /** Whether `a` and `b` compare equal under `le`. */
  predicate Equivalent<T>(a: T, b: T, le: (T, T) -> bool) {
    le(a, b) && le(b, a)
  }

  /** The elements of `s` equivalent to `z`, in their order in `s`. */
  function Equivalents<T>(s: seq<T>, z: T, le: (T, T) -> bool): seq<T> {
    if s == [] then []
    else Equivalents(s[..|s| - 1], z, le) + (if Equivalent(s[|s| - 1], z, le) then [s[|s| - 1]] else [])
  }

  /** Places `x` after the longest suffix-free run of elements not greater than it. */
  function Insert<T>(t: seq<T>, x: T, le: (T, T) -> bool): (r: seq<T>)
    ensures |r| == |t| + 1
    ensures multiset(r) == multiset(t) + multiset{x}
  {
    if t == [] || le(t[|t| - 1], x) then t + [x]
    else
      var front := t[..|t| - 1];
      assert t == front + [t[|t| - 1]];
      Insert(front, x, le) + [t[|t| - 1]]
  }

  /** Stable insertion sort: the reference meaning of a stable `sort`. */
  function Sort<T>(s: seq<T>, le: (T, T) -> bool): (r: seq<T>)
    ensures |r| == |s|
    ensures multiset(r) == multiset(s)
  {
    if s == [] then []
    else
      var front := s[..|s| - 1];
      assert s == front + [s[|s| - 1]];
      Insert(Sort(front, le), s[|s| - 1], le)
  }

  lemma {:induction false} InsertSorted<T(!new)>(t: seq<T>, x: T, le: (T, T) -> bool)
    requires TotalPreorder(le) && Sorted(t, le)
    ensures Sorted(Insert(t, x, le), le)
    decreases |t|
  {
    if t == [] {
    } else if le(t[|t| - 1], x) {
      var r := Insert(t, x, le);
      assert r == t + [x];
      forall i, j | 0 <= i < j < |r| ensures le(r[i], r[j]) {
        if j == |t| && i < |t| - 1 {
          assert le(t[i], t[|t| - 1]);
        }
      }
    } else {
      var last := t[|t| - 1];
      var front := t[..|t| - 1];
      assert le(x, last);
      InsertSorted(front, x, le);
      var m := Insert(front, x, le);
      var r := m + [last];
      assert Insert(t, x, le) == r;
      forall i | 0 <= i < |m| ensures le(m[i], last) {
        assert m[i] in multiset(m);
        if m[i] != x {
          assert m[i] in multiset(front);
          var k :| 0 <= k < |front| && front[k] == m[i];
          assert le(t[k], t[|t| - 1]);
        }
      }
      forall i, j | 0 <= i < j < |r| ensures le(r[i], r[j]) {
        if j < |m| {
          assert le(m[i], m[j]);
        }
      }
    }
  }

  lemma {:induction false} EquivalentsOfInsert<T(!new)>(t: seq<T>, x: T, z: T, le: (T, T) -> bool)
    requires TotalPreorder(le)
    ensures Equivalents(Insert(t, x, le), z, le)
         == Equivalents(t, z, le) + (if Equivalent(x, z, le) then [x] else [])
    decreases |t|
  {
    if t == [] || le(t[|t| - 1], x) {
      assert (t + [x])[..|t|] == t;
    } else {
      var last := t[|t| - 1];
      var front := t[..|t| - 1];
      EquivalentsOfInsert(front, x, z, le);
      var m := Insert(front, x, le);
      assert (m + [last])[..|m|] == m;
      // x and last cannot both be equivalent to z: that would give le(last, x)
      assert !(Equivalent(x, z, le) && Equivalent(last, z, le));
    }
  }

  /** The sort is ordered by `le`. */
  lemma {:induction false} SortSorted<T(!new)>(s: seq<T>, le: (T, T) -> bool)
    requires TotalPreorder(le)
    ensures Sorted(Sort(s, le), le)
    decreases |s|
  {
    if s != [] {
      SortSorted(s[..|s| - 1], le);
      InsertSorted(Sort(s[..|s| - 1], le), s[|s| - 1], le);
    }
  }

  /** The sort is stable: each class of equivalent elements keeps its input order. */
  lemma {:induction false} SortStable<T(!new)>(s: seq<T>, z: T, le: (T, T) -> bool)
    requires TotalPreorder(le)
    ensures Equivalents(Sort(s, le), z, le) == Equivalents(s, z, le)
    decreases |s|
  {
    if s != [] {
      SortStable(s[..|s| - 1], z, le);
      EquivalentsOfInsert(Sort(s[..|s| - 1], le), s[|s| - 1], z, le);
    }
  }

  /** A prefix of an ordered sequence is ordered. */
  lemma SortedPrefix<T>(s: seq<T>, n: nat, le: (T, T) -> bool)
    requires Sorted(s, le) && n <= |s|
    ensures Sorted(s[..n], le)
  {
  }
}
