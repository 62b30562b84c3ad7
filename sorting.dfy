/**
 * LINQ's OrderBy: a stable ascending sort by a key comparison. It is
 * modelled as an insertion sort that puts each element after every earlier
 * element whose key is not greater, which is what makes it stable.
 */
module Sorting {

  /** le is total and transitive: keys are compared by a total preorder. */
  ghost predicate IsTotalPreorder<T(!new)>(le: (T, T) -> bool) {
    && (forall a, b :: le(a, b) || le(b, a))
    && (forall a, b, c :: le(a, b) && le(b, c) ==> le(a, c))
  }

  predicate SortedBy<T>(s: seq<T>, le: (T, T) -> bool) {
    forall i, j :: 0 <= i < j < |s| ==> le(s[i], s[j])
  }

  /** Inserts x after the last element that is not greater than it. */
  function Insert<T>(s: seq<T>, x: T, le: (T, T) -> bool): (r: seq<T>)
    ensures |r| == |s| + 1
    ensures multiset(r) == multiset(s) + multiset{x}
  {
    if s == [] || le(s[|s| - 1], x) then s + [x]
    else
      assert s == s[..|s| - 1] + [s[|s| - 1]];
      Insert(s[..|s| - 1], x, le) + [s[|s| - 1]]
  }

  /** Enumerable.OrderBy(s, key) with keys compared by le. */
  function SortBy<T>(s: seq<T>, le: (T, T) -> bool): (r: seq<T>)
    ensures |r| == |s|
    ensures multiset(r) == multiset(s)
  {
    if s == [] then []
    else
      assert s == s[..|s| - 1] + [s[|s| - 1]];
      Insert(SortBy(s[..|s| - 1], le), s[|s| - 1], le)
  }

  lemma {:induction false} InsertKeepsSorted<T(!new)>(s: seq<T>, x: T, le: (T, T) -> bool)
    requires IsTotalPreorder(le)
    requires SortedBy(s, le)
    ensures SortedBy(Insert(s, x, le), le)
  {
    if s == [] || le(s[|s| - 1], x) {
      var r := s + [x];
      forall i, j | 0 <= i < j < |r| ensures le(r[i], r[j]) {
        if j == |s| && i < |s| - 1 {
          assert le(s[i], s[|s| - 1]);
        }
      }
    } else {
      var front, last := s[..|s| - 1], s[|s| - 1];
      assert le(x, last);
      InsertKeepsSorted(front, x, le);
      var ins := Insert(front, x, le);
      assert forall e :: e in multiset(ins) ==> e == x || e in multiset(front);
      forall i | 0 <= i < |ins| ensures le(ins[i], last) {
        assert ins[i] in multiset(ins);
        if ins[i] != x {
          assert ins[i] in multiset(front);
          var k :| 0 <= k < |front| && front[k] == ins[i];
          assert le(s[k], s[|s| - 1]);
        }
      }
    }
  }

  /** The sort's result is in ascending order. */
  lemma {:induction false} SortBySorted<T(!new)>(s: seq<T>, le: (T, T) -> bool)
    requires IsTotalPreorder(le)
    ensures SortedBy(SortBy(s, le), le)
  {
    if s != [] {
      SortBySorted(s[..|s| - 1], le);
      InsertKeepsSorted(SortBy(s[..|s| - 1], le), s[|s| - 1], le);
    }
  }

  /** a and b have equal keys: neither is greater than the other. */
  predicate SameKey<T>(a: T, b: T, le: (T, T) -> bool) {
    le(a, b) && le(b, a)
  }

  /** The elements of s whose key equals the key of x, in their order in s. */
  function KeyClass<T>(s: seq<T>, x: T, le: (T, T) -> bool): (r: seq<T>)
    ensures |r| <= |s|
    ensures forall i :: 0 <= i < |r| ==> SameKey(r[i], x, le)
  {
    if s == [] then []
    else
      var front, last := s[..|s| - 1], s[|s| - 1];
      KeyClass(front, x, le) + (if SameKey(last, x, le) then [last] else [])
  }

  lemma {:induction false} KeyClassAppend<T>(s: seq<T>, t: seq<T>, x: T, le: (T, T) -> bool)
    ensures KeyClass(s + t, x, le) == KeyClass(s, x, le) + KeyClass(t, x, le)
    decreases |t|
  {
    if t == [] {
      assert s + t == s;
    } else {
      var front, last := t[..|t| - 1], t[|t| - 1];
      assert (s + t)[..|s + t| - 1] == s + front;
      assert (s + t)[|s + t| - 1] == last;
      KeyClassAppend(s, front, x, le);
    }
  }

  /** Inserting y adds y at the end of its own key class and leaves every other class alone. */
  lemma {:induction false} InsertKeyClass<T(!new)>(s: seq<T>, y: T, x: T, le: (T, T) -> bool)
    requires IsTotalPreorder(le)
    ensures KeyClass(Insert(s, y, le), x, le) == KeyClass(s, x, le) + KeyClass([y], x, le)
    decreases |s|
  {
    if s == [] || le(s[|s| - 1], y) {
      KeyClassAppend(s, [y], x, le);
    } else {
      var front, last := s[..|s| - 1], s[|s| - 1];
      InsertKeyClass(front, y, x, le);
      KeyClassAppend(Insert(front, y, le), [last], x, le);
      KeyClassAppend(front, [last], x, le);
      assert s == front + [last];
      assert KeyClass([], x, le) == [];
      assert [y][..0] == [] && [last][..0] == [];
      if SameKey(y, x, le) {
        assert !SameKey(last, x, le);
      }
    }
  }

  /**
   * The sort is stable: the elements of any one key class come out in the
   * order they went in.
   */
  lemma {:induction false} SortByStable<T(!new)>(s: seq<T>, x: T, le: (T, T) -> bool)
    requires IsTotalPreorder(le)
    ensures KeyClass(SortBy(s, le), x, le) == KeyClass(s, x, le)
  {
    if s != [] {
      var front, last := s[..|s| - 1], s[|s| - 1];
      SortByStable(front, x, le);
      InsertKeyClass(SortBy(front, le), last, x, le);
      KeyClassAppend(front, [last], x, le);
      assert s == front + [last];
    }
  }

  /** An element of a sorted prefix is never greater than an element of the matching suffix. */
  lemma PrefixBeforeSuffix<T(!new)>(s: seq<T>, le: (T, T) -> bool, k: nat, m: nat)
    requires SortedBy(s, le) && k <= m <= |s|
    ensures forall a, b :: a in s[..k] && b in s[m..] ==> le(a, b)
  {
    forall a, b | a in s[..k] && b in s[m..] ensures le(a, b) {
      var i :| 0 <= i < k && s[..k][i] == a;
      var j :| 0 <= j < |s| - m && s[m..][j] == b;
      assert s[i] == a && s[m + j] == b;
    }
  }
}
