/** Counting facts about lists without repeats and the sets they enumerate. */
module Collections {

  /** ids lists no id twice. */
  predicate NoRepeats(ids: seq<int>) {
    forall i, j :: 0 <= i < j < |ids| ==> ids[i] != ids[j]
  }

  /** A list without repeats has as many distinct elements as entries. */
  lemma {:induction false} DistinctCard(s: seq<int>)
    requires NoRepeats(s)
    ensures |set x | x in s| == |s|
    decreases |s|
  {
    if s != [] {
      var init := s[..|s| - 1];
      assert NoRepeats(init);
      DistinctCard(init);
      assert (set x | x in s) == (set x | x in init) + {s[|s| - 1]};
      assert s[|s| - 1] !in init;
    }
  }

  /** Distinct ids taken from a set are no more than the set holds. */
  lemma {:induction false} DistinctWithin(s: seq<int>, pool: set<int>)
    requires NoRepeats(s) && forall i :: 0 <= i < |s| ==> s[i] in pool
    ensures |s| <= |pool|
    decreases |s|
  {
    if s != [] {
      var init, last := s[..|s| - 1], s[|s| - 1];
      assert NoRepeats(init);
      forall i | 0 <= i < |init| ensures init[i] in pool - {last} {
        assert init[i] == s[i];
      }
      DistinctWithin(init, pool - {last});
    }
  }

  /** A list without repeats holds each value at most once. */
  lemma {:induction false} NoRepeatsCount(s: seq<int>, x: int)
    requires NoRepeats(s)
    ensures multiset(s)[x] <= 1
    ensures x in s ==> multiset(s)[x] == 1
    decreases |s|
  {
    if s != [] {
      var init := s[..|s| - 1];
      assert NoRepeats(init);
      NoRepeatsCount(init, x);
      assert s == init + [s[|s| - 1]];
      assert s[|s| - 1] !in init;
    }
  }

  /** A rearrangement of a list without repeats has no repeats. */
  lemma PermutationNoRepeats(s: seq<int>, u: seq<int>)
    requires multiset(s) == multiset(u) && NoRepeats(u)
    ensures NoRepeats(s)
  {
    forall i, j | 0 <= i < j < |s| ensures s[i] != s[j] {
      if s[i] == s[j] {
        var x := s[i];
        assert s == s[..j] + [s[j]] + s[j + 1..];
        assert x in s[..j];
        assert multiset(s)[x] >= 2;
        NoRepeatsCount(u, x);
      }
    }
  }
}
