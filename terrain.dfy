/**
 * The flag logic of `GenerateTerrain`: every province's flags are reset,
 * sea grows from a random province across the neighbour graph, sea
 * provinces surrounded by sea become deep, forests are placed by
 * rejection sampling, and the quarter of smallest and the quarter of
 * largest provinces are marked Small and Large. The terrain table is a
 * dictionary whose indexer throws on a missing key; that is the error
 * `MissingKey`.
 */
module Terrain {
  import opened Wrappers
  import opened TerrainFeatures
  import opened Random
  import opened Sorting
  import opened Collections
  import Adjacency

  /** `Map.TerrainTypes`: province id to its flags. */
  type TerrainTable = map<int, Flags>

  datatype TerrainError =
    | MissingKey        // a dictionary indexer was given an absent key
    | IndexOutOfRange   // a list index or ElementAt past the end
    | OutOfDraws        // the run needs more random draws than given: the loop may not end

  predicate IsSea(t: TerrainTable, id: int) {
    id in t && HasFlag(t[id], Sea)
  }

  /**
   * `Map.TerrainTypes[p] = 0` for every p in 1..count: those provinces lose
   * all their flags, other entries stay.
   */
  method ResetTerrain(t: TerrainTable, count: nat) returns (r: TerrainTable)
    ensures forall k :: k in r <==> k in t || 1 <= k <= count
    ensures forall p :: 1 <= p <= count ==> r[p] == 0
    ensures forall k :: k in t && !(1 <= k <= count) ==> r[k] == t[k]
  {
    r := t;
    for i := 0 to count
      invariant forall k :: k in r <==> k in t || 1 <= k <= i
      invariant forall p :: 1 <= p <= i ==> r[p] == 0
      invariant forall k :: k in t && !(1 <= k <= i) ==> r[k] == t[k]
    {
      r := r[i + 1 := 0];
    }
  }

  /** Every id is a key of the terrain table. */
  predicate AllKnown(t: TerrainTable, ids: seq<int>) {
    forall i :: 0 <= i < |ids| ==> ids[i] in t
  }

  /** How many of ids are sea. */
  function SeaCount(t: TerrainTable, ids: seq<int>): (n: nat)
    ensures n <= |ids|
    decreases |ids|
  {
    if ids == [] then 0
    else SeaCount(t, ids[..|ids| - 1]) + (if IsSea(t, ids[|ids| - 1]) then 1 else 0)
  }

  function Repeat(x: int, n: nat): (r: seq<int>)
    ensures |r| == n && forall i :: 0 <= i < n ==> r[i] == x
  {
    if n == 0 then [] else Repeat(x, n - 1) + [x]
  }

  /** The weight of a candidate: once for itself and once more for each of its sea neighbours. */
  function Weight(t: TerrainTable, nb: Adjacency.Neighbours, id: int): nat
    requires id in nb
  {
    1 + SeaCount(t, nb[id])
  }

  /**
   * `potentialPoints` built over the neighbour ids `ids` of the current
   * province: each non-sea id, repeated by its weight. Reading the flags of
   * an absent id, or the neighbours of a non-sea id without any, fails.
   */
  function CandidatesOf(t: TerrainTable, nb: Adjacency.Neighbours, ids: seq<int>): Result<seq<int>, TerrainError>
    decreases |ids|
  {
    if ids == [] then Success([])
    else
      var prev := CandidatesOf(t, nb, ids[..|ids| - 1]);
      var id := ids[|ids| - 1];
      if prev.Failure? then prev
      else if id !in t then Failure(MissingKey)
      else if HasFlag(t[id], Sea) then prev
      else if id !in nb || !AllKnown(t, nb[id]) then Failure(MissingKey)
      else Success(prev.value + Repeat(id, Weight(t, nb, id)))
  }

  /** The candidates are exactly the non-sea ids, all of them keys of the table. */
  lemma {:induction false} CandidatesMembers(t: TerrainTable, nb: Adjacency.Neighbours, ids: seq<int>, x: int)
    requires CandidatesOf(t, nb, ids).Success?
    ensures x in CandidatesOf(t, nb, ids).value <==> x in ids && !IsSea(t, x) && x in t
    decreases |ids|
  {
    if ids != [] {
      var init := ids[..|ids| - 1];
      var id := ids[|ids| - 1];
      CandidatesMembers(t, nb, init, x);
      assert ids == init + [id];
      if id in t && !IsSea(t, id) {
        var rep := Repeat(id, Weight(t, nb, id));
        assert x in rep <==> x == id;
      }
    }
  }

  /** With distinct neighbour ids, each candidate occurs as often as its weight. */
  lemma {:induction false} CandidatesWeights(t: TerrainTable, nb: Adjacency.Neighbours, ids: seq<int>, x: int)
    requires NoRepeats(ids)
    requires CandidatesOf(t, nb, ids).Success?
    ensures x in ids && !IsSea(t, x) ==> x in nb && multiset(CandidatesOf(t, nb, ids).value)[x] == Weight(t, nb, x)
    ensures !(x in ids && !IsSea(t, x)) ==> multiset(CandidatesOf(t, nb, ids).value)[x] == 0
    decreases |ids|
  {
    if ids != [] {
      var init := ids[..|ids| - 1];
      var id := ids[|ids| - 1];
      assert NoRepeats(init);
      CandidatesWeights(t, nb, init, x);
      assert ids == init + [id];
      if !IsSea(t, id) {
        RepeatCount(id, Weight(t, nb, id), x);
        assert id !in init;
      }
    }
  }

  lemma {:induction false} RepeatCount(id: int, n: nat, x: int)
    ensures multiset(Repeat(id, n))[x] == if x == id then n else 0
  {
    if n > 0 {
      RepeatCount(id, n - 1, x);
    }
  }

  /**
   * The nested foreach over the neighbours of `index`: the weighted list of
   * non-sea neighbours to draw the next sea province from.
   */
  method Candidates(t: TerrainTable, nb: Adjacency.Neighbours, index: int) returns (r: Result<seq<int>, TerrainError>)
    ensures index !in nb ==> r == Failure(MissingKey)
    ensures index in nb ==> r == CandidatesOf(t, nb, nb[index])
  {
    if index !in nb {
      return Failure(MissingKey);
    }
    var neighbourIds := nb[index];
    var potentialPoints := [];
    for i := 0 to |neighbourIds|
      invariant CandidatesOf(t, nb, neighbourIds[..i]) == Success(potentialPoints)
    {
      var neighbourId := neighbourIds[i];
      assert neighbourIds[..i + 1][..i] == neighbourIds[..i];
      if neighbourId !in t {
        FailureStays(t, nb, neighbourIds, i + 1);
        return Failure(MissingKey);
      }
      if !HasFlag(t[neighbourId], Sea) {
        if neighbourId !in nb {
          FailureStays(t, nb, neighbourIds, i + 1);
          return Failure(MissingKey);
        }
        var moreIds := nb[neighbourId];
        var before := potentialPoints;
        potentialPoints := potentialPoints + [neighbourId];
        for j := 0 to |moreIds|
          invariant AllKnown(t, moreIds[..j])
          invariant potentialPoints == before + Repeat(neighbourId, 1 + SeaCount(t, moreIds[..j]))
        {
          if moreIds[j] !in t {
            assert !AllKnown(t, moreIds);
            FailureStays(t, nb, neighbourIds, i + 1);
            return Failure(MissingKey);
          }
          assert moreIds[..j + 1][..j] == moreIds[..j];
          if HasFlag(t[moreIds[j]], Sea) {
            potentialPoints := potentialPoints + [neighbourId];
          }
        }
        assert moreIds[..|moreIds|] == moreIds;
      }
    }
    assert neighbourIds[..|neighbourIds|] == neighbourIds;
    r := Success(potentialPoints);
  }

  /** Once the candidate list of a prefix fails, so does that of the whole list. */
  lemma {:induction false} FailureStays(t: TerrainTable, nb: Adjacency.Neighbours, ids: seq<int>, k: nat)
    requires k <= |ids| && CandidatesOf(t, nb, ids[..k]).Failure?
    ensures CandidatesOf(t, nb, ids) == Failure(MissingKey)
    decreases |ids| - k
  {
    if k < |ids| {
      assert ids[..k + 1][..k] == ids[..k];
      FailureStays(t, nb, ids, k + 1);
    } else {
      assert ids[..k] == ids;
      FailureIsMissingKey(t, nb, ids);
    }
  }

  lemma {:induction false} FailureIsMissingKey(t: TerrainTable, nb: Adjacency.Neighbours, ids: seq<int>)
    ensures CandidatesOf(t, nb, ids).Failure? ==> CandidatesOf(t, nb, ids) == Failure(MissingKey)
    decreases |ids|
  {
    if ids != [] {
      FailureIsMissingKey(t, nb, ids[..|ids| - 1]);
    }
  }

  /** The state of the sea-growth loop: table, current province, added sea provinces, counter and draws used. */
  datatype SeaState = SeaState(terrain: TerrainTable, index: int, seaPoints: seq<int>, c: nat, used: nat)

  /**
   * The jump of a large map (more than 75 provinces): with probability
   * 75 / count the current province moves to a random neighbour of a random
   * neighbour. Gives the new current province and the draws used so far.
   */
  function Jump(nb: Adjacency.Neighbours, count: nat, draws: seq<Draw>, index: int, used: nat): (r: Result<(int, nat), TerrainError>)
    requires used <= |draws|
    ensures r.Success? ==> used <= r.value.1 <= |draws|
    ensures count <= 75 ==> r == Success((index, used))
    ensures count > 75 && used < |draws| && !(draws[used] < 75.0 / count as real) ==> r == Success((index, used + 1))
    ensures count > 75 && used < |draws| && draws[used] < 75.0 / count as real && r.Success? ==>
      r.value.1 == used + 3 && index in nb && exists via :: via in nb[index] && via in nb && r.value.0 in nb[via]
  {
    if count <= 75 then Success((index, used))
    else if used >= |draws| then Failure(OutOfDraws)
    else if !(draws[used] < 75.0 / count as real) then Success((index, used + 1))
    else if index !in nb then Failure(MissingKey)
    else if used + 1 >= |draws| then Failure(OutOfDraws)
    else
      var k := Next(draws[used + 1], |nb[index]|);
      if k >= |nb[index]| then Failure(IndexOutOfRange)
      else
        var via := nb[index][k];
        if via !in nb then Failure(MissingKey)
        else if used + 2 >= |draws| then Failure(OutOfDraws)
        else
          var k2 := Next(draws[used + 2], |nb[via]|);
          if k2 >= |nb[via]| then Failure(IndexOutOfRange)
          else Success((nb[via][k2], used + 3))
  }

  /**
   * One pass of the sea-growth loop: after the jump, a weighted non-sea
   * neighbour of the current province becomes sea and the current
   * province; with no candidate, the current province becomes a random
   * province of `seaPoints`, which fails when that list is empty.
   */
  function SeaStep(st: SeaState, nb: Adjacency.Neighbours, count: nat, draws: seq<Draw>): (r: Result<SeaState, TerrainError>)
    requires st.used <= |draws|
    ensures r.Success? ==> st.used < r.value.used <= |draws|
  {
    match Jump(nb, count, draws, st.index, st.used)
    case Failure(e) => Failure(e)
    case Success(j) =>
      var index := j.0;
      var used := j.1;
      if index !in nb then Failure(MissingKey)
      else
        match CandidatesOf(st.terrain, nb, nb[index])
        case Failure(e) => Failure(e)
        case Success(pts) =>
          if used >= |draws| then Failure(OutOfDraws)
          else if |pts| > 0 then
            var id := pts[Next(draws[used], |pts|)];
            if id !in st.terrain then Failure(MissingKey)
            else Success(SeaState(st.terrain[id := With(st.terrain[id], Sea)], id, st.seaPoints + [id], st.c + 1, used + 1))
          else
            var k := Next(draws[used], |st.seaPoints|);
            if k >= |st.seaPoints| then Failure(IndexOutOfRange)
            else Success(st.(index := st.seaPoints[k], used := used + 1))
  }

  /** The loop `while (c < seaProvinceCount)`, run from st until it ends, fails or runs out of draws. */
  function SeaLoop(st: SeaState, nb: Adjacency.Neighbours, count: nat, target: int, draws: seq<Draw>): Result<SeaState, TerrainError>
    requires st.used <= |draws|
    decreases |draws| - st.used
  {
    if st.c >= target then Success(st)
    else
      match SeaStep(st, nb, count, draws)
      case Failure(e) => Failure(e)
      case Success(st2) => SeaLoop(st2, nb, count, target, draws)
  }

  /** What sea growth leaves: the table, the first sea province, the provinces added after it, and the draws used. */
  datatype SeaGrowth = SeaGrowth(terrain: TerrainTable, first: int, seaPoints: seq<int>, used: nat)

  /** The first province `Random.Next(count) + 1` turned to sea, then the loop run for `seaSetting - 1` more. */
  function GrowSeaSpec(t0: TerrainTable, nb: Adjacency.Neighbours, count: nat, seaSetting: int, draws: seq<Draw>): Result<SeaGrowth, TerrainError> {
    if |draws| == 0 then Failure(OutOfDraws)
    else
      var first := Next(draws[0], count) + 1;
      if first !in t0 then Failure(MissingKey)
      else
        match SeaLoop(SeaState(t0[first := With(t0[first], Sea)], first, [], 0, 1), nb, count, seaSetting - 1, draws)
        case Failure(e) => Failure(e)
        case Success(st) => Success(SeaGrowth(st.terrain, first, st.seaPoints, st.used))
  }

  /**
   * What the loop keeps: the table is t0 with Sea added to the first
   * province and to the added ones, exactly; the added provinces are
   * distinct, were not sea in t0, never include the first, and there are c
   * of them.
   */
  predicate SeaInv(t0: TerrainTable, first: int, st: SeaState, draws: seq<Draw>) {
    && st.terrain.Keys == t0.Keys
    && first in t0
    && (forall k :: k in st.terrain ==> st.terrain[k] == if k == first || k in st.seaPoints then With(t0[k], Sea) else t0[k])
    && NoRepeats(st.seaPoints)
    && (forall i :: 0 <= i < |st.seaPoints| ==> st.seaPoints[i] != first && st.seaPoints[i] in t0 && !IsSea(t0, st.seaPoints[i]))
    && |st.seaPoints| == st.c
    && st.used <= |draws|
  }

  /** A province given Sea is sea. */
  lemma WithSeaIsSea(v: Flags)
    ensures HasFlag(With(v, Sea), Sea)
  {
    WithSets(v, Sea);
  }

  /**
   * One pass keeps the invariant, and either turns exactly one former
   * non-sea neighbour of the province reached by the jump into sea and makes
   * it the current province, or changes nothing but the current province.
   */
  lemma SeaStepKeepsInv(t0: TerrainTable, first: int, st: SeaState, nb: Adjacency.Neighbours, count: nat, draws: seq<Draw>)
    requires SeaInv(t0, first, st, draws)
    requires SeaStep(st, nb, count, draws).Success?
    ensures SeaInv(t0, first, SeaStep(st, nb, count, draws).value, draws)
    ensures var st2 := SeaStep(st, nb, count, draws).value;
      || (st2.c == st.c + 1 && |st2.seaPoints| == |st.seaPoints| + 1 && st2.seaPoints[..|st.seaPoints|] == st.seaPoints
          && !IsSea(st.terrain, st2.seaPoints[|st.seaPoints|])
          && Jump(nb, count, draws, st.index, st.used).Success?
          && var j := Jump(nb, count, draws, st.index, st.used).value.0;
            j in nb && st2.seaPoints[|st.seaPoints|] in nb[j] && st2.index == st2.seaPoints[|st.seaPoints|])
      || (st2.c == st.c && st2.seaPoints == st.seaPoints && st2.terrain == st.terrain)
  {
    var j := Jump(nb, count, draws, st.index, st.used).value;
    var pts := CandidatesOf(st.terrain, nb, nb[j.0]).value;
    if |pts| > 0 {
      var id := pts[Next(draws[j.1], |pts|)];
      CandidatesMembers(st.terrain, nb, nb[j.0], id);
      WithSeaIsSea(t0[first]);
      assert id != first;
      forall i | 0 <= i < |st.seaPoints| ensures st.seaPoints[i] != id {
        WithSeaIsSea(t0[st.seaPoints[i]]);
      }
      var st2 := SeaStep(st, nb, count, draws).value;
      assert st2.seaPoints == st.seaPoints + [id];
      assert !IsSea(t0, id);
    }
  }

  /** The loop keeps the invariant and ends with the counter at the target. */
  lemma {:induction false} SeaLoopKeepsInv(t0: TerrainTable, first: int, st: SeaState, nb: Adjacency.Neighbours, count: nat, target: int, draws: seq<Draw>)
    requires SeaInv(t0, first, st, draws)
    requires SeaLoop(st, nb, count, target, draws).Success?
    ensures SeaInv(t0, first, SeaLoop(st, nb, count, target, draws).value, draws)
    ensures SeaLoop(st, nb, count, target, draws).value.c == if st.c >= target then st.c else target
    decreases |draws| - st.used
  {
    if st.c < target {
      var st2 := SeaStep(st, nb, count, draws).value;
      SeaStepKeepsInv(t0, first, st, nb, count, draws);
      SeaLoopKeepsInv(t0, first, st2, nb, count, target, draws);
    }
  }

  /** Sea growth turns the first province and `seaSetting - 1` distinct former non-sea provinces, never the first, into sea, and nothing else. */
  lemma GrowSeaProperties(t0: TerrainTable, nb: Adjacency.Neighbours, count: nat, seaSetting: int, draws: seq<Draw>)
    requires GrowSeaSpec(t0, nb, count, seaSetting, draws).Success?
    ensures var g := GrowSeaSpec(t0, nb, count, seaSetting, draws).value;
      && g.first == Next(draws[0], count) + 1
      && g.used <= |draws|
      && |g.seaPoints| == (if seaSetting >= 1 then seaSetting - 1 else 0)
      && SeaInv(t0, g.first, SeaState(g.terrain, g.first, g.seaPoints, |g.seaPoints|, g.used), draws)
  {
    var first := Next(draws[0], count) + 1;
    var st := SeaState(t0[first := With(t0[first], Sea)], first, [], 0, 1);
    SeaLoopKeepsInv(t0, first, st, nb, count, seaSetting - 1, draws);
  }

  /** The ids whose flags include Sea. */
  function SeaSet(t: TerrainTable): set<int> {
    set k | k in t && HasFlag(t[k], Sea)
  }

  /**
   * Starting from a table with no sea, exactly max(1, seaSetting)
   * provinces are sea afterwards: the first one and the added ones.
   */
  lemma SeaProvinceCount(t0: TerrainTable, nb: Adjacency.Neighbours, count: nat, seaSetting: int, draws: seq<Draw>)
    requires SeaSet(t0) == {}
    requires GrowSeaSpec(t0, nb, count, seaSetting, draws).Success?
    ensures var g := GrowSeaSpec(t0, nb, count, seaSetting, draws).value;
      && SeaSet(g.terrain) == {g.first} + (set x | x in g.seaPoints)
      && |SeaSet(g.terrain)| == if seaSetting >= 1 then seaSetting else 1
  {
    GrowSeaProperties(t0, nb, count, seaSetting, draws);
    var g := GrowSeaSpec(t0, nb, count, seaSetting, draws).value;
    var added := set x | x in g.seaPoints;
    forall k | k in g.terrain
      ensures HasFlag(g.terrain[k], Sea) <==> k == g.first || k in added
    {
      if k == g.first || k in g.seaPoints {
        WithSeaIsSea(t0[k]);
      } else {
        assert k !in SeaSet(t0);
      }
    }
    assert SeaSet(g.terrain) == {g.first} + added;
    DistinctCard(g.seaPoints);
    assert g.first !in added;
  }

  /**
   * The fallback `seaPoints[Random.Next(seaPoints.Count)]` on an empty list:
   * on a small map, when the first province has no candidate, the first pass
   * fails.
   */
  lemma EmptyFallbackFails(st: SeaState, nb: Adjacency.Neighbours, count: nat, draws: seq<Draw>)
    requires count <= 75 && st.seaPoints == [] && st.used < |draws|
    requires st.index in nb && CandidatesOf(st.terrain, nb, nb[st.index]) == Success([])
    ensures SeaStep(st, nb, count, draws) == Failure(IndexOutOfRange)
  {
  }

  /**
   * The sea growth of `GenerateTerrain`, run on a table whose provinces 1 to
   * count have just been reset: it returns the table, the first sea province,
   * the list `seaPoints` and how many draws it used.
   */
  method GrowSea(t0: TerrainTable, nb: Adjacency.Neighbours, count: nat, seaSetting: int, draws: seq<Draw>)
    returns (r: Result<SeaGrowth, TerrainError>)
    ensures r == GrowSeaSpec(t0, nb, count, seaSetting, draws)
    ensures r.Success? ==>
      && |r.value.seaPoints| == (if seaSetting >= 1 then seaSetting - 1 else 0)
      && SeaInv(t0, r.value.first, SeaState(r.value.terrain, r.value.first, r.value.seaPoints, |r.value.seaPoints|, r.value.used), draws)
  {
    var seaProvinceCount := seaSetting - 1;
    var c := 0;
    if |draws| == 0 {
      return Failure(OutOfDraws);
    }
    var index := Next(draws[0], count) + 1;
    if index !in t0 {
      return Failure(MissingKey);
    }
    var t := t0[index := With(t0[index], Sea)];
    ghost var start := SeaState(t, index, [], 0, 1);
    var first := index;
    var seaPoints := [];
    var used := 1;
    while c < seaProvinceCount
      invariant used <= |draws| && c == |seaPoints|
      invariant SeaLoop(SeaState(t, index, seaPoints, c, used), nb, count, seaProvinceCount, draws) ==
        SeaLoop(start, nb, count, seaProvinceCount, draws)
      decreases |draws| - used
    {
      ghost var st := SeaState(t, index, seaPoints, c, used);
      if count > 75 {
        if used >= |draws| {
          return Failure(OutOfDraws);
        }
        var u := draws[used];
        used := used + 1;
        if u < 75.0 / count as real {
          if index !in nb {
            return Failure(MissingKey);
          }
          var n := nb[index];
          if used >= |draws| {
            return Failure(OutOfDraws);
          }
          var k := Next(draws[used], |n|);
          used := used + 1;
          if k >= |n| {
            return Failure(IndexOutOfRange);
          }
          index := n[k];
          if index !in nb {
            return Failure(MissingKey);
          }
          n := nb[index];
          if used >= |draws| {
            return Failure(OutOfDraws);
          }
          k := Next(draws[used], |n|);
          used := used + 1;
          if k >= |n| {
            return Failure(IndexOutOfRange);
          }
          index := n[k];
        }
      }
      assert Jump(nb, count, draws, st.index, st.used) == Success((index, used));
      var potentialPoints := Candidates(t, nb, index);
      if potentialPoints.Failure? {
        return Failure(potentialPoints.error);
      }
      var points := potentialPoints.value;
      if used >= |draws| {
        return Failure(OutOfDraws);
      }
      if |points| > 0 {
        var next := points[Next(draws[used], |points|)];
        used := used + 1;
        if next !in t {
          return Failure(MissingKey);
        }
        t := t[next := With(t[next], Sea)];
        seaPoints := seaPoints + [next];
        index := next;
        c := c + 1;
      } else {
        var k := Next(draws[used], |seaPoints|);
        used := used + 1;
        if k >= |seaPoints| {
          return Failure(IndexOutOfRange);
        }
        index := seaPoints[k];
      }
      assert SeaStep(st, nb, count, draws) == Success(SeaState(t, index, seaPoints, c, used));
    }
    r := Success(SeaGrowth(t, first, seaPoints, used));
    GrowSeaProperties(t0, nb, count, seaSetting, draws);
  }

  /**
   * `ids.All(id => TerrainTypes[id].HasFlag(Sea))`: stops at the first
   * non-sea id; reading an absent id before that fails.
   */
  function AllSea(t: TerrainTable, ids: seq<int>): (r: Result<bool, TerrainError>)
    ensures r == Success(true) <==> forall i :: 0 <= i < |ids| ==> IsSea(t, ids[i])
    decreases |ids|
  {
    if ids == [] then Success(true)
    else if ids[0] !in t then Failure(MissingKey)
    else if !HasFlag(t[ids[0]], Sea) then Success(false)
    else AllSea(t, ids[1..])
  }

  /** Two tables with the same keys and the same Sea flags give the same answer. */
  lemma {:induction false} AllSeaSameSea(t: TerrainTable, u: TerrainTable, ids: seq<int>)
    requires t.Keys == u.Keys
    requires forall k :: k in t ==> HasFlag(t[k], Sea) == HasFlag(u[k], Sea)
    ensures AllSea(t, ids) == AllSea(u, ids)
    decreases |ids|
  {
    if ids != [] {
      AllSeaSameSea(t, u, ids[1..]);
    }
  }

  /** Sea province id is surrounded by sea and gets Deep. */
  predicate GetsDeep(t: TerrainTable, nb: Adjacency.Neighbours, id: int) {
    id in nb && AllSea(t, nb[id]) == Success(true) && id in t
  }

  /** Handling sea province id throws: it has no neighbour entry, a neighbour's flags are missing, or its own are. */
  predicate DeepFails(t: TerrainTable, nb: Adjacency.Neighbours, id: int) {
    id !in nb || AllSea(t, nb[id]).Failure? || (AllSea(t, nb[id]) == Success(true) && id !in t)
  }

  /** The table after the deep-sea pass over the sea points s: Deep OR-ed onto each one surrounded by sea. */
  function DeepResult(t: TerrainTable, nb: Adjacency.Neighbours, s: seq<int>): (r: TerrainTable)
    ensures r.Keys == t.Keys
    decreases |s|
  {
    if s == [] then t
    else
      var m := DeepResult(t, nb, s[..|s| - 1]);
      var x := s[|s| - 1];
      if GetsDeep(t, nb, x) then m[x := With(m[x], Deep)] else m
  }

  /** Each province ends with Deep added exactly when it is one of the sea points and surrounded by sea. */
  lemma {:induction false} DeepResultMeaning(t: TerrainTable, nb: Adjacency.Neighbours, s: seq<int>, k: int)
    requires k in t
    ensures DeepResult(t, nb, s)[k] == if k in s && GetsDeep(t, nb, k) then With(t[k], Deep) else t[k]
    decreases |s|
  {
    if s != [] {
      var init := s[..|s| - 1];
      DeepResultMeaning(t, nb, init, k);
      assert s == init + [s[|s| - 1]];
    }
  }

  /**
   * `foreach (var seaPoint in seaPoints)`: each sea point whose neighbours
   * are all sea gets Deep. Adding Deep changes no Sea flag, so every test
   * reads the Sea flags the pass started with.
   */
  method MarkDeep(t: TerrainTable, nb: Adjacency.Neighbours, seaPoints: seq<int>) returns (r: Result<TerrainTable, TerrainError>)
    ensures r.Failure? <==> exists i :: 0 <= i < |seaPoints| && DeepFails(t, nb, seaPoints[i])
    ensures r.Success? ==> r.value == DeepResult(t, nb, seaPoints)
  {
    var cur := t;
    for i := 0 to |seaPoints|
      invariant cur == DeepResult(t, nb, seaPoints[..i])
      invariant forall j :: 0 <= j < i ==> !DeepFails(t, nb, seaPoints[j])
    {
      var seaPoint := seaPoints[i];
      assert seaPoints[..i + 1][..i] == seaPoints[..i];
      if seaPoint !in nb {
        return Failure(MissingKey);
      }
      DeepKeepsSea(t, nb, seaPoints[..i]);
      AllSeaSameSea(t, cur, nb[seaPoint]);
      var all := AllSea(cur, nb[seaPoint]);
      if all.Failure? {
        return Failure(all.error);
      }
      if all.value {
        if seaPoint !in cur {
          return Failure(MissingKey);
        }
        cur := cur[seaPoint := With(cur[seaPoint], Deep)];
      }
    }
    assert seaPoints[..|seaPoints|] == seaPoints;
    r := Success(cur);
  }

  /** The pass keeps every Sea flag. */
  lemma DeepKeepsSea(t: TerrainTable, nb: Adjacency.Neighbours, seaPoints: seq<int>)
    ensures forall k :: k in t ==> HasFlag(t[k], Sea) == HasFlag(DeepResult(t, nb, seaPoints)[k], Sea)
  {
    forall k | k in t ensures HasFlag(t[k], Sea) == HasFlag(DeepResult(t, nb, seaPoints)[k], Sea) {
      DeepResultMeaning(t, nb, seaPoints, k);
      WithKeepsOthers(t[k], Deep, Sea);
    }
  }

  /**
   * After the pass, a province that had no Deep flag has one exactly when it
   * is a sea point surrounded by sea; then it is sea and all its neighbours
   * are sea. In particular a province outside `seaPoints`, such as the
   * first sea province, never gets Deep.
   */
  lemma DeepIsSurroundedSea(t: TerrainTable, nb: Adjacency.Neighbours, seaPoints: seq<int>, k: int)
    requires forall i :: 0 <= i < |seaPoints| ==> IsSea(t, seaPoints[i])
    requires k in t && !HasFlag(t[k], Deep)
    ensures var d := DeepResult(t, nb, seaPoints);
      && (HasFlag(d[k], Deep) <==> k in seaPoints && GetsDeep(t, nb, k))
      && (HasFlag(d[k], Deep) ==> IsSea(d, k) && k in nb && forall j :: 0 <= j < |nb[k]| ==> IsSea(d, nb[k][j]))
  {
    var d := DeepResult(t, nb, seaPoints);
    DeepKeepsSea(t, nb, seaPoints);
    DeepResultMeaning(t, nb, seaPoints, k);
    if k in seaPoints && GetsDeep(t, nb, k) {
      WithSets(t[k], Deep);
      forall j | 0 <= j < |nb[k]| ensures IsSea(d, nb[k][j]) {
        assert IsSea(t, nb[k][j]);
      }
    }
  }

  /** The first sea province and every added one are sea after growth, so the deep-sea pass may rely on it. */
  lemma GrownAreSea(t0: TerrainTable, first: int, st: SeaState, draws: seq<Draw>)
    requires SeaInv(t0, first, st, draws)
    ensures IsSea(st.terrain, first)
    ensures forall i :: 0 <= i < |st.seaPoints| ==> IsSea(st.terrain, st.seaPoints[i])
  {
    WithSeaIsSea(t0[first]);
    forall i | 0 <= i < |st.seaPoints| ensures IsSea(st.terrain, st.seaPoints[i]) {
      WithSeaIsSea(t0[st.seaPoints[i]]);
    }
  }

  /** A province forest may be placed on: known, neither sea nor forest. */
  predicate Eligible(t: TerrainTable, id: int) {
    id in t && !HasFlag(t[id], Sea) && !HasFlag(t[id], Forest)
  }

  /** What forest placement leaves: the table, the provinces made forest in order, and the draws used. */
  datatype Forested = Forested(terrain: TerrainTable, placed: seq<int>, used: nat)

  /**
   * The forest loop of `GenerateTerrain`: a random province that is neither
   * sea nor forest gets Forest, until `forestCount` have; a drawn sea or
   * forest province is skipped. With fewer eligible provinces than
   * `forestCount` the loop never ends, which here shows as running out of
   * draws: a successful run proves there were enough.
   */
  method PlaceForests(t: TerrainTable, count: nat, forestCount: int, draws: seq<Draw>) returns (r: Result<Forested, TerrainError>)
    ensures r.Success? ==>
      && r.value.used <= |draws|
      && |r.value.placed| == (if forestCount >= 0 then forestCount else 0)
      && NoRepeats(r.value.placed)
      && (forall i :: 0 <= i < |r.value.placed| ==> Eligible(t, r.value.placed[i]) && 1 <= r.value.placed[i] && (count > 0 ==> r.value.placed[i] <= count))
      && r.value.terrain.Keys == t.Keys
      && (forall k :: k in t ==> r.value.terrain[k] == if k in r.value.placed then With(t[k], Forest) else t[k])
      && forestCount <= |set k | k in t && Eligible(t, k)|
  {
    var cur := t;
    var placed := [];
    var forestProvs := 0;
    var used := 0;
    while forestProvs < forestCount
      invariant used <= |draws| && forestProvs == |placed|
      invariant NoRepeats(placed)
      invariant forestProvs == 0 || forestProvs <= forestCount
      invariant forall i :: 0 <= i < |placed| ==> Eligible(t, placed[i]) && 1 <= placed[i] && (count > 0 ==> placed[i] <= count)
      invariant cur.Keys == t.Keys
      invariant forall k :: k in t ==> cur[k] == if k in placed then With(t[k], Forest) else t[k]
      decreases |draws| - used
    {
      if used >= |draws| {
        return Failure(OutOfDraws);
      }
      var provinceId := Next(draws[used], count) + 1;
      used := used + 1;
      if provinceId !in cur {
        return Failure(MissingKey);
      }
      if HasFlag(cur[provinceId], Sea) || HasFlag(cur[provinceId], Forest) {
        continue;
      }
      if provinceId in placed {
        WithSets(t[provinceId], Forest);
        assert false;
      }
      WithKeepsOthers(t[provinceId], Forest, Sea);
      assert Eligible(t, provinceId);
      cur := cur[provinceId := With(cur[provinceId], Forest)];
      placed := placed + [provinceId];
      forestProvs := forestProvs + 1;
    }
    DistinctWithin(placed, (set k | k in t && Eligible(t, k)));
    r := Success(Forested(cur, placed, used));
  }

  /** The province ids 1 to count, in order. */
  function Ids(count: nat): (r: seq<int>)
    ensures |r| == count && forall i :: 0 <= i < count ==> r[i] == i + 1
  {
    seq(count, i => i + 1)
  }

  /** Province a's area is at most province b's. */
  function AreaLe(area: int -> real): (int, int) -> bool {
    (a: int, b: int) => area(a) <= area(b)
  }

  /** `Enumerable.Range(1, count).OrderBy(a => a.Area)`: the ids in stable ascending order of area. */
  function ByArea(count: nat, area: int -> real): seq<int> {
    SortBy(Ids(count), AreaLe(area))
  }

  /** `provinceAreas.Take(count / 4)`. */
  function SmallIds(count: nat, area: int -> real): seq<int> {
    ByArea(count, area)[..count / 4]
  }

  /** `provinceAreas.Skip(count * 3 / 4)`. */
  function LargeIds(count: nat, area: int -> real): seq<int> {
    ByArea(count, area)[count * 3 / 4..]
  }

  /** The ascending order is a rearrangement of the ids 1 to count, without repeats. */
  lemma ByAreaIds(count: nat, area: int -> real)
    ensures NoRepeats(ByArea(count, area))
    ensures forall i :: 0 <= i < |ByArea(count, area)| ==> 1 <= ByArea(count, area)[i] <= count
  {
    var sorted := ByArea(count, area);
    var ids := Ids(count);
    PermutationNoRepeats(sorted, ids);
    forall i | 0 <= i < |sorted| ensures 1 <= sorted[i] <= count {
      assert sorted[i] in multiset(ids);
    }
  }

  /** Prefix and suffix of a list without repeats, cut at k <= m, share no element. */
  lemma PrefixSuffixDisjoint(s: seq<int>, k: nat, m: nat)
    requires NoRepeats(s) && k <= m <= |s|
    ensures NoRepeats(s[..k]) && NoRepeats(s[m..])
    ensures forall x :: x in s[..k] ==> x !in s[m..]
  {
    forall x | x in s[..k] ensures x !in s[m..] {
      var i :| 0 <= i < k && s[..k][i] == x;
      assert s[i] == x;
    }
    assert NoRepeats(s[..k]) by {
      forall i, j | 0 <= i < j < k ensures s[..k][i] != s[..k][j] {
        assert s[..k][i] == s[i] && s[..k][j] == s[j];
      }
    }
    assert NoRepeats(s[m..]) by {
      forall i, j | 0 <= i < j < |s| - m ensures s[m..][i] != s[m..][j] {
        assert s[m..][i] == s[m + i] && s[m..][j] == s[m + j];
      }
    }
  }

  /**
   * The quartile buckets: count / 4 provinces are small and count - count * 3 / 4
   * large, all of them real province ids, none in both buckets, and no small
   * province has a larger area than a large one.
   */
  lemma SizeBucketsShape(count: nat, area: int -> real)
    ensures |SmallIds(count, area)| == count / 4
    ensures |LargeIds(count, area)| == count - count * 3 / 4
    ensures forall x :: x in SmallIds(count, area) ==> 1 <= x <= count
    ensures forall x :: x in LargeIds(count, area) ==> 1 <= x <= count
    ensures NoRepeats(SmallIds(count, area)) && NoRepeats(LargeIds(count, area))
    ensures forall x :: x in SmallIds(count, area) ==> x !in LargeIds(count, area)
  {
    var sorted := ByArea(count, area);
    ByAreaIds(count, area);
    PrefixSuffixDisjoint(sorted, count / 4, count * 3 / 4);
  }

  /** No small province has a larger area than a large one. */
  lemma SmallBeforeLarge(count: nat, area: int -> real)
    ensures forall a, b :: a in SmallIds(count, area) && b in LargeIds(count, area) ==> area(a) <= area(b)
  {
    assert IsTotalPreorder(AreaLe(area));
    SortBySorted(Ids(count), AreaLe(area));
    PrefixBeforeSuffix(ByArea(count, area), AreaLe(area), count / 4, count * 3 / 4);
  }

  /** The table after `foreach (id in ids) TerrainTypes[id] |= f`; an absent id throws. */
  function MarkAll(t: TerrainTable, ids: seq<int>, f: Feature): (r: Result<TerrainTable, TerrainError>)
    ensures r.Success? ==> r.value.Keys == t.Keys
    ensures r.Failure? ==> r.error == MissingKey
    decreases |ids|
  {
    if ids == [] then Success(t)
    else
      match MarkAll(t, ids[..|ids| - 1], f)
      case Failure(e) => Failure(e)
      case Success(m) =>
        var id := ids[|ids| - 1];
        if id !in m then Failure(MissingKey) else Success(m[id := With(m[id], f)])
  }

  /** The loop fails exactly when some listed id is absent. */
  lemma {:induction false} MarkAllFails(t: TerrainTable, ids: seq<int>, f: Feature)
    ensures MarkAll(t, ids, f).Failure? <==> exists x :: x in ids && x !in t
    decreases |ids|
  {
    if ids != [] {
      var init := ids[..|ids| - 1];
      MarkAllFails(t, init, f);
      assert ids == init + [ids[|ids| - 1]];
    }
  }

  /** A successful loop adds f to exactly the listed provinces. */
  lemma {:induction false} MarkAllValues(t: TerrainTable, ids: seq<int>, f: Feature, k: int)
    requires k in t
    ensures MarkAll(t, ids, f).Success? ==>
      MarkAll(t, ids, f).value[k] == if k in ids then With(t[k], f) else t[k]
    decreases |ids|
  {
    if ids != [] {
      var init := ids[..|ids| - 1];
      MarkAllValues(t, init, f, k);
      assert ids == init + [ids[|ids| - 1]];
    }
  }

  /** `foreach (var id in ids) TerrainTypes[id] |= f`. */
  method MarkEach(t: TerrainTable, ids: seq<int>, f: Feature) returns (r: Result<TerrainTable, TerrainError>)
    ensures r == MarkAll(t, ids, f)
    ensures r.Failure? <==> exists x :: x in ids && x !in t
    ensures r.Success? ==> forall k :: k in t ==> r.value[k] == if k in ids then With(t[k], f) else t[k]
  {
    var cur := t;
    for i := 0 to |ids|
      invariant MarkAll(t, ids[..i], f) == Success(cur)
    {
      var id := ids[i];
      assert ids[..i + 1][..i] == ids[..i];
      if id !in cur {
        assert id in ids;
        MarkAllFails(t, ids, f);
        return Failure(MissingKey);
      }
      cur := cur[id := With(cur[id], f)];
    }
    assert ids[..|ids|] == ids;
    r := Success(cur);
    MarkAllFails(t, ids, f);
    forall k | k in t ensures r.value[k] == if k in ids then With(t[k], f) else t[k] {
      MarkAllValues(t, ids, f, k);
    }
  }

  /**
   * The size pass of `GenerateTerrain`, with the areas as an input: Small
   * is OR-ed onto the quarter of provinces with the smallest area, then
   * Large onto those from position count * 3 / 4 of the ascending order.
   */
  method SizeBuckets(t: TerrainTable, count: nat, area: int -> real) returns (r: Result<TerrainTable, TerrainError>)
    ensures r.Failure? <==> exists x :: (x in SmallIds(count, area) || x in LargeIds(count, area)) && x !in t
    ensures r.Success? ==> r.value.Keys == t.Keys
    ensures r.Success? ==> forall k :: k in t ==>
      r.value[k] == (var s := if k in SmallIds(count, area) then With(t[k], Small) else t[k];
                     if k in LargeIds(count, area) then With(s, Large) else s)
  {
    var provinceAreas := ByArea(count, area);
    var smallProvinces := provinceAreas[..count / 4];
    var largeProvinces := provinceAreas[count * 3 / 4..];
    var withSmall := MarkEach(t, smallProvinces, Small);
    if withSmall.Failure? {
      return withSmall;
    }
    r := MarkEach(withSmall.value, largeProvinces, Large);
  }
}
