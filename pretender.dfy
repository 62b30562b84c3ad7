/**
 * Reading a pretender (god) design from the bytes of a Dominions pretender
 * file: `Util.IndexOfSequence` finds byte patterns, and `LoadPretender`
 * walks a cursor from the second `ff ff ff ff` marker through the type,
 * dominion, magic paths, dominion scales and awake status.
 */
module Pretender {
  import opened Wrappers

  type byte = b: int | 0 <= b < 256

  // ---------------------------------------------------------------------
  // IndexOfSequence
  // ---------------------------------------------------------------------

  /** `Array.IndexOf(buffer, value, start)`: the first index at or after start holding value, or -1. */
  function IndexOfByte(buffer: seq<byte>, value: byte, start: nat): (r: int)
    ensures r == -1 || (start <= r < |buffer| && buffer[r] == value)
    decreases |buffer| - start
  {
    if start >= |buffer| then -1
    else if buffer[start] == value then start
    else IndexOfByte(buffer, value, start + 1)
  }

  /** -1 exactly when value does not occur from start on; otherwise its first occurrence from start on. */
  lemma {:induction false} IndexOfByteFirst(buffer: seq<byte>, value: byte, start: nat)
    ensures IndexOfByte(buffer, value, start) == -1 <==> forall j :: start <= j < |buffer| ==> buffer[j] != value
    ensures IndexOfByte(buffer, value, start) != -1 ==>
      forall j :: start <= j < IndexOfByte(buffer, value, start) ==> buffer[j] != value
    decreases |buffer| - start
  {
    if start < |buffer| && buffer[start] != value {
      IndexOfByteFirst(buffer, value, start + 1);
    }
  }

  /** The pattern occurs in full at position i. */
  predicate Matches(buffer: seq<byte>, pattern: seq<byte>, i: int) {
    0 <= i && i + |pattern| <= |buffer| && buffer[i..i + |pattern|] == pattern
  }

  /**
   * The positions the search reports from candidate i on: a candidate is
   * an index holding the pattern's first byte, checked for a full match,
   * and the next candidate is looked for from i + |pattern| on.
   */
  function Search(buffer: seq<byte>, pattern: seq<byte>, i: int): seq<int>
    requires |pattern| >= 1
    decreases if i < 0 then 0 else |buffer| + 1 - i
  {
    if i < 0 || i > |buffer| - |pattern| then []
    else
      (if Matches(buffer, pattern, i) then [i] else [])
        + Search(buffer, pattern, IndexOfByte(buffer, pattern[0], i + |pattern|))
  }

  /** What `IndexOfSequence(buffer, pattern, startIndex)` returns. */
  function Occurrences(buffer: seq<byte>, pattern: seq<byte>, startIndex: nat): seq<int>
    requires |pattern| >= 1
  {
    Search(buffer, pattern, IndexOfByte(buffer, pattern[0], startIndex))
  }

  /** The reported positions are full matches in [lo, |buffer| - |pattern|], at least |pattern| apart. */
  predicate Reported(buffer: seq<byte>, pattern: seq<byte>, lo: int, ps: seq<int>) {
    && (forall k :: 0 <= k < |ps| ==> Matches(buffer, pattern, ps[k]) && lo <= ps[k] <= |buffer| - |pattern|)
    && (forall k :: 0 <= k < |ps| - 1 ==> ps[k] + |pattern| <= ps[k + 1])
  }

  lemma {:induction false} SearchReported(buffer: seq<byte>, pattern: seq<byte>, i: int)
    requires |pattern| >= 1
    ensures Reported(buffer, pattern, i, Search(buffer, pattern, i))
    decreases if i < 0 then 0 else |buffer| + 1 - i
  {
    if !(i < 0 || i > |buffer| - |pattern|) {
      var next := IndexOfByte(buffer, pattern[0], i + |pattern|);
      SearchReported(buffer, pattern, next);
      var head: seq<int> := if Matches(buffer, pattern, i) then [i] else [];
      var rest := Search(buffer, pattern, next);
      assert Search(buffer, pattern, i) == head + rest;
      assert next == -1 || next >= i + |pattern|;
      assert Reported(buffer, pattern, i, rest) by {
        assert forall k :: 0 <= k < |rest| ==> next <= rest[k];
      }
    }
  }

  /**
   * Every position found is a full match at or after startIndex and no
   * later than |buffer| - |pattern|; positions increase by at least
   * |pattern| each.
   */
  lemma OccurrencesReported(buffer: seq<byte>, pattern: seq<byte>, startIndex: nat)
    requires |pattern| >= 1
    ensures Reported(buffer, pattern, startIndex, Occurrences(buffer, pattern, startIndex))
  {
    var i := IndexOfByte(buffer, pattern[0], startIndex);
    SearchReported(buffer, pattern, i);
    assert forall k :: 0 <= k < |Search(buffer, pattern, i)| ==> i <= Search(buffer, pattern, i)[k];
  }

  /** A match with no earlier candidate at or after startIndex is the first position found. */
  lemma FirstCandidateFound(buffer: seq<byte>, pattern: seq<byte>, startIndex: nat, m: int)
    requires |pattern| >= 1 && startIndex <= m && Matches(buffer, pattern, m)
    requires forall j :: startIndex <= j < m ==> buffer[j] != pattern[0]
    ensures |Occurrences(buffer, pattern, startIndex)| >= 1 && Occurrences(buffer, pattern, startIndex)[0] == m
  {
    assert buffer[m] == buffer[m..m + |pattern|][0] == pattern[0];
    IndexOfByteFirst(buffer, pattern[0], startIndex);
    assert IndexOfByte(buffer, pattern[0], startIndex) == m;
  }

  /**
   * The search is not complete: in 1 1 2 the pattern 1 2 occurs at 1, but
   * the candidate at 0 fails and the search resumes at 2, so nothing is
   * found.
   */
  lemma OverlapMissed()
    ensures Matches([1, 1, 2], [1, 2], 1)
    ensures Occurrences([1, 1, 2], [1, 2], 0) == []
  {
    var buffer: seq<byte>, pattern: seq<byte> := [1, 1, 2], [1, 2];
    assert buffer[1..3] == pattern;
    assert IndexOfByte(buffer, 1, 0) == 0;
    assert !Matches(buffer, pattern, 0) by {
      assert buffer[0..2][1] != pattern[1];
    }
    assert IndexOfByte(buffer, 1, 2) == -1;
    assert Search(buffer, pattern, -1) == [];
  }

  /** `Util.IndexOfSequence`. */
  method IndexOfSequence(buffer: seq<byte>, pattern: seq<byte>, startIndex: nat) returns (positions: seq<int>)
    requires |pattern| >= 1 && startIndex <= |buffer|
    ensures positions == Occurrences(buffer, pattern, startIndex)
    ensures Reported(buffer, pattern, startIndex, positions)
  {
    positions := [];
    var i := IndexOfByte(buffer, pattern[0], startIndex);
    while i >= 0 && i <= |buffer| - |pattern|
      invariant i == -1 || startIndex <= i < |buffer|
      invariant positions + Search(buffer, pattern, i) == Occurrences(buffer, pattern, startIndex)
      decreases if i < 0 then 0 else |buffer| + 1 - i
    {
      var next := IndexOfByte(buffer, pattern[0], i + |pattern|);
      ghost var head: seq<int> := if Matches(buffer, pattern, i) then [i] else [];
      ghost var before := positions;
      assert Search(buffer, pattern, i) == head + Search(buffer, pattern, next);
      if buffer[i..i + |pattern|] == pattern {
        positions := positions + [i];
      }
      assert positions == before + head;
      ghost var rest := Search(buffer, pattern, next);
      assert positions + rest == before + (head + rest);
      i := next;
    }
    assert positions == Occurrences(buffer, pattern, startIndex);
    OccurrencesReported(buffer, pattern, startIndex);
  }

  // ---------------------------------------------------------------------
  // LoadPretender
  // ---------------------------------------------------------------------

  /** Ten 0xff bytes then seven zero bytes: the dominion and paths follow. */
  const Pattern1: seq<byte> := [0xff, 0xff, 0xff, 0xff, 0xff, 0xff, 0xff, 0xff, 0xff, 0xff, 0, 0, 0, 0, 0, 0, 0]
  /** The marker before the six scales. */
  const Pattern2: seq<byte> := [0x39, 0x30]
  /** The marker before the awake status. */
  const Pattern3: seq<byte> := [0x4f]
  /** The marker whose second occurrence precedes the pretender type. */
  const Pattern4: seq<byte> := [0xff, 0xff, 0xff, 0xff]

  datatype Magic = Fire | Air | Water | Earth | Astral | Nature | Death | Blood | Holy
  datatype Scale = OrderTurmoil | ProductionSloth | HeatCold | GrowthDeath | LuckMisfortune | MagicDrain

  /** The order the path bytes are stored in (Death before Nature). */
  const PathOrder: seq<Magic> := [Fire, Air, Water, Earth, Astral, Death, Nature, Blood]
  /** The order the scale bytes are stored in. */
  const ScaleOrder: seq<Scale> := [OrderTurmoil, ProductionSloth, HeatCold, GrowthDeath, LuckMisfortune, MagicDrain]

  datatype DecodeError =
    | FewerThanTwoMarkers  // `[1]` on the Pattern4 positions
    | NoMatch              // `.First()` on an empty list of positions
    | PastEnd              // a read beyond the last byte

  /**
   * The decoded design. `awakeStatus` is the raw byte cast to the enum:
   * 0 awake, 1 asleep, 2 imprisoned, any other value kept as is.
   */
  datatype PretenderDesign = PretenderDesign(
    typeId: int,
    dominion: byte,
    paths: map<Magic, byte>,
    scales: map<Scale, int>,
    awakeStatus: byte)

  /** `(sbyte)b`. */
  function SByte(b: byte): (r: int)
    ensures -128 <= r < 128 && r % 256 == b
  {
    if b < 128 then b else b - 256
  }

  /** `BitConverter.ToInt16(data, i)` on a little-endian machine. */
  function Int16At(data: seq<byte>, i: nat): (r: int)
    requires i + 2 <= |data|
    ensures -0x8000 <= r < 0x8000 && r % 0x10000 == data[i] as int + 256 * data[i + 1] as int
  {
    var lo: int, hi: int := data[i], data[i + 1];
    var v := lo + 256 * hi;
    if v < 0x8000 then v else v - 0x10000
  }

  /** Where each field is read from. */
  datatype Layout = Layout(typeAt: nat, pathsAt: nat, scalesAt: nat, awakeAt: nat)

  /** Every field lies inside the data. */
  predicate InBounds(l: Layout, n: nat) {
    l.typeAt + 2 <= n && l.pathsAt + 9 <= n && l.scalesAt + 6 <= n && l.awakeAt < n
  }

  /**
   * Each field lies inside the data, and each marker occurs in full right
   * before the field it introduces, after the fields read before it.
   */
  predicate Placed(data: seq<byte>, l: Layout) {
    && InBounds(l, |data|)
    && Matches(data, Pattern1, l.pathsAt - |Pattern1|) && l.typeAt <= l.pathsAt - |Pattern1|
    && Matches(data, Pattern2, l.scalesAt - |Pattern2|) && l.pathsAt + 9 <= l.scalesAt - |Pattern2|
    && Matches(data, Pattern3, l.awakeAt - |Pattern3|) && l.scalesAt + 6 <= l.awakeAt - |Pattern3|
  }

  /** `IndexOfSequence(data, pattern, start).First() + pattern.Length`: the index just past the first match. */
  function FindAfter(data: seq<byte>, pattern: seq<byte>, start: nat): (r: Result<nat, DecodeError>)
    requires |pattern| >= 1
    ensures r.Success? <==> |Occurrences(data, pattern, start)| >= 1
    ensures r.Failure? ==> r.error == NoMatch
    ensures r.Success? ==> r.value == Occurrences(data, pattern, start)[0] + |pattern|
    ensures r.Success? ==> Matches(data, pattern, r.value - |pattern|) && start <= r.value - |pattern| && r.value <= |data|
  {
    OccurrencesReported(data, pattern, start);
    var ps := Occurrences(data, pattern, start);
    if |ps| == 0 then Failure(NoMatch) else Success(ps[0] + |pattern|)
  }

  /** The awake status index: just past the first Pattern3 after the scales. */
  function AwakeAt(data: seq<byte>, scalesAt: nat): (r: Result<nat, DecodeError>)
    requires scalesAt + 6 <= |data|
    ensures r.Success? ==> Matches(data, Pattern3, r.value - 1) && scalesAt + 6 <= r.value - 1 && r.value < |data|
  {
    match FindAfter(data, Pattern3, scalesAt + 6)
    case Failure(e) => Failure(e)
    case Success(awakeAt) => if awakeAt >= |data| then Failure(PastEnd) else Success(awakeAt)
  }

  /** The scales index, just past the first Pattern2 after the paths, and the awake status index. */
  function ScalesAt(data: seq<byte>, pathsAt: nat): (r: Result<(nat, nat), DecodeError>)
    requires pathsAt + 9 <= |data|
    ensures r.Success? ==> var (scalesAt, awakeAt) := r.value;
      && Matches(data, Pattern2, scalesAt - 2) && pathsAt + 9 <= scalesAt - 2 && scalesAt + 6 <= |data|
      && Matches(data, Pattern3, awakeAt - 1) && scalesAt + 6 <= awakeAt - 1 && awakeAt < |data|
  {
    match FindAfter(data, Pattern2, pathsAt + 9)
    case Failure(e) => Failure(e)
    case Success(scalesAt) =>
      if scalesAt + 6 > |data| then Failure(PastEnd)
      else match AwakeAt(data, scalesAt)
        case Failure(e) => Failure(e)
        case Success(awakeAt) => Success((scalesAt, awakeAt))
  }

  /** The dominion index, just past the first Pattern1 from the type's index, then the later ones. */
  function PathsAt(data: seq<byte>, typeAt: nat): (r: Result<Layout, DecodeError>)
    requires typeAt + 2 <= |data|
    ensures r.Success? ==> r.value.typeAt == typeAt && Placed(data, r.value)
  {
    match FindAfter(data, Pattern1, typeAt)
    case Failure(e) => Failure(e)
    case Success(pathsAt) =>
      if pathsAt + 9 > |data| then Failure(PastEnd)
      else LayoutAfterPaths(data, typeAt, pathsAt)
  }

  /** The layout once the paths are placed: the scales and the awake status after them. */
  function LayoutAfterPaths(data: seq<byte>, typeAt: nat, pathsAt: nat): (r: Result<Layout, DecodeError>)
    requires typeAt + 2 <= |data| && pathsAt + 9 <= |data|
    requires Matches(data, Pattern1, pathsAt - |Pattern1|) && typeAt <= pathsAt - |Pattern1|
    ensures r.Success? ==> r.value.typeAt == typeAt && r.value.pathsAt == pathsAt && Placed(data, r.value)
  {
    match ScalesAt(data, pathsAt)
    case Failure(e) => Failure(e)
    case Success((scalesAt, awakeAt)) => Success(Layout(typeAt, pathsAt, scalesAt, awakeAt))
  }

  /**
   * The cursor positions `LoadPretender` reads at, or the first failure:
   * the type after the second Pattern4; dominion and paths after the first
   * Pattern1 from the type's position; the scales after the first Pattern2
   * after the paths; the awake status after the first Pattern3 after the
   * scales.
   */
  function LayoutOf(data: seq<byte>): (r: Result<Layout, DecodeError>)
    ensures r == Failure(FewerThanTwoMarkers) <==> |Occurrences(data, Pattern4, 0)| < 2
    ensures r.Success? ==> r.value.typeAt == Occurrences(data, Pattern4, 0)[1] + |Pattern4| && Placed(data, r.value)
  {
    OccurrencesReported(data, Pattern4, 0);
    var p4 := Occurrences(data, Pattern4, 0);
    if |p4| < 2 then Failure(FewerThanTwoMarkers)
    else if p4[1] + 4 + 2 > |data| then Failure(PastEnd)
    else PathsAt(data, p4[1] + 4)
  }

  /** The dominion byte at `at`, then the eight path bytes keyed in the stored order; Holy is never set. */
  predicate PathsRead(data: seq<byte>, at: nat, dominion: byte, paths: map<Magic, byte>)
    requires at + 9 <= |data|
  {
    && dominion == data[at]
    && paths.Keys == (set m | m in PathOrder)
    && (forall k :: 0 <= k < |PathOrder| ==> PathOrder[k] in paths && paths[PathOrder[k]] == data[at + 1 + k])
  }

  /** The six scale bytes from `at` on, signed, keyed in the stored order. */
  predicate ScalesRead(data: seq<byte>, at: nat, scales: map<Scale, int>)
    requires at + 6 <= |data|
  {
    && scales.Keys == (set s | s in ScaleOrder)
    && (forall k :: 0 <= k < |ScaleOrder| ==> ScaleOrder[k] in scales && scales[ScaleOrder[k]] == SByte(data[at + k]))
  }

  /** p holds the fields read at l. */
  predicate Decoded(data: seq<byte>, l: Layout, p: PretenderDesign)
    requires InBounds(l, |data|)
  {
    && p.typeId == Int16At(data, l.typeAt)
    && PathsRead(data, l.pathsAt, p.dominion, p.paths)
    && ScalesRead(data, l.scalesAt, p.scales)
    && p.awakeStatus == data[l.awakeAt]
  }

  /** The eight path bytes from index on, keyed in the stored order. */
  method ReadPaths(fileData: seq<byte>, index: nat) returns (ok: bool, paths: map<Magic, byte>)
    ensures ok <==> index + |PathOrder| <= |fileData|
    ensures ok ==> paths.Keys == (set m | m in PathOrder)
    ensures ok ==> forall k :: 0 <= k < |PathOrder| ==> PathOrder[k] in paths && paths[PathOrder[k]] == fileData[index + k]
  {
    paths := map[];
    for k := 0 to |PathOrder|
      invariant k == 0 || index + k <= |fileData|
      invariant paths.Keys == set m | m in PathOrder[..k]
      invariant forall j :: 0 <= j < k ==> PathOrder[j] in paths && paths[PathOrder[j]] == fileData[index + j]
    {
      if index + k >= |fileData| {
        return false, paths;
      }
      assert PathOrder[..k + 1] == PathOrder[..k] + [PathOrder[k]];
      paths := paths[PathOrder[k] := fileData[index + k]];
    }
    assert PathOrder[..|PathOrder|] == PathOrder;
    return true, paths;
  }

  /** The six scale bytes from index on, as signed values keyed in the stored order. */
  method ReadScales(fileData: seq<byte>, index: nat) returns (ok: bool, scales: map<Scale, int>)
    ensures ok <==> index + |ScaleOrder| <= |fileData|
    ensures ok ==> scales.Keys == (set s | s in ScaleOrder)
    ensures ok ==> forall k :: 0 <= k < |ScaleOrder| ==> ScaleOrder[k] in scales && scales[ScaleOrder[k]] == SByte(fileData[index + k])
  {
    scales := map[];
    for k := 0 to |ScaleOrder|
      invariant k == 0 || index + k <= |fileData|
      invariant scales.Keys == set s | s in ScaleOrder[..k]
      invariant forall j :: 0 <= j < k ==> ScaleOrder[j] in scales && scales[ScaleOrder[j]] == SByte(fileData[index + j])
    {
      if index + k >= |fileData| {
        return false, scales;
      }
      assert ScaleOrder[..k + 1] == ScaleOrder[..k] + [ScaleOrder[k]];
      scales := scales[ScaleOrder[k] := SByte(fileData[index + k])];
    }
    assert ScaleOrder[..|ScaleOrder|] == ScaleOrder;
    return true, scales;
  }

  /** `fileData.IndexOfSequence(pattern, start).First() + pattern.Length`. */
  method SkipPast(fileData: seq<byte>, pattern: seq<byte>, start: nat) returns (r: Result<nat, DecodeError>)
    requires |pattern| >= 1 && start <= |fileData|
    ensures r == FindAfter(fileData, pattern, start)
  {
    var positions := IndexOfSequence(fileData, pattern, start);
    if |positions| == 0 {
      return Failure(NoMatch);
    }
    return Success(positions[0] + |pattern|);
  }

  /** From the scales on: the awake status byte just past the next Pattern3. */
  method ReadAwake(fileData: seq<byte>, scalesAt: nat) returns (r: Result<byte, DecodeError>)
    requires scalesAt + 6 <= |fileData|
    ensures r.Failure? <==> AwakeAt(fileData, scalesAt).Failure?
    ensures r.Failure? ==> r.error == AwakeAt(fileData, scalesAt).error
    ensures r.Success? ==> r.value == fileData[AwakeAt(fileData, scalesAt).value]
  {
    var found := SkipPast(fileData, Pattern3, scalesAt + 6);
    if found.Failure? {
      return Failure(found.error);
    }
    var index := found.value;
    if index >= |fileData| {
      return Failure(PastEnd);
    }
    return Success(fileData[index]);
  }

  /** From the end of the paths on: the scales past the next Pattern2, then the awake status. */
  method ReadScalesOn(fileData: seq<byte>, pathsAt: nat) returns (r: Result<(map<Scale, int>, byte), DecodeError>)
    requires pathsAt + 9 <= |fileData|
    ensures r.Failure? <==> ScalesAt(fileData, pathsAt).Failure?
    ensures r.Failure? ==> r.error == ScalesAt(fileData, pathsAt).error
    ensures r.Success? ==> var (scalesAt, awakeAt) := ScalesAt(fileData, pathsAt).value;
      scalesAt + 6 <= |fileData| && awakeAt < |fileData|
      && ScalesRead(fileData, scalesAt, r.value.0) && r.value.1 == fileData[awakeAt]
  {
    var found := SkipPast(fileData, Pattern2, pathsAt + 9);
    if found.Failure? {
      return Failure(found.error);
    }
    var index := found.value;
    var ok, scales := ReadScales(fileData, index);
    if !ok {
      return Failure(PastEnd);
    }
    var awake := ReadAwake(fileData, index);
    if awake.Failure? {
      return Failure(awake.error);
    }
    return Success((scales, awake.value));
  }

  /** From the type on: the dominion and paths past the next Pattern1, then the scales and awake status. */
  method ReadPathsOn(fileData: seq<byte>, typeAt: nat, typeId: int) returns (r: Result<PretenderDesign, DecodeError>)
    requires typeAt + 2 <= |fileData| && typeId == Int16At(fileData, typeAt)
    ensures r.Failure? <==> PathsAt(fileData, typeAt).Failure?
    ensures r.Failure? ==> r.error == PathsAt(fileData, typeAt).error
    ensures r.Success? ==> InBounds(PathsAt(fileData, typeAt).value, |fileData|)
    ensures r.Success? ==> Decoded(fileData, PathsAt(fileData, typeAt).value, r.value)
  {
    var found := SkipPast(fileData, Pattern1, typeAt);
    if found.Failure? {
      return Failure(found.error);
    }
    var index := found.value;
    if index >= |fileData| {
      return Failure(PastEnd);
    }
    var dominion := fileData[index];
    var ok, paths := ReadPaths(fileData, index + 1);
    if !ok {
      return Failure(PastEnd);
    }
    var rest := ReadScalesOn(fileData, index);
    if rest.Failure? {
      return Failure(rest.error);
    }
    return Success(PretenderDesign(typeId, dominion, paths, rest.value.0, rest.value.1));
  }

  /** `Pretender.LoadPretender` after `File.ReadAllBytes`. */
  method LoadPretender(fileData: seq<byte>) returns (r: Result<PretenderDesign, DecodeError>)
    ensures r.Failure? <==> LayoutOf(fileData).Failure?
    ensures r.Failure? ==> r.error == LayoutOf(fileData).error
    ensures r.Success? ==> InBounds(LayoutOf(fileData).value, |fileData|) && Decoded(fileData, LayoutOf(fileData).value, r.value)
  {
    var positions := IndexOfSequence(fileData, Pattern4, 0);
    if |positions| < 2 {
      return Failure(FewerThanTwoMarkers);
    }
    var index := positions[1] + |Pattern4|;
    if index + 2 > |fileData| {
      return Failure(PastEnd);
    }
    var typeId := Int16At(fileData, index);
    r := ReadPathsOn(fileData, index, typeId);
  }
}
