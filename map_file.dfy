/**
 * The Dominions map file writer (`Dominons3Map.GenerateMapToDisk`) and the
 * part of `SaveMapToDisk` that prepares the title, file name and
 * description. The file is a sequence of text lines: a header, one
 * `#terrain` line per province (after its `#landname` when it has one),
 * `#neighbour` lines and `#nostart` lines. Each line is modelled as a
 * `Line` value and `Render` gives its exact text.
 */
module MapFile {
  import opened Wrappers
  import opened TerrainFeatures
  import opened Formatting
  import Adjacency
  import Collections

  /** The dimensions of the map image. */
  datatype Image = Image(width: nat, height: nat)

  datatype MapError = MissingKey   // `TerrainTypes[id]` for an id that is not a key

  datatype Line =
    | DomTitle(title: string)
    | ImageFile(filename: string)
    | WrapAround
    | Description(text: string)
    | Blank
    | LandName(province: int, name: string)
    | TerrainLine(province: int, flags: Flags)
    | NeighbourLine(province: int, neighbour: int)
    | NoStartLine(province: int)

  /** The text `WriteFormatLine` writes for a line. */
  function Render(l: Line): string {
    match l
    case DomTitle(t) => "#dom2title " + t
    case ImageFile(f) => "#imagefile " + f + ".tga"
    case WrapAround => "#wraparound"
    case Description(d) => "#description \"" + d + "\""
    case Blank => ""
    case LandName(p, n) => "#landname " + IntToString(p) + " \"" + n + "\""
    case TerrainLine(p, v) => "#terrain " + IntToString(p) + " " + IntToString(ToInt(v))
    case NeighbourLine(p, q) => "#neighbour " + IntToString(p) + " " + IntToString(q)
    case NoStartLine(p) => "#nostart " + IntToString(p)
  }

  /** The text of each line, in order. */
  function RenderAll(ls: seq<Line>): (r: seq<string>)
    ensures |r| == |ls|
  {
    seq(|ls|, i requires 0 <= i < |ls| => Render(ls[i]))
  }

  /** The fields of the map that the writer reads. */
  datatype MapContents = MapContents(
    title: string,
    filename: string,
    isWrapAround: bool,
    description: string,
    neighbours: Adjacency.Neighbours,
    terrainTypes: map<int, Flags>,
    provinceCount: int,
    provinceNames: map<int, string>)

  /** Which of the four parts of the file a line belongs to. */
  function Part(l: Line): nat {
    match l
    case LandName(_, _) => 1
    case TerrainLine(_, _) => 1
    case NeighbourLine(_, _) => 2
    case NoStartLine(_) => 3
    case _ => 0
  }

  /** The header; `#wraparound` is there exactly when the map wraps. */
  function Header(c: MapContents): (r: seq<Line>)
    ensures |r| == if c.isWrapAround then 5 else 4
    ensures r[0] == DomTitle(c.title) && r[1] == ImageFile(c.filename)
    ensures r[|r| - 2] == Description(c.description) && r[|r| - 1] == Blank
    ensures WrapAround in r <==> c.isWrapAround
    ensures forall i :: 0 <= i < |r| ==> Part(r[i]) == 0
  {
    [DomTitle(c.title), ImageFile(c.filename)]
      + (if c.isWrapAround then [WrapAround] else [])
      + [Description(c.description), Blank]
  }

  /** Every province up to k has flags. */
  predicate TerrainKnown(c: MapContents, k: int) {
    forall p :: 1 <= p <= k ==> p in c.terrainTypes
  }

  /** Every neighbour listed for a province below k has flags. */
  predicate NeighboursKnown(c: MapContents, k: int) {
    forall p :: 1 <= p <= k && p in c.neighbours ==>
      forall i :: 0 <= i < |c.neighbours[p]| ==> c.neighbours[p][i] in c.terrainTypes
  }

  /** The writer finds every key it looks up. */
  predicate Complete(c: MapContents) {
    TerrainKnown(c, c.provinceCount) && NeighboursKnown(c, c.provinceCount)
  }

  function ProvinceLines(c: MapContents, p: int): seq<Line>
    requires p in c.terrainTypes
  {
    (if p in c.provinceNames then [LandName(p, c.provinceNames[p])] else [])
      + [TerrainLine(p, c.terrainTypes[p])]
  }

  /** The `#landname` and `#terrain` lines of provinces 1..k. */
  function TerrainSection(c: MapContents, k: int): seq<Line>
    requires TerrainKnown(c, k)
    decreases k
  {
    if k <= 0 then [] else TerrainSection(c, k - 1) + ProvinceLines(c, k)
  }

  /** One `#neighbour p q` line for each q in qs above p, in list order. */
  function Above(p: int, qs: seq<int>): seq<Line> {
    if qs == [] then []
    else Above(p, qs[..|qs| - 1]) + (if qs[|qs| - 1] > p then [NeighbourLine(p, qs[|qs| - 1])] else [])
  }

  /** The `#neighbour` lines of provinces 1..k. */
  function NeighbourSection(c: MapContents, k: int): seq<Line>
    decreases k
  {
    if k <= 0 then []
    else NeighbourSection(c, k - 1) + (if k in c.neighbours then Above(k, c.neighbours[k]) else [])
  }

  /** How many of qs have Sea set exactly when `sea` holds. */
  function SameSeaCount(terrainTypes: map<int, Flags>, sea: bool, qs: seq<int>): nat
    requires forall i :: 0 <= i < |qs| ==> qs[i] in terrainTypes
  {
    if qs == [] then 0
    else SameSeaCount(terrainTypes, sea, qs[..|qs| - 1]) + (if HasFlag(terrainTypes[qs[|qs| - 1]], Sea) == sea then 1 else 0)
  }

  /** p gets `#nostart`: no neighbour entry, or at most 3 neighbours on the same side of the coast. */
  predicate NoStart(c: MapContents, p: int)
    requires p in c.terrainTypes && NeighboursKnown(c, p) && 1 <= p
  {
    p !in c.neighbours || SameSeaCount(c.terrainTypes, HasFlag(c.terrainTypes[p], Sea), c.neighbours[p]) <= 3
  }

  /** The `#nostart` lines of provinces 1..k. */
  function NoStartSection(c: MapContents, k: int): seq<Line>
    requires TerrainKnown(c, k) && NeighboursKnown(c, k)
    decreases k
  {
    if k <= 0 then []
    else NoStartSection(c, k - 1) + (if NoStart(c, k) then [NoStartLine(k)] else [])
  }

  /** The whole file. */
  function MapLines(c: MapContents): seq<Line>
    requires Complete(c)
  {
    Header(c) + TerrainSection(c, c.provinceCount) + NeighbourSection(c, c.provinceCount)
      + NoStartSection(c, c.provinceCount)
  }

  class Dominions3Map {
    var title: string
    var filename: string
    var mapImage: Option<Image>
    var description: string
    var neighbours: Adjacency.Neighbours
    var terrainTypes: map<int, Flags>
    var provinceCount: int
    var isWrapAround: bool
    var provinceNames: map<int, string>

    /** A new map: every dictionary empty, no image. */
    constructor ()
      ensures title == "" && filename == "" && description == ""
      ensures mapImage == None && !isWrapAround && provinceCount == 0
      ensures neighbours == map[] && terrainTypes == map[] && provinceNames == map[]
    {
      title, filename, description := "", "", "";
      mapImage := None;
      neighbours, terrainTypes, provinceNames := map[], map[], map[];
      provinceCount := 0;
      isWrapAround := false;
    }

    /** 0 without an image, otherwise the image's height. */
    function Height(): (h: nat)
      reads this
      ensures mapImage == None ==> h == 0
      ensures mapImage != None ==> h == mapImage.value.height
    {
      if mapImage == None then 0 else mapImage.value.height
    }

    /** 0 without an image, otherwise the image's width. */
    function Width(): (w: nat)
      reads this
      ensures mapImage == None ==> w == 0
      ensures mapImage != None ==> w == mapImage.value.width
    {
      if mapImage == None then 0 else mapImage.value.width
    }

    function Contents(): MapContents
      reads this
    {
      MapContents(title, filename, isWrapAround, description, neighbours, terrainTypes, provinceCount, provinceNames)
    }

    /**
     * The lines of the `.map` file. Fails exactly when a province up to
     * `provinceCount`, or a neighbour one of them lists, has no flags.
     */
    method GenerateMapToDisk() returns (r: Result<seq<string>, MapError>)
      ensures r.Failure? <==> !Complete(Contents())
      ensures r.Success? ==> r.value == RenderAll(MapLines(Contents()))
    {
      var lines, written := WriteHeader();
      var ok;
      ok, lines, written := WriteTerrain(lines, written);
      if !ok {
        return Failure(MissingKey);
      }
      lines, written := WriteNeighbours(lines, written);
      ok, lines, written := WriteNoStarts(lines, written);
      if !ok {
        return Failure(MissingKey);
      }
      return Success(lines);
    }

    /** The title, image file, wrap-around flag, description and a blank line. */
    method WriteHeader() returns (lines: seq<string>, ghost written: seq<Line>)
      ensures written == Header(Contents()) && lines == RenderAll(written)
    {
      lines, written := [], [];
      lines, written := Emit(lines, written, DomTitle(title));
      lines, written := Emit(lines, written, ImageFile(filename));
      if isWrapAround {
        lines, written := Emit(lines, written, WrapAround);
      }
      lines, written := Emit(lines, written, Description(description));
      lines, written := Emit(lines, written, Blank);
    }

    /** For each province, its `#landname` line when it has a name, then its `#terrain` line. */
    method WriteTerrain(lines: seq<string>, ghost written: seq<Line>)
      returns (ok: bool, lines': seq<string>, ghost written': seq<Line>)
      requires lines == RenderAll(written)
      ensures ok <==> TerrainKnown(Contents(), provinceCount)
      ensures ok ==> written' == written + TerrainSection(Contents(), provinceCount) && lines' == RenderAll(written')
    {
      ghost var c := Contents();
      lines', written' := lines, written;
      var provinceId := 1;
      while provinceId <= provinceCount
        invariant 1 <= provinceId && (provinceId <= provinceCount + 1 || provinceId == 1)
        invariant TerrainKnown(c, provinceId - 1)
        invariant written' == written + TerrainSection(c, provinceId - 1)
        invariant lines' == RenderAll(written')
      {
        var known;
        known, lines', written' := WriteProvince(provinceId, lines', written');
        if !known {
          return false, lines', written';
        }
        provinceId := provinceId + 1;
      }
      return true, lines', written';
    }

    /** One province's `#landname` line when it has a name, then its `#terrain` line; fails without flags. */
    method WriteProvince(p: int, lines: seq<string>, ghost written: seq<Line>)
      returns (ok: bool, lines': seq<string>, ghost written': seq<Line>)
      requires lines == RenderAll(written)
      ensures ok <==> p in terrainTypes
      ensures ok ==> written' == written + ProvinceLines(Contents(), p) && lines' == RenderAll(written')
    {
      lines', written' := lines, written;
      if p in provinceNames {
        lines', written' := Emit(lines', written', LandName(p, provinceNames[p]));
      }
      if p !in terrainTypes {
        return false, lines', written';
      }
      lines', written' := Emit(lines', written', TerrainLine(p, terrainTypes[p]));
      return true, lines', written';
    }

    /** For each province with a neighbour entry, a `#neighbour` line per neighbour above it. */
    method WriteNeighbours(lines: seq<string>, ghost written: seq<Line>)
      returns (lines': seq<string>, ghost written': seq<Line>)
      requires lines == RenderAll(written)
      ensures written' == written + NeighbourSection(Contents(), provinceCount) && lines' == RenderAll(written')
    {
      ghost var c := Contents();
      lines', written' := lines, written;
      var provinceId := 1;
      while provinceId <= provinceCount
        invariant 1 <= provinceId && (provinceId <= provinceCount + 1 || provinceId == 1)
        invariant written' == written + NeighbourSection(c, provinceId - 1)
        invariant lines' == RenderAll(written')
      {
        if provinceId in neighbours {
          lines', written' := WriteAbove(provinceId, neighbours[provinceId], lines', written');
        }
        provinceId := provinceId + 1;
      }
    }

    /** A `#nostart` line for each province with no neighbour entry or at most 3 neighbours on its side of the coast. */
    method WriteNoStarts(lines: seq<string>, ghost written: seq<Line>)
      returns (ok: bool, lines': seq<string>, ghost written': seq<Line>)
      requires lines == RenderAll(written)
      requires TerrainKnown(Contents(), provinceCount)
      ensures ok <==> NeighboursKnown(Contents(), provinceCount)
      ensures ok ==> written' == written + NoStartSection(Contents(), provinceCount) && lines' == RenderAll(written')
    {
      ghost var c := Contents();
      lines', written' := lines, written;
      var provinceId := 1;
      while provinceId <= provinceCount
        invariant 1 <= provinceId && (provinceId <= provinceCount + 1 || provinceId == 1)
        invariant NeighboursKnown(c, provinceId - 1)
        invariant written' == written + NoStartSection(c, provinceId - 1)
        invariant lines' == RenderAll(written')
      {
        var isSea := HasFlag(terrainTypes[provinceId], Sea);
        var count := 0;
        if provinceId in neighbours {
          var known;
          known, count := CountSameSea(terrainTypes, isSea, neighbours[provinceId]);
          if !known {
            return false, lines', written';
          }
        }
        assert NeighboursKnown(c, provinceId);
        if provinceId !in neighbours || count <= 3 {
          lines', written' := Emit(lines', written', NoStartLine(provinceId));
        }
        provinceId := provinceId + 1;
      }
      return true, lines', written';
    }
  }

  /** The `#neighbour p q` lines for the q of a list above p. */
  method WriteAbove(p: int, list: seq<int>, lines: seq<string>, ghost written: seq<Line>)
    returns (lines': seq<string>, ghost written': seq<Line>)
    requires lines == RenderAll(written)
    ensures written' == written + Above(p, list) && lines' == RenderAll(written')
  {
    lines', written' := lines, written;
    var j := 0;
    while j < |list|
      invariant 0 <= j <= |list|
      invariant written' == written + Above(p, list[..j])
      invariant lines' == RenderAll(written')
    {
      assert list[..j + 1][..j] == list[..j];
      if list[j] > p {
        lines', written' := Emit(lines', written', NeighbourLine(p, list[j]));
      }
      j := j + 1;
    }
    assert list[..|list|] == list;
  }

  /**
   * `Where(n => TerrainTypes[n].HasFlag(Sea) == sea).Count()`: fails when
   * a listed id has no flags, else counts the ids on the `sea` side.
   */
  method CountSameSea(terrainTypes: map<int, Flags>, sea: bool, list: seq<int>) returns (ok: bool, count: nat)
    ensures ok <==> forall i :: 0 <= i < |list| ==> list[i] in terrainTypes
    ensures ok ==> count == SameSeaCount(terrainTypes, sea, list)
  {
    count := 0;
    var j := 0;
    while j < |list|
      invariant 0 <= j <= |list|
      invariant forall i :: 0 <= i < j ==> list[i] in terrainTypes
      invariant count == SameSeaCount(terrainTypes, sea, list[..j])
    {
      assert list[..j + 1][..j] == list[..j];
      if list[j] !in terrainTypes {
        return false, count;
      }
      if HasFlag(terrainTypes[list[j]], Sea) == sea {
        count := count + 1;
      }
      j := j + 1;
    }
    assert list[..|list|] == list;
    return true, count;
  }

  /** `WriteFormatLine`: one more line of text. */
  method Emit(lines: seq<string>, ghost written: seq<Line>, l: Line) returns (lines': seq<string>, ghost written': seq<Line>)
    requires lines == RenderAll(written)
    ensures written' == written + [l]
    ensures lines' == lines + [Render(l)] && lines' == RenderAll(written')
  {
    lines' := lines + [Render(l)];
    written' := written + [l];
  }

  // ---------------------------------------------------------------------
  // What the file says
  // ---------------------------------------------------------------------

  /** No line appears twice. */
  predicate NoRepeatLines(s: seq<Line>) {
    forall i, j :: 0 <= i < j < |s| ==> s[i] != s[j]
  }

  /** The terrain part holds only `#landname` and `#terrain` lines of provinces 1..k. */
  lemma {:induction false} TerrainSectionRange(c: MapContents, k: int)
    requires TerrainKnown(c, k)
    ensures forall i :: 0 <= i < |TerrainSection(c, k)| ==>
      Part(TerrainSection(c, k)[i]) == 1 && 1 <= TerrainSection(c, k)[i].province <= k
    decreases k
  {
    if k > 0 {
      TerrainSectionRange(c, k - 1);
      assert TerrainSection(c, k) == TerrainSection(c, k - 1) + ProvinceLines(c, k);
    }
  }

  /** There is a `#terrain p v` line exactly for the provinces p in 1..k, v being p's flags. */
  lemma {:induction false} TerrainLines(c: MapContents, k: int)
    requires TerrainKnown(c, k)
    ensures forall p, v :: TerrainLine(p, v) in TerrainSection(c, k) <==> 1 <= p <= k && v == c.terrainTypes[p]
    decreases k
  {
    if k > 0 {
      TerrainLines(c, k - 1);
      assert TerrainSection(c, k) == TerrainSection(c, k - 1) + ProvinceLines(c, k);
    }
  }

  /** There is a `#landname p n` line exactly for the named provinces p in 1..k, n being p's name. */
  lemma {:induction false} LandNameLines(c: MapContents, k: int)
    requires TerrainKnown(c, k)
    ensures forall p, n :: LandName(p, n) in TerrainSection(c, k) <==>
      1 <= p <= k && p in c.provinceNames && c.provinceNames[p] == n
    decreases k
  {
    if k > 0 {
      LandNameLines(c, k - 1);
      assert TerrainSection(c, k) == TerrainSection(c, k - 1) + ProvinceLines(c, k);
    }
  }

  /** `#terrain` lines come in strictly ascending province order, so one per province. */
  lemma {:induction false} TerrainAscending(c: MapContents, k: int)
    requires TerrainKnown(c, k)
    ensures forall i, j :: 0 <= i < j < |TerrainSection(c, k)| && TerrainSection(c, k)[i].TerrainLine? && TerrainSection(c, k)[j].TerrainLine? ==>
      TerrainSection(c, k)[i].province < TerrainSection(c, k)[j].province
    decreases k
  {
    if k > 0 {
      TerrainAscending(c, k - 1);
      TerrainSectionRange(c, k - 1);
      assert TerrainSection(c, k) == TerrainSection(c, k - 1) + ProvinceLines(c, k);
    }
  }

  /** A `#landname` line is followed by the same province's `#terrain` line. */
  lemma {:induction false} LandNameBeforeTerrain(c: MapContents, k: int)
    requires TerrainKnown(c, k)
    ensures forall i :: 0 <= i < |TerrainSection(c, k)| && TerrainSection(c, k)[i].LandName? ==>
      i + 1 < |TerrainSection(c, k)| && TerrainSection(c, k)[i + 1].TerrainLine?
      && TerrainSection(c, k)[i + 1].province == TerrainSection(c, k)[i].province
    decreases k
  {
    if k > 0 {
      LandNameBeforeTerrain(c, k - 1);
      assert TerrainSection(c, k) == TerrainSection(c, k - 1) + ProvinceLines(c, k);
    }
  }

  /** The lines for one list: `#neighbour p q` for the q above p, once each when the list has no repeats. */
  lemma {:induction false} AboveMeaning(p: int, qs: seq<int>)
    ensures forall i :: 0 <= i < |Above(p, qs)| ==> Above(p, qs)[i].NeighbourLine? && Above(p, qs)[i].province == p
    ensures forall q :: NeighbourLine(p, q) in Above(p, qs) <==> q in qs && q > p
    ensures Collections.NoRepeats(qs) ==> NoRepeatLines(Above(p, qs))
    decreases |qs|
  {
    if qs != [] {
      var init, last := qs[..|qs| - 1], qs[|qs| - 1];
      AboveMeaning(p, init);
      assert qs == init + [last];
      var tail := if last > p then [NeighbourLine(p, last)] else [];
      assert Above(p, qs) == Above(p, init) + tail;
      if Collections.NoRepeats(qs) {
        assert Collections.NoRepeats(init);
        assert last !in init;
      }
    }
  }

  /** The neighbour part holds only `#neighbour` lines of provinces 1..k, in ascending order of the first id. */
  lemma {:induction false} NeighbourSectionRange(c: MapContents, k: int)
    ensures forall i :: 0 <= i < |NeighbourSection(c, k)| ==>
      NeighbourSection(c, k)[i].NeighbourLine? && 1 <= NeighbourSection(c, k)[i].province <= k
    ensures forall i, j :: 0 <= i < j < |NeighbourSection(c, k)| ==>
      NeighbourSection(c, k)[i].province <= NeighbourSection(c, k)[j].province
    decreases k
  {
    if k > 0 {
      NeighbourSectionRange(c, k - 1);
      var last := if k in c.neighbours then Above(k, c.neighbours[k]) else [];
      if k in c.neighbours {
        AboveMeaning(k, c.neighbours[k]);
      }
      assert NeighbourSection(c, k) == NeighbourSection(c, k - 1) + last;
    }
  }

  /** `#neighbour p q` is written exactly when p is in 1..k, q is above p and q is listed for p. */
  lemma {:induction false} NeighbourLines(c: MapContents, k: int)
    ensures forall p, q :: NeighbourLine(p, q) in NeighbourSection(c, k) <==>
      1 <= p <= k && p < q && Adjacency.Linked(c.neighbours, p, q)
    decreases k
  {
    if k > 0 {
      NeighbourLines(c, k - 1);
      NeighbourSectionRange(c, k - 1);
      var last := if k in c.neighbours then Above(k, c.neighbours[k]) else [];
      if k in c.neighbours {
        AboveMeaning(k, c.neighbours[k]);
      }
      assert NeighbourSection(c, k) == NeighbourSection(c, k - 1) + last;
    }
  }

  /** With no list holding an id twice, no `#neighbour` line is written twice. */
  lemma {:induction false} NeighbourNoRepeats(c: MapContents, k: int)
    requires Adjacency.Distinct(c.neighbours)
    ensures NoRepeatLines(NeighbourSection(c, k))
    decreases k
  {
    if k > 0 {
      NeighbourNoRepeats(c, k - 1);
      NeighbourSectionRange(c, k - 1);
      var prev := NeighbourSection(c, k - 1);
      var last := if k in c.neighbours then Above(k, c.neighbours[k]) else [];
      if k in c.neighbours {
        assert Collections.NoRepeats(c.neighbours[k]);
        AboveMeaning(k, c.neighbours[k]);
      }
      assert NeighbourSection(c, k) == prev + last;
      forall i, j | 0 <= i < j < |prev + last| ensures (prev + last)[i] != (prev + last)[j] {
        if i < |prev| && j >= |prev| {
          assert prev[i].province < k;
        }
      }
    }
  }

  /**
   * With a symmetric neighbour table whose lists hold no id twice, every
   * linked pair of provinces in 1..k is written, smaller id first, never
   * the other way round, and no line twice.
   */
  lemma PairWrittenOnce(c: MapContents, k: int, a: int, b: int)
    requires Adjacency.Distinct(c.neighbours)
    requires forall x, y :: Adjacency.Linked(c.neighbours, x, y) ==> Adjacency.Linked(c.neighbours, y, x)
    requires 1 <= a < b <= k && Adjacency.Linked(c.neighbours, b, a)
    ensures NeighbourLine(a, b) in NeighbourSection(c, k)
    ensures NeighbourLine(b, a) !in NeighbourSection(c, k)
    ensures NoRepeatLines(NeighbourSection(c, k))
  {
    NeighbourLines(c, k);
    NeighbourNoRepeats(c, k);
    assert Adjacency.Linked(c.neighbours, a, b);
  }

  /**
   * `#nostart p` is written exactly for the provinces p in 1..k that have
   * no neighbour entry or at most 3 neighbours on their side of the coast,
   * in strictly ascending order, so once each.
   */
  lemma {:induction false} NoStartLines(c: MapContents, k: int)
    requires TerrainKnown(c, k) && NeighboursKnown(c, k)
    ensures forall i :: 0 <= i < |NoStartSection(c, k)| ==>
      NoStartSection(c, k)[i].NoStartLine? && 1 <= NoStartSection(c, k)[i].province <= k
    ensures forall p :: NoStartLine(p) in NoStartSection(c, k) <==> 1 <= p <= k && NoStart(c, p)
    ensures forall i, j :: 0 <= i < j < |NoStartSection(c, k)| ==>
      NoStartSection(c, k)[i].province < NoStartSection(c, k)[j].province
    decreases k
  {
    if k > 0 {
      NoStartLines(c, k - 1);
      var last := if NoStart(c, k) then [NoStartLine(k)] else [];
      assert NoStartSection(c, k) == NoStartSection(c, k - 1) + last;
    }
  }

  /** At most as many neighbours agree as there are neighbours. */
  lemma {:induction false} SameSeaCountBound(terrainTypes: map<int, Flags>, sea: bool, qs: seq<int>)
    requires forall i :: 0 <= i < |qs| ==> qs[i] in terrainTypes
    ensures SameSeaCount(terrainTypes, sea, qs) <= |qs|
    decreases |qs|
  {
    if qs != [] {
      SameSeaCountBound(terrainTypes, sea, qs[..|qs| - 1]);
    }
  }

  /** A province with at most 3 neighbours is never a start. */
  lemma FewNeighboursNoStart(c: MapContents, p: int)
    requires 1 <= p && p in c.terrainTypes && NeighboursKnown(c, p)
    requires p in c.neighbours ==> |c.neighbours[p]| <= 3
    ensures NoStart(c, p)
  {
    if p in c.neighbours {
      SameSeaCountBound(c.terrainTypes, HasFlag(c.terrainTypes[p], Sea), c.neighbours[p]);
    }
  }

  /** The parts come in order: header, terrain, neighbours, nostart. */
  lemma SectionsInOrder(c: MapContents)
    requires Complete(c)
    ensures forall i, j :: 0 <= i < j < |MapLines(c)| ==> Part(MapLines(c)[i]) <= Part(MapLines(c)[j])
  {
    var n := c.provinceCount;
    var h, t, nb, ns := Header(c), TerrainSection(c, n), NeighbourSection(c, n), NoStartSection(c, n);
    TerrainSectionRange(c, n);
    NeighbourSectionRange(c, n);
    NoStartLines(c, n);
    assert forall i :: 0 <= i < |t| ==> Part(t[i]) == 1;
    assert forall i :: 0 <= i < |nb| ==> Part(nb[i]) == 2;
    assert forall i :: 0 <= i < |ns| ==> Part(ns[i]) == 3;
    PartsInOrder(h, t, nb, ns);
  }

  lemma PartsInOrder(h: seq<Line>, t: seq<Line>, nb: seq<Line>, ns: seq<Line>)
    requires forall i :: 0 <= i < |h| ==> Part(h[i]) == 0
    requires forall i :: 0 <= i < |t| ==> Part(t[i]) == 1
    requires forall i :: 0 <= i < |nb| ==> Part(nb[i]) == 2
    requires forall i :: 0 <= i < |ns| ==> Part(ns[i]) == 3
    ensures forall i, j :: 0 <= i < j < |h + t + nb + ns| ==> Part((h + t + nb + ns)[i]) <= Part((h + t + nb + ns)[j])
  {
    var all := h + t + nb + ns;
    forall i | 0 <= i < |all|
      ensures Part(all[i]) == if i < |h| then 0 else if i < |h| + |t| then 1 else if i < |h| + |t| + |nb| then 2 else 3
    {
      if i < |h| {
        assert all[i] == h[i];
      } else if i < |h| + |t| {
        assert all[i] == t[i - |h|];
      } else if i < |h| + |t| + |nb| {
        assert all[i] == nb[i - |h| - |t|];
      } else {
        assert all[i] == ns[i - |h| - |t| - |nb|];
      }
    }
  }

  /** A province listing a neighbour id without flags (0 for a missed lookup, say) makes the writer fail. */
  lemma UnknownNeighbourFails(c: MapContents, p: int, q: int)
    requires 1 <= p <= c.provinceCount && Adjacency.Linked(c.neighbours, p, q) && q !in c.terrainTypes
    ensures !Complete(c)
  {
    var i :| 0 <= i < |c.neighbours[p]| && c.neighbours[p][i] == q;
  }

  // ---------------------------------------------------------------------
  // SaveMapToDisk
  // ---------------------------------------------------------------------

  /** `String.Replace(c, d)`: every c becomes d. */
  function Replace(s: string, c: char, d: char): (r: string)
    ensures |r| == |s|
    ensures forall i :: 0 <= i < |s| ==> r[i] == if s[i] == c then d else s[i]
  {
    if s == [] then [] else Replace(s[..|s| - 1], c, d) + [if s[|s| - 1] == c then d else s[|s| - 1]]
  }

  /**
   * The file name made from a title: each invalid path character in turn
   * is replaced by '_'. A character of the title becomes '_' exactly when
   * it is invalid, so no invalid character survives when '_' is valid.
   */
  method SanitizeFilename(title: string, invalid: seq<char>) returns (filename: string)
    ensures |filename| == |title|
    ensures forall i :: 0 <= i < |title| ==> filename[i] == if title[i] in invalid then '_' else title[i]
    ensures '_' !in invalid ==> forall i :: 0 <= i < |filename| ==> filename[i] !in invalid
  {
    filename := title;
    for k := 0 to |invalid|
      invariant |filename| == |title|
      invariant forall i :: 0 <= i < |title| ==> filename[i] == if title[i] in invalid[..k] then '_' else title[i]
    {
      assert invalid[..k + 1] == invalid[..k] + [invalid[k]];
      filename := Replace(filename, invalid[k], '_');
    }
    assert invalid[..|invalid|] == invalid;
  }

  /** The sentence `chkShowProvCount` appends to the description. */
  function ProvinceCountText(newline: string, totalProvinces: int, seaProvinces: int): string {
    newline + "Land Provinces: " + IntToString(totalProvinces - seaProvinces)
      + ", Sea Provinces: " + IntToString(seaProvinces)
      + ", Total Provinces: " + IntToString(totalProvinces)
  }

  /**
   * Saving: a non-empty title text becomes the title and, sanitised, the
   * file name; a non-empty description text replaces the description; the
   * province counts are appended when asked for; then the file is written.
   */
  method SaveMapToDisk(m: Dominions3Map, titleText: string, descText: string, invalid: seq<char>,
                       showCount: bool, totalProvinces: int, seaProvinces: int, newline: string)
    returns (r: Result<seq<string>, MapError>)
    modifies m
    ensures titleText != "" ==> m.title == titleText && |m.filename| == |titleText|
    ensures titleText != "" ==>
      forall i :: 0 <= i < |titleText| ==> m.filename[i] == if titleText[i] in invalid then '_' else titleText[i]
    ensures titleText == "" ==> m.title == old(m.title) && m.filename == old(m.filename)
    ensures m.description == (if descText != "" then descText else old(m.description))
      + (if showCount then ProvinceCountText(newline, totalProvinces, seaProvinces) else "")
    ensures m.mapImage == old(m.mapImage) && m.neighbours == old(m.neighbours) && m.terrainTypes == old(m.terrainTypes)
    ensures m.provinceCount == old(m.provinceCount) && m.isWrapAround == old(m.isWrapAround)
    ensures m.provinceNames == old(m.provinceNames)
    ensures r.Failure? <==> !Complete(m.Contents())
    ensures r.Success? ==> r.value == RenderAll(MapLines(m.Contents()))
  {
    if titleText != "" {
      m.title := titleText;
      m.filename := SanitizeFilename(m.title, invalid);
    }
    if descText != "" {
      m.description := descText;
    }
    if showCount {
      m.description := m.description + ProvinceCountText(newline, totalProvinces, seaProvinces);
    }
    r := m.GenerateMapToDisk();
  }
}
