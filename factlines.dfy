/** `make_fact_lines`: one line per fact on a shared figure. The palette of
    the size of the number of distinct facts is copied into a list; the rows
    are sorted by fact name and grouped by it; each group becomes a line
    through its (timestamp, value) points, labelled with the fact's name and
    coloured with the colour popped from the end of that list. */
module FactLines {
  import opened Wrappers
  import opened Ordering
  import opened Records
  import opened Resample

  type Colour = string

  /** One (x, y) pair of a line: a timestamp and the value there. */
  datatype Point = Point(ts: int, value: Option<real>)

  /** What one `plot.line(x, y, legend_label=..., color=...)` call draws. */
  datatype Line = Line(legend: string, points: seq<Point>, colour: Colour)

  /** The figure, reduced to the lines drawn on it, in drawing order. */
  class Plot {
    var lines: seq<Line>

    constructor()
      ensures lines == []
    {
      lines := [];
    }

    /** `plot.line(...)`: adds one line on top of those already drawn. */
    method DrawLine(legend: string, points: seq<Point>, colour: Colour)
      modifies this
      ensures lines == old(lines) + [Line(legend, points, colour)]
    {
      lines := lines + [Line(legend, points, colour)];
    }
  }

  /** `COLORMAP`: a family of palettes indexed by size, the palette filed
      under `k` holding `k` colours. */
  predicate PaletteTable(colormap: map<nat, seq<Colour>>)
  {
    forall k :: k in colormap ==> |colormap[k]| == k
  }

  /** The colours of ColorBrewer's Dark2 scheme, in order. */
  const Dark2Colours: seq<Colour> :=
    ["#1b9e77", "#d95f02", "#7570b3", "#e7298a", "#66a61e", "#e6ab02", "#a6761d", "#666666"]

  /** `palettes.Dark2`: the scheme in sizes 3 to 8, the palette of size `k`
      being its first `k` colours. */
  const Dark2: map<nat, seq<Colour>> := map k: nat | 3 <= k <= 8 :: Dark2Colours[..k]

  /** Dark2 is a palette table with no colour twice in a palette, and only
      fact counts from 3 to 8 have a palette. */
  lemma Dark2Palettes()
    ensures PaletteTable(Dark2)
    ensures forall k: nat :: k in Dark2 <==> 3 <= k <= 8
    ensures forall k, i, j :: k in Dark2 && 0 <= i < j < |Dark2[k]| ==> Dark2[k][i] != Dark2[k][j]
  {
  }

  /** The points `zip(*[(ts, value), ...])` hands to `plot.line`. */
  function Points(rows: seq<Row>): seq<Point>
  {
    seq(|rows|, k requires 0 <= k < |rows| => Point(rows[k].ts, rows[k].value))
  }

  /** The points of fact `n`: its rows, in input order. */
  function PointsOf(data: seq<Row>): string -> seq<Point>
  {
    n => Points(OfFact(data, n))
  }

  /** The lines of the groups `ns`, in order: the `i`-th group gets the
      `i`-th colour from the end of `palette`. */
  function LinesFor(palette: seq<Colour>, ns: seq<string>, points: string -> seq<Point>): seq<Line>
    requires |ns| <= |palette|
  {
    if ns == [] then []
    else
      var n := ns[|ns| - 1];
      LinesFor(palette, ns[..|ns| - 1], points) + [Line(n, points(n), palette[|palette| - |ns|])]
  }

  /** The lines `make_fact_lines` draws when the palette for the number of
      distinct facts is `palette`. */
  function DrawnLines(palette: seq<Colour>, data: seq<Row>): seq<Line>
    requires |palette| == |Names(data)|
  {
    SortedNamesSpec(data);
    LinesFor(palette, SortedNames(data), PointsOf(data))
  }

  function Legends(lines: seq<Line>): seq<string>
  {
    seq(|lines|, k requires 0 <= k < |lines| => lines[k].legend)
  }

  // ---------------------------------------------------------------------
  // The method
  // ---------------------------------------------------------------------

  /** `make_fact_lines(plot, data)`. Looking up a palette size the table
      lacks raises a KeyError before anything is drawn; otherwise the lines
      of `DrawnLines` are drawn, in order, on top of those already there. */
  method MakeFactLines(plot: Plot, colormap: map<nat, seq<Colour>>, data: seq<Row>)
    returns (r: Outcome<Error>)
    requires PaletteTable(colormap)
    modifies plot
    ensures |Names(data)| !in colormap ==>
      r == Fail(NoSuchPalette(|Names(data)|)) && plot.lines == old(plot.lines)
    ensures |Names(data)| in colormap ==>
      r == Pass && plot.lines == old(plot.lines) + DrawnLines(colormap[|Names(data)|], data)
  {
    var n := |Names(data)|;
    if n !in colormap {
      return Fail(NoSuchPalette(n));
    }
    var palette := colormap[n];
    assert |palette| == n;
    var cmap := palette;
    var sorted := SortBy(ByName, data);
    ghost var base := plot.lines;
    var i := 0;
    assert plot.lines == base + LinesFor(palette, RunNames(sorted[..i]), PointsOf(data)) by {
      assert sorted[..0] == [];
    }
    while i < |sorted|
      invariant i <= |sorted|
      invariant 0 < i < |sorted| ==> sorted[i - 1].name != sorted[i].name
      invariant |RunNames(sorted[..i])| + |cmap| == |palette|
      invariant forall k :: 0 <= k < |cmap| ==> cmap[k] == palette[k]
      invariant plot.lines == base + LinesFor(palette, RunNames(sorted[..i]), PointsOf(data))
    {
      i, cmap := DrawNextGroup(plot, palette, data, sorted, i, cmap, base);
    }
    assert plot.lines == base + DrawnLines(palette, data) by {
      assert sorted[..i] == sorted;
    }
    return Pass;
  }

  /** One turn of the loop: the group starting at `i` ends at `j` and is
      drawn with the colour popped from the end of `cmap`. */
  method DrawNextGroup(plot: Plot, palette: seq<Colour>, data: seq<Row>, sorted: seq<Row>,
                       i: nat, cmap: seq<Colour>, ghost base: seq<Line>)
    returns (j: nat, rest: seq<Colour>)
    requires sorted == SortBy(ByName, data) && |palette| == |Names(data)|
    requires i < |sorted|
    requires i == 0 || sorted[i - 1].name != sorted[i].name
    requires |RunNames(sorted[..i])| + |cmap| == |palette|
    requires forall k :: 0 <= k < |cmap| ==> cmap[k] == palette[k]
    requires plot.lines == base + LinesFor(palette, RunNames(sorted[..i]), PointsOf(data))
    modifies plot
    ensures i < j <= |sorted|
    ensures forall k :: i <= k < j ==> sorted[k].name == sorted[i].name
    ensures j < |sorted| ==> sorted[j - 1].name != sorted[j].name
    ensures cmap != [] && rest == cmap[..|cmap| - 1]
    ensures |RunNames(sorted[..j])| + |rest| == |palette|
    ensures forall k :: 0 <= k < |rest| ==> rest[k] == palette[k]
    ensures plot.lines == base + LinesFor(palette, RunNames(sorted[..j]), PointsOf(data))
  {
    var key := sorted[i].name;
    j := RunEnd(sorted, i);
    GroupKeysBound(palette, data, sorted, j);
    GroupIsOfFact(data, sorted, i, j);
    assert PointsOf(data)(key) == Points(sorted[i..j]);
    LinesForAppend(palette, RunNames(sorted[..i]), key, PointsOf(data));
    ghost var before := plot.lines;
    rest := DrawGroup(plot, key, Points(sorted[i..j]), cmap);
    NextGroupDrawn(palette, RunNames(sorted[..i]), RunNames(sorted[..j]), PointsOf(data),
                   Points(sorted[i..j]), cmap, rest, base, before, plot.lines);
  }

  /** Drawing the line of the next key `seen'[|seen|]` with the colour popped
      from `cmap` carries the loop's facts from the keys `seen` to `seen'`:
      one colour fewer, one line more. */
  lemma {:induction false} NextGroupDrawn(palette: seq<Colour>, seen: seq<string>, seen': seq<string>,
                                          points: string -> seq<Point>, group: seq<Point>, cmap: seq<Colour>,
                                          rest: seq<Colour>, base: seq<Line>, before: seq<Line>, after: seq<Line>)
    requires |seen'| == |seen| + 1 <= |palette|
    requires LinesFor(palette, seen', points)
      == LinesFor(palette, seen, points) + [Line(seen'[|seen|], group, palette[|palette| - |seen| - 1])]
    requires |seen| + |cmap| == |palette|
    requires forall k :: 0 <= k < |cmap| ==> cmap[k] == palette[k]
    requires before == base + LinesFor(palette, seen, points)
    requires cmap != [] && rest == cmap[..|cmap| - 1]
    requires after == before + [Line(seen'[|seen|], group, cmap[|cmap| - 1])]
    ensures |seen'| + |rest| == |palette|
    ensures forall k :: 0 <= k < |rest| ==> rest[k] == palette[k]
    ensures after == base + LinesFor(palette, seen', points)
  {
    var drawn := LinesFor(palette, seen, points);
    var line := Line(seen'[|seen|], group, palette[|palette| - |seen| - 1]);
    assert after == (base + drawn) + [line] by {
      assert cmap[|cmap| - 1] == palette[|palette| - |seen| - 1];
    }
    assert (base + drawn) + [line] == base + (drawn + [line]);
  }

  /** `plot.line(x, y, legend_label=key, color=cmap.pop())`. */
  method DrawGroup(plot: Plot, key: string, points: seq<Point>, cmap: seq<Colour>)
    returns (rest: seq<Colour>)
    requires cmap != []
    modifies plot
    ensures rest == cmap[..|cmap| - 1]
    ensures plot.lines == old(plot.lines) + [Line(key, points, cmap[|cmap| - 1])]
  {
    var colour := cmap[|cmap| - 1];
    rest := cmap[..|cmap| - 1];
    plot.DrawLine(key, points, colour);
  }

  /** No prefix of the sorted rows has more group keys than there are
      colours in the palette for the number of facts. */
  lemma {:induction false} GroupKeysBound(palette: seq<Colour>, data: seq<Row>, sorted: seq<Row>, j: nat)
    requires sorted == SortBy(ByName, data) && |palette| == |Names(data)|
    requires j <= |sorted|
    ensures |RunNames(sorted[..j])| <= |palette|
  {
    SortedNamesSpec(data);
    RunNamesPrefix(sorted, j);
    assert sorted[..|sorted|] == sorted;
  }

  /** A whole run of the rows sorted by name is all the rows of its fact,
      in input order. */
  lemma {:induction false} GroupIsOfFact(data: seq<Row>, sorted: seq<Row>, i: nat, j: nat)
    requires sorted == SortBy(ByName, data)
    requires i < j <= |sorted|
    requires forall k :: i <= k < j ==> sorted[k].name == sorted[i].name
    requires i == 0 || sorted[i - 1].name != sorted[i].name
    requires j == |sorted| || sorted[j].name != sorted[i].name
    ensures OfFact(data, sorted[i].name) == sorted[i..j]
  {
    SortBySorted(ByName, data);
    SortedByNameSorted(ByName, sorted);
    RunIsOfFact(sorted, i, j, sorted[i].name);
    SortByNameStable(data, sorted[i].name);
  }

  // ---------------------------------------------------------------------
  // What the lines are
  // ---------------------------------------------------------------------

  lemma {:induction false} LinesForAppend(palette: seq<Colour>, ns: seq<string>, n: string, points: string -> seq<Point>)
    requires |ns| < |palette|
    ensures LinesFor(palette, ns + [n], points)
      == LinesFor(palette, ns, points) + [Line(n, points(n), palette[|palette| - |ns| - 1])]
  {
    var m := ns + [n];
    assert m[..|m| - 1] == ns && m[|m| - 1] == n;
    assert LinesFor(palette, m, points)
      == LinesFor(palette, m[..|m| - 1], points) + [Line(m[|m| - 1], points(m[|m| - 1]), palette[|palette| - |m|])];
  }

  /** The `i`-th group's line is labelled with its name, carries that
      fact's points and has the `i`-th colour from the end of the palette. */
  lemma {:induction false} LinesForSpec(palette: seq<Colour>, ns: seq<string>, points: string -> seq<Point>)
    requires |ns| <= |palette|
    ensures var r := LinesFor(palette, ns, points);
      && |r| == |ns|
      && (forall i :: 0 <= i < |r| ==> r[i].legend == ns[i])
      && (forall i :: 0 <= i < |r| ==> r[i].points == points(ns[i]))
      && (forall i :: 0 <= i < |r| ==> r[i].colour == palette[|palette| - 1 - i])
    decreases |ns|
  {
    if ns != [] {
      LinesForSpec(palette, ns[..|ns| - 1], points);
    }
  }

  /** One line per fact of `data`, labels ascending: each line is the fact's
      rows, in their input order, coloured from the end of the palette
      towards its front. */
  lemma FactLinesSpec(palette: seq<Colour>, data: seq<Row>)
    requires |palette| == |Names(data)|
    ensures var r := DrawnLines(palette, data);
      && |r| == |Names(data)|
      && StrictlyAscending(Legends(r))
      && (forall n :: n in Legends(r) <==> n in Names(data))
      && (forall i :: 0 <= i < |r| ==> r[i].points == Points(OfFact(data, r[i].legend)))
      && (forall i :: 0 <= i < |r| ==> r[i].points != [])
      && (forall i :: 0 <= i < |r| ==> r[i].colour == palette[|palette| - 1 - i])
  {
    var ns := SortedNames(data);
    SortedNamesSpec(data);
    LinesForSpec(palette, ns, PointsOf(data));
    var r := DrawnLines(palette, data);
    assert Legends(r) == ns;
    forall i | 0 <= i < |r|
      ensures r[i].points != []
    {
      assert ns[i] in ns;
      OfFactMembers(data, ns[i]);
    }
  }

  /** With a palette of distinct colours no two lines share a colour. */
  lemma FactLinesDistinctColours(palette: seq<Colour>, data: seq<Row>)
    requires |palette| == |Names(data)|
    requires forall i, j :: 0 <= i < j < |palette| ==> palette[i] != palette[j]
    ensures var r := DrawnLines(palette, data);
      forall i, j :: 0 <= i < j < |r| ==> r[i].colour != r[j].colour
  {
    FactLinesSpec(palette, data);
    var r := DrawnLines(palette, data);
    forall i, j | 0 <= i < j < |r|
      ensures r[i].colour != r[j].colour
    {
      var a, b := |palette| - 1 - j, |palette| - 1 - i;
      assert palette[a] != palette[b];
    }
  }

  /** With the Dark2 table, three to eight facts are drawn in as many
      different colours. */
  lemma Dark2LinesDistinct(data: seq<Row>)
    requires 3 <= |Names(data)| <= 8
    ensures |Names(data)| in Dark2 && |Dark2[|Names(data)|]| == |Names(data)|
    ensures var r := DrawnLines(Dark2[|Names(data)|], data);
      forall i, j :: 0 <= i < j < |r| ==> r[i].colour != r[j].colour
  {
    Dark2Palettes();
    FactLinesDistinctColours(Dark2[|Names(data)|], data);
  }

  /** Which fact gets which colour depends only on the set of facts, not on
      how many rows each has or in which order they arrive. */
  lemma {:induction false} FactLinesDependOnNames(palette: seq<Colour>, d1: seq<Row>, d2: seq<Row>)
    requires |palette| == |Names(d1)| && Names(d1) == Names(d2)
    ensures var r1, r2 := DrawnLines(palette, d1), DrawnLines(palette, d2);
      && |r1| == |r2|
      && (forall i :: 0 <= i < |r1| ==> r1[i].legend == r2[i].legend && r1[i].colour == r2[i].colour)
  {
    SortedNamesSpec(d1);
    SortedNamesSpec(d2);
    StrictlyAscendingUnique(SortedNames(d1), SortedNames(d2));
    LinesForSpec(palette, SortedNames(d1), PointsOf(d1));
    LinesForSpec(palette, SortedNames(d2), PointsOf(d2));
  }

  /** Plotting a regularised result draws, for each fact of the raw rows,
      the points of that fact's series. */
  lemma {:induction false} FactLinesOfRegularized(palette: seq<Colour>, data: seq<Fact>)
    requires |palette| == |Names(data)|
    ensures |palette| == |Names(Regularized(data))|
    ensures var r := DrawnLines(palette, Regularized(data));
      && (forall n :: n in Legends(r) <==> n in Names(data))
      && (forall i :: 0 <= i < |r| ==> r[i].points == Points(Series(r[i].legend, OfFact(data, r[i].legend))))
  {
    var reg := Regularized(data);
    assert Names(reg) == Names(data) by {
      RegularizedNames(data);
    }
    forall n | n in Names(data)
      ensures OfFact(reg, n) == SeriesOf(data)(n)
    {
      RegularizedPerFact(data, n);
    }
    LinesOfBlocks(palette, reg, Names(data), SeriesOf(data));
  }

  /** The lines of rows whose fact `n` is the block `block(n)`, for each
      fact of `names`, carry those blocks' points. */
  lemma {:induction false} LinesOfBlocks(palette: seq<Colour>, rows: seq<Row>, names: set<string>,
                                         block: string -> seq<Row>)
    requires Names(rows) == names && |palette| == |names|
    requires forall n :: n in names ==> OfFact(rows, n) == block(n)
    ensures var r := DrawnLines(palette, rows);
      && (forall n :: n in Legends(r) <==> n in names)
      && (forall i :: 0 <= i < |r| ==> r[i].points == Points(block(r[i].legend)))
  {
    FactLinesSpec(palette, rows);
    var r := DrawnLines(palette, rows);
    forall i | 0 <= i < |r|
      ensures r[i].points == Points(block(r[i].legend))
    {
      assert Legends(r)[i] == r[i].legend;
    }
  }
}
