/** Day 11: an image of galaxies. Every column and every row without a galaxy is doubled,
    the galaxies are listed row by row, and the Manhattan distance of every pair is taken. */
module Day11 {
  import opened Common

  datatype Space = Galaxy | EmptySpace

  /** `get_space_data_point_from_char`: `.` and `#`; any other character is an error (None). */
  function SpaceFromChar(c: char): (r: Option<Space>)
    ensures r == Some(EmptySpace) <==> c == '.'
    ensures r == Some(Galaxy) <==> c == '#'
    ensures r.None? <==> c != '.' && c != '#'
  {
    if c == '.' then Some(EmptySpace) else if c == '#' then Some(Galaxy) else None
  }

  type Line = seq<Space>

  predicate AllEmpty(line: Line) {
    forall i :: 0 <= i < |line| ==> line[i] == EmptySpace
  }

  /** Each line, followed by a copy of it when it holds no galaxy. */
  function ExpandLines(lines: seq<Line>): (r: seq<Line>)
    ensures forall i :: 0 <= i < |r| ==> r[i] in lines
  {
    if lines == [] then []
    else
      var last := lines[|lines| - 1];
      ExpandLines(lines[..|lines| - 1]) + (if AllEmpty(last) then [last, last] else [last])
  }

  /** `expand_universe`: double the empty columns, then the empty rows. */
  function Expand(image: seq<Line>, width: nat): seq<Line>
    requires Rect(image, width)
  {
    ExpandLines(Transpose(ExpandLines(Transpose(image, width)), |image|))
  }

  /** One pass of `expand_universe`: push every line, and push it again when it is empty. */
  method ExpandLinesLoop(lines: seq<Line>) returns (expanded: seq<Line>)
    ensures expanded == ExpandLines(lines)
  {
    expanded := [];
    for i := 0 to |lines|
      invariant expanded == ExpandLines(lines[..i])
    {
      assert lines[..i + 1][..i] == lines[..i];
      expanded := expanded + [lines[i]];
      if AllEmpty(lines[i]) {
        expanded := expanded + [lines[i]];
      }
    }
    assert lines[..|lines|] == lines;
  }

  /** `expand_universe` as the source runs it, column pass first. */
  method ExpandUniverse(image: seq<Line>, width: nat) returns (expanded: seq<Line>)
    requires Rect(image, width)
    ensures expanded == Expand(image, width)
  {
    var columns := ExpandLinesLoop(Transpose(image, width));
    expanded := ExpandLinesLoop(Transpose(columns, |image|));
  }

  function EmptyCount(lines: seq<Line>): nat {
    if lines == [] then 0
    else EmptyCount(lines[..|lines| - 1]) + (if AllEmpty(lines[|lines| - 1]) then 1 else 0)
  }

  /** Doubling adds one line per empty line. */
  lemma {:induction false} ExpandLinesLength(lines: seq<Line>)
    ensures |ExpandLines(lines)| == |lines| + EmptyCount(lines)
  {
    if lines != [] {
      ExpandLinesLength(lines[..|lines| - 1]);
    }
  }

  /** Every expanded line is an original line, and every original line is kept. */
  lemma {:induction false} ExpandLinesSameLines(lines: seq<Line>)
    ensures forall l :: l in ExpandLines(lines) <==> l in lines
  {
    if lines != [] {
      ExpandLinesSameLines(lines[..|lines| - 1]);
      assert lines == lines[..|lines| - 1] + [lines[|lines| - 1]];
    }
  }

  /** A row of the column-expanded image is empty exactly when the original row is. */
  lemma RowEmptyAfterColumns(image: seq<Line>, width: nat, k: nat)
    requires Rect(image, width) && k < |image|
    ensures var cols := ExpandLines(Transpose(image, width));
      AllEmpty(Transpose(cols, |image|)[k]) <==> AllEmpty(image[k])
  {
    var t := Transpose(image, width);
    var cols := ExpandLines(t);
    var row := Transpose(cols, |image|)[k];
    ExpandLinesSameLines(t);
    if AllEmpty(image[k]) {
      forall j | 0 <= j < |row|
        ensures row[j] == EmptySpace
      {
        assert cols[j] in t;
        var c :| 0 <= c < width && t[c] == cols[j];
      }
    }
    if AllEmpty(row) {
      forall c | 0 <= c < width
        ensures image[k][c] == EmptySpace
      {
        assert t[c] in cols;
        var j :| 0 <= j < |cols| && cols[j] == t[c];
        assert row[j] == cols[j][k];
      }
    }
  }

  lemma {:induction false} EmptyCountSame(a: seq<Line>, b: seq<Line>)
    requires |a| == |b| && forall k :: 0 <= k < |a| ==> (AllEmpty(a[k]) <==> AllEmpty(b[k]))
    ensures EmptyCount(a) == EmptyCount(b)
  {
    if a != [] {
      EmptyCountSame(a[..|a| - 1], b[..|b| - 1]);
    }
  }

  /** The expanded image is as wide as the image plus its empty columns, and as high as the
      image plus its empty rows. */
  lemma ExpandSize(image: seq<Line>, width: nat)
    requires Rect(image, width)
    ensures var columns := Transpose(image, width);
      Rect(Expand(image, width), width + EmptyCount(columns))
      && |Expand(image, width)| == |image| + EmptyCount(image)
  {
    var t := Transpose(image, width);
    var cols := ExpandLines(t);
    ExpandLinesLength(t);
    var rows := Transpose(cols, |image|);
    ExpandLinesLength(rows);
    forall k | 0 <= k < |image|
      ensures AllEmpty(rows[k]) <==> AllEmpty(image[k])
    {
      RowEmptyAfterColumns(image, width, k);
    }
    EmptyCountSame(rows, image);
  }

  function CountLine(line: Line): nat {
    multiset(line)[Galaxy]
  }

  /** The number of galaxies in the lines. */
  function CountAll(lines: seq<Line>): nat {
    if lines == [] then 0 else CountAll(lines[..|lines| - 1]) + CountLine(lines[|lines| - 1])
  }

  /** Doubling only empty lines keeps the number of galaxies. */
  lemma {:induction false} ExpandLinesCount(lines: seq<Line>)
    ensures CountAll(ExpandLines(lines)) == CountAll(lines)
  {
    if lines != [] {
      var init, last := lines[..|lines| - 1], lines[|lines| - 1];
      ExpandLinesCount(init);
      var e := ExpandLines(init);
      if AllEmpty(last) {
        assert Galaxy !in multiset(last);
        CountAllAppend(e, last);
        CountAllAppend(e + [last], last);
        assert e + [last, last] == e + [last] + [last];
      } else {
        CountAllAppend(e, last);
      }
    }
  }

  lemma CountAllAppend(lines: seq<Line>, l: Line)
    ensures CountAll(lines + [l]) == CountAll(lines) + CountLine(l)
  {
    assert (lines + [l])[..|lines|] == lines;
  }

  lemma CountLineAppend(line: Line, c: Space)
    ensures CountLine(line + [c]) == CountLine(line) + CountLine([c])
  {
    assert multiset(line + [c]) == multiset(line) + multiset([c]);
  }

  /** Every line of a with the matching cell of l added at its end. */
  function Extended(a: seq<Line>, l: Line): (r: seq<Line>)
    requires |a| == |l|
    ensures |r| == |a|
  {
    seq(|a|, c requires 0 <= c < |a| => a[c] + [l[c]])
  }

  lemma ExtendedPrefix(a: seq<Line>, l: Line, n: nat)
    requires |a| == |l| && n <= |a|
    ensures Extended(a, l)[..n] == Extended(a[..n], l[..n])
  {
  }

  /** Adding one cell to the end of every line adds the galaxies among those cells. */
  lemma {:induction false} CountAllExtended(a: seq<Line>, l: Line)
    requires |a| == |l|
    ensures CountAll(Extended(a, l)) == CountAll(a) + CountLine(l)
  {
    var ext := Extended(a, l);
    if a != [] {
      var n := |a| - 1;
      var a', l' := a[..n], l[..n];
      CountAllExtended(a', l');
      ExtendedPrefix(a, l, n);
      assert CountAll(ext) == CountAll(Extended(a', l')) + CountLine(a[n] + [l[n]]);
      CountLineAppend(a[n], l[n]);
      assert l == l' + [l[n]];
      CountLineAppend(l', l[n]);
    }
  }

  /** Transposing keeps the number of galaxies. */
  lemma {:induction false} TransposeCount(lines: seq<Line>, n: nat)
    requires Rect(lines, n)
    ensures CountAll(Transpose(lines, n)) == CountAll(lines)
  {
    if lines == [] {
      var t := Transpose(lines, n);
      forall c | 0 <= c < n
        ensures t[c] == []
      {
      }
      ZeroLines(t);
    } else {
      var init, last := lines[..|lines| - 1], lines[|lines| - 1];
      TransposeCount(init, n);
      var t := Transpose(init, n);
      var t' := Transpose(lines, n);
      forall c | 0 <= c < n
        ensures t'[c] == t[c] + [last[c]]
      {
        assert |t'[c]| == |t[c] + [last[c]]|;
        forall k | 0 <= k < |lines|
          ensures t'[c][k] == (t[c] + [last[c]])[k]
        {
        }
      }
      assert t' == Extended(t, last);
      CountAllExtended(t, last);
    }
  }

  lemma {:induction false} ZeroLines(t: seq<Line>)
    requires forall c :: 0 <= c < |t| ==> t[c] == []
    ensures CountAll(t) == 0
  {
    if t != [] {
      ZeroLines(t[..|t| - 1]);
    }
  }

  /** Expansion keeps the number of galaxies. */
  lemma ExpandCount(image: seq<Line>, width: nat)
    requires Rect(image, width)
    ensures CountAll(Expand(image, width)) == CountAll(image)
  {
    var t := Transpose(image, width);
    ExpandLinesCount(t);
    TransposeCount(image, width);
    var cols := ExpandLines(t);
    var rows := Transpose(cols, |image|);
    TransposeCount(cols, |image|);
    ExpandLinesCount(rows);
  }

  datatype SpaceLocation = SpaceLocation(x: int, y: int)

  /** The galaxies of line x, from column `from` on, left to right. */
  function GalaxiesInLine(line: Line, x: nat, from: nat): seq<SpaceLocation>
    requires from <= |line|
    decreases |line| - from
  {
    if from == |line| then []
    else (if line[from] == Galaxy then [SpaceLocation(x, from)] else []) + GalaxiesInLine(line, x, from + 1)
  }

  /** The galaxies of the first k lines in row-major order (`indices_row_major`). */
  function GalaxiesUpTo(image: seq<Line>, k: nat): seq<SpaceLocation>
    requires k <= |image|
  {
    if k == 0 then [] else GalaxiesUpTo(image, k - 1) + GalaxiesInLine(image[k - 1], k - 1, 0)
  }

  /** `find_galaxies`. */
  method FindGalaxies(image: seq<Line>) returns (galaxies: seq<SpaceLocation>)
    ensures galaxies == GalaxiesUpTo(image, |image|)
  {
    galaxies := [];
    for x := 0 to |image|
      invariant galaxies == GalaxiesUpTo(image, x)
    {
      var line := image[x];
      var y := |line|;
      var inLine: seq<SpaceLocation> := [];
      while y > 0
        invariant 0 <= y <= |line|
        invariant inLine == GalaxiesInLine(line, x, y)
      {
        y := y - 1;
        if line[y] == Galaxy {
          inLine := [SpaceLocation(x, y)] + inLine;
        }
      }
      galaxies := galaxies + inLine;
    }
  }

  /** The galaxies listed for a line are exactly its galaxy cells, in increasing column order. */
  lemma GalaxiesInLineExact(line: Line, x: nat, from: nat)
    requires from <= |line|
    ensures var g := GalaxiesInLine(line, x, from);
      |g| == multiset(line[from..])[Galaxy]
      && (forall i :: 0 <= i < |g| ==> g[i].x == x && from <= g[i].y < |line| && line[g[i].y] == Galaxy)
      && (forall i, j :: 0 <= i < j < |g| ==> g[i].y < g[j].y)
      && (forall y :: from <= y < |line| && line[y] == Galaxy ==> SpaceLocation(x, y) in g)
  {
    GalaxiesInLineCount(line, x, from);
    GalaxiesInLineCells(line, x, from);
    GalaxiesInLineComplete(line, x, from);
  }

  lemma {:induction false} GalaxiesInLineCount(line: Line, x: nat, from: nat)
    requires from <= |line|
    ensures |GalaxiesInLine(line, x, from)| == multiset(line[from..])[Galaxy]
    decreases |line| - from
  {
    if from < |line| {
      GalaxiesInLineCount(line, x, from + 1);
      assert line[from..] == [line[from]] + line[from + 1..];
    }
  }

  /** The listed galaxies are galaxy cells of the line from `from` on, in increasing column
      order. */
  lemma {:induction false} GalaxiesInLineCells(line: Line, x: nat, from: nat)
    requires from <= |line|
    ensures forall i :: 0 <= i < |GalaxiesInLine(line, x, from)| ==> LineCell(line, x, from, GalaxiesInLine(line, x, from)[i])
    ensures forall i, j :: 0 <= i < j < |GalaxiesInLine(line, x, from)| ==>
              GalaxiesInLine(line, x, from)[i].y < GalaxiesInLine(line, x, from)[j].y
    decreases |line| - from
  {
    if from < |line| {
      GalaxiesInLineCells(line, x, from + 1);
      var rest := GalaxiesInLine(line, x, from + 1);
      var head: seq<SpaceLocation> := if line[from] == Galaxy then [SpaceLocation(x, from)] else [];
      var g := head + rest;
      assert GalaxiesInLine(line, x, from) == g;
      forall i | 0 <= i < |g|
        ensures LineCell(line, x, from, g[i])
      {
        if i >= |head| {
          assert g[i] == rest[i - |head|];
        }
      }
      forall i, j | 0 <= i < j < |g|
        ensures g[i].y < g[j].y
      {
        assert g[j] == rest[j - |head|];
        if i >= |head| {
          assert g[i] == rest[i - |head|];
        }
      }
    }
  }

  /** g is a galaxy cell of line x from column `from` on. */
  predicate LineCell(line: Line, x: nat, from: nat, g: SpaceLocation) {
    g.x == x && from <= g.y < |line| && line[g.y] == Galaxy
  }

  lemma {:induction false} GalaxiesInLineComplete(line: Line, x: nat, from: nat)
    requires from <= |line|
    ensures forall y :: from <= y < |line| && line[y] == Galaxy ==> SpaceLocation(x, y) in GalaxiesInLine(line, x, from)
    decreases |line| - from
  {
    if from < |line| {
      GalaxiesInLineComplete(line, x, from + 1);
      var rest := GalaxiesInLine(line, x, from + 1);
      var head: seq<SpaceLocation> := if line[from] == Galaxy then [SpaceLocation(x, from)] else [];
      assert GalaxiesInLine(line, x, from) == head + rest;
    }
  }

  /** The listed galaxies are in row-major order, are galaxy cells, include every galaxy
      cell, and there are as many as the image has galaxies. */
  lemma GalaxiesExact(image: seq<Line>, k: nat)
    requires k <= |image|
    ensures |GalaxiesUpTo(image, k)| == CountAll(image[..k])
    ensures forall i :: 0 <= i < |GalaxiesUpTo(image, k)| ==> ImageCell(image, k, GalaxiesUpTo(image, k)[i])
    ensures forall i, j :: 0 <= i < j < |GalaxiesUpTo(image, k)| ==>
              RowMajorBefore(GalaxiesUpTo(image, k)[i], GalaxiesUpTo(image, k)[j])
    ensures forall x, y :: 0 <= x < k && 0 <= y < |image[x]| && image[x][y] == Galaxy ==>
              SpaceLocation(x, y) in GalaxiesUpTo(image, k)
  {
    GalaxiesCount(image, k);
    GalaxiesCells(image, k);
    GalaxiesComplete(image, k);
  }

  /** g is a galaxy cell of one of the first k lines of the image. */
  predicate ImageCell(image: seq<Line>, k: nat, g: SpaceLocation)
    requires k <= |image|
  {
    0 <= g.x < k && 0 <= g.y < |image[g.x]| && image[g.x][g.y] == Galaxy
  }

  predicate RowMajorBefore(a: SpaceLocation, b: SpaceLocation) {
    a.x < b.x || (a.x == b.x && a.y < b.y)
  }

  lemma {:induction false} GalaxiesCount(image: seq<Line>, k: nat)
    requires k <= |image|
    ensures |GalaxiesUpTo(image, k)| == CountAll(image[..k])
  {
    if k > 0 {
      GalaxiesCount(image, k - 1);
      GalaxiesInLineCount(image[k - 1], k - 1, 0);
      assert image[..k][..k - 1] == image[..k - 1];
      assert image[k - 1][0..] == image[k - 1];
    }
  }

  lemma {:induction false} GalaxiesCells(image: seq<Line>, k: nat)
    requires k <= |image|
    ensures forall i :: 0 <= i < |GalaxiesUpTo(image, k)| ==> ImageCell(image, k, GalaxiesUpTo(image, k)[i])
    ensures forall i, j :: 0 <= i < j < |GalaxiesUpTo(image, k)| ==>
              RowMajorBefore(GalaxiesUpTo(image, k)[i], GalaxiesUpTo(image, k)[j])
  {
    if k > 0 {
      GalaxiesCells(image, k - 1);
      GalaxiesInLineCells(image[k - 1], k - 1, 0);
      var prev := GalaxiesUpTo(image, k - 1);
      var line := GalaxiesInLine(image[k - 1], k - 1, 0);
      var g := prev + line;
      assert GalaxiesUpTo(image, k) == g;
      forall i | 0 <= i < |g|
        ensures ImageCell(image, k, g[i])
      {
        if i < |prev| {
          assert g[i] == prev[i] && ImageCell(image, k - 1, prev[i]);
        } else {
          assert g[i] == line[i - |prev|] && LineCell(image[k - 1], k - 1, 0, line[i - |prev|]);
        }
      }
      forall i, j | 0 <= i < j < |g|
        ensures RowMajorBefore(g[i], g[j])
      {
        if j < |prev| {
          assert g[i] == prev[i] && g[j] == prev[j];
        } else if i < |prev| {
          assert g[i] == prev[i] && ImageCell(image, k - 1, prev[i]);
          assert g[j] == line[j - |prev|] && LineCell(image[k - 1], k - 1, 0, line[j - |prev|]);
        } else {
          assert g[i] == line[i - |prev|] && g[j] == line[j - |prev|];
          assert LineCell(image[k - 1], k - 1, 0, line[i - |prev|]);
          assert LineCell(image[k - 1], k - 1, 0, line[j - |prev|]);
        }
      }
    }
  }

  lemma {:induction false} GalaxiesComplete(image: seq<Line>, k: nat)
    requires k <= |image|
    ensures forall x, y :: 0 <= x < k && 0 <= y < |image[x]| && image[x][y] == Galaxy ==>
              SpaceLocation(x, y) in GalaxiesUpTo(image, k)
  {
    if k > 0 {
      GalaxiesComplete(image, k - 1);
      GalaxiesInLineComplete(image[k - 1], k - 1, 0);
      var prev := GalaxiesUpTo(image, k - 1);
      var line := GalaxiesInLine(image[k - 1], k - 1, 0);
      var g := prev + line;
      assert GalaxiesUpTo(image, k) == g;
      forall x, y | 0 <= x < k && 0 <= y < |image[x]| && image[x][y] == Galaxy
        ensures SpaceLocation(x, y) in g
      {
        if x < k - 1 {
          assert SpaceLocation(x, y) in prev;
        } else {
          assert SpaceLocation(x, y) in line;
        }
      }
    }
  }

  /** The distance of two galaxies, `(ya - yb).abs() + (xa - xb).abs()`. */
  function Manhattan(a: SpaceLocation, b: SpaceLocation): (d: nat)
    ensures d == 0 <==> a == b
  {
    Abs(a.y - b.y) + Abs(a.x - b.x)
  }

  /** The order within a pair does not matter. */
  lemma ManhattanSymmetric(a: SpaceLocation, b: SpaceLocation)
    ensures Manhattan(a, b) == Manhattan(b, a)
  {
  }

  /** Going through a third galaxy is never shorter. */
  lemma ManhattanTriangle(a: SpaceLocation, b: SpaceLocation, c: SpaceLocation)
    ensures Manhattan(a, c) <= Manhattan(a, b) + Manhattan(b, c)
  {
  }

  /** The distances from galaxy i to every later galaxy. */
  function PairsFrom(gs: seq<SpaceLocation>, i: nat): (r: seq<nat>)
    requires i < |gs|
    ensures |r| == |gs| - 1 - i
  {
    seq<nat>(|gs| - 1 - i, k requires 0 <= k < |gs| - 1 - i => Manhattan(gs[i], gs[i + 1 + k]))
  }

  /** The distances of the pairs whose first galaxy is one of the first k, in the order of
      `combinations(2)`. */
  function PairsUpTo(gs: seq<SpaceLocation>, k: nat): seq<nat>
    requires k <= |gs|
  {
    if k == 0 then [] else PairsUpTo(gs, k - 1) + PairsFrom(gs, k - 1)
  }

  /** `find_distance_between_galaxies_pairs`. */
  method FindDistances(gs: seq<SpaceLocation>) returns (distances: seq<nat>)
    ensures distances == PairsUpTo(gs, |gs|)
  {
    distances := [];
    for i := 0 to |gs|
      invariant distances == PairsUpTo(gs, i)
    {
      distances := PushPairsFrom(gs, i, distances);
    }
  }

  /** The combinations whose first galaxy is galaxy i, pushed in order of the second. */
  method PushPairsFrom(gs: seq<SpaceLocation>, i: nat, before: seq<nat>) returns (distances: seq<nat>)
    requires i < |gs|
    ensures distances == before + PairsFrom(gs, i)
  {
    ghost var row := PairsFrom(gs, i);
    distances := before;
    for t := 0 to |gs| - 1 - i
      invariant distances == before + row[..t]
    {
      assert row[..t + 1] == row[..t] + [row[t]];
      distances := distances + [Manhattan(gs[i], gs[i + 1 + t])];
    }
    assert row[..|row|] == row;
  }

  /** (n - 1) + (n - 2) + ... + (n - k): the pairs whose first galaxy is one of the first k. */
  function PairCount(n: nat, k: nat): int {
    if k == 0 then 0 else PairCount(n, k - 1) + (n - k)
  }

  lemma TriangleStep(a: int, n: int, k: int)
    requires 2 * a == (k - 1) * (2 * n - 1 - (k - 1))
    ensures 2 * (a + (n - k)) == k * (2 * n - 1 - k)
  {
    var m := 2 * n - k;
    assert 2 * n - 1 - (k - 1) == m;
    assert (k - 1) * m == k * m - m;
    assert k * (m - 1) == k * m - k;
  }

  lemma {:induction false} PairCountFormula(n: nat, k: nat)
    ensures 2 * PairCount(n, k) == k * (2 * n - 1 - k)
  {
    if k > 0 {
      PairCountFormula(n, k - 1);
      TriangleStep(PairCount(n, k - 1), n, k);
    }
  }

  lemma {:induction false} PairsUpToLength(gs: seq<SpaceLocation>, k: nat)
    requires k <= |gs|
    ensures |PairsUpTo(gs, k)| == PairCount(|gs|, k)
  {
    if k > 0 {
      PairsUpToLength(gs, k - 1);
    }
  }

  /** One distance per unordered pair: twice the count is n * (n - 1). */
  lemma PairsCount(gs: seq<SpaceLocation>)
    ensures 2 * |PairsUpTo(gs, |gs|)| == |gs| * (|gs| - 1)
  {
    PairsUpToLength(gs, |gs|);
    PairCountFormula(|gs|, |gs|);
  }

  /** Galaxy j's distance from galaxy i is in the row of pairs starting at i. */
  lemma InPairsFrom(gs: seq<SpaceLocation>, i: nat, j: nat)
    requires i < j < |gs|
    ensures Manhattan(gs[i], gs[j]) in PairsFrom(gs, i)
  {
    var row := PairsFrom(gs, i);
    var t := j - i - 1;
    assert row[t] == Manhattan(gs[i], gs[i + 1 + t]);
  }

  /** Every pair i < j has its distance in the list. */
  lemma {:induction false} PairListed(gs: seq<SpaceLocation>, k: nat, i: nat, j: nat)
    requires k <= |gs| && i < k && i < j < |gs|
    ensures Manhattan(gs[i], gs[j]) in PairsUpTo(gs, k)
  {
    var pre, row := PairsUpTo(gs, k - 1), PairsFrom(gs, k - 1);
    var v := Manhattan(gs[i], gs[j]);
    if i == k - 1 {
      InPairsFrom(gs, k - 1, j);
      InAppend(pre, row, v);
    } else {
      PairListed(gs, k - 1, i, j);
      InAppend(pre, row, v);
    }
    assert PairsUpTo(gs, k) == pre + row;
  }

  lemma InAppend(a: seq<nat>, b: seq<nat>, v: nat)
    requires v in a || v in b
    ensures v in a + b
  {
    if v in a {
      var t :| 0 <= t < |a| && a[t] == v;
      assert (a + b)[t] == v;
    } else {
      var t :| 0 <= t < |b| && b[t] == v;
      assert (a + b)[|a| + t] == v;
    }
  }

  /** `run`: the galaxies of the expanded image, one distance per pair, and their sum. */
  method Run(image: seq<Line>, width: nat) returns (galaxyCount: nat, pairCount: nat, total: int)
    requires Rect(image, width)
    ensures galaxyCount == CountAll(image)
    ensures 2 * pairCount == galaxyCount * (galaxyCount - 1)
    ensures var gs := GalaxiesUpTo(Expand(image, width), |Expand(image, width)|);
      total == Sum(PairsUpTo(gs, |gs|))
  {
    var expanded := ExpandUniverse(image, width);
    var galaxies := FindGalaxies(expanded);
    var distances := FindDistances(galaxies);
    GalaxiesExact(expanded, |expanded|);
    assert expanded[..|expanded|] == expanded;
    ExpandCount(image, width);
    PairsCount(galaxies);
    galaxyCount, pairCount, total := |galaxies|, |distances|, Sum(distances);
  }
}
