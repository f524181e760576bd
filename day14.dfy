/** Day 14: a platform of round rocks, which roll, and cube rocks, which stay put. Tilting
    the platform rolls every round rock as far as it goes towards one edge. */
module Day14 {
  import opened Common

  datatype Cell = RoundRock | CubeRock | EmptyGround

  /** `CellType::from_char`: `O`, `#` and `.`; any other character panics (None). */
  function CellFromChar(c: char): (r: Option<Cell>)
    ensures r.Some? <==> c in "O#."
    ensures r.Some? ==> CellChar(r.value) == c
  {
    if c == 'O' then Some(RoundRock) else if c == '#' then Some(CubeRock) else if c == '.' then Some(EmptyGround) else None
  }

  /** `CellType::to_char`. */
  function CellChar(x: Cell): char {
    match x
    case RoundRock => 'O'
    case CubeRock => '#'
    case EmptyGround => '.'
  }

  /** Printing a cell and reading it back gives the cell. */
  lemma CellCharRoundTrip(x: Cell)
    ensures CellFromChar(CellChar(x)) == Some(x)
  {
  }

  type Line = seq<Cell>

  /** The number of empty cells at the end of a line. */
  function TrailingEmpty(t: Line): (e: nat)
    ensures e <= |t|
    ensures forall k :: |t| - e <= k < |t| ==> t[k] == EmptyGround
    ensures e < |t| ==> t[|t| - 1 - e] != EmptyGround
  {
    if t != [] && t[|t| - 1] == EmptyGround then TrailingEmpty(t[..|t| - 1]) + 1 else 0
  }

  /** A round rock added behind a tilted line rolls over the empty cells at its end and
      stops at the first rock or at the edge. */
  function Settle(t: Line): (r: Line)
    ensures |r| == |t| + 1
  {
    var m := |t| - TrailingEmpty(t);
    t[..m] + [RoundRock] + t[m..]
  }

  /** A line tilted towards index 0, built cell by cell: a cube rock or an empty cell stays
      where it is, a round rock settles. */
  function Tilt(s: Line): (r: Line)
    ensures |r| == |s|
  {
    if s == [] then []
    else
      var t, c := Tilt(s[..|s| - 1]), s[|s| - 1];
      if c == RoundRock then Settle(t) else t + [c]
  }

  /** `tilt_platform` on one line, in place: each round rock, from the second cell on, is
      moved towards index 0 over empty cells; a cube rock ends the search early. */
  method TiltLine(line: array<Cell>)
    modifies line
    ensures line[..] == Tilt(old(line[..]))
  {
    ghost var s := line[..];
    if line.Length == 0 {
      return;
    }
    assert s[..1] == [s[0]];
    for i := 1 to line.Length
      invariant line[..i] == Tilt(s[..i]) && line[i..] == s[i..]
    {
      TiltCell(line, i, s);
    }
    assert s[..line.Length] == s;
  }

  /** One turn of the outer loop of `tilt_platform`: the cell at i joins the tilted prefix. */
  method TiltCell(line: array<Cell>, i: nat, ghost s: Line)
    requires 0 < i < line.Length && |s| == line.Length
    requires line[..i] == Tilt(s[..i]) && line[i..] == s[i..]
    modifies line
    ensures line[..i + 1] == Tilt(s[..i + 1]) && line[i + 1..] == s[i + 1..]
  {
    TiltUnfold(s, i);
    assert line[i] == s[i] && line[i + 1..] == s[i + 1..];
    if line[i] == RoundRock {
      TiltPacked(s[..i]);
      RollRock(line, i, line[..i]);
    } else {
      assert line[..i + 1] == line[..i] + [s[i]];
    }
  }

  /** The tilt of a prefix one cell longer. */
  lemma TiltUnfold(s: Line, i: nat)
    requires i < |s|
    ensures Tilt(s[..i + 1]) == if s[i] == RoundRock then Settle(Tilt(s[..i])) else Tilt(s[..i]) + [s[i]]
  {
    assert s[..i + 1][..i] == s[..i];
  }

  /** The inner loop of `tilt_platform`: the round rock at i moves down over the empty
      cells, passes under the round rocks it meets (a no-op) and stops at a cube rock. */
  method RollRock(line: array<Cell>, i: nat, ghost t: Line)
    requires 0 < i < line.Length && line[..i] == t && line[i] == RoundRock && Packed(t)
    modifies line
    ensures line[..i + 1] == Settle(t) && line[i + 1..] == old(line[i + 1..])
  {
    ghost var rest := line[i + 1..];
    ghost var m := i - TrailingEmpty(t);
    assert line[..i + 1] == Placed(t, i);
    var j := i;
    while j >= 1
      invariant 0 <= j <= i
      invariant line[i + 1..] == rest
      invariant line[..i + 1] == Placed(t, Max(j, m))
      invariant j < m ==> t[j] == RoundRock
    {
      ghost var cur := line[..i + 1];
      if line[j - 1] == CubeRock {
        break;
      }
      if line[j - 1] == EmptyGround {
        RollOver(t, j, m);
        line[j - 1] := RoundRock;
        line[j] := EmptyGround;
        assert line[..i + 1] == cur[j - 1 := RoundRock][j := EmptyGround];
      } else {
        RollUnder(t, j, m);
      }
      j := j - 1;
    }
    assert j < m ==> t[j] == RoundRock;
  }

  /** The line with a round rock placed at index j, the cells from j on moved up by one. */
  function Placed(t: Line, j: nat): Line
    requires j <= |t|
  {
    t[..j] + [RoundRock] + t[j..]
  }

  /** Above its resting place the rock swaps with the empty cell below it. */
  lemma RollOver(t: Line, j: nat, m: nat)
    requires 0 < j <= |t| && m == |t| - TrailingEmpty(t) && Packed(t)
    requires j < m ==> t[j] == RoundRock
    requires Placed(t, Max(j, m))[j - 1] == EmptyGround
    ensures j > m
    ensures Placed(t, Max(j, m))[j - 1 := RoundRock][j := EmptyGround] == Placed(t, Max(j - 1, m))
  {
    assert Placed(t, Max(j, m))[j - 1] == t[j - 1];
    SwapDown(t, j);
  }

  /** Swapping the placed rock with the empty cell below it places it one lower. */
  lemma SwapDown(t: Line, j: nat)
    requires 0 < j <= |t| && t[j - 1] == EmptyGround
    ensures Placed(t, j)[j - 1 := RoundRock][j := EmptyGround] == Placed(t, j - 1)
  {
    var lo, hi := t[..j - 1], t[j..];
    assert t[..j] == lo + [EmptyGround] && t[j - 1..] == [EmptyGround] + hi;
    assert Placed(t, j) == lo + [EmptyGround, RoundRock] + hi;
    assert Placed(t, j - 1) == lo + [RoundRock, EmptyGround] + hi;
  }

  /** At or below its resting place the rock meets a round rock and nothing moves. */
  lemma RollUnder(t: Line, j: nat, m: nat)
    requires 0 < j <= |t| && m == |t| - TrailingEmpty(t)
    requires Placed(t, Max(j, m))[j - 1] != EmptyGround && Placed(t, Max(j, m))[j - 1] != CubeRock
    ensures Placed(t, Max(j - 1, m)) == Placed(t, Max(j, m)) && t[j - 1] == RoundRock
  {
    assert Placed(t, Max(j, m))[j - 1] == t[j - 1];
  }

  /** No round rock has an empty cell on its side of the tilt. */
  predicate Packed(t: Line) {
    forall k :: 0 < k < |t| && t[k] == RoundRock ==> t[k - 1] != EmptyGround
  }

  /** A tilted line is packed. */
  lemma {:induction false} TiltPacked(s: Line)
    ensures Packed(Tilt(s))
  {
    if s != [] {
      TiltPacked(s[..|s| - 1]);
    }
  }

  /** Tilting moves no cube rock. */
  lemma {:induction false} TiltKeepsCubes(s: Line)
    ensures forall k :: 0 <= k < |s| ==> (Tilt(s)[k] == CubeRock <==> s[k] == CubeRock)
  {
    if s != [] {
      var s' := s[..|s| - 1];
      TiltKeepsCubes(s');
      var t, c := Tilt(s'), s[|s| - 1];
      if c == RoundRock {
        SettleKeepsCubes(t);
        assert Tilt(s) == Settle(t);
      } else {
        assert Tilt(s) == t + [c];
      }
      forall k | 0 <= k < |s|
        ensures Tilt(s)[k] == CubeRock <==> s[k] == CubeRock
      {
        if k < |s| - 1 {
          assert s[k] == s'[k];
        }
      }
    }
  }

  /** A settling rock moves no cube rock and does not land on one. */
  lemma SettleKeepsCubes(t: Line)
    ensures forall k :: 0 <= k < |t| ==> (Settle(t)[k] == CubeRock <==> t[k] == CubeRock)
    ensures Settle(t)[|t|] != CubeRock
  {
    var m := |t| - TrailingEmpty(t);
    forall k | 0 <= k <= |t|
      ensures k < |t| ==> (Settle(t)[k] == CubeRock <==> t[k] == CubeRock)
      ensures Settle(t)[k] != CubeRock || k < m
    {
      if k < m {
        assert Settle(t)[k] == t[k];
      } else if k > m {
        assert Settle(t)[k] == t[k - 1];
      }
    }
  }

  /** Tilting keeps every cell: the same rocks and empty cells in a different order. */
  lemma {:induction false} TiltKeepsCells(s: Line)
    ensures multiset(Tilt(s)) == multiset(s)
  {
    if s != [] {
      var s' := s[..|s| - 1];
      TiltKeepsCells(s');
      var t := Tilt(s');
      assert s == s' + [s[|s| - 1]];
      if s[|s| - 1] == RoundRock {
        var m := |t| - TrailingEmpty(t);
        assert t == t[..m] + t[m..];
      }
    }
  }

  /** A packed line does not move when tilted. */
  lemma {:induction false} PackedStays(t: Line)
    requires Packed(t)
    ensures Tilt(t) == t
  {
    if t != [] {
      var t' := t[..|t| - 1];
      PackedStays(t');
      assert t == t' + [t[|t| - 1]];
    }
  }

  /** Tilting twice the same way is tilting once. */
  lemma TiltIdempotent(s: Line)
    ensures Tilt(Tilt(s)) == Tilt(s)
  {
    TiltPacked(s);
    PackedStays(Tilt(s));
  }

  datatype Direction = North | East | South | West

  /** One line tilted towards its start (north, west) or its end (south, east). */
  function TiltTowards(line: Line, d: Direction): Line {
    if d == South || d == East then Reverse(Tilt(Reverse(line))) else Tilt(line)
  }

  /** The lines the source tilts: columns for north and south, rows for east and west. */
  function LinesFor(rows: seq<Line>, w: nat, d: Direction): seq<Line>
    requires Rect(rows, w)
  {
    if d == North || d == South then Transpose(rows, w) else rows
  }

  /** The platform tilted towards d, as rows. */
  function TiltedPlatform(rows: seq<Line>, w: nat, d: Direction): (r: seq<Line>)
    requires Rect(rows, w)
    ensures |r| == |rows| && Rect(r, w)
  {
    var lines := LinesFor(rows, w, d);
    var tilted := seq(|lines|, k requires 0 <= k < |lines| => TiltTowards(lines[k], d));
    if d == North || d == South then Transpose(tilted, |rows|) else tilted
  }

  /** `tilt_platform`: each line the direction calls for is tilted, and the platform is
      put back together from the tilted lines. */
  method TiltPlatform(rows: seq<Line>, w: nat, d: Direction) returns (r: seq<Line>)
    requires Rect(rows, w)
    ensures r == TiltedPlatform(rows, w, d)
  {
    var lines := if d == North || d == South then Transpose(rows, w) else rows;
    var tilted: seq<Line> := [];
    for k := 0 to |lines|
      invariant tilted == seq(k, j requires 0 <= j < k => TiltTowards(lines[j], d))
    {
      var done := TiltOneLine(lines[k], d);
      tilted := tilted + [done];
    }
    r := if d == North || d == South then Transpose(tilted, |rows|) else tilted;
  }

  /** The body of the loop of `tilt_platform`: the line is copied into a buffer, reversed
      for south and east, tilted in place and reversed back. */
  method TiltOneLine(line: Line, d: Direction) returns (done: Line)
    ensures done == TiltTowards(line, d)
  {
    var l := line;
    if d == South || d == East {
      l := Reverse(l);
    }
    var buffer := new Cell[|l|](j requires 0 <= j < |l| => l[j]);
    assert buffer[..] == l;
    TiltLine(buffer);
    done := buffer[..];
    if d == South || d == East {
      done := Reverse(done);
    }
  }

  /** What a tilt does to the cells of one line, whichever way it goes. */
  lemma TiltTowardsKeeps(line: Line, d: Direction)
    ensures |TiltTowards(line, d)| == |line|
    ensures forall j :: 0 <= j < |line| ==> (TiltTowards(line, d)[j] == CubeRock <==> line[j] == CubeRock)
    ensures multiset(TiltTowards(line, d)) == multiset(line)
  {
    if d == South || d == East {
      var r := Reverse(line);
      TiltKeepsCells(r);
      TiltKeepsCubes(r);
      ReverseMultiset(line);
      ReverseMultiset(Tilt(r));
      assert TiltTowards(line, d) == Reverse(Tilt(r));
    } else {
      TiltKeepsCells(line);
      TiltKeepsCubes(line);
      assert TiltTowards(line, d) == Tilt(line);
    }
  }

  /** A line tilted one way is packed that way. */
  lemma TiltTowardsPacked(line: Line, d: Direction)
    ensures d == North || d == West ==> Packed(TiltTowards(line, d))
    ensures d == South || d == East ==> Packed(Reverse(TiltTowards(line, d)))
  {
    if d == South || d == East {
      var r := Tilt(Reverse(line));
      TiltPacked(Reverse(line));
      ReverseReverse(r);
    } else {
      TiltPacked(line);
    }
  }

  /** A line tilted one way stays put when tilted again. */
  lemma TiltTowardsIdempotent(line: Line, d: Direction)
    ensures TiltTowards(TiltTowards(line, d), d) == TiltTowards(line, d)
  {
    if d == South || d == East {
      var r := Tilt(Reverse(line));
      TiltIdempotent(Reverse(line));
      ReverseReverse(r);
    } else {
      TiltIdempotent(line);
    }
  }

  /** The lines of a tilted platform are the tilted lines. */
  lemma TiltedLines(rows: seq<Line>, w: nat, d: Direction)
    requires Rect(rows, w)
    ensures var lines := LinesFor(rows, w, d);
      LinesFor(TiltedPlatform(rows, w, d), w, d) == seq(|lines|, k requires 0 <= k < |lines| => TiltTowards(lines[k], d))
  {
    var lines := LinesFor(rows, w, d);
    var tilted := seq(|lines|, k requires 0 <= k < |lines| => TiltTowards(lines[k], d));
    forall k | 0 <= k < |lines|
      ensures |tilted[k]| == |lines[k]|
    {
      TiltTowardsKeeps(lines[k], d);
    }
    if d == North || d == South {
      TransposeTwice(tilted, |rows|);
    }
  }

  /** A tilt keeps the platform's size and moves no cube rock. */
  lemma TiltPlatformKeepsCubes(rows: seq<Line>, w: nat, d: Direction)
    requires Rect(rows, w)
    ensures var t := TiltedPlatform(rows, w, d);
      |t| == |rows| && Rect(t, w)
      && forall r, c :: 0 <= r < |rows| && 0 <= c < w ==> (t[r][c] == CubeRock <==> rows[r][c] == CubeRock)
  {
    var lines := LinesFor(rows, w, d);
    forall k | 0 <= k < |lines|
      ensures forall j :: 0 <= j < |lines[k]| ==> (TiltTowards(lines[k], d)[j] == CubeRock <==> lines[k][j] == CubeRock)
    {
      TiltTowardsKeeps(lines[k], d);
    }
  }

  /** A tilt keeps the rocks of every line it tilts, so their number of round rocks: the
      columns for north and south, the rows for east and west. */
  lemma TiltPlatformKeepsRocks(rows: seq<Line>, w: nat, d: Direction)
    requires Rect(rows, w)
    ensures var lines, lines' := LinesFor(rows, w, d), LinesFor(TiltedPlatform(rows, w, d), w, d);
      |lines'| == |lines| && forall k :: 0 <= k < |lines| ==> multiset(lines'[k]) == multiset(lines[k])
  {
    TiltedLines(rows, w, d);
    var lines := LinesFor(rows, w, d);
    forall k | 0 <= k < |lines|
      ensures multiset(TiltTowards(lines[k], d)) == multiset(lines[k])
    {
      TiltTowardsKeeps(lines[k], d);
    }
  }

  /** After a tilt no round rock has empty ground next to it on the side of the tilt. */
  lemma TiltPlatformPacked(rows: seq<Line>, w: nat, d: Direction)
    requires Rect(rows, w)
    ensures var t := TiltedPlatform(rows, w, d);
      (d == North ==> forall r, c {:trigger t[r][c]} :: 0 < r < |rows| && 0 <= c < w && t[r][c] == RoundRock ==> t[r - 1][c] != EmptyGround)
      && (d == South ==> forall r, c {:trigger t[r][c]} :: 0 <= r < |rows| - 1 && 0 <= c < w && t[r][c] == RoundRock ==> t[r + 1][c] != EmptyGround)
      && (d == West ==> forall r, c {:trigger t[r][c]} :: 0 <= r < |rows| && 0 < c < w && t[r][c] == RoundRock ==> t[r][c - 1] != EmptyGround)
      && (d == East ==> forall r, c {:trigger t[r][c]} :: 0 <= r < |rows| && 0 <= c < w - 1 && t[r][c] == RoundRock ==> t[r][c + 1] != EmptyGround)
  {
    match d
    case North => PackedNorth(rows, w);
    case South => PackedSouth(rows, w);
    case West => PackedWest(rows, w);
    case East => PackedEast(rows, w);
  }

  /** Each tilted line is packed towards the side it was tilted to. */
  lemma TiltedLinesPacked(rows: seq<Line>, w: nat, d: Direction)
    requires Rect(rows, w)
    ensures var lines' := LinesFor(TiltedPlatform(rows, w, d), w, d);
      forall k :: 0 <= k < |lines'| ==>
        (d == North || d == West ==> Packed(lines'[k])) && (d == South || d == East ==> Packed(Reverse(lines'[k])))
  {
    TiltedLines(rows, w, d);
    var lines := LinesFor(rows, w, d);
    forall k | 0 <= k < |lines|
      ensures d == North || d == West ==> Packed(TiltTowards(lines[k], d))
      ensures d == South || d == East ==> Packed(Reverse(TiltTowards(lines[k], d)))
    {
      TiltTowardsPacked(lines[k], d);
    }
  }

  lemma PackedNorth(rows: seq<Line>, w: nat)
    requires Rect(rows, w)
    ensures var t := TiltedPlatform(rows, w, North);
      forall r, c {:trigger t[r][c]} :: 0 < r < |rows| && 0 <= c < w && t[r][c] == RoundRock ==> t[r - 1][c] != EmptyGround
  {
    TiltedLinesPacked(rows, w, North);
    var t := TiltedPlatform(rows, w, North);
    assert LinesFor(t, w, North) == Transpose(t, w);
    ColumnsPackedUp(t, w);
  }

  lemma PackedSouth(rows: seq<Line>, w: nat)
    requires Rect(rows, w)
    ensures var t := TiltedPlatform(rows, w, South);
      forall r, c {:trigger t[r][c]} :: 0 <= r < |rows| - 1 && 0 <= c < w && t[r][c] == RoundRock ==> t[r + 1][c] != EmptyGround
  {
    TiltedLinesPacked(rows, w, South);
    var t := TiltedPlatform(rows, w, South);
    assert LinesFor(t, w, South) == Transpose(t, w);
    ColumnsPackedDown(t, w);
  }

  lemma PackedWest(rows: seq<Line>, w: nat)
    requires Rect(rows, w)
    ensures var t := TiltedPlatform(rows, w, West);
      forall r, c {:trigger t[r][c]} :: 0 <= r < |rows| && 0 < c < w && t[r][c] == RoundRock ==> t[r][c - 1] != EmptyGround
  {
    TiltedLinesPacked(rows, w, West);
    var t := TiltedPlatform(rows, w, West);
    assert LinesFor(t, w, West) == t;
    RowsPackedLeft(t, w);
  }

  lemma PackedEast(rows: seq<Line>, w: nat)
    requires Rect(rows, w)
    ensures var t := TiltedPlatform(rows, w, East);
      forall r, c {:trigger t[r][c]} :: 0 <= r < |rows| && 0 <= c < w - 1 && t[r][c] == RoundRock ==> t[r][c + 1] != EmptyGround
  {
    TiltedLinesPacked(rows, w, East);
    var t := TiltedPlatform(rows, w, East);
    assert LinesFor(t, w, East) == t;
    RowsPackedRight(t, w);
  }

  /** Packed columns: no round rock has empty ground above it. */
  lemma ColumnsPackedUp(t: seq<Line>, w: nat)
    requires Rect(t, w)
    requires forall c :: 0 <= c < w ==> Packed(Transpose(t, w)[c])
    ensures forall r, c {:trigger t[r][c]} :: 0 < r < |t| && 0 <= c < w && t[r][c] == RoundRock ==> t[r - 1][c] != EmptyGround
  {
    var cols := Transpose(t, w);
    forall r, c {:trigger t[r][c]} | 0 < r < |t| && 0 <= c < w && t[r][c] == RoundRock
      ensures t[r - 1][c] != EmptyGround
    {
      assert cols[c][r] == t[r][c] && cols[c][r - 1] == t[r - 1][c];
    }
  }

  /** Columns packed when reversed: no round rock has empty ground below it. */
  lemma ColumnsPackedDown(t: seq<Line>, w: nat)
    requires Rect(t, w)
    requires forall c :: 0 <= c < w ==> Packed(Reverse(Transpose(t, w)[c]))
    ensures forall r, c {:trigger t[r][c]} :: 0 <= r < |t| - 1 && 0 <= c < w && t[r][c] == RoundRock ==> t[r + 1][c] != EmptyGround
  {
    var cols := Transpose(t, w);
    forall r, c {:trigger t[r][c]} | 0 <= r < |t| - 1 && 0 <= c < w && t[r][c] == RoundRock
      ensures t[r + 1][c] != EmptyGround
    {
      var rev := Reverse(cols[c]);
      assert rev[|t| - 1 - r] == t[r][c] && rev[|t| - 2 - r] == t[r + 1][c];
    }
  }

  /** Packed rows: no round rock has empty ground to its left. */
  lemma RowsPackedLeft(t: seq<Line>, w: nat)
    requires Rect(t, w)
    requires forall r :: 0 <= r < |t| ==> Packed(t[r])
    ensures forall r, c {:trigger t[r][c]} :: 0 <= r < |t| && 0 < c < w && t[r][c] == RoundRock ==> t[r][c - 1] != EmptyGround
  {
    forall r, c {:trigger t[r][c]} | 0 <= r < |t| && 0 < c < w && t[r][c] == RoundRock
      ensures t[r][c - 1] != EmptyGround
    {
      assert Packed(t[r]);
    }
  }

  /** Rows packed when reversed: no round rock has empty ground to its right. */
  lemma RowsPackedRight(t: seq<Line>, w: nat)
    requires Rect(t, w)
    requires forall r :: 0 <= r < |t| ==> Packed(Reverse(t[r]))
    ensures forall r, c {:trigger t[r][c]} :: 0 <= r < |t| && 0 <= c < w - 1 && t[r][c] == RoundRock ==> t[r][c + 1] != EmptyGround
  {
    forall r, c {:trigger t[r][c]} | 0 <= r < |t| && 0 <= c < w - 1 && t[r][c] == RoundRock
      ensures t[r][c + 1] != EmptyGround
    {
      var rev := Reverse(t[r]);
      assert rev[w - 1 - c] == t[r][c] && rev[w - 2 - c] == t[r][c + 1];
    }
  }

  /** Tilting the platform twice the same way is tilting it once. */
  lemma TiltPlatformIdempotent(rows: seq<Line>, w: nat, d: Direction)
    requires Rect(rows, w)
    ensures TiltedPlatform(TiltedPlatform(rows, w, d), w, d) == TiltedPlatform(rows, w, d)
  {
    var t := TiltedPlatform(rows, w, d);
    TiltedLines(rows, w, d);
    var lines := LinesFor(rows, w, d);
    var lines' := LinesFor(t, w, d);
    var again := seq(|lines'|, k requires 0 <= k < |lines'| => TiltTowards(lines'[k], d));
    forall k | 0 <= k < |lines|
      ensures again[k] == lines'[k]
    {
      TiltTowardsIdempotent(lines[k], d);
    }
    assert again == lines';
    if d == North || d == South {
      TransposeTwice(t, w);
    }
  }

  /** The load of one column on the north beam: a round rock at row r of n rows weighs
      n - r. */
  function LineLoad(line: Line): nat {
    if line == [] then 0 else (if line[0] == RoundRock then |line| else 0) + LineLoad(line[1..])
  }

  /** The inner loop of `get_total_force`: the column is enumerated from the bottom, so
      the rock at the k-th cell from the bottom weighs k + 1. */
  method ColumnForce(column: Line) returns (force: nat)
    ensures force == LineLoad(column)
  {
    force := 0;
    var n := |column|;
    for location := 0 to n
      invariant force == LineLoad(column[n - location..])
    {
      assert column[n - 1 - location..] == [column[n - 1 - location]] + column[n - location..];
      if column[n - 1 - location] == RoundRock {
        force := force + location + 1;
      }
    }
    assert column[0..] == column;
  }

  /** `get_total_force`: the loads of all columns. */
  method GetTotalForce(rows: seq<Line>, w: nat) returns (total: nat)
    requires Rect(rows, w)
    ensures var cols := Transpose(rows, w); total == Sum(seq(w, c requires 0 <= c < w => LineLoad(cols[c]) as int))
  {
    var cols := Transpose(rows, w);
    total := 0;
    for c := 0 to w
      invariant total == Sum(seq(c, j requires 0 <= j < c => LineLoad(cols[j]) as int))
    {
      var f := ColumnForce(cols[c]);
      assert seq(c + 1, j requires 0 <= j < c + 1 => LineLoad(cols[j]) as int)[..c]
        == seq(c, j requires 0 <= j < c => LineLoad(cols[j]) as int);
      total := total + f;
    }
  }
}
