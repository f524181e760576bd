/** Day 16: a beam of light enters a grid of mirrors and splitters at the top left corner,
    travelling right. Mirrors turn it, splitters may split it in two; a cell is energised
    when a beam passes through it. */
module Day16 {
  import opened Common

  datatype Direction = LeftToRight | RightToLeft | TopToBottom | BottomToTop

  const Directions: seq<Direction> := [LeftToRight, RightToLeft, TopToBottom, BottomToTop]

  /** `travel_increment`: the (row, column) step of a direction, a unit vector. */
  function TravelIncrement(d: Direction): (delta: (int, int))
    ensures Abs(delta.0) + Abs(delta.1) == 1
  {
    match d
    case LeftToRight => (0, 1)
    case RightToLeft => (0, -1)
    case TopToBottom => (1, 0)
    case BottomToTop => (-1, 0)
  }

  function Opposite(d: Direction): (r: Direction)
    ensures TravelIncrement(r) == (-TravelIncrement(d).0, -TravelIncrement(d).1)
  {
    match d
    case LeftToRight => RightToLeft
    case RightToLeft => LeftToRight
    case TopToBottom => BottomToTop
    case BottomToTop => TopToBottom
  }

  predicate Horizontal(d: Direction) {
    d == LeftToRight || d == RightToLeft
  }

  datatype CellType = EmptySpace | MirrorLeftLean | MirrorRightLean | SplitterVertical | SplitterHorizontal

  /** `CellType::from_char`: `.`, `\`, `/`, `|` and `-`; anything else panics (None). */
  function CellFromChar(c: char): (r: Option<CellType>)
    ensures r.Some? <==> c in ".\\/|-"
    ensures r == Some(EmptySpace) <==> c == '.'
    ensures r == Some(MirrorLeftLean) <==> c == '\\'
    ensures r == Some(MirrorRightLean) <==> c == '/'
    ensures r == Some(SplitterVertical) <==> c == '|'
    ensures r == Some(SplitterHorizontal) <==> c == '-'
  {
    match c
    case '.' => Some(EmptySpace)
    case '\\' => Some(MirrorLeftLean)
    case '/' => Some(MirrorRightLean)
    case '|' => Some(SplitterVertical)
    case '-' => Some(SplitterHorizontal)
    case _ => None
  }

  /** `travel_through_mirror`: `/` turns right-going light up, `\` turns it down. */
  function Mirror(leftLean: bool, d: Direction): Direction {
    if leftLean then
      match d
      case LeftToRight => TopToBottom
      case RightToLeft => BottomToTop
      case TopToBottom => LeftToRight
      case BottomToTop => RightToLeft
    else
      match d
      case LeftToRight => BottomToTop
      case RightToLeft => TopToBottom
      case TopToBottom => RightToLeft
      case BottomToTop => LeftToRight
  }

  /** `travel_through_cell`: empty space and a splitter met along its axis let the light
      through; a mirror turns it; a splitter met across its axis sends it both ways along
      the axis. */
  function TravelThroughCell(cell: CellType, d: Direction): (r: seq<Direction>)
    ensures 1 <= |r| <= 2
    ensures |r| == 2 ==> r[0] != r[1]
  {
    match cell
    case EmptySpace => [d]
    case MirrorLeftLean => [Mirror(true, d)]
    case MirrorRightLean => [Mirror(false, d)]
    case SplitterHorizontal => if Horizontal(d) then [d] else [LeftToRight, RightToLeft]
    case SplitterVertical => if Horizontal(d) then [TopToBottom, BottomToTop] else [d]
  }

  /** A mirror turns light through a right angle, and light sent back the way it left
      retraces its path. */
  lemma MirrorReversible(leftLean: bool, d: Direction)
    ensures Horizontal(Mirror(leftLean, d)) <==> !Horizontal(d)
    ensures Mirror(leftLean, Opposite(Mirror(leftLean, d))) == Opposite(d)
  {
  }

  /** A splitter leaves the light travelling along its own axis, whatever way it came. */
  lemma SplitterAlongAxis(d: Direction)
    ensures forall e :: e in TravelThroughCell(SplitterHorizontal, d) ==> Horizontal(e)
    ensures forall e :: e in TravelThroughCell(SplitterVertical, d) ==> !Horizontal(e)
    ensures Horizontal(d) ==> TravelThroughCell(SplitterHorizontal, d) == [d]
    ensures !Horizontal(d) ==> TravelThroughCell(SplitterVertical, d) == [d]
  {
  }

  /** A beam: where it is and which way it goes. A coordinate that would be negative is
      cast to a huge `usize` by the source and so falls outside the grid; the model keeps
      it negative. */
  datatype Beam = Beam(row: int, column: int, direction: Direction)

  /** `translate_light_beam`: one beam per direction the cell sends the light, each one
      step further in that direction. */
  function TranslateLightBeam(cell: CellType, b: Beam): (r: seq<Beam>)
    ensures |r| == |TravelThroughCell(cell, b.direction)|
    ensures forall i :: 0 <= i < |r| ==>
      var d := TravelThroughCell(cell, b.direction)[i];
      r[i] == Beam(b.row + TravelIncrement(d).0, b.column + TravelIncrement(d).1, d)
  {
    var ds := TravelThroughCell(cell, b.direction);
    seq(|ds|, i requires 0 <= i < |ds| => Beam(b.row + TravelIncrement(ds[i]).0, b.column + TravelIncrement(ds[i]).1, ds[i]))
  }

  /** Every beam a cell sends on is one step away from the cell. */
  lemma TranslateIsOneStep(cell: CellType, b: Beam)
    ensures forall n :: n in TranslateLightBeam(cell, b) ==> Abs(n.row - b.row) + Abs(n.column - b.column) == 1
  {
    var r := TranslateLightBeam(cell, b);
    forall n | n in r
      ensures Abs(n.row - b.row) + Abs(n.column - b.column) == 1
    {
      var i :| 0 <= i < |r| && r[i] == n;
      var d := TravelThroughCell(cell, b.direction)[i];
      assert TravelIncrement(d) == (n.row - b.row, n.column - b.column);
    }
  }

  type Grid = seq<seq<CellType>>

  predicate InBounds(rows: nat, columns: nat, b: Beam) {
    0 <= b.row < rows && 0 <= b.column < columns
  }

  /** The beams the beam b sends on, through the cell it is in. */
  function Next(grid: Grid, rows: nat, columns: nat, b: Beam): seq<Beam>
    requires IsGrid(grid, rows, columns) && InBounds(rows, columns, b)
  {
    TranslateLightBeam(grid[b.row][b.column], b)
  }

  const Start := Beam(0, 0, LeftToRight)

  /** The beams inside the grid reached from the start in at most n moves. */
  ghost function ReachIn(grid: Grid, rows: nat, columns: nat, n: nat): (s: set<Beam>)
    requires IsGrid(grid, rows, columns)
    ensures forall b :: b in s ==> InBounds(rows, columns, b)
  {
    if n == 0 then (if InBounds(rows, columns, Start) then {Start} else {})
    else
      var prev := ReachIn(grid, rows, columns, n - 1);
      prev + set b, m | b in prev && m in Next(grid, rows, columns, b) && InBounds(rows, columns, m) :: m
  }

  ghost predicate Reachable(grid: Grid, rows: nat, columns: nat, b: Beam)
    requires IsGrid(grid, rows, columns)
  {
    exists n: nat :: b in ReachIn(grid, rows, columns, n)
  }

  /** Every beam of s inside the grid sends its beams inside the grid to s again. */
  ghost predicate Closed(grid: Grid, rows: nat, columns: nat, s: set<Beam>)
    requires IsGrid(grid, rows, columns)
  {
    forall b :: b in s ==>
      InBounds(rows, columns, b) && forall m {:trigger m in Next(grid, rows, columns, b)} ::
        m in Next(grid, rows, columns, b) && InBounds(rows, columns, m) ==> m in s
  }

  /** A closed set that holds the start holds every beam reachable from it. */
  lemma {:induction false} ClosedHoldsReach(grid: Grid, rows: nat, columns: nat, s: set<Beam>, n: nat)
    requires IsGrid(grid, rows, columns) && Closed(grid, rows, columns, s)
    requires InBounds(rows, columns, Start) ==> Start in s
    ensures ReachIn(grid, rows, columns, n) <= s
  {
    ReachInZero(grid, rows, columns);
    var k := 0;
    while k < n
      invariant k <= n && ReachIn(grid, rows, columns, k) <= s
    {
      k := k + 1;
      ClosedStep(grid, rows, columns, s, k);
    }
  }

  /** In no moves only the start is reached, when it lies inside the grid. */
  lemma ReachInZero(grid: Grid, rows: nat, columns: nat)
    requires IsGrid(grid, rows, columns)
    ensures ReachIn(grid, rows, columns, 0) == if InBounds(rows, columns, Start) then {Start} else {}
  {
  }

  /** One more move from beams of a closed set stays in the set. */
  lemma ClosedStep(grid: Grid, rows: nat, columns: nat, s: set<Beam>, n: nat)
    requires IsGrid(grid, rows, columns) && Closed(grid, rows, columns, s)
    requires n > 0 && ReachIn(grid, rows, columns, n - 1) <= s
    ensures ReachIn(grid, rows, columns, n) <= s
  {
    var prev := ReachIn(grid, rows, columns, n - 1);
    var sent := set b, m | b in prev && m in Next(grid, rows, columns, b) && InBounds(rows, columns, m) :: m;
    assert ReachIn(grid, rows, columns, n) == prev + sent;
    assert sent <= s;
  }

  lemma ReachStep(grid: Grid, rows: nat, columns: nat, b: Beam, m: Beam)
    requires IsGrid(grid, rows, columns) && Reachable(grid, rows, columns, b) && InBounds(rows, columns, b)
    requires m in Next(grid, rows, columns, b) && InBounds(rows, columns, m)
    ensures Reachable(grid, rows, columns, m)
  {
    var n: nat :| b in ReachIn(grid, rows, columns, n);
    ReachInStep(grid, rows, columns, n, b, m);
  }

  /** A beam sent on from a beam reached in n moves is reached in n + 1. */
  lemma ReachInStep(grid: Grid, rows: nat, columns: nat, n: nat, b: Beam, m: Beam)
    requires IsGrid(grid, rows, columns) && b in ReachIn(grid, rows, columns, n) && InBounds(rows, columns, b)
    requires m in Next(grid, rows, columns, b) && InBounds(rows, columns, m)
    ensures m in ReachIn(grid, rows, columns, n + 1)
  {
    var prev := ReachIn(grid, rows, columns, n);
    var sent := set b, m | b in prev && m in Next(grid, rows, columns, b) && InBounds(rows, columns, m) :: m;
    assert m in sent;
    assert ReachIn(grid, rows, columns, n + 1) == prev + sent;
  }

  /** The cells the beams of s pass through. */
  ghost function Cells(s: set<Beam>): set<(int, int)> {
    set b | b in s :: (b.row, b.column)
  }

  /** Every beam that can be inside a grid of the given size. */
  ghost function AllBeams(rows: nat, columns: nat): set<Beam> {
    set r, c, d | 0 <= r < rows && 0 <= c < columns && d in Directions :: Beam(r, c, d)
  }

  /** The pending beams: everything a visited beam sends on that is inside the grid has
      been visited, or waits in the worklist (its unprocessed part, or the next round). */
  ghost predicate Pending(grid: Grid, rows: nat, columns: nat, history: set<Beam>, waiting: seq<Beam>)
    requires IsGrid(grid, rows, columns)
  {
    (InBounds(rows, columns, Start) ==> Start in history || Start in waiting)
    && forall b :: b in history ==>
      InBounds(rows, columns, b)
      && forall m {:trigger m in Next(grid, rows, columns, b)} ::
        m in Next(grid, rows, columns, b) && InBounds(rows, columns, m) ==> m in history || m in waiting
  }

  /** One beam of the worklist: mark its cell and, the first time it is seen, send on its
      successors. */
  method ProcessBeam(grid: Grid, rows: nat, columns: nat, active: array2<bool>, history: set<Beam>, b: Beam)
    returns (history': set<Beam>, produced: seq<Beam>)
    requires IsGrid(grid, rows, columns) && active.Length0 == rows && active.Length1 == columns
    modifies active
    ensures InBounds(rows, columns, b) ==> history' == history + {b} && active[b.row, b.column]
    ensures !InBounds(rows, columns, b) ==> history' == history
    ensures forall r, c :: 0 <= r < rows && 0 <= c < columns && (r, c) != (b.row, b.column) ==> active[r, c] == old(active[r, c])
    ensures produced == if InBounds(rows, columns, b) && b !in history then Next(grid, rows, columns, b) else []
  {
    history' := history;
    produced := [];
    if 0 <= b.row < rows && 0 <= b.column < columns {
      active[b.row, b.column] := true;
      if b !in history {
        history' := history + {b};
        produced := TranslateLightBeam(grid[b.row][b.column], b);
      }
    }
  }

  /** The worklist loop of `find_activated_cell_count`: rounds of beams, each beam marking
      its cell and, unless its position and direction were seen before, sending on the
      beams its cell makes of it. The history it ends with is exactly the set of beams
      reachable from the start, and the activation map marks exactly their cells. */
  method TraceBeams(grid: Grid, rows: nat, columns: nat, active: array2<bool>) returns (history: set<Beam>)
    requires IsGrid(grid, rows, columns) && active.Length0 == rows && active.Length1 == columns
    requires forall r, c :: 0 <= r < rows && 0 <= c < columns ==> !active[r, c]
    modifies active
    ensures forall b :: b in history <==> Reachable(grid, rows, columns, b)
    ensures forall r, c :: 0 <= r < rows && 0 <= c < columns ==> (active[r, c] <==> (r, c) in Cells(history))
  {
    var beams := [Start];
    history := {};
    if InBounds(rows, columns, Start) {
      assert Start in ReachIn(grid, rows, columns, 0);
    }
    ghost var all := AllBeams(rows, columns);
    while |beams| > 0
      invariant history <= all
      invariant Pending(grid, rows, columns, history, beams)
      invariant forall b :: b in history ==> Reachable(grid, rows, columns, b)
      invariant forall b :: b in beams && InBounds(rows, columns, b) ==> Reachable(grid, rows, columns, b)
      invariant forall r, c :: 0 <= r < rows && 0 <= c < columns ==> (active[r, c] <==> (r, c) in Cells(history))
      decreases |all - history|, |beams|
    {
      ghost var before := history;
      var next;
      history, next := ProcessRound(grid, rows, columns, active, history, beams);
      if history != before {
        FewerUnvisited(all, before, history);
      }
      beams := next;
    }
    forall n: nat
      ensures ReachIn(grid, rows, columns, n) <= history
    {
      ClosedHoldsReach(grid, rows, columns, history, n);
    }
  }

  /** One round of the worklist: every beam of the round processed in order, the beams
      they send on collected for the next round. */
  method ProcessRound(grid: Grid, rows: nat, columns: nat, active: array2<bool>, history: set<Beam>, beams: seq<Beam>)
    returns (history': set<Beam>, next: seq<Beam>)
    requires IsGrid(grid, rows, columns) && active.Length0 == rows && active.Length1 == columns
    requires history <= AllBeams(rows, columns)
    requires Pending(grid, rows, columns, history, beams)
    requires forall b :: b in history ==> Reachable(grid, rows, columns, b)
    requires forall b :: b in beams && InBounds(rows, columns, b) ==> Reachable(grid, rows, columns, b)
    requires forall r, c :: 0 <= r < rows && 0 <= c < columns ==> (active[r, c] <==> (r, c) in Cells(history))
    modifies active
    ensures history <= history' <= AllBeams(rows, columns)
    ensures history' == history ==> next == []
    ensures Pending(grid, rows, columns, history', next)
    ensures forall b :: b in history' ==> Reachable(grid, rows, columns, b)
    ensures forall b :: b in next && InBounds(rows, columns, b) ==> Reachable(grid, rows, columns, b)
    ensures forall r, c :: 0 <= r < rows && 0 <= c < columns ==> (active[r, c] <==> (r, c) in Cells(history'))
  {
    next := [];
    history' := history;
    for k := 0 to |beams|
      invariant history <= history' <= AllBeams(rows, columns)
      invariant history' == history ==> next == []
      invariant Pending(grid, rows, columns, history', beams[k..] + next)
      invariant forall b :: b in history' ==> Reachable(grid, rows, columns, b)
      invariant forall b :: b in beams[k..] + next && InBounds(rows, columns, b) ==> Reachable(grid, rows, columns, b)
      invariant forall r, c :: 0 <= r < rows && 0 <= c < columns ==> (active[r, c] <==> (r, c) in Cells(history'))
    {
      history', next := ProcessNext(grid, rows, columns, active, history', beams, k, next);
    }
  }

  /** One turn of the inner loop: beam k of the round is processed and what it sends on
      joins the next round. */
  method ProcessNext(grid: Grid, rows: nat, columns: nat, active: array2<bool>, history: set<Beam>,
                     beams: seq<Beam>, k: nat, next: seq<Beam>)
    returns (history': set<Beam>, next': seq<Beam>)
    requires IsGrid(grid, rows, columns) && active.Length0 == rows && active.Length1 == columns
    requires k < |beams| && history <= AllBeams(rows, columns)
    requires Pending(grid, rows, columns, history, beams[k..] + next)
    requires forall b :: b in history ==> Reachable(grid, rows, columns, b)
    requires forall b :: b in beams[k..] + next && InBounds(rows, columns, b) ==> Reachable(grid, rows, columns, b)
    requires forall r, c :: 0 <= r < rows && 0 <= c < columns ==> (active[r, c] <==> (r, c) in Cells(history))
    modifies active
    ensures history <= history' <= AllBeams(rows, columns)
    ensures history' == history ==> next' == next
    ensures Pending(grid, rows, columns, history', beams[k + 1..] + next')
    ensures forall b :: b in history' ==> Reachable(grid, rows, columns, b)
    ensures forall b :: b in beams[k + 1..] + next' && InBounds(rows, columns, b) ==> Reachable(grid, rows, columns, b)
    ensures forall r, c :: 0 <= r < rows && 0 <= c < columns ==> (active[r, c] <==> (r, c) in Cells(history'))
  {
    var b := beams[k];
    var produced;
    history', produced := ProcessBeam(grid, rows, columns, active, history, b);
    ghost var waiting, rest := beams[k..] + next, beams[k + 1..] + (next + produced);
    assert beams[k..] == [b] + beams[k + 1..];
    PendingStep(grid, rows, columns, history, history', b, waiting, rest, produced);
    ReachableStep(grid, rows, columns, history, history', b, waiting, rest, produced);
    if InBounds(rows, columns, b) {
      InAllBeams(rows, columns, b);
      CellsAdd(history, b);
    }
    next' := next + produced;
    assert rest == beams[k + 1..] + next';
  }

  /** One step of the inner loop keeps the pending beams pending: b is now visited or
      outside, and what it sends on waits in the next round. */
  lemma PendingStep(grid: Grid, rows: nat, columns: nat, h0: set<Beam>, h1: set<Beam>, b: Beam,
                    waiting: seq<Beam>, rest: seq<Beam>, produced: seq<Beam>)
    requires IsGrid(grid, rows, columns)
    requires InBounds(rows, columns, b) ==> h1 == h0 + {b}
    requires !InBounds(rows, columns, b) ==> h1 == h0
    requires produced == if InBounds(rows, columns, b) && b !in h0 then Next(grid, rows, columns, b) else []
    requires forall x :: x in waiting ==> x == b || x in rest
    requires forall x :: x in produced ==> x in rest
    requires Pending(grid, rows, columns, h0, waiting)
    ensures Pending(grid, rows, columns, h1, rest)
  {
  }

  /** One step of the inner loop keeps every visited and every waiting beam reachable. */
  lemma ReachableStep(grid: Grid, rows: nat, columns: nat, h0: set<Beam>, h1: set<Beam>, b: Beam,
                      waiting: seq<Beam>, rest: seq<Beam>, produced: seq<Beam>)
    requires IsGrid(grid, rows, columns) && b in waiting
    requires InBounds(rows, columns, b) ==> h1 == h0 + {b}
    requires !InBounds(rows, columns, b) ==> h1 == h0
    requires produced == if InBounds(rows, columns, b) && b !in h0 then Next(grid, rows, columns, b) else []
    requires forall x :: x in rest ==> x in waiting || x in produced
    requires forall x :: x in h0 ==> Reachable(grid, rows, columns, x)
    requires forall x :: x in waiting && InBounds(rows, columns, x) ==> Reachable(grid, rows, columns, x)
    ensures forall x :: x in h1 ==> Reachable(grid, rows, columns, x)
    ensures forall x :: x in rest && InBounds(rows, columns, x) ==> Reachable(grid, rows, columns, x)
  {
    if InBounds(rows, columns, b) && b !in h0 {
      forall m | m in produced && InBounds(rows, columns, m)
        ensures Reachable(grid, rows, columns, m)
      {
        ReachStep(grid, rows, columns, b, m);
      }
    }
  }

  /** Visiting a beam adds its cell to the cells passed through. */
  lemma CellsAdd(h: set<Beam>, b: Beam)
    ensures Cells(h + {b}) == Cells(h) + {(b.row, b.column)}
  {
    assert (b.row, b.column) in Cells(h + {b});
  }

  /** Visiting a new beam leaves fewer beams of the grid unvisited. */
  lemma FewerUnvisited(all: set<Beam>, h0: set<Beam>, h1: set<Beam>)
    requires h0 <= h1 <= all && h0 != h1
    ensures |all - h1| < |all - h0|
  {
    var x :| x in h1 && x !in h0;
    var d, e := all - h1, all - h0;
    assert e == d + (e - d) && d * (e - d) == {};
    assert x in e - d;
  }

  lemma InAllBeams(rows: nat, columns: nat, b: Beam)
    requires InBounds(rows, columns, b)
    ensures b in AllBeams(rows, columns)
  {
    var d := b.direction;
    assert d in Directions by {
      match d
      case LeftToRight => assert Directions[0] == d;
      case RightToLeft => assert Directions[1] == d;
      case TopToBottom => assert Directions[2] == d;
      case BottomToTop => assert Directions[3] == d;
    }
    assert Beam(b.row, b.column, d) == b;
  }

  /** `find_activated_cell_count`: trace the beams, then count the marked cells row by row. */
  method FindActivatedCellCount(grid: Grid, rows: nat, columns: nat) returns (count: nat)
    requires IsGrid(grid, rows, columns)
    ensures exists history: set<Beam> ::
      (forall b :: b in history <==> Reachable(grid, rows, columns, b)) && count == |Cells(history)|
    ensures count <= rows * columns
    ensures rows > 0 && columns > 0 ==> count >= 1
  {
    var active := new bool[rows, columns]((r, c) => false);
    var history := TraceBeams(grid, rows, columns, active);
    count := CountActive(active, Cells(history));
    CellsWithinGrid(grid, rows, columns, history);
    if rows > 0 && columns > 0 {
      assert Start in ReachIn(grid, rows, columns, 0);
      assert (Start.row, Start.column) in Cells(history);
    }
  }

  /** The cells of a grid with the given number of rows and columns. */
  ghost function GridCells(rows: nat, columns: nat): set<(int, int)> {
    set r, c | 0 <= r < rows && 0 <= c < columns :: (r, c)
  }

  /** The beams reachable inside a grid cross at most every one of its cells. */
  lemma CellsWithinGrid(grid: Grid, rows: nat, columns: nat, history: set<Beam>)
    requires IsGrid(grid, rows, columns)
    requires forall b :: b in history <==> Reachable(grid, rows, columns, b)
    ensures |Cells(history)| <= rows * columns
  {
    forall p | p in Cells(history)
      ensures p in GridCells(rows, columns)
    {
      var b :| b in history && p == (b.row, b.column);
      var n: nat :| b in ReachIn(grid, rows, columns, n);
    }
    GridCellsCount(rows, columns);
    var all, crossed := GridCells(rows, columns), Cells(history);
    assert all == crossed + (all - crossed) && crossed * (all - crossed) == {};
  }

  /** A grid of rows by columns has rows times columns cells. */
  lemma {:induction false} GridCellsCount(rows: nat, columns: nat)
    ensures |GridCells(rows, columns)| == rows * columns
  {
    if rows > 0 {
      var r := rows - 1;
      GridCellsCount(r, columns);
      RowCellsCount(r, columns);
      GridCellsSplit(r, columns);
      assert rows * columns == r * columns + columns;
    } else {
      assert GridCells(rows, columns) == {};
    }
  }

  /** One more row adds its cells, none of which the smaller grid has. */
  lemma GridCellsSplit(r: nat, columns: nat)
    ensures GridCells(r + 1, columns) == GridCells(r, columns) + RowCells(r, columns)
    ensures GridCells(r, columns) * RowCells(r, columns) == {}
  {
  }

  /** The cells of row r. */
  ghost function RowCells(r: int, columns: nat): set<(int, int)> {
    set c | 0 <= c < columns :: (r, c)
  }

  /** Row r of a grid has one cell per column. */
  lemma {:induction false} RowCellsCount(r: int, columns: nat)
    ensures |RowCells(r, columns)| == columns
  {
    if columns > 0 {
      RowCellsCount(r, columns - 1);
      assert RowCells(r, columns) == RowCells(r, columns - 1) + {(r, columns - 1)};
    } else {
      assert RowCells(r, columns) == {};
    }
  }

  /** The marked cells, counted in row-major order. */
  method CountActive(active: array2<bool>, ghost cells: set<(int, int)>) returns (count: nat)
    requires forall r, c :: 0 <= r < active.Length0 && 0 <= c < active.Length1 ==> (active[r, c] <==> (r, c) in cells)
    requires forall p :: p in cells ==> 0 <= p.0 < active.Length0 && 0 <= p.1 < active.Length1
    ensures count == |cells|
  {
    count := 0;
    for r := 0 to active.Length0
      invariant count == |set p | p in cells && p.0 < r|
    {
      assert (set p | p in cells && (p.0 < r || (p.0 == r && p.1 < 0))) == set p | p in cells && p.0 < r;
      for c := 0 to active.Length1
        invariant count == |set p | p in cells && (p.0 < r || (p.0 == r && p.1 < c))|
      {
        var before := set p | p in cells && (p.0 < r || (p.0 == r && p.1 < c));
        var after := set p | p in cells && (p.0 < r || (p.0 == r && p.1 < c + 1));
        if active[r, c] {
          assert after == before + {(r, c)};
          count := count + 1;
        } else {
          assert after == before;
        }
      }
      assert (set p | p in cells && (p.0 < r || (p.0 == r && p.1 < active.Length1)))
        == set p | p in cells && p.0 < r + 1;
    }
    assert (set p | p in cells && p.0 < active.Length0) == cells;
  }
}
