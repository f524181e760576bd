/** Day 21: an elf starts on a garden map and takes single steps north, south, east or
    west onto garden plots; how many plots can it stand on after exactly n steps? */
module Day21 {
  import opened Common

  datatype MapLocationState = StartingPosition | GardenPlot | Rocks

  /** `MapLocationState::from_character`: `S`, `.` and `#`; anything else panics (None). */
  function FromCharacter(c: char): (r: Option<MapLocationState>)
    ensures r == Some(StartingPosition) <==> c == 'S'
    ensures r == Some(GardenPlot) <==> c == '.'
    ensures r == Some(Rocks) <==> c == '#'
    ensures r.None? <==> c !in "S.#"
  {
    match c
    case 'S' => Some(StartingPosition)
    case '.' => Some(GardenPlot)
    case '#' => Some(Rocks)
    case _ => None
  }

  type GardenPlotMap = seq<seq<MapLocationState>>

  /** A position (row, column). A negative coordinate becomes a huge `usize` in the source
      and so falls outside the map; the model keeps it negative. */
  datatype Pos = Pos(row: int, column: int)

  predicate InMap(rows: nat, columns: nat, p: Pos) {
    0 <= p.row < rows && 0 <= p.column < columns
  }

  /** A cell the elf may stand on: inside the map and not rocks. */
  predicate Walkable(garden: GardenPlotMap, rows: nat, columns: nat, p: Pos)
    requires IsGrid(garden, rows, columns)
  {
    InMap(rows, columns, p) && garden[p.row][p.column] != Rocks
  }

  const DirectionDeltas: seq<(int, int)> := [(0, 1), (0, -1), (1, 0), (-1, 0)]

  /** The position the i-th delta leads to from p. */
  function Neighbour(p: Pos, i: nat): (q: Pos)
    requires i < |DirectionDeltas|
    ensures Adjacent(p, q)
  {
    Pos(p.row + DirectionDeltas[i].0, p.column + DirectionDeltas[i].1)
  }

  /** The walkable neighbours of p, in the order of the deltas east, west, south, north,
      from the first k deltas. */
  function NextStepsUpTo(garden: GardenPlotMap, rows: nat, columns: nat, p: Pos, k: nat): (r: seq<Pos>)
    requires IsGrid(garden, rows, columns) && k <= |DirectionDeltas|
    ensures |r| <= k
  {
    if k == 0 then []
    else
      var prev := NextStepsUpTo(garden, rows, columns, p, k - 1);
      var newPos := Neighbour(p, k - 1);
      if Walkable(garden, rows, columns, newPos) then prev + [newPos] else prev
  }

  function NextSteps(garden: GardenPlotMap, rows: nat, columns: nat, p: Pos): seq<Pos>
    requires IsGrid(garden, rows, columns)
  {
    NextStepsUpTo(garden, rows, columns, p, |DirectionDeltas|)
  }

  /** One step away: the two positions differ by one in exactly one coordinate. */
  predicate Adjacent(p: Pos, q: Pos) {
    Abs(q.row - p.row) + Abs(q.column - p.column) == 1
  }

  /** The neighbours listed from the first k deltas are exactly the walkable ones. */
  lemma {:induction false} NextStepsUpToMembers(garden: GardenPlotMap, rows: nat, columns: nat, p: Pos, k: nat)
    requires IsGrid(garden, rows, columns) && k <= |DirectionDeltas|
    ensures forall q :: q in NextStepsUpTo(garden, rows, columns, p, k) <==>
      Walkable(garden, rows, columns, q) && exists i :: 0 <= i < k && q == Neighbour(p, i)
  {
    if k > 0 {
      NextStepsUpToMembers(garden, rows, columns, p, k - 1);
      forall q | Walkable(garden, rows, columns, q) && exists i :: 0 <= i < k && q == Neighbour(p, i)
        ensures q in NextStepsUpTo(garden, rows, columns, p, k)
      {
        var i :| 0 <= i < k && q == Neighbour(p, i);
        if i < k - 1 {
          assert q in NextStepsUpTo(garden, rows, columns, p, k - 1);
        }
      }
    }
  }

  /** Different deltas lead to different positions, so no neighbour is listed twice. */
  lemma {:induction false} NextStepsUpToDistinct(garden: GardenPlotMap, rows: nat, columns: nat, p: Pos, k: nat)
    requires IsGrid(garden, rows, columns) && k <= |DirectionDeltas|
    ensures Distinct(NextStepsUpTo(garden, rows, columns, p, k))
  {
    if k > 0 {
      NextStepsUpToDistinct(garden, rows, columns, p, k - 1);
      NextStepsUpToMembers(garden, rows, columns, p, k - 1);
      var prev := NextStepsUpTo(garden, rows, columns, p, k - 1);
      assert forall i :: 0 <= i < k - 1 ==> Neighbour(p, i) != Neighbour(p, k - 1);
      assert Neighbour(p, k - 1) !in prev;
    }
  }

  /** `get_next_steps` lists exactly the walkable positions adjacent to p, each once. */
  lemma NextStepsExact(garden: GardenPlotMap, rows: nat, columns: nat, p: Pos)
    requires IsGrid(garden, rows, columns)
    ensures |NextSteps(garden, rows, columns, p)| <= 4
    ensures forall q :: q in NextSteps(garden, rows, columns, p) <==> Walkable(garden, rows, columns, q) && Adjacent(p, q)
    ensures Distinct(NextSteps(garden, rows, columns, p))
  {
    NextStepsUpToMembers(garden, rows, columns, p, 4);
    NextStepsUpToDistinct(garden, rows, columns, p, 4);
    forall q | Walkable(garden, rows, columns, q) && Adjacent(p, q)
      ensures exists i :: 0 <= i < 4 && q == Neighbour(p, i)
    {
      var i := if q.column == p.column + 1 then 0 else if q.column == p.column - 1 then 1
        else if q.row == p.row + 1 then 2 else 3;
      assert q == Neighbour(p, i);
    }
  }

  /** `get_next_steps`: try the four deltas in turn and keep the walkable positions. */
  method GetNextSteps(currentPosition: Pos, garden: GardenPlotMap, rows: nat, columns: nat) returns (nextSteps: seq<Pos>)
    requires IsGrid(garden, rows, columns)
    ensures nextSteps == NextSteps(garden, rows, columns, currentPosition)
  {
    nextSteps := [];
    var directionDeltas := DirectionDeltas;
    for k := 0 to |directionDeltas|
      invariant nextSteps == NextStepsUpTo(garden, rows, columns, currentPosition, k)
    {
      var delta := directionDeltas[k];
      var newPos := Pos(currentPosition.row + delta.0, currentPosition.column + delta.1);
      if 0 <= newPos.row < rows && 0 <= newPos.column < columns {
        var mapPoint := garden[newPos.row][newPos.column];
        if mapPoint == GardenPlot || mapPoint == StartingPosition {
          nextSteps := nextSteps + [newPos];
        }
      }
    }
  }

  predicate Distinct(s: seq<Pos>) {
    forall i, j :: 0 <= i < j < |s| ==> s[i] != s[j]
  }

  /** `unique`: the first occurrence of every position, in order. */
  function Unique(s: seq<Pos>): (r: seq<Pos>)
    ensures Distinct(r)
    ensures forall q :: q in r <==> q in s
  {
    if s == [] then []
    else
      var u := Unique(s[..|s| - 1]);
      if s[|s| - 1] in u then u else u + [s[|s| - 1]]
  }

  /** A list without repeats has as many entries as its set of entries. */
  lemma {:induction false} DistinctCard(s: seq<Pos>)
    requires Distinct(s)
    ensures |set q | q in s| == |s|
  {
    if s != [] {
      var init := s[..|s| - 1];
      DistinctCard(init);
      assert (set q | q in s) == (set q | q in init) + {s[|s| - 1]};
      assert s[|s| - 1] !in init;
    }
  }

  /** The positions reachable from the start in exactly n >= 1 steps. */
  ghost function Layer(garden: GardenPlotMap, rows: nat, columns: nat, start: Pos, n: nat): (s: set<Pos>)
    requires IsGrid(garden, rows, columns) && n >= 1
  {
    if n == 1 then set q | q in NextSteps(garden, rows, columns, start)
    else
      var prev := Layer(garden, rows, columns, start, n - 1);
      set p, q | p in prev && q in NextSteps(garden, rows, columns, p) :: q
  }

  /** The positions one step from some position of `from`. */
  ghost function Step(garden: GardenPlotMap, rows: nat, columns: nat, from: seq<Pos>): set<Pos>
    requires IsGrid(garden, rows, columns)
  {
    set p, q | p in from && q in NextSteps(garden, rows, columns, p) :: q
  }

  /** A cache entry is the neighbour list of its key. */
  predicate CacheValid(garden: GardenPlotMap, rows: nat, columns: nat, cache: map<Pos, seq<Pos>>)
    requires IsGrid(garden, rows, columns)
  {
    forall p :: p in cache ==> cache[p] == NextSteps(garden, rows, columns, p)
  }

  /** The inner loop of `find_positions_after_steps`: the neighbours of every frontier
      position, taken from the cache or computed and stored. */
  method NextLayer(garden: GardenPlotMap, rows: nat, columns: nat, cache: map<Pos, seq<Pos>>, nextPositions: seq<Pos>)
    returns (nextLayerPositions: seq<Pos>, cache': map<Pos, seq<Pos>>)
    requires IsGrid(garden, rows, columns) && CacheValid(garden, rows, columns, cache)
    ensures CacheValid(garden, rows, columns, cache')
    ensures forall q :: q in nextLayerPositions <==> q in Step(garden, rows, columns, nextPositions)
  {
    nextLayerPositions := [];
    cache' := cache;
    for i := 0 to |nextPositions|
      invariant CacheValid(garden, rows, columns, cache')
      invariant forall q :: q in nextLayerPositions <==> q in Step(garden, rows, columns, nextPositions[..i])
    {
      var nextPos := nextPositions[i];
      var nextSteps;
      if nextPos in cache' {
        nextSteps := cache'[nextPos];
      } else {
        nextSteps := GetNextSteps(nextPos, garden, rows, columns);
        cache' := cache'[nextPos := nextSteps];
      }
      StepAppend(garden, rows, columns, nextPositions, i);
      nextLayerPositions := nextLayerPositions + nextSteps;
    }
    assert nextPositions[..|nextPositions|] == nextPositions;
  }

  lemma StepAppend(garden: GardenPlotMap, rows: nat, columns: nat, s: seq<Pos>, i: nat)
    requires IsGrid(garden, rows, columns) && i < |s|
    ensures Step(garden, rows, columns, s[..i + 1])
      == Step(garden, rows, columns, s[..i]) + set q | q in NextSteps(garden, rows, columns, s[i])
  {
    assert s[..i + 1] == s[..i] + [s[i]];
  }

  /** `find_positions_after_steps`: the frontier after each step, deduplicated, with a
      cache of neighbour lists. The loop runs from step 1 to steps - 1 after the first
      step, so 0 steps counts like 1. */
  method FindPositionsAfterSteps(garden: GardenPlotMap, rows: nat, columns: nat, start: Pos, steps: nat) returns (count: nat)
    requires IsGrid(garden, rows, columns)
    ensures count == |Layer(garden, rows, columns, start, if steps == 0 then 1 else steps)|
  {
    var seenPositions: map<Pos, seq<Pos>> := map[];
    var nextPositions := GetNextSteps(start, garden, rows, columns);
    seenPositions := seenPositions[start := nextPositions];
    NextStepsExact(garden, rows, columns, start);
    var step := 1;
    while step < steps
      invariant 1 <= step <= (if steps == 0 then 1 else steps)
      invariant CacheValid(garden, rows, columns, seenPositions)
      invariant Distinct(nextPositions)
      invariant (set q | q in nextPositions) == Layer(garden, rows, columns, start, step)
    {
      ghost var previous := nextPositions;
      var nextLayerPositions;
      nextLayerPositions, seenPositions := NextLayer(garden, rows, columns, seenPositions, nextPositions);
      nextPositions := Unique(nextLayerPositions);
      assert Step(garden, rows, columns, previous) == Layer(garden, rows, columns, start, step + 1);
      step := step + 1;
    }
    assert step == (if steps == 0 then 1 else steps);
    DistinctCard(nextPositions);
    count := |nextPositions|;
  }

  /** The plots of the garden: every cell that is not rocks. */
  ghost function Plots(garden: GardenPlotMap, rows: nat, columns: nat): set<Pos>
    requires IsGrid(garden, rows, columns)
  {
    set r, c | 0 <= r < rows && 0 <= c < columns && garden[r][c] != Rocks :: Pos(r, c)
  }

  /** Every position reached is a plot, so the count is at most the number of plots. */
  lemma LayerWithinPlots(garden: GardenPlotMap, rows: nat, columns: nat, start: Pos, n: nat)
    requires IsGrid(garden, rows, columns) && n >= 1
    ensures Layer(garden, rows, columns, start, n) <= Plots(garden, rows, columns)
    ensures |Layer(garden, rows, columns, start, n)| <= |Plots(garden, rows, columns)|
  {
    var layer := Layer(garden, rows, columns, start, n);
    forall q | q in layer
      ensures q in Plots(garden, rows, columns)
    {
      LayerWalkable(garden, rows, columns, start, n, q);
    }
    SubsetCard(layer, Plots(garden, rows, columns));
  }

  lemma LayerWalkable(garden: GardenPlotMap, rows: nat, columns: nat, start: Pos, n: nat, q: Pos)
    requires IsGrid(garden, rows, columns) && n >= 1 && q in Layer(garden, rows, columns, start, n)
    ensures Walkable(garden, rows, columns, q)
  {
    if n == 1 {
      NextStepsExact(garden, rows, columns, start);
    } else {
      var p :| p in Layer(garden, rows, columns, start, n - 1) && q in NextSteps(garden, rows, columns, p);
      NextStepsExact(garden, rows, columns, p);
    }
  }

  lemma {:induction false} SubsetCard(a: set<Pos>, b: set<Pos>)
    requires a <= b
    ensures |a| <= |b|
  {
    assert b == a + (b - a) && a * (b - a) == {};
  }

  /** A chessboard argument: every step changes row + column by one, so the positions
      reached after n steps all have the parity of the start's row + column plus n. */
  lemma {:induction false} LayerParity(garden: GardenPlotMap, rows: nat, columns: nat, start: Pos, n: nat, q: Pos)
    requires IsGrid(garden, rows, columns) && n >= 1 && q in Layer(garden, rows, columns, start, n)
    ensures (q.row + q.column - start.row - start.column - n) % 2 == 0
  {
    if n == 1 {
      NextStepsExact(garden, rows, columns, start);
      assert Adjacent(start, q);
    } else {
      var p :| p in Layer(garden, rows, columns, start, n - 1) && q in NextSteps(garden, rows, columns, p);
      LayerParity(garden, rows, columns, start, n - 1, p);
      NextStepsExact(garden, rows, columns, p);
      assert Adjacent(p, q);
    }
  }
}
