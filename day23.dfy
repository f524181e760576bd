/** Day 23: a hiking map of paths, forest and steep slopes. A walk never steps into the
    forest, never revisits a tile, and on a slope must go downhill. The successor rule for
    the search over such walks is modelled here; the search itself is a library call. */
module Day23 {
  import opened Common

  datatype MapTileType = Path | Forest | NorthSlope | SouthSlope | EastSlope | WestSlope

  /** `MapTileType::from_char`: exactly the characters `.#^>v<`; anything else panics (None). */
  function FromChar(c: char): (r: Option<MapTileType>)
    ensures r == Some(Path) <==> c == '.'
    ensures r == Some(Forest) <==> c == '#'
    ensures r == Some(NorthSlope) <==> c == '^'
    ensures r == Some(EastSlope) <==> c == '>'
    ensures r == Some(SouthSlope) <==> c == 'v'
    ensures r == Some(WestSlope) <==> c == '<'
    ensures r.None? <==> c !in ".#^>v<"
  {
    match c
    case '.' => Some(Path)
    case '#' => Some(Forest)
    case '^' => Some(NorthSlope)
    case '>' => Some(EastSlope)
    case 'v' => Some(SouthSlope)
    case '<' => Some(WestSlope)
    case _ => None
  }

  /** The map as rows of tiles; `Array2D::from_rows` makes every row the same length. */
  type MapGrid = seq<seq<MapTileType>>

  predicate Rectangular(g: MapGrid) {
    forall r :: 0 <= r < |g| ==> |g[r]| == |g[0]|
  }

  function NumRows(g: MapGrid): nat {
    |g|
  }

  function NumColumns(g: MapGrid): nat {
    if |g| == 0 then 0 else |g[0]|
  }

  /** `Pos(x, y)`: x is the column and y the row. */
  datatype Pos = Pos(x: nat, y: nat)

  predicate InBounds(g: MapGrid, p: Pos) {
    p.x < NumColumns(g) && p.y < NumRows(g)
  }

  /** `get_pos`: the tile at column x of row y, None off the map. */
  function GetPos(g: MapGrid, p: Pos): (r: Option<MapTileType>)
    requires Rectangular(g)
    ensures r.Some? <==> InBounds(g, p)
    ensures r.Some? ==> r.value == g[p.y][p.x]
  {
    if p.y < |g| && p.x < |g[p.y]| then Some(g[p.y][p.x]) else None
  }

  /** The index of the first t in row, like `Iterator::position`; None when there is none. */
  function Position(row: seq<MapTileType>, t: MapTileType): (r: Option<nat>)
    ensures r.None? <==> t !in row
    ensures r.Some? ==> r.value < |row| && row[r.value] == t && t !in row[..r.value]
  {
    if row == [] then None
    else if row[0] == t then Some(0)
    else
      var rest := Position(row[1..], t);
      if rest.None? then None
      else
        assert row[..rest.value + 1] == [row[0]] + row[1..][..rest.value];
        Some(rest.value + 1)
  }

  /** `get_start_point`: the first path tile of the first row. None where the source panics:
      no rows, or no path in the first row. */
  function GetStartPoint(g: MapGrid): (r: Option<Pos>)
    ensures r.Some? <==> |g| > 0 && Path in g[0]
    ensures r.Some? ==> r.value.y == 0 && r.value.x < |g[0]| && g[0][r.value.x] == Path
                        && Path !in g[0][..r.value.x]
  {
    if |g| == 0 then None
    else
      var i := Position(g[0], Path);
      if i.None? then None else Some(Pos(i.value, 0))
  }

  /** `get_end_point`: the first path tile of the last row. */
  function GetEndPoint(g: MapGrid): (r: Option<Pos>)
    ensures r.Some? <==> |g| > 0 && Path in g[|g| - 1]
    ensures r.Some? ==> r.value.y == NumRows(g) - 1 && r.value.x < |g[|g| - 1]|
                        && g[|g| - 1][r.value.x] == Path && Path !in g[|g| - 1][..r.value.x]
  {
    if |g| == 0 then None
    else
      var i := Position(g[|g| - 1], Path);
      if i.None? then None else Some(Pos(i.value, |g| - 1))
  }

  // `next_map_positions`.

  /** Steps as (x, y) deltas. */
  const SouthStep: (int, int) := (0, 1)
  const NorthStep: (int, int) := (0, -1)
  const EastStep: (int, int) := (1, 0)
  const WestStep: (int, int) := (-1, 0)

  /** The steps allowed from a tile: a slope allows only its own direction. */
  function Deltas(tile: MapTileType): (ds: seq<(int, int)>)
    ensures forall k :: 0 <= k < |ds| ==> Abs(ds[k].0) + Abs(ds[k].1) == 1
    ensures tile.NorthSlope? || tile.SouthSlope? || tile.EastSlope? || tile.WestSlope? ==> |ds| == 1
  {
    match tile
    case NorthSlope => [NorthStep]
    case SouthSlope => [SouthStep]
    case EastSlope => [EastStep]
    case WestSlope => [WestStep]
    case _ => [NorthStep, SouthStep, EastStep, WestStep]
  }

  /** On the map and not forest. */
  predicate Open(g: MapGrid, x: int, y: int)
    requires Rectangular(g)
  {
    0 <= x < NumColumns(g) && 0 <= y < NumRows(g) && g[y][x] != Forest
  }

  /** The loop over the first k deltas: every step that stays on the map and off the forest. */
  function Candidates(g: MapGrid, p: Pos, ds: seq<(int, int)>, k: nat): (r: seq<Pos>)
    requires Rectangular(g) && k <= |ds|
    ensures |r| <= k
  {
    if k == 0 then []
    else
      var prev := Candidates(g, p, ds, k - 1);
      var x, y := p.x + ds[k - 1].0, p.y + ds[k - 1].1;
      if Open(g, x, y) then prev + [Pos(x, y)] else prev
  }

  datatype MapTraversalTracker = MapTraversalTracker(position: Pos, history: seq<Pos>)

  /** The second loop: a new tracker for each candidate not in the history, whose history is
      the old one with the current position appended. */
  function Trackers(ps: seq<Pos>, t: MapTraversalTracker): (r: seq<MapTraversalTracker>)
    ensures |r| <= |ps|
  {
    if ps == [] then []
    else
      var prev := Trackers(ps[..|ps| - 1], t);
      var q := ps[|ps| - 1];
      if q !in t.history then prev + [MapTraversalTracker(q, t.history + [t.position])] else prev
  }

  /** The trackers `next_map_positions` returns. */
  function NextTrackers(g: MapGrid, t: MapTraversalTracker): seq<MapTraversalTracker>
    requires Rectangular(g) && InBounds(g, t.position)
  {
    var ds := Deltas(g[t.position.y][t.position.x]);
    Trackers(Candidates(g, t.position, ds, |ds|), t)
  }

  /** The four rules of a move from t to q: one of the tile's steps, on the map, not forest,
      and not already walked. */
  predicate Allowed(g: MapGrid, t: MapTraversalTracker, q: Pos)
    requires Rectangular(g) && InBounds(g, t.position)
  {
    var p := t.position;
    (q.x - p.x, q.y - p.y) in Deltas(g[p.y][p.x]) && Open(g, q.x, q.y) && q !in t.history
  }

  /** `next_map_positions`: first the candidate positions, then the trackers for those not
      in the history. The current tile must exist (the source unwraps it). */
  method NextMapPositions(g: MapGrid, currentTracker: MapTraversalTracker)
    returns (moveOptionsToReturn: seq<MapTraversalTracker>)
    requires Rectangular(g) && InBounds(g, currentTracker.position)
    ensures moveOptionsToReturn == NextTrackers(g, currentTracker)
  {
    var currentMapTile := GetPos(g, currentTracker.position).value;
    var deltas := Deltas(currentMapTile);
    var possibleNextPositions: seq<Pos> := [];
    for i := 0 to |deltas|
      invariant possibleNextPositions == Candidates(g, currentTracker.position, deltas, i)
    {
      var d := deltas[i];
      var nextX := currentTracker.position.x + d.0;
      var nextY := currentTracker.position.y + d.1;
      if nextX < 0 || nextX >= NumColumns(g) || nextY < 0 || nextY >= NumRows(g) {
        continue;
      }
      var nextPos := Pos(nextX, nextY);
      if GetPos(g, nextPos).value == Forest {
        continue;
      }
      possibleNextPositions := possibleNextPositions + [nextPos];
    }
    moveOptionsToReturn := [];
    for i := 0 to |possibleNextPositions|
      invariant moveOptionsToReturn == Trackers(possibleNextPositions[..i], currentTracker)
    {
      assert possibleNextPositions[..i + 1][..i] == possibleNextPositions[..i];
      var position := possibleNextPositions[i];
      if position !in currentTracker.history {
        var newTracker := MapTraversalTracker(position, currentTracker.history);
        newTracker := newTracker.(history := newTracker.history + [currentTracker.position]);
        moveOptionsToReturn := moveOptionsToReturn + [newTracker];
      }
    }
    assert possibleNextPositions[..|possibleNextPositions|] == possibleNextPositions;
  }

  /** The candidates from the first k deltas are exactly the open positions one of those
      deltas reaches. */
  lemma CandidatesExact(g: MapGrid, p: Pos, ds: seq<(int, int)>, k: nat)
    requires Rectangular(g) && k <= |ds|
    ensures forall q :: q in Candidates(g, p, ds, k) <==>
      (q.x - p.x, q.y - p.y) in ds[..k] && Open(g, q.x, q.y)
  {
    forall q
      ensures q in Candidates(g, p, ds, k) <==> (q.x - p.x, q.y - p.y) in ds[..k] && Open(g, q.x, q.y)
    {
      CandidateIn(g, p, ds, k, q);
    }
  }

  /** The same for one position. */
  lemma {:induction false} CandidateIn(g: MapGrid, p: Pos, ds: seq<(int, int)>, k: nat, q: Pos)
    requires Rectangular(g) && k <= |ds|
    ensures q in Candidates(g, p, ds, k) <==> (q.x - p.x, q.y - p.y) in ds[..k] && Open(g, q.x, q.y)
  {
    if k > 0 {
      CandidateIn(g, p, ds, k - 1, q);
      assert ds[..k] == ds[..k - 1] + [ds[k - 1]];
    }
  }

  /** A tracker is produced for exactly the candidates outside the history, each carrying
      the history extended by the current position. */
  lemma TrackersExact(ps: seq<Pos>, t: MapTraversalTracker)
    ensures forall n :: n in Trackers(ps, t) <==>
      n.position in ps && n.position !in t.history && n.history == t.history + [t.position]
  {
    forall n
      ensures n in Trackers(ps, t) <==> n.position in ps && n.position !in t.history && n.history == t.history + [t.position]
    {
      TrackerIn(ps, t, n);
    }
  }

  /** The same for one tracker. */
  lemma {:induction false} TrackerIn(ps: seq<Pos>, t: MapTraversalTracker, n: MapTraversalTracker)
    ensures n in Trackers(ps, t) <==>
      n.position in ps && n.position !in t.history && n.history == t.history + [t.position]
    decreases |ps|
  {
    if ps != [] {
      var init := ps[..|ps| - 1];
      TrackerIn(init, t, n);
      assert ps == init + [ps[|ps| - 1]];
    }
  }

  /** The rules of `next_map_positions`: a tracker is returned exactly for each allowed move
      (rules 1 to 4), and its history is the old one followed by the current position. */
  lemma NextTrackersExact(g: MapGrid, t: MapTraversalTracker)
    requires Rectangular(g) && InBounds(g, t.position)
    ensures forall n :: n in NextTrackers(g, t) <==>
      Allowed(g, t, n.position) && n.history == t.history + [t.position]
  {
    forall n
      ensures n in NextTrackers(g, t) <==> Allowed(g, t, n.position) && n.history == t.history + [t.position]
    {
      NextTracker(g, t, n);
    }
  }

  /** One tracker is returned exactly when its move is allowed and its history extended. */
  lemma NextTracker(g: MapGrid, t: MapTraversalTracker, n: MapTraversalTracker)
    requires Rectangular(g) && InBounds(g, t.position)
    ensures n in NextTrackers(g, t) <==> Allowed(g, t, n.position) && n.history == t.history + [t.position]
  {
    if n in NextTrackers(g, t) {
      ReturnedAllowed(g, t, n);
    } else if Allowed(g, t, n.position) && n.history == t.history + [t.position] {
      AllowedReturned(g, t, n);
    }
  }

  lemma ReturnedAllowed(g: MapGrid, t: MapTraversalTracker, n: MapTraversalTracker)
    requires Rectangular(g) && InBounds(g, t.position) && n in NextTrackers(g, t)
    ensures Allowed(g, t, n.position) && n.history == t.history + [t.position]
  {
    var ds := Deltas(g[t.position.y][t.position.x]);
    TrackerOfCandidates(g, t, ds, n);
    AllowedAt(g, t, n.position);
  }

  lemma AllowedReturned(g: MapGrid, t: MapTraversalTracker, n: MapTraversalTracker)
    requires Rectangular(g) && InBounds(g, t.position)
    requires Allowed(g, t, n.position) && n.history == t.history + [t.position]
    ensures n in NextTrackers(g, t)
  {
    var ds := Deltas(g[t.position.y][t.position.x]);
    TrackerOfCandidates(g, t, ds, n);
    AllowedAt(g, t, n.position);
  }

  /** A tracker is built from the candidates of a list of steps exactly when one of the
      steps reaches its position, that position is open and outside the history, and its
      history is extended. */
  lemma TrackerOfCandidates(g: MapGrid, t: MapTraversalTracker, ds: seq<(int, int)>, n: MapTraversalTracker)
    requires Rectangular(g)
    ensures n in Trackers(Candidates(g, t.position, ds, |ds|), t) <==>
      (n.position.x - t.position.x, n.position.y - t.position.y) in ds && Open(g, n.position.x, n.position.y)
      && n.position !in t.history && n.history == t.history + [t.position]
  {
    CandidateAt(g, t.position, ds, n.position);
    TrackerIn(Candidates(g, t.position, ds, |ds|), t, n);
  }

  /** The four rules, spelled out for one position. */
  lemma AllowedAt(g: MapGrid, t: MapTraversalTracker, q: Pos)
    requires Rectangular(g) && InBounds(g, t.position)
    ensures Allowed(g, t, q) <==>
      (q.x - t.position.x, q.y - t.position.y) in Deltas(g[t.position.y][t.position.x]) && Open(g, q.x, q.y) && q !in t.history
  {
  }

  /** One position is a candidate exactly when one of the steps reaches it and it is open. */
  lemma CandidateAt(g: MapGrid, p: Pos, ds: seq<(int, int)>, q: Pos)
    requires Rectangular(g)
    ensures q in Candidates(g, p, ds, |ds|) <==> (q.x - p.x, q.y - p.y) in ds && Open(g, q.x, q.y)
  {
    CandidateIn(g, p, ds, |ds|, q);
    assert ds[..|ds|] == ds;
  }

  /** Every move is a single step north, south, east or west onto an open tile outside the
      history; from a slope there is at most one move. */
  lemma NextTrackersSound(g: MapGrid, t: MapTraversalTracker)
    requires Rectangular(g) && InBounds(g, t.position)
    ensures forall n :: n in NextTrackers(g, t) ==>
      Abs(n.position.x - t.position.x) + Abs(n.position.y - t.position.y) == 1
      && InBounds(g, n.position) && g[n.position.y][n.position.x] != Forest
      && n.position !in t.history
    ensures g[t.position.y][t.position.x] in {NorthSlope, SouthSlope, EastSlope, WestSlope} ==>
      |NextTrackers(g, t)| <= 1
  {
    forall n | n in NextTrackers(g, t)
      ensures Abs(n.position.x - t.position.x) + Abs(n.position.y - t.position.y) == 1
      ensures InBounds(g, n.position) && g[n.position.y][n.position.x] != Forest
      ensures n.position !in t.history
    {
      MoveIsStep(g, t, n);
    }
    SlopeMoves(g, t);
  }

  /** A returned tracker is one step away, on open ground and off the history. */
  lemma MoveIsStep(g: MapGrid, t: MapTraversalTracker, n: MapTraversalTracker)
    requires Rectangular(g) && InBounds(g, t.position) && n in NextTrackers(g, t)
    ensures Abs(n.position.x - t.position.x) + Abs(n.position.y - t.position.y) == 1
    ensures InBounds(g, n.position) && g[n.position.y][n.position.x] != Forest
    ensures n.position !in t.history
  {
    ReturnedAllowed(g, t, n);
    AllowedIsStep(g, t, n.position);
  }

  /** An allowed move is one step onto open ground off the history. */
  lemma AllowedIsStep(g: MapGrid, t: MapTraversalTracker, q: Pos)
    requires Rectangular(g) && InBounds(g, t.position) && Allowed(g, t, q)
    ensures Abs(q.x - t.position.x) + Abs(q.y - t.position.y) == 1
    ensures InBounds(g, q) && g[q.y][q.x] != Forest
    ensures q !in t.history
  {
    var p := t.position;
    var ds := Deltas(g[p.y][p.x]);
    var k :| 0 <= k < |ds| && ds[k] == (q.x - p.x, q.y - p.y);
  }

  /** From a slope at most one tracker is returned. */
  lemma SlopeMoves(g: MapGrid, t: MapTraversalTracker)
    requires Rectangular(g) && InBounds(g, t.position)
    ensures g[t.position.y][t.position.x] in {NorthSlope, SouthSlope, EastSlope, WestSlope} ==>
      |NextTrackers(g, t)| <= 1
  {
    var p := t.position;
    var ds := Deltas(g[p.y][p.x]);
    var cs := Candidates(g, p, ds, |ds|);
    assert |NextTrackers(g, t)| == |Trackers(cs, t)| <= |cs| <= |ds|;
  }

  /** The final loop of `get_longest_scenic_path_length` over the trackers the search
      reached (the search is a library call and its result a parameter): the longest
      history among those standing on the end, or 0. */
  method LongestHistory(reached: seq<MapTraversalTracker>, endPosition: Pos) returns (maxLen: nat)
    ensures forall t :: t in reached && t.position == endPosition ==> |t.history| <= maxLen
    ensures maxLen == 0 || exists t :: t in reached && t.position == endPosition && |t.history| == maxLen
  {
    maxLen := 0;
    for i := 0 to |reached|
      invariant forall k :: 0 <= k < i && reached[k].position == endPosition ==> |reached[k].history| <= maxLen
      invariant maxLen == 0 || exists k :: 0 <= k < i && reached[k].position == endPosition
                                           && |reached[k].history| == maxLen
    {
      if reached[i].position == endPosition {
        maxLen := Max(|reached[i].history|, maxLen);
      }
    }
  }
}
