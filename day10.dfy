/** Day 10: a loop of pipes on a grid. From the start the walk enters the pipe next to it,
    follows each pipe's bend until it is back at the start, and the interior of the loop is
    counted from the shoelace area with Pick's theorem. */
module Day10 {
  import opened Common
  import Shoelace

  datatype Pipe = NorthSouth | EastWest | NorthEast | NorthWest | SouthWest | SouthEast | Ground | StartPosition

  /** `char_to_segment`: the eight map characters; any other character is an error (None). */
  function CharToSegment(c: char): (r: Option<Pipe>)
    ensures r.Some? <==> c in "|-LJ7F.S"
    ensures r.Some? ==> SegmentChar(r.value) == c
  {
    match c
    case '|' => Some(NorthSouth)
    case '-' => Some(EastWest)
    case 'L' => Some(NorthEast)
    case 'J' => Some(NorthWest)
    case '7' => Some(SouthWest)
    case 'F' => Some(SouthEast)
    case '.' => Some(Ground)
    case 'S' => Some(StartPosition)
    case _ => None
  }

  function SegmentChar(p: Pipe): char {
    match p
    case NorthSouth => '|'
    case EastWest => '-'
    case NorthEast => 'L'
    case NorthWest => 'J'
    case SouthWest => '7'
    case SouthEast => 'F'
    case Ground => '.'
    case StartPosition => 'S'
  }

  lemma SegmentCharRoundTrip(p: Pipe)
    ensures CharToSegment(SegmentChar(p)) == Some(p)
  {
  }

  datatype Direction = North | East | South | West

  /** The four directions in the order `find_starting_direction` tries them. */
  const Directions: seq<Direction> := [North, East, South, West]

  function Opposite(d: Direction): Direction {
    match d
    case North => South
    case East => West
    case South => North
    case West => East
  }

  /** `get_check_delta`: the (row, column) change of one step. */
  function Delta(d: Direction): (delta: (int, int))
    ensures Abs(delta.0) + Abs(delta.1) == 1
  {
    match d
    case North => (-1, 0)
    case East => (0, 1)
    case South => (1, 0)
    case West => (0, -1)
  }

  /** Opposite directions have opposite deltas. */
  lemma DeltaOpposite(d: Direction)
    ensures Delta(Opposite(d)) == (-Delta(d).0, -Delta(d).1)
  {
  }

  /** The sides of a pipe that are open; ground and the start marker have none. */
  function Openings(p: Pipe): set<Direction> {
    match p
    case NorthSouth => {North, South}
    case EastWest => {East, West}
    case NorthEast => {North, East}
    case NorthWest => {North, West}
    case SouthWest => {South, West}
    case SouthEast => {South, East}
    case Ground => {}
    case StartPosition => {}
  }

  predicate IsBend(p: Pipe) {
    p == NorthEast || p == NorthWest || p == SouthWest || p == SouthEast
  }

  /** `traverse_pipe`: the direction of travel after entering pipe p travelling in d, or
      None where the source panics (entering a bend from a closed side, or entering ground
      or the start). Straight pipes pass every direction through unchanged. */
  function Traverse(p: Pipe, d: Direction): Option<Direction> {
    match p
    case NorthSouth => Some(d)
    case EastWest => Some(d)
    case NorthEast => (if d == South then Some(East) else if d == West then Some(North) else None)
    case NorthWest => (if d == South then Some(West) else if d == East then Some(North) else None)
    case SouthEast => (if d == North then Some(East) else if d == West then Some(South) else None)
    case SouthWest => (if d == North then Some(West) else if d == East then Some(South) else None)
    case Ground => None
    case StartPosition => None
  }

  /** A bend is entered through one opening (travelling away from it, that is towards its
      opposite) and left through the other. */
  lemma BendTraversal(p: Pipe, d: Direction)
    requires IsBend(p)
    ensures Traverse(p, d).Some? <==> Opposite(d) in Openings(p)
    ensures Traverse(p, d).Some? ==>
      Traverse(p, d).value in Openings(p) && Traverse(p, d).value != Opposite(d)
  {
  }

  /** A bend can be walked back: leaving through e after entering in d, entering again
      against e leaves against d. */
  lemma BendReversible(p: Pipe, d: Direction)
    requires IsBend(p) && Traverse(p, d).Some?
    ensures Traverse(p, Opposite(Traverse(p, d).value)) == Some(Opposite(d))
  {
  }

  datatype Location = Location(row: nat, column: nat)

  /** `next_location_in_direction`: the neighbour in direction d, or None when its row or
      column would be negative. */
  function NextLocation(l: Location, d: Direction): (r: Option<Location>)
    ensures r.None? <==> l.row + Delta(d).0 < 0 || l.column + Delta(d).1 < 0
    ensures r.Some? ==> r.value.row == l.row + Delta(d).0 && r.value.column == l.column + Delta(d).1
  {
    var row := l.row + Delta(d).0;
    var column := l.column + Delta(d).1;
    if row < 0 || column < 0 then None else Some(Location(row, column))
  }

  /** Stepping back the opposite way returns to where the step started. */
  lemma NextLocationInverse(l: Location, d: Direction)
    requires NextLocation(l, d).Some?
    ensures NextLocation(NextLocation(l, d).value, Opposite(d)) == Some(l)
  {
    DeltaOpposite(d);
  }

  type Grid = seq<seq<Pipe>>

  /** `get_pipe_at_location`: None where the source's unwrap panics (outside the map). */
  function PipeAt(grid: Grid, l: Location): Option<Pipe> {
    if l.row < |grid| && l.column < |grid[l.row]| then Some(grid[l.row][l.column]) else None
  }

  /** Whether the pipe met going from the start in direction d has an opening back
      towards the start (the tables of `find_starting_direction`). */
  predicate ConnectsBack(d: Direction, p: Pipe) {
    match d
    case North => p == NorthSouth || p == SouthEast || p == SouthWest
    case East => p == EastWest || p == SouthWest || p == NorthWest
    case South => p == NorthSouth || p == NorthWest || p == NorthEast
    case West => p == EastWest || p == NorthEast || p == SouthEast
  }

  /** The tables say exactly that the neighbour is open on the side facing the start. */
  lemma ConnectsBackOpening(d: Direction, p: Pipe)
    ensures ConnectsBack(d, p) <==> Opposite(d) in Openings(p)
  {
  }

  predicate Connects(grid: Grid, start: Location, d: Direction) {
    NextLocation(start, d).Some? && PipeAt(grid, NextLocation(start, d).value).Some?
    && ConnectsBack(d, PipeAt(grid, NextLocation(start, d).value).value)
  }

  /** The start direction after trying the first k directions: the last one that connects,
      North when none has; None where the source panics on a neighbour outside the map. */
  function ScanDirections(grid: Grid, start: Location, k: nat): Option<Direction>
    requires k <= 4
  {
    if k == 0 then Some(North)
    else match ScanDirections(grid, start, k - 1)
      case None => None
      case Some(current) =>
        var d := Directions[k - 1];
        match NextLocation(start, d)
        case None => Some(current)
        case Some(l) =>
          match PipeAt(grid, l)
          case None => None
          case Some(p) => if ConnectsBack(d, p) then Some(d) else Some(current)
  }

  /** Once the scan has panicked, later directions do not matter. */
  lemma {:induction false} ScanPanicStays(grid: Grid, start: Location, k: nat, m: nat)
    requires k <= m <= 4 && ScanDirections(grid, start, k).None?
    ensures ScanDirections(grid, start, m).None?
    decreases m - k
  {
    if k < m {
      ScanPanicStays(grid, start, k + 1, m);
    }
  }

  /** `find_starting_direction`. */
  method FindStartingDirection(grid: Grid, start: Location) returns (r: Option<Direction>)
    ensures r == ScanDirections(grid, start, 4)
  {
    var startDirection := North;
    for k := 0 to 4
      invariant ScanDirections(grid, start, k) == Some(startDirection)
    {
      var d := Directions[k];
      var next := NextLocation(start, d);
      if next.Some? {
        var adjacent := PipeAt(grid, next.value);
        if adjacent.None? {
          ScanPanicStays(grid, start, k + 1, 4);
          return None;
        }
        if ConnectsBack(d, adjacent.value) {
          startDirection := d;
        }
      }
    }
    return Some(startDirection);
  }

  /** The scan answers the last connecting direction among the first k, or North. */
  lemma {:induction false} ScanIsLastConnecting(grid: Grid, start: Location, k: nat)
    requires k <= 4 && ScanDirections(grid, start, k).Some?
    ensures var d := ScanDirections(grid, start, k).value;
      (exists i :: 0 <= i < k && Directions[i] == d && Connects(grid, start, d)
        && forall j :: i < j < k ==> !Connects(grid, start, Directions[j]))
      || (d == North && forall j :: 0 <= j < k ==> !Connects(grid, start, Directions[j]))
  {
    if k > 0 {
      ScanIsLastConnecting(grid, start, k - 1);
      var d := Directions[k - 1];
      if Connects(grid, start, d) {
        assert Directions[k - 1] == d;
      }
    }
  }

  /** How the walk round the loop ends: the locations visited, or where the source panics
      (a pipe entered from a closed side, a step off the top or left edge, a location
      outside the map), or out of fuel where the source would loop on. */
  datatype RouteOutcome = Found(route: seq<Location>) | Broken | OutOfFuel

  /** The walk from current, travelling in d, until the next location is the start. */
  function Trace(grid: Grid, start: Location, current: Location, d: Direction, fuel: nat): RouteOutcome
    decreases fuel
  {
    if fuel == 0 then OutOfFuel
    else match PipeAt(grid, current)
      case None => Broken
      case Some(p) =>
        match Traverse(p, d)
        case None => Broken
        case Some(d') =>
          match NextLocation(current, d')
          case None => Broken
          case Some(next) =>
            if next == start then Found([current])
            else Prepend([current], Trace(grid, start, next, d', fuel - 1))
  }

  function Prepend(visited: seq<Location>, rest: RouteOutcome): RouteOutcome {
    if rest.Found? then Found(visited + rest.route) else rest
  }

  /** The whole route: the start, then the walk from the neighbour in the start direction. */
  function Route(grid: Grid, start: Location, fuel: nat): RouteOutcome {
    match ScanDirections(grid, start, 4)
    case None => Broken
    case Some(d) =>
      match NextLocation(start, d)
      case None => Broken
      case Some(first) => Prepend([start], Trace(grid, start, first, d, fuel))
  }

  /** `find_pipe_route`. */
  method FindPipeRoute(grid: Grid, start: Location, fuel: nat) returns (r: RouteOutcome)
    ensures r == Route(grid, start, fuel)
  {
    var direction := FindStartingDirection(grid, start);
    if direction.None? {
      return Broken;
    }
    var d := direction.value;
    var route := [start];
    var next := NextLocation(start, d);
    if next.None? {
      return Broken;
    }
    var current := next.value;
    var budget := fuel;
    var keepLooking := true;
    while keepLooking
      invariant keepLooking ==> Route(grid, start, fuel) == Prepend(route, Trace(grid, start, current, d, budget))
      invariant !keepLooking ==> Route(grid, start, fuel) == Found(route)
      decreases budget, keepLooking
    {
      if budget == 0 {
        return OutOfFuel;
      }
      var pipe := PipeAt(grid, current);
      if pipe.None? {
        return Broken;
      }
      var turned := Traverse(pipe.value, d);
      if turned.None? {
        return Broken;
      }
      d := turned.value;
      ghost var previous := route;
      route := route + [current];
      next := NextLocation(current, d);
      if next.None? {
        return Broken;
      }
      var rest := Trace(grid, start, next.value, d, budget - 1);
      if rest.Found? {
        assert previous + ([current] + rest.route) == route + rest.route;
      }
      current := next.value;
      budget := budget - 1;
      keepLooking := start != current;
    }
    return Found(route);
  }

  /** Two locations one step apart. */
  predicate Adjacent(a: Location, b: Location) {
    exists d :: NextLocation(a, d) == Some(b)
  }

  /** A traced walk is a chain of neighbouring locations, ends next to the start, and
      never visits the start. */
  lemma {:induction false} TraceIsChain(grid: Grid, start: Location, current: Location, d: Direction, fuel: nat)
    requires Trace(grid, start, current, d, fuel).Found?
    ensures var r := Trace(grid, start, current, d, fuel).route;
      |r| > 0 && r[0] == current && Adjacent(r[|r| - 1], start)
      && (forall i :: 0 <= i < |r| - 1 ==> Adjacent(r[i], r[i + 1]))
      && (current != start ==> start !in r)
    decreases fuel
  {
    var p := PipeAt(grid, current).value;
    var d' := Traverse(p, d).value;
    var next := NextLocation(current, d').value;
    if next != start {
      TraceIsChain(grid, start, next, d', fuel - 1);
      var rest := Trace(grid, start, next, d', fuel - 1).route;
      var r := [current] + rest;
      assert Adjacent(current, next);
      forall i | 0 <= i < |r| - 1
        ensures Adjacent(r[i], r[i + 1])
      {
        if i > 0 {
          assert r[i] == rest[i - 1] && r[i + 1] == rest[i];
        }
      }
    } else {
      assert NextLocation(current, d') == Some(start);
    }
  }

  /** The route starts at the start, goes from neighbour to neighbour, returns next to the
      start, and does not pass the start on the way. */
  lemma RouteIsLoop(grid: Grid, start: Location, fuel: nat)
    requires Route(grid, start, fuel).Found?
    ensures var r := Route(grid, start, fuel).route;
      |r| >= 2 && r[0] == start && Adjacent(r[|r| - 1], start)
      && (forall i :: 0 <= i < |r| - 1 ==> Adjacent(r[i], r[i + 1]))
      && start !in r[1..]
  {
    var d := ScanDirections(grid, start, 4).value;
    var first := NextLocation(start, d).value;
    TraceIsChain(grid, start, first, d, fuel);
    var rest := Trace(grid, start, first, d, fuel).route;
    var r := [start] + rest;
    assert r[1..] == rest;
    assert Adjacent(start, first);
    assert first != start by {
      assert Delta(d) != (0, 0);
    }
    forall i | 0 <= i < |r| - 1
      ensures Adjacent(r[i], r[i + 1])
    {
      if i > 0 {
        assert r[i] == rest[i - 1] && r[i + 1] == rest[i];
      }
    }
  }

  /** Part one: the farthest point of the loop is half its length away. */
  function FarthestSteps(route: seq<Location>): (n: nat)
    ensures n * 2 <= |route| < n * 2 + 2
  {
    |route| / 2
  }

  /** A location as a shoelace point: (column, row). */
  function AsPoint(l: Location): Shoelace.Point {
    (l.column as int, l.row as int)
  }

  function AsPoints(route: seq<Location>): (pts: seq<Shoelace.Point>)
    ensures |pts| == |route| && forall i :: 0 <= i < |route| ==> pts[i] == AsPoint(route[i])
  {
    seq(|route|, i requires 0 <= i < |route| => AsPoint(route[i]))
  }

  /** Pick's theorem: interior points = area + 1 - boundary points / 2, with the area from
      the shoelace formula over the closed route. */
  function InteriorPoints(route: seq<Location>): int
    requires |route| > 0
  {
    Shoelace.Area(AsPoints(route)) - |route| / 2 + 1
  }

  /** `get_interior_point_count`: the two shoelace sums, the wrap pair, then Pick's theorem.
      The source subtracts one from the point count, so the route must not be empty. */
  method GetInteriorPointCount(route: seq<Location>) returns (count: int)
    requires |route| > 0
    ensures count == InteriorPoints(route)
  {
    var pts := AsPoints(route);
    var n := |route|;
    var sum1, sum2 := 0, 0;
    for idx := 0 to n - 1
      invariant sum1 - sum2 == Shoelace.PathSum(pts, idx)
    {
      sum1 := sum1 + route[idx].column * route[idx + 1].row;
      sum2 := sum2 + route[idx].row * route[idx + 1].column;
    }
    sum1 := sum1 + route[n - 1].column * route[0].row;
    sum2 := sum2 + route[n - 1].row * route[0].column;
    count := Abs(sum1 - sum2) / 2 - n / 2 + 1;
  }

  /** The interior count does not depend on which point of the loop the route starts at,
      nor on the direction it runs round. */
  lemma InteriorIndependentOfStart(route: seq<Location>)
    requires |route| > 0
    ensures InteriorPoints(route[1..] + [route[0]]) == InteriorPoints(route)
    ensures InteriorPoints(Reverse(route)) == InteriorPoints(route)
  {
    var pts := AsPoints(route);
    Shoelace.RotateClosedSum(pts);
    assert AsPoints(route[1..] + [route[0]]) == pts[1..] + [pts[0]];
    Shoelace.ReverseClosedSum(pts);
    assert AsPoints(Reverse(route)) == Reverse(pts);
  }
}
