/** Day 17: a cart crosses a grid of heat-loss weights from the top left to the bottom
    right corner. It may not reverse; in part A it may not go more than three steps in a
    line, in part B it must go at least four and at most ten before it turns or stops. The
    shortest-path search itself is a library call; this module models the successor
    function it is given and the goal tests. */
module Day17 {
  import opened Common

  datatype DirectionOfTravel = North | East | South | West

  /** `DirectionOfTravel::go`: the (row, column) step, a unit vector. */
  function Go(d: DirectionOfTravel): (delta: (int, int))
    ensures Abs(delta.0) + Abs(delta.1) == 1
  {
    match d
    case North => (-1, 0)
    case South => (1, 0)
    case West => (0, -1)
    case East => (0, 1)
  }

  function Opposite(d: DirectionOfTravel): (r: DirectionOfTravel)
    ensures r != d && Go(r) == (-Go(d).0, -Go(d).1)
  {
    match d
    case North => South
    case South => North
    case East => West
    case West => East
  }

  /** The steps in the opposite direction undo each other, and no other direction does. */
  lemma GoOpposite(d: DirectionOfTravel, e: DirectionOfTravel)
    ensures Go(d).0 + Go(e).0 == 0 && Go(d).1 + Go(e).1 == 0 <==> e == Opposite(d)
  {
  }

  datatype Pos = Pos(row: nat, column: nat)

  /** A search state: where the cart is, the way it last went (none at the start) and the
      most recent directions it went, oldest first. */
  datatype Cart = Cart(p: Pos, d: Option<DirectionOfTravel>, h: seq<DirectionOfTravel>)

  predicate AllEqual(s: seq<DirectionOfTravel>) {
    forall i :: 0 <= i < |s| ==> s[i] == s[0]
  }

  predicate NoDuplicates(s: seq<DirectionOfTravel>) {
    forall i, j :: 0 <= i < j < |s| ==> s[i] != s[j]
  }

  /** The last n entries of s, or all of it when it is shorter. */
  function Keep(s: seq<DirectionOfTravel>, n: nat): (r: seq<DirectionOfTravel>)
    ensures |r| == if |s| > n then n else |s|
    ensures forall i :: 0 <= i < |r| ==> r[i] == s[|s| - |r| + i]
  {
    if |s| > n then s[|s| - n..] else s
  }

  lemma EveryDirection(e: DirectionOfTravel)
    ensures e in [North, South, West, East]
  {
    match e
    case North => assert [North, South, West, East][0] == e;
    case South => assert [North, South, West, East][1] == e;
    case West => assert [North, South, West, East][2] == e;
    case East => assert [North, South, West, East][3] == e;
  }

  /** The directions a cart may take before the run-length rules: all four at the start,
      otherwise every one but the reverse of its heading. */
  function Turns(d: Option<DirectionOfTravel>): (r: seq<DirectionOfTravel>)
    ensures NoDuplicates(r)
    ensures forall e :: e in r <==> d.None? || e != Opposite(d.value)
  {
    if d.None? then
      assert forall e: DirectionOfTravel :: e in [North, South, West, East] by {
        forall e: DirectionOfTravel ensures e in [North, South, West, East] {
          EveryDirection(e);
        }
      }
      [North, South, West, East]
    else
      match d.value
      case North => [North, West, East]
      case East => [North, South, East]
      case South => [South, West, East]
      case West => [North, South, West]
  }

  /** `find_position` then `remove`: s without the first occurrence of x. */
  function RemoveFirst(s: seq<DirectionOfTravel>, x: DirectionOfTravel): (r: seq<DirectionOfTravel>)
    ensures x !in s ==> r == s
    ensures x in s ==> |r| == |s| - 1
    ensures forall e :: e in r ==> e in s
  {
    if s == [] then []
    else if s[0] == x then s[1..]
    else [s[0]] + RemoveFirst(s[1..], x)
  }

  /** In a list without duplicates, removing x leaves exactly the other entries. */
  lemma {:induction false} RemoveFirstExact(s: seq<DirectionOfTravel>, x: DirectionOfTravel)
    requires NoDuplicates(s)
    ensures NoDuplicates(RemoveFirst(s, x))
    ensures forall e :: e in RemoveFirst(s, x) <==> e in s && e != x
  {
    if s != [] && s[0] != x {
      assert NoDuplicates(s[1..]) by {
        forall i, j | 0 <= i < j < |s| - 1 ensures s[1..][i] != s[1..][j] {
          assert s[1..][i] == s[i + 1] && s[1..][j] == s[j + 1];
        }
      }
      RemoveFirstExact(s[1..], x);
      assert s[0] !in s[1..] by {
        forall i | 0 <= i < |s| - 1 ensures s[1..][i] != s[0] {
          assert s[1..][i] == s[i + 1];
        }
      }
    } else if s != [] {
      assert s[0] !in s[1..] by {
        forall i | 0 <= i < |s| - 1 ensures s[1..][i] != s[0] {
          assert s[1..][i] == s[i + 1];
        }
      }
      forall i, j | 0 <= i < j < |s| - 1 ensures s[1..][i] != s[1..][j] {
        assert s[1..][i] == s[i + 1] && s[1..][j] == s[j + 1];
      }
    }
  }

  /** Part A: the last three moves went the same way. */
  predicate ThreeInARow(h: seq<DirectionOfTravel>) {
    |h| >= 3 && AllEqual(h[|h| - 3..])
  }

  /** `part_a_next_steps`. */
  function PartANextSteps(c: Cart): (r: seq<DirectionOfTravel>)
  {
    var turns := Turns(c.d);
    if ThreeInARow(c.h) then RemoveFirst(turns, c.h[|c.h| - 1]) else turns
  }

  /** Part A offers every direction but the reverse of the heading, and not the direction
      of the last three moves when they all went the same way; each at most once. */
  lemma PartANextStepsExact(c: Cart)
    ensures NoDuplicates(PartANextSteps(c))
    ensures forall e :: e in PartANextSteps(c) <==>
      (c.d.None? || e != Opposite(c.d.value)) && !(ThreeInARow(c.h) && e == c.h[|c.h| - 1])
  {
    if ThreeInARow(c.h) {
      RemoveFirstExact(Turns(c.d), c.h[|c.h| - 1]);
    }
  }

  /** Part B: the last four moves went the same way (a shorter history does not count). */
  predicate FourInARow(h: seq<DirectionOfTravel>) {
    |h| >= 4 && AllEqual(h[|h| - 4..])
  }

  /** Part B: ten moves or more, all the same way. */
  predicate TenInARow(h: seq<DirectionOfTravel>) {
    |h| >= 10 && AllEqual(h)
  }

  /** `part_b_next_steps`. */
  function PartBNextSteps(c: Cart): (r: seq<DirectionOfTravel>)
  {
    var turns := Turns(c.d);
    var capped := if TenInARow(c.h) then RemoveFirst(turns, c.h[|c.h| - 1]) else turns;
    if |c.h| > 0 && !FourInARow(c.h) then [c.h[|c.h| - 1]] else capped
  }

  /** Part B keeps going the last way until four moves went that way; after that it offers
      every direction but the reverse, and not the way of a run of ten. */
  lemma PartBNextStepsExact(c: Cart)
    ensures NoDuplicates(PartBNextSteps(c))
    ensures |c.h| > 0 && !FourInARow(c.h) ==> PartBNextSteps(c) == [c.h[|c.h| - 1]]
    ensures |c.h| == 0 || FourInARow(c.h) ==>
      forall e :: e in PartBNextSteps(c) <==>
        (c.d.None? || e != Opposite(c.d.value)) && !(TenInARow(c.h) && e == c.h[|c.h| - 1])
  {
    if TenInARow(c.h) {
      RemoveFirstExact(Turns(c.d), c.h[|c.h| - 1]);
    }
  }

  /** Ten equal moves are also four equal moves, so part B never forces a run past ten. */
  lemma TenIsFour(h: seq<DirectionOfTravel>)
    requires TenInARow(h)
    ensures FourInARow(h)
  {
    assert h[|h| - 4..][0] == h[|h| - 4];
  }

  type WeightGrid = seq<seq<nat>>

  function MaxHistory(partA: bool): nat {
    if partA then 3 else 10
  }

  function Steps(c: Cart, partA: bool): seq<DirectionOfTravel> {
    if partA then PartANextSteps(c) else PartBNextSteps(c)
  }

  /** Where a step from p leads, possibly off the grid. */
  function Target(p: Pos, step: DirectionOfTravel): (int, int) {
    (p.row + Go(step).0, p.column + Go(step).1)
  }

  predicate Inside(rows: nat, columns: nat, t: (int, int)) {
    0 <= t.0 < rows && 0 <= t.1 < columns
  }

  /** The successor one step leads to, or none when it would leave the grid. */
  function Successor(grid: WeightGrid, rows: nat, columns: nat, c: Cart, partA: bool, step: DirectionOfTravel)
    : (r: seq<(Cart, nat)>)
    requires IsGrid(grid, rows, columns)
  {
    var t := Target(c.p, step);
    if Inside(rows, columns, t) then
      [(Cart(Pos(t.0, t.1), Some(step), Keep(c.h + [step], MaxHistory(partA))), grid[t.0][t.1])]
    else []
  }

  /** The successor states the first n steps lead to, with the weight of the cell
      entered; steps that would leave the grid are skipped. */
  function SuccessorsUpTo(grid: WeightGrid, rows: nat, columns: nat, c: Cart, partA: bool, steps: seq<DirectionOfTravel>, n: nat)
    : (r: seq<(Cart, nat)>)
    requires IsGrid(grid, rows, columns) && n <= |steps|
    ensures |r| <= n
  {
    if n == 0 then []
    else
      SuccessorsUpTo(grid, rows, columns, c, partA, steps, n - 1)
      + Successor(grid, rows, columns, c, partA, steps[n - 1])
  }

  function Successors(grid: WeightGrid, rows: nat, columns: nat, c: Cart, partA: bool, steps: seq<DirectionOfTravel>)
    : (r: seq<(Cart, nat)>)
    requires IsGrid(grid, rows, columns)
  {
    SuccessorsUpTo(grid, rows, columns, c, partA, steps, |steps|)
  }

  /** One entry of the successor list: the cart went one step the way it now heads, stays
      on the grid, pays the weight of its new cell and remembers the step last. */
  predicate Move(grid: WeightGrid, rows: nat, columns: nat, c: Cart, partA: bool, step: DirectionOfTravel, e: (Cart, nat))
    requires IsGrid(grid, rows, columns)
  {
    var t := Target(c.p, step);
    Inside(rows, columns, t)
    && e.0.p == Pos(t.0, t.1)
    && e.0.d == Some(step)
    && e.0.h == Keep(c.h + [step], MaxHistory(partA))
    && e.1 == grid[t.0][t.1]
  }

  /** Every successor is a move along one of the steps, and every step that stays on the
      grid gives a successor. */
  lemma {:induction false} SuccessorsUpToExact(grid: WeightGrid, rows: nat, columns: nat, c: Cart, partA: bool, steps: seq<DirectionOfTravel>, n: nat)
    requires IsGrid(grid, rows, columns) && n <= |steps|
    ensures forall e :: e in SuccessorsUpTo(grid, rows, columns, c, partA, steps, n) ==>
      exists step :: step in steps[..n] && Move(grid, rows, columns, c, partA, step, e)
    ensures forall step :: step in steps[..n] && Inside(rows, columns, Target(c.p, step)) ==>
      exists e :: e in SuccessorsUpTo(grid, rows, columns, c, partA, steps, n) && Move(grid, rows, columns, c, partA, step, e)
  {
    if n > 0 {
      var step := steps[n - 1];
      assert steps[..n] == steps[..n - 1] + [step];
      SuccessorsUpToExact(grid, rows, columns, c, partA, steps, n - 1);
      var t := Target(c.p, step);
      if Inside(rows, columns, t) {
        var e := (Cart(Pos(t.0, t.1), Some(step), Keep(c.h + [step], MaxHistory(partA))), grid[t.0][t.1]);
        assert Move(grid, rows, columns, c, partA, step, e);
      }
    }
  }

  lemma SuccessorsExact(grid: WeightGrid, rows: nat, columns: nat, c: Cart, partA: bool, steps: seq<DirectionOfTravel>)
    requires IsGrid(grid, rows, columns)
    ensures forall e :: e in Successors(grid, rows, columns, c, partA, steps) ==>
      exists step :: step in steps && Move(grid, rows, columns, c, partA, step, e)
    ensures forall step :: step in steps && Inside(rows, columns, Target(c.p, step)) ==>
      exists e :: e in Successors(grid, rows, columns, c, partA, steps) && Move(grid, rows, columns, c, partA, step, e)
  {
    SuccessorsUpToExact(grid, rows, columns, c, partA, steps, |steps|);
    assert steps[..|steps|] == steps;
  }

  /** The history of a successor: the step appended, then only the last maxHistory kept. */
  method UpdatedHistory(h: seq<DirectionOfTravel>, step: DirectionOfTravel, maxHistory: nat)
    returns (history: seq<DirectionOfTravel>)
    ensures history == Keep(h + [step], maxHistory)
  {
    history := h + [step];
    if |history| > maxHistory {
      history := history[|history| - maxHistory..];
    }
  }

  /** The body of the loop in `next_cart_states`: the state one step leads to and the
      weight of its cell, or nothing when the step leaves the grid. */
  method CartStateAfter(grid: WeightGrid, rows: nat, columns: nat, c: Cart, partA: bool, step: DirectionOfTravel)
    returns (s: seq<(Cart, nat)>)
    requires IsGrid(grid, rows, columns)
    ensures s == Successor(grid, rows, columns, c, partA, step)
  {
    var delta := Go(step);
    var nextRow := c.p.row + delta.0;
    var nextColumn := c.p.column + delta.1;
    // still in bounds?
    if nextRow < 0 || nextRow >= rows || nextColumn < 0 || nextColumn >= columns {
      return [];
    }
    var history := UpdatedHistory(c.h, step, if partA then 3 else 10);
    s := [(Cart(Pos(nextRow, nextColumn), Some(step), history), grid[nextRow][nextColumn])];
  }

  /** `next_cart_states`: the successors of a cart, in the order of its allowed steps. */
  method NextCartStates(grid: WeightGrid, rows: nat, columns: nat, c: Cart, partA: bool) returns (r: seq<(Cart, nat)>)
    requires IsGrid(grid, rows, columns)
    ensures r == Successors(grid, rows, columns, c, partA, Steps(c, partA))
  {
    var steps := Steps(c, partA);
    r := [];
    for i := 0 to |steps|
      invariant r == SuccessorsUpTo(grid, rows, columns, c, partA, steps, i)
    {
      var s := CartStateAfter(grid, rows, columns, c, partA, steps[i]);
      r := r + s;
    }
  }

  /** The shape of every state the search meets: no heading and no history at the start,
      afterwards the heading is the last remembered move, and at most 3 (A) or 10 (B)
      moves are remembered. */
  predicate Consistent(c: Cart, partA: bool) {
    (c.d.None? <==> c.h == [])
    && (c.h != [] ==> c.d == Some(c.h[|c.h| - 1]))
    && |c.h| <= MaxHistory(partA)
  }

  /** A move along an allowed step from a consistent state. */
  lemma MoveConsistent(grid: WeightGrid, rows: nat, columns: nat, c: Cart, partA: bool, step: DirectionOfTravel, e: (Cart, nat))
    requires IsGrid(grid, rows, columns) && Consistent(c, partA)
    requires step in Steps(c, partA) && Move(grid, rows, columns, c, partA, step, e)
    ensures Consistent(e.0, partA) && e.0.d == Some(step)
    ensures Abs(e.0.p.row - c.p.row) + Abs(e.0.p.column - c.p.column) == 1
    ensures c.d.Some? ==> step != Opposite(c.d.value)
  {
    var h := c.h + [step];
    var k := Keep(h, MaxHistory(partA));
    assert k[|k| - 1] == h[|h| - 1] == step;
    if partA {
      PartANextStepsExact(c);
    } else {
      PartBNextStepsExact(c);
    }
  }

  /** Every successor of a consistent state is consistent, has a heading and stands one
      step from it, never straight back the way it came. */
  lemma SuccessorsConsistent(grid: WeightGrid, rows: nat, columns: nat, c: Cart, partA: bool)
    requires IsGrid(grid, rows, columns) && Consistent(c, partA)
    ensures forall e :: e in Successors(grid, rows, columns, c, partA, Steps(c, partA)) ==>
      Consistent(e.0, partA) && e.0.d.Some?
      && Abs(e.0.p.row - c.p.row) + Abs(e.0.p.column - c.p.column) == 1
      && (c.d.Some? ==> e.0.d.value != Opposite(c.d.value))
  {
    var steps := Steps(c, partA);
    SuccessorsExact(grid, rows, columns, c, partA, steps);
    forall e | e in Successors(grid, rows, columns, c, partA, steps)
      ensures Consistent(e.0, partA) && e.0.d.Some?
      ensures Abs(e.0.p.row - c.p.row) + Abs(e.0.p.column - c.p.column) == 1
      ensures c.d.Some? ==> e.0.d.value != Opposite(c.d.value)
    {
      var step :| step in steps && Move(grid, rows, columns, c, partA, step, e);
      MoveConsistent(grid, rows, columns, c, partA, step, e);
    }
  }

  /** A part A cart that went the same way three times in a row must turn. */
  lemma PartANoFourthStep(grid: WeightGrid, rows: nat, columns: nat, c: Cart)
    requires IsGrid(grid, rows, columns) && ThreeInARow(c.h)
    ensures forall e :: e in Successors(grid, rows, columns, c, true, Steps(c, true)) ==>
      e.0.d != Some(c.h[|c.h| - 1])
  {
    SuccessorsExact(grid, rows, columns, c, true, Steps(c, true));
    PartANextStepsExact(c);
  }

  /** `success_check_part_a`: the cart is at the target. */
  function SuccessCheckPartA(c: Cart, t: Pos): (ok: bool)
    ensures ok <==> c.p == t
  {
    c.p == t
  }

  /** `success_check_part_b`: the cart is at the target and its last (up to) four moves
      went the same way; the source panics on an empty history at the target. */
  function SuccessCheckPartB(c: Cart, t: Pos): (ok: bool)
    requires c.p == t ==> |c.h| > 0
    ensures ok <==> c.p == t && forall i :: 0 <= i < |c.h| && |c.h| - 4 <= i ==> c.h[i] == c.h[|c.h| - 1]
    ensures c.p == t && FourInARow(c.h) ==> ok
    ensures c.p == t && |c.h| < 4 && AllEqual(c.h) ==> ok
  {
    c.p == t && AllEqual(Keep(c.h, 4))
  }
}
