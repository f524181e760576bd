/** Day 8: walking a graph of named nodes, each with a left and a right successor, by
    following a string of L/R instructions over and over until a goal node is reached. */
module Day8 {
  import opened Common

  type Graph = map<string, (string, string)>

  /** When a walk stops: at one named node, or at any node whose name ends in a letter. */
  datatype Goal = Exactly(name: string) | EndsWith(last: char)

  predicate IsGoal(goal: Goal, node: string) {
    match goal
    case Exactly(name) => node == name
    case EndsWith(last) => |node| > 0 && node[|node| - 1] == last
  }

  /** How a walk ends. The source panics on a bad instruction character or a node missing
      from the graph, and loops forever when the goal is never reached (or the instruction
      string is empty); the model reports each of these, the last one when the fuel runs out. */
  datatype Outcome = Reached(steps: nat) | BadInstruction(c: char) | MissingNode(node: string) | OutOfFuel

  predicate IsMove(c: char) {
    c == 'L' || c == 'R'
  }

  /** One move: the left successor for `L`, the right one for `R`. */
  function Move(g: Graph, node: string, c: char): (next: string)
    requires node in g && IsMove(c)
    ensures c == 'L' ==> next == g[node].0
    ensures c == 'R' ==> next == g[node].1
  {
    if c == 'L' then g[node].0 else g[node].1
  }

  /** The instruction position after pos: the next character, or back to the first. */
  function NextPos(pos: nat, n: nat): (p: nat)
    requires pos < n
    ensures p < n
  {
    if pos + 1 == n then 0 else pos + 1
  }

  /** The walk of `count_steps` from node, at instruction position pos, having taken steps
      moves, with fuel moves left. The goal test comes first, so the walk stops as soon as
      the goal is reached, also in the middle of the instruction string. */
  function Walk(g: Graph, ins: string, goal: Goal, node: string, pos: nat, steps: nat, fuel: nat): Outcome
    requires pos < |ins| || |ins| == 0
    decreases fuel
  {
    if IsGoal(goal, node) then Reached(steps)
    else if fuel == 0 || |ins| == 0 then OutOfFuel
    else if !IsMove(ins[pos]) then BadInstruction(ins[pos])
    else if node !in g then MissingNode(node)
    else Walk(g, ins, goal, Move(g, node, ins[pos]), NextPos(pos, |ins|), steps + 1, fuel - 1)
  }

  /** `count_steps`: the outer loop runs the instruction string again and again, the inner
      loop applies one instruction per move and stops at the goal. */
  method CountSteps(g: Graph, ins: string, goal: Goal, start: string, fuel: nat) returns (r: Outcome)
    ensures r == Walk(g, ins, goal, start, 0, 0, fuel)
  {
    var node := start;
    var steps: nat := 0;
    var budget: nat := fuel;
    while !IsGoal(goal, node)
      invariant |ins| > 0 ==> Walk(g, ins, goal, node, 0, steps, budget) == Walk(g, ins, goal, start, 0, 0, fuel)
      invariant |ins| == 0 ==> node == start && steps == 0
      decreases budget
    {
      if |ins| == 0 || budget == 0 {
        return OutOfFuel;
      }
      var i := 0;
      var reached := false;
      ghost var b0 := budget;
      while i < |ins| && !reached
        invariant 0 <= i <= |ins|
        invariant reached <==> IsGoal(goal, node)
        invariant reached ==> i > 0
        invariant budget + i == b0
        invariant Walk(g, ins, goal, node, if i == |ins| then 0 else i, steps, budget) == Walk(g, ins, goal, start, 0, 0, fuel)
        decreases |ins| - i
      {
        if budget == 0 {
          return OutOfFuel;
        }
        var c := ins[i];
        if c == 'L' {
          if node !in g {
            return MissingNode(node);
          }
          node := g[node].0;
        } else if c == 'R' {
          if node !in g {
            return MissingNode(node);
          }
          node := g[node].1;
        } else {
          return BadInstruction(c);
        }
        steps := steps + 1;
        budget := budget - 1;
        i := i + 1;
        reached := IsGoal(goal, node);
      }
    }
    return Reached(steps);
  }

  /** The node reached after k moves from node, reading instruction j mod |ins| at move j;
      None when a move hits a bad instruction or a node missing from the graph. */
  function Path(g: Graph, ins: string, node: string, k: nat): Option<string>
    requires |ins| > 0
  {
    if k == 0 then Some(node)
    else match Path(g, ins, node, k - 1)
      case None => None
      case Some(m) =>
        var c := ins[(k - 1) % |ins|];
        if IsMove(c) && m in g then Some(Move(g, m, c)) else None
  }

  /** Reading the instruction string in a cycle: position k mod n is followed by k + 1 mod n. */
  lemma ModStep(k: nat, n: nat)
    requires n > 0
    ensures NextPos(k % n, n) == (k + 1) % n
  {
    var q, r := k / n, k % n;
    assert k == q * n + r;
    if r + 1 == n {
      assert k + 1 == (q + 1) * n + 0;
      ModUnique(k + 1, q + 1, 0, n);
    } else {
      ModUnique(k + 1, q, r + 1, n);
    }
  }

  /** A walk that reaches the goal after s moves has followed the cyclic instruction path:
      the node after s moves is a goal, and no node before it is. */
  lemma {:induction false} WalkFollowsPath(g: Graph, ins: string, goal: Goal, start: string, k: nat, fuel: nat, s: nat)
    requires |ins| > 0 && Path(g, ins, start, k).Some?
    requires forall j :: 0 <= j < k ==> Path(g, ins, start, j).Some? && !IsGoal(goal, Path(g, ins, start, j).value)
    requires Walk(g, ins, goal, Path(g, ins, start, k).value, k % |ins|, k, fuel) == Reached(s)
    ensures k <= s && Path(g, ins, start, s).Some? && IsGoal(goal, Path(g, ins, start, s).value)
    ensures forall j :: 0 <= j < s ==> Path(g, ins, start, j).Some? && !IsGoal(goal, Path(g, ins, start, j).value)
    decreases fuel
  {
    var m := Path(g, ins, start, k).value;
    if !IsGoal(goal, m) {
      ModStep(k, |ins|);
      assert Path(g, ins, start, k + 1) == Some(Move(g, m, ins[k % |ins|]));
      WalkFollowsPath(g, ins, goal, start, k + 1, fuel - 1, s);
    }
  }

  /** What `count_steps` counts: the number of moves to the first goal node on the path. */
  lemma StepsToFirstGoal(g: Graph, ins: string, goal: Goal, start: string, fuel: nat, s: nat)
    requires |ins| > 0 && Walk(g, ins, goal, start, 0, 0, fuel) == Reached(s)
    ensures Path(g, ins, start, s).Some? && IsGoal(goal, Path(g, ins, start, s).value)
    ensures forall j :: 0 <= j < s ==> Path(g, ins, start, j).Some? && !IsGoal(goal, Path(g, ins, start, j).value)
  {
    WalkFollowsPath(g, ins, goal, start, 0, fuel, s);
  }

  /** More fuel never changes a walk that ended before the fuel ran out. */
  lemma {:induction false} MoreFuel(g: Graph, ins: string, goal: Goal, node: string, pos: nat, steps: nat, fuel: nat, more: nat)
    requires pos < |ins| || |ins| == 0
    requires fuel <= more && Walk(g, ins, goal, node, pos, steps, fuel) != OutOfFuel
    ensures Walk(g, ins, goal, node, pos, steps, more) == Walk(g, ins, goal, node, pos, steps, fuel)
    decreases fuel
  {
    if !IsGoal(goal, node) && IsMove(ins[pos]) && node in g {
      MoreFuel(g, ins, goal, Move(g, node, ins[pos]), NextPos(pos, |ins|), steps + 1, fuel - 1, more - 1);
    }
  }

  /** A walk counts its moves: it never reports fewer moves than it started with, and
      strictly more when it does not start at a goal. */
  lemma {:induction false} WalkCountsMoves(g: Graph, ins: string, goal: Goal, node: string, pos: nat, steps: nat, fuel: nat)
    requires pos < |ins| || |ins| == 0
    requires Walk(g, ins, goal, node, pos, steps, fuel).Reached?
    ensures Walk(g, ins, goal, node, pos, steps, fuel).steps >= steps
    ensures !IsGoal(goal, node) ==> Walk(g, ins, goal, node, pos, steps, fuel).steps > steps
    decreases fuel
  {
    if !IsGoal(goal, node) {
      WalkCountsMoves(g, ins, goal, Move(g, node, ins[pos]), NextPos(pos, |ins|), steps + 1, fuel - 1);
    }
  }

  /** The walk of part one: from `AAA` to `ZZZ`. */
  method CountStepsToZzz(g: Graph, ins: string, fuel: nat) returns (r: Outcome)
    ensures r == Walk(g, ins, Exactly("ZZZ"), "AAA", 0, 0, fuel)
    ensures r.Reached? ==> r.steps > 0
  {
    r := CountSteps(g, ins, Exactly("ZZZ"), "AAA", fuel);
    if r.Reached? {
      assert !IsGoal(Exactly("ZZZ"), "AAA");
      WalkCountsMoves(g, ins, Exactly("ZZZ"), "AAA", 0, 0, fuel);
    }
  }
}
