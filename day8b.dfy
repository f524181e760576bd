/** Day 8, part two: a walk from every node whose name ends in `A` to the first node whose
    name ends in `Z`, and the least common multiple of the step counts. */
module Day8b {
  import opened Common
  import Day8

  /** A starting node: its name ends in `A`. */
  predicate IsStart(name: string) {
    |name| > 0 && name[|name| - 1] == 'A'
  }

  /** The starting nodes: the graph's keys (in the order the map hands them out) whose
      names end in `A`. The source unwraps the last character, so no key is empty. */
  function StartNodes(keys: seq<string>): (starts: seq<string>)
    requires forall i :: 0 <= i < |keys| ==> |keys[i]| > 0
    ensures forall n :: n in starts <==> n in keys && IsStart(n)
    ensures |starts| <= |keys|
  {
    if keys == [] then []
    else
      var rest := StartNodes(keys[..|keys| - 1]);
      var last := keys[|keys| - 1];
      assert keys == keys[..|keys| - 1] + [last];
      if IsStart(last) then rest + [last] else rest
  }

  /** Distinct keys give distinct starting nodes. */
  lemma {:induction false} StartNodesDistinct(keys: seq<string>)
    requires forall i :: 0 <= i < |keys| ==> |keys[i]| > 0
    requires forall i, j :: 0 <= i < j < |keys| ==> keys[i] != keys[j]
    ensures forall i, j :: 0 <= i < j < |StartNodes(keys)| ==> StartNodes(keys)[i] != StartNodes(keys)[j]
  {
    if keys != [] {
      var init := keys[..|keys| - 1];
      StartNodesDistinct(init);
      assert keys[|keys| - 1] !in init;
    }
  }

  datatype Result<T, E> = Ok(value: T) | Err(error: E)

  /** The step counts of the walks from the given starts, in order, or the outcome of the
      first walk that does not reach a goal: the source panics (or never returns) there. */
  function AllSteps(g: Day8.Graph, ins: string, starts: seq<string>, fuel: nat): (r: Result<seq<nat>, Day8.Outcome>)
    ensures r.Ok? ==> |r.value| == |starts|
    ensures r.Err? ==> !r.error.Reached?
  {
    if starts == [] then Ok([])
    else
      var outcome := Day8.Walk(g, ins, Day8.EndsWith('Z'), starts[0], 0, 0, fuel);
      if !outcome.Reached? then Err(outcome)
      else
        var rest := AllSteps(g, ins, starts[1..], fuel);
        if rest.Err? then rest else Ok([outcome.steps] + rest.value)
  }

  /** When all walks succeed, count i is the walk from start i. */
  lemma {:induction false} AllStepsWalks(g: Day8.Graph, ins: string, starts: seq<string>, fuel: nat)
    requires AllSteps(g, ins, starts, fuel).Ok?
    ensures forall i :: 0 <= i < |starts| ==>
      Day8.Walk(g, ins, Day8.EndsWith('Z'), starts[i], 0, 0, fuel) == Day8.Reached(AllSteps(g, ins, starts, fuel).value[i])
  {
    if starts != [] {
      AllStepsWalks(g, ins, starts[1..], fuel);
      var r := AllSteps(g, ins, starts, fuel).value;
      forall i | 0 <= i < |starts|
        ensures Day8.Walk(g, ins, Day8.EndsWith('Z'), starts[i], 0, 0, fuel) == Day8.Reached(r[i])
      {
        if i > 0 {
          assert starts[i] == starts[1..][i - 1];
        }
      }
    }
  }

  /** Each count is the number of moves to the first node ending in `Z` on the cyclic
      instruction path from its start. */
  lemma CountsAreFirstArrivals(g: Day8.Graph, ins: string, starts: seq<string>, fuel: nat, i: nat)
    requires |ins| > 0 && AllSteps(g, ins, starts, fuel).Ok? && i < |starts|
    ensures var s := AllSteps(g, ins, starts, fuel).value[i];
      Day8.Path(g, ins, starts[i], s).Some? && Day8.IsGoal(Day8.EndsWith('Z'), Day8.Path(g, ins, starts[i], s).value)
      && forall j :: 0 <= j < s ==> Day8.Path(g, ins, starts[i], j).Some? && !Day8.IsGoal(Day8.EndsWith('Z'), Day8.Path(g, ins, starts[i], j).value)
  {
    AllStepsWalks(g, ins, starts, fuel);
    Day8.StepsToFirstGoal(g, ins, Day8.EndsWith('Z'), starts[i], fuel, AllSteps(g, ins, starts, fuel).value[i]);
  }

  /** The counts gathered so far in front of the rest's, unless the rest failed. */
  function Prepend(counts: seq<nat>, rest: Result<seq<nat>, Day8.Outcome>): Result<seq<nat>, Day8.Outcome> {
    if rest.Err? then rest else Ok(counts + rest.value)
  }

  /** `count_steps` with many starts: one walk per starting node, its count pushed when it
      arrives at a node ending in `Z`. */
  method CountStepsAll(g: Day8.Graph, ins: string, keys: seq<string>, fuel: nat) returns (r: Result<seq<nat>, Day8.Outcome>)
    requires forall i :: 0 <= i < |keys| ==> |keys[i]| > 0
    ensures r == AllSteps(g, ins, StartNodes(keys), fuel)
  {
    var starts := StartNodes(keys);
    var counts: seq<nat> := [];
    assert starts[0..] == starts;
    PrependNothing(AllSteps(g, ins, starts, fuel));
    for k := 0 to |starts|
      invariant AllSteps(g, ins, starts, fuel) == Prepend(counts, AllSteps(g, ins, starts[k..], fuel))
    {
      var outcome := Day8.CountSteps(g, ins, Day8.EndsWith('Z'), starts[k], fuel);
      AllStepsUnfold(g, ins, starts[k..], fuel);
      assert starts[k..][0] == starts[k] && starts[k..][1..] == starts[k + 1..];
      if !outcome.Reached? {
        return Err(outcome);
      }
      PrependAppend(counts, outcome.steps, AllSteps(g, ins, starts[k + 1..], fuel));
      counts := counts + [outcome.steps];
    }
    assert starts[|starts|..] == [];
    assert counts + [] == counts;
    return Ok(counts);
  }

  /** AllSteps of a non-empty list: the first walk, then the rest. */
  lemma AllStepsUnfold(g: Day8.Graph, ins: string, starts: seq<string>, fuel: nat)
    requires starts != []
    ensures var outcome := Day8.Walk(g, ins, Day8.EndsWith('Z'), starts[0], 0, 0, fuel);
      AllSteps(g, ins, starts, fuel) ==
        if !outcome.Reached? then Err(outcome) else Prepend([outcome.steps], AllSteps(g, ins, starts[1..], fuel))
  {
  }

  lemma PrependNothing(r: Result<seq<nat>, Day8.Outcome>)
    ensures Prepend([], r) == r
  {
    if r.Ok? {
      assert [] + r.value == r.value;
    }
  }

  lemma PrependAppend(counts: seq<nat>, x: nat, rest: Result<seq<nat>, Day8.Outcome>)
    ensures Prepend(counts, Prepend([x], rest)) == Prepend(counts + [x], rest)
  {
    if rest.Ok? {
      assert counts + ([x] + rest.value) == (counts + [x]) + rest.value;
    }
  }

  /** d divides n (0 divides only 0). */
  predicate Divides(d: nat, n: nat) {
    if d == 0 then n == 0 else n % d == 0
  }

  /** Euclid's greatest common divisor. */
  function Gcd(a: nat, b: nat): (g: nat)
    ensures a > 0 || b > 0 ==> g > 0
    decreases b
  {
    if b == 0 then a else Gcd(b, a % b)
  }

  /** The least common multiple as `num::Integer::lcm` computes it on non-negative values
      (LcmMultiple and LcmLeast). */
  function Lcm(a: nat, b: nat): nat {
    if a == 0 && b == 0 then 0 else MulNat(a, b / Gcd(a, b))
  }

  function MulNat(a: nat, b: nat): nat {
    a * b
  }

  /** A multiple of d is divisible by d. */
  lemma DividesMultiple(d: nat, m: int)
    requires d > 0 && m >= 0
    ensures Divides(d, d * m)
  {
    ModUnique(d * m, m, 0, d);
  }

  /** A number divisible by d is d times its quotient. */
  lemma Quotient(d: nat, n: nat)
    requires d > 0 && Divides(d, n)
    ensures n == d * (n / d)
  {
  }

  /** A common divisor of x and y divides x - q * y. */
  lemma DividesCombination(d: nat, x: nat, y: nat, q: nat)
    requires d > 0 && Divides(d, x) && Divides(d, y) && q * y <= x
    ensures Divides(d, x - q * y)
  {
    Quotient(d, x);
    Quotient(d, y);
    var a, b := x / d, y / d;
    assert q * y == d * (q * b) by {
      assert q * (d * b) == d * (q * b);
    }
    assert x - q * y == d * (a - q * b);
    ModUnique(x - q * y, a - q * b, 0, d);
  }

  /** A common divisor of y and x - q * y divides x. */
  lemma DividesSum(d: nat, x: nat, y: nat, q: nat)
    requires d > 0 && q * y <= x && Divides(d, x - q * y) && Divides(d, y)
    ensures Divides(d, x)
  {
    Quotient(d, x - q * y);
    Quotient(d, y);
    var a, b := (x - q * y) / d, y / d;
    assert q * y == d * (q * b) by {
      assert q * (d * b) == d * (q * b);
    }
    assert x == d * (a + q * b);
    ModUnique(x, a + q * b, 0, d);
  }

  lemma DividesTransitive(a: nat, b: nat, c: nat)
    requires Divides(a, b) && Divides(b, c)
    ensures Divides(a, c)
  {
    if a > 0 && b > 0 {
      Quotient(a, b);
      Quotient(b, c);
      assert c == a * ((b / a) * (c / b)) by {
        assert c == (a * (b / a)) * (c / b);
      }
      DividesMultiple(a, (b / a) * (c / b));
    }
  }

  lemma DivModFacts(a: nat, b: nat)
    requires b > 0
    ensures (a / b) * b <= a && a % b == a - (a / b) * b
  {
  }

  /** A divisor of b and of a % b divides a. */
  lemma DividesFromRemainder(d: nat, a: nat, b: nat)
    requires d > 0 && b > 0 && Divides(d, b) && Divides(d, a % b)
    ensures Divides(d, a)
  {
    DivModFacts(a, b);
    DividesSum(d, a, b, a / b);
  }

  /** The gcd divides both numbers. */
  lemma {:induction false} GcdDivides(a: nat, b: nat)
    ensures Divides(Gcd(a, b), a) && Divides(Gcd(a, b), b)
    decreases b
  {
    if b == 0 {
      if a > 0 {
        DividesMultiple(a, 1);
        DividesMultiple(a, 0);
      }
    } else {
      GcdDivides(b, a % b);
      DividesFromRemainder(Gcd(a, b), a, b);
    }
  }

  /** Every common divisor divides the gcd, so the gcd is the greatest one. */
  lemma {:induction false} GcdGreatest(a: nat, b: nat, d: nat)
    requires d > 0 && Divides(d, a) && Divides(d, b)
    ensures Divides(d, Gcd(a, b))
    decreases b
  {
    if b > 0 {
      DivModFacts(a, b);
      DividesCombination(d, a, b, a / b);
      GcdGreatest(b, a % b, d);
    }
  }

  /** The lcm is a multiple of both numbers. */
  lemma LcmMultiple(a: nat, b: nat)
    ensures Divides(a, Lcm(a, b)) && Divides(b, Lcm(a, b))
  {
    if a == 0 && b == 0 {
    } else {
      var g := Gcd(a, b);
      GcdDivides(a, b);
      assert g > 0;
      Quotient(g, a);
      Quotient(g, b);
      var l := Lcm(a, b);
      assert l == a * (b / g);
      if a > 0 {
        DividesMultiple(a, b / g);
      }
      assert l == b * (a / g) by {
        calc {
          a * (b / g);
          (g * (a / g)) * (b / g);
          (a / g) * (g * (b / g));
          (a / g) * b;
        }
      }
      if b > 0 {
        DividesMultiple(b, a / g);
      }
    }
  }

  /** Scaling both numbers scales the remainder. */
  lemma ModScale(k: nat, a: nat, b: nat)
    requires k > 0 && b > 0
    ensures k * b > 0 && (k * a) % (k * b) == k * (a % b)
  {
    var q, r := a / b, a % b;
    MulAtLeast(b, k);
    assert a == q * b + r;
    assert k * a == q * (k * b) + k * r by {
      assert k * (q * b + r) == q * (k * b) + k * r;
    }
    assert k * b - k * r == k * (b - r);
    MulAtLeast(b - r, k);
    ModUnique(k * a, q, k * r, k * b);
  }

  /** Scaling both numbers scales their gcd. */
  lemma {:induction false} GcdScale(k: nat, a: nat, b: nat)
    requires k > 0
    ensures Gcd(k * a, k * b) == k * Gcd(a, b)
    decreases b
  {
    if b > 0 {
      ModScale(k, a, b);
      GcdScale(k, b, a % b);
    }
  }

  /** A common factor can be cancelled from a divisibility. */
  lemma CancelDivides(g: nat, x: nat, y: nat)
    requires g > 0 && Divides(g * x, g * y)
    ensures Divides(x, y)
  {
    if x > 0 {
      ModScale(g, y, x);
    }
  }

  /** Dividing both numbers by their gcd leaves coprime quotients. */
  lemma CoprimeQuotients(a: nat, b: nat)
    requires a > 0 && b > 0
    ensures a == Gcd(a, b) * (a / Gcd(a, b)) && b == Gcd(a, b) * (b / Gcd(a, b))
    ensures Gcd(a / Gcd(a, b), b / Gcd(a, b)) == 1
  {
    var g := Gcd(a, b);
    GcdDivides(a, b);
    Quotient(g, a);
    Quotient(g, b);
    GcdScale(g, a / g, b / g);
    assert g * Gcd(a / g, b / g) == g * 1;
  }

  /** A number that divides a product and is coprime to one factor divides the other. */
  lemma CoprimeDivides(x: nat, y: nat, k: nat)
    requires y > 0 && k > 0 && Gcd(x, y) == 1 && Divides(y, x * k)
    ensures Divides(y, k)
  {
    GcdScale(k, x, y);
    DividesMultiple(y, k);
    assert k * x == x * k && k * y == y * k;
    GcdGreatest(k * x, k * y, y);
  }

  /** Every common multiple of a and b is a multiple of their lcm, so the lcm is the least
      one. */
  lemma LcmLeast(a: nat, b: nat, m: nat)
    requires Divides(a, m) && Divides(b, m)
    ensures Divides(Lcm(a, b), m)
  {
    if a > 0 && b > 0 && m > 0 {
      LcmLeastPositive(a, b, m);
    } else {
      assert m == 0;
      assert Lcm(a, b) == 0 || 0 % Lcm(a, b) == 0;
    }
  }

  /** LcmLeast for positive numbers, where the lcm is a times b over their gcd. */
  lemma LcmLeastPositive(a: nat, b: nat, m: nat)
    requires a > 0 && b > 0 && m > 0 && Divides(a, m) && Divides(b, m)
    ensures Divides(Lcm(a, b), m)
  {
    var g := Gcd(a, b);
    CoprimeQuotients(a, b);
    var a', b' := a / g, b / g;
    Quotient(a, m);
    var k := m / a;
    CofactorDivides(g, a', b', k);
    Quotient(b', k);
    var j := k / b';
    Regroup(a, b', j);
    DividesMultiple(a * b', j);
    assert Lcm(a, b) == a * b';
  }

  /** Writing a = g * a' and b = g * b' with a' and b' coprime, b dividing a * k means b'
      divides k. */
  lemma CofactorDivides(g: nat, a': nat, b': nat, k: nat)
    requires g > 0 && b' > 0 && k > 0 && Gcd(a', b') == 1 && Divides(g * b', (g * a') * k)
    ensures Divides(b', k)
  {
    Regroup(g, a', k);
    CancelDivides(g, b', a' * k);
    CoprimeDivides(a', b', k);
  }

  /** Associativity of multiplication, instantiated where a proof needs it. */
  lemma Regroup(x: nat, y: nat, z: nat)
    ensures x * (y * z) == (x * y) * z
  {
  }

  /** The lcm of a list, folded from the left as `vector_lcm` does. */
  function ListLcm(v: seq<nat>): nat
    requires |v| > 0
  {
    if |v| == 1 then v[0] else Lcm(ListLcm(v[..|v| - 1]), v[|v| - 1])
  }

  /** Every element divides the lcm of the list. */
  lemma {:induction false} ListLcmMultiple(v: seq<nat>)
    requires |v| > 0
    ensures forall i :: 0 <= i < |v| ==> Divides(v[i], ListLcm(v))
  {
    if |v| == 1 {
      if v[0] > 0 {
        DividesMultiple(v[0], 1);
      }
    } else {
      var init := v[..|v| - 1];
      ListLcmMultiple(init);
      LcmMultiple(ListLcm(init), v[|v| - 1]);
      forall i | 0 <= i < |v|
        ensures Divides(v[i], ListLcm(v))
      {
        if i < |v| - 1 {
          assert v[i] == init[i];
          DividesTransitive(v[i], ListLcm(init), ListLcm(v));
        }
      }
    }
  }

  /** The lcm of the list divides every common multiple of its elements: it is the
      least common multiple of the whole list. */
  lemma {:induction false} ListLcmLeast(v: seq<nat>, m: nat)
    requires |v| > 0
    requires forall i :: 0 <= i < |v| ==> Divides(v[i], m)
    ensures Divides(ListLcm(v), m)
  {
    if |v| > 1 {
      var init := v[..|v| - 1];
      ListLcmLeast(init, m);
      LcmLeast(ListLcm(init), v[|v| - 1], m);
    }
  }

  /** `vector_lcm`: start from the first count (the list must not be empty) and fold in
      the others. */
  method VectorLcm(v: seq<nat>) returns (result: nat)
    requires |v| > 0
    ensures result == ListLcm(v)
    ensures forall i :: 0 <= i < |v| ==> Divides(v[i], result)
    ensures forall m: nat :: (forall i :: 0 <= i < |v| ==> Divides(v[i], m)) ==> Divides(result, m)
  {
    result := v[0];
    for k := 1 to |v|
      invariant result == ListLcm(v[..k])
    {
      assert v[..k + 1][..k] == v[..k];
      result := Lcm(result, v[k]);
    }
    assert v[..|v|] == v;
    ListLcmMultiple(v);
    forall m: nat | forall i :: 0 <= i < |v| ==> Divides(v[i], m)
      ensures Divides(result, m)
    {
      ListLcmLeast(v, m);
    }
  }
}
