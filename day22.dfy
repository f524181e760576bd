/** Day 22: bricks of sand, each given by the cubes at its two ends, fall straight down
    until they rest on the ground or on a brick below them. */
module Day22 {
  import opened Common

  const I32Max: int := 0x7fff_ffff

  /** One end cube of a brick. */
  datatype EndPos = EndPos(x: int, y: int, z: int)

  datatype Axis = X | Y | Z

  function Coord(e: EndPos, a: Axis): int {
    match a
    case X => e.x
    case Y => e.y
    case Z => e.z
  }

  /** `min_x`, `min_y`, `min_z`: the least coordinate over the ends, folded from i32::MAX,
      so a brick without ends reports i32::MAX. */
  function MinOf(ends: seq<EndPos>, a: Axis): int {
    if ends == [] then I32Max
    else Min(MinOf(ends[..|ends| - 1], a), Coord(ends[|ends| - 1], a))
  }

  /** `max_x`, `max_y`, `max_z`: the greatest coordinate over the ends, folded from 0, so
      the result is never negative. */
  function MaxOf(ends: seq<EndPos>, a: Axis): int {
    if ends == [] then 0
    else Max(MaxOf(ends[..|ends| - 1], a), Coord(ends[|ends| - 1], a))
  }

  /** The `min_*` fold gives a lower bound of the coordinates that is one of them, or
      i32::MAX. */
  lemma {:induction false} MinOfLeast(ends: seq<EndPos>, a: Axis)
    ensures MinOf(ends, a) <= I32Max
    ensures forall i :: 0 <= i < |ends| ==> MinOf(ends, a) <= Coord(ends[i], a)
    ensures MinOf(ends, a) == I32Max || exists i :: 0 <= i < |ends| && MinOf(ends, a) == Coord(ends[i], a)
  {
    if ends != [] {
      var init := ends[..|ends| - 1];
      MinOfLeast(init, a);
      assert forall i :: 0 <= i < |init| ==> init[i] == ends[i];
    }
  }

  /** The `max_*` fold gives an upper bound of the coordinates that is one of them, or 0. */
  lemma {:induction false} MaxOfGreatest(ends: seq<EndPos>, a: Axis)
    ensures MaxOf(ends, a) >= 0
    ensures forall i :: 0 <= i < |ends| ==> Coord(ends[i], a) <= MaxOf(ends, a)
    ensures MaxOf(ends, a) == 0 || exists i :: 0 <= i < |ends| && MaxOf(ends, a) == Coord(ends[i], a)
  {
    if ends != [] {
      var init := ends[..|ends| - 1];
      MaxOfGreatest(init, a);
      assert forall i :: 0 <= i < |init| ==> init[i] == ends[i];
    }
  }

  /** Every end moved up by d (down when d is negative). */
  function ShiftZ(ends: seq<EndPos>, d: int): seq<EndPos> {
    seq(|ends|, i requires 0 <= i < |ends| => ends[i].(z := ends[i].z + d))
  }

  predicate I32Heights(ends: seq<EndPos>) {
    forall i :: 0 <= i < |ends| ==> 0 <= ends[i].z <= I32Max
  }

  /** Moving a brick so that its lowest cube sits at t puts its lowest cube at t. */
  lemma ShiftMin(ends: seq<EndPos>, t: int)
    requires ends != [] && I32Heights(ends) && t <= I32Max
    ensures MinOf(ShiftZ(ends, t - MinOf(ends, Z)), Z) == t
  {
    var m := MinOf(ends, Z);
    MinOfLeast(ends, Z);
    MinOfLeast(ShiftZ(ends, t - m), Z);
    if m == I32Max {
      assert Coord(ends[0], Z) == I32Max;
    }
    var i :| 0 <= i < |ends| && m == Coord(ends[i], Z);
    assert Coord(ShiftZ(ends, t - m)[i], Z) == t;
  }

  /** Moving a brick keeps its height: the top moves by as much as the bottom. */
  lemma ShiftMax(ends: seq<EndPos>, t: int)
    requires ends != [] && I32Heights(ends) && t >= 0
    ensures MaxOf(ShiftZ(ends, t - MinOf(ends, Z)), Z) == MaxOf(ends, Z) - MinOf(ends, Z) + t
  {
    var m := MaxOf(ends, Z);
    MinOfLeast(ends, Z);
    MaxOfGreatest(ends, Z);
    MaxOfGreatest(ShiftZ(ends, t - MinOf(ends, Z)), Z);
    if m == 0 {
      assert Coord(ends[0], Z) == 0;
    }
    var i :| 0 <= i < |ends| && m == Coord(ends[i], Z);
    assert Coord(ShiftZ(ends, t - MinOf(ends, Z))[i], Z) == m - MinOf(ends, Z) + t;
  }

  /** Moving a brick up or down leaves its x and y extent alone. */
  lemma ShiftKeepsXY(ends: seq<EndPos>, d: int, a: Axis)
    requires a != Z
    ensures MinOf(ShiftZ(ends, d), a) == MinOf(ends, a)
    ensures MaxOf(ShiftZ(ends, d), a) == MaxOf(ends, a)
  {
    var shifted := ShiftZ(ends, d);
    assert forall i :: 0 <= i < |ends| ==> Coord(shifted[i], a) == Coord(ends[i], a);
    MinOfLeast(ends, a);
    MinOfLeast(shifted, a);
    MaxOfGreatest(ends, a);
    MaxOfGreatest(shifted, a);
  }

  // Parsing `x,y,z~x,y,z`.

  /** One end: the first three comma-separated fields, each an integer; None where the
      source's `unwrap` panics. Fields after the third are ignored. */
  function ParseEnd(s: string): Option<EndPos> {
    var fields := Split(s, ',');
    if |fields| < 3 then None
    else
      var x, y, z := ParseInt(fields[0]), ParseInt(fields[1]), ParseInt(fields[2]);
      if x.Some? && y.Some? && z.Some? then Some(EndPos(x.value, y.value, z.value)) else None
  }

  predicate AllEndsParse(parts: seq<string>) {
    forall k :: 0 <= k < |parts| ==> ParseEnd(parts[k]).Some?
  }

  /** The ends `Brick::from_str` reads: one per '~'-separated part. */
  function ParseEnds(s: string): (r: Option<seq<EndPos>>)
    ensures r.Some? ==> |r.value| == |Split(s, '~')|
  {
    var parts := Split(s, '~');
    if AllEndsParse(parts) then Some(seq(|parts|, k requires 0 <= k < |parts| => ParseEnd(parts[k]).value))
    else None
  }

  function FormatEnd(e: EndPos): string {
    Join([IntString(e.x), IntString(e.y), IntString(e.z)], ',')
  }

  /** A brick written as the puzzle input writes it. */
  function FormatEnds(ends: seq<EndPos>): string
    requires |ends| >= 1
  {
    Join(seq(|ends|, k requires 0 <= k < |ends| => FormatEnd(ends[k])), '~')
  }

  lemma IntStringChars(v: int)
    ensures ',' !in IntString(v) && '~' !in IntString(v)
  {
    var ds := DecimalString(if v < 0 then -v else v);
    assert !IsDigit(',') && !IsDigit('~');
    assert forall k :: 0 <= k < |ds| ==> IsDigit(ds[k]);
  }

  lemma ParseEndRoundTrip(e: EndPos)
    ensures ParseEnd(FormatEnd(e)) == Some(e)
    ensures '~' !in FormatEnd(e)
  {
    var fields := [IntString(e.x), IntString(e.y), IntString(e.z)];
    IntStringChars(e.x);
    IntStringChars(e.y);
    IntStringChars(e.z);
    SplitJoin(fields, ',');
    ParseIntString(e.x);
    ParseIntString(e.y);
    ParseIntString(e.z);
    JoinAvoids(fields, ',', '~');
  }

  /** A character that is in no piece and is not the separator is not in the join. */
  lemma {:induction false} JoinAvoids(parts: seq<string>, sep: char, c: char)
    requires |parts| >= 1 && c != sep
    requires forall k :: 0 <= k < |parts| ==> c !in parts[k]
    ensures c !in Join(parts, sep)
    decreases |parts|
  {
    if |parts| > 1 {
      JoinAvoids(parts[1..], sep, c);
    }
  }

  /** Writing a brick and reading it back with `Brick::from_str` gives the same ends. */
  lemma FromStrRoundTrip(ends: seq<EndPos>)
    requires |ends| >= 1
    ensures ParseEnds(FormatEnds(ends)) == Some(ends)
  {
    var parts := seq(|ends|, k requires 0 <= k < |ends| => FormatEnd(ends[k]));
    forall k | 0 <= k < |ends|
      ensures '~' !in parts[k] && ParseEnd(parts[k]) == Some(ends[k])
    {
      ParseEndRoundTrip(ends[k]);
    }
    SplitJoin(parts, '~');
    assert Split(FormatEnds(ends), '~') == parts;
    assert AllEndsParse(parts);
    var values := seq(|parts|, k requires 0 <= k < |parts| => ParseEnd(parts[k]).value);
    assert values == ends;
  }

  /** A brick as a value: the id and the ends. */
  datatype BrickState = BrickState(id: nat, ends: seq<EndPos>)

  function States(bricks: seq<Brick>): (r: seq<BrickState>)
    reads bricks
  {
    seq(|bricks|, i requires 0 <= i < |bricks| reads bricks => BrickState(bricks[i].id, bricks[i].ends))
  }

  function Ends(bricks: seq<Brick>): (r: seq<seq<EndPos>>)
    reads bricks
  {
    seq(|bricks|, i requires 0 <= i < |bricks| reads bricks => bricks[i].ends)
  }

  class Brick {
    const id: nat
    var ends: seq<EndPos>

    /** `Brick::from_str`: every '~'-separated part becomes an end; the source panics unless
        each part starts with three integer fields. */
    constructor FromStr(s: string, id: nat)
      requires ParseEnds(s).Some?
      ensures this.id == id && ends == ParseEnds(s).value
    {
      var endStrings := Split(s, '~');
      var parsed: seq<EndPos> := [];
      for k := 0 to |endStrings|
        invariant |parsed| == k
        invariant forall j :: 0 <= j < k ==> parsed[j] == ParseEnd(endStrings[j]).value
      {
        var end := ParseEnd(endStrings[k]);
        parsed := parsed + [end.value];
      }
      this.id := id;
      ends := parsed;
    }

    /** `clone`. */
    constructor Copy(id: nat, ends: seq<EndPos>)
      ensures this.id == id && this.ends == ends
    {
      this.id := id;
      this.ends := ends;
    }

    /** `min_x`, `min_y`, `min_z`. */
    method MinCoord(a: Axis) returns (m: int)
      ensures m == MinOf(ends, a)
    {
      m := I32Max;
      for i := 0 to |ends|
        invariant m == MinOf(ends[..i], a)
      {
        assert ends[..i + 1][..i] == ends[..i];
        m := Min(m, Coord(ends[i], a));
      }
      assert ends[..|ends|] == ends;
    }

    /** `max_x`, `max_y`, `max_z`. */
    method MaxCoord(a: Axis) returns (m: int)
      ensures m == MaxOf(ends, a)
    {
      m := 0;
      for i := 0 to |ends|
        invariant m == MaxOf(ends[..i], a)
      {
        assert ends[..i + 1][..i] == ends[..i];
        m := Max(m, Coord(ends[i], a));
      }
      assert ends[..|ends|] == ends;
    }

    /** `set_base_z`: move every end by the same amount so the lowest sits at targetZ. */
    method SetBaseZ(targetZ: int)
      modifies this
      ensures ends == ShiftZ(old(ends), targetZ - MinOf(old(ends), Z))
    {
      var minZ := MinCoord(Z);
      var zDelta := targetZ - minZ;
      for i := 0 to |ends|
        invariant |ends| == |old(ends)|
        invariant forall j :: 0 <= j < i ==> ends[j] == old(ends)[j].(z := old(ends)[j].z + zDelta)
        invariant forall j :: i <= j < |ends| ==> ends[j] == old(ends)[j]
      {
        ends := ends[i := ends[i].(z := ends[i].z + zDelta)];
      }
    }

    /** The overlap test of `get_xy_overlapping_bricks` for one other brick. */
    method OverlapsXY(brick: Brick) returns (overlap: bool)
      ensures overlap == XYOverlap(ends, brick.ends)
    {
      var selfMinX := MinCoord(X);
      var brickMinX := brick.MinCoord(X);
      var selfMaxX := MaxCoord(X);
      var brickMaxX := brick.MaxCoord(X);
      var selfMinY := MinCoord(Y);
      var brickMinY := brick.MinCoord(Y);
      var selfMaxY := MaxCoord(Y);
      var brickMaxY := brick.MaxCoord(Y);
      var xOverlap := Max(selfMinX, brickMinX) <= Min(selfMaxX, brickMaxX);
      var yOverlap := Max(selfMinY, brickMinY) <= Min(selfMaxY, brickMaxY);
      assert xOverlap == RangesOverlap(selfMinX, selfMaxX, brickMinX, brickMaxX);
      overlap := xOverlap || yOverlap;
    }

    /** `get_xy_overlapping_bricks`: copies of the bricks whose x-range or y-range meets
        this brick's, in the order given. */
    method GetXyOverlappingBricks(bricks: seq<Brick>) returns (overlapping: seq<Brick>)
      ensures forall b :: b in overlapping ==> fresh(b)
      ensures States(overlapping) == Overlapping(ends, States(bricks), |bricks|)
    {
      ghost var given := States(bricks);
      overlapping := [];
      for i := 0 to |bricks|
        invariant forall b :: b in overlapping ==> fresh(b)
        invariant States(bricks) == given
        invariant States(overlapping) == Overlapping(ends, given, i)
      {
        var brick := bricks[i];
        var overlap := OverlapsXY(brick);
        if overlap {
          var copy := new Brick.Copy(brick.id, brick.ends);
          AppendState(overlapping, copy);
          overlapping := overlapping + [copy];
        }
      }
    }
  }

  lemma AppendState(bricks: seq<Brick>, b: Brick)
    ensures States(bricks + [b]) == States(bricks) + [BrickState(b.id, b.ends)]
  {
  }

  /** The closed ranges [a, b] and [c, d] meet, tested as the source tests it. */
  predicate RangesOverlap(a: int, b: int, c: int, d: int) {
    Max(a, c) <= Min(b, d)
  }

  /** The x-ranges, or the y-ranges, of two bricks meet. */
  predicate XYOverlap(p: seq<EndPos>, q: seq<EndPos>) {
    RangesOverlap(MinOf(p, X), MaxOf(p, X), MinOf(q, X), MaxOf(q, X))
    || RangesOverlap(MinOf(p, Y), MaxOf(p, Y), MinOf(q, Y), MaxOf(q, Y))
  }

  predicate Within(v: int, lo: int, hi: int) {
    lo <= v <= hi
  }

  /** The source's test of two ranges holds exactly when some value lies in both, so two
      bricks overlap when they share an x column or a y row. */
  lemma RangesMeet(a: int, b: int, c: int, d: int)
    ensures RangesOverlap(a, b, c, d) <==> exists v :: Within(v, a, b) && Within(v, c, d)
  {
    if RangesOverlap(a, b, c, d) {
      assert Within(Max(a, c), a, b) && Within(Max(a, c), c, d);
    }
  }

  /** The overlapping bricks among the first n, in order. */
  function Overlapping(me: seq<EndPos>, others: seq<BrickState>, n: nat): seq<BrickState>
    requires n <= |others|
  {
    if n == 0 then []
    else
      var prev := Overlapping(me, others, n - 1);
      if XYOverlap(me, others[n - 1].ends) then prev + [others[n - 1]] else prev
  }

  /** Exactly the overlapping bricks are returned, and never more than were given. */
  lemma {:induction false} OverlappingExact(me: seq<EndPos>, others: seq<BrickState>, n: nat)
    requires n <= |others|
    ensures |Overlapping(me, others, n)| <= n
    ensures forall b :: b in Overlapping(me, others, n) <==>
      exists i :: 0 <= i < n && others[i] == b && XYOverlap(me, b.ends)
  {
    if n > 0 {
      OverlappingExact(me, others, n - 1);
      var prev := Overlapping(me, others, n - 1);
      assert forall b :: b in Overlapping(me, others, n) <==> b in prev || (b == others[n - 1] && XYOverlap(me, b.ends));
    }
  }

  // Settling the bricks.

  const GridSize := 3

  /** The collision grid: the top height reached at each (x, y), indexed [x][y]. */
  type Heights = seq<seq<int>>

  predicate IsGrid(h: Heights) {
    |h| == GridSize && forall x :: 0 <= x < GridSize ==> |h[x]| == GridSize
  }

  function ZeroGrid(): (h: Heights)
    ensures IsGrid(h)
  {
    seq(GridSize, x => seq(GridSize, y => 0))
  }

  /** The grid value at (x, y); 0 off the grid. */
  function Cell(h: Heights, x: int, y: int): int {
    if 0 <= x < |h| && 0 <= y < |h[x]| then h[x][y] else 0
  }

  /** The cells [x0, x1] x [y0, y1] lie on the grid, or there are none. */
  predicate InGrid(x0: int, x1: int, y0: int, y1: int) {
    x1 < x0 || y1 < y0 || (0 <= x0 && x1 < GridSize && 0 <= y0 && y1 < GridSize)
  }

  /** The `max` fold from 0 over column x for y from y0 to y1 inclusive. */
  function LineMax(h: Heights, x: int, y0: int, y1: int): (m: int)
    ensures m >= 0
    decreases y1 - y0 + 1
  {
    if y1 < y0 then 0 else Max(LineMax(h, x, y0, y1 - 1), Cell(h, x, y1))
  }

  /** The `max` fold from 0 over the cells [x0, x1] x [y0, y1], row by row. */
  function FootprintMax(h: Heights, x0: int, x1: int, y0: int, y1: int): (m: int)
    ensures m >= 0
    decreases x1 - x0 + 1
  {
    if x1 < x0 then 0 else Max(FootprintMax(h, x0, x1 - 1, y0, y1), LineMax(h, x1, y0, y1))
  }

  /** The column fold is the greatest of 0 and the cells it covers. */
  lemma {:induction false} LineMaxIsMax(h: Heights, x: int, y0: int, y1: int)
    ensures forall y :: y0 <= y <= y1 ==> Cell(h, x, y) <= LineMax(h, x, y0, y1)
    ensures LineMax(h, x, y0, y1) == 0 || exists y :: y0 <= y <= y1 && LineMax(h, x, y0, y1) == Cell(h, x, y)
    decreases y1 - y0 + 1
  {
    if y1 >= y0 {
      LineMaxIsMax(h, x, y0, y1 - 1);
    }
  }

  /** The footprint fold is the greatest of 0 and the cells of the footprint. */
  lemma {:induction false} FootprintMaxIsMax(h: Heights, x0: int, x1: int, y0: int, y1: int)
    ensures forall x, y :: x0 <= x <= x1 && y0 <= y <= y1 ==> Cell(h, x, y) <= FootprintMax(h, x0, x1, y0, y1)
    ensures FootprintMax(h, x0, x1, y0, y1) == 0
      || exists x, y :: x0 <= x <= x1 && y0 <= y <= y1 && FootprintMax(h, x0, x1, y0, y1) == Cell(h, x, y)
    decreases x1 - x0 + 1
  {
    if x1 >= x0 {
      FootprintMaxIsMax(h, x0, x1 - 1, y0, y1);
      LineMaxIsMax(h, x1, y0, y1);
    }
  }

  /** The grid with the cells [x0, x1] x [y0, y1] set to v. */
  function Paint(h: Heights, x0: int, x1: int, y0: int, y1: int, v: int): (r: Heights)
    ensures |r| == |h| && forall x :: 0 <= x < |h| ==> |r[x]| == |h[x]|
  {
    seq(|h|, x requires 0 <= x < |h| =>
      seq(|h[x]|, y requires 0 <= y < |h[x]| => if x0 <= x <= x1 && y0 <= y <= y1 then v else h[x][y]))
  }

  /** The x,y cells a brick covers, from min to max inclusive, lie on the 3 by 3 grid (the
      source panics otherwise). */
  predicate Fits(ends: seq<EndPos>) {
    InGrid(MinOf(ends, X), MaxOf(ends, X), MinOf(ends, Y), MaxOf(ends, Y))
  }

  /** The height one above the highest grid value under the brick's footprint. */
  function Floor(h: Heights, ends: seq<EndPos>): int {
    FootprintMax(h, MinOf(ends, X), MaxOf(ends, X), MinOf(ends, Y), MaxOf(ends, Y)) + 1
  }

  /** One brick settles: its lowest cube goes to Floor, and its cells of the grid then hold
      its new top. Gives the new grid and the new ends. */
  function DropOne(h: Heights, ends: seq<EndPos>): (Heights, seq<EndPos>) {
    var dropped := ShiftZ(ends, Floor(h, ends) - MinOf(ends, Z));
    (Paint(h, MinOf(ends, X), MaxOf(ends, X), MinOf(ends, Y), MaxOf(ends, Y), MaxOf(dropped, Z)), dropped)
  }

  /** The bricks settled one after another, in the order given. */
  function DropFrom(h: Heights, bricks: seq<seq<EndPos>>): (r: seq<seq<EndPos>>)
    ensures |r| == |bricks|
    decreases |bricks|
  {
    if bricks == [] then []
    else
      var step := DropOne(h, bricks[0]);
      [step.1] + DropFrom(step.0, bricks[1..])
  }

  /** A settled brick rests one above the highest point below its footprint (the ground
      is at 0) and keeps its height. */
  lemma DropOneHeight(h: Heights, ends: seq<EndPos>)
    requires ends != [] && I32Heights(ends) && Floor(h, ends) <= I32Max
    ensures MinOf(DropOne(h, ends).1, Z) == Floor(h, ends)
    ensures MaxOf(DropOne(h, ends).1, Z) - MinOf(DropOne(h, ends).1, Z) == MaxOf(ends, Z) - MinOf(ends, Z)
  {
    ShiftMin(ends, Floor(h, ends));
    ShiftMax(ends, Floor(h, ends));
  }

  /** A settled brick keeps its x,y extent. */
  lemma DropOneKeepsXY(h: Heights, ends: seq<EndPos>, a: Axis)
    requires a != Z
    ensures MinOf(DropOne(h, ends).1, a) == MinOf(ends, a)
    ensures MaxOf(DropOne(h, ends).1, a) == MaxOf(ends, a)
  {
    ShiftKeepsXY(ends, Floor(h, ends) - MinOf(ends, Z), a);
  }

  /** After a brick settles the grid holds its top over its footprint and is unchanged
      elsewhere. */
  lemma DropOneGrid(h: Heights, ends: seq<EndPos>, x: int, y: int)
    requires IsGrid(h) && 0 <= x < GridSize && 0 <= y < GridSize
    ensures IsGrid(DropOne(h, ends).0)
    ensures DropOne(h, ends).0[x][y] ==
      if MinOf(ends, X) <= x <= MaxOf(ends, X) && MinOf(ends, Y) <= y <= MaxOf(ends, Y)
      then MaxOf(DropOne(h, ends).1, Z) else h[x][y]
  {
  }

  // `drop_bricks`.

  /** The sort key of every brick: its `min_z`. */
  function MinZKeys(bricks: seq<Brick>): (keys: map<Brick, int>)
    reads bricks
    ensures forall b :: b in bricks ==> b in keys
  {
    map b | b in bricks :: MinOf(b.ends, Z)
  }

  predicate Keyed<T>(s: seq<T>, key: map<T, int>) {
    forall x :: x in s ==> x in key
  }

  predicate SortedBy<T>(s: seq<T>, key: map<T, int>)
    requires Keyed(s, key)
  {
    forall i, j :: 0 <= i < j < |s| ==> key[s[i]] <= key[s[j]]
  }

  /** x placed before the first element whose key is not below x's. */
  function InsertBy<T(==)>(x: T, s: seq<T>, key: map<T, int>): (r: seq<T>)
    requires x in key && Keyed(s, key)
    ensures multiset(r) == multiset(s) + multiset{x}
  {
    if s == [] || key[x] <= key[s[0]] then [x] + s
    else
      assert s == [s[0]] + s[1..];
      [s[0]] + InsertBy(x, s[1..], key)
  }

  /** The elements of a list are exactly the elements of its multiset. */
  lemma MultisetMembers<T>(r: seq<T>, s: seq<T>)
    requires multiset(r) == multiset(s)
    ensures forall x :: x in r <==> x in s
  {
    forall x
      ensures x in r <==> x in s
    {
      assert x in r <==> x in multiset(r);
      assert x in s <==> x in multiset(s);
    }
  }

  /** Inserting into a sorted list keeps it sorted. */
  lemma {:induction false} InsertSorted<T>(x: T, s: seq<T>, key: map<T, int>)
    requires x in key && Keyed(s, key) && SortedBy(s, key)
    ensures Keyed(InsertBy(x, s, key), key) && SortedBy(InsertBy(x, s, key), key)
  {
    var r := InsertBy(x, s, key);
    MultisetMembers(r, s + [x]);
    if s != [] && key[x] > key[s[0]] {
      var rest := InsertBy(x, s[1..], key);
      InsertSorted(x, s[1..], key);
      MultisetMembers(rest, s[1..] + [x]);
      forall k | 0 <= k < |rest|
        ensures rest[k] == x || rest[k] in s[1..]
      {
        assert rest[k] in rest;
      }
    }
  }

  /** `sort_by`: a stable insertion sort on the keys. */
  function SortBy<T(==)>(s: seq<T>, key: map<T, int>): (r: seq<T>)
    requires Keyed(s, key)
    ensures multiset(r) == multiset(s)
  {
    if s == [] then []
    else
      assert s == [s[0]] + s[1..];
      var rest := SortBy(s[1..], key);
      MultisetMembers(rest, s[1..]);
      InsertBy(s[0], rest, key)
  }

  /** The sort orders the list by key. */
  lemma {:induction false} SortBySorted<T>(s: seq<T>, key: map<T, int>)
    requires Keyed(s, key)
    ensures Keyed(SortBy(s, key), key) && SortedBy(SortBy(s, key), key)
  {
    MultisetMembers(SortBy(s, key), s);
    if s != [] {
      assert s == [s[0]] + s[1..];
      SortBySorted(s[1..], key);
      InsertSorted(s[0], SortBy(s[1..], key), key);
    }
  }

  /** A sequence in which every brick occurs once has no brick at two positions. */
  lemma DistinctPositions(s: seq<Brick>, i: nat, j: nat)
    requires forall b :: b in s ==> multiset(s)[b] == 1
    requires i < j < |s|
    ensures s[i] != s[j]
  {
    var x := s[i];
    assert s == s[..j] + s[j..];
    assert multiset(s)[x] == multiset(s[..j])[x] + multiset(s[j..])[x];
    assert x == s[..j][i];
    assert multiset(s[j..])[x] == 0;
    assert s[j] == s[j..][0];
  }

  /** The inner loops of `drop_bricks` 3(b): the highest collision value under the
      footprint [minX, maxX] x [minY, maxY], starting from 0. */
  method FootprintHeight(collisionGrid: Heights, minX: int, maxX: int, minY: int, maxY: int) returns (m: int)
    requires IsGrid(collisionGrid) && InGrid(minX, maxX, minY, maxY)
    ensures m == FootprintMax(collisionGrid, minX, maxX, minY, maxY)
  {
    m := 0;
    var x := minX;
    while x <= maxX
      invariant x <= maxX + 1 || x == minX
      invariant m == FootprintMax(collisionGrid, minX, x - 1, minY, maxY)
      decreases maxX + 1 - x
    {
      var y := minY;
      while y <= maxY
        invariant y <= maxY + 1 || y == minY
        invariant m == Max(FootprintMax(collisionGrid, minX, x - 1, minY, maxY), LineMax(collisionGrid, x, minY, y - 1))
        decreases maxY + 1 - y
      {
        m := Max(m, collisionGrid[x][y]);
        y := y + 1;
      }
      x := x + 1;
    }
  }

  /** The loops of `drop_bricks` 3(d): every cell of the footprint set to v. */
  method SetFootprint(collisionGrid: Heights, minX: int, maxX: int, minY: int, maxY: int, v: int) returns (r: Heights)
    requires IsGrid(collisionGrid) && InGrid(minX, maxX, minY, maxY)
    ensures r == Paint(collisionGrid, minX, maxX, minY, maxY, v)
  {
    r := collisionGrid;
    var x := minX;
    while x <= maxX
      invariant x <= maxX + 1 || x == minX
      invariant IsGrid(r)
      invariant forall a, b :: 0 <= a < GridSize && 0 <= b < GridSize ==>
        r[a][b] == if minX <= a < x && minY <= b <= maxY then v else collisionGrid[a][b]
      decreases maxX + 1 - x
    {
      var y := minY;
      while y <= maxY
        invariant y <= maxY + 1 || y == minY
        invariant IsGrid(r)
        invariant forall a, b :: 0 <= a < GridSize && 0 <= b < GridSize ==>
          r[a][b] == if (minX <= a < x && minY <= b <= maxY) || (a == x && minY <= b < y) then v else collisionGrid[a][b]
        decreases maxY + 1 - y
      {
        r := r[x := r[x][y := v]];
        y := y + 1;
      }
      x := x + 1;
    }
    var painted := Paint(collisionGrid, minX, maxX, minY, maxY, v);
    assert forall a :: 0 <= a < GridSize ==> r[a] == painted[a];
  }

  /** One pass of the loop of `drop_bricks`: settle one brick against the grid. */
  method DropBrick(brick: Brick, collisionGrid: Heights) returns (newGrid: Heights)
    requires IsGrid(collisionGrid) && Fits(brick.ends)
    modifies brick
    ensures IsGrid(newGrid)
    ensures newGrid == DropOne(collisionGrid, old(brick.ends)).0
    ensures brick.ends == DropOne(collisionGrid, old(brick.ends)).1
  {
    ghost var e := brick.ends;
    var minX := brick.MinCoord(X);
    var minY := brick.MinCoord(Y);
    var maxX := brick.MaxCoord(X);
    var maxY := brick.MaxCoord(Y);
    var maxZFromCollisionGrid := FootprintHeight(collisionGrid, minX, maxX, minY, maxY);
    brick.SetBaseZ(maxZFromCollisionGrid + 1);
    var maxZOfDroppedBrick := brick.MaxCoord(Z);
    newGrid := SetFootprint(collisionGrid, minX, maxX, minY, maxY, maxZOfDroppedBrick);
    DropOneIs(collisionGrid, e, minX, maxX, minY, maxY, maxZFromCollisionGrid + 1, brick.ends, maxZOfDroppedBrick);
  }

  /** DropOne in terms of the values the method computes step by step. */
  lemma DropOneIs(h: Heights, e: seq<EndPos>, x0: int, x1: int, y0: int, y1: int, base: int,
                  dropped: seq<EndPos>, top: int)
    requires x0 == MinOf(e, X) && x1 == MaxOf(e, X) && y0 == MinOf(e, Y) && y1 == MaxOf(e, Y)
    requires base == FootprintMax(h, x0, x1, y0, y1) + 1
    requires dropped == ShiftZ(e, base - MinOf(e, Z))
    requires top == MaxOf(dropped, Z)
    ensures DropOne(h, e) == (Paint(h, x0, x1, y0, y1, top), dropped)
  {
  }

  /** `drop_bricks`: sort the snapshot by lowest point, then settle the bricks one by one
      on a 3 by 3 collision grid that starts at height 0. The result is the sorted
      snapshot, and its new ends are the settled positions. */
  method DropBricks(brickSnapshot: seq<Brick>) returns (droppedBricks: seq<Brick>)
    requires forall b :: b in brickSnapshot ==> multiset(brickSnapshot)[b] == 1
    requires forall b :: b in brickSnapshot ==> Fits(b.ends)
    modifies set b | b in brickSnapshot
    ensures droppedBricks == SortBy(brickSnapshot, old(MinZKeys(brickSnapshot)))
    ensures Ends(droppedBricks) == DropFrom(ZeroGrid(), old(Ends(droppedBricks)))
  {
    var sorted := SortBy(brickSnapshot, MinZKeys(brickSnapshot));
    forall b | b in sorted
      ensures b in brickSnapshot
    {
      assert b in multiset(sorted);
    }
    SortedUnaliased(brickSnapshot, sorted);
    droppedBricks := SettleAll(sorted);
  }

  /** Sorting keeps every brick once, and each still fits the grid. */
  lemma SortedUnaliased(s: seq<Brick>, sorted: seq<Brick>)
    requires forall b :: b in s ==> multiset(s)[b] == 1
    requires forall b :: b in s ==> Fits(b.ends)
    requires multiset(sorted) == multiset(s)
    ensures Unaliased(sorted) && AllFit(Ends(sorted))
  {
    MultisetMembers(sorted, s);
    forall i, j | 0 <= i < j < |sorted|
      ensures sorted[i] != sorted[j]
    {
      DistinctPositions(sorted, i, j);
    }
  }

  predicate Unaliased(s: seq<Brick>) {
    forall i, j :: 0 <= i < j < |s| ==> s[i] != s[j]
  }

  predicate AllFit(bricks: seq<seq<EndPos>>) {
    forall i :: 0 <= i < |bricks| ==> Fits(bricks[i])
  }

  /** The loop of `drop_bricks` over the sorted bricks. */
  method SettleAll(sorted: seq<Brick>) returns (droppedBricks: seq<Brick>)
    requires Unaliased(sorted) && AllFit(Ends(sorted))
    modifies set b | b in sorted
    ensures droppedBricks == sorted
    ensures Ends(sorted) == DropFrom(ZeroGrid(), old(Ends(sorted)))
  {
    ghost var before := Ends(sorted);
    ghost var settled: seq<seq<EndPos>> := [];
    var collisionGrid := ZeroGrid();
    ghost var target := DropFrom(ZeroGrid(), before);
    droppedBricks := [];
    for i := 0 to |sorted|
      invariant |settled| == i && |droppedBricks| == i
      invariant forall j :: 0 <= j < i ==> droppedBricks[j] == sorted[j]
      invariant IsGrid(collisionGrid)
      invariant forall j :: 0 <= j < i ==> sorted[j].ends == settled[j]
      invariant forall j :: i <= j < |sorted| ==> sorted[j].ends == before[j]
      invariant settled + DropFrom(collisionGrid, before[i..]) == target
    {
      var brick := sorted[i];
      collisionGrid := SettleNext(sorted, i, collisionGrid, settled, before, target);
      settled := settled + [brick.ends];
      droppedBricks := droppedBricks + [brick];
    }
    assert before[|sorted|..] == [];
    assert Ends(sorted) == settled;
  }

  /** Brick i of the sorted order settles, and the loop's equation moves on by one. */
  method SettleNext(sorted: seq<Brick>, i: nat, collisionGrid: Heights, ghost settled: seq<seq<EndPos>>,
                    ghost before: seq<seq<EndPos>>, ghost target: seq<seq<EndPos>>) returns (newGrid: Heights)
    requires i < |sorted| == |before| && Unaliased(sorted) && sorted[i].ends == before[i]
    requires AllFit(before) && IsGrid(collisionGrid)
    requires settled + DropFrom(collisionGrid, before[i..]) == target
    modifies sorted[i]
    ensures IsGrid(newGrid)
    ensures (settled + [sorted[i].ends]) + DropFrom(newGrid, before[i + 1..]) == target
    ensures forall j :: 0 <= j < |sorted| && j != i ==> sorted[j].ends == old(sorted[j].ends)
  {
    newGrid := DropBrick(sorted[i], collisionGrid);
    SettleStep(settled, collisionGrid, before, i, target);
    forall j | 0 <= j < |sorted| && j != i
      ensures sorted[j] != sorted[i]
    {
      if j < i {
        assert sorted[j] != sorted[i];
      } else {
        assert sorted[i] != sorted[j];
      }
    }
  }

  /** Settling brick i carries the loop's equation over to brick i + 1. */
  lemma SettleStep(done: seq<seq<EndPos>>, h: Heights, bricks: seq<seq<EndPos>>, i: nat, target: seq<seq<EndPos>>)
    requires i < |bricks|
    requires done + DropFrom(h, bricks[i..]) == target
    ensures (done + [DropOne(h, bricks[i]).1]) + DropFrom(DropOne(h, bricks[i]).0, bricks[i + 1..]) == target
  {
    assert bricks[i..][1..] == bricks[i + 1..];
  }
}
