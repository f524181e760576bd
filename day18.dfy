/** Day 18: a digger follows a dig plan of moves (direction and length) and the lagoon's
    size is the shoelace area of the dug loop plus half its perimeter plus one. In part B
    the real moves are hidden in the hexadecimal colour codes. */
module Day18 {
  import opened Common
  import Shoelace

  datatype Direction = Up | Down | Left | Right

  /** `Direction::from_char`: a letter (part A) or the digit of a colour code (part B,
      0 = R, 1 = D, 2 = L, 3 = U); any other character panics (None). */
  function DirectionFromChar(c: char): (r: Option<Direction>)
    ensures r == Some(Up) <==> c == 'U' || c == '3'
    ensures r == Some(Down) <==> c == 'D' || c == '1'
    ensures r == Some(Left) <==> c == 'L' || c == '2'
    ensures r == Some(Right) <==> c == 'R' || c == '0'
    ensures r.None? <==> c !in "UDLR0123"
  {
    match c
    case 'U' => Some(Up)
    case '3' => Some(Up)
    case 'D' => Some(Down)
    case '1' => Some(Down)
    case 'L' => Some(Left)
    case '2' => Some(Left)
    case 'R' => Some(Right)
    case '0' => Some(Right)
    case _ => None
  }

  /** The letter of a direction in a part A plan. */
  function DirectionLetter(d: Direction): char {
    match d
    case Up => 'U'
    case Down => 'D'
    case Left => 'L'
    case Right => 'R'
  }

  /** The digit of a direction at the end of a colour code. */
  function DirectionDigit(d: Direction): char {
    match d
    case Right => '0'
    case Down => '1'
    case Left => '2'
    case Up => '3'
  }

  /** Both spellings of a direction read back as that direction. */
  lemma DirectionRoundTrip(d: Direction)
    ensures DirectionFromChar(DirectionLetter(d)) == Some(d)
    ensures DirectionFromChar(DirectionDigit(d)) == Some(d)
  {
  }

  datatype DigInstruction = DigInstruction(d: Direction, stepCount: int, colour: string)

  type Point = Shoelace.Point

  /** Where one instruction takes the digger from p; x grows to the right, y downwards. */
  function Dig(p: Point, ins: DigInstruction): Point {
    match ins.d
    case Up => (p.0, p.1 - ins.stepCount)
    case Down => (p.0, p.1 + ins.stepCount)
    case Left => (p.0 - ins.stepCount, p.1)
    case Right => (p.0 + ins.stepCount, p.1)
  }

  /** The corners the digger visits, starting at (0, 0). */
  function BoundaryPoints(instructions: seq<DigInstruction>): (pts: seq<Point>)
    ensures |pts| == |instructions| + 1
  {
    if instructions == [] then [(0, 0)]
    else
      var prev := BoundaryPoints(instructions[..|instructions| - 1]);
      prev + [Dig(prev[|prev| - 1], instructions[|instructions| - 1])]
  }

  /** The sum of the step counts. */
  function TotalSteps(instructions: seq<DigInstruction>): int {
    if instructions == [] then 0
    else TotalSteps(instructions[..|instructions| - 1]) + instructions[|instructions| - 1].stepCount
  }

  /** The corner list starts at the origin, has one corner more than there are
      instructions, and each corner lies the instruction's step count away from the one
      before it, along the instruction's axis and in its direction. */
  lemma {:induction false} BoundaryPointsShape(instructions: seq<DigInstruction>)
    ensures BoundaryPoints(instructions)[0] == (0, 0)
    ensures forall i :: 0 <= i < |instructions| ==>
      BoundaryPoints(instructions)[i + 1] == Dig(BoundaryPoints(instructions)[i], instructions[i])
  {
    if instructions != [] {
      var init := instructions[..|instructions| - 1];
      BoundaryPointsShape(init);
      var prev := BoundaryPoints(init);
      assert BoundaryPoints(instructions) == prev + [Dig(prev[|prev| - 1], instructions[|instructions| - 1])];
    }
  }

  /** A dig moves the digger exactly its step count along one axis. */
  lemma DigDistance(p: Point, ins: DigInstruction)
    ensures Abs(Dig(p, ins).0 - p.0) + Abs(Dig(p, ins).1 - p.1) == Abs(ins.stepCount)
    ensures ins.d == Up || ins.d == Down ==> Dig(p, ins).0 == p.0
    ensures ins.d == Left || ins.d == Right ==> Dig(p, ins).1 == p.1
  {
  }

  /** `generate_boundary_point_list`: the corners and the total number of steps. */
  method GenerateBoundaryPointList(instructions: seq<DigInstruction>) returns (pointList: seq<Point>, totalSteps: int)
    ensures pointList == BoundaryPoints(instructions)
    ensures totalSteps == TotalSteps(instructions)
  {
    var currentPosition: Point := (0, 0);
    pointList := [currentPosition];
    totalSteps := 0;
    for i := 0 to |instructions|
      invariant pointList == BoundaryPoints(instructions[..i])
      invariant currentPosition == pointList[|pointList| - 1]
      invariant totalSteps == TotalSteps(instructions[..i])
    {
      var instruction := instructions[i];
      var (currentX, currentY) := currentPosition;
      match instruction.d {
        case Up => currentY := currentY - instruction.stepCount;
        case Down => currentY := currentY + instruction.stepCount;
        case Left => currentX := currentX - instruction.stepCount;
        case Right => currentX := currentX + instruction.stepCount;
      }
      assert instructions[..i + 1][..i] == instructions[..i];
      totalSteps := totalSteps + instruction.stepCount;
      currentPosition := (currentX, currentY);
      pointList := pointList + [currentPosition];
    }
    assert instructions[..|instructions|] == instructions;
  }

  /** The shoelace area of the loop: the last corner closes the loop, so it is left out
      and the edge from the one before it back to the start is used instead. */
  function LoopArea(pts: seq<Point>): nat
    requires |pts| >= 2
  {
    Shoelace.Area(pts[..|pts| - 1])
  }

  /** Pick's theorem: the interior points of the loop from its area and its corner count. */
  function InteriorPoints(pts: seq<Point>): int
    requires |pts| >= 2
  {
    LoopArea(pts) - (|pts| - 1) / 2 + 1
  }

  /** `get_interior_point_count`: the two shoelace sums over the corners but the last, the
      pair that wraps back to the start, then the area and Pick's count. With fewer than
      two corners the source's index arithmetic underflows, so at least two are needed. */
  method GetInteriorPointCount(boundaryPoints: seq<Point>) returns (interior: int, area: int)
    requires |boundaryPoints| >= 2
    ensures area == LoopArea(boundaryPoints)
    ensures interior == InteriorPoints(boundaryPoints)
  {
    var numberOfPoints := |boundaryPoints| - 1;
    ghost var pts := boundaryPoints[..numberOfPoints];
    var sum1, sum2 := 0, 0;
    for idx := 0 to numberOfPoints - 1
      invariant sum1 - sum2 == Shoelace.PathSum(pts, idx)
    {
      sum1 := sum1 + boundaryPoints[idx].0 * boundaryPoints[idx + 1].1;
      sum2 := sum2 + boundaryPoints[idx].1 * boundaryPoints[idx + 1].0;
    }
    sum1 := sum1 + boundaryPoints[numberOfPoints - 1].0 * boundaryPoints[0].1;
    sum2 := sum2 + boundaryPoints[0].0 * boundaryPoints[numberOfPoints - 1].1;
    area := Abs(sum1 - sum2) / 2;
    interior := area - numberOfPoints / 2 + 1;
  }

  /** The open path over a prefix of the corners agrees with the path over all of them. */
  lemma {:induction false} PathSumPrefix(pts: seq<Point>, n: nat, k: nat)
    requires k < n <= |pts|
    ensures Shoelace.PathSum(pts[..n], k) == Shoelace.PathSum(pts, k)
  {
    if k > 0 {
      PathSumPrefix(pts, n, k - 1);
    }
  }

  /** When the plan returns to the start, leaving out the closing corner does not change
      the area: the loop area is the shoelace area of all the corners. */
  lemma ClosedLoopArea(pts: seq<Point>)
    requires |pts| >= 2 && pts[|pts| - 1] == pts[0]
    ensures LoopArea(pts) == Shoelace.Area(pts)
  {
    var n := |pts| - 1;
    PathSumPrefix(pts, n, n - 1);
    assert Shoelace.Cross(pts[n], pts[0]) == 0;
    assert Shoelace.ClosedSum(pts[..n]) == Shoelace.ClosedSum(pts);
  }

  /** Rust's `/` on `i64` rounds toward zero. */
  function HalfTowardZero(x: int): (h: int)
    ensures x >= 0 ==> 0 <= 2 * h <= x < 2 * h + 2
    ensures x < 0 ==> 2 * h - 2 < x <= 2 * h <= 0
  {
    if x >= 0 then x / 2 else -((-x) / 2)
  }

  /** The answer printed by `run`: the area inside the loop plus the trench itself. */
  function LagoonSize(instructions: seq<DigInstruction>): int
    requires |instructions| >= 1
  {
    LoopArea(BoundaryPoints(instructions)) + HalfTowardZero(TotalSteps(instructions)) + 1
  }

  /** Part A and part B of `run`, given the parsed plan. */
  method LagoonVolume(instructions: seq<DigInstruction>) returns (size: int)
    requires |instructions| >= 1
    ensures size == LagoonSize(instructions)
  {
    var boundaryPoints, perimeterLength := GenerateBoundaryPointList(instructions);
    var _, area := GetInteriorPointCount(boundaryPoints);
    size := area + HalfTowardZero(perimeterLength) + 1;
  }

  // Part B: the colour codes.

  /** A hexadecimal digit of either case and its value. */
  predicate IsHexDigit(c: char) {
    '0' <= c <= '9' || 'a' <= c <= 'f' || 'A' <= c <= 'F'
  }

  function HexDigitValue(c: char): (v: nat)
    requires IsHexDigit(c)
    ensures v < 16
  {
    if '0' <= c <= '9' then c as int - '0' as int
    else if 'a' <= c <= 'f' then c as int - 'a' as int + 10
    else c as int - 'A' as int + 10
  }

  function HexDigitChar(v: nat): (c: char)
    requires v < 16
    ensures IsHexDigit(c) && HexDigitValue(c) == v
  {
    if v < 10 then ('0' as int + v) as char else ('a' as int + v - 10) as char
  }

  predicate AllHex(s: string) {
    forall i :: 0 <= i < |s| ==> IsHexDigit(s[i])
  }

  /** The value of a string of hexadecimal digits, most significant first. */
  function HexValue(s: string): nat
    requires AllHex(s)
  {
    if s == [] then 0 else 16 * HexValue(s[..|s| - 1]) + HexDigitValue(s[|s| - 1])
  }

  /** `i64::from_str_radix(s, 16)`: an optional sign, then at least one hexadecimal digit;
      anything else is an error (None). */
  function FromStrRadix16(s: string): (r: Option<int>)
    ensures r.Some? && s != [] && s[0] != '-' && s[0] != '+' ==> AllHex(s) && r.value == HexValue(s)
    ensures s == [] ==> r.None?
    ensures s != [] && s[0] != '-' && s[0] != '+' && AllHex(s) ==> r == Some(HexValue(s))
    ensures s != [] && s[0] != '-' && s[0] != '+' && !AllHex(s) ==> r.None?
  {
    if s == [] then None
    else if (s[0] == '+' || s[0] == '-') && |s| == 1 then None
    else if s[0] == '+' then (if AllHex(s[1..]) then Some(HexValue(s[1..])) else None)
    else if s[0] == '-' then (if AllHex(s[1..]) then var v: int := HexValue(s[1..]); Some(-v) else None)
    else if AllHex(s) then Some(HexValue(s)) else None
  }

  /** `trim_start_matches`: every leading copy of p removed. */
  function TrimStartMatches(s: string, p: string): (r: string)
    requires |p| > 0
    ensures |r| <= |s| && !StartsWith(r, p)
    decreases |s|
  {
    if StartsWith(s, p) then TrimStartMatches(s[|p|..], p) else s
  }

  /** `trim_end_matches` with a single character: every trailing copy of c removed. */
  function TrimEndMatches(s: string, c: char): (r: string)
    ensures |r| <= |s| && (r == [] || r[|r| - 1] != c)
  {
    if s != [] && s[|s| - 1] == c then TrimEndMatches(s[..|s| - 1], c) else s
  }

  /** Trimming keeps a suffix (start) or a prefix (end) of the string: nothing else of
      it is changed. */
  lemma {:induction false} TrimStartIsSuffix(s: string, p: string)
    requires |p| > 0
    ensures TrimStartMatches(s, p) == s[|s| - |TrimStartMatches(s, p)|..]
    decreases |s|
  {
    if StartsWith(s, p) {
      TrimStartIsSuffix(s[|p|..], p);
    }
  }

  lemma {:induction false} TrimEndIsPrefix(s: string, c: char)
    ensures TrimEndMatches(s, c) == s[..|TrimEndMatches(s, c)|]
    ensures forall i :: |TrimEndMatches(s, c)| <= i < |s| ==> s[i] == c
  {
    if s != [] && s[|s| - 1] == c {
      TrimEndIsPrefix(s[..|s| - 1], c);
    }
  }

  /** The hexadecimal code inside `(#...)`. */
  function HexCode(colour: string): string {
    TrimEndMatches(TrimStartMatches(colour, "(#"), ')')
  }

  /** One instruction of `part_b_get_instructions`: the first five characters of the code
      are the step count in hexadecimal, the sixth is the direction digit. A code shorter
      than six characters, a bad step count or a bad direction panics (None). */
  function DecodeColour(colour: string): (r: Option<DigInstruction>)
    ensures r.Some? ==> (|HexCode(colour)| >= 6 && r.value.colour == []
      && DirectionFromChar(HexCode(colour)[5]) == Some(r.value.d)
      && FromStrRadix16(HexCode(colour)[..5]) == Some(r.value.stepCount))
  {
    var code := HexCode(colour);
    if |code| < 6 then None
    else
      match (DirectionFromChar(code[5]), FromStrRadix16(code[..5]))
      case (Some(d), Some(n)) => Some(DigInstruction(d, n, []))
      case _ => None
  }

  /** The five lower-case hexadecimal digits of n < 16^5... or in general the k lowest
      digits of n, most significant first. */
  function HexString(n: nat, k: nat): (s: string)
    ensures |s| == k && AllHex(s)
  {
    if k == 0 then [] else HexString(n / 16, k - 1) + [HexDigitChar(n % 16)]
  }

  /** Reading back k hexadecimal digits of n gives n, when n has at most k digits. */
  lemma {:induction false} HexStringValue(n: nat, k: nat)
    requires n < Pow(16, k)
    ensures HexValue(HexString(n, k)) == n
  {
    if k > 0 {
      assert n / 16 < Pow(16, k - 1) by {
        DivBelow(n, Pow(16, k - 1));
      }
      HexStringValue(n / 16, k - 1);
      var s := HexString(n, k);
      assert s[..|s| - 1] == HexString(n / 16, k - 1);
    }
  }

  lemma DivBelow(n: nat, m: nat)
    requires n < 16 * m
    ensures n / 16 < m
  {
  }

  /** The colour code the puzzle writes for a move of d by n steps. */
  function ColourCode(d: Direction, n: nat): string
    requires n < Pow(16, 5)
  {
    "(#" + HexString(n, 5) + [DirectionDigit(d)] + ")"
  }

  /** Decoding the colour code of a move gives back that move. */
  lemma DecodeColourRoundTrip(d: Direction, n: nat)
    requires n < Pow(16, 5)
    ensures DecodeColour(ColourCode(d, n)) == Some(DigInstruction(d, n, []))
  {
    var hex := HexString(n, 5);
    var code := hex + [DirectionDigit(d)];
    var colour := ColourCode(d, n);
    assert StartsWith(colour, "(#");
    assert colour[2..] == code + ")";
    assert !StartsWith(code + ")", "(#") by {
      assert IsHexDigit((code + ")")[0]);
    }
    assert TrimStartMatches(colour, "(#") == code + ")";
    assert (code + ")")[..|code|] == code;
    assert TrimEndMatches(code, ')') == code;
    assert HexCode(colour) == code;
    assert code[..5] == hex && code[5] == DirectionDigit(d);
    HexStringValue(n, 5);
    DirectionRoundTrip(d);
  }

  predicate Decodes(ins: DigInstruction) {
    DecodeColour(ins.colour).Some?
  }

  function Decoded(ins: DigInstruction): DigInstruction
    requires Decodes(ins)
  {
    DecodeColour(ins.colour).value
  }

  /** The body of the loop in `part_b_get_instructions`: the hexadecimal code, split
      after its fifth character, read as a step count and a direction. */
  method DecodeInstruction(original: DigInstruction) returns (r: Option<DigInstruction>)
    ensures r.Some? <==> Decodes(original)
    ensures r.Some? ==> r.value == Decoded(original)
  {
    var hexCode := TrimEndMatches(TrimStartMatches(original.colour, "(#"), ')');
    if |hexCode| < 6 {
      return None;
    }
    var stepsStr, directionStr := hexCode[..5], hexCode[5..];
    var d := DirectionFromChar(directionStr[0]);
    var stepCount := FromStrRadix16(stepsStr);
    if d.None? || stepCount.None? {
      return None;
    }
    r := Some(DigInstruction(d.value, stepCount.value, []));
  }

  /** `part_b_get_instructions`: every instruction replaced by the one its colour code
      holds; the first code that does not decode panics (None). */
  method PartBGetInstructions(di: seq<DigInstruction>) returns (r: Option<seq<DigInstruction>>)
    ensures r.Some? <==> forall i :: 0 <= i < |di| ==> Decodes(di[i])
    ensures r.Some? ==> (|r.value| == |di|
      && forall i :: 0 <= i < |di| ==> Decodes(di[i]) && r.value[i] == Decoded(di[i]))
  {
    var newInstructions := [];
    for i := 0 to |di|
      invariant |newInstructions| == i
      invariant forall j :: 0 <= j < i ==> Decodes(di[j]) && newInstructions[j] == Decoded(di[j])
    {
      var decoded := DecodeInstruction(di[i]);
      if decoded.None? {
        return None;
      }
      newInstructions := newInstructions + [decoded.value];
    }
    r := Some(newInstructions);
  }
}
