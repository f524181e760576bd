/** Day 3: engine schematic. A part number is a maximal run of digits on a line with a
    symbol next to it (on the line itself, or diagonally or straight above or below); a
    gear is a '*' with exactly two numbers next to it, and its ratio is their product. */
module Day3 {
  import opened Common

  /** `is_symbol`: anything but a digit or '.'. */
  predicate IsSymbol(c: char) {
    !(IsDigit(c) || c == '.')
  }

  /** A run of characters [start, end) of a line. */
  datatype Run = Run(start: nat, end: nat)

  predicate IsDigitRun(s: string, r: Run) {
    r.start < r.end <= |s| && AllDigits(s[r.start..r.end])
  }

  /** The matches of `.*?([0-9]+).*?` from position p on: the runs of digits, left to right,
      each as long as it can be. */
  function RunsFrom(s: string, p: nat): (rs: seq<Run>)
    requires p <= |s|
    ensures forall k :: 0 <= k < |rs| ==> p <= rs[k].start && IsDigitRun(s, rs[k])
    decreases |s| - p
  {
    if p == |s| then []
    else if IsDigit(s[p]) then [Run(p, DigitRunEnd(s, p))] + RunsFrom(s, DigitRunEnd(s, p))
    else RunsFrom(s, p + 1)
  }

  function Runs(s: string): seq<Run> {
    RunsFrom(s, 0)
  }

  /** A run is maximal when no digit sits right before or right after it. */
  predicate Maximal(s: string, r: Run)
    requires r.start <= r.end <= |s|
  {
    (r.start == 0 || !IsDigit(s[r.start - 1])) && (r.end == |s| || !IsDigit(s[r.end]))
  }

  /** Column i lies in one of the runs. */
  predicate InSomeRun(rs: seq<Run>, i: nat) {
    exists k :: 0 <= k < |rs| && rs[k].start <= i < rs[k].end
  }

  /** The runs found are the maximal runs of digits, in increasing order, and every digit of
      the line lies in one of them. */
  lemma RunsAreMaximalDigitRuns(s: string, p: nat)
    requires p <= |s| && (p == 0 || p == |s| || !IsDigit(s[p - 1]) || !IsDigit(s[p]))
    ensures forall k :: 0 <= k < |RunsFrom(s, p)| ==> Maximal(s, RunsFrom(s, p)[k])
    ensures forall k :: 0 <= k < |RunsFrom(s, p)| - 1 ==> RunsFrom(s, p)[k].end < RunsFrom(s, p)[k + 1].start
    ensures forall i :: p <= i < |s| && IsDigit(s[i]) ==> InSomeRun(RunsFrom(s, p), i)
  {
    RunsAreMaximal(s, p);
    RunsIncrease(s, p);
    RunsCoverDigits(s, p);
  }

  lemma {:induction false} RunsAreMaximal(s: string, p: nat)
    requires p <= |s| && (p == 0 || p == |s| || !IsDigit(s[p - 1]) || !IsDigit(s[p]))
    ensures forall k :: 0 <= k < |RunsFrom(s, p)| ==> Maximal(s, RunsFrom(s, p)[k])
    decreases |s| - p
  {
    if p < |s| {
      if IsDigit(s[p]) {
        var q := DigitRunEnd(s, p);
        RunsAreMaximal(s, q);
        assert RunsFrom(s, p) == [Run(p, q)] + RunsFrom(s, q);
      } else {
        RunsAreMaximal(s, p + 1);
      }
    }
  }

  lemma {:induction false} RunsIncrease(s: string, p: nat)
    requires p <= |s|
    ensures forall k :: 0 <= k < |RunsFrom(s, p)| - 1 ==> RunsFrom(s, p)[k].end < RunsFrom(s, p)[k + 1].start
    decreases |s| - p
  {
    if p < |s| {
      if IsDigit(s[p]) {
        var q := DigitRunEnd(s, p);
        RunsIncrease(s, q);
        var rest := RunsFrom(s, q);
        assert RunsFrom(s, p) == [Run(p, q)] + rest;
        if rest != [] {
          assert IsDigit(s[rest[0].start..rest[0].end][0]);
        }
      } else {
        RunsIncrease(s, p + 1);
      }
    }
  }

  lemma {:induction false} RunsCoverDigits(s: string, p: nat)
    requires p <= |s|
    ensures forall i :: p <= i < |s| && IsDigit(s[i]) ==> InSomeRun(RunsFrom(s, p), i)
    decreases |s| - p
  {
    if p < |s| {
      if IsDigit(s[p]) {
        var q := DigitRunEnd(s, p);
        RunsCoverDigits(s, q);
        var rs := RunsFrom(s, p);
        assert rs == [Run(p, q)] + RunsFrom(s, q);
        forall i | p <= i < |s| && IsDigit(s[i])
          ensures InSomeRun(rs, i)
        {
          if i < q {
            assert rs[0].start <= i < rs[0].end;
          } else {
            assert InSomeRun(RunsFrom(s, q), i);
            var k :| 0 <= k < |RunsFrom(s, q)| && RunsFrom(s, q)[k].start <= i < RunsFrom(s, q)[k].end;
            assert rs[k + 1] == RunsFrom(s, q)[k];
          }
        }
      } else {
        RunsCoverDigits(s, p + 1);
      }
    }
  }

  /** Where the windows on the neighbouring lines start and end: one column to each side of
      the run, clipped at the left edge, and at the right edge only when the run ends there. */
  function WindowLo(r: Run): nat {
    if r.start == 0 then 0 else r.start - 1
  }

  function WindowHi(line: string, r: Run): nat {
    if r.end == |line| then r.end else r.end + 1
  }

  /** A neighbouring line is wide enough for the window slice of every run of digits in the
      target line: the source panics on a slice past its end. */
  predicate Covers(target: string, line: Option<string>) {
    line.None? || forall i :: 0 <= i < |target| && IsDigit(target[i]) ==> i < |line.value|
  }

  predicate WindowHasSymbol(line: string, lo: nat, hi: nat)
    requires lo <= hi <= |line|
  {
    exists j :: lo <= j < hi && IsSymbol(line[j])
  }

  /** Whether the windows, or the characters right before or after the run on its own line,
      hold a symbol (the flag `has_adjacent_symbol` at the end of one match). */
  predicate HasAdjacentSymbol(target: string, prior: Option<string>, following: Option<string>, r: Run)
    requires IsDigitRun(target, r)
    requires prior.Some? ==> r.end <= |prior.value|
    requires following.Some? ==> r.end <= |following.value|
  {
    (prior.Some? && WindowHasSymbol(prior.value, WindowLo(r), WindowHi(prior.value, r))) ||
    (following.Some? && WindowHasSymbol(following.value, WindowLo(r), WindowHi(following.value, r))) ||
    (r.start > 0 && IsSymbol(target[r.start - 1])) ||
    (r.end < |target| && IsSymbol(target[r.end]))
  }

  /** Whether line holds a symbol in column i or one of its two neighbouring columns. */
  predicate NearSymbol(line: string, i: int) {
    exists j :: 0 <= j < |line| && i - 1 <= j <= i + 1 && IsSymbol(line[j])
  }

  /** The puzzle's notion of adjacency: some digit of the run has a symbol among its eight
      neighbouring cells. */
  predicate TouchesSymbol(target: string, prior: Option<string>, following: Option<string>, r: Run) {
    exists i :: r.start <= i < r.end &&
      ((prior.Some? && NearSymbol(prior.value, i)) ||
       (following.Some? && NearSymbol(following.value, i)) ||
       NearSymbol(target, i))
  }

  /** A digit run ends within a neighbouring line that covers the target. */
  lemma RunFits(target: string, line: Option<string>, r: Run)
    requires IsDigitRun(target, r) && Covers(target, line)
    ensures line.Some? ==> r.end <= |line.value|
  {
    assert IsDigit(target[r.start..r.end][r.end - 1 - r.start]);
  }

  /** The window on a neighbouring line holds a symbol exactly when some column of the run
      has a symbol next to it on that line. */
  lemma WindowIffNear(line: string, r: Run)
    requires r.start < r.end <= |line|
    ensures WindowHasSymbol(line, WindowLo(r), WindowHi(line, r)) <==>
            exists i :: r.start <= i < r.end && NearSymbol(line, i)
  {
    var lo, hi := WindowLo(r), WindowHi(line, r);
    if WindowHasSymbol(line, lo, hi) {
      var j :| lo <= j < hi && IsSymbol(line[j]);
      var i := if j < r.start then r.start else if j >= r.end then r.end - 1 else j;
      assert r.start <= i < r.end && NearSymbol(line, i);
    }
    if exists i :: r.start <= i < r.end && NearSymbol(line, i) {
      var i :| r.start <= i < r.end && NearSymbol(line, i);
      var j :| 0 <= j < |line| && i - 1 <= j <= i + 1 && IsSymbol(line[j]);
      assert lo <= j < hi;
    }
  }

  /** On the run's own line only the characters just outside the run can be symbols. */
  lemma SameLineIffNear(target: string, r: Run)
    requires IsDigitRun(target, r)
    ensures ((r.start > 0 && IsSymbol(target[r.start - 1])) || (r.end < |target| && IsSymbol(target[r.end]))) <==>
            exists i :: r.start <= i < r.end && NearSymbol(target, i)
  {
    if r.start > 0 && IsSymbol(target[r.start - 1]) {
      assert NearSymbol(target, r.start);
    }
    if r.end < |target| && IsSymbol(target[r.end]) {
      assert NearSymbol(target, r.end - 1);
    }
    if exists i :: r.start <= i < r.end && NearSymbol(target, i) {
      var i :| r.start <= i < r.end && NearSymbol(target, i);
      var j :| 0 <= j < |target| && i - 1 <= j <= i + 1 && IsSymbol(target[j]);
      if r.start <= j < r.end {
        assert false;
      }
    }
  }

  /** The windows the source checks are exactly the eight-neighbourhood of the run. */
  lemma AdjacentIffTouches(target: string, prior: Option<string>, following: Option<string>, r: Run)
    requires IsDigitRun(target, r) && Covers(target, prior) && Covers(target, following)
    ensures (RunFits(target, prior, r); RunFits(target, following, r);
             HasAdjacentSymbol(target, prior, following, r) <==> TouchesSymbol(target, prior, following, r))
  {
    RunFits(target, prior, r);
    RunFits(target, following, r);
    if prior.Some? {
      WindowIffNear(prior.value, r);
    }
    if following.Some? {
      WindowIffNear(following.value, r);
    }
    SameLineIffNear(target, r);
  }

  /** The part numbers among the first k runs of the target line. */
  function PartsUpTo(target: string, prior: Option<string>, following: Option<string>, k: nat): (ps: seq<nat>)
    requires k <= |Runs(target)|
    requires Covers(target, prior) && Covers(target, following)
    ensures |ps| <= k
  {
    if k == 0 then []
    else
      var r := Runs(target)[k - 1];
      RunFits(target, prior, r);
      RunFits(target, following, r);
      var ps := PartsUpTo(target, prior, following, k - 1);
      if HasAdjacentSymbol(target, prior, following, r) then ps + [DecimalValue(target[r.start..r.end])] else ps
  }

  /** The inner loops of `check_input` over one window: stop at the first symbol, and keep
      a flag that was already set. */
  method ScanWindow(line: string, lo: nat, hi: nat, flagIn: bool) returns (flag: bool)
    requires lo <= hi <= |line|
    ensures flag == (flagIn || WindowHasSymbol(line, lo, hi))
  {
    flag := flagIn;
    var j := lo;
    while j < hi
      invariant lo <= j <= hi
      invariant flag == (flagIn || exists i :: lo <= i < j && IsSymbol(line[i]))
    {
      if flag {
        break;
      }
      flag := IsSymbol(line[j]);
      j := j + 1;
    }
  }

  /** `check_input`: the part numbers of the target line, left to right. */
  method CheckInput(target: string, prior: Option<string>, following: Option<string>) returns (parts: seq<nat>)
    requires Covers(target, prior) && Covers(target, following)
    ensures parts == PartsUpTo(target, prior, following, |Runs(target)|)
  {
    var runs := Runs(target);
    parts := [];
    for k := 0 to |runs|
      invariant parts == PartsUpTo(target, prior, following, k)
    {
      parts := CheckRun(target, prior, following, k, parts);
    }
  }

  /** The body of the loop in `check_input` for the k-th run of digits: its number is kept
      when a symbol is next to it. */
  method CheckRun(target: string, prior: Option<string>, following: Option<string>, k: nat, before: seq<nat>)
    returns (parts: seq<nat>)
    requires k < |Runs(target)| && Covers(target, prior) && Covers(target, following)
    requires before == PartsUpTo(target, prior, following, k)
    ensures parts == PartsUpTo(target, prior, following, k + 1)
  {
    var r := Runs(target)[k];
    RunFits(target, prior, r);
    RunFits(target, following, r);
    var flag := false;
    if prior.Some? {
      flag := ScanWindow(prior.value, WindowLo(r), WindowHi(prior.value, r), flag);
    }
    if following.Some? {
      flag := ScanWindow(following.value, WindowLo(r), WindowHi(following.value, r), flag);
    }
    if r.start > 0 && IsSymbol(target[r.start - 1]) {
      flag := true;
    }
    if r.end < |target| && IsSymbol(target[r.end]) {
      flag := true;
    }
    parts := before;
    if flag {
      parts := parts + [DecimalValue(target[r.start..r.end])];
    }
  }

  /** The seven-character window `extract_adjacent_numbers` looks at around column star.
      The source subtracts 3 from an unsigned index, so the star must not be in the first
      three columns, and the slice must start within the line. */
  predicate StarFits(line: string, star: nat) {
    3 <= star && star - 3 <= |line|
  }

  function Area(line: string, star: nat): string
    requires StarFits(line, star)
  {
    line[star - 3..Min(|line|, star + 4)]
  }

  /** A run of the window is taken when it has one to three digits and starts no earlier
      than 2, 1 or 0 (for those lengths) and no later than 4. */
  predicate Accepted(r: Run) {
    var len := r.end - r.start;
    (len == 1 && 2 <= r.start <= 4) || (len == 2 && 1 <= r.start <= 4) || (len == 3 && r.start <= 4)
  }

  /** With the window starting three columns before the star, a run is taken exactly when
      it has at most three digits and occupies a column next to the star (star - 1, star
      or star + 1). */
  lemma AcceptedIffNextToStar(r: Run, star: nat)
    requires 3 <= star && r.start < r.end
    ensures Accepted(r) <==>
            r.end - r.start <= 3 && star - 3 + r.start <= star + 1 && star - 1 <= star - 3 + r.end - 1
  {
  }

  /** The numbers taken from the first k runs of the window. */
  function AdjacentUpTo(area: string, k: nat): (ns: seq<nat>)
    requires k <= |Runs(area)|
    ensures |ns| <= k
  {
    if k == 0 then []
    else
      var r := Runs(area)[k - 1];
      var ns := AdjacentUpTo(area, k - 1);
      if Accepted(r) then ns + [DecimalValue(area[r.start..r.end])] else ns
  }

  function AdjacentNumbers(line: string, star: nat): seq<nat>
    requires StarFits(line, star)
  {
    AdjacentUpTo(Area(line, star), |Runs(Area(line, star))|)
  }

  /** `extract_adjacent_numbers`: the numbers of the line next to the star column. */
  method ExtractAdjacentNumbers(line: string, star: nat) returns (numbers: seq<nat>)
    requires StarFits(line, star)
    ensures numbers == AdjacentNumbers(line, star)
  {
    var area := Area(line, star);
    var runs := Runs(area);
    numbers := [];
    for k := 0 to |runs|
      invariant numbers == AdjacentUpTo(area, k)
    {
      var r := runs[k];
      var startCheck: Option<nat> := None;
      var len := r.end - r.start;
      if len == 1 {
        startCheck := Some(2);
      } else if len == 2 {
        startCheck := Some(1);
      } else if len == 3 {
        startCheck := Some(0);
      }
      if startCheck.Some? && r.start >= startCheck.value && r.start <= 4 {
        numbers := numbers + [DecimalValue(area[r.start..r.end])];
      }
    }
  }

  /** The matches of `.*?(\*).*?` from position p on: every '*', left to right. */
  function StarsFrom(s: string, p: nat): seq<nat>
    requires p <= |s|
    decreases |s| - p
  {
    if p == |s| then []
    else if s[p] == '*' then [p] + StarsFrom(s, p + 1)
    else StarsFrom(s, p + 1)
  }

  function Stars(s: string): seq<nat> {
    StarsFrom(s, 0)
  }

  /** The stars found from p on are exactly the positions of '*' there. */
  lemma {:induction false} StarsAreStarPositions(s: string, p: nat)
    requires p <= |s|
    ensures forall k :: 0 <= k < |StarsFrom(s, p)| ==> p <= StarsFrom(s, p)[k] < |s| && s[StarsFrom(s, p)[k]] == '*'
    ensures forall i :: p <= i < |s| && s[i] == '*' ==> i in StarsFrom(s, p)
    decreases |s| - p
  {
    if p < |s| {
      StarsAreStarPositions(s, p + 1);
    }
  }

  /** What the source demands for a star: every line it looks at has the star's window, and
      at most two numbers are found (the `assert!`). */
  predicate StarOk(target: string, prior: Option<string>, following: Option<string>, star: nat) {
    StarFits(target, star) &&
    (prior.Some? ==> StarFits(prior.value, star)) &&
    (following.Some? ==> StarFits(following.value, star)) &&
    |GearNumbers(target, prior, following, star)| <= 2
  }

  /** The numbers next to a star: from the line before, the star's own line, the line after. */
  function GearNumbers(target: string, prior: Option<string>, following: Option<string>, star: nat): seq<nat> {
    (if prior.Some? && StarFits(prior.value, star) then AdjacentNumbers(prior.value, star) else []) +
    (if StarFits(target, star) then AdjacentNumbers(target, star) else []) +
    (if following.Some? && StarFits(following.value, star) then AdjacentNumbers(following.value, star) else [])
  }

  predicate AllStarsOk(target: string, prior: Option<string>, following: Option<string>) {
    forall k :: 0 <= k < |Stars(target)| ==> StarOk(target, prior, following, Stars(target)[k])
  }

  /** The numbers next to each star of the line, star by star. */
  function GearLists(target: string, prior: Option<string>, following: Option<string>): (gs: seq<seq<nat>>)
    ensures |gs| == |Stars(target)|
  {
    seq(|Stars(target)|, j requires 0 <= j < |Stars(target)| => GearNumbers(target, prior, following, Stars(target)[j]))
  }

  /** The ratios for a list of gear candidates: a product for every candidate with exactly
      two numbers, in order. */
  function RatiosOf(gears: seq<seq<nat>>): (rs: seq<nat>)
    ensures |rs| <= |gears|
  {
    if gears == [] then []
    else
      var g := gears[|gears| - 1];
      var rs := RatiosOf(gears[..|gears| - 1]);
      if |g| == 2 then rs + [Mul(g[0], g[1])] else rs
  }

  function Mul(a: nat, b: nat): nat {
    a * b
  }

  /** The ratios of the first k + 1 candidates extend those of the first k. */
  lemma RatiosOfSnoc(gears: seq<seq<nat>>, k: nat)
    requires k < |gears|
    ensures RatiosOf(gears[..k + 1]) ==
      if |gears[k]| == 2 then RatiosOf(gears[..k]) + [Mul(gears[k][0], gears[k][1])] else RatiosOf(gears[..k])
  {
    assert gears[..k + 1][..k] == gears[..k];
  }

  /** v is the product of the two numbers of some candidate with exactly two. */
  predicate FromCandidate(gears: seq<seq<nat>>, v: nat) {
    exists j :: 0 <= j < |gears| && |gears[j]| == 2 && v == Mul(gears[j][0], gears[j][1])
  }

  /** Every ratio comes from a candidate with exactly two numbers, and every such candidate
      gives its ratio. */
  lemma {:induction false} RatiosOfMembers(gears: seq<seq<nat>>)
    ensures forall m :: 0 <= m < |RatiosOf(gears)| ==> FromCandidate(gears, RatiosOf(gears)[m])
    ensures forall j :: 0 <= j < |gears| && |gears[j]| == 2 ==> Mul(gears[j][0], gears[j][1]) in RatiosOf(gears)
  {
    if gears != [] {
      var init := gears[..|gears| - 1];
      RatiosOfMembers(init);
      var rs := RatiosOf(gears);
      forall m | 0 <= m < |rs|
        ensures FromCandidate(gears, rs[m])
      {
        if m < |RatiosOf(init)| {
          assert rs[m] == RatiosOf(init)[m];
          assert FromCandidate(init, rs[m]);
          var j :| 0 <= j < |init| && |init[j]| == 2 && rs[m] == Mul(init[j][0], init[j][1]);
          assert init[j] == gears[j];
        } else {
          var last := |gears| - 1;
          assert |gears[last]| == 2 && rs[m] == Mul(gears[last][0], gears[last][1]);
        }
      }
      forall j | 0 <= j < |gears| && |gears[j]| == 2
        ensures Mul(gears[j][0], gears[j][1]) in rs
      {
        if j < |init| {
          assert init[j] == gears[j];
        }
      }
    }
  }

  /** v is the ratio of the gear at the j-th star of the line. */
  predicate IsGearRatio(target: string, prior: Option<string>, following: Option<string>, j: nat, v: nat)
    requires j < |Stars(target)|
  {
    var g := GearNumbers(target, prior, following, Stars(target)[j]);
    |g| == 2 && v == Mul(g[0], g[1])
  }

  /** v is the ratio of the gear at one of the stars of the line. */
  predicate RatioOfSomeGear(target: string, prior: Option<string>, following: Option<string>, v: nat) {
    exists j :: 0 <= j < |Stars(target)| && IsGearRatio(target, prior, following, j, v)
  }

  /** Every ratio of the line is the product of the two numbers next to one of its stars,
      and every star with exactly two numbers next to it gives its product. */
  lemma RatiosAreGearProducts(target: string, prior: Option<string>, following: Option<string>)
    ensures forall m :: 0 <= m < |RatiosOf(GearLists(target, prior, following))| ==>
              RatioOfSomeGear(target, prior, following, RatiosOf(GearLists(target, prior, following))[m])
    ensures forall j, v :: 0 <= j < |Stars(target)| && IsGearRatio(target, prior, following, j, v) ==>
              v in RatiosOf(GearLists(target, prior, following))
  {
    var gs := GearLists(target, prior, following);
    RatiosOfMembers(gs);
    forall m | 0 <= m < |RatiosOf(gs)|
      ensures RatioOfSomeGear(target, prior, following, RatiosOf(gs)[m])
    {
      assert FromCandidate(gs, RatiosOf(gs)[m]);
      var j :| 0 <= j < |gs| && |gs[j]| == 2 && RatiosOf(gs)[m] == Mul(gs[j][0], gs[j][1]);
      assert gs[j] == GearNumbers(target, prior, following, Stars(target)[j]);
      assert IsGearRatio(target, prior, following, j, RatiosOf(gs)[m]);
    }
    forall j, v | 0 <= j < |Stars(target)| && IsGearRatio(target, prior, following, j, v)
      ensures v in RatiosOf(gs)
    {
      assert gs[j] == GearNumbers(target, prior, following, Stars(target)[j]);
    }
  }

  /** One iteration of `check_for_gears`: the numbers next to the star from the three lines. */
  method CollectGearNumbers(target: string, prior: Option<string>, following: Option<string>, star: nat)
    returns (gear: seq<nat>)
    requires StarFits(target, star)
    requires prior.Some? ==> StarFits(prior.value, star)
    requires following.Some? ==> StarFits(following.value, star)
    ensures gear == GearNumbers(target, prior, following, star)
  {
    gear := [];
    if prior.Some? {
      var ns := ExtractAdjacentNumbers(prior.value, star);
      gear := gear + ns;
    }
    ghost var above := gear;
    assert above == if prior.Some? && StarFits(prior.value, star) then AdjacentNumbers(prior.value, star) else [];
    var mine := ExtractAdjacentNumbers(target, star);
    gear := gear + mine;
    if following.Some? {
      var ns := ExtractAdjacentNumbers(following.value, star);
      gear := gear + ns;
    } else {
      assert gear + [] == gear;
    }
  }

  /** `check_for_gears`: the gear ratios of the target line, left to right. */
  method CheckForGears(target: string, prior: Option<string>, following: Option<string>) returns (ratios: seq<nat>)
    requires AllStarsOk(target, prior, following)
    ensures ratios == RatiosOf(GearLists(target, prior, following))
  {
    var stars := Stars(target);
    ghost var gears := GearLists(target, prior, following);
    ratios := [];
    for k := 0 to |stars|
      invariant ratios == RatiosOf(gears[..k])
    {
      ratios := AddGearRatio(target, prior, following, k, ratios);
    }
    assert gears[..|stars|] == gears;
  }

  /** The body of the loop in `check_for_gears` for the k-th star. */
  method AddGearRatio(target: string, prior: Option<string>, following: Option<string>, k: nat, before: seq<nat>)
    returns (ratios: seq<nat>)
    requires k < |Stars(target)| && AllStarsOk(target, prior, following)
    requires before == RatiosOf(GearLists(target, prior, following)[..k])
    ensures ratios == RatiosOf(GearLists(target, prior, following)[..k + 1])
  {
    assert StarOk(target, prior, following, Stars(target)[k]);
    var gear := CollectGearNumbers(target, prior, following, Stars(target)[k]);
    RatiosOfSnoc(GearLists(target, prior, following), k);
    assert gear == GearLists(target, prior, following)[k];
    ratios := before;
    if |gear| == 2 {
      ratios := ratios + [Mul(gear[0], gear[1])];
    }
  }
}
