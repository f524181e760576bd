/** Day 13: notes of rock and ash. A mirror lies between two neighbouring lines when every
    pair of lines at the same distance from it, as far as both exist, is equal (part one), or
    when those pairs differ in exactly one cell in all (part two, the smudge). Each line of
    the source is compared through a hash of it; the model compares the lines themselves. */
module Day13 {
  import opened Common

  datatype MapEntry = Rock | Ash

  /** `MapEntry::from_char`: `#` and `.`; any other character panics (None). */
  function EntryFromChar(c: char): (r: Option<MapEntry>)
    ensures r == Some(Rock) <==> c == '#'
    ensures r == Some(Ash) <==> c == '.'
    ensures r.None? <==> c != '#' && c != '.'
  {
    if c == '#' then Some(Rock) else if c == '.' then Some(Ash) else None
  }

  type Line = seq<MapEntry>

  /** The number of positions of a at which b holds something else. */
  function DiffCount(a: Line, b: Line): (d: nat)
    requires |a| <= |b|
    ensures d <= |a|
  {
    if a == [] then 0
    else DiffCount(a[..|a| - 1], b) + (if a[|a| - 1] != b[|a| - 1] then 1 else 0)
  }

  /** `get_line_difference_count`: walk a, reading b at the same index (the source panics
      when b is shorter). */
  method LineDifferenceCount(a: Line, b: Line) returns (count: nat)
    requires |a| <= |b|
    ensures count == DiffCount(a, b)
  {
    count := 0;
    for i := 0 to |a|
      invariant count == DiffCount(a[..i], b)
    {
      assert a[..i + 1][..i] == a[..i];
      if a[i] != b[i] {
        count := count + 1;
      }
    }
    assert a[..|a|] == a;
  }

  /** Lines of the same length differ nowhere exactly when they are equal. */
  lemma {:induction false} DiffCountZero(a: Line, b: Line)
    requires |a| == |b|
    ensures DiffCount(a, b) == 0 <==> a == b
  {
    if a != [] {
      var n := |a| - 1;
      DiffCountPrefix(a[..n], b);
      DiffCountZero(a[..n], b[..n]);
      if a[..n] == b[..n] && a[n] == b[n] {
        assert a == a[..n] + [a[n]] && b == b[..n] + [b[n]];
      }
    }
  }

  /** Only the first |a| cells of b are read. */
  lemma {:induction false} DiffCountPrefix(a: Line, b: Line)
    requires |a| <= |b|
    ensures DiffCount(a, b) == DiffCount(a, b[..|a|])
  {
    if a != [] {
      DiffCountPrefix(a[..|a| - 1], b);
      DiffCountPrefix(a[..|a| - 1], b[..|a|]);
      assert b[..|a|][..|a| - 1] == b[..|a| - 1];
    }
  }

  /** The count does not depend on which line is walked. */
  lemma {:induction false} DiffCountSymmetric(a: Line, b: Line)
    requires |a| == |b|
    ensures DiffCount(a, b) == DiffCount(b, a)
  {
    if a != [] {
      var n := |a| - 1;
      DiffCountPrefix(a[..n], b);
      DiffCountPrefix(b[..n], a);
      DiffCountSymmetric(a[..n], b[..n]);
    }
  }

  /** How many mirrored pairs (p - k, p + 1 + k) lie within n lines: the number of turns of
      the `while (a >= 0) && (b < len)` loops. */
  function Reach(n: nat, p: nat): (r: nat)
    ensures r <= p + 1 && (r == 0 || p + r < n)
    ensures p + 1 < n ==> r > 0
    ensures r == p + 1 || p + r + 1 >= n
  {
    if p + 1 >= n then 0 else if p + 1 <= n - 1 - p then p + 1 else n - 1 - p
  }

  /** The k-th mirrored pair around the gap after line p is equal. */
  predicate PairEqual(lines: seq<Line>, p: nat, k: nat)
    requires k <= p && p + 1 + k < |lines|
  {
    lines[p - k] == lines[p + 1 + k]
  }

  /** Every mirrored pair of lines around the gap after line p is equal. */
  predicate Perfect(lines: seq<Line>, p: nat) {
    forall k :: 0 <= k < Reach(|lines|, p) ==> PairEqual(lines, p, k)
  }

  /** The first k mirrored pairs are equal. */
  predicate PerfectUpTo(lines: seq<Line>, p: nat, k: nat)
    requires k <= Reach(|lines|, p)
  {
    forall j :: 0 <= j < k ==> PairEqual(lines, p, j)
  }

  lemma PerfectUpToStep(lines: seq<Line>, p: nat, k: nat)
    requires k < Reach(|lines|, p)
    ensures PerfectUpTo(lines, p, k + 1) <==> PerfectUpTo(lines, p, k) && PairEqual(lines, p, k)
  {
  }

  /** `is_reflection_perfect`: the source does not stop at the first mismatch, it keeps
      and-ing the comparisons until a pair falls outside. */
  method IsReflectionPerfect(lines: seq<Line>, p: nat) returns (matched: bool)
    ensures matched == Perfect(lines, p)
  {
    var a: int := p;
    var b := p + 1;
    matched := true;
    ghost var k: nat := 0;
    while a >= 0 && b < |lines|
      invariant k <= Reach(|lines|, p)
      invariant a == p - k && b == p + 1 + k
      invariant matched == PerfectUpTo(lines, p, k)
      decreases a
    {
      PerfectUpToStep(lines, p, k);
      matched := matched && lines[a] == lines[b];
      a, b, k := a - 1, b + 1, k + 1;
    }
  }

  /** The differences of the first k mirrored pairs; a pair whose lines are equal (whose
      hashes agree, in the source) adds nothing without being counted. */
  function SmudgeSum(lines: seq<Line>, w: nat, p: nat, k: nat): nat
    requires Rect(lines, w) && k <= Reach(|lines|, p)
  {
    if k == 0 then 0
    else
      var x, y := lines[p - (k - 1)], lines[p + k];
      SmudgeSum(lines, w, p, k - 1) + (if x != y then DiffCount(x, y) else 0)
  }

  /** The mirror after line p is off by exactly one cell. */
  predicate Smudged(lines: seq<Line>, w: nat, p: nat)
    requires Rect(lines, w)
  {
    SmudgeSum(lines, w, p, Reach(|lines|, p)) == 1
  }

  /** `is_reflection_with_single_smudge`. */
  method IsReflectionWithSingleSmudge(lines: seq<Line>, w: nat, p: nat) returns (single: bool)
    requires Rect(lines, w)
    ensures single == Smudged(lines, w, p)
  {
    var a: int := p;
    var b := p + 1;
    var smudgeCount: nat := 0;
    ghost var k: nat := 0;
    while a >= 0 && b < |lines|
      invariant k <= Reach(|lines|, p)
      invariant a == p - k && b == p + 1 + k
      invariant smudgeCount == SmudgeSum(lines, w, p, k)
      decreases a
    {
      if lines[a] != lines[b] {
        var d := LineDifferenceCount(lines[a], lines[b]);
        smudgeCount := smudgeCount + d;
      }
      a, b, k := a - 1, b + 1, k + 1;
    }
    single := smudgeCount == 1;
  }

  /** The pairs add up to nothing exactly when they are all equal. */
  lemma {:induction false} SmudgeSumZero(lines: seq<Line>, w: nat, p: nat, k: nat)
    requires Rect(lines, w) && k <= Reach(|lines|, p)
    ensures SmudgeSum(lines, w, p, k) == 0 <==> PerfectUpTo(lines, p, k)
  {
    if k > 0 {
      SmudgeSumZero(lines, w, p, k - 1);
      PerfectUpToStep(lines, p, k - 1);
      DiffCountZero(lines[p - (k - 1)], lines[p + k]);
    }
  }

  /** A perfect mirror has no difference at all, so no mirror is both perfect and smudged. */
  lemma PerfectIsNotSmudged(lines: seq<Line>, w: nat, p: nat)
    requires Rect(lines, w)
    ensures Perfect(lines, p) <==> SmudgeSum(lines, w, p, Reach(|lines|, p)) == 0
    ensures Perfect(lines, p) ==> !Smudged(lines, w, p)
  {
    SmudgeSumZero(lines, w, p, Reach(|lines|, p));
  }

  lemma {:induction false} SmudgeSumGrows(lines: seq<Line>, w: nat, p: nat, k: nat)
    requires Rect(lines, w) && 1 <= k <= Reach(|lines|, p)
    ensures SmudgeSum(lines, w, p, 1) <= SmudgeSum(lines, w, p, k)
  {
    if k > 1 {
      SmudgeSumGrows(lines, w, p, k - 1);
    }
  }

  /** The cheap test of the first loop of `find_reflection`: line p + 1 equals line p or
      differs from it in one cell. */
  predicate IsCandidate(lines: seq<Line>, w: nat, p: nat)
    requires Rect(lines, w)
  {
    p + 1 < |lines| && (lines[p + 1] == lines[p] || DiffCount(lines[p + 1], lines[p]) == 1)
  }

  /** Every mirror position, perfect or smudged, passes the cheap test, so testing only
      the candidates loses nothing. */
  lemma MirrorsAreCandidates(lines: seq<Line>, w: nat, p: nat)
    requires Rect(lines, w) && p + 1 < |lines|
    requires Perfect(lines, p) || Smudged(lines, w, p)
    ensures IsCandidate(lines, w, p)
  {
    var x, y := lines[p], lines[p + 1];
    if x != y {
      assert !PairEqual(lines, p, 0);
      SmudgeSumGrows(lines, w, p, Reach(|lines|, p));
      assert SmudgeSum(lines, w, p, 1) == DiffCount(x, y);
      DiffCountSymmetric(x, y);
      DiffCountZero(x, y);
    }
  }

  /** The candidates below k, in increasing order. */
  function Candidates(lines: seq<Line>, w: nat, k: nat): (r: seq<nat>)
    requires Rect(lines, w)
    ensures |r| <= k
  {
    if k == 0 then [] else Candidates(lines, w, k - 1) + (if IsCandidate(lines, w, k - 1) then [k - 1] else [])
  }

  /** The candidates below k are exactly the positions below k that pass the test, in
      increasing order. */
  lemma {:induction false} CandidatesExact(lines: seq<Line>, w: nat, k: nat)
    requires Rect(lines, w)
    ensures forall p: nat :: p in Candidates(lines, w, k) <==> p < k && IsCandidate(lines, w, p)
    ensures forall i, j :: 0 <= i < j < |Candidates(lines, w, k)| ==> Candidates(lines, w, k)[i] < Candidates(lines, w, k)[j]
    ensures forall i :: 0 <= i < |Candidates(lines, w, k)| ==> Candidates(lines, w, k)[i] < k
  {
    if k > 0 {
      CandidatesExact(lines, w, k - 1);
    }
  }

  /** A mirror after line p, perfect or smudged as asked. */
  predicate Mirror(lines: seq<Line>, w: nat, p: nat, smudged: bool)
    requires Rect(lines, w)
  {
    if smudged then Smudged(lines, w, p) else Perfect(lines, p)
  }

  /** The first mirror position at or after `from`. */
  function FirstMirror(lines: seq<Line>, w: nat, from: nat, smudged: bool): (r: Option<nat>)
    requires Rect(lines, w)
    ensures r.Some? ==> from <= r.value && r.value + 1 < |lines| && Mirror(lines, w, r.value, smudged)
    ensures forall q :: from <= q && q + 1 < |lines| && (r.None? || q < r.value) ==> !Mirror(lines, w, q, smudged)
    decreases |lines| - from
  {
    if from + 1 >= |lines| then None
    else if Mirror(lines, w, from, smudged) then Some(from)
    else FirstMirror(lines, w, from + 1, smudged)
  }

  /** The second loops of `find_reflection`: the first candidate that is a mirror. */
  method FirstMirrorAmong(lines: seq<Line>, w: nat, candidates: seq<nat>, smudged: bool) returns (found: Option<nat>)
    requires Rect(lines, w) && candidates == Candidates(lines, w, |lines|)
    ensures found == FirstMirror(lines, w, 0, smudged)
  {
    found := None;
    var i := 0;
    while i < |candidates|
      invariant 0 <= i <= |candidates|
      invariant forall j :: 0 <= j < i ==> !Mirror(lines, w, candidates[j], smudged)
    {
      var p := candidates[i];
      var m: bool;
      if smudged {
        m := IsReflectionWithSingleSmudge(lines, w, p);
      } else {
        m := IsReflectionPerfect(lines, p);
      }
      if m {
        found := Some(p);
        NoEarlierMirror(lines, w, candidates, i, smudged);
        return;
      }
      i := i + 1;
    }
    NoEarlierMirror(lines, w, candidates, |candidates|, smudged);
  }

  /** If none of the first i candidates is a mirror, no position below the i-th candidate is. */
  lemma NoEarlierMirror(lines: seq<Line>, w: nat, candidates: seq<nat>, i: nat, smudged: bool)
    requires Rect(lines, w) && candidates == Candidates(lines, w, |lines|) && i <= |candidates|
    requires forall j :: 0 <= j < i ==> !Mirror(lines, w, candidates[j], smudged)
    requires i < |candidates| ==> Mirror(lines, w, candidates[i], smudged)
    ensures FirstMirror(lines, w, 0, smudged) == if i < |candidates| then Some(candidates[i]) else None
  {
    var r := FirstMirror(lines, w, 0, smudged);
    CandidatesExact(lines, w, |lines|);
    assert forall t :: 0 <= t < |candidates| ==> IsCandidate(lines, w, candidates[t]);
    if r.Some? {
      var q := r.value;
      MirrorsAreCandidates(lines, w, q);
      var j :| 0 <= j < |candidates| && candidates[j] == q;
      assert j >= i;
    }
  }

  /** `find_reflection`: the first perfect and the first smudged mirror position. The source
      takes the first line without checking (`unwrap`), so there must be one. */
  method FindReflection(lines: seq<Line>, w: nat) returns (perfect: Option<nat>, smudged: Option<nat>)
    requires |lines| > 0 && Rect(lines, w)
    ensures perfect == FirstMirror(lines, w, 0, false)
    ensures smudged == FirstMirror(lines, w, 0, true)
  {
    var hashes := [lines[0]];
    var positions: seq<nat> := [];
    for p := 0 to |lines| - 1
      invariant hashes == lines[..p + 1]
      invariant positions == Candidates(lines, w, p)
    {
      var line := lines[p + 1];
      positions := PushCandidate(lines, w, p, line == hashes[|hashes| - 1], positions);
      hashes := hashes + [line];
      assert lines[..p + 2] == lines[..p + 1] + [line];
    }
    perfect := FirstMirrorAmong(lines, w, positions, false);
    smudged := FirstMirrorAmong(lines, w, positions, true);
  }

  /** One step of the first loop of `find_reflection`: keep p when line p + 1 repeats the
      previous line (`same`) or differs from it in one cell. */
  method PushCandidate(lines: seq<Line>, w: nat, p: nat, same: bool, before: seq<nat>) returns (positions: seq<nat>)
    requires Rect(lines, w) && p + 1 < |lines| && same == (lines[p + 1] == lines[p])
    requires before == Candidates(lines, w, p)
    ensures positions == Candidates(lines, w, p + 1)
  {
    var d := LineDifferenceCount(lines[p + 1], lines[p]);
    positions := before;
    if same || d == 1 {
      positions := positions + [p];
    }
  }

  /** What one note adds to the summary: the position of a vertical mirror plus one, and a
      hundred times the position of a horizontal mirror plus one. */
  function Score(vertical: Option<nat>, horizontal: Option<nat>): nat {
    (if vertical.Some? then vertical.value + 1 else 0) + (if horizontal.Some? then 100 * (horizontal.value + 1) else 0)
  }

  /** The summary arithmetic of `parse_input` for one note: part one scores the perfect
      mirrors, part two the smudged ones. */
  method SummariseNote(rows: seq<Line>, w: nat) returns (partA: nat, partB: nat)
    requires |rows| > 0 && w > 0 && Rect(rows, w)
    ensures partA == Score(FirstMirror(Transpose(rows, w), |rows|, 0, false), FirstMirror(rows, w, 0, false))
    ensures partB == Score(FirstMirror(Transpose(rows, w), |rows|, 0, true), FirstMirror(rows, w, 0, true))
  {
    var verticalA, verticalB := FindReflection(Transpose(rows, w), |rows|);
    var horizontalA, horizontalB := FindReflection(rows, w);
    partA, partB := 0, 0;
    if verticalA.Some? {
      partA := partA + verticalA.value + 1;
    }
    if horizontalA.Some? {
      partA := partA + 100 * (horizontalA.value + 1);
    }
    if verticalB.Some? {
      partB := partB + verticalB.value + 1;
    }
    if horizontalB.Some? {
      partB := partB + 100 * (horizontalB.value + 1);
    }
  }
}
