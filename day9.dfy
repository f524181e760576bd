/** Day 9: extrapolation by finite differences. A sequence is extended by one value so that
    each row of its difference table grows by one as well; reading the input backwards
    extrapolates the value before the first one. */
module Day9 {
  import opened Common

  /** The differences of neighbouring elements (`windows(2)` then `x[1] - x[0]`). */
  function Diffs(s: seq<int>): (d: seq<int>)
    ensures |s| > 0 ==> |d| == |s| - 1
    ensures |s| == 0 ==> d == []
  {
    if |s| < 2 then [] else seq(|s| - 1, i requires 0 <= i < |s| - 1 => s[i + 1] - s[i])
  }

  predicate AllZero(s: seq<int>) {
    forall i :: 0 <= i < |s| ==> s[i] == 0
  }

  /** `predict_next`: the last element, plus the prediction for the differences unless they
      are all zero. The source unwraps the last element, so the sequence must not be empty. */
  function Predict(s: seq<int>): int
    requires |s| > 0
    decreases |s|
  {
    if AllZero(Diffs(s)) then s[|s| - 1] else s[|s| - 1] + Predict(Diffs(s))
  }

  /** A constant sequence predicts its constant. */
  lemma PredictConstant(n: nat, c: int)
    requires n > 0
    ensures Predict(seq(n, i => c)) == c
  {
    var s := seq(n, i => c);
    assert AllZero(Diffs(s));
  }

  /** An arithmetic sequence predicts its last element plus the step. */
  lemma PredictArithmetic(n: nat, a: int, step: int)
    requires n > 0
    ensures Predict(seq(n, i => a + i * step)) == a + (n - 1) * step + (if n > 1 then step else 0)
  {
    var s := seq(n, i => a + i * step);
    var d := Diffs(s);
    if n > 1 {
      forall i | 0 <= i < |d|
        ensures d[i] == step
      {
        assert s[i + 1] - s[i] == (a + (i + 1) * step) - (a + i * step);
        assert (i + 1) * step == i * step + step;
      }
      assert d == seq(n - 1, i => step);
      if step != 0 {
        assert d[0] != 0;
        PredictConstant(n - 1, step);
      }
    } else {
      assert AllZero(d);
    }
  }

  /** The extension the prediction makes is the one that grows the difference row by the
      prediction for the differences (or by 0 when the differences are flat). */
  lemma PredictExtendsDifferences(s: seq<int>)
    requires |s| > 0
    ensures Diffs(s + [Predict(s)]) == Diffs(s) + [if AllZero(Diffs(s)) then 0 else Predict(Diffs(s))]
  {
    var p := Predict(s);
    var tail := if AllZero(Diffs(s)) then 0 else Predict(Diffs(s));
    assert p == s[|s| - 1] + tail;
    DiffsAppend(s, p);
    assert p - s[|s| - 1] == tail;
  }

  /** Appending x adds one difference, x minus the old last element. */
  lemma DiffsAppend(s: seq<int>, x: int)
    requires |s| > 0
    ensures Diffs(s + [x]) == Diffs(s) + [x - s[|s| - 1]]
  {
    var t := s + [x];
    var d, e := Diffs(t), Diffs(s) + [x - s[|s| - 1]];
    assert |d| == |e|;
    forall i | 0 <= i < |e|
      ensures d[i] == e[i]
    {
      if i < |s| - 1 {
        assert t[i + 1] == s[i + 1] && t[i] == s[i];
      } else {
        assert t[i + 1] == x && t[i] == s[|s| - 1];
      }
    }
  }

  function Negate(s: seq<int>): (r: seq<int>)
    ensures |r| == |s| && forall i :: 0 <= i < |s| ==> r[i] == -s[i]
  {
    seq(|s|, i requires 0 <= i < |s| => -s[i])
  }

  /** Negating the input negates the prediction. */
  lemma {:induction false} PredictNegate(s: seq<int>)
    requires |s| > 0
    ensures Predict(Negate(s)) == -Predict(s)
    decreases |s|
  {
    assert Diffs(Negate(s)) == Negate(Diffs(s));
    if !AllZero(Diffs(s)) {
      assert !AllZero(Diffs(Negate(s))) by {
        var i :| 0 <= i < |Diffs(s)| && Diffs(s)[i] != 0;
        assert Diffs(Negate(s))[i] != 0;
      }
      PredictNegate(Diffs(s));
    }
  }

  /** Backward extrapolation: the first element, minus the backward prediction for the
      differences unless they are all zero. */
  function PredictPrevious(s: seq<int>): int
    requires |s| > 0
    decreases |s|
  {
    if AllZero(Diffs(s)) then s[0] else s[0] - PredictPrevious(Diffs(s))
  }

  /** The differences of the reversed sequence are the reversed differences, negated; so
      they are flat exactly when the original differences are. */
  lemma ReversedDiffs(s: seq<int>)
    ensures Diffs(Reverse(s)) == Negate(Reverse(Diffs(s)))
    ensures AllZero(Diffs(Reverse(s))) <==> AllZero(Diffs(s))
  {
    var r, d := Reverse(s), Diffs(s);
    if |s| > 0 {
      var e := Negate(Reverse(d));
      assert |Diffs(r)| == |e|;
      forall i | 0 <= i < |e|
        ensures Diffs(r)[i] == e[i]
      {
        var n := |s|;
        assert Diffs(r)[i] == r[i + 1] - r[i];
        assert r[i + 1] == s[n - 2 - i] && r[i] == s[n - 1 - i];
        assert e[i] == -Reverse(d)[i] == -d[n - 2 - i];
      }
    }
    assert Diffs(r) == Negate(Reverse(d));
    if !AllZero(d) {
      var i :| 0 <= i < |d| && d[i] != 0;
      assert Diffs(r)[|d| - 1 - i] != 0;
    }
    if !AllZero(Diffs(r)) {
      var i :| 0 <= i < |Diffs(r)| && Diffs(r)[i] != 0;
      assert d[|d| - 1 - i] != 0;
    }
  }

  /** The reversal in `process_input`: predicting the next value of the reversed sequence
      is extrapolating the value before the first element. */
  lemma {:induction false} PredictReversed(s: seq<int>)
    requires |s| > 0
    ensures Predict(Reverse(s)) == PredictPrevious(s)
    decreases |s|
  {
    var d := Diffs(s);
    ReversedDiffs(s);
    if !AllZero(d) {
      PredictNegate(Reverse(d));
      PredictReversed(d);
    }
  }

  /** One line of `process_input`: the numbers are reversed before the prediction. */
  function LineResult(numbers: seq<int>): (r: int)
    requires |numbers| > 0
    ensures r == PredictPrevious(numbers)
  {
    PredictReversed(numbers);
    Predict(Reverse(numbers))
  }
}
