/** Day 1: calibration values. Every line yields the digits that appear in it, either
    as a decimal character or as a spelled-out word ("one" .. "nine") starting at that
    position; the line's value is its first digit followed by its last digit. */
module Day1 {
  import opened Common

  /** The spelled-out digits, in the order the search tries them. */
  const DigitWords: seq<(string, char)> := [
    ("one", '1'), ("two", '2'), ("three", '3'), ("four", '4'), ("five", '5'),
    ("six", '6'), ("seven", '7'), ("eight", '8'), ("nine", '9')
  ]

  /** The digit of the first word, from position k of the word list on, that s starts with. */
  function FirstWordDigit(s: string, k: nat): Option<char>
    requires k <= |DigitWords|
    decreases |DigitWords| - k
  {
    if k == |DigitWords| then None
    else if StartsWith(s, DigitWords[k].0) then Some(DigitWords[k].1)
    else FirstWordDigit(s, k + 1)
  }

  /** The search finds a word exactly when one of the remaining words is a prefix of s,
      and then it is the first such word in list order. */
  lemma {:induction false} FirstWordDigitIsFirstMatch(s: string, k: nat) returns (j: nat)
    requires k <= |DigitWords|
    ensures FirstWordDigit(s, k).None? <==> forall i :: k <= i < |DigitWords| ==> !StartsWith(s, DigitWords[i].0)
    ensures FirstWordDigit(s, k).Some? ==>
              k <= j < |DigitWords| && StartsWith(s, DigitWords[j].0) && FirstWordDigit(s, k).value == DigitWords[j].1
              && forall i :: k <= i < j ==> !StartsWith(s, DigitWords[i].0)
    decreases |DigitWords| - k
  {
    if k == |DigitWords| {
      j := k;
    } else if StartsWith(s, DigitWords[k].0) {
      j := k;
    } else {
      j := FirstWordDigitIsFirstMatch(s, k + 1);
    }
  }

  /** Every word on the list stands for a digit from 1 to 9. */
  lemma {:induction false} FirstWordDigitRange(s: string, k: nat)
    requires k <= |DigitWords|
    ensures FirstWordDigit(s, k).Some? ==> '1' <= FirstWordDigit(s, k).value <= '9'
    decreases |DigitWords| - k
  {
    if k < |DigitWords| && !StartsWith(s, DigitWords[k].0) {
      FirstWordDigitRange(s, k + 1);
    }
  }

  /** `digit_string_check`: the digit of the first listed word that s starts with, if any. */
  function DigitStringCheck(s: string): (r: Option<char>)
    ensures r.Some? ==> '1' <= r.value <= '9'
  {
    FirstWordDigitRange(s, 0);
    FirstWordDigit(s, 0)
  }

  /** The digit contributed by position i of the line, if any. */
  function DigitAt(line: string, i: nat): Option<char>
    requires i < |line|
  {
    if IsDigit(line[i]) then Some(line[i]) else DigitStringCheck(line[i..])
  }

  /** The digits of the first n positions of the line, left to right. */
  function DigitsUpTo(line: string, n: nat): (ds: string)
    requires n <= |line|
    ensures |ds| <= n
    ensures forall i :: 0 <= i < |ds| ==> IsDigit(ds[i])
  {
    if n == 0 then []
    else
      var ds := DigitsUpTo(line, n - 1);
      match DigitAt(line, n - 1)
      case Some(d) => ds + [d]
      case None => ds
  }

  function Digits(line: string): string {
    DigitsUpTo(line, |line|)
  }

  /** The per-line loop of `run`: visit every position and push the digit it yields. */
  method ExtractDigits(line: string) returns (digits: string)
    ensures digits == Digits(line)
    ensures forall i :: 0 <= i < |digits| ==> IsDigit(digits[i])
  {
    digits := [];
    var i := 0;
    while i < |line|
      invariant 0 <= i <= |line|
      invariant digits == DigitsUpTo(line, i)
    {
      if IsDigit(line[i]) {
        digits := digits + [line[i]];
      } else {
        var w := DigitStringCheck(line[i..]);
        if w.Some? {
          digits := digits + [w.value];
        }
      }
      i := i + 1;
    }
  }

  /** A line of digit characters only is its own digit list. */
  lemma {:induction false} NumericLineDigits(line: string, n: nat)
    requires n <= |line|
    requires AllDigits(line)
    ensures DigitsUpTo(line, n) == line[..n]
  {
    if n > 0 {
      NumericLineDigits(line, n - 1);
      assert line[..n] == line[..n - 1] + [line[n - 1]];
    }
  }

  /** A decimal character anywhere in the line makes the digit list non-empty. */
  lemma {:induction false} DigitMakesDigits(line: string, n: nat, i: nat)
    requires i < n <= |line| && IsDigit(line[i])
    ensures |DigitsUpTo(line, n)| > 0
  {
    if i < n - 1 {
      DigitMakesDigits(line, n - 1, i);
    } else {
      assert DigitAt(line, n - 1) == Some(line[i]);
    }
  }

  /** A word spelled out at a non-digit position i contributes that word's digit, whatever
      follows it: no two words share their first two letters, so no other word competes. */
  lemma WordAtPosition(line: string, i: nat, k: nat)
    requires i < |line| && k < |DigitWords| && !IsDigit(line[i])
    requires StartsWith(line[i..], DigitWords[k].0)
    ensures DigitAt(line, i) == Some(DigitWords[k].1)
  {
    var s := line[i..];
    var j := FirstWordDigitIsFirstMatch(s, 0);
    assert FirstWordDigit(s, 0).Some?;
    assert s[0] == DigitWords[j].0[0] == DigitWords[k].0[0];
    assert s[1] == DigitWords[j].0[1] == DigitWords[k].0[1];
    assert j == k;
  }

  /** The calibration value of a line: first digit times ten plus last digit. The source
      unwraps the first and last digit, so a line without digits panics. */
  function LineValue(line: string): (v: nat)
    requires |Digits(line)| > 0
    ensures v == 10 * DigitValue(Digits(line)[0]) + DigitValue(Digits(line)[|Digits(line)| - 1])
    ensures v <= 99
    ensures |Digits(line)| == 1 ==> v == 11 * DigitValue(Digits(line)[0])
  {
    var ds := Digits(line);
    var s := [ds[0], ds[|ds| - 1]];
    DecimalValueAppend([ds[0]], ds[|ds| - 1]);
    assert DecimalValue([ds[0]]) == DigitValue(ds[0]) by {
      assert [ds[0]][..0] == [];
    }
    assert s == [ds[0]] + [ds[|ds| - 1]];
    DecimalValue(s)
  }

  /** The sum over all lines that `run` prints. */
  method SumOfLines(lines: seq<string>) returns (total: int)
    requires forall k :: 0 <= k < |lines| ==> |Digits(lines[k])| > 0
    ensures total == Sum(seq(|lines|, k requires 0 <= k < |lines| => LineValue(lines[k])))
  {
    total := 0;
    var k := 0;
    ghost var vals: seq<int> := [];
    while k < |lines|
      invariant 0 <= k <= |lines|
      invariant vals == seq(k, j requires 0 <= j < k => LineValue(lines[j]))
      invariant total == Sum(vals)
    {
      var ds := ExtractDigits(lines[k]);
      var v := 10 * DigitValue(ds[0]) + DigitValue(ds[|ds| - 1]);
      SumAppend(vals, v);
      vals := vals + [v];
      total := total + v;
      k := k + 1;
    }
    assert vals == seq(|lines|, j requires 0 <= j < |lines| => LineValue(lines[j]));
  }
}
