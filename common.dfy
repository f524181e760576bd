/** Small helpers shared by the day modules: an optional value, decimal digits and
    the value of a run of decimal digits, and sums over sequences. */
module Common {

  datatype Option<T> = None | Some(value: T)

  predicate IsDigit(c: char) {
    '0' <= c <= '9'
  }

  predicate AllDigits(s: string) {
    forall i :: 0 <= i < |s| ==> IsDigit(s[i])
  }

  /** The value of one decimal digit character. */
  function DigitValue(c: char): (d: nat)
    requires IsDigit(c)
    ensures d < 10
    ensures DigitChar(d) == c
  {
    (c as int) - ('0' as int)
  }

  /** The character of a decimal digit value. */
  function DigitChar(d: nat): (c: char)
    requires d < 10
    ensures IsDigit(c)
    ensures (c as int) - ('0' as int) == d
  {
    (('0' as int) + d) as char
  }

  /** The value of a (possibly empty) string of decimal digits, most significant first. */
  function DecimalValue(s: string): nat
    requires AllDigits(s)
  {
    if s == [] then 0 else 10 * DecimalValue(s[..|s| - 1]) + DigitValue(s[|s| - 1])
  }

  /** Appending a digit shifts the value one decimal place up. */
  lemma DecimalValueAppend(s: string, c: char)
    requires AllDigits(s) && IsDigit(c)
    ensures AllDigits(s + [c])
    ensures DecimalValue(s + [c]) == 10 * DecimalValue(s) + DigitValue(c)
  {
    assert (s + [c])[..|s|] == s;
  }

  /** The shortest decimal representation of n, as Rust's `to_string` writes it. */
  function DecimalString(n: nat): (s: string)
    ensures |s| > 0 && AllDigits(s)
    ensures DecimalValue(s) == n
  {
    if n < 10 then
      assert [DigitChar(n)][..0] == [];
      [DigitChar(n)]
    else
      DecimalValueAppend(DecimalString(n / 10), DigitChar(n % 10));
      DecimalString(n / 10) + [DigitChar(n % 10)]
  }

  /** The decimal value of a digit string is below 10 to the power of its length. */
  lemma {:induction false} DecimalValueBound(s: string)
    requires AllDigits(s)
    ensures DecimalValue(s) < Pow(10, |s|)
  {
    if s != [] {
      DecimalValueBound(s[..|s| - 1]);
    }
  }

  function Pow(b: nat, e: nat): (r: nat)
    ensures b > 0 ==> r > 0
  {
    if e == 0 then 1 else b * Pow(b, e - 1)
  }

  function Sum(s: seq<int>): int {
    if s == [] then 0 else Sum(s[..|s| - 1]) + s[|s| - 1]
  }

  lemma SumAppend(s: seq<int>, x: int)
    ensures Sum(s + [x]) == Sum(s) + x
  {
    assert (s + [x])[..|s|] == s;
  }

  /** Sum taken from the front: the first element plus the sum of the rest. */
  lemma {:induction false} SumCons(x: int, s: seq<int>)
    ensures Sum([x] + s) == x + Sum(s)
    decreases |s|
  {
    if s != [] {
      var t := s[..|s| - 1];
      SumCons(x, t);
      assert ([x] + s)[..|s|] == [x] + t;
    }
  }

  function Max(a: int, b: int): int {
    if a >= b then a else b
  }

  function Min(a: int, b: int): int {
    if a <= b then a else b
  }

  function Abs(a: int): (r: nat)
    ensures r == a || r == -a
  {
    if a >= 0 then a else -a
  }

  /** The first index of c in s. */
  function IndexOf(s: string, c: char): (i: nat)
    requires c in s
    ensures i < |s| && s[i] == c && c !in s[..i]
  {
    if s[0] == c then 0 else 1 + IndexOf(s[1..], c)
  }

  /** The pieces of s between occurrences of sep, as Rust's `str::split` gives them. */
  function Split(s: string, sep: char): (parts: seq<string>)
    ensures |parts| >= 1
    ensures forall k :: 0 <= k < |parts| ==> sep !in parts[k]
    decreases |s|
  {
    if sep !in s then [s]
    else
      var i := IndexOf(s, sep);
      [s[..i]] + Split(s[i + 1..], sep)
  }

  /** Joins pieces with sep between consecutive ones. */
  function Join(parts: seq<string>, sep: char): string
    requires |parts| >= 1
  {
    if |parts| == 1 then parts[0] else parts[0] + [sep] + Join(parts[1..], sep)
  }

  /** Splitting loses nothing: joining the pieces again gives the original string. */
  lemma {:induction false} JoinSplit(s: string, sep: char)
    ensures Join(Split(s, sep), sep) == s
    decreases |s|
  {
    if sep in s {
      var i := IndexOf(s, sep);
      var parts, rest := Split(s, sep), Split(s[i + 1..], sep);
      assert parts == [s[..i]] + rest;
      assert parts[0] == s[..i] && parts[1..] == rest;
      JoinSplit(s[i + 1..], sep);
      assert Join(parts, sep) == s[..i] + [sep] + s[i + 1..];
      assert s == s[..i] + [sep] + s[i + 1..];
    }
  }

  predicate StartsWith(s: string, prefix: string) {
    |prefix| <= |s| && s[..|prefix|] == prefix
  }

  /** The end of the run of decimal digits that starts at p. */
  function DigitRunEnd(s: string, p: nat): (q: nat)
    requires p <= |s|
    ensures p <= q <= |s|
    ensures AllDigits(s[p..q])
    ensures q < |s| ==> !IsDigit(s[q])
    decreases |s| - p
  {
    if p < |s| && IsDigit(s[p]) then DigitRunEnd(s, p + 1) else p
  }

  /** A run of digits followed by a non-digit ends at that non-digit. */
  lemma {:induction false} DigitRunEndAt(s: string, p: nat, q: nat)
    requires p <= q <= |s| && AllDigits(s[p..q]) && (q < |s| ==> !IsDigit(s[q]))
    ensures DigitRunEnd(s, p) == q
    decreases q - p
  {
    if p < q {
      assert s[p] == s[p..q][0];
      assert s[p + 1..q] == s[p..q][1..];
      DigitRunEndAt(s, p + 1, q);
    }
  }

  lemma MulAtLeast(a: int, n: int)
    requires a >= 1 && n > 0
    ensures a * n >= n
  {
  }

  /** The remainder is the one r with x == q * n + r and 0 <= r < n. */
  lemma ModUnique(x: int, q: int, r: int, n: int)
    requires n > 0 && 0 <= r < n && x == q * n + r
    ensures x % n == r
  {
    var q', r' := x / n, x % n;
    assert x == q' * n + r';
    assert (q - q') * n == r' - r;
    if q - q' >= 1 {
      MulAtLeast(q - q', n);
    } else if q' - q >= 1 {
      MulAtLeast(q' - q, n);
    }
  }

  /** `str::parse::<i32>`: an optional sign, then at least one decimal digit; anything
      else is an error (None). */
  function ParseInt(s: string): (r: Option<int>)
    ensures r.Some? ==> |s| > 0 && AllDigits(s[1..])
    ensures r.Some? && s[0] != '+' && s[0] != '-' ==> IsDigit(s[0])
    ensures r.Some? && r.value < 0 ==> s[0] == '-'
    ensures s != [] && AllDigits(s) ==> r == Some(DecimalValue(s))
    ensures |s| > 1 && (s[0] == '+' || s[0] == '-') && AllDigits(s[1..]) ==> r.Some?
  {
    if s == [] || ((s[0] == '+' || s[0] == '-') && |s| == 1) then None
    else if s[0] == '+' then (if AllDigits(s[1..]) then Some(DecimalValue(s[1..])) else None)
    else if s[0] == '-' then (if AllDigits(s[1..]) then var v: int := DecimalValue(s[1..]); Some(-v) else None)
    else if AllDigits(s) then Some(DecimalValue(s)) else None
  }

  /** Writing an integer in decimal and parsing it gives it back. */
  lemma ParseIntRoundTrip(n: nat)
    ensures ParseInt(DecimalString(n)) == Some(n)
    ensures ParseInt("-" + DecimalString(n)) == Some(-(n as int))
  {
    var ds := DecimalString(n);
    assert !IsDigit('-') && !IsDigit('+');
    assert ds[0] != '-' && ds[0] != '+';
    assert ("-" + ds)[1..] == ds;
  }

  /** An integer written in decimal, with a leading '-' when negative. */
  function IntString(v: int): (s: string)
    ensures |s| > 0
  {
    if v < 0 then "-" + DecimalString(-v) else DecimalString(v)
  }

  /** Writing any integer and parsing it gives it back. */
  lemma ParseIntString(v: int)
    ensures ParseInt(IntString(v)) == Some(v)
  {
    if v < 0 {
      ParseIntRoundTrip(-v);
    } else {
      ParseIntRoundTrip(v);
    }
  }

  /** The first separator in a + [sep] + b, when a has none, is right after a. */
  lemma IndexOfJoined(a: string, sep: char, b: string)
    requires sep !in a
    ensures IndexOf(a + [sep] + b, sep) == |a|
  {
    var s := a + [sep] + b;
    var i := IndexOf(s, sep);
    assert s[..|a| + 1][|a|] == sep;
    assert s[..|a|] == a;
  }

  /** Joining pieces free of the separator and splitting again gives the pieces back. */
  lemma {:induction false} SplitJoin(parts: seq<string>, sep: char)
    requires |parts| >= 1
    requires forall k :: 0 <= k < |parts| ==> sep !in parts[k]
    ensures Split(Join(parts, sep), sep) == parts
    decreases |parts|
  {
    if |parts| > 1 {
      var rest := Join(parts[1..], sep);
      SplitJoined(parts[0], sep, rest);
      SplitJoin(parts[1..], sep);
      assert parts == [parts[0]] + parts[1..];
    }
  }

  /** Splitting a piece free of the separator, the separator and a rest gives the piece
      followed by the pieces of the rest. */
  lemma SplitJoined(a: string, sep: char, rest: string)
    requires sep !in a
    ensures Split(a + [sep] + rest, sep) == [a] + Split(rest, sep)
  {
    var s := a + [sep] + rest;
    IndexOfJoined(a, sep, rest);
    assert s[..|a|] == a;
    assert s[|a| + 1..] == rest;
  }

  /** A sequence read back to front. */
  function Reverse<T>(s: seq<T>): (r: seq<T>)
    ensures |r| == |s| && forall k :: 0 <= k < |s| ==> r[k] == s[|s| - 1 - k]
  {
    seq(|s|, k requires 0 <= k < |s| => s[|s| - 1 - k])
  }

  lemma ReverseReverse<T>(s: seq<T>)
    ensures Reverse(Reverse(s)) == s
  {
  }

  lemma {:induction false} ReverseMultiset<T>(s: seq<T>)
    ensures multiset(Reverse(s)) == multiset(s)
  {
    if s != [] {
      ReverseMultiset(s[1..]);
      assert Reverse(s) == Reverse(s[1..]) + [s[0]];
      assert s == [s[0]] + s[1..];
    }
  }

  /** Every line has n cells, as in the rows or the columns of a rectangular grid. */
  predicate Rect<T>(lines: seq<seq<T>>, n: nat) {
    forall i :: 0 <= i < |lines| ==> |lines[i]| == n
  }

  /** A grid of the given number of rows, each of the given number of columns. */
  predicate IsGrid<T>(grid: seq<seq<T>>, rows: nat, columns: nat) {
    |grid| == rows && forall r :: 0 <= r < rows ==> |grid[r]| == columns
  }

  /** The columns of lines with n cells each (`as_columns`), and back (`from_columns`). */
  function Transpose<T>(lines: seq<seq<T>>, n: nat): (r: seq<seq<T>>)
    requires Rect(lines, n)
    ensures |r| == n && Rect(r, |lines|)
    ensures forall c, k :: 0 <= c < n && 0 <= k < |lines| ==> r[c][k] == lines[k][c]
  {
    seq(n, c requires 0 <= c < n => seq(|lines|, k requires 0 <= k < |lines| => lines[k][c]))
  }

  lemma TransposeTwice<T>(lines: seq<seq<T>>, n: nat)
    requires Rect(lines, n)
    ensures Transpose(Transpose(lines, n), |lines|) == lines
  {
    var t := Transpose(Transpose(lines, n), |lines|);
    forall k | 0 <= k < |lines|
      ensures t[k] == lines[k]
    {
    }
  }
}
