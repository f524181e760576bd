/** Day 4: scratchcards. A card line "Card 1: 41 48 83 | 83 86 6 48" holds winning numbers
    and the numbers scratched; a card scores 2^(k-1) points for k matches, and 0 for none
    or for a line that is not a card. */
module Day4 {
  import opened Common

  /** ASCII whitespace, as the card pattern's `\s` and `split_ascii_whitespace` see it. */
  predicate IsSpace(c: char) {
    c == ' ' || c == '\t' || c == '\n' || c == '\r' || c == 12 as char
  }

  /** The two character classes the card pattern repeats: blanks, and blanks or digits. */
  datatype CharClass = Blank | NumberText

  predicate InClass(c: char, k: CharClass) {
    match k
    case Blank => IsSpace(c)
    case NumberText => IsSpace(c) || IsDigit(c)
  }

  predicate AllInClass(s: string, k: CharClass) {
    forall i :: 0 <= i < |s| ==> InClass(s[i], k)
  }

  /** The end of the longest run of class k starting at p. */
  function ClassRunEnd(s: string, p: nat, k: CharClass): (q: nat)
    requires p <= |s|
    ensures p <= q <= |s|
    ensures AllInClass(s[p..q], k)
    ensures q < |s| ==> !InClass(s[q], k)
    decreases |s| - p
  {
    if p < |s| && InClass(s[p], k) then ClassRunEnd(s, p + 1, k) else p
  }

  /** A run of class k followed by a character outside it ends at that character. */
  lemma {:induction false} ClassRunEndAt(s: string, p: nat, q: nat, k: CharClass)
    requires p <= q <= |s| && AllInClass(s[p..q], k) && (q < |s| ==> !InClass(s[q], k))
    ensures ClassRunEnd(s, p, k) == q
    decreases q - p
  {
    if p < q {
      assert s[p] == s[p..q][0];
      assert s[p + 1..q] == s[p..q][1..];
      ClassRunEndAt(s, p + 1, q, k);
    }
  }

  /** Where the two named groups of a card match lie in the line: [winStart, winEnd) and
      [scratchStart, scratchEnd). */
  datatype Captures = Captures(winStart: nat, winEnd: nat, scratchStart: nat, scratchEnd: nat)

  predicate ValidCaptures(s: string, c: Captures) {
    c.winStart <= c.winEnd <= c.scratchStart <= c.scratchEnd <= |s| &&
    AllInClass(s[c.winStart..c.winEnd], NumberText) &&
    AllInClass(s[c.scratchStart..c.scratchEnd], NumberText)
  }

  /** The card pattern `Card\s*[0-9]+:\s*(([0-9]+\s*)+)\|\s+(([0-9]+\s*)+)` tried at
      position p: both groups start with a digit and run over digits and blanks, the
      first one up to the bar, the second one as far as it can. */
  function CardAt(s: string, p: nat): (r: Option<Captures>)
    requires p <= |s|
    ensures r.Some? ==> ValidCaptures(s, r.value)
  {
    if !StartsWith(s[p..], "Card") then None
    else
      var a := ClassRunEnd(s, p + 4, Blank);
      var b := DigitRunEnd(s, a);
      if b == a || b == |s| || s[b] != ':' then None
      else
        var w0 := ClassRunEnd(s, b + 1, Blank);
        var w1 := ClassRunEnd(s, w0, NumberText);
        if w0 == |s| || !IsDigit(s[w0]) || w1 == |s| || s[w1] != '|' then None
        else
          var t := ClassRunEnd(s, w1 + 1, Blank);
          if t == w1 + 1 || t == |s| || !IsDigit(s[t]) then None
          else Some(Captures(w0, w1, t, ClassRunEnd(s, t, NumberText)))
  }

  /** The leftmost match of the card pattern at or after p, as `captures` finds it. */
  function FirstCard(s: string, p: nat): (r: Option<Captures>)
    requires p <= |s|
    ensures r.Some? ==> ValidCaptures(s, r.value)
    decreases |s| - p
  {
    if CardAt(s, p).Some? then CardAt(s, p)
    else if p == |s| then None
    else FirstCard(s, p + 1)
  }

  /** `convert_number_capture_to_vector`: the blank-separated numbers of s, in order. */
  function Numbers(s: string): seq<nat>
    requires AllInClass(s, NumberText)
    decreases |s|
  {
    if s == [] then []
    else if IsSpace(s[0]) then Numbers(s[1..])
    else
      var q := DigitRunEnd(s, 0);
      [DecimalValue(s[..q])] + Numbers(s[q..])
  }

  /** Numbers written out one after another, each followed by a blank. */
  function Format(ns: seq<nat>): (s: string)
    ensures AllInClass(s, NumberText)
    ensures ns != [] ==> |s| > 0 && IsDigit(s[0]) && IsSpace(s[|s| - 1])
  {
    if ns == [] then "" else DecimalString(ns[0]) + " " + Format(ns[1..])
  }

  /** Reading numbers back from their written form gives the same numbers in the same
      order: parsing loses and invents nothing. */
  lemma {:induction false} NumbersFormat(ns: seq<nat>)
    ensures Numbers(Format(ns)) == ns
  {
    if ns != [] {
      var d := DecimalString(ns[0]);
      var rest := Format(ns[1..]);
      var s := d + " " + rest;
      assert s[..|d|] == d;
      assert s[0..|d|] == d;
      DigitRunEndAt(s, 0, |d|);
      assert s[|d|..] == " " + rest;
      assert (" " + rest)[1..] == rest;
      NumbersFormat(ns[1..]);
    }
  }

  /** How many times x occurs among the scratched numbers (the inner `filter().count()`). */
  function Occurrences(scratch: seq<nat>, x: nat): nat {
    multiset(scratch)[x]
  }

  /** The match count: over all winning numbers, their occurrences among the scratched ones. */
  function MatchCount(winning: seq<nat>, scratch: seq<nat>): nat {
    if winning == [] then 0
    else MatchCount(winning[..|winning| - 1], scratch) + Occurrences(scratch, winning[|winning| - 1])
  }

  /** A card has no matches exactly when no winning number was scratched. */
  lemma {:induction false} NoMatchesIffDisjoint(winning: seq<nat>, scratch: seq<nat>)
    ensures MatchCount(winning, scratch) == 0 <==> forall i :: 0 <= i < |winning| ==> winning[i] !in scratch
  {
    if winning != [] {
      var w := winning[..|winning| - 1];
      NoMatchesIffDisjoint(w, scratch);
      assert forall i :: 0 <= i < |w| ==> w[i] == winning[i];
    }
  }

  /** Every winning number counts at most once per scratched number. */
  lemma {:induction false} MatchCountBound(winning: seq<nat>, scratch: seq<nat>)
    ensures MatchCount(winning, scratch) <= |winning| * |scratch|
  {
    if winning != [] {
      MatchCountBound(winning[..|winning| - 1], scratch);
      assert |multiset(scratch)| == |scratch|;
      assert Occurrences(scratch, winning[|winning| - 1]) <= |scratch|;
    }
  }

  /** The loop of `parse_game_card` that accumulates `match_count`. */
  method CountMatches(winning: seq<nat>, scratch: seq<nat>) returns (count: nat)
    ensures count == MatchCount(winning, scratch)
  {
    count := 0;
    var i := 0;
    while i < |winning|
      invariant 0 <= i <= |winning|
      invariant count == MatchCount(winning[..i], scratch)
    {
      assert winning[..i + 1][..i] == winning[..i];
      count := count + Occurrences(scratch, winning[i]);
      i := i + 1;
    }
    assert winning[..i] == winning;
  }

  /** Points for k matches: nothing for none, then doubling from 1. */
  function Points(k: nat): (p: nat)
    ensures k == 0 <==> p == 0
    ensures k > 0 ==> p == Pow(2, k - 1)
  {
    if k == 0 then 0 else Pow(2, k - 1)
  }

  /** Every match after the first doubles the score. */
  lemma PointsDouble(k: nat)
    requires k >= 1
    ensures Points(k + 1) == 2 * Points(k)
  {
  }

  /** The score of a card line: 0 when the line is not a card. */
  function CardScore(line: string): nat {
    match FirstCard(line, 0)
    case None => 0
    case Some(c) =>
      Points(MatchCount(Numbers(line[c.winStart..c.winEnd]), Numbers(line[c.scratchStart..c.scratchEnd])))
  }

  /** The pattern recognises a line laid out as "Card", a blank, the card number, ": ",
      the winning group, "| " and the scratched group running to the end of the line. */
  predicate LaidOut(s: string, c: Captures) {
    var b, w1 := c.winStart - 2, c.winEnd;
    c.winStart >= 2 && c.scratchStart == w1 + 2 && c.scratchEnd == |s| &&
    5 < b && b + 2 < w1 && w1 + 2 < |s| &&
    s[..4] == "Card" && s[4] == ' ' && AllDigits(s[5..b]) &&
    s[b] == ':' && s[b + 1] == ' ' && IsDigit(s[b + 2]) &&
    AllInClass(s[b + 2..w1], NumberText) && s[w1] == '|' &&
    s[w1 + 1] == ' ' && IsDigit(s[w1 + 2]) && AllInClass(s[w1 + 2..], NumberText)
  }

  lemma CardAtLayout(s: string, c: Captures)
    requires LaidOut(s, c)
    ensures CardAt(s, 0) == Some(c)
  {
    assert s[0..] == s;
    HeaderRuns(s, c);
    WinningRuns(s, c);
    ScratchRuns(s, c);
  }

  /** The blank after "Card" and the card number end where the layout says. */
  lemma HeaderRuns(s: string, c: Captures)
    requires LaidOut(s, c)
    ensures ClassRunEnd(s, 4, Blank) == 5 && DigitRunEnd(s, 5) == c.winStart - 2
  {
    ClassRunEndAt(s, 4, 5, Blank);
    DigitRunEndAt(s, 5, c.winStart - 2);
  }

  /** The blank after the colon and the winning group end where the layout says. */
  lemma WinningRuns(s: string, c: Captures)
    requires LaidOut(s, c)
    ensures ClassRunEnd(s, c.winStart - 1, Blank) == c.winStart
    ensures ClassRunEnd(s, c.winStart, NumberText) == c.winEnd
  {
    ClassRunEndAt(s, c.winStart - 1, c.winStart, Blank);
    ClassRunEndAt(s, c.winStart, c.winEnd, NumberText);
  }

  /** The blank after the bar and the scratched group end where the layout says. */
  lemma ScratchRuns(s: string, c: Captures)
    requires LaidOut(s, c)
    ensures ClassRunEnd(s, c.winEnd + 1, Blank) == c.winEnd + 2
    ensures ClassRunEnd(s, c.winEnd + 2, NumberText) == |s|
  {
    var w1 := c.winEnd;
    ClassRunEndAt(s, w1 + 1, w1 + 2, Blank);
    assert s[w1 + 2..|s|] == s[w1 + 2..];
    ClassRunEndAt(s, w1 + 2, |s|, NumberText);
  }

  lemma ScoreOfFirstCard(s: string, c: Captures)
    requires CardAt(s, 0) == Some(c)
    ensures CardScore(s) == Points(MatchCount(Numbers(s[c.winStart..c.winEnd]), Numbers(s[c.scratchStart..c.scratchEnd])))
  {
  }

  /** The card format written out: "Card", the card number, the winning group and the
      scratched group. */
  function CardLine(d: string, w: string, t: string): string {
    "Card " + d + ": " + w + "| " + t
  }

  lemma CardLineLaidOut(d: string, w: string, t: string) returns (c: Captures)
    requires |d| > 0 && AllDigits(d)
    requires |w| > 0 && IsDigit(w[0]) && AllInClass(w, NumberText)
    requires |t| > 0 && IsDigit(t[0]) && AllInClass(t, NumberText)
    ensures LaidOut(CardLine(d, w, t), c)
    ensures c.scratchEnd == |CardLine(d, w, t)|
    ensures CardLine(d, w, t)[c.winStart..c.winEnd] == w
    ensures CardLine(d, w, t)[c.scratchStart..c.scratchEnd] == t
  {
    var s := CardLine(d, w, t);
    var b := 5 + |d|;
    var w1 := b + 2 + |w|;
    c := Captures(b + 2, w1, w1 + 2, |s|);
    assert s[..4] == "Card";
    assert s[5..b] == d;
    assert s[b] == ':' && s[b + 1] == ' ' && s[b + 2] == w[0];
    assert s[b + 2..w1] == w;
    assert s[w1] == '|' && s[w1 + 1] == ' ' && s[w1 + 2] == t[0];
    assert s[w1 + 2..] == t;
  }

  /** A line written in the card format is recognised at its start, and its two groups are
      exactly the written winning and scratched numbers. */
  lemma WellFormedCard(id: nat, winning: seq<nat>, scratch: seq<nat>)
    requires winning != [] && scratch != []
    ensures CardScore(CardLine(DecimalString(id), Format(winning), Format(scratch)))
            == Points(MatchCount(winning, scratch))
  {
    var d, w, t := DecimalString(id), Format(winning), Format(scratch);
    var s := CardLine(d, w, t);
    var c := CardLineLaidOut(d, w, t);
    CardAtLayout(s, c);
    ScoreOfFirstCard(s, c);
    NumbersFormat(winning);
    NumbersFormat(scratch);
  }

  /** `parse_game_card`: finds the card, reads its two number lists and scores the matches. */
  method ParseGameCard(line: string) returns (points: nat)
    ensures FirstCard(line, 0).None? ==> points == 0
    ensures points == CardScore(line)
  {
    var m := FirstCard(line, 0);
    if m.None? {
      return 0;
    }
    var c := m.value;
    var winning := Numbers(line[c.winStart..c.winEnd]);
    var scratch := Numbers(line[c.scratchStart..c.scratchEnd]);
    var count := CountMatches(winning, scratch);
    points := if count == 0 then 0 else Pow(2, count - 1);
  }
}
