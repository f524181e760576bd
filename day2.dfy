/** Day 2: cube games. A game line "Game N: 3 blue, 4 red; 1 red, 2 green; ..." is split
    into rounds at ';'; per colour the game needs at least as many cubes as the largest
    count shown in any round, and the game's power is the product of those minima. */
module Day2 {
  import opened Common

  /** Whether the pattern `pre [0-9]+ post` matches s at position p (with `minAfter` more
      characters of any kind after it, for a trailing `.+`). */
  predicate MatchesAt(s: string, pre: string, post: string, minAfter: nat, p: nat)
    requires p <= |s|
  {
    StartsWith(s[p..], pre) &&
    var q := DigitRunEnd(s, p + |pre|);
    q > p + |pre| && StartsWith(s[q..], post) && q + |post| + minAfter <= |s|
  }

  /** The number captured by the leftmost match of `pre ([0-9]+) post` at or after p. */
  function FirstCapture(s: string, pre: string, post: string, minAfter: nat, p: nat): Option<nat>
    requires p <= |s|
    decreases |s| - p
  {
    if MatchesAt(s, pre, post, minAfter, p) then
      Some(DecimalValue(s[p + |pre|..DigitRunEnd(s, p + |pre|)]))
    else if p == |s| then None
    else FirstCapture(s, pre, post, minAfter, p + 1)
  }

  /** There is no capture exactly when the pattern matches nowhere at or after p. */
  lemma {:induction false} FirstCaptureNone(s: string, pre: string, post: string, minAfter: nat, p: nat)
    requires p <= |s|
    ensures FirstCapture(s, pre, post, minAfter, p).None? <==>
              forall i :: p <= i <= |s| ==> !MatchesAt(s, pre, post, minAfter, i)
    decreases |s| - p
  {
    if !MatchesAt(s, pre, post, minAfter, p) && p < |s| {
      FirstCaptureNone(s, pre, post, minAfter, p + 1);
    }
  }

  /** A capture is the number of the leftmost position where the pattern matches. */
  lemma {:induction false} FirstCaptureLeftmost(s: string, pre: string, post: string, minAfter: nat, p: nat)
    returns (i: nat)
    requires p <= |s|
    requires FirstCapture(s, pre, post, minAfter, p).Some?
    ensures p <= i <= |s| && MatchesAt(s, pre, post, minAfter, i)
    ensures FirstCapture(s, pre, post, minAfter, p).value == DecimalValue(s[i + |pre|..DigitRunEnd(s, i + |pre|)])
    ensures forall j :: p <= j < i ==> !MatchesAt(s, pre, post, minAfter, j)
    decreases |s| - p
  {
    if MatchesAt(s, pre, post, minAfter, p) {
      i := p;
    } else {
      assert p < |s|;
      assert FirstCapture(s, pre, post, minAfter, p) == FirstCapture(s, pre, post, minAfter, p + 1);
      i := FirstCaptureLeftmost(s, pre, post, minAfter, p + 1);
    }
  }

  /** `get_ball_count`: the number written just before the first " colour", or 0. */
  function BallCount(round: string, colour: string): nat {
    match FirstCapture(round, "", " " + colour, 0, 0)
    case Some(v) => v
    case None => 0
  }

  /** A round that never mentions the colour shows none of it. */
  lemma AbsentColourCountsZero(round: string, colour: string)
    requires forall i :: 0 <= i <= |round| ==> !StartsWith(round[i..], " " + colour)
    ensures BallCount(round, colour) == 0
  {
    FirstCaptureNone(round, "", " " + colour, 0, 0);
  }

  /** A round that starts with the number and the colour shows exactly that number. */
  lemma {:induction false} LeadingCount(digits: string, colour: string, rest: string)
    requires |digits| > 0 && AllDigits(digits)
    ensures BallCount(digits + " " + colour + rest, colour) == DecimalValue(digits)
  {
    var s := digits + " " + colour + rest;
    assert s[..|digits|] == digits;
    assert s[|digits|..] == " " + colour + rest;
    DigitRunEndAt(s, 0, |digits|);
    assert s[0..|digits|] == digits;
    assert StartsWith(s[|digits|..], " " + colour);
    assert MatchesAt(s, "", " " + colour, 0, 0);
  }

  /** The game id: the number after "Game " and before ':' (the regex `Game ([0-9]+):.+$`
      also needs at least one character after the colon). */
  function GameId(phase: string): Option<nat> {
    FirstCapture(phase, "Game ", ":", 1, 0)
  }

  /** The largest count of the colour over the first k rounds (0 when there are none). */
  function MaxCount(rounds: seq<string>, colour: string, k: nat): nat
    requires k <= |rounds|
  {
    if k == 0 then 0 else Max(MaxCount(rounds, colour, k - 1), BallCount(rounds[k - 1], colour))
  }

  /** The minimum number of cubes of a colour the game needs is the largest count of that
      colour shown in any round: no round shows more, and some round shows that many. */
  lemma {:induction false} MaxCountIsMaximum(rounds: seq<string>, colour: string, k: nat)
    requires k <= |rounds|
    ensures forall j :: 0 <= j < k ==> BallCount(rounds[j], colour) <= MaxCount(rounds, colour, k)
    ensures MaxCount(rounds, colour, k) == 0 ||
            exists j :: 0 <= j < k && BallCount(rounds[j], colour) == MaxCount(rounds, colour, k)
  {
    if k > 0 {
      MaxCountIsMaximum(rounds, colour, k - 1);
    }
  }

  function Product(a: nat, b: nat, c: nat): nat {
    a * b * c
  }

  /** A line "Game N:..." with something after the colon has id N. */
  lemma {:induction false} HeaderGameId(digits: string, rest: string)
    requires |digits| > 0 && AllDigits(digits) && |rest| > 0
    ensures GameId("Game " + digits + ":" + rest) == Some(DecimalValue(digits))
  {
    var s := "Game " + digits + ":" + rest;
    assert s[..5] == "Game ";
    assert s[5..5 + |digits|] == digits;
    assert s[5 + |digits|..] == ":" + rest;
    DigitRunEndAt(s, 5, 5 + |digits|);
    assert MatchesAt(s, "Game ", ":", 1, 0);
  }

  /** `parse_game`: id, validity flag and power of one game line. The source unwraps the
      id match, so a first phase without one panics. */
  method ParseGame(game: string) returns (id: nat, valid: bool, power: nat)
    requires GameId(Split(game, ';')[0]).Some?
    ensures id == GameId(Split(game, ';')[0]).value
    ensures valid
    ensures power == Product(MaxCount(Split(game, ';'), "red", |Split(game, ';')|),
                             MaxCount(Split(game, ';'), "green", |Split(game, ';')|),
                             MaxCount(Split(game, ';'), "blue", |Split(game, ';')|))
  {
    var phases := Split(game, ';');
    id := GameId(phases[0]).value;
    var red: nat, green: nat, blue: nat := 0, 0, 0;
    var k := 0;
    while k < |phases|
      invariant 0 <= k <= |phases|
      invariant red == MaxCount(phases, "red", k)
      invariant green == MaxCount(phases, "green", k)
      invariant blue == MaxCount(phases, "blue", k)
    {
      red, green, blue := ObserveRound(phases, k, red, green, blue);
      k := k + 1;
    }
    valid := true;
    power := Product(red, green, blue);
  }

  /** One turn of the loop of `parse_game`: each colour's largest count takes in round k. */
  method ObserveRound(phases: seq<string>, k: nat, red: nat, green: nat, blue: nat)
    returns (red': nat, green': nat, blue': nat)
    requires k < |phases|
    requires red == MaxCount(phases, "red", k)
    requires green == MaxCount(phases, "green", k)
    requires blue == MaxCount(phases, "blue", k)
    ensures red' == MaxCount(phases, "red", k + 1)
    ensures green' == MaxCount(phases, "green", k + 1)
    ensures blue' == MaxCount(phases, "blue", k + 1)
  {
    red' := Max(red, BallCount(phases[k], "red"));
    green' := Max(green, BallCount(phases[k], "green"));
    blue' := Max(blue, BallCount(phases[k], "blue"));
  }
}
