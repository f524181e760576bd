/** Day 7, part two: `J` is a joker, the weakest card, which joins the most frequent other
    card when the hand is classified. Counting, ranking and winnings are those of part one. */
module Day7b {
  import opened Common
  import Day7

  datatype Card = Ace | King | Queen | Ten | Nine | Eight | Seven | Six | Five | Four | Three | Two | Joker

  /** The discriminant the derived ordering of cards compares: the joker is the weakest. */
  function CardValue(c: Card): nat {
    match c
    case Ace => 13
    case King => 12
    case Queen => 11
    case Ten => 10
    case Nine => 9
    case Eight => 8
    case Seven => 7
    case Six => 6
    case Five => 5
    case Four => 4
    case Three => 3
    case Two => 2
    case Joker => 1
  }

  /** The character a card is written with. */
  function CardChar(c: Card): char {
    match c
    case Ace => 'A'
    case King => 'K'
    case Queen => 'Q'
    case Ten => 'T'
    case Nine => '9'
    case Eight => '8'
    case Seven => '7'
    case Six => '6'
    case Five => '5'
    case Four => '4'
    case Three => '3'
    case Two => '2'
    case Joker => 'J'
  }

  /** `get_card_type_from_char`: the same thirteen characters as in part one, with `J`
      read as the joker; any other character is an error (None). */
  function CardFromChar(c: char): (r: Option<Card>)
    ensures r.Some? <==> c in Day7.CardChars
    ensures r.Some? ==> CardChar(r.value) == c
    ensures r == Some(Joker) <==> c == 'J'
  {
    match c
    case 'A' => Some(Ace)
    case 'K' => Some(King)
    case 'Q' => Some(Queen)
    case 'J' => Some(Joker)
    case 'T' => Some(Ten)
    case '9' => Some(Nine)
    case '8' => Some(Eight)
    case '7' => Some(Seven)
    case '6' => Some(Six)
    case '5' => Some(Five)
    case '4' => Some(Four)
    case '3' => Some(Three)
    case '2' => Some(Two)
    case _ => None
  }

  /** Writing a card and reading it back gives the same card. */
  lemma CardCharRoundTrip(c: Card)
    ensures CardFromChar(CardChar(c)) == Some(c)
  {
  }

  /** The joker is weaker than every other card. */
  lemma JokerWeakest(c: Card)
    requires c != Joker
    ensures CardValue(Joker) < CardValue(c)
  {
  }

  lemma CardValueInjective(c: Card, d: Card)
    ensures CardValue(c) == CardValue(d) <==> c == d
  {
  }

  /** The keys other than the joker, in their order. */
  function WithoutJoker(ds: seq<Card>): (r: seq<Card>)
    ensures Joker !in r && forall c :: c in r <==> c in ds && c != Joker
  {
    if ds == [] then []
    else
      var r := WithoutJoker(ds[..|ds| - 1]);
      assert ds == ds[..|ds| - 1] + [ds[|ds| - 1]];
      if ds[|ds| - 1] == Joker then r else r + [ds[|ds| - 1]]
  }

  /** The counts of the cards other than the joker, largest first. */
  function OtherCounts(h: seq<Card>): seq<nat> {
    Day7.SortDescending(Day7.CountsOf(h, WithoutJoker(Day7.Distinct(h))))
  }

  /** `get_hand_type_from_hand` with jokers. The sorted count list is read at the first two
      positions that do not hold the joker; no such position means the hand is all jokers,
      which is five of a kind. Otherwise the jokers join the largest other count. */
  function HandTypeOf(h: seq<Card>): Day7.HandType {
    var t := OtherCounts(h);
    if t == [] then Day7.FiveOfAKind
    else Day7.Classify(Day7.Count(h, Joker) + t[0], Day7.Second(t))
  }

  /** The joker's entry of the count map and the entries of the other cards. */
  method SplitJoker(hand: seq<Card>, keys: seq<Card>, counts: seq<nat>) returns (jokers: nat, otherCounts: seq<nat>)
    requires keys == Day7.Distinct(hand) && counts == Day7.CountsOf(hand, keys)
    ensures jokers == Day7.Count(hand, Joker)
    ensures otherCounts == Day7.CountsOf(hand, WithoutJoker(keys))
  {
    jokers := 0;
    var others: seq<Card> := [];
    otherCounts := [];
    for k := 0 to |keys|
      invariant others == WithoutJoker(keys[..k])
      invariant otherCounts == Day7.CountsOf(hand, others)
      invariant jokers == if Joker in keys[..k] then Day7.Count(hand, Joker) else 0
    {
      assert keys[..k + 1] == keys[..k] + [keys[k]];
      if keys[k] == Joker {
        jokers := counts[k];
      } else {
        others := others + [keys[k]];
        otherCounts := otherCounts + [counts[k]];
      }
    }
    assert keys[..|keys|] == keys;
    if Joker !in keys {
      assert Joker !in multiset(hand);
    }
  }

  /** `get_hand_type_from_hand` as the source runs it: count, read the joker's count,
      then classify from the two largest counts of the other cards. */
  method GetHandTypeFromHand(hand: seq<Card>) returns (t: Day7.HandType)
    ensures t == HandTypeOf(hand)
  {
    var keys, counts := Day7.CountCards(hand);
    var jokers, otherCounts := SplitJoker(hand, keys, counts);
    var sorted := Day7.SortDescending(otherCounts);
    if |sorted| == 0 {
      return Day7.FiveOfAKind;
    }
    var second := 0;
    if |sorted| > 1 {
      second := sorted[1];
    }
    t := Day7.Classify(jokers + sorted[0], second);
  }

  /** Taking the joker out of distinct keys takes its count out of the total. */
  lemma {:induction false} WithoutJokerSum(h: seq<Card>, ds: seq<Card>)
    requires forall i, j :: 0 <= i < j < |ds| ==> ds[i] != ds[j]
    ensures Sum(Day7.CountsOf(h, WithoutJoker(ds))) + (if Joker in ds then Day7.Count(h, Joker) else 0)
         == Sum(Day7.CountsOf(h, ds))
  {
    if ds != [] {
      var ds', y := ds[..|ds| - 1], ds[|ds| - 1];
      assert ds == ds' + [y];
      assert forall i :: 0 <= i < |ds'| ==> ds'[i] == ds[i] && ds[i] != y;
      WithoutJokerSum(h, ds');
      WithoutJokerSumStep(h, ds', y);
    }
  }

  lemma WithoutJokerSumStep(h: seq<Card>, ds: seq<Card>, y: Card)
    requires y !in ds
    requires Sum(Day7.CountsOf(h, WithoutJoker(ds))) + (if Joker in ds then Day7.Count(h, Joker) else 0)
          == Sum(Day7.CountsOf(h, ds))
    ensures Sum(Day7.CountsOf(h, WithoutJoker(ds + [y]))) + (if Joker in ds + [y] then Day7.Count(h, Joker) else 0)
         == Sum(Day7.CountsOf(h, ds + [y]))
  {
    Day7.CountsOfAppend(h, ds, y);
    SumAppend(Day7.CountsOf(h, ds), Day7.Count(h, y));
    var w := WithoutJoker(ds);
    assert (ds + [y])[..|ds|] == ds;
    if y != Joker {
      assert WithoutJoker(ds + [y]) == w + [y];
      Day7.CountsOfAppend(h, w, y);
      SumAppend(Day7.CountsOf(h, w), Day7.Count(h, y));
    } else {
      assert WithoutJoker(ds + [y]) == w;
    }
  }

  /** The other counts are positive, largest first, and with the jokers they make up the
      whole hand. */
  lemma OtherCountsFacts(h: seq<Card>)
    ensures Day7.Descending(OtherCounts(h))
    ensures Sum(OtherCounts(h)) + Day7.Count(h, Joker) == |h|
    ensures forall i :: 0 <= i < |OtherCounts(h)| ==> OtherCounts(h)[i] >= 1
  {
    var ds := Day7.Distinct(h);
    var s := Day7.CountsOf(h, WithoutJoker(ds));
    Day7.CountsSum(h);
    WithoutJokerSum(h, ds);
    Day7.SortDescendingSum(s);
    if Joker !in ds {
      assert Joker !in multiset(h);
    }
    forall i | 0 <= i < |OtherCounts(h)|
      ensures OtherCounts(h)[i] >= 1
    {
      assert OtherCounts(h)[i] in multiset(s);
      var j :| 0 <= j < |s| && s[j] == OtherCounts(h)[i];
      var c := WithoutJoker(ds)[j];
      assert c in h;
      assert c in multiset(h);
    }
  }

  /** A hand of jokers only is five of a kind. */
  lemma AllJokers(h: seq<Card>)
    requires forall i :: 0 <= i < |h| ==> h[i] == Joker
    ensures HandTypeOf(h) == Day7.FiveOfAKind
  {
    var ds := Day7.Distinct(h);
    var r := WithoutJoker(ds);
    assert forall i :: 0 <= i < |r| ==> r[i] in r && r[i] in h;
  }

  /** Adding j to the largest of positive descending counts keeps them positive and
      descending, adds j to their total, and leaves the second largest alone. */
  lemma {:induction false} AddToLargest(t: seq<nat>, j: nat) returns (merged: seq<nat>)
    requires t != [] && Day7.Descending(t) && forall i :: 0 <= i < |t| ==> t[i] >= 1
    ensures merged == [j + t[0]] + t[1..]
    ensures Day7.Descending(merged) && Sum(merged) == j + Sum(t)
    ensures forall i :: 0 <= i < |merged| ==> merged[i] >= 1
    ensures merged[0] == j + t[0] && Day7.Second(merged) == Day7.Second(t)
  {
    merged := [j + t[0]] + t[1..];
    Day7.Unfold(t);
    SumCons(merged[0], t[1..]);
    ConsDescending(j + t[0], t[1..]);
  }

  /** Putting a count no smaller than the others in front of positive descending counts
      keeps them positive and descending. */
  lemma ConsDescending(x: nat, s: seq<nat>)
    requires x >= 1 && Day7.Descending(s) && forall i :: 0 <= i < |s| ==> 1 <= s[i] <= x
    ensures Day7.Descending([x] + s) && forall i :: 0 <= i < |s| + 1 ==> ([x] + s)[i] >= 1
  {
    var r := [x] + s;
    forall a, b | 0 <= a < b < |r|
      ensures r[a] >= r[b]
    {
      assert r[b] == s[b - 1];
      if a > 0 {
        assert r[a] == s[a - 1];
      }
    }
    forall i | 1 <= i < |r|
      ensures r[i] >= 1
    {
      assert r[i] == s[i - 1];
    }
  }

  /** The counts of a five-card hand with the jokers moved onto the largest other count:
      a partition of five, which decides the hand type as in part one. */
  lemma JokersJoinLargest(h: seq<Card>) returns (merged: seq<nat>)
    requires |h| == 5 && OtherCounts(h) != []
    ensures merged == [Day7.Count(h, Joker) + OtherCounts(h)[0]] + OtherCounts(h)[1..]
    ensures Day7.Descending(merged) && Sum(merged) == 5
    ensures forall i :: 0 <= i < |merged| ==> merged[i] >= 1
    ensures HandTypeOf(h) == Day7.Classify(merged[0], Day7.Second(merged))
  {
    OtherCountsFacts(h);
    merged := AddToLargest(OtherCounts(h), Day7.Count(h, Joker));
  }

  /** A five-card hand is never Undetermined, jokers or not. */
  lemma NeverUndetermined(h: seq<Card>)
    requires |h| == 5
    ensures HandTypeOf(h) != Day7.Undetermined
  {
    if OtherCounts(h) != [] {
      var merged := JokersJoinLargest(h);
      Day7.PartitionsOfFive(merged);
    }
  }

  /** Without jokers the hand type is the part-one hand type of the same counts. */
  lemma NoJokersAsPartOne(h: seq<Card>)
    requires |h| > 0 && Joker !in h
    ensures HandTypeOf(h) == Day7.HandTypeOf(h)
  {
    var ds := Day7.Distinct(h);
    NoJokerKept(ds);
    var t := Day7.SortedCounts(h);
    assert OtherCounts(h) == t;
    assert Day7.Count(h, Joker) == 0 by {
      assert Joker !in multiset(h);
    }
    assert h[0] in ds;
    assert t != [];
  }

  lemma {:induction false} NoJokerKept(ds: seq<Card>)
    requires Joker !in ds
    ensures WithoutJoker(ds) == ds
  {
    if ds != [] {
      assert ds == ds[..|ds| - 1] + [ds[|ds| - 1]];
      NoJokerKept(ds[..|ds| - 1]);
    }
  }

  datatype Play = Play(hand: seq<Card>, handType: Day7.HandType, bid: int)

  /** What `play_cmp` compares: the hand type, then the cards from the left. */
  function Key(p: Play): (k: seq<int>)
    ensures |k| == |p.hand| + 1 && k[0] == Day7.TypeValue(p.handType)
    ensures forall i :: 0 <= i < |p.hand| ==> k[i + 1] == CardValue(p.hand[i])
  {
    [Day7.TypeValue(p.handType)] + seq(|p.hand|, i requires 0 <= i < |p.hand| => CardValue(p.hand[i]) as int)
  }

  /** `play_cmp`: hand types first; on a tie the first five cards from the left, returning
      at the first difference. */
  method PlayCmp(a: Play, b: Play) returns (r: Day7.Ordering)
    requires Day7.Comparable(Key(a), Key(b), 0)
    ensures r == Day7.CompareFrom(Key(a), Key(b), 0)
  {
    r := Day7.CompareInt(Day7.TypeValue(a.handType), Day7.TypeValue(b.handType));
    if r != Day7.Equal {
      return r;
    }
    for i := 0 to 5
      invariant Day7.Comparable(Key(a), Key(b), i + 1)
      invariant Day7.CompareFrom(Key(a), Key(b), 0) == Day7.CompareFrom(Key(a), Key(b), i + 1)
    {
      var rb := Day7.CompareInt(CardValue(a.hand[i]), CardValue(b.hand[i]));
      if rb != Day7.Equal {
        return rb;
      }
    }
    return Day7.Equal;
  }

  /** For hands of at least five cards, `play_cmp` says Equal exactly when the hand types
      and the first five cards agree, and swapping the plays reverses the answer. */
  lemma PlayCmpEqual(a: Play, b: Play)
    requires |a.hand| >= 5 && |b.hand| >= 5
    ensures Day7.Comparable(Key(a), Key(b), 0) && Day7.Comparable(Key(b), Key(a), 0)
    ensures Day7.CompareFrom(Key(a), Key(b), 0) == Day7.Equal
        <==> a.handType == b.handType && a.hand[..5] == b.hand[..5]
    ensures Day7.CompareFrom(Key(b), Key(a), 0) == Day7.Flip(Day7.CompareFrom(Key(a), Key(b), 0))
  {
    var ka, kb := Key(a), Key(b);
    Day7.CompareFromEqual(ka, kb, 0);
    Day7.CompareFromFlip(ka, kb, 0);
    KeysAgree(a, b);
  }

  /** The first six entries of the keys agree exactly when the hand types and the first five
      cards do. */
  lemma KeysAgree(a: Play, b: Play)
    requires |a.hand| >= 5 && |b.hand| >= 5
    ensures Key(a)[..6] == Key(b)[..6] <==> a.handType == b.handType && a.hand[..5] == b.hand[..5]
  {
    var ka, kb := Key(a), Key(b);
    if ka[..6] == kb[..6] {
      assert ka[0] == kb[0];
      Day7.TypeValueInjective(a.handType, b.handType);
      forall i | 0 <= i < 5
        ensures a.hand[i] == b.hand[i]
      {
        assert ka[i + 1] == kb[i + 1];
        CardValueInjective(a.hand[i], b.hand[i]);
      }
    }
    if a.handType == b.handType && a.hand[..5] == b.hand[..5] {
      forall i | 0 <= i < 6
        ensures ka[i] == kb[i]
      {
        if i > 0 {
          assert a.hand[i - 1] == a.hand[..5][i - 1];
        }
      }
    }
  }

  /** A play as the ranking sees it: the key of its first five cards and its bid. */
  function ToRanked(p: Play): (r: Day7.Ranked)
    requires |p.hand| >= 5
    ensures |r.key| == 6
  {
    Day7.Ranked(Key(p)[..6], p.bid)
  }

  /** Comparing the five-card keys is comparing the plays with `play_cmp`. */
  lemma ToRankedCompare(a: Play, b: Play)
    requires |a.hand| >= 5 && |b.hand| >= 5
    ensures Day7.Comparable(Key(a), Key(b), 0)
    ensures Day7.CompareFrom(ToRanked(a).key, ToRanked(b).key, 0) == Day7.CompareFrom(Key(a), Key(b), 0)
  {
    Day7.PrefixCompare(Key(a), Key(b), 0);
  }
}
