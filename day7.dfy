/** Day 7: Camel Cards. A hand of five cards is classified by how often its cards repeat;
    plays are ordered by hand type and then card by card from the left, and the winnings
    are the bids weighted by rank. */
module Day7 {
  import opened Common

  datatype Card = Ace | King | Queen | Jack | Ten | Nine | Eight | Seven | Six | Five | Four | Three | Two | Undefined

  /** The discriminant the derived ordering of cards compares. */
  function CardValue(c: Card): nat {
    match c
    case Ace => 14
    case King => 13
    case Queen => 12
    case Jack => 11
    case Ten => 10
    case Nine => 9
    case Eight => 8
    case Seven => 7
    case Six => 6
    case Five => 5
    case Four => 4
    case Three => 3
    case Two => 2
    case Undefined => 0
  }

  /** The card characters, strongest first. */
  const CardChars: string := "AKQJT98765432"

  /** The character a card is written with. */
  function CardChar(c: Card): char
    requires c != Undefined
  {
    match c
    case Ace => 'A'
    case King => 'K'
    case Queen => 'Q'
    case Jack => 'J'
    case Ten => 'T'
    case Nine => '9'
    case Eight => '8'
    case Seven => '7'
    case Six => '6'
    case Five => '5'
    case Four => '4'
    case Three => '3'
    case Two => '2'
  }

  /** `get_card_type_from_char`: the card for one of the thirteen card characters, and an
      error (None) for any other character. */
  function CardFromChar(c: char): (r: Option<Card>)
    ensures r.Some? <==> c in CardChars
    ensures r.Some? ==> r.value != Undefined && CardChar(r.value) == c
  {
    match c
    case 'A' => Some(Ace)
    case 'K' => Some(King)
    case 'Q' => Some(Queen)
    case 'J' => Some(Jack)
    case 'T' => Some(Ten)
    case '9' => Some(Nine)
    case '8' => Some(Eight)
    case '7' => Some(Seven)
    case '6' => Some(Six)
    case '5' => Some(Five)
    case '4' => Some(Four)
    case '3' => Some(Three)
    case '2' => Some(Two)
    case _ => None
  }

  /** Writing a card and reading it back gives the same card. */
  lemma CardCharRoundTrip(c: Card)
    requires c != Undefined
    ensures CardFromChar(CardChar(c)) == Some(c)
  {
  }

  /** The card characters are listed strongest first: Ace beats King beats ... beats Two. */
  lemma CardCharsDescend(i: nat, j: nat)
    requires i < j < |CardChars|
    ensures CardValue(CardFromChar(CardChars[i]).value) > CardValue(CardFromChar(CardChars[j]).value)
  {
    assert forall k :: 0 <= k < |CardChars| ==> CardValue(CardFromChar(CardChars[k]).value) == 14 - k;
  }

  datatype HandType = FiveOfAKind | FourOfAKind | FullHouse | ThreeOfAKind | TwoPair | OnePair | HighCard | Undetermined

  /** The discriminant the derived ordering of hand types compares. */
  function TypeValue(t: HandType): nat {
    match t
    case FiveOfAKind => 7
    case FourOfAKind => 6
    case FullHouse => 5
    case ThreeOfAKind => 4
    case TwoPair => 3
    case OnePair => 2
    case HighCard => 1
    case Undetermined => 0
  }

  lemma TypeValueInjective(s: HandType, t: HandType)
    ensures TypeValue(s) == TypeValue(t) <==> s == t
  {
  }

  /** How often c occurs in h. */
  function Count<T(==, !new)>(h: seq<T>, c: T): nat {
    multiset(h)[c]
  }

  /** The distinct elements of h in order of first occurrence: the keys of the count map. */
  function Distinct<T(==, !new)>(h: seq<T>): (ds: seq<T>)
    ensures forall i, j :: 0 <= i < j < |ds| ==> ds[i] != ds[j]
    ensures forall c :: c in ds <==> c in h
  {
    if h == [] then []
    else
      var d := Distinct(h[..|h| - 1]);
      assert forall c :: c in h <==> c in h[..|h| - 1] || c == h[|h| - 1] by {
        assert h == h[..|h| - 1] + [h[|h| - 1]];
      }
      if h[|h| - 1] in d then d else d + [h[|h| - 1]]
  }

  /** The counts of the given keys in h, in the keys' order. */
  function CountsOf<T(==, !new)>(h: seq<T>, ds: seq<T>): (cs: seq<nat>)
    ensures |cs| == |ds| && forall i :: 0 <= i < |ds| ==> cs[i] == Count(h, ds[i])
  {
    seq(|ds|, i requires 0 <= i < |ds| => Count(h, ds[i]))
  }

  lemma CountsOfAppend<T(!new)>(h: seq<T>, ds: seq<T>, y: T)
    ensures CountsOf(h, ds + [y]) == CountsOf(h, ds) + [Count(h, y)]
  {
  }

  /** Appending a card adds it to the distinct cards unless it is already there. */
  lemma DistinctAppend<T(!new)>(h: seq<T>, x: T)
    ensures Distinct(h + [x]) == if x in Distinct(h) then Distinct(h) else Distinct(h) + [x]
  {
    assert (h + [x])[..|h|] == h;
  }

  /** Appending a card raises its own count by one and leaves the other counts alone. */
  lemma CountsAppend<T(!new)>(h: seq<T>, x: T, ds: seq<T>)
    ensures forall i :: 0 <= i < |ds| ==>
      CountsOf(h + [x], ds)[i] == CountsOf(h, ds)[i] + (if ds[i] == x then 1 else 0)
  {
    assert multiset(h + [x]) == multiset(h) + multiset{x};
  }

  /** The count-map loop of `get_hand_type_from_hand`: an entry per distinct card, created
      at its first occurrence and incremented at every later one. */
  method CountCards<T(==, !new)>(hand: seq<T>) returns (keys: seq<T>, counts: seq<nat>)
    ensures keys == Distinct(hand)
    ensures counts == CountsOf(hand, keys)
  {
    keys, counts := [], [];
    for n := 0 to |hand|
      invariant keys == Distinct(hand[..n])
      invariant counts == CountsOf(hand[..n], keys)
    {
      assert hand[..n + 1] == hand[..n] + [hand[n]];
      keys, counts := CountCard(keys, counts, hand[n], hand[..n]);
    }
    assert hand[..|hand|] == hand;
  }

  /** One turn of the count-map loop: the card's entry is incremented, or created with 1. */
  method CountCard<T(==, !new)>(keys: seq<T>, counts: seq<nat>, c: T, ghost h: seq<T>)
    returns (keys': seq<T>, counts': seq<nat>)
    requires keys == Distinct(h) && counts == CountsOf(h, keys)
    ensures keys' == Distinct(h + [c]) && counts' == CountsOf(h + [c], keys')
  {
    DistinctAppend(h, c);
    var k := FindKey(keys, c);
    if k < |keys| {
      CountsBump(h, c, keys, k);
      keys', counts' := keys, counts[k := counts[k] + 1];
    } else {
      CountsNew(h, c, keys);
      keys', counts' := keys + [c], counts + [1];
    }
  }

  /** A card already counted: its entry goes up by one, the others stay. */
  lemma CountsBump<T(!new)>(h: seq<T>, c: T, keys: seq<T>, k: nat)
    requires keys == Distinct(h) && k < |keys| && keys[k] == c
    ensures CountsOf(h + [c], keys) == CountsOf(h, keys)[k := CountsOf(h, keys)[k] + 1]
  {
    CountsAppend(h, c, keys);
    var a, b := CountsOf(h + [c], keys), CountsOf(h, keys)[k := CountsOf(h, keys)[k] + 1];
    assert |a| == |b|;
    forall i | 0 <= i < |a|
      ensures a[i] == b[i]
    {
      if i == k {
        assert a[i] == CountsOf(h, keys)[i] + 1;
      } else {
        assert keys[i] != c;
      }
    }
  }

  /** A card not counted yet, so not in the hand so far: it gets a new entry of 1. */
  lemma CountsNew<T(!new)>(h: seq<T>, c: T, keys: seq<T>)
    requires keys == Distinct(h) && c !in keys
    ensures CountsOf(h + [c], keys + [c]) == CountsOf(h, keys) + [1]
  {
    CountsAppend(h, c, keys);
    assert c !in h;
    assert multiset(h + [c]) == multiset(h) + multiset{c};
    var a, b := CountsOf(h + [c], keys + [c]), CountsOf(h, keys) + [1];
    assert |a| == |b|;
    forall i | 0 <= i < |a|
      ensures a[i] == b[i]
    {
      if i < |keys| {
        assert keys[i] != c;
        assert (keys + [c])[i] == keys[i];
      }
    }
  }

  /** The entry of c in the count map: its index among the keys, or |keys| when absent. */
  method FindKey<T(==)>(keys: seq<T>, c: T) returns (k: nat)
    ensures k <= |keys|
    ensures k < |keys| ==> keys[k] == c
    ensures k == |keys| <==> c !in keys
  {
    k := 0;
    while k < |keys| && keys[k] != c
      invariant 0 <= k <= |keys|
      invariant forall j :: 0 <= j < k ==> keys[j] != c
    {
      k := k + 1;
    }
  }

  /** Raising the element at one position by one raises the sum by one. */
  lemma {:induction false} SumIncrementAt(s: seq<int>, t: seq<int>, k: nat)
    requires |s| == |t| && k < |s| && t[k] == s[k] + 1
    requires forall i :: 0 <= i < |s| && i != k ==> t[i] == s[i]
    ensures Sum(t) == Sum(s) + 1
  {
    var n := |s| - 1;
    if k < n {
      SumIncrementAt(s[..n], t[..n], k);
    } else {
      assert s[..n] == t[..n];
    }
  }

  /** The counts of the distinct cards add up to the number of cards. */
  lemma {:induction false} CountsSum<T(!new)>(h: seq<T>)
    ensures Sum(CountsOf(h, Distinct(h))) == |h|
  {
    if h != [] {
      var h', x := h[..|h| - 1], h[|h| - 1];
      assert h == h' + [x];
      var d := Distinct(h');
      CountsSum(h');
      if x in d {
        var k :| 0 <= k < |d| && d[k] == x;
        SumIncrementAt(CountsOf(h', d), CountsOf(h, d), k);
      } else {
        assert CountsOf(h, d + [x]) == CountsOf(h', d) + [1];
        SumAppend(CountsOf(h', d), 1);
      }
    }
  }

  /** Every distinct card occurs at least once. */
  lemma CountsPositive<T(!new)>(h: seq<T>)
    ensures forall i :: 0 <= i < |CountsOf(h, Distinct(h))| ==> CountsOf(h, Distinct(h))[i] >= 1
  {
    var ds := Distinct(h);
    forall i | 0 <= i < |ds|
      ensures Count(h, ds[i]) >= 1
    {
      assert ds[i] in h;
      assert ds[i] in multiset(h);
    }
  }

  predicate Descending(s: seq<nat>) {
    forall i, j :: 0 <= i < j < |s| ==> s[i] >= s[j]
  }

  function InsertDescending(x: nat, s: seq<nat>): (r: seq<nat>)
    ensures multiset(r) == multiset(s) + multiset{x} && |r| == |s| + 1
    ensures Descending(s) ==> Descending(r)
  {
    if s == [] || x >= s[0] then [x] + s
    else
      assert s == [s[0]] + s[1..];
      var rest := InsertDescending(x, s[1..]);
      InsertBelowHead(x, s, rest);
      [s[0]] + rest
  }

  /** Everything inserted behind the head of a descending sequence stays below the head. */
  lemma InsertBelowHead(x: nat, s: seq<nat>, rest: seq<nat>)
    requires s != [] && x < s[0] && multiset(rest) == multiset(s[1..]) + multiset{x}
    ensures Descending(s) ==> forall k :: 0 <= k < |rest| ==> rest[k] <= s[0]
  {
    if Descending(s) {
      forall k | 0 <= k < |rest|
        ensures rest[k] <= s[0]
      {
        assert rest[k] in multiset(rest);
        if rest[k] != x {
          assert rest[k] in s[1..];
        }
      }
    }
  }

  /** The counts sorted from largest to smallest (`sort_by` ascending, then `reverse`; ties
      do not matter, because only the count values are read). */
  function SortDescending(s: seq<nat>): (r: seq<nat>)
    ensures multiset(r) == multiset(s) && |r| == |s| && Descending(r)
  {
    if s == [] then []
    else
      assert s == [s[0]] + s[1..];
      InsertDescending(s[0], SortDescending(s[1..]))
  }

  lemma {:induction false} InsertDescendingSum(x: nat, s: seq<nat>)
    ensures Sum(InsertDescending(x, s)) == x + Sum(s)
  {
    if s == [] || x >= s[0] {
      SumCons(x, s);
    } else {
      InsertDescendingSum(x, s[1..]);
      SumCons(s[0], InsertDescending(x, s[1..]));
      SumCons(s[0], s[1..]);
      assert [s[0]] + s[1..] == s;
    }
  }

  /** Sorting keeps the total. */
  lemma {:induction false} SortDescendingSum(s: seq<nat>)
    ensures Sum(SortDescending(s)) == Sum(s)
  {
    if s != [] {
      SortDescendingSum(s[1..]);
      InsertDescendingSum(s[0], SortDescending(s[1..]));
      SumCons(s[0], s[1..]);
      assert [s[0]] + s[1..] == s;
    }
  }

  /** The hand type for the largest and the second largest count. */
  function Classify(first: nat, second: nat): HandType {
    if first == 5 then FiveOfAKind
    else if first == 4 then FourOfAKind
    else if first == 3 then (if second == 2 then FullHouse else if second == 1 then ThreeOfAKind else Undetermined)
    else if first == 2 then (if second == 2 then TwoPair else if second == 1 then OnePair else Undetermined)
    else if first == 1 then HighCard
    else Undetermined
  }

  /** The card counts of a hand, largest first. */
  function SortedCounts<T(==, !new)>(h: seq<T>): seq<nat> {
    SortDescending(CountsOf(h, Distinct(h)))
  }

  /** The second entry of the sorted counts, or 0 when there is only one kind of card. */
  function Second(t: seq<nat>): nat {
    if |t| > 1 then t[1] else 0
  }

  /** `get_hand_type_from_hand`. The source unwraps the first count, so the hand must not
      be empty. */
  function HandTypeOf<T(==, !new)>(h: seq<T>): HandType
    requires |h| > 0
  {
    assert h[0] in Distinct(h);
    var t := SortedCounts(h);
    Classify(t[0], Second(t))
  }

  /** `get_hand_type_from_hand` as the source runs it: count, sort, read the two largest. */
  method GetHandTypeFromHand(hand: seq<Card>) returns (t: HandType)
    requires |hand| > 0
    ensures t == HandTypeOf(hand)
  {
    var keys, counts := CountCards(hand);
    assert hand[0] in keys;
    var sorted := SortDescending(counts);
    var first := sorted[0];
    var second := 0;
    if |sorted| > 1 {
      second := sorted[1];
    }
    t := Classify(first, second);
  }

  /** The sorted counts of a hand: positive, largest first, adding up to the hand's size. */
  lemma SortedCountsFacts<T(!new)>(h: seq<T>)
    ensures Descending(SortedCounts(h))
    ensures Sum(SortedCounts(h)) == |h|
    ensures forall i :: 0 <= i < |SortedCounts(h)| ==> SortedCounts(h)[i] >= 1
  {
    var s := CountsOf(h, Distinct(h));
    CountsSum(h);
    SortDescendingSum(s);
    CountsPositive(h);
    forall i | 0 <= i < |SortedCounts(h)|
      ensures SortedCounts(h)[i] >= 1
    {
      assert SortedCounts(h)[i] in multiset(s);
    }
  }

  /** A sequence of ones adding up to n is n ones. */
  lemma {:induction false} AllOnes(r: seq<nat>, n: nat)
    requires forall i :: 0 <= i < |r| ==> r[i] == 1
    requires Sum(r) == n
    ensures r == seq(n, i => 1)
    decreases |r|
  {
    if r != [] {
      SumCons(r[0], r[1..]);
      assert [r[0]] + r[1..] == r;
      SumPositive(r[1..]);
      AllOnes(r[1..], n - 1);
    }
  }

  /** A sum of positive numbers is at least each of its parts. */
  lemma {:induction false} SumPositive(r: seq<nat>)
    requires forall i :: 0 <= i < |r| ==> r[i] >= 1
    ensures Sum(r) >= |r|
    decreases |r|
  {
    if r != [] {
      SumCons(r[0], r[1..]);
      assert [r[0]] + r[1..] == r;
      SumPositive(r[1..]);
    }
  }

  /** A positive sequence adding up to at most 1 is empty or the single element 1. */
  lemma AtMostOne(r: seq<nat>)
    requires Sum(r) <= 1 && forall i :: 0 <= i < |r| ==> r[i] >= 1
    ensures r == [] || r == [1]
    ensures r == [] <==> Sum(r) == 0
  {
    SumPositive(r);
    if |r| == 1 {
      assert r == [] + [r[0]];
      SumAppend([], r[0]);
    }
  }

  /** The first element of a positive descending sequence, and the rest. */
  lemma Unfold(t: seq<nat>)
    requires |t| > 0 && Descending(t) && forall i :: 0 <= i < |t| ==> t[i] >= 1
    ensures Sum(t) == t[0] + Sum(t[1..])
    ensures Descending(t[1..]) && forall i :: 0 <= i < |t| - 1 ==> 1 <= t[1..][i] <= t[0]
  {
    SumCons(t[0], t[1..]);
    assert [t[0]] + t[1..] == t;
    var r := t[1..];
    forall i, j | 0 <= i < j < |r|
      ensures r[i] >= r[j]
    {
      assert r[i] == t[i + 1] && r[j] == t[j + 1];
    }
    forall i | 0 <= i < |r|
      ensures 1 <= r[i] <= t[0]
    {
      assert r[i] == t[i + 1];
    }
  }

  /** The partitions of 5 whose largest part is at least 2 and whose second part is 1. */
  lemma PartitionsWithOnes(t: seq<nat>)
    requires |t| > 1 && t[0] >= 2 && t[1] == 1 && Sum(t) == 5
    requires Descending(t) && forall i :: 0 <= i < |t| ==> t[i] >= 1
    ensures t == [4, 1] || t == [3, 1, 1] || t == [2, 1, 1, 1]
  {
    Unfold(t);
    var r := t[1..];
    assert t == [t[0]] + r;
    SumPositive(r);
    AllOnes(r, 5 - t[0]);
    assert t[0] == 4 ==> seq(1, i => 1) == [1];
    assert t[0] == 3 ==> seq(2, i => 1) == [1, 1];
    assert t[0] == 2 ==> seq(3, i => 1) == [1, 1, 1];
  }

  /** The partitions of 5 whose two largest parts are at least 2. */
  lemma PartitionsWithPairs(t: seq<nat>)
    requires |t| > 1 && t[1] >= 2 && Sum(t) == 5
    requires Descending(t) && forall i :: 0 <= i < |t| ==> t[i] >= 1
    ensures t == [3, 2] || t == [2, 2, 1]
  {
    var rest := HeadTwo(t);
    AtMostOne(rest);
    if rest == [] {
      assert t == [t[0], t[1]];
    } else {
      assert t == [t[0], t[1], 1];
    }
  }

  /** The two largest parts of a positive descending sequence with at least two parts, and
      the positive parts after them. */
  lemma HeadTwo(t: seq<nat>) returns (rest: seq<nat>)
    requires |t| > 1 && Descending(t) && forall i :: 0 <= i < |t| ==> t[i] >= 1
    ensures rest == t[2..] && t == [t[0], t[1]] + rest && t[0] >= t[1]
    ensures Sum(t) == t[0] + t[1] + Sum(rest)
    ensures forall i :: 0 <= i < |rest| ==> rest[i] >= 1
  {
    Unfold(t);
    var r := t[1..];
    assert t == [t[0]] + r;
    Unfold(r);
    rest := r[1..];
    assert r == [r[0]] + rest;
  }

  /** The positive, descending sequences adding up to 5 are the seven partitions of 5. */
  lemma PartitionsOfFive(t: seq<nat>)
    requires Descending(t) && Sum(t) == 5 && forall i :: 0 <= i < |t| ==> t[i] >= 1
    ensures t == [5] || t == [4, 1] || t == [3, 2] || t == [3, 1, 1] || t == [2, 2, 1]
         || t == [2, 1, 1, 1] || t == [1, 1, 1, 1, 1]
  {
    if t == [] {
      assert false;
    } else if t[0] == 1 {
      AllOnes(t, 5);
      assert seq(5, i => 1) == [1, 1, 1, 1, 1];
    } else if |t| == 1 {
      Unfold(t);
      assert t[1..] == [];
    } else if t[1] == 1 {
      PartitionsWithOnes(t);
    } else {
      PartitionsWithPairs(t);
    }
  }

  /** Each partition of five card counts gives its hand type, so a five-card hand is never
      Undetermined. */
  lemma FiveCardClassification<T(!new)>(h: seq<T>)
    requires |h| == 5
    ensures SortedCounts(h) == [5] <==> HandTypeOf(h) == FiveOfAKind
    ensures SortedCounts(h) == [4, 1] <==> HandTypeOf(h) == FourOfAKind
    ensures SortedCounts(h) == [3, 2] <==> HandTypeOf(h) == FullHouse
    ensures SortedCounts(h) == [3, 1, 1] <==> HandTypeOf(h) == ThreeOfAKind
    ensures SortedCounts(h) == [2, 2, 1] <==> HandTypeOf(h) == TwoPair
    ensures SortedCounts(h) == [2, 1, 1, 1] <==> HandTypeOf(h) == OnePair
    ensures SortedCounts(h) == [1, 1, 1, 1, 1] <==> HandTypeOf(h) == HighCard
    ensures HandTypeOf(h) != Undetermined
  {
    SortedCountsFacts(h);
    var t := SortedCounts(h);
    PartitionsOfFive(t);
    ClassifyPartitions(t);
    assert HandTypeOf(h) == Classify(t[0], Second(t));
  }

  /** The hand type each partition of five is classified as, and no other. */
  lemma ClassifyPartitions(t: seq<nat>)
    requires t == [5] || t == [4, 1] || t == [3, 2] || t == [3, 1, 1] || t == [2, 2, 1]
          || t == [2, 1, 1, 1] || t == [1, 1, 1, 1, 1]
    ensures t == [5] <==> Classify(t[0], Second(t)) == FiveOfAKind
    ensures t == [4, 1] <==> Classify(t[0], Second(t)) == FourOfAKind
    ensures t == [3, 2] <==> Classify(t[0], Second(t)) == FullHouse
    ensures t == [3, 1, 1] <==> Classify(t[0], Second(t)) == ThreeOfAKind
    ensures t == [2, 2, 1] <==> Classify(t[0], Second(t)) == TwoPair
    ensures t == [2, 1, 1, 1] <==> Classify(t[0], Second(t)) == OnePair
    ensures t == [1, 1, 1, 1, 1] <==> Classify(t[0], Second(t)) == HighCard
    ensures Classify(t[0], Second(t)) != Undetermined
  {
    var n, a, b := |t|, t[0], Second(t);
    if t == [5] {
      assert n == 1 && a == 5;
    } else if t == [4, 1] {
      assert n == 2 && a == 4;
    } else if t == [3, 2] {
      assert n == 2 && a == 3 && b == 2;
    } else if t == [3, 1, 1] {
      assert n == 3 && a == 3 && b == 1;
    } else if t == [2, 2, 1] {
      assert n == 3 && a == 2 && b == 2;
    } else if t == [2, 1, 1, 1] {
      assert n == 4 && a == 2 && b == 1;
    } else {
      assert n == 5 && a == 1;
    }
  }

  datatype Ordering = Less | Equal | Greater

  function Flip(o: Ordering): Ordering {
    match o
    case Less => Greater
    case Equal => Equal
    case Greater => Less
  }

  function CompareInt(a: int, b: int): Ordering {
    if a < b then Less else if a > b then Greater else Equal
  }

  /** Whether comparing two keys from position i on (up to position 5) reads only positions
      both keys have: the source unwraps the i-th card of both hands. */
  predicate Comparable(a: seq<int>, b: seq<int>, i: nat)
    decreases 6 - i
  {
    i >= 6 || (i < |a| && i < |b| && (a[i] != b[i] || Comparable(a, b, i + 1)))
  }

  /** Lexicographic comparison of positions i to 5 of two keys. */
  function CompareFrom(a: seq<int>, b: seq<int>, i: nat): Ordering
    requires Comparable(a, b, i)
    decreases 6 - i
  {
    if i >= 6 then Equal
    else if a[i] != b[i] then CompareInt(a[i], b[i])
    else CompareFrom(a, b, i + 1)
  }

  /** Swapping the arguments reverses the comparison. */
  lemma {:induction false} CompareFromFlip(a: seq<int>, b: seq<int>, i: nat)
    requires Comparable(a, b, i)
    ensures Comparable(b, a, i) && CompareFrom(b, a, i) == Flip(CompareFrom(a, b, i))
    decreases 6 - i
  {
    if i < 6 && a[i] == b[i] {
      CompareFromFlip(a, b, i + 1);
    }
  }

  /** Two keys compare Equal exactly when they agree on positions i to 5. */
  lemma {:induction false} CompareFromEqual(a: seq<int>, b: seq<int>, i: nat)
    requires |a| >= 6 && |b| >= 6 && i <= 6
    ensures Comparable(a, b, i)
    ensures CompareFrom(a, b, i) == Equal <==> a[i..6] == b[i..6]
    decreases 6 - i
  {
    if i < 6 {
      CompareFromEqual(a, b, i + 1);
      assert a[i..6] == [a[i]] + a[i + 1..6];
      assert b[i..6] == [b[i]] + b[i + 1..6];
    }
  }

  /** Not-greater is transitive: the comparison is a total preorder. */
  lemma {:induction false} CompareFromTransitive(a: seq<int>, b: seq<int>, c: seq<int>, i: nat)
    requires |a| >= 6 && |b| >= 6 && |c| >= 6 && i <= 6
    requires Comparable(a, b, i) && Comparable(b, c, i) && Comparable(a, c, i)
    requires CompareFrom(a, b, i) != Greater && CompareFrom(b, c, i) != Greater
    ensures CompareFrom(a, c, i) != Greater
    decreases 6 - i
  {
    if i < 6 && a[i] == b[i] && b[i] == c[i] {
      CompareFromEqual(a, b, i + 1);
      CompareFromEqual(b, c, i + 1);
      CompareFromEqual(a, c, i + 1);
      CompareFromTransitive(a, b, c, i + 1);
    }
  }

  datatype Play = Play(hand: seq<Card>, handType: HandType, bid: int)

  /** What `play_cmp` compares: the hand type, then the cards from the left. */
  function Key(p: Play): (k: seq<int>)
    ensures |k| == |p.hand| + 1 && k[0] == TypeValue(p.handType)
    ensures forall i :: 0 <= i < |p.hand| ==> k[i + 1] == CardValue(p.hand[i])
  {
    [TypeValue(p.handType)] + seq(|p.hand|, i requires 0 <= i < |p.hand| => CardValue(p.hand[i]) as int)
  }

  /** `play_cmp`: hand types first; on a tie the first five cards from the left, returning
      at the first difference. */
  method PlayCmp(a: Play, b: Play) returns (r: Ordering)
    requires Comparable(Key(a), Key(b), 0)
    ensures r == CompareFrom(Key(a), Key(b), 0)
  {
    r := CompareInt(TypeValue(a.handType), TypeValue(b.handType));
    if r != Equal {
      return r;
    }
    for i := 0 to 5
      invariant Comparable(Key(a), Key(b), i + 1)
      invariant CompareFrom(Key(a), Key(b), 0) == CompareFrom(Key(a), Key(b), i + 1)
    {
      var rb := CompareInt(CardValue(a.hand[i]), CardValue(b.hand[i]));
      if rb != Equal {
        return rb;
      }
    }
    return Equal;
  }

  lemma CardValueInjective(c: Card, d: Card)
    ensures CardValue(c) == CardValue(d) <==> c == d
  {
  }

  /** For hands of at least five cards, `play_cmp` says Equal exactly when the hand types
      and the first five cards agree. */
  lemma PlayCmpEqual(a: Play, b: Play)
    requires |a.hand| >= 5 && |b.hand| >= 5
    ensures Comparable(Key(a), Key(b), 0)
    ensures CompareFrom(Key(a), Key(b), 0) == Equal <==> a.handType == b.handType && a.hand[..5] == b.hand[..5]
  {
    var ka, kb := Key(a), Key(b);
    CompareFromEqual(ka, kb, 0);
    if ka[..6] == kb[..6] {
      assert ka[0] == kb[0];
      TypeValueInjective(a.handType, b.handType);
      forall i | 0 <= i < 5
        ensures a.hand[i] == b.hand[i]
      {
        assert ka[i + 1] == kb[i + 1];
        CardValueInjective(a.hand[i], b.hand[i]);
      }
    }
    if a.handType == b.handType && a.hand[..5] == b.hand[..5] {
      forall i | 0 <= i < 6
        ensures ka[i] == kb[i]
      {
        if i > 0 {
          assert a.hand[i - 1] == a.hand[..5][i - 1];
        }
      }
    }
  }

  /** A play reduced to what the ranking uses: its comparison key and its bid. */
  datatype Ranked = Ranked(key: seq<int>, bid: int)

  predicate WellKeyed(s: seq<Ranked>) {
    forall i :: 0 <= i < |s| ==> |s[i].key| >= 6
  }

  predicate NotGreater(a: Ranked, b: Ranked)
    requires |a.key| >= 6 && |b.key| >= 6
  {
    CompareFromEqual(a.key, b.key, 0);
    CompareFrom(a.key, b.key, 0) != Greater
  }

  predicate Ascending(s: seq<Ranked>)
    requires WellKeyed(s)
  {
    forall i, j :: 0 <= i < j < |s| ==> NotGreater(s[i], s[j])
  }

  lemma Total(a: Ranked, b: Ranked)
    requires |a.key| >= 6 && |b.key| >= 6
    ensures NotGreater(a, b) || NotGreater(b, a)
  {
    CompareFromEqual(a.key, b.key, 0);
    CompareFromFlip(a.key, b.key, 0);
  }

  lemma Transitive(a: Ranked, b: Ranked, c: Ranked)
    requires |a.key| >= 6 && |b.key| >= 6 && |c.key| >= 6
    requires NotGreater(a, b) && NotGreater(b, c)
    ensures NotGreater(a, c)
  {
    CompareFromEqual(a.key, c.key, 0);
    CompareFromTransitive(a.key, b.key, c.key, 0);
  }

  /** Insert x behind every element that is not greater than it, so equal plays keep their
      order (the source's `sort_by` is stable). */
  function Insert(x: Ranked, s: seq<Ranked>): (r: seq<Ranked>)
    requires |x.key| >= 6 && WellKeyed(s)
    ensures multiset(r) == multiset(s) + multiset{x} && |r| == |s| + 1 && WellKeyed(r)
  {
    if s == [] then [x]
    else
      assert s == s[..|s| - 1] + [s[|s| - 1]];
      if !NotGreater(s[|s| - 1], x) then Insert(x, s[..|s| - 1]) + [s[|s| - 1]]
      else s + [x]
  }

  lemma {:induction false} InsertAscending(x: Ranked, s: seq<Ranked>)
    requires |x.key| >= 6 && WellKeyed(s) && Ascending(s)
    ensures Ascending(Insert(x, s))
  {
    if s != [] {
      var last := s[|s| - 1];
      var r := Insert(x, s);
      if !NotGreater(last, x) {
        var s' := s[..|s| - 1];
        InsertAscending(x, s');
        Total(last, x);
        var r' := Insert(x, s');
        assert r == r' + [last];
        forall i | 0 <= i < |r'|
          ensures NotGreater(r'[i], last)
        {
          assert r'[i] in multiset(s') + multiset{x};
          if r'[i] != x {
            assert r'[i] in s';
          }
        }
      } else {
        forall i | 0 <= i < |s|
          ensures NotGreater(s[i], x)
        {
          if i < |s| - 1 {
            Transitive(s[i], last, x);
          }
        }
      }
    }
  }

  /** `all_plays.sort_by(play_cmp)`: a stable sort on the comparison keys. */
  function SortPlays(s: seq<Ranked>): (r: seq<Ranked>)
    requires WellKeyed(s)
    ensures multiset(r) == multiset(s) && |r| == |s| && WellKeyed(r)
  {
    if s == [] then []
    else
      assert s == s[..|s| - 1] + [s[|s| - 1]];
      Insert(s[|s| - 1], SortPlays(s[..|s| - 1]))
  }

  /** The sorted plays are a permutation of the plays, in ascending order. */
  lemma {:induction false} SortPlaysAscending(s: seq<Ranked>)
    requires WellKeyed(s)
    ensures Ascending(SortPlays(s)) && |SortPlays(s)| == |s|
  {
    if s != [] {
      SortPlaysAscending(s[..|s| - 1]);
      InsertAscending(s[|s| - 1], SortPlays(s[..|s| - 1]));
    }
    assert |multiset(SortPlays(s))| == |multiset(s)|;
  }

  /** Plays that rank alike: neither is greater than the other. */
  predicate SameRank(a: Ranked, b: Ranked)
    requires |a.key| >= 6 && |b.key| >= 6
  {
    NotGreater(a, b) && NotGreater(b, a)
  }

  /** The plays of s that rank alike with x, in the order s has them. */
  function Tied(s: seq<Ranked>, x: Ranked): (r: seq<Ranked>)
    requires WellKeyed(s) && |x.key| >= 6
    ensures |r| <= |s|
  {
    if s == [] then []
    else Tied(s[..|s| - 1], x) + (if SameRank(s[|s| - 1], x) then [s[|s| - 1]] else [])
  }

  lemma TiedAppend(s: seq<Ranked>, y: Ranked, x: Ranked)
    requires WellKeyed(s) && |y.key| >= 6 && |x.key| >= 6
    ensures WellKeyed(s + [y])
    ensures Tied(s + [y], x) == Tied(s, x) + (if SameRank(y, x) then [y] else [])
  {
    assert (s + [y])[..|s|] == s;
  }

  /** A play greater than y stays behind y after the insertion. */
  lemma InsertBehind(y: Ranked, t: seq<Ranked>)
    requires |y.key| >= 6 && WellKeyed(t) && t != [] && !NotGreater(t[|t| - 1], y)
    ensures Insert(y, t) == Insert(y, t[..|t| - 1]) + [t[|t| - 1]]
  {
  }

  /** A play is placed behind a last play that is not greater than it. */
  lemma InsertAtEnd(y: Ranked, t: seq<Ranked>)
    requires |y.key| >= 6 && WellKeyed(t) && (t == [] || NotGreater(t[|t| - 1], y))
    ensures Insert(y, t) == t + [y]
  {
  }

  /** Two plays that rank alike with x are not greater than each other. */
  lemma TiedNotGreater(a: Ranked, b: Ranked, x: Ranked)
    requires |a.key| >= 6 && |b.key| >= 6 && |x.key| >= 6
    requires SameRank(a, x) && SameRank(b, x)
    ensures NotGreater(a, b)
  {
    Transitive(a, x, b);
  }

  /** Inserting a play keeps the order of the plays that rank alike with x, and puts the new
      play behind them when it ranks alike too. */
  lemma {:induction false} InsertTied(y: Ranked, t: seq<Ranked>, x: Ranked)
    requires |y.key| >= 6 && WellKeyed(t) && |x.key| >= 6
    ensures Tied(Insert(y, t), x) == Tied(t, x) + (if SameRank(y, x) then [y] else [])
  {
    var ty := if SameRank(y, x) then [y] else [];
    if t == [] || NotGreater(t[|t| - 1], y) {
      InsertAtEnd(y, t);
      TiedAppend(t, y, x);
    } else {
      var t', last := t[..|t| - 1], t[|t| - 1];
      var tl := if SameRank(last, x) then [last] else [];
      assert t == t' + [last];
      TiedAppend(t', last, x);
      InsertBehind(y, t);
      InsertTied(y, t', x);
      TiedAppend(Insert(y, t'), last, x);
      if SameRank(y, x) && SameRank(last, x) {
        TiedNotGreater(last, y, x);
      }
      var before := Tied(t', x);
      if ty == [] {
        assert before + ty == before && before + tl + ty == before + tl;
      } else {
        assert tl == [];
        assert before + ty + tl == before + ty && before + tl == before;
      }
    }
  }

  /** The sort is stable: plays that rank alike come out in the order they went in, which
      fixes the rank of each bid when hands tie. */
  lemma {:induction false} SortPlaysStable(s: seq<Ranked>, x: Ranked)
    requires WellKeyed(s) && |x.key| >= 6
    ensures Tied(SortPlays(s), x) == Tied(s, x)
  {
    if s != [] {
      var init, last := s[..|s| - 1], s[|s| - 1];
      SortPlaysStable(init, x);
      InsertTied(last, SortPlays(init), x);
    }
  }

  function RankWinnings(rank: nat, bid: int): int {
    (rank + 1) * bid
  }

  /** The winnings of the first k plays in ranked order. */
  function WinningsUpTo(s: seq<Ranked>, k: nat): int
    requires k <= |s|
  {
    if k == 0 then 0 else WinningsUpTo(s, k - 1) + RankWinnings(k - 1, s[k - 1].bid)
  }

  /** The winnings loop of `run`: sort the plays, then add rank times bid. */
  method TotalWinnings(plays: seq<Ranked>) returns (winnings: int)
    requires WellKeyed(plays)
    ensures winnings == WinningsUpTo(SortPlays(plays), |plays|)
  {
    var sorted := SortPlays(plays);
    SortPlaysAscending(plays);
    winnings := 0;
    for rank := 0 to |sorted|
      invariant winnings == WinningsUpTo(sorted, rank)
    {
      winnings := winnings + RankWinnings(rank, sorted[rank].bid);
    }
  }

  /** A play as the ranking sees it: the key of its first five cards and its bid. */
  function ToRanked(p: Play): (r: Ranked)
    requires |p.hand| >= 5
    ensures |r.key| == 6
  {
    Ranked(Key(p)[..6], p.bid)
  }

  /** Comparing the five-card keys is comparing the plays with `play_cmp`. */
  lemma ToRankedCompare(a: Play, b: Play)
    requires |a.hand| >= 5 && |b.hand| >= 5
    ensures Comparable(Key(a), Key(b), 0)
    ensures CompareFrom(ToRanked(a).key, ToRanked(b).key, 0) == CompareFrom(Key(a), Key(b), 0)
  {
    CompareFromEqual(Key(a), Key(b), 0);
    CompareFromEqual(ToRanked(a).key, ToRanked(b).key, 0);
    PrefixCompare(Key(a), Key(b), 0);
  }

  /** Only the first six key positions take part in a comparison. */
  lemma {:induction false} PrefixCompare(a: seq<int>, b: seq<int>, i: nat)
    requires |a| >= 6 && |b| >= 6 && i <= 6
    ensures Comparable(a, b, i) && Comparable(a[..6], b[..6], i)
    ensures CompareFrom(a[..6], b[..6], i) == CompareFrom(a, b, i)
    decreases 6 - i
  {
    CompareFromEqual(a, b, i);
    CompareFromEqual(a[..6], b[..6], i);
    if i < 6 {
      PrefixCompare(a, b, i + 1);
    }
  }
}
