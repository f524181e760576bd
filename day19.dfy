/** Day 19: parts with four ratings x, m, a and s are sent through named workflows. Each
    workflow is a list of rules; the first rule that applies names the next workflow, or
    accepts (A) or rejects (R) the part. The answer sums the ratings of accepted parts. */
module Day19 {
  import opened Common

  datatype TestOperation = GT | LT

  /** `TestOperation::from_char`: `>` and `<`; anything else panics (None). */
  function TestOperationFromChar(c: char): (r: Option<TestOperation>)
    ensures r == Some(GT) <==> c == '>'
    ensures r == Some(LT) <==> c == '<'
    ensures r.None? <==> c != '>' && c != '<'
  {
    match c
    case '>' => Some(GT)
    case '<' => Some(LT)
    case _ => None
  }

  function OperationChar(op: TestOperation): char {
    match op
    case GT => '>'
    case LT => '<'
  }

  /** A rule: with a condition, "rating `property` compared with `testValue`"; without
      one it always applies. */
  datatype Rule = Rule(property: Option<char>, testOperation: Option<TestOperation>, testValue: Option<int>, outcome: string)

  /** The characters of a workflow name in the rule grammar: lower-case letters, A and R. */
  predicate IsNameChar(c: char) {
    'a' <= c <= 'z' || c == 'A' || c == 'R'
  }

  predicate AllName(s: string) {
    forall i :: 0 <= i < |s| ==> IsNameChar(s[i])
  }

  /** The end of the run of name characters that starts at p. */
  function NameRunEnd(s: string, p: nat): (q: nat)
    requires p <= |s|
    ensures p <= q <= |s|
    ensures AllName(s[p..q])
    ensures q < |s| ==> !IsNameChar(s[q])
    decreases |s| - p
  {
    if p < |s| && IsNameChar(s[p]) then NameRunEnd(s, p + 1) else p
  }

  /** A run of name characters followed by another character ends there. */
  lemma {:induction false} NameRunEndAt(s: string, p: nat, q: nat)
    requires p <= q <= |s| && AllName(s[p..q]) && (q < |s| ==> !IsNameChar(s[q]))
    ensures NameRunEnd(s, p) == q
    decreases q - p
  {
    if p < q {
      assert s[p] == s[p..q][0];
      assert s[p + 1..q] == s[p..q][1..];
      NameRunEndAt(s, p + 1, q);
    }
  }

  /** The text of a conditional rule, with the operator at i and the colon at j: a
      non-empty name, `<` or `>`, a non-empty run of digits, `:` and a non-empty name. */
  predicate ConditionAt(s: string, i: nat, j: nat) {
    0 < i && i + 1 < j && j + 1 < |s| && AllName(s[..i]) && TestOperationFromChar(s[i]).Some?
    && AllDigits(s[i + 1..j]) && s[j] == ':' && AllName(s[j + 1..])
  }

  /** `Rule::from_str`: `name<digits:outcome` or `name>digits:outcome` gives a rule on the
      first character of the name; a bare name gives a rule without a condition; anything
      else panics (None). This is what the two anchored patterns of the source accept:
      names cannot contain `<`, `>` or `:`, so each part ends where the next begins. */
  function RuleFromStr(s: string): (r: Option<Rule>)
    ensures r.Some? ==> |r.value.outcome| > 0 && AllName(r.value.outcome)
    ensures r.Some? && r.value.property.None? ==>
      AllName(s) && r.value == Rule(None, None, None, s)
    ensures r.Some? && r.value.property.Some? ==>
      |s| > 0 && r.value.property.value == s[0] && IsNameChar(s[0])
      && r.value.testOperation.Some? && OperationChar(r.value.testOperation.value) in s
      && r.value.testValue.Some? && r.value.testValue.value >= 0
    ensures r.Some? && r.value.property.Some? ==>
      exists i: nat, j: nat :: ConditionAt(s, i, j)
        && r.value.property == Some(s[0]) && r.value.testOperation == TestOperationFromChar(s[i])
        && r.value.testValue == Some(DecimalValue(s[i + 1..j])) && r.value.outcome == s[j + 1..]
  {
    var i := NameRunEnd(s, 0);
    var cond :=
      if 0 < i < |s| && TestOperationFromChar(s[i]).Some? then
        var j := DigitRunEnd(s, i + 1);
        if i + 1 < j < |s| - 1 && s[j] == ':' && AllName(s[j + 1..]) then
          assert s[0] == s[0..i][0];
          assert ConditionAt(s, i, j);
          Some(Rule(Some(s[0]), TestOperationFromChar(s[i]), Some(DecimalValue(s[i + 1..j])), s[j + 1..]))
        else None
      else None;
    if cond.Some? then cond
    else if |s| > 0 && AllName(s) then Some(Rule(None, None, None, s))
    else None
  }

  /** Every text of conditional-rule shape parses, as the rule it spells. */
  lemma RuleFromStrCondition(s: string, i: nat, j: nat)
    requires ConditionAt(s, i, j)
    ensures RuleFromStr(s) == Some(Rule(Some(s[0]), TestOperationFromChar(s[i]), Some(DecimalValue(s[i + 1..j])), s[j + 1..]))
  {
    assert s[0..i] == s[..i];
    NameRunEndAt(s, 0, i);
    DigitRunEndAt(s, i + 1, j);
  }

  /** Every non-empty name parses as a rule without a condition. */
  lemma RuleFromStrBareName(s: string)
    requires |s| > 0 && AllName(s)
    ensures RuleFromStr(s) == Some(Rule(None, None, None, s))
  {
    assert s[0..|s|] == s;
    NameRunEndAt(s, 0, |s|);
  }

  /** The parse fails (the source panics) exactly when the text is neither a bare name
      nor a conditional rule. */
  lemma RuleFromStrNone(s: string)
    ensures RuleFromStr(s).None? <==> !(|s| > 0 && AllName(s)) && forall i: nat, j: nat :: !ConditionAt(s, i, j)
  {
    if |s| > 0 && AllName(s) {
      RuleFromStrBareName(s);
    }
    forall i: nat, j: nat | ConditionAt(s, i, j)
      ensures RuleFromStr(s).Some?
    {
      RuleFromStrCondition(s, i, j);
    }
  }

  /** A rule as the puzzle writes it (a condition on a single-letter rating). */
  predicate Writable(r: Rule) {
    |r.outcome| > 0 && AllName(r.outcome)
    && (r.property.Some? ==>
          IsNameChar(r.property.value) && r.testOperation.Some? && r.testValue.Some? && r.testValue.value >= 0)
    && (r.property.None? ==> r.testOperation.None? && r.testValue.None?)
  }

  function FormatRule(r: Rule): string
    requires Writable(r)
  {
    if r.property.None? then r.outcome
    else [r.property.value, OperationChar(r.testOperation.value)] + DecimalString(r.testValue.value) + ":" + r.outcome
  }

  /** Reading back a written rule gives that rule. */
  lemma FormatRuleRoundTrip(r: Rule)
    requires Writable(r)
    ensures RuleFromStr(FormatRule(r)) == Some(r)
  {
    var s := FormatRule(r);
    if r.property.Some? {
      var ds := DecimalString(r.testValue.value);
      var j := 2 + |ds|;
      assert s[1] == OperationChar(r.testOperation.value);
      NameRunEndAt(s, 0, 1);
      assert s[2..j] == ds;
      assert s[j] == ':';
      DigitRunEndAt(s, 2, j);
      assert s[j + 1..] == r.outcome;
    } else {
      NameRunEndAt(s, 0, |s|);
    }
  }

  /** A part and its four ratings. */
  datatype Item = Item(x: int, m: int, a: int, s: int)

  predicate IsRating(c: char) {
    c == 'x' || c == 'm' || c == 'a' || c == 's'
  }

  /** `Item::get_by_char`: the rating a letter names; other letters panic. */
  function GetByChar(item: Item, c: char): (v: int)
    requires IsRating(c)
  {
    match c
    case 'x' => item.x
    case 'm' => item.m
    case 'a' => item.a
    case 's' => item.s
  }

  /** Two parts with the same four ratings are the same part. */
  lemma RatingsDetermineItem(p: Item, q: Item)
    requires forall c :: IsRating(c) ==> GetByChar(p, c) == GetByChar(q, c)
    ensures p == q
  {
    assert GetByChar(p, 'x') == GetByChar(q, 'x') && GetByChar(p, 'm') == GetByChar(q, 'm');
    assert GetByChar(p, 'a') == GetByChar(q, 'a') && GetByChar(p, 's') == GetByChar(q, 's');
  }

  /** `Item::get_item_sum`: the four ratings `get_by_char` reads, added up. */
  function GetItemSum(item: Item): (t: int)
    ensures t == GetByChar(item, 'x') + GetByChar(item, 'm') + GetByChar(item, 'a') + GetByChar(item, 's')
  {
    item.x + item.m + item.a + item.s
  }

  /** The item with the rating c set to v. */
  function Assign(item: Item, c: char, v: int): (r: Item)
    requires IsRating(c)
    ensures GetByChar(r, c) == v
    ensures forall d :: IsRating(d) && d != c ==> GetByChar(r, d) == GetByChar(item, d)
  {
    match c
    case 'x' => item.(x := v)
    case 'm' => item.(m := v)
    case 'a' => item.(a := v)
    case 's' => item.(s := v)
  }

  /** Setting one rating changes the rating sum by the difference. */
  lemma ItemSumAssign(item: Item, c: char, v: int)
    requires IsRating(c)
    ensures GetItemSum(Assign(item, c, v)) == GetItemSum(item) - GetByChar(item, c) + v
  {
  }

  /** Setting a rating to the value it already has changes nothing. */
  lemma AssignOwnRating(item: Item, c: char)
    requires IsRating(c)
    ensures Assign(item, c, GetByChar(item, c)) == item
  {
    RatingsDetermineItem(Assign(item, c, GetByChar(item, c)), item);
  }

  /** One `p=v` property of `Item::from_str`: the value after the first two characters and
      the rating named by the first; a short property, a bad value or an unknown rating
      panics (None). */
  function ParseProperty(p: string): (r: Option<(char, int)>)
    ensures r.Some? ==> (|p| >= 2 && IsRating(r.value.0) && r.value.0 == p[0]
      && ParseInt(p[2..]) == Some(r.value.1))
  {
    if |p| < 2 then None
    else
      match ParseInt(p[2..])
      case None => None
      case Some(v) => if IsRating(p[0]) then Some((p[0], v)) else None
  }

  /** The item the first n properties build, starting from all ratings 0. */
  function ItemFrom(props: seq<string>, n: nat): (r: Option<Item>)
    requires n <= |props|
  {
    if n == 0 then Some(Item(0, 0, 0, 0))
    else
      match (ItemFrom(props, n - 1), ParseProperty(props[n - 1]))
      case (Some(item), Some((c, v))) => Some(Assign(item, c, v))
      case _ => None
  }

  /** Once a property fails to parse, the whole item does. */
  lemma {:induction false} ItemFromFails(props: seq<string>, k: nat, n: nat)
    requires k <= n <= |props| && ItemFrom(props, k).None?
    ensures ItemFrom(props, n).None?
    decreases n - k
  {
    if k < n {
      ItemFromFails(props, k, n - 1);
    }
  }

  /** A rating no property mentions stays 0. */
  lemma {:induction false} ItemFromUnmentioned(props: seq<string>, n: nat, c: char)
    requires n <= |props| && IsRating(c) && ItemFrom(props, n).Some?
    requires forall k :: 0 <= k < n ==> |props[k]| == 0 || props[k][0] != c
    ensures GetByChar(ItemFrom(props, n).value, c) == 0
  {
    if n > 0 {
      ItemFromUnmentioned(props, n - 1, c);
    }
  }

  /** A rating holds the value of the last property that mentions it. */
  lemma {:induction false} ItemFromLastWins(props: seq<string>, n: nat, k: nat)
    requires k < n <= |props| && ItemFrom(props, n).Some?
    requires ParseProperty(props[k]).Some?
    requires forall l :: k < l < n ==> |props[l]| == 0 || props[l][0] != props[k][0]
    ensures GetByChar(ItemFrom(props, n).value, props[k][0]) == ParseProperty(props[k]).value.1
  {
    if n > k + 1 {
      ItemFromLastWins(props, n - 1, k);
    }
  }

  /** `Item::from_str`: start from all ratings 0 and set one rating per comma-separated
      property, in order. */
  method ItemFromStr(s: string) returns (r: Option<Item>)
    ensures r == ItemFrom(Split(s, ','), |Split(s, ',')|)
  {
    var properties := Split(s, ',');
    var newItem := Item(0, 0, 0, 0);
    for k := 0 to |properties|
      invariant ItemFrom(properties, k) == Some(newItem)
    {
      var property := properties[k];
      if |property| < 2 {
        ItemFromFails(properties, k + 1, |properties|);
        return None;
      }
      var value := ParseInt(property[2..]);
      if value.None? || !IsRating(property[0]) {
        ItemFromFails(properties, k + 1, |properties|);
        return None;
      }
      match property[0] {
        case 'x' => newItem := newItem.(x := value.value);
        case 'm' => newItem := newItem.(m := value.value);
        case 'a' => newItem := newItem.(a := value.value);
        case 's' => newItem := newItem.(s := value.value);
      }
    }
    r := Some(newItem);
  }

  /** The rule can be applied without panicking: a condition names a rating and has an
      operation and a value. */
  predicate ValidRule(rule: Rule) {
    rule.property.Some? ==> IsRating(rule.property.value) && rule.testOperation.Some? && rule.testValue.Some?
  }

  /** `Rule::apply_rule`: the outcome when the rule applies, else None. */
  function ApplyRule(rule: Rule, item: Item): (r: Option<string>)
    requires ValidRule(rule)
    ensures r.Some? ==> r.value == rule.outcome
    ensures rule.property.None? ==> r.Some?
    ensures rule.property.Some? && rule.testOperation.value == GT ==>
      (r.Some? <==> GetByChar(item, rule.property.value) > rule.testValue.value)
    ensures rule.property.Some? && rule.testOperation.value == LT ==>
      (r.Some? <==> GetByChar(item, rule.property.value) < rule.testValue.value)
  {
    if rule.property.Some? then
      var itemValue := GetByChar(item, rule.property.value);
      var testValue := rule.testValue.value;
      if (match rule.testOperation.value
          case GT => itemValue > testValue
          case LT => itemValue < testValue)
      then Some(rule.outcome)
      else None
    else Some(rule.outcome)
  }

  /** What running a workflow from rule k on does: the first rule that applies gives the
      outcome; running off the end, or meeting a rule that cannot be applied first,
      panics. */
  datatype FilterResult = Outcome(name: string) | NoRuleApplies | InvalidRule

  function FilterFrom(filter: seq<Rule>, item: Item, k: nat): (r: FilterResult)
    requires k <= |filter|
    ensures r.Outcome? ==> exists i :: k <= i < |filter| && FirstApplies(filter, item, k, i) && r.name == filter[i].outcome
    decreases |filter| - k
  {
    if k == |filter| then NoRuleApplies
    else if !ValidRule(filter[k]) then InvalidRule
    else match ApplyRule(filter[k], item)
      case Some(o) => assert FirstApplies(filter, item, k, k); Outcome(o)
      case None =>
        var r := FilterFrom(filter, item, k + 1);
        if r.Outcome? then
          var i :| k + 1 <= i < |filter| && FirstApplies(filter, item, k + 1, i) && r.name == filter[i].outcome;
          assert FirstApplies(filter, item, k, i);
          r
        else r
  }

  /** Rule i applies to the item, and every rule from k to before i is valid and does not. */
  predicate FirstApplies(filter: seq<Rule>, item: Item, k: nat, i: nat)
    requires k <= i < |filter|
  {
    (forall j :: k <= j < i ==> ValidRule(filter[j]) && ApplyRule(filter[j], item).None?)
    && ValidRule(filter[i]) && ApplyRule(filter[i], item).Some?
  }

  /** A rule that applies, with every rule before it valid and not applying, is the one
      the workflow's outcome comes from. */
  lemma {:induction false} FilterFromFirst(filter: seq<Rule>, item: Item, k: nat, i: nat)
    requires k <= i < |filter| && FirstApplies(filter, item, k, i)
    ensures FilterFrom(filter, item, k) == Outcome(filter[i].outcome)
    decreases i - k
  {
    if k < i {
      FilterFromFirst(filter, item, k + 1, i);
    }
  }

  /** `run_filter`: try the rules in order until one applies. The source panics when none
      applies or a rule it tries cannot be applied, so the workflow must give an outcome. */
  method RunFilter(filter: seq<Rule>, item: Item) returns (outcome: string)
    requires FilterFrom(filter, item, 0).Outcome?
    ensures outcome == FilterFrom(filter, item, 0).name
  {
    var k := 0;
    var result: Option<string> := None;
    while result.None?
      invariant k <= |filter|
      invariant result.None? ==> FilterFrom(filter, item, k) == FilterFrom(filter, item, 0)
      invariant result.Some? ==> result.value == FilterFrom(filter, item, 0).name
      decreases |filter| - k, result.None?
    {
      var rule := filter[k];
      result := ApplyRule(rule, item);
      k := k + 1;
    }
    outcome := result.value;
  }

  type Filters = map<string, seq<Rule>>

  /** Where the chain of workflows from `name` ends for the item: at A or R, or None when
      the source panics (a missing workflow, a workflow without an outcome) or the chain
      is longer than the fuel allows. */
  function ChainEnd(filters: Filters, item: Item, name: string, fuel: nat): (r: Option<string>)
    ensures r.Some? ==> r.value == "A" || r.value == "R"
    decreases fuel
  {
    if name == "A" || name == "R" then Some(name)
    else if fuel == 0 || name !in filters then None
    else match FilterFrom(filters[name], item, 0)
      case Outcome(next) => ChainEnd(filters, item, next, fuel - 1)
      case _ => None
  }

  /** More fuel does not change where a finished chain ends. */
  lemma {:induction false} ChainEndMoreFuel(filters: Filters, item: Item, name: string, fuel: nat, more: nat)
    requires ChainEnd(filters, item, name, fuel).Some? && fuel <= more
    ensures ChainEnd(filters, item, name, more) == ChainEnd(filters, item, name, fuel)
    decreases fuel
  {
    if name != "A" && name != "R" {
      var next := FilterFrom(filters[name], item, 0).name;
      ChainEndMoreFuel(filters, item, next, fuel - 1, more - 1);
    }
  }

  /** The inner loop of `filter_items_sum_accepted`: follow the workflows from `in`. */
  method RunChain(filters: Filters, item: Item, fuel: nat) returns (end: Option<string>)
    ensures end == ChainEnd(filters, item, "in", fuel)
  {
    var targetRule := "in";
    var left := fuel;
    while targetRule != "A" && targetRule != "R"
      invariant ChainEnd(filters, item, targetRule, left) == ChainEnd(filters, item, "in", fuel)
      decreases left
    {
      if left == 0 || targetRule !in filters || !FilterFrom(filters[targetRule], item, 0).Outcome? {
        return None;
      }
      targetRule := RunFilter(filters[targetRule], item);
      left := left - 1;
    }
    end := Some(targetRule);
  }

  /** The sum of the rating sums of the accepted parts, or None when any chain does. */
  function SumAccepted(filters: Filters, items: seq<Item>, fuel: nat): Option<int> {
    if items == [] then Some(0)
    else
      var last := items[|items| - 1];
      match (SumAccepted(filters, items[..|items| - 1], fuel), ChainEnd(filters, last, "in", fuel))
      case (Some(t), Some(end)) => Some(t + if end == "A" then GetItemSum(last) else 0)
      case _ => None
  }

  /** Once a chain fails, the whole sum does. */
  lemma {:induction false} SumAcceptedFails(filters: Filters, items: seq<Item>, fuel: nat, k: nat)
    requires k <= |items| && SumAccepted(filters, items[..k], fuel).None?
    ensures SumAccepted(filters, items, fuel).None?
    decreases |items| - k
  {
    if k < |items| {
      assert items[..k + 1][..k] == items[..k];
      SumAcceptedFails(filters, items, fuel, k + 1);
    } else {
      assert items[..k] == items;
    }
  }

  lemma SumAcceptedStep(filters: Filters, items: seq<Item>, fuel: nat, k: nat)
    requires k < |items|
    ensures SumAccepted(filters, items[..k + 1], fuel) ==
      match (SumAccepted(filters, items[..k], fuel), ChainEnd(filters, items[k], "in", fuel))
      case (Some(t), Some(end)) => Some(t + if end == "A" then GetItemSum(items[k]) else 0)
      case _ => None
  {
    assert items[..k + 1][..k] == items[..k];
  }

  /** The accepted sum lies between 0 and the sum over all parts when ratings are not
      negative. */
  lemma {:induction false} SumAcceptedBounds(filters: Filters, items: seq<Item>, fuel: nat)
    requires forall i :: 0 <= i < |items| ==> GetItemSum(items[i]) >= 0
    requires SumAccepted(filters, items, fuel).Some?
    ensures 0 <= SumAccepted(filters, items, fuel).value <= Sum(seq(|items|, i requires 0 <= i < |items| => GetItemSum(items[i])))
  {
    if items != [] {
      var init := items[..|items| - 1];
      SumAcceptedBounds(filters, init, fuel);
      var all := seq(|items|, i requires 0 <= i < |items| => GetItemSum(items[i]));
      assert all[..|all| - 1] == seq(|init|, i requires 0 <= i < |init| => GetItemSum(init[i]));
    }
  }

  /** `filter_items_sum_accepted`: each part through the chain from `in`, its rating sum
      added when it is accepted. */
  method FilterItemsSumAccepted(filters: Filters, items: seq<Item>, fuel: nat) returns (r: Option<int>)
    ensures r == SumAccepted(filters, items, fuel)
  {
    var sum := 0;
    for k := 0 to |items|
      invariant SumAccepted(filters, items[..k], fuel) == Some(sum)
    {
      var item := items[k];
      var end := RunChain(filters, item, fuel);
      SumAcceptedStep(filters, items, fuel, k);
      if end.None? {
        SumAcceptedFails(filters, items, fuel, k + 1);
        return None;
      }
      if end.value == "A" {
        sum := sum + GetItemSum(item);
      }
    }
    assert items[..|items|] == items;
    r := Some(sum);
  }
}
