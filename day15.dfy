/** Day 15: the HASH algorithm (add the character code, multiply by 17, keep the remainder
    modulo 256) and the HASHMAP procedure, which files labelled lenses into 256 boxes. */
module Day15 {
  import opened Common

  /** One step of the hash: `hash_char`. The state stays below 256, so the `u32` of the
      source never overflows (a character code is below 0x110000). */
  function CharStep(h: nat, c: char): (r: nat)
    ensures r < 256
  {
    ((h + c as int) * 17) % 256
  }

  /** The state after hashing s, one character after the other, from state h. */
  function HashFrom(h: nat, s: string): nat {
    if s == [] then h else CharStep(HashFrom(h, s[..|s| - 1]), s[|s| - 1])
  }

  /** The hash of a string, from a fresh state. */
  function Hash(s: string): nat {
    HashFrom(0, s)
  }

  /** Hashing a string one piece after the other is hashing the whole. */
  lemma {:induction false} HashFromAppend(h: nat, s: string, t: string)
    ensures HashFrom(h, s + t) == HashFrom(HashFrom(h, s), t)
  {
    if t == [] {
      assert s + t == s;
    } else {
      var t' := t[..|t| - 1];
      HashFromAppend(h, s, t');
      assert (s + t)[..|s + t| - 1] == s + t';
    }
  }

  /** A hash is always a box number: below 256. */
  lemma HashBound(h: nat, s: string)
    requires h < 256
    ensures HashFrom(h, s) < 256
  {
  }

  /** The hasher of the source, whose state is updated in place. */
  class AocHash {
    var state: nat

    /** Fresh hashers start at 0 (`new`). */
    constructor()
      ensures state == 0
    {
      state := 0;
    }

    predicate Valid()
      reads this
    {
      state < 256
    }

    /** `initialise`. */
    method Initialise()
      modifies this
      ensures state == 0 && Valid()
    {
      state := 0;
    }

    /** `hash_char`. */
    method HashChar(c: char)
      modifies this
      ensures state == CharStep(old(state), c) && Valid()
    {
      state := state + c as int;
      state := state * 17;
      state := state % 256;
    }

    /** `hash_str`: every character in turn. */
    method HashStr(s: string)
      modifies this
      ensures state == HashFrom(old(state), s)
      ensures old(Valid()) ==> Valid()
    {
      ghost var h := state;
      for i := 0 to |s|
        invariant state == HashFrom(h, s[..i])
      {
        assert s[..i + 1][..i] == s[..i];
        HashChar(s[i]);
      }
      assert s[..|s|] == s;
      if h < 256 {
        HashBound(h, s);
      }
    }

    /** `finish`: the state as a byte. */
    function Finish(): (r: nat)
      reads this
      ensures r < 256
      ensures Valid() ==> r == state
    {
      state % 256
    }
  }

  /** The hash of one item through a fresh hasher, as both parts compute it. */
  method HashOf(s: string) returns (h: nat)
    ensures h == Hash(s)
  {
    var hasher := new AocHash();
    hasher.Initialise();
    hasher.HashStr(s);
    HashBound(0, s);
    h := hasher.Finish();
  }

  /** `parse_input_a` after reading: the sum of the hashes of the items. */
  method SumOfHashes(items: seq<string>) returns (total: int)
    ensures total == Sum(seq(|items|, i requires 0 <= i < |items| => Hash(items[i]) as int))
    ensures 0 <= total < 256 * |items| || items == []
  {
    total := 0;
    for i := 0 to |items|
      invariant total == Sum(seq(i, j requires 0 <= j < i => Hash(items[j]) as int))
      invariant 0 <= total <= 255 * i
    {
      var h := HashOf(items[i]);
      HashBound(0, items[i]);
      assert seq(i + 1, j requires 0 <= j < i + 1 => Hash(items[j]) as int)[..i]
        == seq(i, j requires 0 <= j < i => Hash(items[j]) as int);
      total := total + h;
    }
  }

  datatype Lens = Lens(name: string, focal: nat)

  /** The label of an item: the item without `-`, `=` and digits. */
  function Label(item: string): (r: string)
    ensures |r| <= |item|
    ensures forall c :: c in r <==> c in item && c != '-' && c != '=' && !IsDigit(c)
  {
    if item == [] then []
    else
      var c := item[|item| - 1];
      Label(item[..|item| - 1]) + (if c == '-' || c == '=' || IsDigit(c) then [] else [c])
  }

  /** No two lenses of a box share a label (a key of an `IndexMap`). */
  predicate UniqueLabels(ls: seq<Lens>) {
    forall i, j :: 0 <= i < j < |ls| ==> ls[i].name != ls[j].name
  }

  predicate HasLabel(ls: seq<Lens>, name: string) {
    exists i :: 0 <= i < |ls| && ls[i].name == name
  }

  /** `shift_remove`: take out the lens with the label, keeping the others in order. */
  function RemoveLens(ls: seq<Lens>, name: string): (r: seq<Lens>)
    ensures !HasLabel(r, name)
  {
    if ls == [] then []
    else if ls[0].name == name then RemoveLens(ls[1..], name)
    else [ls[0]] + RemoveLens(ls[1..], name)
  }

  /** `insert`: a lens with a label already in the box replaces the old one in its slot;
      a new label goes to the end. */
  function InsertLens(ls: seq<Lens>, name: string, focal: nat): (r: seq<Lens>)
    ensures HasLabel(r, name)
  {
    if ls == [] then
      var r := [Lens(name, focal)];
      assert r[0].name == name;
      r
    else if ls[0].name == name then
      var r := [Lens(name, focal)] + ls[1..];
      assert r[0].name == name;
      r
    else
      var rest := InsertLens(ls[1..], name, focal);
      var r := [ls[0]] + rest;
      assert forall i :: 0 <= i < |rest| ==> r[i + 1] == rest[i];
      r
  }

  /** In a box with unique labels, removing a label present in slot i closes the gap, and
      removing an absent one changes nothing. */
  lemma RemoveLensSlot(ls: seq<Lens>, name: string)
    requires UniqueLabels(ls)
    ensures !HasLabel(ls, name) ==> RemoveLens(ls, name) == ls
    ensures forall i :: 0 <= i < |ls| && ls[i].name == name ==> RemoveLens(ls, name) == ls[..i] + ls[i + 1..]
    ensures UniqueLabels(RemoveLens(ls, name))
  {
    RemoveAbsent(ls, name);
    RemoveSlot(ls, name);
    RemoveUnique(ls, name);
  }

  lemma {:induction false} RemoveAbsent(ls: seq<Lens>, name: string)
    ensures !HasLabel(ls, name) ==> RemoveLens(ls, name) == ls
  {
    if ls != [] && !HasLabel(ls, name) {
      assert ls[0].name != name;
      RemoveAbsent(ls[1..], name);
      assert ls == [ls[0]] + ls[1..];
    }
  }

  lemma {:induction false} RemoveSlot(ls: seq<Lens>, name: string)
    requires UniqueLabels(ls)
    ensures forall i :: 0 <= i < |ls| && ls[i].name == name ==> RemoveLens(ls, name) == ls[..i] + ls[i + 1..]
  {
    if ls != [] {
      RemoveSlot(ls[1..], name);
      if ls[0].name == name {
        assert !HasLabel(ls[1..], name);
        RemoveAbsent(ls[1..], name);
        assert ls[..0] + ls[1..] == ls[1..];
      } else {
        forall i | 0 <= i < |ls| && ls[i].name == name
          ensures RemoveLens(ls, name) == ls[..i] + ls[i + 1..]
        {
          assert ls[1..][i - 1].name == name;
          assert ls[..i] + ls[i + 1..] == [ls[0]] + (ls[1..][..i - 1] + ls[1..][i..]);
        }
      }
    }
  }

  lemma {:induction false} RemoveUnique(ls: seq<Lens>, name: string)
    requires UniqueLabels(ls)
    ensures UniqueLabels(RemoveLens(ls, name))
  {
    if ls != [] {
      RemoveUnique(ls[1..], name);
      if ls[0].name != name {
        RemoveKeepsLenses(ls[1..], name);
        var rest := RemoveLens(ls[1..], name);
        var r := [ls[0]] + rest;
        forall i, j | 0 <= i < j < |r|
          ensures r[i].name != r[j].name
        {
          assert r[j] == rest[j - 1] && r[j] in ls[1..];
          if i > 0 {
            assert r[i] == rest[i - 1];
          }
        }
      }
    }
  }

  /** Removing only ever drops lenses. */
  lemma {:induction false} RemoveKeepsLenses(ls: seq<Lens>, name: string)
    ensures forall x :: x in RemoveLens(ls, name) ==> x in ls
  {
    if ls != [] {
      RemoveKeepsLenses(ls[1..], name);
    }
  }

  /** Inserting a label present in slot i puts the new focal length in that slot; a new
      label is appended; labels stay unique. */
  lemma InsertLensSlot(ls: seq<Lens>, name: string, focal: nat)
    requires UniqueLabels(ls)
    ensures !HasLabel(ls, name) ==> InsertLens(ls, name, focal) == ls + [Lens(name, focal)]
    ensures forall i :: 0 <= i < |ls| && ls[i].name == name ==> InsertLens(ls, name, focal) == ls[i := Lens(name, focal)]
    ensures UniqueLabels(InsertLens(ls, name, focal))
  {
    InsertAbsent(ls, name, focal);
    InsertSlot(ls, name, focal);
    InsertUnique(ls, name, focal);
  }

  lemma {:induction false} InsertAbsent(ls: seq<Lens>, name: string, focal: nat)
    ensures !HasLabel(ls, name) ==> InsertLens(ls, name, focal) == ls + [Lens(name, focal)]
  {
    if ls != [] && !HasLabel(ls, name) {
      assert ls[0].name != name;
      InsertAbsent(ls[1..], name, focal);
      assert ls + [Lens(name, focal)] == [ls[0]] + (ls[1..] + [Lens(name, focal)]);
    }
  }

  lemma {:induction false} InsertSlot(ls: seq<Lens>, name: string, focal: nat)
    requires UniqueLabels(ls)
    ensures forall i :: 0 <= i < |ls| && ls[i].name == name ==> InsertLens(ls, name, focal) == ls[i := Lens(name, focal)]
  {
    if ls != [] {
      InsertSlot(ls[1..], name, focal);
      if ls[0].name != name {
        forall i | 0 <= i < |ls| && ls[i].name == name
          ensures InsertLens(ls, name, focal) == ls[i := Lens(name, focal)]
        {
          assert ls[1..][i - 1].name == name;
          assert ls[i := Lens(name, focal)] == [ls[0]] + ls[1..][i - 1 := Lens(name, focal)];
        }
      } else {
        assert ls[0 := Lens(name, focal)] == [Lens(name, focal)] + ls[1..];
      }
    }
  }

  lemma {:induction false} InsertUnique(ls: seq<Lens>, name: string, focal: nat)
    requires UniqueLabels(ls)
    ensures UniqueLabels(InsertLens(ls, name, focal))
  {
    if ls != [] {
      InsertUnique(ls[1..], name, focal);
      InsertKeepsLabels(ls[1..], name, focal);
      if ls[0].name != name {
        var rest := InsertLens(ls[1..], name, focal);
        var r := [ls[0]] + rest;
        forall i, j | 0 <= i < j < |r|
          ensures r[i].name != r[j].name
        {
          assert r[j] == rest[j - 1];
          assert r[j] == Lens(name, focal) || r[j] in ls[1..];
          if i > 0 {
            assert r[i] == rest[i - 1];
          }
        }
      } else {
        var r := [Lens(name, focal)] + ls[1..];
        forall i, j | 0 <= i < j < |r|
          ensures r[i].name != r[j].name
        {
          assert r[j] == ls[j];
          if i > 0 {
            assert r[i] == ls[i];
          }
        }
      }
    }
  }

  /** Inserting adds no label other than its own. */
  lemma {:induction false} InsertKeepsLabels(ls: seq<Lens>, name: string, focal: nat)
    ensures forall x :: x in InsertLens(ls, name, focal) ==> x == Lens(name, focal) || x in ls
  {
    if ls != [] {
      InsertKeepsLabels(ls[1..], name, focal);
    }
  }

  type Boxes = map<nat, seq<Lens>>

  /** An item the source can handle: it ends in `-` or in a digit (anything else, and an
      empty item, panics). */
  predicate ValidCommand(item: string) {
    |item| > 0 && (item[|item| - 1] == '-' || IsDigit(item[|item| - 1]))
  }

  /** One step of HASHMAP. `-` removes the label from its box, when the box exists; a
      digit stores the lens with that focal length, in a new box when there is none. */
  function ApplyCommand(boxes: Boxes, item: string): Boxes
    requires ValidCommand(item)
  {
    var name := Label(item);
    var id := Hash(name);
    var last := item[|item| - 1];
    if id in boxes then
      if last == '-' then boxes[id := RemoveLens(boxes[id], name)]
      else boxes[id := InsertLens(boxes[id], name, DigitValue(last))]
    else if last == '-' then boxes
    else boxes[id := [Lens(name, DigitValue(last))]]
  }

  /** Every box number is a byte, every box holds unique labels, and each lens is in the
      box its label hashes to. */
  predicate ValidBoxes(boxes: Boxes) {
    forall id :: id in boxes ==>
      id < 256 && UniqueLabels(boxes[id]) && forall i :: 0 <= i < |boxes[id]| ==> Hash(boxes[id][i].name) == id
  }

  /** Each step keeps the boxes valid. */
  lemma ApplyCommandValid(boxes: Boxes, item: string)
    requires ValidBoxes(boxes) && ValidCommand(item)
    ensures ValidBoxes(ApplyCommand(boxes, item))
  {
    var name := Label(item);
    var id := Hash(name);
    HashBound(0, name);
    if id in boxes {
      RemoveLensSlot(boxes[id], name);
      RemoveKeepsLenses(boxes[id], name);
      if item[|item| - 1] != '-' {
        InsertLensSlot(boxes[id], name, DigitValue(item[|item| - 1]));
        InsertKeepsLabels(boxes[id], name, DigitValue(item[|item| - 1]));
      }
    }
  }

  /** The boxes of part two, changed in place item by item. */
  class LensBoxes {
    var boxes: Boxes

    constructor()
      ensures boxes == map[]
    {
      boxes := map[];
    }

    /** The body of the item loop of `parse_input_b`. */
    method Apply(item: string)
      requires ValidCommand(item)
      modifies this
      ensures boxes == ApplyCommand(old(boxes), item)
      ensures ValidBoxes(old(boxes)) ==> ValidBoxes(boxes)
    {
      var name := Label(item);
      var id := HashOf(name);
      var last := item[|item| - 1];
      if id in boxes {
        if last == '-' {
          boxes := boxes[id := RemoveLens(boxes[id], name)];
        } else {
          boxes := boxes[id := InsertLens(boxes[id], name, DigitValue(last))];
        }
      } else if last != '-' {
        boxes := boxes[id := [Lens(name, DigitValue(last))]];
      }
      if ValidBoxes(old(boxes)) {
        ApplyCommandValid(old(boxes), item);
      }
    }
  }

  /** The focusing power of the first k lenses of box id: (id + 1) * (slot + 1) * focal. */
  function BoxPower(id: nat, ls: seq<Lens>, k: nat): nat
    requires k <= |ls|
  {
    if k == 0 then 0 else BoxPower(id, ls, k - 1) + (id + 1) * k * ls[k - 1].focal
  }

  /** The powers of the boxes numbered below n. */
  function PowerBelow(boxes: Boxes, n: nat): nat {
    if n == 0 then 0
    else PowerBelow(boxes, n - 1) + (if n - 1 in boxes then BoxPower(n - 1, boxes[n - 1], |boxes[n - 1]|) else 0)
  }

  /** `calculate_total_power`. The source visits the boxes in the order of its hash map;
      the model visits them by number, which gives the same sum. Box numbers are `u8`
      values, so every box is below 256. */
  method CalculateTotalPower(boxes: Boxes) returns (total: nat)
    requires forall id :: id in boxes ==> id < 256
    ensures total == PowerBelow(boxes, 256)
  {
    total := 0;
    for id := 0 to 256
      invariant total == PowerBelow(boxes, id)
    {
      if id in boxes {
        var power := BoxTotal(id, boxes[id]);
        total := total + power;
      }
    }
  }

  /** The inner loop of `calculate_total_power` over the slots of one box. */
  method BoxTotal(id: nat, contents: seq<Lens>) returns (power: nat)
    ensures power == BoxPower(id, contents, |contents|)
  {
    power := 0;
    for slot := 0 to |contents|
      invariant power == BoxPower(id, contents, slot)
    {
      power := power + (id + 1) * (slot + 1) * contents[slot].focal;
    }
  }

  /** A box's power is its number plus one times the slot-weighted sum of its focal
      lengths. */
  lemma {:induction false} BoxPowerFactor(id: nat, ls: seq<Lens>, k: nat)
    requires k <= |ls|
    ensures BoxPower(id, ls, k) == (id + 1) * BoxPower(0, ls, k)
  {
    if k > 0 {
      BoxPowerFactor(id, ls, k - 1);
      var p := BoxPower(0, ls, k - 1);
      var f := k * ls[k - 1].focal;
      assert (id + 1) * (id + 1 - id) == id + 1;
      assert (id + 1) * k * ls[k - 1].focal == (id + 1) * f;
      assert (id + 1) * p + (id + 1) * f == (id + 1) * (p + f);
    }
  }

  /** Removing a label that is in no box changes nothing. */
  lemma RemoveAbsentChangesNothing(boxes: Boxes, item: string)
    requires ValidBoxes(boxes) && ValidCommand(item) && item[|item| - 1] == '-'
    requires forall id :: id in boxes ==> !HasLabel(boxes[id], Label(item))
    ensures ApplyCommand(boxes, item) == boxes
  {
    var id := Hash(Label(item));
    if id in boxes {
      RemoveLensSlot(boxes[id], Label(item));
    }
  }
}
