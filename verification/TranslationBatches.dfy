// Greedy packing of translation items into prompts.
module TranslationBatches {
  datatype Item = Item(cacheKey: string, key: string, text: string, textHash: string)

  const MAX_BATCH_ITEMS := 20

  /** The size of the prompt for a batch: two braces, and eight characters of punctuation per item. */
  function EstimateBatchChars(items: seq<Item>): nat {
    if items == [] then 2
    else EstimateBatchChars(items[..|items| - 1]) + |items[|items| - 1].key| + |items[|items| - 1].text| + 8
  }

  /** What the packing loop charges: it counts the two braces once more for every item. */
  function ChargedChars(items: seq<Item>): nat {
    if items == [] then 2
    else ChargedChars(items[..|items| - 1]) + EstimateBatchChars([items[|items| - 1]])
  }

  /** A batch the packer may emit.  A single item may exceed the budget. */
  predicate Fits(batch: seq<Item>, budget: nat) {
    0 < |batch| <= MAX_BATCH_ITEMS && (|batch| > 1 ==> ChargedChars(batch) <= budget)
  }

  function Flatten<T>(parts: seq<seq<T>>): seq<T> {
    if parts == [] then [] else parts[0] + Flatten(parts[1..])
  }

  /** A split of the items into consecutive batches within the limits. */
  ghost predicate Split(batches: seq<seq<Item>>, items: seq<Item>, budget: nat) {
    Flatten(batches) == items && forall b <- batches :: Fits(b, budget)
  }

  /** The packer with an open batch `current` and the items still to come. */
  function Pack(current: seq<Item>, rest: seq<Item>, budget: nat): seq<seq<Item>>
    decreases |rest|
  {
    if rest == [] then if current == [] then [] else [current]
    else if current == [] || Fits(current + [rest[0]], budget) then Pack(current + [rest[0]], rest[1..], budget)
    else [current] + Pack([rest[0]], rest[1..], budget)
  }

  /** After `i` items: the closed batches and the open one, and what the packer still makes of the rest. */
  ghost predicate Packing(batches: seq<seq<Item>>, current: seq<Item>, items: seq<Item>, i: nat, budget: nat) {
    && i <= |items|
    && (current != [] ==> Fits(current, budget))
    && batches + Pack(current, items[i..], budget) == Pack([], items, budget)
  }

  lemma StartPacking(items: seq<Item>, budget: nat)
    ensures Packing([], [], items, 0, budget) && ChargedChars([]) == 2
  {
    assert items[0..] == items;
  }

  lemma {:induction false} NextCharge(current: seq<Item>, item: Item)
    ensures ChargedChars(current + [item]) == ChargedChars(current) + EstimateBatchChars([item])
  {
    assert (current + [item])[..|current|] == current;
  }

  lemma KeepPacking(batches: seq<seq<Item>>, current: seq<Item>, items: seq<Item>, i: nat, budget: nat)
    requires i < |items| && Packing(batches, current, items, i, budget)
    ensures var next := current + [items[i]];
            if current == [] || Fits(next, budget) then Packing(batches, next, items, i + 1, budget)
            else Packing(batches + [current], [items[i]], items, i + 1, budget)
  {
    hide ChargedChars, EstimateBatchChars;
    var rest := items[i..];
    assert rest[0] == items[i] && rest[1..] == items[i + 1..];
    assert batches + ([current] + Pack([items[i]], items[i + 1..], budget))
        == (batches + [current]) + Pack([items[i]], items[i + 1..], budget);
  }

  lemma {:induction false} EndPacking(batches: seq<seq<Item>>, current: seq<Item>, items: seq<Item>, budget: nat)
    requires Packing(batches, current, items, |items|, budget)
    ensures Pack([], items, budget) == batches + (if current == [] then [] else [current])
  {
    assert items[|items|..] == [];
  }

  // ---- Batches cover the items, in order, within the limits ----

  lemma {:induction false} FlattenAppend<T>(a: seq<seq<T>>, b: seq<seq<T>>)
    ensures Flatten(a + b) == Flatten(a) + Flatten(b)
  {
    if a == [] {
      assert a + b == b;
    } else {
      FlattenAppend(a[1..], b);
      assert (a + b)[1..] == a[1..] + b;
    }
  }

  lemma {:induction false} PackSplits(current: seq<Item>, rest: seq<Item>, budget: nat)
    requires current == [] || Fits(current, budget)
    ensures Split(Pack(current, rest, budget), current + rest, budget)
    decreases |rest|
  {
    if rest == [] {
      assert current + rest == current;
      if current != [] {
        assert [current][1..] == [];
      }
    } else {
      assert current + rest == current + [rest[0]] + rest[1..];
      if current == [] || Fits(current + [rest[0]], budget) {
        PackSplits(current + [rest[0]], rest[1..], budget);
      } else {
        PackSplits([rest[0]], rest[1..], budget);
        assert [rest[0]] + rest[1..] == rest;
        FlattenAppend([current], Pack([rest[0]], rest[1..], budget));
        assert [current][1..] == [];
      }
    }
  }

  // ---- Greedy is optimal ----

  lemma {:induction false} ChargePrefix(a: seq<Item>, n: nat)
    requires n <= |a|
    ensures ChargedChars(a[..n]) <= ChargedChars(a)
    decreases |a|
  {
    if n == |a| {
      assert a[..n] == a;
    } else {
      ChargePrefix(a[..|a| - 1], n);
      assert a[..|a| - 1][..n] == a[..n];
    }
  }

  lemma {:induction false} ChargeSuffix(a: seq<Item>, n: nat)
    requires n <= |a|
    ensures ChargedChars(a[n..]) <= ChargedChars(a)
    decreases |a|
  {
    if n == |a| {
      assert a[n..] == [];
      ChargePrefix(a, 0);
    } else {
      ChargeSuffix(a[..|a| - 1], n);
      assert a[n..][..|a| - n - 1] == a[..|a| - 1][n..];
    }
  }

  /** Dropping leading items never costs a batch. */
  lemma {:induction false} DropFront(split: seq<seq<Item>>, items: seq<Item>, n: nat, budget: nat)
    returns (shorter: seq<seq<Item>>)
    requires Split(split, items, budget) && n <= |items|
    ensures Split(shorter, items[n..], budget) && |shorter| <= |split|
    decreases |split|
  {
    if split == [] {
      shorter := [];
    } else {
      var head, tail := split[0], split[1..];
      assert items[|head|..] == Flatten(tail);
      assert head in split && forall b <- tail :: b in split;
      if n < |head| {
        shorter := [head[n..]] + tail;
        ChargeSuffix(head, n);
        FlattenAppend([head[n..]], tail);
        assert [head[n..]][1..] == [];
        assert items[n..] == head[n..] + Flatten(tail);
      } else {
        shorter := DropFront(tail, items[|head|..], n - |head|, budget);
        assert items[|head|..][n - |head|..] == items[n..];
      }
    }
  }

  /** No other split of the open batch and the remaining items uses fewer batches. */
  lemma {:induction false} PackIsFewest(current: seq<Item>, rest: seq<Item>, budget: nat, other: seq<seq<Item>>)
    requires current == [] || Fits(current, budget)
    requires Split(other, current + rest, budget)
    ensures |Pack(current, rest, budget)| <= |other|
    decreases |rest|
  {
    if rest == [] {
    } else if current == [] || Fits(current + [rest[0]], budget) {
      assert current + rest == current + [rest[0]] + rest[1..];
      PackIsFewest(current + [rest[0]], rest[1..], budget, other);
    } else {
      var head, tail := other[0], other[1..];
      var all := current + rest;
      assert head == all[..|head|] && head in other;
      if |head| > |current| {
        assert head[..|current| + 1] == current + [rest[0]];
        ChargePrefix(head, |current| + 1);
        assert false;
      }
      assert all[|head|..] == Flatten(tail) && forall b <- tail :: b in other;
      var later := DropFront(tail, all[|head|..], |current| - |head|, budget);
      assert all[|head|..][|current| - |head|..] == rest == [rest[0]] + rest[1..];
      PackIsFewest([rest[0]], rest[1..], budget, later);
    }
  }

  lemma {:induction false} PackIsBest(items: seq<Item>, budget: nat)
    ensures Split(Pack([], items, budget), items, budget)
    ensures forall other :: Split(other, items, budget) ==> |Pack([], items, budget)| <= |other|
  {
    assert [] + items == items;
    PackSplits([], items, budget);
    forall other | Split(other, items, budget) ensures |Pack([], items, budget)| <= |other| {
      PackIsFewest([], items, budget, other);
    }
  }

  // ---- The packer ----

  method BuildTranslationBatches(items: seq<Item>, budget: nat) returns (batches: seq<seq<Item>>)
    ensures batches == Pack([], items, budget)
    ensures Split(batches, items, budget)
    ensures forall other :: Split(other, items, budget) ==> |batches| <= |other|
  {
    batches := [];
    var current: seq<Item> := [];
    var currentChars := 2;
    StartPacking(items, budget);
    hide Pack, Split, EstimateBatchChars, Packing, ChargedChars;
    for i := 0 to |items|
      invariant currentChars == ChargedChars(current)
      invariant |current| <= MAX_BATCH_ITEMS
      invariant Packing(batches, current, items, i, budget)
    {
      var item := items[i];
      var itemChars := EstimateBatchChars([item]);
      var wouldOverflow := |current| > 0 && currentChars + itemChars > budget;
      var reachedMaxItems := |current| >= MAX_BATCH_ITEMS;
      KeepPacking(batches, current, items, i, budget);
      NextCharge(current, item);
      if wouldOverflow || reachedMaxItems {
        batches := batches + [current];
        current := [];
        currentChars := 2;
        StartPacking(items, budget);
        NextCharge([], item);
        assert current + [item] == [item];
      }
      current := current + [item];
      currentChars := currentChars + itemChars;
    }
    EndPacking(batches, current, items, budget);
    if |current| > 0 {
      batches := batches + [current];
    }
    PackIsBest(items, budget);
  }

  // ---- What the batches weigh ----

  /** The charge never undercounts, so a packed batch of several items keeps the real estimate in budget. */
  lemma {:induction false} ChargeCoversEstimate(batch: seq<Item>, budget: nat)
    ensures EstimateBatchChars(batch) + 2 * |batch| == ChargedChars(batch)
    ensures Fits(batch, budget) && |batch| > 1 ==> EstimateBatchChars(batch) <= budget
  {
    if batch != [] {
      var last := [batch[|batch| - 1]];
      assert last[..0] == [];
      ChargeCoversEstimate(batch[..|batch| - 1], budget);
    }
  }

  // ---- The text of the prompt ----
  //
  // A batch is sent as `JSON.stringify(payload, null, 2)` of the object with a property for every item.

  function Hex(n: nat): char
    requires n < 16
  {
    "0123456789abcdef"[n]
  }

  function Escape(c: char): string {
    if c == '"' || c == '\\' then ['\\', c]
    else if c == '\U{08}' then "\\b"
    else if c == '\t' then "\\t"
    else if c == '\n' then "\\n"
    else if c == '\U{0C}' then "\\f"
    else if c == '\r' then "\\r"
    else if c < ' ' then "\\u00" + [Hex(c as int / 16), Hex(c as int % 16)]
    else [c]
  }

  function Escaped(s: string): string {
    if s == "" then "" else Escape(s[0]) + Escaped(s[1..])
  }

  function Quote(s: string): string {
    "\"" + Escaped(s) + "\""
  }

  function Property(item: Item): string {
    "  " + Quote(item.key) + ": " + Quote(item.text)
  }

  function Properties(items: seq<Item>): string
    requires items != []
  {
    if |items| == 1 then Property(items[0]) else Property(items[0]) + ",\n" + Properties(items[1..])
  }

  /** The JSON text, for items of different keys.  (Names that are array indices come first; the size is the same.) */
  function Payload(items: seq<Item>): string
    requires items != []
  {
    "{\n" + Properties(items) + "\n}"
  }

  predicate PlainChar(c: char) {
    c != '"' && c != '\\' && c >= ' '
  }

  /** Nothing in the string needs escaping. */
  predicate Plain(s: string) {
    forall c <- s :: PlainChar(c)
  }

  predicate AllPlain(items: seq<Item>) {
    forall item <- items :: Plain(item.key) && Plain(item.text)
  }

  lemma {:induction false} EscapedSize(s: string)
    ensures |Escaped(s)| >= |s|
    ensures |Escaped(s)| == |s| <==> Plain(s)
  {
    if s != "" {
      EscapedSize(s[1..]);
      assert |Escape(s[0])| >= 1 && (|Escape(s[0])| == 1 <==> PlainChar(s[0]));
      hide Escape, PlainChar;
      assert s[0] in s && forall c :: c in s <==> c == s[0] || c in s[1..];
    }
  }

  lemma PropertySize(item: Item)
    ensures |Property(item)| >= |item.key| + |item.text| + 8
    ensures |Property(item)| == |item.key| + |item.text| + 8 <==> Plain(item.key) && Plain(item.text)
  {
    EscapedSize(item.key);
    EscapedSize(item.text);
  }

  /** The charge grows by the lengths of key and text and ten characters for every item. */
  lemma {:induction false} ChargeOf(a: seq<Item>, item: Item, b: seq<Item>)
    ensures ChargedChars([]) == 2
    ensures ChargedChars(a + [item] + b) == ChargedChars(a + b) + |item.key| + |item.text| + 10
  {
    if b == [] {
      assert a + [item] + b == a + [item] && a + b == a && [item][..0] == [];
      NextCharge(a, item);
    } else {
      var n := |b| - 1;
      assert (a + [item] + b)[..|a| + 1 + n] == a + [item] + b[..n] && (a + b)[..|a| + n] == a + b[..n];
      ChargeOf(a, item, b[..n]);
    }
  }

  lemma {:induction false} PropertiesSize(items: seq<Item>)
    requires items != []
    ensures |Properties(items)| + 4 >= ChargedChars(items)
    ensures |Properties(items)| + 4 == ChargedChars(items) <==> AllPlain(items)
  {
    hide Property, Plain;
    PropertySize(items[0]);
    ChargeOf([], items[0], items[1..]);
    assert items == [] + [items[0]] + items[1..] && [] + items[1..] == items[1..];
    if |items| > 1 {
      PropertiesSize(items[1..]);
    }
  }

  /** The charge is the length of the JSON text, short only of what has to be escaped. */
  lemma {:induction false} PayloadSize(items: seq<Item>)
    requires items != []
    ensures |Payload(items)| >= ChargedChars(items)
    ensures |Payload(items)| == ChargedChars(items) <==> AllPlain(items)
  {
    PropertiesSize(items);
  }

  lemma {:induction false} PackStarts(current: seq<Item>, rest: seq<Item>, budget: nat)
    requires current != []
    ensures |Pack(current, rest, budget)| > 0 && current <= Pack(current, rest, budget)[0]
    decreases |rest|
  {
    if rest != [] && Fits(current + [rest[0]], budget) {
      PackStarts(current + [rest[0]], rest[1..], budget);
    }
  }

  /** A batch the next item would not have gone into: it has twenty items, or its text would exceed the budget. */
  ghost predicate Full(batch: seq<Item>, next: Item, budget: nat) {
    |batch| == 20 || |Payload(batch + [next])| > budget
  }

  ghost predicate EachFull(batches: seq<seq<Item>>, budget: nat) {
    forall j :: 0 < j < |batches| ==> batches[j] != [] && Full(batches[j - 1], batches[j][0], budget)
  }

  lemma FullFirst(batch: seq<Item>, later: seq<seq<Item>>, budget: nat)
    requires EachFull(later, budget) && (later != [] ==> later[0] != [] && Full(batch, later[0][0], budget))
    ensures EachFull([batch] + later, budget)
  {
    hide Full;
    var all := [batch] + later;
    forall j | 0 < j < |all| ensures all[j] != [] && Full(all[j - 1], all[j][0], budget) {
      assert all[j] == later[j - 1];
      if j > 1 {
        assert all[j - 1] == later[j - 2];
      }
    }
  }

  lemma FullIf(batch: seq<Item>, next: Item, budget: nat)
    requires |batch| == 20 || |Payload(batch + [next])| > budget
    ensures Full(batch, next, budget)
  {
  }

  lemma {:induction false} ClosedWhenFull(current: seq<Item>, rest: seq<Item>, budget: nat)
    requires current == [] || Fits(current, budget)
    ensures EachFull(Pack(current, rest, budget), budget)
    decreases |rest|
  {
    hide ChargedChars, Full;
    if rest == [] {
    } else if current == [] || Fits(current + [rest[0]], budget) {
      ClosedWhenFull(current + [rest[0]], rest[1..], budget);
    } else {
      ClosedWhenFull([rest[0]], rest[1..], budget);
      PackStarts([rest[0]], rest[1..], budget);
      PayloadSize(current + [rest[0]]);
      FullIf(current, rest[0], budget);
      FullFirst(current, Pack([rest[0]], rest[1..], budget), budget);
    }
  }

  /**
    * The batches as they are sent: each has one to twenty items, the JSON text of several plain items is within
    * the budget, and no batch is closed while the next item would still have gone into it.
    */
  lemma {:induction false} BatchesAreSent(items: seq<Item>, budget: nat)
    ensures var batches := Pack([], items, budget);
            && Flatten(batches) == items
            && (forall b <- batches :: 1 <= |b| <= 20 && (|b| > 1 && AllPlain(b) ==> |Payload(b)| <= budget))
            && EachFull(batches, budget)
  {
    hide Pack, Payload, AllPlain, ChargedChars, Full;
    PackSplits([], items, budget);
    assert [] + items == items;
    ClosedWhenFull([], items, budget);
    forall b | b in Pack([], items, budget)
      ensures 1 <= |b| <= 20 && (|b| > 1 && AllPlain(b) ==> |Payload(b)| <= budget)
    {
      PayloadSize(b);
    }
  }
}
