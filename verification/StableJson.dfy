// scripts/protocol-gen-swift.ts: a form of a JSON value that does not depend on property order.
module StableJson {
  import opened OrderedMap
  import opened Sorting

  predicate IsNumber(bits: nat) {
    && bits < 0x1_0000_0000_0000_0000
    && bits / 0x10_0000_0000_0000 % 0x800 != 0x7ff     // neither an infinity nor NaN
    && bits != 0x8000_0000_0000_0000                   // no negative zero
  }

  /** A JSON number: the 64 bits of a finite double, with one zero. */
  type NumberBits = bits: nat | IsNumber(bits) witness 0

  datatype Scalar = Null | Bool(b: bool) | Number(bits: NumberBits) | Text(s: string)

  datatype Json =
    | Leaf(scalar: Scalar)
    | Arr(items: seq<Json>)
    | Obj(entries: seq<Entry>)

  datatype Entry = Entry(key: string, value: Json)

  function Keys(entries: seq<Entry>): (keys: seq<string>)
    ensures |keys| == |entries| && forall i :: 0 <= i < |keys| ==> keys[i] == entries[i].key
  {
    seq(|entries|, i requires 0 <= i < |entries| => entries[i].key)
  }

  /** Objects have no key twice, at any depth. */
  ghost predicate WellFormed(v: Json) {
    match v
    case Leaf(_) => true
    case Arr(items) => forall i :: 0 <= i < |items| ==> WellFormed(items[i])
    case Obj(entries) =>
      Distinct(Keys(entries)) && forall i :: 0 <= i < |entries| ==> WellFormed(entries[i].value)
  }

  function IndexOf(keys: seq<string>, k: string): (i: nat)
    requires k in keys
    ensures i < |keys| && keys[i] == k
  {
    if keys[0] == k then 0 else 1 + IndexOf(keys[1..], k)
  }

  function Lookup(entries: seq<Entry>, k: string): (v: Json)
    requires k in Keys(entries)
    ensures exists i :: 0 <= i < |entries| && entries[i] == Entry(k, v)
  {
    var i := IndexOf(Keys(entries), k);
    assert entries[i] == Entry(k, entries[i].value);
    entries[i].value
  }

  // ---------- Key order ----------

  /** How `toSorted` compares strings: by code unit. */
  predicate CodeUnitLe(a: string, b: string) {
    a == "" || (b != "" && (a[0] < b[0] || (a[0] == b[0] && CodeUnitLe(a[1..], b[1..]))))
  }

  lemma {:induction false} CodeUnitTotal(a: string, b: string)
    ensures CodeUnitLe(a, b) || CodeUnitLe(b, a)
    ensures CodeUnitLe(a, b) && CodeUnitLe(b, a) ==> a == b
  {
    if a != "" && b != "" && a[0] == b[0] {
      CodeUnitTotal(a[1..], b[1..]);
      assert a == [a[0]] + a[1..] && b == [b[0]] + b[1..];
    }
  }

  lemma {:induction false} CodeUnitTransitive(a: string, b: string, c: string)
    requires CodeUnitLe(a, b) && CodeUnitLe(b, c)
    ensures CodeUnitLe(a, c)
  {
    if a != "" && a[0] == b[0] == c[0] {
      CodeUnitTransitive(a[1..], b[1..], c[1..]);
    }
  }

  lemma CodeUnitOrder(keys: seq<string>)
    ensures Preorder(CodeUnitLe) && TieFree(CodeUnitLe, keys)
  {
    forall a, b ensures CodeUnitLe(a, b) || CodeUnitLe(b, a) { CodeUnitTotal(a, b); }
    forall a, b | CodeUnitLe(a, b) && CodeUnitLe(b, a) ensures a == b { CodeUnitTotal(a, b); }
    forall a, b, c | CodeUnitLe(a, b) && CodeUnitLe(b, c) ensures CodeUnitLe(a, c) {
      CodeUnitTransitive(a, b, c);
    }
  }

  function IndexValue(k: string): nat {
    if k == "" then 0
    else 10 * IndexValue(k[..|k| - 1]) + (if '0' <= k[|k| - 1] <= '9' then (k[|k| - 1] - '0') as nat else 0)
  }

  /** An array index: a canonical decimal below 2^32 - 1. Objects list such keys first, by value. */
  predicate IsIndex(k: string) {
    && k != "" && (forall i :: 0 <= i < |k| ==> '0' <= k[i] <= '9')
    && (k[0] == '0' ==> |k| == 1) && IndexValue(k) < 0xFFFF_FFFF
  }

  predicate IndexLe(a: string, b: string) { IndexValue(a) <= IndexValue(b) }

  function Where(keys: seq<string>, index: bool): (r: seq<string>) {
    if keys == [] then []
    else (if IsIndex(keys[0]) == index then [keys[0]] else []) + Where(keys[1..], index)
  }

  lemma {:induction false} WhereSplits(keys: seq<string>)
    ensures multiset(Where(keys, true)) + multiset(Where(keys, false)) == multiset(keys)
  {
    if keys != [] {
      WhereSplits(keys[1..]);
      assert keys == [keys[0]] + keys[1..];
    }
  }

  /** The order in which an object lists keys that were added in the given order. */
  function PropertyOrder(keys: seq<string>): seq<string> {
    Sort(Where(keys, true), IndexLe) + Where(keys, false)
  }

  function CanonicalOrder(keys: seq<string>): (r: seq<string>)
    ensures multiset(r) == multiset(keys) && |r| == |keys|
    ensures forall k :: k in r <==> k in keys
  {
    var sorted := Sort(keys, CodeUnitLe);
    WhereSplits(sorted);
    var r := PropertyOrder(sorted);
    assert multiset(r) == multiset(keys);
    assert |multiset(r)| == |r| && |multiset(keys)| == |keys|;
    assert forall k :: k in r <==> k in multiset(r);
    assert forall k :: k in keys <==> k in multiset(keys);
    r
  }

  ghost predicate SameMembers(a: seq<string>, b: seq<string>) {
    forall k :: k in a <==> k in b
  }

  lemma {:induction false} SortByCodeUnit(a: seq<string>, b: seq<string>)
    requires Distinct(a) && Distinct(b) && SameMembers(a, b)
    ensures Sort(a, CodeUnitLe) == Sort(b, CodeUnitLe)
  {
    CodeUnitOrder(a);
    hide CodeUnitLe, TieFree, Preorder;
    SortOfSet(a, b, CodeUnitLe);
  }

  lemma CanonicalOrderIffSameKeys(a: seq<string>, b: seq<string>)
    requires Distinct(a) && Distinct(b)
    ensures CanonicalOrder(a) == CanonicalOrder(b) <==> SameMembers(a, b)
    ensures Distinct(CanonicalOrder(a)) && SameMembers(a, CanonicalOrder(a))
  {
    if SameMembers(a, b) {
      SortByCodeUnit(a, b);
    } else {
      var k :| !(k in a <==> k in b);
      assert k in CanonicalOrder(a) <==> k in a;
      assert k in CanonicalOrder(b) <==> k in b;
    }
    DistinctCounts(a);
    DistinctCounts(CanonicalOrder(a));
  }

  // ---------- What the order is ----------

  /** A natural number in decimal. */
  function DecimalText(n: nat): (s: string)
    ensures s != "" && forall i :: 0 <= i < |s| ==> '0' <= s[i] <= '9'
    ensures IndexValue(s) == n
    ensures n < 10 ==> |s| == 1
    ensures n > 0 ==> s[0] != '0'
  {
    var last := '0' + (n % 10) as char;
    if n < 10 then [last]
    else
      var s := DecimalText(n / 10) + [last];
      assert s[..|s| - 1] == DecimalText(n / 10);
      s
  }

  lemma DigitText(v: nat, last: char)
    requires '0' <= last <= '9'
    ensures DecimalText(10 * v + (last - '0') as nat) == if v == 0 then [last] else DecimalText(v) + [last]
  {
    var d := (last - '0') as nat;
    assert (10 * v + d) / 10 == v && (10 * v + d) % 10 == d;
    assert '0' + d as char == last;
  }

  lemma {:induction false} DecimalOfValue(k: string)
    requires k != "" && (forall i :: 0 <= i < |k| ==> '0' <= k[i] <= '9') && (k[0] == '0' ==> |k| == 1)
    ensures DecimalText(IndexValue(k)) == k
    ensures k[0] != '0' ==> IndexValue(k) > 0
  {
    hide DecimalText;
    var init, last := k[..|k| - 1], k[|k| - 1];
    assert k == init + [last];
    DigitText(IndexValue(init), last);
    if init != "" {
      DecimalOfValue(init);
    }
  }

  /** The keys an object lists first: the decimals of the numbers below 2^32 - 1. */
  lemma {:induction false} IndexIff(k: string)
    ensures IsIndex(k) <==> exists n: nat :: n < 4294967295 && k == DecimalText(n)
  {
    hide IndexValue, DecimalText;
    if IsIndex(k) {
      DecimalOfValue(k);
      assert k == DecimalText(IndexValue(k));
    }
  }

  /** Letter by letter, the first difference deciding and a prefix coming first. */
  ghost predicate LettersBefore(a: string, b: string) {
    a <= b || exists n :: 0 <= n < |a| && n < |b| && a[..n] == b[..n] && a[n] < b[n]
  }

  lemma {:induction false} CodeUnitIff(a: string, b: string)
    ensures CodeUnitLe(a, b) ==> LettersBefore(a, b)
  {
    if a != "" && CodeUnitLe(a, b) {
      if a[0] < b[0] {
        assert a[..0] == b[..0];
      } else {
        CodeUnitIff(a[1..], b[1..]);
        assert a == [a[0]] + a[1..] && b == [b[0]] + b[1..];
        if !(a[1..] <= b[1..]) {
          var n :| 0 <= n < |a[1..]| && n < |b[1..]| && a[1..][..n] == b[1..][..n] && a[1..][n] < b[1..][n];
          assert a[..n + 1] == [a[0]] + a[1..][..n] && b[..n + 1] == [b[0]] + b[1..][..n];
          assert a[n + 1] < b[n + 1];
        }
      }
    }
  }

  /** Index keys first, by value; the others by letters. */
  ghost predicate Listed(a: string, b: string) {
    if IsIndex(a) && IsIndex(b) then IndexValue(a) <= IndexValue(b)
    else IsIndex(a) || (!IsIndex(b) && LettersBefore(a, b))
  }

  lemma {:induction false} WhereSorted(keys: seq<string>, index: bool, le: Order)
    requires Sorted(keys, le)
    ensures Sorted(Where(keys, index), le)
    ensures forall k :: k in Where(keys, index) <==> k in keys && IsIndex(k) == index
  {
    hide IsIndex;
    if keys != [] {
      WhereSorted(keys[1..], index, le);
      var rest := Where(keys[1..], index);
      assert keys == [keys[0]] + keys[1..];
      forall j | 0 <= j < |rest| ensures le(keys[0], rest[j]) {
        assert rest[j] in rest;
        var i :| 0 <= i < |keys[1..]| && keys[1..][i] == rest[j];
        assert le(keys[0], keys[i + 1]);
      }
    }
  }

  /** The order of the keys in a canonical form. */
  lemma {:induction false} CanonicalOrderIs(keys: seq<string>, i: nat, j: nat)
    requires i < j < |CanonicalOrder(keys)|
    ensures Listed(CanonicalOrder(keys)[i], CanonicalOrder(keys)[j])
  {
    var sorted := Sort(keys, CodeUnitLe);
    CodeUnitOrder(keys);
    SortSorts(keys, CodeUnitLe);
    WhereSorted(sorted, false, CodeUnitLe);
    WhereSorted(sorted, true, CodeUnitLe);
    var front, back := Sort(Where(sorted, true), IndexLe), Where(sorted, false);
    SortMembers(Where(sorted, true), IndexLe);
    assert Preorder(IndexLe);
    SortSorts(Where(sorted, true), IndexLe);
    var r := CanonicalOrder(keys);
    assert r == front + back;
    hide CanonicalOrder, CodeUnitLe, Where, IsIndex, IndexValue, Preorder, TieFree;
    if i < |front| {
      assert r[i] in front;
    } else {
      assert r[i] in back;
    }
    if j < |front| {
      assert r[j] in front;
      assert IndexLe(front[i], front[j]);
    } else {
      assert r[j] in back;
    }
    if i >= |front| {
      assert CodeUnitLe(back[i - |front|], back[j - |front|]);
      CodeUnitIff(r[i], r[j]);
    }
  }

  // ---------- The canonical form ----------

  /** `Object.fromEntries(Object.keys(record).toSorted().map(...))`, the values already mapped. */
  function Reorder(entries: seq<Entry>): (r: seq<Entry>) {
    var keys := CanonicalOrder(Keys(entries));
    seq(|keys|, i requires 0 <= i < |keys| => Entry(keys[i], Lookup(entries, keys[i])))
  }

  function StableItems(items: seq<Json>): (r: seq<Json>)
    ensures |r| == |items| && forall i :: 0 <= i < |r| ==> r[i] == Stable(items[i])
    decreases items
  {
    if items == [] then [] else [Stable(items[0])] + StableItems(items[1..])
  }

  function StableEntries(entries: seq<Entry>): (r: seq<Entry>)
    ensures |r| == |entries|
    ensures forall i :: 0 <= i < |r| ==> r[i] == Entry(entries[i].key, Stable(entries[i].value))
    decreases entries
  {
    if entries == [] then []
    else [Entry(entries[0].key, Stable(entries[0].value))] + StableEntries(entries[1..])
  }

  /** `stableJson`. */
  function Stable(v: Json): Json {
    match v
    case Leaf(_) => v
    case Arr(items) => Arr(StableItems(items))
    case Obj(entries) => Obj(Reorder(StableEntries(entries)))
  }

  /** Equal up to the order of properties, at every depth. */
  ghost predicate Same(a: Json, b: Json) {
    match (a, b)
    case (Leaf(x), Leaf(y)) => x == y
    case (Arr(xs), Arr(ys)) => |xs| == |ys| && forall i :: 0 <= i < |xs| ==> Same(xs[i], ys[i])
    case (Obj(xs), Obj(ys)) =>
      && SameMembers(Keys(xs), Keys(ys))
      && forall i, j :: 0 <= i < |xs| && 0 <= j < |ys| && xs[i].key == ys[j].key ==>
           Same(xs[i].value, ys[j].value)
    case _ => false
  }

  // ---------- It identifies exactly the reorderings ----------

  ghost predicate SameValues(xs: seq<Entry>, ys: seq<Entry>) {
    forall i, j :: 0 <= i < |xs| && 0 <= j < |ys| && xs[i].key == ys[j].key ==> xs[i].value == ys[j].value
  }

  ghost predicate SameEntries(xs: seq<Entry>, ys: seq<Entry>) {
    SameMembers(Keys(xs), Keys(ys)) && SameValues(xs, ys)
  }

  lemma LookupFinds(xs: seq<Entry>, i: nat)
    requires Distinct(Keys(xs)) && i < |xs|
    ensures xs[i].key in Keys(xs) && Lookup(xs, xs[i].key) == xs[i].value
  {
    assert Keys(xs)[i] == xs[i].key;
    var j :| 0 <= j < |xs| && xs[j] == Entry(xs[i].key, Lookup(xs, xs[i].key));
    assert Keys(xs)[j] == xs[j].key;
  }

  lemma KeysOfReorder(xs: seq<Entry>)
    requires Distinct(Keys(xs))
    ensures Keys(Reorder(xs)) == CanonicalOrder(Keys(xs))
    ensures Distinct(Keys(Reorder(xs)))
    ensures SameEntries(xs, Reorder(xs))
  {
    var r := Reorder(xs);
    assert Keys(r) == CanonicalOrder(Keys(xs));
    CanonicalOrderIffSameKeys(Keys(xs), Keys(xs));
    hide CanonicalOrder, SameMembers, Distinct;
    forall i, j | 0 <= i < |xs| && 0 <= j < |r| && xs[i].key == r[j].key ensures xs[i].value == r[j].value {
      LookupFinds(xs, i);
    }
  }

  lemma KeyOccurs(xs: seq<Entry>, i: nat, r: seq<Entry>) returns (n: nat)
    requires i < |xs| && SameMembers(Keys(xs), Keys(r))
    ensures n < |r| && r[n].key == xs[i].key
  {
    assert Keys(xs)[i] in Keys(r);
    n :| 0 <= n < |r| && Keys(r)[n] == xs[i].key;
  }

  lemma SameLookup(xs: seq<Entry>, ys: seq<Entry>, k: string)
    requires SameValues(xs, ys) && k in Keys(xs) && k in Keys(ys)
    ensures Lookup(xs, k) == Lookup(ys, k)
  {
    hide Keys, Lookup;
    var i :| 0 <= i < |xs| && xs[i] == Entry(k, Lookup(xs, k));
    var j :| 0 <= j < |ys| && ys[j] == Entry(k, Lookup(ys, k));
  }

  lemma ReorderOfSame(xs: seq<Entry>, ys: seq<Entry>)
    requires Distinct(Keys(xs)) && Distinct(Keys(ys)) && SameEntries(xs, ys)
    ensures Reorder(xs) == Reorder(ys)
  {
    CanonicalOrderIffSameKeys(Keys(xs), Keys(ys));
    var keys := CanonicalOrder(Keys(xs));
    hide CanonicalOrder, SameValues, SameMembers, Distinct, Keys, Lookup;
    forall n | 0 <= n < |keys| ensures Reorder(xs)[n] == Reorder(ys)[n] {
      assert keys[n] in keys;
      SameLookup(xs, ys, keys[n]);
    }
  }

  lemma ValuesOfReorder(xs: seq<Entry>, ys: seq<Entry>)
    requires Distinct(Keys(xs)) && Distinct(Keys(ys)) && Reorder(xs) == Reorder(ys)
    ensures SameValues(xs, ys)
  {
    hide Reorder, SameMembers, Distinct, Keys;
    KeysOfReorder(xs);
    KeysOfReorder(ys);
    forall i, j | 0 <= i < |xs| && 0 <= j < |ys| && xs[i].key == ys[j].key
      ensures xs[i].value == ys[j].value
    {
      var n := KeyOccurs(xs, i, Reorder(xs));
    }
  }

  lemma ReorderIff(xs: seq<Entry>, ys: seq<Entry>)
    requires Distinct(Keys(xs)) && Distinct(Keys(ys))
    ensures Reorder(xs) == Reorder(ys) <==> SameEntries(xs, ys)
  {
    hide Reorder, SameMembers, SameValues, Distinct, Keys;
    if SameEntries(xs, ys) {
      ReorderOfSame(xs, ys);
    }
    if Reorder(xs) == Reorder(ys) {
      KeysOfReorder(xs);
      KeysOfReorder(ys);
      CanonicalOrderIffSameKeys(Keys(xs), Keys(ys));
      ValuesOfReorder(xs, ys);
    }
  }

  lemma {:induction false} StableKeys(xs: seq<Entry>)
    ensures Keys(StableEntries(xs)) == Keys(xs)
  {
  }

  /** In the canonical form of an object index keys come first, by value, and then the others by letters. */
  lemma StableOrder(xs: seq<Entry>, i: nat, j: nat)
    requires Distinct(Keys(xs)) && i < j < |xs|
    ensures var r := Stable(Obj(xs)).entries;
            |r| == |xs| && Listed(r[i].key, r[j].key)
  {
    StableKeys(xs);
    KeysOfReorder(StableEntries(xs));
    CanonicalOrderIs(Keys(xs), i, j);
    var r := Stable(Obj(xs)).entries;
    assert Keys(r) == CanonicalOrder(Keys(xs));
    hide CanonicalOrder, Listed, StableEntries, Reorder;
    assert Keys(r)[i] == r[i].key && Keys(r)[j] == r[j].key;
  }

  lemma ObjectsIff(xs: seq<Entry>, ys: seq<Entry>)
    requires Distinct(Keys(xs)) && Distinct(Keys(ys))
    requires forall i, j :: 0 <= i < |xs| && 0 <= j < |ys| ==>
      (Stable(xs[i].value) == Stable(ys[j].value) <==> Same(xs[i].value, ys[j].value))
    ensures Stable(Obj(xs)) == Stable(Obj(ys)) <==> Same(Obj(xs), Obj(ys))
  {
    StableKeys(xs);
    StableKeys(ys);
    hide Reorder, Keys, Distinct, SameMembers;
    ReorderIff(StableEntries(xs), StableEntries(ys));
    assert SameValues(StableEntries(xs), StableEntries(ys)) <==>
      forall i, j :: 0 <= i < |xs| && 0 <= j < |ys| && xs[i].key == ys[j].key ==>
        Stable(xs[i].value) == Stable(ys[j].value);
  }

  lemma ArraysIff(xs: seq<Json>, ys: seq<Json>)
    requires |xs| == |ys| ==> forall i :: 0 <= i < |xs| ==>
      (Stable(xs[i]) == Stable(ys[i]) <==> Same(xs[i], ys[i]))
    ensures Stable(Arr(xs)) == Stable(Arr(ys)) <==> Same(Arr(xs), Arr(ys))
  {
    if StableItems(xs) == StableItems(ys) {
      assert |xs| == |ys|;
      forall i | 0 <= i < |xs| ensures Stable(xs[i]) == Stable(ys[i]) {
        assert StableItems(xs)[i] == StableItems(ys)[i];
      }
    }
  }

  /** The canonical forms agree exactly when the values agree up to property order. */
  lemma {:induction false} StableIff(a: Json, b: Json)
    requires WellFormed(a) && WellFormed(b)
    ensures Stable(a) == Stable(b) <==> Same(a, b)
    decreases a
  {
    if a.Arr? && b.Arr? {
      hide Stable, Same;
      var xs, ys := a.items, b.items;
      if |xs| == |ys| {
        forall i | 0 <= i < |xs| ensures Stable(xs[i]) == Stable(ys[i]) <==> Same(xs[i], ys[i]) {
          StableIff(xs[i], ys[i]);
        }
      }
      ArraysIff(xs, ys);
    } else if a.Obj? && b.Obj? {
      hide Stable, Same;
      var xs, ys := a.entries, b.entries;
      forall i, j | 0 <= i < |xs| && 0 <= j < |ys|
        ensures Stable(xs[i].value) == Stable(ys[j].value) <==> Same(xs[i].value, ys[j].value)
      {
        StableIff(xs[i].value, ys[j].value);
      }
      ObjectsIff(xs, ys);
    }
  }

  lemma {:induction false} SameReflexive(a: Json)
    requires WellFormed(a)
    ensures Same(a, a)
  {
    match a
    case Leaf(_) =>
    case Arr(xs) =>
      forall i | 0 <= i < |xs| ensures Same(xs[i], xs[i]) { SameReflexive(xs[i]); }
    case Obj(xs) =>
      forall i, j | 0 <= i < |xs| && 0 <= j < |xs| && xs[i].key == xs[j].key
        ensures Same(xs[i].value, xs[j].value)
      {
        LookupFinds(xs, i);
        LookupFinds(xs, j);
        SameReflexive(xs[i].value);
      }
  }

  lemma ReorderDraws(xs: seq<Entry>)
    ensures forall j :: 0 <= j < |Reorder(xs)| ==> Reorder(xs)[j] in xs
  {
  }

  lemma StableObject(xs: seq<Entry>)
    requires Distinct(Keys(xs))
    requires forall i :: 0 <= i < |xs| ==> WellFormed(Stable(xs[i].value)) && Same(xs[i].value, Stable(xs[i].value))
    ensures WellFormed(Stable(Obj(xs))) && Same(Obj(xs), Stable(Obj(xs)))
  {
    var mapped := StableEntries(xs);
    var r := Reorder(mapped);
    StableKeys(xs);
    KeysOfReorder(mapped);
    ReorderDraws(mapped);
    assert Stable(Obj(xs)) == Obj(r);
    hide Reorder, SameMembers, Distinct, Stable, Keys, Lookup;
    assert WellFormed(Obj(r));
    forall i, j | 0 <= i < |xs| && 0 <= j < |r| && xs[i].key == r[j].key
      ensures Same(xs[i].value, r[j].value)
    {
      assert mapped[i].key == r[j].key;
    }
  }

  /** The canonical form is the value itself up to property order. */
  lemma {:induction false} StableIsSame(a: Json)
    requires WellFormed(a)
    ensures WellFormed(Stable(a)) && Same(a, Stable(a))
  {
    match a
    case Leaf(_) =>
    case Arr(xs) =>
      forall i | 0 <= i < |xs| ensures WellFormed(Stable(xs[i])) && Same(xs[i], Stable(xs[i])) {
        StableIsSame(xs[i]);
      }
    case Obj(xs) =>
      forall i | 0 <= i < |xs| ensures WellFormed(Stable(xs[i].value)) && Same(xs[i].value, Stable(xs[i].value)) {
        StableIsSame(xs[i].value);
      }
      StableObject(xs);
  }

  /** Hence a canonical form is its own canonical form. */
  lemma {:induction false} StableTwice(a: Json)
    requires WellFormed(a)
    ensures Stable(Stable(a)) == Stable(a)
  {
    StableIsSame(a);
    StableIff(a, Stable(a));
  }
}
