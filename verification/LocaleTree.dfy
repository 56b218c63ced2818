// Locale files hold nested objects; the sync works on a flat map with dotted keys.
module LocaleTree {
  import opened Wrappers
  import opened OrderedMap

  /** A string or an object; an object's own properties in order. */
  datatype Tree = Leaf(text: string) | Node(entries: Entries)

  datatype Entry = Entry(name: string, value: Tree)

  type Entries = seq<Entry>

  // ---- Dotted keys ----

  /** `key.split(".")`. */
  function Split(key: string): (r: seq<string>)
    ensures r != []
  {
    if key == "" then [""]
    else
      var rest := Split(key[1..]);
      if key[0] == '.' then [""] + rest else [[key[0]] + rest[0]] + rest[1..]
  }

  function Join(parts: seq<string>): string
    requires parts != []
  {
    if |parts| == 1 then parts[0] else parts[0] + "." + Join(parts[1..])
  }

  function FullKey(prefix: string, key: string): string {
    if prefix != "" then prefix + "." + key else key
  }

  /** The flat key of the leaf reached along a path. */
  function FlatKey(prefix: string, path: seq<string>): string
    decreases |path|
  {
    if path == [] then prefix else FlatKey(FullKey(prefix, path[0]), path[1..])
  }

  ghost predicate DotFree(part: string) {
    '.' !in part
  }

  lemma {:induction false} JoinAfterDot(rest: seq<string>)
    requires rest != []
    ensures Join([""] + rest) == "." + Join(rest)
  {
    assert ([""] + rest)[1..] == rest;
  }

  lemma {:induction false} JoinPrepend(c: char, rest: seq<string>)
    requires rest != []
    ensures Join([[c] + rest[0]] + rest[1..]) == [c] + Join(rest)
  {
    var parts := [[c] + rest[0]] + rest[1..];
    assert parts[1..] == rest[1..] && parts[0] == [c] + rest[0];
  }

  lemma {:induction false} JoinOfSplit(key: string)
    ensures Join(Split(key)) == key
  {
    if key != "" {
      var rest := Split(key[1..]);
      JoinOfSplit(key[1..]);
      JoinAfterDot(rest);
      JoinPrepend(key[0], rest);
      assert key == [key[0]] + key[1..];
      hide Join;
    }
  }

  lemma {:induction false} SplitJoins(key: string)
    ensures Join(Split(key)) == key
    ensures forall part <- Split(key) :: DotFree(part)
    ensures Split(key)[0] == "" ==> key == "" || key[0] == '.'
  {
    JoinOfSplit(key);
    hide Join;
    if key != "" {
      SplitJoins(key[1..]);
      var rest := Split(key[1..]);
      assert DotFree(rest[0]);
      if key[0] != '.' {
        assert DotFree([key[0]] + rest[0]);
      }
    }
  }

  lemma {:induction false} DotFreeIsOnePart(part: string)
    requires DotFree(part)
    ensures Split(part) == [part]
  {
    if part != "" {
      assert part[0] != '.' && DotFree(part[1..]);
      DotFreeIsOnePart(part[1..]);
      assert [part[0]] + part[1..] == part;
    }
  }

  lemma {:induction false} SplitAtDot(part: string, rest: string)
    requires DotFree(part)
    ensures Split(part + "." + rest) == [part] + Split(rest)
  {
    var key := part + "." + rest;
    if part == "" {
      assert key[1..] == rest;
    } else {
      assert key[1..] == part[1..] + "." + rest;
      assert part[0] != '.' && DotFree(part[1..]);
      SplitAtDot(part[1..], rest);
      assert [part[0]] + part[1..] == part;
    }
  }

  lemma {:induction false} JoinSplits(parts: seq<string>)
    requires parts != [] && forall part <- parts :: DotFree(part)
    ensures Split(Join(parts)) == parts
  {
    if |parts| == 1 {
      DotFreeIsOnePart(parts[0]);
    } else {
      JoinSplits(parts[1..]);
      SplitAtDot(parts[0], Join(parts[1..]));
    }
  }

  lemma {:induction false} FlatKeyJoins(prefix: string, path: seq<string>)
    requires path != [] && (prefix != "" || path[0] != "" || |path| == 1)
    ensures FlatKey(prefix, path) == FullKey(prefix, Join(path))
    decreases |path|
  {
    if |path| == 1 {
      assert path[1..] == [];
    } else {
      FlatKeyJoins(FullKey(prefix, path[0]), path[1..]);
    }
  }

  /** Splitting a key and flattening it again gives it back unless it starts with a dot. */
  lemma {:induction false} FlatSplit(key: string)
    requires key == "" || key[0] != '.'
    ensures FlatKey("", Split(key)) == key
  {
    SplitJoins(key);
    FlatKeyJoins("", Split(key));
  }

  /** Flattening drops leading empty names, so no flat key of dot-free names starts with a dot. */
  lemma {:induction false} NoLeadingDot(prefix: string, path: seq<string>)
    requires forall part <- path :: DotFree(part)
    requires prefix == "" || prefix[0] != '.'
    ensures var k := FlatKey(prefix, path); k == "" || k[0] != '.'
    decreases |path|
  {
    if path != [] {
      assert DotFree(path[0]);
      NoLeadingDot(FullKey(prefix, path[0]), path[1..]);
    }
  }

  // ---- Objects ----

  /** Names every plain object inherits: reading one that is not an own property finds the inherited member. */
  const INHERITED := {"constructor", "hasOwnProperty", "isPrototypeOf", "propertyIsEnumerable",
      "toLocaleString", "toString", "valueOf", "__proto__", "__defineGetter__", "__defineSetter__",
      "__lookupGetter__", "__lookupSetter__"}

  function Find(entries: Entries, key: string): (r: Option<Tree>)
    ensures r.Some? ==> exists i :: 0 <= i < |entries| && entries[i] == Entry(key, r.value)
    ensures r.None? ==> forall i :: 0 <= i < |entries| ==> entries[i].name != key
  {
    if entries == [] then None
    else if entries[0].name == key then Some(entries[0].value)
    else Find(entries[1..], key)
  }

  function SetEntry(entries: Entries, key: string, value: Tree): (r: Entries)
    ensures forall k :: Find(r, k) == if k == key then Some(value) else Find(entries, k)
    ensures forall i :: 0 <= i < |r| ==> r[i] == Entry(key, value) || (i < |entries| && r[i] == entries[i])
    ensures |entries| <= |r| <= |entries| + 1 && forall i :: 0 <= i < |entries| ==> r[i].name == entries[i].name
    ensures |r| == |entries| + 1 ==> Find(entries, key).None?
  {
    if entries == [] then [Entry(key, value)]
    else if entries[0].name == key then [Entry(key, value)] + entries[1..]
    else [entries[0]] + SetEntry(entries[1..], key, value)
  }

  /** Assigning to a property: only a string stored under `__proto__` is ignored. */
  function Assign(entries: Entries, key: string, value: Tree): Entries {
    if key == "__proto__" then entries else SetEntry(entries, key, value)
  }

  /** The object stored under a name, or a fresh one in place of a string or nothing. */
  function Below(entries: Entries, name: string): Entries {
    match Find(entries, name)
    case Some(Node(sub)) => sub
    case _ => []
  }

  /**
    * Walk the dotted key, replacing strings and creating objects on the way.  A
    * name found only by inheritance leads out of the tree, and the value with it.
    */
  function SetNested(entries: Entries, parts: seq<string>, value: string): Entries
    requires parts != []
    decreases |parts|
  {
    if |parts| == 1 then Assign(entries, parts[0], Leaf(value))
    else if Find(entries, parts[0]).None? && parts[0] in INHERITED then entries
    else SetEntry(entries, parts[0], Node(SetNested(Below(entries, parts[0]), parts[1..], value)))
  }

  function SetNestedValue(root: Entries, dottedKey: string, value: string): Entries {
    SetNested(root, Split(dottedKey), value)
  }

  /** The text at the end of a path. */
  function At(entries: Entries, path: seq<string>): Option<string>
    decreases |path|
  {
    if path == [] then None
    else match Find(entries, path[0])
      case None => None
      case Some(Leaf(text)) => if |path| == 1 then Some(text) else None
      case Some(Node(sub)) => At(sub, path[1..])
  }

  ghost predicate ProperPrefix(a: seq<string>, b: seq<string>) {
    a < b
  }

  /** No leaf lies below another leaf. */
  lemma {:induction false} LeavesArePrefixFree(entries: Entries, a: seq<string>, b: seq<string>)
    requires At(entries, a).Some? && At(entries, b).Some?
    ensures !ProperPrefix(a, b)
    decreases |a|
  {
    if a < b {
      var t := Find(entries, a[0]);
      if t.value.Node? {
        LeavesArePrefixFree(t.value.entries, a[1..], b[1..]);
      }
    }
  }

  /** The names along a path can all be stored as own properties of a fresh object. */
  predicate Storable(parts: seq<string>)
    requires parts != []
  {
    parts[|parts| - 1] != "__proto__" && forall i :: 0 <= i < |parts| - 1 ==> parts[i] !in INHERITED
  }

  /** How many names the walk gets hold of before the value lands, at all of them, or leaves the tree. */
  function Reach(entries: Entries, parts: seq<string>): (n: nat)
    requires parts != []
    ensures n <= |parts|
    decreases |parts|
  {
    if |parts| == 1 then if parts[0] == "__proto__" then 0 else 1
    else if Find(entries, parts[0]).None? && parts[0] in INHERITED then 0
    else 1 + Reach(Below(entries, parts[0]), parts[1..])
  }

  /** Storable names lead somewhere from any object. */
  lemma {:induction false} StorableLands(entries: Entries, parts: seq<string>)
    requires parts != [] && Storable(parts)
    ensures Reach(entries, parts) == |parts|
    decreases |parts|
  {
    if |parts| > 1 {
      assert forall i :: 0 <= i < |parts| - 2 ==> parts[1..][i] == parts[i + 1];
      assert parts[0] !in INHERITED;
      StorableLands(Below(entries, parts[0]), parts[1..]);
    }
  }

  lemma {:induction false} SetStep(entries: Entries, parts: seq<string>, value: string, path: seq<string>)
    requires |parts| > 1 && path != [] && !(Find(entries, parts[0]).None? && parts[0] in INHERITED)
    ensures At(SetNested(entries, parts, value), path)
            == if path[0] != parts[0] then At(entries, path)
               else At(SetNested(Below(entries, parts[0]), parts[1..], value), path[1..])
  {
    var below := Node(SetNested(Below(entries, parts[0]), parts[1..], value));
    assert SetNested(entries, parts, value) == SetEntry(entries, parts[0], below);
    hide SetNested, SetEntry, Find;
  }

  lemma {:induction false} AtBelow(entries: Entries, path: seq<string>)
    requires |path| > 1
    ensures At(entries, path) == At(Below(entries, path[0]), path[1..])
  {
    hide Find;
  }

  lemma PrefixStep(a: seq<string>, b: seq<string>)
    requires a != [] && b != []
    ensures a == b <==> a[0] == b[0] && a[1..] == b[1..]
    ensures ProperPrefix(a, b) <==> a[0] == b[0] && ProperPrefix(a[1..], b[1..])
  {
    assert a == [a[0]] + a[1..] && b == [b[0]] + b[1..];
  }

  /** The path ends at one of the first `n` names of the key. */
  ghost predicate OnTheWay(path: seq<string>, parts: seq<string>, n: nat)
    requires n <= |parts|
  {
    0 < |path| <= n && path == parts[..|path|]
  }

  lemma WayStep(path: seq<string>, parts: seq<string>, n: nat)
    requires path != [] && parts != [] && n < |parts|
    ensures OnTheWay(path, parts, n + 1)
       <==> path[0] == parts[0] && (|path| == 1 || OnTheWay(path[1..], parts[1..], n))
  {
    assert path == [path[0]] + path[1..] && parts == [parts[0]] + parts[1..];
    if |path| <= |parts| {
      assert parts[..|path|] == [parts[0]] + parts[1..][..|path| - 1];
    }
  }

  lemma {:induction false} OneName(entries: Entries, parts: seq<string>, value: string, path: seq<string>)
    requires |parts| == 1 && path != []
    ensures At(SetNested(entries, parts, value), path)
         == if parts[0] == "__proto__" || path[0] != parts[0] then At(entries, path)
            else if |path| == 1 then Some(value) else None
    ensures path[0] == parts[0] ==> path == parts || ProperPrefix(parts, path)
  {
    hide Find, SetEntry;
  }

  /**
    * For any key: a value that lands is found at its path and hides what was below; texts on the way, as
    * far as the walk gets, are gone; and everything else is as it was.
    */
  lemma {:induction false} SetThenAt(entries: Entries, parts: seq<string>, value: string, path: seq<string>)
    requires parts != []
    ensures var n := Reach(entries, parts);
            At(SetNested(entries, parts, value), path)
            == if n == |parts| && path == parts then Some(value)
               else if OnTheWay(path, parts, n) then None
               else if n == |parts| && ProperPrefix(parts, path) then None
               else At(entries, path)
    decreases |parts|
  {
    if path != [] {
      PrefixStep(path, parts);
      PrefixStep(parts, path);
      if |parts| == 1 {
        OneName(entries, parts, value, path);
      } else if Find(entries, parts[0]).Some? || parts[0] !in INHERITED {
        WayStep(path, parts, Reach(Below(entries, parts[0]), parts[1..]));
        hide ProperPrefix, OnTheWay;
        SetStep(entries, parts, value, path);
        if path[0] == parts[0] && |path| > 1 {
          AtBelow(entries, path);
          hide At;
          SetThenAt(Below(entries, parts[0]), parts[1..], value, path[1..]);
        }
      }
    }
  }

  /** Whatever is set, no text appears at any other path. */
  lemma {:induction false} SetAddsOnlyItsPath(entries: Entries, parts: seq<string>, value: string, path: seq<string>)
    requires parts != [] && At(SetNested(entries, parts, value), path).Some?
    ensures var text := At(SetNested(entries, parts, value), path);
            text == At(entries, path) || (path == parts && text == Some(value))
    decreases |parts|
  {
    if |parts| == 1 {
      if path[0] == parts[0] && parts[0] != "__proto__" {
        assert path == parts;
      }
    } else if path[0] == parts[0] && (Find(entries, parts[0]).Some? || parts[0] !in INHERITED) {
      SetAddsOnlyItsPath(Below(entries, parts[0]), parts[1..], value, path[1..]);
      assert path == [path[0]] + path[1..] && parts == [parts[0]] + parts[1..];
    }
  }

  /** As every object is: names are distinct, at every level. */
  ghost predicate Proper(entries: Entries) {
    && (forall i, j :: 0 <= i < j < |entries| ==> entries[i].name != entries[j].name)
    && (forall i :: 0 <= i < |entries| && entries[i].value.Node? ==> Proper(entries[i].value.entries))
  }

  /** Objects are only ever stored under names that are not inherited. */
  ghost predicate Tidy(entries: Entries) {
    forall i :: 0 <= i < |entries| ==>
                  && entries[i].name != "__proto__"
                  && (entries[i].value.Node? ==> entries[i].name !in INHERITED && Tidy(entries[i].value.entries))
  }

  lemma {:induction false} TidyPathsAreStorable(entries: Entries, path: seq<string>)
    requires Tidy(entries) && At(entries, path).Some?
    ensures Storable(path)
    decreases |path|
  {
    var t := Find(entries, path[0]);
    if t.value.Node? {
      TidyPathsAreStorable(t.value.entries, path[1..]);
    }
  }

  ghost predicate NoLeafAbove(entries: Entries, parts: seq<string>) {
    forall n :: 0 < n < |parts| ==> At(entries, parts[..n]).None?
  }

  lemma {:induction false} SetStaysProper(entries: Entries, parts: seq<string>, value: string)
    requires Proper(entries) && parts != []
    ensures Proper(SetNested(entries, parts, value))
    decreases |parts|
  {
    if |parts| > 1 {
      SetStaysProper(Below(entries, parts[0]), parts[1..], value);
    }
  }

  lemma {:induction false} NoLeafBelow(entries: Entries, parts: seq<string>)
    requires |parts| > 1 && NoLeafAbove(entries, parts)
    ensures NoLeafAbove(Below(entries, parts[0]), parts[1..])
    ensures Find(entries, parts[0]).Some? ==> Find(entries, parts[0]).value.Node?
  {
    assert At(entries, parts[..1]).None?;
    forall n | 0 < n < |parts| - 1 ensures At(Below(entries, parts[0]), parts[1..][..n]).None? {
      assert At(entries, parts[..n + 1]).None?;
      assert parts[..n + 1][1..] == parts[1..][..n];
    }
  }

  lemma {:induction false} TidyBelow(entries: Entries, name: string)
    requires Tidy(entries)
    ensures Tidy(Below(entries, name))
    ensures Find(entries, name).Some? && Find(entries, name).value.Node? ==> name !in INHERITED
    ensures Find(entries, name).Some? ==> name != "__proto__"
  {
  }

  lemma {:induction false} SetStaysTidy(entries: Entries, parts: seq<string>, value: string)
    requires Tidy(entries) && parts != [] && NoLeafAbove(entries, parts)
    ensures Tidy(SetNested(entries, parts, value))
    decreases |parts|
  {
    if |parts| > 1 {
      NoLeafBelow(entries, parts);
      TidyBelow(entries, parts[0]);
      hide NoLeafAbove, At;
      SetStaysTidy(Below(entries, parts[0]), parts[1..], value);
      hide SetEntry, Find, Below;
    }
  }

  // ---- Flattening ----

  function FlattenInto(out: OMap<string>, entries: Entries, prefix: string): (r: OMap<string>)
    ensures out.Valid() ==> r.Valid()
    ensures forall k :: k in out.at ==> k in r.at
    decreases entries
  {
    if entries == [] then out
    else
      var Entry(key, nested) := entries[|entries| - 1];
      var before := FlattenInto(out, entries[..|entries| - 1], prefix);
      match nested
      case Leaf(text) => Put(before, FullKey(prefix, key), text)
      case Node(sub) => FlattenInto(before, sub, FullKey(prefix, key))
  }

  function Flatten(entries: Entries): OMap<string> {
    FlattenInto(Empty(), entries, "")
  }

  class FlatMap {
    var entries: OMap<string>

    constructor ()
      ensures entries == Empty()
    {
      entries := Empty();
    }
  }

  method FlattenTranslations(value: Entries, prefix: string, out: FlatMap)
    modifies out
    ensures out.entries == FlattenInto(old(out.entries), value, prefix)
    decreases value
  {
    for i := 0 to |value|
      invariant out.entries == FlattenInto(old(out.entries), value[..i], prefix)
    {
      var Entry(key, nested) := value[i];
      var fullKey := FullKey(prefix, key);
      assert value[..i + 1][..i] == value[..i];
      match nested {
        case Leaf(text) => out.entries := Put(out.entries, fullKey, text);
        case Node(sub) => FlattenTranslations(sub, fullKey, out);
      }
    }
    assert value[..|value|] == value;
  }

  lemma {:induction false} FindInPrefix(entries: Entries, n: nat, key: string)
    requires n <= |entries|
    ensures Find(entries[..n], key).Some? ==> Find(entries, key) == Find(entries[..n], key)
    ensures n < |entries| && (forall i :: 0 <= i < n ==> entries[i].name != key) && entries[n].name == key ==>
              Find(entries, key) == Some(entries[n].value)
    decreases n
  {
    if n > 0 {
      FindInPrefix(entries[1..], n - 1, key);
      assert entries[..n][1..] == entries[1..][..n - 1];
    }
  }

  /** Every flattened key comes from a leaf: the path that gave its final text. */
  lemma {:induction false} FlattenSound(
    out: OMap<string>, entries: Entries, prefix: string, k: string) returns (path: seq<string>)
    requires Proper(entries) && k in FlattenInto(out, entries, prefix).at
    ensures var text := FlattenInto(out, entries, prefix).at[k];
            if path == [] then k in out.at && text == out.at[k]
            else At(entries, path) == Some(text) && FlatKey(prefix, path) == k
    decreases entries
  {
    path := [];
    if entries != [] {
      var n := |entries| - 1;
      var Entry(key, nested) := entries[n];
      var full := FullKey(prefix, key);
      var before := FlattenInto(out, entries[..n], prefix);
      FindInPrefix(entries, n, key);
      if nested.Leaf? && k == full {
        path := [key];
        assert path[1..] == [];
      } else {
        var below := [];
        if nested.Node? {
          below := FlattenSound(before, nested.entries, full, k);
        }
        if below != [] {
          path := [key] + below;
          assert path[1..] == below;
        } else {
          path := FlattenSound(out, entries[..n], prefix, k);
          if path != [] {
            FindInPrefix(entries, n, path[0]);
          }
        }
      }
    }
  }

  lemma {:induction false} LastFound(entries: Entries, name: string)
    requires Find(entries, name).Some? && Find(entries[..|entries| - 1], name).None?
    ensures entries[|entries| - 1] == Entry(name, Find(entries, name).value)
  {
    var n := |entries| - 1;
    assert forall i :: 0 <= i < n ==> entries[i].name == entries[..n][i].name != name;
    var i :| 0 <= i < |entries| && entries[i] == Entry(name, Find(entries, name).value);
  }

  /** Every leaf's key is in the flat map. */
  lemma {:induction false} FlattenComplete(out: OMap<string>, entries: Entries, prefix: string, path: seq<string>)
    requires Proper(entries) && At(entries, path).Some?
    ensures FlatKey(prefix, path) in FlattenInto(out, entries, prefix).at
    decreases entries
  {
    var n := |entries| - 1;
    var before := FlattenInto(out, entries[..n], prefix);
    if Find(entries[..n], path[0]).Some? {
      FindInPrefix(entries, n, path[0]);
      hide FlatKey;
      FlattenComplete(out, entries[..n], prefix, path);
    } else {
      LastFound(entries, path[0]);
      var nested := entries[n].value;
      if nested.Node? {
        hide Proper;
        FlattenComplete(before, nested.entries, FullKey(prefix, path[0]), path[1..]);
      } else {
        assert path[1..] == [];
      }
    }
  }

  // ---- Rebuilding ----

  function Rebuild(keys: seq<string>, values: map<string, string>): Entries
    requires forall k <- keys :: k in values
  {
    if keys == [] then []
    else
      var last := keys[|keys| - 1];
      SetNestedValue(Rebuild(keys[..|keys| - 1], values), last, values[last])
  }

  ghost predicate PrefixFree(keys: seq<string>) {
    forall a, b :: a in keys && b in keys ==> !ProperPrefix(Split(a), Split(b))
  }

  /** What a caller can check of the keys before rebuilding. */
  ghost predicate Rebuildable(keys: seq<string>) {
    && (forall k <- keys :: k == "" || k[0] != '.')
    && (forall k <- keys :: Storable(Split(k)))
    && PrefixFree(keys)
  }

  lemma {:induction false} RebuildHasOnlyKeys(
    keys: seq<string>, values: map<string, string>, path: seq<string>) returns (k: string)
    requires forall k <- keys :: k in values
    requires At(Rebuild(keys, values), path).Some?
    ensures k in keys && path == Split(k) && At(Rebuild(keys, values), path) == Some(values[k])
  {
    var n := |keys| - 1;
    var before := Rebuild(keys[..n], values);
    SetAddsOnlyItsPath(before, Split(keys[n]), values[keys[n]], path);
    if path == Split(keys[n]) && At(Rebuild(keys, values), path) == Some(values[keys[n]]) {
      k := keys[n];
    } else {
      k := RebuildHasOnlyKeys(keys[..n], values, path);
    }
  }

  lemma {:induction false} RebuildIsProper(keys: seq<string>, values: map<string, string>)
    requires forall k <- keys :: k in values
    ensures Proper(Rebuild(keys, values))
    ensures PrefixFree(keys) ==> Tidy(Rebuild(keys, values))
  {
    if keys != [] {
      var n := |keys| - 1;
      var before := Rebuild(keys[..n], values);
      var parts := Split(keys[n]);
      assert forall k :: k in keys[..n] ==> k in keys;
      RebuildIsProper(keys[..n], values);
      SetStaysProper(before, parts, values[keys[n]]);
      if PrefixFree(keys) {
        forall m | 0 < m < |parts| ensures At(before, parts[..m]).None? {
          assert ProperPrefix(parts[..m], parts);
          if At(before, parts[..m]).Some? {
            var k := RebuildHasOnlyKeys(keys[..n], values, parts[..m]);
          }
        }
        SetStaysTidy(before, parts, values[keys[n]]);
      }
    }
  }

  lemma {:induction false} SplitInjective(a: string, b: string)
    requires Split(a) == Split(b)
    ensures a == b
  {
    SplitJoins(a);
    SplitJoins(b);
  }

  lemma {:induction false} AllButLast(keys: seq<string>, values: map<string, string>, k: string)
    requires Rebuildable(keys) && k in keys && forall k <- keys :: k in values
    ensures var last := keys[|keys| - 1];
            var others := keys[..|keys| - 1];
            && Rebuildable(others) && (forall x <- others :: x in values) && last in values
            && Storable(Split(last)) && (k != last ==> k in others)
            && !ProperPrefix(Split(k), Split(last)) && !ProperPrefix(Split(last), Split(k))
  {
    hide ProperPrefix, Split, Storable;
    var n := |keys| - 1;
    assert keys[n] in keys && forall x :: x in keys[..n] ==> x in keys;
  }

  lemma WholeWay(path: seq<string>, parts: seq<string>)
    ensures OnTheWay(path, parts, |parts|) ==> path == parts || ProperPrefix(path, parts)
  {
  }

  lemma {:induction false} RebuildKeepsAll(keys: seq<string>, values: map<string, string>, k: string)
    requires Rebuildable(keys) && k in keys && forall k <- keys :: k in values
    ensures At(Rebuild(keys, values), Split(k)) == Some(values[k])
  {
    var n := |keys| - 1;
    var last := keys[n];
    AllButLast(keys, values, k);
    assert Rebuild(keys, values) == SetNested(Rebuild(keys[..n], values), Split(last), values[last]);
    hide Split, At, SetNested, ProperPrefix, Storable, Rebuildable, Rebuild;
    StorableLands(Rebuild(keys[..n], values), Split(last));
    SetThenAt(Rebuild(keys[..n], values), Split(last), values[last], Split(k));
    WholeWay(Split(k), Split(last));
    hide Reach, OnTheWay;
    if k == last {
    } else if Split(k) == Split(last) {
      SplitInjective(k, last);
    } else {
      RebuildKeepsAll(keys[..n], values, k);
    }
  }

  // ---- The round trip ----

  /** Flattening the rebuilt tree gives the flat map back. */
  ghost predicate RoundTrips(keys: seq<string>, values: map<string, string>)
    requires forall k <- keys :: k in values
  {
    Flatten(Rebuild(keys, values)).at == map k <- keys :: k := values[k]
  }

  lemma FlatOfRebuild(keys: seq<string>, values: map<string, string>, k: string) returns (source: string)
    requires forall k <- keys :: k in values
    requires k in Flatten(Rebuild(keys, values)).at
    ensures source in keys && At(Rebuild(keys, values), Split(source)).Some?
    ensures FlatKey("", Split(source)) == k && Flatten(Rebuild(keys, values)).at[k] == values[source]
  {
    RebuildIsProper(keys, values);
    var path := FlattenSound(Empty(), Rebuild(keys, values), "", k);
    source := RebuildHasOnlyKeys(keys, values, path);
  }

  lemma RebuildableRoundTrips(keys: seq<string>, values: map<string, string>)
    requires Rebuildable(keys) && forall k <- keys :: k in values
    ensures RoundTrips(keys, values)
  {
    var flat := Flatten(Rebuild(keys, values)).at;
    forall k | k in keys ensures k in flat {
      RebuildKeepsAll(keys, values, k);
      RebuildIsProper(keys, values);
      FlattenComplete(Empty(), Rebuild(keys, values), "", Split(k));
      FlatSplit(k);
    }
    forall k | k in flat ensures k in keys && flat[k] == values[k] {
      var source := FlatOfRebuild(keys, values, k);
      FlatSplit(source);
    }
  }

  lemma RoundTripNeedsRebuildable(keys: seq<string>, values: map<string, string>)
    requires (forall k <- keys :: k in values) && RoundTrips(keys, values)
    ensures Rebuildable(keys)
  {
    var tree := Rebuild(keys, values);
    var flat := Flatten(tree).at;
    assert forall k :: k in keys ==> k in (map x <- keys :: x := values[x]);
    forall k | k in keys ensures k == "" || k[0] != '.' {
      var source := FlatOfRebuild(keys, values, k);
      SplitJoins(source);
      NoLeadingDot("", Split(source));
    }
    forall k | k in keys ensures At(tree, Split(k)).Some? {
      var source := FlatOfRebuild(keys, values, k);
      FlatSplit(source);
    }
    forall a, b | a in keys && b in keys ensures !ProperPrefix(Split(a), Split(b)) {
      LeavesArePrefixFree(tree, Split(a), Split(b));
    }
    RebuildIsProper(keys, values);
    forall k | k in keys ensures Storable(Split(k)) {
      TidyPathsAreStorable(tree, Split(k));
    }
  }

  /**
    * Rebuilding and flattening again gives back the same flat map exactly when no
    * key starts with a dot, no key's names are cut off by inheritance, and no key
    * continues another.
    */
  lemma RoundTripIff(keys: seq<string>, values: map<string, string>)
    requires forall k <- keys :: k in values
    ensures RoundTrips(keys, values) <==> Rebuildable(keys)
  {
    if Rebuildable(keys) {
      RebuildableRoundTrips(keys, values);
    }
    if RoundTrips(keys, values) {
      RoundTripNeedsRebuildable(keys, values);
    }
  }

  lemma {:induction false} FlattenOne(out: OMap<string>, name: string, value: Tree, prefix: string)
    ensures FlattenInto(out, [Entry(name, value)], prefix)
         == match value
            case Leaf(text) => Put(out, FullKey(prefix, name), text)
            case Node(sub) => FlattenInto(out, sub, FullKey(prefix, name))
  {
    assert [Entry(name, value)][..0] == [];
  }

  lemma {:induction false} RebuildOne(key: string, values: map<string, string>)
    requires key in values
    ensures Rebuild([key], values) == SetNested([], Split(key), values[key])
  {
    hide Split, SetNested;
    assert [key][..0] == [];
  }

  /** Concretely: the object under an inherited name is found on the prototype, and its text is lost. */
  lemma {:induction false} InheritedNameIsLost(text: string)
    ensures Flatten([Entry("constructor", Node([Entry("a", Leaf(text))]))]).at == map["constructor.a" := text]
    ensures Rebuild(["constructor.a"], map["constructor.a" := text]) == []
  {
    hide FlattenInto, Split, Rebuild;
    var none: OMap<string> := Empty();
    FlattenOne(none, "constructor", Node([Entry("a", Leaf(text))]), "");
    FlattenOne(none, "a", Leaf(text), "constructor");
    RebuildOne("constructor.a", map["constructor.a" := text]);
    SplitAtDot("constructor", "a");
    assert "constructor" + "." + "a" == "constructor.a";
    assert Split("constructor.a")[0] == "constructor" && |Split("a")| > 0;
  }

  /** A key below a name survives exactly if no plain object inherits a member of that name. */
  lemma {:induction false} NameSurvivesIff(name: string, values: map<string, string>)
    requires DotFree(name) && name != "" && name + ".a" in values
    ensures RoundTrips([name + ".a"], values)
       <==> name !in {
              "__defineGetter__", "__defineSetter__", "__lookupGetter__", "__lookupSetter__", "__proto__",
              "constructor", "hasOwnProperty", "isPrototypeOf", "propertyIsEnumerable", "toLocaleString", "toString",
              "valueOf"}
  {
    var key := name + ".a";
    SplitAtDot(name, "a");
    DotFreeIsOnePart("a");
    assert name + "." + "a" == key && Split(key) == [name, "a"];
    hide Split, Rebuild, RoundTrips;
    RoundTripIff([key], values);
    assert key in [key] && key[0] == name[0] && name[0] in name;
    assert Rebuildable([key]) <==> Storable(Split(key));
    assert Storable([name, "a"]) <==> name !in INHERITED;
  }

  // ---- Source trees ----

  /** A locale tree as written by hand: names are non-empty, dot-free and not inherited. */
  ghost predicate SourceTree(entries: Entries) {
    && Proper(entries)
    && forall i :: 0 <= i < |entries| ==>
                     && entries[i].name != "" && DotFree(entries[i].name) && entries[i].name !in INHERITED
                     && (entries[i].value.Node? ==> SourceTree(entries[i].value.entries))
  }

  lemma {:induction false} SourcePaths(entries: Entries, path: seq<string>)
    requires SourceTree(entries) && At(entries, path).Some?
    ensures forall part <- path :: part != "" && DotFree(part) && part !in INHERITED
    decreases |path|
  {
    var t := Find(entries, path[0]);
    if t.value.Node? {
      SourcePaths(t.value.entries, path[1..]);
    }
  }

  /** The flat key of a source path splits back into the path. */
  lemma {:induction false} SourceKeySplits(entries: Entries, path: seq<string>)
    requires SourceTree(entries) && At(entries, path).Some?
    ensures Split(FlatKey("", path)) == path && FlatKey("", path) != "" && FlatKey("", path)[0] != '.'
  {
    SourcePaths(entries, path);
    assert path[0] in path;
    FlatKeyJoins("", path);
    JoinSplits(path);
    SplitJoins(FlatKey("", path));
    NoLeadingDot("", path);
    assert Split("") == [""];
  }

  /** No insertion can overwrite a leaf: the keys of a source tree are always rebuildable. */
  lemma {:induction false} SourceTreeIsRebuildable(entries: Entries)
    requires SourceTree(entries)
    ensures Rebuildable(Flatten(entries).order)
  {
    var flat := Flatten(entries);
    forall k | k in flat.order
      ensures At(entries, Split(k)).Some? && k != "" && k[0] != '.' && Storable(Split(k))
    {
      var path := FlattenSound(Empty(), entries, "", k);
      SourceKeySplits(entries, path);
      SourcePaths(entries, path);
      assert forall i :: 0 <= i < |path| ==> path[i] in path;
    }
    forall a, b | a in flat.order && b in flat.order ensures !ProperPrefix(Split(a), Split(b)) {
      LeavesArePrefixFree(entries, Split(a), Split(b));
    }
  }

  /** For every source tree the rebuilt tree flattens to the same keys and texts. */
  lemma {:induction false} SourceTreeRoundTrips(entries: Entries)
    requires SourceTree(entries)
    ensures var flat := Flatten(entries);
            && flat.Valid()
            && Flatten(Rebuild(flat.order, flat.at)).at == flat.at
  {
    var flat := Flatten(entries);
    SourceTreeIsRebuildable(entries);
    RebuildableRoundTrips(flat.order, flat.at);
    assert (map k <- flat.order :: k := flat.at[k]) == flat.at;
  }
}
