// scripts/protocol-gen-swift.ts: names for schemas, by identity and by structure.
module SchemaRegistry {
  import opened Wrappers
  import opened StableJson

  /** A schema object: its identity and what it says. */
  datatype Schema = Schema(id: nat, value: Json)

  datatype Registration = Registration(name: string, schema: Schema)

  type Render = Json -> string   // JSON.stringify

  function Signature(render: Render, v: Json): string {
    render(Stable(v))
  }

  // ---------- What a history of registrations says ----------

  function Count(render: Render, history: seq<Registration>, signature: string): nat {
    if history == [] then 0
    else
      var last := history[|history| - 1];
      Count(render, history[..|history| - 1], signature)
      + (if Signature(render, last.schema.value) == signature then 1 else 0)
  }

  /** The name most recently given to the object. */
  function NameOf(history: seq<Registration>, id: nat): Option<string> {
    if history == [] then None
    else
      var last := history[|history| - 1];
      if last.schema.id == id then Some(last.name) else NameOf(history[..|history| - 1], id)
  }

  lemma {:induction false} LastNameCounts(history: seq<Registration>, i: nat)
    requires i < |history| && forall j :: i < j < |history| ==> history[j].schema.id != history[i].schema.id
    ensures NameOf(history, history[i].schema.id) == Some(history[i].name)
  {
    if i < |history| - 1 {
      LastNameCounts(history[..|history| - 1], i);
    }
  }

  ghost predicate NamesRight(history: seq<Registration>, byObject: map<nat, string>) {
    forall id :: NameOf(history, id) == (if id in byObject then Some(byObject[id]) else None)
  }

  ghost predicate DuplicatesRight(render: Render, history: seq<Registration>, duplicates: set<string>) {
    forall s :: s in duplicates <==> Count(render, history, s) >= 2
  }

  ghost predicate SinglesRight(render: Render, history: seq<Registration>, bySignature: map<string, string>) {
    && (forall s :: s in bySignature <==> Count(render, history, s) == 1)
    && forall i :: 0 <= i < |history| ==>
         var s := Signature(render, history[i].schema.value);
         s in bySignature ==> bySignature[s] == history[i].name
  }

  /** The name of the one registration with this signature. */
  function SingleName(render: Render, history: seq<Registration>, signature: string): string
    requires Count(render, history, signature) > 0
  {
    var last := history[|history| - 1];
    if Signature(render, last.schema.value) == signature then last.name
    else SingleName(render, history[..|history| - 1], signature)
  }

  function Named(render: Render, history: seq<Registration>, schema: Schema, fallback: bool): Option<string> {
    var signature := Signature(render, schema.value);
    match NameOf(history, schema.id)
    case Some(name) => Some(name)
    case None =>
      if fallback && Count(render, history, signature) == 1
      then Some(SingleName(render, history, signature)) else None
  }

  lemma {:induction false} NextRegistration(render: Render, history: seq<Registration>, r: Registration)
    ensures forall s ::
      Count(render, history + [r], s)
      == Count(render, history, s) + (if Signature(render, r.schema.value) == s then 1 else 0)
    ensures forall id ::
      NameOf(history + [r], id) == if r.schema.id == id then Some(r.name) else NameOf(history, id)
  {
    assert (history + [r])[..|history|] == history;
  }

  lemma {:induction false} NotRegistered(render: Render, history: seq<Registration>, signature: string)
    ensures Count(render, history, signature) == 0
       <==> forall r :: r in history ==> Signature(render, r.schema.value) != signature
  {
    if history != [] {
      var init, last := history[..|history| - 1], history[|history| - 1];
      assert history == init + [last];
      NotRegistered(render, init, signature);
    }
  }

  ghost predicate Bears(render: Render, history: seq<Registration>, i: nat, signature: string) {
    i < |history| && Signature(render, history[i].schema.value) == signature
  }

  lemma {:induction false} OnlyName(render: Render, history: seq<Registration>, signature: string)
    requires Count(render, history, signature) == 1
    ensures exists i: nat ::
      Bears(render, history, i, signature) && history[i].name == SingleName(render, history, signature)
  {
    var n := |history| - 1;
    var init := history[..n];
    if Bears(render, history, n, signature) {
    } else {
      OnlyName(render, init, signature);
      var i: nat :| Bears(render, init, i, signature) && init[i].name == SingleName(render, init, signature);
      assert Bears(render, history, i, signature);
    }
  }

  class Registry {
    const render: Render
    var schemaNameByObject: map<nat, string>
    var schemaNameBySignature: map<string, string>
    var duplicateSchemaSignatures: set<string>
    ghost var history: seq<Registration>

    ghost predicate Valid() reads this {
      && NamesRight(history, schemaNameByObject)
      && SinglesRight(render, history, schemaNameBySignature)
      && DuplicatesRight(render, history, duplicateSchemaSignatures)
    }

    constructor (render: Render)
      ensures Valid() && history == [] && this.render == render
    {
      this.render := render;
      schemaNameByObject := map[];
      schemaNameBySignature := map[];
      duplicateSchemaSignatures := {};
      history := [];
    }

    method RegisterNamedSchema(name: string, schema: Schema)
      requires Valid()
      modifies this
      ensures Valid() && history == old(history) + [Registration(name, schema)]
    {
      var signature := Signature(render, schema.value);
      ghost var was := history;
      history := history + [Registration(name, schema)];
      schemaNameByObject := schemaNameByObject[schema.id := name];
      NextRegistration(render, was, Registration(name, schema));
      if signature in duplicateSchemaSignatures {
        return;
      }
      if signature in schemaNameBySignature {
        schemaNameBySignature := map s | s in schemaNameBySignature && s != signature :: schemaNameBySignature[s];
        duplicateSchemaSignatures := duplicateSchemaSignatures + {signature};
        return;
      }
      NotRegistered(render, was, signature);
      schemaNameBySignature := schemaNameBySignature[signature := name];
    }

    method NamedSchema(schema: Schema, allowStructuralFallback: bool) returns (name: Option<string>)
      requires Valid()
      ensures name == Named(render, history, schema, allowStructuralFallback)
    {
      if schema.id in schemaNameByObject {
        return Some(schemaNameByObject[schema.id]);
      }
      if !allowStructuralFallback {
        return None;
      }
      var signature := Signature(render, schema.value);
      if signature in schemaNameBySignature {
        name := Some(schemaNameBySignature[signature]);
        OnlyName(render, history, signature);
      } else {
        name := None;
      }
    }
  }

  ghost predicate OnlyBearer(render: Render, history: seq<Registration>, i: nat, signature: string) {
    Bears(render, history, i, signature) && forall j: nat :: Bears(render, history, j, signature) ==> j == i
  }

  lemma {:induction false} OneBearer(render: Render, history: seq<Registration>, signature: string)
    ensures Count(render, history, signature) == 1
       <==> exists i: nat :: OnlyBearer(render, history, i, signature)
  {
    if history != [] {
      var n := |history| - 1;
      var init, last := history[..n], history[n];
      assert forall i: nat :: i < n ==>
        (Bears(render, init, i, signature) <==> Bears(render, history, i, signature));
      NotRegistered(render, init, signature);
      OneBearer(render, init, signature);
      if Signature(render, last.schema.value) == signature {
        assert Bears(render, history, n, signature);
        assert Count(render, init, signature) == 0 ==> OnlyBearer(render, history, n, signature);
        if Count(render, init, signature) != 0 {
          var r :| r in init && Signature(render, r.schema.value) == signature;
          var i :| 0 <= i < n && init[i] == r;
          assert Bears(render, history, i, signature);
        }
      } else {
        assert forall i: nat :: OnlyBearer(render, init, i, signature) ==> OnlyBearer(render, history, i, signature);
        assert forall i: nat :: OnlyBearer(render, history, i, signature) ==> OnlyBearer(render, init, i, signature);
      }
    }
  }

  // ---------- Order of registration ----------

  lemma DropOne<T>(s: seq<T>, i: nat)
    requires i < |s|
    ensures multiset(s[..i] + s[i + 1..]) == multiset(s) - multiset{s[i]}
  {
    assert s == s[..i] + ([s[i]] + s[i + 1..]);
    assert multiset([s[i]] + s[i + 1..]) == multiset{s[i]} + multiset(s[i + 1..]);
  }

  lemma LastWithout<T>(b: seq<T>, i: nat)
    requires i < |b| - 1
    ensures var rest, init := b[..i] + b[i + 1..], b[..|b| - 1];
            && init[i] == b[i] && rest != [] && rest[|rest| - 1] == b[|b| - 1]
            && rest[..|rest| - 1] == init[..i] + init[i + 1..]
  {
  }

  lemma {:induction false} CountWithout(render: Render, b: seq<Registration>, i: nat, signature: string)
    requires i < |b|
    ensures Count(render, b, signature) == Count(render, b[..i] + b[i + 1..], signature)
      + (if Signature(render, b[i].schema.value) == signature then 1 else 0)
  {
    hide Signature;
    var init := b[..|b| - 1];
    if i == |b| - 1 {
      assert b[..i] + b[i + 1..] == init;
    } else {
      CountWithout(render, init, i, signature);
      LastWithout(b, i);
    }
  }

  lemma {:induction false} CountIgnoresOrder(
    render: Render, a: seq<Registration>, b: seq<Registration>, signature: string)
    requires multiset(a) == multiset(b)
    ensures Count(render, a, signature) == Count(render, b, signature)
  {
    if a == [] {
      assert |multiset(b)| == 0;
    } else {
      var last := a[|a| - 1];
      assert last in multiset(b);
      var i :| 0 <= i < |b| && b[i] == last;
      var rest := b[..i] + b[i + 1..];
      DropOne(a, |a| - 1);
      DropOne(b, i);
      assert a[..|a| - 1] + a[|a|..] == a[..|a| - 1];
      CountIgnoresOrder(render, a[..|a| - 1], rest, signature);
      CountWithout(render, b, i, signature);
    }
  }

  /** Which signatures are named, how, and which are duplicates, depends only on what was registered. */
  lemma OrderOfRegistrationIsIrrelevant(
    render: Render, a: seq<Registration>, b: seq<Registration>,
    names: map<string, string>, names': map<string, string>, dups: set<string>, dups': set<string>)
    requires multiset(a) == multiset(b)
    requires SinglesRight(render, a, names) && SinglesRight(render, b, names')
    requires DuplicatesRight(render, a, dups) && DuplicatesRight(render, b, dups')
    ensures names == names' && dups == dups'
  {
    forall s ensures Count(render, a, s) == Count(render, b, s) {
      CountIgnoresOrder(render, a, b, s);
    }
    assert forall s :: s in dups <==> s in dups';
    assert names.Keys == names'.Keys;
    forall s | s in names ensures names[s] == names'[s] {
      OnlyName(render, a, s);
      var i: nat :| Bears(render, a, i, s);
      assert a[i] in multiset(b);
      var j :| 0 <= j < |b| && b[j] == a[i];
    }
  }

  // ---------- Structure, not text ----------

  /** `JSON.stringify` tells canonical values apart; nothing is asked of it on any other value. */
  ghost predicate Faithful(render: Render) {
    forall a, b :: WellFormed(a) && WellFormed(b) && Signature(render, a) == Signature(render, b) ==>
      Stable(a) == Stable(b)
  }

  ghost predicate Alike(history: seq<Registration>, i: nat, schema: Schema) {
    i < |history| && Same(history[i].schema.value, schema.value)
  }

  ghost predicate OnlyAlike(history: seq<Registration>, i: nat, schema: Schema) {
    Alike(history, i, schema) && forall j: nat :: Alike(history, j, schema) ==> j == i
  }

  ghost predicate HistoryWellFormed(history: seq<Registration>) {
    forall i :: 0 <= i < |history| ==> WellFormed(history[i].schema.value)
  }

  lemma {:induction false} SignatureIff(render: Render, a: Json, b: Json)
    requires Faithful(render) && WellFormed(a) && WellFormed(b)
    ensures Signature(render, a) == Signature(render, b) <==> Same(a, b)
  {
    StableIff(a, b);
  }

  /**
   * An unregistered schema borrows a name by structure exactly when one registration, and no second,
   * is equal to it up to property order; it is that registration's name.
   */
  lemma {:induction false} FallbackIff(render: Render, history: seq<Registration>, schema: Schema, name: string)
    requires Faithful(render) && HistoryWellFormed(history) && WellFormed(schema.value)
    requires NameOf(history, schema.id) == None
    ensures Named(render, history, schema, true) == Some(name)
       <==> exists i: nat :: OnlyAlike(history, i, schema) && history[i].name == name
    ensures Named(render, history, schema, false) == None
  {
    var signature := Signature(render, schema.value);
    forall i: nat ensures Alike(history, i, schema) <==> Bears(render, history, i, signature) {
      if i < |history| {
        SignatureIff(render, history[i].schema.value, schema.value);
      }
    }
    assert forall i: nat :: OnlyAlike(history, i, schema) <==> OnlyBearer(render, history, i, signature);
    hide Alike, Bears, Faithful, Signature, HistoryWellFormed, NameOf;
    OneBearer(render, history, signature);
    if Count(render, history, signature) == 1 {
      OnlyName(render, history, signature);
      var i: nat :| OnlyBearer(render, history, i, signature);
    }
  }
}
