// What a sync run guarantees: every source key is placed once, and a second run changes nothing.
module SyncProperties {
  import opened Wrappers
  import opened OrderedMap
  import opened Sorting
  import opened TranslationMemory
  import opened TranslationBatches
  import opened SyncLocale
  import Batch = TranslateBatch

  // ---- Every key is placed exactly once ----

  ghost predicate Placed(env: Env, source: Source, p: Pass, n: nat)
    requires source.flat.Valid() && n <= |source.flat.order|
  {
    var keys := source.flat.order[..n];
    && (forall item <- p.pending :: item.key in source.flat.at && item == ItemFor(env, source, item.key))
    && Distinct(Batch.KeysOf(p.pending))
    && (forall k :: k in p.next || k in Batch.KeysOf(p.pending) ==> k in keys)
    && (forall k <- keys :: k in p.next <==> k !in Batch.KeysOf(p.pending))
    && (forall k <- p.fallback :: k in p.next)
  }

  lemma {:induction false} AppendKey(items: seq<Item>, item: Item)
    ensures Batch.KeysOf(items + [item]) == Batch.KeysOf(items) + [item.key]
  {
    assert (items + [item])[..|items|] == items;
  }

  /** One source key either gets a text or joins the pending list. */
  lemma PlaceShape(env: Env, inputs: Inputs, byText: map<string, TmEntry>, item: Item, p: Pass)
    ensures var r := Place(env, inputs, byText, item, p);
            if r.pending == p.pending
            then item.key in r.next && r.next == p.next[item.key := r.next[item.key]] &&
                 (r.fallback == p.fallback || r.fallback == p.fallback + [item.key])
            else r == p.(pending := p.pending + [item])
  {
  }

  lemma PlaceKeepsPlaced(env: Env, source: Source, n: nat, p: Pass, r: Pass)
    requires source.flat.Valid() && 0 < n <= |source.flat.order|
    requires Placed(env, source, p, n - 1)
    requires var key := source.flat.order[n - 1];
             if r.pending == p.pending
             then && key in r.next && r.next == p.next[key := r.next[key]]
                  && (r.fallback == p.fallback || r.fallback == p.fallback + [key])
             else key in source.flat.at && r == p.(pending := p.pending + [ItemFor(env, source, key)])
    ensures Placed(env, source, r, n)
  {
    hide Batch.KeysOf;
    var order := source.flat.order;
    var key := order[n - 1];
    assert key in order && order[..n] == order[..n - 1] + [key] && key !in order[..n - 1];
    if r.pending != p.pending {
      AppendKey(p.pending, ItemFor(env, source, key));
    }
  }

  /** Each source key lands either in `nextFlat` or, once, in `pending`; fallback keys are placed keys. */
  lemma {:induction false} ReconcilePlacesOnce(env: Env, inputs: Inputs, source: Source, n: nat)
    requires inputs.tm.Valid() && source.flat.Valid() && n <= |source.flat.order|
    ensures Placed(env, source, Reconcile(env, inputs, source, n), n)
  {
    hide TextIndex, Place;
    if n > 0 {
      ReconcilePlacesOnce(env, inputs, source, n - 1);
      var before := Reconcile(env, inputs, source, n - 1);
      var key := source.flat.order[n - 1];
      assert key in source.flat.order;
      PlaceShape(env, inputs, TextIndex(inputs.tm, env.locale), ItemFor(env, source, key), before);
      PlaceKeepsPlaced(env, source, n, before, Reconcile(env, inputs, source, n));
    }
  }

  lemma {:induction false} FillCompletes(inputs: Inputs, force: bool, items: seq<Item>, p: Pass)
    ensures var r := Fill(inputs, force, items, p);
            && (forall k :: k in r.next <==> k in p.next || k in Batch.KeysOf(items))
            && (forall k :: k in p.next ==> r.next[k] == p.next[k])
            && (forall k :: k in r.fallback ==> k in p.fallback || (k in Batch.KeysOf(items) && k !in p.next))
  {
    if items != [] {
      FillCompletes(inputs, force, items[..|items| - 1], p);
    }
  }

  function TextOf(p: Pass, key: string): Option<string> {
    if key in p.next then Some(p.next[key]) else None
  }

  /** The item has a non-blank text, and the memory holds it under the item's cache key. */
  ghost predicate Translated(p: Pass, item: Item) {
    && TextOf(p, item.key).Some? && NonBlank(TextOf(p, item.key).value)
    && p.tm.Get(item.cacheKey).Some?
    && var e := p.tm.Get(item.cacheKey).value;
       e.translated == TextOf(p, item.key).value && e.cacheKey == item.cacheKey
  }

  /** Distinct keys have distinct cache keys. */
  ghost predicate Separate(items: seq<Item>) {
    forall a, b :: a in items && b in items ==> (a.key == b.key <==> a.cacheKey == b.cacheKey)
  }

  /** Outside the items' own slots nothing differs between the two passes. */
  ghost predicate ChangedOnly(p: Pass, r: Pass, items: seq<Item>) {
    && r.pending == p.pending && r.fallback == p.fallback
    && (forall k :: (forall item <- items :: item.key != k) ==> TextOf(r, k) == TextOf(p, k))
    && (forall c :: (forall item <- items :: item.cacheKey != c) ==> r.tm.Get(c) == p.tm.Get(c))
  }

  lemma BlankIsEmpty()
    ensures !NonBlank("")
  {
  }

  lemma StoreOneTranslates(env: Env, moment: Moment, item: Item, m: OMap<string>, p: Pass)
    requires item.key in m.at && NonBlank(m.at[item.key])
    ensures var r := StoreOne(env, moment, item, m, p);
            && r.pending == p.pending && r.fallback == p.fallback && Translated(r, item)
            && (forall k :: k != item.key ==> TextOf(r, k) == TextOf(p, k))
            && (forall c :: c != item.cacheKey ==> r.tm.Get(c) == p.tm.Get(c))
  {
    BlankIsEmpty();
    hide NonBlank;
  }

  lemma OneMoreTranslated(p: Pass, before: Pass, r: Pass, init: seq<Item>, last: Item)
    requires Separate(init + [last])
    requires ChangedOnly(p, before, init) && forall item <- init :: Translated(before, item)
    requires r.pending == before.pending && r.fallback == before.fallback && Translated(r, last)
    requires forall k :: k != last.key ==> TextOf(r, k) == TextOf(before, k)
    requires forall c :: c != last.cacheKey ==> r.tm.Get(c) == before.tm.Get(c)
    ensures ChangedOnly(p, r, init + [last]) && forall item <- init + [last] :: Translated(r, item)
  {
    hide NonBlank, TextOf;
    var batch := init + [last];
    assert last in batch && forall item <- init :: item in batch;
    forall item | item in batch ensures Translated(r, item) {
      assert item.key == last.key <==> item.cacheKey == last.cacheKey;
    }
  }

  lemma {:induction false} StoreTranslates(env: Env, moment: Moment, batch: seq<Item>, m: OMap<string>, p: Pass)
    requires Separate(batch)
    requires forall item <- batch :: item.key in m.at && NonBlank(m.at[item.key])
    ensures var r := Store(env, moment, batch, m, p);
            ChangedOnly(p, r, batch) && forall item <- batch :: Translated(r, item)
  {
    hide NonBlank, StoreOne;
    if batch != [] {
      var init, last := batch[..|batch| - 1], batch[|batch| - 1];
      assert batch == init + [last];
      assert forall item <- init :: item in batch;
      StoreTranslates(env, moment, init, m, p);
      var before := Store(env, moment, init, m, p);
      StoreOneTranslates(env, moment, last, m, before);
      hide ChangedOnly, Translated;
      OneMoreTranslated(p, before, StoreOne(env, moment, last, m, before), init, last);
    }
  }

  lemma KeptTranslated(q: Pass, r: Pass, rest: seq<Item>, item: Item)
    requires Translated(q, item) && ChangedOnly(q, r, rest) && forall later <- rest :: Translated(r, later)
    requires forall later <- rest :: later.key == item.key <==> later.cacheKey == item.cacheKey
    ensures Translated(r, item)
  {
    hide NonBlank;
    if later :| later in rest && later.key == item.key {
      assert Translated(r, later);
    } else {
      assert TextOf(r, item.key) == TextOf(q, item.key);
      assert r.tm.Get(item.cacheKey) == q.tm.Get(item.cacheKey);
    }
  }

  lemma {:induction false} BatchGivesTexts(batch: seq<Item>, replies: nat -> Batch.Reply, at: nat)
    requires Batch.Translate(batch, replies, at, 0).outcome.Ok?
    ensures var m := Batch.Translate(batch, replies, at, 0).outcome.value;
            forall item <- batch :: item.key in m.at && NonBlank(m.at[item.key])
  {
    hide Batch.Attempt;
    Batch.SuccessTranslates(batch, 0, Batch.FIRST_ERROR, replies, at, 0);
    var m := Batch.Translate(batch, replies, at, 0).outcome.value;
    forall item | item in batch ensures item.key in m.at {
      var i :| 0 <= i < |batch| && batch[i] == item;
      assert Batch.KeysOf(batch)[i] == item.key;
    }
  }

  /** If every batch succeeds, every pending item ends up translated and nothing else changes. */
  lemma {:induction false} AllBatchesTranslate(env: Env, moment: Moment, batches: seq<seq<Item>>, at: nat, p: Pass)
    requires Separate(Flatten(batches))
    requires TranslateAll(env, moment, batches, at, p).Ok?
    ensures var r := TranslateAll(env, moment, batches, at, p).value;
            ChangedOnly(p, r, Flatten(batches)) && forall item <- Flatten(batches) :: Translated(r, item)
    decreases |batches|
  {
    hide Batch.Attempt, Batch.Translate, Store, NonBlank;
    if batches != [] {
      var batch, rest := batches[0], Flatten(batches[1..]);
      var all := Flatten(batches);
      assert forall item :: item in all <==> item in batch || item in rest;
      var run := Batch.Translate(batch, moment.replies, at, 0);
      var m := run.outcome.value;
      BatchGivesTexts(batch, moment.replies, at);
      StoreTranslates(env, moment, batch, m, p);
      var q := Store(env, moment, batch, m, p);
      AllBatchesTranslate(env, moment, batches[1..], at + run.attempts, q);
      var r := TranslateAll(env, moment, batches, at, p).value;
      forall item | item in batch ensures Translated(r, item) {
        KeptTranslated(q, r, rest, item);
      }
    }
  }

  // ---- What a completed run reports ----

  lemma ChangedNothing(p: Pass)
    ensures ChangedOnly(p, p, p.pending)
  {
  }

  lemma {:induction false} FillIdle(inputs: Inputs, force: bool, items: seq<Item>, p: Pass)
    requires forall item <- items :: item.key in p.next
    ensures Fill(inputs, force, items, p) == p
  {
    if items != [] {
      FillIdle(inputs, force, items[..|items| - 1], p);
    }
  }

  /** Without any assumption on the cache keys: stored batches give every item a text and touch no other key. */
  ghost predicate Covers(p: Pass, r: Pass, items: seq<Item>) {
    && r.fallback == p.fallback
    && (forall item <- items :: item.key in r.next)
    && (forall k :: k in p.next ==> k in r.next)
    && (forall k :: k in r.next ==> k in p.next || exists item <- items :: item.key == k)
  }

  lemma {:induction false} StoreCovers(env: Env, moment: Moment, batch: seq<Item>, m: OMap<string>, p: Pass)
    requires forall item <- batch :: item.key in m.at && m.at[item.key] != ""
    ensures Covers(p, Store(env, moment, batch, m, p), batch)
  {
    if batch != [] {
      var n := |batch| - 1;
      assert forall item :: item in batch <==> item in batch[..n] || item == batch[n];
      StoreCovers(env, moment, batch[..n], m, p);
    }
  }

  lemma {:induction false} AllBatchesCover(env: Env, moment: Moment, batches: seq<seq<Item>>, at: nat, p: Pass)
    requires TranslateAll(env, moment, batches, at, p).Ok?
    ensures Covers(p, TranslateAll(env, moment, batches, at, p).value, Flatten(batches))
    decreases |batches|
  {
    hide Batch.Attempt, Batch.Translate, Store, NonBlank;
    if batches != [] {
      var batch, rest := batches[0], Flatten(batches[1..]);
      assert forall item :: item in Flatten(batches) <==> item in batch || item in rest;
      var run := Batch.Translate(batch, moment.replies, at, 0);
      BatchGivesTexts(batch, moment.replies, at);
      BlankIsEmpty();
      StoreCovers(env, moment, batch, run.outcome.value, p);
      AllBatchesCover(env, moment, batches[1..], at + run.attempts, Store(env, moment, batch, run.outcome.value, p));
    }
  }

  lemma {:induction false} DistinctCard(a: seq<string>)
    requires Distinct(a)
    ensures |(set x <- a)| == |a|
  {
    if a != [] {
      var init, last := a[..|a| - 1], a[|a| - 1];
      DistinctCard(init);
      assert (set x <- a) == (set x <- init) + {last};
    }
  }

  lemma {:induction false} SetOfSeqCard(b: seq<string>)
    ensures |(set x <- b)| <= |b|
  {
    if b != [] {
      var init, last := b[..|b| - 1], b[|b| - 1];
      SetOfSeqCard(init);
      assert (set x <- b) == (set x <- init) + {last};
    }
  }

  lemma {:induction false} SubsetCard(a: set<string>, b: set<string>)
    requires a <= b
    ensures |a| <= |b|
    decreases |a|
  {
    if x :| x in a {
      SubsetCard(a - {x}, b - {x});
    }
  }

  lemma {:induction false} DistinctFits(a: seq<string>, b: seq<string>)
    requires Distinct(a) && forall x <- a :: x in b
    ensures |a| <= |b|
  {
    var sa, sb := set x <- a, set x <- b;
    DistinctCard(a);
    SetOfSeqCard(b);
    assert sa <= sb;
    SubsetCard(sa, sb);
  }

  lemma {:induction false} NoFallbackWithProvider(env: Env, inputs: Inputs, source: Source, n: nat)
    requires env.allowTranslate && inputs.tm.Valid() && source.flat.Valid() && n <= |source.flat.order|
    ensures Reconcile(env, inputs, source, n).fallback == []
  {
    hide TextIndex;
    if n > 0 {
      NoFallbackWithProvider(env, inputs, source, n - 1);
    }
  }

  lemma {:induction false} KeysOfMembers(items: seq<Item>)
    ensures forall k :: k in Batch.KeysOf(items) <==> exists item <- items :: item.key == k
  {
    forall item | item in items ensures item.key in Batch.KeysOf(items) {
      var i :| 0 <= i < |items| && items[i] == item;
      assert Batch.KeysOf(items)[i] == item.key;
    }
    forall k | k in Batch.KeysOf(items) ensures exists item <- items :: item.key == k {
      var i :| 0 <= i < |items| && Batch.KeysOf(items)[i] == k;
      assert items[i] in items;
    }
  }

  lemma PassCoversSource(env: Env, options: Options, moment: Moment, inputs: Inputs, source: Source)
    requires inputs.tm.Valid() && source.flat.Valid()
    requires FinalPass(env, options, moment, inputs, source).Ok?
    ensures var p := FinalPass(env, options, moment, inputs, source).value;
            && (forall k :: k in p.next <==> k in source.flat.order)
            && (forall k <- p.fallback :: k in source.flat.order)
            && (env.allowTranslate ==> p.fallback == [])
  {
    hide Reconcile, TranslateAll, Fill, Pack, Batch.KeysOf;
    var n := |source.flat.order|;
    assert source.flat.order[..n] == source.flat.order;
    var placed := Reconcile(env, inputs, source, n);
    ReconcilePlacesOnce(env, inputs, source, n);
    var q := placed;
    if env.allowTranslate {
      NoFallbackWithProvider(env, inputs, source, n);
      if |placed.pending| > 0 {
        q := TranslateAll(env, moment, Pack([], placed.pending, env.budget), 0, placed).value;
        PackSplits([], placed.pending, env.budget);
        assert [] + placed.pending == placed.pending;
        AllBatchesCover(env, moment, Pack([], placed.pending, env.budget), 0, placed);
      }
    }
    KeysOfMembers(placed.pending);
    FillCompletes(inputs, options.force, placed.pending, q);
    var p := FinalPass(env, options, moment, inputs, source).value;
    if env.allowTranslate && p.fallback != [] {
      assert p.fallback[0] in p.fallback;
    }
  }

  /**
    * A completed run has a text for exactly the source keys.  Its fallback keys are
    * distinct source keys, so the translated count is never negative, and a run
    * with a provider has none.
    */
  lemma CompletedRunAccounts(env: Env, options: Options, moment: Moment, source: Source, files: Files)
    requires source.flat.Valid() && Sync(env, options, moment, source, files).Ok?
    ensures var r := Sync(env, options, moment, source, files).value;
            && r.pass.next.Keys == source.flat.at.Keys
            && Distinct(r.meta.fallbackKeys) && (forall k <- r.meta.fallbackKeys :: k in source.flat.at)
            && r.meta.translatedKeys == |source.flat.order| - |r.meta.fallbackKeys| >= 0
            && (env.allowTranslate ==> r.meta.fallbackKeys == [] && r.meta.translatedKeys == |source.flat.order|)
  {
    hide FinalPass, Changed, ExpectedFiles, Sort;
    var inputs := LoadInputs(env, files);
    PassCoversSource(env, options, moment, inputs, source);
    var p := FinalPass(env, options, moment, inputs, source).value;
    var sorted := Sort(Dedup(p.fallback), env.le);
    SortMembers(Dedup(p.fallback), env.le);
    SortKeepsDistinct(Dedup(p.fallback), env.le);
    DistinctFits(sorted, source.flat.order);
    assert p.fallback == [] ==> Dedup(p.fallback) == [] && |sorted| == 0;
  }
}
