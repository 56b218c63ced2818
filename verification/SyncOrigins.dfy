// Where every text of a finished run comes from, said of the inputs, key by key.
module SyncOrigins {
  import opened Wrappers
  import opened OrderedMap
  import opened Sorting
  import opened TranslationMemory
  import opened TranslationBatches
  import opened SyncLocale
  import opened SyncProperties
  import Tree = LocaleTree
  import Batch = TranslateBatch
  import Text

  function CacheKeyOf(env: Env, source: Source, k: string): string
    requires k in source.flat.at
  {
    env.cacheKey(k, env.hashText(source.flat.at[k]))
  }

  /** No two source keys share a cache key. */
  ghost predicate CacheKeysApart(env: Env, source: Source) {
    forall k, l :: k in source.flat.at && l in source.flat.at && k != l ==>
                     CacheKeyOf(env, source, k) != CacheKeyOf(env, source, l)
  }

  /** What the inputs know of a key: its own entry, an entry for the same text, the text in the locale file. */
  datatype Facts = Facts(refresh: bool, cached: Option<TmEntry>, alike: Option<TmEntry>, existing: Option<string>)

  function FactsOf(env: Env, inputs: Inputs, source: Source, k: string): Facts
    requires inputs.tm.Valid() && k in source.flat.at
  {
    var hash := env.hashText(source.flat.at[k]);
    var byText := TextIndex(inputs.tm, env.locale);
    Facts(
      k in inputs.previousFallback,
      inputs.tm.Get(CacheKeyOf(env, source, k)),
      if hash in byText then Some(byText[hash]) else None,
      if k in inputs.existing then Some(inputs.existing[k]) else None)
  }

  // ---- One key after the reconciliation ----

  /** What a pass holds for one item. */
  datatype Slot = Slot(text: Option<string>, entry: Option<TmEntry>, fallback: bool, waiting: bool)

  ghost function SlotOf(p: Pass, item: Item): Slot {
    Slot(TextOf(p, item.key), p.tm.Get(item.cacheKey), item.key in p.fallback, item in p.pending)
  }

  function Moved(env: Env, source: Source, k: string, e: TmEntry): TmEntry
    requires k in source.flat.at
  {
    TmEntry(CacheKeyOf(env, source, k), e.model, e.provider, k, env.sourcePath, e.srcLang, e.text, e.textHash,
            e.tgtLang, e.translated, e.updatedAt)
  }

  /** The four ways a key can go. */
  function Target(env: Env, source: Source, facts: Facts, k: string): Slot
    requires k in source.flat.at
  {
    var asking := env.allowTranslate && facts.refresh;
    if !asking && facts.cached.Some? then
      Slot(Some(facts.cached.value.translated), facts.cached, facts.refresh, false)
    else if facts.alike.Some? && (facts.refresh || facts.existing.None?) then
      Slot(Some(facts.alike.value.translated), Some(Moved(env, source, k, facts.alike.value)), false, false)
    else if !asking && facts.existing.Some? then
      Slot(facts.existing, facts.cached, facts.refresh, false)
    else Slot(None, facts.cached, false, true)
  }

  lemma PlaceHitsTarget(env: Env, inputs: Inputs, source: Source, k: string, p: Pass)
    requires inputs.tm.Valid() && k in source.flat.at
    requires var item := ItemFor(env, source, k);
             && SlotOf(p, item) == Slot(None, inputs.tm.Get(item.cacheKey), false, false)
             && item.cacheKey == CacheKeyOf(env, source, k) && item.key == k
    ensures var item := ItemFor(env, source, k);
            SlotOf(Place(env, inputs, TextIndex(inputs.tm, env.locale), item, p), item)
            == Target(env, source, FactsOf(env, inputs, source, k), k)
  {
    hide TextIndex;
  }

  lemma PlaceSparesOthers(env: Env, inputs: Inputs, byText: map<string, TmEntry>, item: Item, other: Item, p: Pass)
    requires other.key != item.key && other.cacheKey != item.cacheKey
    ensures SlotOf(Place(env, inputs, byText, item, p), other) == SlotOf(p, other)
  {
  }

  lemma {:induction false} EmptySlot(env: Env, inputs: Inputs, source: Source, k: string)
    requires inputs.tm.Valid() && source.flat.Valid() && k in source.flat.at
    ensures SlotOf(Reconcile(env, inputs, source, 0), ItemFor(env, source, k))
         == Slot(None, FactsOf(env, inputs, source, k).cached, false, false)
  {
    hide TextIndex;
  }

  lemma {:induction false} SlotAfter(env: Env, inputs: Inputs, source: Source, n: nat, i: nat)
    requires inputs.tm.Valid() && source.flat.Valid() && CacheKeysApart(env, source)
    requires n <= |source.flat.order| && i < |source.flat.order| && source.flat.order[i] in source.flat.at
    ensures var k := source.flat.order[i];
            var facts := FactsOf(env, inputs, source, k);
            SlotOf(Reconcile(env, inputs, source, n), ItemFor(env, source, k))
            == if i < n then Target(env, source, facts, k) else Slot(None, facts.cached, false, false)
  {
    var order := source.flat.order;
    hide Place, TextIndex, Target, SlotOf;
    if n == 0 {
      EmptySlot(env, inputs, source, order[i]);
    } else {
      SlotAfter(env, inputs, source, n - 1, i);
      assert order[n - 1] in order;
      var item, other := ItemFor(env, source, order[n - 1]), ItemFor(env, source, order[i]);
      var before := Reconcile(env, inputs, source, n - 1);
      if i == n - 1 {
        PlaceHitsTarget(env, inputs, source, order[i], before);
      } else {
        assert order[i] != order[n - 1];
        assert CacheKeyOf(env, source, order[i]) != CacheKeyOf(env, source, order[n - 1]);
        PlaceSparesOthers(env, inputs, TextIndex(inputs.tm, env.locale), item, other, before);
      }
    }
  }

  lemma {:induction false} Reconciled(env: Env, inputs: Inputs, source: Source, k: string)
    requires inputs.tm.Valid() && source.flat.Valid() && CacheKeysApart(env, source) && k in source.flat.at
    ensures SlotOf(Reconcile(env, inputs, source, |source.flat.order|), ItemFor(env, source, k))
         == Target(env, source, FactsOf(env, inputs, source, k), k)
  {
    hide Reconcile, Target, SlotOf, FactsOf;
    assert k in source.flat.order;
    var i: nat :| i < |source.flat.order| && source.flat.order[i] == k;
    SlotAfter(env, inputs, source, |source.flat.order|, i);
  }

  /** The key is among the items that wait for a translation. */
  ghost predicate Waits(p: Pass, k: string) {
    exists item <- p.pending :: item.key == k
  }

  lemma WaitsIffSlot(env: Env, source: Source, p: Pass, k: string)
    requires source.flat.Valid() && k in source.flat.at && Placed(env, source, p, |source.flat.order|)
    ensures Waits(p, k) <==> SlotOf(p, ItemFor(env, source, k)).waiting
  {
    hide Batch.KeysOf;
  }

  /**
    * A key waits exactly when no entry of the memory serves its text and either it is to be refreshed, having
    * fallen back to English before there was a provider, or neither the memory nor the locale file has it.
    */
  lemma {:induction false} PendingIff(env: Env, inputs: Inputs, source: Source, k: string)
    requires inputs.tm.Valid() && source.flat.Valid() && CacheKeysApart(env, source) && k in source.flat.at
    ensures Waits(Reconcile(env, inputs, source, |source.flat.order|), k)
       <==> && env.hashText(source.flat.at[k]) !in TextIndex(inputs.tm, env.locale)
            && ((env.allowTranslate && k in inputs.previousFallback)
                || (env.cacheKey(k, env.hashText(source.flat.at[k])) !in inputs.tm.at && k !in inputs.existing))
  {
    hide Reconcile, TextIndex;
    var p := Reconcile(env, inputs, source, |source.flat.order|);
    Reconciled(env, inputs, source, k);
    ReconcilePlacesOnce(env, inputs, source, |source.flat.order|);
    WaitsIffSlot(env, source, p, k);
    hide Placed, Waits;
  }

  // ---- What the batches store ----

  /** A prompt of some batch asked for the key, and its reply gave the text. */
  ghost predicate Replied(moment: Moment, k: string, text: string) {
    exists batch, at :: Batch.Told(Batch.Translate(batch, moment.replies, at, 0).ops, k, text)
  }

  /** The entry that records a new translation. */
  function Recorded(env: Env, moment: Moment, item: Item, text: string): TmEntry {
    TmEntry(item.cacheKey, env.model, env.provider, item.key, env.sourcePath, "en", item.text, item.textHash,
            env.locale, text, moment.updatedAt(item.key))
  }

  ghost predicate Holds(env: Env, moment: Moment, p: Pass, item: Item, text: string) {
    TextOf(p, item.key) == Some(text) && p.tm.Get(item.cacheKey) == Some(Recorded(env, moment, item, text))
  }

  lemma StoreOneHolds(env: Env, moment: Moment, item: Item, other: Item, m: OMap<string>, p: Pass)
    requires item.key in m.at && m.at[item.key] != "" && other.key in m.at
    requires other == item || (other.key != item.key && other.cacheKey != item.cacheKey &&
                               Holds(env, moment, p, other, m.at[other.key]))
    ensures Holds(env, moment, StoreOne(env, moment, item, m, p), other, m.at[other.key])
  {
  }

  /** No two items share a key or a cache key. */
  ghost predicate Apart(items: seq<Item>) {
    forall a, b :: a in items && b in items && a != b ==> a.key != b.key && a.cacheKey != b.cacheKey
  }

  lemma {:induction false} StoreHolds(env: Env, moment: Moment, batch: seq<Item>, m: OMap<string>, p: Pass, item: Item)
    requires Apart(batch) && item in batch && forall other <- batch :: other.key in m.at && m.at[other.key] != ""
    ensures Holds(env, moment, Store(env, moment, batch, m, p), item, m.at[item.key])
  {
    hide StoreOne, Holds;
    var n := |batch| - 1;
    var before := Store(env, moment, batch[..n], m, p);
    assert forall other :: other in batch <==> other in batch[..n] || other == batch[n];
    if item in batch[..n] {
      StoreHolds(env, moment, batch[..n], m, p, item);
    }
    StoreOneHolds(env, moment, batch[n], item, m, before);
  }

  lemma ApartIsSeparate(items: seq<Item>)
    requires Apart(items)
    ensures Separate(items)
  {
  }

  /** The item has a text that a reply gave, and the memory records it. */
  ghost predicate Stored(env: Env, moment: Moment, p: Pass, item: Item) {
    exists text :: Replied(moment, item.key, text) && Holds(env, moment, p, item, text)
  }

  lemma {:induction false} BatchTells(batch: seq<Item>, moment: Moment, at: nat, item: Item)
    requires Batch.Translate(batch, moment.replies, at, 0).outcome.Ok? && item in batch
    ensures var m := Batch.Translate(batch, moment.replies, at, 0).outcome.value;
            item.key in m.at && m.at[item.key] != "" && Replied(moment, item.key, m.at[item.key])
  {
    hide Batch.Attempt, Batch.Told, NonBlank, Text.Trim;
    BatchGivesTexts(batch, moment.replies, at);
    BlankIsEmpty();
    Batch.SuccessTranslates(batch, 0, Batch.FIRST_ERROR, moment.replies, at, 0);
  }

  lemma KeptStored(env: Env, moment: Moment, q: Pass, r: Pass, rest: seq<Item>, item: Item)
    requires Stored(env, moment, q, item) && ChangedOnly(q, r, rest)
    requires forall later <- rest :: Stored(env, moment, r, later)
    requires forall later <- rest :: later == item || (later.key != item.key && later.cacheKey != item.cacheKey)
    ensures Stored(env, moment, r, item)
  {
    hide Replied, Recorded;
    if item !in rest {
      assert TextOf(r, item.key) == TextOf(q, item.key);
      assert r.tm.Get(item.cacheKey) == q.tm.Get(item.cacheKey);
      var text :| Replied(moment, item.key, text) && Holds(env, moment, q, item, text);
      assert Holds(env, moment, r, item, text);
    }
  }

  lemma {:induction false} StoredByBatch(env: Env, moment: Moment, batch: seq<Item>, at: nat, p: Pass, item: Item)
    requires Apart(batch) && item in batch && Batch.Translate(batch, moment.replies, at, 0).outcome.Ok?
    ensures var m := Batch.Translate(batch, moment.replies, at, 0).outcome.value;
            Stored(env, moment, Store(env, moment, batch, m, p), item)
  {
    hide Batch.Translate, Store, Replied, Holds;
    var m := Batch.Translate(batch, moment.replies, at, 0).outcome.value;
    forall other | other in batch ensures other.key in m.at && m.at[other.key] != "" {
      BatchTells(batch, moment, at, other);
    }
    BatchTells(batch, moment, at, item);
    StoreHolds(env, moment, batch, m, p, item);
  }

  lemma {:induction false} AllBatchesStore(
    env: Env, moment: Moment, batches: seq<seq<Item>>, at: nat, p: Pass, item: Item)
    requires Apart(Flatten(batches)) && item in Flatten(batches)
    requires TranslateAll(env, moment, batches, at, p).Ok?
    ensures Stored(env, moment, TranslateAll(env, moment, batches, at, p).value, item)
    decreases |batches|
  {
    hide Batch.Attempt, Batch.Translate, Store, Stored, ChangedOnly, Translated;
    var batch, rest := batches[0], Flatten(batches[1..]);
    assert forall other :: other in Flatten(batches) <==> other in batch || other in rest;
    var run := Batch.Translate(batch, moment.replies, at, 0);
    var q := Store(env, moment, batch, run.outcome.value, p);
    ApartIsSeparate(rest);
    AllBatchesTranslate(env, moment, batches[1..], at + run.attempts, q);
    var r := TranslateAll(env, moment, batches, at, p).value;
    if item in batch {
      StoredByBatch(env, moment, batch, at, p, item);
      forall later | later in rest ensures Stored(env, moment, r, later) {
        AllBatchesStore(env, moment, batches[1..], at + run.attempts, q, later);
      }
      KeptStored(env, moment, q, r, rest, item);
    } else {
      AllBatchesStore(env, moment, batches[1..], at + run.attempts, q, item);
    }
  }

  // ---- The texts of a completed run ----

  lemma PendingAreApart(env: Env, source: Source, p: Pass)
    requires source.flat.Valid() && CacheKeysApart(env, source) && Placed(env, source, p, |source.flat.order|)
    ensures Apart(p.pending) && Separate(p.pending)
    ensures forall item <- p.pending :: item.key in source.flat.at && item == ItemFor(env, source, item.key)
    ensures forall item <- p.pending, k <- source.flat.order :: item.key != k ==>
              item.cacheKey != CacheKeyOf(env, source, k)
  {
    hide Batch.KeysOf;
    forall a, b | a in p.pending && b in p.pending && a != b ensures a.key != b.key && a.cacheKey != b.cacheKey {
      assert a == ItemFor(env, source, a.key) && b == ItemFor(env, source, b.key);
      assert CacheKeyOf(env, source, a.key) == a.cacheKey && CacheKeyOf(env, source, b.key) == b.cacheKey;
    }
  }

  lemma PlacedKeys(env: Env, source: Source, p: Pass, k: string)
    requires source.flat.Valid() && Placed(env, source, p, |source.flat.order|) && k in source.flat.at
    ensures k in p.next <==> !Waits(p, k)
    ensures Waits(p, k) ==> ItemFor(env, source, k) in p.pending && k !in p.fallback
  {
    assert source.flat.order[..|source.flat.order|] == source.flat.order;
    assert k in source.flat.order;
    KeysOfMembers(p.pending);
  }

  lemma FillOneEnglish(inputs: Inputs, force: bool, item: Item, p: Pass)
    requires item.key !in inputs.existing && item.key !in p.next
    ensures var r := FillOne(inputs, force, item, p);
            TextOf(r, item.key) == Some(item.text) && item.key in r.fallback
  {
  }

  lemma FillOneKeeps(inputs: Inputs, force: bool, item: Item, p: Pass, k: string)
    ensures var r := FillOne(inputs, force, item, p);
            && (k in p.next ==> TextOf(r, k) == TextOf(p, k))
            && (k in p.fallback ==> k in r.fallback)
            && (k in p.next && k in r.fallback ==> k in p.fallback)
            && (k != item.key ==> (k in r.next <==> k in p.next))
  {
  }

  lemma {:induction false} FillLeaves(inputs: Inputs, force: bool, items: seq<Item>, p: Pass, k: string)
    requires forall item <- items :: item.key != k
    ensures k in Fill(inputs, force, items, p).next <==> k in p.next
  {
    hide FillOne;
    if items != [] {
      var init := items[..|items| - 1];
      FillLeaves(inputs, force, init, p, k);
      FillOneKeeps(inputs, force, items[|items| - 1], Fill(inputs, force, init, p), k);
    }
  }

  lemma {:induction false} FillEnglish(inputs: Inputs, force: bool, items: seq<Item>, p: Pass, item: Item)
    requires item in items && item.key !in p.next && item.key !in inputs.existing
    requires forall other <- items :: other.key == item.key ==> other == item
    ensures var r := Fill(inputs, force, items, p);
            TextOf(r, item.key) == Some(item.text) && item.key in r.fallback
  {
    hide FillOne;
    var init, last := items[..|items| - 1], items[|items| - 1];
    assert forall other :: other in items <==> other in init || other == last;
    var before := Fill(inputs, force, init, p);
    FillOneKeeps(inputs, force, last, before, item.key);
    if item in init {
      FillEnglish(inputs, force, init, p, item);
    } else {
      FillLeaves(inputs, force, init, p, item.key);
      FillOneEnglish(inputs, force, item, before);
    }
  }

  lemma {:induction false} FillAdds(inputs: Inputs, force: bool, items: seq<Item>, p: Pass, k: string)
    ensures k in p.fallback ==> k in Fill(inputs, force, items, p).fallback
    ensures k in p.next && k in Fill(inputs, force, items, p).fallback ==> k in p.fallback
    ensures k in p.next ==> TextOf(Fill(inputs, force, items, p), k) == TextOf(p, k)
  {
    hide FillOne;
    if items != [] {
      var init := items[..|items| - 1];
      FillAdds(inputs, force, init, p, k);
      FillOneKeeps(inputs, force, items[|items| - 1], Fill(inputs, force, init, p), k);
    }
  }

  /** Where a key stands when the run is through. */
  ghost predicate Arrived(env: Env, moment: Moment, p: Pass, item: Item, target: Slot) {
    if !target.waiting then
      TextOf(p, item.key) == target.text && p.tm.Get(item.cacheKey) == target.entry
      && (item.key in p.fallback <==> target.fallback)
    else if env.allowTranslate then Stored(env, moment, p, item) && item.key !in p.fallback
    else TextOf(p, item.key) == Some(item.text) && p.tm.Get(item.cacheKey) == target.entry && item.key in p.fallback
  }

  lemma ArrivesWithProvider(
    env: Env, moment: Moment, source: Source, placed: Pass, q: Pass, k: string, target: Slot)
    requires source.flat.Valid() && CacheKeysApart(env, source) && k in source.flat.at && env.allowTranslate
    requires Placed(env, source, placed, |source.flat.order|) && SlotOf(placed, ItemFor(env, source, k)) == target
    requires ChangedOnly(placed, q, placed.pending)
    requires forall item <- placed.pending :: Stored(env, moment, q, item)
    ensures Arrived(env, moment, q, ItemFor(env, source, k), target)
  {
    hide Stored;
    PendingAreApart(env, source, placed);
    PlacedKeys(env, source, placed, k);
    var item := ItemFor(env, source, k);
    assert item.cacheKey == CacheKeyOf(env, source, k);
    hide Placed, ItemFor, CacheKeyOf;
    if !target.waiting {
      assert k in source.flat.order;
      assert forall other <- placed.pending :: other.key != k ==> other.cacheKey != item.cacheKey;
      assert forall other <- placed.pending :: other.key != k;
      assert TextOf(q, k) == TextOf(placed, k) && q.tm.Get(item.cacheKey) == placed.tm.Get(item.cacheKey);
    }
  }

  lemma {:induction false} ArrivesWithout(
    env: Env, moment: Moment, inputs: Inputs, force: bool, source: Source, placed: Pass, k: string, target: Slot)
    requires source.flat.Valid() && CacheKeysApart(env, source) && k in source.flat.at && !env.allowTranslate
    requires Placed(env, source, placed, |source.flat.order|) && SlotOf(placed, ItemFor(env, source, k)) == target
    requires target.waiting ==> k !in inputs.existing && target.text.None?
    requires !target.waiting ==> target.text.Some?
    ensures Arrived(env, moment, Fill(inputs, force, placed.pending, placed), ItemFor(env, source, k), target)
  {
    PendingAreApart(env, source, placed);
    PlacedKeys(env, source, placed, k);
    hide Placed, Stored, Fill, Apart, Separate;
    var item := ItemFor(env, source, k);
    FillAdds(inputs, force, placed.pending, placed, k);
    if target.waiting {
      FillEnglish(inputs, force, placed.pending, placed, item);
    }
  }

  lemma {:induction false} AllStored(env: Env, moment: Moment, source: Source, placed: Pass)
    requires source.flat.Valid() && CacheKeysApart(env, source) && Placed(env, source, placed, |source.flat.order|)
    requires TranslateAll(env, moment, Pack([], placed.pending, env.budget), 0, placed).Ok?
    ensures var q := TranslateAll(env, moment, Pack([], placed.pending, env.budget), 0, placed).value;
            && ChangedOnly(placed, q, placed.pending)
            && (forall item <- placed.pending :: Stored(env, moment, q, item))
            && forall item <- placed.pending :: item.key in q.next
  {
    hide Pack, TranslateAll, Stored, ChangedOnly, Translated;
    var batches := Pack([], placed.pending, env.budget);
    PackSplits([], placed.pending, env.budget);
    assert [] + placed.pending == placed.pending;
    PendingAreApart(env, source, placed);
    AllBatchesTranslate(env, moment, batches, 0, placed);
    AllBatchesCover(env, moment, batches, 0, placed);
    var q := TranslateAll(env, moment, batches, 0, placed).value;
    forall item | item in placed.pending ensures Stored(env, moment, q, item) {
      AllBatchesStore(env, moment, batches, 0, placed, item);
    }
  }

  lemma FinalArrives(env: Env, options: Options, moment: Moment, inputs: Inputs, source: Source, k: string)
    requires inputs.tm.Valid() && source.flat.Valid() && CacheKeysApart(env, source) && k in source.flat.at
    requires FinalPass(env, options, moment, inputs, source).Ok?
    ensures var target := Target(env, source, FactsOf(env, inputs, source, k), k);
            Arrived(env, moment, FinalPass(env, options, moment, inputs, source).value, ItemFor(env, source, k), target)
  {
    hide Reconcile, TranslateAll, Fill, Pack, Placed, ChangedOnly, Stored, Arrived, SlotOf, TextIndex, CacheKeysApart;
    var n := |source.flat.order|;
    var placed := Reconcile(env, inputs, source, n);
    ReconcilePlacesOnce(env, inputs, source, n);
    Reconciled(env, inputs, source, k);
    var target := Target(env, source, FactsOf(env, inputs, source, k), k);
    if !env.allowTranslate {
      ArrivesWithout(env, moment, inputs, options.force, source, placed, k, target);
    } else {
      var q := placed;
      if placed.pending == [] {
        ChangedNothing(placed);
      } else {
        AllStored(env, moment, source, placed);
        q := TranslateAll(env, moment, Pack([], placed.pending, env.budget), 0, placed).value;
      }
      FillIdle(inputs, options.force, placed.pending, q);
      ArrivesWithProvider(env, moment, source, placed, q, k, target);
    }
  }

  lemma SyncPass(env: Env, options: Options, moment: Moment, source: Source, files: Files)
    requires source.flat.Valid() && Sync(env, options, moment, source, files).Ok?
    ensures var inputs := LoadInputs(env, files);
            && FinalPass(env, options, moment, inputs, source).Ok?
            && var p := FinalPass(env, options, moment, inputs, source).value;
               var r := Sync(env, options, moment, source, files).value;
               r.pass == p && env.parity(source.flat.at, p.next)
               && r.meta == NextMeta(env, moment, inputs.previousMeta, source, p.fallback)
  {
    hide FinalPass, NextMeta, LoadInputs, ExpectedFiles, Changed;
  }

  /**
    * The text of every key after a completed run.  A key that is to be refreshed takes the text of an entry for
    * the same English text or else a reply, never its own entry and never the locale file.  Any other key
    * takes its own entry, the locale file, an entry for the same text, a reply, or English, in this order, save
    * that a key which fell back to English earlier prefers an entry for the same text over the file.
    */
  lemma FinalTextIs(env: Env, options: Options, moment: Moment, source: Source, files: Files, k: string)
    requires source.flat.Valid() && CacheKeysApart(env, source) && k in source.flat.at
    requires Sync(env, options, moment, source, files).Ok?
    ensures k in Sync(env, options, moment, source, files).value.pass.next
    ensures var text := Sync(env, options, moment, source, files).value.pass.next[k];
            var facts := FactsOf(env, LoadInputs(env, files), source, k);
            if env.allowTranslate && facts.refresh then
              (facts.alike.Some? ==> text == facts.alike.value.translated)
              && (facts.alike.None? ==> Replied(moment, k, text))
            else
              && (facts.cached.Some? ==> text == facts.cached.value.translated)
              && (facts.cached.None? && facts.existing.Some? && !(facts.refresh && facts.alike.Some?)
                  ==> text == facts.existing.value)
              && (facts.cached.None? && facts.alike.Some? && (facts.existing.None? || facts.refresh)
                  ==> text == facts.alike.value.translated)
              && (facts.cached.None? && facts.existing.None? && facts.alike.None? ==>
                    if env.allowTranslate then Replied(moment, k, text) else text == source.flat.at[k])
  {
    hide FinalPass, Replied, LoadInputs, Sync;
    var inputs := LoadInputs(env, files);
    SyncPass(env, options, moment, source, files);
    FinalArrives(env, options, moment, inputs, source, k);
    hide FactsOf;
  }

  /** Only without a provider does a key fall back: one kept from an earlier fallback, or one nothing is known of. */
  lemma FallsBackIff(env: Env, options: Options, moment: Moment, source: Source, files: Files, k: string)
    requires source.flat.Valid() && CacheKeysApart(env, source) && k in source.flat.at
    requires Sync(env, options, moment, source, files).Ok?
    ensures k in Sync(env, options, moment, source, files).value.meta.fallbackKeys
       <==> var facts := FactsOf(env, LoadInputs(env, files), source, k);
            && !env.allowTranslate
            && if facts.refresh then facts.cached.Some? || facts.alike.None?
               else facts.cached.None? && facts.existing.None? && facts.alike.None?
  {
    hide FinalPass, Replied, LoadInputs, Sync, Sort, Dedup;
    var inputs := LoadInputs(env, files);
    SyncPass(env, options, moment, source, files);
    FinalArrives(env, options, moment, inputs, source, k);
    var fallback := Sync(env, options, moment, source, files).value.pass.fallback;
    SortMembers(Dedup(fallback), env.le);
    assert k in Sync(env, options, moment, source, files).value.meta.fallbackKeys <==> k in fallback;
    hide FactsOf, Stored;
  }

  /**
    * What the memory holds of every key after a completed run: its entry as it was, the entry for the same
    * text under the key's own name, a new entry for a replied text, or nothing.
    */
  lemma FinalEntryIs(env: Env, options: Options, moment: Moment, source: Source, files: Files, k: string)
    requires source.flat.Valid() && CacheKeysApart(env, source) && k in source.flat.at
    requires Sync(env, options, moment, source, files).Ok?
    ensures k in Sync(env, options, moment, source, files).value.pass.next
    ensures var r := Sync(env, options, moment, source, files).value;
            var facts := FactsOf(env, LoadInputs(env, files), source, k);
            var hash := env.hashText(source.flat.at[k]);
            var c := env.cacheKey(k, hash);
            var moved := facts.alike.Some? && (facts.existing.None? || facts.refresh);
            r.pass.tm.Get(c)
            == if facts.cached.Some? && !(env.allowTranslate && facts.refresh) then facts.cached
               else if moved then
                 Some(facts.alike.value.(cacheKey := c, segmentId := k, sourcePath := env.sourcePath))
               else if env.allowTranslate && (facts.refresh || facts.existing.None?) then
                 Some(TmEntry(c, env.model, env.provider, k, env.sourcePath, "en", source.flat.at[k], hash,
                              env.locale, r.pass.next[k], moment.updatedAt(k)))
               else None
  {
    hide FinalPass, Replied, LoadInputs, Sync;
    var inputs := LoadInputs(env, files);
    SyncPass(env, options, moment, source, files);
    FinalArrives(env, options, moment, inputs, source, k);
    hide FactsOf;
  }

  lemma OutsideUnchanged(p: Pass, q: Pass, c: string)
    requires ChangedOnly(p, q, p.pending) && forall item <- p.pending :: item.cacheKey != c
    ensures q.tm.Get(c) == p.tm.Get(c)
  {
  }

  lemma {:induction false} ReconcileSparesEntry(env: Env, inputs: Inputs, source: Source, n: nat, c: string)
    requires inputs.tm.Valid() && source.flat.Valid() && n <= |source.flat.order|
    requires forall k :: k in source.flat.at ==> CacheKeyOf(env, source, k) != c
    ensures Reconcile(env, inputs, source, n).tm.Get(c) == inputs.tm.Get(c)
  {
    hide TextIndex;
    if n > 0 {
      ReconcileSparesEntry(env, inputs, source, n - 1, c);
      var k := source.flat.order[n - 1];
      assert k in source.flat.order && CacheKeyOf(env, source, k) != c;
    }
  }

  /** Entries under other cache keys than the source keys' own are carried along as they are. */
  lemma OtherEntriesStay(env: Env, options: Options, moment: Moment, source: Source, files: Files, c: string)
    requires source.flat.Valid() && CacheKeysApart(env, source)
    requires Sync(env, options, moment, source, files).Ok?
    requires forall k :: k in source.flat.at ==> CacheKeyOf(env, source, k) != c
    ensures Sync(env, options, moment, source, files).value.pass.tm.Get(c) == LoadInputs(env, files).tm.Get(c)
  {
    hide Reconcile, TranslateAll, Fill, Pack, ChangedOnly, Placed, Sync, LoadInputs, CacheKeysApart;
    var inputs := LoadInputs(env, files);
    SyncPass(env, options, moment, source, files);
    var n := |source.flat.order|;
    var placed := Reconcile(env, inputs, source, n);
    ReconcileSparesEntry(env, inputs, source, n, c);
    ReconcilePlacesOnce(env, inputs, source, n);
    if env.allowTranslate && placed.pending != [] {
      AllStored(env, moment, source, placed);
      var q := TranslateAll(env, moment, Pack([], placed.pending, env.budget), 0, placed).value;
      PendingAreApart(env, source, placed);
      forall item | item in placed.pending ensures item.cacheKey != c {
        assert item.cacheKey == CacheKeyOf(env, source, item.key);
      }
      OutsideUnchanged(placed, q, c);
    }
  }

  // ---- What the run reports and writes ----

  /** A file that does not exist reads as empty. */
  lemma InputsAre(env: Env, files: Files, k: string)
    ensures var inputs := LoadInputs(env, files);
            && (k in inputs.previousFallback <==> files.meta.Some? && k in env.readMeta(files.meta.value).fallbackKeys)
            && (k in inputs.existing <==>
                files.locale.Some? && k in Tree.Flatten(env.readLocale(files.locale.value)).at)
            && (k in inputs.existing ==>
                  inputs.existing[k] == Tree.Flatten(env.readLocale(files.locale.value)).at[k])
            && (inputs.tm == if files.tm.Some? then Load(env.readTm(files.tm.value)) else Empty())
  {
  }

  /**
    * The metadata of a completed run.  The time stamp is the previous one exactly when the previous metadata
    * says the same in every other member.
    */
  lemma MetaIs(env: Env, options: Options, moment: Moment, source: Source, files: Files)
    requires source.flat.Valid() && Sync(env, options, moment, source, files).Ok?
    ensures var meta := Sync(env, options, moment, source, files).value.meta;
            var previous := LoadInputs(env, files).previousMeta;
            && meta.locale == env.locale && meta.sourceHash == source.hash && meta.workflow == 1
            && meta.totalKeys == |source.flat.order| == meta.translatedKeys + |meta.fallbackKeys|
            && (Preorder(env.le) ==> Sorted(meta.fallbackKeys, env.le))
            && (env.allowTranslate ==> meta.provider == env.provider && meta.model == env.model)
            && (!env.allowTranslate && previous.Some? ==>
                  meta.provider == previous.value.provider && meta.model == previous.value.model)
            && (!env.allowTranslate && previous.None? ==> meta.provider == meta.model == "")
            && meta.generatedAt == if previous == Some(meta.(generatedAt := previous.GetOr(meta).generatedAt))
                                   then previous.value.generatedAt else moment.now
  {
    hide FinalPass, LoadInputs, Sync, Sort, Dedup;
    SyncPass(env, options, moment, source, files);
    var fallback := Sync(env, options, moment, source, files).value.pass.fallback;
    if Preorder(env.le) {
      SortSorts(Dedup(fallback), env.le);
    }
  }

  lemma ExpectedIs(env: Env, moment: Moment, inputs: Inputs, source: Source, p: Pass)
    requires source.flat.Valid() && p.tm.Valid() && forall k :: k in p.next <==> k in source.flat.order
    ensures ExpectedFiles(env, moment, inputs, source, p)
         == Expected(
              env.renderLocale(Tree.Rebuild(source.flat.order, p.next)),
              env.renderMeta(NextMeta(env, moment, inputs.previousMeta, source, p.fallback)),
              env.renderGlossary(if inputs.glossary == [] then env.defaultGlossary else inputs.glossary),
              env.renderTm(Ordered(p.tm, env.le)))
  {
    hide NextMeta, Ordered, Tree.Rebuild;
    assert NextValues(source, p.next) == p.next;
  }

  lemma ChangedIs(files: Files, expected: Expected)
    ensures Changed(files, expected)
       <==> files.locale.GetOr("") != expected.locale || files.meta.GetOr("") != expected.meta ||
            files.glossary.GetOr("") != expected.glossary || files.tm.GetOr("") != expected.tm
    ensures Written(files, expected)
         == Files(Some(expected.locale), Some(expected.meta), Some(expected.glossary),
                  if expected.tm == "" && files.tm.None? then None else Some(expected.tm))
  {
  }

  lemma SyncWrites(env: Env, options: Options, moment: Moment, source: Source, files: Files)
    requires source.flat.Valid() && Sync(env, options, moment, source, files).Ok?
    ensures var r := Sync(env, options, moment, source, files).value;
            var expected := ExpectedFiles(env, moment, LoadInputs(env, files), source, r.pass);
            && (r.changed <==> Changed(files, expected))
            && (r.wrote <==> r.changed && options.write && !options.checkOnly)
            && r.files == if r.wrote then Written(files, expected) else files
  {
    hide FinalPass, NextMeta, ExpectedFiles, Changed, Written;
  }

  /**
    * The files are written exactly when one of them differs from what the run computed and the caller asked for
    * writing and not for a check; a memory file that would be empty is not created.
    */
  lemma WritesIff(env: Env, options: Options, moment: Moment, source: Source, files: Files)
    requires source.flat.Valid() && Sync(env, options, moment, source, files).Ok?
    ensures var r := Sync(env, options, moment, source, files).value;
            var glossary := LoadInputs(env, files).glossary;
            && r.pass.tm.Valid() && (forall k <- source.flat.order :: k in r.pass.next)
            && var want := Expected(
                 env.renderLocale(Tree.Rebuild(source.flat.order, r.pass.next)),
                 env.renderMeta(r.meta),
                 env.renderGlossary(if glossary == [] then env.defaultGlossary else glossary),
                 env.renderTm(Ordered(r.pass.tm, env.le)));
               && (r.changed <==>
                   files.locale.GetOr("") != want.locale || files.meta.GetOr("") != want.meta ||
                   files.glossary.GetOr("") != want.glossary || files.tm.GetOr("") != want.tm)
               && (r.wrote <==> r.changed && options.write && !options.checkOnly)
               && (!r.wrote ==> r.files == files)
               && (r.wrote ==> r.files == Files(Some(want.locale), Some(want.meta), Some(want.glossary),
                                                if want.tm == "" && files.tm.None? then None else Some(want.tm)))
  {
    hide FinalPass, NextMeta, Ordered, Tree.Rebuild, Sync, Changed, Written, ExpectedFiles, NextValues, LoadInputs;
    var inputs := LoadInputs(env, files);
    SyncPass(env, options, moment, source, files);
    PassCoversSource(env, options, moment, inputs, source);
    var p := FinalPass(env, options, moment, inputs, source).value;
    ExpectedIs(env, moment, inputs, source, p);
    SyncWrites(env, options, moment, source, files);
    ChangedIs(files, ExpectedFiles(env, moment, inputs, source, p));
  }

  lemma {:induction false} FailedBatch(
    env: Env, moment: Moment, batches: seq<seq<Item>>, at: nat, p: Pass) returns (i: nat, start: nat)
    requires TranslateAll(env, moment, batches, at, p).Err?
    ensures i < |batches| && at <= start
    ensures var failed := Batch.Translate(batches[i], moment.replies, start, 0);
            failed.outcome == Err(TranslateAll(env, moment, batches, at, p).error)
    decreases |batches|
  {
    hide Batch.Translate, Store;
    var run := Batch.Translate(batches[0], moment.replies, at, 0);
    if run.outcome.Err? {
      i, start := 0, at;
    } else {
      var p1 := Store(env, moment, batches[0], run.outcome.value, p);
      i, start := FailedBatch(env, moment, batches[1..], at + run.attempts, p1);
      i := i + 1;
    }
  }

  /** A batch of pending keys failed with the error. */
  ghost predicate BatchFailed(env: Env, moment: Moment, pending: seq<Item>, error: string) {
    exists i, at :: 0 <= i < |Pack([], pending, env.budget)| &&
                    Batch.Translate(Pack([], pending, env.budget)[i], moment.replies, at, 0).outcome == Err(error)
  }

  /** A run without a provider fails only for placeholders; with one, also with the error of a failed batch. */
  lemma {:induction false} SyncFailsFor(env: Env, options: Options, moment: Moment, source: Source, files: Files)
    requires source.flat.Valid()
    ensures var r := Sync(env, options, moment, source, files);
            var inputs := LoadInputs(env, files);
            var placed := Reconcile(env, inputs, source, |source.flat.order|);
            && (r.Ok? ==> env.parity(source.flat.at, r.value.pass.next))
            && (r.Err? && !(env.allowTranslate && BatchFailed(env, moment, placed.pending, r.error)) ==>
                  var pass := FinalPass(env, options, moment, inputs, source);
                  pass.Ok? && !env.parity(source.flat.at, pass.value.next) && r.error == "placeholder mismatch")
  {
    hide Reconcile, LoadInputs, Pack, TranslateAll, Fill, ExpectedFiles, NextMeta, Changed, Batch.Translate;
    var inputs := LoadInputs(env, files);
    var placed := Reconcile(env, inputs, source, |source.flat.order|);
    if FinalPass(env, options, moment, inputs, source).Err? {
      var batches := Pack([], placed.pending, env.budget);
      var i, at := FailedBatch(env, moment, batches, 0, placed);
    }
  }

  // ---- The force option ----

  lemma {:induction false} PendingHasNoFile(env: Env, inputs: Inputs, source: Source, n: nat)
    requires inputs.tm.Valid() && source.flat.Valid() && n <= |source.flat.order| && !env.allowTranslate
    ensures forall item <- Reconcile(env, inputs, source, n).pending :: item.key !in inputs.existing
  {
    hide TextIndex;
    if n > 0 {
      PendingHasNoFile(env, inputs, source, n - 1);
    }
  }

  lemma {:induction false} FillIgnoresForce(inputs: Inputs, items: seq<Item>, p: Pass, force: bool)
    requires forall item <- items :: item.key !in inputs.existing
    ensures Fill(inputs, force, items, p) == Fill(inputs, false, items, p)
  {
    if items != [] {
      FillIgnoresForce(inputs, items[..|items| - 1], p, force);
    }
  }

  lemma PassIgnoresForce(env: Env, options: Options, moment: Moment, inputs: Inputs, source: Source)
    requires inputs.tm.Valid() && source.flat.Valid()
    ensures FinalPass(env, options, moment, inputs, source)
         == FinalPass(env, options.(force := false), moment, inputs, source)
  {
    hide Reconcile, TranslateAll, Fill, Pack;
    var n := |source.flat.order|;
    var placed := Reconcile(env, inputs, source, n);
    if !env.allowTranslate {
      PendingHasNoFile(env, inputs, source, n);
      FillIgnoresForce(inputs, placed.pending, placed, options.force);
    } else if placed.pending == [] {
      FillIdle(inputs, options.force, [], placed);
      FillIdle(inputs, false, [], placed);
    } else {
      var batches := Pack([], placed.pending, env.budget);
      var stored := TranslateAll(env, moment, batches, 0, placed);
      if stored.Ok? {
        PackSplits([], placed.pending, env.budget);
        assert [] + placed.pending == placed.pending;
        AllBatchesCover(env, moment, batches, 0, placed);
        FillIdle(inputs, options.force, placed.pending, stored.value);
        FillIdle(inputs, false, placed.pending, stored.value);
      }
    }
  }

  /**
    * Forcing changes nothing.  A key still without a text has none in the locale file either, and a run that
    * does not write leaves the files alone whether it returns early or not.
    */
  lemma ForceHasNoEffect(env: Env, options: Options, moment: Moment, source: Source, files: Files)
    requires source.flat.Valid()
    ensures Sync(env, options, moment, source, files)
         == Sync(env, options.(force := false), moment, source, files)
  {
    hide FinalPass, ExpectedFiles, NextMeta, Changed, Written, LoadInputs;
    PassIgnoresForce(env, options, moment, LoadInputs(env, files), source);
  }
}
