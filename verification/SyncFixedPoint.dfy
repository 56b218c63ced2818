// After a completed run, running again changes nothing.
module SyncFixedPoint {
  import opened Wrappers
  import opened OrderedMap
  import opened Sorting
  import opened TranslationMemory
  import opened TranslationBatches
  import opened SyncLocale
  import opened SyncProperties
  import Tree = LocaleTree
  import Batch = TranslateBatch

  const MAX_SAFE_INTEGER := 0x1f_ffff_ffff_ffff

  /** Metadata as a run writes it: its numbers are exact in JavaScript. */
  predicate Countable(m: Meta) {
    0 <= m.translatedKeys <= m.totalKeys <= MAX_SAFE_INTEGER && m.workflow == CONTROL_UI_I18N_WORKFLOW
  }

  /** A tree that a run builds reads back from its file with the same texts. */
  ghost predicate LocaleReads(env: Env) {
    forall keys, values :: Tree.Rebuildable(keys) && (forall k <- keys :: k in values) ==>
      var tree := Tree.Rebuild(keys, values);
      Tree.Flatten(env.readLocale(env.renderLocale(tree))).at == Tree.Flatten(tree).at
      && env.renderLocale(tree) != ""
  }

  /**
    * What is taken for granted of the surroundings: the collation is total and transitive and tells the
    * source keys apart, no two source keys share a cache key, and what a run writes reads back.
    */
  ghost predicate Laws(env: Env, source: Source) {
    && Preorder(env.le) && TieFree(env.le, source.flat.order)
    && |source.flat.order| <= MAX_SAFE_INTEGER
    && (forall k, l :: k in source.flat.at && l in source.flat.at && k != l ==>
          ItemFor(env, source, k).cacheKey != ItemFor(env, source, l).cacheKey)
    && (forall k :: k in source.flat.at ==> ItemFor(env, source, k).cacheKey != "")
    && LocaleReads(env)
    && (forall m :: Countable(m) ==> env.readMeta(env.renderMeta(m)) == m && env.renderMeta(m) != "")
    && (forall g :: env.readGlossary(env.renderGlossary(g)) == g && env.renderGlossary(g) != "")
    && (forall lines :: env.readTm(env.renderTm(lines)) == lines)
    && env.readTm("") == []
  }

  // ---- Where each key stands ----

  function Known(env: Env, source: Source, key: string): Item {
    if key in source.flat.at then ItemFor(env, source, key) else Item("", key, "", "")
  }

  /** The key has a text that the next run will find again, in the memory or in the file. */
  ghost predicate Good(byText: map<string, TmEntry>, p: Pass, item: Item) {
    && TextOf(p, item.key).Some?
    && match p.tm.Get(item.cacheKey)
       case Some(e) => e.translated == TextOf(p, item.key).value
       case None => item.key in p.fallback ==> item.textHash !in byText
  }

  /** The key is pending; without a provider that means nothing at all is known for it. */
  ghost predicate Pending(env: Env, inputs: Inputs, byText: map<string, TmEntry>, p: Pass, item: Item) {
    && TextOf(p, item.key).None? && item in p.pending
    && (!env.allowTranslate ==>
          item.key !in inputs.existing && item.textHash !in byText && p.tm.Get(item.cacheKey).None?)
  }

  ghost predicate Untouched(inputs: Inputs, p: Pass, item: Item) {
    TextOf(p, item.key).None? && item.key !in p.fallback && p.tm.Get(item.cacheKey) == inputs.tm.Get(item.cacheKey)
  }

  /** Every reusable text of the memory was indexed from the start. */
  ghost predicate TextsKnown(env: Env, byText: map<string, TmEntry>, p: Pass) {
    forall c :: c in p.tm.at && Indexed(p.tm.at[c], env.locale) ==> p.tm.at[c].textHash in byText
  }

  ghost predicate MemoryFit(env: Env, byText: map<string, TmEntry>, p: Pass) {
    Sound(p.tm) && TextsKnown(env, byText, p) && (env.allowTranslate ==> p.fallback == [])
  }

  /** The i-th source key stands as it should after the first n keys. */
  ghost predicate Stands(env: Env, inputs: Inputs, source: Source, p: Pass, n: nat, i: nat)
    requires inputs.tm.Valid() && i < |source.flat.order|
  {
    var byText := TextIndex(inputs.tm, env.locale);
    var item := Known(env, source, source.flat.order[i]);
    if i < n then Good(byText, p, item) || Pending(env, inputs, byText, p, item) else Untouched(inputs, p, item)
  }

  ghost predicate ReconcileInv(env: Env, inputs: Inputs, source: Source, p: Pass, n: nat)
    requires inputs.tm.Valid()
  {
    && MemoryFit(env, TextIndex(inputs.tm, env.locale), p)
    && forall i: nat :: i < |source.flat.order| ==> Stands(env, inputs, source, p, n, i)
  }

  ghost predicate SameStanding(p: Pass, r: Pass, item: Item) {
    && TextOf(r, item.key) == TextOf(p, item.key)
    && r.tm.Get(item.cacheKey) == p.tm.Get(item.cacheKey)
    && (item.key in r.fallback <==> item.key in p.fallback)
    && (item in r.pending <==> item in p.pending)
  }

  lemma StandingCarries(env: Env, inputs: Inputs, byText: map<string, TmEntry>, p: Pass, r: Pass, item: Item)
    requires SameStanding(p, r, item)
    ensures Good(byText, p, item) ==> Good(byText, r, item)
    ensures Pending(env, inputs, byText, p, item) ==> Pending(env, inputs, byText, r, item)
    ensures Untouched(inputs, p, item) ==> Untouched(inputs, r, item)
  {
  }

  /** Placing one key leaves the standing of every other key as it was. */
  lemma PlaceLeavesOthers(env: Env, inputs: Inputs, byText: map<string, TmEntry>, item: Item, other: Item, p: Pass)
    requires other.key != item.key && other.cacheKey != item.cacheKey
    ensures SameStanding(p, Place(env, inputs, byText, item, p), other)
  {
  }

  lemma PlaceDecides(env: Env, inputs: Inputs, byText: map<string, TmEntry>, item: Item, p: Pass)
    requires Untouched(inputs, p, item)
    ensures var r := Place(env, inputs, byText, item, p);
            Good(byText, r, item) || Pending(env, inputs, byText, r, item)
  {
  }

  lemma PlaceKeepsMemory(env: Env, inputs: Inputs, byText: map<string, TmEntry>, item: Item, p: Pass)
    requires MemoryFit(env, byText, p) && item.cacheKey != ""
    requires forall h :: h in byText ==> byText[h].textHash == h && Indexed(byText[h], env.locale)
    ensures MemoryFit(env, byText, Place(env, inputs, byText, item, p))
  {
    hide NonBlank;
  }

  lemma DistinctItems(env: Env, source: Source, i: nat, j: nat)
    requires Laws(env, source) && source.flat.Valid() && i < |source.flat.order| && j < |source.flat.order| && i != j
    ensures var a, b := Known(env, source, source.flat.order[i]), Known(env, source, source.flat.order[j]);
            a.key != b.key && a.cacheKey != b.cacheKey
  {
    assert source.flat.order[i] in source.flat.order && source.flat.order[j] in source.flat.order;
  }

  lemma PlaceKeepsStanding(env: Env, inputs: Inputs, source: Source, n: nat, p: Pass, i: nat)
    requires Laws(env, source) && inputs.tm.Valid() && source.flat.Valid()
    requires 0 < n <= |source.flat.order| && i < |source.flat.order|
    requires Stands(env, inputs, source, p, n - 1, i)
    ensures var item := Known(env, source, source.flat.order[n - 1]);
            Stands(env, inputs, source, Place(env, inputs, TextIndex(inputs.tm, env.locale), item, p), n, i)
  {
    hide Place, TextIndex, Good, Pending, Untouched, SameStanding, Known, Laws;
    var item := Known(env, source, source.flat.order[n - 1]);
    var byText := TextIndex(inputs.tm, env.locale);
    if i == n - 1 {
      PlaceDecides(env, inputs, byText, item, p);
    } else {
      var other := Known(env, source, source.flat.order[i]);
      DistinctItems(env, source, i, n - 1);
      PlaceLeavesOthers(env, inputs, byText, item, other, p);
      StandingCarries(env, inputs, byText, p, Place(env, inputs, byText, item, p), other);
    }
  }

  lemma KnownKey(env: Env, source: Source, i: nat)
    requires Laws(env, source) && source.flat.Valid() && i < |source.flat.order|
    ensures source.flat.order[i] in source.flat.at
    ensures Known(env, source, source.flat.order[i]) == ItemFor(env, source, source.flat.order[i])
    ensures Known(env, source, source.flat.order[i]).cacheKey != ""
  {
    assert source.flat.order[i] in source.flat.order;
  }

  lemma PlaceKeepsInv(env: Env, inputs: Inputs, source: Source, n: nat, p: Pass)
    requires Laws(env, source) && inputs.tm.Valid() && source.flat.Valid() && 0 < n <= |source.flat.order|
    requires ReconcileInv(env, inputs, source, p, n - 1)
    ensures var item := Known(env, source, source.flat.order[n - 1]);
            ReconcileInv(env, inputs, source, Place(env, inputs, TextIndex(inputs.tm, env.locale), item, p), n)
  {
    hide Place, TextIndex, Known, Laws, MemoryFit, Stands, Indexed;
    var item := Known(env, source, source.flat.order[n - 1]);
    var byText := TextIndex(inputs.tm, env.locale);
    var r := Place(env, inputs, byText, item, p);
    TextIndexIsExact(inputs.tm, env.locale);
    KnownKey(env, source, n - 1);
    PlaceKeepsMemory(env, inputs, byText, item, p);
    forall i: nat | i < |source.flat.order| ensures Stands(env, inputs, source, r, n, i) {
      PlaceKeepsStanding(env, inputs, source, n, p, i);
    }
  }

  lemma {:induction false} ReconcileKeepsInv(env: Env, inputs: Inputs, source: Source, n: nat)
    requires Laws(env, source) && Sound(inputs.tm) && source.flat.Valid() && n <= |source.flat.order|
    ensures ReconcileInv(env, inputs, source, Reconcile(env, inputs, source, n), n)
  {
    hide NonBlank, TextIndex, Place, Good, Pending;
    if n == 0 {
      TextIndexIsExact(inputs.tm, env.locale);
    } else {
      ReconcileKeepsInv(env, inputs, source, n - 1);
      KnownKey(env, source, n - 1);
      PlaceKeepsInv(env, inputs, source, n, Reconcile(env, inputs, source, n - 1));
    }
  }

  // ---- The end of a run ----

  /** Every source key is good, and the memory is fit to be written. */
  ghost predicate Settled(env: Env, inputs: Inputs, source: Source, p: Pass)
    requires inputs.tm.Valid() && source.flat.Valid()
  {
    var byText := TextIndex(inputs.tm, env.locale);
    && Sound(p.tm)
    && (if env.allowTranslate then p.fallback == [] else TextsKnown(env, byText, p))
    && (forall k <- p.fallback :: k in source.flat.at)
    && (forall k :: k in p.next <==> k in source.flat.at)
    && (forall k :: k in source.flat.at ==> Good(byText, p, Known(env, source, k)))
  }

  lemma KnownIs(env: Env, source: Source, key: string)
    requires Laws(env, source) && source.flat.Valid() && key in source.flat.at
    ensures Known(env, source, key) == ItemFor(env, source, key)
    ensures Known(env, source, key).key == key && Known(env, source, key).cacheKey != ""
  {
  }

  /** A pending item shares a slot with a source key only if it is that key's item. */
  lemma PendingItemsAreApart(env: Env, source: Source, p: Pass)
    requires Laws(env, source) && source.flat.Valid() && Placed(env, source, p, |source.flat.order|)
    ensures Separate(p.pending)
    ensures forall k, item :: k in source.flat.at && item in p.pending ==>
              (item.key == k <==> item.cacheKey == Known(env, source, k).cacheKey) && item.cacheKey != ""
    ensures forall item :: item in p.pending ==> item == Known(env, source, item.key) && item.key in source.flat.at
  {
    hide Batch.KeysOf;
  }

  lemma TranslatedIsGood(byText: map<string, TmEntry>, p: Pass, item: Item)
    requires Translated(p, item)
    ensures Good(byText, p, item)
  {
  }

  lemma AllStand(env: Env, inputs: Inputs, source: Source, p: Pass, k: string)
    requires inputs.tm.Valid() && source.flat.Valid() && k in source.flat.at
    requires ReconcileInv(env, inputs, source, p, |source.flat.order|)
    ensures var byText := TextIndex(inputs.tm, env.locale);
            Good(byText, p, Known(env, source, k)) || Pending(env, inputs, byText, p, Known(env, source, k))
  {
    hide TextIndex, Good, Pending, Known;
    assert k in source.flat.order;
    var i: nat :| i < |source.flat.order| && source.flat.order[i] == k;
    assert Stands(env, inputs, source, p, |source.flat.order|, i);
  }

  /** With a provider: once all batches have succeeded, every key is good. */
  lemma TranslationMakesGood(env: Env, inputs: Inputs, source: Source, placed: Pass, q: Pass, k: string)
    requires Laws(env, source) && inputs.tm.Valid() && source.flat.Valid() && k in source.flat.at
    requires Placed(env, source, placed, |source.flat.order|)
    requires ReconcileInv(env, inputs, source, placed, |source.flat.order|)
    requires ChangedOnly(placed, q, placed.pending) && forall item <- placed.pending :: Translated(q, item)
    ensures Good(TextIndex(inputs.tm, env.locale), q, Known(env, source, k))
  {
    hide NonBlank, TextIndex, Batch.KeysOf, Laws, ReconcileInv;
    var byText := TextIndex(inputs.tm, env.locale);
    KnownIs(env, source, k);
    var item := Known(env, source, k);
    PendingItemsAreApart(env, source, placed);
    AllStand(env, inputs, source, placed, k);
    if item in placed.pending {
      TranslatedIsGood(byText, q, item);
    } else {
      assert forall other <- placed.pending :: other.key != k && other.cacheKey != item.cacheKey;
      assert TextOf(q, k) == TextOf(placed, k) && q.tm.Get(item.cacheKey) == placed.tm.Get(item.cacheKey);
    }
  }

  lemma TranslationKeepsSound(env: Env, source: Source, placed: Pass, q: Pass)
    requires Laws(env, source) && source.flat.Valid() && Sound(placed.tm) && q.tm.Valid()
    requires Placed(env, source, placed, |source.flat.order|)
    requires ChangedOnly(placed, q, placed.pending) && forall item <- placed.pending :: Translated(q, item)
    ensures Sound(q.tm)
  {
    PendingItemsAreApart(env, source, placed);
    hide NonBlank, Batch.KeysOf, Laws, Placed, Known;
    forall c | c in q.tm.at ensures q.tm.at[c].cacheKey == c && Loadable(q.tm.at[c]) {
      if item :| item in placed.pending && item.cacheKey == c {
        assert Translated(q, item);
      } else {
        assert q.tm.Get(c) == placed.tm.Get(c);
      }
    }
  }

  lemma TranslationCoversKeys(env: Env, source: Source, placed: Pass, q: Pass)
    requires Laws(env, source) && source.flat.Valid() && Placed(env, source, placed, |source.flat.order|)
    requires ChangedOnly(placed, q, placed.pending) && forall item <- placed.pending :: Translated(q, item)
    ensures forall item <- placed.pending :: item.key in q.next
    ensures forall k :: k in q.next ==> k in source.flat.at
    ensures forall k <- q.fallback :: k in source.flat.at
  {
    PendingItemsAreApart(env, source, placed);
    assert source.flat.order[..|source.flat.order|] == source.flat.order;
    hide NonBlank, Laws, Batch.KeysOf, Known;
    forall item | item in placed.pending ensures item.key in q.next {
      assert Translated(q, item);
    }
    forall k | k in q.next ensures k in source.flat.at {
      assert (exists item <- placed.pending :: item.key == k) || TextOf(q, k) == TextOf(placed, k);
    }
  }

  lemma GoodKeysHaveTexts(env: Env, inputs: Inputs, source: Source, p: Pass)
    requires Laws(env, source) && inputs.tm.Valid() && source.flat.Valid()
    requires forall k :: k in source.flat.at ==> Good(TextIndex(inputs.tm, env.locale), p, Known(env, source, k))
    ensures forall k :: k in source.flat.at ==> k in p.next
  {
    hide TextIndex, Laws;
    forall k | k in source.flat.at ensures k in p.next {
      assert Good(TextIndex(inputs.tm, env.locale), p, Known(env, source, k));
    }
  }

  lemma SameFallback(p: Pass, q: Pass)
    requires ChangedOnly(p, q, p.pending)
    ensures q.fallback == p.fallback
  {
  }

  lemma TranslationSettles(env: Env, inputs: Inputs, source: Source, placed: Pass, q: Pass)
    requires Laws(env, source) && inputs.tm.Valid() && source.flat.Valid() && env.allowTranslate
    requires Placed(env, source, placed, |source.flat.order|)
    requires ReconcileInv(env, inputs, source, placed, |source.flat.order|)
    requires q.tm.Valid() && ChangedOnly(placed, q, placed.pending)
    requires forall item <- placed.pending :: Translated(q, item)
    ensures Settled(env, inputs, source, q)
    ensures forall item <- placed.pending :: item.key in q.next
  {
    hide Laws, Known, TextIndex, Good, Placed, ChangedOnly, Translated, Sound, TextsKnown, Stands;
    var none: seq<string> := [];
    assert placed.fallback == none;
    SameFallback(placed, q);
    TranslationKeepsSound(env, source, placed, q);
    TranslationCoversKeys(env, source, placed, q);
    forall k | k in source.flat.at ensures Good(TextIndex(inputs.tm, env.locale), q, Known(env, source, k)) {
      TranslationMakesGood(env, inputs, source, placed, q, k);
    }
    GoodKeysHaveTexts(env, inputs, source, q);
  }

  lemma FallbackMakesGood(env: Env, inputs: Inputs, source: Source, placed: Pass, p: Pass, k: string)
    requires Laws(env, source) && inputs.tm.Valid() && source.flat.Valid() && !env.allowTranslate && k in source.flat.at
    requires Placed(env, source, placed, |source.flat.order|)
    requires ReconcileInv(env, inputs, source, placed, |source.flat.order|)
    requires p.tm == placed.tm
    requires k in placed.next || k in Batch.KeysOf(placed.pending) ==> k in p.next
    requires k in placed.next ==> p.next[k] == placed.next[k] && (k in p.fallback ==> k in placed.fallback)
    ensures Good(TextIndex(inputs.tm, env.locale), p, Known(env, source, k))
  {
    AllStand(env, inputs, source, placed, k);
    KnownIs(env, source, k);
    assert source.flat.order[..|source.flat.order|] == source.flat.order;
    assert k in source.flat.order;
    hide TextIndex, Batch.KeysOf, ReconcileInv, Laws, Known;
  }

  /** Without a provider, unknown keys fall back to English, and nothing in the memory could serve them. */
  lemma {:induction false} FallbackSettles(env: Env, options: Options, inputs: Inputs, source: Source, placed: Pass)
    requires Laws(env, source) && inputs.tm.Valid() && source.flat.Valid() && !env.allowTranslate
    requires Placed(env, source, placed, |source.flat.order|)
    requires ReconcileInv(env, inputs, source, placed, |source.flat.order|)
    ensures Settled(env, inputs, source, Fill(inputs, options.force, placed.pending, placed))
  {
    hide TextIndex, Batch.KeysOf, Fill, Stands, Laws, Known, Sound, Indexed, Good;
    var p := Fill(inputs, options.force, placed.pending, placed);
    FillCompletes(inputs, options.force, placed.pending, placed);
    assert source.flat.order[..|source.flat.order|] == source.flat.order;
    forall k | k in source.flat.at ensures Good(TextIndex(inputs.tm, env.locale), p, Known(env, source, k)) {
      FallbackMakesGood(env, inputs, source, placed, p, k);
    }
    GoodKeysHaveTexts(env, inputs, source, p);
  }

  lemma {:induction false} PackCovers(items: seq<Item>, budget: nat)
    ensures Flatten(Pack([], items, budget)) == items
  {
    PackSplits([], items, budget);
    assert [] + items == items;
  }

  /** A completed run settles every key, with a provider or without one. */
  lemma FinalPassSettles(env: Env, options: Options, moment: Moment, inputs: Inputs, source: Source)
    requires Laws(env, source) && Sound(inputs.tm) && source.flat.Valid()
    requires FinalPass(env, options, moment, inputs, source).Ok?
    ensures Settled(env, inputs, source, FinalPass(env, options, moment, inputs, source).value)
  {
    assert inputs.tm.Valid();
    hide Laws, Sound, Reconcile, TranslateAll, Fill, Pack, ReconcileInv, Placed, Settled, ChangedOnly, Translated,
      Separate;
    var n := |source.flat.order|;
    var placed := Reconcile(env, inputs, source, n);
    ReconcilePlacesOnce(env, inputs, source, n);
    ReconcileKeepsInv(env, inputs, source, n);
    if !env.allowTranslate {
      FallbackSettles(env, options, inputs, source, placed);
    } else if placed.pending == [] {
      ChangedNothing(placed);
      TranslationSettles(env, inputs, source, placed, placed);
      FillIdle(inputs, options.force, placed.pending, placed);
    } else {
      var batches := Pack([], placed.pending, env.budget);
      PackCovers(placed.pending, env.budget);
      PendingItemsAreApart(env, source, placed);
      AllBatchesTranslate(env, moment, batches, 0, placed);
      var q := TranslateAll(env, moment, batches, 0, placed).value;
      TranslationSettles(env, inputs, source, placed, q);
      FillIdle(inputs, options.force, placed.pending, q);
    }
  }

  // ---- The next run ----

  lemma ReindexedTexts(env: Env, inputs: Inputs, p: Pass, again: Memory)
    requires inputs.tm.Valid() && again.Valid() && again.at == p.tm.at
    requires TextsKnown(env, TextIndex(inputs.tm, env.locale), p)
    ensures forall h :: h in TextIndex(again, env.locale) ==> h in TextIndex(inputs.tm, env.locale)
  {
    TextIndexIsExact(again, env.locale);
    hide TextIndex, Indexed;
    forall h | h in TextIndex(again, env.locale) ensures h in TextIndex(inputs.tm, env.locale) {
      var e := TextIndex(again, env.locale)[h];
      var c :| c in again.at && again.at[c] == e;
    }
  }

  /** The inputs of a run that starts where a settled pass left off. */
  ghost predicate Follows(next: Inputs, p: Pass) {
    && next.tm.Valid() && next.tm.at == p.tm.at
    && next.existing == p.next
    && next.previousFallback == set k <- p.fallback
  }

  /** Placing a good key again finds the same text and changes neither the memory nor the pending list. */
  lemma PlaceAgain(env: Env, inputs: Inputs, source: Source, p: Pass, next: Inputs, k: string, q: Pass)
    requires Laws(env, source) && inputs.tm.Valid() && source.flat.Valid()
    requires Settled(env, inputs, source, p) && Follows(next, p) && k in source.flat.at && q.tm == next.tm
    ensures Place(env, next, TextIndex(next.tm, env.locale), ItemFor(env, source, k), q)
            == q.(next := q.next[k := p.next[k]], fallback := if k in p.fallback then q.fallback + [k] else q.fallback)
  {
    if !env.allowTranslate {
      ReindexedTexts(env, inputs, p, next.tm);
    }
    assert k in source.flat.order;
    hide TextIndex, Laws, Sound;
    var item := Known(env, source, k);
    assert Good(TextIndex(inputs.tm, env.locale), p, item);
    assert next.tm.Get(item.cacheKey) == p.tm.Get(item.cacheKey);
  }

  /** After n keys the new pass holds the old texts and the old fallback keys of exactly those keys. */
  ghost predicate Repeats(r: Pass, p: Pass, tm: Memory, keys: seq<string>) {
    && r.pending == [] && r.tm == tm
    && (forall k :: k in r.next <==> k in keys)
    && (forall k :: k in r.next ==> k in p.next && r.next[k] == p.next[k])
    && (forall k :: k in r.fallback <==> k in p.fallback && k in keys)
  }

  lemma RepeatsOneMore(r: Pass, p: Pass, tm: Memory, keys: seq<string>, key: string)
    requires Repeats(r, p, tm, keys) && key in p.next
    ensures Repeats(r.(next := r.next[key := p.next[key]],
                       fallback := if key in p.fallback then r.fallback + [key] else r.fallback),
                    p, tm, keys + [key])
  {
  }

  lemma RepeatsTm(r: Pass, p: Pass, tm: Memory, keys: seq<string>)
    requires Repeats(r, p, tm, keys)
    ensures r.tm == tm
  {
  }

  lemma SettledKeys(env: Env, inputs: Inputs, source: Source, p: Pass)
    requires inputs.tm.Valid() && source.flat.Valid() && Settled(env, inputs, source, p)
    ensures forall k :: k in p.next <==> k in source.flat.order
    ensures forall k :: k in p.fallback ==> k in source.flat.order
  {
  }

  lemma {:induction false} ReconcileAgain(env: Env, inputs: Inputs, source: Source, p: Pass, next: Inputs, n: nat)
    requires Laws(env, source) && inputs.tm.Valid() && source.flat.Valid() && next.tm.Valid()
    requires n <= |source.flat.order|
    requires Settled(env, inputs, source, p) && Follows(next, p)
    ensures Repeats(Reconcile(env, next, source, n), p, next.tm, source.flat.order[..n])
  {
    hide TextIndex, Laws, Place, Settled, Follows;
    if n > 0 {
      hide Repeats;
      var order := source.flat.order;
      ReconcileAgain(env, inputs, source, p, next, n - 1);
      var key := order[n - 1];
      assert key in order && order[..n] == order[..n - 1] + [key];
      var before := Reconcile(env, next, source, n - 1);
      RepeatsTm(before, p, next.tm, order[..n - 1]);
      SettledKeys(env, inputs, source, p);
      PlaceAgain(env, inputs, source, p, next, key, before);
      RepeatsOneMore(before, p, next.tm, order[..n - 1], key);
    }
  }

  lemma LawfulOrder(env: Env, source: Source, keys: seq<string>)
    requires Laws(env, source) && forall k :: k in keys ==> k in source.flat.order
    ensures Preorder(env.le) && TieFree(env.le, keys)
  {
  }

  /** The next pass reproduces the same texts and the same fallback keys. */
  lemma PassAgain(env: Env, inputs: Inputs, source: Source, p: Pass, next: Inputs, options: Options, moment: Moment)
    requires Laws(env, source) && inputs.tm.Valid() && source.flat.Valid() && next.tm.Valid()
    requires Settled(env, inputs, source, p) && Follows(next, p)
    ensures var r := FinalPass(env, options, moment, next, source);
            && r.Ok? && r.value.pending == [] && r.value.next == p.next && r.value.tm == next.tm
            && Sort(Dedup(r.value.fallback), env.le) == Sort(Dedup(p.fallback), env.le)
  {
    hide Reconcile, Laws, Settled, Follows, Preorder, TieFree, Sort;
    var n := |source.flat.order|;
    ReconcileAgain(env, inputs, source, p, next, n);
    assert source.flat.order[..n] == source.flat.order;
    SettledKeys(env, inputs, source, p);
    var r := Reconcile(env, next, source, n);
    assert r.next == p.next;
    LawfulOrder(env, source, Dedup(r.fallback));
    SortOfSet(Dedup(r.fallback), Dedup(p.fallback), env.le);
  }

  /** Metadata that already says everything is kept, with its time stamp. */
  lemma {:induction false} MetaAgain(
    env: Env, source: Source, previous: Option<Meta>, fallback: seq<string>, again: seq<string>,
    moment: Moment, later: Moment)
    requires Sort(Dedup(again), env.le) == Sort(Dedup(fallback), env.le)
    ensures var meta := NextMeta(env, moment, previous, source, fallback);
            NextMeta(env, later, Some(meta), source, again) == meta
  {
    hide Sort, Dedup;
  }

  lemma LocaleReadsBack(source: Source, values: map<string, string>)
    requires source.flat.Valid() && Tree.Rebuildable(source.flat.order)
    requires forall k :: k in values <==> k in source.flat.at
    ensures Tree.Flatten(Tree.Rebuild(source.flat.order, NextValues(source, values))).at == values
  {
    hide Tree.Rebuild, Tree.Flatten, Tree.Rebuildable;
    Tree.RebuildableRoundTrips(source.flat.order, NextValues(source, values));
    assert (map k <- source.flat.order :: k := NextValues(source, values)[k]) == values;
  }

  lemma MetaCounts(env: Env, source: Source, previous: Option<Meta>, fallback: seq<string>, moment: Moment)
    requires source.flat.Valid() && |source.flat.order| <= MAX_SAFE_INTEGER
    requires forall k <- fallback :: k in source.flat.at
    ensures Countable(NextMeta(env, moment, previous, source, fallback))
  {
    var sorted := Sort(Dedup(fallback), env.le);
    SortMembers(Dedup(fallback), env.le);
    SortKeepsDistinct(Dedup(fallback), env.le);
    DistinctFits(sorted, source.flat.order);
  }

  lemma MetaFallback(env: Env, source: Source, previous: Option<Meta>, fallback: seq<string>, moment: Moment)
    ensures (set k <- NextMeta(env, moment, previous, source, fallback).fallbackKeys) == set k <- fallback
  {
    SortMembers(Dedup(fallback), env.le);
  }

  /** Reading back what a writing run leaves behind. */
  lemma FilesFollow(env: Env, inputs: Inputs, source: Source, p: Pass, files: Files, expected: Expected, moment: Moment)
    requires Laws(env, source) && inputs.tm.Valid() && source.flat.Valid() && Tree.Rebuildable(source.flat.order)
    requires Settled(env, inputs, source, p)
    requires expected == ExpectedFiles(env, moment, inputs, source, p) && !Changed(files, expected)
    ensures var next := LoadInputs(env, files);
            && Follows(next, p)
            && next.tm == Load(Ordered(p.tm, env.le))
            && next.previousMeta == Some(NextMeta(env, moment, inputs.previousMeta, source, p.fallback))
            && next.glossary == if inputs.glossary == [] then env.defaultGlossary else inputs.glossary
  {
    hide Tree.Rebuild, Tree.Flatten, Sort, Dedup, Load, Ordered, TextIndex, Sound, NextMeta, Tree.Rebuildable;
    var next := LoadInputs(env, files);
    LocaleReadsBack(source, p.next);
    assert LocaleReads(env) && next.existing == p.next;
    LoadOfOrdered(p.tm, env.le);
    var meta := NextMeta(env, moment, inputs.previousMeta, source, p.fallback);
    MetaCounts(env, source, inputs.previousMeta, p.fallback, moment);
    MetaFallback(env, source, inputs.previousMeta, p.fallback, moment);
    assert next.previousFallback == set k <- p.fallback;
  }

  lemma WrittenIsUnchanged(files: Files, expected: Expected)
    ensures !Changed(Written(files, expected), expected)
  {
  }

  lemma LoadedIsSound(env: Env, files: Files)
    ensures Sound(LoadInputs(env, files).tm)
  {
    LoadIsSound(if files.tm.Some? then env.readTm(files.tm.value) else []);
  }

  lemma MemoryAgain(env: Env, inputs: Inputs, source: Source, p: Pass)
    requires Laws(env, source) && inputs.tm.Valid() && source.flat.Valid() && Settled(env, inputs, source, p)
    ensures Load(Ordered(p.tm, env.le)).at == p.tm.at
    ensures Ordered(Load(Ordered(p.tm, env.le)), env.le) == Ordered(p.tm, env.le)
  {
    hide Load, Ordered, TextIndex;
    LoadOfOrdered(p.tm, env.le);
    RewriteIsStable(p.tm, env.le);
  }

  /**
    * Sync reaches a fixed point: after any completed writing run, with a provider
    * or without, another run on the files it left has nothing pending, gives every
    * key the same text, keeps the translation memory, and reports no change.
    */
  lemma SyncReachesFixedPoint(
    env: Env, options: Options, moment: Moment, source: Source, files: Files, again: Options, later: Moment)
    requires Laws(env, source) && source.flat.Valid() && Tree.Rebuildable(source.flat.order)
    requires options.write && !options.checkOnly
    requires Sync(env, options, moment, source, files).Ok?
    ensures var first := Sync(env, options, moment, source, files).value;
            var second := Sync(env, again, later, source, first.files);
            && second.Ok? && !second.value.changed && second.value.files == first.files
            && second.value.pass.pending == []
            && second.value.pass.next == first.pass.next
            && second.value.pass.tm.at == first.pass.tm.at
            && second.value.meta == first.meta
  {
    hide Laws, FinalPass, Settled, Tree.Rebuildable, NextMeta, Changed, Ordered, Load, Sort, Dedup, Follows,
      Tree.Rebuild, Written, LoadInputs;
    var inputs := LoadInputs(env, files);
    LoadedIsSound(env, files);
    FinalPassSettles(env, options, moment, inputs, source);
    var p := FinalPass(env, options, moment, inputs, source).value;
    var expected := ExpectedFiles(env, moment, inputs, source, p);
    WrittenIsUnchanged(files, expected);
    var left := Sync(env, options, moment, source, files).value.files;
    FilesFollow(env, inputs, source, p, left, expected, moment);
    var next := LoadInputs(env, left);
    PassAgain(env, inputs, source, p, next, again, later);
    var q := FinalPass(env, again, later, next, source).value;
    MetaAgain(env, source, inputs.previousMeta, p.fallback, q.fallback, moment, later);
    MemoryAgain(env, inputs, source, p);
    assert ExpectedFiles(env, later, next, source, q) == expected;
  }
}
