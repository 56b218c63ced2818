// Bringing one locale file in line with the English source.
module SyncLocale {
  import opened Wrappers
  import opened OrderedMap
  import opened Sorting
  import opened TranslationMemory
  import opened TranslationBatches
  import Tree = LocaleTree
  import Batch = TranslateBatch
  import Session

  const SOURCE_LOCALE := "en"
  const CONTROL_UI_I18N_WORKFLOW := 1

  datatype Meta = Meta(
    fallbackKeys: seq<string>, generatedAt: string, locale: string, model: string, provider: string,
    sourceHash: string, totalKeys: int, translatedKeys: int, workflow: int)

  type Glossary = seq<(string, string)>

  /** The four files of a locale; None when a file does not exist. */
  datatype Files = Files(locale: Option<string>, meta: Option<string>, glossary: Option<string>, tm: Option<string>)

  datatype Options = Options(checkOnly: bool, force: bool, write: bool)

  /** What the run takes from its surroundings: configuration, hashes, collation, and the file formats. */
  datatype Env = Env(
    locale: string,
    sourcePath: string,
    provider: string,
    model: string,
    allowTranslate: bool,
    budget: nat,
    hashText: string -> string,
    cacheKey: (string, string) -> string,
    le: Order,
    parity: (map<string, string>, map<string, string>) -> bool,
    readLocale: string -> Tree.Entries, renderLocale: Tree.Entries -> string,
    readMeta: string -> Meta, renderMeta: Meta -> string,
    readGlossary: string -> Glossary, renderGlossary: Glossary -> string,
    readTm: string -> seq<TmEntry>, renderTm: seq<TmEntry> -> string,
    defaultGlossary: Glossary)

  /** The English texts: the hash of the file and its flat map. */
  datatype Source = Source(hash: string, flat: OMap<string>)

  /** What differs from run to run: the time, and what pi replies. */
  datatype Moment = Moment(now: string, updatedAt: string -> string, replies: nat -> Batch.Reply)

  /** The files as loaded. */
  datatype Inputs = Inputs(
    existing: map<string, string>, previousMeta: Option<Meta>, previousFallback: set<string>,
    glossary: Glossary, tm: Memory)

  function LoadInputs(env: Env, files: Files): (r: Inputs)
    ensures r.tm.Valid()
  {
    var existing := if files.locale.Some? then env.readLocale(files.locale.value) else [];
    var previousMeta := if files.meta.Some? then Some(env.readMeta(files.meta.value)) else None;
    var glossary := if files.glossary.Some? then env.readGlossary(files.glossary.value) else [];
    var lines := if files.tm.Some? then env.readTm(files.tm.value) else [];
    var fallback := if previousMeta.Some? then previousMeta.value.fallbackKeys else [];
    Inputs(Tree.Flatten(existing).at, previousMeta, (set k <- fallback), glossary, Load(lines))
  }

  // ---- Reconciling every source key ----

  datatype Pass = Pass(next: map<string, string>, tm: Memory, pending: seq<Item>, fallback: seq<string>)

  function ItemFor(env: Env, source: Source, key: string): Item
    requires key in source.flat.at
  {
    var textHash := env.hashText(source.flat.at[key]);
    Item(env.cacheKey(key, textHash), key, source.flat.at[key], textHash)
  }

  /** The copy of another key's translation of the same text. */
  function Adopted(env: Env, item: Item, e: TmEntry): TmEntry {
    e.(cacheKey := item.cacheKey, segmentId := item.key, sourcePath := env.sourcePath)
  }

  /** One source key: reuse its cached text, another key's text, or the existing file; else leave it pending. */
  function Place(env: Env, inputs: Inputs, byText: map<string, TmEntry>, item: Item, p: Pass): Pass {
    var refresh := item.key in inputs.previousFallback;
    var fallback := if refresh then p.fallback + [item.key] else p.fallback;
    if item.cacheKey in p.tm.at && !(env.allowTranslate && refresh) then
      p.(next := p.next[item.key := p.tm.at[item.cacheKey].translated], fallback := fallback)
    else if item.textHash in byText && (refresh || item.key !in inputs.existing) then
      var e := byText[item.textHash];
      p.(next := p.next[item.key := e.translated], tm := Put(p.tm, item.cacheKey, Adopted(env, item, e)))
    else if item.key in inputs.existing && !(env.allowTranslate && refresh) then
      p.(next := p.next[item.key := inputs.existing[item.key]], fallback := fallback)
    else
      p.(pending := p.pending + [item])
  }

  function Reconcile(env: Env, inputs: Inputs, source: Source, n: nat): (p: Pass)
    requires inputs.tm.Valid() && source.flat.Valid() && n <= |source.flat.order|
    ensures p.tm.Valid()
  {
    if n == 0 then Pass(map[], inputs.tm, [], [])
    else
      var key := source.flat.order[n - 1];
      assert key in source.flat.order;
      Place(env, inputs, TextIndex(inputs.tm, env.locale), ItemFor(env, source, key),
            Reconcile(env, inputs, source, n - 1))
  }

  // ---- Storing translations ----

  function NewEntry(env: Env, moment: Moment, item: Item, text: string): TmEntry {
    TmEntry(item.cacheKey, env.model, env.provider, item.key, env.sourcePath, SOURCE_LOCALE,
            item.text, item.textHash, env.locale, text, moment.updatedAt(item.key))
  }

  function StoreOne(env: Env, moment: Moment, item: Item, translated: OMap<string>, p: Pass): (r: Pass)
    ensures p.tm.Valid() ==> r.tm.Valid()
  {
    var value := translated.Get(item.key);
    if value.None? || value.value == "" then p
    else p.(next := p.next[item.key := value.value],
         tm := Put(p.tm, item.cacheKey, NewEntry(env, moment, item, value.value)))
  }

  function Store(env: Env, moment: Moment, batch: seq<Item>, translated: OMap<string>, p: Pass): (r: Pass)
    ensures p.tm.Valid() ==> r.tm.Valid()
  {
    if batch == [] then p
    else StoreOne(env, moment, batch[|batch| - 1], translated, Store(env, moment, batch[..|batch| - 1], translated, p))
  }

  /** Batch after batch; the first batch that fails abandons the run. */
  function TranslateAll(env: Env, moment: Moment, batches: seq<seq<Item>>, at: nat, p: Pass): (r: Result<Pass, string>)
    ensures p.tm.Valid() && r.Ok? ==> r.value.tm.Valid()
    decreases |batches|
  {
    if batches == [] then Ok(p)
    else
      var run := Batch.Translate(batches[0], moment.replies, at, 0);
      match run.outcome
      case Err(e) => Err(e)
      case Ok(translated) =>
        TranslateAll(env, moment, batches[1..], at + run.attempts, Store(env, moment, batches[0], translated, p))
  }

  // ---- What is still missing ----

  function FillOne(inputs: Inputs, force: bool, item: Item, p: Pass): Pass {
    if item.key in p.next then p
    else if item.key in inputs.existing && !force then
      p.(next := p.next[item.key := inputs.existing[item.key]],
      fallback := if item.key in inputs.previousFallback then p.fallback + [item.key] else p.fallback)
    else
      p.(next := p.next[item.key := item.text], fallback := p.fallback + [item.key])
  }

  function Fill(inputs: Inputs, force: bool, items: seq<Item>, p: Pass): (r: Pass)
    ensures r.tm == p.tm && r.pending == p.pending
  {
    if items == [] then p
    else FillOne(inputs, force, items[|items| - 1], Fill(inputs, force, items[..|items| - 1], p))
  }

  /** `[...new Set(keys)]`. */
  function Dedup(keys: seq<string>): (r: seq<string>)
    ensures Distinct(r) && forall k :: k in r <==> k in keys
  {
    if keys == [] then []
    else
      var before, last := Dedup(keys[..|keys| - 1]), keys[|keys| - 1];
      if last in before then before else before + [last]
  }

  // ---- The whole pass, and the files it wants ----

  function FinalPass(
    env: Env, options: Options, moment: Moment, inputs: Inputs, source: Source): (r: Result<Pass, string>)
    requires inputs.tm.Valid() && source.flat.Valid()
    ensures r.Ok? ==> r.value.tm.Valid()
  {
    var placed := Reconcile(env, inputs, source, |source.flat.order|);
    var stored := if env.allowTranslate && |placed.pending| > 0
                  then TranslateAll(env, moment, Pack([], placed.pending, env.budget), 0, placed)
                  else Ok(placed);
    match stored
    case Err(e) => Err(e)
    case Ok(p) => Ok(Fill(inputs, options.force, placed.pending, p))
  }

  function NextValues(source: Source, next: map<string, string>): map<string, string>
    requires source.flat.Valid()
  {
    map k | k in source.flat.at :: if k in next then next[k] else source.flat.at[k]
  }

  function NextMeta(env: Env, moment: Moment, previous: Option<Meta>, source: Source, fallback: seq<string>): Meta {
    var sorted := Sort(Dedup(fallback), env.le);
    var provider := if env.allowTranslate then env.provider else if previous.Some? then previous.value.provider else "";
    var model := if env.allowTranslate then env.model else if previous.Some? then previous.value.model else "";
    var total := |source.flat.order|;
    var changed :=
      previous.None? || previous.value.locale != env.locale || previous.value.sourceHash != source.hash ||
      previous.value.provider != provider || previous.value.model != model ||
      previous.value.totalKeys != total || previous.value.translatedKeys != total - |sorted| ||
      previous.value.workflow != CONTROL_UI_I18N_WORKFLOW || previous.value.fallbackKeys != sorted;
    Meta(sorted, if changed then moment.now else previous.value.generatedAt, env.locale, model, provider,
         source.hash, total, total - |sorted|, CONTROL_UI_I18N_WORKFLOW)
  }

  datatype Expected = Expected(locale: string, meta: string, glossary: string, tm: string)

  function ExpectedFiles(env: Env, moment: Moment, inputs: Inputs, source: Source, p: Pass): Expected
    requires source.flat.Valid() && p.tm.Valid()
  {
    Expected(
      env.renderLocale(Tree.Rebuild(source.flat.order, NextValues(source, p.next))),
      env.renderMeta(NextMeta(env, moment, inputs.previousMeta, source, p.fallback)),
      env.renderGlossary(if inputs.glossary == [] then env.defaultGlossary else inputs.glossary),
      env.renderTm(Ordered(p.tm, env.le)))
  }

  predicate Changed(files: Files, expected: Expected) {
    files.locale.GetOr("") != expected.locale || files.meta.GetOr("") != expected.meta ||
    files.glossary.GetOr("") != expected.glossary || files.tm.GetOr("") != expected.tm
  }

  function Written(files: Files, expected: Expected): Files {
    Files(Some(expected.locale), Some(expected.meta), Some(expected.glossary),
          if expected.tm != "" || files.tm.Some? then Some(expected.tm) else None)
  }

  datatype Outcome = Outcome(changed: bool, wrote: bool, files: Files, pass: Pass, meta: Meta)

  function Sync(env: Env, options: Options, moment: Moment, source: Source, files: Files): Result<Outcome, string>
    requires source.flat.Valid()
  {
    var inputs := LoadInputs(env, files);
    match FinalPass(env, options, moment, inputs, source)
    case Err(e) => Err(e)
    case Ok(p) =>
      if !env.parity(source.flat.at, p.next) then Err("placeholder mismatch")
      else
        var expected := ExpectedFiles(env, moment, inputs, source, p);
        var changed := Changed(files, expected);
        var wrote := changed && !options.checkOnly && options.write;
        Ok(Outcome(changed, wrote, if wrote then Written(files, expected) else files, p,
                   NextMeta(env, moment, inputs.previousMeta, source, p.fallback)))
  }

  // ---- The code ----

  method ReconcileKeys(env: Env, inputs: Inputs, source: Source) returns (p: Pass)
    requires inputs.tm.Valid() && source.flat.Valid()
    ensures p == Reconcile(env, inputs, source, |source.flat.order|)
  {
    var tmByTextHash := BuildTranslationMemoryByTextHash(inputs.tm, env.locale);
    var next: map<string, string> := map[];
    var tm := inputs.tm;
    var pending: seq<Item> := [];
    var fallbackKeys: seq<string> := [];
    for i := 0 to |source.flat.order|
      invariant Pass(next, tm, pending, fallbackKeys) == Reconcile(env, inputs, source, i)
    {
      var key := source.flat.order[i];
      assert key in source.flat.order;
      var text := source.flat.at[key];
      var textHash := env.hashText(text);
      var segmentCacheKey := env.cacheKey(key, textHash);
      var shouldRefreshFallback := key in inputs.previousFallback;
      if segmentCacheKey in tm.at && !(env.allowTranslate && shouldRefreshFallback) {
        next := next[key := tm.at[segmentCacheKey].translated];
        if shouldRefreshFallback {
          fallbackKeys := fallbackKeys + [key];
        }
        continue;
      }
      if textHash in tmByTextHash && (shouldRefreshFallback || key !in inputs.existing) {
        var cachedByText := tmByTextHash[textHash];
        next := next[key := cachedByText.translated];
        var entry := cachedByText.(cacheKey := segmentCacheKey, segmentId := key, sourcePath := env.sourcePath);
        tm := Put(tm, segmentCacheKey, entry);
        continue;
      }
      if key in inputs.existing && !(env.allowTranslate && shouldRefreshFallback) {
        next := next[key := inputs.existing[key]];
        if shouldRefreshFallback {
          fallbackKeys := fallbackKeys + [key];
        }
        continue;
      }
      pending := pending + [Item(segmentCacheKey, key, text, textHash)];
    }
    p := Pass(next, tm, pending, fallbackKeys);
  }

  method StoreBatch(
    env: Env, moment: Moment, batch: seq<Item>, translated: OMap<string>, before: Pass) returns (p: Pass)
    ensures p == Store(env, moment, batch, translated, before)
  {
    p := before;
    assert batch[..0] == [];
    for i := 0 to |batch|
      invariant p == Store(env, moment, batch[..i], translated, before)
    {
      var item := batch[i];
      assert batch[..i + 1][..i] == batch[..i];
      var value := translated.Get(item.key);
      if value.None? || value.value == "" {
        continue;
      }
      p := p.(next := p.next[item.key := value.value],
      tm := Put(p.tm, item.cacheKey, NewEntry(env, moment, item, value.value)));
    }
    assert batch[..|batch|] == batch;
  }

  lemma {:induction false} TranslateNext(env: Env, moment: Moment, batches: seq<seq<Item>>, b: nat, at: nat, p: Pass)
    requires b < |batches|
    ensures var run := Batch.Translate(batches[b], moment.replies, at, 0);
            TranslateAll(env, moment, batches[b..], at, p)
            == if run.outcome.Err? then Err(run.outcome.error)
               else
                 var stored := Store(env, moment, batches[b], run.outcome.value, p);
                 TranslateAll(env, moment, batches[b + 1..], at + run.attempts, stored)
  {
    hide Batch.Translate, Store;
    assert batches[b..][0] == batches[b] && batches[b..][1..] == batches[b + 1..];
  }

  lemma {:induction false} NoMoreBatches(env: Env, moment: Moment, at: nat, p: Pass)
    ensures TranslateAll(env, moment, [], at, p) == Ok(p)
  {
  }

  /** Besides storing the batches, the whole run stays within what the session allows and ends without a client. */
  method TranslatePending(
    env: Env, moment: Moment, placed: Pass) returns (r: Result<Pass, string>, ghost ops: seq<Batch.Op>)
    requires placed.tm.Valid()
    ensures r == TranslateAll(env, moment, Pack([], placed.pending, env.budget), 0, placed)
    ensures Batch.DriveAll(Session.Fresh, ops) == Some(Session.Fresh)
  {
    hide Batch.Translate, Pack, Batch.DriveAll, Store, TranslateAll;
    var batches := BuildTranslationBatches(placed.pending, env.budget);
    var access := new Batch.ClientAccess(moment.replies);
    ghost var driver := Session.Fresh;
    Batch.DriveReset(Session.Fresh, []);
    var p := placed;
    assert batches[0..] == batches;
    for b := 0 to |batches|
      invariant p.tm.Valid() && access.replies == moment.replies
      invariant Batch.DriveAll(Session.Fresh, access.ops) == Some(driver) && Session.MayAsk(driver)
      invariant TranslateAll(env, moment, batches, 0, placed) == TranslateAll(env, moment, batches[b..], access.next, p)
    {
      TranslateNext(env, moment, batches, b, access.next, p);
      Batch.TranslateDrives(access.ops, driver, batches[b], access.replies, access.next);
      var outcome, _ := Batch.TranslateBatch(access, batches[b], 0);
      driver := if outcome.Ok? then Session.Live else Session.Fresh;
      if outcome.Err? {
        Batch.DriveReset(driver, access.ops);
        access.Reset();
        return Err(outcome.error), access.ops;
      }
      p := StoreBatch(env, moment, batches[b], outcome.value, p);
    }
    assert batches[|batches|..] == [];
    NoMoreBatches(env, moment, access.next, p);
    Batch.DriveReset(driver, access.ops);
    access.Reset();
    return Ok(p), access.ops;
  }

  method FillPending(inputs: Inputs, force: bool, pending: seq<Item>, stored: Pass) returns (p: Pass)
    ensures p == Fill(inputs, force, pending, stored)
  {
    p := stored;
    assert pending[..0] == [];
    for i := 0 to |pending|
      invariant p == Fill(inputs, force, pending[..i], stored)
    {
      var item := pending[i];
      assert pending[..i + 1][..i] == pending[..i];
      if item.key in p.next {
        continue;
      }
      if item.key in inputs.existing && !force {
        p := p.(next := p.next[item.key := inputs.existing[item.key]]);
        if item.key in inputs.previousFallback {
          p := p.(fallback := p.fallback + [item.key]);
        }
        continue;
      }
      p := p.(next := p.next[item.key := item.text], fallback := p.fallback + [item.key]);
    }
    assert pending[..|pending|] == pending;
  }

  method RunSync(
    env: Env, options: Options, moment: Moment, source: Source,
    files: Files) returns (r: Result<Outcome, string>)
    requires source.flat.Valid()
    ensures r == Sync(env, options, moment, source, files)
  {
    hide Pack, Reconcile, TranslateAll, Fill, Changed, NextMeta, ExpectedFiles;
    var inputs := LoadInputs(env, files);
    var placed := ReconcileKeys(env, inputs, source);
    var stored: Result<Pass, string> := Ok(placed);
    if env.allowTranslate && |placed.pending| > 0 {
      var translated, _ := TranslatePending(env, moment, placed);
      stored := translated;
    }
    if stored.Err? {
      return Err(stored.error);
    }
    var p := FillPending(inputs, options.force, placed.pending, stored.value);
    if !env.parity(source.flat.at, p.next) {
      return Err("placeholder mismatch");
    }
    var meta := NextMeta(env, moment, inputs.previousMeta, source, p.fallback);
    var expected := ExpectedFiles(env, moment, inputs, source, p);
    var changed := Changed(files, expected);
    if !changed ||
       (inputs.previousMeta.Some? && inputs.previousMeta.value.sourceHash == source.hash &&
        !options.force && !options.checkOnly && !options.write) {
      return Ok(Outcome(changed, false, files, p, meta));
    }
    var after := files;
    if !options.checkOnly && options.write {
      after := Written(files, expected);
    }
    r := Ok(Outcome(changed, !options.checkOnly && options.write && changed, after, p, meta));
  }
}
