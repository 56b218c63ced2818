// The per-locale translation memory: a file of entries, a map by cache key, and an index by text.
module TranslationMemory {
  import opened Wrappers
  import opened OrderedMap
  import opened Sorting
  import Text

  datatype TmEntry = TmEntry(
    cacheKey: string, model: string, provider: string, segmentId: string, sourcePath: string, srcLang: string,
    text: string, textHash: string, tgtLang: string, translated: string, updatedAt: string)

  type Memory = OMap<TmEntry>

  predicate NonBlank(s: string) {
    Text.Trim(s) != ""
  }

  predicate Loadable(e: TmEntry) {
    e.cacheKey != "" && NonBlank(e.translated)
  }

  /** Later lines replace earlier ones with the same cache key; unusable lines are skipped. */
  function Load(lines: seq<TmEntry>): (m: Memory)
    ensures m.Valid()
  {
    if lines == [] then Empty()
    else
      var before, e := Load(lines[..|lines| - 1]), lines[|lines| - 1];
      if Loadable(e) then Put(before, e.cacheKey, e) else before
  }

  method LoadTranslationMemory(lines: seq<TmEntry>) returns (entries: Memory)
    ensures entries == Load(lines)
  {
    entries := Empty();
    assert lines[..0] == [];
    for i := 0 to |lines|
      invariant entries == Load(lines[..i])
    {
      assert lines[..i + 1][..i] == lines[..i];
      if Loadable(lines[i]) {
        entries := Put(entries, lines[i].cacheKey, lines[i]);
      }
    }
    assert lines[..|lines|] == lines;
  }

  /** The entries in cache key order, as they are written to the file. */
  function Ordered(m: Memory, le: Order): (r: seq<TmEntry>)
    requires m.Valid()
  {
    var keys := Sort(m.order, le);
    SortMembers(m.order, le);
    seq(|keys|, i requires 0 <= i < |keys| => assert keys[i] in keys; m.at[keys[i]])
  }

  /** Every entry sits under its own key and would be loaded back. */
  ghost predicate Sound(m: Memory) {
    m.Valid() && forall k :: k in m.at ==> m.at[k].cacheKey == k && Loadable(m.at[k])
  }

  lemma {:induction false} LoadIsSound(lines: seq<TmEntry>)
    ensures Sound(Load(lines))
  {
    hide NonBlank;
    if lines != [] {
      LoadIsSound(lines[..|lines| - 1]);
    }
  }

  /** The last usable line with a cache key is the one that counts, whatever came before it. */
  lemma {:induction false} LastLineWins(lines: seq<TmEntry>, i: nat)
    requires i < |lines| && lines[i].cacheKey != "" && Text.Trim(lines[i].translated) != ""
    requires forall j ::
      i < j < |lines| && lines[j].cacheKey == lines[i].cacheKey ==> Text.Trim(lines[j].translated) == ""
    ensures Load(lines).Get(lines[i].cacheKey) == Some(lines[i])
  {
    hide Text.Trim;
    var n := |lines| - 1;
    if i < n {
      LastLineWins(lines[..n], i);
    }
  }

  /** And every entry comes from such a line; keys stand in the order in which usable lines first name them. */
  lemma {:induction false} LoadedFrom(lines: seq<TmEntry>, k: string)
    requires k in Load(lines).at
    ensures exists i :: 0 <= i < |lines| && lines[i] == Load(lines).at[k] && lines[i].cacheKey == k && k != "" &&
                        Text.Trim(lines[i].translated) != ""
  {
    hide Text.Trim;
    var n := |lines| - 1;
    if n >= 0 && !(Loadable(lines[n]) && lines[n].cacheKey == k) {
      LoadedFrom(lines[..n], k);
      var i :| 0 <= i < n && lines[..n][i] == Load(lines[..n]).at[k] && lines[..n][i].cacheKey == k && k != "" &&
               Text.Trim(lines[..n][i].translated) != "";
      assert lines[i] == Load(lines).at[k];
    }
  }

  predicate Names(e: TmEntry, k: string) {
    e.cacheKey == k && k != "" && Text.Trim(e.translated) != ""
  }

  lemma {:induction false} NamedIsLoaded(lines: seq<TmEntry>, i: nat, k: string)
    requires i < |lines| && Names(lines[i], k)
    ensures k in Load(lines).at
  {
    hide Text.Trim;
    if i < |lines| - 1 {
      NamedIsLoaded(lines[..|lines| - 1], i, k);
    }
  }

  /** Some usable line names the one key before any names the other. */
  ghost predicate NamedFirst(lines: seq<TmEntry>, k: string, l: string) {
    exists i :: 0 <= i < |lines| && Names(lines[i], k) &&
                forall j :: 0 <= j < |lines| && Names(lines[j], l) ==> i < j
  }

  lemma NamedFirstLater(lines: seq<TmEntry>, e: TmEntry, k: string, l: string)
    requires NamedFirst(lines, k, l)
    ensures NamedFirst(lines + [e], k, l)
  {
    hide Names;
    var i :| 0 <= i < |lines| && Names(lines[i], k) && forall j :: 0 <= j < |lines| && Names(lines[j], l) ==> i < j;
    var all := lines + [e];
    assert Names(all[i], k);
    forall j | 0 <= j < |all| && Names(all[j], l) ensures i < j {
      if j < |lines| {
        assert Names(lines[j], l);
      }
    }
  }

  lemma {:induction false} NewKeyIsLast(lines: seq<TmEntry>, e: TmEntry, k: string)
    requires k in Load(lines).at && e.cacheKey !in Load(lines).at
    ensures NamedFirst(lines + [e], k, e.cacheKey)
  {
    hide Load, Text.Trim;
    LoadedFrom(lines, k);
    var i :| 0 <= i < |lines| && lines[i] == Load(lines).at[k] && lines[i].cacheKey == k && k != "" &&
             Text.Trim(lines[i].translated) != "";
    var all := lines + [e];
    assert Names(all[i], k);
    forall j | 0 <= j < |all| && Names(all[j], e.cacheKey) ensures i < j {
      if j < |lines| {
        NamedIsLoaded(lines, j, e.cacheKey);
      }
    }
  }

  lemma {:induction false} FirstLineRanks(lines: seq<TmEntry>, a: nat, b: nat)
    requires a < b < |Load(lines).order|
    ensures NamedFirst(lines, Load(lines).order[a], Load(lines).order[b])
  {
    hide Names, NamedFirst;
    var init, e := lines[..|lines| - 1], lines[|lines| - 1];
    var order := Load(init).order;
    assert lines == init + [e];
    if b < |order| {
      FirstLineRanks(init, a, b);
      NamedFirstLater(init, e, order[a], order[b]);
    } else {
      assert order[a] in order && b == |order|;
      NewKeyIsLast(init, e, order[a]);
    }
  }

  function CacheKeys(lines: seq<TmEntry>): (r: seq<string>)
    ensures |r| == |lines| && forall i :: 0 <= i < |lines| ==> r[i] == lines[i].cacheKey
  {
    seq(|lines|, i requires 0 <= i < |lines| => lines[i].cacheKey)
  }

  lemma LastIsNew(lines: seq<TmEntry>)
    requires lines != [] && Distinct(CacheKeys(lines))
    ensures var before, last := lines[..|lines| - 1], lines[|lines| - 1];
            && lines == before + [last]
            && CacheKeys(lines) == CacheKeys(before) + [last.cacheKey] && Distinct(CacheKeys(before))
            && forall e <- before :: e.cacheKey != last.cacheKey
  {
    var n := |lines| - 1;
    var keys := CacheKeys(lines);
    assert CacheKeys(lines[..n]) == keys[..n];
    forall e <- lines[..n] ensures e.cacheKey != lines[n].cacheKey {
      var i :| 0 <= i < n && lines[i] == e;
      assert keys[i] != keys[n];
    }
  }

  lemma {:induction false} NotLoadedYet(lines: seq<TmEntry>, cacheKey: string)
    requires Load(lines).order == CacheKeys(lines) && forall e <- lines :: e.cacheKey != cacheKey
    ensures cacheKey !in Load(lines).at
  {
    hide Load;
    forall k | k in Load(lines).order ensures k != cacheKey {
      var i :| 0 <= i < |lines| && CacheKeys(lines)[i] == k;
      assert lines[i] in lines;
    }
  }

  /** Lines with distinct keys, all loadable, load one by one. */
  lemma {:induction false} LoadDistinct(lines: seq<TmEntry>)
    requires Distinct(CacheKeys(lines)) && forall e <- lines :: Loadable(e)
    ensures Load(lines).order == CacheKeys(lines)
    ensures forall e <- lines :: e.cacheKey in Load(lines).at && Load(lines).at[e.cacheKey] == e
  {
    if lines != [] {
      var before, last := lines[..|lines| - 1], lines[|lines| - 1];
      LastIsNew(lines);
      hide Loadable, Distinct;
      LoadDistinct(before);
      var m := Load(before);
      assert last in lines && Load(lines) == Put(m, last.cacheKey, last);
      NotLoadedYet(before, last.cacheKey);
      hide Load, CacheKeys;
    }
  }

  lemma OrderedLines(m: Memory, le: Order)
    requires m.Valid()
    ensures var keys, lines := Sort(m.order, le), Ordered(m, le);
            && |lines| == |keys| && Distinct(keys) && (forall k :: k in keys <==> k in m.at)
            && forall i :: 0 <= i < |keys| ==> keys[i] in m.at && lines[i] == m.at[keys[i]]
  {
    var keys := Sort(m.order, le);
    SortMembers(m.order, le);
    SortKeepsDistinct(m.order, le);
    assert forall i :: 0 <= i < |keys| ==> keys[i] in keys;
  }

  /** Writing a sound memory and loading it back keeps every entry. */
  lemma LoadOfOrdered(m: Memory, le: Order)
    requires Sound(m)
    ensures Load(Ordered(m, le)).at == m.at
    ensures Load(Ordered(m, le)).order == Sort(m.order, le)
  {
    hide NonBlank, Sort, Ordered, Load;
    OrderedLines(m, le);
    var keys, lines := Sort(m.order, le), Ordered(m, le);
    assert CacheKeys(lines) == keys;
    LoadDistinct(lines);
    var back := Load(lines);
    forall k | k in m.at ensures k in back.at && back.at[k] == m.at[k] {
      var i :| 0 <= i < |keys| && keys[i] == k;
      assert lines[i] in lines;
    }
    assert forall k :: k in back.at <==> k in back.order;
  }

  /** A second write produces the same lines. */
  lemma RewriteIsStable(m: Memory, le: Order)
    requires Sound(m) && Preorder(le)
    ensures Ordered(Load(Ordered(m, le)), le) == Ordered(m, le)
  {
    LoadOfOrdered(m, le);
    SortSorts(m.order, le);
    SortOfSorted(Sort(m.order, le), le);
  }

  // ---- The index by text ----

  predicate Indexed(e: TmEntry, locale: string) {
    e.tgtLang == locale && e.textHash != "" && NonBlank(e.translated)
  }

  function ByText(m: Memory, locale: string, n: nat): (r: map<string, TmEntry>)
    requires m.Valid() && n <= |m.order|
  {
    if n == 0 then map[]
    else
      assert m.order[n - 1] in m.order;
      var e := m.at[m.order[n - 1]];
      var before := ByText(m, locale, n - 1);
      if Indexed(e, locale) then before[e.textHash := e] else before
  }

  method BuildTranslationMemoryByTextHash(entries: Memory, locale: string) returns (byTextHash: map<string, TmEntry>)
    requires entries.Valid()
    ensures byTextHash == ByText(entries, locale, |entries.order|)
  {
    byTextHash := map[];
    for i := 0 to |entries.order|
      invariant byTextHash == ByText(entries, locale, i)
    {
      var entry := entries.at[entries.order[i]];
      if !Indexed(entry, locale) {
        continue;
      }
      byTextHash := byTextHash[entry.textHash := entry];
    }
  }

  function TextIndex(m: Memory, locale: string): map<string, TmEntry>
    requires m.Valid()
  {
    ByText(m, locale, |m.order|)
  }

  lemma {:induction false} ByTextMembers(m: Memory, locale: string, n: nat)
    requires m.Valid() && n <= |m.order|
    ensures forall h :: h in ByText(m, locale, n) ==>
                          ByText(m, locale, n)[h].textHash == h && Indexed(ByText(m, locale, n)[h], locale)
    ensures forall i :: 0 <= i < n && Indexed(m.at[m.order[i]], locale) ==>
      m.at[m.order[i]].textHash in ByText(m, locale, n)
    ensures forall h :: h in ByText(m, locale, n) ==> ByText(m, locale, n)[h] in m.at.Values
  {
    hide Indexed;
    if n > 0 {
      ByTextMembers(m, locale, n - 1);
    }
  }

  /** The index answers only with reusable entries for the text asked, and misses none. */
  lemma TextIndexIsExact(m: Memory, locale: string)
    requires m.Valid()
    ensures forall h :: h in TextIndex(m, locale) ==>
                          TextIndex(m, locale)[h].textHash == h && Indexed(TextIndex(m, locale)[h], locale)
    ensures forall h :: h in TextIndex(m, locale) ==> TextIndex(m, locale)[h] in m.at.Values
    ensures forall k :: k in m.at && Indexed(m.at[k], locale) ==> m.at[k].textHash in TextIndex(m, locale)
  {
    hide Indexed;
    ByTextMembers(m, locale, |m.order|);
    forall k | k in m.at && Indexed(m.at[k], locale) ensures m.at[k].textHash in TextIndex(m, locale) {
      assert k in m.order;
      var i :| 0 <= i < |m.order| && m.order[i] == k;
    }
  }

  /** A usable translation of the text with this hash into the locale. */
  predicate Serves(e: TmEntry, locale: string, hash: string) {
    e.tgtLang == locale && e.textHash == hash && hash != "" && Text.Trim(e.translated) != ""
  }

  predicate ServesAt(m: Memory, locale: string, hash: string, i: int) {
    0 <= i < |m.order| && m.order[i] in m.at && Serves(m.at[m.order[i]], locale, hash)
  }

  lemma {:induction false} LastByText(m: Memory, locale: string, hash: string, n: nat, i: nat)
    requires m.Valid() && i < n <= |m.order| && ServesAt(m, locale, hash, i)
    requires forall j :: i < j < n ==> !ServesAt(m, locale, hash, j)
    ensures hash in ByText(m, locale, n) && Some(ByText(m, locale, n)[hash]) == m.Get(m.order[i])
  {
    hide Text.Trim;
    assert m.order[n - 1] in m.order;
    if i < n - 1 {
      LastByText(m, locale, hash, n - 1, i);
      assert !ServesAt(m, locale, hash, n - 1);
    }
  }

  lemma {:induction false} IndexIs(m: Memory, locale: string)
    requires m.Valid()
    ensures TextIndex(m, locale) == ByText(m, locale, |m.order|)
  {
  }

  /** A text is served exactly when some entry can serve it, and then by the last such entry of the memory. */
  lemma {:induction false} LastEntryServes(m: Memory, locale: string, hash: string)
    requires m.Valid()
    ensures hash in TextIndex(m, locale) <==> exists i :: ServesAt(m, locale, hash, i)
    ensures forall i :: ServesAt(m, locale, hash, i) && (forall j :: j > i ==> !ServesAt(m, locale, hash, j)) ==>
                          hash in TextIndex(m, locale) && TextIndex(m, locale)[hash] == m.at[m.order[i]]
  {
    hide Text.Trim;
    TextIndexIsExact(m, locale);
    var index := TextIndex(m, locale);
    hide TextIndex;
    if hash in index {
      var k :| k in m.at && m.at[k] == index[hash];
      assert k in m.order;
      var i :| 0 <= i < |m.order| && m.order[i] == k;
      assert ServesAt(m, locale, hash, i);
    }
    if i :| ServesAt(m, locale, hash, i) {
      assert Indexed(m.at[m.order[i]], locale);
    }
    forall i | ServesAt(m, locale, hash, i) && (forall j :: j > i ==> !ServesAt(m, locale, hash, j))
      ensures hash in index && index[hash] == m.at[m.order[i]]
    {
      LastByText(m, locale, hash, |m.order|, i);
      IndexIs(m, locale);
    }
  }
}
