// scripts/label-open-issues.ts: what is labelled once, over crashes and restarts.
module LabelCheckpoints {
  import opened Wrappers
  import opened LabelBatches

  const SKILL_LABEL: string := "r: skill"

  datatype Kind = Issue | PullRequest

  datatype Key = Key(kind: Kind, number: int)

  /** The two sets of numbers already processed. */
  datatype Sets = Sets(issues: set<int>, pullRequests: set<int>) {
    predicate Has(k: Key) {
      if k.kind.Issue? then k.number in issues else k.number in pullRequests
    }

    function Add(k: Key): Sets {
      if k.kind.Issue? then this.(issues := issues + {k.number})
      else this.(pullRequests := pullRequests + {k.number})
    }
  }

  // ---------- The state file ----------

  datatype JsonValue = Number(n: int) | OtherValue

  /** Absent, not JSON, or JSON in which each list may be missing. */
  datatype StateFile =
    | Missing
    | Unreadable
    | Saved(issues: Option<seq<JsonValue>>, pullRequests: Option<seq<JsonValue>>)

  function Numbers(values: Option<seq<JsonValue>>): set<int> {
    match values
    case None => {}
    case Some(vs) => set v | v in vs && v.Number? :: v.n
  }

  /** `loadState`, with the fresh start the caller makes of an unreadable file. */
  function LoadState(file: StateFile): Sets {
    match file
    case Saved(issues, pullRequests) => Sets(Numbers(issues), Numbers(pullRequests))
    case _ => Sets({}, {})
  }

  /** The numbers of both lists, and nothing else; a file that is not there or cannot be read gives none. */
  lemma LoadStateIff(file: StateFile, n: int)
    ensures n in LoadState(file).issues
       <==> file.Saved? && file.issues.Some? && Number(n) in file.issues.value
    ensures n in LoadState(file).pullRequests
       <==> file.Saved? && file.pullRequests.Some? && Number(n) in file.pullRequests.value
  {
  }

  ghost predicate Increasing(s: seq<int>) {
    forall i, j :: 0 <= i < j < |s| ==> s[i] < s[j]
  }

  function InsertAscending(x: int, s: seq<int>): (r: seq<int>)
    requires x !in s && Increasing(s)
    ensures forall y :: y in r <==> y == x || y in s
    ensures Increasing(r)
  {
    if s == [] then [x]
    else if x < s[0] then [x] + s
    else
      assert forall y :: y in s <==> y == s[0] || y in s[1..];
      var rest := InsertAscending(x, s[1..]);
      assert forall k :: 0 <= k < |rest| ==> rest[k] in rest;
      [s[0]] + rest
  }

  ghost function Any<T(!new)>(s: set<T>): (x: T)
    requires s != {}
    ensures x in s
  {
    var x :| x in s;
    x
  }

  /** `Array.from(set).toSorted((a, b) => a - b)`. */
  ghost function Ascending(s: set<int>): (r: seq<int>)
    ensures forall x :: x in r <==> x in s
    ensures Increasing(r)
  {
    if s == {} then []
    else
      var x := Any(s);
      InsertAscending(x, Ascending(s - {x}))
  }

  lemma HeadIsMember(s: seq<int>)
    requires s != []
    ensures s[0] in s
  {
  }

  lemma {:induction false} IncreasingIsUnique(a: seq<int>, b: seq<int>)
    requires Increasing(a) && Increasing(b) && forall x :: x in a <==> x in b
    ensures a == b
  {
    if a == [] {
      if b != [] {
        HeadIsMember(b);
        assert false;
      }
    } else {
      assert a[0] in b && b[0] in a;
      assert a[0] == b[0];
      assert forall x :: x in a[1..] <==> x in a && x != a[0];
      assert forall x :: x in b[1..] <==> x in b && x != b[0];
      IncreasingIsUnique(a[1..], b[1..]);
      assert a == [a[0]] + a[1..] && b == [b[0]] + b[1..];
    }
  }

  method ToSorted(s: set<int>) returns (sorted: seq<int>)
    ensures sorted == Ascending(s)
  {
    sorted := [];
    var rest := s;
    while rest != {}
      invariant rest <= s && Increasing(sorted)
      invariant forall x :: x in sorted <==> x in s - rest
      decreases rest
    {
      ghost var some := Any(rest);
      var x :| x in rest;
      sorted := InsertAscending(x, sorted);
      rest := rest - {x};
    }
    IncreasingIsUnique(sorted, Ascending(s));
  }

  function AsJson(numbers: seq<int>): (r: seq<JsonValue>)
    ensures |r| == |numbers| && forall i :: 0 <= i < |r| ==> r[i] == Number(numbers[i])
  {
    seq(|numbers|, i requires 0 <= i < |numbers| => Number(numbers[i]))
  }

  /** `buildStateSnapshot`, as written to the file. */
  ghost function Snapshot(sets: Sets): StateFile {
    Saved(Some(AsJson(Ascending(sets.issues))), Some(AsJson(Ascending(sets.pullRequests))))
  }

  lemma {:induction false} NumbersOfAscending(s: set<int>)
    ensures Numbers(Some(AsJson(Ascending(s)))) == s
  {
    var vs := AsJson(Ascending(s));
    forall x | x in s ensures Number(x) in vs {
      var i :| 0 <= i < |Ascending(s)| && Ascending(s)[i] == x;
      assert vs[i] == Number(x);
    }
  }

  /** What is saved is what is loaded. */
  lemma LoadUndoesSave(sets: Sets)
    ensures LoadState(Snapshot(sets)) == sets
  {
    NumbersOfAscending(sets.issues);
    NumbersOfAscending(sets.pullRequests);
  }

  // ---------- Runs ----------

  /** A batch in progress: what is left of it, all its keys, and whether anything in it was new. */
  datatype Open = Open(kind: Kind, pending: seq<Item>, keys: set<Key>, anyNew: bool)

  datatype Run = Off | On(sets: Sets, dryRun: bool, batch: Option<Open>)

  /**
   * `classified` and `checkpointed` record history: model calls in order, and the keys of the batches
   * saved since the file was last torn.
   */
  datatype Machine = Machine(file: StateFile, run: Run, classified: seq<Key>, checkpointed: set<Key>)

  datatype Event =
    | Start(dryRun: bool)
    | Fetch(kind: Kind, items: seq<Item>)
    | Process                  // the next pending item of the batch
    | Close                    // the batch is done; save if due
    | TornSave                 // killed while the file is being rewritten
    | Stop                     // the end, an exception or a kill at any other point

  ghost predicate SaveDue(run: Run) {
    run.On? && run.batch.Some? && run.batch.value.pending == [] && run.batch.value.anyNew && !run.dryRun
  }

  ghost predicate Enabled(m: Machine, e: Event) {
    match e
    case Start(_) => m.run.Off?
    case Fetch(_, _) => m.run.On? && m.run.batch.None?
    case Process => m.run.On? && m.run.batch.Some? && m.run.batch.value.pending != []
    case Close => m.run.On? && m.run.batch.Some? && m.run.batch.value.pending == []
    case TornSave => SaveDue(m.run)
    case Stop => m.run.On?
  }

  /** `batch.filter((item) => !processed.has(item.number))`. */
  function Pending(sets: Sets, kind: Kind, items: seq<Item>): (r: seq<Item>)
    ensures forall x :: x in r <==> x in items && !sets.Has(Key(kind, x.number))
  {
    if items == [] then []
    else (if sets.Has(Key(kind, items[0].number)) then [] else [items[0]]) + Pending(sets, kind, items[1..])
  }

  ghost function KeysOf(kind: Kind, items: seq<Item>): set<Key> {
    set x | x in items :: Key(kind, x.number)
  }

  /** A pull request that has the skill label already is not put to the model. */
  predicate Asks(kind: Kind, item: Item) {
    kind.Issue? || SKILL_LABEL !in item.labels
  }

  ghost function Step(m: Machine, e: Event): Machine
    requires Enabled(m, e)
  {
    match e
    case Start(dryRun) => m.(run := On(LoadState(m.file), dryRun, None))
    case Fetch(kind, items) =>
      var pending := Pending(m.run.sets, kind, items);
      m.(run := m.run.(batch := Some(Open(kind, pending, KeysOf(kind, items), pending != []))))
    case Process =>
      var b := m.run.batch.value;
      var key := Key(b.kind, b.pending[0].number);
      m.(run := m.run.(sets := m.run.sets.Add(key), batch := Some(b.(pending := b.pending[1..]))),
         classified := if Asks(b.kind, b.pending[0]) then m.classified + [key] else m.classified)
    case Close =>
      if SaveDue(m.run)
      then m.(file := Snapshot(m.run.sets), run := m.run.(batch := None),
              checkpointed := m.checkpointed + m.run.batch.value.keys)
      else m.(run := m.run.(batch := None))
    case TornSave => m.(file := Unreadable, run := Off, checkpointed := {})
    case Stop => m.(run := Off)
  }

  ghost function After(m: Machine, es: seq<Event>): Machine {
    if es == [] then m
    else
      var was := After(m, es[..|es| - 1]);
      if Enabled(was, es[|es| - 1]) then Step(was, es[|es| - 1]) else was
  }

  ghost predicate Legal(m: Machine, es: seq<Event>) {
    es == [] || (Legal(m, es[..|es| - 1]) && Enabled(After(m, es[..|es| - 1]), es[|es| - 1]))
  }

  ghost predicate Covers(sets: Sets, keys: set<Key>) {
    forall k :: k in keys ==> sets.Has(k)
  }

  ghost predicate BatchInv(sets: Sets, b: Open, checkpointed: set<Key>) {
    && (forall x :: x in b.pending ==> Key(b.kind, x.number) !in checkpointed)
    && (forall k :: k in b.keys && !sets.Has(k) ==> exists x :: x in b.pending && k == Key(b.kind, x.number))
  }

  /** The file knows every checkpointed key; so does a run, whose open batch has none of them pending. */
  ghost predicate Inv(m: Machine) {
    && Covers(LoadState(m.file), m.checkpointed)
    && (m.run.On? ==> Covers(m.run.sets, m.checkpointed))
    && (m.run.On? && m.run.batch.Some? ==> BatchInv(m.run.sets, m.run.batch.value, m.checkpointed))
  }

  lemma ProcessKeepsInv(m: Machine)
    requires Inv(m) && Enabled(m, Process)
    ensures Inv(Step(m, Process))
  {
    var b := m.run.batch.value;
    assert b.pending == [b.pending[0]] + b.pending[1..];
  }

  lemma StepKeepsInv(m: Machine, e: Event)
    requires Inv(m) && Enabled(m, e)
    ensures Inv(Step(m, e))
  {
    match e
    case Start(_) =>
    case Fetch(kind, items) =>
    case Process => ProcessKeepsInv(m);
    case Close => LoadUndoesSave(m.run.sets);
    case TornSave =>
    case Stop =>
  }

  /** Before the first run nothing counts as checkpointed, whatever the file holds. */
  ghost predicate Initial(m: Machine) {
    m.run.Off? && m.checkpointed == {}
  }

  lemma {:induction false} RunKeepsInv(m: Machine, es: seq<Event>)
    requires Initial(m) && Legal(m, es)
    ensures Inv(After(m, es))
  {
    if es != [] {
      var init := es[..|es| - 1];
      RunKeepsInv(m, init);
      StepKeepsInv(After(m, init), es[|es| - 1]);
    }
  }

  /** The batch closed by event `i` was saved, held the key, and no save was torn after it. */
  ghost predicate SavedAt(m: Machine, es: seq<Event>, i: nat, k: Key) {
    && i < |es| && es[i] == Close && TornSave !in es[i..]
    && var run := After(m, es[..i]).run;
       run.On? && run.batch.Some? && run.batch.value.anyNew && !run.dryRun && k in run.batch.value.keys
  }

  lemma SavedBefore(m: Machine, es: seq<Event>, i: nat, k: Key)
    requires SavedAt(m, es, i, k)
    ensures i < |es|
  {
  }

  /** Which keys count as checkpointed, read off the events. */
  lemma {:induction false} CheckpointedIff(m: Machine, es: seq<Event>, k: Key)
    requires Initial(m) && Legal(m, es)
    ensures k in After(m, es).checkpointed <==> exists i: nat :: SavedAt(m, es, i, k)
  {
    if es != [] {
      var n := |es| - 1;
      var init, last := es[..n], es[n];
      CheckpointedIff(m, init, k);
      assert es == init + [last];
      forall i: nat | i < n ensures SavedAt(m, es, i, k) <==> SavedAt(m, init, i, k) && last != TornSave {
        assert es[..i] == init[..i] && es[i..] == init[i..] + [last];
      }
      assert es[n..] == [last];
      assert SavedAt(m, es, n, k) <==>
        last == Close && SaveDue(After(m, init).run) && k in After(m, init).run.batch.value.keys;
      hide SavedAt, Legal, LoadState, Snapshot;
      if k in After(m, es).checkpointed {
        if k in After(m, init).checkpointed {
          var i: nat :| SavedAt(m, init, i, k);
          SavedBefore(m, init, i, k);
        } else {
          assert SavedAt(m, es, n, k);
        }
      }
      if i: nat :| SavedAt(m, es, i, k) {
        SavedBefore(m, es, i, k);
      }
    }
  }

  /**
   * Over any crashes, restarts and torn saves, no item of a batch checkpointed since the last torn save
   * is put to the model again, in a dry run or a real one.
   */
  lemma {:induction false} NeverClassifiedAgain(m: Machine, es: seq<Event>)
    requires Initial(m) && Legal(m, es + [Process])
    ensures
      var was := After(m, es);
      var now := After(m, es + [Process]);
      forall k :: k in was.checkpointed ==> multiset(now.classified)[k] == multiset(was.classified)[k]
  {
    assert (es + [Process])[..|es|] == es;
    RunKeepsInv(m, es);
    var was := After(m, es);
    var b := was.run.batch.value;
    assert b.pending[0] in b.pending;
  }

  lemma {:induction false} Extend(m: Machine, es: seq<Event>, e: Event)
    requires Legal(m, es) && Enabled(After(m, es), e)
    ensures Legal(m, es + [e]) && After(m, es + [e]) == Step(After(m, es), e)
  {
    assert (es + [e])[..|es|] == es;
  }

  lemma OneIssueRun(m: Machine, es: seq<Event>, item: Item) returns (more: seq<Event>)
    requires Legal(m, es) && After(m, es).run.On?
    requires !After(m, es).run.dryRun && After(m, es).run.batch.None?
    requires !After(m, es).run.sets.Has(Key(Issue, item.number))
    ensures more == es + [Fetch(Issue, [item])] + [Process] && Legal(m, more)
    ensures After(m, more).run.On? && SaveDue(After(m, more).run)
    ensures After(m, more).run.batch.value.keys == {Key(Issue, item.number)}
    ensures After(m, more).checkpointed == After(m, es).checkpointed
    ensures After(m, more).run.sets == After(m, es).run.sets.Add(Key(Issue, item.number))
    ensures After(m, more).classified == After(m, es).classified + [Key(Issue, item.number)]
  {
    assert [item][1..] == [];
    assert Pending(After(m, es).run.sets, Issue, [item]) == [item];
    Extend(m, es, Fetch(Issue, [item]));
    more := es + [Fetch(Issue, [item])];
    Extend(m, more, Process);
    more := more + [Process];
  }

  /** A torn save forgets every checkpoint: the next run puts any checkpointed issue to the model again. */
  lemma {:induction false} TornSaveForgets(m: Machine, es: seq<Event>, item: Item)
    requires Initial(m) && Legal(m, es + [TornSave])
    ensures
      var again := es + [TornSave] + [Start(false)] + [Fetch(Issue, [item])] + [Process];
      && Legal(m, again)
      && After(m, again).classified == After(m, es).classified + [Key(Issue, item.number)]
  {
    assert (es + [TornSave])[..|es|] == es;
    Extend(m, es, TornSave);
    Extend(m, es + [TornSave], Start(false));
    var more := OneIssueRun(m, es + [TornSave] + [Start(false)], item);
  }

  /** A history in which a checkpointed issue is so forgotten. */
  lemma TornSaveHappens() returns (m: Machine, es: seq<Event>, item: Item)
    ensures Initial(m) && Legal(m, es + [TornSave]) && TornSave !in es
    ensures Key(Issue, item.number) in After(m, es).checkpointed
  {
    m := Machine(Missing, Off, [], {});
    item := Item(1, {});
    Extend(m, [], Start(false));
    es := OneIssueRun(m, [] + [Start(false)], item);
    Extend(m, es, Close);
    assert LoadState(Missing) == Sets({}, {});
    es := OneIssueRun(m, es + [Close], Item(2, {}));
    Extend(m, es, TornSave);
  }

  // ---------- The loop over one batch ----------

  /** A batch up to its first `n` pending items, as events. */
  ghost function BatchUpTo(kind: Kind, items: seq<Item>, n: nat): seq<Event> {
    if n == 0 then [Fetch(kind, items)] else BatchUpTo(kind, items, n - 1) + [Process]
  }

  ghost function WholeBatch(kind: Kind, items: seq<Item>, pending: nat): seq<Event> {
    BatchUpTo(kind, items, pending) + [Close]
  }

  lemma StepsOfBatch(file: StateFile, sets: Sets, dryRun: bool, b: Open, classified: seq<Key>, checkpointed: set<Key>)
    ensures
      var m := Machine(file, On(sets, dryRun, Some(b)), classified, checkpointed);
      if b.pending == []
      then && Enabled(m, Close)
           && Step(m, Close) ==
              if b.anyNew && !dryRun
              then Machine(Snapshot(sets), On(sets, dryRun, None), classified, checkpointed + b.keys)
              else Machine(file, On(sets, dryRun, None), classified, checkpointed)
      else && Enabled(m, Process)
           && var key := Key(b.kind, b.pending[0].number);
              Step(m, Process) ==
              Machine(file, On(sets.Add(key), dryRun, Some(b.(pending := b.pending[1..]))),
                      classified + (if Asks(b.kind, b.pending[0]) then [key] else []), checkpointed)
  {
  }

  lemma {:induction false} StartOfBatch(m: Machine, kind: Kind, items: seq<Item>)
    requires m.run.On? && m.run.batch.None?
    ensures
      var pending := Pending(m.run.sets, kind, items);
      var es := BatchUpTo(kind, items, 0);
      && Legal(m, es)
      && After(m, es) == m.(run := m.run.(batch := Some(Open(kind, pending, KeysOf(kind, items), pending != []))))
  {
    hide Pending, KeysOf;
    Extend(m, [], Fetch(kind, items));
    assert [] + [Fetch(kind, items)] == BatchUpTo(kind, items, 0);
  }

  /** What a batch puts to the model: issues, and pull requests without the skill label, if not yet processed. */
  function ToAsk(sets: Sets, kind: Kind, items: seq<Item>): seq<Key> {
    if items == [] then []
    else
      ToAsk(sets, kind, items[..|items| - 1]) +
      var item := items[|items| - 1];
      match kind
      case Issue => if item.number in sets.issues then [] else [Key(Issue, item.number)]
      case PullRequest =>
        if item.number in sets.pullRequests || "r: skill" in item.labels then [] else [Key(PullRequest, item.number)]
  }

  /** The sets with all these items processed. */
  ghost function With(sets: Sets, kind: Kind, items: seq<Item>): Sets {
    var numbers := set x | x in items :: x.number;
    match kind
    case Issue => Sets(sets.issues + numbers, sets.pullRequests)
    case PullRequest => Sets(sets.issues, sets.pullRequests + numbers)
  }

  function Fresh(sets: Sets, kind: Kind, items: seq<Item>): seq<Key> {
    if items == [] then []
    else Fresh(sets, kind, items[..|items| - 1]) +
         if Asks(kind, items[|items| - 1]) then [Key(kind, items[|items| - 1].number)] else []
  }

  lemma {:induction false} PendingSnoc(sets: Sets, kind: Kind, items: seq<Item>, item: Item)
    ensures Pending(sets, kind, items + [item])
         == Pending(sets, kind, items) + if sets.Has(Key(kind, item.number)) then [] else [item]
  {
    if items == [] {
      assert [] + [item] == [item] && [item][1..] == [];
    } else {
      assert (items + [item])[1..] == items[1..] + [item];
      PendingSnoc(sets, kind, items[1..], item);
    }
  }

  lemma {:induction false} FreshSnoc(sets: Sets, kind: Kind, items: seq<Item>, item: Item)
    ensures Fresh(sets, kind, items + [item])
         == Fresh(sets, kind, items) + if Asks(kind, item) then [Key(kind, item.number)] else []
  {
    assert (items + [item])[..|items|] == items;
  }

  lemma {:induction false} ToAskSnoc(sets: Sets, kind: Kind, items: seq<Item>, item: Item)
    ensures ToAsk(sets, kind, items + [item])
         == ToAsk(sets, kind, items) +
            if !sets.Has(Key(kind, item.number)) && Asks(kind, item) then [Key(kind, item.number)] else []
  {
    assert (items + [item])[..|items|] == items;
  }

  lemma {:induction false} NothingToAsk(sets: Sets, kind: Kind)
    ensures Fresh(sets, kind, Pending(sets, kind, [])) == ToAsk(sets, kind, [])
  {
  }

  lemma {:induction false} OneMoreToAsk(sets: Sets, kind: Kind, items: seq<Item>, item: Item)
    requires Fresh(sets, kind, Pending(sets, kind, items)) == ToAsk(sets, kind, items)
    ensures Fresh(sets, kind, Pending(sets, kind, items + [item])) == ToAsk(sets, kind, items + [item])
  {
    hide Fresh, ToAsk, Asks, Pending, Sets.Has;
    PendingSnoc(sets, kind, items, item);
    ToAskSnoc(sets, kind, items, item);
    var before := Pending(sets, kind, items);
    FreshSnoc(sets, kind, before, item);
    assert before + [] == before;
  }

  lemma {:induction false} FreshIsToAsk(sets: Sets, kind: Kind, items: seq<Item>)
    ensures Fresh(sets, kind, Pending(sets, kind, items)) == ToAsk(sets, kind, items)
  {
    hide Fresh, ToAsk, Pending;
    if items == [] {
      NothingToAsk(sets, kind);
    } else {
      var init, item := items[..|items| - 1], items[|items| - 1];
      FreshIsToAsk(sets, kind, init);
      OneMoreToAsk(sets, kind, init, item);
      assert items == init + [item];
    }
  }

  lemma {:induction false} NewIff(sets: Sets, kind: Kind, items: seq<Item>)
    ensures var pending := Pending(sets, kind, items);
            && With(sets, kind, pending) == With(sets, kind, items)
            && (pending != [] <==> With(sets, kind, items) != sets)
  {
    var pending := Pending(sets, kind, items);
    hide Pending;
    if pending != [] {
      assert pending[0] in pending;
      assert With(sets, kind, items).Has(Key(kind, pending[0].number));
    }
  }

  /** The machine after the first n pending items of a batch. */
  ghost function Halfway(m: Machine, kind: Kind, items: seq<Item>, n: nat): Machine
    requires m.run.On? && n <= |Pending(m.run.sets, kind, items)|
  {
    var pending := Pending(m.run.sets, kind, items);
    var b := Open(kind, pending[n..], KeysOf(kind, items), pending != []);
    Machine(m.file, On(With(m.run.sets, kind, pending[..n]), m.run.dryRun, Some(b)),
            m.classified + Fresh(m.run.sets, kind, pending[..n]), m.checkpointed)
  }

  lemma WithSnoc(sets: Sets, kind: Kind, items: seq<Item>, x: Item)
    ensures With(sets, kind, items + [x]) == With(sets, kind, items).Add(Key(kind, x.number))
  {
    assert (set y | y in items + [x] :: y.number) == (set y | y in items :: y.number) + {x.number};
  }

  lemma {:induction false} HalfwayStep(m: Machine, kind: Kind, items: seq<Item>, n: nat)
    requires m.run.On? && n < |Pending(m.run.sets, kind, items)|
    ensures Enabled(Halfway(m, kind, items, n), Process)
    ensures Step(Halfway(m, kind, items, n), Process) == Halfway(m, kind, items, n + 1)
  {
    hide With, Fresh, Pending, KeysOf, Asks, Sets.Add, Step, Enabled;
    var pending := Pending(m.run.sets, kind, items);
    var sets := With(m.run.sets, kind, pending[..n]);
    var classified := m.classified + Fresh(m.run.sets, kind, pending[..n]);
    var b := Open(kind, pending[n..], KeysOf(kind, items), pending != []);
    assert pending[..n + 1] == pending[..n] + [pending[n]] && pending[n..][1..] == pending[n + 1..];
    WithSnoc(m.run.sets, kind, pending[..n], pending[n]);
    FreshSnoc(m.run.sets, kind, pending[..n], pending[n]);
    StepsOfBatch(m.file, sets, m.run.dryRun, b, classified, m.checkpointed);
    var key := Key(kind, pending[n].number);
    var more := if Asks(kind, pending[n]) then [key] else [];
    assert m.classified + (Fresh(m.run.sets, kind, pending[..n]) + more) == classified + more;
  }

  lemma {:induction false} HalfwayStart(m: Machine, kind: Kind, items: seq<Item>)
    requires m.run.On? && m.run.batch.None?
    ensures Legal(m, BatchUpTo(kind, items, 0))
    ensures After(m, BatchUpTo(kind, items, 0)) == Halfway(m, kind, items, 0)
  {
    StartOfBatch(m, kind, items);
    var pending := Pending(m.run.sets, kind, items);
    assert pending[0..] == pending && pending[..0] == [];
    assert With(m.run.sets, kind, []) == m.run.sets;
    hide Pending, KeysOf, Legal, Asks, Step, Enabled, After, BatchUpTo;
  }

  lemma {:induction false} BatchSoFar(m: Machine, kind: Kind, items: seq<Item>, n: nat)
    requires m.run.On? && m.run.batch.None? && n <= |Pending(m.run.sets, kind, items)|
    ensures Legal(m, BatchUpTo(kind, items, n))
    ensures After(m, BatchUpTo(kind, items, n)) == Halfway(m, kind, items, n)
  {
    hide Pending, Legal, Step, Enabled, After, Halfway;
    if n == 0 {
      HalfwayStart(m, kind, items);
    } else {
      BatchSoFar(m, kind, items, n - 1);
      HalfwayStep(m, kind, items, n - 1);
      Extend(m, BatchUpTo(kind, items, n - 1), Process);
    }
  }

  /**
    * A batch run to its end: every new item is processed, in order, the model is asked just where it should
    * be, and the file is rewritten exactly when something was new and the run is real.
    */
  lemma {:induction false} BatchIs(m: Machine, kind: Kind, items: seq<Item>)
    requires m.run.On? && m.run.batch.None?
    ensures
      var es := WholeBatch(kind, items, |Pending(m.run.sets, kind, items)|);
      var sets := With(m.run.sets, kind, items);
      && Legal(m, es)
      && After(m, es).run == On(sets, m.run.dryRun, None)
      && After(m, es).classified == m.classified + ToAsk(m.run.sets, kind, items)
      && if sets != m.run.sets && !m.run.dryRun then LoadState(After(m, es).file) == sets
         else After(m, es).file == m.file
  {
    var pending := Pending(m.run.sets, kind, items);
    BatchSoFar(m, kind, items, |pending|);
    assert pending[..|pending|] == pending && pending[|pending|..] == [];
    FreshIsToAsk(m.run.sets, kind, items);
    NewIff(m.run.sets, kind, items);
    hide Pending, KeysOf, Legal, Asks, Step, Enabled, With, Fresh, ToAsk, BatchUpTo, LoadState, Snapshot;
    var sets := With(m.run.sets, kind, items);
    var b := Open(kind, [], KeysOf(kind, items), pending != []);
    var classified := m.classified + ToAsk(m.run.sets, kind, items);
    StepsOfBatch(m.file, sets, m.run.dryRun, b, classified, m.checkpointed);
    Extend(m, BatchUpTo(kind, items, |pending|), Close);
    LoadUndoesSave(sets);
  }

  class Labeler {
    var issueState: set<int>
    var pullRequestState: set<int>
    var stateFile: StateFile
    var classified: seq<Key>
    ghost var checkpointed: set<Key>

    constructor (stateFile: StateFile)
      ensures this.stateFile == stateFile && classified == [] && checkpointed == {}
      ensures Now(false, None) == Step(Machine(stateFile, Off, [], {}), Start(false))
      ensures Now(true, None) == Step(Machine(stateFile, Off, [], {}), Start(true))
    {
      var sets := LoadState(stateFile);
      issueState, pullRequestState := sets.issues, sets.pullRequests;
      this.stateFile := stateFile;
      classified := [];
      checkpointed := {};
    }

    ghost function Now(dryRun: bool, batch: Option<Open>): Machine
      reads this
    {
      Machine(stateFile, On(Processed(), dryRun, batch), classified, checkpointed)
    }

    ghost function Processed(): Sets
      reads this
    {
      Sets(issueState, pullRequestState)
    }

    /** Classify one item, label it, and remember it. */
    method ProcessItem(kind: Kind, item: Item)
      modifies this`issueState, this`pullRequestState, this`classified
      ensures Processed() == old(Processed()).Add(Key(kind, item.number))
      ensures classified == old(classified) + (if Asks(kind, item) then [Key(kind, item.number)] else [])
    {
      if Asks(kind, item) {
        classified := classified + [Key(kind, item.number)];
      }
      if kind.Issue? {
        issueState := issueState + {item.number};
      } else {
        pullRequestState := pullRequestState + {item.number};
      }
    }

    method SaveState()
      modifies this`stateFile
      ensures stateFile == Snapshot(Processed())
    {
      var issues := ToSorted(issueState);
      var pullRequests := ToSorted(pullRequestState);
      stateFile := Saved(Some(AsJson(issues)), Some(AsJson(pullRequests)));
    }

    method LabelBatch(kind: Kind, items: seq<Item>, dryRun: bool)
      modifies this
      ensures
        var es := WholeBatch(kind, items, |Pending(old(Processed()), kind, items)|);
        Legal(old(Now(dryRun, None)), es) && Now(dryRun, None) == After(old(Now(dryRun, None)), es)
    {
      hide Legal, After, Step, Enabled, Pending, KeysOf, Snapshot, Asks;
      ghost var start := Now(dryRun, None);
      var pending := Pending(Sets(issueState, pullRequestState), kind, items);
      ghost var keys := KeysOf(kind, items);
      ghost var es := BatchUpTo(kind, items, 0);
      StartOfBatch(start, kind, items);
      for i := 0 to |pending|
        invariant es == BatchUpTo(kind, items, i)
        invariant Legal(start, es)
        invariant After(start, es) == Now(dryRun, Some(Open(kind, pending[i..], keys, pending != [])))
      {
        StepsOfBatch(stateFile, Processed(), dryRun,
                     Open(kind, pending[i..], keys, pending != []), classified, checkpointed);
        Extend(start, es, Process);
        es := es + [Process];
        assert pending[i..][1..] == pending[i + 1..];
        ProcessItem(kind, pending[i]);
      }
      StepsOfBatch(stateFile, Processed(), dryRun, Open(kind, [], keys, pending != []), classified, checkpointed);
      Extend(start, es, Close);
      if !dryRun && |pending| > 0 {
        SaveState();
        checkpointed := checkpointed + keys;
      }
    }
  }
}
