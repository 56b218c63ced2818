// Workers that share one counter and fill one result array, in every interleaving.
//
// Between two awaits a worker runs undisturbed, so its life is a sequence of two
// steps: take the next index, and complete the call it started for that index.
module WorkerPool {
  import opened Wrappers

  /** How the call for one item ends: with a value, with nothing to store, or by throwing. */
  datatype Call<+R> = Value(result: R) | Skip | Throw

  datatype Worker = Ready | Busy(index: nat) | Finished | Failed

  /** `eager` counters move on even when the items have run out. */
  datatype Config = Config(items: nat, workers: nat, eager: bool)

  datatype State<+R> = State(
    nextIndex: nat,
    results: seq<Option<R>>,
    workers: seq<Worker>,
    handed: seq<nat>)                // indices in the order they were handed out

  datatype Step = Take(worker: nat) | Complete(worker: nat)

  /** `Math.max(1, Math.min(limit, items.length))`. */
  function WorkerCount(limit: int, items: nat): nat {
    var least := if limit < items then limit else items;
    if least < 1 then 1 else least
  }

  const FILE_READ_CONCURRENCY := 24

  function MapConfig(limit: int, items: nat): Config {
    Config(items, WorkerCount(limit, items), false)
  }

  /** `Math.min(FILE_READ_CONCURRENCY, Math.max(1, absolutePaths.length))`. */
  function ReaderConfig(items: nat): Config {
    var most := if items < 1 then 1 else items;
    Config(items, if FILE_READ_CONCURRENCY < most then FILE_READ_CONCURRENCY else most, true)
  }

  function Start<R>(c: Config): State<R> {
    State(0, seq(c.items, _ => None), seq(c.workers, _ => Ready), [])
  }

  predicate Enabled<R>(s: State<R>, step: Step) {
    step.worker < |s.workers| &&
    match step
    case Take(w) => s.workers[w].Ready?
    case Complete(w) => s.workers[w].Busy? && s.workers[w].index < |s.results|
  }

  function TakeNext<R>(c: Config, s: State<R>, w: nat): State<R>
    requires w < |s.workers|
  {
    if s.nextIndex < c.items then
      s.(nextIndex := s.nextIndex + 1, workers := s.workers[w := Busy(s.nextIndex)], handed := s.handed + [s.nextIndex])
    else
      s.(nextIndex := if c.eager then s.nextIndex + 1 else s.nextIndex, workers := s.workers[w := Finished])
  }

  function CompleteCall<R>(s: State<R>, w: nat, call: Call<R>): State<R>
    requires Enabled(s, Complete(w))
  {
    match call
    case Value(r) => s.(results := s.results[s.workers[w].index := Some(r)], workers := s.workers[w := Ready])
    case Skip => s.(workers := s.workers[w := Ready])
    case Throw => s.(workers := s.workers[w := Failed])
  }

  function Do<R>(c: Config, calls: nat -> Call<R>, s: State<R>, step: Step): State<R>
    requires Enabled(s, step)
  {
    match step
    case Take(w) => TakeNext(c, s, w)
    case Complete(w) => CompleteCall(s, w, calls(s.workers[w].index))
  }

  ghost predicate Legal<R>(c: Config, calls: nat -> Call<R>, s: State<R>, steps: seq<Step>)
    decreases |steps|
  {
    steps == [] || (Enabled(s, steps[0]) && Legal(c, calls, Do(c, calls, s, steps[0]), steps[1..]))
  }

  ghost function After<R>(c: Config, calls: nat -> Call<R>, s: State<R>, steps: seq<Step>): State<R>
    requires Legal(c, calls, s, steps)
    decreases |steps|
  {
    if steps == [] then s else After(c, calls, Do(c, calls, s, steps[0]), steps[1..])
  }

  // ---- The invariant ----

  function ResultOf<R>(call: Call<R>): Option<R> {
    if call.Value? then Some(call.result) else None
  }

  /** Some worker is still on this index. */
  ghost predicate InFlight<R>(s: State<R>, i: nat) {
    exists w :: 0 <= w < |s.workers| && s.workers[w] == Busy(i)
  }

  ghost predicate Shape<R>(c: Config, s: State<R>) {
    && |s.results| == c.items && |s.workers| == c.workers
    && |s.handed| == (if s.nextIndex < c.items then s.nextIndex else c.items)
    && (!c.eager ==> s.nextIndex <= c.items)
    && (forall i :: 0 <= i < |s.handed| ==> s.handed[i] == i)
  }

  ghost predicate WorkersApart<R>(s: State<R>) {
    && (forall w :: 0 <= w < |s.workers| && s.workers[w].Busy? ==> s.workers[w].index < |s.handed|)
    && (forall v, w :: 0 <= v < w < |s.workers| && s.workers[v].Busy? ==> s.workers[w] != s.workers[v])
  }

  /** A slot holds its own item's result once the call is over, and nothing before. */
  ghost predicate SlotsMatch<R>(calls: nat -> Call<R>, s: State<R>) {
    forall i: nat :: i < |s.results| ==>
      s.results[i] == if i < |s.handed| && !InFlight(s, i) then ResultOf(calls(i)) else None
  }

  ghost predicate EndsHonest<R>(c: Config, calls: nat -> Call<R>, s: State<R>) {
    && (forall w :: 0 <= w < |s.workers| && s.workers[w].Finished? ==> |s.handed| == c.items)
    && ((exists w :: 0 <= w < |s.workers| && s.workers[w].Failed?) <==>
        exists i: nat :: i < |s.handed| && calls(i).Throw? && !InFlight(s, i))
  }

  ghost predicate Inv<R>(c: Config, calls: nat -> Call<R>, s: State<R>) {
    Shape(c, s) && WorkersApart(s) && SlotsMatch(calls, s) && EndsHonest(c, calls, s)
  }

  lemma StartInv<R>(c: Config, calls: nat -> Call<R>)
    ensures Inv(c, calls, Start<R>(c))
  {
  }

  lemma TakeFlight<R>(c: Config, s: State<R>, w: nat)
    requires Shape(c, s) && WorkersApart(s) && Enabled(s, Take(w))
    ensures forall i: nat ::
      InFlight(TakeNext(c, s, w), i) <==> InFlight(s, i) || (s.nextIndex < c.items && i == s.nextIndex)
  {
    var t := TakeNext(c, s, w);
    forall i: nat ensures InFlight(t, i) <==> InFlight(s, i) || (s.nextIndex < c.items && i == s.nextIndex) {
      if InFlight(s, i) {
        var v :| 0 <= v < |s.workers| && s.workers[v] == Busy(i);
        assert t.workers[v] == Busy(i);
      }
      if InFlight(t, i) {
        var v :| 0 <= v < |t.workers| && t.workers[v] == Busy(i);
        assert v == w || s.workers[v] == Busy(i);
      }
      if s.nextIndex < c.items {
        assert t.workers[w] == Busy(s.nextIndex);
      }
    }
  }

  lemma CompleteFlight<R>(s: State<R>, w: nat, call: Call<R>)
    requires WorkersApart(s) && Enabled(s, Complete(w))
    ensures forall i: nat :: InFlight(CompleteCall(s, w, call), i) <==> InFlight(s, i) && i != s.workers[w].index
    ensures InFlight(s, s.workers[w].index)
  {
    var t := CompleteCall(s, w, call);
    forall i: nat ensures InFlight(t, i) <==> InFlight(s, i) && i != s.workers[w].index {
      if InFlight(t, i) {
        var v :| 0 <= v < |t.workers| && t.workers[v] == Busy(i);
        assert s.workers[v] == Busy(i) && v != w;
      }
      if InFlight(s, i) && i != s.workers[w].index {
        var v :| 0 <= v < |s.workers| && s.workers[v] == Busy(i);
        assert t.workers[v] == Busy(i);
      }
    }
  }

  lemma TakeKeepsInv<R>(c: Config, calls: nat -> Call<R>, s: State<R>, w: nat)
    requires Inv(c, calls, s) && Enabled(s, Take(w))
    ensures Inv(c, calls, TakeNext(c, s, w))
  {
    TakeFlight(c, s, w);
    hide InFlight;
    var t := TakeNext(c, s, w);
    assert forall v :: 0 <= v < |t.workers| && v != w ==> t.workers[v] == s.workers[v];
    assert !s.workers[w].Failed? && !t.workers[w].Failed?;
    if i: nat :| i < |s.handed| && calls(i).Throw? && !InFlight(s, i) {
      assert i < |t.handed| && !InFlight(t, i);
    }
  }

  lemma CompleteKeepsInv<R>(c: Config, calls: nat -> Call<R>, s: State<R>, w: nat)
    requires Inv(c, calls, s) && Enabled(s, Complete(w))
    ensures Inv(c, calls, Do(c, calls, s, Complete(w)))
  {
    var index := s.workers[w].index;
    CompleteFlight(s, w, calls(index));
    hide InFlight;
    var t := Do(c, calls, s, Complete(w));
    assert forall v :: 0 <= v < |t.workers| && v != w ==> t.workers[v] == s.workers[v];
    if i: nat :| i < |s.handed| && calls(i).Throw? && !InFlight(s, i) {
      assert i < |t.handed| && !InFlight(t, i);
    }
    if calls(index).Throw? {
      assert t.workers[w].Failed? && index < |t.handed| && !InFlight(t, index);
    }
  }

  lemma StepKeepsInv<R>(c: Config, calls: nat -> Call<R>, s: State<R>, step: Step)
    requires Inv(c, calls, s) && Enabled(s, step)
    ensures Inv(c, calls, Do(c, calls, s, step))
  {
    match step
    case Take(w) => TakeKeepsInv(c, calls, s, w);
    case Complete(w) => CompleteKeepsInv(c, calls, s, w);
  }

  lemma {:induction false} RunKeepsInv<R>(c: Config, calls: nat -> Call<R>, s: State<R>, steps: seq<Step>)
    requires Inv(c, calls, s) && Legal(c, calls, s, steps)
    ensures Inv(c, calls, After(c, calls, s, steps))
    decreases |steps|
  {
    hide Inv;
    if steps != [] {
      StepKeepsInv(c, calls, s, steps[0]);
      RunKeepsInv(c, calls, Do(c, calls, s, steps[0]), steps[1..]);
    }
  }

  // ---- What every run does ----

  /** The indices being worked on. */
  ghost function BusyIndices(workers: seq<Worker>): set<nat> {
    if workers == [] then {}
    else BusyIndices(workers[..|workers| - 1]) +
         if workers[|workers| - 1].Busy? then {workers[|workers| - 1].index} else {}
  }

  lemma {:induction false} BusyIndicesBounded(workers: seq<Worker>)
    ensures |BusyIndices(workers)| <= |workers|
    ensures forall i :: i in BusyIndices(workers) <==> Busy(i) in workers
  {
    if workers != [] {
      BusyIndicesBounded(workers[..|workers| - 1]);
      assert workers == workers[..|workers| - 1] + [workers[|workers| - 1]];
    }
  }

  ghost predicate AllDone<R>(s: State<R>) {
    forall w :: 0 <= w < |s.workers| ==> s.workers[w].Finished? || s.workers[w].Failed?
  }

  /**
    * Indices are handed out as 0, 1, 2, ..., each once; no two workers hold the same
    * one, and no more calls are in flight than there are workers.
    */
  lemma {:induction false} EachIndexOnce<R>(c: Config, calls: nat -> Call<R>, steps: seq<Step>)
    requires Legal(c, calls, Start<R>(c), steps)
    ensures var s := After(c, calls, Start<R>(c), steps);
            && |s.handed| <= c.items && (forall i :: 0 <= i < |s.handed| ==> s.handed[i] == i)
            && (forall v, w :: 0 <= v < w < |s.workers| && s.workers[v].Busy? ==> s.workers[w] != s.workers[v])
            && |BusyIndices(s.workers)| <= c.workers
  {
    StartInv(c, calls);
    RunKeepsInv(c, calls, Start<R>(c), steps);
    BusyIndicesBounded(After(c, calls, Start<R>(c), steps).workers);
  }

  /** The results in item order, as a plain loop over the items would give them. */
  function Sequential<R>(items: nat, calls: nat -> Call<R>): (r: seq<Option<R>>)
    ensures |r| == items && forall i :: 0 <= i < items ==> r[i] == ResultOf(calls(i))
  {
    if items == 0 then [] else Sequential(items - 1, calls) + [ResultOf(calls(items - 1))]
  }

  /**
    * When all workers are done, either some call threw and a worker failed, or every
    * slot holds its own item's result: the interleaving leaves no trace.
    */
  lemma {:induction false} ResultsAreSequential<R>(c: Config, calls: nat -> Call<R>, steps: seq<Step>)
    requires c.workers >= 1 && Legal(c, calls, Start<R>(c), steps) && AllDone(After(c, calls, Start<R>(c), steps))
    ensures var s := After(c, calls, Start<R>(c), steps);
            var failed := exists w :: 0 <= w < |s.workers| && s.workers[w].Failed?;
            && (failed <==> exists i: nat :: i < |s.handed| && calls(i).Throw?)
            && (!failed ==> s.results == Sequential(c.items, calls))
  {
    StartInv(c, calls);
    RunKeepsInv(c, calls, Start<R>(c), steps);
    var s := After(c, calls, Start<R>(c), steps);
    assert forall i: nat :: !InFlight(s, i);
    if forall w :: 0 <= w < |s.workers| ==> !s.workers[w].Failed? {
      assert s.workers[0].Finished?;
    }
  }

  /** The entries that are there, in order. */
  function Present<R>(slots: seq<Option<R>>): seq<R> {
    if slots == [] then []
    else Present(slots[..|slots| - 1]) + if slots[|slots| - 1].Some? then [slots[|slots| - 1].value] else []
  }

  /**
    * `mapConcurrent`: at every moment no more calls run than the limit allows, or one if it allows none,
    * and if no call throws the result is the items' results in item order.
    */
  lemma {:induction false} MapKeepsOrderAndLimit<R>(limit: int, items: nat, calls: nat -> Call<R>, steps: seq<Step>)
    requires Legal(MapConfig(limit, items), calls, Start<R>(MapConfig(limit, items)), steps)
    ensures var s := After(MapConfig(limit, items), calls, Start<R>(MapConfig(limit, items)), steps);
            && (|BusyIndices(s.workers)| <= limit || |BusyIndices(s.workers)| <= 1)
            && |BusyIndices(s.workers)| <= (if items < 1 then 1 else items)
            && (AllDone(s) && (forall i: nat :: i < items ==> !calls(i).Throw?) ==>
                  s.results == Sequential(items, calls))
  {
    var c := MapConfig(limit, items);
    EachIndexOnce(c, calls, steps);
    if AllDone(After(c, calls, Start<R>(c), steps)) {
      ResultsAreSequential(c, calls, steps);
    }
  }

  /** The first n workers, one after the other, take an index. */
  function TakeAll(n: nat): seq<Step> {
    if n == 0 then [] else TakeAll(n - 1) + [Take(n - 1)]
  }

  lemma {:induction false} AppendStep<R>(c: Config, calls: nat -> Call<R>, s: State<R>, steps: seq<Step>, step: Step)
    requires Legal(c, calls, s, steps) && Enabled(After(c, calls, s, steps), step)
    ensures Legal(c, calls, s, steps + [step])
    ensures After(c, calls, s, steps + [step]) == Do(c, calls, After(c, calls, s, steps), step)
    decreases |steps|
  {
    if steps == [] {
      assert ([] + [step])[0] == step && ([] + [step])[1..] == [];
    } else {
      assert (steps + [step])[0] == steps[0] && (steps + [step])[1..] == steps[1..] + [step];
      AppendStep(c, calls, Do(c, calls, s, steps[0]), steps[1..], step);
    }
  }

  lemma {:induction false} AllBusy<R>(c: Config, calls: nat -> Call<R>, n: nat)
    requires n <= c.workers && n <= c.items
    ensures Legal(c, calls, Start<R>(c), TakeAll(n))
    ensures var s := After(c, calls, Start<R>(c), TakeAll(n));
            && s.nextIndex == n && |s.workers| == c.workers
            && forall w :: 0 <= w < c.workers ==> s.workers[w] == if w < n then Busy(w) else Ready
  {
    if n > 0 {
      AllBusy(c, calls, n - 1);
      AppendStep(c, calls, Start<R>(c), TakeAll(n - 1), Take(n - 1));
    }
  }

  lemma {:induction false} AllOf(busy: set<nat>, n: nat)
    requires forall i: nat :: i < n ==> i in busy
    ensures |busy| >= n
  {
    if n > 0 {
      AllOf(busy - {n - 1}, n - 1);
    }
  }

  lemma {:induction false} CanBeBusy<R>(c: Config, calls: nat -> Call<R>, n: nat) returns (steps: seq<Step>)
    requires n <= c.workers && n <= c.items
    ensures Legal(c, calls, Start<R>(c), steps)
    ensures |BusyIndices(After(c, calls, Start<R>(c), steps).workers)| >= n
  {
    steps := TakeAll(n);
    AllBusy(c, calls, n);
    var workers := After(c, calls, Start<R>(c), steps).workers;
    BusyIndicesBounded(workers);
    forall i: nat | i < n ensures i in BusyIndices(workers) {
      assert workers[i] == Busy(i);
    }
    AllOf(BusyIndices(workers), n);
  }

  /** The limit is used: as many calls can be in flight at once as it and the items allow, and always one. */
  lemma {:induction false} LimitIsReached<R>(limit: int, items: nat, calls: nat -> Call<R>) returns (steps: seq<Step>)
    requires items > 0
    ensures var c := MapConfig(limit, items);
            && Legal(c, calls, Start<R>(c), steps)
            && |BusyIndices(After(c, calls, Start<R>(c), steps).workers)|
               >= if limit < 1 then 1 else if limit < items then limit else items
  {
    steps := CanBeBusy(MapConfig(limit, items), calls,
                       if limit < 1 then 1 else if limit < items then limit else items);
  }

  /** The file reader reads up to 24 files at once, never more. */
  lemma {:induction false} ReaderLimit<R>(items: nat, calls: nat -> Call<R>, steps: seq<Step>) returns (busy: seq<Step>)
    requires var c := ReaderConfig(items); Legal(c, calls, Start<R>(c), steps)
    ensures var c := ReaderConfig(items);
            && |BusyIndices(After(c, calls, Start<R>(c), steps).workers)| <= 24
            && Legal(c, calls, Start<R>(c), busy)
            && |BusyIndices(After(c, calls, Start<R>(c), busy).workers)| >= if items < 24 then items else 24
  {
    EachIndexOnce(ReaderConfig(items), calls, steps);
    busy := CanBeBusy(ReaderConfig(items), calls, if items < 24 then items else 24);
  }

  /** The file reader returns the readable files in input order, whatever the interleaving. */
  lemma {:induction false} ReaderKeepsOrder<R>(items: nat, calls: nat -> Call<R>, steps: seq<Step>)
    requires var c := ReaderConfig(items);
             Legal(c, calls, Start<R>(c), steps) && AllDone(After(c, calls, Start<R>(c), steps))
    requires forall i: nat :: i < items ==> !calls(i).Throw?
    ensures var c := ReaderConfig(items);
            Present(After(c, calls, Start<R>(c), steps).results) == Present(Sequential(items, calls))
  {
    EachIndexOnce(ReaderConfig(items), calls, steps);
    ResultsAreSequential(ReaderConfig(items), calls, steps);
  }

  // ---- Progress ----

  function Weight(w: Worker): nat {
    if w.Ready? then 1 else if w.Busy? then 2 else 0
  }

  function Weights(ws: seq<Worker>): nat {
    if ws == [] then 0 else Weights(ws[..|ws| - 1]) + Weight(ws[|ws| - 1])
  }

  lemma {:induction false} WeightsUpdate(ws: seq<Worker>, i: nat, w: Worker)
    requires i < |ws|
    ensures Weights(ws[i := w]) == Weights(ws) - Weight(ws[i]) + Weight(w)
  {
    var n := |ws| - 1;
    if i == n {
      assert ws[i := w][..n] == ws[..n];
    } else {
      assert ws[i := w][..n] == ws[..n][i := w];
      WeightsUpdate(ws[..n], i, w);
    }
  }

  /** Two steps per item not yet handed out, and what the workers still owe. */
  function Remaining<R>(c: Config, s: State<R>): int {
    2 * (c.items - |s.handed|) + Weights(s.workers)
  }

  lemma StepProgresses<R>(c: Config, calls: nat -> Call<R>, s: State<R>, step: Step)
    requires Inv(c, calls, s) && Enabled(s, step)
    ensures Remaining(c, Do(c, calls, s, step)) < Remaining(c, s)
  {
    var t := Do(c, calls, s, step);
    WeightsUpdate(s.workers, step.worker, t.workers[step.worker]);
  }

  lemma {:induction false} WeightsOfReady(n: nat)
    ensures Weights(seq(n, _ => Ready)) == n
  {
    if n > 0 {
      var ws := seq(n, _ => Ready);
      assert ws[..n - 1] == seq(n - 1, _ => Ready);
      WeightsOfReady(n - 1);
    }
  }

  lemma {:induction false} RunIsBounded<R>(c: Config, calls: nat -> Call<R>, s: State<R>, steps: seq<Step>)
    requires Inv(c, calls, s) && Legal(c, calls, s, steps)
    ensures |steps| <= Remaining(c, s)
    decreases |steps|
  {
    if steps != [] {
      StepProgresses(c, calls, s, steps[0]);
      StepKeepsInv(c, calls, s, steps[0]);
      RunIsBounded(c, calls, Do(c, calls, s, steps[0]), steps[1..]);
    }
  }

  lemma NeverStuck<R>(c: Config, calls: nat -> Call<R>, s: State<R>, w: nat)
    requires Inv(c, calls, s) && w < |s.workers| && !s.workers[w].Finished? && !s.workers[w].Failed?
    ensures Enabled(s, if s.workers[w].Ready? then Take(w) else Complete(w))
  {
  }

  /** Every run ends: at most two steps an item and one more per worker, and it is never stuck before. */
  lemma {:induction false} PoolTerminates<R>(c: Config, calls: nat -> Call<R>, steps: seq<Step>)
    requires Legal(c, calls, Start<R>(c), steps)
    ensures |steps| <= 2 * c.items + c.workers
    ensures var s := After(c, calls, Start<R>(c), steps);
            AllDone(s) <==> !exists step :: Enabled(s, step)
  {
    StartInv(c, calls);
    RunIsBounded(c, calls, Start<R>(c), steps);
    WeightsOfReady(c.workers);
    RunKeepsInv(c, calls, Start<R>(c), steps);
    var s := After(c, calls, Start<R>(c), steps);
    if !AllDone(s) {
      var w: nat :| w < |s.workers| && !s.workers[w].Finished? && !s.workers[w].Failed?;
      NeverStuck(c, calls, s, w);
    }
  }

  // ---- The shared variables of one pool ----

  class Pool<R> {
    const config: Config
    const results: array<Option<R>>
    var nextIndex: nat
    var workers: seq<Worker>
    ghost var handed: seq<nat>

    ghost function Abs(): State<R>
      reads this, results
    {
      State(nextIndex, results[..], workers, handed)
    }

    constructor (config: Config)
      ensures this.config == config && fresh(results) && Abs() == Start(config)
    {
      this.config := config;
      results := new Option<R>[config.items](_ => None);
      nextIndex, workers, handed := 0, seq(config.workers, _ => Ready), [];
      new;
      assert results[..] == seq(config.items, _ => None);
    }

    method TakeIndex(w: nat)
      requires Enabled(Abs(), Take(w))
      modifies this
      ensures Abs() == TakeNext(config, old(Abs()), w)
    {
      var index := nextIndex;
      if config.eager || nextIndex < config.items {
        nextIndex := nextIndex + 1;
      }
      if index >= config.items {
        workers := workers[w := Finished];
        return;
      }
      workers := workers[w := Busy(index)];
      handed := handed + [index];
    }

    method CompleteItem(w: nat, call: Call<R>)
      requires Enabled(Abs(), Complete(w))
      modifies this, results
      ensures Abs() == CompleteCall(old(Abs()), w, call)
    {
      match call {
        case Value(r) =>
          results[workers[w].index] := Some(r);
          workers := workers[w := Ready];
        case Skip => workers := workers[w := Ready];
        case Throw => workers := workers[w := Failed];
      }
    }
  }
}
