// The request/response client of the translation tool over its child process.
//
// Calls of `prompt` are numbered 0, 1, 2, ... in call order; requests that
// reach stdin are numbered 1, 2, ... as in the ids `req-1`, `req-2`.  A call's
// promise is an entry of `settled`; the first settlement wins, as for every
// JavaScript promise.
module PiRpcClient {
  import opened Wrappers
  import Text

  // ---- What the process may say ----

  datatype Block = TextBlock(text: string) | OtherBlock

  datatype Content = PlainText(text: string) | Blocks(blocks: seq<Block>) | NoContent

  datatype Message =
    | NotAnObject
    | Message(assistant: bool, errorMessage: Option<string>, stoppedOnError: bool, content: Content)

  datatype Line =
    | Blank
    | NotJson
    | JsonNull                 // parses, but has no `type` to read
    | Response(id: nat, success: bool, error: Option<string>)
    | AgentEnd(messages: seq<Message>)
    | OtherType

  datatype Failure =
    | ProcessUnavailable
    | ProcessFailed
    | ProcessClosed
    | PromptFailed(text: string)
    | NoTranslation(text: string)
    | TimedOut
    | WriteFailed

  datatype Settlement = Resolved(text: string) | Rejected(reason: Failure)

  // ---- extractTranslationResult ----

  predicate HasError(m: Message)
    requires m.Message?
  {
    (m.errorMessage.Some? && m.errorMessage.value != "") || m.stoppedOnError
  }

  /** A message that ends the backwards search: an assistant message that failed or has content. */
  predicate Decisive(m: Message) {
    m.Message? && m.assistant && (HasError(m) || !m.content.NoContent?)
  }

  function BlockTexts(blocks: seq<Block>): string {
    if blocks == [] then ""
    else (if blocks[0].TextBlock? then blocks[0].text else "") + BlockTexts(blocks[1..])
  }

  function Verdict(m: Message): Result<string, string>
    requires Decisive(m)
  {
    if HasError(m) then
      var text := Text.Trim(m.errorMessage.GetOr(""));
      Err(if text != "" then text else "pi error")
    else match m.content
      case PlainText(text) => Ok(text)
      case Blocks(blocks) => Ok(BlockTexts(blocks))
  }

  function Extract(messages: seq<Message>): Result<string, string> {
    if messages == [] then Err("assistant translation not found")
    else if Decisive(messages[|messages| - 1]) then Verdict(messages[|messages| - 1])
    else Extract(messages[..|messages| - 1])
  }

  predicate LastDecisive(messages: seq<Message>, i: int) {
    0 <= i < |messages| && Decisive(messages[i]) &&
    forall j :: i < j < |messages| ==> !Decisive(messages[j])
  }

  method ExtractTranslationResult(messages: seq<Message>) returns (r: Result<string, string>)
    ensures r == Extract(messages)
    ensures (exists i :: LastDecisive(messages, i)) ==>
              exists i :: LastDecisive(messages, i) && r == Verdict(messages[i])
    ensures (forall m <- messages :: !Decisive(m)) ==> r == Err("assistant translation not found")
  {
    var index := |messages| - 1;
    assert messages[..|messages|] == messages;
    while index >= 0
      invariant -1 <= index < |messages|
      invariant forall j :: index < j < |messages| ==> !Decisive(messages[j])
      invariant Extract(messages) == Extract(messages[..index + 1])
    {
      assert messages[..index + 1][..index] == messages[..index];
      var m := messages[index];
      if Decisive(m) {
        assert LastDecisive(messages, index);
        return Verdict(m);
      }
      index := index - 1;
    }
    r := Err("assistant translation not found");
  }

  /** The texts of the blocks, each once and in order; a block that is not text adds nothing. */
  lemma {:induction false} BlockTextsJoin(a: seq<Block>, b: seq<Block>, text: string)
    ensures BlockTexts(a + b) == BlockTexts(a) + BlockTexts(b)
    ensures BlockTexts([TextBlock(text)]) == text && BlockTexts([OtherBlock]) == "" && BlockTexts([]) == ""
  {
    assert [TextBlock(text)][1..] == [] && [OtherBlock][1..] == [];
    if a == [] {
      assert a + b == b;
    } else {
      assert (a + b)[1..] == a[1..] + b;
      BlockTextsJoin(a[1..], b, text);
    }
  }

  /** Passed over in the search: not an assistant's, or neither failed nor with any content. */
  predicate Silent(m: Message) {
    m.NotAnObject? || !m.assistant ||
    (m.errorMessage.GetOr("") == "" && !m.stoppedOnError && m.content == NoContent)
  }

  lemma {:induction false} SilentTail(messages: seq<Message>, silent: seq<Message>)
    requires forall m <- silent :: Silent(m)
    ensures Extract(messages + silent) == Extract(messages)
  {
    if silent == [] {
      assert messages + silent == messages;
    } else {
      var n := |silent| - 1;
      assert (messages + silent)[..|messages| + n] == messages + silent[..n];
      assert silent[n] in silent && (messages + silent)[|messages| + n] == silent[n];
      SilentTail(messages, silent[..n]);
    }
  }

  /** The newest assistant message that failed or has content decides, whatever came before it. */
  lemma {:induction false} NewestAnswerDecides(older: seq<Message>, m: Message, silent: seq<Message>)
    requires forall s <- silent :: Silent(s)
    ensures Extract(silent) == Err("assistant translation not found")
    ensures m.Message? && m.assistant ==>
              var r := Extract(older + [m] + silent);
              var error := m.errorMessage.GetOr("");
              if error != "" || m.stoppedOnError then
                r == Err(if Text.Trim(error) != "" then Text.Trim(error) else "pi error")
              else match m.content
                case PlainText(text) => r == Ok(text)
                case Blocks(blocks) => r == Ok(BlockTexts(blocks))
                case NoContent => r == Extract(older)
  {
    hide Text.Trim;
    SilentTail([], silent);
    assert [] + silent == silent;
    SilentTail(older + [m], silent);
    assert (older + [m])[..|older|] == older;
  }

  // ---- The client as a state machine ----

  datatype PendingPrompt = PendingPrompt(id: nat, call: nat, responseReceived: bool)

  datatype State = State(
    closed: bool,
    pending: Option<PendingPrompt>,
    requestCount: nat,
    calls: nat,                      // prompt() calls made so far
    started: nat,                    // calls whose turn in `sequence` has come
    settled: map<nat, Settlement>,   // promises, by call
    timers: set<nat>,                // armed timeout timers, by request id
    heartbeats: set<nat>,            // running heartbeat intervals, by request id
    sent: seq<nat>                   // request id i + 1 was written for call sent[i]
  )

  const INITIAL := State(false, None, 0, 0, 0, map[], {}, {}, [])

  datatype Event =
    | Call
    | Turn
    | StdoutLine(line: Line)
    | TimerFires(id: nat)
    | WriteCallback(id: nat, failed: bool)
    | ProcessErrors
    | ProcessCloses
    | CloseCalled

  /** The chain of promises lets a call start once the call before it has settled. */
  predicate TurnReady(s: State) {
    s.started < s.calls && (s.started == 0 || s.started - 1 in s.settled)
  }

  predicate Enabled(s: State, e: Event) {
    match e
    case Turn => TurnReady(s)
    case TimerFires(id) => id in s.timers
    case WriteCallback(id, _) => 1 <= id <= |s.sent|
    case _ => true
  }

  function Settle(s: State, call: nat, outcome: Settlement): State {
    if call in s.settled then s else s.(settled := s.settled[call := outcome])
  }

  /** Run a pending prompt's own `resolve` or `reject`: both stop its timer and its heartbeat. */
  function Finish(s: State, p: PendingPrompt, outcome: Settlement): State {
    Settle(s.(timers := s.timers - {p.id}, heartbeats := s.heartbeats - {p.id}), p.call, outcome)
  }

  function RejectPending(s: State, reason: Failure): State {
    if s.pending.None? then s else Finish(s.(pending := None), s.pending.value, Rejected(reason))
  }

  function ResponseError(error: Option<string>): string {
    var text := Text.Trim(error.GetOr(""));
    if text != "" then text else "pi prompt failed"
  }

  function OnLine(s: State, line: Line): State {
    if s.pending.None? then s
    else
      var p := s.pending.value;
      match line
      case Response(id, success, error) =>
        if id != p.id then s
        else if success then s.(pending := Some(p.(responseReceived := true)))
        else Finish(s.(pending := None), p, Rejected(PromptFailed(ResponseError(error))))
      case AgentEnd(messages) =>
        var outcome :=
          match Extract(messages)
          case Ok(text) => Resolved(text)
          case Err(text) => Rejected(NoTranslation(text));
        Finish(s.(pending := None), p, outcome)
      case _ => s
  }

  function StartNext(s: State): State
    requires TurnReady(s)
  {
    var call := s.started;
    var s1 := s.(started := call + 1);
    if s.closed then Settle(s1, call, Rejected(ProcessUnavailable))
    else
      var id := s.requestCount + 1;
      s1.(requestCount := id, pending := Some(PendingPrompt(id, call, false)),
      timers := s.timers + {id}, heartbeats := s.heartbeats + {id}, sent := s.sent + [call])
  }

  function OnTimeout(s: State, id: nat): State {
    var fired := s.(timers := s.timers - {id});
    if s.pending.Some? && s.pending.value.id == id then
      Settle(fired.(pending := None, heartbeats := s.heartbeats - {id}, closed := true),
             s.pending.value.call, Rejected(TimedOut))
    else fired
  }

  function OnWriteCallback(s: State, id: nat, failed: bool): State
    requires 1 <= id <= |s.sent|
  {
    if !failed then s
    else
      var cleared := s.(timers := s.timers - {id}, heartbeats := s.heartbeats - {id});
      var freed := if s.pending.Some? && s.pending.value.id == id then cleared.(pending := None) else cleared;
      Settle(freed, s.sent[id - 1], Rejected(WriteFailed))
  }

  function Step(s: State, e: Event): State
    requires Enabled(s, e)
  {
    match e
    case Call => s.(calls := s.calls + 1)
    case Turn => StartNext(s)
    case StdoutLine(line) => OnLine(s, line)
    case TimerFires(id) => OnTimeout(s, id)
    case WriteCallback(id, failed) => OnWriteCallback(s, id, failed)
    case ProcessErrors => RejectPending(s, ProcessFailed)
    case ProcessCloses => RejectPending(s.(closed := true), ProcessClosed)
    case CloseCalled => s.(closed := true)
  }

  ghost predicate Legal(s: State, es: seq<Event>)
    decreases |es|
  {
    es == [] || (Enabled(s, es[0]) && Legal(Step(s, es[0]), es[1..]))
  }

  ghost function After(s: State, es: seq<Event>): State
    requires Legal(s, es)
    decreases |es|
  {
    if es == [] then s else After(Step(s, es[0]), es[1..])
  }

  // ---- The invariant ----

  /** Every call whose turn came has settled, except the pending one, which is the latest. */
  ghost predicate PromisesMatchSlot(s: State) {
    && s.started <= s.calls
    && (forall k :: k in s.settled ==> k < s.started)
    && (forall k: nat :: k < s.started ==>
                           (k in s.settled <==> !(s.pending.Some? && s.pending.value.call == k)))
    && (s.pending.Some? ==> s.pending.value.call == s.started - 1)
  }

  /** A timer and a heartbeat run exactly for the pending request. */
  ghost predicate TimersMatchSlot(s: State) {
    s.timers == s.heartbeats == (if s.pending.Some? then {s.pending.value.id} else {})
  }

  /** Requests leave in call order; a call that never left was refused by a closed client. */
  ghost predicate SentInOrder(s: State) {
    && |s.sent| == s.requestCount
    && (forall i, j :: 0 <= i < j < |s.sent| ==> s.sent[i] < s.sent[j])
    && (forall i :: 0 <= i < |s.sent| ==> s.sent[i] < s.started)
    && (s.pending.Some? ==>
          && |s.sent| > 0 && s.pending.value.id == |s.sent|
          && s.sent[|s.sent| - 1] == s.pending.value.call)
    && (forall k: nat :: k < s.started && k !in s.sent ==>
                           s.closed && k in s.settled && s.settled[k] == Rejected(ProcessUnavailable))
  }

  ghost predicate TimeoutsClose(s: State) {
    forall k :: k in s.settled && s.settled[k] == Rejected(TimedOut) ==> s.closed
  }

  ghost predicate Inv(s: State) {
    PromisesMatchSlot(s) && TimersMatchSlot(s) && SentInOrder(s) && TimeoutsClose(s)
  }

  /** Promises never change once settled, and closing and sending are never undone. */
  ghost predicate Grows(s: State, t: State) {
    && (forall k :: k in s.settled ==> k in t.settled && t.settled[k] == s.settled[k])
    && s.sent <= t.sent && s.started <= t.started && s.calls <= t.calls
    && (s.closed ==> t.closed)
  }

  /** What every settling event amounts to: the slot empties, its clocks stop, its promise is decided. */
  function Decided(s: State, outcome: Settlement, closing: bool): State
    requires s.pending.Some?
  {
    s.(pending := None, timers := {}, heartbeats := {}, closed := s.closed || closing,
    settled := s.settled[s.pending.value.call := outcome])
  }

  lemma DecidedKeepsInv(s: State, outcome: Settlement, closing: bool)
    requires Inv(s) && s.pending.Some?
    requires outcome == Rejected(TimedOut) ==> closing
    ensures Inv(Decided(s, outcome, closing)) && Grows(s, Decided(s, outcome, closing))
  {
    var t := Decided(s, outcome, closing);
    var call := s.pending.value.call;
    assert s.sent[|s.sent| - 1] == call && call in s.sent;
    assert PromisesMatchSlot(t);
    assert SentInOrder(t);
  }

  lemma FinishIsDecided(s: State, outcome: Settlement)
    requires Inv(s) && s.pending.Some?
    ensures Finish(s.(pending := None), s.pending.value, outcome) == Decided(s, outcome, false)
  {
    var id := s.pending.value.id;
    assert {id} - {id} == {};
  }

  lemma TimeoutKeepsInv(s: State, id: nat)
    requires Inv(s) && id in s.timers
    ensures Inv(OnTimeout(s, id)) && Grows(s, OnTimeout(s, id))
  {
    assert {id} - {id} == {};
    assert OnTimeout(s, id) == Decided(s, Rejected(TimedOut), true);
    DecidedKeepsInv(s, Rejected(TimedOut), true);
  }

  /** The error callback of a write whose prompt is no longer pending changes nothing at all. */
  lemma LateWriteErrorIsSilent(s: State, id: nat)
    requires Inv(s) && 1 <= id <= |s.sent|
    requires s.pending.None? || s.pending.value.id != id
    ensures Step(s, WriteCallback(id, true)) == s
  {
    assert s.sent[id - 1] in s.sent && s.sent[id - 1] < s.started;
    if s.pending.Some? {
      assert s.sent[id - 1] != s.pending.value.call;
    }
    assert s.sent[id - 1] in s.settled;
    assert s.timers - {id} == s.timers && s.heartbeats - {id} == s.heartbeats;
  }

  lemma WriteKeepsInv(s: State, id: nat, failed: bool)
    requires Inv(s) && 1 <= id <= |s.sent|
    ensures Inv(OnWriteCallback(s, id, failed)) && Grows(s, OnWriteCallback(s, id, failed))
  {
    if failed && s.pending.Some? && s.pending.value.id == id {
      assert {id} - {id} == {};
      assert OnWriteCallback(s, id, failed) == Decided(s, Rejected(WriteFailed), false);
      DecidedKeepsInv(s, Rejected(WriteFailed), false);
    } else if failed {
      LateWriteErrorIsSilent(s, id);
    }
  }

  lemma CloseKeepsInv(s: State)
    requires Inv(s)
    ensures Inv(s.(closed := true)) && Grows(s, s.(closed := true))
  {
  }

  lemma RejectKeepsInv(s: State, reason: Failure)
    requires Inv(s) && reason != TimedOut
    ensures Inv(RejectPending(s, reason)) && Grows(s, RejectPending(s, reason))
  {
    if s.pending.Some? {
      FinishIsDecided(s, Rejected(reason));
      DecidedKeepsInv(s, Rejected(reason), false);
    }
  }

  lemma ResponseReceivedKeepsInv(s: State)
    requires Inv(s) && s.pending.Some?
    ensures var t := s.(pending := Some(s.pending.value.(responseReceived := true))); Inv(t) && Grows(s, t)
  {
  }

  /** How a deciding line settles the pending prompt. */
  function LineOutcome(line: Line): Settlement
    requires line.Response? || line.AgentEnd?
  {
    match line
    case Response(_, _, error) => Rejected(PromptFailed(ResponseError(error)))
    case AgentEnd(messages) =>
      match Extract(messages)
      case Ok(text) => Resolved(text)
      case Err(text) => Rejected(NoTranslation(text))
  }

  lemma LineKeepsInv(s: State, line: Line)
    requires Inv(s)
    ensures Inv(OnLine(s, line)) && Grows(s, OnLine(s, line))
  {
    if s.pending.None? || OnLine(s, line) == s {
    } else if line.Response? && line.success {
      ResponseReceivedKeepsInv(s);
    } else {
      var outcome := LineOutcome(line);
      FinishIsDecided(s, outcome);
      DecidedKeepsInv(s, outcome, false);
    }
  }

  lemma RefusalKeepsInv(s: State)
    requires Inv(s) && TurnReady(s) && s.closed && s.pending.None? && s.started !in s.settled
    ensures Inv(StartNext(s)) && Grows(s, StartNext(s))
  {
    assert StartNext(s) ==
           s.(started := s.started + 1, settled := s.settled[s.started := Rejected(ProcessUnavailable)]);
  }

  lemma SendingKeepsInv(s: State)
    requires Inv(s) && TurnReady(s) && !s.closed && s.pending.None?
    ensures Inv(StartNext(s)) && Grows(s, StartNext(s))
  {
    var t := StartNext(s);
    assert t.timers == {s.requestCount + 1};
    assert forall k :: k in t.sent <==> k in s.sent || k == s.started;
    assert SentInOrder(t);
  }

  lemma TurnKeepsInv(s: State)
    requires Inv(s) && TurnReady(s)
    ensures Inv(Step(s, Turn)) && Grows(s, Step(s, Turn))
  {
    assert s.pending.None? && s.started !in s.settled;
    if s.closed {
      RefusalKeepsInv(s);
    } else {
      SendingKeepsInv(s);
    }
  }

  lemma StepKeepsInv(s: State, e: Event)
    requires Inv(s) && Enabled(s, e)
    ensures Inv(Step(s, e)) && Grows(s, Step(s, e))
  {
    match e
    case Turn => TurnKeepsInv(s);
    case StdoutLine(line) => LineKeepsInv(s, line);
    case TimerFires(id) => TimeoutKeepsInv(s, id);
    case WriteCallback(id, failed) => WriteKeepsInv(s, id, failed);
    case ProcessErrors => RejectKeepsInv(s, ProcessFailed);
    case ProcessCloses =>
      CloseKeepsInv(s);
      RejectKeepsInv(s.(closed := true), ProcessClosed);
    case CloseCalled => CloseKeepsInv(s);
    case Call =>
  }

  /** Every interleaving of calls, lines, timeouts, write errors and process events keeps the invariant. */
  lemma {:induction false} RunKeepsInv(s: State, es: seq<Event>)
    requires Inv(s) && Legal(s, es)
    ensures Inv(After(s, es)) && Grows(s, After(s, es))
    decreases |es|
  {
    if es != [] {
      StepKeepsInv(s, es[0]);
      RunKeepsInv(Step(s, es[0]), es[1..]);
    }
  }

  /** One prompt at a time: when a request is on the wire, all earlier requests have settled. */
  lemma {:induction false} OneAtATime(es: seq<Event>)
    requires Legal(INITIAL, es)
    ensures var s := After(INITIAL, es);
            forall i :: 0 <= i < |s.sent| - 1 ==> s.sent[i] in s.settled
  {
    RunKeepsInv(INITIAL, es);
    var s := After(INITIAL, es);
    forall i | 0 <= i < |s.sent| - 1 ensures s.sent[i] in s.settled {
      assert s.sent[i] < s.sent[|s.sent| - 1];
    }
  }

  lemma ClosedStepSendsNothing(s: State, e: Event)
    requires Inv(s) && s.closed && Enabled(s, e)
    ensures Step(s, e).sent == s.sent
    ensures s.started <= Step(s, e).started <= s.started + 1
    ensures Step(s, e).started == s.started + 1 ==> s.started in Step(s, e).settled
    ensures Step(s, e).started == s.started + 1 ==> Step(s, e).settled[s.started] == Rejected(ProcessUnavailable)
  {
    if e.Turn? {
      assert s.started !in s.settled;
    }
  }

  /** Every call from `first` on whose turn has come was refused unsent. */
  ghost predicate AllRefused(s: State, first: nat) {
    forall k :: first <= k < s.started ==> k in s.settled && s.settled[k] == Rejected(ProcessUnavailable)
  }

  /** Once closed, nothing more is sent, and every later call ends as "process unavailable". */
  lemma {:induction false} ClosedClientSendsNothing(s: State, es: seq<Event>)
    requires Inv(s) && s.closed && Legal(s, es)
    ensures After(s, es).sent == s.sent && After(s, es).closed
    ensures AllRefused(After(s, es), s.started)
    decreases |es|
  {
    if es == [] {
      RunKeepsInv(s, es);
    } else {
      var s1 := Step(s, es[0]);
      assert s1.closed && Inv(s1) by { StepKeepsInv(s, es[0]); }
      ClosedStepSendsNothing(s, es[0]);
      ClosedClientSendsNothing(s1, es[1..]);
      assert Grows(s1, After(s1, es[1..])) by { RunKeepsInv(s1, es[1..]); }
    }
  }

  /** After a timeout the client is closed: every later prompt is refused and never written. */
  lemma {:induction false} TimeoutRefusesLaterPrompts(es: seq<Event>, more: seq<Event>, k: nat)
    requires Legal(INITIAL, es)
    requires var s := After(INITIAL, es); k in s.settled && s.settled[k] == Rejected(TimedOut) && Legal(s, more)
    ensures var s := After(INITIAL, es);
            var t := After(s, more);
            t.sent == s.sent && Grows(s, t) && AllRefused(t, s.started)
  {
    RunKeepsInv(INITIAL, es);
    var s := After(INITIAL, es);
    RunKeepsInv(s, more);
    ClosedClientSendsNothing(s, more);
  }

  /** Events of the client's own machinery: no line, call or process event is needed. */
  predicate Internal(e: Event) {
    e.Turn? || e.TimerFires?
  }

  /** No promise is left hanging: from any reachable state, turns and timers alone settle every call. */
  lemma {:induction false} EveryCallCanSettle(s: State) returns (es: seq<Event>)
    requires Inv(s)
    ensures Legal(s, es) && forall e <- es :: Internal(e)
    ensures After(s, es).calls == s.calls
    ensures forall k: nat :: k < s.calls ==> k in After(s, es).settled
    decreases s.calls - s.started, s.pending.Some?
  {
    if s.pending.Some? {
      var e := TimerFires(s.pending.value.id);
      StepKeepsInv(s, e);
      var rest := EveryCallCanSettle(Step(s, e));
      es := [e] + rest;
      assert es[1..] == rest;
    } else if s.started < s.calls {
      if s.started > 0 {
        assert s.started - 1 in s.settled;
      }
      StepKeepsInv(s, Turn);
      var rest := EveryCallCanSettle(Step(s, Turn));
      es := [Turn] + rest;
      assert es[1..] == rest;
    } else {
      es := [];
    }
  }

  // ---- The client object ----
  //
  // Each method performs one event of the state machine on the object's fields,
  // so `RunKeepsInv` and the theorems above hold of every history of calls.

  class Client {
    var closed: bool
    var pending: Option<PendingPrompt>
    var requestCount: nat
    var calls: nat
    var started: nat
    var settled: map<nat, Settlement>
    var timers: set<nat>
    var heartbeats: set<nat>
    var sent: seq<nat>

    ghost function Abs(): State
      reads this
    {
      State(closed, pending, requestCount, calls, started, settled, timers, heartbeats, sent)
    }

    constructor ()
      ensures Abs() == INITIAL && Inv(Abs())
    {
      closed, pending, requestCount, calls, started := false, None, 0, 0, 0;
      settled, timers, heartbeats, sent := map[], {}, {}, [];
    }

    method SettlePromise(call: nat, outcome: Settlement)
      modifies this`settled
      ensures Abs() == Settle(old(Abs()), call, outcome)
    {
      if call !in settled {
        settled := settled[call := outcome];
      }
    }

    method FinishPending(p: PendingPrompt, outcome: Settlement)
      modifies this`settled, this`timers, this`heartbeats
      ensures Abs() == Finish(old(Abs()), p, outcome)
    {
      timers := timers - {p.id};
      heartbeats := heartbeats - {p.id};
      SettlePromise(p.call, outcome);
    }

    method RejectPendingWith(reason: Failure)
      modifies this
      ensures Abs() == RejectPending(old(Abs()), reason)
    {
      var p := pending;
      pending := None;
      if p.Some? {
        FinishPending(p.value, Rejected(reason));
      }
    }

    /** `threw`: the handler failed on JSON null, which nobody catches, so that the script ends there. */
    method HandleStdoutLine(line: Line) returns (threw: bool)
      modifies this
      ensures Abs() == Step(old(Abs()), StdoutLine(line))
      ensures threw <==> line.JsonNull? && old(pending).Some?
    {
      hide Extract, ResponseError;
      threw := false;
      if line.Blank? || line.NotJson? || pending.None? {
        return;
      }
      var p := pending.value;
      if line.JsonNull? {
        return true;
      }
      match line {
        case Response(id, success, error) =>
          if id != p.id {
            return;
          }
          if !success {
            pending := None;
            FinishPending(p, Rejected(PromptFailed(ResponseError(error))));
            return;
          }
          pending := Some(p.(responseReceived := true));
        case AgentEnd(messages) =>
          var result := ExtractTranslationResult(messages);
          pending := None;
          match result {
            case Ok(text) => FinishPending(p, Resolved(text));
            case Err(text) => FinishPending(p, Rejected(NoTranslation(text)));
          }
        case _ =>
      }
    }

    method Prompt() returns (call: nat)
      modifies this
      ensures call == old(calls) && Abs() == Step(old(Abs()), Call)
    {
      call := calls;
      calls := calls + 1;
    }

    method TakeTurn()
      requires TurnReady(Abs())
      modifies this
      ensures Abs() == Step(old(Abs()), Turn)
    {
      var call := started;
      started := started + 1;
      if closed {
        SettlePromise(call, Rejected(ProcessUnavailable));
        return;
      }
      requestCount := requestCount + 1;
      heartbeats := heartbeats + {requestCount};
      timers := timers + {requestCount};
      pending := Some(PendingPrompt(requestCount, call, false));
      sent := sent + [call];
    }

    method TimerFired(id: nat)
      requires id in timers
      modifies this
      ensures Abs() == Step(old(Abs()), TimerFires(id))
    {
      timers := timers - {id};
      if pending.Some? && pending.value.id == id {
        var call := pending.value.call;
        pending := None;
        heartbeats := heartbeats - {id};
        Close();
        SettlePromise(call, Rejected(TimedOut));
      }
    }

    method WriteDone(id: nat, failed: bool)
      requires 1 <= id <= |sent|
      modifies this
      ensures Abs() == Step(old(Abs()), WriteCallback(id, failed))
    {
      if !failed {
        return;
      }
      timers := timers - {id};
      heartbeats := heartbeats - {id};
      if pending.Some? && pending.value.id == id {
        pending := None;
      }
      SettlePromise(sent[id - 1], Rejected(WriteFailed));
    }

    method ProcessError()
      modifies this
      ensures Abs() == Step(old(Abs()), ProcessErrors)
    {
      RejectPendingWith(ProcessFailed);
    }

    method ProcessClose()
      modifies this
      ensures Abs() == Step(old(Abs()), ProcessCloses)
    {
      closed := true;
      RejectPendingWith(ProcessClosed);
    }

    method Close()
      modifies this`closed
      ensures Abs() == Step(old(Abs()), CloseCalled)
    {
      if closed {
        return;
      }
      closed := true;
    }
  }
}
