// What settles each prompt, read off the history of events alone.
module PromptHistory {
  import opened Wrappers
  import opened PiRpcClient
  import Text

  // ---- The history ----

  function Turns(es: seq<Event>): nat {
    if es == [] then 0 else Turns(es[..|es| - 1]) + if es[|es| - 1].Turn? then 1 else 0
  }

  /** The client is closed by its own close, a timeout, or the end of the process; an error leaves it open. */
  predicate Closes(e: Event) {
    e.CloseCalled? || e.TimerFires? || e.ProcessCloses?
  }

  predicate ClosedIn(es: seq<Event>) {
    exists i :: 0 <= i < |es| && Closes(es[i])
  }

  /** The i-th event is the turn of this call, and the client is open: request `call + 1` goes out. */
  predicate SentAt(es: seq<Event>, call: nat, i: nat) {
    i < |es| && es[i].Turn? && Turns(es[..i]) == call && !ClosedIn(es[..i])
  }

  predicate RefusedAt(es: seq<Event>, call: nat, i: nat) {
    i < |es| && es[i].Turn? && Turns(es[..i]) == call && ClosedIn(es[..i])
  }

  /** Events that settle the request if nothing has settled it yet. */
  predicate Decides(e: Event, id: nat) {
    match e
    case StdoutLine(Response(responseId, success, _)) => responseId == id && !success
    case StdoutLine(AgentEnd(_)) => true
    case TimerFires(timerId) => timerId == id
    case WriteCallback(writeId, failed) => writeId == id && failed
    case ProcessErrors => true
    case ProcessCloses => true
    case _ => false
  }

  /** How a deciding event settles the request. */
  function Decision(e: Event): Settlement
    requires exists id :: Decides(e, id)
  {
    match e
    case StdoutLine(Response(_, _, error)) =>
      Rejected(PromptFailed(
        if error.Some? && Text.Trim(error.value) != "" then Text.Trim(error.value) else "pi prompt failed"))
    case StdoutLine(AgentEnd(messages)) =>
      var text := Extract(messages);
      if text.Ok? then Resolved(text.value) else Rejected(NoTranslation(text.error))
    case TimerFires(_) => Rejected(TimedOut)
    case WriteCallback(_, _) => Rejected(WriteFailed)
    case ProcessErrors => Rejected(ProcessFailed)
    case ProcessCloses => Rejected(ProcessClosed)
  }

  /** The request of the call is still open after these events. */
  predicate Undecided(es: seq<Event>, call: nat, i: nat) {
    SentAt(es, call, i) && forall j :: i < j < |es| ==> !Decides(es[j], call + 1)
  }

  /** Request `call + 1` went out with event i, and event j is the first after it that decides it. */
  predicate DecidedBy(es: seq<Event>, call: nat, i: nat, j: nat) {
    i < j < |es| && Undecided(es[..j], call, i) && Decides(es[j], call + 1)
  }

  /** How many turns found the client open. */
  function Requests(es: seq<Event>): nat {
    if es == [] then 0
    else Requests(es[..|es| - 1]) + if es[|es| - 1].Turn? && !ClosedIn(es[..|es| - 1]) then 1 else 0
  }

  // ---- The same, event by event ----

  function Fate(es: seq<Event>, call: nat): Option<Settlement> {
    if es == [] then None
    else
      var before, e := es[..|es| - 1], es[|es| - 1];
      if Fate(before, call).Some? then Fate(before, call)
      else if call < Turns(before) then if Decides(e, call + 1) then Some(Decision(e)) else None
      else if call == Turns(before) && e.Turn? && ClosedIn(before) then Some(Rejected(ProcessUnavailable))
      else None
  }

  /** The last turn's request has been acknowledged. */
  predicate Acknowledged(es: seq<Event>) {
    es != [] && !es[|es| - 1].Turn? &&
    (Acknowledged(es[..|es| - 1])
     || (es[|es| - 1].StdoutLine? && es[|es| - 1].line.Response? && es[|es| - 1].line.success
         && es[|es| - 1].line.id == Turns(es[..|es| - 1])))
  }

  ghost predicate Tells(es: seq<Event>, s: State) {
    && s.started == Turns(es) && s.closed == ClosedIn(es)
    && s.requestCount == |s.sent| == Requests(es) && (forall i :: 0 <= i < |s.sent| ==> s.sent[i] == i)
    && (!s.closed ==> s.requestCount == s.started)
    && (s.pending.Some? ==>
          s.started > 0 && s.pending.value == PendingPrompt(s.started, s.started - 1, Acknowledged(es)))
    && (forall call: nat :: (call in s.settled <==> Fate(es, call).Some?))
    && (forall call: nat :: call in s.settled ==> Some(s.settled[call]) == Fate(es, call))
  }

  lemma ClosedAppend(es: seq<Event>, e: Event)
    ensures ClosedIn(es + [e]) <==> ClosedIn(es) || Closes(e)
  {
    if ClosedIn(es) {
      var i :| 0 <= i < |es| && Closes(es[i]);
      assert Closes((es + [e])[i]);
    }
    if Closes(e) {
      assert Closes((es + [e])[|es|]);
    }
  }

  lemma {:induction false} FateAppend(es: seq<Event>, e: Event, call: nat)
    ensures Fate(es + [e], call)
         == if Fate(es, call).Some? then Fate(es, call)
            else if call < Turns(es) then if Decides(e, call + 1) then Some(Decision(e)) else None
            else if call == Turns(es) && e.Turn? && ClosedIn(es) then Some(Rejected(ProcessUnavailable))
            else None
    ensures Turns(es + [e]) == Turns(es) + if e.Turn? then 1 else 0
    ensures Requests(es + [e]) == Requests(es) + if e.Turn? && !ClosedIn(es) then 1 else 0
    ensures Acknowledged(es + [e])
       <==> !e.Turn? && (Acknowledged(es)
                         || (e.StdoutLine? && e.line.Response? && e.line.success && e.line.id == Turns(es)))
  {
    assert (es + [e])[..|es|] == es;
  }

  lemma StepCounts(s: State, e: Event)
    requires Inv(s) && Enabled(s, e)
    ensures Step(s, e).closed <==> s.closed || Closes(e)
    ensures Step(s, e).started == s.started + if e.Turn? then 1 else 0
    ensures Step(s, e).requestCount == s.requestCount + if e.Turn? && !s.closed then 1 else 0
    ensures Step(s, e).sent == s.sent + if e.Turn? && !s.closed then [s.started] else []
  {
    hide Extract, ResponseError, SentInOrder, PromisesMatchSlot;
  }

  /** What one event does: it settles the pending prompt, refuses a turn, or settles nothing. */
  lemma StepSettles(s: State, e: Event)
    requires Inv(s) && Enabled(s, e)
    ensures Step(s, e).settled
         == if s.pending.Some? && Decides(e, s.pending.value.id) then
              s.settled[s.pending.value.call := Decision(e)]
            else if e.Turn? && s.closed then s.settled[s.started := Rejected(ProcessUnavailable)]
            else s.settled
    ensures Step(s, e).pending
         == if s.pending.Some? then
              if Decides(e, s.pending.value.id) then None
              else if e.StdoutLine? && e.line.Response? && e.line.success && e.line.id == s.pending.value.id then
                Some(s.pending.value.(responseReceived := true))
              else s.pending
            else if e.Turn? && !s.closed then Some(PendingPrompt(s.requestCount + 1, s.started, false))
            else None
  {
    hide Extract, Text.Trim;
    match e
    case WriteCallback(id, failed) =>
      if failed && (s.pending.None? || s.pending.value.id != id) {
        LateWriteErrorIsSilent(s, id);
      }
    case _ =>
  }

  lemma {:induction false} FateStep(es: seq<Event>, s: State, e: Event, call: nat)
    requires Inv(s) && Enabled(s, e) && Tells(es, s)
    ensures call in Step(s, e).settled <==> Fate(es + [e], call).Some?
    ensures call in Step(s, e).settled ==> Some(Step(s, e).settled[call]) == Fate(es + [e], call)
  {
    hide Step, ClosedIn, Turns, Requests, Acknowledged, Fate, Decides, Decision, TimersMatchSlot, SentInOrder;
    FateAppend(es, e, call);
    StepSettles(s, e);
    assert call in s.settled <==> Fate(es, call).Some?;
  }

  lemma StepTells(es: seq<Event>, s: State, e: Event)
    requires Inv(s) && Enabled(s, e) && Tells(es, s)
    ensures Tells(es + [e], Step(s, e))
  {
    hide Step, ClosedIn, Turns, Requests, Acknowledged, Fate, Decides, Decision, TimersMatchSlot, SentInOrder;
    ClosedAppend(es, e);
    FateAppend(es, e, 0);
    StepCounts(s, e);
    StepSettles(s, e);
    var t := Step(s, e);
    forall call: nat
      ensures call in t.settled <==> Fate(es + [e], call).Some?
      ensures call in t.settled ==> Some(t.settled[call]) == Fate(es + [e], call)
    {
      FateStep(es, s, e, call);
    }
  }

  lemma {:induction false} AppendStep(s: State, es: seq<Event>, e: Event)
    requires Legal(s, es + [e])
    ensures Legal(s, es) && Enabled(After(s, es), e) && After(s, es + [e]) == Step(After(s, es), e)
    decreases |es|
  {
    if es == [] {
      assert ([] + [e])[1..] == [];
    } else {
      assert (es + [e])[1..] == es[1..] + [e];
      AppendStep(Step(s, es[0]), es[1..], e);
    }
  }

  /** Every history tells the state: who has settled and how, who is pending, and whether the client is closed. */
  lemma {:induction false} HistoryTells(es: seq<Event>)
    requires Legal(INITIAL, es)
    ensures Tells(es, After(INITIAL, es))
  {
    if es != [] {
      var before, e := es[..|es| - 1], es[|es| - 1];
      assert es == before + [e];
      AppendStep(INITIAL, before, e);
      HistoryTells(before);
      RunKeepsInv(INITIAL, before);
      StepTells(before, After(INITIAL, before), e);
    }
  }

  // ---- The laws ----

  lemma {:induction false} TurnsPrefix(es: seq<Event>, n: nat)
    requires n <= |es|
    ensures Turns(es[..n]) <= Turns(es)
    ensures n < |es| && es[n].Turn? ==> Turns(es[..n]) < Turns(es)
  {
    if n == |es| {
      assert es[..n] == es;
    } else {
      var before := es[..|es| - 1];
      assert before[..n] == es[..n];
      TurnsPrefix(before, n);
    }
  }

  lemma {:induction false} NoFateYet(es: seq<Event>, call: nat)
    requires Turns(es) <= call
    ensures Fate(es, call) == None
  {
    if es != [] {
      NoFateYet(es[..|es| - 1], call);
    }
  }

  lemma {:induction false} FatePrefix(es: seq<Event>, n: nat, call: nat)
    requires n <= |es| && Fate(es[..n], call).Some?
    ensures Fate(es, call) == Fate(es[..n], call)
  {
    if n == |es| {
      assert es[..n] == es;
    } else {
      assert es[..|es| - 1][..n] == es[..n];
      FatePrefix(es[..|es| - 1], n, call);
    }
  }

  lemma {:induction false} UndecidedHasNoFate(es: seq<Event>, call: nat, i: nat)
    requires Undecided(es, call, i)
    ensures Fate(es, call) == None && call < Turns(es)
  {
    TurnsPrefix(es, i);
    var before := es[..|es| - 1];
    if i < |before| {
      assert before[..i] == es[..i];
      UndecidedHasNoFate(before, call, i);
    } else {
      NoFateYet(before, call);
    }
  }

  /**
    * Once its request has gone out, a prompt is settled by the first of its own refusal, an `agent_end`, its
    * timeout, its write error, and the failing or closing of the process, as that event says.
    */
  lemma {:induction false} FirstDecisionSettles(es: seq<Event>, call: nat, i: nat, j: nat)
    requires Legal(INITIAL, es) && DecidedBy(es, call, i, j)
    ensures var s := After(INITIAL, es); call in s.settled && s.settled[call] == Decision(es[j])
  {
    hide Decision, Decides, Undecided;
    HistoryTells(es);
    UndecidedHasNoFate(es[..j], call, i);
    assert es[..j + 1] == es[..j] + [es[j]];
    FateAppend(es[..j], es[j], call);
    FatePrefix(es, j + 1, call);
  }

  lemma {:induction false} TellsOf(es: seq<Event>, s: State, call: nat)
    requires Tells(es, s) && PromisesMatchSlot(s) && Fate(es, call) == None && call < Turns(es)
    ensures call !in s.settled && s.pending == Some(PendingPrompt(call + 1, call, Acknowledged(es)))
  {
  }

  /** And nothing else settles it: no event without a decision for it, a line with another id in particular. */
  lemma {:induction false} UndecidedStaysPending(es: seq<Event>, call: nat, i: nat)
    requires Legal(INITIAL, es) && Undecided(es, call, i)
    ensures var s := After(INITIAL, es);
            && call !in s.settled
            && s.pending == Some(PendingPrompt(call + 1, call, Acknowledged(es)))
  {
    HistoryTells(es);
    RunKeepsInv(INITIAL, es);
    UndecidedHasNoFate(es, call, i);
    hide Tells, Legal, After, Acknowledged;
    var s := After(INITIAL, es);
    TellsOf(es, s, call);
  }

  lemma {:induction false} RequestsOf(es: seq<Event>, call: nat, i: nat)
    requires i < |es| && es[i].Turn? && Turns(es[..i]) == call
    requires !ClosedIn(es[..i]) ==> Requests(es[..i]) == call
    requires Requests(es[..i]) <= call
    ensures call < Requests(es) <==> !ClosedIn(es[..i])
  {
    var before, last := es[..|es| - 1], es[|es| - 1];
    if i < |before| {
      assert before[..i] == es[..i];
      RequestsOf(before, call, i);
      if ClosedIn(es[..i]) {
        var c :| 0 <= c < i && Closes(es[..i][c]);
        assert Closes(before[c]);
      }
    }
  }

  lemma {:induction false} LegalPrefix(es: seq<Event>, n: nat)
    requires Legal(INITIAL, es) && n <= |es|
    ensures Legal(INITIAL, es[..n])
    decreases |es|
  {
    if n == |es| {
      assert es[..n] == es;
    } else {
      var before := es[..|es| - 1];
      assert es == before + [es[|es| - 1]] && before[..n] == es[..n];
      AppendStep(INITIAL, before, es[|es| - 1]);
      LegalPrefix(before, n);
    }
  }

  lemma {:induction false} TurnFound(es: seq<Event>, call: nat, i: nat)
    requires Legal(INITIAL, es) && i < |es| && es[i].Turn? && Turns(es[..i]) == call
    ensures !ClosedIn(es[..i]) ==> Requests(es[..i]) == call
    ensures Requests(es[..i]) <= call
  {
    LegalPrefix(es, i);
    HistoryTells(es[..i]);
    RunKeepsInv(INITIAL, es[..i]);
    var s := After(INITIAL, es[..i]);
    hide Legal, After, ClosedIn, Turns, Requests;
    if |s.sent| > 0 {
      assert s.sent[|s.sent| - 1] < s.started;
    }
  }

  /** A prompt whose turn finds the client closed is refused there and then, and its request is never written. */
  lemma {:induction false} ClosedClientRefuses(es: seq<Event>, call: nat, i: nat)
    requires Legal(INITIAL, es) && RefusedAt(es, call, i)
    ensures var s := After(INITIAL, es);
            call in s.settled && s.settled[call] == Rejected(ProcessUnavailable) && call !in s.sent
  {
    HistoryTells(es);
    TurnFound(es, call, i);
    RequestsOf(es, call, i);
    hide ClosedIn, Decides, Decision, Requests;
    assert es[..i + 1] == es[..i] + [es[i]];
    NoFateYet(es[..i], call);
    FateAppend(es[..i], es[i], call);
    FatePrefix(es, i + 1, call);
  }

  lemma {:induction false} TurnOf(es: seq<Event>, call: nat) returns (i: nat)
    requires call < Turns(es)
    ensures i < |es| && es[i].Turn? && Turns(es[..i]) == call
  {
    var before := es[..|es| - 1];
    if call < Turns(before) {
      i := TurnOf(before, call);
      assert before[..i] == es[..i];
    } else {
      i := |es| - 1;
    }
  }

  lemma {:induction false} FirstDecision(es: seq<Event>, call: nat, i: nat) returns (j: nat)
    requires SentAt(es, call, i) && !Undecided(es, call, i)
    ensures DecidedBy(es, call, i, j)
  {
    var before := es[..|es| - 1];
    var d :| i < d < |es| && Decides(es[d], call + 1);
    assert before[..i] == es[..i];
    hide ClosedIn, Decides;
    if Undecided(before, call, i) {
      j := |es| - 1;
    } else {
      j := FirstDecision(before, call, i);
      assert before[..j] == es[..j];
    }
  }

  /** The request of the call was written, and the first event to decide it, if there is one, settled the promise. */
  ghost predicate Accounted(es: seq<Event>, s: State, call: nat, i: nat) {
    SentAt(es, call, i) && call in s.sent &&
    if call in s.settled
    then exists j: nat :: DecidedBy(es, call, i, j) && s.settled[call] == Decision(es[j])
    else Undecided(es, call, i)
  }

  /**
    * These are all the cases: a prompt before its turn is not settled; after its turn it was refused by a closed
    * client, or its request went out and it is settled as its first deciding event says, or not at all.
    */
  lemma {:induction false} EveryPromptIsAccounted(es: seq<Event>, call: nat)
    requires Legal(INITIAL, es)
    ensures Turns(es) <= call ==> call !in After(INITIAL, es).settled && call !in After(INITIAL, es).sent
    ensures call < Turns(es) ==>
      exists i :: RefusedAt(es, call, i) || Accounted(es, After(INITIAL, es), call, i)
  {
    HistoryTells(es);
    RunKeepsInv(INITIAL, es);
    var s := After(INITIAL, es);
    hide Decision, Decides, ClosedIn, Turns, Requests;
    if call < Turns(es) {
      var i := TurnOf(es, call);
      if SentAt(es, call, i) {
        TurnFound(es, call, i);
        RequestsOf(es, call, i);
        assert s.sent[call] == call;
        if Undecided(es, call, i) {
          UndecidedStaysPending(es, call, i);
        } else {
          var j := FirstDecision(es, call, i);
          FirstDecisionSettles(es, call, i, j);
        }
        assert Accounted(es, s, call, i);
      } else {
        assert RefusedAt(es, call, i);
      }
    }
  }
}
