// One locale's translation session: a driver that asks one prompt at a time,
// the clients it creates and closes, and the pi processes behind them.
//
// An `agent_end` line carries no request id, so nothing in a single client
// matches answers to prompts.  What keeps them apart is the driver: it closes
// the client after every failure and asks the next prompt of a new one.
module Session {
  import opened Wrappers
  import opened PiRpcClient

  type Replies = (nat, nat) -> seq<Message>   // (client, request id) to what pi answers

  /** A client together with the requests its process has answered so far. */
  datatype Wire = Wire(client: State, answered: set<nat>)

  datatype PiEvent =
    | Answer(request: nat)     // pi reports the end of its work on this request
    | Other(event: Event)      // any other event of the client

  datatype Driver = Fresh | Waiting | Live | Broken

  datatype Session = Session(wires: seq<Wire>, driver: Driver)

  datatype SessionEvent =
    | Ask                        // getClient(), then prompt()
    | CreateFails                // getClient() cannot start a new pi
    | Await(usable: bool)        // the prompt settled; was its text a full set of translations?
    | Reset                      // resetClient()
    | Process(wire: nat, event: PiEvent)

  const START := Session([], Fresh)

  // ---- One wire ----

  /** pi ends a request at most once, and only after it was sent; prompt() and close() are the driver's. */
  predicate WireEnabled(w: Wire, e: PiEvent) {
    match e
    case Answer(request) => 1 <= request <= |w.client.sent| && request !in w.answered
    case Other(event) =>
      Enabled(w.client, event) && !event.Call? && !event.CloseCalled? &&
      !(event.StdoutLine? && event.line.AgentEnd?)
  }

  function WireStep(w: Wire, e: PiEvent, replies: Replies, wire: nat): Wire
    requires WireEnabled(w, e)
  {
    match e
    case Answer(request) => Wire(OnLine(w.client, AgentEnd(replies(wire, request))), w.answered + {request})
    case Other(event) => Wire(Step(w.client, event), w.answered)
  }

  predicate ResolvedCall(s: State, call: nat) {
    call in s.settled && s.settled[call].Resolved?
  }

  ghost predicate ResolvedBelow(settled: map<nat, Settlement>, bound: int) {
    forall k: nat :: k < bound ==> k in settled && settled[k].Resolved?
  }

  /** Each resolved prompt was resolved by the text pi gave for that very request. */
  ghost predicate OwnAnswers(s: State, replies: Replies, wire: nat) {
    forall i: nat :: i < |s.sent| && ResolvedCall(s, s.sent[i]) ==>
                       Extract(replies(wire, i + 1)) == Ok(s.settled[s.sent[i]].text)
  }

  /** Each resolved request has had its answer. */
  ghost predicate AnswersSpent(w: Wire) {
    forall i: nat :: i < |w.client.sent| && ResolvedCall(w.client, w.client.sent[i]) ==> i + 1 in w.answered
  }

  /** Every call but the last has resolved with its own answer, and answers are spent as they come. */
  ghost predicate WireInv(w: Wire, replies: Replies, wire: nat) {
    && Inv(w.client)
    && ResolvedBelow(w.client.settled, w.client.calls - 1)
    && AnswersSpent(w)
    && OwnAnswers(w.client, replies, wire)
  }

  /** The only answer still due while a prompt is pending is the pending prompt's own. */
  lemma AnswerIsOwn(w: Wire, replies: Replies, wire: nat, request: nat)
    requires WireInv(w, replies, wire) && WireEnabled(w, Answer(request)) && w.client.pending.Some?
    ensures request == w.client.pending.value.id
  {
    var s := w.client;
    forall i: nat | i < |s.sent| - 1 ensures ResolvedCall(s, s.sent[i]) {
      assert s.sent[i] < s.sent[|s.sent| - 1];
    }
    var asked := s.sent[request - 1];
    assert asked == s.pending.value.call || ResolvedCall(s, asked);
  }

  lemma DecidingKeepsAnswers(w: Wire, replies: Replies, wire: nat, outcome: Settlement)
    requires w.client.pending.Some? && AnswersSpent(w) && OwnAnswers(w.client, replies, wire)
    requires ResolvedBelow(w.client.settled, w.client.calls - 1)
    requires var s := w.client;
             && |s.sent| > 0 && s.pending.value.id == |s.sent| && s.sent[|s.sent| - 1] == s.pending.value.call
             && s.pending.value.call !in s.settled
             && (forall i :: 0 <= i < |s.sent| - 1 ==> s.sent[i] < s.sent[|s.sent| - 1])
    requires outcome.Resolved? ==> Extract(replies(wire, w.client.pending.value.id)) == Ok(outcome.text)
    ensures var t := Decided(w.client, outcome, false);
            && OwnAnswers(t, replies, wire)
            && AnswersSpent(Wire(t, w.answered + {w.client.pending.value.id}))
            && ResolvedBelow(t.settled, t.calls - 1)
  {
    var s := w.client;
    var t := Decided(s, outcome, false);
    forall i: nat | i < |s.sent| - 1 ensures ResolvedCall(t, t.sent[i]) <==> ResolvedCall(s, s.sent[i]) {
    }
  }

  lemma AnswerKeepsWireInv(w: Wire, replies: Replies, wire: nat, request: nat)
    requires WireInv(w, replies, wire) && WireEnabled(w, Answer(request))
    ensures WireInv(WireStep(w, Answer(request), replies, wire), replies, wire)
  {
    var s := w.client;
    var line := AgentEnd(replies(wire, request));
    assert Inv(OnLine(s, line)) by { LineKeepsInv(s, line); }
    if s.pending.Some? {
      AnswerIsOwn(w, replies, wire, request);
      FinishIsDecided(s, LineOutcome(line));
      DecidingKeepsAnswers(w, replies, wire, LineOutcome(line));
    }
  }

  /** Settled promises stay as they are, and the newly settled ones are rejections. */
  ghost predicate OnlyRejects(before: map<nat, Settlement>, after: map<nat, Settlement>) {
    && (forall k :: k in before ==> k in after && after[k] == before[k])
    && (forall k :: k in after && k !in before ==> after[k].Rejected?)
  }

  lemma RejectRejectsAtMost(s: State, reason: Failure)
    ensures var t := RejectPending(s, reason);
            t.calls == s.calls && t.sent == s.sent && OnlyRejects(s.settled, t.settled)
  {
  }

  lemma FinishRejectsAtMost(s: State, p: PendingPrompt, reason: Failure)
    ensures var t := Finish(s, p, Rejected(reason));
            t.calls == s.calls && t.sent == s.sent && OnlyRejects(s.settled, t.settled)
  {
  }

  lemma LineRejectsAtMost(s: State, line: Line)
    requires !line.AgentEnd?
    ensures var t := OnLine(s, line);
            t.calls == s.calls && t.sent == s.sent && OnlyRejects(s.settled, t.settled)
  {
    if s.pending.Some? && line.Response? && line.id == s.pending.value.id && !line.success {
      FinishRejectsAtMost(s.(pending := None), s.pending.value, PromptFailed(ResponseError(line.error)));
    } else {
      assert OnLine(s, line).settled == s.settled;
    }
  }

  /** An event other than an answer resolves no promise. */
  lemma OtherRejectsAtMost(s: State, e: Event)
    requires WireEnabled(Wire(s, {}), Other(e))
    ensures var t := Step(s, e);
            && t.calls == s.calls
            && (t.sent == s.sent || (e.Turn? && t.sent == s.sent + [s.started]))
            && OnlyRejects(s.settled, t.settled)
  {
    match e
    case StdoutLine(line) => LineRejectsAtMost(s, line);
    case Turn =>
    case TimerFires(_) =>
    case WriteCallback(_, _) =>
    case ProcessErrors => RejectRejectsAtMost(s, ProcessFailed);
    case ProcessCloses => RejectRejectsAtMost(s.(closed := true), ProcessClosed);
  }

  lemma RejectingKeepsAnswers(w: Wire, t: State, replies: Replies, wire: nat)
    requires AnswersSpent(w) && OwnAnswers(w.client, replies, wire)
    requires t.calls == w.client.calls && ResolvedBelow(w.client.settled, w.client.calls - 1)
    requires t.sent == w.client.sent || exists call ::
               t.sent == w.client.sent + [call] && !ResolvedCall(t, call)
    requires OnlyRejects(w.client.settled, t.settled)
    ensures OwnAnswers(t, replies, wire) && AnswersSpent(Wire(t, w.answered))
    ensures ResolvedBelow(t.settled, t.calls - 1)
    ensures ResolvedBelow(w.client.settled, w.client.calls) ==> ResolvedBelow(t.settled, t.calls)
  {
    var s := w.client;
    forall i: nat | i < |t.sent| && ResolvedCall(t, t.sent[i])
      ensures i < |s.sent| && s.sent[i] == t.sent[i] && ResolvedCall(s, s.sent[i])
    {
    }
  }

  lemma OtherKeepsWireInv(w: Wire, replies: Replies, wire: nat, e: Event)
    requires WireInv(w, replies, wire) && WireEnabled(w, Other(e))
    ensures WireInv(WireStep(w, Other(e), replies, wire), replies, wire)
    ensures Step(w.client, e).calls == w.client.calls
    ensures ResolvedBelow(w.client.settled, w.client.calls) ==> ResolvedBelow(Step(w.client, e).settled, w.client.calls)
  {
    var s, t := w.client, Step(w.client, e);
    assert Inv(t) by { StepKeepsInv(s, e); }
    OtherRejectsAtMost(s, e);
    assert e.Turn? ==> s.started !in s.settled && (s.started in t.settled ==> t.settled[s.started].Rejected?);
    RejectingKeepsAnswers(w, t, replies, wire);
  }

  // ---- The whole session ----

  function LastWire(s: Session): nat
    requires s.wires != []
  {
    |s.wires| - 1
  }

  /** The next prompt may be asked of a new client, or of one that has only had successes. */
  predicate MayAsk(driver: Driver) {
    driver == Fresh || driver == Live
  }

  predicate SessionEnabled(s: Session, e: SessionEvent) {
    match e
    case Ask => MayAsk(s.driver) && (s.driver == Live ==> s.wires != [])
    case CreateFails => s.driver == Fresh
    case Await(_) =>
      s.driver == Waiting && s.wires != [] &&
      var c := s.wires[LastWire(s)].client; c.calls > 0 && c.calls - 1 in c.settled
    case Reset => s.driver != Waiting
    case Process(wire, event) => wire < |s.wires| && WireEnabled(s.wires[wire], event)
  }

  function OnClient(w: Wire, e: Event): Wire
    requires Enabled(w.client, e)
  {
    w.(client := Step(w.client, e))
  }

  function SessionStep(s: Session, e: SessionEvent, replies: Replies): Session
    requires SessionEnabled(s, e)
  {
    match e
    case Ask =>
      if s.driver == Fresh then Session(s.wires + [OnClient(Wire(INITIAL, {}), Call)], Waiting)
      else Session(s.wires[LastWire(s) := OnClient(s.wires[LastWire(s)], Call)], Waiting)
    case CreateFails => s.(driver := Broken)
    case Await(usable) =>
      var c := s.wires[LastWire(s)].client;
      s.(driver := if c.settled[c.calls - 1].Resolved? && usable then Live else Broken)
    case Reset =>
      // after a failed creation there is no client, and the last one is closed already
      if s.driver == Fresh || s.wires == [] then s.(driver := Fresh)
      else Session(s.wires[LastWire(s) := OnClient(s.wires[LastWire(s)], CloseCalled)], Fresh)
    case Process(wire, event) =>
      s.(wires := s.wires[wire := WireStep(s.wires[wire], event, replies, wire)])
  }

  ghost predicate SessionLegal(s: Session, es: seq<SessionEvent>, replies: Replies)
    decreases |es|
  {
    es == [] || (SessionEnabled(s, es[0]) && SessionLegal(SessionStep(s, es[0], replies), es[1..], replies))
  }

  ghost function SessionAfter(s: Session, es: seq<SessionEvent>, replies: Replies): Session
    requires SessionLegal(s, es, replies)
    decreases |es|
  {
    if es == [] then s else SessionAfter(SessionStep(s, es[0], replies), es[1..], replies)
  }

  ghost predicate SessionInv(s: Session, replies: Replies) {
    && (forall i: nat :: i < |s.wires| ==> WireInv(s.wires[i], replies, i))
    && (s.driver == Live && s.wires != [] ==>
          var c := s.wires[LastWire(s)].client; ResolvedBelow(c.settled, c.calls))
  }

  lemma CallKeepsWireInv(w: Wire, replies: Replies, wire: nat)
    requires WireInv(w, replies, wire) && ResolvedBelow(w.client.settled, w.client.calls)
    ensures WireInv(OnClient(w, Call), replies, wire)
  {
    var t := OnClient(w, Call);
    assert Inv(t.client) by { StepKeepsInv(w.client, Call); }
    RejectingKeepsAnswers(w, w.client, replies, wire);
    assert forall i: nat :: i < |t.client.sent| ==>
      (ResolvedCall(t.client, t.client.sent[i]) <==> ResolvedCall(w.client, w.client.sent[i]));
  }

  lemma CloseKeepsWireInv(w: Wire, replies: Replies, wire: nat)
    requires WireInv(w, replies, wire)
    ensures WireInv(OnClient(w, CloseCalled), replies, wire)
  {
    assert Inv(Step(w.client, CloseCalled)) by { StepKeepsInv(w.client, CloseCalled); }
    RejectingKeepsAnswers(w, Step(w.client, CloseCalled), replies, wire);
  }

  lemma WireStepKeepsInv(w: Wire, event: PiEvent, replies: Replies, wire: nat)
    requires WireInv(w, replies, wire) && WireEnabled(w, event)
    ensures var t := WireStep(w, event, replies, wire);
            && WireInv(t, replies, wire) && t.client.calls == w.client.calls
            && (ResolvedBelow(w.client.settled, w.client.calls) ==> ResolvedBelow(t.client.settled, t.client.calls))
  {
    if event.Answer? {
      AnswerKeepsWireInv(w, replies, wire, event.request);
      var line := AgentEnd(replies(wire, event.request));
      assert Grows(w.client, OnLine(w.client, line)) by { LineKeepsInv(w.client, line); }
      assert OnLine(w.client, line).calls == w.client.calls;
    } else {
      OtherKeepsWireInv(w, replies, wire, event.event);
    }
  }

  lemma ProcessKeepsInv(s: Session, wire: nat, event: PiEvent, replies: Replies)
    requires SessionInv(s, replies) && SessionEnabled(s, Process(wire, event))
    ensures SessionInv(SessionStep(s, Process(wire, event), replies), replies)
  {
    WireStepKeepsInv(s.wires[wire], event, replies, wire);
  }

  lemma AskKeepsInv(s: Session, replies: Replies)
    requires SessionInv(s, replies) && SessionEnabled(s, Ask)
    ensures SessionInv(SessionStep(s, Ask, replies), replies)
  {
    var t := SessionStep(s, Ask, replies);
    var i := LastWire(t);
    var w := if s.driver == Fresh then Wire(INITIAL, {}) else s.wires[i];
    assert WireInv(w, replies, i);
    CallKeepsWireInv(w, replies, i);
    assert t.wires[i] == OnClient(w, Call);
  }

  lemma ResetKeepsInv(s: Session, replies: Replies)
    requires SessionInv(s, replies) && SessionEnabled(s, Reset)
    ensures SessionInv(SessionStep(s, Reset, replies), replies)
  {
    if s.driver != Fresh && s.wires != [] {
      CloseKeepsWireInv(s.wires[LastWire(s)], replies, LastWire(s));
    }
  }

  lemma AwaitKeepsInv(s: Session, usable: bool, replies: Replies)
    requires SessionInv(s, replies) && SessionEnabled(s, Await(usable))
    ensures SessionInv(SessionStep(s, Await(usable), replies), replies)
  {
    assert WireInv(s.wires[LastWire(s)], replies, LastWire(s));
  }

  lemma SessionStepKeepsInv(s: Session, e: SessionEvent, replies: Replies)
    requires SessionInv(s, replies) && SessionEnabled(s, e)
    ensures SessionInv(SessionStep(s, e, replies), replies)
  {
    match e
    case Ask => AskKeepsInv(s, replies);
    case CreateFails =>
    case Reset => ResetKeepsInv(s, replies);
    case Await(usable) => AwaitKeepsInv(s, usable, replies);
    case Process(wire, event) => ProcessKeepsInv(s, wire, event, replies);
  }

  lemma {:induction false} SessionRunKeepsInv(s: Session, es: seq<SessionEvent>, replies: Replies)
    requires SessionInv(s, replies) && SessionLegal(s, es, replies)
    ensures SessionInv(SessionAfter(s, es, replies), replies)
    decreases |es|
  {
    if es != [] {
      SessionStepKeepsInv(s, es[0], replies);
      SessionRunKeepsInv(SessionStep(s, es[0], replies), es[1..], replies);
    }
  }

  /** Answers never cross: in every run, a text that resolves a prompt is pi's answer to that prompt. */
  lemma {:induction false} AnswersNeverCross(es: seq<SessionEvent>, replies: Replies, wire: nat, i: nat)
    requires SessionLegal(START, es, replies)
    requires var s := SessionAfter(START, es, replies);
             wire < |s.wires| && i < |s.wires[wire].client.sent| &&
             ResolvedCall(s.wires[wire].client, s.wires[wire].client.sent[i])
    ensures var c := SessionAfter(START, es, replies).wires[wire].client;
            Extract(replies(wire, i + 1)) == Ok(c.settled[c.sent[i]].text)
  {
    SessionRunKeepsInv(START, es, replies);
    var s := SessionAfter(START, es, replies);
    assert WireInv(s.wires[wire], replies, wire);
  }

  // ---- Without the reset ----

  /** A client that could be asked again: open, and with no call outstanding. */
  ghost predicate Idle(w: Wire) {
    Inv(w.client) && w.client.pending.None? && !w.client.closed && w.client.started == w.client.calls
  }

  /** The next prompt of an idle client, sent straight away. */
  function AskAgain(w: Wire): Wire
    requires Idle(w)
  {
    OnClient(OnClient(w, Call), Turn)
  }

  /** Whatever may happen next to a client nobody resets: pi's answers, and any event, further calls included. */
  predicate MayHappen(w: Wire, e: PiEvent) {
    match e
    case Answer(request) => 1 <= request <= |w.client.sent| && request !in w.answered
    case Other(event) => Enabled(w.client, event) && !(event.StdoutLine? && event.line.AgentEnd?)
  }

  function Happens(w: Wire, e: PiEvent, replies: Replies, wire: nat): Wire
    requires MayHappen(w, e)
  {
    match e
    case Answer(request) => Wire(OnLine(w.client, AgentEnd(replies(wire, request))), w.answered + {request})
    case Other(event) => Wire(Step(w.client, event), w.answered)
  }

  ghost predicate Possible(w: Wire, es: seq<PiEvent>, replies: Replies, wire: nat)
    decreases |es|
  {
    es == [] || (MayHappen(w, es[0]) && Possible(Happens(w, es[0], replies, wire), es[1..], replies, wire))
  }

  ghost function AfterAll(w: Wire, es: seq<PiEvent>, replies: Replies, wire: nat): Wire
    requires Possible(w, es, replies, wire)
    decreases |es|
  {
    if es == [] then w else AfterAll(Happens(w, es[0], replies, wire), es[1..], replies, wire)
  }

  /** pi still owes this request an answer, and the answer will be a text. */
  predicate OwesText(w: Wire, request: nat, replies: Replies, wire: nat) {
    1 <= request <= |w.client.sent| && request !in w.answered && Extract(replies(wire, request)).Ok?
  }

  /** After the continuation the prompt just asked is open, and the late answer to an earlier request resolves it. */
  ghost predicate CrossesOver(w: Wire, es: seq<PiEvent>, late: nat, replies: Replies, wire: nat)
    requires Idle(w)
  {
    && late <= |w.client.sent|
    && Possible(AskAgain(w), es, replies, wire)
    && var before := AfterAll(AskAgain(w), es, replies, wire);
       MayHappen(before, Answer(late)) && w.client.calls !in before.client.settled
       && ResolvedCall(Happens(before, Answer(late), replies, wire).client, w.client.calls)
  }

  /** What stays true of the prompt asked again, whatever happens. */
  ghost predicate Reasked(w: Wire, t: Wire, replies: Replies, wire: nat) {
    var call, id := w.client.calls, |w.client.sent| + 1;
    && Inv(t.client) && w.answered <= t.answered
    && w.client.sent + [call] <= t.client.sent && call < t.client.started
    && (call !in t.client.settled ==> t.client.pending.Some? && t.client.pending.value.id == id)
  }

  lemma AskedAgain(w: Wire, replies: Replies, wire: nat)
    requires Idle(w)
    ensures Reasked(w, AskAgain(w), replies, wire) && w.client.calls !in AskAgain(w).client.settled
    ensures AskAgain(w).client.sent == w.client.sent + [w.client.calls] && AskAgain(w).answered == w.answered
  {
    StepKeepsInv(w.client, Call);
    StepKeepsInv(Step(w.client, Call), Turn);
  }

  lemma HappensKeepsInv(t: Wire, e: PiEvent, replies: Replies, wire: nat)
    requires Inv(t.client) && MayHappen(t, e)
    ensures var u := Happens(t, e, replies, wire);
            Inv(u.client) && Grows(t.client, u.client) && t.answered <= u.answered
  {
    if e.Answer? {
      LineKeepsInv(t.client, AgentEnd(replies(wire, e.request)));
    } else {
      StepKeepsInv(t.client, e.event);
    }
  }

  /** While a prompt is open nothing else starts, and no event but an answer resolves it. */
  lemma OpenStays(s: State, e: Event, call: nat)
    requires Inv(s) && Enabled(s, e) && !(e.StdoutLine? && e.line.AgentEnd?)
    requires s.pending.Some? && s.pending.value.call == call
    ensures var t := Step(s, e);
            && t.sent == s.sent && !ResolvedCall(t, call)
            && (call !in t.settled ==> t.pending.Some? && t.pending.value.id == s.pending.value.id)
  {
    StepKeepsInv(s, e);
    if !e.Call? && !e.CloseCalled? {
      OtherRejectsAtMost(s, e);
    }
    var t := Step(s, e);
    assert call < t.started;
    hide Step, Grows, TimersMatchSlot, TimeoutsClose;
  }

  lemma {:induction false} OpenAnswered(s: State, messages: seq<Message>, call: nat)
    requires Inv(s) && s.pending.Some? && s.pending.value.call == call
    ensures var t := OnLine(s, AgentEnd(messages));
            t.sent == s.sent && call in t.settled
            && (ResolvedCall(t, call) ==> Extract(messages) == Ok(t.settled[call].text))
  {
    FinishIsDecided(s, LineOutcome(AgentEnd(messages)));
  }

  /** While the prompt is open it stays the pending one, so only an answer line can resolve it. */
  lemma HappensKeepsReasked(w: Wire, t: Wire, e: PiEvent, replies: Replies, wire: nat)
    requires Reasked(w, t, replies, wire) && MayHappen(t, e)
    ensures var u := Happens(t, e, replies, wire);
            && Reasked(w, u, replies, wire)
            && (w.client.calls !in t.client.settled && ResolvedCall(u.client, w.client.calls) ==>
                  e.Answer? && Extract(replies(wire, e.request)) == Ok(u.client.settled[w.client.calls].text))
  {
    var call := w.client.calls;
    HappensKeepsInv(t, e, replies, wire);
    if call !in t.client.settled {
      assert t.client.pending.value.call == call;
      if e.Answer? {
        OpenAnswered(t.client, replies(wire, e.request), call);
      } else {
        OpenStays(t.client, e.event, call);
      }
    }
    hide Inv, OnLine, Step;
  }

  lemma {:induction false} AllKeepReasked(w: Wire, t: Wire, es: seq<PiEvent>, replies: Replies, wire: nat)
    requires Reasked(w, t, replies, wire) && Possible(t, es, replies, wire)
    ensures Reasked(w, AfterAll(t, es, replies, wire), replies, wire)
    decreases |es|
  {
    if es != [] {
      HappensKeepsReasked(w, t, es[0], replies, wire);
      AllKeepReasked(w, Happens(t, es[0], replies, wire), es[1..], replies, wire);
    }
  }

  /**
    * Reusing a client can go wrong, in some continuation, exactly when it still owes an earlier request
    * a text; and it can go wrong at once.
    */
  lemma ReuseIsSafeIff(w: Wire, replies: Replies, wire: nat)
    requires Idle(w)
    ensures (exists es, late :: CrossesOver(w, es, late, replies, wire))
            <==> exists earlier :: OwesText(w, earlier, replies, wire)
  {
    AskedAgain(w, replies, wire);
    if earlier :| OwesText(w, earlier, replies, wire) {
      assert Possible(AskAgain(w), [], replies, wire);
      assert CrossesOver(w, [], earlier, replies, wire);
    }
    if es, late :| CrossesOver(w, es, late, replies, wire) {
      AllKeepReasked(w, AskAgain(w), es, replies, wire);
      var before := AfterAll(AskAgain(w), es, replies, wire);
      HappensKeepsReasked(w, before, Answer(late), replies, wire);
      assert OwesText(w, late, replies, wire);
    }
  }

  lemma {:induction false} SettledStays(t: Wire, es: seq<PiEvent>, replies: Replies, wire: nat, call: nat)
    requires Inv(t.client) && Possible(t, es, replies, wire) && call in t.client.settled
    ensures var u := AfterAll(t, es, replies, wire).client;
            call in u.settled && u.settled[call] == t.client.settled[call]
    decreases |es|
  {
    if es != [] {
      HappensKeepsInv(t, es[0], replies, wire);
      SettledStays(Happens(t, es[0], replies, wire), es[1..], replies, wire, call);
    }
  }

  /** When no text is owed, whatever happens next, a text that resolves the prompt is its own answer. */
  lemma {:induction false} ReuseKeepsAnswers(w: Wire, t: Wire, es: seq<PiEvent>, replies: Replies, wire: nat)
    requires Idle(w) && forall earlier :: !OwesText(w, earlier, replies, wire)
    requires Reasked(w, t, replies, wire) && Possible(t, es, replies, wire) && w.client.calls !in t.client.settled
    ensures var u := AfterAll(t, es, replies, wire).client;
            ResolvedCall(u, w.client.calls) ==>
              Extract(replies(wire, |w.client.sent| + 1)) == Ok(u.settled[w.client.calls].text)
    decreases |es|
  {
    if es != [] {
      var u := Happens(t, es[0], replies, wire);
      HappensKeepsReasked(w, t, es[0], replies, wire);
      if w.client.calls in u.client.settled {
        SettledStays(u, es[1..], replies, wire, w.client.calls);
        if ResolvedCall(u.client, w.client.calls) {
          assert !OwesText(w, es[0].request, replies, wire);
        }
      } else {
        ReuseKeepsAnswers(w, u, es[1..], replies, wire);
      }
    }
  }

  lemma {:induction false} SafeReuse(w: Wire, es: seq<PiEvent>, replies: Replies, wire: nat)
    requires Idle(w) && forall earlier :: !OwesText(w, earlier, replies, wire)
    requires Possible(AskAgain(w), es, replies, wire)
    ensures var u := AfterAll(AskAgain(w), es, replies, wire).client;
            ResolvedCall(u, w.client.calls) ==>
              Extract(replies(wire, |w.client.sent| + 1)) == Ok(u.settled[w.client.calls].text)
  {
    AskedAgain(w, replies, wire);
    ReuseKeepsAnswers(w, AskAgain(w), es, replies, wire);
  }

  const REFUSAL := StdoutLine(Response(1, false, None))
  const REFUSED: map<nat, Settlement> := map[0 := Rejected(PromptFailed("pi prompt failed"))]

  lemma {:induction false} Prepend(s: State, e: Event, rest: seq<Event>)
    requires Enabled(s, e) && Legal(Step(s, e), rest)
    ensures Legal(s, [e] + rest) && After(s, [e] + rest) == After(Step(s, e), rest)
  {
    assert ([e] + rest)[1..] == rest;
  }

  lemma RefusedThenAsked()
    ensures Legal(INITIAL, [Call, Turn, REFUSAL, Call, Turn])
    ensures After(INITIAL, [Call, Turn, REFUSAL, Call, Turn])
            == State(false, Some(PendingPrompt(2, 1, false)), 2, 2, 2, REFUSED, {2}, {2}, [0, 1])
  {
    var asked := State(false, Some(PendingPrompt(1, 0, false)), 1, 1, 1, map[], {1}, {1}, [0]);
    var idle := State(false, None, 1, 1, 1, REFUSED, {}, {}, [0]);
    var askedAgain := State(false, Some(PendingPrompt(2, 1, false)), 2, 2, 2, REFUSED, {2}, {2}, [0, 1]);
    assert Step(Step(INITIAL, Call), Turn) == asked;
    assert {1} - {1} == {};
    assert Step(asked, REFUSAL) == idle;
    assert Step(Step(idle, Call), Turn) == askedAgain;
    Prepend(Step(idle, Call), Turn, []);
    Prepend(idle, Call, [Turn]);
    Prepend(asked, REFUSAL, [Call, Turn]);
    Prepend(Step(INITIAL, Call), Turn, [REFUSAL, Call, Turn]);
    Prepend(INITIAL, Call, [Turn, REFUSAL, Call, Turn]);
  }

  /** Concretely: pi refuses request 1, the client is kept, and the late answer to 1 resolves request 2. */
  lemma CrossingWithoutReset(replies: Replies, wire: nat, text: string)
    requires Extract(replies(wire, 1)) == Ok(text)
    ensures Legal(INITIAL, [Call, Turn, REFUSAL, Call, Turn])
    ensures var w := Wire(After(INITIAL, [Call, Turn, REFUSAL, Call, Turn]), {});
            && WireEnabled(w, Answer(1)) && w.client.sent == [0, 1]
            && var s := WireStep(w, Answer(1), replies, wire).client;
               ResolvedCall(s, 1) && s.settled[1] == Resolved(text)
  {
    RefusedThenAsked();
  }
}
