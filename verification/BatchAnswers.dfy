// Batches on a session: the operations of `translateBatch` carried out by a driver and its clients.
module BatchAnswers {
  import opened Wrappers
  import opened OrderedMap
  import opened PiRpcClient
  import opened Session
  import opened TranslationBatches
  import Batch = TranslateBatch

  type Parse = string -> Batch.Reply   // JSON.parse of a prompt's text

  /** The prompt call that put a batch to pi. */
  datatype Asker = Asker(wire: nat, call: nat)

  /** What the batch sees of a settled prompt: the parsed text, or an error. */
  predicate Fits(parse: Parse, settlement: Settlement, reply: Batch.Reply) {
    match settlement
    case Resolved(text) => reply == parse(text)
    case Rejected(_) => reply.Failed?
  }

  function LastClient(s: Session): State
    requires s.wires != []
  {
    s.wires[LastWire(s)].client
  }

  /**
   * The run carries out the operations in order, anything the processes do in between.  Each prompt's
   * reply is what its own call settled to, and `askers` names that call; a reply without a call is the
   * error of a client that could not be created.
   */
  ghost predicate Performs(
    s: Session, es: seq<SessionEvent>, ops: seq<Batch.Op>, askers: seq<Option<Asker>>, parse: Parse, replies: Replies)
    requires SessionLegal(s, es, replies)
    decreases |es|
  {
    && |askers| == |ops|
    && if es == [] then ops == []
       else
         var t := SessionStep(s, es[0], replies);
         match es[0]
         case Process(_, _) => Performs(t, es[1..], ops, askers, parse, replies)
         case Ask =>
           && ops != [] && ops[0].Asked?
           && askers[0] == Some(Asker(LastWire(t), LastClient(t).calls - 1))
           && Performs(t, es[1..], ops, askers, parse, replies)
         case Await(usable) =>
           && ops != [] && ops[0].Asked?
           && Fits(parse, LastClient(s).settled[LastClient(s).calls - 1], ops[0].reply)
           && usable == Batch.Accept(ops[0].items, ops[0].reply).Ok?
           && Performs(t, es[1..], ops[1..], askers[1..], parse, replies)
         case CreateFails =>
           && ops != [] && ops[0].Asked? && ops[0].reply.Failed? && askers[0] == None
           && Performs(t, es[1..], ops[1..], askers[1..], parse, replies)
         case Reset =>
           && ops != [] && ops[0].ResetClient? && askers[0] == None
           && Performs(t, es[1..], ops[1..], askers[1..], parse, replies)
  }

  // ---- The discipline is the session's ----

  /** A live driver has a client, and a waiting one waits for the call of the operation at hand. */
  ghost predicate Orderly(s: Session, askers: seq<Option<Asker>>) {
    && (s.driver == Live ==> s.wires != [])
    && (s.driver == Waiting ==>
          && askers != [] && s.wires != [] && LastClient(s).calls > 0
          && askers[0] == Some(Asker(LastWire(s), LastClient(s).calls - 1)))
  }

  /** The driver as `Drive` sees it: an operation under way has not changed it yet. */
  ghost predicate Drives(s: Session, driver: Driver) {
    if s.driver == Waiting then MayAsk(driver) else s.driver == driver
  }

  lemma StepIsOrderly(s: Session, e: SessionEvent, askers: seq<Option<Asker>>, replies: Replies)
    requires SessionInv(s, replies) && SessionEnabled(s, e) && Orderly(s, askers)
    ensures var t := SessionStep(s, e, replies);
            match e
            case Process(_, _) => Orderly(t, askers)
            case Ask => askers != [] && askers[0] == Some(Asker(LastWire(t), LastClient(t).calls - 1)) ==>
                          Orderly(t, askers)
            case _ => t.driver != Waiting && forall more :: Orderly(t, more)
  {
    if e.Process? {
      WireStepKeepsInv(s.wires[e.wire], e.event, replies, e.wire);
    }
  }

  /** The event that ends an operation takes the driver where `Drive` says. */
  lemma OneOperation(
    s: Session, e: SessionEvent, op: Batch.Op, parse: Parse, replies: Replies, driver: Driver)
    requires SessionEnabled(s, e) && Drives(s, driver)
    requires match e
             case Await(usable) =>
               && op.Asked? && usable == Batch.Accept(op.items, op.reply).Ok?
               && Fits(parse, LastClient(s).settled[LastClient(s).calls - 1], op.reply)
             case CreateFails => op.Asked? && op.reply.Failed?
             case Reset => op.ResetClient?
             case _ => false
    ensures Batch.Drive(driver, op) == Some(SessionStep(s, e, replies).driver)
  {
    hide Batch.Collect, WireEnabled, WireStep, OnClient, Step, Enabled;
  }

  /** What the batch does, operation by operation, is what the session's driver goes through. */
  lemma {:induction false} DriveIsSession(
    s: Session, es: seq<SessionEvent>, ops: seq<Batch.Op>, askers: seq<Option<Asker>>, parse: Parse,
    replies: Replies, driver: Driver)
    requires SessionLegal(s, es, replies) && Performs(s, es, ops, askers, parse, replies)
    requires SessionInv(s, replies) && Orderly(s, askers) && Drives(s, driver)
    ensures Batch.DriveAll(driver, ops) == Some(SessionAfter(s, es, replies).driver)
    decreases |es|
  {
    hide SessionInv, Batch.Accept, Batch.Drive, Fits, WireEnabled;
    if es != [] {
      var t := SessionStep(s, es[0], replies);
      SessionStepKeepsInv(s, es[0], replies);
      StepIsOrderly(s, es[0], askers, replies);
      if es[0].Process? || es[0].Ask? {
        DriveIsSession(t, es[1..], ops, askers, parse, replies, driver);
      } else {
        OneOperation(s, es[0], ops[0], parse, replies, driver);
        DriveIsSession(t, es[1..], ops[1..], askers[1..], parse, replies, t.driver);
      }
    }
  }

  /** Whatever the discipline lets a batch do next, the session can do. */
  lemma DrivenIsEnabled(s: Session, op: Batch.Op)
    requires s.driver != Waiting && (s.driver == Live ==> s.wires != [])
    requires Batch.Drive(s.driver, op).Some?
    ensures SessionEnabled(s, if op.Asked? then Ask else Reset)
  {
  }

  // ---- Whose answer a translation is ----

  /** The reply is pi's own answer to the request that this call sent. */
  ghost predicate OwnReply(s: Session, asker: Asker, reply: Batch.Reply, parse: Parse, replies: Replies) {
    && asker.wire < |s.wires|
    && var c := s.wires[asker.wire].client;
       exists request: nat :: 1 <= request <= |c.sent| && c.sent[request - 1] == asker.call
         && Extract(replies(asker.wire, request)).Ok?
         && reply == parse(Extract(replies(asker.wire, request)).value)
  }

  lemma SentStays(s: Session, e: SessionEvent, replies: Replies, wire: nat)
    requires SessionInv(s, replies) && SessionEnabled(s, e) && wire < |s.wires|
    ensures var t := SessionStep(s, e, replies);
            wire < |t.wires| && s.wires[wire].client.sent <= t.wires[wire].client.sent
  {
    if e.Process? && e.wire == wire {
      var w := s.wires[wire];
      assert WireInv(w, replies, wire);
      match e.event
      case Answer(request) => LineKeepsInv(w.client, AgentEnd(replies(wire, request)));
      case Other(event) => StepKeepsInv(w.client, event);
    }
  }

  lemma {:induction false} OwnReplyStays(
    s: Session, es: seq<SessionEvent>, asker: Asker, reply: Batch.Reply, parse: Parse, replies: Replies)
    requires SessionInv(s, replies) && SessionLegal(s, es, replies) && OwnReply(s, asker, reply, parse, replies)
    ensures OwnReply(SessionAfter(s, es, replies), asker, reply, parse, replies)
    decreases |es|
  {
    if es != [] {
      SentStays(s, es[0], replies, asker.wire);
      SessionStepKeepsInv(s, es[0], replies);
      OwnReplyStays(SessionStep(s, es[0], replies), es[1..], asker, reply, parse, replies);
    }
  }

  /** A resolved call was sent, and resolved by its own answer. */
  lemma AwaitedIsOwn(s: Session, reply: Batch.Reply, parse: Parse, replies: Replies)
    requires SessionInv(s, replies) && s.wires != []
    requires var c := LastClient(s);
             && c.calls > 0 && c.calls - 1 in c.settled
             && Fits(parse, c.settled[c.calls - 1], reply) && reply.Parsed?
    ensures OwnReply(s, Asker(LastWire(s), LastClient(s).calls - 1), reply, parse, replies)
  {
    var c := LastClient(s);
    var call := c.calls - 1;
    assert WireInv(s.wires[LastWire(s)], replies, LastWire(s));
    assert call in c.sent;
    var i: nat :| i < |c.sent| && c.sent[i] == call;
    assert ResolvedCall(c, c.sent[i]);
    assert c.sent[i + 1 - 1] == call;
  }

  /** Every parsed reply of a run is pi's own answer to the request that asked for that batch. */
  lemma {:induction false} RepliesAreOwn(
    s: Session, es: seq<SessionEvent>, ops: seq<Batch.Op>, askers: seq<Option<Asker>>, parse: Parse,
    replies: Replies, j: nat)
    requires SessionLegal(s, es, replies) && Performs(s, es, ops, askers, parse, replies)
    requires SessionInv(s, replies) && Orderly(s, askers)
    requires j < |ops| && ops[j].Asked? && ops[j].reply.Parsed?
    ensures askers[j].Some?
    ensures OwnReply(SessionAfter(s, es, replies), askers[j].value, ops[j].reply, parse, replies)
    decreases |es|
  {
    var t := SessionStep(s, es[0], replies);
    SessionStepKeepsInv(s, es[0], replies);
    StepIsOrderly(s, es[0], askers, replies);
    if es[0].Process? || es[0].Ask? {
      RepliesAreOwn(t, es[1..], ops, askers, parse, replies, j);
    } else if j > 0 {
      RepliesAreOwn(t, es[1..], ops[1..], askers[1..], parse, replies, j - 1);
    } else {
      AwaitedIsOwn(s, ops[0].reply, parse, replies);
      OwnReplyStays(s, es, askers[0].value, ops[0].reply, parse, replies);
    }
  }

  /** Operation `j` put the key to pi, and the text is what pi itself answered to that request. */
  ghost predicate AnsweredBy(
    final: Session, ops: seq<Batch.Op>, askers: seq<Option<Asker>>, parse: Parse, replies: Replies, j: nat,
    key: string, text: string)
  {
    && j < |ops| == |askers| && Batch.Gave(ops[j], key, text) && askers[j].Some?
    && OwnReply(final, askers[j].value, ops[j].reply, parse, replies)
  }

  lemma {:induction false} GivenByAnOperation(items: seq<Item>, served: nat -> Batch.Reply, at: nat, key: string)
    returns (i: nat)
    requires Batch.Translate(items, served, at, 0).outcome.Ok?
    requires key in Batch.Translate(items, served, at, 0).outcome.value.at
    ensures var run := Batch.Translate(items, served, at, 0);
            i < |run.ops| && Batch.Gave(run.ops[i], key, run.outcome.value.at[key])
  {
    hide Batch.Attempt, Batch.Gave;
    Batch.SuccessTranslates(items, 0, Batch.FIRST_ERROR, served, at, 0);
    var run := Batch.Translate(items, served, at, 0);
    var op :| op in run.ops && Batch.Gave(op, key, run.outcome.value.at[key]);
    i :| i < |run.ops| && run.ops[i] == op;
  }

  lemma {:induction false} PerformsAligned(
    s: Session, es: seq<SessionEvent>, ops: seq<Batch.Op>, askers: seq<Option<Asker>>, parse: Parse, replies: Replies)
    requires SessionLegal(s, es, replies) && Performs(s, es, ops, askers, parse, replies)
    ensures |askers| == |ops|
  {
  }

  /**
   * In every run of a session that carries out a batch, after and before whatever else, each text of the
   * map the batch returns is pi's own answer to a request that asked for a batch with that key.
   */
  lemma {:induction false} BatchTextsAreOwn(
    es: seq<SessionEvent>, before: seq<Batch.Op>, later: seq<Batch.Op>, askers: seq<Option<Asker>>, parse: Parse,
    replies: Replies, items: seq<Item>, served: nat -> Batch.Reply, at: nat, key: string)
    requires Batch.Translate(items, served, at, 0).outcome.Ok?
    requires key in Batch.Translate(items, served, at, 0).outcome.value.at
    requires SessionLegal(START, es, replies)
    requires Performs(START, es, before + Batch.Translate(items, served, at, 0).ops + later, askers, parse, replies)
    ensures
      var run := Batch.Translate(items, served, at, 0);
      exists j: nat ::
        AnsweredBy(SessionAfter(START, es, replies), before + run.ops + later, askers, parse, replies, j, key,
                   run.outcome.value.at[key])
        && |before| <= j < |before| + |run.ops|
  {
    assert SessionInv(START, replies) && Orderly(START, askers);
    hide Performs, SessionLegal, SessionAfter, SessionInv, Batch.Translate, OwnReply, Orderly;
    var run := Batch.Translate(items, served, at, 0);
    var ops := before + run.ops + later;
    assert |askers| == |ops| by { PerformsAligned(START, es, ops, askers, parse, replies); }
    var i := GivenByAnOperation(items, served, at, key);
    var j := |before| + i;
    assert ops[j] == run.ops[i];
    RepliesAreOwn(START, es, ops, askers, parse, replies, j);
    assert AnsweredBy(SessionAfter(START, es, replies), ops, askers, parse, replies, j, key, run.outcome.value.at[key]);
  }

  lemma {:induction false} Prefixed(s: Session, e: SessionEvent, rest: seq<SessionEvent>, replies: Replies)
    requires SessionEnabled(s, e) && SessionLegal(SessionStep(s, e, replies), rest, replies)
    ensures ([e] + rest)[0] == e && ([e] + rest)[1..] == rest && [e] + [] == [e]
    ensures SessionLegal(s, [e] + rest, replies)
    ensures SessionAfter(s, [e] + rest, replies) == SessionAfter(SessionStep(s, e, replies), rest, replies)
  {
    assert ([e] + rest)[1..] == rest;
  }

  /** Such runs exist: a new client is asked, pi answers, and the text is a full set of translations. */
  lemma {:induction false} OneBatchRuns(
    items: seq<Item>, parse: Parse, replies: Replies) returns (es: seq<SessionEvent>)
    requires Extract(replies(0, 1)).Ok?
    requires Batch.Accept(items, parse(Extract(replies(0, 1)).value)).Ok?
    ensures SessionLegal(START, es, replies) && SessionAfter(START, es, replies).driver == Live
    ensures Performs(START, es, [Batch.Asked(items, parse(Extract(replies(0, 1)).value))],
                     [Some(Asker(0, 0))], parse, replies)
  {
    hide Batch.Accept, Extract;
    var turn, answer := Process(0, Other(Turn)), Process(0, Answer(1));
    var asked := SessionStep(START, Ask, replies);
    var sent := SessionStep(asked, turn, replies);
    assert sent.wires[0].client.pending == Some(PendingPrompt(1, 0, false)) && sent.wires[0].client.sent == [0];
    var answered := SessionStep(sent, answer, replies);
    assert answered.wires[0].client.settled == map[0 := Resolved(Extract(replies(0, 1)).value)];
    var done := SessionStep(answered, Await(true), replies);
    var reply := parse(Extract(replies(0, 1)).value);
    var ops, askers := [Batch.Asked(items, reply)], [Some(Asker(0, 0))];
    Prefixed(answered, Await(true), [], replies);
    Prefixed(sent, answer, [Await(true)], replies);
    Prefixed(asked, turn, [answer] + [Await(true)], replies);
    Prefixed(START, Ask, [turn] + ([answer] + [Await(true)]), replies);
    assert ops[1..] == [] && askers[1..] == [];
    assert Performs(answered, [Await(true)], ops, askers, parse, replies);
    assert Performs(sent, [answer] + [Await(true)], ops, askers, parse, replies);
    assert Performs(asked, [turn] + ([answer] + [Await(true)]), ops, askers, parse, replies);
    es := [Ask] + ([turn] + ([answer] + [Await(true)]));
  }
}
