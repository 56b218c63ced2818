// Running a child process under a timeout: one promise, three timers, and events in any order.
module CommandSupervisor {
  import opened Wrappers

  datatype Settings = Settings(timeout: bool, heartbeat: bool, check: bool)

  datatype Reason = CouldNotTerminate | TimedOut | ChildError | CommandFailed(exitCode: int)

  datatype Settlement = Resolved(exitCode: int, stdout: string, stderr: string) | Rejected(reason: Reason)

  /** Timers are live from `setTimeout` until they fire or are cleared. */
  datatype State = State(
    timedOut: bool,
    settled: bool,
    outcome: seq<Settlement>,        // settlements of the promise, in order
    stdout: string,
    stderr: string,
    timer: bool,
    killWaitTimer: bool,
    heartbeatTimer: bool)

  /**
    * When the timeout fires the child is killed; a kill that fails may report the
    * child's error before the callback goes on.
    */
  datatype Event =
    | TimeoutFires(killFails: bool)
    | KillWaitFires
    | HeartbeatFires
    | ChildErrors
    | ChildCloses(exitCode: Option<int>)
    | Stdout(text: string)
    | Stderr(text: string)

  function Launch(c: Settings): State {
    State(false, false, [], "", "", c.timeout, false, c.heartbeat)
  }

  predicate Enabled(s: State, e: Event) {
    match e
    case TimeoutFires(_) => s.timer
    case KillWaitFires => s.killWaitTimer
    case HeartbeatFires => s.heartbeatTimer
    case _ => true
  }

  function Finalize(s: State, outcome: Settlement): State {
    if s.settled then s
    else s.(settled := true, outcome := s.outcome + [outcome],
            timer := false, killWaitTimer := false, heartbeatTimer := false)
  }

  function CloseOutcome(c: Settings, s: State, exitCode: Option<int>): Settlement {
    var code := exitCode.GetOr(1);
    if s.timedOut then Rejected(TimedOut)
    else if c.check && code != 0 then Rejected(CommandFailed(code))
    else Resolved(code, s.stdout, s.stderr)
  }

  function Step(c: Settings, s: State, e: Event): State
    requires Enabled(s, e)
  {
    match e
    case TimeoutFires(killFails) =>
      var fired := s.(timedOut := true, timer := false);
      var killed := if killFails then Finalize(fired, Rejected(ChildError)) else fired;
      killed.(killWaitTimer := true)
    case KillWaitFires => Finalize(s.(killWaitTimer := false), Rejected(CouldNotTerminate))
    case HeartbeatFires => s
    case ChildErrors => Finalize(s, Rejected(ChildError))
    case ChildCloses(exitCode) => Finalize(s, CloseOutcome(c, s, exitCode))
    case Stdout(text) => s.(stdout := s.stdout + text)
    case Stderr(text) => s.(stderr := s.stderr + text)
  }

  /** Histories: each event is possible after the ones before it. */
  ghost predicate Legal(c: Settings, es: seq<Event>)
    decreases |es|, 0
  {
    es == [] || (Legal(c, es[..|es| - 1]) && Enabled(After(c, es[..|es| - 1]), es[|es| - 1]))
  }

  ghost function After(c: Settings, es: seq<Event>): State
    requires Legal(c, es)
    decreases |es|, 1
  {
    if es == [] then Launch(c) else Step(c, After(c, es[..|es| - 1]), es[|es| - 1])
  }

  // ---- What the code promises, said over the history ----

  /** Events that settle the promise if nothing has settled it yet. */
  predicate Decides(e: Event) {
    e == TimeoutFires(true) || e.KillWaitFires? || e.ChildErrors? || e.ChildCloses?
  }

  predicate TimeoutIn(es: seq<Event>) {
    exists i :: 0 <= i < |es| && es[i].TimeoutFires?
  }

  function StdoutOf(es: seq<Event>): string {
    if es == [] then ""
    else StdoutOf(es[..|es| - 1]) + if es[|es| - 1].Stdout? then es[|es| - 1].text else ""
  }

  function StderrOf(es: seq<Event>): string {
    if es == [] then ""
    else StderrOf(es[..|es| - 1]) + if es[|es| - 1].Stderr? then es[|es| - 1].text else ""
  }

  /** The settlement decided by an event, given what happened before it. */
  function Decision(c: Settings, before: seq<Event>, e: Event): Settlement
    requires Decides(e)
  {
    match e
    case TimeoutFires(_) => Rejected(ChildError)
    case KillWaitFires => Rejected(CouldNotTerminate)
    case ChildErrors => Rejected(ChildError)
    case ChildCloses(exitCode) =>
      var code := exitCode.GetOr(1);
      if TimeoutIn(before) then Rejected(TimedOut)
      else if c.check && code != 0 then Rejected(CommandFailed(code))
      else Resolved(code, StdoutOf(before), StderrOf(before))
  }

  /** The settlement of a whole history: its first deciding event's. */
  function Settlements(c: Settings, es: seq<Event>): seq<Settlement> {
    if es == [] then []
    else
      var before, e := es[..|es| - 1], es[|es| - 1];
      var earlier := Settlements(c, before);
      if earlier == [] && Decides(e) then [Decision(c, before, e)] else earlier
  }

  /** A kill failed inside the timeout callback, and the wait it started has not fired since. */
  predicate StrayWait(es: seq<Event>) {
    es != [] && (es[|es| - 1] == TimeoutFires(true) || (!es[|es| - 1].KillWaitFires? && StrayWait(es[..|es| - 1])))
  }

  ghost predicate Inv(c: Settings, es: seq<Event>, s: State) {
    && s.timedOut == TimeoutIn(es)
    && s.stdout == StdoutOf(es) && s.stderr == StderrOf(es)
    && s.outcome == Settlements(c, es)
    && |s.outcome| == (if s.settled then 1 else 0)
    && (!s.settled ==>
          && s.timer == (c.timeout && !s.timedOut)
          && s.killWaitTimer == s.timedOut && s.heartbeatTimer == c.heartbeat)
    && (s.settled ==> !s.timer && !s.heartbeatTimer && s.killWaitTimer == StrayWait(es))
    && (!s.settled ==> !StrayWait(es))
  }

  lemma TimeoutAppend(es: seq<Event>, e: Event)
    ensures TimeoutIn(es + [e]) <==> TimeoutIn(es) || e.TimeoutFires?
  {
    if TimeoutIn(es) {
      var i :| 0 <= i < |es| && es[i].TimeoutFires?;
      assert (es + [e])[i].TimeoutFires?;
    }
    if e.TimeoutFires? {
      assert (es + [e])[|es|].TimeoutFires?;
    }
  }

  lemma StepKeepsInv(c: Settings, es: seq<Event>, s: State, e: Event)
    requires Inv(c, es, s) && Enabled(s, e)
    ensures Inv(c, es + [e], Step(c, s, e))
  {
    assert (es + [e])[..|es|] == es;
    TimeoutAppend(es, e);
    hide TimeoutIn;
  }

  lemma LaunchInv(c: Settings)
    ensures Inv(c, [], Launch(c))
  {
  }

  lemma {:induction false} HistoryInv(c: Settings, es: seq<Event>)
    requires Legal(c, es)
    ensures Inv(c, es, After(c, es))
  {
    hide Inv;
    if es == [] {
      LaunchInv(c);
    } else {
      var n := |es| - 1;
      HistoryInv(c, es[..n]);
      StepKeepsInv(c, es[..n], After(c, es[..n]), es[n]);
      assert es == es[..n] + [es[n]];
    }
  }

  lemma {:induction false} DecidedIff(c: Settings, es: seq<Event>)
    ensures Settlements(c, es) != [] <==> exists i :: 0 <= i < |es| && Decides(es[i])
  {
    if es != [] {
      var n := |es| - 1;
      DecidedIff(c, es[..n]);
      if i :| 0 <= i < |es| && Decides(es[i]) {
        assert i == n || Decides(es[..n][i]);
      }
      if Settlements(c, es[..n]) != [] {
        var i :| 0 <= i < n && Decides(es[..n][i]);
        assert Decides(es[i]);
      }
    }
  }

  /**
    * The promise settles exactly as the first deciding event says: at most once, and
    * it resolves just when the child closes before any timeout (with exit code zero,
    * when that is checked), with all the output that came before.
    */
  lemma {:induction false} SettlesAsDecided(c: Settings, es: seq<Event>)
    requires Legal(c, es)
    ensures After(c, es).outcome == Settlements(c, es) && |After(c, es).outcome| <= 1
    ensures After(c, es).settled <==> exists i :: 0 <= i < |es| && Decides(es[i])
  {
    HistoryInv(c, es);
    DecidedIff(c, es);
  }

  /** A resolved command closed before any timeout, and with exit code zero if that was to be checked. */
  lemma {:induction false} ResolvesOnlyInTime(c: Settings, es: seq<Event>, code: int, stdout: string, stderr: string)
    requires Settlements(c, es) == [Resolved(code, stdout, stderr)]
    ensures exists n :: 0 <= n < |es| && es[n].ChildCloses? && es[n].exitCode.GetOr(1) == code && !TimeoutIn(es[..n]) &&
                        (c.check ==> code == 0) && stdout == StdoutOf(es[..n]) && stderr == StderrOf(es[..n])
  {
    hide TimeoutIn, StdoutOf, StderrOf;
    var n := |es| - 1;
    if Settlements(c, es[..n]) == Settlements(c, es) {
      ResolvesOnlyInTime(c, es[..n], code, stdout, stderr);
      var i :| 0 <= i < n && es[..n][i].ChildCloses? && es[..n][i].exitCode.GetOr(1) == code &&
        !TimeoutIn(es[..n][..i]) &&
               (c.check ==> code == 0) && stdout == StdoutOf(es[..n][..i]) && stderr == StderrOf(es[..n][..i]);
      assert es[..n][..i] == es[..i] && es[..n][i] == es[i];
    } else {
      assert es[n].ChildCloses?;
    }
  }

  predicate AnyTimer(s: State) {
    s.timer || s.killWaitTimer || s.heartbeatTimer
  }

  /**
    * After settling no timer is live, except in one case: the kill failed inside the
    * timeout callback, which settled the promise, and the callback then armed the
    * wait nobody is waiting for.
    */
  lemma {:induction false} TimersAfterSettling(c: Settings, es: seq<Event>)
    requires Legal(c, es) && After(c, es).settled
    ensures AnyTimer(After(c, es)) <==> StrayWait(es)
  {
    HistoryInv(c, es);
  }

  lemma {:induction false} StrayWaitHappens(c: Settings)
    requires c.timeout
    ensures Legal(c, [TimeoutFires(true)])
    ensures var s := After(c, [TimeoutFires(true)]); s.settled && s.killWaitTimer
  {
    assert [TimeoutFires(true)][..0] == [];
  }

  /** A stray wait is harmless to the promise: when it fires, nothing but the timer changes. */
  lemma {:induction false} StrayWaitChangesNothing(c: Settings, es: seq<Event>)
    requires Legal(c, es) && StrayWait(es)
    ensures Enabled(After(c, es), KillWaitFires)
    ensures Step(c, After(c, es), KillWaitFires) == After(c, es).(killWaitTimer := false)
  {
    HistoryInv(c, es);
  }

  /** Once the timeout has fired, the promise is settled or the kill wait can still settle it. */
  lemma {:induction false} TimeoutAlwaysSettles(c: Settings, es: seq<Event>)
    requires Legal(c, es) && TimeoutIn(es)
    ensures var s := After(c, es);
            s.settled || (Enabled(s, KillWaitFires) && Step(c, s, KillWaitFires).settled)
  {
    HistoryInv(c, es);
  }

  // ---- The closure's variables ----

  class Command {
    const c: Settings
    var timedOut: bool
    var settled: bool
    var outcome: seq<Settlement>
    var stdout: string
    var stderr: string
    var timer: bool
    var killWaitTimer: bool
    var heartbeatTimer: bool

    ghost function Abs(): State
      reads this
    {
      State(timedOut, settled, outcome, stdout, stderr, timer, killWaitTimer, heartbeatTimer)
    }

    constructor (c: Settings)
      ensures this.c == c && Abs() == Launch(c)
    {
      this.c := c;
      timedOut, settled, outcome, stdout, stderr := false, false, [], "", "";
      timer, killWaitTimer, heartbeatTimer := c.timeout, false, c.heartbeat;
    }

    method ClearTimers()
      modifies this`timer, this`killWaitTimer, this`heartbeatTimer
      ensures !timer && !killWaitTimer && !heartbeatTimer
    {
      if timer {
        timer := false;
      }
      if killWaitTimer {
        killWaitTimer := false;
      }
      if heartbeatTimer {
        heartbeatTimer := false;
      }
    }

    method FinalizeWith(result: Settlement)
      modifies this
      ensures Abs() == Finalize(old(Abs()), result)
    {
      if settled {
        return;
      }
      settled := true;
      ClearTimers();
      outcome := outcome + [result];
    }

    method OnTimeout(killFails: bool)
      requires timer
      modifies this
      ensures Abs() == Step(c, old(Abs()), TimeoutFires(killFails))
    {
      timer := false;
      timedOut := true;
      if killFails {
        FinalizeWith(Rejected(ChildError));
      }
      killWaitTimer := true;
    }

    method OnKillWait()
      requires killWaitTimer
      modifies this
      ensures Abs() == Step(c, old(Abs()), KillWaitFires)
    {
      killWaitTimer := false;
      FinalizeWith(Rejected(CouldNotTerminate));
    }

    method OnError()
      modifies this
      ensures Abs() == Step(c, old(Abs()), ChildErrors)
    {
      FinalizeWith(Rejected(ChildError));
    }

    method OnClose(exitCode: Option<int>)
      modifies this
      ensures Abs() == Step(c, old(Abs()), ChildCloses(exitCode))
    {
      var code := exitCode.GetOr(1);
      if timedOut {
        FinalizeWith(Rejected(TimedOut));
      } else if c.check && code != 0 {
        FinalizeWith(Rejected(CommandFailed(code)));
      } else {
        FinalizeWith(Resolved(code, stdout, stderr));
      }
    }

    method OnStdout(text: string)
      modifies this`stdout
      ensures Abs() == Step(c, old(Abs()), Stdout(text))
    {
      stdout := stdout + text;
    }

    method OnStderr(text: string)
      modifies this`stderr
      ensures Abs() == Step(c, old(Abs()), Stderr(text))
    {
      stderr := stderr + text;
    }
  }

  // ---- waitForChildExit ----

  datatype WaitEvent = ChildGone | WaitTimeout

  /** Waiting for a child: at most one answer, at once if it has exited already, and nothing left armed after it. */
  class ExitWait {
    var settled: bool
    var timer: bool
    var listening: bool
    var answers: seq<bool>

    ghost predicate Valid()
      reads this
    {
      |answers| == (if settled then 1 else 0) && listening == !settled && (settled ==> !timer)
    }

    constructor (exitCode: Option<int>, timeoutMs: int)
      ensures Valid()
      ensures exitCode.Some? ==> settled && answers == [true] && !timer && !listening
      ensures exitCode.None? ==> !settled && listening && (timer <==> timeoutMs > 0)
    {
      if exitCode.Some? {
        settled, timer, listening, answers := true, false, false, [true];
      } else {
        settled, timer, listening, answers := false, timeoutMs > 0, true, [];
      }
    }

    method Finish(didExit: bool)
      requires Valid()
      modifies this
      ensures Valid() && settled
      ensures answers == if old(settled) then old(answers) else [didExit]
    {
      if settled {
        return;
      }
      settled := true;
      if timer {
        timer := false;
      }
      listening := false;
      answers := answers + [didExit];
    }

    /** The child's exit, close and error events all count as gone; none is delivered once the wait is over. */
    method Deliver(e: WaitEvent)
      requires Valid() && if e.ChildGone? then listening else timer
      modifies this
      ensures Valid() && settled && answers == [e.ChildGone?]
    {
      if e.WaitTimeout? {
        timer := false;
      }
      Finish(e.ChildGone?);
    }
  }
}
