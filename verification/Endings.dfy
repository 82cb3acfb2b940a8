/** How a connection ends: the schedules that latch each reason, and that no reason is latched without its
    cause (core/host/src/process.rs, core/host/src/mux.rs). */
module Endings {
  import opened Base
  import opened M = Multiplexing
  import opened N = Nets

  // ----- schedules -----------------------------------------------------------------------

  function Two(c: Net, a: N.Event, b: N.Event): Net { N.Step(N.Step(c, a), b) }

  function Four(c: Net, a: N.Event, b: N.Event, d: N.Event, e: N.Event): Net { Two(Two(c, a, b), d, e) }

  /** One whole call of `finish`, undisturbed. */
  function Finished(c: Net, who: Finisher): Net {
    Four(c, FinishVerdict(who), FinishInner(who), FinishDecides(who), FinishPublishes(who))
  }

  /** A fatal frame, from the judgement to the kill request. */
  function Caught(c: Net, kind: Kind): Net { Four(c, ReaderJudges(kind), ReaderLocks, ReaderPublishes, ReaderKills) }

  /** The child exits, the reader is joined, and the supervisor decides. */
  function Reaped(c: Net, joined: N.Event, status: Option<int>): Net {
    N.Step(Two(c, ChildExits, joined), SupervisorDecides(status))
  }

  predicate LocksFree(c: Net) { c.verdictLock.None? && c.innerLock.None? }

  lemma {:induction false} TakesLocks(c: Net, who: Finisher, reason: Terminal)
    requires c.Call(who) == Called(reason) && LocksFree(c)
    ensures Two(c, FinishVerdict(who), FinishInner(who))
            == c.(verdictLock := if reason.Violation? then Some(ByFinisher(who)) else None,
                  innerLock := Some(ByFinisher(who)), calls := c.calls[who := HoldsInner(reason)])
  {
    var past := N.Step(c, FinishVerdict(who));
    assert past == c.(verdictLock := if reason.Violation? then Some(ByFinisher(who)) else None,
                      calls := c.calls[who := PastVerdict(reason)]);
    assert past.Call(who) == PastVerdict(reason);
    assert past.calls[who := HoldsInner(reason)] == c.calls[who := HoldsInner(reason)];
  }

  lemma {:induction false} WinsAndPublishes(c: Net, who: Finisher, reason: Terminal)
    requires c.Call(who) == HoldsInner(reason) && c.terminal.None?
    ensures Two(c, FinishDecides(who), FinishPublishes(who))
            == c.(terminal := Some(reason), innerLock := None,
                  verdict := if reason.Violation? then Latch(c.verdict, reason.kind) else c.verdict,
                  verdictLock := if reason.Violation? then None else c.verdictLock, calls := c.calls[who := Returned])
  {
    var won := N.Step(c, FinishDecides(who));
    assert won == c.(terminal := Some(reason), calls := c.calls[who := Latched(reason)]);
    assert won.Call(who) == Latched(reason);
    assert won.calls[who := Returned] == c.calls[who := Returned];
  }

  /** The first call of `finish` latches its own reason, publishes it if it is a violation and nothing was
      published before, and leaves both locks free. */
  lemma {:induction false} FirstCallLatches(c: Net, who: Finisher, reason: Terminal)
    requires c.Call(who) == Called(reason) && LocksFree(c) && c.terminal.None?
    ensures Finished(c, who)
            == c.(terminal := Some(reason), calls := c.calls[who := Returned],
                  verdict := if reason.Violation? then Latch(c.verdict, reason.kind) else c.verdict)
  {
    TakesLocks(c, who, reason);
    var held := Two(c, FinishVerdict(who), FinishInner(who));
    WinsAndPublishes(held, who, reason);
    assert held.calls[who := Returned] == c.calls[who := Returned];
  }

  /** The reader publishes what it judged, then asks for the kill. */
  lemma {:induction false} ReaderCatches(c: Net, kind: Kind)
    requires c.reader == Reading && c.verdictLock.None?
    ensures Caught(c, kind)
            == c.(reader := Stopped(Some(kind)), verdict := Latch(c.verdict, kind), kill := TrySend(c.kill, Some(kind)))
  {
    var held := Two(c, ReaderJudges(kind), ReaderLocks);
    assert held == c.(reader := Publishing(kind), verdictLock := Some(ByReader));
    assert N.Step(held, ReaderPublishes) == c.(reader := Published(kind), verdict := Latch(c.verdict, kind));
  }

  /** Nothing has ended the connection and nobody is ending it. */
  predicate Quiet(c: Net) {
    LocksFree(c) && c.terminal.None? && c.kill.None? && c.calls == map[] && c.supervision == Waiting
  }

  /** A violation the reader judges while the child runs: the supervisor kills the child and the connection ends
      in that violation, published. */
  lemma {:induction false} CaughtEndsInViolation(c: Net, kind: Kind)
    requires Quiet(c) && c.reader == Reading && c.verdict.None?
    ensures var c' := Finished(Two(Caught(c, kind), KillReceived, ChildReaped), Supervisor);
      && c'.terminal == Some(Violation(kind)) && c'.verdict == Some(kind) && c'.SupervisorOver()
      && c'.exited && LocksFree(c') && c'.kill.None?
  {
    ReaderCatches(c, kind);
    var c1 := Caught(c, kind);
    var c2 := Two(c1, KillReceived, ChildReaped);
    assert N.Step(c1, KillReceived) == c1.(supervision := Killing(Some(kind)), kill := None);
    assert c2 == c1.(supervision := Finishes, kill := None, exited := true,
                     calls := map[Supervisor := Called(Violation(kind))]);
    FirstCallLatches(c2, Supervisor, Violation(kind));
  }

  /** Even if the child exits by itself before the kill is received, with whatever status. */
  lemma {:induction false} CaughtOutranksExit(c: Net, kind: Kind, status: Option<int>)
    requires Quiet(c) && c.reader == Reading && c.verdict.None?
    ensures var c' := Finished(Reaped(Caught(c, kind), ReaderJoined, status), Supervisor);
      && c'.terminal == Some(Violation(kind)) && c'.verdict == Some(kind) && c'.SupervisorOver() && LocksFree(c')
  {
    ReaderCatches(c, kind);
    var c1 := Caught(c, kind);
    var c2 := Reaped(c1, ReaderJoined, status);
    assert Two(c1, ChildExits, ReaderJoined) == c1.(supervision := Drained(true), exited := true);
    assert c2 == c1.(supervision := Finishes, kill := None, exited := true,
                     calls := map[Supervisor := Called(Violation(kind))]);
    FirstCallLatches(c2, Supervisor, Violation(kind));
  }

  /** A child that exits after the stream ended cleanly has crashed, with its status, and nothing is published. */
  lemma {:induction false} CleanExitIsACrash(c: Net, status: Option<int>)
    requires Quiet(c) && c.reader == Reading
    ensures var c' := Finished(Reaped(N.Step(c, ReaderEnds), ReaderJoined, status), Supervisor);
      && c'.terminal == Some(Crashed(status)) && c'.verdict == c.verdict && c'.SupervisorOver() && LocksFree(c')
  {
    var c1 := N.Step(c, ReaderEnds);
    var c2 := Reaped(c1, ReaderJoined, status);
    assert Two(c1, ChildExits, ReaderJoined) == c1.(supervision := Drained(true), exited := true);
    assert c2 == c1.(supervision := Finishes, exited := true, calls := map[Supervisor := Called(Crashed(status))]);
    FirstCallLatches(c2, Supervisor, Crashed(status));
  }

  /** A child whose output is still open after its exit broke the contract, whatever its status. */
  lemma {:induction false} HeldOpenIsAViolation(c: Net, status: Option<int>)
    requires Quiet(c) && !c.reader.Stopped?
    ensures var c' := Finished(Reaped(c, DrainTimesOut, status), Supervisor);
      && c'.terminal == Some(Violation(StdoutHeldOpen)) && c'.verdict == Latch(c.verdict, StdoutHeldOpen)
      && c'.SupervisorOver() && LocksFree(c')
  {
    var c2 := Reaped(c, DrainTimesOut, status);
    assert Two(c, ChildExits, DrainTimesOut) == c.(supervision := Drained(false), exited := true);
    assert c2 == c.(supervision := Finishes, exited := true,
                    calls := map[Supervisor := Called(Violation(StdoutHeldOpen))]);
    FirstCallLatches(c2, Supervisor, Violation(StdoutHeldOpen));
  }

  /** A close that times out ends in what the child did wrong: it held its output open if it has exited, and
      ignored the end of its input if it has not. */
  lemma {:induction false} CloseTimeoutIsAViolation(c: Net)
    requires LocksFree(c) && c.terminal.None? && c.Call(Closer) == NotCalled && !c.SupervisorOver()
    ensures var c', kind := Finished(N.Step(c, CloseTimesOut), Closer),
                            if c.exited then StdoutHeldOpen else StdinEofIgnored;
      c'.terminal == Some(Violation(kind)) && c'.verdict == Latch(c.verdict, kind) && LocksFree(c')
  {
    var kind := if c.exited then StdoutHeldOpen else StdinEofIgnored;
    FirstCallLatches(N.Step(c, CloseTimesOut), Closer, Violation(kind));
  }

  /** A write that times out first ends the connection as crashed and asks for the kill. */
  lemma {:induction false} WriteTimeoutIsACrash(c: Net)
    requires LocksFree(c) && c.terminal.None? && c.Call(Pump) == NotCalled
    ensures var c' := Finished(N.Step(c, WriteTimesOut), Pump);
      && c'.terminal == Some(Crashed(None)) && c'.verdict == c.verdict && LocksFree(c')
      && c'.kill == TrySend(c.kill, None) && c'.timeoutFirst
  {
    FirstCallLatches(N.Step(c, WriteTimesOut), Pump, Crashed(None));
  }

  /** A deliberate shutdown ends with no reason at all. */
  lemma {:induction false} ShutdownLeavesNoReason(c: Net)
    requires Quiet(c)
    ensures var c' := N.Step(Two(c, HostShutsDown, KillReceived), ChildReaped);
            c'.SupervisorOver() && c'.terminal.None? && c'.verdict == c.verdict && c'.exited && c'.shutdown
  {
    assert Two(c, HostShutsDown, KillReceived).supervision == Killing(None);
  }

  /** And so does a kill channel found closed. */
  lemma {:induction false} ClosedChannelLeavesNoReason(c: Net)
    requires c.supervision == Waiting && c.kill.None? && c.shutdown
    ensures var c' := Two(c, KillClosed, ChildReaped);
            c'.SupervisorOver() && c'.exited && c'.terminal == c.terminal && c'.verdict == c.verdict
  {
    assert N.Step(c, KillClosed).supervision == Killing(None);
  }

  // ----- no reason without its cause ------------------------------------------------------

  function Run(events: seq<N.Event>): Net {
    if events == [] then OPENED else N.Step(Run(events[..|events| - 1]), events[|events| - 1])
  }

  /** The reader judged it; or it is what a drain or a close that timed out says. */
  predicate ViolationSeen(events: seq<N.Event>, kind: Kind) {
    || ReaderJudges(kind) in events
    || (kind == StdoutHeldOpen && (DrainTimesOut in events || CloseTimesOut in events))
    || (kind == StdinEofIgnored && CloseTimesOut in events)
  }

  /** A violation that was seen; the status the child exited with; or a write that timed out. */
  predicate Seen(events: seq<N.Event>, reason: Terminal) {
    match reason
    case Violation(kind) => ViolationSeen(events, kind)
    case Crashed(status) =>
      || (ChildExits in events && SupervisorDecides(status) in events)
      || (status.None? && WriteTimesOut in events)
  }

  predicate ReasonOf(call: Finishing, reason: Terminal) {
    (call.Called? || call.PastVerdict? || call.HoldsInner? || call.Latched?) && call.reason == reason
  }

  /** What the reader and the supervisor hold has been seen. */
  ghost predicate ThreadsSeen(c: Net, events: seq<N.Event>) {
    && (c.reader.Judged? || c.reader.Publishing? || c.reader.Published? ==> ReaderJudges(c.reader.kind) in events)
    && (c.KillRequested() ==> ReaderJudges(c.reader.published.value) in events)
    && (c.kill.Some? && c.kill.value.Some? ==> ReaderJudges(c.kill.value.value) in events)
    && (c.supervision.Killing? && c.supervision.message.Some? ==> ReaderJudges(c.supervision.message.value) in events)
    && (c.supervision == Exited || c.supervision.Drained? ==> ChildExits in events)
    && (c.supervision == Drained(false) ==> DrainTimesOut in events)
  }

  ghost predicate CallsSeen(c: Net, events: seq<N.Event>) {
    forall f, reason :: ReasonOf(c.Call(f), reason) ==> Seen(events, reason)
  }

  predicate LatchesSeen(c: Net, events: seq<N.Event>) {
    && (c.terminal.Some? ==> Seen(events, c.terminal.value))
    && (c.verdict.Some? ==> ViolationSeen(events, c.verdict.value))
  }

  ghost predicate AllSeen(c: Net, events: seq<N.Event>) {
    ThreadsSeen(c, events) && CallsSeen(c, events) && LatchesSeen(c, events)
  }

  lemma {:induction false} SeenStays(c: Net, events: seq<N.Event>, e: N.Event)
    requires AllSeen(c, events)
    ensures AllSeen(c, events + [e])
  {
    var all := events + [e];
    assert forall x :: x in events ==> x in all;
    forall f, reason | ReasonOf(c.Call(f), reason) ensures Seen(all, reason) { assert Seen(events, reason); }
  }

  lemma {:induction false} ReaderSeen(c: Net, all: seq<N.Event>, e: N.Event)
    requires AllSeen(c, all) && e in all
    ensures AllSeen(N.ReaderStep(c, e), all)
  {
    assert forall f :: N.ReaderStep(c, e).Call(f) == c.Call(f);
  }

  lemma {:induction false} SupervisorThreads(c: Net, all: seq<N.Event>, e: N.Event)
    requires ThreadsSeen(c, all) && e in all
    ensures ThreadsSeen(N.SupervisorStep(c, e), all)
  {
  }

  lemma {:induction false} SupervisorCalls(c: Net, all: seq<N.Event>, e: N.Event, f: Finisher, reason: Terminal)
    requires AllSeen(c, all) && e in all && ReasonOf(N.SupervisorStep(c, e).Call(f), reason)
    ensures Seen(all, reason)
  {
    if N.SupervisorStep(c, e).Call(f) == c.Call(f) { assert ReasonOf(c.Call(f), reason); }
  }

  lemma {:induction false} SupervisorSeen(c: Net, all: seq<N.Event>, e: N.Event)
    requires AllSeen(c, all) && e in all
    ensures AllSeen(N.SupervisorStep(c, e), all)
  {
    SupervisorThreads(c, all, e);
    forall f, reason | ReasonOf(N.SupervisorStep(c, e).Call(f), reason) ensures Seen(all, reason) {
      SupervisorCalls(c, all, e, f, reason);
    }
  }

  lemma {:induction false} OtherCalls(c: Net, all: seq<N.Event>, e: N.Event, f: Finisher, reason: Terminal)
    requires AllSeen(c, all) && e in all && ReasonOf(N.OtherStep(c, e).Call(f), reason)
    ensures Seen(all, reason)
  {
    if N.OtherStep(c, e).Call(f) == c.Call(f) { assert ReasonOf(c.Call(f), reason); }
  }

  lemma {:induction false} OtherSeen(c: Net, all: seq<N.Event>, e: N.Event)
    requires AllSeen(c, all) && e in all
    ensures AllSeen(N.OtherStep(c, e), all)
  {
    forall f, reason | ReasonOf(N.OtherStep(c, e).Call(f), reason) ensures Seen(all, reason) {
      OtherCalls(c, all, e, f, reason);
    }
  }

  lemma {:induction false} FinishCalls(c: Net, all: seq<N.Event>, e: N.Event, f: Finisher, reason: Terminal)
    requires CallsSeen(c, all) && ReasonOf(N.FinishStep(c, e).Call(f), reason)
    ensures Seen(all, reason)
  {
    assert ReasonOf(c.Call(f), reason);
  }

  lemma {:induction false} FinishLatches(c: Net, all: seq<N.Event>, e: N.Event)
    requires CallsSeen(c, all) && LatchesSeen(c, all)
    ensures LatchesSeen(N.FinishStep(c, e), all)
  {
    if N.IsFinish(e) && (c.Call(e.who).HoldsInner? || c.Call(e.who).Latched?) {
      var reason := c.Call(e.who).reason;
      assert ReasonOf(c.Call(e.who), reason);
      assert Seen(all, reason);
      assert reason.Violation? ==> ViolationSeen(all, reason.kind);
    }
  }

  lemma {:induction false} FinishThreads(c: Net, all: seq<N.Event>, e: N.Event)
    requires ThreadsSeen(c, all)
    ensures ThreadsSeen(N.FinishStep(c, e), all)
  {
    N.FinishAdvances(c, e);
  }

  lemma {:induction false} FinishSeen(c: Net, all: seq<N.Event>, e: N.Event)
    requires AllSeen(c, all)
    ensures AllSeen(N.FinishStep(c, e), all)
  {
    FinishThreads(c, all, e);
    FinishLatches(c, all, e);
    forall f, reason | ReasonOf(N.FinishStep(c, e).Call(f), reason) ensures Seen(all, reason) {
      FinishCalls(c, all, e, f, reason);
    }
  }

  lemma {:induction false} StepSeen(c: Net, events: seq<N.Event>, e: N.Event)
    requires AllSeen(c, events)
    ensures AllSeen(N.Step(c, e), events + [e])
  {
    var all := events + [e];
    SeenStays(c, events, e);
    ReaderSeen(c, all, e);
    SupervisorSeen(c, all, e);
    OtherSeen(c, all, e);
    FinishSeen(c, all, e);
  }

  /** Over every interleaving: the terminal reason and the published violation are ones that were seen. */
  lemma {:induction false} NothingIsInvented(events: seq<N.Event>)
    ensures Run(events).terminal.Some? ==> Seen(events, Run(events).terminal.value)
    ensures Run(events).verdict.Some? ==> ViolationSeen(events, Run(events).verdict.value)
    ensures AllSeen(Run(events), events)
  {
    if events != [] {
      var front, e := events[..|events| - 1], events[|events| - 1];
      NothingIsInvented(front);
      StepSeen(Run(front), front, e);
      assert events == front + [e];
    }
  }
}
