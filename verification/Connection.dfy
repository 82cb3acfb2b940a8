/** A connection and the sweeps it serves: the threads of `Nets` interleaved with the sweeping thread,
    which holds the verdict across its commit (core/store/src/sweep.rs, core/store/src/refresh.rs,
    core/host/src/mux.rs). */
module Connections {
  import opened Base
  import opened Tables
  import N = Nets
  import M = Multiplexing
  import S = Sweeping
  import SweepRuns
  import SweepTheorems

  datatype Sweeper =
    | Free
    | Final(read: S.HistoryRead)                           // the last page is in hand, its transaction open
    | Held(read: S.HistoryRead, verdict: Option<M.Kind>)   // inside `with_violation_held`

  /** `taint` is the refresh's `connection_violation`. */
  datatype Conn = Conn(net: N.Net, sweeper: Sweeper, taint: Option<string>, sys: S.System)

  ghost predicate Opened(c: Conn) {
    c.net == N.OPENED && c.sweeper == Free && c.taint.None? && c.sys.sweep.None? && SweepRuns.Inv(c.sys)
  }

  datatype Event =
    | Thread(event: N.Event)
    | BalancesFail(error: HostError)
    | SweepBegins(input: S.Input)
    | SweepReads(read: S.HistoryRead)
    | SweepReadFails(error: HostError)
    | SweepHolds
    | SweepCommits

  datatype WireCode = UnsupportedProtocol | Unsupported | InvalidRequest | NotReady | Internal

  datatype HostError =
    | Wire(code: WireCode) | Timeout | AdapterCrashed(status: Option<int>) | ProtocolViolation(kind: M.Kind)
    | Spawn(message: string) | IdsExhausted

  /** An adapter that fails honestly has not lied. */
  predicate BrokeTheContract(e: HostError) {
    match e
    case Wire(code) => code == InvalidRequest
    case ProtocolViolation(_) => true
    case _ => false
  }

  /** The taint never clears and never changes: what broke first is what is reported. */
  function Tainted(taint: Option<string>, broke: Option<string>): Option<string> {
    if taint.None? then broke else taint
  }

  function Broke(e: HostError): Option<string> {
    if BrokeTheContract(e) then Some("a reply broke the wire contract") else None
  }

  function Reason(kind: Option<M.Kind>): Option<string> {
    if kind.None? then None else Some("the connection broke the wire contract")
  }

  ghost function Step(c: Conn, e: Event): Conn {
    match e
    case Thread(event) => c.(net := N.Step(c.net, event))
    case BalancesFail(error) => if c.sys.sweep.None? then c.(taint := Tainted(c.taint, Broke(error))) else c
    case SweepBegins(input) =>
      if c.sys.sweep.None? then c.(sys := S.Apply(c.sys, S.BeginSweep(input.(connectionViolation := c.taint)))) else c
    case SweepReads(read) =>
      if c.sys.sweep.None? || c.sweeper != Free then c
      else if SweepTheorems.IsFinal(c.sys.sweep.value, read) then c.(sweeper := Final(read))
      else c.(sys := S.Apply(c.sys, S.Page(read, None)))
    case SweepReadFails(error) =>
      if c.sys.sweep.None? || c.sweeper != Free then c
      else c.(sys := S.Apply(c.sys, S.ReadFailed), taint := Tainted(c.taint, Broke(error)))
    case SweepHolds =>
      if c.sweeper.Final? && c.net.verdictLock.None?
      then c.(sweeper := Held(c.sweeper.read, c.net.verdict), net := c.net.(verdictLock := Some(N.BySweeper))) else c
    case SweepCommits =>
      if c.sweeper.Held?
      then c.(sys := S.Apply(c.sys, S.Page(c.sweeper.read, Reason(c.sweeper.verdict))),
              taint := Tainted(c.taint, Reason(c.sweeper.verdict)), sweeper := Free,
              net := c.net.(verdictLock := None))
      else c
  }

  ghost function Run(c: Conn, events: seq<Event>): Conn
    decreases |events|
  {
    if events == [] then c else Step(Run(c, events[..|events| - 1]), events[|events| - 1])
  }

  // ----- what every interleaving keeps ---------------------------------------------------

  /** What the sweeper saw is the verdict, for as long as it holds it. */
  ghost predicate HeldOk(c: Conn) {
    && N.NetOk(c.net)
    && (c.net.verdictLock == Some(N.BySweeper) <==> c.sweeper.Held?)
    && (c.sweeper.Held? ==> c.sweeper.verdict == c.net.verdict)
  }

  /** Every sweep begun under a taint carries it. */
  ghost predicate SweepOk(c: Conn) {
    && SweepRuns.Inv(c.sys)
    && (c.taint.Some? && c.sys.sweep.Some? ==> c.sys.sweep.value.gate.violation.Some?)
    && (c.sweeper != Free ==> c.sys.sweep.Some? && SweepTheorems.IsFinal(c.sys.sweep.value, c.sweeper.read))
  }

  ghost predicate Inv(c: Conn) { HeldOk(c) && SweepOk(c) }

  lemma {:induction false} LockKeepsNet(n: N.Net, lock: Option<N.Holder>)
    requires N.NetOk(n) && (n.verdictLock.None? || n.verdictLock == Some(N.BySweeper))
    requires lock.None? || lock == Some(N.BySweeper)
    ensures N.NetOk(n.(verdictLock := lock))
  {
    var n' := n.(verdictLock := lock);
    assert forall f :: n'.Call(f) == n.Call(f);
  }

  lemma {:induction false} StepHolds(c: Conn, e: Event)
    requires HeldOk(c)
    ensures HeldOk(Step(c, e))
  {
    match e {
      case Thread(event) => N.StepKeeps(c.net, event);
      case SweepHolds => if c.sweeper.Final? && c.net.verdictLock.None? { LockKeepsNet(c.net, Some(N.BySweeper)); }
      case SweepCommits => if c.sweeper.Held? { LockKeepsNet(c.net, None); }
      case _ =>
    }
  }

  lemma {:induction false} OnPageKeepsViolation(t: Tables, s: S.Sweep, read: S.HistoryRead)
    ensures var step := S.OnPage(t, s, read, None); step.Continue? ==> step.sweep.gate.violation == s.gate.violation
  {
  }

  lemma {:induction false} PageKeepsViolation(sys: S.System, read: S.HistoryRead)
    requires sys.sweep.Some?
    ensures var sys' := S.Apply(sys, S.Page(read, None));
            sys'.sweep.Some? ==> sys'.sweep.value.gate.violation == sys.sweep.value.gate.violation
  {
    OnPageKeepsViolation(sys.tables, sys.sweep.value, read);
    var step := S.OnPage(sys.tables, sys.sweep.value, read, None);
    assert S.Apply(sys, S.Page(read, None)) == S.Settle(sys.tables, step);
  }

  /** The final page ends the sweep, and under a violation it retracts nothing. */
  lemma {:induction false} FinalPageEnds(sys: S.System, read: S.HistoryRead, verdict: Option<string>)
    requires SweepRuns.Inv(sys) && sys.sweep.Some? && SweepTheorems.IsFinal(sys.sweep.value, read)
    ensures S.Apply(sys, S.Page(read, verdict)).sweep.None?
    ensures verdict.Some? || sys.sweep.value.gate.violation.Some? ==>
              S.Apply(sys, S.Page(read, verdict)).tables.retractions == sys.tables.retractions
  {
    var t, s := sys.tables, sys.sweep.value;
    SweepTheorems.FinalPageConcludes(t, s, read, verdict);
    SweepTheorems.FinalPageConcludesItself(t, s, read, verdict);
    var (t1, s1) := SweepTheorems.AtCommit(t, s, read);
    SweepTheorems.GateOpensIff(S.HoldVerdict(s1.gate, verdict));
  }

  lemma {:induction false} BeginSweeps(c: Conn, input: S.Input)
    requires SweepOk(c) && c.sys.sweep.None?
    ensures SweepOk(Step(c, SweepBegins(input)))
  {
    SweepRuns.ApplyKeeps(c.sys, S.BeginSweep(input.(connectionViolation := c.taint)));
  }

  lemma {:induction false} ReadSweeps(c: Conn, read: S.HistoryRead)
    requires SweepOk(c) && c.sys.sweep.Some? && c.sweeper == Free
    ensures SweepOk(Step(c, SweepReads(read)))
  {
    if !SweepTheorems.IsFinal(c.sys.sweep.value, read) {
      SweepRuns.ApplyKeeps(c.sys, S.Page(read, None));
      PageKeepsViolation(c.sys, read);
    }
  }

  lemma {:induction false} StepSweeps(c: Conn, e: Event)
    requires SweepOk(c)
    ensures SweepOk(Step(c, e))
  {
    match e {
      case SweepBegins(input) => if c.sys.sweep.None? { BeginSweeps(c, input); }
      case SweepReads(read) => if c.sys.sweep.Some? && c.sweeper == Free { ReadSweeps(c, read); }
      case SweepReadFails(_) => SweepRuns.ApplyKeeps(c.sys, S.ReadFailed);
      case SweepCommits =>
        if c.sweeper.Held? {
          SweepRuns.ApplyKeeps(c.sys, S.Page(c.sweeper.read, Reason(c.sweeper.verdict)));
          FinalPageEnds(c.sys, c.sweeper.read, Reason(c.sweeper.verdict));
        }
      case _ =>
    }
  }

  lemma {:induction false} RunKeeps(c: Conn, events: seq<Event>)
    requires Opened(c)
    ensures Inv(Run(c, events))
  {
    if events != [] {
      var front := Run(c, events[..|events| - 1]);
      RunKeeps(c, events[..|events| - 1]);
      StepHolds(front, events[|events| - 1]);
      StepSweeps(front, events[|events| - 1]);
    }
  }

  lemma {:induction false} RunOn(c: Conn, events: seq<Event>, more: seq<Event>)
    requires more != []
    ensures Run(c, events + more) == Step(Run(c, events + more[..|more| - 1]), more[|more| - 1])
  {
    assert (events + more)[..|events + more| - 1] == events + more[..|more| - 1];
  }

  // ----- no retraction after a violation -------------------------------------------------

  /** The host knows this connection broke the contract: a violation is published, or a reply it judged
      itself tainted the refresh. */
  predicate Caught(c: Conn) { c.net.verdict.Some? || c.taint.Some? }

  lemma {:induction false} StaysCaught(c: Conn, e: Event)
    requires HeldOk(c) && Caught(c)
    ensures Caught(Step(c, e))
  {
    if e.Thread? { N.StepKeeps(c.net, e.event); }
  }

  lemma {:induction false} ReadRetractsNothing(c: Conn, read: S.HistoryRead)
    requires SweepRuns.Inv(c.sys) && c.sys.sweep.Some?
    ensures Step(c, SweepReads(read)).sys.tables.retractions == c.sys.tables.retractions
  {
    if !SweepTheorems.IsFinal(c.sys.sweep.value, read) {
      SweepTheorems.OtherPagesConcludeNothing(c.sys.tables, c.sys.sweep.value, read, None);
    }
  }

  lemma {:induction false} CaughtStepRetractsNothing(c: Conn, e: Event)
    requires Inv(c) && Caught(c)
    ensures Step(c, e).sys.tables.retractions == c.sys.tables.retractions
  {
    match e {
      case SweepReads(read) => if c.sys.sweep.Some? { ReadRetractsNothing(c, read); }
      case SweepCommits =>
        if c.sweeper.Held? { FinalPageEnds(c.sys, c.sweeper.read, Reason(c.sweeper.verdict)); }
      case _ =>
    }
  }

  /** In every interleaving: once a violation has been published, or the refresh is tainted, no later
      commit on the connection carries a retraction. */
  lemma {:induction false} NoRetractionAfterViolation(c: Conn, events: seq<Event>, more: seq<Event>)
    requires Opened(c) && Caught(Run(c, events))
    ensures Caught(Run(c, events + more))
    ensures Run(c, events + more).sys.tables.retractions == Run(c, events).sys.tables.retractions
  {
    if more == [] {
      assert events + more == events;
    } else {
      var front, e := more[..|more| - 1], more[|more| - 1];
      NoRetractionAfterViolation(c, events, front);
      RunOn(c, events, more);
      RunKeeps(c, events + front);
      CaughtStepRetractsNothing(Run(c, events + front), e);
      StaysCaught(Run(c, events + front), e);
    }
  }

  // ----- the latches ---------------------------------------------------------------------

  lemma {:induction false} StepLatches(c: Conn, e: Event)
    requires HeldOk(c)
    ensures N.Keeps(c.net, Step(c, e).net)
  {
    if e.Thread? { N.StepKeeps(c.net, e.event); }
  }

  /** Terminal reason and verdict are each set at most once, in every interleaving. */
  lemma {:induction false} LatchedOnce(c: Conn, events: seq<Event>, more: seq<Event>)
    requires Opened(c)
    ensures N.Keeps(Run(c, events).net, Run(c, events + more).net)
  {
    if more == [] {
      assert events + more == events;
    } else {
      var front, e := more[..|more| - 1], more[|more| - 1];
      LatchedOnce(c, events, front);
      RunOn(c, events, more);
      RunKeeps(c, events + front);
      StepLatches(Run(c, events + front), e);
    }
  }

  /** Whoever can read a violation as the terminal reason can read it as the verdict. */
  lemma {:induction false} ViolationIsPublished(c: Conn, events: seq<Event>)
    requires Opened(c)
    ensures var n := Run(c, events).net;
      n.terminal.Some? && n.terminal.value.Violation? && n.innerLock.None? ==> n.verdict.Some?
  {
    RunKeeps(c, events);
  }

  /** Unless a shutdown came before the reader's kill request, any latched reason and the end of the
      drain, or a write timed out before any reason was latched: once the reader has published a violation
      the connection never ends as crashed, and if its supervisor has finished it ended in a violation. */
  lemma {:induction false} CaughtNeverCrashed(c: Conn, events: seq<Event>)
    requires Opened(c)
    requires var n := Run(c, events).net; !n.shutdownFirst && !n.timeoutFirst && n.ReaderCaught()
    ensures var n := Run(c, events).net;
      && n.verdict.Some?
      && (n.terminal.Some? ==> n.terminal.value.Violation?)
      && (n.SupervisorOver() ==> n.terminal.Some?)
  {
    RunKeeps(c, events);
  }

  /** Both exclusions are real. A shutdown while the child still runs and the reader has nothing to say
      yet, whatever else has happened: the reader's request will find the channel taken, and the connection
      can end caught, without any reason latched. */
  lemma {:induction false} ShutdownHidesTheReason(n: N.Net)
    requires n.reader == N.Reading && n.supervision == N.Waiting && n.terminal.None? && n.kill.None?
    requires n.verdict.None? && n.verdictLock.None?
    ensures var n1 := N.Step(N.Step(n, N.HostShutsDown), N.ReaderJudges(M.NotJson));
            var n2 := N.Step(N.Step(N.Step(n1, N.ReaderLocks), N.ReaderPublishes), N.ReaderKills);
            var n3 := N.Step(N.Step(n2, N.KillReceived), N.ChildReaped);
      && n3.shutdownFirst && n3.timeoutFirst == n.timeoutFirst
      && n3.ReaderCaught() && n3.SupervisorOver() && n3.terminal.None? && n3.verdict == Some(M.NotJson)
  {
    var shut := N.Step(n, N.HostShutsDown);
    Publishes(shut);
    var n2 := N.Step(shut.(reader := N.Published(M.NotJson), verdict := Some(M.NotJson)), N.ReaderKills);
    assert n2 == shut.(reader := N.Stopped(Some(M.NotJson)), verdict := Some(M.NotJson));
  }

  /** The same while the child has exited and the reader is being joined: the connection can end caught,
      and latched as crashed. */
  lemma {:induction false} LateShutdownHidesTheReason(n: N.Net)
    requires n.reader == N.Reading && n.supervision == N.Exited && n.terminal.None? && n.kill.None?
    requires n.verdict.None? && n.verdictLock.None? && n.innerLock.None? && n.calls == map[]
    ensures var n1 := N.Step(N.Step(n, N.HostShutsDown), N.ReaderJudges(M.NotJson));
            var n2 := N.Step(N.Step(N.Step(n1, N.ReaderLocks), N.ReaderPublishes), N.ReaderKills);
            var n3 := N.Step(N.Step(n2, N.ReaderJoined), N.SupervisorDecides(Some(0)));
            var n4 := N.Step(N.Step(n3, N.FinishVerdict(N.Supervisor)), N.FinishInner(N.Supervisor));
            var n5 := N.Step(N.Step(n4, N.FinishDecides(N.Supervisor)), N.FinishPublishes(N.Supervisor));
      && n5.shutdownFirst && n5.timeoutFirst == n.timeoutFirst
      && n5.ReaderCaught() && n5.terminal == Some(M.Crashed(Some(0))) && n5.verdict == Some(M.NotJson)
  {
    var shut := N.Step(n, N.HostShutsDown);
    Publishes(shut);
    var n2 := N.Step(shut.(reader := N.Published(M.NotJson), verdict := Some(M.NotJson)), N.ReaderKills);
    assert n2 == shut.(reader := N.Stopped(Some(M.NotJson)), verdict := Some(M.NotJson));
    DecidesCrashed(n2);
    var n3 := n2.(supervision := N.Finishes, kill := None,
                  calls := map[N.Supervisor := N.Called(M.Crashed(Some(0)))]);
    SupervisorTakesInner(n3);
    SupervisorWins(n3.(innerLock := Some(N.ByFinisher(N.Supervisor)),
                       calls := map[N.Supervisor := N.HoldsInner(M.Crashed(Some(0)))]));
  }

  lemma {:induction false} DecidesCrashed(n: N.Net)
    requires n.supervision == N.Exited && n.reader.Stopped? && n.kill == Some(None) && n.calls == map[]
    ensures N.Step(N.Step(n, N.ReaderJoined), N.SupervisorDecides(Some(0)))
            == n.(supervision := N.Finishes, kill := None, calls := map[N.Supervisor := N.Called(M.Crashed(Some(0)))])
  {
    assert N.Step(n, N.ReaderJoined) == n.(supervision := N.Drained(true));
  }

  /** The supervisor's call of `finish` takes inner. */
  lemma {:induction false} SupervisorTakesInner(n: N.Net)
    requires n.calls == map[N.Supervisor := N.Called(M.Crashed(Some(0)))] && n.innerLock.None?
    ensures N.Step(N.Step(n, N.FinishVerdict(N.Supervisor)), N.FinishInner(N.Supervisor))
            == n.(innerLock := Some(N.ByFinisher(N.Supervisor)),
                  calls := map[N.Supervisor := N.HoldsInner(M.Crashed(Some(0)))])
  {
    var past := N.Step(n, N.FinishVerdict(N.Supervisor));
    assert past == n.(calls := map[N.Supervisor := N.PastVerdict(M.Crashed(Some(0)))]);
  }

  /** Nobody was first: the supervisor's reason is latched. */
  lemma {:induction false} SupervisorWins(n: N.Net)
    requires n.calls == map[N.Supervisor := N.HoldsInner(M.Crashed(Some(0)))] && n.terminal.None?
    ensures N.Step(N.Step(n, N.FinishDecides(N.Supervisor)), N.FinishPublishes(N.Supervisor))
            == n.(terminal := Some(M.Crashed(Some(0))), innerLock := None, calls := map[N.Supervisor := N.Returned])
  {
    var latched := N.Step(n, N.FinishDecides(N.Supervisor));
    assert latched == n.(terminal := Some(M.Crashed(Some(0))),
                         calls := map[N.Supervisor := N.Latched(M.Crashed(Some(0)))]);
  }

  /** The reader's three steps from a fatal frame to its publication. */
  lemma {:induction false} Publishes(n: N.Net)
    requires n.reader == N.Reading && n.verdict.None? && n.verdictLock.None?
    ensures N.Step(N.Step(N.Step(n, N.ReaderJudges(M.NotJson)), N.ReaderLocks), N.ReaderPublishes)
            == n.(reader := N.Published(M.NotJson), verdict := Some(M.NotJson))
  {
    var judged := N.Step(n, N.ReaderJudges(M.NotJson));
    assert judged == n.(reader := N.Judged(M.NotJson));
    var held := N.Step(judged, N.ReaderLocks);
    assert held == n.(reader := N.Publishing(M.NotJson), verdictLock := Some(N.ByReader));
  }

  /** A write times out, and the pump's call of `finish` takes inner. */
  lemma {:induction false} PumpTakesInner(n: N.Net)
    requires n.calls == map[] && n.terminal.None? && n.innerLock.None? && n.kill.None?
    ensures N.Step(N.Step(N.Step(n, N.WriteTimesOut), N.FinishVerdict(N.Pump)), N.FinishInner(N.Pump))
            == n.(kill := Some(None), timeoutFirst := true, innerLock := Some(N.ByFinisher(N.Pump)),
                  calls := map[N.Pump := N.HoldsInner(M.Crashed(None))])
  {
    var timed := N.Step(n, N.WriteTimesOut);
    assert timed == n.(kill := Some(None), timeoutFirst := true, calls := map[N.Pump := N.Called(M.Crashed(None))]);
    var past := N.Step(timed, N.FinishVerdict(N.Pump));
    assert past == timed.(calls := map[N.Pump := N.PastVerdict(M.Crashed(None))]);
  }

  /** Nobody was first: the pump's reason is latched. */
  lemma {:induction false} PumpWins(n: N.Net)
    requires n.calls == map[N.Pump := N.HoldsInner(M.Crashed(None))] && n.terminal.None?
    ensures N.Step(N.Step(n, N.FinishDecides(N.Pump)), N.FinishPublishes(N.Pump))
            == n.(terminal := Some(M.Crashed(None)), innerLock := None, calls := map[N.Pump := N.Returned])
  {
    var latched := N.Step(n, N.FinishDecides(N.Pump));
    assert latched == n.(terminal := Some(M.Crashed(None)), calls := map[N.Pump := N.Latched(M.Crashed(None))]);
  }

  /** A write timing out while nobody has ended the connection, caught or not: the pump's own reason can
      win, and a connection already caught ends as crashed. */
  lemma {:induction false} WriteTimeoutHidesTheReason(n: N.Net)
    requires n.reader == N.Reading && n.terminal.None? && n.kill.None? && n.calls == map[]
    requires n.verdict.None? && n.verdictLock.None? && n.innerLock.None?
    ensures var n1 := N.Step(N.Step(N.Step(n, N.ReaderJudges(M.NotJson)), N.ReaderLocks), N.ReaderPublishes);
            var n2 := N.Step(N.Step(N.Step(n1, N.WriteTimesOut), N.FinishVerdict(N.Pump)), N.FinishInner(N.Pump));
            var n3 := N.Step(N.Step(n2, N.FinishDecides(N.Pump)), N.FinishPublishes(N.Pump));
      && n3.timeoutFirst && n3.shutdownFirst == n.shutdownFirst
      && n3.ReaderCaught() && n3.terminal == Some(M.Crashed(None)) && n3.verdict == Some(M.NotJson)
  {
    var n1 := n.(reader := N.Published(M.NotJson), verdict := Some(M.NotJson));
    Publishes(n);
    PumpTakesInner(n1);
    PumpWins(n1.(kill := Some(None), timeoutFirst := true, innerLock := Some(N.ByFinisher(N.Pump)),
                 calls := map[N.Pump := N.HoldsInner(M.Crashed(None))]));
  }

  // ----- no deadlock ---------------------------------------------------------------------

  lemma {:induction false} RunTwo(c: Conn, events: seq<Event>, a: N.Event, b: N.Event)
    ensures Run(c, events + [Thread(a), Thread(b)]).net == N.Step(N.Step(Run(c, events).net, a), b)
  {
    var more := [Thread(a), Thread(b)];
    RunOn(c, events, more);
    assert more[..1] == [Thread(a)];
    RunOn(c, events, more[..1]);
    assert events + more[..1][..0] == events;
  }

  lemma {:induction false} RunThree(c: Conn, events: seq<Event>, a: N.Event, b: N.Event, d: N.Event)
    ensures Run(c, events + [Thread(a), Thread(b), Thread(d)]).net
            == N.Step(N.Step(N.Step(Run(c, events).net, a), b), d)
  {
    RunTwo(c, events, a, b);
    RunOne(c, events + [Thread(a), Thread(b)], Thread(d));
    assert events + [Thread(a), Thread(b), Thread(d)] == events + [Thread(a), Thread(b)] + [Thread(d)];
  }

  lemma {:induction false} RunOne(c: Conn, events: seq<Event>, e: Event)
    ensures Run(c, events + [e]) == Step(Run(c, events), e)
  {
    RunOn(c, events, [e]);
    assert events + [e][..0] == events;
  }

  /** From every reachable state inner can be released, without the verdict's holder losing anything but
      the verdict. */
  lemma {:induction false} InnerIsReleased(c: Conn, events: seq<Event>) returns (more: seq<Event>)
    requires Opened(c)
    ensures |more| <= 2 && Run(c, events + more).net.innerLock.None?
  {
    RunKeeps(c, events);
    var n := Run(c, events).net;
    if n.innerLock.None? {
      more := [];
      assert events + more == events;
    } else {
      var a, b := N.InnerCanBeReleased(n);
      more := [Thread(a), Thread(b)];
      RunTwo(c, events, a, b);
    }
  }

  lemma {:induction false} VerdictIsReleased(c: Conn, events: seq<Event>) returns (more: seq<Event>)
    requires Opened(c) && Run(c, events).net.innerLock.None?
    ensures |more| <= 3 && Run(c, events + more).net.innerLock.None? && Run(c, events + more).net.verdictLock.None?
  {
    RunKeeps(c, events);
    var s := Run(c, events);
    if s.net.verdictLock.None? {
      more := [];
      assert events + more == events;
    } else if s.net.verdictLock == Some(N.BySweeper) {
      more := [SweepCommits];
      RunOne(c, events, SweepCommits);
    } else {
      var a, b, d := N.VerdictCanBeReleased(s.net);
      RunThree(c, events, a, b, d);
      more := [Thread(a), Thread(b), Thread(d)];
    }
  }

  /** The two locks cannot deadlock: from every reachable state, whoever holds them, five steps of the
      threads involved leave both free. */
  lemma {:induction false} LocksAreReleased(c: Conn, events: seq<Event>) returns (more: seq<Event>)
    requires Opened(c)
    ensures |more| <= 5 && Run(c, events + more).net.innerLock.None? && Run(c, events + more).net.verdictLock.None?
  {
    var first := InnerIsReleased(c, events);
    var second := VerdictIsReleased(c, events + first);
    more := first + second;
    Regroup(events, first, second);
  }

  lemma {:induction false} Regroup(events: seq<Event>, first: seq<Event>, second: seq<Event>)
    ensures events + (first + second) == events + first + second
  {
  }
}
