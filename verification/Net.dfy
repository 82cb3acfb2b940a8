/** One connection's threads and locks: the small steps of its reader, supervisor, closer and pump
    (core/host/src/mux.rs, core/host/src/process.rs, core/host/src/lib.rs). Any interleaving of the
    steps is a run. */
module Nets {
  import opened Base
  import opened M = Multiplexing

  /** Those who call `finish`. */
  datatype Finisher = Supervisor | Closer | Pump

  datatype Holder = ByReader | BySweeper | ByFinisher(who: Finisher)

  /** Where a call of `finish` stands: verdict first, then inner, then the terminal reason, then the
      publication, then both locks go. */
  datatype Finishing =
    | NotCalled
    | Called(reason: Terminal)
    | PastVerdict(reason: Terminal)       // holds the verdict if the reason publishes
    | HoldsInner(reason: Terminal)
    | Latched(reason: Terminal)           // the reason is set, nothing published yet
    | Returned

  datatype Reader =
    | Reading
    | Delivering                          // inside `deliver`, holding inner
    | Judged(kind: Kind)                  // a fatal frame, not yet published
    | Publishing(kind: Kind)              // holding the verdict
    | Published(kind: Kind)               // the kill is still to be asked for
    | Stopped(published: Option<Kind>)

  datatype Supervision =
    | Waiting
    | Exited                              // reaped; joining the reader
    | Drained(ok: bool)
    | Killing(message: Option<Kind>)
    | Finishes                            // its call of `finish` is under way or over
    | Gone                                // a deliberate shutdown: nothing to report

  datatype Net = Net(
    verdict: Option<Kind>, verdictLock: Option<Holder>,
    terminal: Option<Terminal>, innerLock: Option<Holder>,
    kill: Option<Option<Kind>>,           // the kill channel, of capacity one
    exited: bool, shutdown: bool,
    reader: Reader, supervision: Supervision, calls: map<Finisher, Finishing>,
    shutdownFirst: bool,                  // history only: a shutdown came before the reader's kill request,
                                          // before any reason was latched and before the drain was over
    timeoutFirst: bool)                   // history only: a write timed out before any reason was latched
  {
    function Call(f: Finisher): Finishing { if f in calls then calls[f] else NotCalled }

    predicate SupervisorOver() { supervision == Gone || (supervision == Finishes && Call(Supervisor) == Returned) }

    /** The reader has published a violation. */
    predicate ReaderCaught() { reader.Published? || KillRequested() }

    /** The supervisor may still be told of a kill, or find the stream drained. */
    predicate Draining() { supervision == Waiting || supervision == Exited }

    /** The reader has published a violation and asked for the kill. */
    predicate KillRequested() { reader.Stopped? && reader.published.Some? }
  }

  const OPENED: Net := Net(None, None, None, None, None, false, false, Reading, Waiting, map[], false, false)

  datatype Event =
    | ReaderDelivers | ReaderDelivered | ReaderJudges(kind: Kind) | ReaderLocks | ReaderPublishes | ReaderKills
    | ReaderEnds
    | ChildExits | KillReceived | KillClosed | ChildReaped | ReaderJoined | DrainTimesOut
    | SupervisorDecides(status: Option<int>)
    | CloseTimesOut | WriteTimesOut | HostShutsDown
    | FinishVerdict(who: Finisher) | FinishInner(who: Finisher) | FinishDecides(who: Finisher)
    | FinishPublishes(who: Finisher)

  function Latch(verdict: Option<Kind>, kind: Kind): Option<Kind> { if verdict.None? then Some(kind) else verdict }

  function TrySend(kill: Option<Option<Kind>>, message: Option<Kind>): Option<Option<Kind>> {
    if kill.None? then Some(message) else kill
  }

  // ----- the steps; one that is not enabled changes nothing ------------------------------

  /** `read_loop`: a fatal frame is published first, and only then is the kill asked for. */
  function ReaderStep(c: Net, e: Event): Net {
    match e
    case ReaderDelivers =>
      if c.reader == Reading && c.innerLock.None? then c.(reader := Delivering, innerLock := Some(ByReader)) else c
    case ReaderDelivered => if c.reader == Delivering then c.(reader := Reading, innerLock := None) else c
    case ReaderJudges(kind) => if c.reader == Reading then c.(reader := Judged(kind)) else c
    case ReaderLocks =>
      if c.reader.Judged? && c.verdictLock.None?
      then c.(reader := Publishing(c.reader.kind), verdictLock := Some(ByReader)) else c
    case ReaderPublishes =>
      if c.reader.Publishing?
      then c.(reader := Published(c.reader.kind), verdict := Latch(c.verdict, c.reader.kind), verdictLock := None)
      else c
    case ReaderKills =>
      if c.reader.Published?
      then c.(reader := Stopped(Some(c.reader.kind)), kill := TrySend(c.kill, Some(c.reader.kind))) else c
    case ReaderEnds => if c.reader == Reading then c.(reader := Stopped(None)) else c
    case _ => c
  }

  /** `supervise`: the race of exit and kill request, and what each outcome latches. */
  function SupervisorStep(c: Net, e: Event): Net {
    match e
    case ChildExits => if c.supervision == Waiting then c.(supervision := Exited, exited := true) else c
    case KillReceived =>
      if c.supervision == Waiting && c.kill.Some? then c.(supervision := Killing(c.kill.value), kill := None) else c
    case KillClosed =>
      if c.supervision == Waiting && c.kill.None? && c.shutdown then c.(supervision := Killing(None)) else c
    case ChildReaped =>
      if !c.supervision.Killing? then c
      else if c.supervision.message.None? then c.(supervision := Gone, exited := true)
      else c.(supervision := Finishes, exited := true,
              calls := c.calls[Supervisor := Called(Violation(c.supervision.message.value))])
    case ReaderJoined => if c.supervision == Exited && c.reader.Stopped? then c.(supervision := Drained(true)) else c
    case DrainTimesOut => if c.supervision == Exited && !c.reader.Stopped? then c.(supervision := Drained(false)) else c
    case SupervisorDecides(status) =>
      if !c.supervision.Drained? then c
      else
        var reason := if c.kill.Some? && c.kill.value.Some? then Violation(c.kill.value.value)
                      else if !c.supervision.ok then Violation(StdoutHeldOpen)
                      else Crashed(status);
        c.(supervision := Finishes, kill := None, calls := c.calls[Supervisor := Called(reason)])
    case _ => c
  }

  /** `close`, a write that outlives its deadline, and a deliberate shutdown. */
  function OtherStep(c: Net, e: Event): Net {
    match e
    case CloseTimesOut =>
      if c.Call(Closer) == NotCalled && !c.SupervisorOver()
      then c.(calls := c.calls[Closer := Called(Violation(if c.exited then StdoutHeldOpen else StdinEofIgnored))])
      else c
    case WriteTimesOut =>
      if c.Call(Pump) == NotCalled
      then c.(kill := TrySend(c.kill, None), calls := c.calls[Pump := Called(Crashed(None))],
              timeoutFirst := c.timeoutFirst || c.terminal.None?)
      else c
    case HostShutsDown =>
      c.(shutdown := true, kill := TrySend(c.kill, None),
         shutdownFirst := c.shutdownFirst || (c.terminal.None? && !c.KillRequested() && c.Draining()))
    case _ => c
  }

  /** `finish`, one lock operation at a time. */
  function FinishStep(c: Net, e: Event): Net {
    match e
    case FinishVerdict(who) =>
      var call := c.Call(who);
      if !call.Called? then c
      else if call.reason.Crashed? then c.(calls := c.calls[who := PastVerdict(call.reason)])
      else if c.verdictLock.None?
      then c.(verdictLock := Some(ByFinisher(who)), calls := c.calls[who := PastVerdict(call.reason)])
      else c
    case FinishInner(who) =>
      var call := c.Call(who);
      if call.PastVerdict? && c.innerLock.None?
      then c.(innerLock := Some(ByFinisher(who)), calls := c.calls[who := HoldsInner(call.reason)]) else c
    case FinishDecides(who) =>
      var call := c.Call(who);
      if !call.HoldsInner? then c
      else if c.terminal.Some? then Release(c, who, call.reason)
      else c.(terminal := Some(call.reason), calls := c.calls[who := Latched(call.reason)])
    case FinishPublishes(who) =>
      var call := c.Call(who);
      if !call.Latched? then c
      else Release(c.(verdict := if call.reason.Violation? then Latch(c.verdict, call.reason.kind) else c.verdict), who,
                   call.reason)
    case _ => c
  }

  function Release(c: Net, who: Finisher, reason: Terminal): Net {
    c.(innerLock := None, verdictLock := if reason.Violation? then None else c.verdictLock,
       calls := c.calls[who := Returned])
  }

  function Step(c: Net, e: Event): Net {
    if e.ReaderDelivers? || e.ReaderDelivered? || e.ReaderJudges? || e.ReaderLocks? || e.ReaderPublishes?
       || e.ReaderKills? || e.ReaderEnds? then ReaderStep(c, e)
    else if e.FinishVerdict? || e.FinishInner? || e.FinishDecides? || e.FinishPublishes? then FinishStep(c, e)
    else if e.CloseTimesOut? || e.WriteTimesOut? || e.HostShutsDown? then OtherStep(c, e)
    else SupervisorStep(c, e)
  }

  // ----- what every interleaving keeps ---------------------------------------------------

  predicate HoldsVerdict(f: Finishing) { (f.PastVerdict? || f.HoldsInner? || f.Latched?) && f.reason.Violation? }

  predicate CarriesCrash(f: Finishing) {
    (f.Called? || f.PastVerdict? || f.HoldsInner? || f.Latched?) && f.reason.Crashed?
  }

  ghost predicate LocksOk(c: Net) {
    && (c.supervision == Finishes <==> c.Call(Supervisor) != NotCalled)
    && (c.verdictLock == Some(ByReader) <==> c.reader.Publishing?)
    && (forall f :: c.verdictLock == Some(ByFinisher(f)) <==> HoldsVerdict(c.Call(f)))
    && (c.innerLock == Some(ByReader) <==> c.reader == Delivering)
    && c.innerLock != Some(BySweeper)
    && (forall f :: c.innerLock == Some(ByFinisher(f)) <==> c.Call(f).HoldsInner? || c.Call(f).Latched?)
  }

  /** A violation reason is published, or its publication is under way with both locks held. */
  ghost predicate LatchesOk(c: Net) {
    && (c.terminal.Some? && c.terminal.value.Violation? ==>
          c.verdict.Some? || exists f :: c.innerLock == Some(ByFinisher(f)) && c.Call(f).Latched?)
    && (forall f :: c.Call(f).Latched? ==> c.terminal == Some(c.Call(f).reason))
    && (forall f :: c.Call(f) == Returned ==> c.terminal.Some?)
    && (c.ReaderCaught() ==> c.verdict.Some?)
  }

  /** The supervisor has taken a kill request, or is past waiting for one. */
  predicate Acted(c: Net) { c.supervision == Finishes || (c.supervision.Killing? && c.supervision.message.Some?) }

  /** Until a reason is latched, with no shutdown or write timeout first: the reader's kill request is
      waiting, or the supervisor acted on one, and nobody else can end the connection as crashed. */
  ghost predicate KillOk(c: Net) {
    !c.shutdownFirst && !c.timeoutFirst ==>
      if c.terminal.Some? then c.terminal.value.Crashed? ==> c.reader == Stopped(None)
      else
        && (c.kill.Some? ==> if c.kill.value.Some? then c.KillRequested() else Acted(c) || c.supervision.Drained?)
        && (c.shutdown ==> c.KillRequested() || Acted(c) || c.supervision.Drained?)
        && c.Call(Pump) == NotCalled && !CarriesCrash(c.Call(Closer))
        && c.supervision != Gone && c.supervision != Killing(None)
        && (c.supervision == Drained(true) ==> c.reader.Stopped?)
        && (CarriesCrash(c.Call(Supervisor)) ==> c.reader == Stopped(None))
        && (c.KillRequested() ==>
              (c.kill.Some? && c.kill.value.Some?) || Acted(c) || c.supervision == Drained(false))
  }

  ghost predicate NetOk(c: Net) { LocksOk(c) && LatchesOk(c) && KillOk(c) }

  /** The sweeper's lock excludes every publisher; no one else takes it for the sweeper. */
  ghost predicate Excluded(c: Net, c': Net) {
    && (c.verdictLock == Some(BySweeper) ==> c'.verdictLock == Some(BySweeper) && c'.verdict == c.verdict)
    && (c.verdictLock != Some(BySweeper) ==> c'.verdictLock != Some(BySweeper))
  }

  /** First value wins, for both latches. */
  predicate Keeps(c: Net, c': Net) {
    (c.terminal.Some? ==> c'.terminal == c.terminal) && (c.verdict.Some? ==> c'.verdict == c.verdict)
  }

  /** Only `who`'s call of `finish` may have moved. */
  ghost predicate OnlyCall(c: Net, c': Net, who: Finisher) { forall f :: f != who ==> c'.Call(f) == c.Call(f) }

  lemma {:induction false} ReaderKeepsLocks(c: Net, e: Event)
    requires LocksOk(c)
    ensures LocksOk(ReaderStep(c, e))
  {
    assert OnlyCall(c, ReaderStep(c, e), Pump) && OnlyCall(c, ReaderStep(c, e), Closer);
  }

  /** A step of the reader, seen from the latches. */
  ghost predicate ReaderLatches(c: Net, c': Net) {
    && c'.calls == c.calls && c'.terminal == c.terminal && Keeps(c, c') && Excluded(c, c')
    && (c.innerLock.Some? && c.innerLock.value.ByFinisher? ==> c'.innerLock == c.innerLock)
    && (c'.ReaderCaught() ==> c.ReaderCaught() || c'.verdict.Some?)
  }

  lemma {:induction false} ReaderStepLatches(c: Net, e: Event)
    requires LocksOk(c)
    ensures ReaderLatches(c, ReaderStep(c, e))
  {
  }

  lemma {:induction false} ReaderKeepsLatches(c: Net, e: Event)
    requires LocksOk(c) && LatchesOk(c)
    ensures LatchesOk(ReaderStep(c, e)) && Excluded(c, ReaderStep(c, e)) && Keeps(c, ReaderStep(c, e))
  {
    ReaderStepLatches(c, e);
    LatchedByReader(c, ReaderStep(c, e));
  }

  lemma {:induction false} LatchedByReader(c: Net, c': Net)
    requires LatchesOk(c) && ReaderLatches(c, c')
    ensures LatchesOk(c')
  {
    assert forall f :: c'.Call(f) == c.Call(f);
    if c.terminal.Some? && c.terminal.value.Violation? && c.verdict.None? {
      var f :| c.innerLock == Some(ByFinisher(f)) && c.Call(f).Latched?;
      assert c'.innerLock == Some(ByFinisher(f)) && c'.Call(f).Latched?;
    }
  }

  /** A step of the reader, seen from the kill channel: nothing once it has stopped; otherwise it goes on,
      just ends, or asks for the kill. */
  ghost predicate ReaderMoves(c: Net, c': Net) {
    && c'.calls == c.calls && c'.supervision == c.supervision && c'.terminal == c.terminal && c'.shutdown == c.shutdown
    && c'.shutdownFirst == c.shutdownFirst && c'.timeoutFirst == c.timeoutFirst
    && (c.reader.Stopped? ==> c'.reader == c.reader)
    && c'.kill == (if c.reader.Published? && c'.KillRequested() then TrySend(c.kill, c'.reader.published) else c.kill)
    && (c'.KillRequested() ==> c.reader.Published? || c.KillRequested())
  }

  lemma {:induction false} ReaderStepMoves(c: Net, e: Event)
    ensures ReaderMoves(c, ReaderStep(c, e))
  {
  }

  lemma {:induction false} ReaderMoveKeepsKill(c: Net, c': Net)
    requires KillOk(c) && ReaderMoves(c, c')
    ensures KillOk(c')
  {
    assert forall f :: c'.Call(f) == c.Call(f);
  }

  lemma {:induction false} ReaderKeepsKill(c: Net, e: Event)
    requires KillOk(c)
    ensures KillOk(ReaderStep(c, e))
  {
    ReaderStepMoves(c, e);
    ReaderMoveKeepsKill(c, ReaderStep(c, e));
  }

  /** A step that at most begins a call of `finish`. */
  ghost predicate Starts(c: Net, c': Net, who: Finisher) {
    && OnlyCall(c, c', who)
    && (c'.Call(who) == c.Call(who) || (c.Call(who) == NotCalled && c'.Call(who).Called?))
    && c'.verdict == c.verdict && c'.terminal == c.terminal && c'.reader == c.reader
    && c'.verdictLock == c.verdictLock && c'.innerLock == c.innerLock
  }

  lemma {:induction false} StartKeepsLatches(c: Net, c': Net, who: Finisher)
    requires LatchesOk(c) && Starts(c, c', who)
    ensures LatchesOk(c') && Excluded(c, c') && Keeps(c, c')
  {
    forall f
      ensures c'.Call(f).Latched? ==> c'.terminal == Some(c'.Call(f).reason)
      ensures c'.Call(f) == Returned ==> c'.terminal.Some?
    {
      assert f != who ==> c'.Call(f) == c.Call(f);
    }
    if c.terminal.Some? && c.terminal.value.Violation? && c.verdict.None? {
      var f :| c.innerLock == Some(ByFinisher(f)) && c.Call(f).Latched?;
      assert c'.innerLock == Some(ByFinisher(f)) && c'.Call(f).Latched?;
    }
  }

  lemma {:induction false} SupervisorStarts(c: Net, e: Event)
    requires LocksOk(c)
    ensures Starts(c, SupervisorStep(c, e), Supervisor)
  {
  }

  lemma {:induction false} SupervisorKeepsLocks(c: Net, e: Event)
    requires LocksOk(c)
    ensures LocksOk(SupervisorStep(c, e))
  {
    SupervisorStarts(c, e);
  }

  lemma {:induction false} SupervisorKeepsLatches(c: Net, e: Event)
    requires LocksOk(c) && LatchesOk(c)
    ensures LatchesOk(SupervisorStep(c, e)) && Excluded(c, SupervisorStep(c, e)) && Keeps(c, SupervisorStep(c, e))
  {
    SupervisorStarts(c, e);
    StartKeepsLatches(c, SupervisorStep(c, e), Supervisor);
  }

  lemma {:induction false} DecideKeepsKill(c: Net, status: Option<int>)
    requires LocksOk(c) && KillOk(c) && c.supervision.Drained?
    ensures KillOk(SupervisorStep(c, SupervisorDecides(status)))
  {
    var c' := SupervisorStep(c, SupervisorDecides(status));
    assert OnlyCall(c, c', Supervisor);
    assert c'.Call(Supervisor).Called?;
  }

  lemma {:induction false} ReapKeepsKill(c: Net)
    requires LocksOk(c) && KillOk(c) && c.supervision.Killing?
    ensures KillOk(SupervisorStep(c, ChildReaped))
  {
    var c' := SupervisorStep(c, ChildReaped);
    assert OnlyCall(c, c', Supervisor);
    assert c'.Call(Supervisor) == c.Call(Supervisor) || c'.Call(Supervisor).Called?;
  }

  lemma {:induction false} SupervisorKeepsKill(c: Net, e: Event)
    requires LocksOk(c) && KillOk(c)
    ensures KillOk(SupervisorStep(c, e))
  {
    if e.SupervisorDecides? && c.supervision.Drained? {
      DecideKeepsKill(c, e.status);
    } else if e.ChildReaped? && c.supervision.Killing? {
      ReapKeepsKill(c);
    } else {
      assert SupervisorStep(c, e).calls == c.calls;
    }
  }

  lemma {:induction false} OtherStarts(c: Net, e: Event)
    ensures Starts(c, OtherStep(c, e), if e.WriteTimesOut? then Pump else Closer)
  {
  }

  lemma {:induction false} StartKeepsLocks(c: Net, c': Net, who: Finisher)
    requires LocksOk(c) && Starts(c, c', who) && c'.supervision == c.supervision && who != Supervisor
    ensures LocksOk(c')
  {
    forall f
      ensures c'.verdictLock == Some(ByFinisher(f)) <==> HoldsVerdict(c'.Call(f))
      ensures c'.innerLock == Some(ByFinisher(f)) <==> c'.Call(f).HoldsInner? || c'.Call(f).Latched?
    {
      assert c.verdictLock == Some(ByFinisher(f)) <==> HoldsVerdict(c.Call(f));
      assert c.innerLock == Some(ByFinisher(f)) <==> c.Call(f).HoldsInner? || c.Call(f).Latched?;
    }
  }

  lemma {:induction false} OtherKeepsKill(c: Net, e: Event)
    requires KillOk(c)
    ensures KillOk(OtherStep(c, e))
  {
    OtherStarts(c, e);
  }

  lemma {:induction false} OtherKeeps(c: Net, e: Event)
    requires NetOk(c)
    ensures NetOk(OtherStep(c, e)) && Excluded(c, OtherStep(c, e)) && Keeps(c, OtherStep(c, e))
  {
    var who := if e.WriteTimesOut? then Pump else Closer;
    OtherStarts(c, e);
    StartKeepsLocks(c, OtherStep(c, e), who);
    StartKeepsLatches(c, OtherStep(c, e), who);
    OtherKeepsKill(c, e);
  }

  /** `who` took the lock, let it go, or left it alone. */
  predicate LockMoves(lock: Option<Holder>, lock': Option<Holder>, who: Finisher) {
    || lock' == lock
    || ((lock.None? || lock == Some(ByFinisher(who))) && (lock'.None? || lock' == Some(ByFinisher(who))))
  }

  /** One lock operation of `who`'s call: what it may do to the locks and the latches. */
  ghost predicate Moves(c: Net, c': Net, who: Finisher) {
    var call, call' := c.Call(who), c'.Call(who);
    && OnlyCall(c, c', who) && call != NotCalled && call' != NotCalled
    && c'.reader == c.reader && c'.supervision == c.supervision && Keeps(c, c')
    && LockMoves(c.verdictLock, c'.verdictLock, who) && LockMoves(c.innerLock, c'.innerLock, who)
    && (c'.verdictLock == Some(ByFinisher(who)) <==> HoldsVerdict(call'))
    && (c'.innerLock == Some(ByFinisher(who)) <==> call'.HoldsInner? || call'.Latched?)
    && (call.Latched? ==> !call'.Latched? && (call.reason.Violation? ==> c'.verdict.Some?))
    && (call'.Latched? ==> c'.terminal == Some(call'.reason))
    && (call' == Returned ==> c'.terminal.Some?)
    && (c'.terminal == c.terminal || (c.terminal.None? && call'.Latched?))
    && Excluded(c, c')
  }

  lemma {:induction false} MoveKeepsLocks(c: Net, c': Net, who: Finisher)
    requires LocksOk(c) && Moves(c, c', who)
    ensures LocksOk(c')
  {
    forall f
      ensures c'.verdictLock == Some(ByFinisher(f)) <==> HoldsVerdict(c'.Call(f))
      ensures c'.innerLock == Some(ByFinisher(f)) <==> c'.Call(f).HoldsInner? || c'.Call(f).Latched?
    {
      assert c.verdictLock == Some(ByFinisher(f)) <==> HoldsVerdict(c.Call(f));
    }
  }

  lemma {:induction false} MoveKeepsLatches(c: Net, c': Net, who: Finisher)
    requires LocksOk(c) && LatchesOk(c) && Moves(c, c', who)
    ensures LatchesOk(c')
  {
    forall f
      ensures c'.Call(f).Latched? ==> c'.terminal == Some(c'.Call(f).reason)
      ensures c'.Call(f) == Returned ==> c'.terminal.Some?
    {
      assert f != who ==> c'.Call(f) == c.Call(f);
    }
    if c'.terminal.Some? && c'.terminal.value.Violation? && c'.verdict.None? {
      if c.terminal.Some? {
        var f :| c.innerLock == Some(ByFinisher(f)) && c.Call(f).Latched?;
        assert c'.innerLock == Some(ByFinisher(f)) && c'.Call(f).Latched?;
      } else {
        assert c'.innerLock == Some(ByFinisher(who)) && c'.Call(who).Latched?;
      }
    }
  }

  lemma {:induction false} CallMoves(c: Net, who: Finisher, lock: Option<Holder>)
    requires LocksOk(c) && c.Call(who).Called?
    requires if c.Call(who).reason.Crashed? then lock == c.verdictLock
             else c.verdictLock.None? && lock == Some(ByFinisher(who))
    ensures Moves(c, c.(verdictLock := lock, calls := c.calls[who := PastVerdict(c.Call(who).reason)]), who)
  {
    var call := c.Call(who);
    var c' := c.(verdictLock := lock, calls := c.calls[who := PastVerdict(call.reason)]);
    assert c.verdictLock != Some(ByFinisher(who)) && c.innerLock != Some(ByFinisher(who)) by {
      assert !HoldsVerdict(call);
    }
    assert OnlyCall(c, c', who) && c'.Call(who) == PastVerdict(call.reason);
  }

  lemma {:induction false} FinishVerdictMoves(c: Net, who: Finisher)
    requires LocksOk(c) && LatchesOk(c)
    ensures var c' := FinishStep(c, FinishVerdict(who)); c' == c || Moves(c, c', who)
  {
    var call := c.Call(who);
    if call.Called? {
      if call.reason.Crashed? {
        CallMoves(c, who, c.verdictLock);
        assert c.(verdictLock := c.verdictLock) == c;
      } else if c.verdictLock.None? {
        CallMoves(c, who, Some(ByFinisher(who)));
      }
    }
  }

  lemma {:induction false} FinishInnerMoves(c: Net, who: Finisher)
    requires LocksOk(c) && LatchesOk(c)
    ensures var c' := FinishStep(c, FinishInner(who)); c' == c || Moves(c, c', who)
  {
    var call, c' := c.Call(who), FinishStep(c, FinishInner(who));
    assert HoldsVerdict(call) <==> c.verdictLock == Some(ByFinisher(who));
    assert call.HoldsInner? || call.Latched? <==> c.innerLock == Some(ByFinisher(who));
    assert OnlyCall(c, c', who);
    if c' != c { assert c'.Call(who) == HoldsInner(call.reason); }
  }

  lemma {:induction false} LosingMoves(c: Net, who: Finisher)
    requires LocksOk(c) && c.Call(who).HoldsInner? && c.terminal.Some?
    ensures Moves(c, Release(c, who, c.Call(who).reason), who)
  {
    var call, c' := c.Call(who), Release(c, who, c.Call(who).reason);
    assert HoldsVerdict(call) <==> c.verdictLock == Some(ByFinisher(who));
    assert c.innerLock == Some(ByFinisher(who));
    assert OnlyCall(c, c', who) && c'.Call(who) == Returned;
  }

  lemma {:induction false} WinningMoves(c: Net, who: Finisher)
    requires LocksOk(c) && c.Call(who).HoldsInner? && c.terminal.None?
    ensures var reason := c.Call(who).reason;
            Moves(c, c.(terminal := Some(reason), calls := c.calls[who := Latched(reason)]), who)
  {
    var call := c.Call(who);
    var c' := c.(terminal := Some(call.reason), calls := c.calls[who := Latched(call.reason)]);
    assert HoldsVerdict(call) <==> c.verdictLock == Some(ByFinisher(who));
    assert c.innerLock == Some(ByFinisher(who));
    assert OnlyCall(c, c', who) && c'.Call(who) == Latched(call.reason);
  }

  lemma {:induction false} FinishDecidesMoves(c: Net, who: Finisher)
    requires LocksOk(c) && LatchesOk(c)
    ensures var c' := FinishStep(c, FinishDecides(who)); c' == c || Moves(c, c', who)
  {
    if c.Call(who).HoldsInner? {
      if c.terminal.Some? { LosingMoves(c, who); } else { WinningMoves(c, who); }
    }
  }

  lemma {:induction false} FinishPublishesMoves(c: Net, who: Finisher)
    requires LocksOk(c) && LatchesOk(c)
    ensures var c' := FinishStep(c, FinishPublishes(who)); c' == c || Moves(c, c', who)
  {
    var call, c' := c.Call(who), FinishStep(c, FinishPublishes(who));
    assert HoldsVerdict(call) <==> c.verdictLock == Some(ByFinisher(who));
    assert call.HoldsInner? || call.Latched? <==> c.innerLock == Some(ByFinisher(who));
    assert OnlyCall(c, c', who);
    if c' != c { assert c'.Call(who) == Returned; }
  }

  lemma {:induction false} FinishMoves(c: Net, e: Event)
    requires LocksOk(c) && LatchesOk(c)
    ensures var c' := FinishStep(c, e); c' == c || (IsFinish(e) && Moves(c, c', e.who))
  {
    match e {
      case FinishVerdict(who) => FinishVerdictMoves(c, who);
      case FinishInner(who) => FinishInnerMoves(c, who);
      case FinishDecides(who) => FinishDecidesMoves(c, who);
      case FinishPublishes(who) => FinishPublishesMoves(c, who);
      case _ =>
    }
  }

  predicate IsFinish(e: Event) { e.FinishVerdict? || e.FinishInner? || e.FinishDecides? || e.FinishPublishes? }

  lemma {:induction false} FinishKeeps(c: Net, e: Event)
    requires LocksOk(c) && LatchesOk(c)
    ensures var c' := FinishStep(c, e); LocksOk(c') && LatchesOk(c') && Excluded(c, c') && Keeps(c, c')
  {
    FinishMoves(c, e);
    var c' := FinishStep(c, e);
    if c' != c {
      MoveKeepsLocks(c, c', e.who);
      MoveKeepsLatches(c, c', e.who);
    }
  }

  /** One lock operation of `who`'s call, seen from the kill channel. */
  ghost predicate CallAdvances(c: Net, c': Net, who: Finisher) {
    && OnlyCall(c, c', who) && c.Call(who) != NotCalled
    && (CarriesCrash(c'.Call(who)) ==> CarriesCrash(c.Call(who)))
    && c'.kill == c.kill && c'.shutdown == c.shutdown && c'.reader == c.reader && c'.supervision == c.supervision
    && c'.shutdownFirst == c.shutdownFirst && c'.timeoutFirst == c.timeoutFirst
    && (c'.terminal == c.terminal
        || (c.terminal.None? && c.Call(who).HoldsInner? && c'.terminal == Some(c.Call(who).reason)))
  }

  lemma {:induction false} FinishAdvances(c: Net, e: Event)
    ensures var c' := FinishStep(c, e); c' == c || (IsFinish(e) && CallAdvances(c, c', e.who))
  {
    if IsFinish(e) && FinishStep(c, e) != c { assert OnlyCall(c, FinishStep(c, e), e.who); }
  }

  lemma {:induction false} FinishKeepsKill(c: Net, e: Event)
    requires KillOk(c)
    ensures KillOk(FinishStep(c, e))
  {
    FinishAdvances(c, e);
    var c' := FinishStep(c, e);
    if c' != c { AdvanceKeepsKill(c, c', e.who); }
  }

  lemma {:induction false} AdvanceKeepsKill(c: Net, c': Net, who: Finisher)
    requires KillOk(c) && CallAdvances(c, c', who)
    ensures KillOk(c')
  {
    assert forall f :: f != who ==> c'.Call(f) == c.Call(f);
  }

  lemma {:induction false} StepKeeps(c: Net, e: Event)
    requires NetOk(c)
    ensures NetOk(Step(c, e)) && Excluded(c, Step(c, e)) && Keeps(c, Step(c, e))
  {
    ReaderKeepsLocks(c, e);
    ReaderKeepsLatches(c, e);
    ReaderKeepsKill(c, e);
    SupervisorKeepsLocks(c, e);
    SupervisorKeepsLatches(c, e);
    SupervisorKeepsKill(c, e);
    FinishKeeps(c, e);
    FinishKeepsKill(c, e);
    OtherKeeps(c, e);
  }

  /** The two micro-steps of a `finish` that holds its locks are the multiplexer's `finish`, on both
      latches; a losing one changes neither. */
  lemma {:induction false} FinishRefinesMux(c: Net, who: Finisher, s: MuxState)
    requires LocksOk(c) && c.Call(who).HoldsInner? && s.terminal == c.terminal && s.verdict == c.verdict
    ensures var c' := Step(Step(c, FinishDecides(who)), FinishPublishes(who));
            var (s', won) := Finish(s, c.Call(who).reason);
      && c'.terminal == s'.terminal && c'.verdict == s'.verdict && c'.Call(who) == Returned
      && (!won ==> c'.terminal == c.terminal && c'.verdict == c.verdict)
  {
    var reason := c.Call(who).reason;
    var mid := Step(c, FinishDecides(who));
    if c.terminal.Some? {
      assert mid == Release(c, who, reason) && mid.Call(who) == Returned;
    } else {
      assert mid == c.(terminal := Some(reason), calls := c.calls[who := Latched(reason)]);
      assert mid.Call(who) == Latched(reason);
    }
  }

  // ----- no deadlock ---------------------------------------------------------------------

  /** Whoever holds inner can let it go in two steps of its own, waiting for nothing. */
  lemma {:induction false} InnerCanBeReleased(c: Net) returns (a: Event, b: Event)
    requires LocksOk(c) && c.innerLock.Some?
    ensures var c' := Step(Step(c, a), b);
            c'.innerLock.None? && (c'.verdictLock == c.verdictLock || c'.verdictLock.None?)
  {
    if c.innerLock == Some(ByReader) {
      a, b := ReaderDelivered, ReaderDelivered;
    } else {
      var f := c.innerLock.value.who;
      assert c.Call(f).HoldsInner? || c.Call(f).Latched?;
      a, b := FinishDecides(f), FinishPublishes(f);
      FinisherReleases(c, f);
    }
  }

  lemma {:induction false} FinisherReleases(c: Net, f: Finisher)
    requires c.Call(f).HoldsInner? || c.Call(f).Latched?
    ensures var c' := Step(Step(c, FinishDecides(f)), FinishPublishes(f));
            && c'.innerLock.None?
            && c'.verdictLock == if c.Call(f).reason.Violation? then None else c.verdictLock
  {
    var reason, mid := c.Call(f).reason, Step(c, FinishDecides(f));
    if c.Call(f).HoldsInner? && c.terminal.Some? {
      assert mid == Release(c, f, reason) && mid.Call(f) == Returned;
    } else {
      assert mid.Call(f) == Latched(reason) && mid.verdictLock == c.verdictLock;
    }
  }

  /** With inner free, whoever of the net's threads holds the verdict can let it go in three steps. */
  lemma {:induction false} VerdictCanBeReleased(c: Net) returns (a: Event, b: Event, d: Event)
    requires LocksOk(c) && c.innerLock.None? && c.verdictLock.Some? && c.verdictLock != Some(BySweeper)
    ensures var c' := Step(Step(Step(c, a), b), d); c'.innerLock.None? && c'.verdictLock.None?
  {
    if c.verdictLock == Some(ByReader) {
      a, b, d := ReaderPublishes, ReaderPublishes, ReaderPublishes;
    } else {
      var f := c.verdictLock.value.who;
      assert HoldsVerdict(c.Call(f)) && !c.Call(f).HoldsInner? && !c.Call(f).Latched?;
      a, b, d := FinishInner(f), FinishDecides(f), FinishPublishes(f);
      assert Step(c, a).Call(f) == HoldsInner(c.Call(f).reason);
      FinisherReleases(Step(c, a), f);
    }
  }
}
