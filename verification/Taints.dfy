/** Which failures taint a refresh, and what a taint costs (core/store/src/sweep.rs, core/store/src/refresh.rs). */
module Taints {
  import opened Base
  import opened Connections
  import M = Multiplexing
  import N = Nets
  import S = Sweeping
  import SweepTheorems

  /** A failed read, in the state in which it fails: the balances before any sweep, or a page of a sweep. */
  ghost predicate ReadFails(c: Conn, e: Event, error: HostError) {
    || (e == BalancesFail(error) && c.sys.sweep.None?)
    || (e == SweepReadFails(error) && c.sys.sweep.Some? && c.sweeper == Free)
  }

  /** The reply was not the shape the contract requires, or the connection broke the protocol; or a final commit
      found a violation published. */
  ghost predicate Taints(c: Conn, e: Event) {
    || ReadFails(c, e, Wire(InvalidRequest))
    || (exists kind :: ReadFails(c, e, ProtocolViolation(kind)))
    || (e.SweepCommits? && c.sweeper.Held? && c.sweeper.verdict.Some?)
  }

  ghost predicate TaintedBy(c: Conn, events: seq<Event>, i: nat) {
    i < |events| && Taints(Run(c, events[..i]), events[i])
  }

  lemma {:induction false} StepTaints(c: Conn, e: Event)
    ensures Step(c, e).taint.Some? <==> c.taint.Some? || Taints(c, e)
    ensures c.taint.Some? ==> Step(c, e).taint == c.taint
  {
    match e {
      case BalancesFail(error) =>
        if error.ProtocolViolation? && c.sys.sweep.None? { assert ReadFails(c, e, ProtocolViolation(error.kind)); }
      case SweepReadFails(error) =>
        if error.ProtocolViolation? && c.sys.sweep.Some? && c.sweeper == Free {
          assert ReadFails(c, e, ProtocolViolation(error.kind));
        }
      case _ =>
    }
  }

  lemma {:induction false} TaintedByOn(c: Conn, events: seq<Event>, e: Event, i: nat)
    requires i < |events|
    ensures TaintedBy(c, events + [e], i) <==> TaintedBy(c, events, i)
  {
    assert (events + [e])[..i] == events[..i] && (events + [e])[i] == events[i];
  }

  /** Over every interleaving: a refresh is tainted exactly when, earlier on its connection, a read failed with
      `invalid_request` or a protocol violation, or a final commit found a violation published. */
  lemma {:induction false} TaintedIff(c: Conn, events: seq<Event>)
    requires c.taint.None?
    ensures Run(c, events).taint.Some? <==> exists i: nat :: TaintedBy(c, events, i)
  {
    if events != [] {
      var front, e := events[..|events| - 1], events[|events| - 1];
      assert events == front + [e];
      TaintedIff(c, front);
      StepTaints(Run(c, front), e);
      if i: nat :| TaintedBy(c, front, i) { TaintedByOn(c, front, e, i); }
      if i: nat :| TaintedBy(c, events, i) && i < |front| { TaintedByOn(c, front, e, i); }
      assert events[..|front|] == front;
      if Taints(Run(c, front), e) { assert TaintedBy(c, events, |front|); }
    }
  }

  /** An adapter that times out, dies, cannot be started, runs out of ids, or answers with any other error has
      failed, not lied: the taint is as it was, and so is everything of the connection but the sweep. */
  lemma {:induction false} HonestFailuresSpare(c: Conn, e: Event, error: HostError)
    requires e == BalancesFail(error) || e == SweepReadFails(error)
    requires error.Timeout? || error.AdapterCrashed? || error.Spawn? || error.IdsExhausted?
             || (error.Wire? && (error.code.UnsupportedProtocol? || error.code.Unsupported? || error.code.NotReady?
                                 || error.code.Internal?))
    ensures Step(c, e).taint == c.taint && Step(c, e).net == c.net && Step(c, e).sweeper == c.sweeper
  {
  }

  /** After a reply that broke the contract, no later sweep of the connection retracts anything. */
  lemma {:induction false} BrokenReplyEndsRetractions(c: Conn, events: seq<Event>, e: Event, more: seq<Event>)
    requires Opened(c) && Taints(Run(c, events), e)
    ensures Run(c, events + [e] + more).sys.tables.retractions == Run(c, events + [e]).sys.tables.retractions
    ensures !e.SweepCommits? ==> Run(c, events + [e]).sys.tables.retractions == Run(c, events).sys.tables.retractions
  {
    RunOne(c, events, e);
    StepTaints(Run(c, events), e);
    NoRetractionAfterViolation(c, events + [e], more);
  }

  /** What reading a page comes to, undisturbed: a page that is not the last is committed at once; the last is
      committed under the violation the verdict holds then, which taints the refresh, and the lock is let go. */
  lemma {:induction false} PageCommits(c: Conn, read: S.HistoryRead)
    requires c.sys.sweep.Some? && c.sweeper == Free && c.net.verdictLock.None?
    ensures var last := SweepTheorems.IsFinal(c.sys.sweep.value, read);
            var verdict := if last && c.net.verdict.Some? then Some("the connection broke the wire contract") else None;
            var c1 := Step(c, SweepReads(read));
            var c2 := if last then Step(Step(c1, SweepHolds), SweepCommits) else c1;
            c2 == c.(sys := S.Apply(c.sys, S.Page(read, verdict)),
                     taint := if c.taint.None? then verdict else c.taint)
  {
    if SweepTheorems.IsFinal(c.sys.sweep.value, read) {
      var held := Step(Step(c, SweepReads(read)), SweepHolds);
      assert held == c.(sweeper := Held(read, c.net.verdict), net := c.net.(verdictLock := Some(N.BySweeper)));
      assert held.net.(verdictLock := None) == c.net;
    }
  }
}
