/** Records dropped for size are never concluded absent. */
module SweepOversize {
  import opened Base
  import opened Folding
  import opened Tables
  import opened Sweeping
  import opened SweepRuns
  import opened SweepTheorems
  import opened SweepGate
  import opened HostReads

  /** Everything the sweep's pages said about size is in its memory. */
  ghost predicate Remembers(s: Sweep, pages: seq<HistoryRead>) {
    forall i :: 0 <= i < |pages| ==>
      && NamedIds(DegradesOf(pages[i], s.input.resourceId)) <= s.exempt
      && (HasAnonymous(DegradesOf(pages[i], s.input.resourceId)) ==> s.gate.anonymousDegrade)
  }

  lemma {:induction false} PageRemembers(t: Tables, s: Sweep, read: HistoryRead, verdict: Option<string>,
                                         pages: seq<HistoryRead>)
    requires Remembers(s, pages) && OnPage(t, s, read, verdict).Continue?
    ensures Remembers(OnPage(t, s, read, verdict).sweep, pages + [read])
  {
  }

  lemma {:induction false} RunRemembers(events: seq<Event>)
    requires Run(events).sweep.Some?
    ensures Remembers(Run(events).sweep.value, PagesSoFar(events))
  {
    if events != [] {
      var front, e := events[..|events| - 1], events[|events| - 1];
      if Run(front).sweep.Some? {
        RunRemembers(front);
        if e.Page? {
          PageRemembers(Run(front).tables, Run(front).sweep.value, e.read, e.verdict, PagesSoFar(front));
        }
      }
    }
  }

  /** The retractions a step adds. */
  ghost function Added(s: System, e: Event): seq<Retraction>
  {
    var before, after := s.tables.retractions, Apply(s, e).tables.retractions;
    if |before| <= |after| then after[|before|..] else []
  }

  lemma {:induction false} FinalAdds(t: Tables, s: Sweep, read: HistoryRead, verdict: Option<string>)
    requires TablesOk(t) && SweepOk(t, s) && IsFinal(s, read)
    ensures var (t', s') := AtCommit(t, s, read);
      Added(System(t, Some(s)), Page(read, verdict)) == Concluded(t', s', verdict)
      && s'.exempt == s.exempt + NamedIds(DegradesOf(read, s.input.resourceId))
      && s'.gate.anonymousDegrade == (s.gate.anonymousDegrade || HasAnonymous(DegradesOf(read, s.input.resourceId)))
      && SweepOk(t', s')
  {
    FinalPageConcludes(t, s, read, verdict);
    var (t', s') := AtCommit(t, s, read);
    var gone := ConcludeAppends(t', s', verdict);
  }

  /** At the final commit: a named record is not concluded, and an anonymous entry concludes nothing. */
  lemma {:induction false} CommitSpares(t: Tables, s: Sweep, verdict: Option<string>)
    requires s.fold == Replay(t.rows, s.input.adapterId)
    ensures s.gate.anonymousDegrade ==> Concluded(t, s, verdict) == []
    ensures forall l :: l in s.exempt ==> !Names(Concluded(t, s, verdict), l)
  {
    var gone := ConcludeAppends(t, s, verdict);
    assert Concluded(t, s, verdict) == gone;
    GateOpensIff(HoldVerdict(s.gate, verdict));
    forall l | l in s.exempt ensures !Names(Concluded(t, s, verdict), l) {
      RetractsExactlyMissing(t, s, verdict, l);
    }
  }

  lemma {:induction false} FinalPageSpares(t: Tables, s: Sweep, read: HistoryRead, verdict: Option<string>,
                                           pages: seq<HistoryRead>, i: nat)
    requires TablesOk(t) && SweepOk(t, s) && IsFinal(s, read) && Remembers(s, pages) && i <= |pages|
    ensures var degraded := DegradesOf((pages + [read])[i], s.input.resourceId);
            var gone := Added(System(t, Some(s)), Page(read, verdict));
      && (HasAnonymous(degraded) ==> gone == [])
      && (forall l :: l in NamedIds(degraded) ==> !Names(gone, l))
  {
    FinalAdds(t, s, read, verdict);
    var (t', s') := AtCommit(t, s, read);
    CommitSpares(t', s', verdict);
  }

  /** Over every run: a record any page of the sweep named as dropped is not retracted by it, and one
      anonymous entry on any page blocks every retraction. */
  lemma {:induction false} DegradesBlock(events: seq<Event>, read: HistoryRead, verdict: Option<string>, i: nat,
                                         pages: seq<HistoryRead>)
    requires Run(events).sweep.Some? && pages == PagesSoFar(events) + [read] && i < |pages|
    ensures var s := Run(events);
            var degraded := DegradesOf(pages[i], s.sweep.value.input.resourceId);
            var gone := Added(s, Page(read, verdict));
      && (HasAnonymous(degraded) ==> gone == [])
      && (forall l :: l in NamedIds(degraded) ==> !Names(gone, l))
  {
    var sys := Run(events);
    RunKeeps(events);
    RunRemembers(events);
    if IsFinal(sys.sweep.value, read) {
      FinalPageSpares(sys.tables, sys.sweep.value, read, verdict, PagesSoFar(events), i);
    } else {
      OtherPagesConcludeNothing(sys.tables, sys.sweep.value, read, verdict);
    }
  }

  /** A record of the swept resource too large for the host, on any page of the sweep, is never
      retracted by it; an anonymous degrade from the adapter blocks every retraction, however many
      named entries the host adds beside it. */
  lemma {:induction false} OversizedIsNotAbsent(events: seq<Event>, read: HistoryRead, verdict: Option<string>, i: nat,
                                                pages: seq<HistoryRead>, raw: HistoryRead, size: Observation -> nat)
    requires Run(events).sweep.Some? && pages == PagesSoFar(events) + [read] && i < |pages|
    requires var input := Run(events).sweep.value.input;
             Capped(input.adapterId, size, raw, pages[i]) && FindStatus(raw.statuses, input.resourceId).Some?
    ensures var s := Run(events);
            var input := s.sweep.value.input;
            var gone := Added(s, Page(read, verdict));
      && (forall l :: l in TooBig(input.adapterId, size, raw.observations, input.resourceId) ==> !Names(gone, l))
      && (forall l :: l in NamedIds(DegradesOf(raw, input.resourceId)) ==> !Names(gone, l))
      && (HasAnonymous(DegradesOf(raw, input.resourceId)) ==> gone == [])
  {
    var input := Run(events).sweep.value.input;
    CapWeakensNothing(input.adapterId, size, raw, pages[i], input.resourceId);
    DegradesBlock(events, read, verdict, i, pages);
  }
}
