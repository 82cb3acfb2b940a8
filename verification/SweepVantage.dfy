/** What concluded sweeps leave on record: the vantage, the rules and the notes. */
module SweepVantage {
  import opened Base
  import opened Folding
  import opened Tables
  import opened Sweeping
  import opened SweepRuns
  import opened SweepTheorems
  import opened SweepGate
  import opened SweepOversize
  import opened SweepCrawls

  // ----- which sweeps concluded ----------------------------------------------------------

  /** The step ends a sweep on its final page. */
  ghost predicate Concludes(s: System, e: Event) { e.Page? && s.sweep.Some? && IsFinal(s.sweep.value, e.read) }

  /** The step ends a sweep of the resource, whose crawl row then reads complete. */
  ghost predicate Completes(s: System, s': System, a: Id, r: Id) {
    && s.sweep.Some? && s'.sweep.None?
    && s.sweep.value.input.adapterId == a && s.sweep.value.input.resourceId == r
    && s.sweep.value.crawl < |s'.tables.crawls| && s'.tables.crawls[s.sweep.value.crawl].complete
  }

  /** The provider of the resource's last sweep recorded complete since the resource is known. */
  ghost function LastVantage(events: seq<Event>, a: Id, r: Id): Option<string>
    decreases |events|
  {
    if events == [] then None
    else
      var front := events[..|events| - 1];
      if Completes(Run(front), Run(events), a, r) && (a, r) in Run(front).tables.resources
      then Some(Run(front).sweep.value.input.providerId) else LastVantage(front, a, r)
  }

  function Vantage(t: Tables, a: Id, r: Id): Option<string> {
    if (a, r) in t.resources then t.resources[(a, r)].lastProvider else None
  }

  /** The rules of the resource's last sweep to reach its final page, complete or not, since it is known. */
  ghost function LastRules(events: seq<Event>, a: Id, r: Id): Option<string>
    decreases |events|
  {
    if events == [] then None
    else
      var front, e := events[..|events| - 1], events[|events| - 1];
      if Concludes(Run(front), e) && SweepOf(Run(front), a, r) && (a, r) in Run(front).tables.resources
      then Some(Run(front).sweep.value.input.fingerprint) else LastRules(front, a, r)
  }

  ghost predicate SweepOf(s: System, a: Id, r: Id)
    requires s.sweep.Some?
  {
    s.sweep.value.input.adapterId == a && s.sweep.value.input.resourceId == r
  }

  function Rules(t: Tables, a: Id, r: Id): Option<string> {
    if (a, r) in t.resources then t.resources[(a, r)].fingerprint else None
  }

  /** The derivation of the adapter's last sweep, of any resource, to reach its final page. */
  ghost function LastDerivation(events: seq<Event>, a: Id): Option<string>
    decreases |events|
  {
    if events == [] then None
    else
      var front, e := events[..|events| - 1], events[|events| - 1];
      if Concludes(Run(front), e) && Run(front).sweep.value.input.adapterId == a
      then Some(Run(front).sweep.value.input.derivation) else LastDerivation(front, a)
  }

  function Derivation(t: Tables, a: Id): Option<string> { if a in t.derivations then Some(t.derivations[a]) else None }

  // ----- one step ------------------------------------------------------------------------

  /** Neither definitions nor notes are touched. */
  predicate SameRecords(t: Tables, t': Tables) {
    t'.resources == t.resources && t'.derivations == t.derivations && t'.discrepancies == t.discrepancies
  }

  lemma {:induction false} DeriveDefinesNothing(t: Tables, input: Input, crawl: nat, f: FoldState,
                                                meta: map<Id, HeadMeta>, observed: set<Id>, exempt: set<Id>)
    ensures var t' := Derive(t, input, crawl, f, meta, observed, exempt);
            t'.resources == t.resources && t'.derivations == t.derivations && t'.crawls == t.crawls
  {
  }

  lemma {:induction false} ConcludeDefines(t: Tables, s: Sweep, verdict: Option<string>)
    requires s.crawl < |t.crawls|
    ensures var t', a, r := Conclude(t, s, verdict), s.input.adapterId, s.input.resourceId;
      && |t'.crawls| == |t.crawls| && t'.resources.Keys == t.resources.Keys
      && t'.derivations == t.derivations[a := s.input.derivation]
      && (forall k :: k in t.resources && k != (a, r) ==> t'.resources[k] == t.resources[k])
      && ((a, r) in t.resources ==>
           t'.resources[(a, r)] == ResourceRow(Some(s.input.fingerprint),
                                               if t'.crawls[s.crawl].complete then Some(s.input.providerId)
                                               else t.resources[(a, r)].lastProvider))
  {
    DeriveDefinesNothing(t, s.input, s.crawl, s.fold, s.meta, s.observed, s.exempt);
    ConcludeRecords(t, s, verdict);
  }

  lemma {:induction false} FinalDefines(sys: System, e: Event)
    requires Inv(sys) && Concludes(sys, e)
    ensures var s, sys' := sys.sweep.value, Apply(sys, e);
            var a, r := s.input.adapterId, s.input.resourceId;
      && sys'.sweep.None? && s.crawl < |sys'.tables.crawls| && sys'.tables.resources.Keys == sys.tables.resources.Keys
      && sys'.tables.derivations == sys.tables.derivations[a := s.input.derivation]
      && (forall k :: k in sys.tables.resources && k != (a, r) ==> sys'.tables.resources[k] == sys.tables.resources[k])
      && ((a, r) in sys.tables.resources ==>
           sys'.tables.resources[(a, r)]
           == ResourceRow(Some(s.input.fingerprint),
                          if sys'.tables.crawls[s.crawl].complete then Some(s.input.providerId)
                          else sys.tables.resources[(a, r)].lastProvider))
  {
    var t, s := sys.tables, sys.sweep.value;
    FinalPageConcludes(t, s, e.read, e.verdict);
    var (t1, s1) := AtCommit(t, s, e.read);
    ConcludeDefines(t1, s1, e.verdict);
  }

  /** A step that is neither a final page nor a newly known resource records nothing, and completes nothing. */
  lemma {:induction false} OthersRecordNothing(events: seq<Event>, e: Event, a: Id, r: Id)
    requires !Concludes(Run(events), e)
    ensures var s, s' := Run(events), Apply(Run(events), e);
      && (e.Connect? || SameRecords(s.tables, s'.tables))
      && s'.tables.derivations == s.tables.derivations && s'.tables.discrepancies == s.tables.discrepancies
      && !Completes(s, s', a, r)
  {
    RunKeeps(events);
    if Run(events).sweep.Some? {
      RunningRow(events);
      if e.Page? { OtherPageRecordsNothing(Run(events).tables, Run(events).sweep.value, e.read, e.verdict); }
    }
  }

  lemma {:induction false} OtherPageRecordsNothing(t: Tables, s: Sweep, read: HistoryRead, verdict: Option<string>)
    requires TablesOk(t) && SweepOk(t, s) && !IsFinal(s, read) && !t.crawls[s.crawl].complete
    ensures var sys := Settle(t, OnPage(t, s, read, verdict));
      SameRecords(t, sys.tables) && |sys.tables.crawls| == |t.crawls|
      && (sys.sweep.None? ==> !sys.tables.crawls[s.crawl].complete)
  {
    var st := FindStatus(read.statuses, s.input.resourceId);
    if s.pageNumber < MAX_PAGES && st.Some? { IngestedKeeps(t, s, read, st.value); }
  }

  // ----- over every run ------------------------------------------------------------------

  lemma {:induction false} RunOneMore(events: seq<Event>)
    requires events != []
    ensures Run(events) == Apply(Run(events[..|events| - 1]), events[|events| - 1])
  {
  }

  /** Over every run: the vantage a resource stores is the provider of its last sweep recorded complete, and
      none if there was none. A sweep that was disqualified, failed or crashed does not move it. */
  lemma {:induction false} VantageIsLastComplete(events: seq<Event>, a: Id, r: Id)
    ensures Vantage(Run(events).tables, a, r) == LastVantage(events, a, r)
  {
    if events != [] {
      var front, e := events[..|events| - 1], events[|events| - 1];
      VantageIsLastComplete(front, a, r);
      RunOneMore(events);
      if Concludes(Run(front), e) {
        RunKeeps(front);
        FinalDefines(Run(front), e);
      } else {
        OthersRecordNothing(front, e, a, r);
      }
    }
  }

  /** The rules, by contrast, follow every sweep that reached its final page, complete or not. */
  lemma {:induction false} RulesAreLastConcluded(events: seq<Event>, a: Id, r: Id)
    ensures Rules(Run(events).tables, a, r) == LastRules(events, a, r)
    ensures Derivation(Run(events).tables, a) == LastDerivation(events, a)
  {
    if events != [] {
      var front, e := events[..|events| - 1], events[|events| - 1];
      RulesAreLastConcluded(front, a, r);
      RunOneMore(events);
      if Concludes(Run(front), e) {
        RunKeeps(front);
        FinalDefines(Run(front), e);
      } else {
        OthersRecordNothing(front, e, a, r);
      }
    }
  }
}
