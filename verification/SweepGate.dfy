/** What the gate's verdict says about the pages a sweep read. */
module SweepGate {
  import opened Base
  import opened Folding
  import opened Tables
  import opened Sweeping
  import opened SweepRuns
  import opened SweepTheorems

  /** The pages the sweep in hand has absorbed. */
  ghost function PagesSoFar(events: seq<Event>): seq<HistoryRead>
    decreases |events|
  {
    if events == [] || Run(events).sweep.None? then []
    else
      var before, e := PagesSoFar(events[..|events| - 1]), events[|events| - 1];
      match e
      case Page(read, _) => before + [read]
      case _ => before
  }

  // ----- what one page may say -----------------------------------------------------------

  /** The page's degrade entries for the resource. */
  function DegradesOf(read: HistoryRead, r: Id): seq<Degraded> {
    var st := FindStatus(read.statuses, r);
    if st.None? then [] else st.value.degraded
  }

  function OutcomeOf(read: HistoryRead, r: Id): Outcome {
    var st := FindStatus(read.statuses, r);
    if st.None? then NotFetched else st.value.outcome
  }

  /** The page's cursor, if it hands one out, is exact. */
  predicate ExactCursor(read: HistoryRead, r: Id) {
    var st := FindStatus(read.statuses, r);
    st.Some? && st.value.page.Some? ==> st.value.page.value.resumable == Exact
  }

  /** Fetched, with an exact cursor, every degraded record named, and nothing from another adapter. */
  ghost predicate SoundPage(read: HistoryRead, input: Input) {
    var st := FindStatus(read.statuses, input.resourceId);
    && st.Some? && st.value.outcome == Fetched
    && (st.value.page.Some? ==> st.value.page.value.resumable == Exact)
    && (forall k :: 0 <= k < |st.value.degraded| ==> st.value.degraded[k].localId.Some?)
    && (forall o :: o in read.observations ==> o.adapterId == input.adapterId)
  }

  lemma {:induction false} SoundIs(read: HistoryRead, input: Input)
    ensures SoundPage(read, input) <==>
            && OutcomeOf(read, input.resourceId) == Fetched && ExactCursor(read, input.resourceId)
            && !HasAnonymous(DegradesOf(read, input.resourceId)) && !HasForeign(read.observations, input)
  {
    if HasForeign(read.observations, input) {
      var k :| 0 <= k < |read.observations| && read.observations[k].adapterId != input.adapterId;
      assert read.observations[k] in read.observations;
    }
  }

  /** The first page that was not fetched, counted from one, and its outcome. */
  ghost predicate FirstUnfetched(pages: seq<HistoryRead>, r: Id, outcome: Outcome, n: nat) {
    && 1 <= n <= |pages| && outcome != Fetched && OutcomeOf(pages[n - 1], r) == outcome
    && forall i :: 0 <= i < n - 1 ==> OutcomeOf(pages[i], r) == Fetched
  }

  ghost predicate AllFetched(pages: seq<HistoryRead>, r: Id) {
    forall i :: 0 <= i < |pages| ==> OutcomeOf(pages[i], r) == Fetched
  }

  ghost predicate AllExact(pages: seq<HistoryRead>, r: Id) { forall i :: 0 <= i < |pages| ==> ExactCursor(pages[i], r) }

  ghost predicate SomeAnonymous(pages: seq<HistoryRead>, r: Id) {
    exists i :: 0 <= i < |pages| && HasAnonymous(DegradesOf(pages[i], r))
  }

  ghost predicate SomeForeign(pages: seq<HistoryRead>, input: Input) {
    exists i :: 0 <= i < |pages| && HasForeign(pages[i].observations, input)
  }

  lemma {:induction false} OneMorePage(pages: seq<HistoryRead>, read: HistoryRead, input: Input)
    ensures var all, r := pages + [read], input.resourceId;
      && (AllFetched(all, r) <==> AllFetched(pages, r) && OutcomeOf(read, r) == Fetched)
      && (AllExact(all, r) <==> AllExact(pages, r) && ExactCursor(read, r))
      && (SomeAnonymous(all, r) <==> SomeAnonymous(pages, r) || HasAnonymous(DegradesOf(read, r)))
      && (SomeForeign(all, input) <==> SomeForeign(pages, input) || HasForeign(read.observations, input))
  {
    var all := pages + [read];
    assert all[|pages|] == read;
    assert forall i :: 0 <= i < |pages| ==> all[i] == pages[i];
  }

  // ----- the gate remembers the pages ----------------------------------------------------

  /** Each field of the gate says exactly what the pages said. */
  ghost predicate GateTells(g: Gate, input: Input, pages: seq<HistoryRead>) {
    && (g.everyPageFetched <==> AllFetched(pages, input.resourceId))
    && (g.everyCursorExact <==> AllExact(pages, input.resourceId))
    && (g.anonymousDegrade <==> SomeAnonymous(pages, input.resourceId))
    && (g.foreignProvenance <==> SomeForeign(pages, input))
    && (g.notFetched.None? <==> AllFetched(pages, input.resourceId))
    && (g.notFetched.Some? ==> FirstUnfetched(pages, input.resourceId, g.notFetched.value.0, g.notFetched.value.1))
    && g.derivation == input.derivation && g.violation == input.connectionViolation
  }

  ghost predicate SweepTells(t: Tables, s: Sweep, pages: seq<HistoryRead>) {
    && s.pageNumber == |pages| && s.crawl < |t.crawls|
    && GateTells(s.gate, s.input, pages)
    && (s.gate.beganAtStart <==> t.crawls[s.crawl].startPage.None?)
  }

  lemma {:induction false} FirstUnfetchedStays(pages: seq<HistoryRead>, read: HistoryRead, r: Id, outcome: Outcome,
                                               n: nat)
    requires FirstUnfetched(pages, r, outcome, n)
    ensures FirstUnfetched(pages + [read], r, outcome, n)
  {
    assert forall i :: 0 <= i < |pages| ==> (pages + [read])[i] == pages[i];
  }

  lemma {:induction false} FirstUnfetchedHere(pages: seq<HistoryRead>, read: HistoryRead, r: Id)
    requires AllFetched(pages, r) && OutcomeOf(read, r) != Fetched
    ensures FirstUnfetched(pages + [read], r, OutcomeOf(read, r), |pages| + 1)
  {
    assert (pages + [read])[|pages|] == read;
    assert forall i :: 0 <= i < |pages| ==> (pages + [read])[i] == pages[i];
  }

  lemma {:induction false} AbsorbTells(s: Sweep, read: HistoryRead, st: Status, pages: seq<HistoryRead>)
    requires GateTells(s.gate, s.input, pages) && s.pageNumber == |pages|
    requires FindStatus(read.statuses, s.input.resourceId) == Some(st)
    ensures GateTells(Absorb(s, read, st).gate, s.input, pages + [read])
    ensures Absorb(s, read, st).gate.beganAtStart == s.gate.beganAtStart
    ensures Absorb(s, read, st).gate.drained <==> Absorb(s, read, st).page.None? && st.page.Some?
  {
    OneMorePage(pages, read, s.input);
    UnfetchedTold(s.gate.notFetched, pages, read, s.input.resourceId);
  }

  /** The first unfetched page is remembered, and never replaced. */
  lemma {:induction false} UnfetchedTold(told: Option<(Outcome, nat)>, pages: seq<HistoryRead>, read: HistoryRead,
                                         r: Id)
    requires told.None? ==> AllFetched(pages, r)
    requires told.Some? ==> FirstUnfetched(pages, r, told.value.0, told.value.1)
    ensures told.Some? ==> FirstUnfetched(pages + [read], r, told.value.0, told.value.1)
    ensures told.None? && OutcomeOf(read, r) != Fetched ==>
              FirstUnfetched(pages + [read], r, OutcomeOf(read, r), |pages| + 1)
  {
    if told.Some? {
      FirstUnfetchedStays(pages, read, r, told.value.0, told.value.1);
    } else if OutcomeOf(read, r) != Fetched {
      FirstUnfetchedHere(pages, read, r);
    }
  }

  lemma {:induction false} PageTells(t: Tables, s: Sweep, read: HistoryRead, verdict: Option<string>,
                                     pages: seq<HistoryRead>)
    requires SweepTells(t, s, pages) && OnPage(t, s, read, verdict).Continue?
    ensures SweepTells(OnPage(t, s, read, verdict).tables, OnPage(t, s, read, verdict).sweep, pages + [read])
  {
    AbsorbTells(s, read, FindStatus(read.statuses, s.input.resourceId).value, pages);
  }

  lemma {:induction false} RunTells(events: seq<Event>)
    requires Run(events).sweep.Some?
    ensures SweepTells(Run(events).tables, Run(events).sweep.value, PagesSoFar(events))
  {
    if events != [] {
      var front, e := events[..|events| - 1], events[|events| - 1];
      if Run(front).sweep.Some? {
        RunTells(front);
        if e.Page? { PageTells(Run(front).tables, Run(front).sweep.value, e.read, e.verdict, PagesSoFar(front)); }
      }
    }
  }

  // ----- what a finished crawl records ---------------------------------------------------

  /** The final transaction writes the gate's verdict, with the connection's held, on the crawl row. */
  lemma {:induction false} ConcludeRecords(t: Tables, s: Sweep, verdict: Option<string>)
    requires s.crawl < |t.crawls|
    ensures s.crawl < |Conclude(t, s, verdict).crawls|
    ensures var row, reason := Conclude(t, s, verdict).crawls[s.crawl], HoldVerdict(s.gate, verdict).Disqualifier();
      && row.disqualified == reason && (row.complete <==> reason.None?) && row.drained == s.gate.drained
      && row.startPage == t.crawls[s.crawl].startPage
  {
  }

  /** The crawl row after the final page of the sweep in hand. */
  ghost function FinishedRow(events: seq<Event>, read: HistoryRead, verdict: Option<string>): Option<Crawl>
    requires Run(events).sweep.Some?
  {
    var id, t := Run(events).sweep.value.crawl, Apply(Run(events), Page(read, verdict)).tables;
    if id < |t.crawls| then Some(t.crawls[id]) else None
  }

  /** The gate the final transaction judges, for the pages the sweep read. */
  lemma {:induction false} FinalGate(events: seq<Event>, read: HistoryRead, verdict: Option<string>,
                                     pages: seq<HistoryRead>) returns (g: Gate, row: Crawl)
    requires Run(events).sweep.Some? && IsFinal(Run(events).sweep.value, read) && pages == PagesSoFar(events) + [read]
    ensures FinishedRow(events, read, verdict) == Some(row)
    ensures GateTells(g, Run(events).sweep.value.input, pages)
    ensures row.disqualified == HoldVerdict(g, verdict).Disqualifier() && (row.complete <==> row.disqualified.None?)
    ensures (g.beganAtStart <==> row.startPage.None?) && g.drained == row.drained
    ensures row.drained <==> FindStatus(read.statuses, Run(events).sweep.value.input.resourceId).value.page.Some?
  {
    var t, s := Run(events).tables, Run(events).sweep.value;
    RunKeeps(events);
    RunTells(events);
    FinalPageConcludes(t, s, read, verdict);
    AbsorbTells(s, read, FindStatus(read.statuses, s.input.resourceId).value, PagesSoFar(events));
    var (t1, s1) := AtCommit(t, s, read);
    ConcludeRecords(t1, s1, verdict);
    g, row := s1.gate, Conclude(t1, s1, verdict).crawls[s.crawl];
  }

  /** Over every run: a sweep that reaches its final page is recorded complete exactly when it began at
      the start of history, every one of its pages was sound, the last one drained, the adapter declared
      how it derives ids, and no violation was known before the sweep or at its commit. */
  lemma {:induction false} CompleteIffEveryPageSound(events: seq<Event>, read: HistoryRead, verdict: Option<string>,
                                                     pages: seq<HistoryRead>)
    requires Run(events).sweep.Some? && IsFinal(Run(events).sweep.value, read) && pages == PagesSoFar(events) + [read]
    ensures FinishedRow(events, read, verdict).Some?
    ensures var row, input := FinishedRow(events, read, verdict).value, Run(events).sweep.value.input;
      row.complete <==>
        && row.startPage.None? && row.drained
        && (forall i :: 0 <= i < |pages| ==> SoundPage(pages[i], input))
        && input.derivation != "" && input.connectionViolation.None? && verdict.None?
  {
    var g, row := FinalGate(events, read, verdict, pages);
    GateOpensIff(HoldVerdict(g, verdict));
    SoundIff(pages, Run(events).sweep.value.input);
  }

  lemma {:induction false} SoundIff(pages: seq<HistoryRead>, input: Input)
    ensures (forall i :: 0 <= i < |pages| ==> SoundPage(pages[i], input)) <==>
            && AllFetched(pages, input.resourceId) && AllExact(pages, input.resourceId)
            && !SomeAnonymous(pages, input.resourceId) && !SomeForeign(pages, input)
  {
    forall i | 0 <= i < |pages|
      ensures SoundPage(pages[i], input) <==>
              && OutcomeOf(pages[i], input.resourceId) == Fetched && ExactCursor(pages[i], input.resourceId)
              && !HasAnonymous(DegradesOf(pages[i], input.resourceId)) && !HasForeign(pages[i].observations, input)
    {
      SoundIs(pages[i], input);
    }
  }

  /** No page went wrong in this way. */
  ghost predicate NoneAnonymous(pages: seq<HistoryRead>, r: Id) {
    forall i, k :: 0 <= i < |pages| && 0 <= k < |DegradesOf(pages[i], r)| ==> DegradesOf(pages[i], r)[k].localId.Some?
  }

  ghost predicate NoneForeign(pages: seq<HistoryRead>, a: Id) {
    forall i, o :: 0 <= i < |pages| && o in pages[i].observations ==> o.adapterId == a
  }

  lemma {:induction false} NoneIff(pages: seq<HistoryRead>, input: Input)
    ensures NoneAnonymous(pages, input.resourceId) <==> !SomeAnonymous(pages, input.resourceId)
    ensures NoneForeign(pages, input.adapterId) <==> !SomeForeign(pages, input)
  {
    if SomeForeign(pages, input) {
      var i :| 0 <= i < |pages| && HasForeign(pages[i].observations, input);
      var k :| 0 <= k < |pages[i].observations| && pages[i].observations[k].adapterId != input.adapterId;
      assert pages[i].observations[k] in pages[i].observations;
    }
  }

  /** The reason a crawl records is true of what its sweep read, and the first in order: a violation before all
      else, then where it began and ended, then the first page that was not fetched, named by its number and
      outcome, then an anonymous degrade, an inexact cursor, a missing derivation and a foreign record. */
  lemma {:induction false} ReasonIsTrue(events: seq<Event>, read: HistoryRead, verdict: Option<string>,
                                        pages: seq<HistoryRead>)
    requires Run(events).sweep.Some? && IsFinal(Run(events).sweep.value, read) && pages == PagesSoFar(events) + [read]
    requires FinishedRow(events, read, verdict).Some? && FinishedRow(events, read, verdict).value.disqualified.Some?
    ensures var row, input := FinishedRow(events, read, verdict).value, Run(events).sweep.value.input;
            var r := input.resourceId;
            var honest := input.connectionViolation.None? && verdict.None?;
            var whole := honest && row.startPage.None? && row.drained;
      match row.disqualified.value
      case BrokeContract(v) => Some(v) == if input.connectionViolation.Some? then input.connectionViolation else verdict
      case NotFromStart => honest && row.startPage.Some?
      case NotDrained => honest && row.startPage.None? && !row.drained
      case PageNotFetched(outcome, n) => whole && FirstUnfetched(pages, r, outcome, n)
      case AnonymousDegrade => whole && AllFetched(pages, r) && !NoneAnonymous(pages, r)
      case CursorNotExact => whole && AllFetched(pages, r) && NoneAnonymous(pages, r) && !AllExact(pages, r)
      case NoDerivation =>
        whole && AllFetched(pages, r) && NoneAnonymous(pages, r) && AllExact(pages, r) && input.derivation == ""
      case ForeignProvenance =>
        whole && AllFetched(pages, r) && NoneAnonymous(pages, r) && AllExact(pages, r) && input.derivation != ""
        && !NoneForeign(pages, input.adapterId)
      case _ => false
  {
    var g, row := FinalGate(events, read, verdict, pages);
    NoneIff(pages, Run(events).sweep.value.input);
  }
}
