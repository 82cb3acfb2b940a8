/** A sweep over the bitcoin adapter never concludes that something the adapter's snapshot holds is gone. */
module AdapterSweep {
  import opened Base
  import opened Folding
  import opened Tables
  import opened Sweeping
  import opened SweepRuns
  import opened SweepTheorems
  import opened SweepGate
  import opened SweepResume
  import opened SweepOversize
  import opened HostReads
  import opened AdapterResume
  import Cursors
  import Planning
  import Paging
  import Draining
  import Replies

  // ----- one page ------------------------------------------------------------------------

  /** The entry of a page names every record the cut omitted. */
  lemma {:induction false} EntryNamesOmitted(sz: Paging.Sizes, plan: Planning.Plan, from: Option<Cursors.Cursor>,
                                             budget: nat, id: Id, i: nat)
    requires i < Paging.Reach(sz, plan.items, budget, 0) && Paging.Omitted(sz, plan.items[i])
    ensures plan.items[i].obs.localId in NamedIds(Replies.EntryFor(id, Paging.Cut(sz, plan, from, budget)).degraded)
  {
    var n := Paging.Reach(sz, plan.items, budget, 0);
    Draining.OmittedIsNamed(sz, plan.items[..n], i);
    EntryNames(id, Paging.Cut(sz, plan, from, budget), plan.items[i].obs.localId);
  }

  lemma {:induction false} EntryNames(id: Id, page: Paging.Page, l: Id)
    requires Draining.Names(page.degraded, l)
    ensures l in NamedIds(Replies.EntryFor(id, page).degraded)
  {
    var k :| 0 <= k < |page.degraded| && page.degraded[k].localId == l;
    var entries := Replies.EntryFor(id, page).degraded;
    assert entries[k].localId == Some(l);
  }

  lemma {:induction false} NamedPrefix(a: seq<Degraded>, b: seq<Degraded>)
    requires a <= b
    ensures NamedIds(a) <= NamedIds(b)
  {
    forall l | l in NamedIds(a) ensures l in NamedIds(b) {
      var k :| 0 <= k < |a| && a[k].localId.Some? && a[k].localId.value == l;
      assert b[k] == a[k];
    }
  }

  /** The cursor a request's text stands for. */
  function FromOf(request: Option<PageRequest>): Option<Cursors.Cursor> {
    if request.Some? && request.value.Cursor? then Cursors.Parse(request.value.cursor) else None
  }

  /** Over every run, and for whatever snapshot each page was served from: a record the adapter's cut
      omitted on any page of the sweep is not retracted by it. */
  lemma {:induction false} OmittedIsNotRetracted(events: seq<Event>, read: HistoryRead, verdict: Option<string>, i: nat,
                                                 pages: seq<HistoryRead>, sn: Planning.Snapshot, sz: Paging.Sizes,
                                                 say: Mapping, request: Option<PageRequest>, budget: nat,
                                                 plan: Planning.Plan, k: nat)
    requires Run(events).sweep.Some? && pages == PagesSoFar(events) + [read] && i < |pages|
    requires Answers(sn, sz, say, request, pages[i], Run(events).sweep.value.input, budget)
    requires Planning.MakePlan(sn, FromOf(request)) == Some(plan)
    requires k < Paging.Reach(sz, plan.items, budget, 0) && Paging.Omitted(sz, plan.items[k])
    ensures !Names(Added(Run(events), Page(read, verdict)), plan.items[k].obs.localId)
  {
    var r := Run(events).sweep.value.input.resourceId;
    var page := Paging.Cut(sz, plan, FromOf(request), budget);
    EntryNamesOmitted(sz, plan, FromOf(request), budget, r, k);
    NamedPrefix(Replies.EntryFor(r, page).degraded, DegradesOf(pages[i], r));
    DegradesBlock(events, read, verdict, i, pages);
  }

  // ----- what a page tells the sweep -----------------------------------------------------

  /** The host keeps the adapter's local ids. */
  ghost predicate KeepsIds(say: Mapping) { forall w :: say(w).localId == w.localId }

  /** The host's view, after its own size cap, of an answer of the adapter. */
  ghost predicate HostAnswer(sn: Planning.Snapshot, sz: Paging.Sizes, say: Mapping, size: Observation -> nat,
                             request: Option<PageRequest>, raw: HistoryRead, read: HistoryRead, input: Input,
                             budget: nat) {
    Answers(sn, sz, say, request, raw, input, budget) && Capped(input.adapterId, size, raw, read)
  }

  ghost predicate HostAnswers(sn: Planning.Snapshot, sz: Paging.Sizes, say: Mapping, size: Observation -> nat,
                              request: Option<PageRequest>, read: HistoryRead, input: Input) {
    exists raw, budget: nat :: HostAnswer(sn, sz, say, size, request, raw, read, input, budget)
  }

  /** Reported on the page, or named as dropped from it. */
  function Told(read: HistoryRead, input: Input): set<Id> {
    LocalIds(Admitted(read.observations, input)) + NamedIds(DegradesOf(read, input.resourceId))
  }

  lemma {:induction false} FittingHolds(own: Id, size: Observation -> nat, os: seq<Observation>, o: Observation)
    requires o in os && !Oversized(own, size, o)
    ensures o in Fitting(own, size, os)
  {
    var front, last := os[..|os| - 1], os[|os| - 1];
    assert os == front + [last];
    if o in front { FittingHolds(own, size, front, o); }
  }

  /** An observation of the swept resource is reported to the sweep, or dropped by name. */
  lemma {:induction false} CappedIsTold(own: Id, size: Observation -> nat, raw: HistoryRead, read: HistoryRead,
                                        input: Input, o: Observation)
    requires own == input.adapterId && Capped(own, size, raw, read) && o in Admitted(raw.observations, input)
    requires FindStatus(raw.statuses, input.resourceId).Some?
    ensures o.localId in Told(read, input)
  {
    AdmittedHolds(raw.observations, input, o);
    if Oversized(own, size, o) {
      CapWeakensNothing(own, size, raw, read, input.resourceId);
      var k :| 0 <= k < |raw.observations| && raw.observations[k] == o;
      assert o.localId in TooBig(own, size, raw.observations, input.resourceId);
    } else {
      FittingHolds(own, size, raw.observations, o);
      AdmittedHolds(read.observations, input, o);
      var k :| 0 <= k < |Admitted(read.observations, input)| && Admitted(read.observations, input)[k] == o;
      assert o.localId in LocalIds(Admitted(read.observations, input));
    }
  }

  lemma {:induction false} ReportedIsTold(say: Mapping, size: Observation -> nat, raw: HistoryRead, read: HistoryRead,
                                          input: Input, ws: seq<Planning.Wire>, w: Planning.Wire)
    requires KeepsIds(say) && Capped(input.adapterId, size, raw, read) && w in ws
    requires FindStatus(raw.statuses, input.resourceId).Some?
    requires Reports(Admitted(raw.observations, input)) == Said(say, ws)
    ensures w.localId in Told(read, input)
  {
    var os := Admitted(raw.observations, input);
    var k :| 0 <= k < |ws| && ws[k] == w;
    assert Reports(os)[k] == Said(say, ws)[k];
    assert Undated(ContentOf(os[k])) == Undated(say(w));
    CappedIsTold(input.adapterId, size, raw, read, input, os[k]);
  }

  lemma {:induction false} NamedIsTold(size: Observation -> nat, raw: HistoryRead, read: HistoryRead, input: Input,
                                       l: Id)
    requires Capped(input.adapterId, size, raw, read) && FindStatus(raw.statuses, input.resourceId).Some?
    requires l in NamedIds(DegradesOf(raw, input.resourceId))
    ensures l in Told(read, input)
  {
    CapWeakensNothing(input.adapterId, size, raw, read, input.resourceId);
  }

  lemma {:induction false} KeptHolds(sz: Paging.Sizes, items: seq<Planning.Item>, i: nat)
    requires i < |items| && !Paging.Omitted(sz, items[i])
    ensures Paging.Shrunk(sz, items[i].obs) in Paging.Kept(sz, items)
  {
    var front := items[..|items| - 1];
    if i < |front| { KeptHolds(sz, front, i); }
  }

  /** A page moves the reader from `n` to `to`, and tells the sweep every record it moves past. */
  lemma {:induction false} AnswerTells(sn: Planning.Snapshot, sz: Paging.Sizes, whole: Planning.Plan, say: Mapping,
                                       size: Observation -> nat, request: Option<PageRequest>, raw: HistoryRead,
                                       read: HistoryRead, input: Input, budget: nat, n: nat)
      returns (page: Paging.Page, to: nat)
    requires Draining.Whole(sn, whole) && KeepsIds(say)
    requires HostAnswer(sn, sz, say, size, request, raw, read, input, budget)
    requires Asked(request).Some? && Paging.At(whole, Asked(request).value, n)
    ensures FindStatus(read.statuses, input.resourceId).Some?
    ensures FindStatus(read.statuses, input.resourceId).value.page == Some(PageReply(Exact, Sent(page.next)))
    ensures n <= to <= |whole.items| && (page.next.None? ==> to == |whole.items|)
    ensures page.next.Some? ==> Paging.At(whole, page.next, to)
    ensures forall i :: n <= i < to ==> whole.items[i].obs.localId in Told(read, input)
  {
    AskedText(request);
    var end;
    page, end, to := Draining.ServeAdvances(sn, sz, whole, Asked(request).value, n, budget);
    CapWeakensNothing(input.adapterId, size, raw, read, input.resourceId);
    forall i | n <= i < to ensures whole.items[i].obs.localId in Told(read, input) {
      ItemIsTold(sz, whole, say, size, raw, read, input, page, n, end, to, i);
    }
  }

  lemma {:induction false} ItemIsTold(sz: Paging.Sizes, whole: Planning.Plan, say: Mapping, size: Observation -> nat,
                                      raw: HistoryRead, read: HistoryRead, input: Input, page: Paging.Page, n: nat,
                                      end: nat, to: nat, i: nat)
    requires KeepsIds(say) && Capped(input.adapterId, size, raw, read)
    requires FindStatus(raw.statuses, input.resourceId).Some? && Draining.Advances(sz, whole, n, page, end, to)
    requires Replies.EntryFor(input.resourceId, page).degraded <= DegradesOf(raw, input.resourceId)
    requires Reports(Admitted(raw.observations, input)) == Said(say, page.observations)
    requires n <= i < to
    ensures whole.items[i].obs.localId in Told(read, input)
  {
    var l := whole.items[i].obs.localId;
    if Paging.Omitted(sz, whole.items[i]) {
      Draining.OmittedIsNamed(sz, whole.items[n..end], i - n);
      EntryNames(input.resourceId, page, l);
      NamedPrefix(Replies.EntryFor(input.resourceId, page).degraded, DegradesOf(raw, input.resourceId));
      NamedIsTold(size, raw, read, input, l);
    } else {
      KeptHolds(sz, whole.items[n..to], i - n);
      ReportedIsTold(say, size, raw, read, input, page.observations, Paging.Shrunk(sz, whole.items[i].obs));
    }
  }

  // ----- what a sweep has been told ------------------------------------------------------

  /** Every page the sweep in hand has read was the adapter's answer, from one snapshot. */
  ghost predicate SweptFrom(sn: Planning.Snapshot, sz: Paging.Sizes, say: Mapping, size: Observation -> nat,
                            events: seq<Event>)
    decreases |events|
  {
    events == [] || Run(events).sweep.None? ||
    var front, e := events[..|events| - 1], events[|events| - 1];
    Run(front).sweep.None? ||
    (&& SweptFrom(sn, sz, say, size, front)
     && (e.Page? ==> HostAnswers(sn, sz, say, size, Run(front).sweep.value.page, e.read, Run(front).sweep.value.input)))
  }

  /** The sweep stands at `n` of the plan, and knows of everything before it. */
  ghost predicate Knows(whole: Planning.Plan, s: Sweep, n: nat) {
    && n <= |whole.items| && Asked(s.page).Some? && Paging.At(whole, Asked(s.page).value, n)
    && forall i :: 0 <= i < n ==> whole.items[i].obs.localId in s.observed + s.exempt
  }

  /** What absorbing a page adds to the sweep's knowledge. */
  lemma {:induction false} AbsorbKnows(s: Sweep, read: HistoryRead, st: Status)
    requires FindStatus(read.statuses, s.input.resourceId) == Some(st)
    ensures var s' := Absorb(s, read, st);
      && s'.observed + s'.exempt == s.observed + s.exempt + Told(read, s.input)
      && s'.page == (if st.page.Some? then st.page.value.next else None)
      && s'.gate.beganAtStart == s.gate.beganAtStart && s'.input == s.input
  {
  }

  /** The sweep's next page, when it is the adapter's answer. */
  lemma {:induction false} PageKnows(sn: Planning.Snapshot, sz: Paging.Sizes, whole: Planning.Plan, say: Mapping,
                                     size: Observation -> nat, s: Sweep, read: HistoryRead, n: nat) returns (to: nat)
    requires Draining.Whole(sn, whole) && KeepsIds(say) && Knows(whole, s, n)
    requires HostAnswers(sn, sz, say, size, s.page, read, s.input)
    ensures FindStatus(read.statuses, s.input.resourceId).Some? && to <= |whole.items|
    ensures var s' := Absorb(s, read, FindStatus(read.statuses, s.input.resourceId).value);
      && (forall i :: 0 <= i < to ==> whole.items[i].obs.localId in s'.observed + s'.exempt)
      && (s'.page.Some? ==> Knows(whole, s', to)) && (s'.page.None? ==> to == |whole.items|)
  {
    var raw, budget: nat :| HostAnswer(sn, sz, say, size, s.page, raw, read, s.input, budget);
    var page;
    page, to := AnswerTells(sn, sz, whole, say, size, s.page, raw, read, s.input, budget, n);
    AbsorbKnows(s, read, FindStatus(read.statuses, s.input.resourceId).value);
    if page.next.Some? { SentIsAsked(sn, whole, page.next, to); }
  }

  lemma {:induction false} OnPageAbsorbs(t: Tables, s: Sweep, read: HistoryRead, verdict: Option<string>)
    requires OnPage(t, s, read, verdict).Continue?
    ensures FindStatus(read.statuses, s.input.resourceId).Some?
    ensures var s', s'' := Absorb(s, read, FindStatus(read.statuses, s.input.resourceId).value),
                           OnPage(t, s, read, verdict).sweep;
      && s'.page.Some? && s''.page == s'.page && s''.observed == s'.observed && s''.exempt == s'.exempt
      && s''.gate == s'.gate && s''.input == s'.input
  {
  }

  lemma {:induction false} SweepKnows(sn: Planning.Snapshot, sz: Paging.Sizes, whole: Planning.Plan, say: Mapping,
                                      size: Observation -> nat, events: seq<Event>) returns (n: nat)
    requires Draining.Whole(sn, whole) && KeepsIds(say) && SweptFrom(sn, sz, say, size, events)
    requires Run(events).sweep.Some? && Run(events).sweep.value.gate.beganAtStart
    ensures Knows(whole, Run(events).sweep.value, n)
  {
    var front, e := events[..|events| - 1], events[|events| - 1];
    if Run(front).sweep.None? {
      n := 0;
      assert e.BeginSweep?;
    } else if e.Page? {
      var t, s := Run(front).tables, Run(front).sweep.value;
      OnPageAbsorbs(t, s, e.read, e.verdict);
      AbsorbKnows(s, e.read, FindStatus(e.read.statuses, s.input.resourceId).value);
      var m := SweepKnows(sn, sz, whole, say, size, front);
      n := PageKnows(sn, sz, whole, say, size, s, e.read, m);
    } else {
      n := SweepKnows(sn, sz, whole, say, size, front);
    }
  }

  /** Over every run: a sweep whose pages are the adapter's answers from one snapshot, with any budgets and
      under the host's own size cap, never retracts a record that snapshot's plan lists, whether the
      adapter emitted it, omitted it for size, or the host dropped it. */
  lemma {:induction false} PlannedIsNeverRetracted(sn: Planning.Snapshot, sz: Paging.Sizes, whole: Planning.Plan,
                                                   say: Mapping, size: Observation -> nat, events: seq<Event>,
                                                   read: HistoryRead, verdict: Option<string>, k: nat)
    requires Draining.Whole(sn, whole) && KeepsIds(say) && SweptFrom(sn, sz, say, size, events)
    requires Run(events).sweep.Some? && k < |whole.items|
    requires HostAnswers(sn, sz, say, size, Run(events).sweep.value.page, read, Run(events).sweep.value.input)
    ensures !Names(Added(Run(events), Page(read, verdict)), whole.items[k].obs.localId)
  {
    var t, s := Run(events).tables, Run(events).sweep.value;
    RunKeeps(events);
    if !IsFinal(s, read) {
      OtherPagesConcludeNothing(t, s, read, verdict);
    } else if s.gate.beganAtStart {
      var n := SweepKnows(sn, sz, whole, say, size, events);
      var to := PageKnows(sn, sz, whole, say, size, s, read, n);
      FinalSparesKnown(t, s, read, verdict, whole.items[k].obs.localId);
    } else {
      ResumedRetractsNothing(t, s, read, verdict);
    }
  }

  /** What the final page leaves known is not retracted. */
  lemma {:induction false} FinalSparesKnown(t: Tables, s: Sweep, read: HistoryRead, verdict: Option<string>, l: Id)
    requires TablesOk(t) && SweepOk(t, s) && IsFinal(s, read)
    requires var s' := Absorb(s, read, FindStatus(read.statuses, s.input.resourceId).value);
             l in s'.observed + s'.exempt
    ensures !Names(Added(System(t, Some(s)), Page(read, verdict)), l)
  {
    FinalAdds(t, s, read, verdict);
    FinalPageConcludes(t, s, read, verdict);
    IngestedKeeps(t, s, read, FindStatus(read.statuses, s.input.resourceId).value);
    var (t1, s1) := AtCommit(t, s, read);
    RetractsExactlyMissing(t1, s1, verdict, l);
  }

  /** A sweep that did not begin at the start concludes nothing. */
  lemma {:induction false} ResumedRetractsNothing(t: Tables, s: Sweep, read: HistoryRead, verdict: Option<string>)
    requires TablesOk(t) && SweepOk(t, s) && IsFinal(s, read) && !s.gate.beganAtStart
    ensures Added(System(t, Some(s)), Page(read, verdict)) == []
  {
    FinalAdds(t, s, read, verdict);
    FinalPageConcludes(t, s, read, verdict);
    IngestedKeeps(t, s, read, FindStatus(read.statuses, s.input.resourceId).value);
    var (t1, s1) := AtCommit(t, s, read);
    var gone := ConcludeAppends(t1, s1, verdict);
    GateOpensIff(HoldVerdict(s1.gate, verdict));
  }
}
