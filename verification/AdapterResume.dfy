/** The bitcoin adapter under the sweep: over an unchanged chain it is exact, so crashes and resumes lose
    and repeat nothing. */
module AdapterResume {
  import opened Base
  import opened Folding
  import opened Tables
  import opened Sweeping
  import opened SweepResume
  import Cursors
  import Planning
  import Paging
  import Draining
  import SweepRuns
  import SweepTheorems
  import Replies
  import Instants
  import Wallets

  /** What the host makes of an observation on the wire, receipt time aside. */
  type Mapping = Planning.Wire -> Content

  function Said(say: Mapping, ws: seq<Planning.Wire>): seq<Content> {
    seq(|ws|, i requires 0 <= i < |ws| => Undated(say(ws[i])))
  }

  /** The cursor a page request asks from. */
  function Asked(request: Option<PageRequest>): Option<Option<Cursors.Cursor>> {
    match request
    case None => Some(None)
    case Some(Cursor(text)) =>
      (var c := Cursors.Parse(text); if c.Some? && Cursors.Encode(c.value) == text then Some(c) else None)
    case Some(Window(_, _)) => None
  }

  function Sent(next: Option<Cursors.Cursor>): Option<PageRequest> {
    if next.None? then None else Some(Cursor(Cursors.Encode(next.value)))
  }

  /** A reader holding this cursor stands somewhere in the plan. */
  predicate Issued(whole: Planning.Plan, from: Option<Cursors.Cursor>) {
    exists n: nat :: n <= |whole.items| && Paging.At(whole, from, n)
  }

  function AdapterRest(sn: Planning.Snapshot, sz: Paging.Sizes, whole: Planning.Plan, say: Mapping): Rest {
    (request: Option<PageRequest>) =>
      var from := Asked(request);
      if from.Some? && Issued(whole, from.value) then Some(Said(say, Draining.Remaining(sn, sz, from.value))) else None
  }

  /** A reply to the request that carries the adapter's page, cursor and degrade entries, whatever its
      budget was and whatever else the reply holds. */
  ghost predicate Answers(sn: Planning.Snapshot, sz: Paging.Sizes, say: Mapping, request: Option<PageRequest>,
                          read: HistoryRead, input: Input, budget: nat) {
    var text := if request.Some? && request.value.Cursor? then Some(request.value.cursor) else None;
    var page := Draining.Serve(sn, sz, text, budget);
    var st := FindStatus(read.statuses, input.resourceId);
    && page.Some? && st.Some?
    && st.value.page == Some(PageReply(Exact, Sent(page.value.next)))
    && Replies.EntryFor(input.resourceId, page.value).degraded <= st.value.degraded
    && Reports(Admitted(read.observations, input)) == Said(say, page.value.observations)
  }

  lemma {:induction false} SaidConcat(say: Mapping, a: seq<Planning.Wire>, b: seq<Planning.Wire>)
    ensures Said(say, a + b) == Said(say, a) + Said(say, b)
  {
  }

  lemma {:induction false} SentIsAsked(sn: Planning.Snapshot, whole: Planning.Plan, next: Option<Cursors.Cursor>,
                                       n: nat)
    requires Draining.Whole(sn, whole) && Paging.At(whole, next, n)
    ensures Asked(Sent(next)) == Some(next) && Issued(whole, next)
  {
    if next.Some? { Draining.IssuedCursorParses(sn, whole, next, n); }
  }

  lemma {:induction false} AskedText(request: Option<PageRequest>)
    requires Asked(request).Some?
    ensures Draining.TextOf(Asked(request).value)
            == if request.Some? && request.value.Cursor? then Some(request.value.cursor) else None
  {
  }

  lemma {:induction false} WholeHistory(sn: Planning.Snapshot, sz: Paging.Sizes, whole: Planning.Plan, say: Mapping)
    requires Draining.Whole(sn, whole)
    ensures AdapterRest(sn, sz, whole, say)(None) == Some(Said(say, Paging.Kept(sz, whole.items)))
  {
    assert Paging.At(whole, None, 0);
  }

  /** Every such reply is exact. */
  lemma {:induction false} AdapterIsExact(sn: Planning.Snapshot, sz: Paging.Sizes, whole: Planning.Plan, say: Mapping,
                                          request: Option<PageRequest>, read: HistoryRead, input: Input, budget: nat)
    requires Draining.Whole(sn, whole) && Answers(sn, sz, say, request, read, input, budget)
    ensures ExactPage(AdapterRest(sn, sz, whole, say), request, read, input)
  {
    var from := Asked(request);
    if from.Some? && Issued(whole, from.value) {
      var n: nat :| n <= |whole.items| && Paging.At(whole, from.value, n);
      AskedText(request);
      var page, to := Draining.PageIsExact(sn, sz, whole, from.value, n, budget);
      if page.next.Some? { SentIsAsked(sn, whole, page.next, to); }
      ExactFromParts(sn, sz, whole, say, request, read, input, page);
    }
  }

  lemma {:induction false} ExactFromParts(sn: Planning.Snapshot, sz: Paging.Sizes, whole: Planning.Plan, say: Mapping,
                                          request: Option<PageRequest>, read: HistoryRead, input: Input,
                                          page: Paging.Page)
    requires Asked(request).Some? && Issued(whole, Asked(request).value)
    requires var st := FindStatus(read.statuses, input.resourceId);
             st.Some? && st.value.page == Some(PageReply(Exact, Sent(page.next)))
    requires Reports(Admitted(read.observations, input)) == Said(say, page.observations)
    requires page.next.Some? ==> Asked(Sent(page.next)) == Some(page.next) && Issued(whole, page.next)
    requires Draining.Remaining(sn, sz, Asked(request).value)
             == page.observations + if page.next.None? then [] else Draining.Remaining(sn, sz, page.next)
    ensures ExactPage(AdapterRest(sn, sz, whole, say), request, read, input)
  {
    SaidConcat(say, page.observations, if page.next.None? then [] else Draining.Remaining(sn, sz, page.next));
  }

  // ----- a fresh sync of the same chain ---------------------------------------------------

  /** Two renderings kept or omitted alike, of which the host makes the same, the crawl's time aside. */
  predicate SameReport(sz: Paging.Sizes, say: Mapping, w: Planning.Wire, w': Planning.Wire) {
    && (sz.wire(Paging.Shrunk(sz, w)) > MAX_OBSERVATION_BYTES <==>
        sz.wire(Paging.Shrunk(sz, w')) > MAX_OBSERVATION_BYTES)
    && Undated(say(Paging.Shrunk(sz, w))) == Undated(say(Paging.Shrunk(sz, w')))
  }

  predicate SameRendering(sz: Paging.Sizes, say: Mapping, w: Option<Planning.Wire>, w': Option<Planning.Wire>) {
    (w.Some? <==> w'.Some?) && (w.Some? && w'.Some? ==> SameReport(sz, say, w.value, w'.value))
  }

  /** Two syncs that found the same chain. */
  ghost predicate Alike(sn: Planning.Snapshot, sn': Planning.Snapshot, sz: Paging.Sizes, say: Mapping) {
    && sn'.txs == sn.txs && sn'.mempool == sn.mempool
    && forall tx :: tx in sn.txs ==> SameRendering(sz, say, sn.render(tx), sn'.render(tx))
  }

  predicate ItemsAlike(sz: Paging.Sizes, say: Mapping, a: seq<Planning.Item>, b: seq<Planning.Item>) {
    |a| == |b| && forall i :: 0 <= i < |a| ==> a[i].key == b[i].key && SameReport(sz, say, a[i].obs, b[i].obs)
  }

  lemma {:induction false} KeptAlike(sz: Paging.Sizes, say: Mapping, a: seq<Planning.Item>, b: seq<Planning.Item>)
    requires ItemsAlike(sz, say, a, b)
    ensures Said(say, Paging.Kept(sz, a)) == Said(say, Paging.Kept(sz, b))
  {
    if a != [] {
      var m := |a| - 1;
      KeptAlike(sz, say, a[..m], b[..m]);
      SaidConcat(say, Paging.Kept(sz, a[..m]), if Paging.Omitted(sz, a[m]) then [] else [Paging.Shrunk(sz, a[m].obs)]);
      SaidConcat(say, Paging.Kept(sz, b[..m]), if Paging.Omitted(sz, b[m]) then [] else [Paging.Shrunk(sz, b[m].obs)]);
    }
  }

  lemma {:induction false} PlansAlike(sn: Planning.Snapshot, sn': Planning.Snapshot, sz: Paging.Sizes, say: Mapping,
                                      from: Option<Cursors.Cursor>)
    requires Planning.SnapshotOk(sn) && Alike(sn, sn', sz, say)
    ensures var plan, plan' := Planning.MakePlan(sn, from), Planning.MakePlan(sn', from);
      && (plan.Some? <==> plan'.Some?)
      && (plan.Some? && plan'.Some? ==> ItemsAlike(sz, say, plan.value.items, plan'.value.items)
                                        && plan.value.highWater == plan'.value.highWater)
  {
    var due := Planning.DueList(sn, from);
    Planning.PlanIsStillDue(sn, from);
    assert Planning.DueList(sn', from) == due;
    forall i | 0 <= i < |due| ensures SameRendering(sz, say, sn.render(due[i].tx), sn'.render(due[i].tx)) {
      assert due[i] in due;
      assert Planning.StillDue(sn, from, due[i]);
    }
  }

  /** From every request, both have the same to say. */
  lemma {:induction false} RestAlike(sn: Planning.Snapshot, sn': Planning.Snapshot, sz: Paging.Sizes, say: Mapping,
                                     whole: Planning.Plan, whole': Planning.Plan, request: Option<PageRequest>)
    requires Alike(sn, sn', sz, say) && Draining.Whole(sn, whole) && Draining.Whole(sn', whole')
    ensures AdapterRest(sn, sz, whole, say)(request) == AdapterRest(sn', sz, whole', say)(request)
  {
    PlansAlike(sn, sn', sz, say, None);
    var from := Asked(request);
    if from.Some? {
      assert forall n: nat :: Paging.At(whole, from.value, n) <==> Paging.At(whole', from.value, n);
      PlansAlike(sn, sn', sz, say, from.value);
      var plan, plan' := Planning.MakePlan(sn, from.value), Planning.MakePlan(sn', from.value);
      if plan.Some? {
        KeptAlike(sz, say, plan.value.items, plan'.value.items);
      }
    }
  }

  /** The answer of a fresh sync of the same chain continues what the first sync began. */
  lemma {:induction false} FreshSyncIsExact(sn: Planning.Snapshot, sn': Planning.Snapshot, sz: Paging.Sizes,
                                            whole: Planning.Plan, say: Mapping, request: Option<PageRequest>,
                                            read: HistoryRead, input: Input, budget: nat)
    requires Draining.Whole(sn, whole) && Alike(sn, sn', sz, say)
    requires Answers(sn', sz, say, request, read, input, budget)
    ensures ExactPage(AdapterRest(sn, sz, whole, say), request, read, input)
  {
    PlansAlike(sn, sn', sz, say, None);
    var whole' := Planning.MakePlan(sn', None).value;
    AdapterIsExact(sn', sz, whole', say, request, read, input, budget);
    RestAlike(sn, sn', sz, say, whole, whole', request);
    var st := FindStatus(read.statuses, input.resourceId);
    if st.Some? && st.value.page.Some? { RestAlike(sn, sn', sz, say, whole, whole', st.value.page.value.next); }
  }

  ghost predicate AllAlike(sn: Planning.Snapshot, sns: nat -> Planning.Snapshot, sz: Paging.Sizes, say: Mapping) {
    forall i: nat :: Alike(sn, sns(i), sz, say)
  }

  /** Every page of the resource since a sweep of it last began at the start, `read` the last of them, is the
      adapter's answer from the snapshot it had in hand by then. */
  ghost predicate DrainedBy(sns: nat -> Planning.Snapshot, sz: Paging.Sizes, say: Mapping, events: seq<Event>,
                            budgets: nat -> nat, read: HistoryRead, a: Id, r: Id) {
    && (forall i: nat :: i < |events| && Current(events, i, a, r) ==>
          AnsweredAt(sns(i), sz, say, events, i, budgets(i), a, r))
    && SweepRunsFor(events, a, r) && FinalFor(events, read)
    && Answers(sns(|events|), sz, say, SweepAfter(events).page, read, SweepAfter(events).input, budgets(|events|))
  }

  /** However often the host crashes and resumes, each page from a sync of its own, with its own time and
      budget: once a sweep's last page commits, and if the chain stayed the same since a sweep of the
      resource last began at the start, what is committed since then is the adapter's whole plan minus the
      omitted records, in order and once. Nothing is asked of earlier sweeps. */
  lemma {:induction false} CrashesLoseNothing(sn: Planning.Snapshot, sns: nat -> Planning.Snapshot, sz: Paging.Sizes,
                                              whole: Planning.Plan, say: Mapping, events: seq<Event>,
                                              budgets: nat -> nat, read: HistoryRead, verdict: Option<string>,
                                              a: Id, r: Id)
    requires Draining.Whole(sn, whole) && AllAlike(sn, sns, sz, say)
    requires DrainedBy(sns, sz, say, events, budgets, read, a, r)
    ensures Logged(events + [Page(read, verdict)], a, r) == Said(say, Paging.Kept(sz, whole.items))
  {
    var rest := AdapterRest(sn, sz, whole, say);
    forall i: nat | i < |events| && Current(events, i, a, r)
      ensures ExactEvent(rest, SweepRuns.Run(events[..i]), events[i], a, r)
    {
      var s := SweepRuns.Run(events[..i]);
      assert AnsweredAt(sns(i), sz, say, events, i, budgets(i), a, r);
      if events[i].Page? && s.sweep.Some? && For(s.sweep.value, a, r)
         && !Unread(events[i].read, s.sweep.value.input) {
        FreshSyncIsExact(sn, sns(i), sz, whole, say, s.sweep.value.page, events[i].read, s.sweep.value.input,
                         budgets(i));
      }
    }
    FreshSyncIsExact(sn, sns(|events|), sz, whole, say, SweepAfter(events).page, read, SweepAfter(events).input,
                     budgets(|events|));
    WholeHistory(sn, sz, whole, say);
    DrainedMeansWholeHistory(rest, events, read, verdict, a, r);
  }

  // ----- the clock of each crawl ---------------------------------------------------------

  function Redated(w: Planning.Wire, at: string): Planning.Wire { w.(ctx := w.ctx.(observedAt := at)) }

  /** The time of a crawl is one field of the encoding, written as it is, and of what the host makes of it. */
  ghost predicate CarriesTime(sz: Paging.Sizes, say: Mapping) {
    forall w: Planning.Wire, at: string ::
      && (Instants.Validate(at) && Instants.Validate(w.ctx.observedAt) && |at| == |w.ctx.observedAt| ==>
            sz.wire(Redated(w, at)) == sz.wire(w))
      && Undated(say(Redated(w, at))) == Undated(say(w))
  }

  /** A wallet synced at a given second. */
  function SyncedAt(ctx: Planning.Ctx, owned: set<string>, data: Wallets.ChainData, now: int): Planning.Snapshot
    requires Instants.Rfc3339Utc(now).Some?
  {
    Wallets.SnapshotOf(ctx.(observedAt := Instants.Rfc3339Utc(now).value), owned, data)
  }

  lemma {:induction false} RedatedAlike(sz: Paging.Sizes, say: Mapping, w: Planning.Wire, at: string)
    requires CarriesTime(sz, say)
    requires Instants.Validate(at) && Instants.Validate(w.ctx.observedAt) && |at| == |w.ctx.observedAt|
    ensures SameReport(sz, say, w, Redated(w, at))
  {
    var cut := w.(extra := Planning.Truncated(sz.extra(w.extra)), complete := false);
    assert Redated(cut, at) == Redated(w, at).(extra := cut.extra, complete := false);
    assert sz.wire(Redated(w, at)) == sz.wire(w) && sz.wire(Redated(cut, at)) == sz.wire(cut);
  }

  lemma {:induction false} ActiveRedated(ctx: Planning.Ctx, owned: set<string>, tx: Planning.Tx, at: string)
    ensures var w, w' := Planning.Active(ctx, owned, tx), Planning.Active(ctx.(observedAt := at), owned, tx);
            w'.Some? == w.Some? && (w.Some? ==> w.value.ctx == ctx && w' == Some(Redated(w.value, at)))
  {
  }

  /** Two syncs that found the same chain at different seconds are alike. */
  lemma {:induction false} ClockAlone(ctx: Planning.Ctx, owned: set<string>, data: Wallets.ChainData, now: int,
                                      later: int, sz: Paging.Sizes, say: Mapping)
    requires CarriesTime(sz, say) && Instants.Rfc3339Utc(now).Some? && Instants.Rfc3339Utc(later).Some?
    ensures Alike(SyncedAt(ctx, owned, data, now), SyncedAt(ctx, owned, data, later), sz, say)
  {
    var at, at' := Instants.Rfc3339Utc(now).value, Instants.Rfc3339Utc(later).value;
    Instants.PrintedLength(now);
    Instants.PrintedLength(later);
    forall tx | tx in data.txs
      ensures SameRendering(sz, say, Planning.Active(ctx.(observedAt := at), owned, tx),
                            Planning.Active(ctx.(observedAt := at'), owned, tx))
    {
      var w := Planning.Active(ctx.(observedAt := at), owned, tx);
      ActiveRedated(ctx.(observedAt := at), owned, tx, at');
      if w.Some? { RedatedAlike(sz, say, w.value, at'); }
    }
  }

  /** Each snapshot is a sync of the one chain, at the second its clock gave. */
  ghost predicate Clocked(ctx: Planning.Ctx, owned: set<string>, data: Wallets.ChainData, clock: nat -> int,
                          sns: nat -> Planning.Snapshot) {
    forall i: nat ::
      Instants.Rfc3339Utc(clock(i)).Some? && sns(i) == SyncedAt(ctx, owned, data, clock(i))
  }

  lemma {:induction false} ClockedAlike(ctx: Planning.Ctx, owned: set<string>, data: Wallets.ChainData,
                                        clock: nat -> int, sns: nat -> Planning.Snapshot, sz: Paging.Sizes,
                                        say: Mapping)
    requires CarriesTime(sz, say) && Clocked(ctx, owned, data, clock, sns)
    ensures AllAlike(sns(0), sns, sz, say)
  {
    forall i: nat ensures Alike(sns(0), sns(i), sz, say) {
      assert sns(0) == SyncedAt(ctx, owned, data, clock(0)) && sns(i) == SyncedAt(ctx, owned, data, clock(i));
      ClockAlone(ctx, owned, data, clock(0), clock(i), sz, say);
    }
  }

  /** The same over a live wallet whose every resume reads the clock anew. */
  lemma {:induction false} ResumesReadTheClock(ctx: Planning.Ctx, owned: set<string>, data: Wallets.ChainData,
                                               clock: nat -> int, sns: nat -> Planning.Snapshot, sz: Paging.Sizes,
                                               whole: Planning.Plan, say: Mapping, events: seq<Event>,
                                               budgets: nat -> nat, read: HistoryRead, verdict: Option<string>,
                                               a: Id, r: Id)
    requires CarriesTime(sz, say) && Clocked(ctx, owned, data, clock, sns) && Draining.Whole(sns(0), whole)
    requires DrainedBy(sns, sz, say, events, budgets, read, a, r)
    ensures Logged(events + [Page(read, verdict)], a, r) == Said(say, Paging.Kept(sz, whole.items))
  {
    ClockedAlike(ctx, owned, data, clock, sns, sz, say);
    CrashesLoseNothing(sns(0), sns, sz, whole, say, events, budgets, read, verdict, a, r);
  }

  /** The page read at step `i`, if it is one of the resource's, is the adapter's answer, or a failed read. */
  ghost predicate AnsweredAt(sn: Planning.Snapshot, sz: Paging.Sizes, say: Mapping, events: seq<Event>, i: nat,
                             budget: nat, a: Id, r: Id)
    requires i < |events|
  {
    var s := SweepRuns.Run(events[..i]);
    events[i].Page? && s.sweep.Some? && For(s.sweep.value, a, r) && !Unread(events[i].read, s.sweep.value.input) ==>
      Answers(sn, sz, say, s.sweep.value.page, events[i].read, s.sweep.value.input, budget)
  }

  ghost predicate SweepRunsFor(events: seq<Event>, a: Id, r: Id) {
    SweepRuns.Run(events).sweep.Some? && For(SweepRuns.Run(events).sweep.value, a, r)
  }

  ghost function SweepAfter(events: seq<Event>): Sweep
    requires SweepRuns.Run(events).sweep.Some?
  {
    SweepRuns.Run(events).sweep.value
  }

  ghost predicate FinalFor(events: seq<Event>, read: HistoryRead)
    requires SweepRuns.Run(events).sweep.Some?
  {
    SweepTheorems.IsFinal(SweepAfter(events), read)
  }

  /** A share of a history reply, once the host has read all of it, is the adapter's answer. */
  lemma {:induction false} ShareAnswers(w: Replies.World, q: Replies.Query, sn: Planning.Snapshot, budget: nat,
                                        crawls: map<Id, Planning.Snapshot>, st: Status, share: seq<Planning.Wire>,
                                        say: Mapping, read: HistoryRead, input: Input)
    requires Replies.PageShare(w, q, sn, budget, crawls, st, share)
    requires FindStatus(read.statuses, input.resourceId).Some?
    requires FindStatus(read.statuses, input.resourceId).value.page == st.page
    requires st.degraded <= FindStatus(read.statuses, input.resourceId).value.degraded
    requires Reports(Admitted(read.observations, input)) == Said(say, share)
    ensures Answers(sn, w.sizes, say, q.page, read, input, budget)
  {
    var page := Draining.Serve(sn, w.sizes, Replies.Text(q.page), budget).value;
    assert st.page == Some(PageReply(Exact, Sent(page.next)));
  }
}
