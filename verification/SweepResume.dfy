/** Crashing and resuming: for an exact-cursor adapter over one history, the pages committed before a
    crash and those a resume reads are that history, once and in order. */
module SweepResume {
  import opened Base
  import opened Folding
  import opened Tables
  import opened Sweeping
  import opened SweepRuns
  import opened SweepTheorems

  /** What was said of a record, without when: a resume is served by a crawl of its own, with its own time. */
  function Undated(c: Content): Content { c.(observedAt := "") }

  /** What was reported, without the times of the crawls and the receipt times the host stamps. */
  function Reports(os: seq<Observation>): seq<Content> {
    seq(|os|, i requires 0 <= i < |os| => Undated(ContentOf(os[i])))
  }

  /** What an exact adapter has still to say from each request it could have issued; `rest(None)` is
      the whole history. */
  type Rest = Option<PageRequest> -> Option<seq<Content>>

  /** What is already known, continued from `request`, is the whole history. */
  predicate Reaches(rest: Rest, log: seq<Content>, request: Option<PageRequest>) {
    rest(None).Some? && rest(request).Some? && log + rest(request).value == rest(None).value
  }

  predicate For(s: Sweep, a: Id, r: Id) { s.input.adapterId == a && s.input.resourceId == r }

  /** An exact answer to a request the adapter could have issued: what the page carries, followed by
      the rest from the cursor it hands out, is the rest from the request. */
  predicate ExactPage(rest: Rest, from: Option<PageRequest>, read: HistoryRead, input: Input) {
    rest(from).Some? ==>
      var st := FindStatus(read.statuses, input.resourceId);
      st.Some? && st.value.page.Some? && st.value.page.value.resumable == Exact &&
      var next := st.value.page.value.next;
      && (next.Some? ==> rest(next).Some?)
      && rest(from).value == Reports(Admitted(read.observations, input)) + if next.None? then [] else rest(next).value
  }

  /** The page of a running sweep is committed, on its own or in the final transaction. */
  predicate Commits(s: Sweep, read: HistoryRead) {
    s.pageNumber < MAX_PAGES && FindStatus(read.statuses, s.input.resourceId).Some?
  }

  /** What has been committed for a resource since the last sweep of it that began at the start. */
  ghost function Logged(events: seq<Event>, a: Id, r: Id): seq<Content>
    decreases |events|
  {
    if events == [] then []
    else LogAfter(Run(events[..|events| - 1]), events[|events| - 1], Logged(events[..|events| - 1], a, r), a, r)
  }

  /** A sweep of the resource begins at the start: what was read for it before no longer matters. */
  predicate Restarts(s: System, e: Event, a: Id, r: Id) {
    && e.BeginSweep? && s.sweep.None? && e.input.adapterId == a && e.input.resourceId == r
    && StartPage(s.tables, e.input).None?
  }

  ghost function LogAfter(s: System, e: Event, log: seq<Content>, a: Id, r: Id): seq<Content> {
    if Restarts(s, e, a, r) then []
    else if e.Page? && s.sweep.Some? && For(s.sweep.value, a, r) && Commits(s.sweep.value, e.read)
    then log + Reports(Admitted(e.read.observations, s.sweep.value.input))
    else log
  }

  /** The adapter could not read the resource: an entry without a page, and nothing reported. */
  predicate Unread(read: HistoryRead, input: Input) {
    var st := FindStatus(read.statuses, input.resourceId);
    st.Some? && st.value.page.None? && Admitted(read.observations, input) == []
  }

  /** A page read for the resource answers its request exactly, or reports nothing, or cannot be used; all
      else is arbitrary. */
  ghost predicate ExactEvent(rest: Rest, s: System, e: Event, a: Id, r: Id) {
    e.Page? && s.sweep.Some? && For(s.sweep.value, a, r) && Commits(s.sweep.value, e.read)
    && !Unread(e.read, s.sweep.value.input) ==>
      ExactPage(rest, s.sweep.value.page, e.read, s.sweep.value.input)
  }

  /** Event `k` begins a sweep of the resource at the start. */
  ghost predicate FreshStart(events: seq<Event>, k: nat, a: Id, r: Id)
    requires k < |events|
  {
    Restarts(Run(events[..k]), events[k], a, r)
  }

  /** No sweep of the resource has begun at the start since event `i`. */
  ghost predicate Current(events: seq<Event>, i: nat, a: Id, r: Id) {
    forall k: nat :: i < k < |events| ==> !FreshStart(events, k, a, r)
  }

  /** Every page read for the resource since a sweep of it last began at the start is exact. Earlier sweeps,
      of whatever history, are arbitrary. */
  ghost predicate ExactRun(rest: Rest, events: seq<Event>, a: Id, r: Id) {
    forall i: nat :: i < |events| && Current(events, i, a, r) ==> ExactEvent(rest, Run(events[..i]), events[i], a, r)
  }

  ghost predicate CursorsContinue(rest: Rest, crawls: seq<Crawl>, log: seq<Content>, a: Id, r: Id) {
    forall i :: 0 <= i < |crawls| && Resumable(crawls[i], a, r) ==> Reaches(rest, log, crawls[i].nextPage)
  }

  /** Every stored resume point, and the sweep in hand, continue the log into the whole history. */
  ghost predicate Continues(rest: Rest, s: System, log: seq<Content>, a: Id, r: Id) {
    && CursorsContinue(rest, s.tables.crawls, log, a, r)
    && (s.sweep.Some? && For(s.sweep.value, a, r) ==>
          Reaches(rest, log, s.sweep.value.page) && (s.sweep.value.page.None? ==> log == []))
  }

  // ----- the steps -----------------------------------------------------------------------

  lemma {:induction false} ResumableFound(crawls: seq<Crawl>, a: Id, r: Id)
    ensures ResumableCrawl(crawls, a, r).Some? ==>
      exists i :: 0 <= i < |crawls| && Resumable(crawls[i], a, r) && ResumableCrawl(crawls, a, r) == Some(crawls[i])
  {
    if crawls != [] && !Resumable(crawls[|crawls| - 1], a, r) {
      ResumableFound(crawls[..|crawls| - 1], a, r);
    }
  }

  lemma {:induction false} StartContinues(rest: Rest, t: Tables, input: Input, log: seq<Content>, a: Id, r: Id)
    requires Continues(rest, System(t, None), log, a, r) && input.adapterId == a && input.resourceId == r
    requires StartPage(t, input).Some?
    ensures Reaches(rest, log, StartPage(t, input))
  {
    ResumableFound(t.crawls, a, r);
  }

  lemma {:induction false} BeginContinues(rest: Rest, t: Tables, input: Input, log: seq<Content>, a: Id, r: Id)
    requires rest(None).Some? && Continues(rest, System(t, None), log, a, r)
    ensures var s := System(t, None);
            Continues(rest, Apply(s, BeginSweep(input)), LogAfter(s, BeginSweep(input), log, a, r), a, r)
  {
    var start := StartPage(t, input);
    var own := input.adapterId == a && input.resourceId == r;
    if own && start.Some? { StartContinues(rest, t, input, log, a, r); }
    var crawls' := Begin(t, input).0.crawls;
    forall i | 0 <= i < |crawls'| && Resumable(crawls'[i], a, r)
      ensures own ==> i == |t.crawls| && crawls'[i].nextPage == start
      ensures !own ==> i < |t.crawls| && crawls'[i] == t.crawls[i]
    {
    }
  }

  /** Only row `id` may differ, and it stays a crawl of its resource. */
  ghost predicate OnlyCrawl(crawls: seq<Crawl>, crawls': seq<Crawl>, id: nat) {
    && |crawls'| == |crawls| && id < |crawls|
    && (forall i :: 0 <= i < |crawls| && i != id ==> crawls'[i] == crawls[i])
    && SameResource(crawls[id], crawls'[id])
  }

  lemma {:induction false} ConcludeFinishes(t: Tables, s: Sweep, verdict: Option<string>)
    requires s.crawl < |t.crawls|
    ensures OnlyCrawl(t.crawls, Conclude(t, s, verdict).crawls, s.crawl)
    ensures Conclude(t, s, verdict).crawls[s.crawl].nextPage
            == if s.gate.drained then None else t.crawls[s.crawl].nextPage
  {
  }

  /** A page that cannot be used ends the sweep and keeps its resume point. */
  lemma {:induction false} UnusedPage(t: Tables, s: Sweep, read: HistoryRead, verdict: Option<string>)
    requires TablesOk(t) && SweepOk(t, s) && !Commits(s, read)
    ensures var s' := Settle(t, OnPage(t, s, read, verdict));
      && s'.sweep.None? && OnlyCrawl(t.crawls, s'.tables.crawls, s.crawl)
      && s'.tables.crawls[s.crawl].nextPage == t.crawls[s.crawl].nextPage
      && !s'.tables.crawls[s.crawl].drained
  {
  }

  /** What one committed page does to the crawl rows and to the sweep's position. */
  lemma {:induction false} PageMoves(t: Tables, s: Sweep, read: HistoryRead, verdict: Option<string>)
    requires TablesOk(t) && SweepOk(t, s) && Commits(s, read)
    ensures var s' := Settle(t, OnPage(t, s, read, verdict));
            var st := FindStatus(read.statuses, s.input.resourceId).value;
            var next := if st.page.Some? then st.page.value.next else None;
      && OnlyCrawl(t.crawls, s'.tables.crawls, s.crawl)
      && (s'.sweep.Some? <==> next.Some?)
      && (s'.sweep.Some? ==> s'.sweep.value.page == next && s'.sweep.value.input == s.input)
      && (st.page.Some? && st.page.value.resumable == Exact ==> s'.tables.crawls[s.crawl].nextPage == next)
  {
    var st := FindStatus(read.statuses, s.input.resourceId).value;
    IngestedKeeps(t, s, read, st);
    if IsFinal(s, read) {
      FinalPageConcludes(t, s, read, verdict);
      var (t', s') := AtCommit(t, s, read);
      ConcludeFinishes(t', s', verdict);
    }
  }

  /** A failed read ends the sweep and keeps its resume point. */
  lemma {:induction false} UnreadKeeps(t: Tables, s: Sweep, read: HistoryRead, verdict: Option<string>)
    requires TablesOk(t) && SweepOk(t, s) && Commits(s, read) && Unread(read, s.input)
    ensures Settle(t, OnPage(t, s, read, verdict)).tables.crawls[s.crawl].nextPage == t.crawls[s.crawl].nextPage
  {
    IngestedKeeps(t, s, read, FindStatus(read.statuses, s.input.resourceId).value);
    FinalPageConcludes(t, s, read, verdict);
    var (t', s') := AtCommit(t, s, read);
    ConcludeFinishes(t', s', verdict);
  }

  lemma {:induction false} CursorMoves(rest: Rest, crawls: seq<Crawl>, crawls': seq<Crawl>, id: nat,
                                       log: seq<Content>, log': seq<Content>, a: Id, r: Id)
    requires CursorsOk(crawls) && CursorsContinue(rest, crawls, log, a, r) && OnlyCrawl(crawls, crawls', id)
    requires id + 1 == |crawls|
    requires crawls[id].adapterId == a && crawls[id].resourceId == r ==>
               crawls'[id].nextPage.Some? ==> Reaches(rest, log', crawls'[id].nextPage)
    requires !(crawls[id].adapterId == a && crawls[id].resourceId == r) ==> log' == log
    ensures CursorsContinue(rest, crawls', log', a, r)
  {
    forall i | 0 <= i < |crawls'| && Resumable(crawls'[i], a, r) ensures Reaches(rest, log', crawls'[i].nextPage) {
      if i != id { assert !SameResource(crawls[i], crawls[id]); }
    }
  }

  /** An exact page extends the log by exactly what its cursor moves past. */
  lemma {:induction false} ExactPageContinues(rest: Rest, t: Tables, s: Sweep, read: HistoryRead,
                                              verdict: Option<string>,
                                              log: seq<Content>, a: Id, r: Id)
    requires TablesOk(t) && SweepOk(t, s) && Continues(rest, System(t, Some(s)), log, a, r)
    requires For(s, a, r) && Commits(s, read) && ExactPage(rest, s.page, read, s.input)
    ensures var log' := log + Reports(Admitted(read.observations, s.input));
            var s' := Settle(t, OnPage(t, s, read, verdict));
            Continues(rest, s', log', a, r) && (s'.sweep.None? ==> rest(None) == Some(log'))
  {
    PageMoves(t, s, read, verdict);
    var next := FindStatus(read.statuses, s.input.resourceId).value.page.value.next;
    var os := Reports(Admitted(read.observations, s.input));
    var tail := if next.None? then [] else rest(next).value;
    assert log + (os + tail) == (log + os) + tail;
    assert tail == [] ==> (log + os) + tail == log + os;
    CursorMoves(rest, t.crawls, Settle(t, OnPage(t, s, read, verdict)).tables.crawls, s.crawl, log, log + os, a, r);
  }

  lemma {:induction false} PageContinues(rest: Rest, t: Tables, s: Sweep, read: HistoryRead, verdict: Option<string>,
                                         log: seq<Content>, a: Id, r: Id)
    requires TablesOk(t) && SweepOk(t, s) && Continues(rest, System(t, Some(s)), log, a, r)
    requires For(s, a, r) && Commits(s, read) && !Unread(read, s.input) ==> ExactPage(rest, s.page, read, s.input)
    ensures var sys := System(t, Some(s));
            Continues(rest, Settle(t, OnPage(t, s, read, verdict)), LogAfter(sys, Page(read, verdict), log, a, r), a, r)
  {
    if For(s, a, r) && Commits(s, read) && !Unread(read, s.input) {
      ExactPageContinues(rest, t, s, read, verdict, log, a, r);
    } else {
      assert For(s, a, r) && Commits(s, read) ==> log + Reports(Admitted(read.observations, s.input)) == log;
      if Commits(s, read) {
        PageMoves(t, s, read, verdict);
        if Unread(read, s.input) { UnreadKeeps(t, s, read, verdict); }
      } else {
        UnusedPage(t, s, read, verdict);
      }
      CursorMoves(rest, t.crawls, Settle(t, OnPage(t, s, read, verdict)).tables.crawls, s.crawl, log, log, a, r);
    }
  }

  lemma {:induction false} ApplyContinues(rest: Rest, s: System, e: Event, log: seq<Content>, a: Id, r: Id)
    requires Inv(s) && rest(None).Some? && Continues(rest, s, log, a, r) && ExactEvent(rest, s, e, a, r)
    ensures Continues(rest, Apply(s, e), LogAfter(s, e, log, a, r), a, r)
  {
    match e {
      case BeginSweep(input) =>
        if s.sweep.None? { BeginContinues(rest, s.tables, input, log, a, r); }
      case Page(read, verdict) =>
        if s.sweep.Some? { PageContinues(rest, s.tables, s.sweep.value, read, verdict, log, a, r); }
      case _ =>
    }
  }

  /** A sweep that begins at the start continues the empty log, whatever the store held. */
  lemma {:induction false} RestartContinues(rest: Rest, s: System, e: Event, a: Id, r: Id)
    requires rest(None).Some? && Restarts(s, e, a, r)
    ensures Continues(rest, Apply(s, e), [], a, r)
  {
    var crawls' := Begin(s.tables, e.input).0.crawls;
    forall i | 0 <= i < |crawls'| && Resumable(crawls'[i], a, r) ensures i == |s.tables.crawls| {
    }
  }

  lemma {:induction false} CurrentSplits(events: seq<Event>, i: nat, a: Id, r: Id)
    requires events != [] && i < |events| - 1 && !FreshStart(events, |events| - 1, a, r)
    requires Current(events[..|events| - 1], i, a, r)
    ensures Current(events, i, a, r)
  {
    var front := events[..|events| - 1];
    forall k: nat | i < k < |events| ensures !FreshStart(events, k, a, r) {
      if k < |front| {
        assert front[..k] == events[..k];
        assert !FreshStart(front, k, a, r);
      }
    }
  }

  lemma {:induction false} ExactFront(rest: Rest, events: seq<Event>, a: Id, r: Id)
    requires events != [] && ExactRun(rest, events, a, r) && !FreshStart(events, |events| - 1, a, r)
    ensures ExactRun(rest, events[..|events| - 1], a, r)
    ensures ExactEvent(rest, Run(events[..|events| - 1]), events[|events| - 1], a, r)
  {
    var front := events[..|events| - 1];
    forall i: nat | i < |front| && Current(front, i, a, r) ensures ExactEvent(rest, Run(front[..i]), front[i], a, r) {
      CurrentSplits(events, i, a, r);
      assert front[..i] == events[..i];
    }
    assert Current(events, |events| - 1, a, r);
  }

  lemma {:induction false} RunContinues(rest: Rest, events: seq<Event>, a: Id, r: Id)
    requires rest(None).Some? && ExactRun(rest, events, a, r)
    ensures Continues(rest, Run(events), Logged(events, a, r), a, r)
  {
    if events != [] {
      var front, e := events[..|events| - 1], events[|events| - 1];
      if FreshStart(events, |events| - 1, a, r) {
        RestartContinues(rest, Run(front), e, a, r);
      } else {
        ExactFront(rest, events, a, r);
        RunContinues(rest, front, a, r);
        RunKeeps(front);
        ApplyContinues(rest, Run(front), e, Logged(front, a, r), a, r);
      }
    }
  }

  // ----- theorems ------------------------------------------------------------------------

  /** At every point of every run, crashes included and whatever earlier sweeps read: what is committed
      since a sweep last began at the start, followed by what the adapter has still to say from the stored
      cursor, is the whole history with no gap and no repeat. A resume under unchanged rules asks from
      exactly that cursor. */
  lemma {:induction false} ResumeHasNoGap(rest: Rest, events: seq<Event>, input: Input)
    requires rest(None).Some? && ExactRun(rest, events, input.adapterId, input.resourceId)
    requires ResumePoint(Run(events).tables, input).Some? && Run(events).sweep.None? && input.options.resume
    ensures var s := Apply(Run(events), BeginSweep(input));
      && s.sweep.Some? && s.sweep.value.page == ResumePoint(Run(events).tables, input)
      && Reaches(rest, Logged(events, input.adapterId, input.resourceId), s.sweep.value.page)
  {
    RunContinues(rest, events, input.adapterId, input.resourceId);
    StartContinues(rest, Run(events).tables, input, Logged(events, input.adapterId, input.resourceId), input.adapterId,
                   input.resourceId);
  }

  /** When the last page of a sweep commits, however many crashes and resumes came before it, exactly
      the whole history has been committed since the start. */
  lemma {:induction false} DrainedMeansWholeHistory(rest: Rest, events: seq<Event>, read: HistoryRead,
                                                    verdict: Option<string>, a: Id, r: Id)
    requires rest(None).Some? && ExactRun(rest, events, a, r)
    requires var s := Run(events);
             && s.sweep.Some? && For(s.sweep.value, a, r) && IsFinal(s.sweep.value, read)
             && ExactPage(rest, s.sweep.value.page, read, s.sweep.value.input)
    ensures rest(None) == Some(Logged(events + [Page(read, verdict)], a, r))
  {
    RunContinues(rest, events, a, r);
    RunKeeps(events);
    LoggedOn(events, Page(read, verdict), a, r);
    FinalIsWhole(rest, Run(events), read, verdict, Logged(events, a, r), a, r);
  }

  lemma {:induction false} LoggedOn(events: seq<Event>, e: Event, a: Id, r: Id)
    ensures Logged(events + [e], a, r) == LogAfter(Run(events), e, Logged(events, a, r), a, r)
  {
    assert (events + [e])[..|events|] == events;
  }

  lemma {:induction false} FinalIsWhole(rest: Rest, s: System, read: HistoryRead, verdict: Option<string>,
                                        log: seq<Content>, a: Id, r: Id)
    requires Inv(s) && s.sweep.Some? && For(s.sweep.value, a, r) && IsFinal(s.sweep.value, read)
    requires Continues(rest, s, log, a, r) && ExactPage(rest, s.sweep.value.page, read, s.sweep.value.input)
    ensures rest(None) == Some(LogAfter(s, Page(read, verdict), log, a, r))
  {
    FinalPageConcludes(s.tables, s.sweep.value, read, verdict);
    ExactPageContinues(rest, s.tables, s.sweep.value, read, verdict, log, a, r);
  }

  /** Over every run, whatever the adapter says: at most one crawl of a resource holds a cursor, it is
      the newest one of that resource, and it has not drained. */
  lemma {:induction false} OneCursorPerResource(events: seq<Event>, i: nat, j: nat)
    requires i < |Run(events).tables.crawls| && Run(events).tables.crawls[i].nextPage.Some?
    requires j < |Run(events).tables.crawls| && SameResource(Run(events).tables.crawls[i], Run(events).tables.crawls[j])
    ensures j <= i && !Run(events).tables.crawls[i].drained
    ensures Run(events).tables.crawls[j].nextPage.Some? ==> i == j
  {
    RunKeeps(events);
  }

  // ----- where a read would start over ---------------------------------------------------

  function RecordAll(rs: ResumeState, pages: seq<PageReply>): ResumeState {
    if pages == [] then rs
    else RecordAll(rs, pages[..|pages| - 1]).Record(pages[|pages| - 1].resumable, pages[|pages| - 1].next)
  }

  /** However a read's pages went, the last one decides: after an exact page its `next` is resent, and
      after any other the read starts over. */
  lemma {:induction false} LastPageDecides(start: Option<PageRequest>, pages: seq<PageReply>)
    ensures RecordAll(ResumeState(start, None, None), pages).start == start
    ensures RecordAll(ResumeState(start, None, None), pages).NextRequest()
            == if pages != [] && pages[|pages| - 1].resumable == Exact then pages[|pages| - 1].next else start
  {
    if pages != [] { LastPageDecides(start, pages[..|pages| - 1]); }
  }
}
