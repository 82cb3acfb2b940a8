/** The crawl rows of a run: where a sweep begins, what its row says while it runs, and what an ended one
    leaves behind. */
module SweepCrawls {
  import opened Base
  import opened Folding
  import opened Tables
  import opened Sweeping
  import opened SweepRuns
  import opened SweepTheorems
  import opened SweepGate

  // ----- where a sweep begins ------------------------------------------------------------

  /** An unfinished crawl of the same resource, under the same rules, that holds this cursor. */
  predicate Continuable(c: Crawl, input: Input, page: PageRequest) {
    && c.adapterId == input.adapterId && c.resourceId == input.resourceId && !c.drained
    && c.nextPage == Some(page)
    && c.derivation == input.derivation && c.fingerprint == Some(input.fingerprint)
  }

  lemma {:induction false} NewestIsOnly(crawls: seq<Crawl>, i: nat, a: Id, r: Id)
    requires CursorsOk(crawls) && i < |crawls| && Resumable(crawls[i], a, r)
    ensures ResumableCrawl(crawls, a, r) == Some(crawls[i])
  {
    var n := |crawls| - 1;
    if i < n {
      assert crawls[i].nextPage.Some? ==> !SameResource(crawls[i], crawls[n]);
      assert forall j, k :: 0 <= j < k < n ==> crawls[..n][j] == crawls[j] && crawls[..n][k] == crawls[k];
      NewestIsOnly(crawls[..n], i, a, r);
    }
  }

  lemma {:induction false} FoundIsThere(crawls: seq<Crawl>, a: Id, r: Id) returns (i: nat)
    requires ResumableCrawl(crawls, a, r).Some?
    ensures i < |crawls| && Resumable(crawls[i], a, r) && ResumableCrawl(crawls, a, r) == Some(crawls[i])
  {
    if Resumable(crawls[|crawls| - 1], a, r) {
      i := |crawls| - 1;
    } else {
      i := FoundIsThere(crawls[..|crawls| - 1], a, r);
    }
  }

  lemma {:induction false} ResumePointIff(t: Tables, input: Input, page: PageRequest)
    requires CursorsOk(t.crawls)
    ensures ResumePoint(t, input) == Some(page) <==>
            exists i :: 0 <= i < |t.crawls| && Continuable(t.crawls[i], input, page)
  {
    var a, r := input.adapterId, input.resourceId;
    if i :| 0 <= i < |t.crawls| && Continuable(t.crawls[i], input, page) {
      NewestIsOnly(t.crawls, i, a, r);
    }
    if ResumePoint(t, input) == Some(page) {
      var i := FoundIsThere(t.crawls, a, r);
      assert Continuable(t.crawls[i], input, page);
    }
  }

  /** Over every run: a sweep begins at a cursor exactly when a resume was asked for and some undrained crawl
      of the resource holds that cursor under the sweep's own derivation and fingerprint; otherwise it begins
      at the start. Its row records where; no other crawl of the resource keeps a cursor, and nothing
      else about the crawls changes. */
  lemma {:induction false} BeginsAtCursorIff(events: seq<Event>, input: Input, page: PageRequest)
    requires Run(events).sweep.None?
    ensures var t, s' := Run(events).tables, Apply(Run(events), BeginSweep(input));
      && s'.sweep.Some? && s'.sweep.value.input == input && s'.sweep.value.crawl == |t.crawls|
      && |s'.tables.crawls| == |t.crawls| + 1
      && (s'.sweep.value.page == Some(page) <==>
          input.options.resume && exists i :: 0 <= i < |t.crawls| && Continuable(t.crawls[i], input, page))
      && s'.tables.crawls[|t.crawls|] == OpenRow(input, s'.sweep.value.page, [])
      && forall i :: 0 <= i < |t.crawls| ==>
           var c := t.crawls[i];
           s'.tables.crawls[i] == if c.adapterId == input.adapterId && c.resourceId == input.resourceId
                                  then c.(nextPage := None) else c
  {
    RunKeeps(events);
    ResumePointIff(Run(events).tables, input, page);
  }

  // ----- the row of a running sweep ------------------------------------------------------

  /** Where reading would go on if it had to be taken up again after these pages. */
  function RestartPoint(start: Option<PageRequest>, pages: seq<HistoryRead>, r: Id): Option<PageRequest> {
    if pages == [] then start
    else
      var st := FindStatus(pages[|pages| - 1].statuses, r);
      if st.Some? && st.value.page.Some? && st.value.page.value.resumable == Exact
      then st.value.page.value.next else start
  }

  function OpenRow(input: Input, start: Option<PageRequest>, pages: seq<HistoryRead>): Crawl {
    Crawl(input.adapterId, input.resourceId, start, RestartPoint(start, pages, input.resourceId), input.derivation,
          Some(input.fingerprint), false, false, None)
  }

  ghost predicate RowTells(t: Tables, s: Sweep, pages: seq<HistoryRead>) {
    && s.crawl + 1 == |t.crawls| && s.pageNumber == |pages| <= MAX_PAGES
    && t.crawls[s.crawl] == OpenRow(s.input, s.resume.start, pages)
  }

  lemma {:induction false} PageRow(t: Tables, s: Sweep, read: HistoryRead, verdict: Option<string>,
                                   pages: seq<HistoryRead>)
    requires RowTells(t, s, pages) && OnPage(t, s, read, verdict).Continue?
    ensures RowTells(OnPage(t, s, read, verdict).tables, OnPage(t, s, read, verdict).sweep, pages + [read])
  {
    assert (pages + [read])[|pages|] == read;
  }

  lemma {:induction false} RunRow(events: seq<Event>)
    requires Run(events).sweep.Some?
    ensures RowTells(Run(events).tables, Run(events).sweep.value, PagesSoFar(events))
  {
    if events != [] {
      var front, e := events[..|events| - 1], events[|events| - 1];
      if Run(front).sweep.Some? {
        RunRow(front);
        if e.Page? { PageRow(Run(front).tables, Run(front).sweep.value, e.read, e.verdict, PagesSoFar(front)); }
      }
    }
  }

  /** Over every run, while a sweep runs: its crawl row says where it began, under which rules, and holds the
      point at which the pages committed so far could be taken up again; it is neither drained, nor
      complete, nor disqualified. */
  lemma {:induction false} RunningRow(events: seq<Event>)
    requires Run(events).sweep.Some?
    ensures var t, s := Run(events).tables, Run(events).sweep.value;
      && s.crawl + 1 == |t.crawls|
      && t.crawls[s.crawl] == OpenRow(s.input, t.crawls[s.crawl].startPage, PagesSoFar(events))
      && (s.gate.beganAtStart <==> t.crawls[s.crawl].startPage.None?)
  {
    RunRow(events);
    RunTells(events);
  }

  // ----- an ended sweep ------------------------------------------------------------------

  /** Why a sweep cannot go on with what it was handed, if it cannot. */
  function FailureOf(e: Event, pages: seq<HistoryRead>, r: Id): Option<Disqualification> {
    match e
    case ReadFailed => Some(AdapterFailed(|pages|))
    case Page(read, _) =>
      if |pages| >= MAX_PAGES then Some(PageLimit)
      else if FindStatus(read.statuses, r).None? then Some(NoStatus(|pages|))
      else None
    case _ => None
  }

  /** Over every run: a read that fails, a page without the resource's status and a page beyond the limit end
      the sweep. Its row records which, and at which page, and keeps its resume point; nothing else
      changes. */
  lemma {:induction false} FailureIsRecorded(events: seq<Event>, e: Event)
    requires Run(events).sweep.Some?
    requires FailureOf(e, PagesSoFar(events), Run(events).sweep.value.input.resourceId).Some?
    ensures var t, s := Run(events).tables, Run(events).sweep.value;
            var reason := FailureOf(e, PagesSoFar(events), s.input.resourceId);
      && s.crawl < |t.crawls|
      && Apply(Run(events), e)
         == System(t.(crawls := t.crawls[s.crawl := t.crawls[s.crawl].(disqualified := reason)]), None)
  {
    RunRow(events);
  }

  /** The row after the final page: drained exactly when the page says it is the last, and only then without
      the resume point it had; the rest is as it was, the verdict aside. */
  lemma {:induction false} FinalRow(events: seq<Event>, read: HistoryRead, verdict: Option<string>)
    requires Run(events).sweep.Some? && IsFinal(Run(events).sweep.value, read)
    ensures var t, s := Run(events).tables, Run(events).sweep.value;
            var t' := Apply(Run(events), Page(read, verdict)).tables;
            var drained := FindStatus(read.statuses, s.input.resourceId).value.page.Some?;
      && s.crawl < |t.crawls| == |t'.crawls|
      && (forall i :: 0 <= i < |t.crawls| && i != s.crawl ==> t'.crawls[i] == t.crawls[i])
      && t'.crawls[s.crawl]
         == t.crawls[s.crawl].(drained := drained, nextPage := if drained then None else t.crawls[s.crawl].nextPage,
                               complete := t'.crawls[s.crawl].complete,
                               disqualified := t'.crawls[s.crawl].disqualified)
  {
    var t, s := Run(events).tables, Run(events).sweep.value;
    RunKeeps(events);
    FinalPageConcludes(t, s, read, verdict);
    var (t1, s1) := AtCommit(t, s, read);
    ConcludeTouches(t1, s1, verdict);
    ConcludedCrawl(t1, s1, verdict);
  }

  lemma {:induction false} ConcludedCrawl(t: Tables, s: Sweep, verdict: Option<string>)
    requires s.crawl < |t.crawls|
    ensures s.crawl < |Conclude(t, s, verdict).crawls|
    ensures var row, row' := t.crawls[s.crawl], Conclude(t, s, verdict).crawls[s.crawl];
      row' == row.(drained := s.gate.drained, nextPage := if s.gate.drained then None else row.nextPage,
                   complete := row'.complete, disqualified := row'.disqualified)
  {
  }

  // ----- after a crash -------------------------------------------------------------------

  /** A crash loses the sweep and nothing that was committed; asked to resume under the same rules, the next sweep
      of the resource takes the crawl up where its committed pages left it. */
  lemma {:induction false} CrashedCrawlIsTakenUp(events: seq<Event>, input: Input)
    requires Run(events).sweep.Some?
    requires var was := Run(events).sweep.value.input;
             && input.adapterId == was.adapterId && input.resourceId == was.resourceId && input.options.resume
             && input.derivation == was.derivation && input.fingerprint == was.fingerprint
    ensures var t, s := Run(events).tables, Run(events).sweep.value;
            var crashed := Apply(Run(events), Crash);
            var s' := Apply(crashed, BeginSweep(input));
      && crashed == System(t, None) && s.crawl < |t.crawls| && s'.sweep.Some?
      && s'.sweep.value.page
         == RestartPoint(t.crawls[s.crawl].startPage, PagesSoFar(events), input.resourceId)
  {
    var t, s := Run(events).tables, Run(events).sweep.value;
    RunKeeps(events);
    RunningRow(events);
    var restart := RestartPoint(t.crawls[s.crawl].startPage, PagesSoFar(events), input.resourceId);
    if restart.Some? {
      assert Continuable(t.crawls[s.crawl], input, restart.value);
      ResumePointIff(t, input, restart.value);
    } else if ResumePoint(t, input).Some? {
      ResumePointIff(t, input, ResumePoint(t, input).value);
      var i :| 0 <= i < |t.crawls| && Continuable(t.crawls[i], input, ResumePoint(t, input).value);
      assert i != s.crawl ==> SameResource(t.crawls[i], t.crawls[s.crawl]);
    }
  }
}
