/** Repeating a complete sweep with the same content writes nothing. */
module SweepRepeat {
  import opened Base
  import opened Folding
  import opened Tables
  import opened Sweeping
  import opened SweepRuns
  import opened SweepTheorems

  /** What each reported id says, the last report winning. */
  function Contents(os: seq<Observation>): map<Id, Content> {
    if os == [] then map[]
    else Contents(os[..|os| - 1])[os[|os| - 1].localId := ContentOf(os[|os| - 1])]
  }

  lemma {:induction false} ContentsKeys(os: seq<Observation>)
    ensures Contents(os).Keys == LocalIds(os)
  {
    if os != [] {
      var front, o := os[..|os| - 1], os[|os| - 1];
      ContentsKeys(front);
      assert LocalIds(os) == LocalIds(front) + {o.localId} by {
        forall l | l in LocalIds(os) ensures l in LocalIds(front) + {o.localId} {
          var i :| 0 <= i < |os| && os[i].localId == l;
          if i < |front| { assert front[i].localId == l; }
        }
        forall l | l in LocalIds(front) ensures l in LocalIds(os) {
          var i :| 0 <= i < |front| && front[i].localId == l;
          assert os[i].localId == l;
        }
        assert os[|os| - 1].localId in LocalIds(os);
      }
    }
  }

  lemma {:induction false} ContentsConcat(xs: seq<Observation>, ys: seq<Observation>)
    ensures Contents(xs + ys) == Contents(xs) + Contents(ys)
  {
    if ys == [] {
      assert xs + ys == xs;
    } else {
      ContentsConcat(xs, ys[..|ys| - 1]);
      assert (xs + ys)[..|xs + ys| - 1] == xs + ys[..|ys| - 1];
    }
  }

  lemma {:induction false} LocalIdsConcat(xs: seq<Observation>, ys: seq<Observation>)
    ensures LocalIds(xs + ys) == LocalIds(xs) + LocalIds(ys)
  {
    ContentsKeys(xs);
    ContentsKeys(ys);
    ContentsKeys(xs + ys);
    ContentsConcat(xs, ys);
  }

  predicate Distinct(os: seq<Observation>) {
    forall i, j :: 0 <= i < j < |os| ==> os[i].localId != os[j].localId
  }

  /** `o` does not sort before anything its chain already holds. */
  predicate SortsLast(c: seq<Entry>, o: Observation) {
    forall e :: e in c ==>
      LexLt(e.obs.receivedAt, o.receivedAt)
      || (e.obs.receivedAt == o.receivedAt && LexLe(e.obs.surface, o.surface))
  }

  ghost predicate Settled(f: FoldState, buried: map<Id, nat>, a: Id, contents: map<Id, Content>) {
    forall l :: l in contents ==> SettledAt(f, buried, a, l, contents[l])
  }

  // ----- the first sweep settles what it reports -----------------------------------------

  lemma {:induction false} LastBecomesHead(f: FoldState, o: Observation)
    requires FoldOk(f) && SortsLast(f.Chain(KeyOf(o)), o)
    ensures f.Ingest(o).Head(KeyOf(o)).Some? && f.Ingest(o).Head(KeyOf(o)).value.obs == o
  {
    var c := f.Chain(KeyOf(o));
    var e := Entry(f.counter, f.NextRevision(o), o);
    IngestInserts(f, o);
    forall x | x in c ensures Before(x, e) {
      assert ChainOk(f.chains[KeyOf(o)], KeyOf(o), f.counter);
    }
    InsertLast(c, e);
  }

  lemma {:induction false} OthersStaySettled(f: FoldState, buried: map<Id, nat>, o: Observation,
                                             contents: map<Id, Content>)
    requires Settled(f, buried, o.adapterId, contents) && o.localId !in contents
    ensures Settled(f.Ingest(o), buried, o.adapterId, contents)
  {
    forall l | l in contents ensures SettledAt(f.Ingest(o), buried, o.adapterId, l, contents[l]) {
      assert SettledAt(f, buried, o.adapterId, l, contents[l]);
      assert f.Ingest(o).Chain((o.adapterId, l)) == f.Chain((o.adapterId, l));
    }
  }

  lemma {:induction false} OneSettles(t: Tables, w: Work, input: Input, crawl: nat, buried: map<Id, nat>,
                                      o: Observation, observed: set<Id>, contents: map<Id, Content>)
    requires WorkOk(w, input.adapterId, observed) && o.localId in observed && o.adapterId == input.adapterId
    requires RetractionsOk(t.(rows := w.rows)) && buried == HighWater(t.retractions, input.adapterId)
    requires Settled(w.fold, buried, input.adapterId, contents) && o.localId !in contents
    requires SortsLast(w.fold.Chain((input.adapterId, o.localId)), o)
    ensures IngestOne(w, input, crawl, buried, o).Some?
    ensures Settled(IngestOne(w, input, crawl, buried, o).value.fold, buried, input.adapterId,
                    contents[o.localId := ContentOf(o)])
  {
    if Deduplicates(w.fold, buried, (input.adapterId, o.localId), o) {
      assert SettledAt(w.fold, buried, input.adapterId, o.localId, ContentOf(o));
    } else {
      AppendOutranks(t, w, input, crawl, buried, o, observed);
      assert FoldOk(w.fold) by { ReplayReassigns(w.rows, input.adapterId); }
      LastBecomesHead(w.fold, o);
      OthersStaySettled(w.fold, buried, o, contents);
      assert SettledAt(w.fold.Ingest(o), buried, input.adapterId, o.localId, ContentOf(o));
    }
  }

  lemma {:induction false} PageLeavesChain(w: Work, input: Input, crawl: nat, buried: map<Id, nat>,
                                           os: seq<Observation>, l: Id)
    requires IngestPage(w, input, crawl, buried, os).Some?
    requires forall i :: 0 <= i < |os| ==> os[i].localId != l
    ensures IngestPage(w, input, crawl, buried, os).value.fold.Chain((input.adapterId, l))
            == w.fold.Chain((input.adapterId, l))
  {
    if os != [] {
      PageLeavesChain(w, input, crawl, buried, os[..|os| - 1], l);
    }
  }

  /** The reports of a page are new ids, each sorting last in its chain. */
  ghost predicate NewReports(f: FoldState, a: Id, os: seq<Observation>, contents: map<Id, Content>) {
    && Distinct(os)
    && (forall i :: 0 <= i < |os| ==> os[i].localId !in contents)
    && (forall i :: 0 <= i < |os| ==> SortsLast(f.Chain((a, os[i].localId)), os[i]))
  }

  lemma {:induction false} LastReport(w: Work, input: Input, crawl: nat, buried: map<Id, nat>, os: seq<Observation>,
                                      contents: map<Id, Content>)
    requires os != [] && NewReports(w.fold, input.adapterId, os, contents)
    requires IngestPage(w, input, crawl, buried, os[..|os| - 1]).Some?
    ensures var front, o := os[..|os| - 1], os[|os| - 1];
            && NewReports(w.fold, input.adapterId, front, contents)
            && o.localId !in contents + Contents(front)
            && SortsLast(IngestPage(w, input, crawl, buried, front).value.fold.Chain((input.adapterId, o.localId)), o)
            && contents + Contents(os) == (contents + Contents(front))[o.localId := ContentOf(o)]
  {
    var front, o := os[..|os| - 1], os[|os| - 1];
    LastIsNew(w.fold, input.adapterId, os, contents);
    PageLeavesChain(w, input, crawl, buried, front, o.localId);
    assert Contents(os) == Contents(front)[o.localId := ContentOf(o)];
  }

  lemma {:induction false} LastIsNew(f: FoldState, a: Id, os: seq<Observation>, contents: map<Id, Content>)
    requires os != [] && NewReports(f, a, os, contents)
    ensures var front, o := os[..|os| - 1], os[|os| - 1];
            && NewReports(f, a, front, contents)
            && o.localId !in contents + Contents(front)
            && SortsLast(f.Chain((a, o.localId)), o)
            && (forall i :: 0 <= i < |front| ==> front[i].localId != o.localId)
  {
    var front, o := os[..|os| - 1], os[|os| - 1];
    assert forall i :: 0 <= i < |front| ==> front[i] == os[i];
    ContentsKeys(front);
  }

  lemma {:induction false} PageSettles(t: Tables, w: Work, input: Input, crawl: nat, buried: map<Id, nat>,
                                       os: seq<Observation>, observed: set<Id>, contents: map<Id, Content>)
    requires WorkOk(w, input.adapterId, observed) && OwnReports(os, input.adapterId, observed)
    requires RetractionsOk(t.(rows := w.rows)) && buried == HighWater(t.retractions, input.adapterId)
    requires Settled(w.fold, buried, input.adapterId, contents) && NewReports(w.fold, input.adapterId, os, contents)
    ensures IngestPage(w, input, crawl, buried, os).Some?
    ensures Settled(IngestPage(w, input, crawl, buried, os).value.fold, buried, input.adapterId,
                    contents + Contents(os))
  {
    if os == [] {
      assert contents + Contents(os) == contents;
    } else {
      var front, o := os[..|os| - 1], os[|os| - 1];
      IngestPageKeeps(w, input, crawl, buried, front, observed);
      LastReport(w, input, crawl, buried, os, contents);
      PageSettles(t, w, input, crawl, buried, front, observed, contents);
      var mid := IngestPage(w, input, crawl, buried, front).value;
      RetractionsSurvive(t.(rows := w.rows), mid.rows);
      OneSettles(t, mid, input, crawl, buried, o, observed, contents + Contents(front));
    }
  }

  // ----- and concludes everything it may conclude ----------------------------------------

  /** Nothing a repeat of the sweep could still change: what it reported is settled, and what it did
      not report is gone, exempt, or protected by the empty-sweep rule. */
  ghost predicate Rested(t: Tables, input: Input, contents: map<Id, Content>, exempt: set<Id>) {
    && Settled(Replay(t.rows, input.adapterId), HighWater(t.retractions, input.adapterId), input.adapterId, contents)
    && !VantageMoved(t, input)
    && forall l :: LiveRecord(t, input.adapterId, input.resourceId, l) && l !in contents && l !in exempt ==>
         || PredatesHistory(input.historyStart, Replay(t.rows, input.adapterId).Head((input.adapterId, l)).value.obs)
         || (contents == map[] && !input.options.confirmEmpty)
  }

  /** Retractions of other keys leave a settled key settled. */
  lemma {:induction false} StaysSettledAt(f: FoldState, rs: seq<Retraction>, gone: seq<Retraction>, a: Id, l: Id,
                                          content: Content)
    requires SettledAt(f, HighWater(rs, a), a, l, content) && forall r :: r in gone ==> r.localId != l
    ensures SettledAt(f, HighWater(rs + gone, a), a, l, content)
  {
    var h := f.HighestRevision((a, l));
    if h.Some? {
      HighWaterBuries(rs, a, l, h.value);
      HighWaterBuries(rs + gone, a, l, h.value);
      RetractedAtAppend(rs, gone, a, l, h.value);
    }
  }

  lemma {:induction false} SparesObserved(t: Tables, s: Sweep, gone: seq<Retraction>)
    requires s.fold == Replay(t.rows, s.input.adapterId) && gone == Concluded(t, s, None)
    ensures forall r :: r in gone ==> r.localId !in s.observed
  {
    forall r | r in gone ensures r.localId !in s.observed {
      var i :| 0 <= i < |gone| && gone[i] == r;
      assert Names(gone, r.localId);
      RetractsExactlyMissing(t, s, None, r.localId);
    }
  }

  lemma {:induction false} ConcludeKeepsSettled(t: Tables, s: Sweep, contents: map<Id, Content>)
    requires SweepOk(t, s) && Settled(s.fold, s.buried, s.input.adapterId, contents)
    requires contents.Keys == s.observed
    ensures Settled(s.fold, HighWater(Conclude(t, s, None).retractions, s.input.adapterId), s.input.adapterId, contents)
  {
    var a := s.input.adapterId;
    var gone := ConcludeAppends(t, s, None);
    assert Concluded(t, s, None) == gone;
    SparesObserved(t, s, gone);
    forall l | l in contents ensures SettledAt(s.fold, HighWater(t.retractions + gone, a), a, l, contents[l]) {
      StaysSettledAt(s.fold, t.retractions, gone, a, l, contents[l]);
    }
  }

  lemma {:induction false} ConcludeRests(t: Tables, s: Sweep, contents: map<Id, Content>)
    requires SweepOk(t, s) && Settled(s.fold, s.buried, s.input.adapterId, contents)
    requires contents.Keys == s.observed
    requires s.gate.Disqualifier().None? && !VantageMoved(t, s.input)
    ensures Rested(Conclude(t, s, None), s.input, contents, s.exempt)
  {
    var t' := Conclude(t, s, None);
    ConcludeKeepsSettled(t, s, contents);
    forall l | LiveRecord(t', s.input.adapterId, s.input.resourceId, l) && l !in contents && l !in s.exempt
      ensures PredatesHistory(s.input.historyStart,
                              Replay(t.rows, s.input.adapterId).Head((s.input.adapterId, l)).value.obs)
              || (contents == map[] && !s.input.options.confirmEmpty)
    {
      RetractionBuriesOnlyMissing(t, s, None, s.input.adapterId, s.input.resourceId, l);
      RetractsExactlyMissing(t, s, None, l);
    }
  }

  // ----- one page, by what it leaves ------------------------------------------------------

  /** `t'` and `s'` are what ingesting the page left of `t` and `s`. */
  ghost predicate Went(t: Tables, s: Sweep, read: HistoryRead, t': Tables, s': Sweep) {
    var w := IngestPage(WorkOf(t, s), s.input, s.crawl, s.buried, Admitted(read.observations, s.input));
    && w.Some? && t'.rows == w.value.rows && s'.fold == w.value.fold
    && t'.retractions == t.retractions && t'.resources == t.resources
    && s'.input == s.input && s'.buried == s.buried
    && s'.observed == s.observed + LocalIds(Admitted(read.observations, s.input))
    && s'.exempt == s.exempt + NamedHere(read, s.input)
    && TablesOk(t') && SweepOk(t', s')
  }

  function NamedHere(read: HistoryRead, input: Input): set<Id> {
    var st := FindStatus(read.statuses, input.resourceId);
    if st.Some? then NamedIds(st.value.degraded) else {}
  }

  lemma {:induction false} PageWent(t: Tables, s: Sweep, read: HistoryRead)
    requires TablesOk(t) && SweepOk(t, s) && OnPage(t, s, read, None).Continue?
    ensures Went(t, s, read, OnPage(t, s, read, None).tables, OnPage(t, s, read, None).sweep)
  {
    PageKeeps(t, s, read, None);
  }

  lemma {:induction false} FinalWent(t: Tables, s: Sweep, read: HistoryRead)
    requires TablesOk(t) && SweepOk(t, s) && IsFinal(s, read)
    ensures Went(t, s, read, AtCommit(t, s, read).0, AtCommit(t, s, read).1)
    ensures OnPage(t, s, read, None) == Finished(Conclude(AtCommit(t, s, read).0, AtCommit(t, s, read).1, None))
  {
    FinalPageConcludes(t, s, read, None);
    IngestedKeeps(t, s, read, FindStatus(read.statuses, s.input.resourceId).value);
  }

  // ----- the repeat ----------------------------------------------------------------------

  /** A sweep in progress that has so far only been told what was already settled. */
  ghost predicate Echoing(t0: Tables, t: Tables, s: Sweep, contents: map<Id, Content>) {
    && TablesOk(t) && SweepOk(t, s)
    && SameFacts(t0.rows, t.rows) && t.retractions == t0.retractions && t.resources == t0.resources
    && Settled(s.fold, s.buried, s.input.adapterId, contents)
    && s.observed <= contents.Keys
  }

  predicate Echoes(os: seq<Observation>, contents: map<Id, Content>) {
    forall i :: 0 <= i < |os| ==> os[i].localId in contents && contents[os[i].localId] == ContentOf(os[i])
  }

  lemma {:induction false} EchoesAreSettled(f: FoldState, buried: map<Id, nat>, a: Id, os: seq<Observation>,
                                            contents: map<Id, Content>)
    requires Settled(f, buried, a, contents) && Echoes(os, contents)
    ensures forall i :: 0 <= i < |os| ==> SettledAt(f, buried, a, os[i].localId, ContentOf(os[i]))
    ensures LocalIds(os) <= contents.Keys
  {
    forall i | 0 <= i < |os| ensures SettledAt(f, buried, a, os[i].localId, ContentOf(os[i])) {
      assert os[i].localId in contents;
    }
  }

  lemma {:induction false} EchoWent(t0: Tables, t: Tables, s: Sweep, read: HistoryRead, contents: map<Id, Content>,
                                    t': Tables, s': Sweep)
    requires Echoing(t0, t, s, contents) && Echoes(Admitted(read.observations, s.input), contents)
    requires Went(t, s, read, t', s')
    ensures Echoing(t0, t', s', contents)
  {
    var os := Admitted(read.observations, s.input);
    EchoesAreSettled(s.fold, s.buried, s.input.adapterId, os, contents);
    SettledAppendsNothing(WorkOf(t, s), s.input, s.crawl, s.buried, os);
  }

  /** The repeat's closing section concludes nothing. */
  lemma {:induction false} EchoConcludes(t0: Tables, t: Tables, s: Sweep, contents: map<Id, Content>, exempt: set<Id>)
    requires Echoing(t0, t, s, contents) && Rested(t0, s.input, contents, exempt)
    requires s.observed == contents.Keys && exempt <= s.exempt
    ensures SameFacts(t0.rows, Conclude(t, s, None).rows)
    ensures Conclude(t, s, None).retractions == t0.retractions
  {
    var gone := ConcludeAppends(t, s, None);
    assert Concluded(t, s, None) == gone;
    SameReplay(t0.rows, t.rows, s.input.adapterId);
    assert contents == map[] ==> contents.Keys == {};
    if gone != [] {
      var l := gone[0].localId;
      assert Names(gone, l);
      RetractsExactlyMissing(t, s, None, l);
      assert LiveRecord(t0, s.input.adapterId, s.input.resourceId, l);
      assert false;
    }
  }

  // ----- two whole sweeps ----------------------------------------------------------------

  type PageStepper = (System, HistoryRead) -> System

  ghost function PageStep(): PageStepper { (s: System, read: HistoryRead) => Apply(s, Page(read, None)) }

  ghost predicate IsPageStep(step: PageStepper) {
    forall s, read {:trigger Apply(s, Page(read, None))} :: step(s, read) == Apply(s, Page(read, None))
  }

  ghost function ReadPages(step: PageStepper, s: System, pages: seq<HistoryRead>): System {
    if pages == [] then s else step(ReadPages(step, s, pages[..|pages| - 1]), pages[|pages| - 1])
  }

  /** One step of a sweep that goes on. */
  lemma {:induction false} StepGoesOn(step: PageStepper, s: System, read: HistoryRead)
    requires IsPageStep(step) && step(s, read).sweep.Some?
    ensures s.sweep.Some?
    ensures TablesOk(s.tables) && SweepOk(s.tables, s.sweep.value) ==>
              Went(s.tables, s.sweep.value, read, step(s, read).tables, step(s, read).sweep.value)
  {
    assert step(s, read) == Apply(s, Page(read, None));
    if TablesOk(s.tables) && SweepOk(s.tables, s.sweep.value) { PageWent(s.tables, s.sweep.value, read); }
  }

  /** The last step of a sweep. */
  lemma {:induction false} StepEnds(step: PageStepper, s: System, read: HistoryRead)
    requires IsPageStep(step) && s.sweep.Some? && TablesOk(s.tables) && SweepOk(s.tables, s.sweep.value)
    requires IsFinal(s.sweep.value, read)
    ensures step(s, read).sweep.None?
    ensures var (t', s') := AtCommit(s.tables, s.sweep.value, read);
            Went(s.tables, s.sweep.value, read, t', s') && step(s, read).tables == Conclude(t', s', None)
  {
    assert step(s, read) == Apply(s, Page(read, None));
    FinalWent(s.tables, s.sweep.value, read);
  }

  function AllAdmitted(pages: seq<HistoryRead>, input: Input): seq<Observation> {
    if pages == [] then []
    else AllAdmitted(pages[..|pages| - 1], input) + Admitted(pages[|pages| - 1].observations, input)
  }

  function AllNamed(pages: seq<HistoryRead>, input: Input): set<Id> {
    if pages == [] then {} else AllNamed(pages[..|pages| - 1], input) + NamedHere(pages[|pages| - 1], input)
  }

  lemma {:induction false} AllAppend(pages: seq<HistoryRead>, read: HistoryRead, input: Input)
    ensures AllAdmitted(pages + [read], input) == AllAdmitted(pages, input) + Admitted(read.observations, input)
    ensures AllNamed(pages + [read], input) == AllNamed(pages, input) + NamedHere(read, input)
  {
    assert (pages + [read])[..|pages + [read]| - 1] == pages;
  }

  ghost function Started(t: Tables, input: Input): (s: System)
    ensures s.sweep.Some?
  {
    System(Begin(t, input).0, Some(Begin(t, input).1))
  }

  /** The system just before the last of the pages. */
  ghost function BeforeLast(step: PageStepper, t: Tables, input: Input, pages: seq<HistoryRead>): System
    requires pages != []
  {
    ReadPages(step, Started(t, input), pages[..|pages| - 1])
  }

  /** All but the last page leave the sweep running, and the last is its final page. */
  ghost predicate RunsToEnd(step: PageStepper, t: Tables, input: Input, pages: seq<HistoryRead>) {
    && TablesOk(t) && pages != []
    && BeforeLast(step, t, input, pages).sweep.Some?
    && IsFinal(BeforeLast(step, t, input, pages).sweep.value, pages[|pages| - 1])
  }

  ghost predicate Completes(step: PageStepper, t: Tables, input: Input, pages: seq<HistoryRead>) {
    && RunsToEnd(step, t, input, pages)
    && var s := BeforeLast(step, t, input, pages);
       AtCommit(s.tables, s.sweep.value, pages[|pages| - 1]).1.gate.Disqualifier().None?
  }

  /** The reports of a sweep: one per id, none sorting before what its chain held at the start. */
  ghost predicate InOrder(t: Tables, input: Input, os: seq<Observation>) {
    && Distinct(os)
    && forall i :: 0 <= i < |os| ==>
        SortsLast(Replay(t.rows, input.adapterId).Chain((input.adapterId, os[i].localId)), os[i])
  }

  /** The first sweep, some pages in. */
  ghost predicate Settling(t0: Tables, input: Input, pages: seq<HistoryRead>, t: Tables, s: Sweep) {
    && TablesOk(t) && SweepOk(t, s) && s.input == input && t.resources == t0.resources
    && s.observed == LocalIds(AllAdmitted(pages, input))
    && s.exempt == AllNamed(pages, input)
    && Settled(s.fold, s.buried, input.adapterId, Contents(AllAdmitted(pages, input)))
    && ChainsKept(t0, s)
  }

  /** What the sweep has not reported is as it was. */
  ghost predicate ChainsKept(t0: Tables, s: Sweep) {
    forall l :: l !in s.observed ==>
      s.fold.Chain((s.input.adapterId, l)) == Replay(t0.rows, s.input.adapterId).Chain((s.input.adapterId, l))
  }

  lemma {:induction false} FreshReports(t0: Tables, input: Input, before: seq<Observation>, os: seq<Observation>,
                                        f: FoldState)
    requires InOrder(t0, input, before + os)
    requires forall l :: l !in LocalIds(before) ==>
               f.Chain((input.adapterId, l)) == Replay(t0.rows, input.adapterId).Chain((input.adapterId, l))
    ensures NewReports(f, input.adapterId, os, Contents(before))
  {
    var all := before + os;
    ContentsKeys(before);
    assert forall i :: 0 <= i < |before| ==> all[i] == before[i];
    forall i | 0 <= i < |os|
      ensures os[i].localId !in Contents(before)
      ensures SortsLast(f.Chain((input.adapterId, os[i].localId)), os[i])
    {
      assert all[|before| + i] == os[i];
    }
    forall i, j | 0 <= i < j < |os| ensures os[i].localId != os[j].localId {
      assert all[|before| + i] == os[i] && all[|before| + j] == os[j];
    }
  }

  lemma {:induction false} OwnObserved(os: seq<Observation>, input: Input, observed: set<Id>)
    requires forall i :: 0 <= i < |os| ==> os[i].adapterId == input.adapterId
    ensures OwnReports(os, input.adapterId, observed + LocalIds(os))
  {
    forall i | 0 <= i < |os| ensures os[i].localId in observed + LocalIds(os) { assert os[i].localId in LocalIds(os); }
  }

  lemma {:induction false} UnreportedKept(w: Work, input: Input, crawl: nat, buried: map<Id, nat>, os: seq<Observation>,
                                          observed: set<Id>, l: Id)
    requires IngestPage(w, input, crawl, buried, os).Some? && l !in observed + LocalIds(os)
    ensures IngestPage(w, input, crawl, buried, os).value.fold.Chain((input.adapterId, l))
            == w.fold.Chain((input.adapterId, l))
  {
    forall i | 0 <= i < |os| ensures os[i].localId != l { assert os[i].localId in LocalIds(os); }
    PageLeavesChain(w, input, crawl, buried, os, l);
  }

  /** What a page of new reports leaves: everything reported so far is settled. */
  lemma {:induction false} WentSettles(t0: Tables, input: Input, before: seq<Observation>, t: Tables, s: Sweep,
                                       read: HistoryRead, t': Tables, s': Sweep)
    requires TablesOk(t) && SweepOk(t, s) && s.input == input && Went(t, s, read, t', s')
    requires s.observed == LocalIds(before) && ChainsKept(t0, s)
    requires Settled(s.fold, s.buried, input.adapterId, Contents(before))
    requires InOrder(t0, input, before + Admitted(read.observations, input))
    ensures Settled(s'.fold, s'.buried, input.adapterId, Contents(before + Admitted(read.observations, input)))
  {
    var os := Admitted(read.observations, input);
    var observed := s.observed + LocalIds(os);
    ContentsConcat(before, os);
    AdmittedAreOwn(read.observations, input);
    FreshReports(t0, input, before, os, s.fold);
    OwnObserved(os, input, s.observed);
    assert WorkOk(WorkOf(t, s), input.adapterId, observed);
    PageSettles(t, WorkOf(t, s), input, s.crawl, s.buried, os, observed, Contents(before));
  }

  lemma {:induction false} WentKeepsChains(t0: Tables, t: Tables, s: Sweep, read: HistoryRead, t': Tables, s': Sweep)
    requires Went(t, s, read, t', s') && ChainsKept(t0, s)
    ensures ChainsKept(t0, s')
  {
    var os := Admitted(read.observations, s.input);
    forall l | l !in s'.observed
      ensures s'.fold.Chain((s.input.adapterId, l)) == Replay(t0.rows, s.input.adapterId).Chain((s.input.adapterId, l))
    {
      UnreportedKept(WorkOf(t, s), s.input, s.crawl, s.buried, os, s.observed, l);
    }
  }

  lemma {:induction false} InOrderPrefix(t: Tables, input: Input, xs: seq<Observation>, ys: seq<Observation>)
    requires InOrder(t, input, xs + ys)
    ensures InOrder(t, input, xs)
  {
    assert forall i :: 0 <= i < |xs| ==> (xs + ys)[i] == xs[i];
  }

  lemma {:induction false} SettlingWent(t0: Tables, input: Input, pages: seq<HistoryRead>, t: Tables, s: Sweep,
                                        read: HistoryRead, t': Tables, s': Sweep)
    requires Settling(t0, input, pages, t, s) && Went(t, s, read, t', s')
    requires InOrder(t0, input, AllAdmitted(pages + [read], input))
    ensures Settling(t0, input, pages + [read], t', s')
  {
    AllAppend(pages, read, input);
    LocalIdsConcat(AllAdmitted(pages, input), Admitted(read.observations, input));
    WentSettles(t0, input, AllAdmitted(pages, input), t, s, read, t', s');
    WentKeepsChains(t0, t, s, read, t', s');
  }

  lemma {:induction false} SettlingStarts(t0: Tables, input: Input)
    requires TablesOk(t0)
    ensures Settling(t0, input, [], Started(t0, input).tables, Started(t0, input).sweep.value)
  {
    BeginKeeps(t0, input);
  }

  /** While the first sweep runs, everything it has reported is settled. */
  lemma {:induction false} SettlingPages(step: PageStepper, t0: Tables, input: Input, pages: seq<HistoryRead>)
    requires IsPageStep(step) && TablesOk(t0) && InOrder(t0, input, AllAdmitted(pages, input))
    requires ReadPages(step, Started(t0, input), pages).sweep.Some?
    ensures var s := ReadPages(step, Started(t0, input), pages); Settling(t0, input, pages, s.tables, s.sweep.value)
  {
    if pages == [] {
      SettlingStarts(t0, input);
    } else {
      var front, read := pages[..|pages| - 1], pages[|pages| - 1];
      assert pages == front + [read];
      InOrderPrefix(t0, input, AllAdmitted(front, input), Admitted(read.observations, input));
      var mid := ReadPages(step, Started(t0, input), front);
      StepGoesOn(step, mid, read);
      SettlingPages(step, t0, input, front);
      SettlingWent(t0, input, front, mid.tables, mid.sweep.value, read, step(mid, read).tables,
                   step(mid, read).sweep.value);
    }
  }

  lemma {:induction false} FirstSweepRests(step: PageStepper, t0: Tables, input: Input, pages: seq<HistoryRead>)
    requires IsPageStep(step) && Completes(step, t0, input, pages) && !VantageMoved(t0, input)
    requires InOrder(t0, input, AllAdmitted(pages, input))
    ensures ReadPages(step, Started(t0, input), pages).sweep.None?
    ensures Rested(ReadPages(step, Started(t0, input), pages).tables, input, Contents(AllAdmitted(pages, input)),
                   AllNamed(pages, input))
  {
    var front, read := pages[..|pages| - 1], pages[|pages| - 1];
    assert pages == front + [read];
    InOrderPrefix(t0, input, AllAdmitted(front, input), Admitted(read.observations, input));
    SettlingPages(step, t0, input, front);
    var mid := BeforeLast(step, t0, input, pages);
    StepEnds(step, mid, read);
    var (t1, s1) := AtCommit(mid.tables, mid.sweep.value, read);
    SettlingWent(t0, input, front, mid.tables, mid.sweep.value, read, t1, s1);
    ContentsKeys(AllAdmitted(pages, input));
    ConcludeRests(t1, s1, Contents(AllAdmitted(pages, input)));
  }

  /** The repeat, some pages in. */
  ghost predicate Repeating(t0: Tables, input: Input, pages: seq<HistoryRead>, contents: map<Id, Content>, t: Tables,
                            s: Sweep) {
    && Echoing(t0, t, s, contents) && s.input == input
    && s.observed == LocalIds(AllAdmitted(pages, input))
    && s.exempt == AllNamed(pages, input)
  }

  lemma {:induction false} RepeatingWent(t0: Tables, input: Input, pages: seq<HistoryRead>, contents: map<Id, Content>,
                                         t: Tables, s: Sweep, read: HistoryRead, t': Tables, s': Sweep)
    requires Repeating(t0, input, pages, contents, t, s) && Went(t, s, read, t', s')
    requires Echoes(Admitted(read.observations, input), contents)
    ensures Repeating(t0, input, pages + [read], contents, t', s')
  {
    EchoWent(t0, t, s, read, contents, t', s');
    AllAppend(pages, read, input);
    LocalIdsConcat(AllAdmitted(pages, input), Admitted(read.observations, input));
  }

  lemma {:induction false} RepeatingStarts(t0: Tables, input: Input, contents: map<Id, Content>)
    requires TablesOk(t0)
    requires Settled(Replay(t0.rows, input.adapterId), HighWater(t0.retractions, input.adapterId), input.adapterId,
                     contents)
    ensures Repeating(t0, input, [], contents, Started(t0, input).tables, Started(t0, input).sweep.value)
  {
    BeginKeeps(t0, input);
  }

  lemma {:induction false} EchoesSplit(xs: seq<Observation>, ys: seq<Observation>, contents: map<Id, Content>)
    requires Echoes(xs + ys, contents)
    ensures Echoes(xs, contents) && Echoes(ys, contents)
  {
    assert forall i :: 0 <= i < |xs| ==> (xs + ys)[i] == xs[i];
    assert forall i :: 0 <= i < |ys| ==> (xs + ys)[|xs| + i] == ys[i];
  }

  /** While the repeat runs, it has written no fact. */
  lemma {:induction false} RepeatingPages(step: PageStepper, t0: Tables, input: Input, pages: seq<HistoryRead>,
                                          contents: map<Id, Content>)
    requires IsPageStep(step) && TablesOk(t0)
    requires Settled(Replay(t0.rows, input.adapterId), HighWater(t0.retractions, input.adapterId), input.adapterId,
                     contents)
    requires Echoes(AllAdmitted(pages, input), contents)
    requires ReadPages(step, Started(t0, input), pages).sweep.Some?
    ensures var s := ReadPages(step, Started(t0, input), pages);
            Repeating(t0, input, pages, contents, s.tables, s.sweep.value)
  {
    if pages == [] {
      RepeatingStarts(t0, input, contents);
    } else {
      var front, read := pages[..|pages| - 1], pages[|pages| - 1];
      assert pages == front + [read];
      EchoesSplit(AllAdmitted(front, input), Admitted(read.observations, input), contents);
      var mid := ReadPages(step, Started(t0, input), front);
      StepGoesOn(step, mid, read);
      RepeatingPages(step, t0, input, front, contents);
      RepeatingWent(t0, input, front, contents, mid.tables, mid.sweep.value, read, step(mid, read).tables,
                    step(mid, read).sweep.value);
    }
  }

  /** From tables at rest, a sweep that reports the same content writes no fact and retracts nothing. */
  lemma {:induction false} RestedRepeat(step: PageStepper, t: Tables, input: Input, pages: seq<HistoryRead>,
                                        contents: map<Id, Content>, exempt: set<Id>)
    requires IsPageStep(step) && RunsToEnd(step, t, input, pages) && Rested(t, input, contents, exempt)
    requires Echoes(AllAdmitted(pages, input), contents)
    requires LocalIds(AllAdmitted(pages, input)) == contents.Keys && exempt <= AllNamed(pages, input)
    ensures SameFacts(t.rows, ReadPages(step, Started(t, input), pages).tables.rows)
    ensures ReadPages(step, Started(t, input), pages).tables.retractions == t.retractions
  {
    var front, read := pages[..|pages| - 1], pages[|pages| - 1];
    assert pages == front + [read];
    EchoesSplit(AllAdmitted(front, input), Admitted(read.observations, input), contents);
    RepeatingPages(step, t, input, front, contents);
    var mid := BeforeLast(step, t, input, pages);
    StepEnds(step, mid, read);
    var (t1, s1) := AtCommit(mid.tables, mid.sweep.value, read);
    RepeatingWent(t, input, front, contents, mid.tables, mid.sweep.value, read, t1, s1);
    EchoConcludes(t, t1, s1, contents, exempt);
  }

  /** A complete sweep repeated with the same content, in any pages and at any later time: no
      observation is appended, nothing is retracted, and no record's liveness changes. */
  lemma {:induction false} RepeatedSweepChangesNothing(t0: Tables, input: Input, first: seq<HistoryRead>,
                                                       second: seq<HistoryRead>)
    requires Completes(PageStep(), t0, input, first) && !VantageMoved(t0, input)
    requires InOrder(t0, input, AllAdmitted(first, input))
    requires RunsToEnd(PageStep(), ReadPages(PageStep(), Started(t0, input), first).tables, input, second)
    requires Echoes(AllAdmitted(second, input), Contents(AllAdmitted(first, input)))
    requires LocalIds(AllAdmitted(second, input)) == LocalIds(AllAdmitted(first, input))
    requires AllNamed(second, input) == AllNamed(first, input)
    ensures var t1 := ReadPages(PageStep(), Started(t0, input), first).tables;
            var t2 := ReadPages(PageStep(), Started(t1, input), second).tables;
            && SameFacts(t1.rows, t2.rows)
            && t2.retractions == t1.retractions
            && forall a, r, l :: LiveRecord(t2, a, r, l) <==> LiveRecord(t1, a, r, l)
  {
    var step := PageStep();
    assert IsPageStep(step);
    RepeatChangesNothing(step, t0, input, first, second);
  }

  lemma {:induction false} RepeatChangesNothing(step: PageStepper, t0: Tables, input: Input, first: seq<HistoryRead>,
                                                second: seq<HistoryRead>)
    requires IsPageStep(step) && Completes(step, t0, input, first) && !VantageMoved(t0, input)
    requires InOrder(t0, input, AllAdmitted(first, input))
    requires RunsToEnd(step, ReadPages(step, Started(t0, input), first).tables, input, second)
    requires Echoes(AllAdmitted(second, input), Contents(AllAdmitted(first, input)))
    requires LocalIds(AllAdmitted(second, input)) == LocalIds(AllAdmitted(first, input))
    requires AllNamed(second, input) == AllNamed(first, input)
    ensures var t1 := ReadPages(step, Started(t0, input), first).tables;
            var t2 := ReadPages(step, Started(t1, input), second).tables;
            && SameFacts(t1.rows, t2.rows)
            && t2.retractions == t1.retractions
            && forall a, r, l :: LiveRecord(t2, a, r, l) <==> LiveRecord(t1, a, r, l)
  {
    FirstSweepRests(step, t0, input, first);
    var t1 := ReadPages(step, Started(t0, input), first).tables;
    ContentsKeys(AllAdmitted(first, input));
    RestedRepeat(step, t1, input, second, Contents(AllAdmitted(first, input)), AllNamed(first, input));
    var t2 := ReadPages(step, Started(t1, input), second).tables;
    forall a, r, l ensures LiveRecord(t2, a, r, l) <==> LiveRecord(t1, a, r, l) {
      SameReplay(t1.rows, t2.rows, a);
    }
  }
}
