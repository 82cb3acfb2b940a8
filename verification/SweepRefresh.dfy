/** Refreshing a settled resource: exactly what a later sweep says anew is appended. */
module SweepRefresh {
  import opened Base
  import opened Folding
  import opened Tables
  import opened Sweeping
  import opened SweepRuns
  import opened SweepTheorems
  import opened SweepRepeat

  predicate SaysTheSame(o: Observation, contents: map<Id, Content>) {
    o.localId in contents && contents[o.localId] == ContentOf(o)
  }

  /** The reports that do not repeat what is already settled. */
  function Changed(os: seq<Observation>, contents: map<Id, Content>): seq<Observation> {
    if os == [] then []
    else
      var o := os[|os| - 1];
      Changed(os[..|os| - 1], contents) + if SaysTheSame(o, contents) then [] else [o]
  }

  lemma {:induction false} ChangedConcat(xs: seq<Observation>, ys: seq<Observation>, contents: map<Id, Content>)
    ensures Changed(xs + ys, contents) == Changed(xs, contents) + Changed(ys, contents)
  {
    if ys == [] {
      assert xs + ys == xs;
    } else {
      ChangedConcat(xs, ys[..|ys| - 1], contents);
      assert (xs + ys)[..|xs + ys| - 1] == xs + ys[..|ys| - 1];
    }
  }

  /** `rows'` is `rows`, who saw them last aside, followed by one row for each of `os`, in order. */
  ghost predicate Appends(rows: seq<Row>, rows': seq<Row>, os: seq<Observation>) {
    && |rows'| == |rows| + |os| && SameFacts(rows, rows'[..|rows|])
    && forall i :: 0 <= i < |os| ==> rows'[|rows| + i].obs == os[i]
  }

  lemma {:induction false} AppendsThen(x: seq<Row>, y: seq<Row>, z: seq<Row>, xs: seq<Observation>,
                                       ys: seq<Observation>)
    requires Appends(x, y, xs) && Appends(y, z, ys)
    ensures Appends(x, z, xs + ys)
  {
    forall i | 0 <= i < |xs + ys| ensures z[|x| + i].obs == (xs + ys)[i] {
      if i < |xs| {
        assert z[..|y|][|x| + i].obs == y[|x| + i].obs;
      } else {
        assert z[|y| + (i - |xs|)].obs == ys[i - |xs|];
      }
    }
    forall i | 0 <= i < |x|
      ensures x[i].adapterId == z[i].adapterId && x[i].revision == z[i].revision && x[i].obs == z[i].obs
    {
      assert z[..|y|][i] == z[i] && y[..|x|][i] == y[i];
    }
  }

  lemma {:induction false} OneAppends(w: Work, input: Input, crawl: nat, buried: map<Id, nat>, o: Observation,
                                      contents: map<Id, Content>)
    requires o.localId in contents && IngestOne(w, input, crawl, buried, o).Some?
    requires SettledAt(w.fold, buried, input.adapterId, o.localId, contents[o.localId])
    ensures Appends(w.rows, IngestOne(w, input, crawl, buried, o).value.rows, Changed([o], contents))
  {
    assert [o][..0] == [];
    assert Changed([o], contents) == if SaysTheSame(o, contents) then [] else [o];
    var rows' := IngestOne(w, input, crawl, buried, o).value.rows;
    assert |rows'| == |w.rows| ==> rows'[..|w.rows|] == rows';
  }

  /** Ids the page may report: each once, each settled. */
  ghost predicate OnceEach(f: FoldState, buried: map<Id, nat>, a: Id, os: seq<Observation>,
                           contents: map<Id, Content>) {
    && Distinct(os)
    && (forall i :: 0 <= i < |os| ==>
         os[i].localId in contents && SettledAt(f, buried, a, os[i].localId, contents[os[i].localId]))
  }

  lemma {:induction false} FrontOnce(f: FoldState, buried: map<Id, nat>, a: Id, os: seq<Observation>,
                                     contents: map<Id, Content>)
    requires os != [] && OnceEach(f, buried, a, os, contents)
    ensures var front, o := os[..|os| - 1], os[|os| - 1];
      && OnceEach(f, buried, a, front, contents)
      && (forall i :: 0 <= i < |front| ==> front[i].localId != o.localId)
      && o.localId in contents && SettledAt(f, buried, a, o.localId, contents[o.localId])
  {
    var front := os[..|os| - 1];
    assert forall i :: 0 <= i < |front| ==> front[i] == os[i];
  }

  lemma {:induction false} PageAppends(w: Work, input: Input, crawl: nat, buried: map<Id, nat>, os: seq<Observation>,
                                       contents: map<Id, Content>)
    requires OnceEach(w.fold, buried, input.adapterId, os, contents)
    requires IngestPage(w, input, crawl, buried, os).Some?
    ensures Appends(w.rows, IngestPage(w, input, crawl, buried, os).value.rows, Changed(os, contents))
  {
    if os == [] {
      assert w.rows[..|w.rows|] == w.rows;
    } else {
      var front, o := os[..|os| - 1], os[|os| - 1];
      assert os == front + [o];
      FrontOnce(w.fold, buried, input.adapterId, os, contents);
      var mid := IngestPage(w, input, crawl, buried, front).value;
      PageAppends(w, input, crawl, buried, front, contents);
      PageLeavesChain(w, input, crawl, buried, front, o.localId);
      OneAppends(mid, input, crawl, buried, o, contents);
      AppendsThen(w.rows, mid.rows, IngestOne(mid, input, crawl, buried, o).value.rows, Changed(front, contents),
                  Changed([o], contents));
      ChangedConcat(front, [o], contents);
    }
  }

  // ----- a whole refresh -----------------------------------------------------------------

  ghost predicate SettledIn(t: Tables, input: Input, contents: map<Id, Content>) {
    TablesOk(t) &&
    Settled(Replay(t.rows, input.adapterId), HighWater(t.retractions, input.adapterId), input.adapterId, contents)
  }

  /** The refresh, some pages in. */
  ghost predicate Updating(t0: Tables, input: Input, pages: seq<HistoryRead>, contents: map<Id, Content>, t: Tables,
                           s: Sweep) {
    && TablesOk(t) && SweepOk(t, s) && s.input == input
    && t.retractions == t0.retractions && t.resources == t0.resources
    && s.observed == LocalIds(AllAdmitted(pages, input)) && s.exempt == AllNamed(pages, input)
    && ChainsKept(t0, s)
    && Appends(t0.rows, t.rows, Changed(AllAdmitted(pages, input), contents))
  }

  lemma {:induction false} UpdatingStarts(t0: Tables, input: Input, contents: map<Id, Content>)
    requires TablesOk(t0)
    ensures Updating(t0, input, [], contents, Started(t0, input).tables, Started(t0, input).sweep.value)
  {
    BeginKeeps(t0, input);
    assert t0.rows[..|t0.rows|] == t0.rows;
  }

  predicate ReportsWithin(os: seq<Observation>, contents: map<Id, Content>) {
    Distinct(os) && LocalIds(os) <= contents.Keys
  }

  lemma {:induction false} WithinSplits(xs: seq<Observation>, ys: seq<Observation>, contents: map<Id, Content>)
    requires ReportsWithin(xs + ys, contents)
    ensures ReportsWithin(xs, contents) && ReportsWithin(ys, contents)
    ensures forall i :: 0 <= i < |ys| ==> ys[i].localId in contents && ys[i].localId !in LocalIds(xs)
  {
    var all := xs + ys;
    LocalIdsConcat(xs, ys);
    assert forall i :: 0 <= i < |xs| ==> all[i] == xs[i];
    assert forall i :: 0 <= i < |ys| ==> all[|xs| + i] == ys[i];
    forall i | 0 <= i < |ys| ensures ys[i].localId in contents && ys[i].localId !in LocalIds(xs) {
      assert ys[i].localId in LocalIds(ys);
    }
    forall i, j | 0 <= i < j < |ys| ensures ys[i].localId != ys[j].localId {
      assert all[|xs| + i] == ys[i] && all[|xs| + j] == ys[j];
    }
  }

  lemma {:induction false} UnreportedIsSettled(t0: Tables, input: Input, contents: map<Id, Content>, t: Tables,
                                               s: Sweep, l: Id)
    requires SettledIn(t0, input, contents) && SweepOk(t, s) && s.input == input && t.retractions == t0.retractions
    requires ChainsKept(t0, s) && l in contents && l !in s.observed
    ensures SettledAt(s.fold, s.buried, input.adapterId, l, contents[l])
  {
    var a := input.adapterId;
    assert SettledAt(Replay(t0.rows, a), HighWater(t0.retractions, a), a, l, contents[l]);
    assert s.fold.Chain((a, l)) == Replay(t0.rows, a).Chain((a, l));
  }

  lemma {:induction false} UpdatingWent(t0: Tables, input: Input, pages: seq<HistoryRead>, contents: map<Id, Content>,
                                        t: Tables, s: Sweep, read: HistoryRead, t': Tables, s': Sweep)
    requires SettledIn(t0, input, contents) && Updating(t0, input, pages, contents, t, s) && Went(t, s, read, t', s')
    requires ReportsWithin(AllAdmitted(pages + [read], input), contents)
    ensures Updating(t0, input, pages + [read], contents, t', s')
  {
    var before, os := AllAdmitted(pages, input), Admitted(read.observations, input);
    AllAppend(pages, read, input);
    WithinSplits(before, os, contents);
    forall i | 0 <= i < |os|
      ensures SettledAt(s.fold, s.buried, input.adapterId, os[i].localId, contents[os[i].localId])
    {
      UnreportedIsSettled(t0, input, contents, t, s, os[i].localId);
    }
    PageAppends(WorkOf(t, s), input, s.crawl, s.buried, os, contents);
    AppendsThen(t0.rows, t.rows, t'.rows, Changed(before, contents), Changed(os, contents));
    ChangedConcat(before, os, contents);
    LocalIdsConcat(before, os);
    WentKeepsChains(t0, t, s, read, t', s');
  }

  lemma {:induction false} UpdatingPages(step: PageStepper, t0: Tables, input: Input, pages: seq<HistoryRead>,
                                         contents: map<Id, Content>)
    requires IsPageStep(step) && SettledIn(t0, input, contents)
    requires ReportsWithin(AllAdmitted(pages, input), contents)
    requires ReadPages(step, Started(t0, input), pages).sweep.Some?
    ensures var s := ReadPages(step, Started(t0, input), pages);
            Updating(t0, input, pages, contents, s.tables, s.sweep.value)
  {
    if pages == [] {
      UpdatingStarts(t0, input, contents);
    } else {
      var front, read := pages[..|pages| - 1], pages[|pages| - 1];
      assert pages == front + [read];
      WithinSplits(AllAdmitted(front, input), Admitted(read.observations, input), contents);
      var mid := ReadPages(step, Started(t0, input), front);
      StepGoesOn(step, mid, read);
      UpdatingPages(step, t0, input, front, contents);
      UpdatingWent(t0, input, front, contents, mid.tables, mid.sweep.value, read, step(mid, read).tables,
                   step(mid, read).sweep.value);
    }
  }

  /** What the refresh has not reported it finds as the sweep before it left it. */
  lemma {:induction false} NothingMissing(t0: Tables, contents: map<Id, Content>, exempt: set<Id>, t: Tables, s: Sweep,
                                          l: Id)
    requires Rested(t0, s.input, contents, exempt) && t.retractions == t0.retractions
    requires s.fold == Replay(t.rows, s.input.adapterId) && ChainsKept(t0, s)
    requires s.observed == contents.Keys && exempt <= s.exempt
    requires Missing(t, s, l)
    ensures contents == map[] && !s.input.options.confirmEmpty
    ensures LiveRecord(t, s.input.adapterId, s.input.resourceId, l)
  {
    var key := (s.input.adapterId, l);
    assert s.fold.Chain(key) == Replay(t0.rows, s.input.adapterId).Chain(key);
    assert LiveRecord(t0, s.input.adapterId, s.input.resourceId, l);
  }

  /** The closing section finds nothing more to conclude than the sweep before it did. */
  lemma {:induction false} UpdateConcludes(t0: Tables, contents: map<Id, Content>, exempt: set<Id>, t: Tables, s: Sweep)
    requires Rested(t0, s.input, contents, exempt) && t.retractions == t0.retractions
    requires s.fold == Replay(t.rows, s.input.adapterId) && ChainsKept(t0, s)
    requires s.observed == contents.Keys && exempt <= s.exempt
    ensures Conclude(t, s, None).retractions == t0.retractions
  {
    var gone := ConcludeAppends(t, s, None);
    assert Concluded(t, s, None) == gone;
    if gone != [] {
      var l := gone[0].localId;
      assert Names(gone, l);
      RetractsExactlyMissing(t, s, None, l);
      NothingMissing(t0, contents, exempt, t, s, l);
      assert false;
    }
  }

  /** The last page and the closing section of a refresh. */
  lemma {:induction false} RefreshEnds(step: PageStepper, t: Tables, input: Input, pages: seq<HistoryRead>,
                                       contents: map<Id, Content>) returns (t1: Tables, s1: Sweep)
    requires IsPageStep(step) && RunsToEnd(step, t, input, pages) && SettledIn(t, input, contents)
    requires ReportsWithin(AllAdmitted(pages, input), contents)
    ensures Updating(t, input, pages, contents, t1, s1)
    ensures ReadPages(step, Started(t, input), pages).tables == Conclude(t1, s1, None)
  {
    var front, read := pages[..|pages| - 1], pages[|pages| - 1];
    assert pages == front + [read];
    WithinSplits(AllAdmitted(front, input), Admitted(read.observations, input), contents);
    UpdatingPages(step, t, input, front, contents);
    var mid := BeforeLast(step, t, input, pages);
    StepEnds(step, mid, read);
    t1, s1 := AtCommit(mid.tables, mid.sweep.value, read).0, AtCommit(mid.tables, mid.sweep.value, read).1;
    UpdatingWent(t, input, front, contents, mid.tables, mid.sweep.value, read, t1, s1);
  }

  /** From tables at rest, a sweep that reports the same records once each appends one row for every report
      whose content moved, in order, and no other; and it retracts nothing while it names what was exempt. */
  lemma {:induction false} RestedRefresh(step: PageStepper, t: Tables, input: Input, pages: seq<HistoryRead>,
                                         contents: map<Id, Content>, exempt: set<Id>)
    requires IsPageStep(step) && RunsToEnd(step, t, input, pages) && Rested(t, input, contents, exempt)
    requires Distinct(AllAdmitted(pages, input)) && LocalIds(AllAdmitted(pages, input)) == contents.Keys
    ensures var t' := ReadPages(step, Started(t, input), pages).tables;
      && Appends(t.rows, t'.rows, Changed(AllAdmitted(pages, input), contents))
      && (exempt <= AllNamed(pages, input) ==> t'.retractions == t.retractions)
  {
    var t1, s1 := RefreshEnds(step, t, input, pages, contents);
    var gone := ConcludeAppends(t1, s1, None);
    if exempt <= AllNamed(pages, input) { UpdateConcludes(t, contents, exempt, t1, s1); }
  }

  /** A complete sweep followed by another that reports the same records, in any pages. */
  lemma {:induction false} RefreshAppendsTheChanged(step: PageStepper, t0: Tables, input: Input,
                                                    first: seq<HistoryRead>, second: seq<HistoryRead>)
    requires IsPageStep(step) && Completes(step, t0, input, first) && !VantageMoved(t0, input)
    requires InOrder(t0, input, AllAdmitted(first, input))
    requires RunsToEnd(step, ReadPages(step, Started(t0, input), first).tables, input, second)
    requires Distinct(AllAdmitted(second, input))
    requires LocalIds(AllAdmitted(second, input)) == LocalIds(AllAdmitted(first, input))
    ensures var t1 := ReadPages(step, Started(t0, input), first).tables;
            var t2 := ReadPages(step, Started(t1, input), second).tables;
      && Appends(t1.rows, t2.rows, Changed(AllAdmitted(second, input), Contents(AllAdmitted(first, input))))
      && (AllNamed(first, input) <= AllNamed(second, input) ==> t2.retractions == t1.retractions)
  {
    FirstSweepRests(step, t0, input, first);
    ContentsKeys(AllAdmitted(first, input));
    RestedRefresh(step, ReadPages(step, Started(t0, input), first).tables, input, second,
                  Contents(AllAdmitted(first, input)), AllNamed(first, input));
  }
}
