/** What a committed page leaves in the rows: each report, as it was authored, and nothing else. */
module SweepReports {
  import opened Base
  import opened Folding
  import opened Tables
  import opened Sweeping
  import opened SweepRuns
  import opened SweepTheorems

  /** The row says, field by field, what the adapter authored; it was last seen by this crawl, under the
      sweep's rules. When it was received may differ. */
  predicate Records(row: Row, input: Input, crawl: nat, o: Observation) {
    && row.adapterId == input.adapterId && row.obs.adapterId == o.adapterId && row.obs.localId == o.localId
    && row.obs.resourceId == o.resourceId && row.obs.state == o.state && row.obs.surface == o.surface
    && row.obs.content == o.content && row.obs.observedAt == o.observedAt && row.obs.effectiveAt == o.effectiveAt
    && row.lastSeen == crawl && row.meta == RulesOf(input)
  }

  ghost predicate Recorded(rows: seq<Row>, input: Input, crawl: nat, o: Observation) {
    exists i :: 0 <= i < |rows| && Records(rows[i], input, crawl, o)
  }

  /** The row is one of the reports, stored whole by this crawl. */
  ghost predicate NewRow(row: Row, input: Input, crawl: nat, os: seq<Observation>) {
    && row.obs in os && row.adapterId == input.adapterId && row.crawl == crawl
    && Records(row, input, crawl, row.obs)
  }

  function RulesOf(input: Input): HeadMeta { HeadMeta(input.derivation, Some(input.fingerprint)) }

  /** The row as it was, or, if its key is reported, as last seen by this crawl under the sweep's rules. */
  predicate SameOrSeen(row: Row, row': Row, input: Input, crawl: nat, ids: set<Id>) {
    || row' == row
    || (row.adapterId == input.adapterId && row.obs.localId in ids
        && row' == row.(lastSeen := crawl, meta := RulesOf(input)))
  }

  /** Every row of `rows` stays, perhaps seen again; every later one is a report. */
  ghost predicate OnlyReports(rows: seq<Row>, rows': seq<Row>, input: Input, crawl: nat, os: seq<Observation>) {
    && |rows| <= |rows'| <= |rows| + |os|
    && (forall i :: 0 <= i < |rows| ==> SameOrSeen(rows[i], rows'[i], input, crawl, LocalIds(os)))
    && (forall i :: |rows| <= i < |rows'| ==> NewRow(rows'[i], input, crawl, os))
  }

  lemma {:induction false} OneRecorded(w: Work, input: Input, crawl: nat, buried: map<Id, nat>, o: Observation,
                                       observed: set<Id>, w': Work)
    requires WorkOk(w, input.adapterId, observed) && o.adapterId == input.adapterId
    requires IngestOne(w, input, crawl, buried, o) == Some(w')
    ensures Recorded(w'.rows, input, crawl, o)
  {
    var key := (input.adapterId, o.localId);
    if Deduplicates(w.fold, buried, key, o) {
      var i := HeadIsRow(w.rows, w.fold, input.adapterId, o.localId);
      assert w.rows[i].obs.adapterId == w.rows[i].adapterId;
      assert Records(w'.rows[i], input, crawl, o);
    } else {
      assert Records(w'.rows[|w.rows|], input, crawl, o);
    }
  }

  lemma {:induction false} StaysRecorded(w: Work, input: Input, crawl: nat, buried: map<Id, nat>, o: Observation,
                                         w': Work, x: Observation)
    requires Recorded(w.rows, input, crawl, x) && IngestOne(w, input, crawl, buried, o) == Some(w')
    ensures Recorded(w'.rows, input, crawl, x)
  {
    var i :| 0 <= i < |w.rows| && Records(w.rows[i], input, crawl, x);
    assert Records(w'.rows[i], input, crawl, x);
  }

  lemma {:induction false} OneOnlyReports(w: Work, input: Input, crawl: nat, buried: map<Id, nat>, o: Observation,
                                          w': Work)
    requires IngestOne(w, input, crawl, buried, o) == Some(w') && o.adapterId == input.adapterId
    ensures OnlyReports(w.rows, w'.rows, input, crawl, [o])
    ensures w'.added + w'.revised + |w.rows| == w.added + w.revised + |w'.rows|
    ensures w'.added + w'.revised + w'.same == w.added + w.revised + w.same + 1
  {
    assert [o][0] == o;
    assert o.localId in LocalIds([o]);
  }

  lemma {:induction false} OnlyReportsThen(x: seq<Row>, y: seq<Row>, z: seq<Row>, input: Input, crawl: nat,
                                           front: seq<Observation>, o: Observation)
    requires OnlyReports(x, y, input, crawl, front) && OnlyReports(y, z, input, crawl, [o])
    ensures OnlyReports(x, z, input, crawl, front + [o])
  {
    var os := front + [o];
    assert os[|front|] == o;
    assert forall l :: l in LocalIds(front) ==> l in LocalIds(os) by {
      forall l | l in LocalIds(front) ensures l in LocalIds(os) {
        var i :| 0 <= i < |front| && front[i].localId == l;
        assert os[i].localId == l;
      }
    }
    assert LocalIds([o]) == {o.localId} && os[|front|].localId in LocalIds(os);
    forall i | |x| <= i < |z| ensures NewRow(z[i], input, crawl, os) {
      if i < |y| { StampedNew(y[i], z[i], input, crawl, front, o); }
    }
  }

  /** A new row seen again within its page is still that row. */
  lemma {:induction false} StampedNew(y: Row, z: Row, input: Input, crawl: nat, front: seq<Observation>, o: Observation)
    requires NewRow(y, input, crawl, front) && SameOrSeen(y, z, input, crawl, {o.localId})
    ensures NewRow(z, input, crawl, front + [o])
  {
  }

  ghost predicate AllRecorded(rows: seq<Row>, input: Input, crawl: nat, os: seq<Observation>) {
    forall i :: 0 <= i < |os| ==> Recorded(rows, input, crawl, os[i])
  }

  lemma {:induction false} AllStayRecorded(w: Work, input: Input, crawl: nat, buried: map<Id, nat>, o: Observation,
                                           w': Work, front: seq<Observation>)
    requires AllRecorded(w.rows, input, crawl, front) && IngestOne(w, input, crawl, buried, o) == Some(w')
    requires Recorded(w'.rows, input, crawl, o)
    ensures AllRecorded(w'.rows, input, crawl, front + [o])
  {
    forall i | 0 <= i < |front + [o]| ensures Recorded(w'.rows, input, crawl, (front + [o])[i]) {
      if i < |front| { StaysRecorded(w, input, crawl, buried, o, w', front[i]); }
    }
  }

  /** The rows from `n` on that are their record's first. */
  function Firsts(rows: seq<Row>, n: nat): set<nat> { set i: nat | n <= i < |rows| && rows[i].revision == 1 }

  lemma {:induction false} OneMoreFirst(w: Work, input: Input, crawl: nat, buried: map<Id, nat>, o: Observation,
                                        w': Work, n: nat)
    requires IngestOne(w, input, crawl, buried, o) == Some(w') && n <= |w.rows|
    ensures w'.added - w.added == |Firsts(w'.rows, n)| - |Firsts(w.rows, n)|
  {
    var m := |w.rows|;
    if |w'.rows| == m {
      assert Firsts(w'.rows, n) == Firsts(w.rows, n);
    } else if w'.rows[m].revision == 1 {
      assert Firsts(w'.rows, n) == Firsts(w.rows, n) + {m};
    } else {
      assert Firsts(w'.rows, n) == Firsts(w.rows, n);
    }
  }

  /** What a run of ingests has done to the rows and the counts: new records, new revisions, and the rest. */
  ghost predicate Ingested(w: Work, input: Input, crawl: nat, os: seq<Observation>, w': Work) {
    && AllRecorded(w'.rows, input, crawl, os) && OnlyReports(w.rows, w'.rows, input, crawl, os)
    && w'.added - w.added == |Firsts(w'.rows, |w.rows|)|
    && w'.added + w'.revised + |w.rows| == w.added + w.revised + |w'.rows|
    && w'.added + w'.revised + w'.same == w.added + w.revised + w.same + |os|
  }

  lemma {:induction false} OneMoreIngested(w: Work, input: Input, crawl: nat, buried: map<Id, nat>,
                                           front: seq<Observation>, o: Observation, observed: set<Id>, mid: Work,
                                           w': Work)
    requires WorkOk(mid, input.adapterId, observed) && o.adapterId == input.adapterId
    requires Ingested(w, input, crawl, front, mid) && IngestOne(mid, input, crawl, buried, o) == Some(w')
    ensures Ingested(w, input, crawl, front + [o], w')
  {
    OneRecorded(mid, input, crawl, buried, o, observed, w');
    AllStayRecorded(mid, input, crawl, buried, o, w', front);
    OneOnlyReports(mid, input, crawl, buried, o, w');
    OneMoreFirst(mid, input, crawl, buried, o, w', |w.rows|);
    OnlyReportsThen(w.rows, mid.rows, w'.rows, input, crawl, front, o);
  }

  /** A whole page: each report is on record, nothing else has been written, and the counts say so. */
  lemma {:induction false} PageRecords(w: Work, input: Input, crawl: nat, buried: map<Id, nat>, os: seq<Observation>,
                                       observed: set<Id>, w': Work)
    requires WorkOk(w, input.adapterId, observed) && OwnReports(os, input.adapterId, observed)
    requires IngestPage(w, input, crawl, buried, os) == Some(w')
    ensures Ingested(w, input, crawl, os, w')
  {
    assert Firsts(w.rows, |w.rows|) == {};
    if os != [] {
      var front, o := os[..|os| - 1], os[|os| - 1];
      assert os == front + [o];
      assert OwnReports(front, input.adapterId, observed);
      IngestPageKeeps(w, input, crawl, buried, front, observed);
      var mid := IngestPage(w, input, crawl, buried, front).value;
      LastIngested(w, input, crawl, buried, os, mid);
      PageRecords(w, input, crawl, buried, front, observed, mid);
      OneMoreIngested(w, input, crawl, buried, front, o, observed, mid, w');
    }
  }

  /** The sweep goes on to commit this page. */
  ghost predicate CommitsPage(s: Sweep, read: HistoryRead) {
    s.pageNumber < MAX_PAGES && FindStatus(read.statuses, s.input.resourceId).Some?
  }

  lemma {:induction false} PageRows(t: Tables, s: Sweep, read: HistoryRead, verdict: Option<string>)
    requires TablesOk(t) && SweepOk(t, s) && CommitsPage(s, read)
    ensures var w := IngestPage(WorkOf(t, s), s.input, s.crawl, s.buried, Admitted(read.observations, s.input));
            w.Some? && Settle(t, OnPage(t, s, read, verdict)).tables.rows == w.value.rows
  {
    IngestedKeeps(t, s, read, FindStatus(read.statuses, s.input.resourceId).value);
    if IsFinal(s, read) {
      FinalPageConcludes(t, s, read, verdict);
      var (t1, s1) := AtCommit(t, s, read);
      var gone := ConcludeAppends(t1, s1, verdict);
    }
  }

  lemma {:induction false} AdmittedRecorded(rows: seq<Row>, read: HistoryRead, input: Input, crawl: nat,
                                            o: Observation)
    requires AllRecorded(rows, input, crawl, Admitted(read.observations, input))
    requires o in read.observations && o.adapterId == input.adapterId && o.resourceId == input.resourceId
    ensures Recorded(rows, input, crawl, o)
  {
    AdmittedHolds(read.observations, input, o);
  }

  lemma {:induction false} PageIngested(t: Tables, s: Sweep, read: HistoryRead, verdict: Option<string>)
    requires TablesOk(t) && SweepOk(t, s) && CommitsPage(s, read)
    ensures var rows', os := Settle(t, OnPage(t, s, read, verdict)).tables.rows, Admitted(read.observations, s.input);
            AllRecorded(rows', s.input, s.crawl, os) && OnlyReports(t.rows, rows', s.input, s.crawl, os)
  {
    var os := Admitted(read.observations, s.input);
    var observed := s.observed + LocalIds(os);
    PageRows(t, s, read, verdict);
    AdmittedAreOwn(read.observations, s.input);
    forall i | 0 <= i < |os| ensures os[i].localId in observed { assert os[i].localId in LocalIds(os); }
    assert WorkOk(WorkOf(t, s), s.input.adapterId, observed);
    PageRecords(WorkOf(t, s), s.input, s.crawl, s.buried, os, observed,
                IngestPage(WorkOf(t, s), s.input, s.crawl, s.buried, os).value);
  }

  /** Over every run: once a page commits, each observation of the swept resource it carried is on record
      field by field, seen by this crawl under its rules; and the only new rows are such observations. */
  lemma {:induction false} ReportsAreRows(events: seq<Event>, read: HistoryRead, verdict: Option<string>)
    requires Run(events).sweep.Some? && CommitsPage(Run(events).sweep.value, read)
    ensures var t, s := Run(events).tables, Run(events).sweep.value;
            var rows' := Apply(Run(events), Page(read, verdict)).tables.rows;
      && (forall o :: o in read.observations && o.adapterId == s.input.adapterId && o.resourceId == s.input.resourceId
            ==> Recorded(rows', s.input, s.crawl, o))
      && OnlyReports(t.rows, rows', s.input, s.crawl, Admitted(read.observations, s.input))
  {
    var t, s := Run(events).tables, Run(events).sweep.value;
    RunKeeps(events);
    PageIngested(t, s, read, verdict);
    forall o | o in read.observations && o.adapterId == s.input.adapterId && o.resourceId == s.input.resourceId
      ensures Recorded(Settle(t, OnPage(t, s, read, verdict)).tables.rows, s.input, s.crawl, o)
    {
      AdmittedRecorded(Settle(t, OnPage(t, s, read, verdict)).tables.rows, read, s.input, s.crawl, o);
    }
  }

  /** Nothing but a page that commits writes an observation. */
  lemma {:induction false} OnlyPagesWriteRows(events: seq<Event>, e: Event)
    requires !(e.Page? && Run(events).sweep.Some? && CommitsPage(Run(events).sweep.value, e.read))
    ensures Apply(Run(events), e).tables.rows == Run(events).tables.rows
  {
  }
}
