/** What every run of sweeps keeps: complete, partial, resumed and crashed, with any clock. */
module SweepRuns {
  import opened Base
  import opened Folding
  import opened Tables
  import opened Sweeping

  // ----- the invariant -------------------------------------------------------------------

  /** No retraction names a revision its key does not have. */
  ghost predicate RetractionsOk(t: Tables) {
    forall i :: 0 <= i < |t.retractions| ==>
      1 <= t.retractions[i].revision <= Count(t.rows, t.retractions[i].adapterId, t.retractions[i].localId)
  }

  predicate SameResource(c: Crawl, d: Crawl) { c.adapterId == d.adapterId && c.resourceId == d.resourceId }

  /** Only the newest crawl of a resource may hold a cursor, and not once it has drained. */
  ghost predicate CursorsOk(crawls: seq<Crawl>) {
    && (forall i, j :: 0 <= i < j < |crawls| && SameResource(crawls[i], crawls[j]) ==> crawls[i].nextPage.None?)
    && (forall i :: 0 <= i < |crawls| && crawls[i].drained ==> crawls[i].nextPage.None?)
  }

  ghost predicate TablesOk(t: Tables) {
    RowsOk(t.rows) && RetractionsOk(t) && CursorsOk(t.crawls)
  }

  /** The metadata held for a key is that of the row the fold calls its head. */
  ghost predicate MetaIsHead(rows: seq<Row>, f: FoldState, meta: map<Id, HeadMeta>, a: Id, l: Id) {
    && f.Head((a, l)).Some?
    && l in meta
    && exists i :: 0 <= i < |rows| && Of(rows[i], a, l) && rows[i].revision == f.Head((a, l)).value.revision
                   && rows[i].meta == meta[l]
  }

  ghost predicate MetaOk(w: Work, a: Id, observed: set<Id>) {
    forall l :: (a, l) in w.fold.chains ==> l in w.meta && (l !in observed ==> MetaIsHead(w.rows, w.fold, w.meta, a, l))
  }

  ghost predicate WorkOk(w: Work, a: Id, observed: set<Id>) {
    RowsOk(w.rows) && w.fold == Replay(w.rows, a) && MetaOk(w, a, observed)
  }

  ghost predicate SweepOk(t: Tables, s: Sweep) {
    && s.crawl + 1 == |t.crawls|
    && t.crawls[s.crawl].adapterId == s.input.adapterId && t.crawls[s.crawl].resourceId == s.input.resourceId
    && !t.crawls[s.crawl].drained
    && WorkOk(WorkOf(t, s), s.input.adapterId, s.observed)
    && s.buried == HighWater(t.retractions, s.input.adapterId)
  }

  ghost predicate Inv(s: System) {
    TablesOk(s.tables) && (s.sweep.Some? ==> SweepOk(s.tables, s.sweep.value))
  }

  // ----- one observation -----------------------------------------------------------------

  /** `rows'` keeps every fact of `rows` and adds only rows of one key. */
  ghost predicate Grows(rows: seq<Row>, rows': seq<Row>, a: Id, l: Id) {
    && |rows| <= |rows'|
    && SameFacts(rows, rows'[..|rows|])
    && (forall i :: 0 <= i < |rows| && !Of(rows[i], a, l) ==> rows'[i] == rows[i])
    && (forall i :: |rows| <= i < |rows'| ==> Of(rows'[i], a, l))
  }

  lemma {:induction false} StampWork(w: Work, input: Input, crawl: nat, revision: nat, l: Id, observed: set<Id>)
    requires WorkOk(w, input.adapterId, observed) && l in observed
    requires (input.adapterId, l) in w.fold.chains
    ensures var w' := w.(rows := StampSeen(w.rows, input.adapterId, l, revision, crawl, InputMeta(input)),
                         meta := w.meta[l := InputMeta(input)], same := w.same + 1);
            WorkOk(w', input.adapterId, observed) && Grows(w.rows, w'.rows, input.adapterId, l)
  {
    var a := input.adapterId;
    var rows' := StampSeen(w.rows, a, l, revision, crawl, InputMeta(input));
    StampKeepsRows(w.rows, a, l, revision, crawl, InputMeta(input));
    SameReplay(w.rows, rows', a);
    assert rows'[..|w.rows|] == rows';
    forall k | (a, k) in w.fold.chains && k !in observed
      ensures MetaIsHead(rows', w.fold, w.meta[l := InputMeta(input)], a, k)
    {
      assert MetaIsHead(w.rows, w.fold, w.meta, a, k);
      var i :| 0 <= i < |w.rows| && Of(w.rows[i], a, k) && w.rows[i].revision == w.fold.Head((a, k)).value.revision
               && w.rows[i].meta == w.meta[k];
      assert rows'[i] == w.rows[i];
    }
  }

  lemma {:induction false} AppendWork(w: Work, input: Input, crawl: nat, o: Observation, observed: set<Id>)
    requires WorkOk(w, input.adapterId, observed) && o.localId in observed && o.adapterId == input.adapterId
    ensures var revision := w.fold.NextRevision(o);
            var row := Row(input.adapterId, revision, crawl, crawl, InputMeta(input), o);
            && revision == Count(w.rows, input.adapterId, o.localId) + 1
            && !Taken(w.rows, input.adapterId, o.localId, revision)
            && Replay(w.rows + [row], input.adapterId) == w.fold.Ingest(o)
            && RowsOk(w.rows + [row])
            && Grows(w.rows, w.rows + [row], input.adapterId, o.localId)
  {
    var a, l := input.adapterId, o.localId;
    ReplayReassigns(w.rows, a);
    assert |w.fold.Chain((a, l))| == Count(w.rows, a, l);
    NextRevisionFree(w.rows, a, l);
    var row := Row(a, w.fold.NextRevision(o), crawl, crawl, InputMeta(input), o);
    ReplayStep(w.rows, row, a);
    AppendKeepsRows(w.rows, row);
    assert (w.rows + [row])[..|w.rows|] == w.rows;
  }

  lemma {:induction false} AppendMeta(w: Work, input: Input, crawl: nat, o: Observation, observed: set<Id>)
    requires WorkOk(w, input.adapterId, observed) && o.localId in observed && o.adapterId == input.adapterId
    ensures var row := Row(input.adapterId, w.fold.NextRevision(o), crawl, crawl, InputMeta(input), o);
            MetaOk(w.(rows := w.rows + [row], fold := w.fold.Ingest(o), meta := w.meta[o.localId := InputMeta(input)]),
                   input.adapterId, observed)
  {
    var a := input.adapterId;
    var row := Row(a, w.fold.NextRevision(o), crawl, crawl, InputMeta(input), o);
    var f', meta' := w.fold.Ingest(o), w.meta[o.localId := InputMeta(input)];
    forall k | (a, k) in f'.chains && k !in observed
      ensures MetaIsHead(w.rows + [row], f', meta', a, k)
    {
      assert f'.Head((a, k)) == w.fold.Head((a, k));
      assert MetaIsHead(w.rows, w.fold, w.meta, a, k);
      var i :| 0 <= i < |w.rows| && Of(w.rows[i], a, k) && w.rows[i].revision == w.fold.Head((a, k)).value.revision
               && w.rows[i].meta == w.meta[k];
      assert (w.rows + [row])[i] == w.rows[i];
    }
  }

  /** Ingesting keeps the in-memory fold equal to the replay of the rows, and the UNIQUE key never
      refuses a row. */
  lemma {:induction false} IngestOneKeeps(w: Work, input: Input, crawl: nat, buried: map<Id, nat>, o: Observation,
                                          observed: set<Id>)
    requires WorkOk(w, input.adapterId, observed) && o.localId in observed && o.adapterId == input.adapterId
    ensures IngestOne(w, input, crawl, buried, o).Some?
    ensures WorkOk(IngestOne(w, input, crawl, buried, o).value, input.adapterId, observed)
    ensures Grows(w.rows, IngestOne(w, input, crawl, buried, o).value.rows, input.adapterId, o.localId)
  {
    var key := (input.adapterId, o.localId);
    if Deduplicates(w.fold, buried, key, o) {
      StampWork(w, input, crawl, w.fold.Head(key).value.revision, o.localId, observed);
    } else {
      AppendWork(w, input, crawl, o, observed);
      AppendMeta(w, input, crawl, o, observed);
    }
  }

  // ----- one page ------------------------------------------------------------------------

  /** Facts are never lost, and only keys of `ids` change. */
  ghost predicate PageGrows(rows: seq<Row>, rows': seq<Row>, a: Id, ids: set<Id>) {
    && |rows| <= |rows'|
    && SameFacts(rows, rows'[..|rows|])
    && (forall i :: |rows| <= i < |rows'| ==> rows'[i].adapterId == a && rows'[i].obs.localId in ids)
  }

  lemma {:induction false} PageGrowsThenOne(rows: seq<Row>, mid: seq<Row>, rows': seq<Row>, a: Id, ids: set<Id>, l: Id)
    requires PageGrows(rows, mid, a, ids) && Grows(mid, rows', a, l) && l in ids
    ensures PageGrows(rows, rows', a, ids)
  {
    forall i | 0 <= i < |rows'|
      ensures i < |rows| ==> rows[i].adapterId == rows'[i].adapterId && rows[i].revision == rows'[i].revision
                             && rows[i].obs == rows'[i].obs
      ensures i >= |rows| ==> rows'[i].adapterId == a && rows'[i].obs.localId in ids
    {
      if i < |mid| {
        assert rows'[..|mid|][i] == rows'[i];
        if i < |rows| {
          assert mid[..|rows|][i] == mid[i];
        }
      }
    }
  }

  lemma {:induction false} IngestPageKeeps(w: Work, input: Input, crawl: nat, buried: map<Id, nat>,
                                           os: seq<Observation>, observed: set<Id>)
    requires WorkOk(w, input.adapterId, observed)
    requires forall i :: 0 <= i < |os| ==> os[i].adapterId == input.adapterId && os[i].localId in observed
    ensures IngestPage(w, input, crawl, buried, os).Some?
    ensures WorkOk(IngestPage(w, input, crawl, buried, os).value, input.adapterId, observed)
    ensures PageGrows(w.rows, IngestPage(w, input, crawl, buried, os).value.rows, input.adapterId, LocalIds(os))
  {
    if os == [] {
      assert w.rows[..|w.rows|] == w.rows;
    } else {
      var front, o := os[..|os| - 1], os[|os| - 1];
      IngestPageKeeps(w, input, crawl, buried, front, observed);
      var mid := IngestPage(w, input, crawl, buried, front).value;
      IngestOneKeeps(mid, input, crawl, buried, o, observed);
      assert forall l :: l in LocalIds(front) ==> l in LocalIds(os) by {
        forall l | l in LocalIds(front) ensures l in LocalIds(os) {
          var i :| 0 <= i < |front| && front[i].localId == l;
          assert os[i].localId == l;
        }
      }
      assert o.localId in LocalIds(os);
      PageGrowsThenOne(w.rows, mid.rows, IngestOne(mid, input, crawl, buried, o).value.rows, input.adapterId,
                       LocalIds(os), o.localId);
    }
  }

  lemma {:induction false} AdmittedAreOwn(os: seq<Observation>, input: Input)
    ensures forall i :: 0 <= i < |Admitted(os, input)| ==>
              Admitted(os, input)[i].adapterId == input.adapterId
              && Admitted(os, input)[i].resourceId == input.resourceId
  {
    if os != [] {
      AdmittedAreOwn(os[..|os| - 1], input);
    }
  }

  lemma {:induction false} AdmittedHolds(os: seq<Observation>, input: Input, o: Observation)
    ensures o in Admitted(os, input) <==>
            o in os && o.adapterId == input.adapterId && o.resourceId == input.resourceId
  {
    if os != [] {
      assert os == os[..|os| - 1] + [os[|os| - 1]];
      AdmittedHolds(os[..|os| - 1], input, o);
    }
  }

  lemma {:induction false} CountGrows(rows: seq<Row>, rows': seq<Row>, a: Id, l: Id)
    requires |rows| <= |rows'| && SameFacts(rows, rows'[..|rows|])
    ensures Count(rows, a, l) <= Count(rows', a, l)
  {
    SameCount(rows, rows'[..|rows|], a, l);
    CountMonotone(rows', a, l, |rows|);
  }

  lemma {:induction false} RetractionsSurvive(t: Tables, rows': seq<Row>)
    requires RetractionsOk(t)
    requires |t.rows| <= |rows'| && SameFacts(t.rows, rows'[..|t.rows|])
    ensures RetractionsOk(t.(rows := rows'))
  {
    forall i | 0 <= i < |t.retractions|
      ensures 1 <= t.retractions[i].revision <= Count(rows', t.retractions[i].adapterId, t.retractions[i].localId)
    {
      CountGrows(t.rows, rows', t.retractions[i].adapterId, t.retractions[i].localId);
    }
  }

  // ----- retractions ---------------------------------------------------------------------

  predicate Names(rs: seq<Retraction>, l: Id) { exists i :: 0 <= i < |rs| && rs[i].localId == l }

  /** The new retraction rows are those of the retractable ids, each at its chain's highest revision. */
  lemma {:induction false} RetractRows(live: seq<Id>, f: FoldState, highWater: map<Id, nat>, meta: map<Id, HeadMeta>,
                                       input: Input, crawl: nat, observed: set<Id>, exempt: set<Id>,
                                       gone: seq<Retraction>)
    requires gone == Retract(live, f, highWater, meta, input, crawl, observed, exempt)
    ensures forall r :: r in gone ==>
              && r.localId in live
              && Retractable(f, highWater, input, observed, exempt, r.localId)
              && r == RetractionOf(f, meta, input, crawl, r.localId)
    ensures forall l :: l in live && Retractable(f, highWater, input, observed, exempt, l) ==> Names(gone, l)
  {
    if live != [] {
      var front, last := live[..|live| - 1], live[|live| - 1];
      var before := Retract(front, f, highWater, meta, input, crawl, observed, exempt);
      RetractRows(front, f, highWater, meta, input, crawl, observed, exempt, before);
      assert live == front + [last];
      forall l | l in live && Retractable(f, highWater, input, observed, exempt, l) ensures Names(gone, l) {
        if l in front {
          var i :| 0 <= i < |before| && before[i].localId == l;
          assert gone[i] == before[i];
        } else {
          assert gone[|gone| - 1].localId == l;
        }
      }
    }
  }

  lemma {:induction false} HighestWithinCount(rows: seq<Row>, f: FoldState, a: Id, l: Id)
    requires RowsOk(rows) && f == Replay(rows, a) && (a, l) in f.chains
    ensures f.HighestRevision((a, l)) == Some(Count(rows, a, l)) && Count(rows, a, l) >= 1
  {
    ReplayReassigns(rows, a);
    HighestIsLength(f, (a, l));
    assert ChainOk(f.chains[(a, l)], (a, l), f.counter);
    assert |f.Chain((a, l))| == Count(rows, a, l);
  }

  lemma {:induction false} DeriveKeeps(t: Tables, input: Input, crawl: nat, f: FoldState, meta: map<Id, HeadMeta>,
                                       observed: set<Id>, exempt: set<Id>)
    requires RowsOk(t.rows) && RetractionsOk(t) && f == Replay(t.rows, input.adapterId)
    ensures RetractionsOk(Derive(t, input, crawl, f, meta, observed, exempt))
  {
    var highWater := HighWater(t.retractions, input.adapterId);
    var ids := SortedIds(LiveSet(f, highWater, input.adapterId, input.resourceId));
    var gone := Retract(ids, f, highWater, meta, input, crawl, observed, exempt);
    GoneWithinCount(t.rows, input, crawl, f, highWater, meta, observed, exempt, ids, gone);
    RetractionsGrow(t, gone);
    var t' := Derive(t, input, crawl, f, meta, observed, exempt);
    assert t'.rows == t.rows && (t'.retractions == t.retractions || t'.retractions == t.retractions + gone);
  }

  lemma {:induction false} RetractionsGrow(t: Tables, gone: seq<Retraction>)
    requires RetractionsOk(t) && forall r :: r in gone ==> 1 <= r.revision <= Count(t.rows, r.adapterId, r.localId)
    ensures RetractionsOk(t.(retractions := t.retractions + gone))
  {
    var all := t.retractions + gone;
    forall i | 0 <= i < |all| ensures 1 <= all[i].revision <= Count(t.rows, all[i].adapterId, all[i].localId) {
      if i < |t.retractions| { assert all[i] == t.retractions[i]; } else { assert all[i] in gone; }
    }
  }

  lemma {:induction false} GoneWithinCount(rows: seq<Row>, input: Input, crawl: nat, f: FoldState,
                                           highWater: map<Id, nat>, meta: map<Id, HeadMeta>, observed: set<Id>,
                                           exempt: set<Id>, ids: seq<Id>, gone: seq<Retraction>)
    requires RowsOk(rows) && f == Replay(rows, input.adapterId)
    requires gone == Retract(ids, f, highWater, meta, input, crawl, observed, exempt)
    ensures forall r :: r in gone ==> 1 <= r.revision <= Count(rows, r.adapterId, r.localId)
  {
    RetractRows(ids, f, highWater, meta, input, crawl, observed, exempt, gone);
    forall r | r in gone ensures 1 <= r.revision <= Count(rows, r.adapterId, r.localId) {
      HighestWithinCount(rows, f, input.adapterId, r.localId);
    }
  }

  // ----- the steps -----------------------------------------------------------------------

  lemma {:induction false} OpenKeepsCursors(crawls: seq<Crawl>, a: Id, r: Id, start: Option<PageRequest>,
                                            derivation: string, fingerprint: Option<string>)
    requires CursorsOk(crawls)
    ensures CursorsOk(OpenCrawl(crawls, a, r, start, derivation, fingerprint))
  {
  }

  lemma {:induction false} UpdateKeepsCursors(crawls: seq<Crawl>, id: nat, c: Crawl)
    requires CursorsOk(crawls) && id + 1 == |crawls|
    requires SameResource(c, crawls[id]) && (c.drained ==> c.nextPage.None?)
    ensures CursorsOk(crawls[id := c])
  {
  }

  lemma {:induction false} HeadEntry(f: FoldState, key: ChainKey)
    requires FoldOk(f) && key in f.chains
    ensures f.Head(key).Some? && f.Head(key).value in f.chains[key] && KeyOf(f.Head(key).value.obs) == key
  {
    assert ChainOk(f.chains[key], key, f.counter);
  }

  lemma {:induction false} HeadIsRow(rows: seq<Row>, f: FoldState, a: Id, l: Id) returns (i: nat)
    requires RowsOk(rows) && f == Replay(rows, a) && (a, l) in f.chains
    ensures f.Head((a, l)).Some? && i < |rows| && Of(rows[i], a, l)
    ensures rows[i].revision == f.Head((a, l)).value.revision && rows[i].obs == f.Head((a, l)).value.obs
  {
    ReplayReassigns(rows, a);
    HeadEntry(f, (a, l));
    var head := f.Head((a, l)).value;
    assert EntryIsRow(rows, a, head);
    i :| 0 <= i < |rows| && rows[i].adapterId == a && rows[i].revision == head.revision && rows[i].obs == head.obs;
  }

  /** At the start of a sweep every chain has the metadata of its head row. */
  lemma {:induction false} BeginMeta(rows: seq<Row>, f: FoldState, a: Id, l: Id)
    requires RowsOk(rows) && f == Replay(rows, a) && (a, l) in f.chains
    ensures MetaIsHead(rows, f, HeadMetas(f, StoredMeta(rows, a), a), a, l)
  {
    var i := HeadIsRow(rows, f, a, l);
    StoredMetaIsRow(rows, a, i);
    assert l in (set key | key in f.chains && key.0 == a :: key.1) by {
      assert (a, l) in f.chains;
    }
  }

  lemma {:induction false} BeginKeeps(t: Tables, input: Input)
    requires TablesOk(t)
    ensures TablesOk(Begin(t, input).0) && SweepOk(Begin(t, input).0, Begin(t, input).1)
  {
    var (t', s) := Begin(t, input);
    OpenKeepsCursors(t.crawls, input.adapterId, input.resourceId, StartPage(t, input), input.derivation,
                     Some(input.fingerprint));
    forall l | (input.adapterId, l) in s.fold.chains
      ensures MetaIsHead(t.rows, s.fold, s.meta, input.adapterId, l)
    {
      BeginMeta(t.rows, s.fold, input.adapterId, l);
    }
    assert RetractionsOk(t');
  }

  /** A page that is not the last: what it commits, and the memory it leaves behind. */
  lemma {:induction false} IngestedKeeps(t: Tables, s: Sweep, read: HistoryRead, st: Status)
    requires TablesOk(t) && SweepOk(t, s)
    ensures var w := IngestPage(WorkOf(t, s), s.input, s.crawl, s.buried, Admitted(read.observations, s.input));
            && w.Some?
            && RowsOk(w.value.rows)
            && RetractionsOk(t.(rows := w.value.rows))
            && WorkOk(w.value, s.input.adapterId, Absorb(s, read, st).observed)
            && PageGrows(t.rows, w.value.rows, s.input.adapterId, LocalIds(Admitted(read.observations, s.input)))
  {
    var os := Admitted(read.observations, s.input);
    var observed := Absorb(s, read, st).observed;
    AdmittedAreOwn(read.observations, s.input);
    IngestPageKeeps(WorkOf(t, s), s.input, s.crawl, s.buried, os, observed);
    RetractionsSurvive(t, IngestPage(WorkOf(t, s), s.input, s.crawl, s.buried, os).value.rows);
  }

  lemma {:induction false} FailKeeps(t: Tables, s: Sweep, reason: Disqualification)
    requires TablesOk(t) && s.crawl + 1 == |t.crawls| && !t.crawls[s.crawl].drained
    ensures TablesOk(Fail(t, s, reason))
  {
    UpdateKeepsCursors(t.crawls, s.crawl, Fail(t, s, reason).crawls[s.crawl]);
    assert RetractionsOk(Fail(t, s, reason));
  }

  lemma {:induction false} ConcludeKeeps(t: Tables, s: Sweep, verdict: Option<string>)
    requires TablesOk(t) && s.crawl + 1 == |t.crawls| && s.fold == Replay(t.rows, s.input.adapterId)
    ensures TablesOk(Conclude(t, s, verdict))
  {
    DeriveKeeps(t, s.input, s.crawl, s.fold, s.meta, s.observed, s.exempt);
    var t' := Conclude(t, s, verdict);
    UpdateKeepsCursors(t.crawls, s.crawl, t'.crawls[s.crawl]);
    var t1 := Derive(t, s.input, s.crawl, s.fold, s.meta, s.observed, s.exempt);
    assert t'.retractions == t1.retractions || t'.retractions == t.retractions;
    assert t'.rows == t.rows == t1.rows;
  }

  lemma {:induction false} CommitKeeps(t: Tables, s: Sweep, next: Option<PageRequest>)
    requires TablesOk(t) && SweepOk(t, s)
    ensures TablesOk(t.(crawls := SetCursor(t.crawls, s.crawl, next)))
    ensures SweepOk(t.(crawls := SetCursor(t.crawls, s.crawl, next)), s)
  {
    var t' := t.(crawls := SetCursor(t.crawls, s.crawl, next));
    UpdateKeepsCursors(t.crawls, s.crawl, t'.crawls[s.crawl]);
    assert RetractionsOk(t');
    assert WorkOf(t', s) == WorkOf(t, s);
  }

  lemma {:induction false} PageKeeps(t: Tables, s: Sweep, read: HistoryRead, verdict: Option<string>)
    requires TablesOk(t) && SweepOk(t, s)
    ensures !OnPage(t, s, read, verdict).Refused?
    ensures Inv(Settle(t, OnPage(t, s, read, verdict)))
  {
    var st := FindStatus(read.statuses, s.input.resourceId);
    if s.pageNumber >= MAX_PAGES {
      FailKeeps(t, s, PageLimit);
    } else if st.None? {
      FailKeeps(t, s, NoStatus(s.pageNumber));
    } else {
      IngestedKeeps(t, s, read, st.value);
      var w := IngestPage(WorkOf(t, s), s.input, s.crawl, s.buried, Admitted(read.observations, s.input)).value;
      var s' := Absorb(s, read, st.value).(fold := w.fold, meta := w.meta);
      var t' := t.(rows := w.rows);
      assert MetaOk(WorkOf(t', s'), s.input.adapterId, s'.observed) by {
        assert MetaOk(w, s.input.adapterId, s'.observed);
      }
      if s'.page.None? {
        ConcludeKeeps(t', s', verdict);
      } else {
        CommitKeeps(t', s', s'.resume.NextRequest());
      }
    }
  }

  lemma {:induction false} ApplyKeeps(s: System, e: Event)
    requires Inv(s)
    ensures Inv(Apply(s, e))
  {
    match e {
      case BeginSweep(input) =>
        if s.sweep.None? { BeginKeeps(s.tables, input); }
      case Page(read, verdict) =>
        if s.sweep.Some? { PageKeeps(s.tables, s.sweep.value, read, verdict); }
      case ReadFailed =>
        if s.sweep.Some? { FailKeeps(s.tables, s.sweep.value, AdapterFailed(s.sweep.value.pageNumber)); }
      case _ =>
    }
  }

  /** A whole run of the single writer from an empty profile. */
  ghost function Run(events: seq<Event>): System
    decreases |events|
  {
    if events == [] then System(FRESH, None) else Apply(Run(events[..|events| - 1]), events[|events| - 1])
  }

  lemma {:induction false} RunKeeps(events: seq<Event>)
    ensures Inv(Run(events))
  {
    if events != [] {
      RunKeeps(events[..|events| - 1]);
      ApplyKeeps(Run(events[..|events| - 1]), events[|events| - 1]);
    }
  }
}
