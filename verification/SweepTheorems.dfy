/** What a sweep may conclude, and what it brings back. */
module SweepTheorems {
  import opened Base
  import opened Folding
  import opened Tables
  import opened Sweeping
  import opened SweepRuns
  import Instants
  import Calendar

  // ----- revisions over a whole run ------------------------------------------------------

  /** One key's stored revisions, in insertion order. */
  function RevisionsOf(rows: seq<Row>, a: Id, l: Id): seq<nat> {
    if rows == [] then []
    else
      var front := RevisionsOf(rows[..|rows| - 1], a, l);
      if Of(rows[|rows| - 1], a, l) then front + [rows[|rows| - 1].revision] else front
  }

  lemma {:induction false} RevisionsCount(rows: seq<Row>, a: Id, l: Id)
    requires RowsOk(rows)
    ensures |RevisionsOf(rows, a, l)| == Count(rows, a, l)
    ensures forall i :: 0 <= i < Count(rows, a, l) ==> RevisionsOf(rows, a, l)[i] == i + 1
  {
    if rows != [] {
      RowsPrefix(rows, |rows| - 1);
      RevisionsCount(rows[..|rows| - 1], a, l);
    }
  }

  /** Over every run: each key's stored revisions are exactly 1..n in insertion order, no retraction
      names a revision above n, the UNIQUE key holds, and replay hands every row its own revision. */
  lemma {:induction false} RunNumbersRevisions(events: seq<Event>, a: Id, l: Id)
    ensures var t := Run(events).tables;
            && |RevisionsOf(t.rows, a, l)| == Count(t.rows, a, l)
            && (forall i :: 0 <= i < Count(t.rows, a, l) ==> RevisionsOf(t.rows, a, l)[i] == i + 1)
            && (forall i :: 0 <= i < |t.retractions| && t.retractions[i].adapterId == a && t.retractions[i].localId == l
                  ==> 1 <= t.retractions[i].revision <= Count(t.rows, a, l))
            && (forall i, j :: 0 <= i < j < |t.rows| && Of(t.rows[i], a, l) && Of(t.rows[j], a, l)
                  ==> t.rows[i].revision < t.rows[j].revision)
            && (forall i :: 0 <= i < |t.rows| ==>
                  Replay(t.rows[..i], t.rows[i].adapterId).NextRevision(t.rows[i].obs) == t.rows[i].revision)
  {
    var t := Run(events).tables;
    RunKeeps(events);
    RevisionsCount(t.rows, a, l);
    forall i, j | 0 <= i < j < |t.rows| && Of(t.rows[i], a, l) && Of(t.rows[j], a, l)
      ensures t.rows[i].revision < t.rows[j].revision
    {
      RevisionNamesRow(t.rows, i, j);
    }
    forall i | 0 <= i < |t.rows|
      ensures Replay(t.rows[..i], t.rows[i].adapterId).NextRevision(t.rows[i].obs) == t.rows[i].revision
    {
      ReplayGivesStoredRevision(t.rows, i);
    }
  }

  /** No append is ever refused, from any reachable state and for any page. */
  lemma {:induction false} RunNeverRefused(events: seq<Event>, read: HistoryRead, verdict: Option<string>)
    requires Run(events).sweep.Some?
    ensures !OnPage(Run(events).tables, Run(events).sweep.value, read, verdict).Refused?
  {
    RunKeeps(events);
    PageKeeps(Run(events).tables, Run(events).sweep.value, read, verdict);
  }

  // ----- liveness ------------------------------------------------------------------------

  /** The record is in `live_records` of the resource: what the user is shown. */
  predicate LiveRecord(t: Tables, a: Id, r: Id, l: Id) {
    IsLive(Replay(t.rows, a), HighWater(t.retractions, a), a, r, l)
  }

  lemma {:induction false} LiveSetIsLive(f: FoldState, highWater: map<Id, nat>, a: Id, r: Id, l: Id)
    ensures l in LiveSet(f, highWater, a, r) <==> IsLive(f, highWater, a, r, l)
  {
    if IsLive(f, highWater, a, r, l) {
      assert (a, l) in f.chains;
    }
  }

  /** What the gate asks, condition by condition; (2) is that the sweep got this far. */
  lemma {:induction false} GateOpensIff(g: Gate)
    ensures g.Disqualifier().None? <==>
            && g.beganAtStart && g.drained && g.everyPageFetched && !g.anonymousDegrade
            && g.everyCursorExact && g.derivation != "" && !g.foreignProvenance && g.violation.None?
  {
  }

  /** Over every run: each chain the sweep in hand has not been told about has the metadata of the row
      the fold calls its head. */
  lemma {:induction false} RunHasHeadMeta(events: seq<Event>, l: Id)
    requires Run(events).sweep.Some?
    requires var s := Run(events).sweep.value; (s.input.adapterId, l) in s.fold.chains && l !in s.observed
    ensures var s := Run(events).sweep.value; MetaIsHead(Run(events).tables.rows, s.fold, s.meta, s.input.adapterId, l)
  {
    RunKeeps(events);
    var s := Run(events).sweep.value;
    assert MetaOk(WorkOf(Run(events).tables, s), s.input.adapterId, s.observed);
  }

  /** The sweep has earned the right to conclude absences. */
  ghost predicate Licensed(t: Tables, s: Sweep, verdict: Option<string>) {
    && HoldVerdict(s.gate, verdict).Disqualifier().None?
    && !VantageMoved(t, s.input)
    && (s.observed != {} || s.input.options.confirmEmpty
        || forall l :: !LiveRecord(t, s.input.adapterId, s.input.resourceId, l))
  }

  /** The record is this sweep's to retract: live in its resource, not reported, not exempt. */
  ghost predicate Missing(t: Tables, s: Sweep, l: Id) {
    && LiveRecord(t, s.input.adapterId, s.input.resourceId, l)
    && l !in s.observed && l !in s.exempt
    && !PredatesHistory(s.input.historyStart, Replay(t.rows, s.input.adapterId).Head((s.input.adapterId, l)).value.obs)
  }

  /** The retraction rows the final transaction adds. */
  ghost function Concluded(t: Tables, s: Sweep, verdict: Option<string>): seq<Retraction>
  {
    Conclude(t, s, verdict).retractions[|t.retractions|..]
  }

  lemma {:induction false} ConcludeAppends(t: Tables, s: Sweep, verdict: Option<string>) returns (gone: seq<Retraction>)
    requires s.fold == Replay(t.rows, s.input.adapterId)
    ensures Conclude(t, s, verdict).retractions == t.retractions + gone
    ensures Conclude(t, s, verdict).rows == t.rows
    ensures !Licensed(t, s, verdict) ==> gone == []
    ensures Licensed(t, s, verdict) ==>
              gone == Retract(SortedIds(LiveSet(s.fold, HighWater(t.retractions, s.input.adapterId), s.input.adapterId,
                                                s.input.resourceId)),
                              s.fold, HighWater(t.retractions, s.input.adapterId), s.meta, s.input, s.crawl, s.observed,
                              s.exempt)
  {
    var highWater := HighWater(t.retractions, s.input.adapterId);
    var live := LiveSet(s.fold, highWater, s.input.adapterId, s.input.resourceId);
    forall l ensures l in live <==> LiveRecord(t, s.input.adapterId, s.input.resourceId, l) {
      LiveSetIsLive(s.fold, highWater, s.input.adapterId, s.input.resourceId, l);
    }
    assert live == {} <==> forall l :: !LiveRecord(t, s.input.adapterId, s.input.resourceId, l);
    gone := if Licensed(t, s, verdict)
            then Retract(SortedIds(live), s.fold, highWater, s.meta, s.input, s.crawl, s.observed, s.exempt) else [];
  }

  /** A sweep retracts exactly the missing records, and only when licensed. */
  lemma {:induction false} RetractsExactlyMissing(t: Tables, s: Sweep, verdict: Option<string>, l: Id)
    requires s.fold == Replay(t.rows, s.input.adapterId)
    ensures Names(Concluded(t, s, verdict), l) <==> Licensed(t, s, verdict) && Missing(t, s, l)
  {
    var gone := ConcludeAppends(t, s, verdict);
    assert Concluded(t, s, verdict) == gone;
    var highWater := HighWater(t.retractions, s.input.adapterId);
    LiveSetIsLive(s.fold, highWater, s.input.adapterId, s.input.resourceId, l);
    if Licensed(t, s, verdict) {
      var ids := SortedIds(LiveSet(s.fold, highWater, s.input.adapterId, s.input.resourceId));
      RetractRows(ids, s.fold, highWater, s.meta, s.input, s.crawl, s.observed, s.exempt, gone);
    }
  }

  /** Each row it writes names its own adapter and the chain's highest revision. */
  lemma {:induction false} ConcludedRow(t: Tables, s: Sweep, verdict: Option<string>, r: Retraction)
    requires s.fold == Replay(t.rows, s.input.adapterId)
    requires r in Concluded(t, s, verdict)
    ensures Licensed(t, s, verdict)
    ensures (s.input.adapterId, r.localId) in s.fold.chains
    ensures s.fold.HighestRevision((s.input.adapterId, r.localId)).Some?
    ensures r == RetractionOf(s.fold, s.meta, s.input, s.crawl, r.localId)
  {
    var gone := ConcludeAppends(t, s, verdict);
    assert Concluded(t, s, verdict) == gone;
    var highWater := HighWater(t.retractions, s.input.adapterId);
    var ids := SortedIds(LiveSet(s.fold, highWater, s.input.adapterId, s.input.resourceId));
    RetractRows(ids, s.fold, highWater, s.meta, s.input, s.crawl, s.observed, s.exempt, gone);
    assert Retractable(s.fold, highWater, s.input, s.observed, s.exempt, r.localId);
  }

  lemma {:induction false} RetractedAtAppend(rs: seq<Retraction>, gone: seq<Retraction>, a: Id, l: Id, revision: nat)
    ensures RetractedAt(rs + gone, a, l, revision) <==>
            || RetractedAt(rs, a, l, revision)
            || exists r :: r in gone && r.adapterId == a && r.localId == l && r.revision >= revision
  {
    var all := rs + gone;
    if RetractedAt(rs, a, l, revision) {
      var i :| 0 <= i < |rs| && rs[i].adapterId == a && rs[i].localId == l && rs[i].revision >= revision;
      assert all[i] == rs[i];
    }
    if r :| r in gone && r.adapterId == a && r.localId == l && r.revision >= revision {
      var i :| 0 <= i < |gone| && gone[i] == r;
      assert all[|rs| + i] == r;
    }
    if RetractedAt(all, a, l, revision) {
      var i :| 0 <= i < |all| && all[i].adapterId == a && all[i].localId == l && all[i].revision >= revision;
      assert if i < |rs| then all[i] == rs[i] else all[i] == gone[i - |rs|];
    }
  }

  /** Afterwards no retracted record is live anywhere, and no other record's liveness has moved: not
      in another resource, not under another adapter. */
  lemma {:induction false} RetractionBuriesOnlyMissing(t: Tables, s: Sweep, verdict: Option<string>, a: Id, r: Id,
                                                       l: Id)
    requires s.fold == Replay(t.rows, s.input.adapterId)
    ensures LiveRecord(Conclude(t, s, verdict), a, r, l) <==>
            LiveRecord(t, a, r, l) && !(a == s.input.adapterId && Names(Concluded(t, s, verdict), l))
  {
    var gone := ConcludeAppends(t, s, verdict);
    assert Concluded(t, s, verdict) == gone;
    var f := Replay(t.rows, a);
    var h := f.HighestRevision((a, l));
    if h.Some? {
      HighWaterBuries(t.retractions, a, l, h.value);
      HighWaterBuries(t.retractions + gone, a, l, h.value);
      RetractedAtAppend(t.retractions, gone, a, l, h.value);
      forall x | x in gone && x.adapterId == a && x.localId == l
        ensures a == s.input.adapterId && Names(gone, l)
      {
        ConcludedRow(t, s, verdict, x);
        var i :| 0 <= i < |gone| && gone[i] == x;
      }
      if a == s.input.adapterId && Names(gone, l) {
        var i :| 0 <= i < |gone| && gone[i].localId == l;
        ConcludedRow(t, s, verdict, gone[i]);
        assert gone[i] in gone && gone[i].revision >= h.value;
      }
    }
  }

  /** The reason is read off the stored head row: its rules, against this sweep's. */
  lemma {:induction false} ReasonIsHeadRows(t: Tables, s: Sweep, verdict: Option<string>, r: Retraction)
      returns (i: nat)
    requires SweepOk(t, s)
    requires r in Concluded(t, s, verdict)
    ensures i < |t.rows| && Of(t.rows[i], s.input.adapterId, r.localId)
    ensures s.fold.Head((s.input.adapterId, r.localId)).Some?
    ensures t.rows[i].revision == s.fold.Head((s.input.adapterId, r.localId)).value.revision
    ensures r.reason == if t.rows[i].meta.derivation != s.input.derivation then DerivationChanged
                        else if t.rows[i].meta.fingerprint != Some(s.input.fingerprint) then DefinitionChanged
                        else AbsentFromCompleteSweep
  {
    var a := s.input.adapterId;
    ConcludedRow(t, s, verdict, r);
    var k :| 0 <= k < |Concluded(t, s, verdict)| && Concluded(t, s, verdict)[k] == r;
    RetractsExactlyMissing(t, s, verdict, r.localId);
    assert MetaIsHead(t.rows, s.fold, s.meta, a, r.localId);
    i :| 0 <= i < |t.rows| && Of(t.rows[i], a, r.localId)
         && t.rows[i].revision == s.fold.Head((a, r.localId)).value.revision && t.rows[i].meta == s.meta[r.localId];
  }

  // ----- which commits retract, and which drain ------------------------------------------

  /** The page that would end the sweep. */
  ghost predicate IsFinal(s: Sweep, read: HistoryRead) {
    && s.pageNumber < MAX_PAGES
    && FindStatus(read.statuses, s.input.resourceId).Some?
    && Absorb(s, read, FindStatus(read.statuses, s.input.resourceId).value).page.None?
  }

  /** Tables and sweep as the final transaction's closing section sees them: the page is ingested. */
  ghost function AtCommit(t: Tables, s: Sweep, read: HistoryRead): (Tables, Sweep)
    requires IsFinal(s, read)
  {
    var st := FindStatus(read.statuses, s.input.resourceId).value;
    var w := IngestPage(WorkOf(t, s), s.input, s.crawl, s.buried, Admitted(read.observations, s.input));
    if w.None? then (t, s)
    else (t.(rows := w.value.rows), Absorb(s, read, st).(fold := w.value.fold, meta := w.value.meta))
  }

  lemma {:induction false} FinalPageConcludes(t: Tables, s: Sweep, read: HistoryRead, verdict: Option<string>)
    requires TablesOk(t) && SweepOk(t, s) && IsFinal(s, read)
    ensures var (t', s') := AtCommit(t, s, read);
            && SweepOk(t', s') && TablesOk(t')
            && OnPage(t, s, read, verdict) == Finished(Conclude(t', s', verdict))
  {
    var st := FindStatus(read.statuses, s.input.resourceId).value;
    IngestedKeeps(t, s, read, st);
    var w := IngestPage(WorkOf(t, s), s.input, s.crawl, s.buried, Admitted(read.observations, s.input)).value;
    var (t', s') := AtCommit(t, s, read);
    assert MetaOk(WorkOf(t', s'), s.input.adapterId, s'.observed) by {
      assert MetaOk(w, s.input.adapterId, s'.observed);
    }
  }

  /** No drained crawl appears and no retraction is added. */
  ghost predicate ConcludesNothing(t: Tables, t': Tables) {
    && t'.retractions == t.retractions
    && forall id :: 0 <= id < |t'.crawls| && t'.crawls[id].drained ==> id < |t.crawls| && t.crawls[id].drained
  }

  lemma {:induction false} OtherPagesConcludeNothing(t: Tables, s: Sweep, read: HistoryRead, verdict: Option<string>)
    requires TablesOk(t) && SweepOk(t, s) && !IsFinal(s, read)
    ensures ConcludesNothing(t, Settle(t, OnPage(t, s, read, verdict)).tables)
  {
    var st := FindStatus(read.statuses, s.input.resourceId);
    if s.pageNumber < MAX_PAGES && st.Some? {
      IngestedKeeps(t, s, read, st.value);
    }
  }

  lemma {:induction false} FinalPageConcludesItself(t: Tables, s: Sweep, read: HistoryRead, verdict: Option<string>)
    requires TablesOk(t) && SweepOk(t, s) && IsFinal(s, read)
    ensures var t' := Settle(t, OnPage(t, s, read, verdict)).tables;
            var (t1, s1) := AtCommit(t, s, read);
            && (t'.retractions != t.retractions ==> Licensed(t1, s1, verdict))
            && |t'.crawls| == |t.crawls|
            && (forall id :: 0 <= id < |t.crawls| && id != s.crawl ==> t'.crawls[id] == t.crawls[id])
  {
    FinalPageConcludes(t, s, read, verdict);
    var (t1, s1) := AtCommit(t, s, read);
    ConcludeTouches(t1, s1, verdict);
  }

  /** The closing section touches its own crawl row, and the retractions only under a license. */
  lemma {:induction false} ConcludeTouches(t: Tables, s: Sweep, verdict: Option<string>)
    requires s.fold == Replay(t.rows, s.input.adapterId) && s.crawl < |t.crawls|
    ensures var t' := Conclude(t, s, verdict);
            && (t'.retractions != t.retractions ==> Licensed(t, s, verdict))
            && |t'.crawls| == |t.crawls|
            && (forall id :: 0 <= id < |t.crawls| && id != s.crawl ==> t'.crawls[id] == t.crawls[id])
  {
    var gone := ConcludeAppends(t, s, verdict);
    assert !Licensed(t, s, verdict) ==> t.retractions + gone == t.retractions;
  }

  /** Over every run: a commit that adds a retraction, or marks a crawl drained, is the final page's
      one transaction, under a license, and the crawl is that sweep's own. */
  lemma {:induction false} OnlyFinalCommitConcludes(events: seq<Event>, e: Event)
    ensures var s, s' := Run(events), Apply(Run(events), e);
            || ConcludesNothing(s.tables, s'.tables)
            || (&& e.Page? && s.sweep.Some? && IsFinal(s.sweep.value, e.read)
                && (s'.tables.retractions != s.tables.retractions ==>
                      Licensed(AtCommit(s.tables, s.sweep.value, e.read).0, AtCommit(s.tables, s.sweep.value, e.read).1,
                               e.verdict))
                && |s'.tables.crawls| == |s.tables.crawls|
                && (forall id :: 0 <= id < |s.tables.crawls| && id != s.sweep.value.crawl ==>
                      s'.tables.crawls[id] == s.tables.crawls[id]))
  {
    var s := Run(events);
    RunKeeps(events);
    if e.Page? && s.sweep.Some? {
      if IsFinal(s.sweep.value, e.read) {
        FinalPageConcludesItself(s.tables, s.sweep.value, e.read, e.verdict);
      } else {
        OtherPagesConcludeNothing(s.tables, s.sweep.value, e.read, e.verdict);
      }
    }
  }

  // ----- revival -------------------------------------------------------------------------

  /** An appended row's revision exceeds every retraction of its key. */
  lemma {:induction false} AppendOutranks(t: Tables, w: Work, input: Input, crawl: nat, buried: map<Id, nat>,
                                          o: Observation, observed: set<Id>)
    requires WorkOk(w, input.adapterId, observed) && o.localId in observed && o.adapterId == input.adapterId
    requires RetractionsOk(t.(rows := w.rows)) && buried == HighWater(t.retractions, input.adapterId)
    requires !Deduplicates(w.fold, buried, (input.adapterId, o.localId), o)
    ensures IngestOne(w, input, crawl, buried, o).Some?
    ensures var w' := IngestOne(w, input, crawl, buried, o).value;
            var h := w'.fold.HighestRevision((input.adapterId, o.localId));
            && w'.fold == w.fold.Ingest(o)
            && |w'.rows| == |w.rows| + 1
            && h == Some(Count(w.rows, input.adapterId, o.localId) + 1)
            && !RetractedAt(t.retractions, input.adapterId, o.localId, h.value)
            && !CurrentlyRetracted(w'.fold, buried, (input.adapterId, o.localId))
  {
    var a, l := input.adapterId, o.localId;
    AppendWork(w, input, crawl, o, observed);
    var w' := IngestOne(w, input, crawl, buried, o).value;
    assert w'.fold.Chain((a, l)) != [] by {
      ReplayReassigns(w.rows, a);
      IngestKeepsFold(w.fold, o);
    }
    HighestWithinCount(w'.rows, w'.fold, a, l);
    assert w'.rows[..|w'.rows| - 1] == w.rows;
    HighWaterBuries(t.retractions, a, l, Count(w.rows, a, l) + 1);
  }

  /** One more observation buries no key that was not buried, and unburies its own. */
  lemma {:induction false} OneUnburies(t: Tables, w: Work, input: Input, crawl: nat, buried: map<Id, nat>,
                                       o: Observation, observed: set<Id>, l: Id)
    requires WorkOk(w, input.adapterId, observed) && o.localId in observed && o.adapterId == input.adapterId
    requires RetractionsOk(t.(rows := w.rows)) && buried == HighWater(t.retractions, input.adapterId)
    requires l == o.localId || !CurrentlyRetracted(w.fold, buried, (input.adapterId, l))
    ensures IngestOne(w, input, crawl, buried, o).Some?
    ensures !CurrentlyRetracted(IngestOne(w, input, crawl, buried, o).value.fold, buried, (input.adapterId, l))
  {
    if !Deduplicates(w.fold, buried, (input.adapterId, o.localId), o) {
      AppendOutranks(t, w, input, crawl, buried, o, observed);
    }
  }

  ghost predicate OwnReports(os: seq<Observation>, a: Id, observed: set<Id>) {
    forall i :: 0 <= i < |os| ==> os[i].adapterId == a && os[i].localId in observed
  }

  /** Part way through a page the working state is still sound. */
  lemma {:induction false} PrefixIngested(t: Tables, w: Work, input: Input, crawl: nat, buried: map<Id, nat>,
                                          os: seq<Observation>, observed: set<Id>) returns (mid: Work)
    requires WorkOk(w, input.adapterId, observed) && OwnReports(os, input.adapterId, observed)
    requires RetractionsOk(t.(rows := w.rows))
    ensures IngestPage(w, input, crawl, buried, os) == Some(mid)
    ensures WorkOk(mid, input.adapterId, observed) && RetractionsOk(t.(rows := mid.rows))
  {
    IngestPageKeeps(w, input, crawl, buried, os, observed);
    mid := IngestPage(w, input, crawl, buried, os).value;
    RetractionsSurvive(t.(rows := w.rows), mid.rows);
  }

  /** Every key a page reports is unburied once the page is ingested, buried before or not. */
  lemma {:induction false} PageUnburies(t: Tables, w: Work, input: Input, crawl: nat, buried: map<Id, nat>,
                                        os: seq<Observation>, observed: set<Id>, i: nat, w': Work)
    requires WorkOk(w, input.adapterId, observed) && OwnReports(os, input.adapterId, observed) && i < |os|
    requires RetractionsOk(t.(rows := w.rows)) && buried == HighWater(t.retractions, input.adapterId)
    requires IngestPage(w, input, crawl, buried, os) == Some(w')
    ensures !CurrentlyRetracted(w'.fold, buried, (input.adapterId, os[i].localId))
  {
    var front, o := os[..|os| - 1], os[|os| - 1];
    assert OwnReports(front, input.adapterId, observed);
    var mid := PrefixIngested(t, w, input, crawl, buried, front, observed);
    LastIngested(w, input, crawl, buried, os, mid);
    if i < |front| {
      PageUnburies(t, w, input, crawl, buried, front, observed, i, mid);
      assert front[i] == os[i];
    }
    OneUnburies(t, mid, input, crawl, buried, o, observed, os[i].localId);
  }

  lemma {:induction false} LastIngested(w: Work, input: Input, crawl: nat, buried: map<Id, nat>, os: seq<Observation>,
                                        mid: Work)
    requires os != [] && IngestPage(w, input, crawl, buried, os[..|os| - 1]) == Some(mid)
    ensures IngestPage(w, input, crawl, buried, os) == IngestOne(mid, input, crawl, buried, os[|os| - 1])
  {
  }

  /** The same of a page of a sweep in progress, and of its own chain. */
  lemma {:induction false} SweepUnburies(t: Tables, s: Sweep, read: HistoryRead, st: Status, o: Observation)
    requires TablesOk(t) && SweepOk(t, s) && o in Admitted(read.observations, s.input)
    ensures var w := IngestPage(WorkOf(t, s), s.input, s.crawl, s.buried, Admitted(read.observations, s.input));
      && w.Some? && !CurrentlyRetracted(w.value.fold, s.buried, (s.input.adapterId, o.localId))
      && (s.input.adapterId, o.localId) in w.value.fold.chains
  {
    var os := Admitted(read.observations, s.input);
    var observed := Absorb(s, read, st).observed;
    var i :| 0 <= i < |os| && os[i] == o;
    AdmittedAreOwn(read.observations, s.input);
    assert OwnReports(os, s.input.adapterId, observed) by {
      forall k | 0 <= k < |os| ensures os[k].localId in observed { assert os[k].localId in LocalIds(os); }
    }
    assert WorkOk(WorkOf(t, s), s.input.adapterId, observed);
    var w := PrefixIngested(t, WorkOf(t, s), s.input, s.crawl, s.buried, os, observed);
    PageUnburies(t, WorkOf(t, s), s.input, s.crawl, s.buried, os, observed, i, w);
    ReportedHasChain(WorkOf(t, s), s.input, s.crawl, s.buried, os, i);
  }

  lemma {:induction false} ReportedHasChain(w: Work, input: Input, crawl: nat, buried: map<Id, nat>,
                                            os: seq<Observation>,
                                            i: nat)
    requires i < |os| && IngestPage(w, input, crawl, buried, os).Some?
    requires forall k :: 0 <= k < |os| ==> os[k].adapterId == input.adapterId
    ensures (input.adapterId, os[i].localId) in IngestPage(w, input, crawl, buried, os).value.fold.chains
  {
    if i < |os| - 1 { ReportedHasChain(w, input, crawl, buried, os[..|os| - 1], i); }
  }

  /** Its rows and retractions leave the key live-eligible: a chain, and no retraction at or above it. */
  ghost predicate Unburied(t: Tables, a: Id, l: Id) {
    var h := Replay(t.rows, a).HighestRevision((a, l));
    h.Some? && !RetractedAt(t.retractions, a, l, h.value)
  }

  lemma {:induction false} UnburiedIs(t: Tables, f: FoldState, a: Id, l: Id)
    requires RowsOk(t.rows) && f == Replay(t.rows, a) && (a, l) in f.chains
    requires !CurrentlyRetracted(f, HighWater(t.retractions, a), (a, l))
    ensures Unburied(t, a, l)
  {
    HighestWithinCount(t.rows, f, a, l);
    HighWaterBuries(t.retractions, a, l, f.HighestRevision((a, l)).value);
  }

  /** What the sweep reported, its own conclusions leave unburied. */
  lemma {:induction false} ConcludeLeavesUnburied(t: Tables, s: Sweep, verdict: Option<string>, l: Id)
    requires s.fold == Replay(t.rows, s.input.adapterId) && l in s.observed && Unburied(t, s.input.adapterId, l)
    ensures Unburied(Conclude(t, s, verdict), s.input.adapterId, l)
  {
    var a := s.input.adapterId;
    var gone := ConcludeAppends(t, s, verdict);
    assert Concluded(t, s, verdict) == gone;
    RetractsExactlyMissing(t, s, verdict, l);
    var h := Replay(t.rows, a).HighestRevision((a, l)).value;
    RetractedAtAppend(t.retractions, gone, a, l, h);
    forall r | r in gone ensures r.localId != l {
      var i :| 0 <= i < |gone| && gone[i] == r;
    }
  }

  /** Over every run: any observation on a page that commits, of a complete sweep or a partial one, buried
      before or not and whatever its receipt time, leaves its chain's highest revision above every
      retraction of its key. */
  lemma {:induction false} RevivalOutranks(events: seq<Event>, read: HistoryRead, verdict: Option<string>,
                                           o: Observation)
    requires Run(events).sweep.Some?
    requires var s := Run(events).sweep.value;
             && s.pageNumber < MAX_PAGES && FindStatus(read.statuses, s.input.resourceId).Some?
             && o in Admitted(read.observations, s.input)
    ensures Unburied(Apply(Run(events), Page(read, verdict)).tables, Run(events).sweep.value.input.adapterId, o.localId)
  {
    RunKeeps(events);
    PageRevives(Run(events).tables, Run(events).sweep.value, read, verdict, o);
  }

  lemma {:induction false} PageRevives(t: Tables, s: Sweep, read: HistoryRead, verdict: Option<string>, o: Observation)
    requires TablesOk(t) && SweepOk(t, s) && o in Admitted(read.observations, s.input)
    requires s.pageNumber < MAX_PAGES && FindStatus(read.statuses, s.input.resourceId).Some?
    ensures Unburied(Settle(t, OnPage(t, s, read, verdict)).tables, s.input.adapterId, o.localId)
  {
    if IsFinal(s, read) {
      FinalPageConcludes(t, s, read, verdict);
      var (t1, s1) := AtCommit(t, s, read);
      CommitRevives(t, s, read, o);
      ConcludeLeavesUnburied(t1, s1, verdict, o.localId);
    } else {
      OtherPageRevives(t, s, read, verdict, o);
    }
  }

  lemma {:induction false} IngestRevives(t: Tables, s: Sweep, read: HistoryRead, st: Status, o: Observation, w: Work)
    requires TablesOk(t) && SweepOk(t, s) && o in Admitted(read.observations, s.input)
    requires IngestPage(WorkOf(t, s), s.input, s.crawl, s.buried, Admitted(read.observations, s.input)) == Some(w)
    ensures Unburied(t.(rows := w.rows), s.input.adapterId, o.localId)
  {
    IngestedKeeps(t, s, read, st);
    SweepUnburies(t, s, read, st, o);
    UnburiedIs(t.(rows := w.rows), w.fold, s.input.adapterId, o.localId);
  }

  lemma {:induction false} OtherPageRevives(t: Tables, s: Sweep, read: HistoryRead, verdict: Option<string>,
                                            o: Observation)
    requires TablesOk(t) && SweepOk(t, s) && o in Admitted(read.observations, s.input) && !IsFinal(s, read)
    requires s.pageNumber < MAX_PAGES && FindStatus(read.statuses, s.input.resourceId).Some?
    ensures Unburied(Settle(t, OnPage(t, s, read, verdict)).tables, s.input.adapterId, o.localId)
  {
    var st := FindStatus(read.statuses, s.input.resourceId).value;
    IngestedKeeps(t, s, read, st);
    var w := IngestPage(WorkOf(t, s), s.input, s.crawl, s.buried, Admitted(read.observations, s.input)).value;
    IngestRevives(t, s, read, st, o, w);
  }

  lemma {:induction false} CommitRevives(t: Tables, s: Sweep, read: HistoryRead, o: Observation)
    requires TablesOk(t) && SweepOk(t, s) && o in Admitted(read.observations, s.input) && IsFinal(s, read)
    ensures var (t1, s1) := AtCommit(t, s, read);
            Unburied(t1, s.input.adapterId, o.localId) && o.localId in s1.observed && s1.input == s.input
  {
    var st, os := FindStatus(read.statuses, s.input.resourceId).value, Admitted(read.observations, s.input);
    IngestedKeeps(t, s, read, st);
    IngestRevives(t, s, read, st, o, IngestPage(WorkOf(t, s), s.input, s.crawl, s.buried, os).value);
    var i :| 0 <= i < |os| && os[i] == o;
    assert os[i].localId in LocalIds(os);
  }

  /** The key's head says `c` and no retraction buries it: an equal observation adds nothing. */
  predicate SettledAt(f: FoldState, buried: map<Id, nat>, a: Id, l: Id, c: Content) {
    && f.Head((a, l)).Some? && ContentOf(f.Head((a, l)).value.obs) == c
    && !CurrentlyRetracted(f, buried, (a, l))
  }

  /** After an ingest the head is the old head or the new observation. */
  lemma {:induction false} NewHead(f: FoldState, o: Observation)
    requires FoldOk(f)
    ensures f.Ingest(o).Head(KeyOf(o)).Some?
    ensures || f.Ingest(o).Head(KeyOf(o)).value.obs == o
            || f.Ingest(o).Head(KeyOf(o)) == f.Head(KeyOf(o))
  {
    var c := f.Chain(KeyOf(o));
    var e := Entry(f.counter, f.NextRevision(o), o);
    IngestInserts(f, o);
    InsertElements(c, e);
    if c != [] {
      InsertHead(c, e);
    } else {
      assert Insert(c, e) == [e];
    }
  }

  /** Re-emitting a buried record byte for byte settles it with that one row ... */
  lemma {:induction false} RevivalSettles(t: Tables, w: Work, input: Input, crawl: nat, buried: map<Id, nat>,
                                          o: Observation, observed: set<Id>)
    requires WorkOk(w, input.adapterId, observed) && o.localId in observed && o.adapterId == input.adapterId
    requires RetractionsOk(t.(rows := w.rows)) && buried == HighWater(t.retractions, input.adapterId)
    requires CurrentlyRetracted(w.fold, buried, (input.adapterId, o.localId))
    requires w.fold.Head((input.adapterId, o.localId)).Some?
    requires ContentOf(w.fold.Head((input.adapterId, o.localId)).value.obs) == ContentOf(o)
    ensures IngestOne(w, input, crawl, buried, o).Some?
    ensures var w' := IngestOne(w, input, crawl, buried, o).value;
            |w'.rows| == |w.rows| + 1
            && SettledAt(w'.fold, buried, input.adapterId, o.localId, ContentOf(o))
  {
    AppendOutranks(t, w, input, crawl, buried, o, observed);
    ReplayReassigns(w.rows, input.adapterId);
    NewHead(w.fold, o);
  }

  /** ... and later identical ingests, any number of them, at any time, append none. */
  lemma {:induction false} SettledAppendsNothing(w: Work, input: Input, crawl: nat, buried: map<Id, nat>,
                                                 os: seq<Observation>)
    requires forall i :: 0 <= i < |os| ==>
               SettledAt(w.fold, buried, input.adapterId, os[i].localId, ContentOf(os[i]))
    ensures IngestPage(w, input, crawl, buried, os).Some?
    ensures var w' := IngestPage(w, input, crawl, buried, os).value;
            SameFacts(w.rows, w'.rows) && w'.fold == w.fold && w'.same == w.same + |os|
  {
    if os != [] {
      var front := os[..|os| - 1];
      SettledAppendsNothing(w, input, crawl, buried, front);
      var mid := IngestPage(w, input, crawl, buried, front).value;
      assert SettledAt(w.fold, buried, input.adapterId, os[|os| - 1].localId, ContentOf(os[|os| - 1]));
    }
  }

  // ----- the history's start -------------------------------------------------------------

  /** The time a record is placed at: when it took effect, or else when it was observed. */
  function PlacedAt(head: Observation): string {
    if head.effectiveAt.Some? then head.effectiveAt.value else head.observedAt
  }

  /** Instants, never text. For all timestamps, whatever their fractions and offsets: a record is exempt
      for predating the history exactly when one of the two times has no instant, or the record's time is
      the earlier. */
  lemma {:induction false} PredatesIffEarlier(start: string, head: Observation)
    requires Instants.Validate(start) && Instants.Validate(PlacedAt(head))
    ensures PredatesHistory(Some(start), head) <==>
            || !Instants.Orderable(start)
            || !Instants.Orderable(PlacedAt(head))
            || Instants.Time(PlacedAt(head)) < Instants.Time(start)
  {
    var at, from := Instants.Instant(PlacedAt(head)), Instants.Instant(start);
    DefinedIff(start);
    DefinedIff(PlacedAt(head));
    if at.Some? && from.Some? {
      Instants.InstantIsTime(PlacedAt(head), at.value);
      Instants.InstantIsTime(start, from.value);
      Instants.MomentsInOrder(at.value, from.value);
    }
  }

  lemma {:induction false} DefinedIff(b: string)
    requires Instants.Validate(b)
    ensures Instants.Instant(b).Some? <==> Instants.Orderable(b)
  {
    Instants.InstantDefinedIff(b);
  }

  /** A leap second, a day its month does not have, or a fraction finer than a nanosecond. */
  predicate Unorderable(b: string)
    requires Instants.Validate(b)
  {
    || Instants.TwoDigits(b, 17).value == 60
    || !Calendar.Real(Instants.SpelledDate(b))
    || (|Instants.FractionText(b)| > 9 && !Instants.AllZero(Instants.FractionText(b)[9..]))
  }

  /** Any of the three, on either side, exempts the record; without a reported start nothing is exempt. */
  lemma {:induction false} UnorderableIsExempt(start: string, head: Observation)
    requires Instants.Validate(start) && Instants.Validate(PlacedAt(head))
    ensures Unorderable(start) || Unorderable(PlacedAt(head)) ==> PredatesHistory(Some(start), head)
    ensures !PredatesHistory(None, head)
  {
    PredatesIffEarlier(start, head);
  }
}
