/** What a sweep concludes, in terms of stored rows, pages read and crawls recorded. */
module SweepVerdicts {
  import opened Base
  import opened Folding
  import opened Tables
  import opened Sweeping
  import opened SweepRuns
  import opened SweepTheorems
  import opened SweepGate
  import opened SweepOversize
  import opened SweepVantage

  // ----- live, by the rows ---------------------------------------------------------------

  /** Two rows of one key: received earlier, or at the same time on an earlier surface, or stored earlier. */
  predicate RowBefore(x: Row, y: Row) {
    || LexLt(x.obs.receivedAt, y.obs.receivedAt)
    || (x.obs.receivedAt == y.obs.receivedAt
        && (LexLt(x.obs.surface, y.obs.surface)
            || (x.obs.surface == y.obs.surface && x.revision < y.revision)))
  }

  /** The key's last row in that order. */
  ghost predicate IsHeadRow(rows: seq<Row>, a: Id, l: Id, i: nat) {
    && i < |rows| && Of(rows[i], a, l)
    && forall j :: 0 <= j < |rows| && j != i && Of(rows[j], a, l) ==> RowBefore(rows[j], rows[i])
  }

  lemma {:induction false} RowHasEntry(rows: seq<Row>, a: Id, l: Id, j: nat) returns (e: Entry)
    requires RowsOk(rows) && j < |rows| && Of(rows[j], a, l)
    ensures (a, l) in Replay(rows, a).chains && e in Replay(rows, a).chains[(a, l)]
    ensures e.revision == rows[j].revision && e.obs == rows[j].obs
  {
    var f := Replay(rows, a);
    ReplayReassigns(rows, a);
    RevisionWithinCount(rows, j);
    assert |f.Chain((a, l))| == Count(rows, a, l);
    RowIsNext(rows, j);
    assert ChainOk(f.chains[(a, l)], (a, l), f.counter);
    assert HasRevision(f.chains[(a, l)], rows[j].revision);
    e :| e in f.chains[(a, l)] && e.revision == rows[j].revision;
    assert EntryIsRow(rows, a, e);
    var i :| 0 <= i < |rows| && rows[i].adapterId == a && rows[i].revision == e.revision && rows[i].obs == e.obs;
    if i < j { RevisionNamesRow(rows, i, j); } else if j < i { RevisionNamesRow(rows, j, i); }
  }

  lemma {:induction false} EntriesOrdered(f: FoldState, key: ChainKey, e: Entry)
    requires FoldOk(f) && key in f.chains && e in f.chains[key]
    ensures f.Head(key).Some?
    ensures var head := f.Head(key).value;
      || e == head
      || LexLt(e.obs.receivedAt, head.obs.receivedAt)
      || (e.obs.receivedAt == head.obs.receivedAt
          && (LexLt(e.obs.surface, head.obs.surface)
              || (e.obs.surface == head.obs.surface && e.revision < head.revision)))
  {
    var c := f.chains[key];
    assert ChainOk(c, key, f.counter);
    var i :| 0 <= i < |c| && c[i] == e;
    assert i < |c| - 1 ==> Before(c[i], c[|c| - 1]);
  }

  /** The chain's head is the key's last row. */
  lemma {:induction false} HeadIsHeadRow(rows: seq<Row>, a: Id, l: Id) returns (i: nat)
    requires RowsOk(rows) && (a, l) in Replay(rows, a).chains
    ensures IsHeadRow(rows, a, l, i)
    ensures Replay(rows, a).Head((a, l)).Some? && Replay(rows, a).Head((a, l)).value.obs == rows[i].obs
    ensures Replay(rows, a).Head((a, l)).value.revision == rows[i].revision
  {
    var f := Replay(rows, a);
    i := HeadIsRow(rows, f, a, l);
    forall j | 0 <= j < |rows| && j != i && Of(rows[j], a, l) ensures RowBefore(rows[j], rows[i]) {
      var e := RowHasEntry(rows, a, l, j);
      ReplayReassigns(rows, a);
      EntriesOrdered(f, (a, l), e);
      if i < j { RevisionNamesRow(rows, i, j); } else { RevisionNamesRow(rows, j, i); }
    }
  }

  lemma {:induction false} OneHeadRow(rows: seq<Row>, a: Id, l: Id, i: nat, j: nat)
    requires IsHeadRow(rows, a, l, i) && IsHeadRow(rows, a, l, j)
    ensures i == j
  {
    if i != j {
      assert RowBefore(rows[i], rows[j]) && RowBefore(rows[j], rows[i]);
      var x, y := rows[i].obs, rows[j].obs;
      LexIrreflexive(x.receivedAt);
      LexIrreflexive(x.surface);
      if LexLt(x.receivedAt, y.receivedAt) { LexAsymmetric(x.receivedAt, y.receivedAt); }
      if LexLt(x.surface, y.surface) { LexAsymmetric(x.surface, y.surface); }
    }
  }

  /** Row `i` is the record's head, active and of this resource, and no retraction is at or above the number
      of rows the record has. */
  ghost predicate LiveRow(rows: seq<Row>, rs: seq<Retraction>, a: Id, r: Id, l: Id, i: nat) {
    && IsHeadRow(rows, a, l, i) && rows[i].obs.state == Active && rows[i].obs.resourceId == r
    && !RetractedAt(rs, a, l, Count(rows, a, l))
  }

  /** A record is live exactly when its head row says so and no retraction outranks its rows. */
  lemma {:induction false} LiveIffHeadRow(t: Tables, a: Id, r: Id, l: Id)
    requires RowsOk(t.rows)
    ensures LiveRecord(t, a, r, l) <==> exists i :: LiveRow(t.rows, t.retractions, a, r, l, i)
  {
    var f := Replay(t.rows, a);
    if (a, l) in f.chains {
      var i := HeadIsHeadRow(t.rows, a, l);
      HighestWithinCount(t.rows, f, a, l);
      HighWaterBuries(t.retractions, a, l, Count(t.rows, a, l));
      if k :| LiveRow(t.rows, t.retractions, a, r, l, k) { OneHeadRow(t.rows, a, l, i, k); }
      if LiveRecord(t, a, r, l) { assert LiveRow(t.rows, t.retractions, a, r, l, i); }
    } else {
      forall i ensures !LiveRow(t.rows, t.retractions, a, r, l, i) {
        if LiveRow(t.rows, t.retractions, a, r, l, i) { var e := RowHasEntry(t.rows, a, l, i); }
      }
    }
  }

  // ----- what the pages said -------------------------------------------------------------

  ghost predicate SaidOf(o: Observation, input: Input, l: Id) {
    o.adapterId == input.adapterId && o.resourceId == input.resourceId && o.localId == l
  }

  ghost predicate ReportedBy(read: HistoryRead, input: Input, l: Id) {
    exists o :: o in read.observations && SaidOf(o, input, l)
  }

  /** Some page reports the record. */
  ghost predicate Reported(pages: seq<HistoryRead>, input: Input, l: Id) {
    exists p :: 0 <= p < |pages| && ReportedBy(pages[p], input, l)
  }

  ghost predicate NamedBy(read: HistoryRead, r: Id, l: Id) {
    exists k :: 0 <= k < |DegradesOf(read, r)| && DegradesOf(read, r)[k].localId == Some(l)
  }

  /** Some page names the record as dropped. */
  ghost predicate Named(pages: seq<HistoryRead>, r: Id, l: Id) {
    exists p :: 0 <= p < |pages| && NamedBy(pages[p], r, l)
  }

  lemma {:induction false} AdmittedSays(read: HistoryRead, input: Input, l: Id)
    ensures l in LocalIds(Admitted(read.observations, input)) <==> ReportedBy(read, input, l)
  {
    var os := Admitted(read.observations, input);
    if l in LocalIds(os) {
      var i :| 0 <= i < |os| && os[i].localId == l;
      AdmittedHolds(read.observations, input, os[i]);
      assert SaidOf(os[i], input, l);
    }
    if o :| o in read.observations && SaidOf(o, input, l) {
      AdmittedHolds(read.observations, input, o);
      var i :| 0 <= i < |os| && os[i] == o;
      assert os[i].localId in LocalIds(os);
    }
  }

  lemma {:induction false} OneMoreSaid(pages: seq<HistoryRead>, read: HistoryRead, input: Input, l: Id)
    ensures Reported(pages + [read], input, l) <==> Reported(pages, input, l) || ReportedBy(read, input, l)
    ensures Named(pages + [read], input.resourceId, l) <==>
            Named(pages, input.resourceId, l) || NamedBy(read, input.resourceId, l)
  {
    var all := pages + [read];
    assert all[|pages|] == read;
    assert forall p :: 0 <= p < |pages| ==> all[p] == pages[p];
  }

  lemma {:induction false} NamedIdsHold(degraded: seq<Degraded>, l: Id)
    ensures l in NamedIds(degraded) <==> exists k :: 0 <= k < |degraded| && degraded[k].localId == Some(l)
  {
    if l in NamedIds(degraded) {
      var k :| 0 <= k < |degraded| && degraded[k].localId.Some? && degraded[k].localId.value == l;
      assert degraded[k].localId == Some(l);
    }
  }

  lemma {:induction false} NamedSays(read: HistoryRead, r: Id, l: Id)
    ensures l in NamedIds(DegradesOf(read, r)) <==> NamedBy(read, r, l)
  {
    NamedIdsHold(DegradesOf(read, r), l);
  }

  /** The sweep's memory is what its pages said. */
  ghost predicate MemoryTells(s: Sweep, pages: seq<HistoryRead>) {
    && (forall l :: l in s.observed <==> Reported(pages, s.input, l))
    && (forall l :: l in s.exempt <==> Named(pages, s.input.resourceId, l))
  }

  lemma {:induction false} AbsorbRemembers(s: Sweep, read: HistoryRead, st: Status, pages: seq<HistoryRead>)
    requires MemoryTells(s, pages) && FindStatus(read.statuses, s.input.resourceId) == Some(st)
    ensures MemoryTells(Absorb(s, read, st), pages + [read])
  {
    var s' := Absorb(s, read, st);
    forall l
      ensures l in s'.observed <==> Reported(pages + [read], s.input, l)
      ensures l in s'.exempt <==> Named(pages + [read], s.input.resourceId, l)
    {
      AdmittedSays(read, s.input, l);
      OneMoreSaid(pages, read, s.input, l);
      NamedSays(read, s.input.resourceId, l);
    }
  }

  lemma {:induction false} PageRemembered(t: Tables, s: Sweep, read: HistoryRead, verdict: Option<string>,
                                          pages: seq<HistoryRead>)
    requires MemoryTells(s, pages) && OnPage(t, s, read, verdict).Continue?
    ensures MemoryTells(OnPage(t, s, read, verdict).sweep, pages + [read])
  {
    var s' := Absorb(s, read, FindStatus(read.statuses, s.input.resourceId).value);
    AbsorbRemembers(s, read, FindStatus(read.statuses, s.input.resourceId).value, pages);
    var s'' := OnPage(t, s, read, verdict).sweep;
    assert s''.observed == s'.observed && s''.exempt == s'.exempt && s''.input == s.input;
  }

  lemma {:induction false} RunMemory(events: seq<Event>)
    requires Run(events).sweep.Some?
    ensures MemoryTells(Run(events).sweep.value, PagesSoFar(events))
  {
    if events != [] {
      var front, e := events[..|events| - 1], events[|events| - 1];
      if Run(front).sweep.Some? {
        RunMemory(front);
        if e.Page? { PageRemembered(Run(front).tables, Run(front).sweep.value, e.read, e.verdict, PagesSoFar(front)); }
      }
    }
  }

  // ----- what is retracted ---------------------------------------------------------------

  /** Everything the final transaction decides from, with the last page's rows in. */
  lemma {:induction false} Decides(events: seq<Event>, read: HistoryRead, verdict: Option<string>,
                                   pages: seq<HistoryRead>) returns (t: Tables, s: Sweep)
    requires Run(events).sweep.Some? && IsFinal(Run(events).sweep.value, read) && pages == PagesSoFar(events) + [read]
    ensures (t, s) == AtCommit(Run(events).tables, Run(events).sweep.value, read)
    ensures SweepOk(t, s) && TablesOk(t) && MemoryTells(s, pages)
    ensures s.input == Run(events).sweep.value.input && s.crawl == Run(events).sweep.value.crawl < |t.crawls|
    ensures t.retractions == Run(events).tables.retractions && t.resources == Run(events).tables.resources
    ensures t.discrepancies == Run(events).tables.discrepancies
    ensures Apply(Run(events), Page(read, verdict)) == System(Conclude(t, s, verdict), None)
  {
    var t0, s0 := Run(events).tables, Run(events).sweep.value;
    RunKeeps(events);
    RunMemory(events);
    FinalPageConcludes(t0, s0, read, verdict);
    AbsorbRemembers(s0, read, FindStatus(read.statuses, s0.input.resourceId).value, PagesSoFar(events));
    t, s := AtCommit(t0, s0, read).0, AtCommit(t0, s0, read).1;
    IngestedKeeps(t0, s0, read, FindStatus(read.statuses, s0.input.resourceId).value);
  }

  /** The resource was last read completely from somewhere else. */
  ghost predicate Moved(events: seq<Event>, input: Input) {
    var vantage := LastVantage(events, input.adapterId, input.resourceId);
    vantage.Some? && vantage.value != input.providerId
  }

  lemma {:induction false} MovedIs(events: seq<Event>, t: Tables, input: Input)
    requires t.resources == Run(events).tables.resources
    ensures VantageMoved(t, input) <==> Moved(events, input)
  {
    VantageIsLastComplete(events, input.adapterId, input.resourceId);
  }

  /** The record's head row, live before this sweep's conclusions, and not before the history's start. */
  ghost predicate Concludable(rows: seq<Row>, rs: seq<Retraction>, input: Input, l: Id, i: nat) {
    && LiveRow(rows, rs, input.adapterId, input.resourceId, l, i)
    && !PredatesHistory(input.historyStart, rows[i].obs)
  }

  lemma {:induction false} LiveHeadOf(t: Tables, a: Id, r: Id, l: Id) returns (i: nat)
    requires RowsOk(t.rows) && LiveRecord(t, a, r, l)
    ensures LiveRow(t.rows, t.retractions, a, r, l, i)
    ensures Replay(t.rows, a).Head((a, l)).value.obs == t.rows[i].obs
  {
    LiveIffHeadRow(t, a, r, l);
    i := HeadIsHeadRow(t.rows, a, l);
    var k :| LiveRow(t.rows, t.retractions, a, r, l, k);
    OneHeadRow(t.rows, a, l, i, k);
  }

  lemma {:induction false} MissingIff(t: Tables, s: Sweep, l: Id)
    requires RowsOk(t.rows)
    ensures Missing(t, s, l) <==>
            l !in s.observed && l !in s.exempt && exists i :: Concludable(t.rows, t.retractions, s.input, l, i)
  {
    var a, r := s.input.adapterId, s.input.resourceId;
    LiveIffHeadRow(t, a, r, l);
    if LiveRecord(t, a, r, l) {
      var i := LiveHeadOf(t, a, r, l);
      if k :| Concludable(t.rows, t.retractions, s.input, l, k) { OneHeadRow(t.rows, a, l, i, k); }
      if Missing(t, s, l) { assert Concludable(t.rows, t.retractions, s.input, l, i); }
    }
  }

  lemma {:induction false} FinalOutcome(t: Tables, s: Sweep, verdict: Option<string>)
    requires s.fold == Replay(t.rows, s.input.adapterId) && s.crawl < |t.crawls|
    ensures var t' := Conclude(t, s, verdict);
      && t'.rows == t.rows && s.crawl < |t'.crawls|
      && (t'.crawls[s.crawl].complete <==> HoldVerdict(s.gate, verdict).Disqualifier().None?)
  {
    var gone := ConcludeAppends(t, s, verdict);
    ConcludeRecords(t, s, verdict);
  }

  lemma {:induction false} AddedIs(events: seq<Event>, read: HistoryRead, verdict: Option<string>, t: Tables, s: Sweep)
    requires Run(events).sweep.Some? && IsFinal(Run(events).sweep.value, read)
    requires (t, s) == AtCommit(Run(events).tables, Run(events).sweep.value, read)
    ensures Added(Run(events), Page(read, verdict)) == Concluded(t, s, verdict)
  {
    RunKeeps(events);
    FinalAdds(Run(events).tables, Run(events).sweep.value, read, verdict);
  }

  /** Over every run: the sweep retracts a record exactly when it is recorded complete, the resource was not
      last read completely from another provider, some page reports something or the empty sweep was
      confirmed, no page reports the record or names it as dropped, and the record's head row is live and
      not before the history's start. */
  lemma {:induction false} RetractsIff(events: seq<Event>, read: HistoryRead, verdict: Option<string>,
                                       pages: seq<HistoryRead>, l: Id)
    requires Run(events).sweep.Some? && IsFinal(Run(events).sweep.value, read) && pages == PagesSoFar(events) + [read]
    ensures var t, s := Run(events).tables, Run(events).sweep.value;
            var t' := Apply(Run(events), Page(read, verdict)).tables;
      && s.crawl < |t'.crawls|
      && (Names(Added(Run(events), Page(read, verdict)), l) <==>
           && t'.crawls[s.crawl].complete && !Moved(events, s.input)
           && (s.input.options.confirmEmpty || exists k :: Reported(pages, s.input, k))
           && !Reported(pages, s.input, l) && !Named(pages, s.input.resourceId, l)
           && exists i :: Concludable(t'.rows, t.retractions, s.input, l, i))
  {
    var t, s := Decides(events, read, verdict, pages);
    AddedIs(events, read, verdict, t, s);
    RetractsExactlyMissing(t, s, verdict, l);
    MissingIff(t, s, l);
    MovedIs(events, t, s.input);
    FinalOutcome(t, s, verdict);
    SomethingReported(s, pages);
  }

  lemma {:induction false} SomethingReported(s: Sweep, pages: seq<HistoryRead>)
    requires MemoryTells(s, pages)
    ensures s.observed != {} <==> exists k :: Reported(pages, s.input, k)
  {
    if s.observed != {} {
      var k :| k in s.observed;
      assert Reported(pages, s.input, k);
    }
  }

  /** The first sweep from another provider retracts nothing, complete or not; if it is complete, it moves
      the vantage to its own. */
  lemma {:induction false} NewVantageRetractsNothing(events: seq<Event>, read: HistoryRead, verdict: Option<string>)
    requires Run(events).sweep.Some? && IsFinal(Run(events).sweep.value, read)
    requires Moved(events, Run(events).sweep.value.input)
    ensures var s, e := Run(events).sweep.value, Page(read, verdict);
            var t' := Apply(Run(events), e).tables;
      && Added(Run(events), e) == [] && s.crawl < |t'.crawls|
      && LastVantage(events + [e], s.input.adapterId, s.input.resourceId)
         == if t'.crawls[s.crawl].complete then Some(s.input.providerId)
            else LastVantage(events, s.input.adapterId, s.input.resourceId)
  {
    var e := Page(read, verdict);
    var s := Run(events).sweep.value;
    var gone := Added(Run(events), e);
    if gone != [] {
      assert Names(gone, gone[0].localId);
      RetractsIff(events, read, verdict, PagesSoFar(events) + [read], gone[0].localId);
      assert false;
    }
    var t1, s1 := Decides(events, read, verdict, PagesSoFar(events) + [read]);
    FinalOutcome(t1, s1, verdict);
    VantageIsLastComplete(events, s.input.adapterId, s.input.resourceId);
    assert (events + [e])[..|events|] == events;
  }

  // ----- the notes left beside them ------------------------------------------------------

  predicate HasNote(ds: seq<Discrepancy>, kind: Kind) { exists k :: 0 <= k < |ds| && ds[k].kind == kind }

  predicate ForReason(rs: seq<Retraction>, reason: Reason) { exists k :: 0 <= k < |rs| && rs[k].reason == reason }

  /** The sweep's own notes, one a kind. */
  predicate OwnNotes(ds: seq<Discrepancy>, input: Input, crawl: nat) {
    && (forall k :: 0 <= k < |ds| ==>
         ds[k].adapterId == input.adapterId && ds[k].resourceId == input.resourceId && ds[k].crawl == crawl)
    && (forall j, k :: 0 <= j < k < |ds| ==> ds[j].kind != ds[k].kind)
  }

  /** A live record, neither reported nor exempt, that the history's start spares. */
  ghost predicate SparedByStart(t: Tables, s: Sweep, l: Id) {
    && LiveRecord(t, s.input.adapterId, s.input.resourceId, l) && l !in s.observed && l !in s.exempt
    && PredatesHistory(s.input.historyStart, Replay(t.rows, s.input.adapterId).Head((s.input.adapterId, l)).value.obs)
  }

  lemma {:induction false} NoteAt(ds: seq<Discrepancy>, kind: Kind, k: nat)
    requires k < |ds| && ds[k].kind == kind
    ensures HasNote(ds, kind)
  {
  }

  /** The notes of a reconciled sweep, kind by kind. */
  lemma {:induction false} NotesHold(live: seq<Id>, gone: seq<Retraction>, f: FoldState, input: Input, crawl: nat,
                                     observed: set<Id>, exempt: set<Id>)
    ensures var ds := Notes(live, gone, f, input, crawl, observed, exempt);
      && OwnNotes(ds, input, crawl) && !HasNote(ds, KindVantage) && !HasNote(ds, KindEmpty)
      && (HasNote(ds, KindDerivation) <==> ForReason(gone, DerivationChanged))
      && (HasNote(ds, KindDefinition) <==> ForReason(gone, DefinitionChanged))
      && (HasNote(ds, KindHistoryStart) <==> SparesSome(live, f, input, observed, exempt))
  {
    var derivation := if ForReason(gone, DerivationChanged) then [Note(input, crawl, KindDerivation)] else [];
    var definition := if ForReason(gone, DefinitionChanged) then [Note(input, crawl, KindDefinition)] else [];
    var start := if SparesSome(live, f, input, observed, exempt) then [Note(input, crawl, KindHistoryStart)] else [];
    assert Notes(live, gone, f, input, crawl, observed, exempt) == derivation + definition + start;
    ThreeNotes(input, crawl, derivation, definition, start);
  }

  function Note(input: Input, crawl: nat, kind: Kind): Discrepancy {
    Discrepancy(input.adapterId, input.resourceId, kind, crawl)
  }

  predicate SparesSome(live: seq<Id>, f: FoldState, input: Input, observed: set<Id>, exempt: set<Id>) {
    exists i :: 0 <= i < |live| && live[i] !in observed && live[i] !in exempt
                && f.Head((input.adapterId, live[i])).Some?
                && PredatesHistory(input.historyStart, f.Head((input.adapterId, live[i])).value.obs)
  }

  lemma {:induction false} ThreeNotes(input: Input, crawl: nat, x: seq<Discrepancy>, y: seq<Discrepancy>,
                                      z: seq<Discrepancy>)
    requires x == [] || x == [Note(input, crawl, KindDerivation)]
    requires y == [] || y == [Note(input, crawl, KindDefinition)]
    requires z == [] || z == [Note(input, crawl, KindHistoryStart)]
    ensures var ds := x + y + z;
      && OwnNotes(ds, input, crawl) && !HasNote(ds, KindVantage) && !HasNote(ds, KindEmpty)
      && (HasNote(ds, KindDerivation) <==> x != []) && (HasNote(ds, KindDefinition) <==> y != [])
      && (HasNote(ds, KindHistoryStart) <==> z != [])
  {
    var ds := x + y + z;
    if x != [] { NoteAt(ds, KindDerivation, 0); }
    if y != [] { NoteAt(ds, KindDefinition, |x|); }
    if z != [] { NoteAt(ds, KindHistoryStart, |x| + |y|); }
  }

  lemma {:induction false} SparedIs(t: Tables, s: Sweep, live: seq<Id>)
    requires s.fold == Replay(t.rows, s.input.adapterId)
    requires live == SortedIds(LiveSet(s.fold, HighWater(t.retractions, s.input.adapterId), s.input.adapterId,
                                       s.input.resourceId))
    ensures (exists l :: SparedByStart(t, s, l)) <==> SparesSome(live, s.fold, s.input, s.observed, s.exempt)
  {
    var a, r := s.input.adapterId, s.input.resourceId;
    if l :| SparedByStart(t, s, l) {
      LiveSetIsLive(s.fold, HighWater(t.retractions, a), a, r, l);
      var i :| 0 <= i < |live| && live[i] == l;
      assert s.fold.Head((a, live[i])).Some?;
    }
    forall i | 0 <= i < |live| ensures LiveRecord(t, a, r, live[i]) {
      assert live[i] in live;
      LiveSetIsLive(s.fold, HighWater(t.retractions, a), a, r, live[i]);
    }
    if i :| 0 <= i < |live| && live[i] !in s.observed && live[i] !in s.exempt
            && s.fold.Head((a, live[i])).Some?
            && PredatesHistory(s.input.historyStart, s.fold.Head((a, live[i])).value.obs) {
      assert SparedByStart(t, s, live[i]);
    }
  }

  /** What the closing section notes: nothing of a disqualified sweep; a moved vantage or an unconfirmed empty
      sweep alone; otherwise one note for each kind of software change among the retractions, and one if the
      history's start spared a record. */
  lemma {:induction false} ConcludeNotes(t: Tables, s: Sweep, verdict: Option<string>) returns (ds: seq<Discrepancy>)
    requires s.fold == Replay(t.rows, s.input.adapterId)
    ensures Conclude(t, s, verdict).discrepancies == t.discrepancies + ds && OwnNotes(ds, s.input, s.crawl)
    ensures HasNote(ds, KindVantage) <==>
            HoldVerdict(s.gate, verdict).Disqualifier().None? && VantageMoved(t, s.input)
    ensures HasNote(ds, KindEmpty) <==>
            && HoldVerdict(s.gate, verdict).Disqualifier().None? && !VantageMoved(t, s.input) && s.observed == {}
            && !s.input.options.confirmEmpty && exists l :: LiveRecord(t, s.input.adapterId, s.input.resourceId, l)
    ensures HasNote(ds, KindDerivation) <==> ForReason(Concluded(t, s, verdict), DerivationChanged)
    ensures HasNote(ds, KindDefinition) <==> ForReason(Concluded(t, s, verdict), DefinitionChanged)
    ensures HasNote(ds, KindHistoryStart) <==> Licensed(t, s, verdict) && exists l :: SparedByStart(t, s, l)
  {
    var gone := ConcludeAppends(t, s, verdict);
    assert Concluded(t, s, verdict) == gone;
    var live := LiveSet(s.fold, HighWater(t.retractions, s.input.adapterId), s.input.adapterId, s.input.resourceId);
    LiveSetEmptyIff(t, s, live);
    if Licensed(t, s, verdict) {
      ds := Notes(SortedIds(live), gone, s.fold, s.input, s.crawl, s.observed, s.exempt);
      LicensedNotes(t, s, verdict, live, gone);
      NotesHold(SortedIds(live), gone, s.fold, s.input, s.crawl, s.observed, s.exempt);
      SparedIs(t, s, SortedIds(live));
    } else if HoldVerdict(s.gate, verdict).Disqualifier().None? {
      var kind := if VantageMoved(t, s.input) then KindVantage else KindEmpty;
      ds := [Note(s.input, s.crawl, kind)];
      UnlicensedNotes(t, s, verdict, live);
      NoteAt(ds, kind, 0);
    } else {
      ds := [];
      assert Conclude(t, s, verdict).discrepancies == t.discrepancies + ds;
    }
  }

  lemma {:induction false} LicensedNotes(t: Tables, s: Sweep, verdict: Option<string>, live: set<Id>,
                                         gone: seq<Retraction>)
    requires s.fold == Replay(t.rows, s.input.adapterId) && Licensed(t, s, verdict)
    requires live == LiveSet(s.fold, HighWater(t.retractions, s.input.adapterId), s.input.adapterId, s.input.resourceId)
    requires gone == Concluded(t, s, verdict)
    ensures Conclude(t, s, verdict).discrepancies
            == t.discrepancies + Notes(SortedIds(live), gone, s.fold, s.input, s.crawl, s.observed, s.exempt)
  {
    var rows := ConcludeAppends(t, s, verdict);
    assert Concluded(t, s, verdict) == rows;
    LiveSetEmptyIff(t, s, live);
  }

  lemma {:induction false} UnlicensedNotes(t: Tables, s: Sweep, verdict: Option<string>, live: set<Id>)
    requires s.fold == Replay(t.rows, s.input.adapterId) && !Licensed(t, s, verdict)
    requires HoldVerdict(s.gate, verdict).Disqualifier().None?
    requires live == LiveSet(s.fold, HighWater(t.retractions, s.input.adapterId), s.input.adapterId, s.input.resourceId)
    ensures Conclude(t, s, verdict).discrepancies
            == t.discrepancies + [Note(s.input, s.crawl, if VantageMoved(t, s.input) then KindVantage else KindEmpty)]
  {
    LiveSetEmptyIff(t, s, live);
  }

  lemma {:induction false} LiveSetEmptyIff(t: Tables, s: Sweep, live: set<Id>)
    requires s.fold == Replay(t.rows, s.input.adapterId)
    requires live == LiveSet(s.fold, HighWater(t.retractions, s.input.adapterId), s.input.adapterId, s.input.resourceId)
    ensures live == {} <==> forall l :: !LiveRecord(t, s.input.adapterId, s.input.resourceId, l)
  {
    forall l ensures l in live <==> LiveRecord(t, s.input.adapterId, s.input.resourceId, l) {
      LiveSetIsLive(s.fold, HighWater(t.retractions, s.input.adapterId), s.input.adapterId, s.input.resourceId, l);
    }
    if l :| l in live { assert LiveRecord(t, s.input.adapterId, s.input.resourceId, l); }
  }

  /** A live head row the history's start spares. */
  ghost predicate SparedRow(rows: seq<Row>, rs: seq<Retraction>, input: Input, l: Id, i: nat) {
    && LiveRow(rows, rs, input.adapterId, input.resourceId, l, i)
    && PredatesHistory(input.historyStart, rows[i].obs)
  }

  lemma {:induction false} SparedIff(t: Tables, s: Sweep, l: Id)
    requires RowsOk(t.rows)
    ensures SparedByStart(t, s, l) <==>
            l !in s.observed && l !in s.exempt && exists i :: SparedRow(t.rows, t.retractions, s.input, l, i)
  {
    var a, r := s.input.adapterId, s.input.resourceId;
    LiveIffHeadRow(t, a, r, l);
    if LiveRecord(t, a, r, l) {
      var i := LiveHeadOf(t, a, r, l);
      if k :| SparedRow(t.rows, t.retractions, s.input, l, k) { OneHeadRow(t.rows, a, l, i, k); }
      if SparedByStart(t, s, l) { assert SparedRow(t.rows, t.retractions, s.input, l, i); }
    }
  }

  ghost predicate SomeLive(t: Tables, rs: seq<Retraction>, input: Input) {
    exists l, i :: LiveRow(t.rows, rs, input.adapterId, input.resourceId, l, i)
  }

  ghost predicate SomeSpared(t: Tables, rs: seq<Retraction>, input: Input, pages: seq<HistoryRead>) {
    exists l, i :: SparedRow(t.rows, rs, input, l, i) && !Reported(pages, input, l)
                   && !Named(pages, input.resourceId, l)
  }

  lemma {:induction false} LiveAndSpared(t: Tables, s: Sweep, pages: seq<HistoryRead>)
    requires RowsOk(t.rows) && MemoryTells(s, pages)
    ensures SomeLive(t, t.retractions, s.input) <==>
            exists l :: LiveRecord(t, s.input.adapterId, s.input.resourceId, l)
    ensures SomeSpared(t, t.retractions, s.input, pages) <==> exists l :: SparedByStart(t, s, l)
  {
    forall l
      ensures LiveRecord(t, s.input.adapterId, s.input.resourceId, l) <==>
              exists i :: LiveRow(t.rows, t.retractions, s.input.adapterId, s.input.resourceId, l, i)
      ensures SparedByStart(t, s, l) <==>
              l !in s.observed && l !in s.exempt && exists i :: SparedRow(t.rows, t.retractions, s.input, l, i)
    {
      LiveIffHeadRow(t, s.input.adapterId, s.input.resourceId, l);
      SparedIff(t, s, l);
    }
    if l, i :| LiveRow(t.rows, t.retractions, s.input.adapterId, s.input.resourceId, l, i) {
      assert LiveRecord(t, s.input.adapterId, s.input.resourceId, l);
    }
    if l, i :| SparedRow(t.rows, t.retractions, s.input, l, i) && !Reported(pages, s.input, l)
               && !Named(pages, s.input.resourceId, l) {
      assert SparedByStart(t, s, l);
    }
    if l :| SparedByStart(t, s, l) {
      var i :| SparedRow(t.rows, t.retractions, s.input, l, i);
      assert !Reported(pages, s.input, l) && !Named(pages, s.input.resourceId, l);
    }
  }

  /** Over every run: the notes a final page leaves, kind by kind. Its own and at most one a kind: the moved
      vantage, the unconfirmed empty sweep, each kind of software change among its retractions, and the
      records the history's start spared. */
  lemma {:induction false} NotesIff(events: seq<Event>, read: HistoryRead, verdict: Option<string>,
                                    pages: seq<HistoryRead>) returns (ds: seq<Discrepancy>)
    requires Run(events).sweep.Some? && IsFinal(Run(events).sweep.value, read) && pages == PagesSoFar(events) + [read]
    ensures var t, s := Run(events).tables, Run(events).sweep.value;
            var t', gone := Apply(Run(events), Page(read, verdict)).tables, Added(Run(events), Page(read, verdict));
            && s.crawl < |t'.crawls|
            && t'.discrepancies == t.discrepancies + ds && OwnNotes(ds, s.input, s.crawl)
            && (HasNote(ds, KindDerivation) <==> ForReason(gone, DerivationChanged))
            && (HasNote(ds, KindDefinition) <==> ForReason(gone, DefinitionChanged))
    ensures var t, s := Run(events).tables, Run(events).sweep.value;
            var t' := Apply(Run(events), Page(read, verdict)).tables;
            var complete := t'.crawls[s.crawl].complete;
            var some := exists k :: Reported(pages, s.input, k);
            && (HasNote(ds, KindVantage) <==> complete && Moved(events, s.input))
            && (HasNote(ds, KindEmpty) <==>
                 complete && !Moved(events, s.input) && !some && !s.input.options.confirmEmpty
                 && SomeLive(t', t.retractions, s.input))
            && (HasNote(ds, KindHistoryStart) <==>
                 complete && !Moved(events, s.input) && (some || s.input.options.confirmEmpty)
                 && SomeSpared(t', t.retractions, s.input, pages))
  {
    var t, s := Decides(events, read, verdict, pages);
    AddedIs(events, read, verdict, t, s);
    ds := ConcludeNotes(t, s, verdict);
    MovedIs(events, t, s.input);
    FinalOutcome(t, s, verdict);
    SomethingReported(s, pages);
    LiveAndSpared(t, s, pages);
  }

  /** Over every run: each retraction a final page adds is its own, at the number of rows the record has, and
      its reason compares the sweep's rules with those its head row was last seen under. */
  lemma {:induction false} RetractionTells(events: seq<Event>, read: HistoryRead, verdict: Option<string>,
                                           x: Retraction) returns (i: nat)
    requires Run(events).sweep.Some? && IsFinal(Run(events).sweep.value, read)
    requires x in Added(Run(events), Page(read, verdict))
    ensures var s, t' := Run(events).sweep.value, Apply(Run(events), Page(read, verdict)).tables;
      && IsHeadRow(t'.rows, s.input.adapterId, x.localId, i)
      && x == Retraction(s.input.adapterId, x.localId, Count(t'.rows, s.input.adapterId, x.localId),
                         if t'.rows[i].meta.derivation != s.input.derivation then DerivationChanged
                         else if t'.rows[i].meta.fingerprint != Some(s.input.fingerprint) then DefinitionChanged
                         else AbsentFromCompleteSweep, s.crawl)
  {
    var t, s := Decides(events, read, verdict, PagesSoFar(events) + [read]);
    AddedIs(events, read, verdict, t, s);
    ConcludedRow(t, s, verdict, x);
    FinalOutcome(t, s, verdict);
    var a := s.input.adapterId;
    HighestWithinCount(t.rows, s.fold, a, x.localId);
    i := HeadIsHeadRow(t.rows, a, x.localId);
    var j := ReasonIsHeadRows(t, s, verdict, x);
    if i < j { RevisionNamesRow(t.rows, i, j); } else if j < i { RevisionNamesRow(t.rows, j, i); }
  }
}
