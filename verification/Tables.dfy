/** The SQLite tables of core/store/src/store.rs as values, and the reads and writes a sweep makes
    on them. */
module Tables {
  import opened Base
  import opened Folding

  /** Which software rules last re-emitted a row. */
  datatype HeadMeta = HeadMeta(derivation: string, fingerprint: Option<string>)

  datatype Row = Row(adapterId: Id, revision: nat, crawl: nat, lastSeen: nat, meta: HeadMeta, obs: Observation)

  datatype Reason = DerivationChanged | DefinitionChanged | AbsentFromCompleteSweep

  datatype Retraction = Retraction(adapterId: Id, localId: Id, revision: nat, reason: Reason, crawl: nat)

  datatype PageRequest = Cursor(cursor: string) | Window(start: string, end: string)

  datatype Outcome =
    Fetched | NotFetched | Stale | RateLimited | Unavailable | ReauthRequired | Revoked | Gone | ScaRequired

  /** `crawl.disqualified_reason`: the gate's verdicts, then the ways a read fails. */
  datatype Disqualification =
    | BrokeContract(violation: string)
    | NotFromStart
    | NotDrained
    | PageNotFetched(outcome: Outcome, page: nat)
    | AnonymousDegrade
    | CursorNotExact
    | NoDerivation
    | ForeignProvenance
    | AdapterFailed(page: nat)
    | NoStatus(page: nat)
    | PageLimit

  datatype Crawl = Crawl(
    adapterId: Id, resourceId: Id, startPage: Option<PageRequest>, nextPage: Option<PageRequest>,
    derivation: string, fingerprint: Option<string>,
    drained: bool, complete: bool, disqualified: Option<Disqualification>)

  datatype ResourceRow = ResourceRow(fingerprint: Option<string>, lastProvider: Option<string>)

  datatype Kind = KindDerivation | KindDefinition | KindVantage | KindEmpty | KindHistoryStart

  datatype Discrepancy = Discrepancy(adapterId: Id, resourceId: Id, kind: Kind, crawl: nat)

  /** Crawl ids are positions in `crawls`; rows are in insertion order. */
  datatype Tables = Tables(
    rows: seq<Row>,
    retractions: seq<Retraction>,
    crawls: seq<Crawl>,
    resources: map<(Id, Id), ResourceRow>,
    derivations: map<Id, string>,
    discrepancies: seq<Discrepancy>)

  const FRESH: Tables := Tables([], [], [], map[], map[], [])

  // ----- observations --------------------------------------------------------------------

  predicate Of(row: Row, a: Id, l: Id) { row.adapterId == a && row.obs.localId == l }

  function Count(rows: seq<Row>, a: Id, l: Id): nat {
    if rows == [] then 0
    else Count(rows[..|rows| - 1], a, l) + (if Of(rows[|rows| - 1], a, l) then 1 else 0)
  }

  /** The UNIQUE key `(adapter_id, local_id, revision)` is in use. */
  predicate Taken(rows: seq<Row>, a: Id, l: Id, r: nat) {
    exists i :: 0 <= i < |rows| && Of(rows[i], a, l) && rows[i].revision == r
  }

  function StampRow(row: Row, a: Id, l: Id, r: nat, crawl: nat, meta: HeadMeta): Row {
    if Of(row, a, l) && row.revision == r then row.(lastSeen := crawl, meta := meta) else row
  }

  /** `stamp_seen`: the named row was seen again, under these rules. */
  function StampSeen(rows: seq<Row>, a: Id, l: Id, r: nat, crawl: nat, meta: HeadMeta): seq<Row> {
    seq(|rows|, i requires 0 <= i < |rows| => StampRow(rows[i], a, l, r, crawl, meta))
  }

  /** One adapter's stored observations replayed into a fold, in stored order. */
  function Replay(rows: seq<Row>, a: Id): FoldState {
    if rows == [] then EMPTY
    else
      var f := Replay(rows[..|rows| - 1], a);
      var last := rows[|rows| - 1];
      if last.adapterId == a then f.Ingest(last.obs) else f
  }

  /** The rules recorded for each `(local_id, revision)` of one adapter. */
  function StoredMeta(rows: seq<Row>, a: Id): map<(Id, nat), HeadMeta> {
    if rows == [] then map[]
    else
      var m := StoredMeta(rows[..|rows| - 1], a);
      var last := rows[|rows| - 1];
      if last.adapterId == a then m[(last.obs.localId, last.revision) := last.meta] else m
  }

  // ----- retractions ---------------------------------------------------------------------

  /** `MAX(revision) ... GROUP BY local_id` for one adapter. */
  function HighWater(rs: seq<Retraction>, a: Id): map<Id, nat> {
    if rs == [] then map[]
    else
      var m := HighWater(rs[..|rs| - 1], a);
      var last := rs[|rs| - 1];
      if last.adapterId == a
      then m[last.localId := Max(last.revision, if last.localId in m then m[last.localId] else 0)] else m
  }

  /** The liveness rule's one predicate: a retraction at or above this revision. */
  predicate IsBuried(highWater: map<Id, nat>, l: Id, revision: nat) {
    l in highWater && highWater[l] >= revision
  }

  /** Some retraction of the key is at or above the revision. */
  ghost predicate RetractedAt(rs: seq<Retraction>, a: Id, l: Id, revision: nat) {
    exists i :: 0 <= i < |rs| && rs[i].adapterId == a && rs[i].localId == l && rs[i].revision >= revision
  }

  /** The grouped maximum buries a revision exactly when some retraction row does. */
  lemma {:induction false} HighWaterBuries(rs: seq<Retraction>, a: Id, l: Id, revision: nat)
    ensures IsBuried(HighWater(rs, a), l, revision) <==> RetractedAt(rs, a, l, revision)
  {
    if rs != [] {
      var front := rs[..|rs| - 1];
      HighWaterBuries(front, a, l, revision);
      if RetractedAt(front, a, l, revision) {
        var i :| 0 <= i < |front| && front[i].adapterId == a && front[i].localId == l && front[i].revision >= revision;
        assert rs[i] == front[i];
      }
      if RetractedAt(rs, a, l, revision) {
        var i :| 0 <= i < |rs| && rs[i].adapterId == a && rs[i].localId == l && rs[i].revision >= revision;
        assert i == |front| || front[i] == rs[i];
      }
    }
  }

  // ----- crawls --------------------------------------------------------------------------

  function ClearCursor(c: Crawl, a: Id, r: Id): Crawl {
    if c.adapterId == a && c.resourceId == r then c.(nextPage := None) else c
  }

  /** `open_crawl`: one transaction retires every earlier resume point and adds the crawl. */
  function OpenCrawl(crawls: seq<Crawl>, a: Id, r: Id, start: Option<PageRequest>, derivation: string,
                     fingerprint: Option<string>): seq<Crawl> {
    seq(|crawls|, i requires 0 <= i < |crawls| => ClearCursor(crawls[i], a, r))
    + [Crawl(a, r, start, start, derivation, fingerprint, false, false, None)]
  }

  /** An UPDATE by id: no such crawl, no change. */
  function SetCursor(crawls: seq<Crawl>, id: nat, next: Option<PageRequest>): seq<Crawl> {
    if id < |crawls| then crawls[id := crawls[id].(nextPage := next)] else crawls
  }

  function FinishCrawl(crawls: seq<Crawl>, id: nat, drained: bool, complete: bool,
                       disqualified: Option<Disqualification>): seq<Crawl> {
    if id < |crawls|
    then crawls[id := crawls[id].(drained := drained, complete := complete, disqualified := disqualified,
                                  nextPage := if drained then None else crawls[id].nextPage)]
    else crawls
  }

  predicate Resumable(c: Crawl, a: Id, r: Id) {
    c.adapterId == a && c.resourceId == r && !c.drained && c.nextPage.Some?
  }

  /** `resumable_crawl`: the newest crawl of the resource that still holds a cursor. */
  function ResumableCrawl(crawls: seq<Crawl>, a: Id, r: Id): Option<Crawl> {
    if crawls == [] then None
    else if Resumable(crawls[|crawls| - 1], a, r) then Some(crawls[|crawls| - 1])
    else ResumableCrawl(crawls[..|crawls| - 1], a, r)
  }

  /** `set_resource_definition`: an UPDATE, so a resource with no row is left without one. */
  function SetDefinition(resources: map<(Id, Id), ResourceRow>, a: Id, r: Id, fingerprint: string,
                         provider: Option<string>): map<(Id, Id), ResourceRow> {
    if (a, r) in resources
    then resources[(a, r) := ResourceRow(Some(fingerprint),
                                         if provider.Some? then provider else resources[(a, r)].lastProvider)]
    else resources
  }

  // ----- what every run keeps about the rows ---------------------------------------------

  /** Every row is filed under the adapter its provenance names. */
  ghost predicate RowsOwned(rows: seq<Row>) {
    forall i :: 0 <= i < |rows| ==> rows[i].obs.adapterId == rows[i].adapterId
  }

  /** Each key's revisions in insertion order are 1, 2, 3, ... */
  ghost predicate RevisionsInOrder(rows: seq<Row>) {
    forall i :: 0 <= i < |rows| ==>
      rows[i].revision == Count(rows[..i], rows[i].adapterId, rows[i].obs.localId) + 1
  }

  ghost predicate RowsOk(rows: seq<Row>) { RowsOwned(rows) && RevisionsInOrder(rows) }

  lemma {:induction false} CountMonotone(rows: seq<Row>, a: Id, l: Id, i: nat)
    requires i <= |rows|
    ensures Count(rows[..i], a, l) <= Count(rows, a, l)
  {
    if i < |rows| {
      CountMonotone(rows[..|rows| - 1], a, l, i);
      assert rows[..|rows| - 1][..i] == rows[..i];
    } else {
      assert rows[..i] == rows;
    }
  }

  lemma {:induction false} RevisionWithinCount(rows: seq<Row>, i: nat)
    requires RevisionsInOrder(rows) && i < |rows|
    ensures rows[i].revision <= Count(rows, rows[i].adapterId, rows[i].obs.localId)
  {
    CountMonotone(rows, rows[i].adapterId, rows[i].obs.localId, i + 1);
    assert rows[..i + 1][..i] == rows[..i];
  }

  /** A row's revision is within the count of its key, so the next one is free. */
  lemma {:induction false} NextRevisionFree(rows: seq<Row>, a: Id, l: Id)
    requires RevisionsInOrder(rows)
    ensures !Taken(rows, a, l, Count(rows, a, l) + 1)
  {
    forall i | 0 <= i < |rows| && Of(rows[i], a, l) ensures rows[i].revision <= Count(rows, a, l) {
      RevisionWithinCount(rows, i);
    }
  }

  lemma {:induction false} RowsPrefix(rows: seq<Row>, n: nat)
    requires RowsOk(rows) && n <= |rows|
    ensures RowsOk(rows[..n])
  {
    forall i | 0 <= i < n
      ensures rows[..n][i].revision == Count(rows[..n][..i], rows[..n][i].adapterId, rows[..n][i].obs.localId) + 1
    {
      assert rows[..n][..i] == rows[..i];
    }
  }

  /** `(adapter_id, local_id, revision)` names one row. */
  lemma {:induction false} RevisionNamesRow(rows: seq<Row>, i: nat, j: nat)
    requires RevisionsInOrder(rows) && i < j < |rows|
    requires Of(rows[j], rows[i].adapterId, rows[i].obs.localId)
    ensures rows[i].revision < rows[j].revision
  {
    CountMonotone(rows[..j], rows[i].adapterId, rows[i].obs.localId, i + 1);
    assert rows[..j][..i + 1] == rows[..i + 1];
    assert rows[..i + 1][..i] == rows[..i];
  }

  lemma {:induction false} AppendKeepsRows(rows: seq<Row>, row: Row)
    requires RowsOk(rows)
    requires row.obs.adapterId == row.adapterId
    requires row.revision == Count(rows, row.adapterId, row.obs.localId) + 1
    ensures RowsOk(rows + [row])
  {
    forall i | 0 <= i < |rows + [row]|
      ensures (rows + [row])[i].revision
              == Count((rows + [row])[..i], (rows + [row])[i].adapterId, (rows + [row])[i].obs.localId) + 1
    {
      assert (rows + [row])[..i] == if i < |rows| then rows[..i] else rows;
    }
  }

  /** Rows that differ only in when, and under which rules, they were last seen. */
  ghost predicate SameFacts(a: seq<Row>, b: seq<Row>) {
    |a| == |b| && forall i :: 0 <= i < |a| ==>
      a[i].adapterId == b[i].adapterId && a[i].revision == b[i].revision && a[i].obs == b[i].obs
  }

  lemma {:induction false} SameCount(x: seq<Row>, y: seq<Row>, a: Id, l: Id)
    requires SameFacts(x, y)
    ensures Count(x, a, l) == Count(y, a, l)
  {
    if x != [] {
      SameCount(x[..|x| - 1], y[..|y| - 1], a, l);
    }
  }

  lemma {:induction false} SameReplay(x: seq<Row>, y: seq<Row>, a: Id)
    requires SameFacts(x, y)
    ensures Replay(x, a) == Replay(y, a)
  {
    if x != [] {
      SameReplay(x[..|x| - 1], y[..|y| - 1], a);
    }
  }

  lemma {:induction false} StampKeepsRows(rows: seq<Row>, a: Id, l: Id, r: nat, crawl: nat, meta: HeadMeta)
    requires RowsOk(rows)
    ensures SameFacts(rows, StampSeen(rows, a, l, r, crawl, meta))
    ensures RowsOk(StampSeen(rows, a, l, r, crawl, meta))
  {
    var rows' := StampSeen(rows, a, l, r, crawl, meta);
    forall i | 0 <= i < |rows'|
      ensures rows'[i].revision == Count(rows'[..i], rows'[i].adapterId, rows'[i].obs.localId) + 1
    {
      SameCount(rows[..i], rows'[..i], rows[i].adapterId, rows[i].obs.localId);
    }
  }

  // ----- replay ---------------------------------------------------------------------------

  /** The row a chain entry stands for. */
  ghost predicate EntryIsRow(rows: seq<Row>, a: Id, e: Entry) {
    exists i :: 0 <= i < |rows| && rows[i].adapterId == a && rows[i].revision == e.revision && rows[i].obs == e.obs
  }

  lemma {:induction false} EntryStaysRow(rows: seq<Row>, row: Row, a: Id, e: Entry)
    requires EntryIsRow(rows, a, e)
    ensures EntryIsRow(rows + [row], a, e)
  {
    var i :| 0 <= i < |rows| && rows[i].adapterId == a && rows[i].revision == e.revision && rows[i].obs == e.obs;
    assert (rows + [row])[i] == rows[i];
  }

  ghost predicate ReplayFaithful(rows: seq<Row>, a: Id) {
    var f := Replay(rows, a);
    && FoldOk(f)
    && (forall key :: key in f.chains ==> key.0 == a)
    && (forall l :: |f.Chain((a, l))| == Count(rows, a, l))
    && (forall key, e :: key in f.chains && e in f.chains[key] ==> EntryIsRow(rows, a, e))
  }

  lemma {:induction false} ReplayStep(front: seq<Row>, last: Row, a: Id)
    requires ReplayFaithful(front, a)
    requires last.adapterId == a && last.obs.adapterId == a
    requires last.revision == Count(front, a, last.obs.localId) + 1
    ensures Replay(front + [last], a) == Replay(front, a).Ingest(last.obs)
    ensures ReplayFaithful(front + [last], a)
  {
    var f, rows := Replay(front, a), front + [last];
    assert rows[..|rows| - 1] == front;
    IngestKeepsFold(f, last.obs);
    IngestInserts(f, last.obs);
    var e0 := Entry(f.counter, f.NextRevision(last.obs), last.obs);
    InsertElements(f.Chain(KeyOf(last.obs)), e0);
    forall l ensures |f.Ingest(last.obs).Chain((a, l))| == Count(rows, a, l) {
      assert |f.Chain((a, l))| == Count(front, a, l);
    }
    forall key, e | key in f.Ingest(last.obs).chains && e in f.Ingest(last.obs).chains[key]
      ensures EntryIsRow(rows, a, e)
    {
      if e == e0 {
        assert rows[|front|] == last;
      } else {
        EntryStaysRow(front, last, a, e);
      }
    }
  }

  lemma {:induction false} ReplaySkip(front: seq<Row>, last: Row, a: Id)
    requires ReplayFaithful(front, a) && last.adapterId != a
    ensures Replay(front + [last], a) == Replay(front, a)
    ensures ReplayFaithful(front + [last], a)
  {
    var f, rows := Replay(front, a), front + [last];
    assert rows[..|rows| - 1] == front;
    forall l ensures |f.Chain((a, l))| == Count(rows, a, l) {
      assert |f.Chain((a, l))| == Count(front, a, l);
    }
    forall key, e | key in f.chains && e in f.chains[key] ensures EntryIsRow(rows, a, e) {
      EntryStaysRow(front, last, a, e);
    }
  }

  /** Each row is filed under its provenance and numbered after its key's earlier rows. */
  lemma {:induction false} RowIsNext(rows: seq<Row>, i: nat)
    requires RowsOk(rows) && i < |rows|
    ensures rows[i].obs.adapterId == rows[i].adapterId
    ensures rows[i].revision == Count(rows[..i], rows[i].adapterId, rows[i].obs.localId) + 1
    ensures rows[..i + 1] == rows[..i] + [rows[i]]
  {
  }

  lemma {:induction false} ReplayUpTo(rows: seq<Row>, a: Id, n: nat)
    requires RowsOk(rows) && n <= |rows|
    ensures ReplayFaithful(rows[..n], a)
  {
    if n > 0 {
      RowIsNext(rows, n - 1);
      ReplayUpTo(rows, a, n - 1);
      ReplayOne(rows[..n - 1], rows[n - 1], a);
    }
  }

  /** Replaying the stored rows gives back exactly the chains the rows record: as many entries as
      the key has rows, each carrying its row's own revision. */
  lemma {:induction false} ReplayReassigns(rows: seq<Row>, a: Id)
    requires RowsOk(rows)
    ensures ReplayFaithful(rows, a)
  {
    ReplayUpTo(rows, a, |rows|);
    assert rows[..|rows|] == rows;
  }

  lemma {:induction false} ReplayOne(front: seq<Row>, last: Row, a: Id)
    requires ReplayFaithful(front, a) && last.obs.adapterId == last.adapterId
    requires last.revision == Count(front, last.adapterId, last.obs.localId) + 1
    ensures ReplayFaithful(front + [last], a)
  {
    if last.adapterId == a {
      ReplayStep(front, last, a);
    } else {
      ReplaySkip(front, last, a);
    }
  }

  /** Revision assignment on replay: row `i` is given the revision it was stored under. */
  lemma {:induction false} ReplayGivesStoredRevision(rows: seq<Row>, i: nat)
    requires RowsOk(rows) && i < |rows|
    ensures Replay(rows[..i], rows[i].adapterId).NextRevision(rows[i].obs) == rows[i].revision
  {
    RowIsNext(rows, i);
    ReplayUpTo(rows, rows[i].adapterId, i);
    assert |Replay(rows[..i], rows[i].adapterId).Chain(KeyOf(rows[i].obs))|
           == Count(rows[..i], rows[i].adapterId, rows[i].obs.localId);
  }

  // ----- stored rules --------------------------------------------------------------------

  predicate Stored(row: Row, a: Id, key: (Id, nat)) { row.adapterId == a && (row.obs.localId, row.revision) == key }

  /** The newest row of a key and revision has the last word. */
  lemma {:induction false} StoredMetaHolds(rows: seq<Row>, a: Id, key: (Id, nat), i: nat)
    requires i < |rows| && Stored(rows[i], a, key) && forall j :: i < j < |rows| ==> !Stored(rows[j], a, key)
    ensures key in StoredMeta(rows, a) && StoredMeta(rows, a)[key] == rows[i].meta
  {
    if i < |rows| - 1 {
      var front := rows[..|rows| - 1];
      assert forall j :: 0 <= j < |front| ==> front[j] == rows[j];
      StoredMetaHolds(front, a, key, i);
      assert !Stored(rows[|rows| - 1], a, key);
    }
  }

  /** The rules held for a row's own key and revision are the row's. */
  lemma {:induction false} StoredMetaIsRow(rows: seq<Row>, a: Id, i: nat)
    requires RowsOk(rows) && i < |rows| && rows[i].adapterId == a
    ensures (rows[i].obs.localId, rows[i].revision) in StoredMeta(rows, a)
    ensures StoredMeta(rows, a)[(rows[i].obs.localId, rows[i].revision)] == rows[i].meta
  {
    var key := (rows[i].obs.localId, rows[i].revision);
    forall j | i < j < |rows| ensures !Stored(rows[j], a, key) {
      if Of(rows[j], rows[i].adapterId, rows[i].obs.localId) { RevisionNamesRow(rows, i, j); }
    }
    StoredMetaHolds(rows, a, key, i);
  }
}
