/** The store's tables updated in place (core/store/src/store.rs), each operation proved against its
    specification in `Tables` and `Balances`. */
module Storage {
  import opened Base
  import opened Folding
  import opened T = Tables
  import B = Balances

  class Store {
    var rows: seq<Row>
    var retractions: seq<Retraction>
    var crawls: seq<Crawl>
    var resources: map<(Id, Id), ResourceRow>
    var derivations: map<Id, string>
    var discrepancies: seq<Discrepancy>
    var balanceReads: map<Id, nat>
    var balances: seq<B.BalanceRow>

    ghost function State(): Tables
      reads this
    {
      Tables(rows, retractions, crawls, resources, derivations, discrepancies)
    }

    constructor ()
      ensures State() == FRESH && balanceReads == map[] && balances == []
    {
      rows, retractions, crawls, resources, derivations, discrepancies := [], [], [], map[], map[], [];
      balanceReads, balances := map[], [];
    }

    // ----- crawls ------------------------------------------------------------------------

    /** One transaction: earlier resume points of the resource are cleared, and the crawl is added. */
    method OpenCrawl(a: Id, r: Id, start: Option<PageRequest>, derivation: string, fingerprint: Option<string>)
        returns (id: nat)
      modifies this`crawls
      ensures crawls == T.OpenCrawl(old(crawls), a, r, start, derivation, fingerprint)
      ensures id == |old(crawls)|
    {
      id := |crawls|;
      var i := 0;
      while i < |crawls|
        invariant i <= |crawls| == |old(crawls)|
        invariant forall k :: 0 <= k < i ==> crawls[k] == ClearCursor(old(crawls)[k], a, r)
        invariant forall k :: i <= k < |crawls| ==> crawls[k] == old(crawls)[k]
      {
        if crawls[i].adapterId == a && crawls[i].resourceId == r && crawls[i].nextPage.Some? {
          crawls := crawls[i := crawls[i].(nextPage := None)];
        }
        i := i + 1;
      }
      crawls := crawls + [Crawl(a, r, start, start, derivation, fingerprint, false, false, None)];
    }

    method SetCrawlCursor(id: nat, next: Option<PageRequest>)
      modifies this`crawls
      ensures crawls == SetCursor(old(crawls), id, next)
    {
      if id < |crawls| { crawls := crawls[id := crawls[id].(nextPage := next)]; }
    }

    /** A drained crawl gives up its cursor; any other keeps it. */
    method FinishCrawl(id: nat, drained: bool, complete: bool, reason: Option<Disqualification>)
      modifies this`crawls
      ensures crawls == T.FinishCrawl(old(crawls), id, drained, complete, reason)
    {
      if id < |crawls| {
        var c := crawls[id];
        crawls := crawls[id := c.(drained := drained, complete := complete, disqualified := reason,
                                  nextPage := if drained then None else c.nextPage)];
      }
    }

    method ResumableCrawl(a: Id, r: Id) returns (c: Option<Crawl>)
      ensures c == T.ResumableCrawl(crawls, a, r)
    {
      var i := |crawls|;
      assert crawls[..i] == crawls;
      while i > 0
        invariant i <= |crawls| && T.ResumableCrawl(crawls, a, r) == T.ResumableCrawl(crawls[..i], a, r)
      {
        i := i - 1;
        assert crawls[..i + 1][..i] == crawls[..i];
        if Resumable(crawls[i], a, r) { return Some(crawls[i]); }
      }
      c := None;
    }

    // ----- observations ------------------------------------------------------------------

    /** The UNIQUE key `(adapter_id, local_id, revision)` refuses a second row. */
    method AppendObservation(row: Row) returns (ok: bool)
      modifies this`rows
      ensures ok <==> !Taken(old(rows), row.adapterId, row.obs.localId, row.revision)
      ensures rows == if ok then old(rows) + [row] else old(rows)
    {
      for i := 0 to |rows|
        invariant rows == old(rows)
        invariant forall k :: 0 <= k < i ==>
            !(Of(rows[k], row.adapterId, row.obs.localId) && rows[k].revision == row.revision)
      {
        if Of(rows[i], row.adapterId, row.obs.localId) && rows[i].revision == row.revision { return false; }
      }
      rows := rows + [row];
      ok := true;
    }

    method StampSeen(a: Id, l: Id, revision: nat, crawl: nat, meta: HeadMeta)
      modifies this`rows
      ensures rows == T.StampSeen(old(rows), a, l, revision, crawl, meta)
    {
      var i := 0;
      while i < |rows|
        invariant i <= |rows| == |old(rows)|
        invariant forall k :: 0 <= k < i ==> rows[k] == StampRow(old(rows)[k], a, l, revision, crawl, meta)
        invariant forall k :: i <= k < |rows| ==> rows[k] == old(rows)[k]
      {
        rows := rows[i := StampRow(rows[i], a, l, revision, crawl, meta)];
        i := i + 1;
      }
    }

    // ----- retractions -------------------------------------------------------------------

    method AppendRetraction(r: Retraction)
      modifies this`retractions
      ensures retractions == old(retractions) + [r]
    {
      retractions := retractions + [r];
    }

    /** `MAX(revision)` per local id. */
    method RetractionHighWater(a: Id) returns (m: map<Id, nat>)
      ensures m == HighWater(retractions, a)
      ensures forall l, revision: nat :: IsBuried(m, l, revision) <==> RetractedAt(retractions, a, l, revision)
    {
      m := map[];
      for i := 0 to |retractions|
        invariant m == HighWater(retractions[..i], a)
      {
        assert retractions[..i + 1][..i] == retractions[..i];
        var r := retractions[i];
        if r.adapterId == a && (r.localId !in m || m[r.localId] < r.revision) {
          m := m[r.localId := r.revision];
        }
      }
      assert retractions[..|retractions|] == retractions;
      forall l, revision: nat ensures IsBuried(m, l, revision) <==> RetractedAt(retractions, a, l, revision) {
        HighWaterBuries(retractions, a, l, revision);
      }
    }

    // ----- adapters, resources, notes ----------------------------------------------------

    method UpsertResource(a: Id, r: Id)
      modifies this`resources
      ensures resources == if (a, r) in old(resources) then old(resources)
                           else old(resources)[(a, r) := ResourceRow(None, None)]
    {
      if (a, r) !in resources { resources := resources[(a, r) := ResourceRow(None, None)]; }
    }

    /** An absent provider leaves the stored vantage alone. */
    method SetResourceDefinition(a: Id, r: Id, fingerprint: string, provider: Option<string>)
      modifies this`resources
      ensures resources == SetDefinition(old(resources), a, r, fingerprint, provider)
    {
      if (a, r) in resources {
        var kept := resources[(a, r)].lastProvider;
        resources := resources[(a, r) := ResourceRow(Some(fingerprint), if provider.Some? then provider else kept)];
      }
    }

    method SetAdapterDerivation(a: Id, derivation: string)
      modifies this`derivations
      ensures derivations == old(derivations)[a := derivation]
    {
      derivations := derivations[a := derivation];
    }

    method AppendDiscrepancy(d: Discrepancy)
      modifies this`discrepancies
      ensures discrepancies == old(discrepancies) + [d]
    {
      discrepancies := discrepancies + [d];
    }

    // ----- balances ----------------------------------------------------------------------

    ghost function Book(current: Option<(Id, nat)>): B.Book
      reads this
    {
      B.Book(balanceReads, balances, current)
    }

    /** Every refresh opens a read before anything that can fail. */
    method OpenBalanceRead(a: Id) returns (id: Option<nat>)
      modifies this`balanceReads
      ensures Book(if id.Some? then Some((a, id.value)) else None) == B.Apply(old(Book(None)), B.OpenRead(a))
      ensures id.Some? ==> forall row :: row in balances && row.adapterId == a && row.readId < id.value ==>
                             !B.Fresh(Book(None), row)
    {
      if a !in balanceReads { return None; }
      balanceReads := balanceReads[a := balanceReads[a] + 1];
      id := Some(balanceReads[a]);
    }

    /** The whole reply in one transaction. */
    method CommitBalances(a: Id, readId: nat, lines: seq<B.Line>)
      modifies this`balances
      ensures Book(None) == B.Apply(old(Book(Some((a, readId)))), B.Commit(lines))
    {
      for i := 0 to |lines|
        invariant balances == old(balances) + B.RowsOf(a, readId, lines[..i])
      {
        assert B.RowsOf(a, readId, lines[..i + 1])
            == B.RowsOf(a, readId, lines[..i]) + [B.BalanceRow(a, readId, lines[i])];
        balances := balances + [B.BalanceRow(a, readId, lines[i])];
      }
      assert lines[..|lines|] == lines;
    }

    method BalanceHistory(a: Id, r: Id, category: string) returns (history: seq<B.BalanceRow>)
      ensures history == B.History(balances, a, r, category)
    {
      history := [];
      for i := 0 to |balances|
        invariant history == B.History(balances[..i], a, r, category)
      {
        assert balances[..i + 1][..i] == balances[..i];
        var row := balances[i];
        if row.adapterId == a && row.line.resourceId == r && row.line.category == category {
          history := history + [row];
        }
      }
      assert balances[..|balances|] == balances;
    }
  }
}
