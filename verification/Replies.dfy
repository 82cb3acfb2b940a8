/** A whole `history.read` reply (adapters/bitcoin/src/main.rs): one byte budget for every requested
    resource, one status entry each, and never a line the host must kill the connection over. */
module Replies {
  import opened Base
  import opened Planning
  import opened Paging
  import opened Draining
  import opened Tables
  import opened Sweeping
  import Cursors
  import Digits
  import HostReads
  import Wallets

  const ENVELOPE_BYTES: nat := 512
  const PAGE_REPLY_BYTES: nat := 320
  const PAGE_BUDGET_BYTES: nat := 512 * 1024

  function Saturating(a: nat, b: nat): nat { if a < b then 0 else a - b }

  // ----- the budget ----------------------------------------------------------------------

  /** The bytes set aside for the entries of `ids`, given what a bare entry serializes to. */
  function Reserved(bare: Id -> nat, ids: seq<Id>): nat {
    if ids == [] then 0 else Reserved(bare, ids[..|ids| - 1]) + bare(ids[|ids| - 1]) + PAGE_REPLY_BYTES
  }

  class Budget {
    var left: nat

    constructor ()
      ensures left == MAX_FRAME_BYTES - ENVELOPE_BYTES
    {
      left := Saturating(MAX_FRAME_BYTES, ENVELOPE_BYTES);
    }

    /** Every requested resource's entry is paid for before any observation. */
    method Reserve(bare: Id -> nat, ids: seq<Id>)
      modifies this
      ensures left == Saturating(old(left), Reserved(bare, ids))
    {
      for i := 0 to |ids|
        invariant left == Saturating(old(left), Reserved(bare, ids[..i]))
      {
        assert ids[..i + 1][..i] == ids[..i];
        left := Saturating(left, bare(ids[i]) + PAGE_REPLY_BYTES);
      }
      assert ids[..|ids|] == ids;
    }

    /** An entry costs only what it grew beyond its reservation. */
    method Charge(bare: Id -> nat, id: Id, cost: nat)
      modifies this
      ensures left == Saturating(old(left), Saturating(cost, bare(id) + PAGE_REPLY_BYTES))
    {
      left := Saturating(left, Saturating(cost, bare(id) + PAGE_REPLY_BYTES));
    }

    method Spend(bytes: nat)
      modifies this
      ensures left == Saturating(old(left), bytes)
    {
      left := Saturating(left, bytes);
    }

    function Page(): (b: nat)
      reads this
      ensures b <= left && b <= PAGE_BUDGET_BYTES && (b == left || b == PAGE_BUDGET_BYTES)
    {
      if left < PAGE_BUDGET_BYTES then left else PAGE_BUDGET_BYTES
    }
  }

  // ----- the request and the world -------------------------------------------------------

  datatype Query = Query(resourceId: Id, page: Option<PageRequest>)

  datatype ErrorCode = InvalidRequest | Internal

  datatype Reply = Reply(observations: seq<Wire>, statuses: seq<Status>)

  /** What a reply depends on besides the request: configured wallets, the clock and the provider as
      the i-th query finds them, and serialized sizes (`cost` is an entry with its evidence). */
  datatype World = World(known: Id -> bool, clock: nat -> bool, sync: nat -> Result<Snapshot, Wallets.FetchError>,
                         sizes: Sizes, bare: Id -> nat, cost: (nat, Status) -> nat)

  function RequestIds(queries: seq<Query>): seq<Id> {
    seq(|queries|, i requires 0 <= i < |queries| => queries[i].resourceId)
  }

  /** Bytes a run of observations takes, each with its joining comma. */
  function Bytes(sz: Sizes, ws: seq<Wire>): nat {
    if ws == [] then 0 else Bytes(sz, ws[..|ws| - 1]) + sz.wire(ws[|ws| - 1]) + 1
  }

  lemma {:induction false} BytesConcat(sz: Sizes, a: seq<Wire>, b: seq<Wire>)
    ensures Bytes(sz, a + b) == Bytes(sz, a) + Bytes(sz, b)
  {
    if b == [] {
      assert a + b == a;
    } else {
      assert (a + b)[..|a + b| - 1] == a + b[..|b| - 1];
      BytesConcat(sz, a, b[..|b| - 1]);
    }
  }

  lemma {:induction false} KeptBytes(sz: Sizes, items: seq<Item>)
    ensures Bytes(sz, Kept(sz, items)) == Cost(sz, items)
  {
    if items != [] {
      var front, it := items[..|items| - 1], items[|items| - 1];
      KeptBytes(sz, front);
      if Omitted(sz, it) {
        assert Kept(sz, items) == Kept(sz, front);
      } else {
        assert Kept(sz, items)[..|Kept(sz, front)|] == Kept(sz, front);
      }
    }
  }

  /** A page never spends more than it was given, and says exactly what it spent. */
  lemma {:induction false} PageWithinBudget(sz: Sizes, plan: Plan, from: Option<Cursors.Cursor>, budget: nat)
    ensures var page := Cut(sz, plan, from, budget); Bytes(sz, page.observations) == page.bytes <= budget
  {
    KeptBytes(sz, plan.items[..Reach(sz, plan.items, budget, 0)]);
  }

  /** `no_repeats`. */
  method NoRepeats(ids: seq<Id>) returns (ok: bool)
    ensures ok <==> HostReads.NoRepeat(ids)
  {
    var seen: set<Id> := {};
    for i := 0 to |ids|
      invariant HostReads.NoRepeat(ids[..i]) && forall x :: x in seen <==> x in ids[..i]
    {
      assert ids[..i + 1] == ids[..i] + [ids[i]];
      if ids[i] in seen {
        ghost var k :| 0 <= k < i && ids[k] == ids[i];
        return false;
      }
      seen := seen + {ids[i]};
    }
    assert ids[..|ids|] == ids;
    ok := true;
  }

  // ----- one resource's share of the reply -----------------------------------------------

  function Text(page: Option<PageRequest>): Option<string> {
    if page.Some? && page.value.Cursor? then Some(page.value.cursor) else None
  }

  function EntryFor(id: Id, page: Page): Status {
    Status(id, Fetched, seq(|page.degraded|, i requires 0 <= i < |page.degraded| =>
                              Degraded(Some(page.degraded[i].localId), page.degraded[i].bytes)),
           Some(PageReply(Exact, if page.next.None? then None else Some(Cursor(Cursors.Encode(page.next.value))))))
  }

  /** The snapshot a query is served from: a cursor stays on the crawl in hand, anything else starts
      one. */
  ghost function ServedFrom(w: World, q: Query, i: nat, crawls: map<Id, Snapshot>): Option<Snapshot> {
    if q.page.Some? && q.resourceId in crawls then Some(crawls[q.resourceId])
    else if w.clock(i) && w.sync(i).Ok? then Some(w.sync(i).value)
    else None
  }

  predicate Malformed(q: Query) {
    q.page.Some? && (q.page.value.Window? || Cursors.Parse(q.page.value.cursor).None?)
  }

  /** The source refuses the query's sync because the wallet's provider is rate limiting. */
  predicate Limited(w: World, q: Query, i: nat, crawls: map<Id, Snapshot>) {
    && w.known(q.resourceId) && !(q.page.Some? && q.resourceId in crawls)
    && w.clock(i) && w.sync(i) == Err(Wallets.RateLimited)
  }

  /** The query makes the whole request fail: it is malformed; or the clock cannot be printed for the crawl it
      needs, or its plan cannot be made, and no rate limit came before it. */
  ghost predicate Fails(w: World, q: Query, i: nat, abandoned: bool, crawls: map<Id, Snapshot>) {
    || Malformed(q)
    || (&& w.known(q.resourceId) && !abandoned
        && (|| (!(q.page.Some? && q.resourceId in crawls) && !w.clock(i))
            || (var sn := ServedFrom(w, q, i, crawls);
                var from := if Text(q.page).Some? then Cursors.Parse(Text(q.page).value) else None;
                sn.Some? && MakePlan(sn.value, from).None?)))
  }

  /** Why a query came to no page. */
  function WithoutPage(w: World, q: Query, i: nat, abandoned: bool): Outcome {
    if !w.known(q.resourceId) || abandoned then NotFetched
    else if w.sync(i) == Err(Wallets.RateLimited) then RateLimited
    else Unavailable
  }

  /** What is left once the entry has paid for what it grew beyond its reservation. */
  function AfterEntry(w: World, i: nat, st: Status, left: nat): nat {
    Saturating(left, Saturating(w.cost(i, st.(degraded := [], page := None)), w.bare(st.resourceId) + PAGE_REPLY_BYTES))
  }

  /** What the i-th query comes to, with `left` bytes to spend: a page exactly when its wallet is known, no rate
      limit came before, and it has a crawl in hand for its cursor or its sync succeeds; and otherwise an
      entry that says why, with no page and no observation, and the crawls as they were. */
  ghost predicate ShareOk(w: World, q: Query, i: nat, abandoned: bool, left: nat, crawls: map<Id, Snapshot>,
                          crawls': map<Id, Snapshot>, st: Status, share: seq<Wire>) {
    && st.resourceId == q.resourceId
    && (st.page.Some? <==> w.known(q.resourceId) && !abandoned && ServedFrom(w, q, i, crawls).Some?)
    && (st.page.None? ==> share == [] && st == Status(q.resourceId, WithoutPage(w, q, i, abandoned), [], None)
                          && Untouched(q.resourceId, crawls, crawls'))
    && (st.page.Some? ==>
         PageShare(w, q, ServedFrom(w, q, i, crawls).value, PageBudget(AfterEntry(w, i, st, left)), crawls', st, share))
  }

  function PageBudget(left: nat): nat { if left < PAGE_BUDGET_BYTES then left else PAGE_BUDGET_BYTES }

  /** A page of `sn`; the snapshot is kept exactly while it has more to say. */
  ghost predicate PageShare(w: World, q: Query, sn: Snapshot, budget: nat, crawls': map<Id, Snapshot>, st: Status,
                            share: seq<Wire>) {
    var page := Serve(sn, w.sizes, Text(q.page), budget);
    && page.Some? && st == EntryFor(q.resourceId, page.value) && share == page.value.observations
    && (q.resourceId in crawls' <==> page.value.next.Some?)
    && (q.resourceId in crawls' ==> crawls'[q.resourceId] == sn)
  }

  function Flatten(shares: seq<seq<Wire>>): seq<Wire> {
    if shares == [] then [] else Flatten(shares[..|shares| - 1]) + shares[|shares| - 1]
  }

  /** An earlier query of the request was rate limited. */
  ghost predicate Abandoned(w: World, queries: seq<Query>, crawls: map<Id, Snapshot>, i: nat) {
    exists j :: 0 <= j < i <= |queries| && Limited(w, queries[j], j, crawls)
  }

  /** The bytes left before the i-th query: what the frame leaves after every reserved entry, less what the
      entries before it grew and the observations before it took. */
  function LeftBefore(w: World, queries: seq<Query>, statuses: seq<Status>, shares: seq<seq<Wire>>, i: nat): nat
    requires i <= |statuses| && i <= |shares|
  {
    if i == 0 then Saturating(MAX_FRAME_BYTES - ENVELOPE_BYTES, Reserved(w.bare, RequestIds(queries)))
    else
      Saturating(AfterEntry(w, i - 1, statuses[i - 1], LeftBefore(w, queries, statuses, shares, i - 1)),
                 Bytes(w.sizes, shares[i - 1]))
  }

  /** The statuses name the requested ids once each in request order; the observations are the queries' shares,
      each with its own entry and within its own budget. */
  ghost predicate ReplyOk(w: World, queries: seq<Query>, crawls: map<Id, Snapshot>, crawls': map<Id, Snapshot>,
                          reply: Reply, shares: seq<seq<Wire>>) {
    && HostReads.Ids(reply.statuses) == RequestIds(queries) && HostReads.NoRepeat(RequestIds(queries))
    && |reply.statuses| == |shares| == |queries| && reply.observations == Flatten(shares)
    && forall i :: 0 <= i < |queries| ==> KthOk(w, queries, i, crawls, crawls', reply.statuses, shares)
  }

  /** The i-th query is the first that makes the request fail. */
  ghost predicate FailsFirst(w: World, queries: seq<Query>, crawls: map<Id, Snapshot>, i: nat) {
    && i < |queries| && Fails(w, queries[i], i, Abandoned(w, queries, crawls, i), crawls)
    && forall j :: 0 <= j < i ==> !Fails(w, queries[j], j, Abandoned(w, queries, crawls, j), crawls)
  }

  class Adapter {
    /** One point-in-time snapshot per resource being paged. */
    var crawls: map<Id, Snapshot>

    constructor ()
      ensures crawls == map[]
    {
      crawls := map[];
    }

    /** An entry that claims no page pays for what it grew. */
    method EntryOnly(w: World, q: Query, i: nat, budget: Budget, outcome: Outcome) returns (st: Status)
      modifies budget
      ensures st == Status(q.resourceId, outcome, [], None)
      ensures budget.left == AfterEntry(w, i, st, old(budget.left)) <= old(budget.left)
    {
      st := Status(q.resourceId, outcome, [], None);
      budget.Charge(w.bare, q.resourceId, w.cost(i, st));
      assert st.(degraded := [], page := None) == st;
    }

    /** One query; on error the whole request fails. */
    method ReadOne(w: World, q: Query, i: nat, budget: Budget, abandoned: bool)
        returns (r: Result<(Status, seq<Wire>), ErrorCode>, abandon: bool)
      modifies this, budget
      ensures forall id :: id != q.resourceId ==> (id in crawls <==> id in old(crawls))
      ensures forall id :: id != q.resourceId && id in crawls ==> crawls[id] == old(crawls)[id]
      ensures OneDone(w, q, i, abandoned, old(budget.left), old(crawls), r, budget.left, crawls, abandon)
    {
      abandon := abandoned;
      var from := None;
      if q.page.Some? {
        if q.page.value.Window? { return Err(InvalidRequest), abandon; }
        from := Cursors.Parse(q.page.value.cursor);
        if from.None? { return Err(InvalidRequest), abandon; }
      }
      ghost var left, before := budget.left, crawls;
      var id := q.resourceId;
      if !w.known(id) || abandoned {
        var st := EntryOnly(w, q, i, budget, NotFetched);
        EntryDone(w, q, i, abandoned, left, before, st, budget.left, abandon);
        return Ok((st, [])), abandon;
      }
      if from.None? || id !in crawls {
        if !w.clock(i) { return Err(Internal), abandon; }
        var failure := StartCrawl(w, q, i);
        if failure.Some? {
          var st := EntryOnly(w, q, i, budget, if failure.value.RateLimited? then RateLimited else Unavailable);
          abandon := abandon || failure.value.RateLimited?;
          EntryDone(w, q, i, abandoned, left, before, st, budget.left, abandon);
          return Ok((st, [])), abandon;
        }
      }
      var entry := EntryOnly(w, q, i, budget, Fetched);
      var page := PageFrom(w, q, budget, crawls[id], from);
      r := if page.None? then Err(Internal) else Ok((EntryFor(id, page.value), page.value.observations));
      PageDone(w, q, i, left, before, from, page, budget.left, crawls);
    }

    /** A new crawl takes the place of any in hand, unless its sync fails. */
    method StartCrawl(w: World, q: Query, i: nat) returns (failure: Option<Wallets.FetchError>)
      modifies this
      ensures w.sync(i).Ok? <==> failure.None?
      ensures failure.Some? ==> w.sync(i) == Err(failure.value) && crawls == old(crawls)
      ensures failure.None? ==> crawls == old(crawls)[q.resourceId := w.sync(i).value]
    {
      var fetched := w.sync(i);
      if fetched.Err? { return Some(fetched.error); }
      crawls := crawls[q.resourceId := fetched.value];
      failure := None;
    }

    /** The page of a crawl in hand, if its plan can be made; a drained crawl is given up. */
    method PageFrom(w: World, q: Query, budget: Budget, sn: Snapshot, from: Option<Cursors.Cursor>)
        returns (page: Option<Page>)
      requires from == (if Text(q.page).Some? then Cursors.Parse(Text(q.page).value) else None)
      requires Text(q.page).Some? ==> from.Some?
      requires q.resourceId in crawls && crawls[q.resourceId] == sn
      modifies this, budget
      ensures forall id :: id != q.resourceId ==> (id in crawls <==> id in old(crawls))
      ensures forall id :: id != q.resourceId && id in crawls ==> crawls[id] == old(crawls)[id]
      ensures page == Serve(sn, w.sizes, Text(q.page), PageBudget(old(budget.left)))
      ensures page.Some? <==> MakePlan(sn, from).Some?
      ensures page.Some? ==>
                && budget.left == Saturating(old(budget.left), Bytes(w.sizes, page.value.observations))
                && Bytes(w.sizes, page.value.observations) + budget.left <= old(budget.left)
                && PageShare(w, q, sn, PageBudget(old(budget.left)), crawls, EntryFor(q.resourceId, page.value),
                             page.value.observations)
    {
      var plan := BuildPlan(sn, from);
      if plan.None? { return None; }
      var allowed := budget.Page();
      var cut := CutPage(w.sizes, plan.value, from, allowed);
      PageWithinBudget(w.sizes, plan.value, from, allowed);
      budget.Spend(cut.bytes);
      if cut.next.None? { crawls := crawls - {q.resourceId}; }
      page := Some(cut);
    }

    /** `history_read`: it fails exactly when a resource is named twice or a query fails it, by the first that
        does; otherwise each requested resource gets its share and its own entry, in request order, and all
        observations together stay within what the frame leaves after every reserved entry. */
    method HistoryRead(w: World, queries: seq<Query>)
        returns (r: Result<Reply, ErrorCode>, ghost shares: seq<seq<Wire>>)
      modifies this
      ensures r.Ok? ==> ReplyOk(w, queries, old(crawls), crawls, r.value, shares)
      ensures r.Ok? ==> Bytes(w.sizes, r.value.observations)
                        <= Saturating(MAX_FRAME_BYTES - ENVELOPE_BYTES, Reserved(w.bare, RequestIds(queries)))
      ensures r.Ok? ==> forall i :: 0 <= i < |queries| ==>
                !Fails(w, queries[i], i, Abandoned(w, queries, old(crawls), i), old(crawls))
      ensures r.Err? && HostReads.NoRepeat(RequestIds(queries)) ==>
                exists i: nat :: FailsFirst(w, queries, old(crawls), i)
                            && r.error == if Malformed(queries[i]) then InvalidRequest else Internal
      ensures !HostReads.NoRepeat(RequestIds(queries)) ==> r == Err(InvalidRequest)
    {
      var unique := NoRepeats(RequestIds(queries));
      shares := [];
      if !unique { return Err(InvalidRequest), shares; }
      var budget := new Budget();
      budget.Reserve(w.bare, RequestIds(queries));
      ghost var total := budget.left;
      var observations: seq<Wire> := [];
      var statuses: seq<Status> := [];
      var abandoned := false;
      for i := 0 to |queries|
        invariant fresh(budget) && Bytes(w.sizes, observations) + budget.left <= total
        invariant observations == Flatten(shares)
        invariant Served(w, queries, i, old(crawls), crawls, statuses, shares)
        invariant budget.left == LeftBefore(w, queries, statuses, shares, i)
        invariant abandoned <==> Abandoned(w, queries, old(crawls), i)
        invariant NoneFailed(w, queries, i, old(crawls))
      {
        ghost var before := crawls;
        SameQuery(w, queries[i], i, abandoned, old(crawls), crawls);
        var one, abandon := ReadOne(w, queries[i], i, budget, abandoned);
        if one.Err? {
          assert FailsFirst(w, queries, old(crawls), i);
          return Err(one.error), shares;
        }
        OneMoreServed(w, queries, i, old(crawls), before, crawls, statuses, shares, one.value.0, one.value.1);
        AbandonedOn(w, queries, old(crawls), i);
        abandoned := abandon;
        BytesConcat(w.sizes, observations, one.value.1);
        observations := observations + one.value.1;
        statuses := statuses + [one.value.0];
        shares := shares + [one.value.1];
        assert shares[..i] + [one.value.1] == shares;
      }
      IdsServed(w, queries, old(crawls), crawls, statuses, shares);
      r := Ok(Reply(observations, statuses));
    }
  }

  ghost predicate Untouched(id: Id, crawls: map<Id, Snapshot>, crawls': map<Id, Snapshot>) {
    (id in crawls' <==> id in crawls) && (id in crawls ==> crawls'[id] == crawls[id])
  }

  /** What one query comes to: an error exactly when it makes the request fail, and otherwise its share, the
      bytes it leaves, and whether later queries are still to be read. */
  ghost predicate OneDone(w: World, q: Query, i: nat, abandoned: bool, left: nat, crawls: map<Id, Snapshot>,
                          r: Result<(Status, seq<Wire>), ErrorCode>, left': nat, crawls': map<Id, Snapshot>,
                          abandon: bool) {
    && (r.Err? <==> Fails(w, q, i, abandoned, crawls))
    && (r.Err? ==> r.error == if Malformed(q) then InvalidRequest else Internal)
    && (r.Ok? ==>
         var (st, share) := r.value;
         && ShareOk(w, q, i, abandoned, left, crawls, crawls', st, share)
         && left' == Saturating(AfterEntry(w, i, st, left), Bytes(w.sizes, share))
         && Bytes(w.sizes, share) + left' <= left
         && (abandon <==> abandoned || Limited(w, q, i, crawls)))
  }

  /** An entry that claims no page is all a query comes to when its wallet is unknown, a rate limit came before
      it, or its sync fails. */
  lemma {:induction false} EntryDone(w: World, q: Query, i: nat, abandoned: bool, left: nat, crawls: map<Id, Snapshot>,
                                     st: Status, left': nat, abandon: bool)
    requires !Malformed(q) && left' == AfterEntry(w, i, st, left) <= left
    requires st == Status(q.resourceId, WithoutPage(w, q, i, abandoned), [], None)
    requires || !w.known(q.resourceId) || abandoned
             || (!(q.page.Some? && q.resourceId in crawls) && w.clock(i) && w.sync(i).Err?)
    requires abandon <==> abandoned || Limited(w, q, i, crawls)
    ensures OneDone(w, q, i, abandoned, left, crawls, Ok((st, [])), left', crawls, abandon)
  {
  }

  /** Otherwise it comes to a page of its crawl, or its plan cannot be made. */
  lemma {:induction false} PageDone(w: World, q: Query, i: nat, left: nat, crawls: map<Id, Snapshot>,
                                    from: Option<Cursors.Cursor>, page: Option<Page>, left': nat,
                                    crawls': map<Id, Snapshot>)
    requires !Malformed(q) && w.known(q.resourceId) && ServedFrom(w, q, i, crawls).Some?
    requires (q.page.Some? && q.resourceId in crawls) || (w.clock(i) && w.sync(i).Ok?)
    requires from == (if Text(q.page).Some? then Cursors.Parse(Text(q.page).value) else None)
    requires page.Some? <==> MakePlan(ServedFrom(w, q, i, crawls).value, from).Some?
    requires page.Some? ==>
               var st := EntryFor(q.resourceId, page.value);
               && PageShare(w, q, ServedFrom(w, q, i, crawls).value, PageBudget(AfterEntry(w, i, st, left)), crawls',
                            st, page.value.observations)
               && left' == Saturating(AfterEntry(w, i, st, left), Bytes(w.sizes, page.value.observations))
               && Bytes(w.sizes, page.value.observations) + left' <= left
    ensures OneDone(w, q, i, false, left, crawls,
                    if page.None? then Err(Internal)
                    else Ok((EntryFor(q.resourceId, page.value), page.value.observations)), left', crawls', false)
  {
  }

  ghost predicate NoneFailed(w: World, queries: seq<Query>, i: nat, crawls: map<Id, Snapshot>) {
    i <= |queries| && forall j :: 0 <= j < i ==> !Fails(w, queries[j], j, Abandoned(w, queries, crawls, j), crawls)
  }

  lemma {:induction false} AbandonedOn(w: World, queries: seq<Query>, crawls: map<Id, Snapshot>, i: nat)
    requires i < |queries|
    ensures Abandoned(w, queries, crawls, i + 1) <==>
            Abandoned(w, queries, crawls, i) || Limited(w, queries[i], i, crawls)
  {
  }

  /** What a query comes to depends on its own crawl only. */
  lemma {:induction false} SameQuery(w: World, q: Query, i: nat, abandoned: bool, crawls: map<Id, Snapshot>,
                                     mid: map<Id, Snapshot>)
    requires Untouched(q.resourceId, crawls, mid)
    ensures ServedFrom(w, q, i, crawls) == ServedFrom(w, q, i, mid)
    ensures Limited(w, q, i, crawls) <==> Limited(w, q, i, mid)
    ensures Fails(w, q, i, abandoned, crawls) <==> Fails(w, q, i, abandoned, mid)
  {
  }

  /** Serving other resources afterwards does not disturb a share. */
  lemma {:induction false} ShareKept(w: World, q: Query, i: nat, abandoned: bool, left: nat, crawls: map<Id, Snapshot>,
                                     mid: map<Id, Snapshot>, crawls': map<Id, Snapshot>, st: Status,
                                     share: seq<Wire>)
    requires ShareOk(w, q, i, abandoned, left, crawls, mid, st, share) && Untouched(q.resourceId, mid, crawls')
    ensures ShareOk(w, q, i, abandoned, left, crawls, crawls', st, share)
  {
  }

  /** Nor does serving other resources before it. */
  lemma {:induction false} ShareFrom(w: World, q: Query, i: nat, abandoned: bool, left: nat, crawls: map<Id, Snapshot>,
                                     mid: map<Id, Snapshot>, crawls': map<Id, Snapshot>, st: Status,
                                     share: seq<Wire>)
    requires ShareOk(w, q, i, abandoned, left, mid, crawls', st, share) && Untouched(q.resourceId, crawls, mid)
    ensures ShareOk(w, q, i, abandoned, left, crawls, crawls', st, share)
  {
    SameQuery(w, q, i, abandoned, crawls, mid);
  }

  ghost predicate KthOk(w: World, queries: seq<Query>, k: nat, crawls: map<Id, Snapshot>, crawls': map<Id, Snapshot>,
                        statuses: seq<Status>, shares: seq<seq<Wire>>) {
    && k < |queries| && k < |statuses| == |shares|
    && ShareOk(w, queries[k], k, Abandoned(w, queries, crawls, k), LeftBefore(w, queries, statuses, shares, k), crawls,
               crawls', statuses[k], shares[k])
  }

  /** The first `i` queries are served; the snapshots of the others are as they were. */
  ghost predicate Served(w: World, queries: seq<Query>, i: nat, crawls: map<Id, Snapshot>, crawls': map<Id, Snapshot>,
                         statuses: seq<Status>, shares: seq<seq<Wire>>) {
    && i <= |queries| && |statuses| == |shares| == i
    && (forall k :: 0 <= k < i ==> KthOk(w, queries, k, crawls, crawls', statuses, shares))
    && (forall k :: i <= k < |queries| ==> Untouched(queries[k].resourceId, crawls, crawls'))
  }

  lemma {:induction false} IdsServed(w: World, queries: seq<Query>, crawls: map<Id, Snapshot>,
                                     crawls': map<Id, Snapshot>, statuses: seq<Status>, shares: seq<seq<Wire>>)
    requires Served(w, queries, |queries|, crawls, crawls', statuses, shares)
    ensures HostReads.Ids(statuses) == RequestIds(queries)
  {
    forall k | 0 <= k < |queries| ensures statuses[k].resourceId == queries[k].resourceId {
      assert KthOk(w, queries, k, crawls, crawls', statuses, shares);
    }
  }

  ghost predicate Elsewhere(id: Id, crawls: map<Id, Snapshot>, crawls': map<Id, Snapshot>) {
    forall other: Id :: other != id ==> Untouched(other, crawls, crawls')
  }

  lemma {:induction false} LeftStays(w: World, queries: seq<Query>, statuses: seq<Status>, shares: seq<seq<Wire>>,
                                     st: Status, share: seq<Wire>, k: nat)
    requires k <= |statuses| == |shares|
    ensures LeftBefore(w, queries, statuses + [st], shares + [share], k) == LeftBefore(w, queries, statuses, shares, k)
  {
    if k > 0 { LeftStays(w, queries, statuses, shares, st, share, k - 1); }
  }

  lemma {:induction false} EarlierKept(w: World, queries: seq<Query>, i: nat, crawls: map<Id, Snapshot>,
                                       mid: map<Id, Snapshot>, crawls': map<Id, Snapshot>, statuses: seq<Status>,
                                       shares: seq<seq<Wire>>, st: Status, share: seq<Wire>, k: nat)
    requires Served(w, queries, i, crawls, mid, statuses, shares) && k < i
    requires Untouched(queries[k].resourceId, mid, crawls')
    ensures KthOk(w, queries, k, crawls, crawls', statuses + [st], shares + [share])
  {
    LeftStays(w, queries, statuses, shares, st, share, k);
    assert KthOk(w, queries, k, crawls, mid, statuses, shares);
    ShareKept(w, queries[k], k, Abandoned(w, queries, crawls, k), LeftBefore(w, queries, statuses, shares, k), crawls,
              mid, crawls', statuses[k], shares[k]);
  }

  lemma {:induction false} NewestOk(w: World, queries: seq<Query>, i: nat, crawls: map<Id, Snapshot>,
                                    mid: map<Id, Snapshot>, crawls': map<Id, Snapshot>, statuses: seq<Status>,
                                    shares: seq<seq<Wire>>, st: Status, share: seq<Wire>)
    requires Served(w, queries, i, crawls, mid, statuses, shares) && i < |queries|
    requires ShareOk(w, queries[i], i, Abandoned(w, queries, crawls, i), LeftBefore(w, queries, statuses, shares, i),
                     mid, crawls', st, share)
    ensures KthOk(w, queries, i, crawls, crawls', statuses + [st], shares + [share])
    ensures LeftBefore(w, queries, statuses + [st], shares + [share], i + 1)
            == Saturating(AfterEntry(w, i, st, LeftBefore(w, queries, statuses, shares, i)), Bytes(w.sizes, share))
  {
    LeftStays(w, queries, statuses, shares, st, share, i);
    ShareFrom(w, queries[i], i, Abandoned(w, queries, crawls, i), LeftBefore(w, queries, statuses, shares, i), crawls,
              mid, crawls', st, share);
  }

  lemma {:induction false} OneMoreServed(w: World, queries: seq<Query>, i: nat, crawls: map<Id, Snapshot>,
                                         mid: map<Id, Snapshot>, crawls': map<Id, Snapshot>, statuses: seq<Status>,
                                         shares: seq<seq<Wire>>, st: Status, share: seq<Wire>)
    requires HostReads.NoRepeat(RequestIds(queries)) && i < |queries|
    requires Served(w, queries, i, crawls, mid, statuses, shares)
    requires ShareOk(w, queries[i], i, Abandoned(w, queries, crawls, i), LeftBefore(w, queries, statuses, shares, i),
                     mid, crawls', st, share)
    requires Elsewhere(queries[i].resourceId, mid, crawls')
    ensures Served(w, queries, i + 1, crawls, crawls', statuses + [st], shares + [share])
    ensures LeftBefore(w, queries, statuses + [st], shares + [share], i + 1)
            == Saturating(AfterEntry(w, i, st, LeftBefore(w, queries, statuses, shares, i)), Bytes(w.sizes, share))
  {
    var ids := RequestIds(queries);
    forall k | 0 <= k < |queries| && k != i ensures Untouched(queries[k].resourceId, mid, crawls') {
      assert ids[k] != ids[i];
    }
    NewestOk(w, queries, i, crawls, mid, crawls', statuses, shares, st, share);
    forall k | 0 <= k < i ensures KthOk(w, queries, k, crawls, crawls', statuses + [st], shares + [share]) {
      EarlierKept(w, queries, i, crawls, mid, crawls', statuses, shares, st, share, k);
    }
  }

  /** A request for one resource, as a sweep sends it, has the whole of a page's cap to spend, which affords any
      one observation, whenever the resource's id leaves room for it and its entry carries no evidence. */
  lemma {:induction false} OneQueryAffords(w: World, q: Query, st: Status, share: seq<Wire>)
    requires st.resourceId == q.resourceId
    requires w.bare(q.resourceId) + PAGE_REPLY_BYTES + PAGE_BUDGET_BYTES <= MAX_FRAME_BYTES - ENVELOPE_BYTES
    requires w.cost(0, st.(degraded := [], page := None)) <= w.bare(q.resourceId) + PAGE_REPLY_BYTES
    ensures PageBudget(AfterEntry(w, 0, st, LeftBefore(w, [q], [st], [share], 0))) == PAGE_BUDGET_BYTES
    ensures PAGE_BUDGET_BYTES > MAX_OBSERVATION_BYTES
  {
    var ids := RequestIds([q]);
    assert ids == [q.resourceId] && ids[..0] == [];
    assert Reserved(w.bare, ids) == w.bare(q.resourceId) + PAGE_REPLY_BYTES;
  }

  /** Such statuses always pass the host's coverage check. */
  lemma {:induction false} ReplyIsCovered(queries: seq<Query>, statuses: seq<Status>)
    requires HostReads.Ids(statuses) == RequestIds(queries) && HostReads.NoRepeat(RequestIds(queries))
    ensures HostReads.Covers(RequestIds(queries), statuses)
  {
    forall i | 0 <= i < |queries| ensures RequestIds(queries)[i] in HostReads.Ids(statuses) {
      assert HostReads.Ids(statuses)[i] == RequestIds(queries)[i];
    }
  }

  // ----- the line on the wire ------------------------------------------------------------

  function ErrorLine(id: nat, bytes: nat): string {
    "{\"id\":" + Digits.Decimal(id) + ",\"err\":{\"code\":\"internal\",\"message\":\"this reply is "
    + Digits.Decimal(bytes) + " bytes and MAX_FRAME_BYTES is 1048576; ask for fewer resources per request\"}}"
  }

  /** `write_reply`: an over-sized reply is answered with an error addressed to the same id. */
  function WriteReply(id: nat, line: string): string {
    (if |line| > MAX_FRAME_BYTES then ErrorLine(id, |line|) else line) + "\n"
  }

  lemma {:induction false} TwentyDigits(n: nat)
    requires n < U64
    ensures |Digits.Decimal(n)| <= 20
  {
    assert Digits.Pow10(20) == 100000000000000000000 by {
      Digits.Pow10Sum(10, 10);
      Digits.Pow10Sum(5, 5);
      assert Digits.Pow10(5) == 100000;
    }
    Digits.DecimalLength(n, 20);
  }

  /** No written line is longer than a frame and its LF; a reply that fits is written unchanged, and in place of
      any other an error is, addressed to the same id. */
  lemma {:induction false} LineFits(id: nat, line: string)
    requires id < U64 && |line| < U64
    ensures |WriteReply(id, line)| <= MAX_FRAME_BYTES + 1
    ensures |line| <= MAX_FRAME_BYTES <==> WriteReply(id, line) == line + "\n"
    ensures |line| > MAX_FRAME_BYTES ==>
              "{\"id\":" + Digits.Decimal(id) + ",\"err\":{\"code\":\"internal\"" <= WriteReply(id, line)
    ensures Digits.Value(Digits.Decimal(id)) == id
  {
    TwentyDigits(id);
    TwentyDigits(|line|);
    Digits.DecimalValue(id);
    if |line| > MAX_FRAME_BYTES {
      assert |ErrorLine(id, |line|)| <= 200;
    }
  }

  // ----- what one reply may spend, and what stays between two ----------------------------

  /** What an entry grew beyond its reservation. */
  function Excess(w: World, i: nat, st: Status): nat {
    Saturating(w.cost(i, st.(degraded := [], page := None)), w.bare(st.resourceId) + PAGE_REPLY_BYTES)
  }

  /** What the entries before the i-th grew and the observations before it took. */
  function SpentBefore(w: World, statuses: seq<Status>, shares: seq<seq<Wire>>, i: nat): nat
    requires i <= |statuses| && i <= |shares|
  {
    if i == 0 then 0
    else SpentBefore(w, statuses, shares, i - 1) + Excess(w, i - 1, statuses[i - 1]) + Bytes(w.sizes, shares[i - 1])
  }

  lemma {:induction false} LeftIsUnspent(w: World, queries: seq<Query>, statuses: seq<Status>, shares: seq<seq<Wire>>,
                                         i: nat)
    requires i <= |statuses| && i <= |shares| && LeftBefore(w, queries, statuses, shares, i) > 0
    ensures LeftBefore(w, queries, statuses, shares, i) + SpentBefore(w, statuses, shares, i)
            + Reserved(w.bare, RequestIds(queries)) == MAX_FRAME_BYTES - ENVELOPE_BYTES
  {
    if i > 0 { LeftIsUnspent(w, queries, statuses, shares, i - 1); }
  }

  lemma {:induction false} PageFits(w: World, q: Query, sn: Snapshot, budget: nat, crawls': map<Id, Snapshot>,
                                    st: Status, share: seq<Wire>)
    requires PageShare(w, q, sn, budget, crawls', st, share)
    ensures Bytes(w.sizes, share) <= budget
  {
    var from := if Text(q.page).Some? then Cursors.Parse(Text(q.page).value) else None;
    PageWithinBudget(w.sizes, MakePlan(sn, from).value, from, budget);
  }

  /** No observation is shown at the expense of an entry: whenever a query shows any, the reservations of every
      entry of the reply, what the entries up to its own grew beyond theirs, and all observations so far
      fit what the envelope leaves of a frame. */
  lemma {:induction false} EntriesComeFirst(w: World, queries: seq<Query>, crawls: map<Id, Snapshot>,
                                            crawls': map<Id, Snapshot>, reply: Reply, shares: seq<seq<Wire>>, i: nat)
    requires ReplyOk(w, queries, crawls, crawls', reply, shares) && i < |queries| && shares[i] != []
    ensures Reserved(w.bare, RequestIds(queries)) + SpentBefore(w, reply.statuses, shares, i + 1)
            <= MAX_FRAME_BYTES - ENVELOPE_BYTES
  {
    assert KthOk(w, queries, i, crawls, crawls', reply.statuses, shares);
    var left, st := LeftBefore(w, queries, reply.statuses, shares, i), reply.statuses[i];
    PageFits(w, queries[i], ServedFrom(w, queries[i], i, crawls).value, PageBudget(AfterEntry(w, i, st, left)), crawls',
             st, shares[i]);
    assert Bytes(w.sizes, shares[i]) > 0;
    LeftIsUnspent(w, queries, reply.statuses, shares, i);
  }

  /** The page asks for nothing more: the reader is done. */
  predicate LastPage(st: Status) { st.page.Some? && st.page.value.next.None? }

  /** A reader that sends back the cursor of its last page is served from the very snapshot that page was, whatever
      the provider would say now; one that starts over, or whose crawl is drained, is served from a new
      sync. */
  lemma {:induction false} CursorStaysOnItsCrawl(w: World, queries: seq<Query>, crawls: map<Id, Snapshot>,
                                                 mid: map<Id, Snapshot>, reply: Reply, shares: seq<seq<Wire>>, i: nat,
                                                 w': World, q': Query, i': nat)
    requires ReplyOk(w, queries, crawls, mid, reply, shares) && i < |queries| && reply.statuses[i].page.Some?
    requires q'.resourceId == queries[i].resourceId
    ensures ServedFrom(w, queries[i], i, crawls).Some?
    ensures q'.page.Some? && !LastPage(reply.statuses[i]) ==>
              ServedFrom(w', q', i', mid) == ServedFrom(w, queries[i], i, crawls)
    ensures q'.page.None? || LastPage(reply.statuses[i]) ==>
              ServedFrom(w', q', i', mid)
              == if w'.clock(i') && w'.sync(i').Ok? then Some(w'.sync(i').value) else None
  {
    assert KthOk(w, queries, i, crawls, mid, reply.statuses, shares);
  }
}
