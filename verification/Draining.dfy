/** Reading one snapshot page by page: the pages are the whole plan, in order and once. */
module Draining {
  import opened Base
  import opened Cursors
  import opened Planning
  import opened Paging

  /** One page request, cursor text in, page out; `None` is an error reply. */
  function Serve(sn: Snapshot, sz: Sizes, request: Option<string>, budget: nat): Option<Page> {
    var from := if request.Some? then Parse(request.value) else None;
    if request.Some? && from.None? then None
    else
      var plan := MakePlan(sn, from);
      if plan.None? then None else Some(Cut(sz, plan.value, from, budget))
  }

  function TextOf(next: Option<Cursor>): Option<string> {
    if next.Some? then Some(Encode(next.value)) else None
  }

  function Request(start: Option<Cursor>, pages: seq<Page>): Option<Cursor> {
    if pages == [] then start else pages[|pages| - 1].next
  }

  /** There is another page to ask for. */
  predicate Open(pages: seq<Page>) { pages == [] || pages[|pages| - 1].next.Some? }

  /** A page server: the cursor asked from, if any, and the page's budget. */
  type Server = (Option<Cursor>, nat) -> Option<Page>

  /** The adapter, asked in text. */
  function Adapter(sn: Snapshot, sz: Sizes): Server {
    (from: Option<Cursor>, budget: nat) => Serve(sn, sz, TextOf(from), budget)
  }

  /** `pages` answers successive requests, each sending back the cursor of the page before it. */
  predicate Session(serve: Server, start: Option<Cursor>, budgets: seq<nat>, pages: seq<Page>)
    decreases |pages|
  {
    && |pages| == |budgets|
    && (pages == [] ||
        var front := pages[..|pages| - 1];
        && Session(serve, start, budgets[..|budgets| - 1], front)
        && Open(front)
        && serve(Request(start, front), budgets[|budgets| - 1]) == Some(pages[|pages| - 1]))
  }

  /** Every page may spend what any one observation costs. */
  predicate Roomy(budgets: seq<nat>) { forall i :: 0 <= i < |budgets| ==> budgets[i] >= MAX_OBSERVATION_BYTES + 1 }

  function Emitted(pages: seq<Page>): seq<Wire> {
    if pages == [] then [] else Emitted(pages[..|pages| - 1]) + pages[|pages| - 1].observations
  }

  // ----- one page ------------------------------------------------------------------------

  lemma {:induction false} KeptConcat(sz: Sizes, a: seq<Item>, b: seq<Item>)
    ensures Kept(sz, a + b) == Kept(sz, a) + Kept(sz, b)
  {
    if b == [] {
      assert a + b == a;
    } else {
      KeptConcat(sz, a, b[..|b| - 1]);
      assert (a + b)[..|a + b| - 1] == a + b[..|b| - 1];
    }
  }

  lemma {:induction false} KeptUpToLast(sz: Sizes, items: seq<Item>)
    ensures Kept(sz, items) == Kept(sz, items[..LastKept(sz, items)])
  {
    if items == [] {
    } else if Omitted(sz, items[|items| - 1]) {
      var front := items[..|items| - 1];
      KeptUpToLast(sz, front);
      assert items[..LastKept(sz, items)] == front[..LastKept(sz, front)];
    } else {
      assert items[..|items|] == items;
    }
  }

  lemma {:induction false} CostOfOmitted(sz: Sizes, items: seq<Item>)
    requires LastKept(sz, items) == 0
    ensures Cost(sz, items) == 0
  {
    if items != [] {
      CostOfOmitted(sz, items[..|items| - 1]);
    }
  }

  /** A budget that affords any one observation makes progress on every page it cuts. */
  lemma {:induction false} CutEmits(sz: Sizes, items: seq<Item>, budget: nat, n: nat)
    requires Affords(sz, items, budget, n) && n < |items| && budget > MAX_OBSERVATION_BYTES
    ensures LastKept(sz, items[..n]) > 0
  {
    if LastKept(sz, items[..n]) == 0 {
      CostOfOmitted(sz, items[..n]);
      OneMore(sz, items, n);
    }
  }

  ghost predicate Names(degraded: seq<Named>, id: string) {
    exists i :: 0 <= i < |degraded| && degraded[i].localId == id
  }

  lemma {:induction false} OmittedIsNamed(sz: Sizes, items: seq<Item>, i: nat)
    requires i < |items| && Omitted(sz, items[i])
    ensures Names(Degrades(sz, items), items[i].obs.localId)
  {
    var front := items[..|items| - 1];
    if i < |front| {
      OmittedIsNamed(sz, front, i);
      var k :| 0 <= k < |Degrades(sz, front)| && Degrades(sz, front)[k].localId == items[i].obs.localId;
      assert Degrades(sz, items)[k] == Degrades(sz, front)[k];
    } else {
      assert Degrades(sz, items)[|Degrades(sz, front)|].localId == items[i].obs.localId;
    }
  }

  /** From position `n` a page shows items `n..end`; the next request stands at `to`. */
  ghost predicate Advances(sz: Sizes, whole: Plan, n: nat, page: Page, end: nat, to: nat) {
    && n <= to <= end <= |whole.items|
    && page.observations == Kept(sz, whole.items[n..to])
    && page.degraded == Degrades(sz, whole.items[n..end])
    && if page.next.None? then to == end == |whole.items| else At(whole, page.next, to)
  }

  lemma {:induction false} PageAdvances(sz: Sizes, whole: Plan, from: Option<Cursor>, n: nat, budget: nat)
      returns (end: nat, to: nat)
    requires At(whole, from, n)
    ensures Advances(sz, whole, n, Cut(sz, Plan(whole.items[n..], whole.highWater), from, budget), end, to)
    ensures budget > MAX_OBSERVATION_BYTES ==>
              Cut(sz, Plan(whole.items[n..], whole.highWater), from, budget).next.Some? ==> to > n
  {
    var rest := whole.items[n..];
    var m := Reach(sz, rest, budget, 0);
    end := n + m;
    assert rest[..m] == whole.items[n..end];
    if m == |rest| {
      to := end;
    } else {
      var k := LastKept(sz, rest[..m]);
      to := n + k;
      KeptUpToLast(sz, rest[..m]);
      assert rest[..m][..k] == whole.items[n..to];
      if budget > MAX_OBSERVATION_BYTES { CutEmits(sz, rest, budget, m); }
      if k > 0 {
        assert rest[..m][k - 1] == whole.items[to - 1];
      }
    }
  }

  lemma {:induction false} WellFormedAt(sn: Snapshot, whole: Plan, from: Cursor, n: nat)
    requires Whole(sn, whole) && At(whole, Some(from), n)
    ensures from.WellFormed()
  {
    PlanIsStillDue(sn, None);
    TopBounds(sn.txs, (0, ""));
    if n > 0 {
      var due := DueList(sn, None);
      assert due[n - 1] in due;
      assert StillDue(sn, None, due[n - 1]);
    }
  }

  /** Every cursor a reader can stand at survives its trip over the wire as text. */
  lemma {:induction false} IssuedCursorParses(sn: Snapshot, whole: Plan, from: Option<Cursor>, n: nat)
    requires Whole(sn, whole) && At(whole, from, n) && from.Some?
    ensures Parse(Encode(from.value)) == from
  {
    WellFormedAt(sn, whole, from.value, n);
    ParseEncode(from.value);
  }

  /** A snapshot whose whole plan can be made, and that plan. */
  ghost predicate Whole(sn: Snapshot, whole: Plan) { SnapshotOk(sn) && MakePlan(sn, None) == Some(whole) }

  lemma {:induction false} ServeIs(sn: Snapshot, sz: Sizes, whole: Plan, from: Option<Cursor>, n: nat, budget: nat)
    requires Whole(sn, whole) && At(whole, from, n)
    ensures Serve(sn, sz, TextOf(from), budget) == Some(Cut(sz, Plan(whole.items[n..], whole.highWater), from, budget))
  {
    if from.Some? { IssuedCursorParses(sn, whole, from, n); }
    PlanResumes(sn, whole, from, n);
  }

  /** Serving a reader who stands at `n`. */
  lemma {:induction false} ServeAdvances(sn: Snapshot, sz: Sizes, whole: Plan, from: Option<Cursor>, n: nat,
                                         budget: nat)
      returns (page: Page, end: nat, to: nat)
    requires Whole(sn, whole) && At(whole, from, n)
    ensures Serve(sn, sz, TextOf(from), budget) == Some(page)
    ensures Advances(sz, whole, n, page, end, to)
    ensures budget > MAX_OBSERVATION_BYTES && page.next.Some? ==> to > n
  {
    ServeIs(sn, sz, whole, from, n, budget);
    page := Cut(sz, Plan(whole.items[n..], whole.highWater), from, budget);
    end, to := PageAdvances(sz, whole, from, n, budget);
  }

  /** Everything the adapter would still emit from a cursor. */
  function Remaining(sn: Snapshot, sz: Sizes, from: Option<Cursor>): seq<Wire> {
    var plan := MakePlan(sn, from);
    if plan.None? then [] else Kept(sz, plan.value.items)
  }

  lemma {:induction false} RemainingAt(sn: Snapshot, sz: Sizes, whole: Plan, from: Option<Cursor>, n: nat)
    requires Whole(sn, whole) && At(whole, from, n)
    ensures Remaining(sn, sz, from) == Kept(sz, whole.items[n..])
  {
    PlanResumes(sn, whole, from, n);
  }

  lemma {:induction false} AdvanceSplits(sz: Sizes, whole: Plan, n: nat, page: Page, end: nat, to: nat)
    requires Advances(sz, whole, n, page, end, to)
    ensures Kept(sz, whole.items[n..]) == page.observations + Kept(sz, whole.items[to..])
    ensures page.next.None? ==> Kept(sz, whole.items[to..]) == []
  {
    assert whole.items[n..] == whole.items[n..to] + whole.items[to..];
    KeptConcat(sz, whole.items[n..to], whole.items[to..]);
  }

  /** An exact page: what it carries, followed by all that remains from the cursor it hands out, is all
      that remained from the request it answers. */
  lemma {:induction false} PageIsExact(sn: Snapshot, sz: Sizes, whole: Plan, from: Option<Cursor>, n: nat, budget: nat)
      returns (page: Page, to: nat)
    requires Whole(sn, whole) && At(whole, from, n)
    ensures Serve(sn, sz, TextOf(from), budget) == Some(page)
    ensures page.next.Some? ==> At(whole, page.next, to)
    ensures Remaining(sn, sz, from) == page.observations + if page.next.None? then [] else Remaining(sn, sz, page.next)
  {
    var end;
    page, end, to := ServeAdvances(sn, sz, whole, from, n, budget);
    AdvanceSplits(sz, whole, n, page, end, to);
    RemainingAt(sn, sz, whole, from, n);
    if page.next.Some? { RemainingAt(sn, sz, whole, page.next, to); }
  }

  // ----- a whole session -----------------------------------------------------------------

  ghost predicate NamedBy(pages: seq<Page>, id: string) {
    exists p :: 0 <= p < |pages| && Names(pages[p].degraded, id)
  }

  /** After a session that began at position `n`, the reader has items `n..to` and stands at `to`. */
  ghost predicate Read(sz: Sizes, whole: Plan, n: nat, pages: seq<Page>, to: nat) {
    && n <= to <= |whole.items|
    && Emitted(pages) == Kept(sz, whole.items[n..to])
    && (forall i :: n <= i < to && Omitted(sz, whole.items[i]) ==> NamedBy(pages, whole.items[i].obs.localId))
    && (pages != [] ==>
         var next := pages[|pages| - 1].next;
         if next.None? then to == |whole.items| else At(whole, next, to))
    && (pages == [] ==> to == n)
  }

  lemma {:induction false} NamedMore(sz: Sizes, whole: Plan, pages: seq<Page>, page: Page, mid: nat, end: nat, i: nat)
    requires mid <= end <= |whole.items| && page.degraded == Degrades(sz, whole.items[mid..end])
    requires i < end && Omitted(sz, whole.items[i])
    requires i < mid ==> NamedBy(pages, whole.items[i].obs.localId)
    ensures NamedBy(pages + [page], whole.items[i].obs.localId)
  {
    var all := pages + [page];
    if i < mid {
      var p :| 0 <= p < |pages| && Names(pages[p].degraded, whole.items[i].obs.localId);
      assert all[p] == pages[p];
    } else {
      OmittedIsNamed(sz, whole.items[mid..end], i - mid);
      assert all[|pages|] == page;
    }
  }

  lemma {:induction false} ReadMore(sz: Sizes, whole: Plan, n: nat, pages: seq<Page>, page: Page, mid: nat, end: nat,
                                    to: nat)
    requires Read(sz, whole, n, pages, mid) && Advances(sz, whole, mid, page, end, to)
    ensures Read(sz, whole, n, pages + [page], to)
  {
    var all := pages + [page];
    assert all[..|all| - 1] == pages;
    assert whole.items[n..to] == whole.items[n..mid] + whole.items[mid..to];
    KeptConcat(sz, whole.items[n..mid], whole.items[mid..to]);
    forall i | n <= i < to && Omitted(sz, whole.items[i]) ensures NamedBy(all, whole.items[i].obs.localId) {
      NamedMore(sz, whole, pages, page, mid, end, i);
    }
  }

  /** The page and position a reader standing at `n` is brought to. */
  ghost predicate Brings(sz: Sizes, whole: Plan, n: nat, budget: nat, page: Page, end: nat, to: nat) {
    && Advances(sz, whole, n, page, end, to)
    && (budget > MAX_OBSERVATION_BYTES && page.next.Some? ==> to > n)
  }

  ghost predicate ServesFrom(serve: Server, sz: Sizes, whole: Plan, from: Option<Cursor>, n: nat, budget: nat) {
    && serve(from, budget).Some?
    && exists end, to :: Brings(sz, whole, n, budget, serve(from, budget).value, end, to)
  }

  ghost predicate Serves(serve: Server, sz: Sizes, whole: Plan) {
    forall from, n, budget :: At(whole, from, n) ==> ServesFrom(serve, sz, whole, from, n, budget)
  }

  ghost predicate CursorsOrdered(whole: Plan) {
    forall a, m, b, n :: At(whole, a, m) && At(whole, b, n) && m < n && a.Some? && b.Some? ==>
        CursorLt(a.value, b.value)
  }

  lemma {:induction false} AdapterServes(sn: Snapshot, sz: Sizes, whole: Plan)
    requires Whole(sn, whole)
    ensures Serves(Adapter(sn, sz), sz, whole) && CursorsOrdered(whole)
  {
    forall from, n, budget | At(whole, from, n) ensures ServesFrom(Adapter(sn, sz), sz, whole, from, n, budget) {
      var page, end, to := ServeAdvances(sn, sz, whole, from, n, budget);
      assert Brings(sz, whole, n, budget, page, end, to);
    }
    forall a, m, b, n | At(whole, a, m) && At(whole, b, n) && m < n && a.Some? && b.Some?
      ensures CursorLt(a.value, b.value)
    {
      CursorsAscend(sn, whole, a, m, b, n);
    }
  }

  lemma {:induction false} LastPageAdvances(serve: Server, sz: Sizes, whole: Plan, from: Option<Cursor>, n: nat,
                                            budgets: seq<nat>, pages: seq<Page>, mid: nat) returns (end: nat, to: nat)
    requires Serves(serve, sz, whole) && At(whole, from, n)
    requires Session(serve, from, budgets, pages) && pages != [] && Read(sz, whole, n, pages[..|pages| - 1], mid)
    ensures At(whole, Request(from, pages[..|pages| - 1]), mid)
    ensures Advances(sz, whole, mid, pages[|pages| - 1], end, to)
    ensures Roomy(budgets) && pages[|pages| - 1].next.Some? ==> to > mid
  {
    var at := Request(from, pages[..|pages| - 1]);
    assert At(whole, at, mid);
    assert ServesFrom(serve, sz, whole, at, mid, budgets[|budgets| - 1]);
    end, to :| Brings(sz, whole, mid, budgets[|budgets| - 1], pages[|pages| - 1], end, to);
  }

  /** Any session, whatever its budgets, emits a contiguous run of the plan and stands right after it. */
  lemma {:induction false} SessionReads(serve: Server, sz: Sizes, whole: Plan, from: Option<Cursor>, n: nat,
                                        budgets: seq<nat>, pages: seq<Page>) returns (to: nat)
    requires Serves(serve, sz, whole) && At(whole, from, n) && Session(serve, from, budgets, pages)
    ensures Read(sz, whole, n, pages, to)
    ensures Roomy(budgets) && Open(pages) ==> to >= n + |pages|
    decreases |pages|
  {
    if pages == [] {
      to := n;
      assert whole.items[n..n] == [];
    } else {
      var front, page := pages[..|pages| - 1], pages[|pages| - 1];
      var mid := SessionReads(serve, sz, whole, from, n, budgets[..|budgets| - 1], front);
      var end, to' := LastPageAdvances(serve, sz, whole, from, n, budgets, pages, mid);
      to := to';
      ReadMore(sz, whole, n, front, page, mid, end, to);
      assert pages == front + [page];
    }
  }

  lemma {:induction false} KeysBetween(sn: Snapshot, whole: Plan, m: nat, n: nat)
    requires Whole(sn, whole) && m < n <= |whole.items|
    ensures m > 0 ==> KeyLt(whole.items[m - 1].key, whole.items[n - 1].key)
    ensures StillDue(sn, None, DueList(sn, None)[n - 1]) && whole.items[n - 1].key == DueList(sn, None)[n - 1].key
  {
    PlanIsStillDue(sn, None);
    assert DueList(sn, None)[n - 1] in DueList(sn, None);
  }

  /** Standing further on in the plan means holding a greater cursor. */
  lemma {:induction false} CursorsAscend(sn: Snapshot, whole: Plan, a: Option<Cursor>, m: nat, b: Option<Cursor>,
                                         n: nat)
    requires Whole(sn, whole)
    requires At(whole, a, m) && At(whole, b, n) && m < n && a.Some?
    ensures CursorLt(a.value, b.value)
  {
    KeysBetween(sn, whole, m, n);
    TopBounds(sn.txs, (0, ""));
    if m > 0 {
      if m > 1 { KeysBetween(sn, whole, m - 1, m); } else { KeysBetween(sn, whole, 0, m); }
      KeyBelowTop(sn, DueList(sn, None)[m - 1]);
    }
  }

  /** Each page's cursor is greater than the one before it. */
  predicate CursorsIncrease(pages: seq<Page>) {
    forall i :: 0 < i < |pages| && pages[i].next.Some? ==>
      pages[i - 1].next.Some? && CursorLt(pages[i - 1].next.value, pages[i].next.value)
  }

  lemma {:induction false} SessionIncreases(serve: Server, sz: Sizes, whole: Plan, from: Option<Cursor>, n: nat,
                                            budgets: seq<nat>, pages: seq<Page>)
    requires Serves(serve, sz, whole) && CursorsOrdered(whole)
    requires At(whole, from, n) && Session(serve, from, budgets, pages) && Roomy(budgets)
    ensures CursorsIncrease(pages)
    decreases |pages|
  {
    if |pages| > 1 {
      var front, page := pages[..|pages| - 1], pages[|pages| - 1];
      SessionIncreases(serve, sz, whole, from, n, budgets[..|budgets| - 1], front);
      if page.next.Some? {
        var mid := SessionReads(serve, sz, whole, from, n, budgets[..|budgets| - 1], front);
        var end, to := LastPageAdvances(serve, sz, whole, from, n, budgets, pages, mid);
        assert At(whole, Request(from, front), mid) && At(whole, page.next, to);
      }
    }
  }

  predicate Draws(budgets: seq<nat>, supply: nat -> nat) { forall i: nat :: i < |budgets| ==> budgets[i] == supply(i) }

  lemma {:induction false} DrawMore(budgets: seq<nat>, supply: nat -> nat)
    requires Draws(budgets, supply) && forall i: nat :: supply(i) >= MAX_OBSERVATION_BYTES + 1
    ensures Draws(budgets + [supply(|budgets|)], supply) && Roomy(budgets + [supply(|budgets|)])
  {
    assert forall i: nat :: i < |budgets| ==> budgets[i] == supply(i);
  }

  /** An open session with any budgets that afford one observation can ask for one more page. */
  lemma {:induction false} SessionContinues(serve: Server, sz: Sizes, whole: Plan, supply: nat -> nat,
                                            budgets: seq<nat>,
                                            pages: seq<Page>) returns (budgets': seq<nat>, pages': seq<Page>)
    requires Serves(serve, sz, whole) && Session(serve, None, budgets, pages) && Open(pages)
    requires Draws(budgets, supply) && forall i: nat :: supply(i) >= MAX_OBSERVATION_BYTES + 1
    ensures Session(serve, None, budgets', pages') && Draws(budgets', supply)
    ensures |pages'| == |pages| + 1 && |pages| <= |whole.items|
  {
    var budget := supply(|budgets|);
    assert At(whole, None, 0);
    DrawMore(budgets, supply);
    assert Roomy(budgets) by {
      assert forall i :: 0 <= i < |budgets| ==> (budgets + [budget])[i] == budgets[i];
    }
    var n := SessionReads(serve, sz, whole, None, 0, budgets, pages);
    assert ServesFrom(serve, sz, whole, Request(None, pages), n, budget);
    var page := serve(Request(None, pages), budget).value;
    budgets', pages' := budgets + [budget], pages + [page];
    assert budgets'[..|budgets|] == budgets && pages'[..|pages|] == pages;
  }

  /** No error ends a session early, and with budgets that afford any one observation it ends: within
      one page more than there are items. */
  lemma {:induction false} SessionFinishes(serve: Server, sz: Sizes, whole: Plan, supply: nat -> nat, budgets: seq<nat>,
                                           pages: seq<Page>) returns (spent: seq<nat>, all: seq<Page>)
    requires Serves(serve, sz, whole) && Session(serve, None, budgets, pages) && Open(pages)
    requires Draws(budgets, supply) && forall i: nat :: supply(i) >= MAX_OBSERVATION_BYTES + 1
    ensures Session(serve, None, spent, all) && Draws(spent, supply)
    ensures all != [] && all[|all| - 1].next.None? && |all| <= |whole.items| + 1
    decreases |whole.items| + 1 - |pages|
  {
    spent, all := SessionContinues(serve, sz, whole, supply, budgets, pages);
    if Open(all) {
      spent, all := SessionFinishes(serve, sz, whole, supply, spent, all);
    }
  }

  // ----- the adapter's pages -------------------------------------------------------------

  /** The fast form refines the simple one: a finished session from the start has emitted the whole
      plan minus the omitted records, in order and once, and has named every omitted record. */
  lemma {:induction false} PagesAreThePlan(sn: Snapshot, sz: Sizes, whole: Plan, budgets: seq<nat>, pages: seq<Page>)
    requires Whole(sn, whole) && Session(Adapter(sn, sz), None, budgets, pages)
    requires pages != [] && pages[|pages| - 1].next.None?
    ensures Emitted(pages) == Kept(sz, whole.items)
    ensures forall i :: 0 <= i < |whole.items| && Omitted(sz, whole.items[i]) ==>
              NamedBy(pages, whole.items[i].obs.localId)
  {
    AdapterServes(sn, sz, whole);
    var to := SessionReads(Adapter(sn, sz), sz, whole, None, 0, budgets, pages);
    assert whole.items[0..to] == whole.items;
  }

  /** Draining a snapshot with any budgets that afford one observation terminates, without error, with
      strictly increasing cursors. */
  lemma {:induction false} DrainTerminates(sn: Snapshot, sz: Sizes, whole: Plan, supply: nat -> nat)
      returns (spent: seq<nat>, pages: seq<Page>)
    requires Whole(sn, whole) && forall i: nat :: supply(i) >= MAX_OBSERVATION_BYTES + 1
    ensures Session(Adapter(sn, sz), None, spent, pages) && Draws(spent, supply)
    ensures pages != [] && pages[|pages| - 1].next.None? && |pages| <= |whole.items| + 1
    ensures CursorsIncrease(pages)
  {
    AdapterServes(sn, sz, whole);
    spent, pages := SessionFinishes(Adapter(sn, sz), sz, whole, supply, [], []);
    SessionIncreases(Adapter(sn, sz), sz, whole, None, 0, spent, pages);
  }

  /** A page whose budget cannot pay for the next kept observation emits nothing and stands still:
      the floor on budgets is what progress needs. */
  lemma {:induction false} StarvedPageStandsStill(sz: Sizes, whole: Plan, from: Option<Cursor>, n: nat, budget: nat)
    requires At(whole, from, n) && n < |whole.items| && !Omitted(sz, whole.items[n])
    requires budget < sz.wire(Shrunk(sz, whole.items[n].obs)) + 1
    ensures var page := Cut(sz, Plan(whole.items[n..], whole.highWater), from, budget);
            page.observations == [] && page.next == Some(if from.Some? then from.value else BOTTOM)
  {
    var plan := Plan(whole.items[n..], whole.highWater);
    assert plan.items[..0] == [];
    OneMore(sz, plan.items, 0);
    CutIs(sz, plan, from, budget, 0);
  }
}
