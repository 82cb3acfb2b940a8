/** A resume over a chain that moved on: what the pages before a crash and the plan after it cover between
    them (adapters/bitcoin/src/map.rs). */
module ChainMoves {
  import opened Base
  import opened Cursors
  import opened Planning
  import opened Paging
  import Draining

  ghost predicate Lists(due: seq<Due>, t: string) { exists i :: 0 <= i < |due| && due[i].tx.txid == t }

  lemma {:induction false} DueUnlessBehind(sn: Snapshot, from: Option<Cursor>, tx: Tx)
    requires SnapshotOk(sn) && tx in sn.txs
    ensures DueOf(tx) in DueList(sn, from) <==> !Behind(from, tx)
    ensures Lists(DueList(sn, from), tx.txid) <==> !Behind(from, tx)
  {
    PlanIsStillDue(sn, from);
    var due := DueList(sn, from);
    assert StillDue(sn, from, DueOf(tx)) <==> !Behind(from, tx) by {
      if tx.Height().Some? {
        var m := (tx.Height().value, tx.txid);
        MarkOrder(Floor(from), m, m);
      } else if MempoolAfter(from).Some? {
        LexTotal(tx.txid, MempoolAfter(from).value);
        LexIrreflexive(tx.txid);
        if LexLt(tx.txid, MempoolAfter(from).value) { LexAsymmetric(tx.txid, MempoolAfter(from).value); }
      }
    }
    forall i | 0 <= i < |due| && due[i].tx.txid == tx.txid ensures due[i] == DueOf(tx) {
      assert due[i] in due;
      OneTxPerId(sn.txs, due[i].tx, tx);
    }
  }

  lemma {:induction false} OnlyListedIsDue(sn: Snapshot, from: Option<Cursor>, t: string)
    requires SnapshotOk(sn) && Lists(DueList(sn, from), t)
    ensures Lookup(sn.txs, t).Some?
  {
    PlanIsStillDue(sn, from);
    var i :| 0 <= i < |DueList(sn, from)| && DueList(sn, from)[i].tx.txid == t;
    assert DueList(sn, from)[i] in DueList(sn, from);
  }

  /** The reader has been past exactly what its cursor is past. */
  lemma {:induction false} EmittedIff(sn: Snapshot, whole: Plan, from: Option<Cursor>, n: nat, t: string)
    requires Draining.Whole(sn, whole) && At(whole, from, n)
    ensures Lists(DueList(sn, None)[..n], t) <==>
            Lookup(sn.txs, t).Some? && Behind(from, Lookup(sn.txs, t).value)
  {
    var due := DueList(sn, None);
    RestIs(sn, whole, from, n);
    if Lists(due[..n], t) {
      var i :| 0 <= i < |due[..n]| && due[..n][i].tx.txid == t;
      assert due[i].tx.txid == t;
      OnlyListedIsDue(sn, None, t);
      DueUnlessBehind(sn, from, Lookup(sn.txs, t).value);
      assert !Lists(due[n..], t) by { ListedOnce(sn, n, i, t); }
    } else if Lookup(sn.txs, t).Some? {
      var tx := Lookup(sn.txs, t).value;
      DueUnlessBehind(sn, None, tx);
      DueUnlessBehind(sn, from, tx);
      NothingBehindTheStart(sn, tx);
      ListsSplit(due, n, t);
    }
  }

  lemma {:induction false} ListsSplit(due: seq<Due>, n: nat, t: string)
    requires n <= |due| && Lists(due, t)
    ensures Lists(due[..n], t) || Lists(due[n..], t)
  {
    var i :| 0 <= i < |due| && due[i].tx.txid == t;
    if i < n { assert due[..n][i] == due[i]; } else { assert due[n..][i - n] == due[i]; }
  }

  lemma {:induction false} NothingBehindTheStart(sn: Snapshot, tx: Tx)
    requires SnapshotOk(sn) && tx in sn.txs
    ensures !Behind(None, tx) && !Behind(Some(BOTTOM), tx)
  {
    assert IsTxid(tx.txid);
  }

  lemma {:induction false} RestIs(sn: Snapshot, whole: Plan, from: Option<Cursor>, n: nat)
    requires Draining.Whole(sn, whole) && At(whole, from, n)
    ensures n <= |DueList(sn, None)| && DueList(sn, from) == DueList(sn, None)[n..]
  {
    if n > 0 { DueResumes(sn, None, n); }
  }

  lemma {:induction false} ListedOnce(sn: Snapshot, n: nat, i: nat, t: string)
    requires SnapshotOk(sn) && i < n <= |DueList(sn, None)| && DueList(sn, None)[i].tx.txid == t
    ensures !Lists(DueList(sn, None)[n..], t)
  {
    var due := DueList(sn, None);
    forall j | 0 <= j < |due[n..]| ensures due[n..][j].tx.txid != t {
      PlanIsStillDue(sn, None);
      assert due[i] in due && due[n + j] in due;
      KeyOrder(due[i].key, due[n + j].key, due[i].key);
      if due[n + j].tx.txid == t { OneTxPerId(sn.txs, due[i].tx, due[n + j].tx); }
    }
  }

  /** A reader of the first `n` items of one sync resumes from its cursor over a later one, whatever has
      happened between. */
  lemma {:induction false} ResumePlanned(sn: Snapshot, whole: Plan, from: Option<Cursor>, n: nat, later: Snapshot,
                                         tx: Tx)
    requires Draining.Whole(sn, whole) && At(whole, from, n) && SnapshotOk(later) && tx in later.txs
    ensures Lists(DueList(sn, None)[..n], tx.txid) <==>
            Lookup(sn.txs, tx.txid).Some? && Behind(from, Lookup(sn.txs, tx.txid).value)
    ensures Lists(DueList(later, from), tx.txid) <==> !Behind(from, tx)
  {
    EmittedIff(sn, whole, from, n, tx.txid);
    DueUnlessBehind(later, from, tx);
  }

  /** Two transactions, the first confirmed and read; the second, not read yet, is then mined below it. */
  lemma {:induction false} MinedBelowTheMarkIsMissed(sn: Snapshot, later: Snapshot, whole: Plan, a: Tx, b: Tx, b': Tx)
    requires sn.txs == [a, b] && sn.mempool == [b.txid] && later.txs == [a, b'] && later.mempool == []
    requires IsTxid(a.txid) && IsTxid(b.txid) && LexLt(a.txid, b.txid) && b'.txid == b.txid
    requires a.Height().Some? && a.Height().value < U64 && b.Height().None?
    requires b'.Height().Some? && b'.Height().value < a.Height().value
    requires MakePlan(sn, None) == Some(whole)
    ensures SnapshotOk(later) && Draining.Whole(sn, whole) && |whole.items| == 2
    ensures var from := Some(whole.items[0].key.Cursor(whole.highWater));
            At(whole, from, 1) && !Lists(DueList(sn, None)[..1], b.txid) && !Lists(DueList(later, from), b.txid)
  {
    assert SnapshotOk(sn) && SnapshotOk(later);
    TwoDue(sn, a, b);
    var from := Some(whole.items[0].key.Cursor(whole.highWater));
    assert from == Some(Cursor(a.Height().value, a.txid, None));
    ResumePlanned(sn, whole, from, 1, later, b');
    LexIrreflexive(a.txid);
    assert Lookup(sn.txs, b.txid) == Some(b);
  }

  lemma {:induction false} TwoDue(sn: Snapshot, a: Tx, b: Tx)
    requires SnapshotOk(sn) && sn.txs == [a, b] && a.Height().Some? && b.Height().None?
    ensures DueList(sn, None) == [DueOf(a), DueOf(b)]
  {
    var due := [DueOf(a), DueOf(b)];
    PlanIsStillDue(sn, None);
    forall d ensures d in due <==> d in DueList(sn, None) {
      if d in due { NothingBehindTheStart(sn, d.tx); DueUnlessBehind(sn, None, d.tx); }
    }
    AscendsUnique(due, DueList(sn, None));
  }

  // ----- every page of a resume ----------------------------------------------------------

  function Unmarked(from: Cursor): Cursor { from.(mempool := None) }

  lemma {:induction false} SameFront(sn: Snapshot, from: Cursor, k: nat)
    requires SnapshotOk(sn) && 0 < k <= |DueList(sn, Some(from))| && DueList(sn, Some(from))[k - 1].key.Confirmed?
    ensures k <= |DueList(sn, Some(Unmarked(from)))|
    ensures DueList(sn, Some(Unmarked(from)))[..k] == DueList(sn, Some(from))[..k]
  {
    var one, two := SortByKey(Section1(sn.txs, from.ConfirmedMark())), Section2(sn.mempool, sn.txs, from.mempool);
    assert DueList(sn, Some(from)) == one + two;
    Section2Holds(sn.mempool, sn.txs, from.mempool);
    forall j | 0 <= j < |two| ensures two[j].key.Mempool? { assert two[j] in two; }
  }

  /** The cursor whose plan the rest of a page is read from. */
  function BaseOf(from: Cursor, next: Cursor): Cursor { if next.mempool.None? then Unmarked(from) else from }

  lemma {:induction false} NextDue(sn: Snapshot, from: Cursor, k: nat)
    requires SnapshotOk(sn) && 0 < k <= |DueList(sn, Some(from))|
    ensures var next := DueList(sn, Some(from))[k - 1].key.Cursor(Top(sn.txs, from.ConfirmedMark()));
            var due := DueList(sn, Some(BaseOf(from, next)));
            k <= |due| && due[..k] == DueList(sn, Some(from))[..k] && DueList(sn, Some(next)) == due[k..]
  {
    var due := DueList(sn, Some(from));
    if due[k - 1].key.Confirmed? {
      SameFront(sn, from, k);
      assert DueList(sn, Some(Unmarked(from)))[..k][k - 1] == due[k - 1];
      DueResumes(sn, Some(Unmarked(from)), k);
    } else {
      DueResumes(sn, Some(from), k);
    }
  }

  /** What is still to be said from a cursor; `None` where no plan can be made. */
  type Left = Cursor -> Option<seq<Wire>>

  function LeftOver(sn: Snapshot, sz: Sizes): Left {
    (c: Cursor) => var plan := MakePlan(sn, Some(c)); if plan.None? then None else Some(Kept(sz, plan.value.items))
  }

  /** `ws`, then what is left from `next`, is what was left from `base`. */
  predicate Follows(left: Left, base: Cursor, ws: seq<Wire>, next: Cursor) {
    left(next).Some? ==> left(base) == Some(ws + left(next).value)
  }

  lemma {:induction false} SplitFollows(sn: Snapshot, sz: Sizes, plan: Plan, from: Cursor, base: Cursor, k: nat,
                                        next: Cursor)
    requires MakePlan(sn, Some(from)) == Some(plan) && k <= |plan.items| && k <= |DueList(sn, Some(base))|
    requires DueList(sn, Some(base))[..k] == DueList(sn, Some(from))[..k]
    requires DueList(sn, Some(next)) == DueList(sn, Some(base))[k..]
    ensures Follows(LeftOver(sn, sz), base, Kept(sz, plan.items[..k]), next)
  {
    var due := DueList(sn, Some(base));
    if MakePlan(sn, Some(next)).Some? {
      forall i | 0 <= i < |due| ensures sn.render(due[i].tx).Some? {
        if i < k { assert due[..k][i] == due[i]; } else { assert due[k..][i - k] == due[i]; }
      }
      var all, rest := Render(sn, due), MakePlan(sn, Some(next)).value.items;
      forall i | 0 <= i < k ensures all[i] == plan.items[i] {
        assert due[..k][i] == DueList(sn, Some(from))[..k][i];
      }
      assert all == plan.items[..k] + rest;
      Draining.KeptConcat(sz, plan.items[..k], rest);
    }
  }

  /** Nothing confirmed is due any more, or there is no mempool mark to lose. */
  predicate IsSteady(txs: seq<Tx>, c: Cursor) {
    c.mempool.None? || forall tx :: tx in txs && tx.Height().Some? ==>
      MarkLe((tx.Height().value, tx.txid), c.ConfirmedMark())
  }

  function Steady(sn: Snapshot): Cursor -> bool { (c: Cursor) => IsSteady(sn.txs, c) }

  /** The reader goes on from an item's cursor. */
  predicate GoesOn(left: Left, steady: Cursor -> bool, from: Cursor, ws: seq<Wire>, next: Cursor) {
    && next.WellFormed() && steady(next) && (steady(from) ==> BaseOf(from, next) == from)
    && Follows(left, BaseOf(from, next), ws, next)
  }

  /** One page of a session from any cursor: the last one, a page that stands still, or a page that goes on. */
  predicate Moves(left: Left, steady: Cursor -> bool, from: Cursor, page: Page) {
    match page.next
    case None => left(from) == Some(page.observations)
    case Some(next) => (next == from && page.observations == []) || GoesOn(left, steady, from, page.observations, next)
  }

  lemma {:induction false} NextIsSteady(sn: Snapshot, from: Cursor, k: Due)
    requires SnapshotOk(sn) && from.WellFormed() && StillDue(sn, Some(from), k)
    ensures var next := k.key.Cursor(Top(sn.txs, from.ConfirmedMark()));
      && next.WellFormed() && IsSteady(sn.txs, next) && (IsSteady(sn.txs, from) ==> BaseOf(from, next) == from)
  {
    TopBounds(sn.txs, from.ConfirmedMark());
    if k.key.Confirmed? {
      var m := (k.key.height, k.key.txid);
      MarkOrder(from.ConfirmedMark(), m, m);
    }
  }

  lemma {:induction false} ItemIsDue(sn: Snapshot, from: Cursor, k: nat)
    requires SnapshotOk(sn) && 0 < k <= |DueList(sn, Some(from))|
    ensures StillDue(sn, Some(from), DueList(sn, Some(from))[k - 1])
  {
    PlanIsStillDue(sn, Some(from));
    assert DueList(sn, Some(from))[k - 1] in DueList(sn, Some(from));
  }

  lemma {:induction false} ItemFollows(sn: Snapshot, sz: Sizes, from: Cursor, plan: Plan, k: nat, next: Cursor)
    requires SnapshotOk(sn) && MakePlan(sn, Some(from)) == Some(plan) && 0 < k <= |plan.items|
    requires next == DueList(sn, Some(from))[k - 1].key.Cursor(Top(sn.txs, from.ConfirmedMark()))
    ensures Follows(LeftOver(sn, sz), BaseOf(from, next), Kept(sz, plan.items[..k]), next)
  {
    NextDue(sn, from, k);
    SplitFollows(sn, sz, plan, from, BaseOf(from, next), k, next);
  }

  lemma {:induction false} ItemGoesOn(sn: Snapshot, sz: Sizes, from: Cursor, plan: Plan, k: nat)
    requires SnapshotOk(sn) && from.WellFormed() && MakePlan(sn, Some(from)) == Some(plan)
    requires 0 < k <= |plan.items|
    ensures GoesOn(LeftOver(sn, sz), Steady(sn), from, Kept(sz, plan.items[..k]),
                   plan.items[k - 1].key.Cursor(plan.highWater))
  {
    ItemIsDue(sn, from, k);
    NextIsSteady(sn, from, DueList(sn, Some(from))[k - 1]);
    ItemFollows(sn, sz, from, plan, k, plan.items[k - 1].key.Cursor(plan.highWater));
  }

  /** A page holds a prefix of the plan; if it is cut, its cursor is that of the last item it emits. */
  ghost predicate Holds(sz: Sizes, plan: Plan, from: Cursor, page: Page, k: nat) {
    && k <= |plan.items| && page.observations == Kept(sz, plan.items[..k])
    && (page.next.None? ==> k == |plan.items|)
    && (page.next.Some? ==>
         page.next == if k == 0 then Some(from) else Some(plan.items[k - 1].key.Cursor(plan.highWater)))
  }

  lemma {:induction false} CutHolds(sz: Sizes, plan: Plan, from: Cursor, n: nat) returns (k: nat)
    requires n <= |plan.items|
    ensures Holds(sz, plan, from, PageOf(sz, plan, Some(from), n), k)
  {
    if n == |plan.items| {
      k := n;
    } else {
      k := LastKept(sz, plan.items[..n]);
      Draining.KeptUpToLast(sz, plan.items[..n]);
      assert plan.items[..n][..k] == plan.items[..k];
    }
  }

  lemma {:induction false} ServedPage(sn: Snapshot, sz: Sizes, from: Cursor, budget: nat, page: Page)
      returns (plan: Plan, k: nat)
    requires from.WellFormed() && Draining.Adapter(sn, sz)(Some(from), budget) == Some(page)
    ensures MakePlan(sn, Some(from)) == Some(plan) && Holds(sz, plan, from, page, k)
  {
    ParseEncode(from);
    plan := MakePlan(sn, Some(from)).value;
    k := CutHolds(sz, plan, from, Reach(sz, plan.items, budget, 0));
  }

  lemma {:induction false} PageMoves(sn: Snapshot, sz: Sizes, from: Cursor, budget: nat, page: Page)
    requires SnapshotOk(sn) && from.WellFormed() && Draining.Adapter(sn, sz)(Some(from), budget) == Some(page)
    ensures Moves(LeftOver(sn, sz), Steady(sn), from, page)
  {
    var plan, k := ServedPage(sn, sz, from, budget, page);
    assert plan.items[..|plan.items|] == plan.items;
    if page.next.Some? && k > 0 { ItemGoesOn(sn, sz, from, plan, k); }
  }

  // ----- whole sessions, by what is left ---------------------------------------------------

  /** Every page the server gives moves the reader. */
  ghost predicate MovesReaders(serve: Draining.Server, left: Left, steady: Cursor -> bool) {
    forall from: Cursor, budget: nat :: from.WellFormed() && serve(Some(from), budget).Some? ==>
      Moves(left, steady, from, serve(Some(from), budget).value)
  }

  lemma {:induction false} AdapterMovesReaders(sn: Snapshot, sz: Sizes)
    requires SnapshotOk(sn)
    ensures MovesReaders(Draining.Adapter(sn, sz), LeftOver(sn, sz), Steady(sn))
  {
    forall from: Cursor, budget: nat | from.WellFormed() && Draining.Adapter(sn, sz)(Some(from), budget).Some?
      ensures Moves(LeftOver(sn, sz), Steady(sn), from, Draining.Adapter(sn, sz)(Some(from), budget).value)
    {
      PageMoves(sn, sz, from, budget, Draining.Adapter(sn, sz)(Some(from), budget).value);
    }
  }

  /** Some page ended on a confirmed item, whose cursor carries no mempool mark. */
  ghost predicate MarkDropped(pages: seq<Page>) {
    exists p :: 0 <= p < |pages| && pages[p].next.Some? && pages[p].next.value.mempool.None?
  }

  ghost function SessionBase(from: Cursor, pages: seq<Page>): Cursor {
    if MarkDropped(pages) then Unmarked(from) else from
  }

  lemma {:induction false} DroppedMore(pages: seq<Page>, page: Page)
    ensures MarkDropped(pages + [page]) <==> MarkDropped(pages) || (page.next.Some? && page.next.value.mempool.None?)
  {
    var all := pages + [page];
    if MarkDropped(pages) {
      var p :| 0 <= p < |pages| && pages[p].next.Some? && pages[p].next.value.mempool.None?;
      assert all[p] == pages[p];
    }
    assert all[|pages|] == page;
  }

  /** An open session, after some pages: nothing said yet, or what was said leads on. `base` is the cursor
      whose plan is being said, `dropped` whether the mark is gone. */
  predicate Underway(left: Left, steady: Cursor -> bool, from: Cursor, dropped: bool, said: seq<Wire>, at: Cursor) {
    var base := if dropped then Unmarked(from) else from;
    && at.WellFormed()
    && ((at == from == base && said == [])
        || (steady(at) && (at.mempool.None? ==> dropped) && Follows(left, base, said, at)))
  }

  lemma {:induction false} UnderwayMore(left: Left, steady: Cursor -> bool, from: Cursor, dropped: bool,
                                        said: seq<Wire>, at: Cursor, page: Page)
    requires Underway(left, steady, from, dropped, said, at) && Moves(left, steady, at, page)
    ensures match page.next
            case None => left(if dropped then Unmarked(from) else from) == Some(said + page.observations)
            case Some(next) =>
              Underway(left, steady, from, dropped || next.mempool.None?, said + page.observations, next)
  {
    assert said + [] == said && [] + page.observations == page.observations;
    if page.next.Some? && left(page.next.value).Some? {
      var rest := left(page.next.value).value;
      assert said + (page.observations + rest) == (said + page.observations) + rest;
    }
  }

  lemma {:induction false} SessionUnderway(serve: Draining.Server, left: Left, steady: Cursor -> bool, from: Cursor,
                                           budgets: seq<nat>, pages: seq<Page>) returns (at: Cursor)
    requires MovesReaders(serve, left, steady) && from.WellFormed()
    requires Draining.Session(serve, Some(from), budgets, pages) && Draining.Open(pages)
    ensures Draining.Request(Some(from), pages) == Some(at)
    ensures Underway(left, steady, from, MarkDropped(pages), Draining.Emitted(pages), at)
    decreases |pages|
  {
    at := Draining.Request(Some(from), pages).value;
    if pages != [] {
      var front, page := pages[..|pages| - 1], pages[|pages| - 1];
      var before := SessionUnderway(serve, left, steady, from, budgets[..|budgets| - 1], front);
      assert serve(Some(before), budgets[|budgets| - 1]) == Some(page);
      UnderwayMore(left, steady, from, MarkDropped(front), Draining.Emitted(front), before, page);
      assert pages == front + [page];
      DroppedMore(front, page);
    }
  }

  lemma {:induction false} SessionSays(serve: Draining.Server, left: Left, steady: Cursor -> bool, from: Cursor,
                                       budgets: seq<nat>, pages: seq<Page>)
    requires MovesReaders(serve, left, steady) && from.WellFormed()
    requires Draining.Session(serve, Some(from), budgets, pages) && pages != [] && pages[|pages| - 1].next.None?
    ensures left(SessionBase(from, pages)) == Some(Draining.Emitted(pages))
  {
    var front, page := pages[..|pages| - 1], pages[|pages| - 1];
    var at := SessionUnderway(serve, left, steady, from, budgets[..|budgets| - 1], front);
    assert serve(Some(at), budgets[|budgets| - 1]) == Some(page);
    UnderwayMore(left, steady, from, MarkDropped(front), Draining.Emitted(front), at, page);
    assert pages == front + [page];
    DroppedMore(front, page);
  }

  /** A finished session from any cursor over any sync, whatever its budgets, has emitted the plan from that
      cursor; or, if a page before its last ended on a confirmed item, the plan from that cursor without its
      mempool mark. */
  lemma {:induction false} SessionFromAnywhere(sn: Snapshot, sz: Sizes, from: Cursor, budgets: seq<nat>,
                                               pages: seq<Page>)
    requires SnapshotOk(sn) && from.WellFormed()
    requires Draining.Session(Draining.Adapter(sn, sz), Some(from), budgets, pages)
    requires pages != [] && pages[|pages| - 1].next.None?
    ensures var plan := MakePlan(sn, Some(SessionBase(from, pages)));
            plan.Some? && Draining.Emitted(pages) == Kept(sz, plan.value.items)
  {
    AdapterMovesReaders(sn, sz);
    SessionSays(Draining.Adapter(sn, sz), LeftOver(sn, sz), Steady(sn), from, budgets, pages);
  }

  /** The reader of the first `n` items of one sync resumes over a later one, whatever has happened between,
      and finishes, whatever its budgets. Its pages are those of one plan. A transaction of the later sync is
      in that plan unless the cursor is past it; and, once a page has ended on a confirmed item, also if it is
      unconfirmed. So it is missed by both exactly when the cursor is past it there and was not past it, or
      it was not listed, before; and if nothing happened to it, it is told, and told twice exactly when it
      is unconfirmed, had been told, and the mempool mark was dropped. */
  lemma {:induction false} ResumeOverMovedChain(sn: Snapshot, whole: Plan, from: Cursor, n: nat, later: Snapshot,
                                                sz: Sizes, budgets: seq<nat>, pages: seq<Page>, tx: Tx)
    requires Draining.Whole(sn, whole) && At(whole, Some(from), n) && SnapshotOk(later) && tx in later.txs
    requires Draining.Session(Draining.Adapter(later, sz), Some(from), budgets, pages)
    requires pages != [] && pages[|pages| - 1].next.None?
    ensures var base, was := Some(SessionBase(from, pages)), Lookup(sn.txs, tx.txid);
            var told, told' := Lists(DueList(sn, None)[..n], tx.txid), Lists(DueList(later, base), tx.txid);
            var again := tx.Height().None? && MarkDropped(pages);
      && MakePlan(later, base).Some? && Draining.Emitted(pages) == Kept(sz, MakePlan(later, base).value.items)
      && (told' <==> !Behind(Some(from), tx) || again)
      && (!told && !told' <==> Behind(Some(from), tx) && !again && (was.None? || !Behind(Some(from), was.value)))
      && (was == Some(tx) ==> (told || told') && (told && told' <==> Behind(Some(from), tx) && again))
  {
    Draining.WellFormedAt(sn, whole, from, n);
    SessionFromAnywhere(later, sz, from, budgets, pages);
    EmittedIff(sn, whole, Some(from), n, tx.txid);
    DueUnlessBehind(later, Some(SessionBase(from, pages)), tx);
  }
}
