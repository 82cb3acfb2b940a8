/** Cutting a plan into pages (adapters/bitcoin/src/map.rs), and why the pages of one snapshot are
    its whole plan. */
module Paging {
  import opened Base
  import opened Cursors
  import opened Planning

  /** Serialized sizes, as JSON encoding would give them. */
  datatype Sizes = Sizes(wire: Wire -> nat, extra: Extra -> nat)

  // ----- the two-step degrade ------------------------------------------------------------

  /** Step 1: the unbounded field is replaced by a marker. */
  function Shrunk(sz: Sizes, obs: Wire): Wire {
    if sz.wire(obs) > MAX_OBSERVATION_BYTES then
      obs.(extra := Truncated(sz.extra(obs.extra)), complete := false)
    else obs
  }

  /** Step 2: what is still too large is omitted. */
  predicate Omitted(sz: Sizes, it: Item) { sz.wire(Shrunk(sz, it.obs)) > MAX_OBSERVATION_BYTES }

  /** What a reader of the pages `items` is to see, in order. */
  function Kept(sz: Sizes, items: seq<Item>): seq<Wire> {
    if items == [] then []
    else
      var it := items[|items| - 1];
      Kept(sz, items[..|items| - 1]) + if Omitted(sz, it) then [] else [Shrunk(sz, it.obs)]
  }

  /** A kept record is an item's, under that item's constants. */
  lemma {:induction false} KeptIs(sz: Sizes, items: seq<Item>, w: Wire)
    requires w in Kept(sz, items)
    ensures exists i :: 0 <= i < |items| && items[i].obs.localId == w.localId && items[i].obs.ctx == w.ctx
  {
    var front, it := items[..|items| - 1], items[|items| - 1];
    if w in Kept(sz, front) {
      KeptIs(sz, front, w);
      var i :| 0 <= i < |front| && front[i].obs.localId == w.localId && front[i].obs.ctx == w.ctx;
      assert items[i] == front[i];
    } else {
      assert w == Shrunk(sz, it.obs);
      assert items[|items| - 1] == it;
    }
  }

  datatype Named = Named(localId: string, bytes: nat)

  /** What the reader is told was left out. */
  function Degrades(sz: Sizes, items: seq<Item>): seq<Named> {
    if items == [] then []
    else
      var it := items[|items| - 1];
      Degrades(sz, items[..|items| - 1])
      + if Omitted(sz, it) then [Named(it.obs.localId, sz.wire(Shrunk(sz, it.obs)))] else []
  }

  /** Bytes the kept observations take, each with its joining comma. */
  function Cost(sz: Sizes, items: seq<Item>): nat {
    if items == [] then 0
    else
      var it := items[|items| - 1];
      Cost(sz, items[..|items| - 1]) + if Omitted(sz, it) then 0 else sz.wire(Shrunk(sz, it.obs)) + 1
  }

  /** How many of `items` end with the last kept one. */
  function LastKept(sz: Sizes, items: seq<Item>): (n: nat)
    ensures n <= |items|
    ensures n > 0 ==> !Omitted(sz, items[n - 1])
    ensures forall i :: n <= i < |items| ==> Omitted(sz, items[i])
  {
    if items == [] then 0
    else if !Omitted(sz, items[|items| - 1]) then |items|
    else LastKept(sz, items[..|items| - 1])
  }

  // ----- one page ------------------------------------------------------------------------

  datatype Page = Page(observations: seq<Wire>, next: Option<Cursor>, reducedTo: Option<nat>,
                       degraded: seq<Named>, bytes: nat)

  /** The page holds the longest prefix of the plan the budget affords. */
  predicate Affords(sz: Sizes, items: seq<Item>, budget: nat, n: nat) {
    && n <= |items|
    && Cost(sz, items[..n]) <= budget
    && (n < |items| ==> Cost(sz, items[..n + 1]) > budget)
  }

  function NextCursor(sz: Sizes, plan: Plan, from: Option<Cursor>, n: nat): Option<Cursor>
    requires n <= |plan.items|
  {
    var last := LastKey(sz, plan.items[..n]);
    if n == |plan.items| then None
    else if last.Some? then Some(last.value.Cursor(plan.highWater))
    else if from.Some? then from
    else Some(BOTTOM)
  }

  function PageOf(sz: Sizes, plan: Plan, from: Option<Cursor>, n: nat): Page
    requires n <= |plan.items|
  {
    var kept := Kept(sz, plan.items[..n]);
    Page(kept, NextCursor(sz, plan, from, n), if n == |plan.items| then None else Some(|kept|),
         Degrades(sz, plan.items[..n]), Cost(sz, plan.items[..n]))
  }

  lemma {:induction false} CostGrows(sz: Sizes, items: seq<Item>, m: nat, n: nat)
    requires m <= n <= |items|
    ensures Cost(sz, items[..m]) <= Cost(sz, items[..n])
  {
    if m < n {
      CostGrows(sz, items, m, n - 1);
      assert items[..n][..n - 1] == items[..n - 1];
    }
  }

  lemma {:induction false} AffordsOne(sz: Sizes, items: seq<Item>, budget: nat, m: nat, n: nat)
    requires Affords(sz, items, budget, m) && Affords(sz, items, budget, n)
    ensures m == n
  {
    if m < n {
      CostGrows(sz, items, m + 1, n);
    } else if n < m {
      CostGrows(sz, items, n + 1, m);
    }
  }

  /** How far a budget reaches. */
  function Reach(sz: Sizes, items: seq<Item>, budget: nat, n: nat): (r: nat)
    requires n <= |items| && Cost(sz, items[..n]) <= budget
    ensures n <= r && Affords(sz, items, budget, r)
    decreases |items| - n
  {
    if n < |items| && Cost(sz, items[..n + 1]) <= budget then Reach(sz, items, budget, n + 1) else n
  }

  function Cut(sz: Sizes, plan: Plan, from: Option<Cursor>, budget: nat): Page {
    PageOf(sz, plan, from, Reach(sz, plan.items, budget, 0))
  }

  function LastKey(sz: Sizes, items: seq<Item>): Option<Key> {
    var k := LastKept(sz, items);
    if k > 0 then Some(items[k - 1].key) else None
  }

  lemma {:induction false} OneMore(sz: Sizes, items: seq<Item>, n: nat)
    requires n < |items|
    ensures var it := items[n];
      if Omitted(sz, it) then
        && Kept(sz, items[..n + 1]) == Kept(sz, items[..n])
        && Degrades(sz, items[..n + 1])
            == Degrades(sz, items[..n]) + [Named(it.obs.localId, sz.wire(Shrunk(sz, it.obs)))]
        && Cost(sz, items[..n + 1]) == Cost(sz, items[..n])
        && LastKey(sz, items[..n + 1]) == LastKey(sz, items[..n])
      else
        && Kept(sz, items[..n + 1]) == Kept(sz, items[..n]) + [Shrunk(sz, it.obs)]
        && Degrades(sz, items[..n + 1]) == Degrades(sz, items[..n])
        && Cost(sz, items[..n + 1]) == Cost(sz, items[..n]) + sz.wire(Shrunk(sz, it.obs)) + 1
        && LastKey(sz, items[..n + 1]) == Some(it.key)
  {
    assert items[..n + 1][..n] == items[..n];
  }

  lemma {:induction false} CutIs(sz: Sizes, plan: Plan, from: Option<Cursor>, budget: nat, n: nat)
    requires Affords(sz, plan.items, budget, n)
    ensures Cut(sz, plan, from, budget) == PageOf(sz, plan, from, n)
  {
    AffordsOne(sz, plan.items, budget, n, Reach(sz, plan.items, budget, 0));
  }

  /** `cut_page`: the loop computes the longest affordable prefix of the plan. */
  method CutPage(sz: Sizes, plan: Plan, from: Option<Cursor>, budget: nat) returns (page: Page)
    ensures page == Cut(sz, plan, from, budget)
  {
    var observations: seq<Wire> := [];
    var lastKey: Option<Key> := None;
    var degraded: seq<Named> := [];
    var used, cut := 0, false;
    var n := 0;
    while n < |plan.items| && !cut
      invariant n <= |plan.items| && used <= budget
      invariant observations == Kept(sz, plan.items[..n]) && degraded == Degrades(sz, plan.items[..n])
      invariant used == Cost(sz, plan.items[..n])
      invariant lastKey == LastKey(sz, plan.items[..n])
      invariant cut ==> n < |plan.items| && Cost(sz, plan.items[..n + 1]) > budget
      decreases |plan.items| - n, !cut
    {
      var it := plan.items[n];
      OneMore(sz, plan.items, n);
      var obs := it.obs;
      if sz.wire(obs) > MAX_OBSERVATION_BYTES {
        obs := obs.(extra := Truncated(sz.extra(obs.extra)), complete := false);
      }
      var size := sz.wire(obs);
      if size > MAX_OBSERVATION_BYTES {
        degraded := degraded + [Named(obs.localId, size)];
        n := n + 1;
      } else if used + size + 1 > budget {
        cut := true;
      } else {
        used := used + size + 1;
        observations := observations + [obs];
        lastKey := Some(it.key);
        n := n + 1;
      }
    }
    CutIs(sz, plan, from, budget, n);
    var next := None;
    if cut {
      next := if lastKey.Some? then Some(lastKey.value.Cursor(plan.highWater))
              else if from.Some? then from else Some(BOTTOM);
    }
    page := Page(observations, next, if cut then Some(|observations|) else None, degraded, used);
  }

  // ----- resuming ------------------------------------------------------------------------

  /** `from` is where a reader of the first `n` items of the whole plan stands. */
  predicate At(whole: Plan, from: Option<Cursor>, n: nat) {
    && n <= |whole.items|
    && (if n == 0 then from == None || from == Some(BOTTOM)
        else from == Some(whole.items[n - 1].key.Cursor(whole.highWater)))
  }

  /** A resume from this cursor passes over the transaction. */
  predicate Behind(from: Option<Cursor>, tx: Tx) {
    if tx.Height().Some? then MarkLe((tx.Height().value, tx.txid), Floor(from))
    else MempoolAfter(from).Some? && LexLe(tx.txid, MempoolAfter(from).value)
  }

  function DueOf(tx: Tx): Due {
    Due(if tx.Height().Some? then Confirmed(tx.Height().value, tx.txid) else Mempool(tx.txid), tx)
  }

  lemma {:induction false} TopBounds(txs: seq<Tx>, floor: Mark)
    ensures MarkLe(floor, Top(txs, floor))
    ensures forall tx :: tx in txs && tx.Height().Some? ==> MarkLe((tx.Height().value, tx.txid), Top(txs, floor))
    ensures Top(txs, floor) == floor
            || exists tx :: tx in txs && tx.Height().Some? && Top(txs, floor) == (tx.Height().value, tx.txid)
  {
    if txs != [] {
      var front, tx := txs[..|txs| - 1], txs[|txs| - 1];
      TopBounds(front, floor);
      var top := Top(front, floor);
      assert txs == front + [tx];
      if tx.Height().Some? {
        var m := (tx.Height().value, tx.txid);
        MarkOrder(top, m, m);
        MarkOrder(floor, top, m);
        forall x | x in front && x.Height().Some? ensures MarkLe((x.Height().value, x.txid), Top(txs, floor)) {
          MarkOrder((x.Height().value, x.txid), top, m);
        }
      }
    }
  }

  /** Starting from any mark at or below the top gives the same top. */
  lemma {:induction false} TopStable(txs: seq<Tx>, low: Mark, floor: Mark)
    requires MarkLe(low, floor) && MarkLe(floor, Top(txs, low))
    ensures Top(txs, floor) == Top(txs, low)
  {
    TopBounds(txs, low);
    TopBounds(txs, floor);
    var a, b := Top(txs, low), Top(txs, floor);
    MarkOrder(a, b, a);
    MarkOrder(floor, a, b);
    MarkOrder(low, floor, b);
    MarkOrder(low, a, floor);
  }

  lemma {:induction false} AscendsUnique(a: seq<Due>, b: seq<Due>)
    requires Ascends(a) && Ascends(b)
    requires forall d :: d in a <==> d in b
    ensures a == b
  {
    assert |a| > 0 ==> a[|a| - 1] in b;
    assert |b| > 0 ==> b[|b| - 1] in a;
    if a != [] {
      LastsAgree(a, b);
      var a', b' := a[..|a| - 1], b[..|b| - 1];
      assert a == a' + [a[|a| - 1]] && b == b' + [b[|b| - 1]];
      forall d ensures d in a' <==> d in b' {
        FrontHolds(a, d);
        FrontHolds(b, d);
      }
      AscendsUnique(a', b');
    }
  }

  lemma {:induction false} FrontHolds(a: seq<Due>, d: Due)
    requires Ascends(a) && a != []
    ensures d in a[..|a| - 1] <==> d in a && d != a[|a| - 1]
  {
    assert a == a[..|a| - 1] + [a[|a| - 1]];
    KeyOrder(d.key, d.key, d.key);
  }

  lemma {:induction false} LastsAgree(a: seq<Due>, b: seq<Due>)
    requires Ascends(a) && Ascends(b) && a != [] && b != []
    requires forall d :: d in a <==> d in b
    ensures a[|a| - 1] == b[|b| - 1]
  {
    var x, y := a[|a| - 1], b[|b| - 1];
    assert x in b && y in a;
    KeyOrder(x.key, y.key, x.key);
  }

  lemma {:induction false} SuffixHolds(due: seq<Due>, n: nat, d: Due)
    requires Ascends(due) && 0 < n <= |due|
    ensures d in due[n..] <==> d in due && KeyLt(due[n - 1].key, d.key)
  {
    if d in due {
      var i :| 0 <= i < |due| && due[i] == d;
      KeyOrder(due[n - 1].key, d.key, d.key);
      if i < n - 1 {
        assert KeyLt(due[i].key, due[n - 1].key);
      }
      if i >= n { assert due[n..][i - n] == d; }
    }
    if d in due[n..] {
      var j :| 0 <= j < |due[n..]| && due[n..][j] == d;
      assert KeyLt(due[n - 1].key, due[n + j].key);
    }
  }

  lemma {:induction false} KeyBelowTop(sn: Snapshot, d: Due)
    requires SnapshotOk(sn) && StillDue(sn, None, d)
    ensures d.key.Confirmed? ==> MarkLe((d.key.height, d.key.txid), Top(sn.txs, (0, "")))
  {
    TopBounds(sn.txs, (0, ""));
  }

  /** From any cursor over any sync, what the cursor of an emitted item leaves due: what sorts after the item
      in the plan; and, after a confirmed item, also the unconfirmed transactions the mempool mark had
      passed over, because a confirmed item's cursor carries no such mark. */
  lemma {:induction false} DueAfter(sn: Snapshot, from: Option<Cursor>, k: Due, d: Due)
    requires SnapshotOk(sn) && StillDue(sn, from, k)
    ensures StillDue(sn, Some(k.key.Cursor(Top(sn.txs, Floor(from)))), d) <==>
            || (StillDue(sn, from, d) && KeyLt(k.key, d.key))
            || (k.key.Confirmed? && d.tx in sn.txs && d == DueOf(d.tx) && d.key.Mempool? && Behind(from, d.tx))
  {
    if d.key.Confirmed? {
      ConfirmedAfter(sn, from, k, d);
    } else if MempoolAfter(from).Some? {
      var mark := MempoolAfter(from).value;
      LexTotal(mark, d.key.txid);
      LexIrreflexive(mark);
      if LexLt(d.key.txid, mark) { LexAsymmetric(d.key.txid, mark); }
      if k.key.Mempool? && LexLt(k.key.txid, d.key.txid) { LexTransitive(mark, k.key.txid, d.key.txid); }
    }
  }

  lemma {:induction false} ConfirmedAfter(sn: Snapshot, from: Option<Cursor>, k: Due, d: Due)
    requires SnapshotOk(sn) && StillDue(sn, from, k) && d.key.Confirmed?
    ensures StillDue(sn, Some(k.key.Cursor(Top(sn.txs, Floor(from)))), d) <==>
            StillDue(sn, from, d) && KeyLt(k.key, d.key)
  {
    var top, m := Top(sn.txs, Floor(from)), (d.key.height, d.key.txid);
    if d.tx in sn.txs && d.tx.Height() == Some(d.key.height) && d.tx.txid == d.key.txid {
      TopBounds(sn.txs, Floor(from));
      MarkOrder(top, m, top);
      if k.key.Confirmed? { MarkOrder(Floor(from), (k.key.height, k.key.txid), m); }
    }
  }

  /** Planning from where a reader stands gives the rest of the whole plan. */
  lemma {:induction false} PlanResumes(sn: Snapshot, whole: Plan, from: Option<Cursor>, n: nat)
    requires SnapshotOk(sn) && MakePlan(sn, None) == Some(whole) && At(whole, from, n)
    ensures MakePlan(sn, from) == Some(Plan(whole.items[n..], whole.highWater))
  {
    if n == 0 {
      assert whole.items[0..] == whole.items;
      assert DueList(sn, from) == DueList(sn, None);
    } else {
      DueResumes(sn, None, n);
      var due := DueList(sn, None);
      assert Render(sn, due[n..]) == whole.items[n..];
      MarkResumes(sn, whole, n);
    }
  }

  /** From a cursor without a mempool mark, or once past the confirmed items, an item's own cursor leaves
      exactly the items after it. */
  lemma {:induction false} DueResumes(sn: Snapshot, from: Option<Cursor>, n: nat)
    requires SnapshotOk(sn) && 0 < n <= |DueList(sn, from)|
    requires MempoolAfter(from).None? || DueList(sn, from)[n - 1].key.Mempool?
    ensures DueList(sn, Some(DueList(sn, from)[n - 1].key.Cursor(Top(sn.txs, Floor(from))))) == DueList(sn, from)[n..]
  {
    var due := DueList(sn, from);
    var next := Some(due[n - 1].key.Cursor(Top(sn.txs, Floor(from))));
    PlanIsStillDue(sn, from);
    PlanIsStillDue(sn, next);
    assert due[n - 1] in due;
    forall d ensures d in DueList(sn, next) <==> d in due[n..] {
      DueAfter(sn, from, due[n - 1], d);
      SuffixHolds(due, n, d);
    }
    AscendsUnique(DueList(sn, next), due[n..]);
  }

  lemma {:induction false} MarkResumes(sn: Snapshot, whole: Plan, n: nat)
    requires SnapshotOk(sn) && MakePlan(sn, None) == Some(whole) && 0 < n <= |whole.items|
    ensures Top(sn.txs, Floor(Some(whole.items[n - 1].key.Cursor(whole.highWater)))) == whole.highWater
  {
    var due := DueList(sn, None);
    PlanIsStillDue(sn, None);
    assert due[n - 1] in due;
    KeyBelowTop(sn, due[n - 1]);
    TopBounds(sn.txs, (0, ""));
    TopStable(sn.txs, (0, ""), Floor(Some(whole.items[n - 1].key.Cursor(whole.highWater))));
  }
}
