/** Refreshing a bitcoin wallet whose chain has not moved: what two complete sweeps write. */
module AdapterRefresh {
  import opened Base
  import opened Folding
  import opened Tables
  import opened Sweeping
  import opened SweepResume
  import opened SweepRepeat
  import opened SweepRefresh
  import opened AdapterResume
  import AdapterSweep
  import Instants
  import Planning
  import Paging
  import Draining
  import Wallets

  // ----- what a drained session reports --------------------------------------------------

  /** The reports say of each observation on the wire what the host makes of it. */
  predicate Tells(say: Mapping, ws: seq<Planning.Wire>, os: seq<Observation>) {
    |os| == |ws| && forall i :: 0 <= i < |os| ==> ContentOf(os[i]) == say(ws[i])
  }

  /** The replies carry the pages of a session. */
  predicate Carried(say: Mapping, pages: seq<Paging.Page>, replies: seq<HistoryRead>, input: Input) {
    |replies| == |pages| && forall i :: 0 <= i < |replies| ==>
      Tells(say, pages[i].observations, Admitted(replies[i].observations, input))
  }

  lemma {:induction false} SessionTells(say: Mapping, pages: seq<Paging.Page>, replies: seq<HistoryRead>, input: Input)
    requires Carried(say, pages, replies, input)
    ensures Tells(say, Draining.Emitted(pages), AllAdmitted(replies, input))
  {
    if pages != [] {
      var m := |pages| - 1;
      SessionTells(say, pages[..m], replies[..m], input);
      assert Tells(say, pages[m].observations, Admitted(replies[m].observations, input));
    }
  }

  /** One finished session of the adapter from the start, carried to the host. */
  ghost predicate Sweeps(sn: Planning.Snapshot, sz: Paging.Sizes, say: Mapping, replies: seq<HistoryRead>,
                         input: Input) {
    exists budgets, pages :: Drains(sn, sz, budgets, pages) && Carried(say, pages, replies, input)
  }

  ghost predicate Drains(sn: Planning.Snapshot, sz: Paging.Sizes, budgets: seq<nat>, pages: seq<Paging.Page>) {
    Draining.Session(Draining.Adapter(sn, sz), None, budgets, pages) && pages != [] && pages[|pages| - 1].next.None?
  }

  lemma {:induction false} SweepTells(sn: Planning.Snapshot, sz: Paging.Sizes, whole: Planning.Plan, say: Mapping,
                                      replies: seq<HistoryRead>, input: Input)
    requires Draining.Whole(sn, whole) && Sweeps(sn, sz, say, replies, input)
    ensures Tells(say, Paging.Kept(sz, whole.items), AllAdmitted(replies, input))
  {
    var budgets, pages :| Drains(sn, sz, budgets, pages) && Carried(say, pages, replies, input);
    Draining.PagesAreThePlan(sn, sz, whole, budgets, pages);
    SessionTells(say, pages, replies, input);
  }

  // ----- one report per record -----------------------------------------------------------

  predicate IdsDiffer(ws: seq<Planning.Wire>) {
    forall i, j :: 0 <= i < j < |ws| ==> ws[i].localId != ws[j].localId
  }

  lemma {:induction false} KeptDiffer(sz: Paging.Sizes, items: seq<Planning.Item>)
    requires forall i, j :: 0 <= i < j < |items| ==> items[i].obs.localId != items[j].obs.localId
    ensures IdsDiffer(Paging.Kept(sz, items))
  {
    if items != [] {
      var front, it := items[..|items| - 1], items[|items| - 1];
      KeptDiffer(sz, front);
      forall w | w in Paging.Kept(sz, front) ensures w.localId != it.obs.localId {
        Paging.KeptIs(sz, front, w);
        var i :| 0 <= i < |front| && front[i].obs.localId == w.localId;
        assert items[i] == front[i];
      }
    }
  }

  /** The kept records of a synced wallet: distinct ids, all under the sync's own constants. */
  lemma {:induction false} KeptOfSync(ctx: Planning.Ctx, owned: set<string>, data: Wallets.ChainData,
                                      sz: Paging.Sizes, whole: Planning.Plan)
    requires Draining.Whole(Wallets.SnapshotOf(ctx, owned, data), whole)
    ensures IdsDiffer(Paging.Kept(sz, whole.items))
    ensures forall w :: w in Paging.Kept(sz, whole.items) ==> w.ctx == ctx
  {
    forall i, j | 0 <= i < j < |whole.items| ensures whole.items[i].obs.localId != whole.items[j].obs.localId {
      Wallets.PlanNamesEachRecordOnce(ctx, owned, data, None, whole, i, j);
    }
    KeptDiffer(sz, whole.items);
    forall w | w in Paging.Kept(sz, whole.items) ensures w.ctx == ctx {
      Paging.KeptIs(sz, whole.items, w);
    }
  }

  // ----- two sweeps ----------------------------------------------------------------------

  /** The host copies a record's id and the time of the crawl. */
  ghost predicate Copies(say: Mapping) {
    AdapterSweep.KeepsIds(say) && forall w :: say(w).observedAt == w.ctx.observedAt
  }

  /** Distinct seconds are printed differently. */
  lemma {:induction false} SecondsDiffer(now: int, later: int)
    requires Instants.Rfc3339Utc(now).Some? && Instants.Rfc3339Utc(now) == Instants.Rfc3339Utc(later)
    ensures now == later
  {
    Instants.PrintedInstant(now, Instants.Rfc3339Utc(now).value);
    Instants.PrintedInstant(later, Instants.Rfc3339Utc(now).value);
  }

  /** The reports of a sweep over the wallet: one per record, dated by the crawl. */
  lemma {:induction false} SweepReports(ctx: Planning.Ctx, owned: set<string>, data: Wallets.ChainData, now: int,
                                        sz: Paging.Sizes, whole: Planning.Plan, say: Mapping,
                                        replies: seq<HistoryRead>, input: Input)
    requires Copies(say) && Instants.Rfc3339Utc(now).Some?
    requires Draining.Whole(SyncedAt(ctx, owned, data, now), whole)
    requires Sweeps(SyncedAt(ctx, owned, data, now), sz, say, replies, input)
    ensures var os := AllAdmitted(replies, input);
      && Distinct(os) && Tells(say, Paging.Kept(sz, whole.items), os)
      && Reports(os) == Said(say, Paging.Kept(sz, whole.items))
      && forall i :: 0 <= i < |os| ==> os[i].observedAt == Instants.Rfc3339Utc(now).value
  {
    var at := Instants.Rfc3339Utc(now).value;
    var ws, os := Paging.Kept(sz, whole.items), AllAdmitted(replies, input);
    SweepTells(SyncedAt(ctx, owned, data, now), sz, whole, say, replies, input);
    KeptOfSync(ctx.(observedAt := at), owned, data, sz, whole);
    TellsOnce(say, ws, os, at);
  }

  lemma {:induction false} TellsOnce(say: Mapping, ws: seq<Planning.Wire>, os: seq<Observation>, at: string)
    requires Copies(say) && Tells(say, ws, os) && IdsDiffer(ws)
    requires forall w :: w in ws ==> w.ctx.observedAt == at
    ensures Distinct(os) && Reports(os) == Said(say, ws)
    ensures forall i :: 0 <= i < |os| ==> os[i].observedAt == at
  {
    forall i | 0 <= i < |os| ensures os[i].localId == ws[i].localId && os[i].observedAt == at {
      assert ContentOf(os[i]) == say(ws[i]);
      assert ws[i] in ws;
    }
  }

  /** What is said of one record, its time included. */
  lemma {:induction false} ContentAt(os: seq<Observation>, i: nat)
    requires Distinct(os) && i < |os|
    ensures os[i].localId in Contents(os) && Contents(os)[os[i].localId] == ContentOf(os[i])
  {
    var front := os[..|os| - 1];
    if i < |front| {
      assert forall k :: 0 <= k < |front| ==> front[k] == os[k];
      ContentAt(front, i);
    }
  }

  lemma {:induction false} AllOrNone(os: seq<Observation>, contents: map<Id, Content>, same: bool)
    requires forall i :: 0 <= i < |os| ==> SaysTheSame(os[i], contents) == same
    ensures Changed(os, contents) == if same then [] else os
  {
    if os != [] {
      var front := os[..|os| - 1];
      assert os == front + [os[|os| - 1]];
      AllOrNone(front, contents, same);
    }
  }

  /** Two sweeps that say the same, the time aside, repeat each other exactly when the time is the same. */
  lemma {:induction false} TimeDecides(xs: seq<Observation>, ys: seq<Observation>, at: string, at': string)
    requires Distinct(xs) && Reports(xs) == Reports(ys)
    requires forall i :: 0 <= i < |xs| ==> xs[i].observedAt == at
    requires forall i :: 0 <= i < |ys| ==> ys[i].observedAt == at'
    ensures Changed(ys, Contents(xs)) == if at == at' then [] else ys
    ensures LocalIds(xs) == LocalIds(ys)
  {
    assert |Reports(xs)| == |Reports(ys)|;
    forall i | 0 <= i < |ys| ensures xs[i].localId == ys[i].localId
                             ensures SaysTheSame(ys[i], Contents(xs)) == (at == at') {
      assert Undated(ContentOf(xs[i])) == Reports(xs)[i] == Undated(ContentOf(ys[i]));
      ContentAt(xs, i);
    }
    AllOrNone(ys, Contents(xs), at == at');
  }

  /** Two sweeps of a wallet over one chain, side by side. */
  lemma {:induction false} WalletTwice(ctx: Planning.Ctx, owned: set<string>, data: Wallets.ChainData, now: int,
                                       later: int, sz: Paging.Sizes, whole: Planning.Plan, say: Mapping, input: Input,
                                       first: seq<HistoryRead>, second: seq<HistoryRead>)
    requires CarriesTime(sz, say) && Copies(say)
    requires Instants.Rfc3339Utc(now).Some? && Instants.Rfc3339Utc(later).Some?
    requires Draining.Whole(SyncedAt(ctx, owned, data, now), whole)
    requires Sweeps(SyncedAt(ctx, owned, data, now), sz, say, first, input)
    requires Sweeps(SyncedAt(ctx, owned, data, later), sz, say, second, input)
    ensures var xs, ys := AllAdmitted(first, input), AllAdmitted(second, input);
      && Distinct(ys) && LocalIds(xs) == LocalIds(ys) && |ys| == |Paging.Kept(sz, whole.items)|
      && Changed(ys, Contents(xs)) == if now == later then [] else ys
  {
    ClockAlone(ctx, owned, data, now, later, sz, say);
    var whole' := LaterPlan(SyncedAt(ctx, owned, data, now), SyncedAt(ctx, owned, data, later), sz, whole, say);
    assert |Said(say, Paging.Kept(sz, whole.items))| == |Said(say, Paging.Kept(sz, whole'.items))|;
    SweepReports(ctx, owned, data, now, sz, whole, say, first, input);
    SweepReports(ctx, owned, data, later, sz, whole', say, second, input);
    if Instants.Rfc3339Utc(now) == Instants.Rfc3339Utc(later) { SecondsDiffer(now, later); }
    TimeDecides(AllAdmitted(first, input), AllAdmitted(second, input), Instants.Rfc3339Utc(now).value,
                Instants.Rfc3339Utc(later).value);
  }

  lemma {:induction false} LaterPlan(sn: Planning.Snapshot, sn': Planning.Snapshot, sz: Paging.Sizes,
                                     whole: Planning.Plan, say: Mapping) returns (whole': Planning.Plan)
    requires Draining.Whole(sn, whole) && Alike(sn, sn', sz, say)
    ensures Draining.Whole(sn', whole')
    ensures Said(say, Paging.Kept(sz, whole.items)) == Said(say, Paging.Kept(sz, whole'.items))
  {
    PlansAlike(sn, sn', sz, say, None);
    whole' := Planning.MakePlan(sn', None).value;
    KeptAlike(sz, say, whole.items, whole'.items);
  }

  /** A complete sweep of a wallet, then another whose sync found the same chain: no row is written exactly
      when both syncs fell in the same second, or the wallet has nothing to report; otherwise one row for
      every kept record, although none of them changed. */
  lemma {:induction false} RefreshRewritesTheWallet(step: PageStepper, ctx: Planning.Ctx, owned: set<string>,
                                                    data: Wallets.ChainData, now: int, later: int, sz: Paging.Sizes,
                                                    whole: Planning.Plan, say: Mapping, t0: Tables, input: Input,
                                                    first: seq<HistoryRead>, second: seq<HistoryRead>)
    requires IsPageStep(step) && CarriesTime(sz, say) && Copies(say)
    requires Instants.Rfc3339Utc(now).Some? && Instants.Rfc3339Utc(later).Some?
    requires Draining.Whole(SyncedAt(ctx, owned, data, now), whole)
    requires Sweeps(SyncedAt(ctx, owned, data, now), sz, say, first, input)
    requires Sweeps(SyncedAt(ctx, owned, data, later), sz, say, second, input)
    requires Completes(step, t0, input, first) && !VantageMoved(t0, input)
    requires InOrder(t0, input, AllAdmitted(first, input))
    requires RunsToEnd(step, ReadPages(step, Started(t0, input), first).tables, input, second)
    ensures var t1 := ReadPages(step, Started(t0, input), first).tables;
            var t2 := ReadPages(step, Started(t1, input), second).tables;
      && Appends(t1.rows, t2.rows, if now == later then [] else AllAdmitted(second, input))
      && |t2.rows| == |t1.rows| + if now == later then 0 else |Paging.Kept(sz, whole.items)|
  {
    WalletTwice(ctx, owned, data, now, later, sz, whole, say, input, first, second);
    RefreshAppendsTheChanged(step, t0, input, first, second);
  }
}
