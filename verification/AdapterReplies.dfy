/** A history reply as the host hears it: for each requested resource, a page of the adapter's plan or nothing. */
module AdapterReplies {
  import opened Base
  import opened Folding
  import opened Tables
  import opened Sweeping
  import opened SweepResume
  import opened AdapterResume
  import opened Replies
  import HostReads
  import Cursors
  import Planning
  import Paging
  import Draining
  import Wallets
  import PageContents

  // ----- provenance ----------------------------------------------------------------------

  /** What is reported of one resource, under the adapter's own id. */
  predicate Own(ws: seq<Planning.Wire>, own: Id, r: Id) {
    forall w :: w in ws ==> w.ctx.adapterId == own && w.ctx.resourceId == r
  }

  /** A crawl reports under the constants of its wallet. */
  ghost predicate OwnCrawl(sn: Planning.Snapshot, own: Id, r: Id) {
    forall tx: Planning.Tx :: sn.render(tx).Some? ==>
      sn.render(tx).value.ctx.adapterId == own && sn.render(tx).value.ctx.resourceId == r
  }

  /** A synced wallet's crawl is its own. */
  lemma {:induction false} SyncIsOwn(ctx: Planning.Ctx, owned: set<string>, data: Wallets.ChainData)
    ensures OwnCrawl(Wallets.SnapshotOf(ctx, owned, data), ctx.adapterId, ctx.resourceId)
  {
  }

  ghost predicate OwnCrawls(w: World, queries: seq<Query>, crawls: map<Id, Planning.Snapshot>, own: Id) {
    forall i :: 0 <= i < |queries| && ServedFrom(w, queries[i], i, crawls).Some? ==>
      OwnCrawl(ServedFrom(w, queries[i], i, crawls).value, own, queries[i].resourceId)
  }

  lemma {:induction false} KeptOwn(sn: Planning.Snapshot, sz: Paging.Sizes, plan: Planning.Plan,
                                   from: Option<Cursors.Cursor>, n: nat, own: Id, r: Id)
    requires OwnCrawl(sn, own, r) && Planning.MakePlan(sn, from) == Some(plan) && n <= |plan.items|
    ensures Own(Paging.Kept(sz, plan.items[..n]), own, r)
  {
    forall w | w in Paging.Kept(sz, plan.items[..n]) ensures w.ctx.adapterId == own && w.ctx.resourceId == r {
      Paging.KeptIs(sz, plan.items[..n], w);
      var i :| 0 <= i < |plan.items[..n]| && plan.items[..n][i].obs.localId == w.localId
               && plan.items[..n][i].obs.ctx == w.ctx;
      assert plan.items[i].obs == sn.render(Planning.DueList(sn, from)[i].tx).value;
    }
  }

  lemma {:induction false} ShareOwn(w: World, q: Query, i: nat, abandoned: bool, left: nat,
                                    crawls: map<Id, Planning.Snapshot>, crawls': map<Id, Planning.Snapshot>,
                                    st: Status, share: seq<Planning.Wire>, own: Id)
    requires ShareOk(w, q, i, abandoned, left, crawls, crawls', st, share)
    requires ServedFrom(w, q, i, crawls).Some? ==> OwnCrawl(ServedFrom(w, q, i, crawls).value, own, q.resourceId)
    ensures Own(share, own, q.resourceId)
  {
    if st.page.Some? {
      PageOwn(w, q, ServedFrom(w, q, i, crawls).value, PageBudget(AfterEntry(w, i, st, left)), own, q.resourceId);
    }
  }

  lemma {:induction false} PageOwn(w: World, q: Query, sn: Planning.Snapshot, budget: nat, own: Id, r: Id)
    requires OwnCrawl(sn, own, r) && Draining.Serve(sn, w.sizes, Text(q.page), budget).Some?
    ensures Own(Draining.Serve(sn, w.sizes, Text(q.page), budget).value.observations, own, r)
  {
    var from := if Text(q.page).Some? then Cursors.Parse(Text(q.page).value) else None;
    var plan := Planning.MakePlan(sn, from).value;
    KeptOwn(sn, w.sizes, plan, from, Paging.Reach(w.sizes, plan.items, budget, 0), own, r);
  }

  // ----- what the host hears -------------------------------------------------------------

  /** The host's observations, one for each on the wire, with the wire's provenance. */
  predicate Heard(say: Mapping, ws: seq<Planning.Wire>, os: seq<Observation>) {
    |os| == |ws| && forall i :: 0 <= i < |os| ==>
      && ContentOf(os[i]) == say(ws[i])
      && os[i].adapterId == ws[i].ctx.adapterId && os[i].resourceId == ws[i].ctx.resourceId
  }

  lemma {:induction false} AdmittedConcat(xs: seq<Observation>, ys: seq<Observation>, input: Input)
    ensures Admitted(xs + ys, input) == Admitted(xs, input) + Admitted(ys, input)
  {
    if ys == [] {
      assert xs + ys == xs;
    } else {
      AdmittedConcat(xs, ys[..|ys| - 1], input);
      assert (xs + ys)[..|xs + ys| - 1] == xs + ys[..|ys| - 1];
    }
  }

  lemma {:induction false} AllOrNothing(os: seq<Observation>, input: Input, mine: bool)
    requires forall i :: 0 <= i < |os| ==>
               (os[i].adapterId == input.adapterId && os[i].resourceId == input.resourceId) == mine
    ensures Admitted(os, input) == if mine then os else []
  {
    if os != [] {
      assert os == os[..|os| - 1] + [os[|os| - 1]];
      AllOrNothing(os[..|os| - 1], input, mine);
    }
  }

  /** The resource filter keeps all of one share or none of it. */
  lemma {:induction false} ShareHeard(say: Mapping, ws: seq<Planning.Wire>, os: seq<Observation>, own: Id, r: Id,
                                      input: Input)
    requires Heard(say, ws, os) && Own(ws, own, r) && input.adapterId == own
    ensures Reports(Admitted(os, input)) == if r == input.resourceId then Said(say, ws) else []
  {
    forall i | 0 <= i < |os|
      ensures (os[i].adapterId == input.adapterId && os[i].resourceId == input.resourceId) == (r == input.resourceId)
    {
      assert ws[i] in ws;
    }
    AllOrNothing(os, input, r == input.resourceId);
  }

  ghost predicate SharesOwn(shares: seq<seq<Planning.Wire>>, ids: seq<Id>, own: Id) {
    |shares| <= |ids| && forall k :: 0 <= k < |shares| ==> Own(shares[k], own, ids[k])
  }

  /** Filtering a run of reports is filtering its two parts. */
  lemma {:induction false} HeardSplits(say: Mapping, xs: seq<Planning.Wire>, ys: seq<Planning.Wire>,
                                       os: seq<Observation>, input: Input)
    requires Heard(say, xs + ys, os)
    ensures Heard(say, xs, os[..|xs|]) && Heard(say, ys, os[|xs|..])
    ensures Reports(Admitted(os, input))
            == Reports(Admitted(os[..|xs|], input)) + Reports(Admitted(os[|xs|..], input))
  {
    assert os == os[..|xs|] + os[|xs|..];
    AdmittedConcat(os[..|xs|], os[|xs|..], input);
    forall i | 0 <= i < |ys|
      ensures var o := os[|xs|..][i];
              ContentOf(o) == say(ys[i]) && o.adapterId == ys[i].ctx.adapterId && o.resourceId == ys[i].ctx.resourceId
    {
      assert (xs + ys)[|xs| + i] == ys[i] && os[|xs|..][i] == os[|xs| + i];
    }
    forall i | 0 <= i < |xs|
      ensures var o := os[..|xs|][i];
              ContentOf(o) == say(xs[i]) && o.adapterId == xs[i].ctx.adapterId && o.resourceId == xs[i].ctx.resourceId
    {
      assert (xs + ys)[i] == xs[i];
    }
  }

  /** Of all the shares, the filter keeps the resource's own. */
  lemma {:induction false} SharesHeard(say: Mapping, shares: seq<seq<Planning.Wire>>, ids: seq<Id>, own: Id,
                                       os: seq<Observation>, input: Input, i: nat)
    requires HostReads.NoRepeat(ids) && SharesOwn(shares, ids, own) && Heard(say, Flatten(shares), os)
    requires i < |ids| && ids[i] == input.resourceId && input.adapterId == own
    ensures Reports(Admitted(os, input)) == if i < |shares| then Said(say, shares[i]) else []
  {
    if shares != [] {
      var front, share := shares[..|shares| - 1], shares[|shares| - 1];
      var c := |Flatten(front)|;
      HeardSplits(say, Flatten(front), share, os, input);
      assert SharesOwn(front, ids, own);
      SharesHeard(say, front, ids, own, os[..c], input, i);
      ShareHeard(say, share, os[c..], own, ids[|front|], input);
      OneMine(say, shares, ids, i, Reports(Admitted(os[..c], input)), Reports(Admitted(os[c..], input)));
    }
  }

  lemma {:induction false} OneMine(say: Mapping, shares: seq<seq<Planning.Wire>>, ids: seq<Id>, i: nat, x: seq<Content>,
                                   y: seq<Content>)
    requires HostReads.NoRepeat(ids) && 0 < |shares| <= |ids| && i < |ids|
    requires var n := |shares| - 1;
      && x == (if i < n then Said(say, shares[i]) else [])
      && y == (if ids[n] == ids[i] then Said(say, shares[n]) else [])
    ensures x + y == if i < |shares| then Said(say, shares[i]) else []
  {
    var n := |shares| - 1;
    assert ids[n] == ids[i] <==> n == i;
  }

  // ----- a reply -------------------------------------------------------------------------

  /** A successful reply to any request, once the host has read all of it: for each requested resource it is
      the adapter's answer from the snapshot the query was served from, within what the queries before it
      left, exactly when its wallet is known, none of them was rate limited and a snapshot could be had;
      otherwise it reports nothing. */
  lemma {:induction false} ReplyAnswers(w: World, queries: seq<Query>, crawls: map<Id, Planning.Snapshot>,
                                        crawls': map<Id, Planning.Snapshot>, reply: Reply,
                                        shares: seq<seq<Planning.Wire>>, own: Id, say: Mapping, read: HistoryRead,
                                        input: Input, i: nat)
    requires ReplyOk(w, queries, crawls, crawls', reply, shares) && OwnCrawls(w, queries, crawls, own)
    requires read.statuses == reply.statuses && Heard(say, reply.observations, read.observations)
    requires i < |queries| && queries[i].resourceId == input.resourceId && input.adapterId == own
    ensures var sn := ServedFrom(w, queries[i], i, crawls);
            var left := AfterEntry(w, i, reply.statuses[i], LeftBefore(w, queries, reply.statuses, shares, i));
            if w.known(queries[i].resourceId) && !Abandoned(w, queries, crawls, i) && sn.Some?
            then Answers(sn.value, w.sizes, say, queries[i].page, read, input, PageBudget(left))
            else Unread(read, input)
  {
    var ids, st := RequestIds(queries), reply.statuses[i];
    var left := LeftBefore(w, queries, reply.statuses, shares, i);
    assert HostReads.Ids(reply.statuses)[i] == ids[i];
    HostReads.OnlyStatus(reply.statuses, input.resourceId, i);
    forall k | 0 <= k < |shares| ensures Own(shares[k], own, ids[k]) {
      assert KthOk(w, queries, k, crawls, crawls', reply.statuses, shares);
      ShareOwn(w, queries[k], k, Abandoned(w, queries, crawls, k), LeftBefore(w, queries, reply.statuses, shares, k),
               crawls, crawls', reply.statuses[k], shares[k], own);
    }
    SharesHeard(say, shares, ids, own, read.observations, input, i);
    assert KthOk(w, queries, i, crawls, crawls', reply.statuses, shares);
    if st.page.Some? {
      ShareAnswers(w, queries[i], ServedFrom(w, queries[i], i, crawls).value, PageBudget(AfterEntry(w, i, st, left)),
                   crawls', st, shares[i], say, read, input);
    } else {
      assert |Reports(Admitted(read.observations, input))| == 0;
    }
  }

  /** A page's entry tells the host exactly which records the page moved past without showing, and how large
      each is; it is fetched, and its cursor is exact. */
  lemma {:induction false} EntryTells(sz: Paging.Sizes, plan: Planning.Plan, from: Option<Cursors.Cursor>, budget: nat,
                                      r: Id, l: Id, bytes: nat) returns (k: nat)
    ensures k <= |plan.items|
    ensures var page := Paging.Cut(sz, plan, from, budget);
            var st := EntryFor(r, page);
      && (Degraded(Some(l), bytes) in st.degraded <==>
           PageContents.SomeTooLarge(sz, plan.items[..k], Paging.Named(l, bytes)))
      && |page.observations| + |st.degraded| == k
      && st.resourceId == r && st.outcome == Fetched && st.page == Some(PageReply(Exact, Sent(page.next)))
  {
    var page := Paging.Cut(sz, plan, from, budget);
    if plan.items != [] {
      k := PageContents.PageSays(sz, plan, from, budget, plan.items[0].obs, Paging.Named(l, bytes));
    } else {
      k := 0;
    }
    var degraded := EntryFor(r, page).degraded;
    forall i | 0 <= i < |degraded| && degraded[i] == Degraded(Some(l), bytes)
      ensures Paging.Named(l, bytes) in page.degraded
    {
      assert page.degraded[i] == Paging.Named(l, bytes);
    }
    if Paging.Named(l, bytes) in page.degraded {
      var i :| 0 <= i < |page.degraded| && page.degraded[i] == Paging.Named(l, bytes);
      assert degraded[i] == Degraded(Some(l), bytes);
    }
  }
}
