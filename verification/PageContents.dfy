/** What a page says of each record it moves past: whole, cut down, or by name only
    (adapters/bitcoin/src/map.rs). */
module PageContents {
  import opened Base
  import opened Cursors
  import opened Planning
  import opened Paging

  predicate Fits(sz: Sizes, obs: Wire) { sz.wire(obs) <= MAX_OBSERVATION_BYTES }

  /** The record without its unbounded field. */
  function CutDown(sz: Sizes, obs: Wire): Wire { obs.(extra := Truncated(sz.extra(obs.extra)), complete := false) }

  /** How a record may appear: whole if it fits, and otherwise cut down, if that fits. */
  predicate Appears(sz: Sizes, obs: Wire, w: Wire) {
    if Fits(sz, obs) then w == obs else w == CutDown(sz, obs) && Fits(sz, w)
  }

  /** Neither fits: the record is named, with the size it would still have. */
  predicate TooLarge(sz: Sizes, obs: Wire, n: Named) {
    !Fits(sz, obs) && !Fits(sz, CutDown(sz, obs)) && n == Named(obs.localId, sz.wire(CutDown(sz, obs)))
  }

  /** One more item adds one record or one name, never both. */
  lemma {:induction false} ItemAdds(sz: Sizes, items: seq<Item>, n: nat)
    requires n < |items|
    ensures var obs := items[n].obs;
      || (exists w :: Appears(sz, obs, w) && Kept(sz, items[..n + 1]) == Kept(sz, items[..n]) + [w]
                      && Degrades(sz, items[..n + 1]) == Degrades(sz, items[..n])
                      && Cost(sz, items[..n + 1]) == Cost(sz, items[..n]) + sz.wire(w) + 1)
      || (exists d :: TooLarge(sz, obs, d) && Degrades(sz, items[..n + 1]) == Degrades(sz, items[..n]) + [d]
                      && Kept(sz, items[..n + 1]) == Kept(sz, items[..n])
                      && Cost(sz, items[..n + 1]) == Cost(sz, items[..n]))
  {
    OneMore(sz, items, n);
    var obs := items[n].obs;
    if Fits(sz, obs) {
      assert Appears(sz, obs, obs);
    } else if Fits(sz, CutDown(sz, obs)) {
      assert Appears(sz, obs, CutDown(sz, obs));
    } else {
      assert TooLarge(sz, obs, Named(obs.localId, sz.wire(CutDown(sz, obs))));
    }
  }

  ghost predicate SomeAppears(sz: Sizes, items: seq<Item>, w: Wire) {
    exists i :: 0 <= i < |items| && Appears(sz, items[i].obs, w)
  }

  ghost predicate SomeTooLarge(sz: Sizes, items: seq<Item>, n: Named) {
    exists i :: 0 <= i < |items| && TooLarge(sz, items[i].obs, n)
  }

  lemma {:induction false} SomeMore(sz: Sizes, items: seq<Item>, k: nat, w: Wire, n: Named)
    requires k < |items|
    ensures SomeAppears(sz, items[..k + 1], w) <==> SomeAppears(sz, items[..k], w) || Appears(sz, items[k].obs, w)
    ensures SomeTooLarge(sz, items[..k + 1], n) <==> SomeTooLarge(sz, items[..k], n) || TooLarge(sz, items[k].obs, n)
  {
    assert items[..k + 1][k] == items[k];
    assert forall i :: 0 <= i < k ==> items[..k + 1][i] == items[..k][i];
  }

  lemma {:induction false} PrefixSays(sz: Sizes, items: seq<Item>, k: nat, w: Wire, n: Named)
    requires k <= |items|
    ensures w in Kept(sz, items[..k]) <==> SomeAppears(sz, items[..k], w)
    ensures n in Degrades(sz, items[..k]) <==> SomeTooLarge(sz, items[..k], n)
  {
    if k > 0 {
      PrefixSays(sz, items, k - 1, w, n);
      SomeMore(sz, items, k - 1, w, n);
      ItemAdds(sz, items, k - 1);
    }
  }

  /** A page says of every item it moves past exactly one thing: the record whole if it fits, cut down if only
      that fits, its name and size if neither does; and it says nothing else. It is the longest run of items
      its budget affords, and reports a count exactly when it was cut. */
  lemma {:induction false} PageSays(sz: Sizes, plan: Plan, from: Option<Cursor>, budget: nat, w: Wire, n: Named)
      returns (k: nat)
    ensures k <= |plan.items|
    ensures var page := Cut(sz, plan, from, budget);
      && (w in page.observations <==> SomeAppears(sz, plan.items[..k], w))
      && (n in page.degraded <==> SomeTooLarge(sz, plan.items[..k], n))
      && |page.observations| + |page.degraded| == k
      && page.bytes == Cost(sz, plan.items[..k]) <= budget
      && (k < |plan.items| ==> Cost(sz, plan.items[..k + 1]) > budget)
      && (page.next.None? <==> k == |plan.items|)
      && page.reducedTo == (if page.next.None? then None else Some(|page.observations|))
  {
    k := Reach(sz, plan.items, budget, 0);
    PrefixSays(sz, plan.items, k, w, n);
    OneEach(sz, plan.items, k);
  }

  lemma {:induction false} OneEach(sz: Sizes, items: seq<Item>, k: nat)
    requires k <= |items|
    ensures |Kept(sz, items[..k])| + |Degrades(sz, items[..k])| == k
  {
    if k > 0 {
      OneEach(sz, items, k - 1);
      ItemAdds(sz, items, k - 1);
    }
  }
}
