/** `sync` (adapters/bitcoin/src/wallet.rs): one wallet's listings merged into one snapshot. */
module Wallets {
  import opened Base
  import opened Cursors
  import opened Planning

  datatype FetchError = RateLimited | Unavailable

  type Fetch = string -> Result<seq<Tx>, FetchError>

  datatype ChainData = ChainData(txs: seq<Tx>, mempool: seq<string>)

  /** Which copy of a transaction is kept when listings repeat it: the last confirmed one, else the
      first one seen. */
  function Winner(listed: seq<Tx>, t: string): Option<Tx> {
    if listed == [] then None
    else
      var tx, before := listed[|listed| - 1], Winner(listed[..|listed| - 1], t);
      if tx.txid == t && (tx.Height().Some? || before.None?) then Some(tx) else before
  }

  lemma {:induction false} WinnerIsListed(listed: seq<Tx>, t: string)
    ensures Winner(listed, t).None? <==> forall tx :: tx in listed ==> tx.txid != t
    ensures Winner(listed, t).Some? ==> Winner(listed, t).value in listed && Winner(listed, t).value.txid == t
  {
    if listed != [] {
      assert listed == listed[..|listed| - 1] + [listed[|listed| - 1]];
      WinnerIsListed(listed[..|listed| - 1], t);
    }
  }

  /** A confirmed copy always wins, so a transaction confirming mid-sync is never kept as pending. */
  lemma {:induction false} ConfirmedCopyWins(listed: seq<Tx>, t: string)
    ensures (exists tx :: tx in listed && tx.txid == t && tx.Height().Some?) <==>
            Winner(listed, t).Some? && Winner(listed, t).value.Height().Some?
  {
    if listed != [] {
      var front, last := listed[..|listed| - 1], listed[|listed| - 1];
      assert listed == front + [last];
      ConfirmedCopyWins(front, t);
      if exists tx :: tx in front && tx.txid == t && tx.Height().Some? {
        var tx :| tx in front && tx.txid == t && tx.Height().Some?;
        assert tx in listed;
      }
    }
  }

  /** `BTreeMap::insert`, on the map's values in key order. */
  function Put(txs: seq<Tx>, tx: Tx): seq<Tx> {
    if txs == [] || LexLt(txs[|txs| - 1].txid, tx.txid) then txs + [tx]
    else if txs[|txs| - 1].txid == tx.txid then txs[..|txs| - 1] + [tx]
    else Put(txs[..|txs| - 1], tx) + [txs[|txs| - 1]]
  }

  lemma {:induction false} PutHolds(txs: seq<Tx>, tx: Tx)
    requires TxsAscend(txs)
    ensures TxsAscend(Put(txs, tx))
    ensures forall x :: x in Put(txs, tx) <==> x == tx || (x in txs && x.txid != tx.txid)
  {
    if txs != [] {
      var front, last := txs[..|txs| - 1], txs[|txs| - 1];
      assert txs == front + [last];
      LexTotal(last.txid, tx.txid);
      forall x | x in front ensures LexLt(x.txid, last.txid) {}
      if LexLt(last.txid, tx.txid) {
        forall x | x in txs ensures LexLt(x.txid, tx.txid) {
          if x in front { LexTransitive(x.txid, last.txid, tx.txid); }
        }
        LexIrreflexive(tx.txid);
      } else if last.txid == tx.txid {
        LexIrreflexive(tx.txid);
      } else {
        PutHolds(front, tx);
        LexAsymmetric(tx.txid, last.txid);
      }
    }
  }

  ghost predicate Merged(listed: seq<Tx>, txs: seq<Tx>) {
    TxsAscend(txs) && forall tx :: tx in txs <==> Winner(listed, tx.txid) == Some(tx)
  }

  lemma {:induction false} LookupIsWinner(listed: seq<Tx>, txs: seq<Tx>, t: string)
    requires Merged(listed, txs)
    ensures Lookup(txs, t) == Winner(listed, t)
  {
    WinnerIsListed(listed, t);
    if Winner(listed, t).Some? {
      OneTxPerId(txs, Lookup(txs, t).value, Winner(listed, t).value);
    }
  }

  /** The confirmed-copy-wins rule keeps the map in step with the listings. */
  lemma {:induction false} MergeOne(listed: seq<Tx>, txs: seq<Tx>, tx: Tx)
    requires Merged(listed, txs)
    ensures Merged(listed + [tx], if tx.Height().Some? || Lookup(txs, tx.txid).None? then Put(txs, tx) else txs)
  {
    assert (listed + [tx])[..|listed|] == listed;
    PutHolds(txs, tx);
    LookupIsWinner(listed, txs, tx.txid);
  }

  function Unconfirmed(txs: seq<Tx>): seq<string> {
    if txs == [] then []
    else Unconfirmed(txs[..|txs| - 1]) + if txs[|txs| - 1].Height().None? then [txs[|txs| - 1].txid] else []
  }

  lemma {:induction false} UnconfirmedHolds(txs: seq<Tx>)
    requires TxsAscend(txs)
    ensures LexSorted(Unconfirmed(txs))
    ensures forall t :: t in Unconfirmed(txs) <==> Pending(txs, t)
  {
    if txs != [] {
      var front, last := txs[..|txs| - 1], txs[|txs| - 1];
      assert txs == front + [last];
      UnconfirmedHolds(front);
      forall t | t in Unconfirmed(front) ensures LexLt(t, last.txid) {
        assert Pending(front, t);
      }
      forall t ensures Pending(txs, t) <==> Pending(front, t) || (last.Height().None? && t == last.txid) {
        if Pending(txs, t) {
          var tx :| tx in txs && tx.txid == t && tx.Height().None?;
        }
        if Pending(front, t) {
          var tx :| tx in front && tx.txid == t && tx.Height().None?;
          assert tx in txs;
        }
      }
    }
  }

  /** Everything the provider lists for the wallet, in the order it is read; `None` if a fetch fails. */
  function Listed(addresses: seq<string>, chain: Fetch, pending: Fetch): Option<seq<Tx>> {
    if addresses == [] then Some([])
    else
      var front := Listed(addresses[..|addresses| - 1], chain, pending);
      var c, p := chain(addresses[|addresses| - 1]), pending(addresses[|addresses| - 1]);
      if front.None? || c.Err? || p.Err? then None else Some(front.value + (c.value + p.value))
  }

  predicate RealTxids(txs: seq<Tx>) { forall i :: 0 <= i < |txs| ==> IsTxid(txs[i].txid) }

  lemma {:induction false} ListedPrefix(addresses: seq<string>, chain: Fetch, pending: Fetch, n: nat)
    requires n <= |addresses| && Listed(addresses, chain, pending).Some?
    ensures Listed(addresses[..n], chain, pending).Some?
    ensures Listed(addresses[..n], chain, pending).value <= Listed(addresses, chain, pending).value
    decreases |addresses| - n
  {
    if n < |addresses| {
      ListedPrefix(addresses, chain, pending, n + 1);
      assert addresses[..n + 1][..n] == addresses[..n];
    } else {
      assert addresses[..n] == addresses;
    }
  }

  lemma {:induction false} OneMoreListed(listed: seq<Tx>, more: seq<Tx>, i: nat)
    requires i < |more|
    ensures listed + more[..i] + [more[i]] == listed + more[..i + 1]
    ensures RealTxids(more[..i]) && IsTxid(more[i].txid) ==> RealTxids(more[..i + 1])
  {
    assert more[..i] + [more[i]] == more[..i + 1];
  }

  /** One address's listing into the map; stops at a txid that is not one. */
  method MergeListing(ghost listed: seq<Tx>, txs: seq<Tx>, more: seq<Tx>) returns (ok: bool, out: seq<Tx>)
    requires Merged(listed, txs)
    ensures ok <==> RealTxids(more)
    ensures ok ==> Merged(listed + more, out)
  {
    ok, out := true, txs;
    var i := 0;
    assert listed + more[..i] == listed;
    while i < |more|
      invariant i <= |more| && RealTxids(more[..i])
      invariant Merged(listed + more[..i], out)
    {
      var tx := more[i];
      if !IsTxid(tx.txid) { return false, out; }
      out := MergeTx(listed + more[..i], out, tx);
      OneMoreListed(listed, more, i);
      i := i + 1;
    }
    assert more[..i] == more;
  }

  /** A repeated transaction replaces the copy in hand only when it is confirmed. */
  method MergeTx(ghost listed: seq<Tx>, txs: seq<Tx>, tx: Tx) returns (out: seq<Tx>)
    requires Merged(listed, txs)
    ensures Merged(listed + [tx], out)
  {
    MergeOne(listed, txs, tx);
    out := if tx.Height().Some? || Lookup(txs, tx.txid).None? then Put(txs, tx) else txs;
  }

  /** Reading the address fails: a listing cannot be fetched, or names what is no txid. */
  predicate FailsAt(chain: Fetch, pending: Fetch, address: string) {
    chain(address).Err? || pending(address).Err? || !RealTxids(chain(address).value + pending(address).value)
  }

  predicate NoneFails(addresses: seq<string>, chain: Fetch, pending: Fetch, n: nat) {
    n <= |addresses| && forall j :: 0 <= j < n ==> !FailsAt(chain, pending, addresses[j])
  }

  predicate FirstFails(addresses: seq<string>, chain: Fetch, pending: Fetch, i: nat) {
    i < |addresses| && FailsAt(chain, pending, addresses[i]) && NoneFails(addresses, chain, pending, i)
  }

  /** With what: the confirmed listing is fetched first. */
  function ErrorAt(chain: Fetch, pending: Fetch, address: string): FetchError {
    match (chain(address), pending(address))
    case (Err(error), _) => error
    case (_, Err(error)) => error
    case _ => Unavailable
  }

  /** `sync`: it succeeds exactly when every fetch did and every listed txid is one; then the map holds
      the winning copy of each listed transaction, and the mempool is exactly the unconfirmed ones. It fails
      as the first address that fails does. */
  method Sync(addresses: seq<string>, chain: Fetch, pending: Fetch) returns (r: Result<ChainData, FetchError>)
    ensures r.Ok? <==> Listed(addresses, chain, pending).Some? && RealTxids(Listed(addresses, chain, pending).value)
    ensures r.Ok? ==> Merged(Listed(addresses, chain, pending).value, r.value.txs)
    ensures r.Ok? ==> LexSorted(r.value.mempool) && forall t :: t in r.value.mempool <==> Pending(r.value.txs, t)
    ensures r.Err? ==> exists i: nat :: FirstFails(addresses, chain, pending, i)
                                        && r.error == ErrorAt(chain, pending, addresses[i])
  {
    var txs: seq<Tx> := [];
    ghost var listed: seq<Tx> := [];
    for i := 0 to |addresses|
      invariant Listed(addresses[..i], chain, pending) == Some(listed) && RealTxids(listed) && Merged(listed, txs)
      invariant NoneFails(addresses, chain, pending, i)
    {
      assert addresses[..i + 1][..i] == addresses[..i];
      var c, p := chain(addresses[i]), pending(addresses[i]);
      if Listed(addresses, chain, pending).Some? { ListedPrefix(addresses, chain, pending, i + 1); }
      if c.Err? || p.Err? {
        assert FirstFails(addresses, chain, pending, i);
        return Err(if c.Err? then c.error else p.error);
      }
      var more := c.value + p.value;
      var ok, merged := MergeListing(listed, txs, more);
      if !ok {
        FirstBadTxid(addresses, chain, pending, i, listed, more);
        assert FirstFails(addresses, chain, pending, i);
        return Err(Unavailable);
      }
      txs, listed := merged, listed + more;
    }
    assert addresses[..|addresses|] == addresses;
    UnconfirmedHolds(txs);
    r := Ok(ChainData(txs, Unconfirmed(txs)));
  }

  lemma {:induction false} FirstBadTxid(addresses: seq<string>, chain: Fetch, pending: Fetch, i: nat, listed: seq<Tx>,
                                        more: seq<Tx>)
    requires i < |addresses| && Listed(addresses[..i + 1], chain, pending) == Some(listed + more) && !RealTxids(more)
    ensures Listed(addresses, chain, pending).Some? ==> !RealTxids(Listed(addresses, chain, pending).value)
  {
    if Listed(addresses, chain, pending).Some? {
      ListedPrefix(addresses, chain, pending, i + 1);
      var k :| 0 <= k < |more| && !IsTxid(more[k].txid);
      assert (listed + more)[|listed| + k] == more[k];
      assert Listed(addresses, chain, pending).value[|listed| + k] == more[k];
    }
  }

  /** What a crawl keeps of one sync: its transactions, and the constants they are reported with. */
  function SnapshotOf(ctx: Ctx, owned: set<string>, data: ChainData): Snapshot {
    Snapshot((tx: Tx) => Active(ctx, owned, tx), data.txs, data.mempool)
  }

  /** A synced wallet is a snapshot the plan may rely on. */
  lemma {:induction false} SyncGivesSnapshot(ctx: Ctx, owned: set<string>, data: ChainData, listed: seq<Tx>)
    requires RealTxids(listed) && Merged(listed, data.txs)
    requires LexSorted(data.mempool) && forall t :: t in data.mempool <==> Pending(data.txs, t)
    requires forall tx :: tx in listed && tx.blockHeight.Some? ==> tx.blockHeight.value < U64
    ensures SnapshotOk(SnapshotOf(ctx, owned, data))
  {
    forall tx | tx in data.txs
      ensures IsTxid(tx.txid) && (tx.Height().Some? ==> tx.Height().value < U64)
    {
      WinnerIsListed(listed, tx.txid);
      var i :| 0 <= i < |listed| && listed[i] == tx;
    }
  }

  /** Two places of a plan hold two transactions. */
  lemma {:induction false} DueTxidsDiffer(sn: Snapshot, from: Option<Cursor>, i: nat, j: nat)
    requires SnapshotOk(sn) && i < j < |DueList(sn, from)|
    ensures var due := DueList(sn, from);
      && due[i].tx in sn.txs && due[j].tx in sn.txs && due[i].tx.txid != due[j].tx.txid
      && (due[i].key.Confirmed? <==> due[i].tx.Height().Some?) && (due[j].key.Confirmed? <==> due[j].tx.Height().Some?)
  {
    var due := DueList(sn, from);
    PlanIsStillDue(sn, from);
    assert due[i] in due && due[j] in due;
    KeyOrder(due[i].key, due[j].key, due[i].key);
    if due[i].tx.txid == due[j].tx.txid { OneTxPerId(sn.txs, due[i].tx, due[j].tx); }
  }

  /** A plan reports each record once, under its own local id, posted exactly when it is confirmed. */
  lemma {:induction false} PlanNamesEachRecordOnce(ctx: Ctx, owned: set<string>, data: ChainData, from: Option<Cursor>,
                                                   plan: Plan, i: nat, j: nat)
    requires SnapshotOk(SnapshotOf(ctx, owned, data)) && MakePlan(SnapshotOf(ctx, owned, data), from) == Some(plan)
    requires i < j < |plan.items|
    ensures plan.items[i].obs.localId != plan.items[j].obs.localId
    ensures plan.items[i].obs.posted <==> plan.items[i].key.Confirmed?
    ensures plan.items[j].obs.posted <==> plan.items[j].key.Confirmed?
  {
    var sn := SnapshotOf(ctx, owned, data);
    var due := DueList(sn, from);
    DueTxidsDiffer(sn, from, i, j);
    RenderedFrom(ctx, owned, due[i].tx);
    RenderedFrom(ctx, owned, due[j].tx);
    if plan.items[i].obs.localId == plan.items[j].obs.localId {
      LocalIdIsInjective(ctx.resourceId, due[i].tx.txid, ctx.resourceId, due[j].tx.txid);
    }
  }

  lemma {:induction false} RenderedFrom(ctx: Ctx, owned: set<string>, tx: Tx)
    ensures var w := Active(ctx, owned, tx);
            w.Some? ==> w.value.localId == LocalId(ctx.resourceId, tx.txid) && (w.value.posted <==> tx.Height().Some?)
  {
  }

  // ----- what is listed, and which copy wins ---------------------------------------------

  /** The copy at `i` is kept: the last confirmed copy of its transaction, or the first of all if none is. */
  predicate Wins(listed: seq<Tx>, t: string, i: nat) {
    && i < |listed| && listed[i].txid == t
    && if listed[i].Height().Some?
       then forall j :: i < j < |listed| && listed[j].txid == t ==> listed[j].Height().None?
       else forall j :: 0 <= j < |listed| && j != i && listed[j].txid == t ==> i < j && listed[j].Height().None?
  }

  lemma {:induction false} WinnerWins(listed: seq<Tx>, t: string) returns (i: nat)
    requires exists k :: 0 <= k < |listed| && listed[k].txid == t
    ensures Wins(listed, t, i) && Winner(listed, t) == Some(listed[i])
  {
    var front, last := listed[..|listed| - 1], listed[|listed| - 1];
    assert listed == front + [last];
    WinnerIsListed(front, t);
    if last.txid == t && (last.Height().Some? || Winner(front, t).None?) {
      i := |front|;
      forall j | 0 <= j < |front| && listed[j].txid == t ensures Winner(front, t).Some? { assert front[j] in front; }
    } else {
      assert exists k :: 0 <= k < |front| && front[k].txid == t by {
        var k :| 0 <= k < |listed| && listed[k].txid == t;
        if k == |front| {
          var tx := Winner(front, t).value;
          var j :| 0 <= j < |front| && front[j] == tx;
        } else {
          assert front[k].txid == t;
        }
      }
      i := WinnerWins(front, t);
      assert listed[i] == front[i];
      assert forall j :: 0 <= j < |front| ==> front[j] == listed[j];
    }
  }

  /** Every transaction either listing of an address names is read, and no other. */
  lemma {:induction false} ListedHolds(addresses: seq<string>, chain: Fetch, pending: Fetch, tx: Tx)
    requires Listed(addresses, chain, pending).Some?
    ensures tx in Listed(addresses, chain, pending).value <==>
            exists i :: 0 <= i < |addresses|
                        && ((chain(addresses[i]).Ok? && tx in chain(addresses[i]).value)
                            || (pending(addresses[i]).Ok? && tx in pending(addresses[i]).value))
  {
    if addresses != [] {
      var n := |addresses| - 1;
      ListedHolds(addresses[..n], chain, pending, tx);
      if tx in Listed(addresses[..n], chain, pending).value {
        var i :| 0 <= i < n && ((chain(addresses[..n][i]).Ok? && tx in chain(addresses[..n][i]).value)
                                || (pending(addresses[..n][i]).Ok? && tx in pending(addresses[..n][i]).value));
        assert addresses[i] == addresses[..n][i];
      }
    }
  }

  /** A wallet is read only if every listing of every address is. */
  lemma {:induction false} ListedIff(addresses: seq<string>, chain: Fetch, pending: Fetch)
    ensures Listed(addresses, chain, pending).Some? <==>
            forall i :: 0 <= i < |addresses| ==> chain(addresses[i]).Ok? && pending(addresses[i]).Ok?
  {
    if addresses != [] { ListedIff(addresses[..|addresses| - 1], chain, pending); }
  }
}
