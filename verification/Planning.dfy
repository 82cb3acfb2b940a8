/** One sync's emission list (adapters/bitcoin/src/map.rs): confirmed transactions above the resume
    mark in ascending order, then the unconfirmed ones by txid. */
module Planning {
  import opened Base
  import opened Cursors
  import Instants
  import Calendar

  // ----- provider transactions and what is reported of them ------------------------------

  datatype Vout = Vout(address: Option<string>, value: nat)

  datatype Tx = Tx(txid: string, fee: nat, confirmed: bool, blockHeight: Option<nat>, blockHash: Option<string>,
                   blockTime: Option<int>, vin: seq<Option<Vout>>, vout: seq<Vout>)
  {
    /** Confirmed without a height counts as unconfirmed. */
    function Height(): Option<nat> { if confirmed then blockHeight else None }
  }

  datatype Ctx = Ctx(resourceId: string, adapterId: string, providerId: string, observedAt: string)

  datatype Extra = Extra(confirmed: bool, blockHeight: Option<nat>, blockHash: Option<string>)
                 | Truncated(originalBytes: nat)

  datatype Wire = Wire(ctx: Ctx, localId: string, txid: string, posted: bool, amount: int, fees: Option<nat>,
                       effectiveAt: Option<string>, complete: bool, extra: Extra)

  predicate IsOwned(o: Vout, owned: set<string>) { o.address.Some? && o.address.value in owned }

  function Received(outs: seq<Vout>, owned: set<string>): nat {
    if outs == [] then 0
    else Received(outs[1..], owned) + if IsOwned(outs[0], owned) then outs[0].value else 0
  }

  function Prevouts(ins: seq<Option<Vout>>): seq<Vout> {
    if ins == [] then [] else (if ins[0].Some? then [ins[0].value] else []) + Prevouts(ins[1..])
  }

  function NetDelta(tx: Tx, owned: set<string>): int {
    Received(tx.vout, owned) - Received(Prevouts(tx.vin), owned)
  }

  predicate WalletSpent(tx: Tx, owned: set<string>) {
    exists i :: 0 <= i < |tx.vin| && tx.vin[i].Some? && IsOwned(tx.vin[i].value, owned)
  }

  function LocalId(resourceId: string, txid: string): string { resourceId + ":" + txid }

  /** `active`: it fails only on a block time no timestamp can spell. */
  function Active(ctx: Ctx, owned: set<string>, tx: Tx): Option<Wire> {
    var at := if tx.blockTime.Some? then Instants.Rfc3339Utc(tx.blockTime.value) else None;
    if tx.blockTime.Some? && at.None? then None
    else
      Some(Wire(ctx, LocalId(ctx.resourceId, tx.txid), tx.txid, tx.Height().Some?, NetDelta(tx, owned),
                if WalletSpent(tx, owned) then Some(tx.fee) else None, at, true,
                Extra(tx.confirmed, tx.Height(), tx.blockHash)))
  }

  /** A transaction is reported unless its block time falls outside the years a timestamp can spell... */
  lemma {:induction false} ActiveFailsIff(ctx: Ctx, owned: set<string>, tx: Tx)
    ensures Active(ctx, owned, tx).None? <==>
            tx.blockTime.Some? && !(0 <= Calendar.CivilFromDays(tx.blockTime.value / 86400).year <= 9999)
  {
    if tx.blockTime.Some? { Instants.PrintableIff(tx.blockTime.value); }
  }

  /** ... and its effective time is read back as that very second. */
  lemma {:induction false} ActiveTellsBlockTime(ctx: Ctx, owned: set<string>, tx: Tx, at: string)
    requires Active(ctx, owned, tx).Some? && Active(ctx, owned, tx).value.effectiveAt == Some(at)
    ensures tx.blockTime.Some? && Instants.Instant(at) == Some(Instants.Moment(tx.blockTime.value, 0))
  {
    Instants.PrintedInstant(tx.blockTime.value, at);
  }

  /** The resource prefix keeps the chains of two wallets that share a transaction apart. */
  lemma {:induction false} LocalIdIsInjective(r: string, t: string, r': string, t': string)
    requires IsTxid(t) && IsTxid(t') && LocalId(r, t) == LocalId(r', t')
    ensures r == r' && t == t'
  {
    var s := LocalId(r, t);
    assert s[|s| - 64..] == t && s[|s| - 64..] == t';
    assert s[..|s| - 65] == r && s[..|s| - 65] == r';
  }

  predicate AllOwned(outs: seq<Vout>, owned: set<string>) { forall i :: 0 <= i < |outs| ==> IsOwned(outs[i], owned) }

  function Total(outs: seq<Vout>): nat { if outs == [] then 0 else Total(outs[1..]) + outs[0].value }

  lemma {:induction false} ReceivedAll(outs: seq<Vout>, owned: set<string>)
    requires AllOwned(outs, owned)
    ensures Received(outs, owned) == Total(outs)
  {
    if outs != [] { ReceivedAll(outs[1..], owned); }
  }

  /** Moving one's own outputs among one's own addresses nets to minus the fee. */
  lemma {:induction false} SelfTransferCostsItsFee(tx: Tx, owned: set<string>)
    requires AllOwned(tx.vout, owned) && AllOwned(Prevouts(tx.vin), owned)
    requires Total(Prevouts(tx.vin)) == Total(tx.vout) + tx.fee
    ensures NetDelta(tx, owned) == -(tx.fee as int)
  {
    ReceivedAll(tx.vout, owned);
    ReceivedAll(Prevouts(tx.vin), owned);
  }

  // ----- keys ----------------------------------------------------------------------------

  datatype Key = Confirmed(height: nat, txid: string) | Mempool(txid: string)
  {
    /** The cursor that resumes after this item. */
    function Cursor(highWater: Mark): Cursor {
      match this
      case Confirmed(h, t) => Cursors.Cursor(h, t, None)
      case Mempool(t) => Cursors.Cursor(highWater.0, highWater.1, Some(t))
    }
  }

  /** The emission order. */
  predicate KeyLt(a: Key, b: Key) {
    match (a, b)
    case (Confirmed(h, t), Confirmed(h', t')) => MarkLt((h, t), (h', t'))
    case (Confirmed(_, _), Mempool(_)) => true
    case (Mempool(_), Confirmed(_, _)) => false
    case (Mempool(t), Mempool(t')) => LexLt(t, t')
  }

  lemma {:induction false} KeyOrder(a: Key, b: Key, c: Key)
    ensures KeyLt(a, b) || a == b || KeyLt(b, a)
    ensures KeyLt(a, b) ==> !KeyLt(b, a) && a != b
    ensures KeyLt(a, b) && KeyLt(b, c) ==> KeyLt(a, c)
  {
    LexTotal(a.txid, b.txid);
    LexIrreflexive(a.txid);
    if LexLt(a.txid, b.txid) {
      LexAsymmetric(a.txid, b.txid);
      if LexLt(b.txid, c.txid) { LexTransitive(a.txid, b.txid, c.txid); }
    }
  }

  lemma {:induction false} MarkOrder(a: Mark, b: Mark, c: Mark)
    ensures MarkLt(a, b) || a == b || MarkLt(b, a)
    ensures MarkLt(a, b) ==> !MarkLt(b, a) && a != b
    ensures MarkLt(a, b) && MarkLt(b, c) ==> MarkLt(a, c)
  {
    KeyOrder(Confirmed(a.0, a.1), Confirmed(b.0, b.1), Confirmed(c.0, c.1));
  }

  // ----- the snapshot --------------------------------------------------------------------

  /** What one sync fetched, and how its transactions are reported. `txs` is the map's values and
      `mempool` the set's elements, both in the ascending order the source iterates them. */
  datatype Snapshot = Snapshot(render: Tx -> Option<Wire>, txs: seq<Tx>, mempool: seq<string>)

  predicate TxsAscend(txs: seq<Tx>) { forall i, j :: 0 <= i < j < |txs| ==> LexLt(txs[i].txid, txs[j].txid) }

  /** What `sync` establishes: real txids, 64-bit heights, and a mempool that is exactly the
      unconfirmed transactions. */
  ghost predicate SnapshotOk(sn: Snapshot) {
    && TxsAscend(sn.txs) && LexSorted(sn.mempool)
    && (forall tx :: tx in sn.txs ==> IsTxid(tx.txid) && (tx.Height().Some? ==> tx.Height().value < U64))
    && (forall t :: t in sn.mempool <==> Pending(sn.txs, t))
  }

  ghost predicate Pending(txs: seq<Tx>, t: string) {
    exists tx :: tx in txs && tx.txid == t && tx.Height().None?
  }

  function Lookup(txs: seq<Tx>, txid: string): (tx: Option<Tx>)
    ensures tx.Some? ==> tx.value in txs && tx.value.txid == txid
    ensures tx.None? ==> forall x :: x in txs ==> x.txid != txid
  {
    if txs == [] then None
    else if txs[|txs| - 1].txid == txid then Some(txs[|txs| - 1])
    else Lookup(txs[..|txs| - 1], txid)
  }

  lemma {:induction false} OneTxPerId(txs: seq<Tx>, a: Tx, b: Tx)
    requires TxsAscend(txs) && a in txs && b in txs && a.txid == b.txid
    ensures a == b
  {
    LexIrreflexive(a.txid);
    var i :| 0 <= i < |txs| && txs[i] == a;
    var j :| 0 <= j < |txs| && txs[j] == b;
    assert i == j;
  }

  // ----- the plan ------------------------------------------------------------------------

  datatype Due = Due(key: Key, tx: Tx)

  datatype Item = Item(key: Key, obs: Wire)

  datatype Plan = Plan(items: seq<Item>, highWater: Mark)

  function Floor(from: Option<Cursor>): Mark { if from.Some? then from.value.ConfirmedMark() else (0, "") }

  /** The confirmed transactions above the floor, in the map's order. */
  function Section1(txs: seq<Tx>, floor: Mark): seq<Due> {
    if txs == [] then []
    else
      var tx := txs[|txs| - 1];
      var front := Section1(txs[..|txs| - 1], floor);
      if tx.Height().None? || MarkLe((tx.Height().value, tx.txid), floor) then front
      else front + [Due(Confirmed(tx.Height().value, tx.txid), tx)]
  }

  /** The greatest confirmed mark, or the floor. */
  function Top(txs: seq<Tx>, floor: Mark): Mark {
    if txs == [] then floor
    else
      var tx := txs[|txs| - 1];
      var top := Top(txs[..|txs| - 1], floor);
      if tx.Height().Some? && MarkLt(top, (tx.Height().value, tx.txid)) then (tx.Height().value, tx.txid) else top
  }

  function Section2(mempool: seq<string>, txs: seq<Tx>, after: Option<string>): seq<Due> {
    if mempool == [] then []
    else
      var t := mempool[|mempool| - 1];
      var front := Section2(mempool[..|mempool| - 1], txs, after);
      if (after.Some? && LexLe(t, after.value)) || Lookup(txs, t).None? then front
      else front + [Due(Mempool(t), Lookup(txs, t).value)]
  }

  function Place(due: seq<Due>, d: Due): seq<Due> {
    if due == [] || !KeyLt(d.key, due[|due| - 1].key) then due + [d]
    else Place(due[..|due| - 1], d) + [due[|due| - 1]]
  }

  function SortByKey(due: seq<Due>): seq<Due> {
    if due == [] then [] else Place(SortByKey(due[..|due| - 1]), due[|due| - 1])
  }

  function MempoolAfter(from: Option<Cursor>): Option<string> { if from.Some? then from.value.mempool else None }

  function DueList(sn: Snapshot, from: Option<Cursor>): seq<Due> {
    SortByKey(Section1(sn.txs, Floor(from))) + Section2(sn.mempool, sn.txs, MempoolAfter(from))
  }

  predicate AllRender(sn: Snapshot, due: seq<Due>) {
    forall i :: 0 <= i < |due| ==> sn.render(due[i].tx).Some?
  }

  function Render(sn: Snapshot, due: seq<Due>): (items: seq<Item>)
    requires AllRender(sn, due)
    ensures |items| == |due|
  {
    seq(|due|, i requires 0 <= i < |due| => Item(due[i].key, sn.render(due[i].tx).value))
  }

  /** `plan`; `None` is its error. */
  function MakePlan(sn: Snapshot, from: Option<Cursor>): Option<Plan> {
    var due := DueList(sn, from);
    if AllRender(sn, due) then Some(Plan(Render(sn, due), Top(sn.txs, Floor(from)))) else None
  }

  // ----- what a plan holds ---------------------------------------------------------------

  predicate KeysDiffer(due: seq<Due>) { forall i, j :: 0 <= i < j < |due| ==> due[i].key != due[j].key }

  predicate Ascends(due: seq<Due>) { forall i, j :: 0 <= i < j < |due| ==> KeyLt(due[i].key, due[j].key) }

  /** The simple specification: what is still to be reported from a cursor. */
  ghost predicate StillDue(sn: Snapshot, from: Option<Cursor>, d: Due) {
    && d.tx in sn.txs
    && (match d.key
        case Confirmed(h, t) => d.tx.Height() == Some(h) && d.tx.txid == t && MarkLt(Floor(from), (h, t))
        case Mempool(t) => d.tx.Height().None? && d.tx.txid == t
                           && (MempoolAfter(from).Some? ==> LexLt(MempoolAfter(from).value, t)))
  }

  lemma {:induction false} Section1Holds(txs: seq<Tx>, floor: Mark, d: Due)
    ensures d in Section1(txs, floor) <==>
      d.tx in txs && d.tx.Height().Some? && d.key == Confirmed(d.tx.Height().value, d.tx.txid)
      && MarkLt(floor, (d.key.height, d.key.txid))
  {
    if txs != [] {
      var front, tx := txs[..|txs| - 1], txs[|txs| - 1];
      Section1Holds(front, floor, d);
      assert txs == front + [tx];
      assert d.tx in txs <==> d.tx in front || d.tx == tx;
      if tx.Height().Some? {
        MarkOrder(floor, (tx.Height().value, tx.txid), floor);
      }
    }
  }

  lemma {:induction false} Section2Holds(mempool: seq<string>, txs: seq<Tx>, after: Option<string>)
    requires LexSorted(mempool)
    ensures var due := Section2(mempool, txs, after);
      && Ascends(due)
      && (forall d :: d in due ==> d.key.Mempool? && d.key.txid in mempool)
      && (forall d :: d in due <==>
           d.key.Mempool? && d.key.txid in mempool && Lookup(txs, d.key.txid) == Some(d.tx)
           && (after.Some? ==> LexLt(after.value, d.key.txid)))
  {
    if mempool != [] {
      var front, t := mempool[..|mempool| - 1], mempool[|mempool| - 1];
      Section2Holds(front, txs, after);
      assert mempool == front + [t];
      if after.Some? {
        LexTotal(t, after.value);
        LexIrreflexive(t);
        if LexLt(t, after.value) { LexAsymmetric(t, after.value); }
      }
    }
  }

  lemma {:induction false} PlaceHolds(due: seq<Due>, d: Due)
    requires Ascends(due) && forall x :: x in due ==> x.key != d.key
    ensures Ascends(Place(due, d))
    ensures forall x :: x in Place(due, d) <==> x in due || x == d
  {
    if due != [] {
      var front, last := due[..|due| - 1], due[|due| - 1];
      assert due == front + [last];
      KeyOrder(last.key, d.key, d.key);
      if KeyLt(d.key, last.key) {
        PlaceHolds(front, d);
        forall x | x in Place(front, d) ensures KeyLt(x.key, last.key) {
          if x in front {
            var i :| 0 <= i < |front| && front[i] == x;
            assert KeyLt(due[i].key, due[|due| - 1].key);
          }
        }
      } else {
        forall x | x in due ensures KeyLt(x.key, d.key) {
          KeyOrder(x.key, last.key, d.key);
          assert x == last || KeyLt(x.key, last.key);
        }
      }
    }
  }

  lemma {:induction false} SortHolds(due: seq<Due>)
    requires KeysDiffer(due)
    ensures Ascends(SortByKey(due))
    ensures forall x :: x in SortByKey(due) <==> x in due
  {
    if due != [] {
      var front, last := due[..|due| - 1], due[|due| - 1];
      assert due == front + [last];
      SortHolds(front);
      PlaceHolds(SortByKey(front), last);
    }
  }

  lemma {:induction false} Section1Distinct(txs: seq<Tx>, floor: Mark)
    requires TxsAscend(txs)
    ensures KeysDiffer(Section1(txs, floor))
  {
    if txs != [] {
      var front, tx := txs[..|txs| - 1], txs[|txs| - 1];
      Section1Distinct(front, floor);
      LexIrreflexive(tx.txid);
      forall d | d in Section1(front, floor) ensures d.key.txid != tx.txid {
        Section1Holds(front, floor, d);
        assert d.tx in front;
        var i :| 0 <= i < |front| && front[i] == d.tx;
        assert txs[i] == d.tx;
      }
    }
  }

  /** The plan from a cursor is exactly what is still due, in emission order. */
  lemma {:induction false} PlanIsStillDue(sn: Snapshot, from: Option<Cursor>)
    requires SnapshotOk(sn)
    ensures Ascends(DueList(sn, from))
    ensures forall d :: d in DueList(sn, from) <==> StillDue(sn, from, d)
  {
    var floor, after := Floor(from), MempoolAfter(from);
    var one, two := SortByKey(Section1(sn.txs, floor)), Section2(sn.mempool, sn.txs, after);
    Section1Distinct(sn.txs, floor);
    SortHolds(Section1(sn.txs, floor));
    Section2Holds(sn.mempool, sn.txs, after);
    forall d | d in one ensures d.key.Confirmed? { Section1Holds(sn.txs, floor, d); }
    assert Ascends(one + two);
    forall d ensures d in one + two <==> StillDue(sn, from, d) {
      Section1Holds(sn.txs, floor, d);
      if d.key.Mempool? { PendingIsLooked(sn, d); }
    }
  }

  lemma {:induction false} PendingIsLooked(sn: Snapshot, d: Due)
    requires SnapshotOk(sn) && d.key.Mempool?
    ensures d.key.txid in sn.mempool && Lookup(sn.txs, d.key.txid) == Some(d.tx) <==>
            d.tx in sn.txs && d.tx.Height().None? && d.tx.txid == d.key.txid
  {
    var t := d.key.txid;
    if t in sn.mempool {
      var tx :| tx in sn.txs && tx.txid == t && tx.Height().None?;
      OneTxPerId(sn.txs, tx, Lookup(sn.txs, t).value);
    }
    if d.tx in sn.txs && d.tx.Height().None? && d.tx.txid == t {
      assert Pending(sn.txs, t);
      OneTxPerId(sn.txs, d.tx, Lookup(sn.txs, t).value);
    }
  }

  // ----- the loops -----------------------------------------------------------------------

  lemma {:induction false} PlaceKeeps(due: seq<Due>, d: Due, x: Due)
    ensures x in Place(due, d) <==> x in due || x == d
  {
    if due != [] {
      assert due == due[..|due| - 1] + [due[|due| - 1]];
      if KeyLt(d.key, due[|due| - 1].key) {
        PlaceKeeps(due[..|due| - 1], d, x);
      }
    }
  }

  lemma {:induction false} SortKeeps(due: seq<Due>, x: Due)
    ensures x in SortByKey(due) <==> x in due
  {
    if due != [] {
      assert due == due[..|due| - 1] + [due[|due| - 1]];
      SortKeeps(due[..|due| - 1], x);
      PlaceKeeps(SortByKey(due[..|due| - 1]), due[|due| - 1], x);
    }
  }

  /** An item that fails to render fails the plan, wherever the sort puts it. */
  lemma {:induction false} OneFails(sn: Snapshot, from: Option<Cursor>, d: Due)
    requires d in Section1(sn.txs, Floor(from)) || d in Section2(sn.mempool, sn.txs, MempoolAfter(from))
    requires sn.render(d.tx).None?
    ensures MakePlan(sn, from).None?
  {
    SortKeeps(Section1(sn.txs, Floor(from)), d);
    assert d in DueList(sn, from);
  }

  lemma {:induction false} Section1Grows(txs: seq<Tx>, floor: Mark, n: nat)
    requires n < |txs|
    ensures Section1(txs[..n + 1], floor) == Section1(txs[..n], floor)
              + (var tx := txs[n];
                 if tx.Height().None? || MarkLe((tx.Height().value, tx.txid), floor) then []
                 else [Due(Confirmed(tx.Height().value, tx.txid), tx)])
    ensures forall d :: d in Section1(txs[..n + 1], floor) ==> d in Section1(txs, floor)
  {
    assert txs[..n + 1][..n] == txs[..n];
    forall d | d in Section1(txs[..n + 1], floor) ensures d in Section1(txs, floor) {
      Section1Holds(txs[..n + 1], floor, d);
      Section1Holds(txs, floor, d);
      assert d.tx in txs[..n + 1];
    }
  }

  lemma {:induction false} Section2Grows(mempool: seq<string>, txs: seq<Tx>, after: Option<string>, n: nat)
    requires n <= |mempool|
    ensures Section2(mempool[..n], txs, after) <= Section2(mempool, txs, after)
    decreases |mempool| - n
  {
    if n < |mempool| {
      Section2Grows(mempool, txs, after, n + 1);
      assert mempool[..n + 1][..n] == mempool[..n];
    } else {
      assert mempool[..n] == mempool;
    }
  }

  method ConfirmedSection(sn: Snapshot, from: Option<Cursor>) returns (due: seq<Due>, highWater: Mark, ok: bool)
    ensures ok ==> due == Section1(sn.txs, Floor(from)) && highWater == Top(sn.txs, Floor(from)) && AllRender(sn, due)
    ensures !ok ==> MakePlan(sn, from).None?
  {
    var floor := Floor(from);
    due, highWater, ok := [], floor, true;
    for i := 0 to |sn.txs|
      invariant due == Section1(sn.txs[..i], floor) && highWater == Top(sn.txs[..i], floor) && AllRender(sn, due)
    {
      var tx := sn.txs[i];
      Section1Grows(sn.txs, floor, i);
      assert sn.txs[..i + 1][..i] == sn.txs[..i];
      if tx.Height().Some? {
        var mark := (tx.Height().value, tx.txid);
        if MarkLt(highWater, mark) { highWater := mark; }
        if !MarkLe(mark, floor) {
          var d := Due(Confirmed(mark.0, mark.1), tx);
          due := due + [d];
          if sn.render(tx).None? {
            assert d in Section1(sn.txs[..i + 1], floor);
            OneFails(sn, from, d);
            return due, highWater, false;
          }
        }
      }
    }
    assert sn.txs[..|sn.txs|] == sn.txs;
  }

  method MempoolSection(sn: Snapshot, from: Option<Cursor>) returns (due: seq<Due>, ok: bool)
    ensures ok ==> due == Section2(sn.mempool, sn.txs, MempoolAfter(from)) && AllRender(sn, due)
    ensures !ok ==> MakePlan(sn, from).None?
  {
    var after := MempoolAfter(from);
    due, ok := [], true;
    for i := 0 to |sn.mempool|
      invariant due == Section2(sn.mempool[..i], sn.txs, after) && AllRender(sn, due)
    {
      var t := sn.mempool[i];
      assert sn.mempool[..i + 1][..i] == sn.mempool[..i];
      if !(after.Some? && LexLe(t, after.value)) {
        var tx := Lookup(sn.txs, t);
        if tx.Some? {
          due := due + [Due(Mempool(t), tx.value)];
          if sn.render(tx.value).None? {
            Section2Grows(sn.mempool, sn.txs, after, i + 1);
            assert due[|due| - 1] in Section2(sn.mempool, sn.txs, after);
            OneFails(sn, from, due[|due| - 1]);
            return due, false;
          }
        }
      }
    }
    assert sn.mempool[..|sn.mempool|] == sn.mempool;
  }

  /** `plan`: two accumulating loops around one sort. */
  method BuildPlan(sn: Snapshot, from: Option<Cursor>) returns (plan: Option<Plan>)
    ensures plan == MakePlan(sn, from)
  {
    var one, highWater, ok1 := ConfirmedSection(sn, from);
    if !ok1 { return None; }
    var two, ok2 := MempoolSection(sn, from);
    if !ok2 { return None; }
    var due := SortByKey(one) + two;
    assert AllRender(sn, due) by {
      forall d | d in SortByKey(one) ensures sn.render(d.tx).Some? { SortKeeps(one, d); }
    }
    plan := Some(Plan(Render(sn, due), highWater));
  }
}
