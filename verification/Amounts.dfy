/** What a transaction is worth to a wallet, and what is reported of it (adapters/bitcoin/src/map.rs). */
module Amounts {
  import opened Base
  import opened Planning
  import Instants

  // ----- outputs received ----------------------------------------------------------------

  lemma {:induction false} ReceivedConcat(xs: seq<Vout>, ys: seq<Vout>, owned: set<string>)
    ensures Received(xs + ys, owned) == Received(xs, owned) + Received(ys, owned)
  {
    if xs == [] {
      assert xs + ys == ys;
    } else {
      ReceivedConcat(xs[1..], ys, owned);
      assert (xs + ys)[1..] == xs[1..] + ys;
    }
  }

  /** Wherever an output stands, it counts its value if its address is owned, and nothing otherwise. */
  lemma {:induction false} EachOutputCounts(before: seq<Vout>, o: Vout, after: seq<Vout>, owned: set<string>)
    ensures Received(before + [o] + after, owned) - Received(before + after, owned)
            == if o.address.Some? && o.address.value in owned then o.value else 0
  {
    ReceivedConcat(before + [o], after, owned);
    ReceivedConcat(before, [o], owned);
    ReceivedConcat(before, after, owned);
    assert [o][1..] == [];
  }

  lemma {:induction false} PrevoutsConcat(xs: seq<Option<Vout>>, ys: seq<Option<Vout>>)
    ensures Prevouts(xs + ys) == Prevouts(xs) + Prevouts(ys)
  {
    if xs == [] {
      assert xs + ys == ys;
    } else {
      PrevoutsConcat(xs[1..], ys);
      assert (xs + ys)[1..] == xs[1..] + ys && (xs + ys)[0] == xs[0];
      var one := if xs[0].Some? then [xs[0].value] else [];
      assert one + (Prevouts(xs[1..]) + Prevouts(ys)) == one + Prevouts(xs[1..]) + Prevouts(ys);
    }
  }

  /** And so does an input, by the output it spends, if that is known. */
  lemma {:induction false} EachInputCounts(before: seq<Option<Vout>>, i: Option<Vout>, after: seq<Option<Vout>>,
                                           owned: set<string>)
    ensures Received(Prevouts(before + [i] + after), owned) - Received(Prevouts(before + after), owned)
            == if i.Some? && i.value.address.Some? && i.value.address.value in owned then i.value.value else 0
  {
    var x, y := Prevouts(before), Prevouts(after);
    PrevoutsConcat(before + [i], after);
    PrevoutsConcat(before, [i]);
    PrevoutsConcat(before, after);
    OnePrevout(i);
    if i.Some? { EachOutputCounts(x, i.value, y, owned); } else { assert x + [] == x; }
  }

  lemma {:induction false} OnePrevout(i: Option<Vout>)
    ensures Prevouts([i]) == if i.Some? then [i.value] else []
  {
    assert [i][1..] == [];
  }

  /** Nothing is received by an address that no output names. */
  lemma {:induction false} StrangersCountNothing(outs: seq<Vout>, owned: set<string>)
    requires forall i :: 0 <= i < |outs| && outs[i].address.Some? ==> outs[i].address.value !in owned
    ensures Received(outs, owned) == 0
  {
    if outs != [] { StrangersCountNothing(outs[1..], owned); }
  }

  lemma {:induction false} ReceivedSplits(outs: seq<Vout>, a: set<string>, b: set<string>)
    requires a !! b
    ensures Received(outs, a + b) == Received(outs, a) + Received(outs, b)
  {
    if outs != [] { ReceivedSplits(outs[1..], a, b); }
  }

  // ----- net deltas ----------------------------------------------------------------------

  /** What two wallets gain apart is what they gain together. */
  lemma {:induction false} DeltasAddUp(tx: Tx, a: set<string>, b: set<string>)
    requires a !! b
    ensures NetDelta(tx, a + b) == NetDelta(tx, a) + NetDelta(tx, b)
  {
    ReceivedSplits(tx.vout, a, b);
    ReceivedSplits(Prevouts(tx.vin), a, b);
  }

  function Union(parties: seq<set<string>>): set<string> {
    if parties == [] then {} else Union(parties[1..]) + parties[0]
  }

  function SumOfDeltas(tx: Tx, parties: seq<set<string>>): int {
    if parties == [] then 0 else SumOfDeltas(tx, parties[1..]) + NetDelta(tx, parties[0])
  }

  predicate Apart(parties: seq<set<string>>) {
    forall i, j :: 0 <= i < j < |parties| ==> parties[i] !! parties[j]
  }

  lemma {:induction false} InUnion(parties: seq<set<string>>, x: string)
    ensures x in Union(parties) <==> exists i :: 0 <= i < |parties| && x in parties[i]
  {
    if parties != [] {
      InUnion(parties[1..], x);
      if i :| 0 <= i < |parties| && x in parties[i] {
        if i > 0 { assert x in parties[1..][i - 1]; }
      }
      if x in Union(parties[1..]) {
        var i :| 0 <= i < |parties[1..]| && x in parties[1..][i];
        assert x in parties[i + 1];
      }
    }
  }

  lemma {:induction false} SumIsDelta(tx: Tx, parties: seq<set<string>>)
    requires Apart(parties)
    ensures SumOfDeltas(tx, parties) == NetDelta(tx, Union(parties))
  {
    if parties == [] {
      StrangersCountNothing(tx.vout, {});
      StrangersCountNothing(Prevouts(tx.vin), {});
    } else {
      var rest := parties[1..];
      assert forall i :: 0 <= i < |rest| ==> rest[i] == parties[i + 1];
      SumIsDelta(tx, rest);
      forall x | x in Union(rest) ensures x !in parties[0] {
        InUnion(rest, x);
        var i :| 0 <= i < |rest| && x in rest[i];
        assert parties[0] !! parties[i + 1];
      }
      DeltasAddUp(tx, Union(rest), parties[0]);
    }
  }

  predicate Covered(outs: seq<Vout>, parties: seq<set<string>>) { AllOwned(outs, Union(parties)) }

  /** A payment moves money and makes none: over all parties to a transaction the deltas sum to minus its fee,
      however its addresses are divided among them. */
  lemma {:induction false} PartiesPayTheFee(tx: Tx, parties: seq<set<string>>)
    requires Apart(parties) && Covered(tx.vout, parties) && Covered(Prevouts(tx.vin), parties)
    requires Total(Prevouts(tx.vin)) == Total(tx.vout) + tx.fee
    ensures SumOfDeltas(tx, parties) == -(tx.fee as int)
  {
    SumIsDelta(tx, parties);
    SelfTransferCostsItsFee(tx, Union(parties));
  }

  // ----- what is reported ----------------------------------------------------------------

  /** Some input spends an output of the wallet's. */
  predicate Spends(tx: Tx, owned: set<string>) {
    exists i :: 0 <= i < |tx.vin| && tx.vin[i].Some? && tx.vin[i].value.address.Some?
                && tx.vin[i].value.address.value in owned
  }

  lemma {:induction false} UnspentReceives(ins: seq<Option<Vout>>, owned: set<string>)
    requires forall i :: 0 <= i < |ins| && ins[i].Some? ==> !IsOwned(ins[i].value, owned)
    ensures Received(Prevouts(ins), owned) == 0
  {
    if ins != [] {
      UnspentReceives(ins[1..], owned);
      if ins[0].Some? { EachOutputCounts([], ins[0].value, Prevouts(ins[1..]), owned); }
      assert [] + Prevouts(ins[1..]) == Prevouts(ins[1..]);
    }
  }

  /** What is reported of a transaction: the wallet's gain; the fee exactly when the wallet spends; a time
      exactly when it has a block time; a height only with its confirmation; and a wallet that spends nothing
      never loses. */
  lemma {:induction false} ReportTells(ctx: Ctx, owned: set<string>, tx: Tx)
    requires Active(ctx, owned, tx).Some?
    ensures var w := Active(ctx, owned, tx).value;
      && w.amount == NetDelta(tx, owned)
      && w.fees == (if Spends(tx, owned) then Some(tx.fee) else None)
      && (!Spends(tx, owned) ==> w.amount == Received(tx.vout, owned) >= 0)
      && (w.effectiveAt.Some? <==> tx.blockTime.Some?)
      && (w.effectiveAt.Some? ==>
           Instants.Instant(w.effectiveAt.value) == Some(Instants.Moment(tx.blockTime.value, 0)))
      && (w.posted <==> tx.confirmed && tx.blockHeight.Some?) && w.complete
      && w.extra == Extra(tx.confirmed, if w.posted then tx.blockHeight else None, tx.blockHash)
      && w.ctx == ctx && w.txid == tx.txid && w.localId == ctx.resourceId + ":" + tx.txid
  {
    var w := Active(ctx, owned, tx).value;
    if w.effectiveAt.Some? { ActiveTellsBlockTime(ctx, owned, tx, w.effectiveAt.value); }
    if !Spends(tx, owned) { UnspentReceives(tx.vin, owned); }
  }
}
