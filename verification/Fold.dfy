/** Revision assignment and the live-set fold (core/host/src/fold.rs).

    `FoldState` and the functions on it are the specification; the class `Fold` is the
    in-place accumulator, proved against it. */
module Folding {
  import opened Base

  datatype ObservationState = Active | Tombstoned

  /** One stamped observation. `content` stands for every adapter-authored field that is neither
      named separately nor excluded from the content hash. */
  datatype Observation = Observation(
    adapterId: Id,            // provenance.adapter_id
    resourceId: Id,
    localId: Id,
    state: ObservationState,
    surface: string,
    content: string,
    observedAt: string,
    effectiveAt: Option<string>,
    receivedAt: string)       // host-stamped; not content

  /** What `content_hash` is an injective function of: everything but the receipt time and the
      adapter, which is already part of the chain key. */
  datatype Content = Content(resourceId: Id, localId: Id, state: ObservationState, surface: string,
                             content: string, observedAt: string, effectiveAt: Option<string>)

  function ContentOf(o: Observation): Content {
    Content(o.resourceId, o.localId, o.state, o.surface, o.content, o.observedAt, o.effectiveAt)
  }

  datatype Entry = Entry(arrival: nat, revision: nat, obs: Observation)

  type ChainKey = (Id, Id)    // (adapter_id, local_id)

  function KeyOf(o: Observation): ChainKey { (o.adapterId, o.localId) }

  /** `fold_order_key(a) < fold_order_key(b)`: receipt time, then surface, then arrival. */
  predicate Before(a: Entry, b: Entry) {
    LexLt(a.obs.receivedAt, b.obs.receivedAt)
    || (a.obs.receivedAt == b.obs.receivedAt
        && (LexLt(a.obs.surface, b.obs.surface)
            || (a.obs.surface == b.obs.surface && a.arrival < b.arrival)))
  }

  predicate Sorted(c: seq<Entry>) {
    forall i, j :: 0 <= i < j < |c| ==> Before(c[i], c[j])
  }

  /** One step of the chain's `sort_by`: `e` goes in front of the first entry it precedes. */
  function Insert(c: seq<Entry>, e: Entry): seq<Entry> {
    if c == [] then [e]
    else if Before(e, c[0]) then [e] + c
    else [c[0]] + Insert(c[1..], e)
  }

  function SortChain(c: seq<Entry>): seq<Entry> {
    if c == [] then [] else Insert(SortChain(c[..|c| - 1]), c[|c| - 1])
  }

  function Highest(c: seq<Entry>): nat {
    if c == [] then 0
    else
      var rest := Highest(c[1..]);
      if c[0].revision > rest then c[0].revision else rest
  }

  datatype FoldState = FoldState(chains: map<ChainKey, seq<Entry>>, counter: nat) {

    /** The full chain of a key in fold order; empty when the key was never seen. */
    function Chain(key: ChainKey): seq<Entry> {
      if key in chains then chains[key] else []
    }

    function NextRevision(o: Observation): nat {
      |Chain(KeyOf(o))| + 1
    }

    function Ingest(o: Observation): FoldState {
      var e := Entry(counter, NextRevision(o), o);
      FoldState(chains[KeyOf(o) := SortChain(Chain(KeyOf(o)) + [e])], counter + 1)
    }

    function HighestRevision(key: ChainKey): Option<nat> {
      if key in chains && chains[key] != [] then Some(Highest(chains[key])) else None
    }

    function Head(key: ChainKey): Option<Entry> {
      var c := Chain(key);
      if c == [] then None else Some(c[|c| - 1])
    }

    /** Keys of `Fold::live_set`: chains whose most recent entry by fold order is active. */
    predicate LiveHead(key: ChainKey) {
      Head(key).Some? && Head(key).value.obs.state == Active
    }
  }

  const EMPTY: FoldState := FoldState(map[], 0)

  // ----- the fold order ------------------------------------------------------------------

  lemma {:induction false} BeforeTotal(a: Entry, b: Entry)
    requires a.arrival != b.arrival
    ensures Before(a, b) || Before(b, a)
  {
    LexTotal(a.obs.receivedAt, b.obs.receivedAt);
    LexTotal(a.obs.surface, b.obs.surface);
  }

  lemma {:induction false} BeforeTransitive(a: Entry, b: Entry, c: Entry)
    requires Before(a, b) && Before(b, c)
    ensures Before(a, c)
  {
    if LexLt(a.obs.receivedAt, b.obs.receivedAt) && LexLt(b.obs.receivedAt, c.obs.receivedAt) {
      LexTransitive(a.obs.receivedAt, b.obs.receivedAt, c.obs.receivedAt);
    }
    if LexLt(a.obs.surface, b.obs.surface) && LexLt(b.obs.surface, c.obs.surface) {
      LexTransitive(a.obs.surface, b.obs.surface, c.obs.surface);
    }
  }

  // ----- sorting a chain -----------------------------------------------------------------

  lemma {:induction false} InsertElements(c: seq<Entry>, e: Entry)
    ensures |Insert(c, e)| == |c| + 1
    ensures forall x :: x in Insert(c, e) <==> x in c || x == e
    ensures multiset(Insert(c, e)) == multiset(c) + multiset{e}
  {
    if c != [] {
      assert c == [c[0]] + c[1..];
      if !Before(e, c[0]) {
        InsertElements(c[1..], e);
      }
    }
  }

  lemma {:induction false} InsertSorted(c: seq<Entry>, e: Entry)
    requires Sorted(c)
    requires forall x :: x in c ==> x.arrival < e.arrival
    ensures Sorted(Insert(c, e))
  {
    if c != [] {
      if Before(e, c[0]) {
        forall i | 0 <= i < |c| ensures Before(e, c[i]) {
          if i > 0 { BeforeTransitive(e, c[0], c[i]); }
        }
      } else {
        assert c[0] in c;
        BeforeTotal(c[0], e);
        InsertSorted(c[1..], e);
        InsertElements(c[1..], e);
        var r := Insert(c[1..], e);
        forall i | 0 <= i < |r| ensures Before(c[0], r[i]) {
          assert r[i] in r;
          if r[i] != e {
            var k :| 0 <= k < |c[1..]| && c[1..][k] == r[i];
            assert Before(c[0], c[k + 1]);
          }
        }
      }
    }
  }

  /** Appending an entry that follows every other one leaves it last. */
  lemma {:induction false} InsertLast(c: seq<Entry>, e: Entry)
    requires forall x :: x in c ==> Before(x, e)
    ensures Insert(c, e) == c + [e]
  {
    if c != [] {
      assert c[0] in c && Before(c[0], e);
      if Before(e, c[0]) {
        BeforeTransitive(e, c[0], e);
        LexIrreflexive(e.obs.receivedAt);
        LexIrreflexive(e.obs.surface);
      }
      InsertLast(c[1..], e);
      assert c == [c[0]] + c[1..];
    }
  }

  /** The head after an insertion is the old head or the inserted entry, whichever follows. */
  lemma {:induction false} InsertHead(c: seq<Entry>, e: Entry)
    requires c != []
    ensures |Insert(c, e)| == |c| + 1
    ensures Insert(c, e)[|c|] == c[|c| - 1] || Insert(c, e)[|c|] == e
  {
    InsertElements(c, e);
    if !Before(e, c[0]) && |c| > 1 {
      InsertHead(c[1..], e);
    }
  }

  lemma {:induction false} SortOfSorted(c: seq<Entry>)
    requires Sorted(c)
    ensures SortChain(c) == c
  {
    if c != [] {
      var front := c[..|c| - 1];
      SortOfSorted(front);
      InsertLast(front, c[|c| - 1]);
    }
  }

  lemma {:induction false} HighestBounds(c: seq<Entry>, n: nat)
    requires forall x :: x in c ==> x.revision <= n
    ensures Highest(c) <= n
  {
    if c != [] {
      assert c[0] in c;
      HighestBounds(c[1..], n);
    }
  }

  lemma {:induction false} HighestCovers(c: seq<Entry>, x: Entry)
    requires x in c
    ensures x.revision <= Highest(c)
  {
    if x != c[0] {
      HighestCovers(c[1..], x);
    }
  }

  // ----- what every fold keeps -----------------------------------------------------------

  ghost predicate HasRevision(c: seq<Entry>, r: nat) {
    exists e :: e in c && e.revision == r
  }

  /** Revisions are exactly 1..n. */
  ghost predicate Numbered(c: seq<Entry>) {
    && (forall e :: e in c ==> 1 <= e.revision <= |c|)
    && (forall r :: 1 <= r <= |c| ==> HasRevision(c, r))
  }

  /** Revision order is arrival order, whatever the order in the chain. */
  ghost predicate ByArrival(c: seq<Entry>) {
    forall d, e :: d in c && e in c && d.arrival < e.arrival ==> d.revision < e.revision
  }

  ghost predicate ChainOk(c: seq<Entry>, key: ChainKey, counter: nat) {
    && c != []
    && Sorted(c)
    && Numbered(c)
    && ByArrival(c)
    && (forall e :: e in c ==> e.arrival < counter && KeyOf(e.obs) == key)
  }

  ghost predicate FoldOk(f: FoldState) {
    forall key :: key in f.chains ==> ChainOk(f.chains[key], key, f.counter)
  }

  lemma {:induction false} IngestInserts(f: FoldState, o: Observation)
    requires FoldOk(f)
    ensures f.Ingest(o).Chain(KeyOf(o)) == Insert(f.Chain(KeyOf(o)), Entry(f.counter, f.NextRevision(o), o))
  {
    var c := f.Chain(KeyOf(o));
    var e := Entry(f.counter, f.NextRevision(o), o);
    assert (c + [e])[..|c + [e]| - 1] == c;
    SortOfSorted(c);
  }

  lemma {:induction false} InsertChainOk(c: seq<Entry>, key: ChainKey, counter: nat, o: Observation)
    requires c == [] || ChainOk(c, key, counter)
    requires KeyOf(o) == key
    ensures ChainOk(Insert(c, Entry(counter, |c| + 1, o)), key, counter + 1)
  {
    var e := Entry(counter, |c| + 1, o);
    var c' := Insert(c, e);
    InsertElements(c, e);
    InsertSorted(c, e);
    forall r | 1 <= r <= |c'| ensures HasRevision(c', r) {
      if r == |c'| {
        assert e in c';
      } else {
        assert HasRevision(c, r);
        var x :| x in c && x.revision == r;
        assert x in c';
      }
    }
  }

  /** `ingest` keeps every chain sorted in fold order and numbered 1..n in arrival order. */
  lemma {:induction false} IngestKeepsFold(f: FoldState, o: Observation)
    requires FoldOk(f)
    ensures FoldOk(f.Ingest(o))
    ensures |f.Ingest(o).Chain(KeyOf(o))| == f.NextRevision(o)
  {
    var c := f.Chain(KeyOf(o));
    IngestInserts(f, o);
    InsertElements(c, Entry(f.counter, f.NextRevision(o), o));
    InsertChainOk(c, KeyOf(o), f.counter, o);
    forall key | key in f.Ingest(o).chains ensures ChainOk(f.Ingest(o).chains[key], key, f.counter + 1) {
      if key != KeyOf(o) {
        assert ChainOk(f.chains[key], key, f.counter);
      }
    }
  }

  /** The revision liveness is measured against is the length of the chain. */
  lemma {:induction false} HighestIsLength(f: FoldState, key: ChainKey)
    requires FoldOk(f)
    ensures f.HighestRevision(key) == if key in f.chains then Some(|f.Chain(key)|) else None
  {
    if key in f.chains {
      var c := f.chains[key];
      HighestBounds(c, |c|);
      assert HasRevision(c, |c|);
      var e :| e in c && e.revision == |c|;
      HighestCovers(c, e);
    }
  }

  // ----- the accumulator updated in place ------------------------------------------------

  lemma {:induction false} SinkIsInsert(c: seq<Entry>, e: Entry, i: nat)
    requires i <= |c|
    requires Sorted(c)
    requires i == 0 || !Before(e, c[i - 1])
    requires forall k :: i <= k < |c| ==> Before(e, c[k])
    ensures Insert(c, e) == c[..i] + [e] + c[i..]
  {
    if i > 0 {
      if Before(e, c[0]) && i > 1 {
        BeforeTransitive(e, c[0], c[i - 1]);
      }
      SinkIsInsert(c[1..], e, i - 1);
      assert c == [c[0]] + c[1..];
    }
  }

  /** The chain's `sort_by` after a push: everything but the pushed entry is already in order, so
      the pushed entry sinks into place. */
  method SinkLast(front: seq<Entry>, e: Entry) returns (chain: seq<Entry>)
    requires Sorted(front)
    ensures chain == Insert(front, e)
  {
    chain := front + [e];
    var i := |front|;
    while i > 0 && Before(chain[i], chain[i - 1])
      invariant 0 <= i <= |front|
      invariant chain == front[..i] + [e] + front[i..]
      invariant forall k :: i <= k < |front| ==> Before(e, front[k])
    {
      assert chain[i - 1] == front[i - 1];
      chain := chain[i - 1 := chain[i]][i := chain[i - 1]];
      i := i - 1;
    }
    assert i == 0 || chain[i - 1] == front[i - 1];
    SinkIsInsert(front, e, i);
  }

  class Fold {
    var chains: map<ChainKey, seq<Entry>>
    var arrivalCounter: nat

    ghost function State(): FoldState reads this { FoldState(chains, arrivalCounter) }

    constructor ()
      ensures State() == EMPTY && FoldOk(State())
    {
      chains, arrivalCounter := map[], 0;
    }

    /** Returns the revision assigned: one more than the key has entries. */
    method Ingest(o: Observation) returns (revision: nat)
      requires FoldOk(State())
      modifies this
      ensures revision == old(State()).NextRevision(o)
      ensures State() == old(State()).Ingest(o)
      ensures FoldOk(State())
    {
      IngestKeepsFold(State(), o);
      var arrival := arrivalCounter;
      arrivalCounter := arrivalCounter + 1;
      var chain := if KeyOf(o) in chains then chains[KeyOf(o)] else [];
      revision := |chain| + 1;
      ghost var f := old(State());
      chain := SinkLast(chain, Entry(arrival, revision, o));
      IngestInserts(f, o);
      chains := chains[KeyOf(o) := chain];
    }

    /** The newest thing the host has learned about a key: the largest revision in its chain. */
    method HighestRevision(key: ChainKey) returns (r: Option<nat>)
      requires FoldOk(State())
      ensures r == State().HighestRevision(key)
      ensures r.Some? ==> r.value == |chains[key]|
    {
      HighestIsLength(State(), key);
      if key !in chains {
        return None;
      }
      var c := chains[key];
      var best, i := 0, |c|;
      while i > 0
        invariant 0 <= i <= |c|
        invariant best == Highest(c[i..])
      {
        i := i - 1;
        assert c[i..][1..] == c[i + 1..];
        if c[i].revision > best {
          best := c[i].revision;
        }
      }
      assert c[0..] == c;
      r := Some(best);
    }
  }
}
