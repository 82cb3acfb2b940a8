/** `sweep_resource` and its helpers as they run (core/store/src/sweep.rs): loops over the pages, the
    observations and the live set that update the gate, the fold, the id sets and the tables in place,
    proved to compute the steps of `Sweeping`. */
module SweepLoops {
  import opened Base
  import opened Folding
  import opened Tables
  import S = Sweeping
  import opened Storage
  import SweepRuns

  // ----- the gate ------------------------------------------------------------------------

  /** Every degrade entry is looked at, not the first or the last: a named one exempts its record, and
      an anonymous one is about the whole page. */
  method ScanDegraded(ds: seq<S.Degraded>, exempt: set<Id>) returns (exempt': set<Id>, anonymous: bool)
    ensures exempt' == exempt + S.NamedIds(ds)
    ensures anonymous <==> S.HasAnonymous(ds)
  {
    exempt', anonymous := exempt, false;
    for i := 0 to |ds|
      invariant exempt' == exempt + S.NamedIds(ds[..i])
      invariant anonymous <==> S.HasAnonymous(ds[..i])
    {
      OneMoreDegrade(ds, i);
      if ds[i].localId.Some? {
        exempt' := exempt' + {ds[i].localId.value};
      } else {
        anonymous := true;
      }
    }
    assert ds[..|ds|] == ds;
  }

  /** `judge_page`. */
  method JudgePage(gate: S.Gate, exempt: set<Id>, st: S.Status, page: nat) returns (gate': S.Gate, exempt': set<Id>)
    ensures gate' == S.JudgePage(gate, st, page)
    ensures exempt' == exempt + S.NamedIds(st.degraded)
  {
    gate' := gate;
    if st.outcome != Fetched {
      gate' := gate'.(everyPageFetched := false,
                      notFetched := if gate'.notFetched.None? then Some((st.outcome, page + 1)) else gate'.notFetched);
    }
    var anonymous;
    exempt', anonymous := ScanDegraded(st.degraded, exempt);
    if anonymous { gate' := gate'.(anonymousDegrade := true); }
    if st.page.Some? && st.page.value.resumable != S.Exact {
      gate' := gate'.(everyCursorExact := false);
    }
  }

  lemma {:induction false} OneMoreDegrade(ds: seq<S.Degraded>, i: nat)
    requires i < |ds|
    ensures S.HasAnonymous(ds[..i + 1]) <==> S.HasAnonymous(ds[..i]) || ds[i].localId.None?
    ensures S.NamedIds(ds[..i + 1]) == S.NamedIds(ds[..i]) + if ds[i].localId.Some? then {ds[i].localId.value} else {}
  {
    var a, b := ds[..i], ds[..i + 1];
    assert b == a + [ds[i]];
    assert forall k :: 0 <= k < i ==> b[k] == a[k];
    assert b[i] == ds[i];
    forall l | l in S.NamedIds(b)
      ensures l in S.NamedIds(a) + if ds[i].localId.Some? then {ds[i].localId.value} else {} {
      var k :| 0 <= k < |b| && b[k].localId.Some? && b[k].localId.value == l;
      if k < i { assert a[k] == b[k]; }
    }
    forall l | l in S.NamedIds(a) ensures l in S.NamedIds(b) {
      var k :| 0 <= k < |a| && a[k].localId.Some? && a[k].localId.value == l;
      assert b[k] == a[k];
    }
  }

  /** Provenance is judged before the resource filter, on every observation of the page. */
  method Admit(os: seq<Observation>, input: S.Input, observed: set<Id>)
      returns (admitted: seq<Observation>, observed': set<Id>, foreign: bool)
    ensures admitted == S.Admitted(os, input)
    ensures observed' == observed + S.LocalIds(admitted)
    ensures foreign <==> S.HasForeign(os, input)
  {
    admitted, observed', foreign := [], observed, false;
    for i := 0 to |os|
      invariant admitted == S.Admitted(os[..i], input)
      invariant observed' == observed + S.LocalIds(admitted)
      invariant foreign <==> S.HasForeign(os[..i], input)
    {
      var o := os[i];
      assert os[..i + 1][..i] == os[..i];
      OneMoreObservation(os, i, input);
      if o.adapterId != input.adapterId {
        foreign := true;
      } else if o.resourceId == input.resourceId {
        OneMoreId(admitted, o);
        observed' := observed' + {o.localId};
        admitted := admitted + [o];
      }
    }
    assert os[..|os|] == os;
  }

  lemma {:induction false} OneMoreObservation(os: seq<Observation>, i: nat, input: S.Input)
    requires i < |os|
    ensures S.HasForeign(os[..i + 1], input) <==> S.HasForeign(os[..i], input) || os[i].adapterId != input.adapterId
  {
    var a, b := os[..i], os[..i + 1];
    assert forall k :: 0 <= k < i ==> b[k] == a[k];
    assert b[i] == os[i];
  }

  lemma {:induction false} OneMoreId(os: seq<Observation>, o: Observation)
    ensures S.LocalIds(os + [o]) == S.LocalIds(os) + {o.localId}
  {
    var b := os + [o];
    assert forall k :: 0 <= k < |os| ==> b[k] == os[k];
    assert b[|os|] == o;
    forall l | l in S.LocalIds(os) ensures l in S.LocalIds(b) {
      var k :| 0 <= k < |os| && os[k].localId == l;
      assert b[k].localId == l;
    }
  }

  // ----- ingesting a page ----------------------------------------------------------------

  /** One observation: stamped as seen, or appended; false is the UNIQUE key refusing it. */
  method IngestOne(store: Store, fold: Fold, input: S.Input, crawl: nat, meta: map<Id, HeadMeta>,
                   buried: map<Id, nat>, o: Observation, ghost w: S.Work) returns (ok: bool, meta': map<Id, HeadMeta>)
    requires FoldOk(fold.State())
    requires w.rows == store.rows && w.fold == fold.State() && w.meta == meta
    modifies store`rows, fold
    ensures FoldOk(fold.State())
    ensures ok <==> S.IngestOne(w, input, crawl, buried, o).Some?
    ensures ok ==> var w' := S.IngestOne(w, input, crawl, buried, o).value;
                   store.rows == w'.rows && fold.State() == w'.fold && meta' == w'.meta
  {
    var key := (input.adapterId, o.localId);
    var newMeta := S.InputMeta(input);
    meta' := meta[o.localId := newMeta];
    var highest := fold.HighestRevision(key);
    var chain := if key in fold.chains then fold.chains[key] else [];
    DedupIs(w.fold, buried, key, o, chain, highest);
    if !(highest.Some? && IsBuried(buried, o.localId, highest.value)) && |chain| > 0
       && ContentOf(chain[|chain| - 1].obs) == ContentOf(o) {
      store.StampSeen(input.adapterId, o.localId, chain[|chain| - 1].revision, crawl, newMeta);
      ok := true;
    } else {
      var revision := fold.Ingest(o);
      ok := store.AppendObservation(Row(input.adapterId, revision, crawl, crawl, newMeta, o));
    }
  }

  lemma {:induction false} DedupIs(f: FoldState, buried: map<Id, nat>, key: ChainKey, o: Observation, chain: seq<Entry>,
                                   highest: Option<nat>)
    requires chain == f.Chain(key) && highest == f.HighestRevision(key)
    ensures S.Deduplicates(f, buried, key, o) <==>
            !(highest.Some? && IsBuried(buried, key.1, highest.value)) && |chain| > 0
            && ContentOf(chain[|chain| - 1].obs) == ContentOf(o)
    ensures |chain| > 0 ==> f.Head(key) == Some(chain[|chain| - 1])
  {
  }

  /** `ingest_page`. */
  method IngestPage(store: Store, fold: Fold, input: S.Input, crawl: nat, meta: map<Id, HeadMeta>,
                    buried: map<Id, nat>, os: seq<Observation>) returns (ok: bool, meta': map<Id, HeadMeta>)
    requires FoldOk(fold.State())
    modifies store`rows, fold
    ensures FoldOk(fold.State())
    ensures var w := S.IngestPage(S.Work(old(store.rows), old(fold.State()), meta, 0, 0, 0), input, crawl, buried, os);
      (ok <==> w.Some?)
      && (ok ==> store.rows == w.value.rows && fold.State() == w.value.fold && meta' == w.value.meta)
  {
    ghost var w0 := S.Work(store.rows, fold.State(), meta, 0, 0, 0);
    ghost var w := w0;
    meta' := meta;
    for i := 0 to |os|
      invariant FoldOk(fold.State())
      invariant S.IngestPage(w0, input, crawl, buried, os[..i]) == Some(w)
      invariant w.rows == store.rows && w.fold == fold.State() && w.meta == meta'
    {
      assert os[..i + 1][..i] == os[..i];
      ok, meta' := IngestOne(store, fold, input, crawl, meta', buried, os[i], w);
      if !ok {
        RefusedStays(w0, input, crawl, buried, os, i + 1);
        return;
      }
      w := S.IngestOne(w, input, crawl, buried, os[i]).value;
    }
    assert os[..|os|] == os;
    ok := true;
  }

  lemma {:induction false} RefusedStays(w: S.Work, input: S.Input, crawl: nat, buried: map<Id, nat>,
                                        os: seq<Observation>,
                                        n: nat)
    requires n <= |os| && S.IngestPage(w, input, crawl, buried, os[..n]).None?
    ensures S.IngestPage(w, input, crawl, buried, os).None?
    decreases |os| - n
  {
    if n < |os| {
      assert os[..n + 1][..n] == os[..n];
      RefusedStays(w, input, crawl, buried, os, n + 1);
    } else {
      assert os[..n] == os;
    }
  }

  // ----- deriving retractions ------------------------------------------------------------

  /** The live ids, sorted: repeatedly the least of what is left. */
  method Sort(live: set<Id>) returns (ids: seq<Id>)
    ensures ids == SortedIds(live)
  {
    ids := [];
    var rest := live;
    while rest != {}
      invariant rest <= live && LexSorted(ids)
      invariant forall x :: x in ids <==> x in live && x !in rest
      invariant forall x, y :: x in ids && y in rest ==> LexLt(x, y)
      decreases rest
    {
      ghost var least := LeastExists(rest);
      var l :| l in rest && forall x :: x in rest ==> LexLe(l, x);
      forall y | y in rest - {l} ensures LexLt(l, y) { assert y in rest && LexLe(l, y); }
      ids := ids + [l];
      rest := rest - {l};
    }
    SortedUnique(ids, SortedIds(live));
  }

  /** The diff, once no exemption covers the whole sweep: rows for what is gone, and one note per kind
      of thing that happened. */
  method RetractMissing(store: Store, f: FoldState, input: S.Input, crawl: nat, meta: map<Id, HeadMeta>,
                        observed: set<Id>, exempt: set<Id>, highWater: map<Id, nat>, live: seq<Id>)
      returns (derivations: bool, definitions: bool, predating: bool)
    requires forall l :: l in live ==> S.IsLive(f, highWater, input.adapterId, input.resourceId, l)
    modifies store`retractions
    ensures var gone := S.Retract(live, f, highWater, meta, input, crawl, observed, exempt);
      && store.retractions == old(store.retractions) + gone
      && (derivations <==> SomeReason(gone, DerivationChanged))
      && (definitions <==> SomeReason(gone, DefinitionChanged))
      && (predating <==> SomePredates(live, f, input, observed, exempt))
  {
    derivations, definitions, predating := false, false, false;
    ghost var before := store.retractions;
    ghost var gone: seq<Retraction> := [];
    for i := 0 to |live|
      invariant gone == S.Retract(live[..i], f, highWater, meta, input, crawl, observed, exempt)
      invariant store.retractions == before + gone
      invariant derivations <==> SomeReason(gone, DerivationChanged)
      invariant definitions <==> SomeReason(gone, DefinitionChanged)
      invariant predating <==> SomePredates(live[..i], f, input, observed, exempt)
    {
      OneMoreLive(live, i, f, input, observed, exempt);
      OneMoreGone(live, i, f, highWater, meta, input, crawl, observed, exempt);
      var row, predates := JudgeLive(f, highWater, meta, input, crawl, observed, exempt, live[i]);
      predating := predating || predates;
      if row.Some? {
        OneMoreReason(gone, row.value);
        derivations := derivations || row.value.reason == DerivationChanged;
        definitions := definitions || row.value.reason == DefinitionChanged;
        Regroup(before, gone, row.value);
        gone := gone + [row.value];
        store.AppendRetraction(row.value);
      }
    }
    assert live[..|live|] == live;
  }

  lemma {:induction false} Regroup(before: seq<Retraction>, gone: seq<Retraction>, row: Retraction)
    ensures before + gone + [row] == before + (gone + [row])
  {
  }

  lemma {:induction false} NotesAreKinds(live: seq<Id>, gone: seq<Retraction>, f: FoldState, input: S.Input, crawl: nat,
                                         observed: set<Id>, exempt: set<Id>)
    ensures S.Notes(live, gone, f, input, crawl, observed, exempt)
            == Kinds(SomeReason(gone, DerivationChanged), SomeReason(gone, DefinitionChanged),
                     SomePredates(live, f, input, observed, exempt), input, crawl)
  {
  }

  /** What becomes of one live record: retracted, or left alone, perhaps for predating the history. */
  method JudgeLive(f: FoldState, highWater: map<Id, nat>, meta: map<Id, HeadMeta>, input: S.Input, crawl: nat,
                   observed: set<Id>, exempt: set<Id>, l: Id) returns (row: Option<Retraction>, predates: bool)
    requires S.IsLive(f, highWater, input.adapterId, input.resourceId, l)
    ensures row == GoneRow(f, highWater, meta, input, crawl, observed, exempt, l)
    ensures predates <==> Predates(l, f, input, observed, exempt)
  {
    row, predates := None, false;
    if l !in observed && l !in exempt {
      predates := S.PredatesHistory(input.historyStart, f.Head((input.adapterId, l)).value.obs);
      if !predates { row := Some(S.RetractionOf(f, meta, input, crawl, l)); }
    }
  }

  function GoneRow(f: FoldState, highWater: map<Id, nat>, meta: map<Id, HeadMeta>, input: S.Input, crawl: nat,
                   observed: set<Id>, exempt: set<Id>, l: Id): Option<Retraction> {
    if S.Retractable(f, highWater, input, observed, exempt, l)
    then Some(S.RetractionOf(f, meta, input, crawl, l)) else None
  }

  lemma {:induction false} OneMoreGone(live: seq<Id>, i: nat, f: FoldState, highWater: map<Id, nat>,
                                       meta: map<Id, HeadMeta>, input: S.Input, crawl: nat, observed: set<Id>,
                                       exempt: set<Id>)
    requires i < |live|
    ensures S.Retract(live[..i + 1], f, highWater, meta, input, crawl, observed, exempt)
            == S.Retract(live[..i], f, highWater, meta, input, crawl, observed, exempt)
               + (var row := GoneRow(f, highWater, meta, input, crawl, observed, exempt, live[i]);
                  if row.Some? then [row.value] else [])
  {
    assert live[..i + 1][..i] == live[..i];
  }

  ghost predicate SomeReason(gone: seq<Retraction>, reason: Reason) {
    exists i :: 0 <= i < |gone| && gone[i].reason == reason
  }

  ghost predicate SomePredates(live: seq<Id>, f: FoldState, input: S.Input, observed: set<Id>, exempt: set<Id>) {
    exists i :: 0 <= i < |live| && live[i] !in observed && live[i] !in exempt
                && f.Head((input.adapterId, live[i])).Some?
                && S.PredatesHistory(input.historyStart, f.Head((input.adapterId, live[i])).value.obs)
  }

  function Kinds(derivations: bool, definitions: bool, predating: bool, input: S.Input, crawl: nat): seq<Discrepancy> {
    (if derivations then [Discrepancy(input.adapterId, input.resourceId, KindDerivation, crawl)] else [])
    + (if definitions then [Discrepancy(input.adapterId, input.resourceId, KindDefinition, crawl)] else [])
    + (if predating then [Discrepancy(input.adapterId, input.resourceId, KindHistoryStart, crawl)] else [])
  }

  lemma {:induction false} OneMoreReason(gone: seq<Retraction>, row: Retraction)
    ensures forall reason :: SomeReason(gone + [row], reason) <==> SomeReason(gone, reason) || row.reason == reason
  {
    forall reason ensures SomeReason(gone + [row], reason) <==> SomeReason(gone, reason) || row.reason == reason {
      assert (gone + [row])[|gone|] == row;
      assert forall i :: 0 <= i < |gone| ==> (gone + [row])[i] == gone[i];
    }
  }

  ghost predicate Predates(l: Id, f: FoldState, input: S.Input, observed: set<Id>, exempt: set<Id>) {
    && l !in observed && l !in exempt && f.Head((input.adapterId, l)).Some?
    && S.PredatesHistory(input.historyStart, f.Head((input.adapterId, l)).value.obs)
  }

  lemma {:induction false} OneMoreLive(live: seq<Id>, i: nat, f: FoldState, input: S.Input, observed: set<Id>,
                                       exempt: set<Id>)
    requires i < |live|
    ensures SomePredates(live[..i + 1], f, input, observed, exempt) <==>
            SomePredates(live[..i], f, input, observed, exempt) || Predates(live[i], f, input, observed, exempt)
  {
    var a, b := live[..i], live[..i + 1];
    assert forall k :: 0 <= k < i ==> b[k] == a[k];
    assert b[i] == live[i];
  }

  method NoteKinds(store: Store, derivations: bool, definitions: bool, predating: bool, input: S.Input, crawl: nat)
    modifies store`discrepancies
    ensures store.discrepancies == old(store.discrepancies) + Kinds(derivations, definitions, predating, input, crawl)
  {
    if derivations { store.AppendDiscrepancy(Discrepancy(input.adapterId, input.resourceId, KindDerivation, crawl)); }
    if definitions { store.AppendDiscrepancy(Discrepancy(input.adapterId, input.resourceId, KindDefinition, crawl)); }
    if predating { store.AppendDiscrepancy(Discrepancy(input.adapterId, input.resourceId, KindHistoryStart, crawl)); }
  }

  lemma {:induction false} SortedLive(f: FoldState, highWater: map<Id, nat>, a: Id, r: Id)
    ensures var live := S.LiveSet(f, highWater, a, r);
      && (forall l :: l in SortedIds(live) ==> S.IsLive(f, highWater, a, r, l))
      && (SortedIds(live) == [] <==> live == {})
  {
    var live := S.LiveSet(f, highWater, a, r);
    if live != {} {
      var l :| l in live;
      assert l in SortedIds(live);
    }
    forall l | l in SortedIds(live) ensures S.IsLive(f, highWater, a, r, l) {
      assert l in live;
    }
  }

  /** `derive_retractions`. */
  method DeriveRetractions(store: Store, fold: Fold, input: S.Input, crawl: nat, meta: map<Id, HeadMeta>,
                           observed: set<Id>, exempt: set<Id>)
    modifies store`retractions, store`discrepancies
    ensures store.State() == S.Derive(old(store.State()), input, crawl, fold.State(), meta, observed, exempt)
  {
    var f := FoldState(fold.chains, fold.arrivalCounter);
    var highWater := store.RetractionHighWater(input.adapterId);
    SortedLive(f, highWater, input.adapterId, input.resourceId);
    var live := Sort(S.LiveSet(f, highWater, input.adapterId, input.resourceId));
    var key := (input.adapterId, input.resourceId);
    var previous := if key in store.resources then store.resources[key].lastProvider else None;
    assert S.VantageMoved(store.State(), input) <==> previous.Some? && previous.value != input.providerId;
    if previous.Some? && previous.value != input.providerId {
      store.AppendDiscrepancy(Discrepancy(input.adapterId, input.resourceId, KindVantage, crawl));
    } else if observed == {} && live != [] && !input.options.confirmEmpty {
      store.AppendDiscrepancy(Discrepancy(input.adapterId, input.resourceId, KindEmpty, crawl));
    } else {
      var derivations, definitions, predating :=
        RetractMissing(store, f, input, crawl, meta, observed, exempt, highWater, live);
      NotesAreKinds(live, S.Retract(live, f, highWater, meta, input, crawl, observed, exempt), f, input, crawl,
                    observed, exempt);
      NoteKinds(store, derivations, definitions, predating, input, crawl);
    }
  }

  /** What one page says about the gate, the exemptions and the ids seen. */
  method Judge(gate: S.Gate, exempt: set<Id>, observed: set<Id>, page: nat, input: S.Input, read: S.HistoryRead,
               st: S.Status, ghost s: S.Sweep)
      returns (gate': S.Gate, exempt': set<Id>, observed': set<Id>, admitted: seq<Observation>)
    requires s.gate == gate && s.exempt == exempt && s.observed == observed && s.pageNumber == page && s.input == input
    ensures var s' := S.Absorb(s, read, st); gate' == s'.gate && exempt' == s'.exempt && observed' == s'.observed
    ensures admitted == S.Admitted(read.observations, input)
  {
    var foreign;
    gate', exempt' := JudgePage(gate, exempt, st, page);
    admitted, observed', foreign := Admit(read.observations, input, observed);
    if foreign { gate' := gate'.(foreignProvenance := true); }
    gate' := gate'.(drained := st.page.Some? && st.page.value.next.None?);
  }

  // ----- a sweep in progress -------------------------------------------------------------

  /** The local state of `sweep_resource`. */
  class SweepRun {
    const input: S.Input
    const crawl: nat
    const fold: Fold
    const buried: map<Id, nat>
    var gate: S.Gate
    var meta: map<Id, HeadMeta>
    var resume: S.ResumeState
    var page: Option<PageRequest>
    var pageNumber: nat
    var observed: set<Id>
    var exempt: set<Id>

    ghost function Sweep(): S.Sweep
      reads this, fold
    {
      S.Sweep(input, crawl, gate, fold.State(), meta, buried, resume, page, pageNumber, observed, exempt)
    }

    ghost predicate Valid()
      reads this, fold
    {
      FoldOk(fold.State())
    }

    constructor (input: S.Input, crawl: nat, fold: Fold, buried: map<Id, nat>, meta: map<Id, HeadMeta>,
                 start: Option<PageRequest>)
      requires FoldOk(fold.State())
      ensures Valid() && fresh(this) && this.fold == fold
      ensures Sweep()
              == S.Sweep(input, crawl, S.Gate(start.None?, false, true, false, true, input.derivation, false, None,
                                              input.connectionViolation),
                         fold.State(), meta, buried, S.ResumeState(start, None, None), start, 0, {}, {})
    {
      this.input, this.crawl, this.fold, this.buried, this.meta := input, crawl, fold, buried, meta;
      gate := S.Gate(start.None?, false, true, false, true, input.derivation, false, None, input.connectionViolation);
      resume, page, pageNumber := S.ResumeState(start, None, None), start, 0;
      observed, exempt := {}, {};
    }

    /** `ResumeState::record`. */
    method Record(r: S.Resumability, next: Option<PageRequest>)
      modifies this`resume
      ensures resume == old(resume).Record(r, next)
    {
      resume := resume.(resumable := Some(r));
      if r == S.Exact { resume := resume.(exactNext := next); }
    }

    /** A page read and judged, before anything is written. */
    method Absorb(read: S.HistoryRead, st: S.Status) returns (admitted: seq<Observation>)
      modifies this
      ensures Sweep() == S.Absorb(old(Sweep()), read, st)
      ensures admitted == S.Admitted(read.observations, input)
    {
      ghost var s := Sweep();
      var os;
      gate, exempt, observed, os := Judge(gate, exempt, observed, pageNumber, input, read, st, s);
      page := None;
      if st.page.Some? {
        Record(st.page.value.resumable, st.page.value.next);
        page := st.page.value.next;
      }
      pageNumber, admitted := pageNumber + 1, os;
    }

    /** The closing section of the final transaction, under the held verdict. */
    method Conclude(store: Store, verdict: Option<string>)
      modifies store
      ensures store.State() == S.Conclude(old(store.State()), Sweep(), verdict)
    {
      var held := if gate.violation.None? then gate.(violation := verdict) else gate;
      var disqualifier := held.Disqualifier();
      if disqualifier.None? {
        DeriveRetractions(store, fold, input, crawl, meta, observed, exempt);
      }
      store.SetAdapterDerivation(input.adapterId, input.derivation);
      store.SetResourceDefinition(input.adapterId, input.resourceId, input.fingerprint,
                                  if disqualifier.None? then Some(input.providerId) else None);
      store.FinishCrawl(crawl, held.drained, disqualifier.None?, disqualifier);
    }

    /** The transaction of an absorbed page: rolled back if a row is refused; otherwise closing the sweep,
        or moving its cursor. */
    method CommitPage(store: Store, os: seq<Observation>, verdict: Option<string>) returns (done: bool)
      requires Valid()
      modifies this`meta, fold, store
      ensures Valid()
      ensures var w := S.IngestPage(S.WorkOf(old(store.State()), old(Sweep())), input, crawl, buried, os);
        if w.None? then done && store.State() == old(store.State())
        else
          var s := old(Sweep()).(fold := w.value.fold, meta := w.value.meta);
          var t := old(store.State()).(rows := w.value.rows);
          if page.None? then done && store.State() == S.Conclude(t, s, verdict)
          else !done && Sweep() == s && store.State() == t.(crawls := SetCursor(t.crawls, crawl, resume.NextRequest()))
    {
      var saved := store.rows;
      var ok;
      ok, meta := IngestPage(store, fold, input, crawl, meta, buried, os);
      if !ok {
        store.rows := saved;
        done := true;
      } else if page.None? {
        Conclude(store, verdict);
        done := true;
      } else {
        store.SetCrawlCursor(crawl, resume.NextRequest());
        done := false;
      }
    }

    /** One page of the loop: it ends the sweep, or leaves it ready for the next. */
    method OnPage(store: Store, read: S.HistoryRead, verdict: Option<string>) returns (done: bool)
      requires Valid() && pageNumber < S.MAX_PAGES
      modifies this, fold, store
      ensures Valid()
      ensures S.Settle(old(store.State()), S.OnPage(old(store.State()), old(Sweep()), read, verdict))
              == S.System(store.State(), if done then None else Some(Sweep()))
    {
      var st := S.FindStatus(read.statuses, input.resourceId);
      if st.None? {
        store.FinishCrawl(crawl, false, false, Some(NoStatus(pageNumber)));
        done := true;
      } else {
        var admitted := Absorb(read, st.value);
        done := CommitPage(store, admitted, verdict);
      }
    }
  }

  // ----- the whole sweep -----------------------------------------------------------------

  /** Reads by page number; `None` is a failed call. */
  type Answers = nat -> Option<S.HistoryRead>

  ghost function PageEvent(answers: Answers, verdict: Option<string>, n: nat): S.Event {
    if n >= S.MAX_PAGES then S.Page(S.HistoryRead([], []), verdict)
    else if answers(n).None? then S.ReadFailed
    else S.Page(answers(n).value, verdict)
  }

  type Stepper = (S.System, nat) -> S.System

  ghost function SweepStep(answers: Answers, verdict: Option<string>): Stepper {
    (s: S.System, n: nat) => S.Apply(s, PageEvent(answers, verdict, n))
  }

  ghost predicate IsSweepStep(step: Stepper, answers: Answers, verdict: Option<string>) {
    forall s, n: nat {:trigger S.Apply(s, PageEvent(answers, verdict, n))} ::
      step(s, n) == S.Apply(s, PageEvent(answers, verdict, n))
  }

  /** The run of one sweep: it reads pages for as long as it lasts. */
  ghost function After(s: S.System, step: Stepper, n: nat): S.System {
    if n == 0 then s
    else
      var before := After(s, step, n - 1);
      if before.sweep.None? then before else step(before, n - 1)
  }

  lemma {:induction false} OverStays(s: S.System, step: Stepper, m: nat, n: nat)
    requires m <= n && After(s, step, m).sweep.None?
    ensures After(s, step, n) == After(s, step, m)
  {
    if m < n { OverStays(s, step, m, n - 1); }
  }

  /** The adapter's rows replayed into a fold, and the rules each was last seen under. */
  method ReplayRows(rows: seq<Row>, a: Id) returns (fold: Fold, stored: map<(Id, nat), HeadMeta>)
    ensures fresh(fold) && FoldOk(fold.State())
    ensures fold.State() == Replay(rows, a) && stored == StoredMeta(rows, a)
  {
    fold := new Fold();
    stored := map[];
    for i := 0 to |rows|
      invariant fresh(fold) && FoldOk(fold.State())
      invariant fold.State() == Replay(rows[..i], a) && stored == StoredMeta(rows[..i], a)
    {
      assert rows[..i + 1][..i] == rows[..i];
      if rows[i].adapterId == a {
        stored := stored[(rows[i].obs.localId, rows[i].revision) := rows[i].meta];
        var revision := fold.Ingest(rows[i].obs);
      }
    }
    assert rows[..|rows|] == rows;
  }

  /** Transaction 1, and everything read into memory. */
  method Begin(store: Store, input: S.Input) returns (run: SweepRun)
    modifies store`crawls
    ensures fresh(run) && fresh(run.fold) && run.Valid()
    ensures S.Begin(old(store.State()), input) == (store.State(), run.Sweep())
  {
    var start: Option<PageRequest> := None;
    if input.options.resume {
      var c := store.ResumableCrawl(input.adapterId, input.resourceId);
      if c.Some? && c.value.derivation == input.derivation && c.value.fingerprint == Some(input.fingerprint) {
        start := c.value.nextPage;
      }
    }
    var crawl := store.OpenCrawl(input.adapterId, input.resourceId, start, input.derivation, Some(input.fingerprint));
    var fold, stored := ReplayRows(store.rows, input.adapterId);
    var buried := store.RetractionHighWater(input.adapterId);
    var meta := S.HeadMetas(FoldState(fold.chains, fold.arrivalCounter), stored, input.adapterId);
    run := new SweepRun(input, crawl, fold, buried, meta, start);
  }

  /** One turn of the page loop: the call and what comes of it, or the page limit. */
  method Turn(store: Store, run: SweepRun, answers: Answers, verdict: Option<string>) returns (done: bool)
    requires run.Valid() && run.pageNumber <= S.MAX_PAGES
    modifies run, run.fold, store
    ensures run.Valid()
    ensures S.Apply(S.System(old(store.State()), Some(old(run.Sweep()))),
                    PageEvent(answers, verdict, old(run.pageNumber)))
            == S.System(store.State(), if done then None else Some(run.Sweep()))
    ensures !done ==> run.pageNumber == old(run.pageNumber) + 1 <= S.MAX_PAGES
  {
    if run.pageNumber >= S.MAX_PAGES {
      store.FinishCrawl(run.crawl, false, false, Some(PageLimit));
      return true;
    }
    var answer := answers(run.pageNumber);
    if answer.None? {
      store.FinishCrawl(run.crawl, false, false, Some(AdapterFailed(run.pageNumber)));
      return true;
    }
    PageCounts(S.System(store.State(), Some(run.Sweep())), answer.value, verdict);
    done := run.OnPage(store, answer.value, verdict);
  }

  /** The same turn, seen as the next state of the run. */
  method NextTurn(store: Store, run: SweepRun, answers: Answers, verdict: Option<string>, ghost s0: S.System,
                  ghost step: Stepper) returns (done: bool)
    requires run.Valid() && run.pageNumber <= S.MAX_PAGES && IsSweepStep(step, answers, verdict)
    requires After(s0, step, run.pageNumber) == S.System(store.State(), Some(run.Sweep()))
    modifies run, run.fold, store
    ensures run.Valid()
    ensures After(s0, step, old(run.pageNumber) + 1)
            == S.System(store.State(), if done then None else Some(run.Sweep()))
    ensures !done ==> run.pageNumber == old(run.pageNumber) + 1 <= S.MAX_PAGES
  {
    done := Turn(store, run, answers, verdict);
  }

  lemma {:induction false} AfterKeeps(s: S.System, step: Stepper, answers: Answers, verdict: Option<string>, n: nat)
    requires SweepRuns.Inv(s) && IsSweepStep(step, answers, verdict)
    ensures SweepRuns.Inv(After(s, step, n))
  {
    if n > 0 {
      AfterKeeps(s, step, answers, verdict, n - 1);
      SweepRuns.ApplyKeeps(After(s, step, n - 1), PageEvent(answers, verdict, n - 1));
    }
  }

  /** The page loop. */
  method ReadPages(store: Store, run: SweepRun, answers: Answers, verdict: Option<string>, ghost s0: S.System,
                   ghost step: Stepper)
    requires run.Valid() && run.pageNumber == 0 && s0 == S.System(store.State(), Some(run.Sweep()))
    requires IsSweepStep(step, answers, verdict)
    modifies run, run.fold, store
    ensures After(s0, step, S.MAX_PAGES + 1) == S.System(store.State(), None)
  {
    var n, done := 0, false;
    while !done
      invariant n <= S.MAX_PAGES + 1 && run.Valid()
      invariant !done ==> run.pageNumber == n <= S.MAX_PAGES
      invariant After(s0, step, n) == S.System(store.State(), if done then None else Some(run.Sweep()))
      decreases S.MAX_PAGES + 1 - n, !done
    {
      done := NextTurn(store, run, answers, verdict, s0, step);
      n := n + 1;
    }
    OverStays(s0, step, n, S.MAX_PAGES + 1);
  }

  /** `sweep_resource`: the store ends exactly as the state machine says, and its invariant holds. */
  method SweepResource(store: Store, input: S.Input, answers: Answers, verdict: Option<string>)
    requires SweepRuns.TablesOk(store.State())
    modifies store
    ensures SweepRuns.TablesOk(store.State())
    ensures After(S.Apply(S.System(old(store.State()), None), S.BeginSweep(input)), SweepStep(answers, verdict),
                  S.MAX_PAGES + 1) == S.System(store.State(), None)
  {
    ghost var s0 := S.Apply(S.System(store.State(), None), S.BeginSweep(input));
    SweepRuns.ApplyKeeps(S.System(store.State(), None), S.BeginSweep(input));
    var run := Begin(store, input);
    ReadPages(store, run, answers, verdict, s0, SweepStep(answers, verdict));
    AfterKeeps(s0, SweepStep(answers, verdict), answers, verdict, S.MAX_PAGES + 1);
  }

  lemma {:induction false} PageCounts(s: S.System, read: S.HistoryRead, verdict: Option<string>)
    requires s.sweep.Some?
    ensures var s' := S.Apply(s, S.Page(read, verdict));
            s'.sweep.Some? ==> s'.sweep.value.pageNumber == s.sweep.value.pageNumber + 1
  {
  }
}
