/** One resource's sweep (core/store/src/sweep.rs): the gate, the ingest of a page, the retraction
    derivation, and each database transaction as one step on the tables. */
module Sweeping {
  import opened Base
  import opened Folding
  import opened Tables
  import Instants

  const MAX_PAGES: nat := 100000

  datatype Options = Options(resume: bool, confirmEmpty: bool)

  datatype Input = Input(
    adapterId: Id, resourceId: Id, derivation: string, fingerprint: string, providerId: string,
    historyStart: Option<string>, connectionViolation: Option<string>, options: Options)

  datatype Resumability = Exact | BatchRestart | NoResume
  datatype PageReply = PageReply(resumable: Resumability, next: Option<PageRequest>)
  datatype Degraded = Degraded(localId: Option<Id>, bytes: nat)
  datatype Status = Status(resourceId: Id, outcome: Outcome, degraded: seq<Degraded>, page: Option<PageReply>)
  datatype HistoryRead = HistoryRead(observations: seq<Observation>, statuses: seq<Status>)

  // ----- the gate ------------------------------------------------------------------------

  datatype Gate = Gate(
    beganAtStart: bool, drained: bool, everyPageFetched: bool, anonymousDegrade: bool, everyCursorExact: bool,
    derivation: string, foreignProvenance: bool, notFetched: Option<(Outcome, nat)>, violation: Option<string>)
  {
    /** The first condition that failed, in the order the crawl row reports them. Condition (2) has
        no field: a sweep whose process died never reaches its final page. */
    function Disqualifier(): Option<Disqualification> {
      if violation.Some? then Some(BrokeContract(violation.value))
      else if !beganAtStart then Some(NotFromStart)
      else if !drained then Some(NotDrained)
      else if !everyPageFetched then
        Some(if notFetched.Some? then PageNotFetched(notFetched.value.0, notFetched.value.1)
             else PageNotFetched(NotFetched, 0))
      else if anonymousDegrade then Some(AnonymousDegrade)
      else if !everyCursorExact then Some(CursorNotExact)
      else if derivation == "" then Some(NoDerivation)
      else if foreignProvenance then Some(ForeignProvenance)
      else None
    }
  }

  /** Named entries exempt one record each; one anonymous entry disqualifies the page. */
  function NamedIds(degraded: seq<Degraded>): set<Id> {
    set i | 0 <= i < |degraded| && degraded[i].localId.Some? :: degraded[i].localId.value
  }

  predicate HasAnonymous(degraded: seq<Degraded>) {
    exists i :: 0 <= i < |degraded| && degraded[i].localId.None?
  }

  /** `judge_page`: one page's status folded into the gate. */
  function JudgePage(g: Gate, st: Status, page: nat): Gate {
    var fetched := st.outcome == Fetched;
    g.(everyPageFetched := g.everyPageFetched && fetched,
       notFetched := if !fetched && g.notFetched.None? then Some((st.outcome, page + 1)) else g.notFetched,
       anonymousDegrade := g.anonymousDegrade || HasAnonymous(st.degraded),
       everyCursorExact := g.everyCursorExact && (st.page.Some? ==> st.page.value.resumable == Exact))
  }

  // ----- paging --------------------------------------------------------------------------

  datatype ResumeState = ResumeState(start: Option<PageRequest>, resumable: Option<Resumability>,
                                     exactNext: Option<PageRequest>)
  {
    /** What to resend if the read had to be started over right now. */
    function NextRequest(): Option<PageRequest> {
      match resumable
      case None => start
      case Some(Exact) => exactNext
      case Some(_) => start
    }

    function Record(r: Resumability, next: Option<PageRequest>): ResumeState {
      if r == Exact then ResumeState(start, Some(r), next) else ResumeState(start, Some(r), exactNext)
    }
  }

  // ----- ingesting a page ----------------------------------------------------------------

  /** The transaction's working state. */
  datatype Work = Work(rows: seq<Row>, fold: FoldState, meta: map<Id, HeadMeta>,
                       added: nat, revised: nat, same: nat)

  predicate CurrentlyRetracted(f: FoldState, buried: map<Id, nat>, key: ChainKey) {
    f.HighestRevision(key).Some? && IsBuried(buried, key.1, f.HighestRevision(key).value)
  }

  /** Equal content against the chain head, on a key no retraction buries. */
  predicate Deduplicates(f: FoldState, buried: map<Id, nat>, key: ChainKey, o: Observation) {
    && !CurrentlyRetracted(f, buried, key)
    && f.Head(key).Some?
    && ContentOf(f.Head(key).value.obs) == ContentOf(o)
  }

  function InputMeta(input: Input): HeadMeta { HeadMeta(input.derivation, Some(input.fingerprint)) }

  /** One observation: stamped as seen, or appended; `None` is the UNIQUE key refusing the row. */
  function IngestOne(w: Work, input: Input, crawl: nat, buried: map<Id, nat>, o: Observation): Option<Work> {
    var key := (input.adapterId, o.localId);
    var meta := w.meta[o.localId := InputMeta(input)];
    if Deduplicates(w.fold, buried, key, o) then
      var revision := w.fold.Head(key).value.revision;
      Some(w.(rows := StampSeen(w.rows, input.adapterId, o.localId, revision, crawl, InputMeta(input)),
              meta := meta, same := w.same + 1))
    else
      var revision := w.fold.NextRevision(o);
      if Taken(w.rows, input.adapterId, o.localId, revision) then None
      else
        Some(Work(w.rows + [Row(input.adapterId, revision, crawl, crawl, InputMeta(input), o)],
                  w.fold.Ingest(o), meta,
                  w.added + (if revision == 1 then 1 else 0), w.revised + (if revision == 1 then 0 else 1),
                  w.same))
  }

  function IngestPage(w: Work, input: Input, crawl: nat, buried: map<Id, nat>, os: seq<Observation>): Option<Work> {
    if os == [] then Some(w)
    else
      var w' := IngestPage(w, input, crawl, buried, os[..|os| - 1]);
      if w'.None? then None else IngestOne(w'.value, input, crawl, buried, os[|os| - 1])
  }

  /** Observations of the swept resource that the connection may speak for. */
  function Admitted(os: seq<Observation>, input: Input): seq<Observation> {
    if os == [] then []
    else
      var o := os[|os| - 1];
      var front := Admitted(os[..|os| - 1], input);
      if o.adapterId == input.adapterId && o.resourceId == input.resourceId then front + [o] else front
  }

  predicate HasForeign(os: seq<Observation>, input: Input) {
    exists i :: 0 <= i < |os| && os[i].adapterId != input.adapterId
  }

  function LocalIds(os: seq<Observation>): set<Id> { set i | 0 <= i < |os| :: os[i].localId }

  // ----- deriving retractions ------------------------------------------------------------

  /** The keys of one resource that are live: fold head active, and the chain's highest revision
      above every retraction. */
  predicate IsLive(f: FoldState, highWater: map<Id, nat>, a: Id, r: Id, l: Id) {
    && f.LiveHead((a, l))
    && f.Head((a, l)).value.obs.resourceId == r
    && f.HighestRevision((a, l)).Some?
    && !IsBuried(highWater, l, f.HighestRevision((a, l)).value)
  }

  function LiveSet(f: FoldState, highWater: map<Id, nat>, a: Id, r: Id): set<Id> {
    set key | key in f.chains && key.0 == a && IsLive(f, highWater, a, r, key.1) :: key.1
  }

  /** The record predates the adapter's reported start of history, or cannot be ordered against it. */
  predicate PredatesHistory(start: Option<string>, head: Observation) {
    start.Some? &&
    var at := Instants.Instant(if head.effectiveAt.Some? then head.effectiveAt.value else head.observedAt);
    var from := Instants.Instant(start.value);
    !(at.Some? && from.Some? && Instants.AtOrAfter(at.value, from.value))
  }

  /** Live, not reported by this sweep, and covered by no exemption. */
  predicate Retractable(f: FoldState, highWater: map<Id, nat>, input: Input, observed: set<Id>, exempt: set<Id>,
                        l: Id) {
    && IsLive(f, highWater, input.adapterId, input.resourceId, l)
    && l !in observed && l !in exempt
    && !PredatesHistory(input.historyStart, f.Head((input.adapterId, l)).value.obs)
  }

  function ReasonFor(meta: map<Id, HeadMeta>, input: Input, l: Id): Reason {
    if l in meta && meta[l].derivation != input.derivation then DerivationChanged
    else if l in meta && meta[l].fingerprint != Some(input.fingerprint) then DefinitionChanged
    else AbsentFromCompleteSweep
  }

  function RetractionOf(f: FoldState, meta: map<Id, HeadMeta>, input: Input, crawl: nat, l: Id): Retraction
    requires f.HighestRevision((input.adapterId, l)).Some?
  {
    Retraction(input.adapterId, l, f.HighestRevision((input.adapterId, l)).value, ReasonFor(meta, input, l), crawl)
  }

  /** Rows for the retractable ids among `live`, in order. */
  function Retract(live: seq<Id>, f: FoldState, highWater: map<Id, nat>, meta: map<Id, HeadMeta>, input: Input,
                   crawl: nat, observed: set<Id>, exempt: set<Id>): seq<Retraction> {
    if live == [] then []
    else
      var l := live[|live| - 1];
      var front := Retract(live[..|live| - 1], f, highWater, meta, input, crawl, observed, exempt);
      if Retractable(f, highWater, input, observed, exempt, l)
      then front + [RetractionOf(f, meta, input, crawl, l)] else front
  }

  predicate VantageMoved(t: Tables, input: Input) {
    && (input.adapterId, input.resourceId) in t.resources
    && t.resources[(input.adapterId, input.resourceId)].lastProvider.Some?
    && t.resources[(input.adapterId, input.resourceId)].lastProvider.value != input.providerId
  }

  /** `derive_retractions`: the vantage and empty-sweep exemptions, then the diff. */
  ghost function Derive(t: Tables, input: Input, crawl: nat, f: FoldState, meta: map<Id, HeadMeta>,
                        observed: set<Id>, exempt: set<Id>): Tables {
    var highWater := HighWater(t.retractions, input.adapterId);
    var live := LiveSet(f, highWater, input.adapterId, input.resourceId);
    if VantageMoved(t, input) then
      t.(discrepancies := t.discrepancies + [Discrepancy(input.adapterId, input.resourceId, KindVantage, crawl)])
    else if observed == {} && live != {} && !input.options.confirmEmpty then
      t.(discrepancies := t.discrepancies + [Discrepancy(input.adapterId, input.resourceId, KindEmpty, crawl)])
    else
      var ids := SortedIds(live);
      var gone := Retract(ids, f, highWater, meta, input, crawl, observed, exempt);
      t.(retractions := t.retractions + gone,
         discrepancies := t.discrepancies + Notes(ids, gone, f, input, crawl, observed, exempt))
  }

  /** One note per kind of software change or exemption that occurred, never one per record. */
  function Notes(live: seq<Id>, gone: seq<Retraction>, f: FoldState, input: Input, crawl: nat,
                 observed: set<Id>, exempt: set<Id>): seq<Discrepancy> {
    var note := (k: Kind) => Discrepancy(input.adapterId, input.resourceId, k, crawl);
    (if exists i :: 0 <= i < |gone| && gone[i].reason == DerivationChanged then [note(KindDerivation)] else [])
    + (if exists i :: 0 <= i < |gone| && gone[i].reason == DefinitionChanged then [note(KindDefinition)] else [])
    + (if exists i :: 0 <= i < |live| && live[i] !in observed && live[i] !in exempt
                      && f.Head((input.adapterId, live[i])).Some?
                      && PredatesHistory(input.historyStart, f.Head((input.adapterId, live[i])).value.obs)
       then [note(KindHistoryStart)] else [])
  }

  // ----- a sweep in progress -------------------------------------------------------------

  /** The in-memory state of `sweep_resource`, which a crash loses. */
  datatype Sweep = Sweep(
    input: Input, crawl: nat, gate: Gate, fold: FoldState, meta: map<Id, HeadMeta>, buried: map<Id, nat>,
    resume: ResumeState, page: Option<PageRequest>, pageNumber: nat, observed: set<Id>, exempt: set<Id>)

  /** `resume_point`: dropped when the derivation or the definition has moved since. */
  function ResumePoint(t: Tables, input: Input): Option<PageRequest> {
    var c := ResumableCrawl(t.crawls, input.adapterId, input.resourceId);
    if c.None? || c.value.derivation != input.derivation || c.value.fingerprint != Some(input.fingerprint)
    then None else c.value.nextPage
  }

  /** The rules recorded for the row the fold calls each chain's head. */
  function HeadMetas(f: FoldState, stored: map<(Id, nat), HeadMeta>, a: Id): map<Id, HeadMeta> {
    map l | l in (set key | key in f.chains && key.0 == a :: key.1)
            && f.Head((a, l)).Some? && (l, f.Head((a, l)).value.revision) in stored
      :: stored[(l, f.Head((a, l)).value.revision)]
  }

  function StartPage(t: Tables, input: Input): Option<PageRequest> {
    if input.options.resume then ResumePoint(t, input) else None
  }

  /** Transaction 1: the crawl is opened; everything else is read into memory. */
  function Begin(t: Tables, input: Input): (Tables, Sweep) {
    var start := StartPage(t, input);
    var t' := t.(crawls := OpenCrawl(t.crawls, input.adapterId, input.resourceId, start, input.derivation,
                                     Some(input.fingerprint)));
    var f := Replay(t.rows, input.adapterId);
    (t', Sweep(input, |t.crawls|,
               Gate(start.None?, false, true, false, true, input.derivation, false, None, input.connectionViolation),
               f, HeadMetas(f, StoredMeta(t.rows, input.adapterId), input.adapterId),
               HighWater(t.retractions, input.adapterId),
               ResumeState(start, None, None), start, 0, {}, {}))
  }

  function FindStatus(statuses: seq<Status>, r: Id): Option<Status> {
    if statuses == [] then None
    else if statuses[0].resourceId == r then Some(statuses[0])
    else FindStatus(statuses[1..], r)
  }

  /** What reading one page does to the sweep, before anything is written. */
  function Absorb(s: Sweep, read: HistoryRead, st: Status): Sweep {
    var os := Admitted(read.observations, s.input);
    var next := if st.page.Some? then st.page.value.next else None;
    var g := JudgePage(s.gate, st, s.pageNumber);
    s.(gate := g.(foreignProvenance := g.foreignProvenance || HasForeign(read.observations, s.input),
                  drained := next.None? && st.page.Some?),
       observed := s.observed + LocalIds(os),
       exempt := s.exempt + NamedIds(st.degraded),
       resume := if st.page.Some? then s.resume.Record(st.page.value.resumable, st.page.value.next) else s.resume,
       page := next,
       pageNumber := s.pageNumber + 1)
  }

  /** How one transaction, or the attempt at one, leaves the world. */
  datatype Step =
    | Continue(tables: Tables, sweep: Sweep)
    | Finished(tables: Tables)          // the sweep is over and its last write is durable
    | Refused                           // the UNIQUE key rejected a row: rolled back, sweep over

  function Fail(t: Tables, s: Sweep, reason: Disqualification): Tables {
    t.(crawls := FinishCrawl(t.crawls, s.crawl, false, false, Some(reason)))
  }

  function WorkOf(t: Tables, s: Sweep): Work { Work(t.rows, s.fold, s.meta, 0, 0, 0) }

  /** The verdict held across the commit joins the gate unless a violation is already there. */
  function HoldVerdict(g: Gate, verdict: Option<string>): Gate {
    if g.violation.None? then g.(violation := verdict) else g
  }

  /** The one transaction of the final page, after its rows are in. */
  ghost function Conclude(t: Tables, s: Sweep, verdict: Option<string>): Tables {
    var gate := HoldVerdict(s.gate, verdict);
    var disqualifier := gate.Disqualifier();
    var complete := disqualifier.None?;
    var t1 := if complete then Derive(t, s.input, s.crawl, s.fold, s.meta, s.observed, s.exempt) else t;
    t1.(derivations := t1.derivations[s.input.adapterId := s.input.derivation],
        resources := SetDefinition(t1.resources, s.input.adapterId, s.input.resourceId, s.input.fingerprint,
                                   if complete then Some(s.input.providerId) else None),
        crawls := FinishCrawl(t1.crawls, s.crawl, gate.drained, complete, disqualifier))
  }

  /** One page: read, judged, ingested, and committed on its own or in the final transaction. */
  ghost function OnPage(t: Tables, s: Sweep, read: HistoryRead, verdict: Option<string>): Step {
    var st := FindStatus(read.statuses, s.input.resourceId);
    if s.pageNumber >= MAX_PAGES then Finished(Fail(t, s, PageLimit))
    else if st.None? then Finished(Fail(t, s, NoStatus(s.pageNumber)))
    else
      var s' := Absorb(s, read, st.value);
      var w := IngestPage(WorkOf(t, s), s.input, s.crawl, s.buried, Admitted(read.observations, s.input));
      if w.None? then Refused
      else
        var s'' := s'.(fold := w.value.fold, meta := w.value.meta);
        var t' := t.(rows := w.value.rows);
        if s'.page.None? then Finished(Conclude(t', s'', verdict))
        else Continue(t'.(crawls := SetCursor(t'.crawls, s.crawl, s'.resume.NextRequest())), s'')
  }

  // ----- runs ----------------------------------------------------------------------------

  datatype System = System(tables: Tables, sweep: Option<Sweep>)

  datatype Event =
    | Connect(adapterId: Id, resourceId: Id)                 // `upsert_resource`
    | BeginSweep(input: Input)
    | Page(read: HistoryRead, verdict: Option<string>)
    | ReadFailed                                             // the adapter call failed
    | Crash                                                  // the process dies between two commits

  function Settle(t: Tables, step: Step): System {
    match step
    case Continue(t', sw) => System(t', Some(sw))
    case Finished(t') => System(t', None)
    case Refused => System(t, None)
  }

  /** One step of the single writer; an event that is not enabled changes nothing. */
  ghost function Apply(s: System, e: Event): System {
    match e
    case Connect(a, r) =>
      if (a, r) in s.tables.resources then s
      else s.(tables := s.tables.(resources := s.tables.resources[(a, r) := ResourceRow(None, None)]))
    case BeginSweep(input) =>
      if s.sweep.Some? then s else var (t, sw) := Begin(s.tables, input); System(t, Some(sw))
    case Page(read, verdict) =>
      if s.sweep.None? then s else Settle(s.tables, OnPage(s.tables, s.sweep.value, read, verdict))
    case ReadFailed =>
      if s.sweep.None? then s
      else System(Fail(s.tables, s.sweep.value, AdapterFailed(s.sweep.value.pageNumber)), None)
    case Crash => s.(sweep := None)
  }
}
