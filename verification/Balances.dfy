/** Balance lines and their freshness (core/store/src/store.rs, core/store/src/refresh.rs,
    core/store/src/render.rs). */
module Balances {
  import opened Base
  import Money

  datatype Staleness = Live | Cached | Unavailable

  datatype Line = Line(resourceId: Id, category: string, amount: Option<Money.Amount>, staleness: Staleness,
                       providerId: string, receivedAt: string, outcome: string)

  datatype BalanceRow = BalanceRow(adapterId: Id, readId: nat, line: Line)

  /** The two tables, and the refresh in hand: its adapter and the read it opened. */
  datatype Book = Book(adapters: map<Id, nat>, balances: seq<BalanceRow>, current: Option<(Id, nat)>)

  const EMPTY: Book := Book(map[], [], None)

  // ----- the steps of a refresh ----------------------------------------------------------

  datatype Event =
    | Connect(adapterId: Id)              // the adapter's row is added
    | OpenRead(adapterId: Id)             // `open_balance_read`
    | Commit(lines: seq<Line>)            // the whole reply, in one transaction
    | Die                                 // anything fails: spawn, hello, a call, the process

  function RowsOf(a: Id, readId: nat, lines: seq<Line>): seq<BalanceRow> {
    seq(|lines|, i requires 0 <= i < |lines| => BalanceRow(a, readId, lines[i]))
  }

  function Apply(b: Book, e: Event): Book {
    match e
    case Connect(a) => if a in b.adapters then b else b.(adapters := b.adapters[a := 0])
    case OpenRead(a) =>
      if a !in b.adapters then b.(current := None)
      else b.(adapters := b.adapters[a := b.adapters[a] + 1], current := Some((a, b.adapters[a] + 1)))
    case Commit(lines) =>
      if b.current.None? then b
      else b.(balances := b.balances + RowsOf(b.current.value.0, b.current.value.1, lines), current := None)
    case Die => b.(current := None)
  }

  function Run(events: seq<Event>): Book {
    if events == [] then EMPTY else Apply(Run(events[..|events| - 1]), events[|events| - 1])
  }

  /** The freshness join: an adapter that is gone leaves nothing fresh. */
  predicate Fresh(b: Book, row: BalanceRow) {
    row.adapterId in b.adapters && row.readId == b.adapters[row.adapterId]
  }

  // ----- which read wrote a row, told by the run alone -----------------------------------

  /** The event that opened the adapter's most recent read. */
  function LastOpen(events: seq<Event>, a: Id): Option<nat> {
    if events == [] then None
    else
      var front, e := events[..|events| - 1], events[|events| - 1];
      if e == OpenRead(a) && a in Run(front).adapters then Some(|front|) else LastOpen(front, a)
  }

  /** For each stored row, the event that opened the read it came from. */
  function Writers(events: seq<Event>): seq<Option<nat>> {
    if events == [] then []
    else
      var front, e := events[..|events| - 1], events[|events| - 1];
      var book := Run(front);
      if e.Commit? && book.current.Some?
      then Writers(front) + seq(|e.lines|, i => LastOpen(front, book.current.value.0))
      else Writers(front)
  }

  /** How many reads of the adapter were opened up to event `n`. */
  function Opens(events: seq<Event>, a: Id): nat {
    if events == [] then 0
    else
      var front, e := events[..|events| - 1], events[|events| - 1];
      Opens(front, a) + if e == OpenRead(a) && a in Run(front).adapters then 1 else 0
  }

  lemma {:induction false} CounterIsOpens(events: seq<Event>, a: Id)
    ensures var b := Run(events);
      && (a in b.adapters ==> b.adapters[a] == Opens(events, a))
      && (a !in b.adapters ==> Opens(events, a) == 0)
      && (b.current.Some? && b.current.value.0 == a ==> a in b.adapters && b.current.value.1 == Opens(events, a))
      && (LastOpen(events, a).None? <==> Opens(events, a) == 0)
  {
    if events != [] { CounterIsOpens(events[..|events| - 1], a); }
  }

  /** Number of reads of `a` opened up to and including the event that is its last opening. */
  lemma {:induction false} OpensUpTo(events: seq<Event>, a: Id, n: nat)
    requires n < |events| && events[n] == OpenRead(a) && a in Run(events[..n]).adapters
    ensures Opens(events[..n + 1], a) >= 1
    ensures Opens(events, a) >= Opens(events[..n + 1], a)
    ensures Opens(events, a) == Opens(events[..n + 1], a) <==> LastOpen(events, a) == Some(n)
    decreases |events|
  {
    assert events[..n + 1][..n] == events[..n];
    if n == |events| - 1 {
      assert events[..n + 1] == events;
    } else {
      var front := events[..|events| - 1];
      assert front[..n] == events[..n] && front[..n + 1] == events[..n + 1];
      OpensUpTo(front, a, n);
      LastOpenBounded(front, a);
    }
  }

  lemma {:induction false} LastOpenBounded(events: seq<Event>, a: Id)
    ensures var n := LastOpen(events, a);
      n.Some? ==> n.value < |events| && events[n.value] == OpenRead(a) && a in Run(events[..n.value]).adapters
  {
    if events != [] {
      var front := events[..|events| - 1];
      LastOpenBounded(front, a);
      var n := LastOpen(front, a);
      if n.Some? { assert front[..n.value] == events[..n.value]; }
    }
  }

  /** The event that opened the read behind row `i`, and the id it was stamped with. */
  ghost predicate WrittenBy(events: seq<Event>, row: BalanceRow, writer: Option<nat>) {
    && writer.Some? && writer.value < |events| && events[writer.value] == OpenRead(row.adapterId)
    && row.adapterId in Run(events[..writer.value]).adapters
    && row.readId == Opens(events[..writer.value + 1], row.adapterId)
  }

  lemma {:induction false} WriterStands(events: seq<Event>, e: Event, row: BalanceRow, writer: Option<nat>)
    requires WrittenBy(events, row, writer)
    ensures WrittenBy(events + [e], row, writer)
  {
    assert (events + [e])[..writer.value] == events[..writer.value];
    assert (events + [e])[..writer.value + 1] == events[..writer.value + 1];
  }

  lemma {:induction false} NewRowWrittenBy(events: seq<Event>, e: Event, a: Id, line: Line)
    requires Run(events).current.Some? && Run(events).current.value.0 == a
    ensures WrittenBy(events + [e], BalanceRow(a, Run(events).current.value.1, line), LastOpen(events, a))
  {
    CounterIsOpens(events, a);
    CurrentWasOpened(events);
    LastOpenBounded(events, a);
    var n := LastOpen(events, a).value;
    OpensUpTo(events, a, n);
    assert (events + [e])[..n] == events[..n] && (events + [e])[..n + 1] == events[..n + 1];
  }

  lemma {:induction false} CurrentWasOpened(events: seq<Event>)
    requires Run(events).current.Some?
    ensures LastOpen(events, Run(events).current.value.0).Some?
  {
    var front := events[..|events| - 1];
    if Run(front).current.Some? && !events[|events| - 1].OpenRead? { CurrentWasOpened(front); }
  }

  lemma {:induction false} RowsHaveWriters(events: seq<Event>)
    ensures |Writers(events)| == |Run(events).balances|
    ensures forall i :: 0 <= i < |Run(events).balances| ==>
              WrittenBy(events, Run(events).balances[i], Writers(events)[i])
  {
    if events != [] {
      var front, e := events[..|events| - 1], events[|events| - 1];
      RowsHaveWriters(front);
      assert events == front + [e];
      forall i | 0 <= i < |Run(events).balances|
        ensures WrittenBy(events, Run(events).balances[i], Writers(events)[i]) {
        if i < |Run(front).balances| {
          WriterStands(front, e, Run(front).balances[i], Writers(front)[i]);
        } else {
          NewRowWrittenBy(front, e, Run(front).current.value.0, e.lines[i - |Run(front).balances|]);
        }
      }
    }
  }

  /** Over every run of refreshes, each failing wherever it likes: a row counts as fresh exactly when the
      adapter's most recently opened read wrote it. */
  lemma {:induction false} FreshIffLatestRead(events: seq<Event>, i: nat)
    requires i < |Run(events).balances|
    ensures |Writers(events)| == |Run(events).balances|
    ensures Fresh(Run(events), Run(events).balances[i]) <==>
            Writers(events)[i] == LastOpen(events, Run(events).balances[i].adapterId)
  {
    RowsHaveWriters(events);
    var row, w := Run(events).balances[i], Writers(events)[i];
    assert WrittenBy(events, row, w);
    CounterIsOpens(events, row.adapterId);
    OpensUpTo(events, row.adapterId, w.value);
  }

  // ----- rendering -----------------------------------------------------------------------

  datatype Shown =
    | Absent                                          // no row at all
    | LiveFigure(amount: Money.Amount, row: BalanceRow)
    | StaleFigure(amount: Money.Amount, row: BalanceRow)
    | Unknown(row: BalanceRow)
    | NoFigure(row: BalanceRow)                       // unavailable

  predicate IsUnavailable(s: Shown) { s.Absent? || s.NoFigure? }

  /** `balance_history`, narrowed to one category, oldest first. */
  function History(rows: seq<BalanceRow>, a: Id, r: Id, category: string): seq<BalanceRow> {
    if rows == [] then []
    else
      var row := rows[|rows| - 1];
      History(rows[..|rows| - 1], a, r, category)
      + if row.adapterId == a && row.line.resourceId == r && row.line.category == category then [row] else []
  }

  /** The newest row that carries a figure. */
  function LastFigure(history: seq<BalanceRow>): (row: Option<BalanceRow>)
    ensures row.Some? ==> row.value in history && row.value.line.amount.Some?
  {
    if history == [] then None
    else if history[|history| - 1].line.amount.Some? then Some(history[|history| - 1])
    else LastFigure(history[..|history| - 1])
  }

  /** `balance_line` as a classification. */
  function BalanceLine(b: Book, history: seq<BalanceRow>): Shown {
    if history == [] then Absent
    else
      var latest := history[|history| - 1];
      var live := Fresh(b, latest) && latest.line.staleness == Live;
      match latest.line.amount
      case Some(amount) => if live then LiveFigure(amount, latest) else StaleFigure(amount, latest)
      case None =>
        if live then Unknown(latest)
        else
          var row := LastFigure(history);
          if row.Some? then StaleFigure(row.value.line.amount.value, row.value) else NoFigure(latest)
  }

  function Rendered(b: Book, a: Id, r: Id, category: string): Shown {
    BalanceLine(b, History(b.balances, a, r, category))
  }

  lemma {:induction false} HistoryHolds(rows: seq<BalanceRow>, a: Id, r: Id, category: string, row: BalanceRow)
    ensures row in History(rows, a, r, category) <==>
            row in rows && row.adapterId == a && row.line.resourceId == r && row.line.category == category
  {
    if rows != [] {
      HistoryHolds(rows[..|rows| - 1], a, r, category, row);
      assert rows == rows[..|rows| - 1] + [rows[|rows| - 1]];
    }
  }

  lemma {:induction false} FigureFound(history: seq<BalanceRow>, row: BalanceRow)
    requires row in history && row.line.amount.Some?
    ensures LastFigure(history).Some?
  {
    var front, last := history[..|history| - 1], history[|history| - 1];
    assert history == front + [last];
    if last.line.amount.None? { FigureFound(front, row); }
  }

  /** A category that ever had a figure never renders unavailable. */
  lemma {:induction false} FigureNeverUnavailable(b: Book, row: BalanceRow)
    requires row in b.balances && row.line.amount.Some?
    ensures !IsUnavailable(Rendered(b, row.adapterId, row.line.resourceId, row.line.category))
  {
    var history := History(b.balances, row.adapterId, row.line.resourceId, row.line.category);
    HistoryHolds(b.balances, row.adapterId, row.line.resourceId, row.line.category, row);
    FigureFound(history, row);
  }

  lemma {:induction false} RowsAreKept(events: seq<Event>, more: seq<Event>)
    ensures Run(events).balances <= Run(events + more).balances
  {
    if more == [] {
      assert events + more == events;
    } else {
      RowsAreKept(events, more[..|more| - 1]);
      assert (events + more)[..|events + more| - 1] == events + more[..|more| - 1];
    }
  }

  /** And a figure once stored stays: no later refresh, however it fails, makes its line unavailable. */
  lemma {:induction false} FigureSurvives(events: seq<Event>, more: seq<Event>, i: nat)
    requires i < |Run(events).balances| && Run(events).balances[i].line.amount.Some?
    ensures var row := Run(events).balances[i];
            !IsUnavailable(Rendered(Run(events + more), row.adapterId, row.line.resourceId, row.line.category))
  {
    RowsAreKept(events, more);
    assert Run(events + more).balances[i] == Run(events).balances[i];
    FigureNeverUnavailable(Run(events + more), Run(events).balances[i]);
  }

  /** What is shown as live was written by the adapter's latest read and called live by the adapter. */
  predicate ShownLive(s: Shown) { s.LiveFigure? || s.Unknown? }

  lemma {:induction false} LiveIsFresh(b: Book, a: Id, r: Id, category: string)
    requires ShownLive(Rendered(b, a, r, category))
    ensures var row := Rendered(b, a, r, category).row;
      row in b.balances && row.adapterId == a && Fresh(b, row) && row.line.staleness == Live
  {
    var history := History(b.balances, a, r, category);
    HistoryHolds(b.balances, a, r, category, history[|history| - 1]);
  }

  /** No read of `a` has committed since its latest was opened. */
  ghost predicate ReadPending(events: seq<Event>, a: Id) {
    LastOpen(events, a).Some? && forall i :: LastOpen(events, a).value < i < |events| && events[i].Commit? ==>
      var c := Run(events[..i]).current; c.None? || c.value.0 != a
  }

  lemma {:induction false} PendingWroteNothing(events: seq<Event>, a: Id)
    requires ReadPending(events, a)
    ensures |Writers(events)| == |Run(events).balances|
    ensures forall i :: 0 <= i < |Run(events).balances| && Run(events).balances[i].adapterId == a ==>
              Writers(events)[i] != LastOpen(events, a)
  {
    RowsHaveWriters(events);
    var front, e := events[..|events| - 1], events[|events| - 1];
    var n := LastOpen(events, a).value;
    if n == |front| {
      RowsHaveWriters(front);
    } else {
      assert LastOpen(front, a) == LastOpen(events, a);
      assert forall i :: 0 <= i <= |front| ==> front[..i] == events[..i];
      assert events[..|front|] == front;
      PendingWroteNothing(front, a);
    }
  }

  /** A refresh that dies anywhere before its balance commit leaves no line of that adapter live. */
  lemma {:induction false} DeadRefreshLeavesNothingLive(events: seq<Event>, a: Id, r: Id, category: string)
    requires ReadPending(events, a)
    ensures !ShownLive(Rendered(Run(events), a, r, category))
  {
    if ShownLive(Rendered(Run(events), a, r, category)) {
      LiveIsFresh(Run(events), a, r, category);
      var row := Rendered(Run(events), a, r, category).row;
      var i :| 0 <= i < |Run(events).balances| && Run(events).balances[i] == row;
      PendingWroteNothing(events, a);
      FreshIffLatestRead(events, i);
    }
  }

  /** No row after position `i` of the history carries a figure. */
  predicate NewestFigure(history: seq<BalanceRow>, i: nat) {
    i < |history| && history[i].line.amount.Some? && forall k :: i < k < |history| ==> history[k].line.amount.None?
  }

  lemma {:induction false} LastFigureIsNewest(history: seq<BalanceRow>) returns (i: nat)
    requires LastFigure(history).Some?
    ensures NewestFigure(history, i) && LastFigure(history) == Some(history[i])
  {
    if history[|history| - 1].line.amount.Some? {
      i := |history| - 1;
    } else {
      i := LastFigureIsNewest(history[..|history| - 1]);
    }
  }

  /** A figure is shown with the row it came from, and it is the newest there is: live exactly when that
      row is the latest, fresh, and called live by the adapter. */
  lemma {:induction false} ShownFigureIsNewest(b: Book, history: seq<BalanceRow>) returns (i: nat)
    requires BalanceLine(b, history).LiveFigure? || BalanceLine(b, history).StaleFigure?
    ensures NewestFigure(history, i)
    ensures var s := BalanceLine(b, history);
      && s.row == history[i] && history[i].line.amount == Some(s.amount)
      && (s.LiveFigure? <==> i + 1 == |history| && Fresh(b, history[i]) && history[i].line.staleness == Live)
  {
    var latest := history[|history| - 1];
    if latest.line.amount.Some? {
      i := |history| - 1;
    } else {
      i := LastFigureIsNewest(history);
    }
  }

  // ----- every line, verbatim ------------------------------------------------------------

  /** The latest row is fresh, and its adapter called it live. */
  predicate LatestLive(b: Book, history: seq<BalanceRow>) {
    && history != [] && Fresh(b, history[|history| - 1]) && history[|history| - 1].line.staleness == Live
  }

  predicate SomeFigure(history: seq<BalanceRow>) {
    exists i :: 0 <= i < |history| && history[i].line.amount.Some?
  }

  /** Which of the five lines is shown: never a figure that is not there, and never `unavailable` for a
      balance the adapter has just looked at and does not know. */
  lemma {:induction false} ShownIff(b: Book, history: seq<BalanceRow>)
    ensures var s := BalanceLine(b, history);
      && (s.Absent? <==> history == [])
      && (s.LiveFigure? <==> LatestLive(b, history) && history[|history| - 1].line.amount.Some?)
      && (s.Unknown? <==> LatestLive(b, history) && history[|history| - 1].line.amount.None?)
      && (s.StaleFigure? <==> !LatestLive(b, history) && SomeFigure(history))
      && (s.NoFigure? <==> history != [] && !LatestLive(b, history) && !SomeFigure(history))
      && (s.Unknown? || s.NoFigure? ==> s.row == history[|history| - 1])
  {
    if history != [] && LastFigure(history).Some? {
      var i := LastFigureIsNewest(history);
    }
    forall i | 0 <= i < |history| && history[i].line.amount.Some? ensures LastFigure(history).Some? {
      FigureFound(history, history[i]);
    }
  }

  /** The adapter whose read is open, told by the run alone. */
  function OpenAdapter(events: seq<Event>): Option<Id> {
    if events == [] then None
    else
      match events[|events| - 1]
      case OpenRead(a) => if Known(events[..|events| - 1], a) then Some(a) else None
      case Connect(_) => OpenAdapter(events[..|events| - 1])
      case _ => None
  }

  predicate Known(events: seq<Event>, a: Id) { Connect(a) in events }

  /** What refreshes committed, in order, and for which adapter. */
  function Committed(events: seq<Event>): seq<(Id, Line)> {
    if events == [] then []
    else
      var front, e := events[..|events| - 1], events[|events| - 1];
      Committed(front)
      + if e.Commit? && OpenAdapter(front).Some?
        then seq(|e.lines|, i requires 0 <= i < |e.lines| => (OpenAdapter(front).value, e.lines[i])) else []
  }

  lemma {:induction false} BookKnows(events: seq<Event>, a: Id)
    ensures a in Run(events).adapters <==> Known(events, a)
    ensures Run(events).current.Some? <==> OpenAdapter(events).Some?
    ensures Run(events).current.Some? ==> OpenAdapter(events) == Some(Run(events).current.value.0)
  {
    if events != [] {
      var front, e := events[..|events| - 1], events[|events| - 1];
      assert events == front + [e];
      BookKnows(front, a);
      if e.OpenRead? { BookKnows(front, e.adapterId); }
    }
  }

  /** Over every run: the stored balances are exactly the committed lines, verbatim and in order, each filed
      under the adapter whose read was open. */
  lemma {:induction false} StoredAreCommitted(events: seq<Event>)
    ensures |Run(events).balances| == |Committed(events)|
    ensures forall i :: 0 <= i < |Committed(events)| ==>
              (Run(events).balances[i].adapterId, Run(events).balances[i].line) == Committed(events)[i]
  {
    if events != [] {
      StoredAreCommitted(events[..|events| - 1]);
      BookKnows(events[..|events| - 1], "");
    }
  }

  lemma {:induction false} HistoryConcat(xs: seq<BalanceRow>, ys: seq<BalanceRow>, a: Id, r: Id, category: string)
    ensures History(xs + ys, a, r, category) == History(xs, a, r, category) + History(ys, a, r, category)
  {
    if ys == [] {
      assert xs + ys == xs;
    } else {
      HistoryConcat(xs, ys[..|ys| - 1], a, r, category);
      assert (xs + ys)[..|xs + ys| - 1] == xs + ys[..|ys| - 1];
    }
  }
}
