/** What a reply comes to, told from the connection's events alone (core/host/src/mux.rs). */
module MuxHistory {
  import opened Base
  import opened Multiplexing

  /** Ids handed out: one a request, until the counter's end. */
  function IssuedCount(events: seq<Event>): nat {
    if events == [] then 0
    else
      var n := IssuedCount(events[..|events| - 1]);
      if events[|events| - 1].DoIssue? && n + 1 < U64 then n + 1 else n
  }

  ghost predicate IsOver(events: seq<Event>) { exists i :: 0 <= i < |events| && events[i].DoFinish? }

  /** Event `i` concerns the waiter of `id`, already issued: its deadline, a reply to it, or the connection's
      first end. */
  ghost predicate Touches(events: seq<Event>, i: nat, id: nat) {
    && i < |events| && id < IssuedCount(events[..i])
    && match events[i]
       case DoTombstone(x) => x == id
       case DoDeliver(x, _) => x == id
       case DoFinish(_) => !IsOver(events[..i])
       case _ => false
  }

  /** The first event that concerns the waiter decides what it hears. */
  ghost predicate Decides(events: seq<Event>, i: nat, id: nat) {
    Touches(events, i, id) && forall j: nat :: j < i ==> !Touches(events, j, id)
  }

  ghost predicate Undecided(events: seq<Event>, id: nat) {
    id < IssuedCount(events) && forall i: nat :: !Touches(events, i, id)
  }

  ghost predicate DecidedBy(events: seq<Event>, id: nat, e: Event) {
    exists i: nat :: Decides(events, i, id) && events[i] == e
  }

  // ----- one more event ------------------------------------------------------------------

  lemma {:induction false} TouchesOn(events: seq<Event>, e: Event, i: nat, id: nat)
    requires i < |events|
    ensures Touches(events + [e], i, id) <==> Touches(events, i, id)
  {
    assert (events + [e])[..i] == events[..i] && (events + [e])[i] == events[i];
  }

  lemma {:induction false} DecidesOn(events: seq<Event>, e: Event, id: nat, d: Event)
    requires DecidedBy(events, id, d)
    ensures DecidedBy(events + [e], id, d)
  {
    var i: nat :| Decides(events, i, id) && events[i] == d;
    TouchesOn(events, e, i, id);
    forall j: nat | j < i ensures !Touches(events + [e], j, id) { TouchesOn(events, e, j, id); }
    assert Decides(events + [e], i, id);
  }

  lemma {:induction false} OneDecides(events: seq<Event>, id: nat, d: Event, e: Event)
    requires DecidedBy(events, id, d) && DecidedBy(events, id, e)
    ensures d == e
  {
  }

  lemma {:induction false} LastDecides(events: seq<Event>, e: Event, id: nat)
    requires Undecided(events, id)
    ensures Touches(events + [e], |events|, id) ==> DecidedBy(events + [e], id, e)
    ensures !Touches(events + [e], |events|, id) ==> Undecided(events + [e], id)
  {
    var all := events + [e];
    assert all[..|events|] == events && all[|events|] == e;
    forall j: nat | j < |events| ensures !Touches(all, j, id) { TouchesOn(events, e, j, id); }
    if Touches(all, |events|, id) { assert Decides(all, |events|, id); }
  }

  /** The waiter's slot and what it was sent, by the event that decided. */
  ghost predicate SlotTells(s: MuxState, events: seq<Event>, id: nat) {
    && id in s.slots && id in s.sent
    && match s.slots[id]
       case Pending => Undecided(events, id) && s.sent[id] == []
       case Tombstoned => DecidedBy(events, id, DoTombstone(id)) && s.sent[id] == []
       case Answered =>
         || (exists frame :: DecidedBy(events, id, DoDeliver(id, frame)) && s.sent[id] == [Reply(frame)])
         || (exists reason :: DecidedBy(events, id, DoFinish(reason)) && s.sent[id] == [Ended(reason)])
  }

  ghost predicate HistoryTells(s: MuxState, events: seq<Event>) {
    && MuxOk(s) && s.nextId == IssuedCount(events) && (s.terminal.Some? <==> IsOver(events))
    && forall id: nat :: id < s.nextId ==> SlotTells(s, events, id)
  }

  lemma {:induction false} SettledStays(s: MuxState, events: seq<Event>, e: Event, id: nat)
    requires HistoryTells(s, events) && id < s.nextId && s.slots[id] != Pending
    ensures SlotTells(Apply(s, e), events + [e], id)
  {
    assert SlotTells(s, events, id);
    if s.slots[id] == Tombstoned {
      DecidesOn(events, e, id, DoTombstone(id));
    } else if frame :| DecidedBy(events, id, DoDeliver(id, frame)) && s.sent[id] == [Reply(frame)] {
      DecidesOn(events, e, id, DoDeliver(id, frame));
    } else {
      var reason :| DecidedBy(events, id, DoFinish(reason)) && s.sent[id] == [Ended(reason)];
      DecidesOn(events, e, id, DoFinish(reason));
    }
  }

  lemma {:induction false} PendingMoves(s: MuxState, events: seq<Event>, e: Event, id: nat)
    requires HistoryTells(s, events) && id < s.nextId && s.slots[id] == Pending
    ensures SlotTells(Apply(s, e), events + [e], id)
  {
    var all := events + [e];
    assert SlotTells(s, events, id);
    LastDecides(events, e, id);
    assert all[..|events|] == events && all[|events|] == e;
    match e {
      case DoDeliver(x, frame) => if x == id { assert DecidedBy(all, id, DoDeliver(id, frame)); }
      case DoFinish(reason) => if !IsOver(events) { assert DecidedBy(all, id, DoFinish(reason)); }
      case _ =>
    }
  }

  lemma {:induction false} NewIsUndecided(events: seq<Event>, e: Event, id: nat)
    requires id == IssuedCount(events) && id < IssuedCount(events + [e])
    ensures Undecided(events + [e], id)
  {
    var all := events + [e];
    assert all[..|events|] == events;
    forall i: nat ensures !Touches(all, i, id) {
      if i < |events| { IssuedGrows(events, i); TouchesOn(events, e, i, id); }
    }
  }

  lemma {:induction false} IssuedGrows(events: seq<Event>, i: nat)
    requires i <= |events|
    ensures IssuedCount(events[..i]) <= IssuedCount(events)
  {
    if i < |events| {
      IssuedGrows(events[..|events| - 1], i);
      assert events[..|events| - 1][..i] == events[..i];
    } else {
      assert events[..i] == events;
    }
  }

  lemma {:induction false} StepTells(s: MuxState, events: seq<Event>, e: Event)
    requires HistoryTells(s, events)
    ensures HistoryTells(Apply(s, e), events + [e])
  {
    var s', all := Apply(s, e), events + [e];
    ApplyKeeps(s, e);
    assert all[..|events|] == events && all[|events|] == e;
    OverOn(events, e);
    forall id: nat | id < s'.nextId ensures SlotTells(s', all, id) {
      if id < s.nextId {
        if s.slots[id] == Pending { PendingMoves(s, events, e, id); } else { SettledStays(s, events, e, id); }
      } else {
        NewIsUndecided(events, e, id);
      }
    }
  }

  lemma {:induction false} OverOn(events: seq<Event>, e: Event)
    ensures IsOver(events + [e]) <==> IsOver(events) || e.DoFinish?
  {
    assert (events + [e])[|events|] == e;
    assert forall i :: 0 <= i < |events| ==> (events + [e])[i] == events[i];
  }

  lemma {:induction false} RunTells(events: seq<Event>)
    ensures HistoryTells(Run(START, events), events)
  {
    if events != [] {
      var front, e := events[..|events| - 1], events[|events| - 1];
      RunTells(front);
      StepTells(Run(START, front), front, e);
      assert events == front + [e];
    }
  }

  // ----- theorems ------------------------------------------------------------------------

  /** Over every run, told from its events: a reply is delivered exactly when its id was issued and nothing has
      yet decided its waiter's fate, and then the waiter has been sent that frame and nothing else; it is
      discarded exactly when the deadline came first, refused as a duplicate exactly when a reply or the
      connection's end did, and refused as unknown exactly when the id was never issued. */
  lemma {:induction false} OutcomeIff(events: seq<Event>, id: nat, frame: string)
    ensures var s := Run(START, events);
            var (s', out) := Deliver(s, id, frame);
      && (out == Delivered <==> Undecided(events, id))
      && (out == Delivered ==> SentTo(s', id) == [Reply(frame)])
      && (out == Discarded <==> DecidedBy(events, id, DoTombstone(id)))
      && (out == Refused(DuplicateId) <==>
           (exists f :: DecidedBy(events, id, DoDeliver(id, f))) || (exists r :: DecidedBy(events, id, DoFinish(r))))
      && (out == Refused(UnknownId) <==> id >= IssuedCount(events))
      && (out != Delivered ==> s' == s)
  {
    RunTells(events);
    var s := Run(START, events);
    if id < s.nextId {
      assert SlotTells(s, events, id);
      forall d, e | DecidedBy(events, id, d) && DecidedBy(events, id, e) ensures d == e {
        OneDecides(events, id, d, e);
      }
    } else {
      forall i: nat ensures !Touches(events, i, id) { if i < |events| { IssuedGrows(events, i); } }
    }
  }

  /** Over every run: a waiter has been sent exactly what the event that decided its fate brought it: that
      reply, or the reason the connection ended; a deadline brings nothing. */
  lemma {:induction false} WaiterHears(events: seq<Event>, id: nat, d: Delivery)
    ensures d in SentTo(Run(START, events), id) <==>
            match d
            case Reply(frame) => DecidedBy(events, id, DoDeliver(id, frame))
            case Ended(reason) => DecidedBy(events, id, DoFinish(reason))
  {
    RunTells(events);
    var s := Run(START, events);
    if id < s.nextId {
      assert SlotTells(s, events, id);
      forall d, e | DecidedBy(events, id, d) && DecidedBy(events, id, e) ensures d == e {
        OneDecides(events, id, d, e);
      }
    } else {
      forall i: nat ensures !Touches(events, i, id) { if i < |events| { IssuedGrows(events, i); } }
    }
  }

  // ----- the latches ---------------------------------------------------------------------

  /** The event publishes a violation, if none was published before it. */
  ghost predicate Publishes(events: seq<Event>, i: nat, kind: Kind) {
    && i < |events|
    && (events[i] == DoRecord(kind) || (events[i] == DoFinish(Violation(kind)) && !IsOver(events[..i])))
  }

  ghost predicate FirstEnd(events: seq<Event>, reason: Terminal) {
    exists i: nat :: i < |events| && events[i] == DoFinish(reason) && !IsOver(events[..i])
  }

  ghost predicate FirstKind(events: seq<Event>, kind: Kind) {
    exists i: nat :: Publishes(events, i, kind) && forall j: nat, k :: j < i ==> !Publishes(events, j, k)
  }

  lemma {:induction false} PublishesOn(events: seq<Event>, e: Event, i: nat, kind: Kind)
    requires i < |events|
    ensures Publishes(events + [e], i, kind) <==> Publishes(events, i, kind)
  {
    assert (events + [e])[..i] == events[..i] && (events + [e])[i] == events[i];
  }

  lemma {:induction false} FirstsStay(events: seq<Event>, e: Event, reason: Terminal, kind: Kind)
    ensures FirstEnd(events, reason) ==> FirstEnd(events + [e], reason)
    ensures FirstKind(events, kind) ==> FirstKind(events + [e], kind)
  {
    var all := events + [e];
    if FirstEnd(events, reason) {
      var i: nat :| i < |events| && events[i] == DoFinish(reason) && !IsOver(events[..i]);
      assert all[i] == events[i] && all[..i] == events[..i];
    }
    if FirstKind(events, kind) {
      var i: nat :| Publishes(events, i, kind) && forall j: nat, k :: j < i ==> !Publishes(events, j, k);
      PublishesOn(events, e, i, kind);
      forall j: nat, k | j < i ensures !Publishes(all, j, k) { PublishesOn(events, e, j, k); }
    }
  }

  ghost predicate NonePublished(events: seq<Event>) { forall i: nat, kind :: !Publishes(events, i, kind) }

  ghost predicate LatchesTell(s: MuxState, events: seq<Event>) {
    && (s.terminal.None? <==> !IsOver(events))
    && (s.terminal.Some? ==> FirstEnd(events, s.terminal.value))
    && (s.verdict.None? <==> NonePublished(events))
    && (s.verdict.Some? ==> FirstKind(events, s.verdict.value))
  }

  lemma {:induction false} NonePublishedOn(events: seq<Event>, e: Event)
    requires NonePublished(events)
    ensures forall kind :: Publishes(events + [e], |events|, kind) ==> FirstKind(events + [e], kind)
    ensures (forall kind :: !Publishes(events + [e], |events|, kind)) ==> NonePublished(events + [e])
  {
    forall j: nat, k | j < |events| ensures !Publishes(events + [e], j, k) { PublishesOn(events, e, j, k); }
  }

  lemma {:induction false} SomePublishedOn(events: seq<Event>, e: Event)
    requires !NonePublished(events)
    ensures !NonePublished(events + [e])
  {
    var i: nat, kind :| Publishes(events, i, kind);
    PublishesOn(events, e, i, kind);
  }

  lemma {:induction false} StepLatches(s: MuxState, events: seq<Event>, e: Event)
    requires LatchesTell(s, events)
    ensures LatchesTell(Apply(s, e), events + [e])
  {
    var all := events + [e];
    assert all[..|events|] == events && all[|events|] == e;
    OverOn(events, e);
    if s.terminal.Some? { FirstsStay(events, e, s.terminal.value, NotJson); }
    if s.verdict.Some? {
      FirstsStay(events, e, Crashed(None), s.verdict.value);
      SomePublishedOn(events, e);
    } else {
      NonePublishedOn(events, e);
      var verdict := Apply(s, e).verdict;
      if verdict.Some? { assert Publishes(all, |events|, verdict.value); }
    }
  }

  /** Over every run: the terminal reason is that of the first end, and the verdict the violation published
      first, by the reader or by the end that won. */
  lemma {:induction false} LatchesAreFirst(events: seq<Event>)
    ensures LatchesTell(Run(START, events), events)
  {
    if events != [] {
      var front, e := events[..|events| - 1], events[|events| - 1];
      LatchesAreFirst(front);
      StepLatches(Run(START, front), front, e);
      assert events == front + [e];
    }
  }
}
