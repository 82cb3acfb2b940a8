/** The id lifecycle, the terminal reason and the violation latch of one connection
    (core/host/src/mux.rs). `MuxState` and its functions are the specification; the class `Mux` updates
    its fields in place and is proved against them. */
module Multiplexing {
  import opened Base

  datatype Kind =
    | OversizeFrame | NonUtf8 | NotJson | UnterminatedFrame | UnknownId | DuplicateId
    | PreHelloOutput | StdinEofIgnored | StdoutHeldOpen

  datatype Terminal = Crashed(status: Option<int>) | Violation(kind: Kind)

  datatype Slot = Pending | Tombstoned | Answered

  /** What a waiter is sent. */
  datatype Delivery = Reply(frame: string) | Ended(reason: Terminal)

  /** `sent` records, per id, everything its waiter was sent. */
  datatype MuxState = MuxState(nextId: nat, slots: map<nat, Slot>, terminal: Option<Terminal>, verdict: Option<Kind>,
                               sent: map<nat, seq<Delivery>>)

  const START: MuxState := MuxState(0, map[], None, None, map[])

  // ----- the operations ------------------------------------------------------------------

  function Issue(s: MuxState): (MuxState, Option<nat>) {
    if s.nextId + 1 >= U64 then (s, None)
    else (s.(nextId := s.nextId + 1, slots := s.slots[s.nextId := Pending], sent := s.sent[s.nextId := []]),
          Some(s.nextId))
  }

  function Tombstone(s: MuxState, id: nat): MuxState {
    if id in s.slots && s.slots[id] == Pending then s.(slots := s.slots[id := Tombstoned]) else s
  }

  datatype Outcome = Delivered | Discarded | Refused(kind: Kind)

  function SentTo(s: MuxState, id: nat): seq<Delivery> { if id in s.sent then s.sent[id] else [] }

  function Deliver(s: MuxState, id: nat, frame: string): (MuxState, Outcome) {
    if id >= s.nextId then (s, Refused(UnknownId))
    else if id !in s.slots then (s, Refused(UnknownId))
    else match s.slots[id]
      case Pending =>
        (s.(slots := s.slots[id := Answered], sent := s.sent[id := SentTo(s, id) + [Reply(frame)]]), Delivered)
      case Tombstoned => (s, Discarded)
      case Answered => (s, Refused(DuplicateId))
  }

  function Finish(s: MuxState, reason: Terminal): (MuxState, bool) {
    if s.terminal.Some? then (s, false)
    else
      (MuxState(s.nextId,
                map id | id in s.slots :: if s.slots[id] == Pending then Answered else s.slots[id],
                Some(reason),
                if s.verdict.None? && reason.Violation? then Some(reason.kind) else s.verdict,
                map id | id in s.slots.Keys + s.sent.Keys ::
                  if id in s.slots && s.slots[id] == Pending then SentTo(s, id) + [Ended(reason)] else SentTo(s, id)),
       true)
  }

  function RecordViolation(s: MuxState, kind: Kind): MuxState {
    if s.verdict.None? then s.(verdict := Some(kind)) else s
  }

  // ----- what every run keeps ------------------------------------------------------------

  datatype Event =
    | DoIssue
    | DoTombstone(id: nat)
    | DoDeliver(id: nat, frame: string)
    | DoFinish(reason: Terminal)
    | DoRecord(kind: Kind)

  function Apply(s: MuxState, e: Event): MuxState {
    match e
    case DoIssue => Issue(s).0
    case DoTombstone(id) => Tombstone(s, id)
    case DoDeliver(id, frame) => Deliver(s, id, frame).0
    case DoFinish(reason) => Finish(s, reason).0
    case DoRecord(kind) => RecordViolation(s, kind)
  }

  function Run(s: MuxState, events: seq<Event>): MuxState {
    if events == [] then s else Apply(Run(s, events[..|events| - 1]), events[|events| - 1])
  }

  /** The slots are exactly the ids below the counter; a waiter has been sent nothing until its slot is
      answered, and then one thing. */
  ghost predicate MuxOk(s: MuxState) {
    && s.nextId < U64
    && (forall id: nat :: id in s.slots <==> id < s.nextId)
    && s.sent.Keys == s.slots.Keys
    && (forall id :: id in s.slots ==> |s.sent[id]| == if s.slots[id] == Answered then 1 else 0)
    && (s.terminal.Some? && s.terminal.value.Violation? ==> s.verdict.Some?)
  }

  lemma {:induction false} ApplyKeeps(s: MuxState, e: Event)
    requires MuxOk(s)
    ensures MuxOk(Apply(s, e))
  {
  }

  lemma {:induction false} RunKeeps(events: seq<Event>)
    ensures MuxOk(Run(START, events))
  {
    if events != [] {
      RunKeeps(events[..|events| - 1]);
      ApplyKeeps(Run(START, events[..|events| - 1]), events[|events| - 1]);
    }
  }

  /** Over every run: the next id issued was never issued before, and at the end of the counter none is
      issued and nothing changes. */
  lemma {:induction false} IdsNeverReused(events: seq<Event>)
    ensures var s := Run(START, events);
      && (Issue(s).1.Some? ==> Issue(s).1.value !in s.slots && Issue(s).1.value == |IssuedIds(events)|)
      && (Issue(s).1.None? ==> Issue(s).0 == s && s.nextId + 1 == U64)
      && IssuedIds(events) == seq(s.nextId, i => i)
  {
    RunKeeps(events);
    IssuedInOrder(events);
  }

  /** Every id a run handed out, in order. */
  function IssuedIds(events: seq<Event>): seq<nat> {
    if events == [] then []
    else
      var front := events[..|events| - 1];
      var id := if events[|events| - 1].DoIssue? then Issue(Run(START, front)).1 else None;
      IssuedIds(front) + if id.Some? then [id.value] else []
  }

  lemma {:induction false} IssuedInOrder(events: seq<Event>)
    ensures IssuedIds(events) == seq(Run(START, events).nextId, i => i)
  {
    if events != [] {
      IssuedInOrder(events[..|events| - 1]);
    }
  }

  /** The branch of `deliver` for an issued id with no slot is unreachable. */
  lemma {:induction false} MissingSlotUnreachable(events: seq<Event>, id: nat, frame: string)
    ensures var s := Run(START, events);
      Deliver(s, id, frame).1 == Refused(UnknownId) <==> id >= s.nextId
  {
    RunKeeps(events);
  }

  /** Nothing about a connection is forgotten: slots leave `Pending` for good, deliveries are not taken
      back, and the two latches keep their first value. */
  ghost predicate Settles(s: MuxState, s': MuxState) {
    && s.nextId <= s'.nextId
    && (forall id :: id in s.slots ==> id in s'.slots && (s.slots[id] != Pending ==> s'.slots[id] == s.slots[id]))
    && (forall id :: id in s.slots ==> SentTo(s, id) <= SentTo(s', id))
    && (s.terminal.Some? ==> s'.terminal == s.terminal)
    && (s.verdict.Some? ==> s'.verdict == s.verdict)
  }

  lemma {:induction false} ApplySettles(s: MuxState, e: Event)
    requires MuxOk(s)
    ensures Settles(s, Apply(s, e))
  {
  }

  /** A longer run never revises what a shorter one settled. */
  lemma {:induction false} RunSettles(events: seq<Event>, more: seq<Event>)
    ensures Settles(Run(START, events), Run(START, events + more))
  {
    if more == [] {
      assert events + more == events;
    } else {
      var front, e := more[..|more| - 1], more[|more| - 1];
      RunSettles(events, front);
      assert (events + more)[..|events + more| - 1] == events + front;
      RunKeeps(events + front);
      ApplySettles(Run(START, events + front), e);
    }
  }

  ghost predicate Named(events: seq<Event>, id: nat, frame: string) {
    exists i :: 0 <= i < |events| && events[i] == DoDeliver(id, frame)
  }

  lemma {:induction false} StillNamed(events: seq<Event>, e: Event, id: nat, frame: string)
    ensures Named(events, id, frame) || e == DoDeliver(id, frame) ==> Named(events + [e], id, frame)
  {
    assert (events + [e])[|events|] == e;
    assert forall i :: 0 <= i < |events| ==> (events + [e])[i] == events[i];
  }

  /** What one step may send the waiter of `id`: nothing, a reply that names it, or the reason. */
  lemma {:induction false} StepSends(s: MuxState, e: Event, id: nat, d: Delivery)
    requires MuxOk(s) && d in SentTo(Apply(s, e), id)
    ensures d in SentTo(s, id) || (d.Reply? && e == DoDeliver(id, d.frame))
            || (d.Ended? && s.terminal.None? && Apply(s, e).terminal == Some(d.reason))
  {
  }

  /** A waiter is sent at most one delivery over its whole life; if that is a reply, a frame naming this
      very id carried it, and otherwise it is the connection's one terminal reason. */
  lemma {:induction false} WaiterHearsOnce(events: seq<Event>, id: nat)
    ensures |SentTo(Run(START, events), id)| <= 1
    ensures forall d :: d in SentTo(Run(START, events), id) ==>
              if d.Reply? then Named(events, id, d.frame) else Run(START, events).terminal == Some(d.reason)
  {
    RunKeeps(events);
    if events != [] {
      var front, e := events[..|events| - 1], events[|events| - 1];
      assert events == front + [e];
      WaiterHearsOnce(front, id);
      RunKeeps(front);
      ApplySettles(Run(START, front), e);
      forall d | d in SentTo(Run(START, events), id)
        ensures if d.Reply? then Named(events, id, d.frame) else Run(START, events).terminal == Some(d.reason)
      {
        StepSends(Run(START, front), e, id, d);
        if d.Reply? { StillNamed(front, e, id, d.frame); }
      }
    }
  }

  /** A `finish` that loses changes nothing; the one that wins leaves nobody waiting, and its violation,
      if it is one, is published no later than the reason. */
  lemma {:induction false} FinishLatches(events: seq<Event>, reason: Terminal)
    ensures var s := Run(START, events);
            var (s', won) := Finish(s, reason);
      && (!won ==> s' == s && s.terminal.Some?)
      && (won ==> s.terminal.None? && s'.terminal == Some(reason)
                  && (forall id :: id in s'.slots ==> s'.slots[id] != Pending)
                  && (reason.Violation? ==>
                      s'.verdict == Some(if s.verdict.Some? then s.verdict.value else reason.kind))
                  && (reason.Crashed? ==> s'.verdict == s.verdict))
  {
    RunKeeps(events);
  }

  /** Part way through a winning `finish`: the waiters in `todo` are still to be told. */
  ghost predicate HalfAnswered(before: map<nat, Slot>, sentBefore: map<nat, seq<Delivery>>, slots: map<nat, Slot>,
                               sent: map<nat, seq<Delivery>>, todo: set<nat>, reason: Terminal) {
    && slots.Keys == before.Keys == sent.Keys == sentBefore.Keys
    && (forall id :: id in slots ==>
          if before[id] == Pending && id !in todo
          then slots[id] == Answered && sent[id] == sentBefore[id] + [Ended(reason)]
          else slots[id] == before[id] && sent[id] == sentBefore[id])
  }

  /** Every pending slot is answered and its waiter told, in some order. */
  method AnswerWaiters(slots: map<nat, Slot>, sent: map<nat, seq<Delivery>>, reason: Terminal)
      returns (slots': map<nat, Slot>, sent': map<nat, seq<Delivery>>)
    requires sent.Keys == slots.Keys
    ensures HalfAnswered(slots, sent, slots', sent', {}, reason)
  {
    slots', sent' := slots, sent;
    var todo := slots.Keys;
    while todo != {}
      invariant todo <= slots.Keys && HalfAnswered(slots, sent, slots', sent', todo, reason)
      decreases todo
    {
      var id :| id in todo;
      if slots'[id] == Pending {
        slots' := slots'[id := Answered];
        sent' := sent'[id := sent'[id] + [Ended(reason)]];
      }
      todo := todo - {id};
    }
  }

  lemma {:induction false} AllAnswered(s: MuxState, slots: map<nat, Slot>, sent: map<nat, seq<Delivery>>,
                                       reason: Terminal)
    requires MuxOk(s) && s.terminal.None? && HalfAnswered(s.slots, s.sent, slots, sent, {}, reason)
    ensures slots == Finish(s, reason).0.slots && sent == Finish(s, reason).0.sent
  {
  }

  // ----- the mutable form ----------------------------------------------------------------

  class Mux {
    var nextId: nat
    var slots: map<nat, Slot>
    var terminal: Option<Terminal>
    var verdict: Option<Kind>
    var sent: map<nat, seq<Delivery>>

    ghost function State(): MuxState
      reads this
    {
      MuxState(nextId, slots, terminal, verdict, sent)
    }

    ghost predicate Valid()
      reads this
    {
      MuxOk(State())
    }

    constructor ()
      ensures Valid() && State() == START
    {
      nextId, slots, terminal, verdict, sent := 0, map[], None, None, map[];
    }

    method IssueId() returns (id: Option<nat>)
      requires Valid()
      modifies this
      ensures Valid() && (State(), id) == Issue(old(State()))
      ensures id.Some? ==> id.value !in old(slots)
    {
      if nextId + 1 == U64 { return None; }
      id := Some(nextId);
      slots := slots[nextId := Pending];
      sent := sent[nextId := []];
      nextId := nextId + 1;
    }

    method Expire(id: nat)
      requires Valid()
      modifies this
      ensures Valid() && State() == Tombstone(old(State()), id)
    {
      if id in slots && slots[id] == Pending {
        slots := slots[id := Tombstoned];
      }
    }

    method DeliverFrame(id: nat, frame: string) returns (out: Outcome)
      requires Valid()
      modifies this
      ensures Valid() && (State(), out) == Deliver(old(State()), id, frame)
    {
      if id >= nextId { return Refused(UnknownId); }
      match slots[id]
      case Pending =>
        slots := slots[id := Answered];
        sent := sent[id := sent[id] + [Reply(frame)]];
        out := Delivered;
      case Tombstoned => out := Discarded;
      case Answered => out := Refused(DuplicateId);
    }

    /** First reason wins; only the winner publishes, and it answers every waiter. */
    method FinishWith(reason: Terminal) returns (won: bool)
      requires Valid()
      modifies this
      ensures Valid() && (State(), won) == Finish(old(State()), reason)
    {
      if terminal.Some? { return false; }
      ApplyKeeps(State(), DoFinish(reason));
      ghost var s := State();
      terminal := Some(reason);
      if reason.Violation? && verdict.None? { verdict := Some(reason.kind); }
      slots, sent := AnswerWaiters(slots, sent, reason);
      AllAnswered(s, slots, sent, reason);
      won := true;
    }

    method Record(kind: Kind)
      requires Valid()
      modifies this
      ensures Valid() && State() == RecordViolation(old(State()), kind)
    {
      if verdict.None? { verdict := Some(kind); }
    }
  }
}
