/** What the host does to a history reply before the sweep sees it (core/host/src/lib.rs): status
    coverage, and the size cap. */
module HostReads {
  import opened Base
  import opened Folding
  import opened Tables
  import opened Sweeping

  function Ids(statuses: seq<Status>): seq<Id> {
    seq(|statuses|, i requires 0 <= i < |statuses| => statuses[i].resourceId)
  }

  // ----- coverage ------------------------------------------------------------------------

  predicate NoRepeat(ids: seq<Id>) { forall i, j :: 0 <= i < j < |ids| ==> ids[i] != ids[j] }

  predicate Covers(requested: seq<Id>, statuses: seq<Status>) {
    NoRepeat(Ids(statuses)) && forall i :: 0 <= i < |requested| ==> requested[i] in Ids(statuses)
  }

  /** `check_status_coverage`: no resource twice, every requested one there. */
  method CheckStatusCoverage(requested: seq<Id>, statuses: seq<Status>) returns (ok: bool)
    ensures ok <==> Covers(requested, statuses)
  {
    ghost var ids := Ids(statuses);
    var seen: set<Id> := {};
    for i := 0 to |statuses|
      invariant NoRepeat(ids[..i]) && forall x :: x in seen <==> x in ids[..i]
    {
      assert ids[..i + 1] == ids[..i] + [ids[i]];
      if statuses[i].resourceId in seen {
        ghost var k :| 0 <= k < i && ids[k] == ids[i];
        return false;
      }
      seen := seen + {statuses[i].resourceId};
    }
    assert ids[..|statuses|] == ids;
    for i := 0 to |requested|
      invariant forall k :: 0 <= k < i ==> requested[k] in ids
    {
      if requested[i] !in seen { return false; }
    }
    ok := true;
  }

  /** Under coverage a requested resource has a status, and it is its only one. */
  lemma {:induction false} CoveredHasStatus(requested: seq<Id>, statuses: seq<Status>, r: Id)
    requires Covers(requested, statuses) && r in requested
    ensures FindStatus(statuses, r).Some? && FindStatus(statuses, r).value.resourceId == r
    ensures forall st :: st in statuses && st.resourceId == r ==> FindStatus(statuses, r) == Some(st)
  {
    var k :| 0 <= k < |requested| && requested[k] == r;
    var i :| 0 <= i < |Ids(statuses)| && Ids(statuses)[i] == r;
    OnlyStatus(statuses, r, i);
  }

  lemma {:induction false} OnlyStatus(statuses: seq<Status>, r: Id, i: nat)
    requires NoRepeat(Ids(statuses)) && i < |statuses| && statuses[i].resourceId == r
    ensures FindStatus(statuses, r) == Some(statuses[i])
    ensures forall st :: st in statuses && st.resourceId == r ==> st == statuses[i]
  {
    assert forall k :: 0 <= k < |statuses| ==> Ids(statuses)[k] == statuses[k].resourceId;
    if i > 0 {
      assert Ids(statuses[1..]) == Ids(statuses)[1..];
      OnlyStatus(statuses[1..], r, i - 1);
    }
  }

  // ----- the size cap --------------------------------------------------------------------

  /** Only the connection's own observations are measured: a foreign one disqualifies the sweep
      instead. */
  predicate Oversized(own: Id, size: Observation -> nat, o: Observation) {
    o.adapterId == own && size(o) > MAX_OBSERVATION_BYTES
  }

  function Fitting(own: Id, size: Observation -> nat, os: seq<Observation>): seq<Observation> {
    if os == [] then []
    else Fitting(own, size, os[..|os| - 1]) + if Oversized(own, size, os[|os| - 1]) then [] else [os[|os| - 1]]
  }

  /** What is recorded against one resource, one entry per dropped record. */
  function Drops(own: Id, size: Observation -> nat, os: seq<Observation>, r: Id): seq<Degraded> {
    if os == [] then []
    else
      var o := os[|os| - 1];
      Drops(own, size, os[..|os| - 1], r)
      + if Oversized(own, size, o) && o.resourceId == r then [Degraded(Some(o.localId), size(o))] else []
  }

  /** `report_oversized`: appended to the resource's first entry, if it has one. */
  function Report(statuses: seq<Status>, r: Id, d: Degraded): seq<Status> {
    if statuses == [] then []
    else if statuses[0].resourceId == r then [statuses[0].(degraded := statuses[0].degraded + [d])] + statuses[1..]
    else [statuses[0]] + Report(statuses[1..], r, d)
  }

  function Extended(st: Option<Status>, more: seq<Degraded>): Option<Status> {
    if st.None? then None else Some(st.value.(degraded := st.value.degraded + more))
  }

  lemma {:induction false} ReportFinds(statuses: seq<Status>, r: Id, d: Degraded, r': Id)
    ensures FindStatus(Report(statuses, r, d), r') == Extended(FindStatus(statuses, r'), if r' == r then [d] else [])
    ensures Ids(Report(statuses, r, d)) == Ids(statuses)
  {
    if statuses != [] {
      var out := Report(statuses, r, d);
      if statuses[0].resourceId == r {
        assert out[1..] == statuses[1..];
        if r' != r { ExtendedByNothing(FindStatus(statuses, r')); }
      } else {
        ReportFinds(statuses[1..], r, d, r');
        assert out[1..] == Report(statuses[1..], r, d);
        assert Ids(statuses) == [statuses[0].resourceId] + Ids(statuses[1..]);
        assert Ids(out) == [out[0].resourceId] + Ids(out[1..]);
        if statuses[0].resourceId == r' { ExtendedByNothing(FindStatus(statuses, r')); }
      }
    }
  }

  lemma {:induction false} ExtendedByNothing(st: Option<Status>)
    ensures Extended(st, []) == st
  {
    if st.Some? { assert st.value.degraded + [] == st.value.degraded; }
  }

  /** The host's view of a reply: fitting observations, and every drop named on its resource's one
      entry after whatever the adapter said there. */
  ghost predicate Capped(own: Id, size: Observation -> nat, raw: HistoryRead, read: HistoryRead) {
    && read.observations == Fitting(own, size, raw.observations)
    && Ids(read.statuses) == Ids(raw.statuses)
    && forall r :: FindStatus(read.statuses, r)
                   == Extended(FindStatus(raw.statuses, r), Drops(own, size, raw.observations, r))
  }

  lemma {:induction false} ReportOne(own: Id, size: Observation -> nat, raw: HistoryRead, os: seq<Observation>,
                                     statuses: seq<Status>, o: Observation)
    requires Ids(statuses) == Ids(raw.statuses)
    requires forall r :: FindStatus(statuses, r) == Extended(FindStatus(raw.statuses, r), Drops(own, size, os, r))
    requires Oversized(own, size, o)
    ensures var out := Report(statuses, o.resourceId, Degraded(Some(o.localId), size(o)));
      && Ids(out) == Ids(raw.statuses)
      && forall r :: FindStatus(out, r) == Extended(FindStatus(raw.statuses, r), Drops(own, size, os + [o], r))
  {
    var d := Degraded(Some(o.localId), size(o));
    var out := Report(statuses, o.resourceId, d);
    assert (os + [o])[..|os|] == os;
    ReportFinds(statuses, o.resourceId, d, "");
    forall r ensures FindStatus(out, r) == Extended(FindStatus(raw.statuses, r), Drops(own, size, os + [o], r)) {
      ReportFinds(statuses, o.resourceId, d, r);
      ExtendedTwice(FindStatus(raw.statuses, r), Drops(own, size, os, r), if r == o.resourceId then [d] else []);
    }
  }

  lemma {:induction false} ExtendedTwice(st: Option<Status>, a: seq<Degraded>, b: seq<Degraded>)
    ensures Extended(Extended(st, a), b) == Extended(st, a + b)
  {
    if st.Some? { assert (st.value.degraded + a) + b == st.value.degraded + (a + b); }
  }

  lemma {:induction false} NothingDropped(own: Id, size: Observation -> nat, os: seq<Observation>, o: Observation,
                                          r: Id)
    requires !Oversized(own, size, o)
    ensures Drops(own, size, os + [o], r) == Drops(own, size, os, r)
  {
    assert (os + [o])[..|os|] == os;
  }

  /** `drop_oversized` over one reply. */
  method DropOversized(own: Id, size: Observation -> nat, raw: HistoryRead) returns (read: HistoryRead)
    ensures Capped(own, size, raw, read)
  {
    var kept: seq<Observation> := [];
    var statuses := raw.statuses;
    var i := 0;
    forall r ensures FindStatus(statuses, r) == Extended(FindStatus(raw.statuses, r), []) {
      ExtendedByNothing(FindStatus(raw.statuses, r));
    }
    while i < |raw.observations|
      invariant i <= |raw.observations| && kept == Fitting(own, size, raw.observations[..i])
      invariant Ids(statuses) == Ids(raw.statuses)
      invariant forall r :: FindStatus(statuses, r)
                  == Extended(FindStatus(raw.statuses, r), Drops(own, size, raw.observations[..i], r))
    {
      var o := raw.observations[i];
      assert raw.observations[..i + 1] == raw.observations[..i] + [o];
      assert raw.observations[..i + 1][..i] == raw.observations[..i];
      if Oversized(own, size, o) {
        ReportOne(own, size, raw, raw.observations[..i], statuses, o);
        statuses := Report(statuses, o.resourceId, Degraded(Some(o.localId), size(o)));
      } else {
        forall r { NothingDropped(own, size, raw.observations[..i], o, r); }
        kept := kept + [o];
      }
      i := i + 1;
    }
    assert raw.observations[..i] == raw.observations;
    read := HistoryRead(kept, statuses);
  }

  /** The records of one resource that a reply carries and the host refuses. */
  function TooBig(own: Id, size: Observation -> nat, os: seq<Observation>, r: Id): set<Id> {
    set i | 0 <= i < |os| && Oversized(own, size, os[i]) && os[i].resourceId == r :: os[i].localId
  }

  lemma {:induction false} DropIsNamed(own: Id, size: Observation -> nat, os: seq<Observation>, i: nat)
    requires i < |os| && Oversized(own, size, os[i])
    ensures exists k :: 0 <= k < |Drops(own, size, os, os[i].resourceId)|
                        && Drops(own, size, os, os[i].resourceId)[k].localId == Some(os[i].localId)
  {
    var front, r := os[..|os| - 1], os[i].resourceId;
    if i < |front| {
      DropIsNamed(own, size, front, i);
      var k :| 0 <= k < |Drops(own, size, front, r)| && Drops(own, size, front, r)[k].localId == Some(os[i].localId);
      assert Drops(own, size, os, r)[k] == Drops(own, size, front, r)[k];
    } else {
      assert Drops(own, size, os, r)[|Drops(own, size, front, r)|].localId == Some(os[i].localId);
    }
  }

  /** A record the host drops is named on its resource's entry; what the adapter named there, or
      reported without a name, is still there. */
  lemma {:induction false} CapWeakensNothing(own: Id, size: Observation -> nat, raw: HistoryRead, read: HistoryRead,
                                             r: Id)
    requires Capped(own, size, raw, read) && FindStatus(raw.statuses, r).Some?
    ensures FindStatus(read.statuses, r).Some?
    ensures var before, after := FindStatus(raw.statuses, r).value, FindStatus(read.statuses, r).value;
      && after.outcome == before.outcome && after.page == before.page
      && NamedIds(before.degraded) <= NamedIds(after.degraded)
      && (HasAnonymous(after.degraded) <==> HasAnonymous(before.degraded))
      && TooBig(own, size, raw.observations, r) <= NamedIds(after.degraded)
  {
    var before, after := FindStatus(raw.statuses, r).value, FindStatus(read.statuses, r).value;
    var drops := Drops(own, size, raw.observations, r);
    assert after.degraded == before.degraded + drops;
    AllNamed(own, size, raw.observations, r);
    assert forall i :: 0 <= i < |before.degraded| ==> after.degraded[i] == before.degraded[i];
    forall l | l in TooBig(own, size, raw.observations, r) ensures l in NamedIds(after.degraded) {
      var i :| 0 <= i < |raw.observations| && Oversized(own, size, raw.observations[i])
               && raw.observations[i].resourceId == r && raw.observations[i].localId == l;
      DropIsNamed(own, size, raw.observations, i);
      var k :| 0 <= k < |drops| && drops[k].localId == Some(raw.observations[i].localId);
      assert after.degraded[|before.degraded| + k] == drops[k];
    }
  }

  lemma {:induction false} AllNamed(own: Id, size: Observation -> nat, os: seq<Observation>, r: Id)
    ensures !HasAnonymous(Drops(own, size, os, r))
  {
    if os != [] { AllNamed(own, size, os[..|os| - 1], r); }
  }

  lemma {:induction false} FittingIff(own: Id, size: Observation -> nat, os: seq<Observation>, o: Observation)
    ensures o in Fitting(own, size, os) <==> o in os && (o.adapterId != own || size(o) <= MAX_OBSERVATION_BYTES)
  {
    if os != [] {
      assert os == os[..|os| - 1] + [os[|os| - 1]];
      FittingIff(own, size, os[..|os| - 1], o);
    }
  }

  lemma {:induction false} DropsIff(own: Id, size: Observation -> nat, os: seq<Observation>, r: Id, d: Degraded)
    ensures d in Drops(own, size, os, r) <==>
            exists o :: o in os && o.adapterId == own && o.resourceId == r && size(o) > MAX_OBSERVATION_BYTES
                        && d == Degraded(Some(o.localId), size(o))
  {
    if os != [] {
      var front, last := os[..|os| - 1], os[|os| - 1];
      assert os == front + [last];
      DropsIff(own, size, front, r, d);
    }
  }

  /** The cap drops exactly the connection's own records of more than the wire's limit, and adds to a
      resource's entry exactly one of its own dropped records each, with its size, after what the adapter
      put there. A foreign record is left for the sweep to judge. */
  lemma {:induction false} CapDropsOversized(own: Id, size: Observation -> nat, raw: HistoryRead, read: HistoryRead,
                                             r: Id, o: Observation, d: Degraded)
    requires Capped(own, size, raw, read) && FindStatus(raw.statuses, r).Some?
    ensures o in read.observations <==>
            o in raw.observations && (o.adapterId != own || size(o) <= MAX_OBSERVATION_BYTES)
    ensures FindStatus(read.statuses, r).Some?
    ensures var before := FindStatus(raw.statuses, r).value.degraded;
            var after := FindStatus(read.statuses, r).value.degraded;
      && before <= after
      && (d in after[|before|..] <==>
           exists x :: x in raw.observations && x.adapterId == own && x.resourceId == r
                       && size(x) > MAX_OBSERVATION_BYTES && d == Degraded(Some(x.localId), size(x)))
      && |raw.observations| - |read.observations| == |Where(raw.observations, own, size)|
  {
    FittingIff(own, size, raw.observations, o);
    DropsIff(own, size, raw.observations, r, d);
    FittingAndOthers(own, size, raw.observations);
    var before, drops := FindStatus(raw.statuses, r).value.degraded, Drops(own, size, raw.observations, r);
    assert (before + drops)[|before|..] == drops;
  }

  /** Where the dropped records stand. */
  function Where(os: seq<Observation>, own: Id, size: Observation -> nat): set<nat> {
    set i: nat | i < |os| && os[i].adapterId == own && size(os[i]) > MAX_OBSERVATION_BYTES
  }

  lemma {:induction false} FittingAndOthers(own: Id, size: Observation -> nat, os: seq<Observation>)
    ensures |Fitting(own, size, os)| + |Where(os, own, size)| == |os|
  {
    if os != [] {
      var n := |os| - 1;
      FittingAndOthers(own, size, os[..n]);
      if os[n].adapterId == own && size(os[n]) > MAX_OBSERVATION_BYTES {
        assert Where(os, own, size) == Where(os[..n], own, size) + {n};
      } else {
        assert Where(os, own, size) == Where(os[..n], own, size);
      }
    }
  }
}
