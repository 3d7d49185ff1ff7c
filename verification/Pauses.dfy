/** The paused time of a mapping session (pause_intervals and session_times in
    packages/api/mapping_stats.py). */
module Pauses {
  import opened Common
  import opened Sorting
  import opened Intervals
  import opened Overlap

  datatype Code = Paused | Resumed | OtherCode
  datatype Event = Event(code: Code, ts: real)

  predicate Earlier(a: Event, b: Event) {
    a.ts <= b.ts
  }

  /** The latest pause or resume at or before t; of several at one instant the last in the log. */
  function LatestStep(t: real): (Option<Event>, Event) -> Option<Event> {
    (best: Option<Event>, e: Event) =>
      if e.code != OtherCode && e.ts <= t && (best.None? || best.value.ts <= e.ts) then Some(e) else best
  }

  function LatestAt(events: seq<Event>, t: real): Option<Event> {
    Fold(events, None, LatestStep(t))
  }

  /** The session is paused at t: the latest event at or before t is a pause. */
  predicate PausedAt(events: seq<Event>, t: real) {
    var e := LatestAt(events, t);
    e.Some? && e.value.code == Paused
  }

  /** Event i is the latest pause or resume at or before t; of several at one instant the last in the log. */
  ghost predicate IsLatest(events: seq<Event>, t: real, i: nat) {
    && i < |events| && events[i].code != OtherCode && events[i].ts <= t
    && forall j | 0 <= j < |events| && events[j].code != OtherCode && events[j].ts <= t ::
         events[j].ts < events[i].ts || (events[j].ts == events[i].ts && j <= i)
  }

  lemma {:induction false} LatestMeans(events: seq<Event>, t: real)
    ensures LatestAt(events, t).Some? ==>
              exists i: nat :: IsLatest(events, t, i) && events[i] == LatestAt(events, t).value
    ensures LatestAt(events, t).None? ==>
              forall j | 0 <= j < |events| && events[j].ts <= t :: events[j].code == OtherCode
  {
    if events != [] {
      var f, l, n := Front(events), Last(events), |events| - 1;
      LatestMeans(f, t);
      assert forall j | 0 <= j < n :: f[j] == events[j];
      var before := LatestAt(f, t);
      if LatestAt(events, t) == Some(l) && before != Some(l) {
        assert events[n] == l;
        assert IsLatest(events, t, n);
      } else if before.Some? {
        var i: nat :| IsLatest(f, t, i) && f[i] == before.value;
        assert events[i] == f[i];
        if IsLatest(events, t, n) {
          assert events[n] == l;
        } else {
          assert IsLatest(events, t, i);
        }
      }
    }
  }

  /** Paused at t: the latest pause or resume at or before t is a pause. */
  lemma PausedMeans(events: seq<Event>, t: real)
    ensures PausedAt(events, t) <==> exists i: nat :: IsLatest(events, t, i) && events[i].code == Paused
  {
    LatestMeans(events, t);
    forall i: nat, j: nat | IsLatest(events, t, i) && IsLatest(events, t, j) ensures i == j {
    }
  }

  lemma PausedAtSorted(events: seq<Event>, t: real)
    ensures PausedAt(StableSort(events, Earlier), t) == PausedAt(events, t)
  {
    FoldStable(events, None, LatestStep(t), Earlier);
  }

  lemma EarlierTotalPreorder()
    ensures TotalPreorder(Earlier)
  {
  }

  lemma {:induction false} LatestMember(events: seq<Event>, t: real)
    ensures LatestAt(events, t).Some? ==> LatestAt(events, t).value in events && LatestAt(events, t).value.ts <= t
  {
    if events != [] {
      LatestMember(Front(events), t);
    }
  }

  /** Appending the newest event of a sorted log decides every instant from it on. */
  lemma PausedAtStep(events: seq<Event>, e: Event, t: real)
    requires forall x | x in events :: x.ts <= e.ts
    ensures PausedAt(events + [e], t)
         == if e.code != OtherCode && e.ts <= t then e.code == Paused else PausedAt(events, t)
  {
    assert Front(events + [e]) == events;
    LatestMember(events, t);
  }

  ghost predicate EventAt(events: seq<Event>, ts: real) {
    exists e | e in events :: e.ts == ts
  }

  lemma EventAtAppend(events: seq<Event>, e: Event, ts: real)
    requires EventAt(events, ts) || ts == e.ts
    ensures EventAt(events + [e], ts)
  {
    if EventAt(events, ts) {
      var x :| x in events && x.ts == ts;
      assert x in events + [e];
    } else {
      assert e in events + [e];
    }
  }

  /** The pause automaton after a sorted prefix: closed intervals, and since when a pause is open. */
  ghost predicate Tracks(spans: seq<Span>, openedAt: Option<real>, prefix: seq<Event>) {
    && (forall t :: PausedAt(prefix, t) <==> In(spans, t) || (openedAt.Some? && openedAt.value <= t))
    && (forall i | 0 <= i < |spans| :: EventAt(prefix, spans[i].e))
    && (openedAt.Some? ==> EventAt(prefix, openedAt.value))
  }

  lemma EndsBefore(spans: seq<Span>, openedAt: Option<real>, prefix: seq<Event>, ts: real, t: real)
    requires Tracks(spans, openedAt, prefix) && (forall x | x in prefix :: x.ts <= ts)
    ensures openedAt.Some? ==> openedAt.value <= ts
    ensures ts <= t ==> !In(spans, t)
  {
    if In(spans, t) {
      var i :| 0 <= i < |spans| && spans[i].Has(t);
      assert EventAt(prefix, spans[i].e);
    }
  }

  lemma TracksPause(spans: seq<Span>, openedAt: Option<real>, prefix: seq<Event>, e: Event)
    requires Tracks(spans, openedAt, prefix) && (forall x | x in prefix :: x.ts <= e.ts) && e.code == Paused
    ensures Tracks(spans, if openedAt.None? then Some(e.ts) else openedAt, prefix + [e])
  {
    var openedAt' := if openedAt.None? then Some(e.ts) else openedAt;
    forall t ensures PausedAt(prefix + [e], t) <==> In(spans, t) || openedAt'.value <= t {
      PausedAtStep(prefix, e, t);
      EndsBefore(spans, openedAt, prefix, e.ts, t);
    }
    forall i | 0 <= i < |spans| ensures EventAt(prefix + [e], spans[i].e) {
      EventAtAppend(prefix, e, spans[i].e);
    }
    EventAtAppend(prefix, e, openedAt'.value);
  }

  lemma TracksResume(spans: seq<Span>, openedAt: Option<real>, prefix: seq<Event>, e: Event)
    requires Tracks(spans, openedAt, prefix) && (forall x | x in prefix :: x.ts <= e.ts) && e.code == Resumed
    ensures Tracks(if openedAt.Some? then spans + [Span(openedAt.value, e.ts)] else spans, None, prefix + [e])
  {
    var spans' := if openedAt.Some? then spans + [Span(openedAt.value, e.ts)] else spans;
    forall t ensures PausedAt(prefix + [e], t) <==> In(spans', t) {
      PausedAtStep(prefix, e, t);
      EndsBefore(spans, openedAt, prefix, e.ts, t);
      if openedAt.Some? {
        InAppend(spans, Span(openedAt.value, e.ts), t);
      }
    }
    forall i | 0 <= i < |spans'| ensures EventAt(prefix + [e], spans'[i].e) {
      if i < |spans| {
        assert EventAt(prefix, spans[i].e);
      }
      EventAtAppend(prefix, e, spans'[i].e);
    }
  }

  lemma TracksOther(spans: seq<Span>, openedAt: Option<real>, prefix: seq<Event>, e: Event)
    requires Tracks(spans, openedAt, prefix) && (forall x | x in prefix :: x.ts <= e.ts) && e.code == OtherCode
    ensures Tracks(spans, openedAt, prefix + [e])
  {
    forall t ensures PausedAt(prefix + [e], t) == PausedAt(prefix, t) {
      PausedAtStep(prefix, e, t);
    }
    forall i | 0 <= i < |spans| ensures EventAt(prefix + [e], spans[i].e) {
      EventAtAppend(prefix, e, spans[i].e);
    }
    if openedAt.Some? {
      EventAtAppend(prefix, e, openedAt.value);
    }
  }

  /** The open pause of the session's own column counts only where the log shows no pause: the log ends
      unpaused, and no logged pause covers that instant. */
  ghost predicate ExtraPause(events: seq<Event>, pausedAt: Option<real>) {
    && pausedAt.Some?
    && !PausedAt(events, pausedAt.value)
    && (forall t | (forall e | e in events :: e.ts <= t) :: !PausedAt(events, t))
  }

  method PauseAutomaton(events: seq<Event>) returns (spans: seq<Span>, openedAt: Option<real>)
    ensures Tracks(spans, openedAt, StableSort(events, Earlier))
  {
    var sorted := StableSort(events, Earlier);
    EarlierTotalPreorder();
    StableSortSorted(events, Earlier);
    spans, openedAt := [], None;
    for n := 0 to |sorted|
      invariant Tracks(spans, openedAt, sorted[..n])
    {
      var e := sorted[n];
      assert sorted[..n + 1] == sorted[..n] + [e];
      forall x | x in sorted[..n] ensures x.ts <= e.ts {
        var i :| 0 <= i < n && sorted[i] == x;
        assert Earlier(sorted[i], sorted[n]);
      }
      if e.code == Paused {
        TracksPause(spans, openedAt, sorted[..n], e);
        openedAt := if openedAt.None? then Some(e.ts) else openedAt;
      } else if e.code == Resumed {
        TracksResume(spans, openedAt, sorted[..n], e);
        if openedAt.Some? {
          spans := spans + [Span(openedAt.value, e.ts)];
          openedAt := None;
        }
      } else {
        TracksOther(spans, openedAt, sorted[..n], e);
      }
    }
    assert sorted[..|sorted|] == sorted;
  }

  function Clipped(spans: seq<Span>, start: real, end: real): (r: seq<Span>)
    ensures |r| == |spans|
    ensures forall i | 0 <= i < |spans| :: r[i] == Span(Max(spans[i].s, start), Min(spans[i].e, end))
  {
    seq(|spans|, i requires 0 <= i < |spans| => Span(Max(spans[i].s, start), Min(spans[i].e, end)))
  }

  lemma InClipped(spans: seq<Span>, start: real, end: real, t: real)
    ensures In(Clipped(spans, start, end), t) <==> start <= t < end && In(spans, t)
  {
    var c := Clipped(spans, start, end);
    if In(c, t) {
      var i :| 0 <= i < |c| && c[i].Has(t);
      assert spans[i].Has(t);
    }
    if start <= t < end && In(spans, t) {
      var i :| 0 <= i < |spans| && spans[i].Has(t);
      assert c[i].Has(t);
    }
  }

  /** any(s <= p < e for s, e in spans) */
  method AnyHas(spans: seq<Span>, p: real) returns (b: bool)
    ensures b == In(spans, p)
  {
    for i := 0 to |spans|
      invariant forall j | 0 <= j < i :: !spans[j].Has(p)
    {
      if spans[i].Has(p) {
        return true;
      }
    }
    return false;
  }

  lemma {:induction false} AfterAll(events: seq<Event>, p: real) returns (t: real)
    ensures p <= t && forall e | e in events :: e.ts <= t
  {
    t := p;
    for n := 0 to |events|
      invariant p <= t && forall e | e in events[..n] :: e.ts <= t
    {
      t := Max(t, events[n].ts);
      assert events[..n + 1] == events[..n] + [events[n]];
    }
    assert events[..|events|] == events;
  }

  lemma OpenMeansPausedLast(spans: seq<Span>, openedAt: Option<real>, events: seq<Event>)
    requires Tracks(spans, openedAt, StableSort(events, Earlier))
    ensures openedAt.None? <==> forall t | (forall e | e in events :: e.ts <= t) :: !PausedAt(events, t)
  {
    var sorted := StableSort(events, Earlier);
    StableSortMembers(events, Earlier);
    if openedAt.Some? {
      var t := AfterAll(events, openedAt.value);
      PausedAtSorted(events, t);
      assert PausedAt(events, t);
    } else {
      forall t | (forall e | e in events :: e.ts <= t) ensures !PausedAt(events, t) {
        PausedAtSorted(events, t);
        EndsBefore(spans, openedAt, sorted, t, t);
      }
    }
  }

  /** The instants of `spans` are the paused ones of the session. */
  ghost predicate ArePauses(spans: seq<Span>, events: seq<Event>, start: real, end: real, pausedAt: Option<real>) {
    forall t :: In(spans, t) <==>
      start <= t < end && (PausedAt(events, t) || (ExtraPause(events, pausedAt) && pausedAt.value <= t))
  }

  /** An instant is in a returned interval exactly when it lies in the session and the latest event at
      or before it is a pause (or the extra open pause has begun). */
  method PauseIntervals(events: seq<Event>, start: real, end: real, pausedAt: Option<real>) returns (out: seq<Span>)
    ensures Normal(out)
    ensures ArePauses(out, events, start, end, pausedAt)
  {
    var spans, openedAt := PauseAutomaton(events);
    OpenMeansPausedLast(spans, openedAt, events);
    var inside := false;
    if pausedAt.Some? {
      inside := AnyHas(spans, pausedAt.value);
      PausedAtSorted(events, pausedAt.value);
    }
    var since := openedAt;
    if openedAt.None? && pausedAt.Some? && !inside {
      since := pausedAt;
    }
    var all := if since.Some? then spans + [Span(since.value, end)] else spans;
    out := MergeIntervals(Clipped(all, start, end));
    forall t ensures In(out, t) <==>
              start <= t < end && (PausedAt(events, t) || (ExtraPause(events, pausedAt) && pausedAt.value <= t))
    {
      InClipped(all, start, end, t);
      PausedAtSorted(events, t);
      if since.Some? {
        InAppend(spans, Span(since.value, end), t);
      }
    }
  }

  lemma WithinMeansBounded(spans: seq<Span>, start: real, end: real)
    requires Normal(spans) && start <= end && forall t :: In(spans, t) ==> start <= t < end
    ensures 0.0 <= Total(spans) <= end - start
  {
    forall i | 0 <= i < |spans| ensures start <= spans[i].s && spans[i].e <= end {
      assert spans[i].Has(spans[i].s);
      assert In(spans, spans[i].s);
      if spans[i].e > end {
        var t := Max(spans[i].s, end);
        assert spans[i].Has(t);
        assert In(spans, t);
      }
    }
    CumulativeWithinTotal(spans, end);
    CumulativeGrowth(spans, start, end);
    NothingBefore(spans, start);
    CumulativeMonotone(spans, start, end);
  }

  /** session_times: for every log the paused time is the length of the pauses, and active and paused time make up
      the wall time. */
  method SessionTimes(events: seq<Event>, start: real, ended: Option<real>, now: real, pausedAt: Option<real>)
    returns (wall: real, paused: real, active: real, ghost spans: seq<Span>)
    ensures Normal(spans) && ArePauses(spans, events, start, start + wall, pausedAt) && paused == Total(spans)
    ensures wall == Max(if ended.Some? then ended.value else now, start) - start
    ensures 0.0 <= paused && 0.0 <= active && active + paused == wall
  {
    var end := Max(if ended.Some? then ended.value else now, start);
    var pauses := PauseIntervals(events, start, end, pausedAt);
    spans := pauses;
    WithinMeansBounded(spans, start, end);
    paused := 0.0;
    for i := 0 to |pauses|
      invariant paused == Total(spans[..i])
    {
      assert Front(spans[..i + 1]) == spans[..i];
      paused := paused + (pauses[i].e - pauses[i].s);
    }
    assert spans[..|spans|] == spans;
    wall := end - start;
    active := Max(0.0, end - start - paused);
  }
}
