/** The overlap measure: the difference of an interpolated cumulative function
    (`recovery_overlap` in packages/api/drive_stats.py, `_overlap` in packages/api/mapping_stats.py). */
module Overlap {
  import opened Common
  import opened Intervals

  ghost predicate Increasing(xs: seq<real>) {
    forall i, j | 0 <= i < j < |xs| :: xs[i] < xs[j]
  }

  /** np.interp: piecewise linear through (xp, fp), constant outside. */
  function Interp(x: real, xp: seq<real>, fp: seq<real>): real
    requires |xp| == |fp| > 0
    requires Increasing(xp)
  {
    if x <= xp[0] || |xp| == 1 then fp[0]
    else if x < xp[1] then fp[0] + (fp[1] - fp[0]) / (xp[1] - xp[0]) * (x - xp[0])
    else Interp(x, xp[1..], fp[1..])
  }

  /** s0, e0, s1, e1, ... */
  function Points(spans: seq<Span>): (ps: seq<real>)
    ensures |ps| == 2 * |spans|
  {
    if spans == [] then [] else [spans[0].s, spans[0].e] + Points(spans[1..])
  }

  /** The covered time before each s_i and after each e_i. */
  function Values(spans: seq<Span>, base: real): (vs: seq<real>)
    ensures |vs| == 2 * |spans|
  {
    if spans == [] then []
    else
      var after := base + (spans[0].e - spans[0].s);
      [base, after] + Values(spans[1..], after)
  }

  lemma {:induction false} PointsIncrease(spans: seq<Span>)
    requires Normal(spans)
    ensures Increasing(Points(spans))
  {
    if spans != [] {
      var rest := Points(spans[1..]);
      PointsIncrease(spans[1..]);
      assert rest != [] ==> rest[0] == spans[1].s;
      forall j | 0 <= j < |rest| ensures spans[0].e < rest[j] {
        assert j == 0 || rest[0] < rest[j];
      }
    }
  }

  /** Covered time of one interval before x. */
  function Before(span: Span, x: real): real {
    if x <= span.s then 0.0 else if x < span.e then x - span.s else span.e - span.s
  }

  /** Covered time of the whole list before x. */
  function Cumulative(spans: seq<Span>, x: real): real {
    if spans == [] then 0.0 else Before(spans[0], x) + Cumulative(spans[1..], x)
  }

  lemma {:induction false} NothingBefore(spans: seq<Span>, x: real)
    requires Normal(spans) && (spans != [] ==> x <= spans[0].s)
    ensures Cumulative(spans, x) == 0.0
  {
    if spans != [] {
      NothingBefore(spans[1..], x);
    }
  }

  lemma Slope(d: real, x: real)
    requires d > 0.0
    ensures d / d * x == x
  {
  }

  /** Between two intervals the interpolated function is flat. */
  lemma InterpSkipFlat(x: real, xp: seq<real>, fp: seq<real>)
    requires |xp| == |fp| > 1 && Increasing(xp)
    requires fp[0] == fp[1]
    ensures Interp(x, xp, fp) == Interp(x, xp[1..], fp[1..])
  {
    if xp[0] < x < xp[1] {
      assert (fp[1] - fp[0]) / (xp[1] - xp[0]) == 0.0;
    }
  }

  /** Past an interval the interpolation goes on with the rest of the list. */
  lemma InterpPastFirst(spans: seq<Span>, base: real, x: real)
    requires Normal(spans) && |spans| > 1 && spans[0].e <= x
    requires Increasing(Points(spans))
    requires Increasing(Points(spans[1..]))
    ensures Interp(x, Points(spans), Values(spans, base))
         == Interp(x, Points(spans[1..]), Values(spans[1..], base + (spans[0].e - spans[0].s)))
  {
    var ps, vs := Points(spans), Values(spans, base);
    assert ps[1..][1..] == Points(spans[1..]);
    assert vs[1..][1..] == Values(spans[1..], base + (spans[0].e - spans[0].s));
    InterpSkipFlat(x, ps[1..], vs[1..]);
    assert Interp(x, ps, vs) == Interp(x, ps[1..], vs[1..]);
  }

  lemma InterpInFirst(spans: seq<Span>, base: real, x: real)
    requires Normal(spans) && spans != [] && spans[0].s < x < spans[0].e
    requires Increasing(Points(spans))
    ensures Interp(x, Points(spans), Values(spans, base)) == base + (x - spans[0].s)
  {
    var d := spans[0].e - spans[0].s;
    var ps, vs := Points(spans), Values(spans, base);
    assert ps[0] == spans[0].s && ps[1] == spans[0].e && vs[0] == base && vs[1] == base + d;
    Slope(d, x - ps[0]);
    assert (vs[1] - vs[0]) / (ps[1] - ps[0]) * (x - ps[0]) == d / d * (x - ps[0]);
  }

  lemma InterpPastOnly(spans: seq<Span>, base: real, x: real)
    requires Normal(spans) && |spans| == 1 && spans[0].e <= x
    requires Increasing(Points(spans))
    ensures Interp(x, Points(spans), Values(spans, base)) == base + (spans[0].e - spans[0].s)
  {
    assert |Points(spans)| == 2 && |Points(spans)[1..]| == 1;
  }

  /** Interpolating between the interval ends gives the covered time before x, exactly. */
  lemma {:induction false} InterpIsCumulative(spans: seq<Span>, base: real, x: real)
    requires Normal(spans) && spans != []
    requires Increasing(Points(spans))
    ensures Interp(x, Points(spans), Values(spans, base)) == base + Cumulative(spans, x)
  {
    var Span(s, e) := spans[0];
    if x <= s {
      NothingBefore(spans, x);
    } else if x < e {
      InterpInFirst(spans, base, x);
      NothingBefore(spans[1..], x);
    } else if |spans| == 1 {
      InterpPastOnly(spans, base, x);
      assert Cumulative(spans[1..], x) == 0.0;
    } else {
      PointsIncrease(spans[1..]);
      InterpPastFirst(spans, base, x);
      InterpIsCumulative(spans[1..], base + (e - s), x);
    }
  }

  lemma {:induction false} CumulativeMonotone(spans: seq<Span>, x: real, y: real)
    requires x <= y && forall i | 0 <= i < |spans| :: spans[i].s < spans[i].e
    ensures 0.0 <= Cumulative(spans, x) <= Cumulative(spans, y)
  {
    if spans != [] {
      CumulativeMonotone(spans[1..], x, y);
    }
  }

  /** Seconds of [t0, t1] inside one interval, and inside a list. */
  function Common1(span: Span, t0: real, t1: real): real {
    Max(0.0, Min(t1, span.e) - Max(t0, span.s))
  }

  function Inside(spans: seq<Span>, t0: real, t1: real): real {
    if spans == [] then 0.0 else Common1(spans[0], t0, t1) + Inside(spans[1..], t0, t1)
  }

  lemma {:induction false} DifferenceIsInside(spans: seq<Span>, t0: real, t1: real)
    requires t0 <= t1 && forall i | 0 <= i < |spans| :: spans[i].s < spans[i].e
    ensures Cumulative(spans, t1) - Cumulative(spans, t0) == Inside(spans, t0, t1)
  {
    if spans != [] {
      DifferenceIsInside(spans[1..], t0, t1);
    }
  }

  /** Disjoint intervals cannot cover more than the stretch from x to y. */
  lemma {:induction false} CumulativeGrowth(spans: seq<Span>, x: real, y: real)
    requires Normal(spans) && x <= y
    ensures Cumulative(spans, y) - Cumulative(spans, x) <= y - x
    ensures spans != [] && x <= spans[0].s <= y ==> Cumulative(spans, y) <= y - spans[0].s
  {
    if spans != [] {
      CumulativeGrowth(spans[1..], x, y);
      if y < spans[0].e {
        NothingBefore(spans[1..], y);
        if x <= spans[0].e {
          NothingBefore(spans[1..], x);
        }
      } else if |spans| > 1 && x <= spans[1].s {
        NothingBefore(spans[1..], x);
        if y <= spans[1].s {
          NothingBefore(spans[1..], y);
        }
      }
    }
  }

  lemma {:induction false} InsideReversed(spans: seq<Span>, t0: real, t1: real)
    requires t1 < t0
    ensures Inside(spans, t0, t1) == 0.0
  {
    if spans != [] {
      InsideReversed(spans[1..], t0, t1);
    }
  }

  function Clip(x: real, lo: real, hi: real): real {
    if x < lo then (if lo < hi then lo else hi) else if hi < x then hi else x
  }

  /** `_overlap` for one pair: nothing without spans, else the clipped difference. */
  function OverlapOf(spans: seq<Span>, t0: real, t1: real): real
    requires Normal(spans)
  {
    if spans == [] then 0.0
    else
      PointsIncrease(spans);
      var ps, vs := Points(spans), Values(spans, 0.0);
      Clip(Interp(t1, ps, vs) - Interp(t0, ps, vs), 0.0, Max(t1 - t0, 0.0))
  }

  /** The computed overlap is the exact length of [t0, t1] inside the spans, and the clip is idle. */
  lemma OverlapExact(spans: seq<Span>, t0: real, t1: real)
    requires Normal(spans)
    ensures OverlapOf(spans, t0, t1) == Inside(spans, t0, t1)
    ensures t0 <= t1 ==> 0.0 <= Inside(spans, t0, t1) <= t1 - t0
    ensures t0 <= t1 && spans != [] ==>
              (PointsIncrease(spans);
               Interp(t1, Points(spans), Values(spans, 0.0)) - Interp(t0, Points(spans), Values(spans, 0.0))
               == OverlapOf(spans, t0, t1))
  {
    if t0 <= t1 {
      DifferenceIsInside(spans, t0, t1);
      CumulativeMonotone(spans, t0, t1);
      CumulativeGrowth(spans, t0, t1);
    } else {
      InsideReversed(spans, t0, t1);
      CumulativeMonotone(spans, t1, t0);
    }
    if spans != [] {
      PointsIncrease(spans);
      InterpIsCumulative(spans, 0.0, t0);
      InterpIsCumulative(spans, 0.0, t1);
    }
  }

  lemma {:induction false} CumulativeAppend(a: seq<Span>, x: Span, t: real)
    ensures Cumulative(a + [x], t) == Cumulative(a, t) + Before(x, t)
  {
    if a != [] {
      assert (a + [x])[1..] == a[1..] + [x];
      CumulativeAppend(a[1..], x, t);
    } else {
      assert a + [x] == [x];
    }
  }

  lemma {:induction false} CumulativeWithinTotal(spans: seq<Span>, t: real)
    requires forall i | 0 <= i < |spans| :: spans[i].s < spans[i].e
    ensures Cumulative(spans, t) <= Total(spans)
    ensures (forall i | 0 <= i < |spans| :: spans[i].e <= t) ==> Cumulative(spans, t) == Total(spans)
  {
    if spans != [] {
      assert spans == Front(spans) + [Last(spans)];
      CumulativeAppend(Front(spans), Last(spans), t);
      CumulativeWithinTotal(Front(spans), t);
    }
  }
}

/** The movements of the recorded track and the recovery seconds each of them gets. */
module Recovery {
  import opened Common
  import opened Sorting
  import opened Intervals
  import opened Overlap

  datatype Row = Row(run: nat, group: nat, ts: real, x: real, y: real)
  datatype Segment = Segment(run: nat, t0: real, t1: real)
  datatype Params = Params(maxGap: real, maxSpeed: real)

  predicate SamePair(a: Row, b: Row) {
    a.run == b.run && a.group == b.group
  }

  /** A pair of rows is a movement when time goes on, not too long, and no faster than a robot drives;
      `dist` is the distance of two positions. */
  predicate Accepted(a: Row, b: Row, dist: (Row, Row) -> real, p: Params) {
    && SamePair(a, b)
    && 0.0 < b.ts - a.ts <= p.maxGap
    && !(dist(a, b) / (b.ts - a.ts) > p.maxSpeed)
  }

  function TrackSegments(rows: seq<Row>, dist: (Row, Row) -> real, p: Params): seq<Segment> {
    if |rows| < 2 then []
    else
      var a, b := rows[|rows| - 2], rows[|rows| - 1];
      TrackSegments(Front(rows), dist, p) + if Accepted(a, b, dist, p) then [Segment(a.run, a.ts, b.ts)] else []
  }

  ghost predicate RowsSorted(rows: seq<Row>) {
    forall i, j | 0 <= i < j < |rows| ::
      rows[i].run < rows[j].run || (rows[i].run == rows[j].run && rows[i].ts <= rows[j].ts)
  }

  /** The movements of one run follow each other without overlap. */
  ghost predicate Chronological(segs: seq<Segment>) {
    && (forall i | 0 <= i < |segs| :: segs[i].t0 <= segs[i].t1)
    && (forall i, j | 0 <= i < j < |segs| && segs[i].run == segs[j].run :: segs[i].t1 <= segs[j].t0)
  }

  /** Rows i and i + 1 make a movement: of one run and group, forward in time, within the gap, and not faster than the
      greatest speed allows. */
  ghost predicate MovesAt(rows: seq<Row>, dist: (Row, Row) -> real, p: Params, i: nat)
    requires i + 1 < |rows|
  {
    var a, b := rows[i], rows[i + 1];
    && a.run == b.run && a.group == b.group && a.ts < b.ts && b.ts - a.ts <= p.maxGap
    && dist(a, b) <= p.maxSpeed * (b.ts - a.ts)
  }

  lemma SpeedMeans(d: real, dt: real, v: real)
    requires dt > 0.0
    ensures d / dt > v <==> d > v * dt
  {
    var q := d / dt;
    assert q * dt == d;
    assert (q - v) * dt == d - v * dt;
    if q > v {
      assert (q - v) * dt > 0.0;
    } else {
      assert (v - q) * dt >= 0.0;
    }
  }

  /** The movements are exactly those pairs of neighbouring rows, in their order. */
  lemma {:induction false} TrackMeans(rows: seq<Row>, dist: (Row, Row) -> real, p: Params) returns (at: seq<nat>)
    ensures |at| == |TrackSegments(rows, dist, p)|
    ensures forall k | 0 <= k < |at| ::
              && at[k] + 1 < |rows| && MovesAt(rows, dist, p, at[k])
              && TrackSegments(rows, dist, p)[k] == Segment(rows[at[k]].run, rows[at[k]].ts, rows[at[k] + 1].ts)
    ensures forall k, l | 0 <= k < l < |at| :: at[k] < at[l]
    ensures forall i: nat | i + 1 < |rows| && MovesAt(rows, dist, p, i) :: i in at
  {
    if |rows| < 2 {
      at := [];
    } else {
      var f, i := Front(rows), |rows| - 2;
      at := TrackMeans(f, dist, p);
      forall k: nat | k + 1 < |f| ensures MovesAt(rows, dist, p, k) <==> MovesAt(f, dist, p, k) {
        assert f[k] == rows[k] && f[k + 1] == rows[k + 1];
      }
      if rows[i].ts < rows[i + 1].ts {
        SpeedMeans(dist(rows[i], rows[i + 1]), rows[i + 1].ts - rows[i].ts, p.maxSpeed);
      }
      assert Accepted(rows[i], rows[i + 1], dist, p) <==> MovesAt(rows, dist, p, i);
      if MovesAt(rows, dist, p, i) {
        at := at + [i];
      }
    }
  }

  lemma {:induction false} TrackIsChronological(rows: seq<Row>, dist: (Row, Row) -> real, p: Params)
    requires RowsSorted(rows)
    ensures Chronological(TrackSegments(rows, dist, p))
    ensures forall s | s in TrackSegments(rows, dist, p) && s.run == Last(rows).run :: s.t1 <= Last(rows).ts
    ensures forall s | s in TrackSegments(rows, dist, p) :: s.run <= Last(rows).run
  {
    if |rows| >= 2 {
      TrackIsChronological(Front(rows), dist, p);
    }
  }

  /** Movements that do not overlap within a run, in any order. */
  ghost predicate Disjoint(segs: seq<Segment>) {
    segs == [] || (Disjoint(Front(segs)) && Last(segs).t0 <= Last(segs).t1 && ApartFrom(Front(segs), Last(segs)))
  }

  predicate Apart(a: Segment, b: Segment) {
    a.run == b.run ==> a.t1 <= b.t0 || b.t1 <= a.t0
  }

  ghost predicate ApartFrom(segs: seq<Segment>, s: Segment) {
    forall x | x in segs :: Apart(x, s)
  }

  lemma {:induction false} ChronologicalIsDisjoint(segs: seq<Segment>)
    requires Chronological(segs)
    ensures Disjoint(segs)
  {
    if segs != [] {
      ChronologicalIsDisjoint(Front(segs));
      forall x | x in Front(segs) ensures Apart(x, Last(segs)) {
        var i :| 0 <= i < |segs| - 1 && segs[i] == x;
      }
    }
  }

  /** By start, then by end. */
  predicate Earlier(a: Segment, b: Segment) {
    a.t0 < b.t0 || (a.t0 == b.t0 && a.t1 <= b.t1)
  }

  lemma {:induction false} InsertDisjoint(segs: seq<Segment>, s: Segment)
    requires Disjoint(segs) && s.t0 <= s.t1 && ApartFrom(segs, s)
    ensures Disjoint(Insert(segs, s, Earlier))
  {
    if segs == [] || Earlier(Last(segs), s) {
      assert Front(segs + [s]) == segs;
    } else {
      var r, l := Insert(Front(segs), s, Earlier), Last(segs);
      assert l in segs;
      InsertDisjoint(Front(segs), s);
      assert Front(r + [l]) == r;
      forall x | x in r ensures Apart(x, l) {
        assert x in multiset(r);
        assert x in multiset(Front(segs)) || x == s;
      }
    }
  }

  lemma {:induction false} SortedDisjoint(segs: seq<Segment>)
    requires Disjoint(segs)
    ensures Disjoint(StableSort(segs, Earlier))
  {
    if segs != [] {
      SortedDisjoint(Front(segs));
      forall x | x in StableSort(Front(segs), Earlier) ensures Apart(x, Last(segs)) {
        assert x in multiset(StableSort(Front(segs), Earlier));
        assert x in multiset(Front(segs));
      }
      InsertDisjoint(StableSort(Front(segs), Earlier), Last(segs));
    }
  }

  lemma {:induction false} InOrder(segs: seq<Segment>)
    requires Disjoint(segs) && SortedBy(segs, Earlier)
    ensures Chronological(segs)
  {
    if segs != [] {
      InOrder(Front(segs));
      forall i | 0 <= i < |segs| - 1 && segs[i].run == Last(segs).run ensures segs[i].t1 <= Last(segs).t0 {
        assert Front(segs)[i] in Front(segs);
        assert Apart(segs[i], Last(segs)) && Earlier(segs[i], Last(segs));
      }
    }
  }

  lemma EarlierTotalPreorder()
    ensures TotalPreorder(Earlier)
  {
  }

  function Sum(xs: seq<real>): real {
    if xs == [] then 0.0 else Sum(Front(xs)) + Last(xs)
  }

  /** The seconds of one movement inside `spans`, if it is of the run. */
  function Share(seg: Segment, run: nat, spans: seq<Span>): real {
    if seg.run == run then Inside(spans, seg.t0, seg.t1) else 0.0
  }

  /** The overlap seconds of a run's movements with `spans`. */
  function RunSeconds(segs: seq<Segment>, run: nat, spans: seq<Span>): real {
    if segs == [] then 0.0 else RunSeconds(Front(segs), run, spans) + Share(Last(segs), run, spans)
  }

  function AddShare(run: nat, spans: seq<Span>): (real, Segment) -> real {
    (a: real, seg: Segment) => a + Share(seg, run, spans)
  }

  lemma {:induction false} RunSecondsFold(segs: seq<Segment>, run: nat, spans: seq<Span>)
    ensures RunSeconds(segs, run, spans) == Fold(segs, 0.0, AddShare(run, spans))
  {
    if segs != [] { RunSecondsFold(Front(segs), run, spans); }
  }

  lemma SharesCommute(run: nat, spans: seq<Span>)
    ensures CommutesAcross(AddShare(run, spans), Earlier)
  {
    var step := AddShare(run, spans);
    forall a, x, y ensures step(step(a, x), y) == step(step(a, y), x) {
      assert step(step(a, x), y) == a + Share(x, run, spans) + Share(y, run, spans);
    }
  }

  /** The order of the movements does not matter to their sum. */
  lemma RunSecondsSorted(segs: seq<Segment>, run: nat, spans: seq<Span>)
    ensures RunSeconds(StableSort(segs, Earlier), run, spans) == RunSeconds(segs, run, spans)
  {
    RunSecondsFold(segs, run, spans);
    RunSecondsFold(StableSort(segs, Earlier), run, spans);
    SharesCommute(run, spans);
    FoldStable(segs, 0.0, AddShare(run, spans), Earlier);
  }

  /** Movements that do not overlap share the covered time: together they get no more than there is. */
  lemma {:induction false} RunSecondsBounded(segs: seq<Segment>, run: nat, spans: seq<Span>, t: real)
    requires Chronological(segs) && Normal(spans)
    requires forall s | s in segs && s.run == run :: s.t1 <= t
    ensures 0.0 <= RunSeconds(segs, run, spans) <= Cumulative(spans, t)
  {
    if segs == [] {
      CumulativeMonotone(spans, t, t);
    } else {
      var f, l := Front(segs), Last(segs);
      assert Chronological(f);
      if l.run == run {
        forall s | s in f && s.run == run ensures s.t1 <= l.t0 {
          var i :| 0 <= i < |f| && f[i] == s;
          assert segs[i].run == segs[|segs| - 1].run;
        }
        assert l in segs;
        RunSecondsBounded(f, run, spans, l.t0);
        DifferenceIsInside(spans, l.t0, l.t1);
        CumulativeMonotone(spans, l.t0, l.t1);
        CumulativeMonotone(spans, l.t1, t);
      } else {
        RunSecondsBounded(f, run, spans, t);
      }
    }
  }

  lemma RunWithinTotal(segs: seq<Segment>, run: nat, spans: seq<Span>)
    requires Disjoint(segs) && Normal(spans)
    ensures 0.0 <= RunSeconds(segs, run, spans) <= Total(spans)
  {
    var sorted := StableSort(segs, Earlier);
    EarlierTotalPreorder();
    StableSortSorted(segs, Earlier);
    SortedDisjoint(segs);
    InOrder(sorted);
    var t := LatestEnd(sorted);
    RunSecondsBounded(sorted, run, spans, t);
    CumulativeWithinTotal(spans, t);
    RunSecondsSorted(segs, run, spans);
  }

  lemma {:induction false} LatestEnd(segs: seq<Segment>) returns (t: real)
    ensures forall s | s in segs :: s.t1 <= t
  {
    t := 0.0;
    for n := 0 to |segs|
      invariant forall s | s in segs[..n] :: s.t1 <= t
    {
      t := Max(t, segs[n].t1);
      assert segs[..n + 1] == segs[..n] + [segs[n]];
    }
    assert segs[..|segs|] == segs;
  }

  // --- recovery_overlap ----------------------------------------------------------------------------

  /** A run code with the recovery intervals of its events. */
  datatype RunSpans = RunSpans(run: nat, spans: seq<Span>)

  /** Each run has one entry, as a dictionary gives it. */
  ghost predicate DistinctRuns(ivs: seq<RunSpans>) {
    forall i, j | 0 <= i < j < |ivs| :: ivs[i].run != ivs[j].run
  }

  /** The length of the union of every run's intervals, run by run. */
  function MergedTotal(ivs: seq<RunSpans>): real {
    if ivs == [] then 0.0 else MergedTotal(Front(ivs)) + Total(Merged(Last(ivs).spans))
  }

  function Attributed(ivs: seq<RunSpans>, segs: seq<Segment>): real {
    if ivs == [] then 0.0
    else Attributed(Front(ivs), segs) + RunSeconds(segs, Last(ivs).run, Merged(Last(ivs).spans))
  }

  lemma {:induction false} AttributedWithinTotal(ivs: seq<RunSpans>, segs: seq<Segment>)
    requires Disjoint(segs)
    ensures 0.0 <= Attributed(ivs, segs) <= MergedTotal(ivs)
  {
    if ivs != [] {
      AttributedWithinTotal(Front(ivs), segs);
      MergedSpec(Last(ivs).spans);
      RunWithinTotal(segs, Last(ivs).run, Merged(Last(ivs).spans));
    }
  }

  /** Seconds of a movement inside the union of its run's intervals. */
  function SecondsOf(ivs: seq<RunSpans>, seg: Segment): real {
    if ivs == [] then 0.0
    else if Last(ivs).run == seg.run then Inside(Merged(Last(ivs).spans), seg.t0, seg.t1)
    else SecondsOf(Front(ivs), seg)
  }

  ghost predicate AssignedAt(rec: seq<real>, ivs: seq<RunSpans>, segs: seq<Segment>, i: nat)
    requires i < |rec| == |segs|
  {
    rec[i] == SecondsOf(ivs, segs[i])
  }

  ghost predicate Assigned(rec: seq<real>, ivs: seq<RunSpans>, segs: seq<Segment>) {
    |rec| == |segs| && forall i {:trigger AssignedAt(rec, ivs, segs, i)} | 0 <= i < |segs|
    :: AssignedAt(rec, ivs, segs, i)
  }

  /** One run's turn at movement i: it gets its seconds if it is the run's. */
  ghost predicate UpdatedAt(rec: seq<real>, rec': seq<real>, segs: seq<Segment>, run: nat, spans: seq<Span>, i: nat)
    requires i < |rec| == |rec'| == |segs|
  {
    rec'[i] == if segs[i].run == run then Inside(spans, segs[i].t0, segs[i].t1) else rec[i]
  }

  ghost predicate Updated(rec: seq<real>, rec': seq<real>, segs: seq<Segment>, run: nat, spans: seq<Span>, n: nat) {
    && |rec| == |rec'| == |segs| && n <= |segs|
    && (forall i {:trigger UpdatedAt(rec, rec', segs, run, spans, i)} | 0 <= i < n
          :: UpdatedAt(rec, rec', segs, run, spans, i))
    && (forall i | n <= i < |segs| :: rec'[i] == rec[i])
  }

  lemma {:induction false} UnknownRunGetsNothing(ivs: seq<RunSpans>, seg: Segment)
    requires forall i | 0 <= i < |ivs| :: ivs[i].run != seg.run
    ensures SecondsOf(ivs, seg) == 0.0
  {
    if ivs != [] {
      UnknownRunGetsNothing(Front(ivs), seg);
    }
  }

  /** The seconds after a run's turn, and that a run had none before. */
  lemma SecondsStep(ivs: seq<RunSpans>, n: nat, seg: Segment)
    requires DistinctRuns(ivs) && n < |ivs|
    ensures SecondsOf(ivs[..n + 1], seg)
         == if ivs[n].run == seg.run then Inside(Merged(ivs[n].spans), seg.t0, seg.t1) else SecondsOf(ivs[..n], seg)
    ensures ivs[n].run == seg.run ==> SecondsOf(ivs[..n], seg) == 0.0
  {
    assert Front(ivs[..n + 1]) == ivs[..n];
    if ivs[n].run == seg.run { UnknownRunGetsNothing(ivs[..n], seg); }
  }

  lemma AssignedStep(rec: seq<real>, rec': seq<real>, ivs: seq<RunSpans>, n: nat, segs: seq<Segment>)
    requires DistinctRuns(ivs) && n < |ivs| && Assigned(rec, ivs[..n], segs)
    requires Updated(rec, rec', segs, ivs[n].run, Merged(ivs[n].spans), |segs|)
    ensures Assigned(rec', ivs[..n + 1], segs)
    ensures forall i | 0 <= i < |segs| && segs[i].run == ivs[n].run :: rec[i] == 0.0
  {
    var done, spans := ivs[..n + 1], Merged(ivs[n].spans);
    forall i | 0 <= i < |segs|
      ensures AssignedAt(rec', done, segs, i) && (segs[i].run == ivs[n].run ==> rec[i] == 0.0)
    {
      assert AssignedAt(rec, ivs[..n], segs, i) && UpdatedAt(rec, rec', segs, ivs[n].run, spans, i);
      SecondsStep(ivs, n, segs[i]);
    }
  }

  /** Adding a run's row of seconds to the assignment adds exactly its seconds to the sum. */
  lemma {:induction false} SumGrows(rec: seq<real>, rec': seq<real>, segs: seq<Segment>, run: nat, spans: seq<Span>)
    requires Updated(rec, rec', segs, run, spans, |segs|)
    requires forall i | 0 <= i < |segs| && segs[i].run == run :: rec[i] == 0.0
    ensures Sum(rec') == Sum(rec) + RunSeconds(segs, run, spans)
  {
    if segs != [] {
      var f, f', g := Front(rec), Front(rec'), Front(segs);
      forall i | 0 <= i < |g| ensures UpdatedAt(f, f', g, run, spans, i) {
        assert UpdatedAt(rec, rec', segs, run, spans, i);
      }
      SumGrows(f, f', g, run, spans);
      assert UpdatedAt(rec, rec', segs, run, spans, |segs| - 1);
    }
  }

  /** One run's turn: its movements get their seconds, nobody else's change. */
  method AssignRun(segs: seq<Segment>, run: nat, merged: seq<Span>, rec: seq<real>) returns (rec': seq<real>, sum: real)
    requires |rec| == |segs| && Normal(merged)
    requires forall i | 0 <= i < |segs| :: segs[i].t0 <= segs[i].t1
    ensures Updated(rec, rec', segs, run, merged, |segs|)
    ensures sum == RunSeconds(segs, run, merged)
  {
    rec', sum := rec, 0.0;
    for n := 0 to |segs|
      invariant Updated(rec, rec', segs, run, merged, n)
      invariant sum == RunSeconds(segs[..n], run, merged)
    {
      assert Front(segs[..n + 1]) == segs[..n];
      ghost var before := rec';
      if segs[n].run == run {
        OverlapExact(merged, segs[n].t0, segs[n].t1);
        var over := OverlapOf(merged, segs[n].t0, segs[n].t1);
        rec', sum := rec'[n := over], sum + over;
      }
      forall i | 0 <= i < n + 1 ensures UpdatedAt(rec, rec', segs, run, merged, i) {
        assert i < n ==> UpdatedAt(rec, before, segs, run, merged, i);
      }
    }
    assert segs[..|segs|] == segs;
  }

  method Length(spans: seq<Span>) returns (sum: real)
    ensures sum == Total(spans)
  {
    sum := 0.0;
    for i := 0 to |spans|
      invariant sum == Total(spans[..i])
    {
      assert Front(spans[..i + 1]) == spans[..i];
      sum := sum + (spans[i].e - spans[i].s);
    }
    assert spans[..|spans|] == spans;
  }

  /** The books after some runs: the seconds per movement, their sum, and the length of the unions. */
  ghost predicate Booked(rec: seq<real>, attributed: real, total: real, ivs: seq<RunSpans>, segs: seq<Segment>) {
    Assigned(rec, ivs, segs) && attributed == Sum(rec) == Attributed(ivs, segs) && total == MergedTotal(ivs)
  }

  lemma TotalsStep(ivs: seq<RunSpans>, n: nat, segs: seq<Segment>)
    requires n < |ivs|
    ensures Attributed(ivs[..n + 1], segs)
         == Attributed(ivs[..n], segs) + RunSeconds(segs, ivs[n].run, Merged(ivs[n].spans))
    ensures MergedTotal(ivs[..n + 1]) == MergedTotal(ivs[..n]) + Total(Merged(ivs[n].spans))
  {
    assert Front(ivs[..n + 1]) == ivs[..n];
  }

  lemma BookedStep(rec: seq<real>, attributed: real, total: real, ivs: seq<RunSpans>, n: nat, segs: seq<Segment>,
                   rec': seq<real>)
    requires DistinctRuns(ivs) && n < |ivs| && Booked(rec, attributed, total, ivs[..n], segs)
    requires Updated(rec, rec', segs, ivs[n].run, Merged(ivs[n].spans), |segs|)
    ensures Booked(rec', attributed + RunSeconds(segs, ivs[n].run, Merged(ivs[n].spans)),
                   total + Total(Merged(ivs[n].spans)), ivs[..n + 1], segs)
  {
    AssignedStep(rec, rec', ivs, n, segs);
    SumGrows(rec, rec', segs, ivs[n].run, Merged(ivs[n].spans));
    TotalsStep(ivs, n, segs);
  }

  lemma NothingBooked(rec: seq<real>, segs: seq<Segment>)
    requires |rec| == |segs| && forall i | 0 <= i < |segs| :: rec[i] == 0.0
    ensures Booked(rec, 0.0, 0.0, [], segs)
  {
    SumOfZeros(rec);
  }

  /** One turn of the loop over the runs. */
  method BookRun(segs: seq<Segment>, ivs: seq<RunSpans>, n: nat, rec: seq<real>, attributed: real, total: real)
    returns (rec': seq<real>, attributed': real, total': real)
    requires DistinctRuns(ivs) && n < |ivs| && forall i | 0 <= i < |segs| :: segs[i].t0 <= segs[i].t1
    requires Booked(rec, attributed, total, ivs[..n], segs)
    ensures Booked(rec', attributed', total', ivs[..n + 1], segs)
  {
    var merged := MergeIntervals(ivs[n].spans);
    var length := Length(merged);
    var sum: real;
    rec', sum := AssignRun(segs, ivs[n].run, merged, rec);
    BookedStep(rec, attributed, total, ivs, n, segs, rec');
    attributed', total' := attributed + sum, total + length;
  }

  method BookAll(segs: seq<Segment>, ivs: seq<RunSpans>) returns (rec: seq<real>, attributed: real, total: real)
    requires DistinctRuns(ivs) && forall i | 0 <= i < |segs| :: segs[i].t0 <= segs[i].t1
    ensures Booked(rec, attributed, total, ivs, segs)
  {
    rec, attributed, total := seq(|segs|, i => 0.0), 0.0, 0.0;
    NothingBooked(rec, segs);
    assert ivs[..0] == [];
    for n := 0 to |ivs|
      invariant Booked(rec, attributed, total, ivs[..n], segs)
    {
      rec, attributed, total := BookRun(segs, ivs, n, rec, attributed, total);
    }
    assert ivs[..|ivs|] == ivs;
  }

  /** What the movements got and what is left are the length of the unions, in whatever order they are listed. */
  lemma BooksBalance(ivs: seq<RunSpans>, segs: seq<Segment>, attributed: real, total: real)
    requires attributed == Attributed(ivs, segs) && total == MergedTotal(ivs)
    ensures Disjoint(segs) ==> attributed + Max(0.0, total - attributed) == MergedTotal(ivs)
  {
    if Disjoint(segs) { AttributedWithinTotal(ivs, segs); }
  }

  /** Every movement gets the exact time it spent inside its run's intervals, and what no movement got
      plus what they got is the length of the unions. */
  method RecoveryOverlap(segs: seq<Segment>, ivs: seq<RunSpans>) returns (rec: seq<real>, unattributed: real)
    requires DistinctRuns(ivs) && forall i | 0 <= i < |segs| :: segs[i].t0 <= segs[i].t1
    ensures Assigned(rec, ivs, segs)
    ensures unattributed == Max(0.0, MergedTotal(ivs) - Sum(rec))
    ensures Disjoint(segs) ==> Sum(rec) + unattributed == MergedTotal(ivs)
  {
    var attributed, total;
    rec, attributed, total := BookAll(segs, ivs);
    unattributed := Max(0.0, total - attributed);
    BooksBalance(ivs, segs, attributed, total);
  }

  lemma {:induction false} SumOfZeros(xs: seq<real>)
    requires forall i | 0 <= i < |xs| :: xs[i] == 0.0
    ensures Sum(xs) == 0.0
  {
    if xs != [] {
      SumOfZeros(Front(xs));
    }
  }

  lemma {:induction false} ShareNonNegative(segs: seq<Segment>, run: nat, spans: seq<Span>)
    requires Normal(spans) && forall i | 0 <= i < |segs| :: segs[i].t0 <= segs[i].t1
    ensures RunSeconds(segs, run, spans) >= 0.0
  {
    if segs != [] {
      ShareNonNegative(Front(segs), run, spans);
      InsideNonNegative(spans, Last(segs).t0, Last(segs).t1);
    }
  }

  lemma InsideNonNegative(spans: seq<Span>, t0: real, t1: real)
    requires Normal(spans) && t0 <= t1
    ensures Inside(spans, t0, t1) >= 0.0
  {
    DifferenceIsInside(spans, t0, t1);
    CumulativeMonotone(spans, t0, t1);
  }

  /** One movement's share is part of the sum. */
  lemma {:induction false} ShareCounts(segs: seq<Segment>, run: nat, spans: seq<Span>, i: nat)
    requires Normal(spans) && i < |segs| && forall k | 0 <= k < |segs| :: segs[k].t0 <= segs[k].t1
    ensures RunSeconds(segs, run, spans) >= Share(segs[i], run, spans)
  {
    if i == |segs| - 1 {
      ShareNonNegative(Front(segs), run, spans);
    } else {
      ShareCounts(Front(segs), run, spans, i);
      InsideNonNegative(spans, Last(segs).t0, Last(segs).t1);
    }
  }

  /** Two movements' shares are. */
  lemma {:induction false} TwoSharesCount(segs: seq<Segment>, run: nat, spans: seq<Span>, i: nat, j: nat)
    requires Normal(spans) && i < j < |segs| && forall k | 0 <= k < |segs| :: segs[k].t0 <= segs[k].t1
    ensures RunSeconds(segs, run, spans) >= Share(segs[i], run, spans) + Share(segs[j], run, spans)
  {
    if j == |segs| - 1 {
      ShareCounts(Front(segs), run, spans, i);
    } else {
      TwoSharesCount(Front(segs), run, spans, i, j);
      InsideNonNegative(spans, Last(segs).t0, Last(segs).t1);
    }
  }

  lemma {:induction false} FindOverlap(segs: seq<Segment>) returns (i: nat, j: nat)
    requires !Disjoint(segs) && forall k | 0 <= k < |segs| :: segs[k].t0 <= segs[k].t1
    ensures i < j < |segs| && !Apart(segs[i], segs[j])
  {
    if Disjoint(Front(segs)) {
      var x :| x in Front(segs) && !Apart(x, Last(segs));
      i :| 0 <= i < |segs| - 1 && Front(segs)[i] == x;
      j := |segs| - 1;
    } else {
      i, j := FindOverlap(Front(segs));
    }
  }

  /** A single interval is its own union. */
  lemma OneMerged(x: Span)
    requires x.s < x.e
    ensures Normal([x]) && Merged([x]) == [x]
  {
    MergedSpec([x]);
    NormalFormUnique(Merged([x]), [x]);
  }

  lemma OneTotal(x: Span)
    ensures Total([x]) == x.e - x.s
  {
    assert Front([x]) == [];
  }

  /** It lies inside every movement around it. */
  lemma OneInside(x: Span, seg: Segment)
    requires x.s < x.e && seg.t0 <= x.s && x.e <= seg.t1
    ensures Inside([x], seg.t0, seg.t1) == x.e - x.s
  {
    assert [x][1..] == [];
  }

  lemma OverlapCountsTwice(segs: seq<Segment>, i: nat, j: nat) returns (ivs: seq<RunSpans>)
    requires i < j < |segs| && !Apart(segs[i], segs[j]) && forall k | 0 <= k < |segs| :: segs[k].t0 < segs[k].t1
    ensures DistinctRuns(ivs) && Attributed(ivs, segs) > MergedTotal(ivs)
  {
    var a, b := segs[i], segs[j];
    var x := Span(Max(a.t0, b.t0), if a.t1 < b.t1 then a.t1 else b.t1);
    ivs := [RunSpans(a.run, [x])];
    OneMerged(x);
    OneTotal(x);
    OneInside(x, a);
    OneInside(x, b);
    TwoSharesCount(segs, a.run, [x], i, j);
    assert Front(ivs) == [];
  }

  /** Attributed and unattributed seconds make up the merged total, whatever the intervals are. */
  ghost predicate AlwaysBalances(segs: seq<Segment>) {
    forall ivs | DistinctRuns(ivs) :: Balances(ivs, segs)
  }

  predicate Balances(ivs: seq<RunSpans>, segs: seq<Segment>) {
    var attributed, total := Attributed(ivs, segs), MergedTotal(ivs);
    attributed + Max(0.0, total - attributed) == total
  }

  /** The recovery seconds balance for all intervals if and only if the movements do not overlap: the stretch that
      two of them share is an interval that counts twice. */
  lemma BalanceIffDisjoint(segs: seq<Segment>)
    requires forall k | 0 <= k < |segs| :: segs[k].t0 < segs[k].t1
    ensures AlwaysBalances(segs) <==> Disjoint(segs)
  {
    if Disjoint(segs) {
      forall ivs | DistinctRuns(ivs) ensures Balances(ivs, segs) {
        AttributedWithinTotal(ivs, segs);
      }
    } else {
      var i, j := FindOverlap(segs);
      var ivs := OverlapCountsTwice(segs, i, j);
      assert !Balances(ivs, segs);
    }
  }
}
