/** Unions of time intervals: merge_intervals (packages/api/mapping_stats.py) and the running-maximum credit of the
    hours query (packages/api/map_series.py). */
module Intervals {
  import opened Common
  import opened Sorting

  /** The half-open interval [s, e) of epoch seconds; empty when e <= s. */
  datatype Span = Span(s: real, e: real) {
    predicate Has(t: real) {
      s <= t < e
    }
  }

  function Max(a: real, b: real): real {
    if a < b then b else a
  }

  function Min(a: real, b: real): real {
    if a < b then a else b
  }

  predicate SpanLe(a: Span, b: Span) {
    a.s < b.s || (a.s == b.s && a.e <= b.e)
  }

  lemma SpanLeTotalPreorder()
    ensures TotalPreorder(SpanLe)
  {
  }

  ghost predicate In(spans: seq<Span>, t: real) {
    exists i | 0 <= i < |spans| :: spans[i].Has(t)
  }

  lemma InAppend(spans: seq<Span>, x: Span, t: real)
    ensures In(spans + [x], t) <==> In(spans, t) || x.Has(t)
  {
    if In(spans, t) {
      var i :| 0 <= i < |spans| && spans[i].Has(t);
      assert (spans + [x])[i].Has(t);
    }
    if x.Has(t) {
      assert (spans + [x])[|spans|].Has(t);
    }
  }

  /** Proper intervals in order, with room between neighbours. */
  ghost predicate Normal(out: seq<Span>) {
    && (forall i | 0 <= i < |out| :: out[i].s < out[i].e)
    && (forall i, j | 0 <= i < j < |out| :: out[i].e < out[j].s)
  }

  function Total(spans: seq<Span>): real {
    if spans == [] then 0.0 else Total(Front(spans)) + (Last(spans).e - Last(spans).s)
  }

  /** One round of the merge: skip an empty interval, extend the last one, or start another. */
  function AddSpan(out: seq<Span>, x: Span): seq<Span> {
    if x.e <= x.s then out
    else if out != [] && x.s <= Last(out).e then Front(out) + [Last(out).(e := Max(Last(out).e, x.e))]
    else out + [x]
  }

  function MergeSorted(sorted: seq<Span>): seq<Span> {
    if sorted == [] then [] else AddSpan(MergeSorted(Front(sorted)), Last(sorted))
  }

  function Merged(spans: seq<Span>): seq<Span> {
    MergeSorted(StableSort(spans, SpanLe))
  }

  lemma AddSpanCovers(out: seq<Span>, x: Span, t: real)
    requires Normal(out) && (out != [] ==> Last(out).s <= x.s)
    ensures In(AddSpan(out, x), t) <==> In(out, t) || x.Has(t)
  {
    if x.e > x.s && out != [] && x.s <= Last(out).e {
      assert out == Front(out) + [Last(out)];
      InAppend(Front(out), Last(out), t);
      InAppend(Front(out), Last(out).(e := Max(Last(out).e, x.e)), t);
    } else if x.e > x.s {
      InAppend(out, x, t);
    }
  }

  lemma AddSpanNormal(out: seq<Span>, x: Span)
    requires Normal(out) && (out != [] ==> Last(out).s <= x.s)
    ensures Normal(AddSpan(out, x))
    ensures AddSpan(out, x) != [] ==> Last(AddSpan(out, x)).s <= x.s
  {
    var r := AddSpan(out, x);
    forall i, j | 0 <= i < j < |r| ensures r[i].e < r[j].s {
      if j < |out| {
        assert r[i].e == out[i].e && r[j].s == out[j].s;
      } else if i < |out| - 1 {
        assert out[i].e < Last(out).s;
      }
    }
  }

  /** The merged list is in normal form, starts no later than its input ends, and covers the same instants. */
  lemma {:induction false} MergeSortedSpec(sorted: seq<Span>)
    requires SortedBy(sorted, SpanLe)
    ensures Normal(MergeSorted(sorted))
    ensures MergeSorted(sorted) != [] ==> Last(MergeSorted(sorted)).s <= Last(sorted).s
    ensures forall t :: In(MergeSorted(sorted), t) <==> In(sorted, t)
  {
    if sorted != [] {
      var f, x := Front(sorted), Last(sorted);
      MergeSortedSpec(f);
      assert sorted == f + [x];
      assert f != [] ==> SpanLe(Last(f), x);
      AddSpanNormal(MergeSorted(f), x);
      forall t ensures In(MergeSorted(sorted), t) <==> In(sorted, t) {
        AddSpanCovers(MergeSorted(f), x, t);
        InAppend(f, x, t);
      }
    }
  }

  lemma InMembers(a: seq<Span>, b: seq<Span>, t: real)
    requires (forall x :: x in a <==> x in b) && In(a, t)
    ensures In(b, t)
  {
    var i :| 0 <= i < |a| && a[i].Has(t);
    assert a[i] in b;
    var j :| 0 <= j < |b| && b[j] == a[i];
    assert b[j].Has(t);
  }

  /** Merging any list gives the normal form of its union. */
  lemma MergedSpec(spans: seq<Span>)
    ensures Normal(Merged(spans))
    ensures forall t :: In(Merged(spans), t) <==> In(spans, t)
  {
    var sorted := StableSort(spans, SpanLe);
    SpanLeTotalPreorder();
    StableSortSorted(spans, SpanLe);
    StableSortMembers(spans, SpanLe);
    MergeSortedSpec(sorted);
    forall t ensures In(sorted, t) <==> In(spans, t) {
      if In(sorted, t) {
        InMembers(sorted, spans, t);
      }
      if In(spans, t) {
        InMembers(spans, sorted, t);
      }
    }
  }

  lemma FirstSpanSame(a: seq<Span>, b: seq<Span>)
    requires Normal(a) && Normal(b) && a != [] && forall t :: In(a, t) <==> In(b, t)
    ensures b != [] && b[0].s <= a[0].s && (a[0].s == b[0].s ==> b[0].e >= a[0].e)
  {
    assert a[0].Has(a[0].s);
    assert In(a, a[0].s) && In(b, a[0].s);
    var j :| 0 <= j < |b| && b[j].Has(a[0].s);
    EndOutside(b);
    assert In(a, b[0].e) || !a[0].Has(b[0].e);
  }

  /** The end of the first interval is not covered: intervals do not touch. */
  lemma EndOutside(a: seq<Span>)
    requires Normal(a) && a != []
    ensures !In(a, a[0].e)
  {
    forall i | 0 <= i < |a| ensures !a[i].Has(a[0].e) {
      if i > 0 {
        assert a[0].e < a[i].s;
      }
    }
  }

  lemma InTail(a: seq<Span>, t: real)
    requires Normal(a) && a != []
    ensures In(a[1..], t) <==> In(a, t) && t >= a[0].e
  {
    if In(a[1..], t) {
      var i :| 0 <= i < |a[1..]| && a[1..][i].Has(t);
      assert a[i + 1].Has(t);
    }
    if In(a, t) && t >= a[0].e {
      var i :| 0 <= i < |a| && a[i].Has(t);
      assert a[1..][i - 1].Has(t);
    }
  }

  /** A union of intervals has one normal form: its total length is a property of the instants alone. */
  lemma {:induction false} NormalFormUnique(a: seq<Span>, b: seq<Span>)
    requires Normal(a) && Normal(b) && forall t :: In(a, t) <==> In(b, t)
    ensures a == b
  {
    if a != [] {
      FirstSpanSame(a, b);
      FirstSpanSame(b, a);
      assert a[0] == b[0];
      forall t ensures In(a[1..], t) <==> In(b[1..], t) {
        InTail(a, t);
        InTail(b, t);
      }
      NormalFormUnique(a[1..], b[1..]);
      assert a == [a[0]] + a[1..] && b == [b[0]] + b[1..];
    } else if b != [] {
      FirstSpanSame(b, a);
    }
  }

  method MergeIntervals(spans: seq<Span>) returns (out: seq<Span>)
    ensures out == Merged(spans)
    ensures Normal(out)
    ensures forall t :: In(out, t) <==> In(spans, t)
  {
    var sorted := StableSort(spans, SpanLe);
    out := [];
    for n := 0 to |sorted|
      invariant out == MergeSorted(sorted[..n])
    {
      var x := sorted[n];
      assert Front(sorted[..n + 1]) == sorted[..n];
      if x.e > x.s {
        if out != [] && x.s <= Last(out).e {
          out := out[|out| - 1 := Last(out).(e := Max(Last(out).e, x.e))];
          assert out == AddSpan(MergeSorted(sorted[..n]), x);
        } else {
          out := out + [x];
        }
      }
    }
    assert sorted[..|sorted|] == sorted;
    MergedSpec(spans);
  }

  // --- the hours query -----------------------------------------------------------------------------

  /** max(e) over the preceding rows; None before the first row. */
  function PreviousEnd(rows: seq<Span>): Option<real> {
    if rows == [] then None
    else
      var p := PreviousEnd(Front(rows));
      if p.None? then Some(Last(rows).e) else Some(Max(p.value, Last(rows).e))
  }

  /** What a row adds to the union of the rows before it. */
  function Credit(pe: Option<real>, x: Span): real {
    Max(0.0, x.e - Max(x.s, if pe.None? then x.s else pe.value))
  }

  function Credits(rows: seq<Span>): real {
    if rows == [] then 0.0 else Credits(Front(rows)) + Credit(PreviousEnd(Front(rows)), Last(rows))
  }

  lemma AddSpanTotal(out: seq<Span>, x: Span)
    ensures Total(AddSpan(out, x)) == Total(out) + (if x.e <= x.s then 0.0
                                                    else if out != [] && x.s <= Last(out).e
                                                    then Max(Last(out).e, x.e) - Last(out).e
                                                    else x.e - x.s)
  {
    if x.e > x.s {
      var r := AddSpan(out, x);
      assert Front(r) == if out != [] && x.s <= Last(out).e then Front(out) else out;
    }
  }

  /** The end of the last merged interval, or s. */
  function LastEnd(out: seq<Span>, s: real): real {
    if out == [] then s else Last(out).e
  }

  lemma AddSpanEnd(out: seq<Span>, x: Span, s: real)
    requires x.s <= s
    ensures Max(s, LastEnd(AddSpan(out, x), s)) == Max(s, Max(LastEnd(out, s), x.e))
  {
  }

  /** Empty rows aside, the running maximum is the end of the last merged interval. */
  lemma {:induction false} PreviousEndIsLastEnd(rows: seq<Span>, s: real)
    requires SortedBy(rows, SpanLe) && (rows != [] ==> Last(rows).s <= s)
    ensures var pe := PreviousEnd(rows);
            Max(s, if pe.None? then s else pe.value) == Max(s, LastEnd(MergeSorted(rows), s))
  {
    if rows != [] {
      var f, x := Front(rows), Last(rows);
      assert f != [] ==> SpanLe(Last(f), x);
      PreviousEndIsLastEnd(f, s);
      AddSpanEnd(MergeSorted(f), x, s);
    }
  }

  /** The credits of the rows of one robot, in the query's order, sum to the length of their union. */
  lemma {:induction false} CreditsSortedAreTotal(rows: seq<Span>)
    requires SortedBy(rows, SpanLe)
    ensures Credits(rows) == Total(MergeSorted(rows))
  {
    if rows != [] {
      var f, x := Front(rows), Last(rows);
      CreditsSortedAreTotal(f);
      assert f != [] ==> SpanLe(Last(f), x);
      PreviousEndIsLastEnd(f, x.s);
      AddSpanTotal(MergeSorted(f), x);
    }
  }

  lemma CreditsAreMergedTotal(spans: seq<Span>)
    ensures Credits(StableSort(spans, SpanLe)) == Total(Merged(spans))
  {
    SpanLeTotalPreorder();
    StableSortSorted(spans, SpanLe);
    CreditsSortedAreTotal(StableSort(spans, SpanLe));
  }
}
