/** Waiting for a robot's upload backlog before a mapping session is finished (packages/api/ingest_backlog.py). */
module Backlog {
  import opened Common

  datatype Metric = Depth | Complete | Trackers

  /** graph-builder's answer. `values`: the progress figures that are integers. */
  datatype Snap = Snap(known: bool, pending: bool, values: map<Metric, int>)

  datatype Outcome = Drained | Unknown | Stalled | Cap

  /** What the environment answers: poll `i` (`None`: no answer) and the clock read after it. */
  datatype Env = Env(polls: nat -> Option<Snap>, times: nat -> real, start: real)
  datatype Limits = Limits(noProgress: real, max: real)

  predicate Usable(s: Option<Snap>) { s.Some? && s.value.known }

  predicate Better(m: Metric, a: int, b: int) {
    if m.Complete? then a > b else a < b
  }

  // --- the promise, look by look -------------------------------------------------------------------------

  /** The figure `m` of poll `i`, if the poll gave one. */
  function Value(env: Env, i: nat, m: Metric): Option<int> {
    var s := env.polls(i);
    if Usable(s) && m in s.value.values then Some(s.value.values[m]) else None
  }

  /** Poll `i` is ahead of every earlier poll in `m`. */
  ghost predicate Ahead(env: Env, i: nat, m: Metric) {
    && Value(env, i, m).Some?
    && forall j :: 0 <= j < i && Value(env, j, m).Some? ==> Better(m, Value(env, i, m).value, Value(env, j, m).value)
  }

  /** The first look, or one that is ahead of all earlier ones in some figure. */
  ghost predicate Progress(env: Env, i: nat) {
    i == 0 || exists m :: Ahead(env, i, m)
  }

  /** No look of the last `span` seconds before look `n` made progress. */
  ghost predicate NoProgressFor(env: Env, n: nat, span: real) {
    forall j :: 0 <= j <= n && Progress(env, j) ==> env.times(n) - env.times(j) >= span
  }

  /** An answer that says it knows the robot's backlog. */
  ghost predicate Knows(env: Env, i: nat) {
    env.polls(i).Some? && env.polls(i).value.known
  }

  /** Poll i gave the figure m as v. */
  ghost predicate Gave(env: Env, i: nat, m: Metric, v: int) {
    Knows(env, i) && m in env.polls(i).value.values && env.polls(i).value.values[m] == v
  }

  /** A look makes progress if it is the first, or if depth fell, the highest complete id rose, or the open
      trackers fell against every earlier look that gave the figure. */
  lemma ProgressMeans(env: Env, i: nat)
    ensures Progress(env, i) <==>
              || i == 0
              || (exists v :: Gave(env, i, Depth, v) && forall j, u | 0 <= j < i && Gave(env, j, Depth, u) :: v < u)
              || (exists v :: Gave(env, i, Complete, v) &&
                      forall j, u | 0 <= j < i && Gave(env, j, Complete, u) :: v > u)
              || (exists v :: Gave(env, i, Trackers, v) &&
                      forall j, u | 0 <= j < i && Gave(env, j, Trackers, u) :: v < u)
  {
    AheadMeans(env, i, Depth);
    AheadMeans(env, i, Complete);
    AheadMeans(env, i, Trackers);
    if exists m :: Ahead(env, i, m) {
      var m :| Ahead(env, i, m);
      assert m == Depth || m == Complete || m == Trackers;
    }
  }

  lemma AheadMeans(env: Env, i: nat, m: Metric)
    ensures Ahead(env, i, m) <==>
              exists v :: Gave(env, i, m, v) &&
                          forall j, u | 0 <= j < i && Gave(env, j, m, u) :: if m == Complete then v > u else v < u
  {
    assert forall j: nat, u :: Gave(env, j, m, u) <==> Value(env, j, m) == Some(u);
    if Ahead(env, i, m) {
      assert Gave(env, i, m, Value(env, i, m).value);
    }
  }

  ghost predicate Ends(env: Env, l: Limits, n: nat, outcome: Outcome) {
    var s := env.polls(n);
    match outcome
    case Drained => Usable(s) && !s.value.pending
    case Unknown => n == 0 && !Usable(s)
    case Cap => (Usable(s) ==> s.value.pending) && (n == 0 ==> Usable(s)) && env.times(n) - env.start >= l.max
    case Stalled => (Usable(s) ==> s.value.pending) && (n == 0 ==> Usable(s)) && env.times(n) - env.start < l.max
                    && NoProgressFor(env, n, l.noProgress)
  }

  ghost predicate GoesOn(env: Env, l: Limits, n: nat) {
    forall o :: !Ends(env, l, n, o)
  }

  /** The wait ends at look `n` with `outcome`, and at no earlier one. */
  ghost predicate WaitEnds(env: Env, l: Limits, n: nat, outcome: Outcome) {
    Ends(env, l, n, outcome) && forall i :: 0 <= i < n ==> GoesOn(env, l, i)
  }

  /** The last good snapshot up to look `n`. */
  function LastGood(env: Env, n: nat): Option<Snap> {
    if Usable(env.polls(n)) then env.polls(n) else if n == 0 then None else LastGood(env, n - 1)
  }

  ghost predicate Advances(env: Env) {
    env.start <= env.times(0) && forall i: nat, j: nat :: i <= j ==> env.times(i) <= env.times(j)
  }

  // --- the loop ------------------------------------------------------------------------------------------

  /** `best` holds the best figure of the first `n` polls for each metric that had one. */
  ghost predicate BestOf(env: Env, n: nat, best: map<Metric, int>) {
    forall m :: BestIn(env, n, best, m)
  }

  ghost predicate BestIn(env: Env, n: nat, best: map<Metric, int>, m: Metric) {
    && (m in best ==> exists j :: 0 <= j < n && Value(env, j, m) == Some(best[m]))
    && forall j :: 0 <= j < n && Value(env, j, m).Some? ==> m in best && !Better(m, Value(env, j, m).value, best[m])
  }

  /** One figure of a snapshot against the best so far. */
  method Compare(m: Metric, values: map<Metric, int>, best: map<Metric, int>, moved: bool)
    returns (best': map<Metric, int>, moved': bool)
    ensures moved' == (moved || (m in values && (m in best ==> Better(m, values[m], best[m]))))
    ensures best' == if m in values && (m in best ==> Better(m, values[m], best[m])) then best[m := values[m]] else best
  {
    best', moved' := best, moved;
    if m in values && (m !in best || Better(m, values[m], best[m])) {
      best', moved' := best[m := values[m]], true;
    }
  }

  /** `_progress`: whether the snapshot of poll `n` is ahead of all polls before it. */
  method RecordProgress(ghost env: Env, ghost n: nat, snap: Snap, best: map<Metric, int>)
    returns (moved: bool, best': map<Metric, int>)
    requires env.polls(n) == Some(snap) && snap.known
    requires BestOf(env, n, best)
    ensures moved <==> exists m :: Ahead(env, n, m)
    ensures BestOf(env, n + 1, best')
  {
    best', moved := Compare(Depth, snap.values, best, false);
    best', moved := Compare(Complete, snap.values, best', moved);
    best', moved := Compare(Trackers, snap.values, best', moved);
    ghost var n' := n + 1;
    forall m
      ensures BestIn(env, n', best', m)
              && (Ahead(env, n, m) <==> m in snap.values && (m in best ==> Better(m, snap.values[m], best[m])))
    {
      assert m == Depth || m == Complete || m == Trackers;
      OneMore(env, n, snap, best, best', m);
    }
    assert moved <==> Ahead(env, n, Depth) || Ahead(env, n, Complete) || Ahead(env, n, Trackers);
  }

  lemma OneMore(env: Env, n: nat, snap: Snap, best: map<Metric, int>, best': map<Metric, int>, m: Metric)
    requires env.polls(n) == Some(snap) && snap.known && BestIn(env, n, best, m)
    requires (m in best' <==> m in best || m in snap.values)
    requires m in snap.values && (m in best ==> Better(m, snap.values[m], best[m])) ==> best'[m] == snap.values[m]
    requires m in best && (m in snap.values ==> !Better(m, snap.values[m], best[m])) ==> best'[m] == best[m]
    ensures BestIn(env, n + 1, best', m)
    ensures Ahead(env, n, m) <==> m in snap.values && (m in best ==> Better(m, snap.values[m], best[m]))
  {
    assert Value(env, n, m) == if m in snap.values then Some(snap.values[m]) else None;
    if m in best {
      var j :| 0 <= j < n && Value(env, j, m) == Some(best[m]);
      assert Value(env, j, m).Some?;
    }
  }

  /** `last`: the look of the latest progress among the first `n`. */
  ghost predicate LatestProgress(env: Env, n: nat, last: nat) {
    last < n && Progress(env, last) && forall j :: last < j < n ==> !Progress(env, j)
  }

  /** Poll until the backlog is drained or waiting for it is pointless. `bound`: a look past the ceiling, which an
      advancing clock reaches. */
  method WaitForBacklog(env: Env, l: Limits, ghost bound: nat) returns (outcome: Outcome, backlog: Option<Snap>, n: nat)
    requires Advances(env)
    requires env.times(bound) - env.start >= l.max
    ensures n <= bound && WaitEnds(env, l, n, outcome)
    ensures backlog == if outcome.Unknown? then env.polls(0) else LastGood(env, n)
  {
    n := 0;
    var best: map<Metric, int> := map[];
    var lastProgress := env.start;
    ghost var at := 0;
    backlog := None;
    while true
      invariant n <= bound && BestOf(env, n, best)
      invariant n > 0 ==> LatestProgress(env, n, at) && lastProgress == env.times(at) && backlog == LastGood(env, n - 1)
      invariant forall i :: 0 <= i < n ==> GoesOn(env, l, i)
      decreases bound - n
    {
      var snap := env.polls(n);
      var now := env.times(n);
      if Usable(snap) {
        backlog := snap;
        if !snap.value.pending { return Drained, snap, n; }
        var moved, better := RecordProgress(env, n, snap.value, best);
        best := better;
        if moved || n == 0 { lastProgress := now; at := n; }
      } else {
        if n == 0 { return Unknown, snap, n; }
        Unmoved(env, n, best);
      }
      LatestDecides(env, n, at, l.noProgress);
      if now - env.start >= l.max { return Cap, backlog, n; }
      if now - lastProgress >= l.noProgress { return Stalled, backlog, n; }
      NotYet(env, l, n);
      n := n + 1;
    }
  }

  /** A poll without an answer leaves the best figures and is no progress. */
  lemma Unmoved(env: Env, n: nat, best: map<Metric, int>)
    requires !Usable(env.polls(n)) && BestOf(env, n, best)
    ensures BestOf(env, n + 1, best) && (n > 0 ==> !Progress(env, n))
  {
    var n' := n + 1;
    forall m ensures BestIn(env, n', best, m) {
      assert BestIn(env, n, best, m) && Value(env, n, m).None?;
      if m in best {
        var j :| 0 <= j < n && Value(env, j, m) == Some(best[m]);
      }
    }
  }

  /** Only the latest progress matters. */
  lemma LatestDecides(env: Env, n: nat, last: nat, span: real)
    requires Advances(env) && LatestProgress(env, n + 1, last)
    ensures NoProgressFor(env, n, span) <==> env.times(n) - env.times(last) >= span
  {
  }

  lemma NotYet(env: Env, l: Limits, n: nat)
    requires (Usable(env.polls(n)) ==> env.polls(n).value.pending) && (n == 0 ==> Usable(env.polls(n)))
    requires env.times(n) - env.start < l.max && !NoProgressFor(env, n, l.noProgress)
    ensures GoesOn(env, l, n)
  {
  }

  // --- what the outcome tells ----------------------------------------------------------------------------

  /** What each outcome says of the look it comes at, on the answer and the clock. */
  lemma OutcomeMeans(env: Env, l: Limits, n: nat, o: Outcome)
    requires Ends(env, l, n, o)
    ensures o == Drained <==> Knows(env, n) && !env.polls(n).value.pending
    ensures o == Unknown <==> n == 0 && !Knows(env, n)
    ensures o == Cap || o == Stalled ==> (Knows(env, n) ==> env.polls(n).value.pending) && (n == 0 ==> Knows(env, n))
    ensures o == Cap ==> env.times(n) - env.start >= l.max
    ensures o == Stalled ==> env.times(n) - env.start < l.max
    ensures o == Stalled ==> forall j | 0 <= j <= n && Progress(env, j) :: env.times(n) - env.times(j) >= l.noProgress
  {
  }

  /** The snapshot given back is the last answer that knew the backlog. */
  lemma {:induction false} LastGoodMeans(env: Env, n: nat)
    ensures LastGood(env, n).None? <==> forall i | 0 <= i <= n :: !Knows(env, i)
    ensures LastGood(env, n).Some? ==> exists i | 0 <= i <= n ::
              Knows(env, i) && env.polls(i) == LastGood(env, n) && forall j | i < j <= n :: !Knows(env, j)
  {
    assert Knows(env, n) <==> Usable(env.polls(n));
    if !Knows(env, n) && n > 0 {
      LastGoodMeans(env, n - 1);
    }
  }

  /** The environment decides when and how the wait ends. */
  lemma WaitIsDetermined(env: Env, l: Limits, n: nat, o: Outcome, n': nat, o': Outcome)
    requires WaitEnds(env, l, n, o) && WaitEnds(env, l, n', o')
    ensures n == n' && o == o'
  {
    assert n < n' ==> GoesOn(env, l, n);
    assert n' < n ==> GoesOn(env, l, n');
  }

  /** The wait ends at the first look past the ceiling, if not before. */
  lemma CeilingHolds(env: Env, l: Limits, n: nat, o: Outcome, i: nat)
    requires WaitEnds(env, l, n, o) && env.times(i) - env.start >= l.max
    ensures n <= i
  {
    assert Ends(env, l, i, Cap) || Ends(env, l, i, Drained) || Ends(env, l, i, Unknown);
    assert i < n ==> GoesOn(env, l, i);
  }

  /** With looks at most `gap` apart the caller never waits longer than the ceiling and one gap. */
  lemma WaitBounded(env: Env, l: Limits, n: nat, o: Outcome, gap: real)
    requires WaitEnds(env, l, n, o) && l.max >= 0.0
    requires env.times(0) - env.start <= gap && forall i: nat, j :: j == i + 1 ==> env.times(j) - env.times(i) <= gap
    ensures env.times(n) - env.start <= l.max + gap
  {
    if n > 0 && env.times(n - 1) - env.start >= l.max {
      CeilingHolds(env, l, n, o, n - 1);
    }
  }

  /** If look `j` made progress, a later one within `span` does. */
  ghost predicate FollowedUp(env: Env, span: real, j: nat) {
    Progress(env, j) ==> exists k :: k > j && Progress(env, k) && env.times(k) - env.times(j) < span
  }

  /** A drain whose every progress is followed by another within `noProgress` is never called stalled. */
  lemma {:induction false} SteadyDrainNeverStalls(env: Env, l: Limits, n: nat, o: Outcome)
    requires Advances(env) && WaitEnds(env, l, n, o)
    requires forall j :: 0 <= j <= n ==> FollowedUp(env, l.noProgress, j)
    ensures o != Stalled
  {
    var last := FindLatest(env, n);
    assert FollowedUp(env, l.noProgress, last);
    var k :| k > last && Progress(env, k) && env.times(k) - env.times(last) < l.noProgress;
    assert k > n;
    assert env.times(n) <= env.times(k);
    assert !NoProgressFor(env, n, l.noProgress);
  }

  /** There is a latest progress at every look. */
  ghost function FindLatest(env: Env, n: nat): (last: nat)
    ensures LatestProgress(env, n + 1, last)
  {
    if Progress(env, n) then n else FindLatest(env, n - 1)
  }

  /** The ceiling is reached only by a wait that was making progress at the look before. */
  lemma CapMeansProgressBefore(env: Env, l: Limits, n: nat)
    requires WaitEnds(env, l, n, Cap) && n > 0
    ensures exists j :: 0 <= j < n && Progress(env, j) && env.times(n - 1) - env.times(j) < l.noProgress
  {
    assert GoesOn(env, l, n - 1);
    assert !Ends(env, l, n - 1, Stalled) && !Ends(env, l, n - 1, Cap)
           && !Ends(env, l, n - 1, Drained) && !Ends(env, l, n - 1, Unknown);
  }

  /** At the look itself it need not have: a robot that never moves, looked at every 20 s with a ceiling of 40 s,
      is reported as capped although it made no progress for 30 s. */
  lemma CapHidesAStall()
    ensures var snap := Snap(true, true, map[Depth := 5]);
            var env := Env((i: nat) => Some(snap), (i: nat) => 20.0 * i as real, 0.0);
            var l := Limits(30.0, 40.0);
            WaitEnds(env, l, 2, Cap) && NoProgressFor(env, 2, l.noProgress)
  {
    var snap := Snap(true, true, map[Depth := 5]);
    var env := Env((i: nat) => Some(snap), (i: nat) => 20.0 * i as real, 0.0);
    var l := Limits(30.0, 40.0);
    forall i: nat, m | i > 0 ensures !Ahead(env, i, m) {
      assert Value(env, i, m) == Value(env, 0, m);
    }
    assert Progress(env, 0);
    NotYet(env, l, 0);
    NotYet(env, l, 1);
  }

  /** Look `n` is the first one past the ceiling. */
  ghost predicate FirstPastCeiling(times: nat -> real, start: real, l: Limits, n: nat) {
    times(n) - start >= l.max && forall i :: 0 <= i < n ==> times(i) - start < l.max
  }

  /** The look before `n` was within `span` of look `j`, look `n` is not. */
  ghost predicate JumpsOver(times: nat -> real, n: nat, j: nat, span: real) {
    j < n && times(n - 1) - times(j) < span <= times(n) - times(j)
  }

  /** Capped without progress: for some answers the wait ends at `n` with the ceiling although nothing moved for
      `noProgress`. */
  ghost predicate CanHideStall(times: nat -> real, start: real, l: Limits, n: nat) {
    exists polls :: CapsStalled(Env(polls, times, start), l, n)
  }

  ghost predicate CapsStalled(env: Env, l: Limits, n: nat) {
    WaitEnds(env, l, n, Cap) && NoProgressFor(env, n, l.noProgress)
  }

  /** The documented promise of the ceiling, reached only by a drain that keeps making progress, fails for some answers
      if and only if the looks jump over the end of some stretch of `noProgress`. */
  lemma CapHidesStallIff(times: nat -> real, start: real, l: Limits, n: nat)
    requires Advances(Env(_ => None, times, start)) && l.noProgress > 0.0 && FirstPastCeiling(times, start, l, n)
    ensures CanHideStall(times, start, l, n) <==> exists j :: JumpsOver(times, n, j, l.noProgress)
  {
    assert forall i: nat, j: nat :: i <= j ==> times(i) <= times(j) by {
      var env := Env(_ => None, times, start);
      assert forall i: nat, j: nat :: i <= j ==> env.times(i) <= env.times(j);
    }
    if CanHideStall(times, start, l, n) {
      var polls :| CapsStalled(Env(polls, times, start), l, n);
      var j := StallJumps(Env(polls, times, start), l, n);
    }
    if exists j :: JumpsOver(times, n, j, l.noProgress) {
      var j :| JumpsOver(times, n, j, l.noProgress);
      JumpStalls(times, start, l, n, j);
    }
  }

  lemma StallJumps(env: Env, l: Limits, n: nat) returns (j: nat)
    requires Advances(env) && l.noProgress > 0.0 && CapsStalled(env, l, n)
    ensures JumpsOver(env.times, n, j, l.noProgress)
  {
    j := FindLatest(env, n);
    assert env.times(n) - env.times(j) >= l.noProgress;
    CapMeansProgressBefore(env, l, n);
    var i :| 0 <= i < n && Progress(env, i) && env.times(n - 1) - env.times(i) < l.noProgress;
    assert i <= j;
    assert env.times(i) <= env.times(j);
  }

  /** A drain that completes one more entry at every look up to `j`, and then stands still. */
  function Until(j: nat): nat -> Option<Snap> {
    i => Some(Snap(true, true, map[Complete := if i < j then i else j]))
  }

  lemma UntilProgress(env: Env, j: nat, i: nat)
    requires env.polls == Until(j)
    ensures Progress(env, i) <==> i <= j
  {
    assert forall k: nat :: Value(env, k, Complete) == Some(if k < j then k else j);
    if 0 < i <= j {
      assert Ahead(env, i, Complete);
    }
    if i > j {
      assert Value(env, j, Complete) == Value(env, i, Complete);
      forall m ensures !Ahead(env, i, m) {
        assert m != Complete ==> Value(env, i, m).None?;
      }
    }
  }

  lemma JumpStalls(times: nat -> real, start: real, l: Limits, n: nat, j: nat)
    requires forall a: nat, b: nat :: a <= b ==> times(a) <= times(b)
    requires l.noProgress > 0.0 && FirstPastCeiling(times, start, l, n) && JumpsOver(times, n, j, l.noProgress)
    ensures CapsStalled(Env(Until(j), times, start), l, n)
  {
    var env := Env(Until(j), times, start);
    forall i: nat ensures Progress(env, i) <==> i <= j { UntilProgress(env, j, i); }
    forall i | 0 <= i < n ensures GoesOn(env, l, i) {
      var last := if i <= j then i else j;
      assert Progress(env, last) && env.times(i) - env.times(last) < l.noProgress by {
        assert times(i) <= times(n - 1);
      }
      assert env.polls(i) == Until(j)(i);
      NotYet(env, l, i);
    }
    forall i | 0 <= i <= n && Progress(env, i) ensures times(n) - times(i) >= l.noProgress {
      assert times(i) <= times(j);
    }
    assert env.polls(n) == Until(j)(n);
  }
}
