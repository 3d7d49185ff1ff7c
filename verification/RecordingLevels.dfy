/** A robot's recording level over time (packages/api/fleet_reads.py): three layers of configured
    values that change by events, site assignments, and the segments the timeline shows. */
module LevelHistory {
  import opened Common
  import opened Sorting

  /** An instant: microseconds from the earliest datetime. */
  type Time = nat

  datatype Level = Full | Track | EventsOnly | Off
  datatype Source = FromRun | FromRobot | FromSite | FromGlobal | FromDefault
  datatype Scope = RobotScope | SiteScope(id: string) | GlobalScope

  /** A configured value: unset, or a text that may or may not name a level. */
  type Value = Option<string>

  datatype Change = Change(ts: Time, scope: Scope, old_: Value, new_: Value)
  datatype Assignment = Assignment(site: string, lower: Option<Time>, upper: Option<Time>)

  const DEFAULT_LEVEL := EventsOnly

  function ParseLevel(v: Value): Option<Level> {
    match v
    case Some("full") => Some(Full)
    case Some("track") => Some(Track)
    case Some("events_only") => Some(EventsOnly)
    case Some("off") => Some(Off)
    case _ => None
  }

  function ResolveWithSource(robot: Value, site: Value, global: Value): (Level, Source) {
    if ParseLevel(robot).Some? then (ParseLevel(robot).value, FromRobot)
    else if ParseLevel(site).Some? then (ParseLevel(site).value, FromSite)
    else if ParseLevel(global).Some? then (ParseLevel(global).value, FromGlobal)
    else (DEFAULT_LEVEL, FromDefault)
  }

  // --- one layer ---------------------------------------------------------------------------------

  predicate Earlier(a: Change, b: Change) {
    a.ts <= b.ts
  }

  /** The latest change at or before t; of several at one instant the last in the list. */
  function LatestStep(t: Time): (Option<Change>, Change) -> Option<Change> {
    (best: Option<Change>, c: Change) =>
      if c.ts <= t && (best.None? || best.value.ts <= c.ts) then Some(c) else best
  }

  /** The earliest change after t; of several at one instant the first in the list. */
  function NextStep(t: Time): (Option<Change>, Change) -> Option<Change> {
    (best: Option<Change>, c: Change) =>
      if t < c.ts && (best.None? || c.ts < best.value.ts) then Some(c) else best
  }

  function LatestAt(changes: seq<Change>, t: Time): Option<Change> {
    Fold(changes, None, LatestStep(t))
  }

  function NextAfter(changes: seq<Change>, t: Time): Option<Change> {
    Fold(changes, None, NextStep(t))
  }

  /** What a layer was at t: the value the latest change set; before the first change the value that
      change replaced; without changes the current value. Nothing here depends on sorting. */
  function LayerAt(changes: seq<Change>, current: Value, t: Time): Value {
    match LatestAt(changes, t)
    case Some(c) => c.new_
    case None =>
      match NextAfter(changes, t)
      case Some(c) => c.old_
      case None => current
  }

  lemma StepsCommute(t: Time)
    ensures CommutesAcross(LatestStep(t), Earlier) && CommutesAcross(NextStep(t), Earlier)
  {
  }

  lemma EarlierTotalPreorder()
    ensures TotalPreorder(Earlier)
  {
  }

  lemma {:induction false} LatestOfPast(s: seq<Change>, t: Time)
    requires SortedBy(s, Earlier) && forall c | c in s :: c.ts <= t
    ensures LatestAt(s, t) == if s == [] then None else Some(Last(s))
    ensures NextAfter(s, t) == None
  {
    if s != [] {
      LatestOfPast(Front(s), t);
    }
  }

  /** Changes behind the first later one do not matter to either search. */
  lemma {:induction false} RestIsLater(s: seq<Change>, n: nat, t: Time)
    requires SortedBy(s, Earlier) && n < |s| && t < s[n].ts
    ensures LatestAt(s, t) == LatestAt(s[..n], t)
    ensures NextAfter(s[..n], t) == None ==> NextAfter(s, t) == Some(s[n])
  {
    if |s| == n + 1 {
      assert Front(s) == s[..n];
    } else {
      RestIsLater(Front(s), n, t);
      assert Front(s)[..n] == s[..n];
      assert Earlier(s[n], Last(s));
    }
  }

  class Layer {
    const changes: seq<Change>
    const current: Value
    ghost const given: seq<Change>

    ghost predicate Valid() {
      changes == StableSort(given, Earlier)
    }

    constructor (given: seq<Change>, current: Value)
      ensures Valid() && this.given == given && this.current == current
    {
      this.changes := StableSort(given, Earlier);
      this.current := current;
      this.given := given;
    }

    method At(t: Time) returns (v: Value)
      requires Valid()
      ensures v == LayerAt(given, current, t)
    {
      StepsCommute(t);
      EarlierTotalPreorder();
      StableSortSorted(given, Earlier);
      FoldStable(given, None, LatestStep(t), Earlier);
      FoldStable(given, None, NextStep(t), Earlier);
      var value: Value, seen := None, false;
      for n := 0 to |changes|
        invariant forall c | c in changes[..n] :: c.ts <= t
        invariant seen == (n > 0) && (seen ==> value == changes[n - 1].new_)
      {
        LatestOfPast(changes[..n], t);
        if changes[n].ts <= t {
          value, seen := changes[n].new_, true;
        } else {
          RestIsLater(changes, n, t);
          return if seen then value else changes[n].old_;
        }
      }
      assert changes[..|changes|] == changes;
      LatestOfPast(changes, t);
      return if seen then value else current;
    }
  }

  // --- the resolution at one instant -------------------------------------------------------------

  datatype History = History(
    changes: seq<Change>, assignments: seq<Assignment>,
    currentRobot: Value, currentSites: map<string, Value>, currentGlobal: Value)

  datatype Effect = Effect(level: Level, source: Source, site: Option<string>, reconstructed: Option<Level>)

  function Of(changes: seq<Change>, scope: Scope): seq<Change> {
    if changes == [] then []
    else if Last(changes).scope == scope then Of(Front(changes), scope) + [Last(changes)]
    else Of(Front(changes), scope)
  }

  function SiteAt(assignments: seq<Assignment>, t: Time): Option<string> {
    if assignments == [] then None
    else
      var a := assignments[0];
      if (a.lower.None? || a.lower.value <= t) && (a.upper.None? || t < a.upper.value) then Some(a.site)
      else SiteAt(assignments[1..], t)
  }

  function CurrentSite(h: History, site: string): Value {
    if site in h.currentSites then h.currentSites[site] else None
  }

  /** The robot / site / global / default resolution at t. */
  function EffectiveAt(h: History, t: Time): Effect {
    var site := SiteAt(h.assignments, t);
    var siteValue := if site.Some?
                     then LayerAt(Of(h.changes, SiteScope(site.value)), CurrentSite(h, site.value), t)
                     else None;
    var (level, source) := ResolveWithSource(LayerAt(Of(h.changes, RobotScope), h.currentRobot, t), siteValue,
                                             LayerAt(Of(h.changes, GlobalScope), h.currentGlobal, t));
    Effect(level, source, site, None)
  }

  // --- what that means, without the functions above -----------------------------------------------

  /** The four texts that name a level. */
  ghost predicate NamesLevel(v: Value, l: Level) {
    || (v == Some("full") && l == Full)
    || (v == Some("track") && l == Track)
    || (v == Some("events_only") && l == EventsOnly)
    || (v == Some("off") && l == Off)
  }

  ghost predicate NamesNone(v: Value) {
    v !in {Some("full"), Some("track"), Some("events_only"), Some("off")}
  }

  /** The i-th change is the scope's latest at or before t: later listed ones win at one instant. */
  ghost predicate IsLatest(changes: seq<Change>, scope: Scope, t: Time, i: nat) {
    && i < |changes| && changes[i].scope == scope && changes[i].ts <= t
    && forall j | 0 <= j < |changes| && changes[j].scope == scope && changes[j].ts <= t ::
         changes[j].ts < changes[i].ts || (changes[j].ts == changes[i].ts && j <= i)
  }

  /** The i-th change is the scope's first after t: earlier listed ones win at one instant. */
  ghost predicate IsNext(changes: seq<Change>, scope: Scope, t: Time, i: nat) {
    && i < |changes| && changes[i].scope == scope && t < changes[i].ts
    && forall j | 0 <= j < |changes| && changes[j].scope == scope && t < changes[j].ts ::
         changes[i].ts < changes[j].ts || (changes[j].ts == changes[i].ts && i <= j)
  }

  ghost predicate HasChange(changes: seq<Change>, scope: Scope, from: Option<Time>, upto: Option<Time>) {
    exists j | 0 <= j < |changes| ::
      && changes[j].scope == scope && (from.Some? ==> from.value < changes[j].ts)
      && (upto.Some? ==> changes[j].ts <= upto.value)
  }

  /** The value v of a scope at t: what its latest change set; else what its next change replaced; else
      the current one. */
  ghost predicate ScopeIs(changes: seq<Change>, scope: Scope, current: Value, t: Time, v: Value) {
    if HasChange(changes, scope, None, Some(t)) then
      exists i: nat :: IsLatest(changes, scope, t, i) && v == changes[i].new_
    else if HasChange(changes, scope, Some(t), None) then
      exists i: nat :: IsNext(changes, scope, t, i) && v == changes[i].old_
    else v == current
  }

  lemma {:induction false} LatestMeans(changes: seq<Change>, scope: Scope, t: Time)
    ensures var c := LatestAt(Of(changes, scope), t);
            && (c.Some? <==> HasChange(changes, scope, None, Some(t)))
            && (c.Some? ==> exists i: nat :: IsLatest(changes, scope, t, i) && changes[i] == c.value)
  {
    if changes != [] {
      var f, l, n := Front(changes), Last(changes), |changes| - 1;
      LatestMeans(f, scope, t);
      assert forall j | 0 <= j < n :: f[j] == changes[j];
      if l.scope == scope { assert Front(Of(f, scope) + [l]) == Of(f, scope); }
      var before := LatestAt(Of(f, scope), t);
      if l.scope == scope && l.ts <= t && (before.None? || before.value.ts <= l.ts) {
        assert changes[n] == l;
        assert IsLatest(changes, scope, t, n);
      } else if before.Some? {
        var i: nat :| IsLatest(f, scope, t, i) && f[i] == before.value;
        assert changes[i] == f[i];
        assert IsLatest(changes, scope, t, i);
      }
    }
  }

  lemma {:induction false} NextMeans(changes: seq<Change>, scope: Scope, t: Time)
    ensures var c := NextAfter(Of(changes, scope), t);
            && (c.Some? <==> HasChange(changes, scope, Some(t), None))
            && (c.Some? ==> exists i: nat :: IsNext(changes, scope, t, i) && changes[i] == c.value)
  {
    if changes != [] {
      var f, l, n := Front(changes), Last(changes), |changes| - 1;
      NextMeans(f, scope, t);
      assert forall j | 0 <= j < n :: f[j] == changes[j];
      if l.scope == scope { assert Front(Of(f, scope) + [l]) == Of(f, scope); }
      var before := NextAfter(Of(f, scope), t);
      if l.scope == scope && t < l.ts && (before.None? || l.ts < before.value.ts) {
        assert changes[n] == l;
        assert IsNext(changes, scope, t, n);
      } else if before.Some? {
        var i: nat :| IsNext(f, scope, t, i) && f[i] == before.value;
        assert changes[i] == f[i];
        assert IsNext(changes, scope, t, i);
      }
    }
  }

  lemma ScopeMeans(changes: seq<Change>, scope: Scope, current: Value, t: Time)
    ensures ScopeIs(changes, scope, current, t, LayerAt(Of(changes, scope), current, t))
  {
    LatestMeans(changes, scope, t);
    NextMeans(changes, scope, t);
  }

  ghost predicate InForce(a: Assignment, t: Time) {
    (a.lower.Some? ==> a.lower.value <= t) && (a.upper.Some? ==> t < a.upper.value)
  }

  /** The site is that of the first assignment in force at t. */
  ghost predicate SiteIs(assignments: seq<Assignment>, t: Time, site: Option<string>) {
    if site.None? then forall i | 0 <= i < |assignments| :: !InForce(assignments[i], t)
    else exists i | 0 <= i < |assignments| ::
           && InForce(assignments[i], t) && assignments[i].site == site.value
           && forall j | 0 <= j < i :: !InForce(assignments[j], t)
  }

  lemma {:induction false} SiteMeans(assignments: seq<Assignment>, t: Time)
    ensures SiteIs(assignments, t, SiteAt(assignments, t))
  {
    if assignments != [] && !InForce(assignments[0], t) {
      var rest, site := assignments[1..], SiteAt(assignments[1..], t);
      SiteMeans(rest, t);
      if site.Some? {
        var i :| 0 <= i < |rest| && InForce(rest[i], t) && rest[i].site == site.value
                 && forall j | 0 <= j < i :: !InForce(rest[j], t);
        forall j | 0 <= j < i + 1 ensures !InForce(assignments[j], t) {
          assert j > 0 ==> assignments[j] == rest[j - 1];
        }
        assert assignments[i + 1] == rest[i];
      } else {
        forall j | 0 <= j < |assignments| ensures !InForce(assignments[j], t) {
          assert j > 0 ==> assignments[j] == rest[j - 1];
        }
      }
    }
  }

  /** The values of the three layers at t. */
  ghost predicate LayersAre(h: History, t: Time, robot: Value, site: Value, global: Value, at: Option<string>) {
    && ScopeIs(h.changes, RobotScope, h.currentRobot, t, robot)
    && ScopeIs(h.changes, GlobalScope, h.currentGlobal, t, global)
    && SiteIs(h.assignments, t, at)
    && (at.None? ==> site == None)
    && (at.Some? ==> ScopeIs(h.changes, SiteScope(at.value),
                             if at.value in h.currentSites then h.currentSites[at.value] else None, t, site))
  }

  /** The robot's value wins if it names a level; then the site's, then the global one; else it is `events_only`. */
  ghost predicate Resolves(robot: Value, site: Value, global: Value, e: Effect) {
    && (forall l | NamesLevel(robot, l) :: e.level == l && e.source == FromRobot)
    && (forall l | NamesNone(robot) && NamesLevel(site, l) :: e.level == l && e.source == FromSite)
    && (forall l | NamesNone(robot) && NamesNone(site) && NamesLevel(global, l)
            :: e.level == l && e.source == FromGlobal)
    && (NamesNone(robot) && NamesNone(site) && NamesNone(global) ==> e.level == EventsOnly && e.source == FromDefault)
  }

  lemma NamesOneOrNone(v: Value)
    ensures NamesNone(v) <==> forall l :: !NamesLevel(v, l)
    ensures forall l :: NamesLevel(v, l) <==> ParseLevel(v) == Some(l)
  {
    if !NamesNone(v) {
      assert NamesLevel(v, Full) || NamesLevel(v, Track) || NamesLevel(v, EventsOnly) || NamesLevel(v, Off);
    }
  }

  /** The resolution at t, on the changes, assignments and current values themselves. */
  lemma ResolutionMeans(h: History, t: Time) returns (robot: Value, site: Value, global: Value)
    ensures LayersAre(h, t, robot, site, global, EffectiveAt(h, t).site)
    ensures Resolves(robot, site, global, EffectiveAt(h, t)) && EffectiveAt(h, t).reconstructed.None?
  {
    var at := SiteAt(h.assignments, t);
    robot := LayerAt(Of(h.changes, RobotScope), h.currentRobot, t);
    global := LayerAt(Of(h.changes, GlobalScope), h.currentGlobal, t);
    site := if at.Some? then LayerAt(Of(h.changes, SiteScope(at.value)), CurrentSite(h, at.value), t) else None;
    SiteMeans(h.assignments, t);
    ScopeMeans(h.changes, RobotScope, h.currentRobot, t);
    ScopeMeans(h.changes, GlobalScope, h.currentGlobal, t);
    if at.Some? { ScopeMeans(h.changes, SiteScope(at.value), CurrentSite(h, at.value), t); }
    NamesOneOrNone(robot);
    NamesOneOrNone(site);
    NamesOneOrNone(global);
  }

  /** An instant at which some input of the resolution changes. */
  predicate IsBreak(h: History, t: Time) {
    || (exists i | 0 <= i < |h.changes| :: h.changes[i].ts == t)
    || (exists i | 0 <= i < |h.assignments| :: h.assignments[i].lower == Some(t) || h.assignments[i].upper == Some(t))
  }

  ghost predicate NoBreakIn(h: History, t: Time, u: Time) {
    forall b: Time | t < b <= u :: !IsBreak(h, b)
  }

  lemma {:induction false} FoldsSteady(s: seq<Change>, t: Time, u: Time)
    requires t <= u && forall c | c in s :: c.ts <= t || u < c.ts
    ensures LatestAt(s, t) == LatestAt(s, u) && NextAfter(s, t) == NextAfter(s, u)
  {
    if s != [] {
      FoldsSteady(Front(s), t, u);
      assert Last(s) in s;
    }
  }

  lemma {:induction false} OfSubset(changes: seq<Change>, scope: Scope)
    ensures forall c | c in Of(changes, scope) :: c in changes
  {
    if changes != [] {
      OfSubset(Front(changes), scope);
    }
  }

  lemma LayerSteady(h: History, scope: Scope, current: Value, t: Time, u: Time)
    requires t <= u && NoBreakIn(h, t, u)
    ensures LayerAt(Of(h.changes, scope), current, t) == LayerAt(Of(h.changes, scope), current, u)
  {
    OfSubset(h.changes, scope);
    forall c | c in Of(h.changes, scope) ensures c.ts <= t || u < c.ts {
      assert c in h.changes;
      var i :| 0 <= i < |h.changes| && h.changes[i] == c;
      if t < c.ts <= u {
        assert IsBreak(h, h.changes[i].ts);
      }
    }
    FoldsSteady(Of(h.changes, scope), t, u);
  }

  lemma {:induction false} SiteSteady(s: seq<Assignment>, t: Time, u: Time)
    requires t <= u
    requires forall a | a in s ::
               && (a.lower.Some? ==> a.lower.value <= t || u < a.lower.value)
               && (a.upper.Some? ==> a.upper.value <= t || u < a.upper.value)
    ensures SiteAt(s, t) == SiteAt(s, u)
  {
    if s != [] {
      assert s[0] in s;
      SiteSteady(s[1..], t, u);
    }
  }

  /** Between two breaks the resolution is constant. */
  lemma EffectSteady(h: History, t: Time, u: Time)
    requires t <= u && NoBreakIn(h, t, u)
    ensures EffectiveAt(h, t) == EffectiveAt(h, u)
  {
    forall a | a in h.assignments
      ensures a.lower.Some? ==> a.lower.value <= t || u < a.lower.value
      ensures a.upper.Some? ==> a.upper.value <= t || u < a.upper.value
    {
      var i :| 0 <= i < |h.assignments| && h.assignments[i] == a;
      if a.lower.Some? && t < a.lower.value <= u {
        assert h.assignments[i].lower == Some(a.lower.value);
        assert IsBreak(h, a.lower.value);
      }
      if a.upper.Some? && t < a.upper.value <= u {
        assert h.assignments[i].upper == Some(a.upper.value);
        assert IsBreak(h, a.upper.value);
      }
    }
    SiteSteady(h.assignments, t, u);
    LayerSteady(h, RobotScope, h.currentRobot, t, u);
    LayerSteady(h, GlobalScope, h.currentGlobal, t, u);
    var site := SiteAt(h.assignments, t);
    if site.Some? {
      LayerSteady(h, SiteScope(site.value), CurrentSite(h, site.value), t, u);
    }
  }
}

/** level_segments and not_recorded. */
module LevelSegments {
  import opened Common
  import opened LevelHistory

  datatype Segment = Segment(from: Time, to: Time, effect: Effect) {
    predicate Covers(t: Time) {
      from <= t < to
    }
  }

  /** The level of the run's own row, where it overrides the resolution and differs from it. */
  function WithRun(run: Value, e: Effect): Effect {
    var l := ParseLevel(run);
    if l.Some? && l.value != e.level then Effect(l.value, FromRun, e.site, Some(e.level)) else e
  }

  /** What the timeline shows at t in [start, end): with `override` the run's level throughout, else the
      run's level up to the first break and the resolution from there on. */
  ghost function Shown(h: History, run: Value, override: bool, start: Time, t: Time): Effect {
    if override || NoBreakIn(h, start, t) then WithRun(run, EffectiveAt(h, t)) else EffectiveAt(h, t)
  }

  /** The run's level applies with the override, and else while no change and no assignment boundary has come since the
      start. */
  ghost predicate RunApplies(h: History, override: bool, start: Time, t: Time) {
    || override
    || (&& (forall i | 0 <= i < |h.changes| :: h.changes[i].ts <= start || t < h.changes[i].ts)
        && (forall i, b: Time | 0 <= i < |h.assignments| && h.assignments[i].lower == Some(b) :: b <= start || t < b)
        && (forall i, b: Time | 0 <= i < |h.assignments| && h.assignments[i].upper == Some(b) :: b <= start || t < b))
  }

  lemma BreaksMean(h: History, start: Time, t: Time)
    ensures RunApplies(h, false, start, t) <==> NoBreakIn(h, start, t)
  {
    if NoBreakIn(h, start, t) {
      forall i | 0 <= i < |h.changes| ensures h.changes[i].ts <= start || t < h.changes[i].ts {
        assert IsBreak(h, h.changes[i].ts);
      }
      forall i, b: Time | 0 <= i < |h.assignments|
                          && (h.assignments[i].lower == Some(b) || h.assignments[i].upper == Some(b))
        ensures b <= start || t < b
      {
        assert IsBreak(h, b);
      }
    }
  }

  /** What is shown at t: the level the run names, where it applies, with the resolved one beside it if that differs;
      the resolution of the three layers otherwise. */
  lemma ShownMeans(h: History, run: Value, override: bool, start: Time, t: Time)
    returns (robot: Value, site: Value, global: Value, e: Effect)
    ensures LayersAre(h, t, robot, site, global, e.site) && Resolves(robot, site, global, e) && e.reconstructed.None?
    ensures var shown := Shown(h, run, override, start, t);
            && (!RunApplies(h, override, start, t) || NamesNone(run) ==> shown == e)
            && (forall l | RunApplies(h, override, start, t) && NamesLevel(run, l) ::
                  shown == if l == e.level then e else Effect(l, FromRun, e.site, Some(e.level)))
  {
    e := EffectiveAt(h, t);
    robot, site, global := ResolutionMeans(h, t);
    BreaksMean(h, start, t);
    NamesOneOrNone(run);
  }

  ghost predicate StrictlyIncreasing(s: seq<Time>) {
    forall i, j | 0 <= i < j < |s| :: s[i] < s[j]
  }

  method Least(points: set<Time>) returns (least: Time)
    requires points != {}
    ensures least in points && forall p | p in points :: least <= p
  {
    least :| least in points;
    var rest := points - {least};
    while rest != {}
      invariant rest <= points && least in points
      invariant forall p | p in points :: p in rest || least <= p
      decreases |rest|
    {
      var q :| q in rest;
      if q < least {
        least := q;
      }
      rest := rest - {q};
    }
  }

  /** sorted() of a set of instants. */
  method SortSet(points: set<Time>) returns (s: seq<Time>)
    ensures StrictlyIncreasing(s)
    ensures forall p: Time :: p in s <==> p in points
  {
    var left := points;
    s := [];
    while left != {}
      invariant left <= points && StrictlyIncreasing(s)
      invariant forall p: Time :: p in points <==> p in left || p in s
      invariant forall i, q | 0 <= i < |s| && q in left :: s[i] < q
      decreases |left|
    {
      var least := Least(left);
      left := left - {least};
      s := s + [least];
    }
  }

  /** start, and every break strictly inside (start, end). */
  method Points(h: History, start: Time, end: Time) returns (points: set<Time>)
    ensures forall p: Time :: p in points <==> p == start || (start < p < end && IsBreak(h, p))
  {
    points := {start};
    for n := 0 to |h.changes|
      invariant forall p: Time :: p in points <==>
                  p == start || (start < p < end && exists i | 0 <= i < n :: h.changes[i].ts == p)
    {
      var ts := h.changes[n].ts;
      if start < ts < end {
        points := points + {ts};
      }
    }
    ghost var inner := points;
    for n := 0 to |h.assignments|
      invariant forall p: Time :: p in points <==>
                  p in inner || (start < p < end && exists i | 0 <= i < n ::
                                   h.assignments[i].lower == Some(p) || h.assignments[i].upper == Some(p))
    {
      var a := h.assignments[n];
      if a.lower.Some? && start < a.lower.value < end {
        points := points + {a.lower.value};
      }
      if a.upper.Some? && start < a.upper.value < end {
        points := points + {a.upper.value};
      }
    }
  }

  method Evaluate(h: History, robot: Layer, global: Layer, t: Time) returns (e: Effect)
    requires robot.Valid() && robot.given == Of(h.changes, RobotScope) && robot.current == h.currentRobot
    requires global.Valid() && global.given == Of(h.changes, GlobalScope) && global.current == h.currentGlobal
    ensures e == EffectiveAt(h, t)
  {
    var site := SiteAt(h.assignments, t);
    var siteValue: Value := None;
    if site.Some? {
      var layer := new Layer(Of(h.changes, SiteScope(site.value)), CurrentSite(h, site.value));
      siteValue := layer.At(t);
    }
    var robotValue := robot.At(t);
    var globalValue := global.At(t);
    var (level, source) := ResolveWithSource(robotValue, siteValue, globalValue);
    e := Effect(level, source, site, None);
  }

  ghost predicate Abut(a: Segment, b: Segment) {
    a.from < a.to == b.from && a.effect != b.effect
  }

  /** The segments tile [start, end) in order, and neighbours differ. */
  ghost predicate Tiles(segs: seq<Segment>, start: Time, end: Time) {
    && segs != [] && segs[0].from == start && Last(segs).to == end
    && (forall i | 0 <= i < |segs| - 1 :: Abut(segs[i], segs[i + 1]))
    && (start < end ==> Last(segs).from < end)
  }

  /** Each segment shows what holds at every instant of it below `upto`. */
  ghost predicate ShowsBelow(segs: seq<Segment>, h: History, run: Value, override: bool, start: Time, upto: Time) {
    forall i, t: Time | 0 <= i < |segs| && segs[i].Covers(t) && t < upto ::
      segs[i].effect == Shown(h, run, override, start, t)
  }

  /** The instants the sweep visits: start, then the breaks inside (start, end). */
  ghost predicate AreStops(ordered: seq<Time>, h: History, start: Time, end: Time) {
    && StrictlyIncreasing(ordered)
    && ordered != [] && ordered[0] == start
    && (forall i | 0 < i < |ordered| :: start < ordered[i] < end && IsBreak(h, ordered[i]))
    && (forall b: Time | start < b < end && IsBreak(h, b) :: b in ordered)
  }

  ghost function Until(ordered: seq<Time>, n: nat, end: Time): Time {
    if n < |ordered| then ordered[n] else end
  }

  lemma SortedStops(h: History, start: Time, end: Time, points: set<Time>, ordered: seq<Time>)
    requires forall p: Time :: p in points <==> p == start || (start < p < end && IsBreak(h, p))
    requires StrictlyIncreasing(ordered) && forall p: Time :: p in ordered <==> p in points
    ensures AreStops(ordered, h, start, end)
  {
    assert start in points;
    var k :| 0 <= k < |ordered| && ordered[k] == start;
    assert ordered[0] in points;
    forall i | 0 < i < |ordered| ensures start < ordered[i] < end && IsBreak(h, ordered[i]) {
      assert ordered[i] in points && ordered[0] < ordered[i];
    }
  }

  /** Up to the next stop nothing changes. */
  lemma CellSteady(h: History, run: Value, override: bool, start: Time, end: Time, ordered: seq<Time>, n: nat, t: Time)
    requires AreStops(ordered, h, start, end) && n < |ordered|
    requires ordered[n] <= t < end && t < Until(ordered, n + 1, end)
    ensures Shown(h, run, override, start, t) == Shown(h, run, override, start, ordered[n])
    ensures Shown(h, run, override, start, ordered[n])
         == if n == 0 || override then WithRun(run, EffectiveAt(h, ordered[n])) else EffectiveAt(h, ordered[n])
  {
    forall b: Time | ordered[n] < b <= t ensures !IsBreak(h, b) {
      if IsBreak(h, b) {
        assert start <= ordered[n];
        var m :| 0 <= m < |ordered| && ordered[m] == b;
      }
    }
    EffectSteady(h, ordered[n], t);
    if n > 0 {
      assert !NoBreakIn(h, start, ordered[n]) && !NoBreakIn(h, start, t);
    }
  }

  lemma ShowsOneMore(segs: seq<Segment>, h: History, run: Value, override: bool, start: Time, end: Time,
                     ordered: seq<Time>, n: nat)
    requires AreStops(ordered, h, start, end) && n < |ordered|
    requires ShowsBelow(segs, h, run, override, start, ordered[n])
    requires forall i | 0 <= i < |segs| - 1 :: segs[i].to <= ordered[n]
    requires segs != [] && Last(segs).to == end
    requires Last(segs).effect == if n == 0 || override then WithRun(run, EffectiveAt(h, ordered[n]))
                                  else EffectiveAt(h, ordered[n])
    ensures ShowsBelow(segs, h, run, override, start, Until(ordered, n + 1, end))
    ensures Last(segs).effect == Shown(h, run, override, start, ordered[n]) || end <= start
  {
    forall i, t: Time | 0 <= i < |segs| && segs[i].Covers(t) && t < Until(ordered, n + 1, end)
      ensures segs[i].effect == Shown(h, run, override, start, t)
    {
      if ordered[n] <= t {
        CellSteady(h, run, override, start, end, ordered, n, t);
      }
    }
    if start < end {
      CellSteady(h, run, override, start, end, ordered, n, ordered[n]);
    }
  }

  function Closed(segs: seq<Segment>, t: Time): seq<Segment> {
    if segs == [] then [] else Front(segs) + [Last(segs).(to := t)]
  }

  /** Ending the last segment at t and starting another one there keeps the tiling. */
  lemma TilesAppend(segs: seq<Segment>, start: Time, end: Time, t: Time, e: Effect)
    requires Tiles(segs, start, end) && Last(segs).from < t < end && Last(segs).effect != e
    ensures Tiles(Closed(segs, t) + [Segment(t, end, e)], start, end)
  {
    var segs' := Closed(segs, t) + [Segment(t, end, e)];
    forall i | 0 <= i < |segs'| - 1 ensures Abut(segs'[i], segs'[i + 1]) {
      if i + 1 < |segs| {
        assert Abut(segs[i], segs[i + 1]);
      }
    }
  }

  lemma ShowsAppend(segs: seq<Segment>, h: History, run: Value, override: bool, start: Time, end: Time,
                    t: Time, e: Effect)
    requires segs != [] ==> Tiles(segs, start, end) && t <= end
    requires ShowsBelow(segs, h, run, override, start, t)
    ensures ShowsBelow(Closed(segs, t) + [Segment(t, end, e)], h, run, override, start, t)
  {
    var segs' := Closed(segs, t) + [Segment(t, end, e)];
    forall i, u: Time | 0 <= i < |segs'| && segs'[i].Covers(u) && u < t
      ensures segs'[i].effect == Shown(h, run, override, start, u)
    {
      assert i < |segs| && segs[i].effect == segs'[i].effect;
      assert segs[i].Covers(u);
    }
  }

  /** One stop of the sweep: nothing changes, or the last segment ends here and another one starts. */
  function Placed(segs: seq<Segment>, t: Time, end: Time, e: Effect): seq<Segment> {
    if segs != [] && Last(segs).effect == e then segs else Closed(segs, t) + [Segment(t, end, e)]
  }

  function StopEffect(h: History, run: Value, override: bool, ordered: seq<Time>, n: nat): Effect
    requires n < |ordered|
  {
    if n == 0 || override then WithRun(run, EffectiveAt(h, ordered[n])) else EffectiveAt(h, ordered[n])
  }

  /** What the sweep has established after n > 0 stops. */
  ghost predicate Swept(segs: seq<Segment>, h: History, run: Value, override: bool, start: Time, end: Time,
                        ordered: seq<Time>, n: nat)
    requires 0 < n <= |ordered|
  {
    && Tiles(segs, start, end) && Last(segs).from <= ordered[n - 1]
    && ShowsBelow(segs, h, run, override, start, Until(ordered, n, end))
    && segs[0].effect == WithRun(run, EffectiveAt(h, start))
    && (override && ParseLevel(run).Some? ==>
          forall i | 0 <= i < |segs| :: segs[i].effect.level == ParseLevel(run).value)
  }

  lemma SweptFirst(h: History, run: Value, override: bool, start: Time, end: Time, ordered: seq<Time>)
    requires AreStops(ordered, h, start, end)
    ensures Swept(Placed([], start, end, StopEffect(h, run, override, ordered, 0)),
                  h, run, override, start, end, ordered, 1)
  {
    var e := StopEffect(h, run, override, ordered, 0);
    var segs := Placed([], start, end, e);
    assert segs == [Segment(start, end, e)];
    ShowsOneMore(segs, h, run, override, start, end, ordered, 0);
  }

  lemma SweptNext(segs: seq<Segment>, h: History, run: Value, override: bool, start: Time, end: Time,
                  ordered: seq<Time>, n: nat)
    requires AreStops(ordered, h, start, end) && 0 < n < |ordered|
    requires Swept(segs, h, run, override, start, end, ordered, n)
    ensures Swept(Placed(segs, ordered[n], end, StopEffect(h, run, override, ordered, n)),
                  h, run, override, start, end, ordered, n + 1)
  {
    var t, e := ordered[n], StopEffect(h, run, override, ordered, n);
    var segs' := Placed(segs, t, end, e);
    assert ordered[n - 1] < t < end;
    if Last(segs).effect != e {
      ShowsAppend(segs, h, run, override, start, end, t, e);
      TilesAppend(segs, start, end, t, e);
    }
    EarlierEnd(segs', start, end, t);
    ShowsOneMore(segs', h, run, override, start, end, ordered, n);
  }

  method Segments(h: History, start: Time, end: Time, run: Value, override: bool) returns (segs: seq<Segment>)
    ensures Tiles(segs, start, end)
    ensures ShowsBelow(segs, h, run, override, start, end)
    ensures segs[0].effect == WithRun(run, EffectiveAt(h, start))
    ensures override && ParseLevel(run).Some? ==>
              forall i | 0 <= i < |segs| :: segs[i].effect.level == ParseLevel(run).value
  {
    var robot := new Layer(Of(h.changes, RobotScope), h.currentRobot);
    var global := new Layer(Of(h.changes, GlobalScope), h.currentGlobal);
    var points := Points(h, start, end);
    var ordered := SortSet(points);
    SortedStops(h, start, end, points, ordered);
    segs := [];
    for n := 0 to |ordered|
      invariant n == 0 ==> segs == []
      invariant n > 0 ==> Swept(segs, h, run, override, start, end, ordered, n)
    {
      if n == 0 {
        SweptFirst(h, run, override, start, end, ordered);
      } else {
        SweptNext(segs, h, run, override, start, end, ordered, n);
      }
      var e := StateAt(h, robot, global, run, override, ordered, n);
      segs := Place(segs, ordered[n], end, e);
    }
  }

  /** What one stop of the sweep starts. */
  method StateAt(h: History, robot: Layer, global: Layer, run: Value, override: bool, ordered: seq<Time>, n: nat)
    returns (e: Effect)
    requires robot.Valid() && robot.given == Of(h.changes, RobotScope) && robot.current == h.currentRobot
    requires global.Valid() && global.given == Of(h.changes, GlobalScope) && global.current == h.currentGlobal
    requires n < |ordered|
    ensures e == StopEffect(h, run, override, ordered, n)
  {
    e := Evaluate(h, robot, global, ordered[n]);
    if n == 0 || override {
      e := WithRun(run, e);
    }
  }

  /** Skip an equal state, or end the last segment at t and append another. */
  method Place(before: seq<Segment>, t: Time, end: Time, e: Effect) returns (segs: seq<Segment>)
    ensures segs == Placed(before, t, end, e)
  {
    segs := before;
    if segs == [] || Last(segs).effect != e {
      if segs != [] {
        segs := segs[|segs| - 1 := Last(segs).(to := t)];
      }
      segs := segs + [Segment(t, end, e)];
    }
  }

  /** All segments but the last end at or before the last one's start. */
  lemma {:induction false} EarlierEnd(segs: seq<Segment>, start: Time, end: Time, t: Time)
    requires Tiles(segs, start, end) && Last(segs).from <= t
    ensures forall i | 0 <= i < |segs| - 1 :: segs[i].to <= t
  {
    var k := |segs| - 1;
    while k > 0
      invariant 0 <= k < |segs| && segs[k].from <= t
      invariant forall i | k <= i < |segs| - 1 :: segs[i].to <= t
    {
      assert Abut(segs[k - 1], segs[k - 1 + 1]);
      k := k - 1;
    }
  }

  /** Tiling leaves no instant of [start, end) out. */
  lemma TilesCover(segs: seq<Segment>, start: Time, end: Time, t: Time) returns (i: nat)
    requires Tiles(segs, start, end) && start <= t < end
    ensures i < |segs| && segs[i].Covers(t)
  {
    i := 0;
    while segs[i].to <= t
      invariant i < |segs| && segs[i].from <= t
      decreases |segs| - i
    {
      if i + 1 < |segs| {
        assert Abut(segs[i], segs[i + 1]);
      }
      i := i + 1;
    }
  }

  lemma {:induction false} SegmentsProper(segs: seq<Segment>, start: Time, end: Time)
    requires start < end && Tiles(segs, start, end)
    ensures forall i | 0 <= i < |segs| :: segs[i].from < segs[i].to <= end
    decreases |segs|
  {
    if |segs| > 1 {
      assert Abut(segs[0], segs[0 + 1]);
      TailTiles(segs, start, end);
      if segs[1].from < end {
        SegmentsProper(segs[1..], segs[1].from, end);
      } else {
        StartBeforeEnd(segs[1..], segs[1].from, end);
      }
      forall i | 0 <= i < |segs| ensures segs[i].from < segs[i].to <= end {
        assert i > 0 ==> segs[i] == segs[1..][i - 1];
      }
    }
  }

  lemma TailTiles(segs: seq<Segment>, start: Time, end: Time)
    requires start < end && Tiles(segs, start, end) && |segs| > 1
    ensures Tiles(segs[1..], segs[0].to, end)
  {
    assert Abut(segs[0], segs[0 + 1]);
    forall i | 0 <= i < |segs[1..]| - 1 ensures Abut(segs[1..][i], segs[1..][i + 1]) {
      assert Abut(segs[i + 1], segs[i + 2]);
    }
  }

  lemma {:induction false} StartBeforeEnd(segs: seq<Segment>, start: Time, end: Time)
    requires segs != [] && segs[0].from == start && Last(segs).from < end
    requires forall i | 0 <= i < |segs| - 1 :: Abut(segs[i], segs[i + 1])
    ensures start < end
  {
    if |segs| > 1 {
      assert Abut(segs[0], segs[0 + 1]);
      StartBeforeEnd(segs[1..], segs[1].from, end);
    }
  }

  ghost predicate ShowSame(a: seq<Segment>, b: seq<Segment>) {
    forall i, j, t: Time | 0 <= i < |a| && 0 <= j < |b| && a[i].Covers(t) && b[j].Covers(t) ::
      a[i].effect == b[j].effect
  }

  lemma FirstNotShorter(a: seq<Segment>, b: seq<Segment>, start: Time, end: Time)
    requires start < end && Tiles(a, start, end) && Tiles(b, start, end) && ShowSame(a, b)
    ensures a[0].effect == b[0].effect && a[0].to >= b[0].to
  {
    SegmentsProper(a, start, end);
    SegmentsProper(b, start, end);
    assert a[0].Covers(start) && b[0].Covers(start);
    if a[0].to < b[0].to {
      assert |a| > 1 && Abut(a[0], a[0 + 1]);
      assert a[1].Covers(a[0].to) && b[0].Covers(a[0].to);
    }
  }

  /** The segments are determined by what they show: two tilings whose neighbours differ and that show
      the same at every instant are equal. */
  lemma {:induction false} SegmentsUnique(a: seq<Segment>, b: seq<Segment>, start: Time, end: Time)
    requires start < end && Tiles(a, start, end) && Tiles(b, start, end) && ShowSame(a, b)
    ensures a == b
    decreases |a|
  {
    FirstNotShorter(a, b, start, end);
    FirstNotShorter(b, a, start, end);
    SegmentsProper(a, start, end);
    SegmentsProper(b, start, end);
    assert a[0] == b[0];
    assert |a| == 1 <==> a[0].to == end by { if |a| > 1 { assert Abut(a[0], a[0 + 1]); } }
    assert |b| == 1 <==> b[0].to == end by { if |b| > 1 { assert Abut(b[0], b[0 + 1]); } }
    if |a| > 1 {
      TailTiles(a, start, end);
      TailTiles(b, start, end);
      SegmentsUnique(a[1..], b[1..], a[0].to, end);
    }
    assert a == [a[0]] + a[1..] && b == [b[0]] + b[1..];
  }

  // --- not_recorded --------------------------------------------------------------------------------

  datatype Kind = Events | TimeSeries | TrackData

  function Missing(level: Level): seq<Kind> {
    match level
    case Full => []
    case Track => [TimeSeries]
    case EventsOnly => [TimeSeries, TrackData]
    case Off => [Events, TimeSeries, TrackData]
  }

  /** The time series is missing below `full`, the track below `track`, events only when `off`. */
  lemma MissingMeans(level: Level, k: Kind)
    ensures k in Missing(level) <==>
              match k
              case TimeSeries => level != Full
              case TrackData => level == EventsOnly || level == Off
              case Events => level == Off
  {
  }

  datatype Gap = Gap(from: Time, to: Time, level: Level, missing: seq<Kind>) {
    predicate Covers(t: Time) {
      from <= t < to
    }
  }

  /** Every gap is an interval of one level that misses something; touching neighbours differ in level. */
  ghost predicate GapsProper(gaps: seq<Gap>) {
    && (forall i | 0 <= i < |gaps| ::
          gaps[i].from <= gaps[i].to && gaps[i].missing == Missing(gaps[i].level) != [])
    && (forall i | 0 <= i < |gaps| - 1 :: !(gaps[i].to == gaps[i + 1].from && gaps[i].level == gaps[i + 1].level))
  }

  ghost predicate InGap(gaps: seq<Gap>, t: Time, level: Level) {
    exists i | 0 <= i < |gaps| :: gaps[i].Covers(t) && gaps[i].level == level
  }

  ghost predicate InSegment(segs: seq<Segment>, t: Time, level: Level) {
    exists i | 0 <= i < |segs| :: segs[i].Covers(t) && segs[i].effect.level == level
  }

  ghost predicate GapsOf(gaps: seq<Gap>, segs: seq<Segment>) {
    forall t: Time, level | Missing(level) != [] :: InGap(gaps, t, level) <==> InSegment(segs, t, level)
  }

  lemma InSegmentStep(segs: seq<Segment>, seg: Segment, t: Time, level: Level)
    ensures InSegment(segs + [seg], t, level)
       <==> InSegment(segs, t, level) || (seg.Covers(t) && seg.effect.level == level)
  {
    var s := segs + [seg];
    if InSegment(segs, t, level) {
      var i :| 0 <= i < |segs| && segs[i].Covers(t) && segs[i].effect.level == level;
      assert s[i] == segs[i];
    }
    if seg.Covers(t) && seg.effect.level == level {
      assert s[|segs|] == seg;
    }
  }

  lemma InGapStep(gaps: seq<Gap>, gap: Gap, t: Time, level: Level)
    ensures InGap(gaps + [gap], t, level) <==> InGap(gaps, t, level) || (gap.Covers(t) && gap.level == level)
  {
    var s := gaps + [gap];
    if InGap(gaps, t, level) {
      var i :| 0 <= i < |gaps| && gaps[i].Covers(t) && gaps[i].level == level;
      assert s[i] == gaps[i];
    }
    if gap.Covers(t) && gap.level == level {
      assert s[|gaps|] == gap;
    }
  }

  /** The instants at which some data kind was not stored, with the level that did not store it. */
  method NotRecorded(segs: seq<Segment>) returns (gaps: seq<Gap>)
    requires forall i | 0 <= i < |segs| :: segs[i].from <= segs[i].to
    ensures GapsProper(gaps)
    ensures GapsOf(gaps, segs)
  {
    gaps := [];
    for n := 0 to |segs|
      invariant GapsProper(gaps)
      invariant GapsOf(gaps, segs[..n])
    {
      assert segs[..n + 1] == segs[..n] + [segs[n]];
      gaps := AddGap(gaps, segs[..n], segs[n]);
    }
    assert segs[..|segs|] == segs;
  }

  /** One segment of the loop: extend the last gap, or append one, if the level misses something. */
  method AddGap(before: seq<Gap>, ghost segs: seq<Segment>, seg: Segment) returns (gaps: seq<Gap>)
    requires GapsProper(before) && GapsOf(before, segs) && seg.from <= seg.to
    ensures GapsProper(gaps) && GapsOf(gaps, segs + [seg])
  {
    gaps := before;
    var missing := Missing(seg.effect.level);
    forall t: Time, level ensures InSegment(segs + [seg], t, level)
                 <==> InSegment(segs, t, level) || (seg.Covers(t) && seg.effect.level == level) {
      InSegmentStep(segs, seg, t, level);
    }
    if missing != [] {
      if gaps != [] && Last(gaps).level == seg.effect.level && Last(gaps).to == seg.from {
        gaps := gaps[|gaps| - 1 := Last(gaps).(to := seg.to)];
        ExtendedGap(before, gaps, seg);
      } else {
        gaps := gaps + [Gap(seg.from, seg.to, seg.effect.level, missing)];
        forall t: Time, level ensures InGap(gaps, t, level)
                     <==> InGap(before, t, level) || (seg.Covers(t) && seg.effect.level == level) {
          InGapStep(before, Gap(seg.from, seg.to, seg.effect.level, missing), t, level);
        }
      }
    }
  }

  lemma ExtendedGap(before: seq<Gap>, gaps: seq<Gap>, seg: Segment)
    requires GapsProper(before) && before != []
    requires Last(before).level == seg.effect.level && Last(before).to == seg.from <= seg.to
    requires gaps == before[|before| - 1 := Last(before).(to := seg.to)]
    ensures GapsProper(gaps)
    ensures forall t: Time, level :: InGap(gaps, t, level)
              <==> InGap(before, t, level) || (seg.Covers(t) && seg.effect.level == level)
  {
    assert gaps == Front(before) + [Last(gaps)] && before == Front(before) + [Last(before)];
    forall t: Time, level ensures InGap(gaps, t, level)
              <==> InGap(before, t, level) || (seg.Covers(t) && seg.effect.level == level) {
      InGapStep(Front(before), Last(gaps), t, level);
      InGapStep(Front(before), Last(before), t, level);
    }
    forall i | 0 <= i < |gaps| - 1 ensures !(gaps[i].to == gaps[i + 1].from && gaps[i].level == gaps[i + 1].level) {
      assert !(before[i].to == before[i + 1].from && before[i].level == before[i + 1].level);
    }
  }

  /** The timeline's gaps: at every instant of [start, end) something is missing exactly when the level
      shown there misses some data kind, and the gap names that level. */
  method NotRecordedIn(h: History, start: Time, end: Time, run: Value, override: bool) returns (gaps: seq<Gap>)
    requires start < end
    ensures GapsProper(gaps)
    ensures forall t: Time, level | start <= t < end && Missing(level) != [] ::
              InGap(gaps, t, level) <==> Shown(h, run, override, start, t).level == level
  {
    var segs := Segments(h, start, end, run, override);
    SegmentsProper(segs, start, end);
    gaps := NotRecorded(segs);
    forall t: Time, level | start <= t < end && Missing(level) != []
      ensures InGap(gaps, t, level) <==> Shown(h, run, override, start, t).level == level
    {
      var i := TilesCover(segs, start, end, t);
      assert InSegment(segs, t, level) <==> Shown(h, run, override, start, t).level == level;
    }
  }
}
