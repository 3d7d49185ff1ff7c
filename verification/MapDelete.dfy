/** The map-delete saga (packages/api/map_delete.py): a marked map is removed from every store under the
    scene worker's lock, with counted failures, uncounted waiting, and one row that goes last. What the
    stores, the locks and the database answer is arbitrary; other workers may mark the map at any await. */
module DeleteTrace {
  import opened Common

  datatype Store = SceneGraph | GraphDb | ImageDb

  /** Whether the map has a scene graph; the probe may raise. */
  datatype Answer = Yes | No | Raises

  /** What a runner does to the outside, in order. A pass begins with the probe, if one is wired. */
  datatype Act =
    | PassBegan(probe: Option<Answer>)
    | SceneLocked
    | SceneUnlocked
    | Dropped(store: Store, ok: bool)
    | RowRemoved
    | WaitNoted
    | FailureNoted(total: nat)

  /** The pass that is under way: what the probe said, whether the scene lock is held, what was dropped. */
  datatype Pass = NoPass | Pass(probe: Option<Answer>, locked: bool, dropped: seq<Store>, allOk: bool)

  /** The map has a scene graph, or may have one. */
  predicate NeedsLock(probe: Option<Answer>) {
    probe == Some(Yes) || probe == Some(Raises)
  }

  function Advance(p: Pass, act: Act): Pass {
    match act
    case PassBegan(a) => Pass(a, false, [], true)
    case SceneLocked => if p.Pass? then p.(locked := true) else NoPass
    case SceneUnlocked => if p.Pass? then p.(locked := false) else NoPass
    case Dropped(s, ok) => if p.Pass? then p.(dropped := p.dropped + [s], allOk := p.allOk && ok) else NoPass
    case _ => NoPass
  }

  function Scan(trace: seq<Act>): Pass {
    if trace == [] then NoPass else Advance(Scan(Front(trace)), Last(trace))
  }

  /** The stores a pass must empty: the scene graph first where there is one. */
  function StoresOf(probe: Option<Answer>, dropWired: bool): seq<Store> {
    if NeedsLock(probe) && dropWired then [SceneGraph, GraphDb, ImageDb] else [GraphDb, ImageDb]
  }

  /** Nothing is dropped without the lock on a map with a scene graph; the row goes only straight after a
      pass in which every store delete succeeded. */
  predicate LegalAct(p: Pass, act: Act, dropWired: bool) {
    match act
    case Dropped(_, _) => p.Pass? && (NeedsLock(p.probe) ==> p.locked)
    case RowRemoved => p.Pass? && p.allOk && p.dropped == StoresOf(p.probe, dropWired)
    case _ => true
  }

  ghost predicate Legal(trace: seq<Act>, dropWired: bool) {
    forall n {:trigger LegalAt(trace, dropWired, n)} | 0 <= n < |trace| :: LegalAt(trace, dropWired, n)
  }

  ghost predicate LegalAt(trace: seq<Act>, dropWired: bool, n: nat)
    requires n < |trace|
  {
    LegalAct(Scan(trace[..n]), trace[n], dropWired)
  }

  lemma LegalAppend(trace: seq<Act>, act: Act, dropWired: bool)
    requires Legal(trace, dropWired) && LegalAct(Scan(trace), act, dropWired)
    ensures Legal(trace + [act], dropWired)
    ensures Scan(trace + [act]) == Advance(Scan(trace), act)
    ensures FailuresIn(trace + [act]) == FailuresIn(trace) + (if act.FailureNoted? then 1 else 0)
  {
    var t := trace + [act];
    assert Front(t) == trace;
    forall n | 0 <= n < |t| ensures LegalAt(t, dropWired, n) {
      assert t[..n] == trace[..n];
      assert trace[..|trace|] == trace;
      assert n < |trace| ==> LegalAt(trace, dropWired, n);
    }
  }

  ghost predicate DroppedBetween(trace: seq<Act>, m: nat, s: Store) {
    exists i | m < i < |trace| :: trace[i].Dropped? && trace[i].store == s
  }

  lemma DroppedBetweenStep(trace: seq<Act>, m: nat, s: Store)
    requires trace != [] && m < |trace| - 1
    ensures DroppedBetween(trace, m, s)
       <==> DroppedBetween(Front(trace), m, s) || (Last(trace).Dropped? && Last(trace).store == s)
  {
    if DroppedBetween(Front(trace), m, s) {
      var i :| m < i < |trace| - 1 && Front(trace)[i].Dropped? && Front(trace)[i].store == s;
      assert trace[i] == Front(trace)[i];
    }
    if Last(trace).Dropped? && Last(trace).store == s {
      assert trace[|trace| - 1].Dropped?;
    }
    if DroppedBetween(trace, m, s) {
      var i :| m < i < |trace| && trace[i].Dropped? && trace[i].store == s;
      assert i < |trace| - 1 ==> Front(trace)[i] == trace[i];
    }
  }

  /** The scene lock was taken after m and not given back since. */
  ghost predicate HeldSince(trace: seq<Act>, m: nat) {
    exists l | m < l < |trace| :: trace[l].SceneLocked? && forall i | l < i < |trace| :: !trace[i].SceneUnlocked?
  }

  lemma HeldStep(trace: seq<Act>, m: nat)
    requires trace != [] && m < |trace| - 1
    ensures HeldSince(trace, m) <==>
              Last(trace).SceneLocked? || (HeldSince(Front(trace), m) && !Last(trace).SceneUnlocked?)
  {
    assert forall i | 0 <= i < |trace| - 1 :: Front(trace)[i] == trace[i];
    if Last(trace).SceneLocked? {
      assert trace[|trace| - 1].SceneLocked?;
    }
    if HeldSince(Front(trace), m) {
      var l :| m < l < |trace| - 1 && Front(trace)[l].SceneLocked?
               && forall i | l < i < |trace| - 1 :: !Front(trace)[i].SceneUnlocked?;
      assert trace[l].SceneLocked?;
    }
    if HeldSince(trace, m) && !Last(trace).SceneLocked? {
      var l :| m < l < |trace| && trace[l].SceneLocked? && forall i | l < i < |trace| :: !trace[i].SceneUnlocked?;
      assert Front(trace)[l].SceneLocked?;
      assert !trace[|trace| - 1].SceneUnlocked?;
    }
  }

  /** What an open pass stands for: since its beginning nothing but locking, unlocking and drops happened. */
  lemma {:induction false} PassMeans(trace: seq<Act>) returns (m: nat)
    requires Scan(trace).Pass?
    ensures m < |trace| && trace[m] == PassBegan(Scan(trace).probe)
    ensures forall i | m < i < |trace| :: trace[i].SceneLocked? || trace[i].SceneUnlocked? || trace[i].Dropped?
    ensures Scan(trace).allOk ==> forall i | m < i < |trace| && trace[i].Dropped? :: trace[i].ok
    ensures forall s :: s in Scan(trace).dropped <==> DroppedBetween(trace, m, s)
    ensures Scan(trace).locked <==> HeldSince(trace, m)
  {
    if Last(trace).PassBegan? {
      m := |trace| - 1;
    } else {
      m := PassMeans(Front(trace));
      assert forall i | 0 <= i < |trace| - 1 :: Front(trace)[i] == trace[i];
      forall s ensures s in Scan(trace).dropped <==> DroppedBetween(trace, m, s) {
        DroppedBetweenStep(trace, m, s);
      }
      HeldStep(trace, m);
    }
  }

  /** No store delete without the scene lock: in a legal trace every one belongs to a pass, and if the probe of
      that pass said yes or raised, the lock was taken in that pass and is still held. */
  lemma DropsUnderLock(trace: seq<Act>, dropWired: bool, n: nat) returns (m: nat)
    requires Legal(trace, dropWired) && n < |trace| && trace[n].Dropped?
    ensures m < n && trace[m].PassBegan? && forall i | m < i < n :: !trace[i].PassBegan?
    ensures trace[m].probe == Some(Yes) || trace[m].probe == Some(Raises) ==> HeldSince(trace[..n], m)
  {
    assert LegalAt(trace, dropWired, n);
    m := PassMeans(trace[..n]);
    assert forall i | 0 <= i < n :: trace[..n][i] == trace[i];
  }

  /** Wherever a legal trace removes the row, the acts since the pass began dropped the graph and the images, and the
      scene graph where the probe said yes or raised and its drop is wired; each with success. */
  lemma RemovalFollowsCleanPass(trace: seq<Act>, dropWired: bool, n: nat) returns (m: nat)
    requires Legal(trace, dropWired) && n < |trace| && trace[n] == RowRemoved
    ensures m < n && trace[m].PassBegan?
    ensures forall i | m < i < n ::
              trace[i].SceneLocked? || trace[i].SceneUnlocked? || (trace[i].Dropped? && trace[i].ok)
    ensures DroppedBetween(trace[..n], m, GraphDb) && DroppedBetween(trace[..n], m, ImageDb)
    ensures DroppedBetween(trace[..n], m, SceneGraph) <==>
              dropWired && (trace[m].probe == Some(Yes) || trace[m].probe == Some(Raises))
  {
    assert LegalAt(trace, dropWired, n);
    m := PassMeans(trace[..n]);
    assert forall i | 0 <= i < n :: trace[..n][i] == trace[i];
    assert GraphDb in Scan(trace[..n]).dropped && ImageDb in Scan(trace[..n]).dropped;
  }

  function FailuresIn(trace: seq<Act>): nat {
    if trace == [] then 0 else FailuresIn(Front(trace)) + (if Last(trace).FailureNoted? then 1 else 0)
  }
}

module Backoff {
  datatype Config = Config(
    maxAttempts: nat, backoffS: real, backoffMaxS: real,
    lockTimeoutS: real, lockPolls: nat, deadlineS: real,
    probeWired: bool, dropWired: bool)
  {
    ghost predicate Valid() {
      maxAttempts >= 1 && 0.0 <= backoffS && 0.0 <= backoffMaxS && 0.0 <= lockTimeoutS
    }

    /** Seconds to wait after the n-th failure or busy lock, n counted from 1. */
    function Backoff(n: nat): real {
      var d := backoffS * Power2(if n > 0 then n - 1 else 0);
      if d < backoffMaxS then d else backoffMaxS
    }

    /** The least time one busy lock costs. */
    function Quantum(): real {
      lockTimeoutS + Backoff(1)
    }
  }

  function Power2(n: nat): (r: real)
    ensures r >= 1.0
  {
    if n == 0 then 1.0 else 2.0 * Power2(n - 1)
  }

  lemma BackoffAtLeastFirst(cfg: Config, n: nat)
    requires cfg.Valid() && n >= 1
    ensures cfg.Backoff(n) >= cfg.Backoff(1) >= 0.0
  {
    assert cfg.backoffS * Power2(n - 1) >= cfg.backoffS * 1.0;
    assert cfg.backoffS * Power2(0) == cfg.backoffS;
  }

  /** The first wait is the base, and each one doubles the last, up to the longest. */
  lemma BackoffDoubles(cfg: Config, n: nat)
    requires cfg.Valid() && n >= 1
    ensures cfg.Backoff(1) == (if cfg.backoffS < cfg.backoffMaxS then cfg.backoffS else cfg.backoffMaxS)
    ensures var twice := 2.0 * cfg.Backoff(n);
            cfg.Backoff(n) < cfg.backoffMaxS ==>
              cfg.Backoff(n + 1) == if twice < cfg.backoffMaxS then twice else cfg.backoffMaxS
    ensures cfg.Backoff(n) == cfg.backoffMaxS ==> cfg.Backoff(n + 1) == cfg.backoffMaxS
  {
    assert Power2(0) == 1.0;
    assert Power2(n) == 2.0 * Power2(n - 1);
    assert cfg.backoffS * Power2(n) == 2.0 * (cfg.backoffS * Power2(n - 1));
    assert cfg.backoffS * Power2(n - 1) >= 0.0;
  }

  /** Time counted as waiting after n busy locks in a row. */
  function Waited(cfg: Config, n: nat): real {
    if n == 0 then 0.0 else Waited(cfg, n - 1) + (cfg.lockTimeoutS + cfg.Backoff(n))
  }

  lemma OneMore(a: real, q: real)
    ensures (a + 1.0) * q == a * q + q
  {
  }

  lemma {:induction false} WaitedAtLeast(cfg: Config, n: nat)
    requires cfg.Valid()
    ensures Waited(cfg, n) >= n as real * cfg.Quantum()
  {
    if n > 0 {
      WaitedAtLeast(cfg, n - 1);
      BackoffAtLeastFirst(cfg, n);
      OneMore((n - 1) as real, cfg.Quantum());
    }
  }

  /** How many busy locks in a row can stay uncounted. */
  function WaitBudget(cfg: Config): nat
    requires cfg.Quantum() > 0.0
  {
    if cfg.deadlineS <= 0.0 then 0 else (cfg.deadlineS / cfg.Quantum()).Floor + 1
  }

  lemma MulMonotone(a: real, b: real, q: real)
    requires q > 0.0
    ensures a <= b ==> a * q <= b * q
  {
  }

  lemma QuotientBound(n: nat, q: real, d: real)
    requires q > 0.0 && n as real * q < d
    ensures n as real < d / q
  {
    var x := d / q;
    assert x * q == d;
    MulMonotone(x, n as real, q);
  }

  lemma WithinBudget(cfg: Config, n: nat)
    requires cfg.Valid() && cfg.Quantum() > 0.0 && Waited(cfg, n) < cfg.deadlineS
    ensures n <= WaitBudget(cfg)
  {
    WaitedAtLeast(cfg, n);
    assert n as real * cfg.Quantum() >= 0.0;
    QuotientBound(n, cfg.Quantum(), cfg.deadlineS);
  }

  /** Of `busy` busy locks in a round exactly the first `uncounted`, those before the deadline, were free. */
  ghost predicate WaitsFree(cfg: Config, busy: nat, uncounted: nat) {
    uncounted <= busy && forall k: nat | 1 <= k <= busy :: k <= uncounted <==> Waited(cfg, k) < cfg.deadlineS
  }

  lemma WaitsFreeStep(cfg: Config, busy: nat, uncounted: nat)
    requires cfg.Valid() && WaitsFree(cfg, busy, uncounted)
    ensures WaitsFree(cfg, busy + 1, if Waited(cfg, busy + 1) < cfg.deadlineS then busy + 1 else uncounted)
    ensures Waited(cfg, busy + 1) < cfg.deadlineS ==> busy == uncounted
  {
    BackoffAtLeastFirst(cfg, busy + 1);
    if busy > 0 && busy != uncounted {
      assert Waited(cfg, busy) >= cfg.deadlineS;
    }
  }

  lemma {:induction false} NothingWaited(cfg: Config, n: nat)
    requires cfg.Valid() && cfg.Quantum() == 0.0
    ensures Waited(cfg, n) == 0.0
  {
    if n > 0 {
      NothingWaited(cfg, n - 1);
      BackoffAtLeastFirst(cfg, n);
      BackoffAtLeastFirst(cfg, 1);
      assert cfg.lockTimeoutS == 0.0 && cfg.Backoff(1) == 0.0;
      if cfg.backoffMaxS > 0.0 {
        assert cfg.backoffS * Power2(0) == cfg.backoffS == 0.0;
        assert cfg.backoffS * Power2(n - 1) == 0.0;
      }
    }
  }

  /** A lock that is busy for ever is given up exactly when waiting costs time or the deadline has passed
      from the start: with a zero timeout and a zero backoff the round never ends. */
  lemma DeadlineReachedIff(cfg: Config)
    requires cfg.Valid()
    ensures (exists n :: Waited(cfg, n) >= cfg.deadlineS) <==> cfg.Quantum() > 0.0 || cfg.deadlineS <= 0.0
  {
    BackoffAtLeastFirst(cfg, 1);
    if cfg.deadlineS <= 0.0 {
      assert Waited(cfg, 0) >= cfg.deadlineS;
    } else if cfg.Quantum() > 0.0 {
      var n := WaitBudget(cfg) + 1;
      if Waited(cfg, n) < cfg.deadlineS {
        WithinBudget(cfg, n);
      }
      assert Waited(cfg, n) >= cfg.deadlineS;
    } else {
      forall n: nat ensures Waited(cfg, n) < cfg.deadlineS {
        NothingWaited(cfg, n);
      }
    }
  }
}

module MapDelete {
  import opened Common
  import opened DeleteTrace
  import opened Backoff

  datatype Lifecycle = Alive | Deleting
  /** The map's row; `ticket` names the request that marked it (its delete_requested_at). */
  datatype Row = Row(lifecycle: Lifecycle, ticket: nat, attempts: nat)

  datatype Event =
    | DeleteFailed(ticket: nat, attempts: nat)
    | Deleted(ticket: nat)

  datatype Attempted = Gone | LockBusy | Failed | Aborted

  ghost predicate EventsKnown(events: seq<Event>, tickets: nat, row: Option<Row>) {
    && (forall i, j | 0 <= i < j < |events| :: events[i] != events[j])
    && (forall i | 0 <= i < |events| :: events[i].ticket < tickets)
    && (row.Some? && row.value.lifecycle == Deleting ==>
          && row.value.ticket < tickets
          && forall i | 0 <= i < |events| && events[i].ticket == row.value.ticket ::
               events[i].DeleteFailed? && events[i].attempts <= row.value.attempts)
  }

  /** What was added to the trace is drops. */
  ghost predicate OnlyDrops(before: seq<Act>, after: seq<Act>) {
    before <= after && forall i | |before| <= i < |after| :: after[i].Dropped?
  }

  /** What was added is at most one pass without the scene lock. */
  ghost predicate OnlyPassAndDrops(before: seq<Act>, after: seq<Act>) {
    before <= after && forall i | |before| <= i < |after| :: after[i].PassBegan? || after[i].Dropped?
  }

  /** A marked row keeps its request and loses no counted attempt. */
  ghost predicate Kept(was: Option<Row>, row: Option<Row>, counted: nat) {
    was.Some? && was.value.lifecycle == Deleting ==>
      && row.Some? && row.value.lifecycle == Deleting && row.value.ticket == was.value.ticket
      && was.value.attempts <= row.value.attempts <= was.value.attempts + counted
  }

  class MapDeleter {
    const cfg: Config
    var row: Option<Row>
    var events: seq<Event>
    var tickets: nat
    var sceneHeld: bool
    ghost var trace: seq<Act>

    /** Kept by every step of every worker: the trace is legal, no event is written twice, and a
        MAP.DELETE_FAILED of the current request never carries more than the recorded attempts. */
    ghost predicate Valid()
      reads this
    {
      && cfg.Valid()
      && Legal(trace, cfg.dropWired)
      && (Scan(trace).Pass? && Scan(trace).locked ==> sceneHeld)
      && EventsKnown(events, tickets, row)
    }

    constructor (cfg: Config, row: Option<Row>)
      requires cfg.Valid() && (row.Some? ==> row.value.lifecycle == Alive)
      ensures Valid() && this.cfg == cfg && this.row == row && events == [] && trace == [] && !sceneHeld
    {
      this.cfg, this.row, this.events, this.tickets, this.sceneHeld, this.trace := cfg, row, [], 0, false, [];
    }

    /** request(): one statement marks the map, unless it is marked already. */
    method Mark()
      requires Valid()
      modifies this`row, this`tickets
      ensures Valid()
      ensures row.Some? && row.value.lifecycle == Deleting
      ensures if old(row.Some? && row.value.lifecycle == Deleting) then row == old(row) && tickets == old(tickets)
              else row.value == Row(Deleting, old(tickets), 0) && tickets == old(tickets) + 1
    {
      if row.None? || row.value.lifecycle != Deleting {
        row := Some(Row(Deleting, tickets, 0));
        tickets := tickets + 1;
      }
    }

    /** What other workers do at an await: requests mark the map, a new map row appears. The runner's own
        lock keeps every other runner away, and nobody changes a row that is being deleted. */
    method Interfere()
      requires Valid()
      modifies this`row, this`tickets
      ensures Valid()
      ensures old(row.Some? && row.value.lifecycle == Deleting) ==> row == old(row)
    {
      var request: bool, create: bool := *, *;
      if create && row.None? {
        row := Some(Row(Alive, 0, 0));
      }
      if request {
        Mark();
      }
    }

    method Record(act: Act)
      requires Valid() && LegalAct(Scan(trace), act, cfg.dropWired)
      requires act.SceneLocked? ==> sceneHeld
      modifies this`trace
      ensures Valid() && trace == old(trace) + [act]
      ensures Scan(trace) == Advance(old(Scan(trace)), act)
      ensures FailuresIn(trace) == old(FailuresIn(trace)) + (if act.FailureNoted? then 1 else 0)
    {
      LegalAppend(trace, act, cfg.dropWired);
      trace := trace + [act];
    }

    /** _take_scene_lock: at most lockPolls + 1 tries; the connection may fail, and the runner be cancelled, at any of
        them. */
    method TakeSceneLock() returns (r: Attempted, tries: nat)
      requires Valid() && Scan(trace).Pass? && !sceneHeld
      modifies this`row, this`tickets, this`sceneHeld, this`trace
      ensures Valid() && tries <= cfg.lockPolls + 1
      ensures r == Gone ==> sceneHeld && trace == old(trace) + [SceneLocked]
      ensures r == Gone ==> Scan(trace) == Advance(old(Scan(trace)), SceneLocked)
      ensures FailuresIn(trace) == old(FailuresIn(trace))
      ensures r != Gone ==> !sceneHeld && trace == old(trace)
      ensures old(row.Some? && row.value.lifecycle == Deleting) ==> row == old(row)
    {
      tries := 0;
      while tries < cfg.lockPolls + 1
        invariant tries <= cfg.lockPolls + 1
        invariant Valid() && !sceneHeld && trace == old(trace)
        invariant old(row.Some? && row.value.lifecycle == Deleting) ==> row == old(row)
      {
        Interfere();
        var cancelled: bool, connected: bool, free: bool := *, *, *;
        if cancelled {
          return Aborted, tries;
        }
        if !connected {
          return Failed, tries;
        }
        tries := tries + 1;
        if free {
          sceneHeld := true;
          Record(SceneLocked);
          return Gone, tries;
        }
      }
      return LockBusy, tries;
    }

    /** _run_steps: every store is tried, whatever the others answered, unless the runner is cancelled; then the outcome
        of the delete it was waiting for is not seen. */
    method RunSteps(steps: seq<Store>) returns (allOk: bool, aborted: bool)
      requires Valid() && Scan(trace).Pass? && (NeedsLock(Scan(trace).probe) ==> Scan(trace).locked)
      requires Scan(trace).dropped == [] && Scan(trace).allOk
      modifies this`row, this`tickets, this`trace
      ensures Valid()
      ensures !aborted ==> Scan(trace) == old(Scan(trace)).(dropped := steps, allOk := allOk)
      ensures aborted ==> !allOk && Scan(trace).Pass?
      ensures OnlyDrops(old(trace), trace)
      ensures FailuresIn(trace) == old(FailuresIn(trace))
      ensures old(row.Some? && row.value.lifecycle == Deleting) ==> row == old(row)
    {
      allOk, aborted := true, false;
      for n := 0 to |steps|
        invariant Valid() && !aborted
        invariant Scan(trace) == old(Scan(trace)).(dropped := steps[..n], allOk := allOk)
        invariant OnlyDrops(old(trace), trace)
        invariant FailuresIn(trace) == old(FailuresIn(trace))
        invariant old(row.Some? && row.value.lifecycle == Deleting) ==> row == old(row)
      {
        Interfere();
        var ok: bool, cancelled: bool := *, *;
        if cancelled {
          Record(Dropped(steps[n], false));
          return false, true;
        }
        Record(Dropped(steps[n], ok));
        allOk := allOk && ok;
        assert steps[..n + 1] == steps[..n] + [steps[n]];
      }
      assert steps[..|steps|] == steps;
    }

    /** _attempt: one pass over the stores. `probe` is what the probe answers, if one is wired; if it says yes
        or raises, the pass runs under the scene lock, and no lock is taken otherwise. */
    method Attempt(probe: Answer) returns (r: Attempted)
      requires Valid() && !sceneHeld
      modifies this`row, this`tickets, this`sceneHeld, this`trace
      ensures Valid() && !sceneHeld
      ensures r == Gone ==> LegalAct(Scan(trace), RowRemoved, cfg.dropWired)
      ensures old(trace) <= trace && (trace == old(trace) ==> r == Aborted)
      ensures trace != old(trace) ==> trace[|old(trace)|] == PassBegan(if cfg.probeWired then Some(probe) else None)
      ensures !cfg.probeWired || probe == No ==> OnlyPassAndDrops(old(trace), trace)
      ensures FailuresIn(trace) == old(FailuresIn(trace))
      ensures old(row.Some? && row.value.lifecycle == Deleting) ==> row == old(row)
    {
      Interfere();
      var cancelled: bool := *;
      if cancelled {
        return Aborted;
      }
      var active := cfg.probeWired && (probe == Raises || probe == Yes);
      Record(PassBegan(if cfg.probeWired then Some(probe) else None));
      r := PassOver(active);
    }

    /** The pass itself, under the scene lock if the map is `active`. */
    method PassOver(active: bool) returns (r: Attempted)
      requires Valid() && !sceneHeld && Scan(trace).Pass? && active == NeedsLock(Scan(trace).probe)
      requires !Scan(trace).locked && Scan(trace).dropped == [] && Scan(trace).allOk
      modifies this`row, this`tickets, this`sceneHeld, this`trace
      ensures Valid() && !sceneHeld && old(trace) <= trace
      ensures r == Gone ==> LegalAct(Scan(trace), RowRemoved, cfg.dropWired)
      ensures !active ==> OnlyDrops(old(trace), trace)
      ensures FailuresIn(trace) == old(FailuresIn(trace))
      ensures old(row.Some? && row.value.lifecycle == Deleting) ==> row == old(row)
    {
      if active {
        var lock, tries := TakeSceneLock();
        if lock != Gone {
          return lock;
        }
      }
      var steps := [GraphDb, ImageDb];
      if active && cfg.dropWired {
        steps := [SceneGraph] + steps;
      }
      var allOk, aborted := RunSteps(steps);
      if active {
        Record(SceneUnlocked);
        sceneHeld := false;
      }
      var late: bool := *;  // cancelled while it closes the lock's connection
      return if aborted || (active && late) then Aborted else if allOk then Gone else Failed;
    }

    /** _finish: the row goes while it is still being deleted; the event may be lost, never the delete. The transaction
        may raise: then the row is as it was, unless only the answer to the commit was lost. */
    method Finish(status: Row) returns (raised: bool)
      requires Valid() && LegalAct(Scan(trace), RowRemoved, cfg.dropWired)
      requires row == Some(status) && status.lifecycle == Deleting
      modifies this`row, this`events, this`trace
      ensures Valid() && FailuresIn(trace) == old(FailuresIn(trace))
      ensures !raised ==> row.None?
      ensures if row.None?
              then trace == old(trace) + [RowRemoved]
                   && (events == old(events) || events == old(events) + [Deleted(status.ticket)])
              else row == old(row) && trace == old(trace) && events == old(events)
    {
      var committed: bool;
      raised, committed := *, *;
      if raised && !committed {
        return;
      }
      Record(RowRemoved);
      row := None;
      var written: bool := *;
      if written {
        events := events + [Deleted(status.ticket)];
      }
    }

    /** _record_failure: the count and, in an exhausted round, the event, in one transaction that may be lost. */
    method RecordFailure(status: Row, total: nat, exhausted: bool)
      requires Valid() && row == Some(status) && status.lifecycle == Deleting && total == status.attempts + 1
      modifies this`row, this`events, this`trace
      ensures Valid() && FailuresIn(trace) == old(FailuresIn(trace)) + 1
      ensures row == Some(status) || row == Some(status.(attempts := total))
      ensures events == old(events) || (exhausted && row == Some(status.(attempts := total))
                                        && events == old(events) + [DeleteFailed(status.ticket, total)])
    {
      Record(FailureNoted(total));
      var lost: bool, emitted: bool := *, *;
      if !lost {
        row := Some(status.(attempts := total));
        if exhausted && emitted {
          events := events + [DeleteFailed(status.ticket, total)];
        }
      }
    }

    /** The part of a round up to the error handling: load the row, attempt, finish. `LockBusy` and
        `Failed` leave the marked row as it was loaded. */
    method TryOnce(probe: Answer) returns (r: Attempted, status: Row)
      requires Valid() && !sceneHeld
      modifies this
      ensures Valid() && !sceneHeld
      ensures FailuresIn(trace) == old(FailuresIn(trace))
      ensures r == LockBusy || r == Failed ==> row == Some(status) && status.lifecycle == Deleting
      ensures old(row.Some? && row.value.lifecycle == Deleting) ==>
                row == old(row)
                || ((r == Gone || r == Aborted) && row.None? && trace != [] && Last(trace) == RowRemoved)
      ensures r == Gone ==> row.None?
      ensures events == old(events) ||
                (row.None? && trace != [] && Last(trace) == RowRemoved
                 && events == old(events) + [Deleted(status.ticket)])
      ensures r == LockBusy || r == Failed ==> events == old(events)
    {
      status := Row(Alive, 0, 0);
      Interfere();
      var lost: bool := *;
      if lost || row.None? || row.value.lifecycle != Deleting {
        return Aborted, status;
      }
      status := row.value;
      r := Attempt(probe);
      if r == Gone {
        var raised := Finish(status);
        if raised {
          return Aborted, status;
        }
      }
    }

    /** _round. It ends by itself when a busy lock costs time. Every failed attempt is counted, a busy
        lock exactly when the deadline has passed, at most maxAttempts of them; the marked row stays with
        the request until a clean pass removes it, and then that is the last thing done. At most one event is
        written: that the map was deleted, or, in a round with maxAttempts counted failures, that its delete failed. */
    method Round() returns (counted: nat, ghost failed: nat, ghost busy: nat, ghost uncounted: nat)
      requires Valid() && !sceneHeld && cfg.Quantum() > 0.0
      modifies this
      ensures Valid() && !sceneHeld
      ensures counted == failed + (busy - uncounted) <= cfg.maxAttempts
      ensures FailuresIn(trace) == old(FailuresIn(trace)) + counted
      ensures WaitsFree(cfg, busy, uncounted)
      ensures events == old(events) || (|events| == |old(events)| + 1 && events[..|old(events)|] == old(events)
                && if Last(events).Deleted? then row.None? && trace != [] && Last(trace) == RowRemoved
                   else counted == cfg.maxAttempts)
      ensures old(row.Some? && row.value.lifecycle == Deleting) ==>
                if row.None? then trace != [] && Last(trace) == RowRemoved
                else row.value.lifecycle == Deleting && row.value.ticket == old(row.value.ticket)
                     && old(row.value.attempts) <= row.value.attempts <= old(row.value.attempts) + counted
    {
      counted, failed, uncounted := 0, 0, 0;
      var waits, waited := 0, 0.0;
      busy := 0;
      while counted < cfg.maxAttempts
        invariant Valid() && !sceneHeld
        invariant counted == failed + (busy - uncounted) <= cfg.maxAttempts
        invariant FailuresIn(trace) == old(FailuresIn(trace)) + counted
        invariant busy == waits && waited == Waited(cfg, waits) && WaitsFree(cfg, busy, uncounted)
        invariant Kept(old(row), row, counted)
        invariant events == old(events) || (counted == cfg.maxAttempts && |events| == |old(events)| + 1
                    && events[..|old(events)|] == old(events) && Last(events).DeleteFailed?)
        decreases cfg.maxAttempts - counted, if waits <= WaitBudget(cfg) then WaitBudget(cfg) - waits + 1 else 0
      {
        var probe: Answer := *;
        var r, status := TryOnce(probe);
        if r == Aborted || r == Gone {
          return;
        }
        if r == LockBusy {
          WaitsFreeStep(cfg, waits, uncounted);
          waits := waits + 1;
          waited := waited + (cfg.lockTimeoutS + cfg.Backoff(waits));
          busy := waits;
          if waited < cfg.deadlineS {
            WithinBudget(cfg, waits);
            uncounted := busy;
            Record(WaitNoted);
            continue;
          }
        } else {
          failed := failed + 1;
        }
        counted := counted + 1;
        RecordFailure(status, status.attempts + 1, counted >= cfg.maxAttempts);
      }
    }

    /** _run: whoever holds the map's delete lock runs a round; a crash at any await only stops it. */
    method Run()
      requires Valid() && !sceneHeld && cfg.Quantum() > 0.0
      modifies this
      ensures Valid() && !sceneHeld
    {
      Interfere();
      var acquired: bool := *;
      if acquired {
        var counted, failed, busy, uncounted := Round();
      }
    }
  }
}
