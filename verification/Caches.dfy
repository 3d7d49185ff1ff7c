/** The snapshot cache of the mapping switch (packages/api/mapping_switch.py): reads that overlap an
    invalidation never fill it. */
module SnapshotCache {
  import opened Common

  type Robot = string
  /** A snapshot, with the moment its read was started. */
  datatype Snapshot = Snapshot(robot: Robot, begun: nat, reachable: bool)
  datatype Entry = Entry(expires: int, snap: Snapshot)
  datatype Load = Load(robot: Robot, begun: nat)

  /** `tick` counts steps; `changed` is when a robot was last invalidated. */
  datatype State = State(tick: nat, cache: map<Robot, Entry>, last: map<Robot, Snapshot>, inflight: map<Robot, nat>,
                         loads: map<nat, Load>, changed: map<Robot, nat>)

  const EMPTY: State := State(1, map[], map[], map[], map[], map[])

  datatype Step =
    | Ask(robot: Robot, skip: bool, now: int)                   // snapshot() up to its await
    | Loaded(task: nat, reachable: bool, now: int, ttl: int)     // _load got an answer or timed out
    | LoadFails(task: nat)                                       // _load was cancelled or raised
    | Invalidate(robot: Robot)

  predicate Enabled(s: State, a: Step) {
    match a
    case Loaded(t, _, _, _) => t in s.loads
    case LoadFails(t) => t in s.loads
    case _ => true
  }

  predicate Hit(s: State, r: Robot, skip: bool, now: int) {
    r in s.cache && !skip && s.cache[r].expires > now
  }

  function Apply(s: State, a: Step): State
    requires Enabled(s, a)
  {
    var n := s.(tick := s.tick + 1);
    match a
    case Ask(r, skip, now) =>
      if Hit(s, r, skip, now) || r in s.inflight then n
      else n.(loads := s.loads[s.tick := Load(r, s.tick)], inflight := s.inflight[r := s.tick])
    case Loaded(t, reachable, now, ttl) =>
      var Load(r, begun) := s.loads[t];
      var snap := Snapshot(r, begun, reachable);
      if r in s.inflight && s.inflight[r] == t
      then n.(loads := s.loads - {t}, inflight := s.inflight - {r}, cache := s.cache[r := Entry(now + ttl, snap)],
              last := s.last[r := snap])
      else n.(loads := s.loads - {t})
    case LoadFails(t) =>
      var r := s.loads[t].robot;
      if r in s.inflight && s.inflight[r] == t then n.(loads := s.loads - {t}, inflight := s.inflight - {r})
      else n.(loads := s.loads - {t})
    case Invalidate(r) =>
      n.(cache := s.cache - {r}, last := s.last - {r}, inflight := s.inflight - {r}, changed := s.changed[r := s.tick])
  }

  predicate After(s: State, r: Robot, begun: nat) {
    r in s.changed ==> s.changed[r] < begun
  }

  /** What the cache, `cached()` and the joinable read of a robot hold began after its last change. */
  ghost predicate Current(s: State, r: Robot) {
    && (r in s.cache ==> s.cache[r].snap.robot == r && After(s, r, s.cache[r].snap.begun))
    && (r in s.last ==> s.last[r].robot == r && After(s, r, s.last[r].begun))
    && (r in s.inflight ==> s.inflight[r] in s.loads && s.loads[s.inflight[r]].robot == r
                            && After(s, r, s.loads[s.inflight[r]].begun))
    && (r in s.changed ==> s.changed[r] < s.tick)
  }

  ghost predicate Inv(s: State) {
    && (forall r {:trigger Current(s, r)} :: Current(s, r))
    && (forall t | t in s.loads :: t < s.tick)
  }

  lemma CurrentStep(s: State, a: Step, r: Robot)
    requires Inv(s) && Enabled(s, a)
    ensures Current(Apply(s, a), r)
  {
    assert Current(s, r);
    if a.Loaded? || a.LoadFails? {
      assert Current(s, s.loads[a.task].robot);
    }
  }

  lemma InvStep(s: State, a: Step)
    requires Inv(s) && Enabled(s, a)
    ensures Inv(Apply(s, a))
  {
    var s' := Apply(s, a);
    forall r ensures Current(s', r) {
      CurrentStep(s, a, r);
    }
  }

  ghost predicate IsRun(run: seq<Step>)
    decreases |run|, 0
  {
    run == [] || (IsRun(Front(run)) && Enabled(StateAfter(Front(run)), Last(run)))
  }

  ghost function StateAfter(run: seq<Step>): State
    requires IsRun(run)
    decreases |run|, 1
  {
    if run == [] then EMPTY else Apply(StateAfter(Front(run)), Last(run))
  }

  /** In every interleaving no stale read is ever kept. */
  lemma {:induction false} NoStaleFill(run: seq<Step>)
    requires IsRun(run)
    ensures Inv(StateAfter(run))
  {
    if run != [] {
      NoStaleFill(Front(run));
      InvStep(StateAfter(Front(run)), Last(run));
    }
  }

  /** A read that is kept is served from the cache for its TTL and no longer, and never to a caller that skips it. */
  lemma ServedForTtl(s: State, task: nat, reachable: bool, now: int, ttl: int, skip: bool, later: int)
    requires Enabled(s, Loaded(task, reachable, now, ttl))
    requires var r := s.loads[task].robot; r in s.inflight && s.inflight[r] == task
    ensures var r, s' := s.loads[task].robot, Apply(s, Loaded(task, reachable, now, ttl));
            && (Hit(s', r, skip, later) <==> !skip && later < now + ttl)
            && r in s'.last && s'.last[r] == Snapshot(r, s.loads[task].begun, reachable)
            && s'.cache[r].snap == s'.last[r]
  {
  }

  /** What a caller is given, from the cache or from the read it waits for, began after every change the
      caller could know of. */
  lemma AnswerIsFresh(run: seq<Step>, r: Robot, skip: bool, now: int)
    requires IsRun(run)
    ensures var s := StateAfter(run);
            var s' := Apply(s, Ask(r, skip, now));
            if Hit(s, r, skip, now) then After(s, r, s.cache[r].snap.begun)
            else r in s'.inflight && s'.inflight[r] in s'.loads && After(s, r, s'.loads[s'.inflight[r]].begun)
  {
    NoStaleFill(run);
    assert Current(StateAfter(run), r);
  }
}

/** ResultCache (packages/api/drive_stats.py): an LRU with a TTL and one computation per key at a time.
    Each method is what runs between two awaits. */
module ResultCache {
  import opened Common

  /** Keys start with the map they are about. */
  datatype Key = Key(mapId: string, rest: string)
  /** A finished result; `begun` names its computation, in the order they were started. */
  datatype Entry = Entry(key: Key, at: int, value: string, begun: nat)

  /** `done`: the finished results, oldest use first; `flight`: the keys being computed, and by which computation. */
  datatype Store = Store(done: seq<Entry>, flight: map<Key, nat>)
  datatype Config = Config(entries: nat, ttl: int)

  ghost predicate DistinctKeys(done: seq<Entry>) {
    forall i, j | 0 <= i < j < |done| :: done[i].key != done[j].key
  }

  /** At most `entries` results, one per key. */
  ghost predicate Bounded(cfg: Config, done: seq<Entry>) {
    DistinctKeys(done) && |done| <= cfg.entries
  }

  function IndexOf(done: seq<Entry>, key: Key): (i: nat)
    ensures i <= |done| && (i < |done| ==> done[i].key == key)
    ensures i == |done| ==> forall j | 0 <= j < |done| :: done[j].key != key
  {
    if done == [] then 0 else if done[0].key == key then 0 else 1 + IndexOf(done[1..], key)
  }

  // --- what each part of the cache does to it --------------------------------------------------------------

  /** peek: the result of the key, if there is one not older than the TTL. */
  function Hit(cfg: Config, done: seq<Entry>, key: Key, now: int): (e: Option<Entry>)
    ensures e.Some? ==> e.value in done && e.value.key == key
  {
    var i := IndexOf(done, key);
    if i < |done| && now - done[i].at <= cfg.ttl then Some(done[i]) else None
  }

  /** move_to_end of the i-th entry. */
  function Touched(done: seq<Entry>, i: nat): seq<Entry>
    requires i < |done|
  {
    done[..i] + done[i + 1..] + [done[i]]
  }

  function Peeked(cfg: Config, done: seq<Entry>, key: Key, now: int): seq<Entry> {
    if Hit(cfg, done, key, now).Some? then Touched(done, IndexOf(done, key)) else done
  }

  /** get, up to its await: a hit, a computation to wait for, or this caller's own to start. */
  function Asked(cfg: Config, s: Store, key: Key, now: int, id: nat): Store {
    Store(Peeked(cfg, s.done, key, now),
          if Hit(cfg, s.done, key, now).None? && key !in s.flight then s.flight[key := id] else s.flight)
  }

  /** The ordered dictionary after an assignment and the evictions: an existing key keeps its place. */
  function Stored(done: seq<Entry>, e: Entry, entries: nat): seq<Entry> {
    var i := IndexOf(done, e.key);
    if i < |done| then done[i := e]
    else
      var all := done + [e];
      if |all| > entries then all[|all| - entries..] else all
  }

  function Finished(cfg: Config, s: Store, e: Entry): Store {
    Store(Stored(s.done, e, cfg.entries), s.flight - {e.key})
  }

  function Without(done: seq<Entry>, mapId: string): (r: seq<Entry>)
    ensures |r| <= |done|
    ensures forall e :: e in r <==> e in done && e.key.mapId != mapId
  {
    if done == [] then []
    else if Last(done).key.mapId == mapId then Without(Front(done), mapId)
    else Without(Front(done), mapId) + [Last(done)]
  }

  lemma {:induction false} WithoutDistinct(done: seq<Entry>, mapId: string)
    requires DistinctKeys(done)
    ensures DistinctKeys(Without(done, mapId))
  {
    if done != [] {
      WithoutDistinct(Front(done), mapId);
      var w := Without(Front(done), mapId);
      forall i | 0 <= i < |w| ensures w[i].key != Last(done).key {
        assert w[i] in Front(done);
      }
    }
  }

  lemma StoredKeeps(cfg: Config, done: seq<Entry>, e: Entry)
    requires Bounded(cfg, done)
    ensures var r := Stored(done, e, cfg.entries);
            && Bounded(cfg, r) && (cfg.entries > 0 ==> e in r)
            && (forall x | x in r :: x == e || x in done)
  {
    var r := Stored(done, e, cfg.entries);
    var i := IndexOf(done, e.key);
    if i < |done| {
      assert r[i] == e;
    } else {
      var all := done + [e];
      assert forall x | x in r :: x in all;
      assert cfg.entries > 0 ==> Last(r) == e;
    }
  }

  lemma TouchedKeeps(before: seq<Entry>, i: nat)
    requires i < |before| && DistinctKeys(before)
    ensures var after := Touched(before, i);
            DistinctKeys(after) && multiset(after) == multiset(before) && forall e :: e in after <==> e in before
  {
    var after := Touched(before, i);
    assert before == before[..i] + [before[i]] + before[i + 1..];
    forall a, b | 0 <= a < b < |after| ensures after[a].key != after[b].key {
      var p := if a < i then a else a + 1;
      var q := if b == |after| - 1 then i else if b < i then b else b + 1;
      assert after[a] == before[p] && after[b] == before[q] && p != q;
    }
    forall e ensures e in after <==> e in before {
      assert e in after <==> e in multiset(after);
      assert e in before <==> e in multiset(before);
    }
  }

  lemma PeekedKeeps(cfg: Config, done: seq<Entry>, key: Key, now: int)
    requires Bounded(cfg, done)
    ensures Bounded(cfg, Peeked(cfg, done, key, now)) && forall e :: e in Peeked(cfg, done, key, now) <==> e in done
  {
    if Hit(cfg, done, key, now).Some? { TouchedKeeps(done, IndexOf(done, key)); }
  }

  // --- the cache itself --------------------------------------------------------------------------------------

  class Cache {
    const cfg: Config
    var done: seq<Entry>
    var flight: map<Key, nat>

    ghost function Now(): Store reads this { Store(done, flight) }

    ghost predicate Valid() reads this { Bounded(cfg, done) }

    constructor (cfg: Config)
      ensures Valid() && Now() == Store([], map[]) && this.cfg == cfg
    {
      this.cfg, done, flight := cfg, [], map[];
    }

    method Peek(key: Key, now: int) returns (hit: Option<string>)
      requires Valid()
      modifies this`done
      ensures Valid() && done == Peeked(cfg, old(done), key, now) && multiset(done) == old(multiset(done))
      ensures var e := Hit(cfg, old(done), key, now); hit == if e.Some? then Some(e.value.value) else None
    {
      var i := IndexOf(done, key);
      if i == |done| || now - done[i].at > cfg.ttl {
        return None;
      }
      var e := done[i];
      TouchedKeeps(done, i);
      done := done[..i] + done[i + 1..] + [e];
      return Some(e.value);
    }

    /** `compute`: this caller computes. */
    method Begin(key: Key, now: int, id: nat) returns (hit: Option<string>, compute: bool)
      requires Valid()
      modifies this
      ensures Valid() && Now() == Asked(cfg, old(Now()), key, now, id)
      ensures var e := Hit(cfg, old(done), key, now); hit == if e.Some? then Some(e.value.value) else None
      ensures compute <==> hit.None? && key !in old(flight)
    {
      hit := Peek(key, now);
      compute := hit.None? && key !in flight;
      if compute {
        flight := flight[key := id];
      }
    }

    /** After the computation: keep the result, evict the oldest, and end the flight. */
    method Finish(key: Key, value: string, now: int)
      requires Valid() && key in flight
      modifies this
      ensures Valid() && Now() == Finished(cfg, old(Now()), Entry(key, now, value, old(flight)[key]))
    {
      var e := Entry(key, now, value, flight[key]);
      StoredKeeps(cfg, done, e);
      done := Assign(done, e, cfg.entries);
      flight := flight - {key};
    }

    method Fail(key: Key)
      requires Valid() && key in flight
      modifies this
      ensures Valid() && done == old(done) && flight == old(flight) - {key}
    {
      flight := flight - {key};
    }

    method DiscardMap(mapId: string)
      requires Valid()
      modifies this
      ensures Valid() && flight == old(flight) && done == Without(old(done), mapId)
    {
      WithoutDistinct(done, mapId);
      done := Without(done, mapId);
    }
  }

  method Assign(done: seq<Entry>, e: Entry, entries: nat) returns (after: seq<Entry>)
    ensures after == Stored(done, e, entries)
  {
    var i := IndexOf(done, e.key);
    if i < |done| {
      after := done[i := e];
    } else {
      after := Evict(done + [e], entries);
    }
  }

  /** popitem(last=False) until at most `entries` are left. */
  method Evict(all: seq<Entry>, entries: nat) returns (done: seq<Entry>)
    ensures done == if |all| > entries then all[|all| - entries..] else all
  {
    done := all;
    while |done| > entries
      invariant |done| <= |all| && done == all[|all| - |done|..]
      invariant |all| > entries ==> |done| >= entries
      invariant |all| <= entries ==> done == all
    {
      done := done[1..];
    }
  }
}

/** Concurrent calls of get(), and discards of maps between them. */
module ResultCalls {
  import opened Common
  import opened ResultCache

  /** A call that runs the computation, one that waits for it, or one that is over. */
  datatype Call =
    | Computing(key: Key, id: nat)
    | Waiting(key: Key, id: nat)
    | Got(value: string)
    | Raised

  /** How a computation ended. */
  datatype Outcome = Outcome(key: Key, value: Option<string>)

  /** The last discard of a map: its moment and the computations of the map that were under way. */
  datatype Discard = Discard(at: nat, under: map<Key, nat>)

  datatype State = State(store: Store, calls: map<nat, Call>, ended: map<nat, Outcome>, tick: nat,
                         discards: map<string, Discard>)

  const EMPTY: State := State(Store([], map[]), map[], map[], 0, map[])

  datatype Step =
    | Get(c: nat, key: Key, now: int)
    | Finish(c: nat, value: string, now: int)
    | Fail(c: nat)
    | Wake(c: nat)                    // the future a call waits for is set
    | Leave(c: nat)                   // a waiting call is cancelled
    | DiscardMap(mapId: string)

  predicate Enabled(s: State, a: Step) {
    match a
    case Get(c, _, _) => c !in s.calls
    case Finish(c, _, _) => c in s.calls && s.calls[c].Computing?
    case Fail(c) => c in s.calls && s.calls[c].Computing?
    case Wake(c) => c in s.calls && s.calls[c].Waiting? && s.calls[c].id in s.ended
    case Leave(c) => c in s.calls && s.calls[c].Waiting?
    case DiscardMap(_) => true
  }

  function Answer(o: Option<string>): Call {
    if o.Some? then Got(o.value) else Raised
  }

  function Apply(cfg: Config, s: State, a: Step): State
    requires Enabled(s, a)
  {
    var n := s.(tick := s.tick + 1);
    match a
    case Get(c, key, now) =>
      var hit := Hit(cfg, s.store.done, key, now);
      n.(store := Asked(cfg, s.store, key, now, s.tick),
         calls := s.calls[c := if hit.Some? then Got(hit.value.value)
                               else if key in s.store.flight then Waiting(key, s.store.flight[key])
                               else Computing(key, s.tick)])
    case Finish(c, value, now) =>
      var Computing(key, id) := s.calls[c];
      n.(store := Finished(cfg, s.store, Entry(key, now, value, id)), calls := s.calls[c := Got(value)],
         ended := s.ended[id := Outcome(key, Some(value))])
    case Fail(c) =>
      var Computing(key, id) := s.calls[c];
      n.(store := s.store.(flight := s.store.flight - {key}), calls := s.calls[c := Raised],
         ended := s.ended[id := Outcome(key, None)])
    case Wake(c) => n.(calls := s.calls[c := Answer(s.ended[s.calls[c].id].value)])
    case Leave(c) => n.(calls := s.calls[c := Raised])
    case DiscardMap(m) =>
      n.(store := s.store.(done := Without(s.store.done, m)),
         discards := s.discards[m := Discard(s.tick, map k | k in s.store.flight && k.mapId == m :: s.store.flight[k])])
  }

  // --- one computation per key -------------------------------------------------------------------------------

  /** A computing call is the one its key's flight names; a waiting call waits for a computation of its key that is
      under way or over. */
  ghost predicate GoodCall(s: State, c: nat)
    requires c in s.calls
  {
    match s.calls[c]
    case Computing(k, id) => k in s.store.flight && s.store.flight[k] == id
    case Waiting(k, id) => (k in s.store.flight && s.store.flight[k] == id) || (id in s.ended && s.ended[id].key == k)
    case _ => true
  }

  ghost predicate GoodFlight(s: State, k: Key)
    requires k in s.store.flight
  {
    && s.store.flight[k] < s.tick && s.store.flight[k] !in s.ended
    && exists c | c in s.calls :: s.calls[c] == Computing(k, s.store.flight[k])
  }

  ghost predicate SameCall(s: State, c: nat, d: nat)
    requires c in s.calls && d in s.calls
  {
    s.calls[c].Computing? && s.calls[d].Computing? && s.calls[c].id == s.calls[d].id ==> c == d
  }

  ghost predicate CallsInv(s: State) {
    && (forall c {:trigger GoodCall(s, c)} | c in s.calls :: GoodCall(s, c))
    && (forall k {:trigger GoodFlight(s, k)} | k in s.store.flight :: GoodFlight(s, k))
    && (forall c, d {:trigger SameCall(s, c, d)} | c in s.calls && d in s.calls :: SameCall(s, c, d))
    && (forall i | i in s.ended :: i < s.tick)
  }

  lemma GoodCallStep(cfg: Config, s: State, a: Step, c: nat)
    requires CallsInv(s) && Enabled(s, a) && c in Apply(cfg, s, a).calls
    ensures GoodCall(Apply(cfg, s, a), c)
  {
    if c in s.calls {
      assert GoodCall(s, c);
      if a.Finish? || a.Fail? {
        assert GoodCall(s, a.c) && GoodFlight(s, s.calls[a.c].key) && SameCall(s, c, a.c);
      }
    }
  }

  lemma GoodFlightStep(cfg: Config, s: State, a: Step, k: Key)
    requires CallsInv(s) && Enabled(s, a) && k in Apply(cfg, s, a).store.flight
    ensures GoodFlight(Apply(cfg, s, a), k)
  {
    var s' := Apply(cfg, s, a);
    if k in s.store.flight {
      assert GoodFlight(s, k);
      var c :| c in s.calls && s.calls[c] == Computing(k, s.store.flight[k]);
      if a.Finish? || a.Fail? {
        assert GoodCall(s, a.c) && GoodFlight(s, s.calls[a.c].key) && SameCall(s, c, a.c);
      }
      assert c in s'.calls && s'.calls[c] == Computing(k, s.store.flight[k]);
    } else {
      assert a.Get? && s'.calls[a.c] == Computing(k, s.tick);
    }
  }

  lemma SameCallStep(cfg: Config, s: State, a: Step, c: nat, d: nat)
    requires CallsInv(s) && Enabled(s, a) && c in Apply(cfg, s, a).calls && d in Apply(cfg, s, a).calls
    ensures SameCall(Apply(cfg, s, a), c, d)
  {
    var s' := Apply(cfg, s, a);
    if c in s.calls && d in s.calls {
      assert SameCall(s, c, d);
    } else if c in s.calls || d in s.calls {
      var old_ := if c in s.calls then c else d;
      assert GoodCall(s, old_);
      if s.calls[old_].Computing? {
        assert GoodFlight(s, s.calls[old_].key);
      }
    }
  }

  lemma CallsStep(cfg: Config, s: State, a: Step)
    requires CallsInv(s) && Enabled(s, a)
    ensures CallsInv(Apply(cfg, s, a))
  {
    var s' := Apply(cfg, s, a);
    forall c | c in s'.calls ensures GoodCall(s', c) { GoodCallStep(cfg, s, a, c); }
    forall k | k in s'.store.flight ensures GoodFlight(s', k) { GoodFlightStep(cfg, s, a, k); }
    forall c, d | c in s'.calls && d in s'.calls ensures SameCall(s', c, d) { SameCallStep(cfg, s, a, c, d); }
    if a.Finish? || a.Fail? {
      assert GoodCall(s, a.c) && GoodFlight(s, s.calls[a.c].key);
    }
  }

  // --- what a discard leaves -----------------------------------------------------------------------------------

  /** A computation is older than the last discard of its map exactly if it was under way then. */
  ghost predicate AgeKnown(s: State, key: Key, begun: nat) {
    && begun < s.tick
    && (key.mapId in s.discards ==>
          var d := s.discards[key.mapId];
          begun < d.at <==> key in d.under && d.under[key] == begun)
  }

  ghost predicate ResultsInv(cfg: Config, s: State) {
    && Bounded(cfg, s.store.done)
    && (forall e {:trigger e in s.store.done} | e in s.store.done :: AgeKnown(s, e.key, e.begun))
    && (forall k {:trigger k in s.store.flight} | k in s.store.flight :: AgeKnown(s, k, s.store.flight[k]))
    && (forall m {:trigger GoodDiscard(s, m)} | m in s.discards :: GoodDiscard(s, m))
  }

  ghost predicate GoodDiscard(s: State, m: string)
    requires m in s.discards
  {
    s.discards[m].at < s.tick && forall k | k in s.discards[m].under :: s.discards[m].under[k] < s.discards[m].at
  }

  lemma AgeStep(cfg: Config, s: State, a: Step, key: Key, begun: nat)
    requires ResultsInv(cfg, s) && Enabled(s, a) && AgeKnown(s, key, begun)
    requires a == DiscardMap(key.mapId) ==> key in s.store.flight && s.store.flight[key] == begun
    ensures AgeKnown(Apply(cfg, s, a), key, begun)
  {
  }

  /** A computation that starts now is younger than every discard. */
  lemma NewAge(cfg: Config, s: State, a: Step, key: Key)
    requires ResultsInv(cfg, s) && Enabled(s, a) && a.Get?
    ensures AgeKnown(Apply(cfg, s, a), key, s.tick)
  {
    if key.mapId in s.discards { assert GoodDiscard(s, key.mapId); }
  }

  lemma DoneStep(cfg: Config, s: State, a: Step)
    requires CallsInv(s) && ResultsInv(cfg, s) && Enabled(s, a)
    ensures Bounded(cfg, Apply(cfg, s, a).store.done)
    ensures forall e | e in Apply(cfg, s, a).store.done :: AgeKnown(Apply(cfg, s, a), e.key, e.begun)
  {
    var s' := Apply(cfg, s, a);
    if a.Get? {
      PeekedKeeps(cfg, s.store.done, a.key, a.now);
    } else if a.Finish? {
      StoredKeeps(cfg, s.store.done, Entry(s.calls[a.c].key, a.now, a.value, s.calls[a.c].id));
    } else if a.DiscardMap? {
      WithoutDistinct(s.store.done, a.mapId);
    }
    forall e | e in s'.store.done ensures AgeKnown(s', e.key, e.begun) {
      if a.Finish? { assert GoodCall(s, a.c); }
      AgeStep(cfg, s, a, e.key, e.begun);
    }
  }

  lemma FlightStep(cfg: Config, s: State, a: Step)
    requires CallsInv(s) && ResultsInv(cfg, s) && Enabled(s, a)
    ensures forall k | k in Apply(cfg, s, a).store.flight ::
              AgeKnown(Apply(cfg, s, a), k, Apply(cfg, s, a).store.flight[k])
    ensures forall m | m in Apply(cfg, s, a).discards :: GoodDiscard(Apply(cfg, s, a), m)
  {
    var s' := Apply(cfg, s, a);
    forall k | k in s'.store.flight ensures AgeKnown(s', k, s'.store.flight[k]) {
      if k in s.store.flight {
        AgeStep(cfg, s, a, k, s.store.flight[k]);
      } else {
        NewAge(cfg, s, a, k);
      }
    }
    forall m | m in s'.discards ensures GoodDiscard(s', m) {
      if m in s.discards { assert GoodDiscard(s, m); }
    }
  }

  // --- over every run ------------------------------------------------------------------------------------------

  ghost predicate IsRun(cfg: Config, run: seq<Step>)
    decreases |run|, 0
  {
    run == [] || (IsRun(cfg, Front(run)) && Enabled(After(cfg, Front(run)), Last(run)))
  }

  ghost function After(cfg: Config, run: seq<Step>): State
    requires IsRun(cfg, run)
    decreases |run|, 1
  {
    if run == [] then EMPTY else Apply(cfg, After(cfg, Front(run)), Last(run))
  }

  lemma {:induction false} RunsKeepInv(cfg: Config, run: seq<Step>)
    requires IsRun(cfg, run)
    ensures CallsInv(After(cfg, run)) && ResultsInv(cfg, After(cfg, run))
  {
    if run != [] {
      var s := After(cfg, Front(run));
      RunsKeepInv(cfg, Front(run));
      CallsStep(cfg, s, Last(run));
      DoneStep(cfg, s, Last(run));
      FlightStep(cfg, s, Last(run));
    }
  }

  /** In every interleaving of calls, results, failures, cancels and discards: at most one call computes a key, the keys
      being computed are exactly those in flight, and at most `entries` results are kept, one per key. */
  lemma OneComputationPerKey(cfg: Config, run: seq<Step>)
    requires IsRun(cfg, run)
    ensures var s := After(cfg, run);
            && (forall c, d | c in s.calls && d in s.calls && s.calls[c].Computing? && s.calls[d].Computing?
                             && s.calls[c].key == s.calls[d].key :: c == d)
            && (forall k :: k in s.store.flight <==>
                  exists c | c in s.calls :: s.calls[c].Computing? && s.calls[c].key == k)
            && Bounded(cfg, s.store.done)
  {
    RunsKeepInv(cfg, run);
    var s := After(cfg, run);
    forall c, d | c in s.calls && d in s.calls && s.calls[c].Computing? && s.calls[d].Computing?
                  && s.calls[c].key == s.calls[d].key
      ensures c == d
    {
      assert GoodCall(s, c) && GoodCall(s, d) && SameCall(s, c, d);
    }
    forall k ensures k in s.store.flight <==> exists c | c in s.calls :: s.calls[c].Computing? && s.calls[c].key == k {
      if k in s.store.flight {
        assert GoodFlight(s, k);
        var c :| c in s.calls && s.calls[c] == Computing(k, s.store.flight[k]);
        assert s.calls[c].Computing? && s.calls[c].key == k;
      }
      if exists c | c in s.calls :: s.calls[c].Computing? && s.calls[c].key == k {
        var c :| c in s.calls && s.calls[c].Computing? && s.calls[c].key == k;
        assert GoodCall(s, c);
      }
    }
  }

  /** A call that waited is given the outcome of one computation of its own key. */
  lemma WaiterGetsItsKey(cfg: Config, run: seq<Step>, c: nat)
    requires IsRun(cfg, run) && Enabled(After(cfg, run), Wake(c))
    ensures var s := After(cfg, run); var o := s.ended[s.calls[c].id];
            o.key == s.calls[c].key && Apply(cfg, s, Wake(c)).calls[c] == Answer(o.value)
  {
    RunsKeepInv(cfg, run);
    var s := After(cfg, run);
    assert GoodCall(s, c);
    if s.calls[c].key in s.store.flight { assert GoodFlight(s, s.calls[c].key); }
  }

  /** A kept result is older than the last discard of its map if and only if its computation was under way then. */
  lemma OlderThanDiscardIff(cfg: Config, run: seq<Step>, e: Entry)
    requires IsRun(cfg, run) && e in After(cfg, run).store.done && e.key.mapId in After(cfg, run).discards
    ensures var d := After(cfg, run).discards[e.key.mapId];
            e.begun < d.at <==> e.key in d.under && d.under[e.key] == e.begun
  {
    RunsKeepInv(cfg, run);
  }

  lemma Extend(cfg: Config, run: seq<Step>, a: Step) returns (longer: seq<Step>)
    requires IsRun(cfg, run) && Enabled(After(cfg, run), a)
    ensures longer == run + [a] && IsRun(cfg, longer) && After(cfg, longer) == Apply(cfg, After(cfg, run), a)
  {
    longer := run + [a];
    assert Front(longer) == run;
  }

  /** It happens: a map is discarded while a result of it is computed, and the next call is given that result. */
  lemma DiscardedResultIsServed(cfg: Config, key: Key, stale: string) returns (run: seq<Step>)
    requires cfg.entries > 0 && cfg.ttl >= 0
    ensures run == [Get(0, key, 0), DiscardMap(key.mapId), Finish(0, stale, 0), Get(1, key, 0)]
    ensures IsRun(cfg, run) && After(cfg, run).calls[1] == Got(stale)
  {
    run := Extend(cfg, [], Get(0, key, 0));
    assert After(cfg, run).store == Store([], map[key := 0]);
    run := Extend(cfg, run, DiscardMap(key.mapId));
    assert After(cfg, run).store.done == [];
    run := Extend(cfg, run, Finish(0, stale, 0));
    assert After(cfg, run).store.done == [Entry(key, 0, stale, 0)];
    run := Extend(cfg, run, Get(1, key, 0));
  }
}
