/** Rebuilding occupancy from depth (packages/api/depth_rebuild.py): what a run writes, and the jobs that
    run it. */
module DepthRules {
  import opened Common
  import opened StringOrder

  /** A node as the listing gives it; "" is no session. `depth` holds the session ids of its depth records. */
  datatype Node = Node(key: string, session: string, depth: seq<string>, robotLayer: bool, depthLayer: bool,
                       storedMs: Option<int>)

  function FirstSession(depth: seq<string>): string {
    if depth == [] then "" else if depth[0] != "" then depth[0] else FirstSession(depth[1..])
  }

  function NodeSession(n: Node): string {
    if n.session != "" then n.session else FirstSession(n.depth)
  }

  predicate InScope(n: Node, session: Option<string>) {
    session.None? || NodeSession(n) == session.value
  }

  datatype Verdict = Generate | OtherSession | HasCostmap | HasDepthLayer | NoDepth

  function Classify(n: Node, session: Option<string>): Verdict {
    if !InScope(n, session) then OtherSession
    else if n.robotLayer then HasCostmap
    else if n.depthLayer then HasDepthLayer
    else if n.depth == [] then NoDepth
    else Generate
  }

  /** The session a node was recorded in: its own, else that of its first depth record that has one. */
  ghost predicate RecordedIn(n: Node, session: string) {
    if n.session != "" then session == n.session
    else if exists i | 0 <= i < |n.depth| :: n.depth[i] != ""
    then exists i | 0 <= i < |n.depth| :: n.depth[i] == session != "" && forall j | 0 <= j < i :: n.depth[j] == ""
    else session == ""
  }

  lemma {:induction false} FirstSessionMeans(depth: seq<string>)
    ensures if exists i | 0 <= i < |depth| :: depth[i] != ""
            then exists i | 0 <= i < |depth| :: depth[i] == FirstSession(depth) != ""
                      && forall j | 0 <= j < i :: depth[j] == ""
            else FirstSession(depth) == ""
  {
    if depth != [] && depth[0] == "" {
      var rest := depth[1..];
      FirstSessionMeans(rest);
      if exists i | 0 <= i < |rest| :: rest[i] != "" {
        var i :| 0 <= i < |rest| && rest[i] == FirstSession(rest) != "" && forall j | 0 <= j < i :: rest[j] == "";
        forall j | 0 <= j < i + 1 ensures depth[j] == "" {
          assert j > 0 ==> depth[j] == rest[j - 1];
        }
        assert depth[i + 1] == rest[i];
      } else {
        forall j | 0 <= j < |depth| ensures depth[j] == "" {
          assert j > 0 ==> depth[j] == rest[j - 1];
        }
      }
    }
  }

  /** A node is generated exactly if it is of the job's session, or the job has none, and it has depth but neither the
      robot's own costmap nor a layer from depth; of the reasons to skip it the first that applies is given. */
  lemma ClassifyMeans(n: Node, session: Option<string>)
    ensures RecordedIn(n, NodeSession(n))
    ensures var mine := session.None? || NodeSession(n) == session.value;
            && (Classify(n, session) == OtherSession <==> !mine)
            && (Classify(n, session) == HasCostmap <==> mine && n.robotLayer)
            && (Classify(n, session) == HasDepthLayer <==> mine && !n.robotLayer && n.depthLayer)
            && (Classify(n, session) == NoDepth <==> mine && !n.robotLayer && !n.depthLayer && n.depth == [])
            && (Classify(n, session) == Generate <==> mine && !n.robotLayer && !n.depthLayer && n.depth != [])
  {
    FirstSessionMeans(n.depth);
  }

  // --- the fold target -----------------------------------------------------------------------------------

  datatype Mark = Mark(ms: int, key: string)

  predicate MarkLe(a: Mark, b: Mark) {
    a.ms < b.ms || (a.ms == b.ms && StringLe(a.key, b.key))
  }

  lemma MarkLeTransitive(a: Mark, b: Mark, c: Mark)
    requires MarkLe(a, b) && MarkLe(b, c)
    ensures MarkLe(a, c)
  {
    if a.ms == b.ms == c.ms {
      StringLeTransitive(a.key, b.key, c.key);
    }
  }

  /** A stamped record of the occupancy role in scope. */
  predicate Stamped(n: Node, session: Option<string>) {
    InScope(n, session) && (n.robotLayer || n.depthLayer) && n.storedMs.Some? && n.storedMs.value > 0
  }

  function MarkOf(n: Node): Mark
    requires n.storedMs.Some?
  {
    Mark(n.storedMs.value, n.key)
  }

  /** A record counts if its node is in scope, it is of the occupancy role, and it is stamped. */
  lemma StampedMeans(n: Node, session: Option<string>)
    ensures Stamped(n, session) <==>
              && (session.None? || NodeSession(n) == session.value)
              && (n.robotLayer || n.depthLayer) && n.storedMs.Some? && n.storedMs.value > 0
  {
  }

  method FoldTarget(nodes: seq<Node>, session: Option<string>) returns (best: Option<Mark>)
    ensures best.None? <==> forall i | 0 <= i < |nodes| :: !Stamped(nodes[i], session)
    ensures best.Some? ==>
              && (exists i | 0 <= i < |nodes| :: Stamped(nodes[i], session) && MarkOf(nodes[i]) == best.value)
              && (forall i | 0 <= i < |nodes| && Stamped(nodes[i], session) :: MarkLe(MarkOf(nodes[i]), best.value))
    ensures best.Some? ==> forall i | 0 <= i < |nodes| && Stamped(nodes[i], session) ::
              var n := nodes[i];
              n.storedMs.value < best.value.ms || (n.storedMs.value == best.value.ms && StringLe(n.key, best.value.key))
  {
    best := None;
    for n := 0 to |nodes|
      invariant best.None? <==> forall i | 0 <= i < n :: !Stamped(nodes[i], session)
      invariant best.Some? ==> exists i | 0 <= i < n :: Stamped(nodes[i], session) && MarkOf(nodes[i]) == best.value
      invariant best.Some? ==>
                  forall i | 0 <= i < n && Stamped(nodes[i], session) :: MarkLe(MarkOf(nodes[i]), best.value)
    {
      if Stamped(nodes[n], session) {
        var item := MarkOf(nodes[n]);
        StringLeTotal(item.key, item.key);
        if best.None? || !MarkLe(item, best.value) {
          if best.Some? {
            StringLeTotal(item.key, best.value.key);
            forall i | 0 <= i < n && Stamped(nodes[i], session) ensures MarkLe(MarkOf(nodes[i]), item) {
              MarkLeTransitive(MarkOf(nodes[i]), best.value, item);
            }
          }
          best := Some(item);
        }
      }
    }
  }

  /** caught_up: a cursor at or past the target is at or past every stamped record in scope. */
  lemma CaughtUpCoversAll(nodes: seq<Node>, session: Option<string>, target: Mark, cursor: Mark)
    requires forall i | 0 <= i < |nodes| && Stamped(nodes[i], session) :: MarkLe(MarkOf(nodes[i]), target)
    requires MarkLe(target, cursor)
    ensures forall i | 0 <= i < |nodes| && Stamped(nodes[i], session) :: MarkLe(MarkOf(nodes[i]), cursor)
  {
    forall i | 0 <= i < |nodes| && Stamped(nodes[i], session) ensures MarkLe(MarkOf(nodes[i]), cursor) {
      MarkLeTransitive(MarkOf(nodes[i]), target, cursor);
    }
  }
}

/** Waiting, for a bounded time, until the scene graph holds every occupancy record of the listing. */
module DepthFold {
  import opened Common
  import opened StringOrder
  import opened DepthRules

  datatype FoldState = NotNeeded | WorkerOff | MapDisabled | CaughtUp | NotWaited | TimedOut

  /** What each look of the loop finds: the cursor (`None`: none yet, or the read failed), a cancel, the clock. */
  datatype Looks = Looks(cursors: nat -> Option<Mark>, cancelled: nat -> bool, times: nat -> real)

  predicate AtTarget(w: Looks, target: Mark, i: nat) {
    w.cursors(i).Some? && MarkLe(target, w.cursors(i).value)
  }

  predicate LookEnds(w: Looks, target: Mark, deadline: real, i: nat) {
    AtTarget(w, target, i) || w.cancelled(i) || w.times(i) >= deadline
  }

  /** The greatest stamped record in scope, if there is one. */
  ghost predicate IsTarget(nodes: seq<Node>, session: Option<string>, target: Option<Mark>) {
    && (target.None? <==> forall i | 0 <= i < |nodes| :: !Stamped(nodes[i], session))
    && (target.Some? ==>
          && (exists i | 0 <= i < |nodes| :: Stamped(nodes[i], session) && MarkOf(nodes[i]) == target.value)
          && (forall i | 0 <= i < |nodes| && Stamped(nodes[i], session) :: MarkLe(MarkOf(nodes[i]), target.value)))
  }

  /** The first look that decides, in the order the loop asks. */
  ghost predicate FoldEnds(w: Looks, target: Mark, deadline: real, n: nat, state: FoldState) {
    && (forall i | 0 <= i < n :: !LookEnds(w, target, deadline, i))
    && LookEnds(w, target, deadline, n)
    && state == (if AtTarget(w, target, n) then CaughtUp else if w.cancelled(n) then NotWaited else TimedOut)
  }

  /** _fold. `bound`: a look past the deadline, which an advancing clock reaches. `caught_up` means that the cursor read
      is at or past every stamped record in scope of the listing. */
  method Fold(nodes: seq<Node>, session: Option<string>, workerOn: bool, mapOn: bool, w: Looks, deadline: real,
              ghost bound: nat)
    returns (state: FoldState, target: Option<Mark>, n: nat)
    requires w.times(bound) >= deadline
    ensures IsTarget(nodes, session, target)
    ensures state == NotNeeded <==> target.None?
    ensures state == WorkerOff <==> target.Some? && !workerOn
    ensures state == MapDisabled <==> target.Some? && workerOn && !mapOn
    ensures target.Some? && workerOn && mapOn ==> n <= bound && FoldEnds(w, target.value, deadline, n, state)
    ensures state == CaughtUp ==> w.cursors(n).Some? && forall i | 0 <= i < |nodes| && Stamped(nodes[i], session) ::
              var c, m := w.cursors(n).value, nodes[i];
              m.storedMs.value < c.ms || (m.storedMs.value == c.ms && StringLe(m.key, c.key))
  {
    n := 0;
    target := FoldTarget(nodes, session);
    if target.None? { return NotNeeded, target, n; }
    if !workerOn { return WorkerOff, target, n; }
    if !mapOn { return MapDisabled, target, n; }
    while true
      invariant n <= bound && forall i | 0 <= i < n :: !LookEnds(w, target.value, deadline, i)
      decreases bound - n
    {
      var cursor := w.cursors(n);
      if cursor.Some? && MarkLe(target.value, cursor.value) {
        CaughtUpCoversAll(nodes, session, target.value, cursor.value);
        return CaughtUp, target, n;
      }
      if w.cancelled(n) { return NotWaited, target, n; }
      if w.times(n) >= deadline { return TimedOut, target, n; }
      n := n + 1;
    }
  }

  /** Looks and listing determine how the wait ends. */
  lemma FoldDetermined(w: Looks, target: Mark, deadline: real, n: nat, state: FoldState, n': nat, state': FoldState)
    requires FoldEnds(w, target, deadline, n, state) && FoldEnds(w, target, deadline, n', state')
    ensures n == n' && state == state'
  {
  }
}

/** One run over the nodes of a map: the PNG first, then the record. */
module DepthRun {
  import opened Common
  import opened DepthRules

  class Stores {
    var pngs: set<string>     // nodes with a stored occupancy_depth PNG
    var records: set<string>  // nodes with an occupancy_depth record

    /** No record exists without its PNG. */
    ghost predicate Valid()
      reads this
    {
      records <= pngs
    }

    constructor ()
      ensures Valid() && pngs == {} && records == {}
    {
      pngs, records := {}, {};
    }

    /** _one: the cameras in order until one gives a layer; whatever fails is a counted failure. A failing
        write may or may not have reached its store. */
    method One(key: string, cameras: nat) returns (generated: bool)
      requires Valid()
      modifies this
      ensures Valid() && old(pngs) <= pngs <= old(pngs) + {key} && old(records) <= records <= old(records) + {key}
      ensures generated ==> key in records
    {
      for c := 0 to cameras
        invariant pngs == old(pngs) && records == old(records)
      {
        var built: bool := *;  // pose, download and decoding of this camera
        if built {
          var pngWritten: bool, pngOk: bool := *, *;
          if pngWritten || pngOk {
            pngs := pngs + {key};
          }
          if !pngOk {
            return false;
          }
          var recordWritten: bool, recordOk: bool := *, *;
          if recordWritten || recordOk {
            records := records + {key};
          }
          return recordOk;
        }
      }
      return false;
    }
  }

  /** What the listing of the same nodes shows after a run: a node with a record has the layer. */
  function Relisted(n: Node, records: set<string>): Node {
    if n.key in records then n.(depthLayer := true) else n
  }

  datatype Counts = Counts(toGenerate: nat, done: nat, generated: nat, failed: nat)

  /** _generate: the nodes to generate in order; a cancel or a failing map check ends it between two nodes.
      `made` and `failedKeys` are the nodes counted as generated and as failed. */
  method GenerateAll(stores: Stores, nodes: seq<Node>, session: Option<string>)
    returns (counts: Counts, complete: bool, ghost made: seq<string>, ghost failedKeys: seq<string>)
    requires stores.Valid()
    modifies stores
    ensures stores.Valid() && old(stores.records) <= stores.records
    ensures counts.done == counts.generated + counts.failed <= counts.toGenerate
    ensures counts.generated == |made| && counts.failed == |failedKeys| && forall k | k in made :: k in stores.records
    ensures complete ==> counts.done == counts.toGenerate
    ensures forall k | k in stores.records - old(stores.records) ::
              exists i | 0 <= i < |nodes| :: nodes[i].key == k && Classify(nodes[i], session) == Generate
    ensures complete ==> forall i | 0 <= i < |nodes| && Classify(nodes[i], session) == Generate ::
              nodes[i].key in stores.records || nodes[i].key in failedKeys
  {
    var todo: seq<Node> := [];
    for n := 0 to |nodes|
      invariant forall i | 0 <= i < |todo| :: Listed(nodes, session, todo[i])
      invariant forall i | 0 <= i < n && Classify(nodes[i], session) == Generate :: nodes[i] in todo
    {
      if Classify(nodes[n], session) == Generate {
        todo := todo + [nodes[n]];
      }
    }
    counts := Counts(|todo|, 0, 0, 0);
    made, failedKeys := [], [];
    complete := false;
    for n := 0 to |todo|
      invariant stores.Valid() && old(stores.records) <= stores.records
      invariant counts.toGenerate == |todo| && counts.done == n == counts.generated + counts.failed
      invariant forall k | k in stores.records - old(stores.records) :: Among(todo, n, k)
      invariant forall i | 0 <= i < n :: todo[i].key in stores.records || todo[i].key in failedKeys
      invariant counts.generated == |made| && counts.failed == |failedKeys|
                && forall k | k in made :: k in stores.records
      invariant !complete
    {
      var cancelled: bool, mapGone: bool := *, *;
      if cancelled || mapGone {
        forall k | Among(todo, n, k) ensures Among(todo, |todo|, k) {
          AmongAll(todo, n, k);
        }
        ListedBack(nodes, session, todo, stores.records - old(stores.records));
        return;
      }
      ghost var before := stores.records;
      var ok := stores.One(todo[n].key, |todo[n].depth|);
      if ok {
        counts := counts.(generated := counts.generated + 1);
        made := made + [todo[n].key];
      } else {
        counts := counts.(failed := counts.failed + 1);
        failedKeys := failedKeys + [todo[n].key];
      }
      forall k | k in stores.records - old(stores.records) ensures Among(todo, n + 1, k) {
        assert k in before - old(stores.records) || k == todo[n].key;
        AmongStep(todo, n, k);
      }
      counts := counts.(done := counts.done + 1);
    }
    complete := true;
    ListedBack(nodes, session, todo, stores.records - old(stores.records));
    forall i | 0 <= i < |nodes| && Classify(nodes[i], session) == Generate
      ensures nodes[i].key in stores.records || nodes[i].key in failedKeys
    {
      assert nodes[i] in todo;
    }
  }

  ghost predicate Listed(nodes: seq<Node>, session: Option<string>, x: Node) {
    x in nodes && Classify(x, session) == Generate
  }

  ghost predicate Among(todo: seq<Node>, n: nat, k: string)
    requires n <= |todo|
  {
    exists i | 0 <= i < n :: todo[i].key == k
  }

  lemma AmongStep(todo: seq<Node>, n: nat, k: string)
    requires n < |todo| && (Among(todo, n, k) || k == todo[n].key)
    ensures Among(todo, n + 1, k)
  {
  }

  lemma AmongAll(todo: seq<Node>, n: nat, k: string)
    requires n <= |todo| && Among(todo, n, k)
    ensures Among(todo, |todo|, k)
  {
  }

  lemma ListedBack(nodes: seq<Node>, session: Option<string>, todo: seq<Node>, written: set<string>)
    requires forall i | 0 <= i < |todo| :: Listed(nodes, session, todo[i])
    requires forall k | k in written :: Among(todo, |todo|, k)
    ensures forall k | k in written ::
              exists i | 0 <= i < |nodes| :: nodes[i].key == k && Classify(nodes[i], session) == Generate
  {
    forall k | k in written
      ensures exists i | 0 <= i < |nodes| :: nodes[i].key == k && Classify(nodes[i], session) == Generate
    {
      var j :| 0 <= j < |todo| && todo[j].key == k;
      assert Listed(nodes, session, todo[j]);
    }
  }

  /** Running it again over the relisted nodes has only the failed ones left to generate, and a robot
      costmap or an existing layer is never generated over. */
  lemma RerunOnlyFailed(nodes: seq<Node>, session: Option<string>, records: set<string>,
                        failedKeys: seq<string>, n: nat)
    requires n < |nodes|
    requires forall i | 0 <= i < |nodes| && Classify(nodes[i], session) == Generate ::
               nodes[i].key in records || nodes[i].key in failedKeys
    ensures Classify(Relisted(nodes[n], records), session) == Generate
            ==> Classify(nodes[n], session) == Generate && nodes[n].key in failedKeys
    ensures nodes[n].robotLayer || nodes[n].depthLayer ==> Classify(nodes[n], session) != Generate
  {
  }

  /** The listing after a run. */
  function RelistedAll(nodes: seq<Node>, records: set<string>): (r: seq<Node>)
    ensures |r| == |nodes| && forall i | 0 <= i < |nodes| :: r[i] == Relisted(nodes[i], records)
  {
    seq(|nodes|, i requires 0 <= i < |nodes| => Relisted(nodes[i], records))
  }

  /** A complete run and another one over the new listing: the second writes only nodes that the first counted as
      failed, and has nothing to generate if there was no failure. */
  method GenerateTwice(stores: Stores, nodes: seq<Node>, session: Option<string>)
    returns (first: Counts, second: Counts, complete: bool, ghost failedKeys: seq<string>, ghost between: set<string>)
    requires stores.Valid()
    modifies stores
    ensures stores.Valid() && old(stores.records) <= between <= stores.records
    ensures complete ==> forall k | k in stores.records - between :: k in failedKeys
    ensures complete && first.failed == 0 ==> stores.records == between
    ensures |failedKeys| == first.failed
  {
    ghost var made;
    first, complete, made, failedKeys := GenerateAll(stores, nodes, session);
    between := stores.records;
    var relisted := RelistedAll(nodes, stores.records);
    ghost var made2, failed2;
    var complete2;
    second, complete2, made2, failed2 := GenerateAll(stores, relisted, session);
    ghost var added := stores.records - between;
    if complete {
      forall k | k in added ensures k in failedKeys {
        var i :| 0 <= i < |relisted| && relisted[i].key == k && Classify(relisted[i], session) == Generate;
        RerunOnlyFailed(nodes, session, between, failedKeys, i);
      }
      assert first.failed == 0 ==> added == {};
    }
    assert stores.records == between + added;
  }
}

/** The jobs: concurrent starts, one generation slot, cancels, and a stop of the whole service. Each step
    is what runs between two awaits. */
module DepthJobs {
  import opened Common
  import opened DepthFold

  datatype Phase = Queued | Generating | Folding | Succeeded | Failed | Cancelled
  datatype Job = Job(mapName: string, session: Option<string>, phase: Phase, toGenerate: nat,
                     done: nat, generated: nat, failed: nat, cancelRequested: bool, inThread: bool)
  {
    predicate Active() {
      phase == Queued || phase == Generating || phase == Folding
    }
  }

  datatype Request = Request(mapName: string, session: Option<string>)
  datatype Answer = Started(job: nat) | SameJob(job: nat) | Conflict(job: nat) | Refused

  datatype State = State(jobs: map<nat, Job>, latest: map<string, nat>, slot: Option<nat>,
                         asking: map<nat, Request>, answers: map<nat, Answer>, nextJob: nat)

  const IDLE: State := State(map[], map[], None, map[], map[], 0)

  datatype Step =
    | Ask(r: nat, request: Request)          // start() up to its first await
    | Refuse(r: nat)                         // a guard said 404 / 409
    | Decide(r: nat)                         // start() after its last await: create, or answer with the winner
    | Cancel(mapName: string)
    | Enter(j: nat, toGenerate: nat)         // the semaphore lets the job in
    | Dispatch(j: nat)                       // _one starts in its thread
    | Handle(j: nat, ok: bool)               // the thread counts its node, whoever still waits for it
    | Count(j: nat)                          // done += 1
    | Interrupt(j: nat, mapGone: bool)       // between two nodes: cancelled, or the map check failed
    | Leave(j: nat)                          // every node handled; the slot is free again
    | EndFold(j: nat, state: Option<FoldState>)  // None: it raised
    | Kill(j: nat)                           // the service stops its run; a thread goes on

  predicate Busy(s: State, m: string) {
    m in s.latest && s.latest[m] in s.jobs && s.jobs[s.latest[m]].Active()
  }

  function AnswerFor(s: State, q: Request): Answer
    requires Busy(s, q.mapName)
  {
    var j := s.latest[q.mapName];
    if s.jobs[j].session == q.session then SameJob(j) else Conflict(j)
  }

  predicate Enabled(s: State, a: Step) {
    match a
    case Ask(r, _) => r !in s.asking && r !in s.answers
    case Refuse(r) => r in s.asking
    case Decide(r) => r in s.asking
    case Cancel(m) => Busy(s, m)
    case Enter(j, _) => j in s.jobs && s.jobs[j].phase == Queued && s.slot.None?
    case Dispatch(j) => j in s.jobs && s.jobs[j].phase == Generating && !s.jobs[j].inThread
                        && s.jobs[j].generated + s.jobs[j].failed == s.jobs[j].done < s.jobs[j].toGenerate
    case Handle(j, _) => j in s.jobs && s.jobs[j].inThread
    case Count(j) => j in s.jobs && s.jobs[j].phase == Generating
                     && s.jobs[j].generated + s.jobs[j].failed == s.jobs[j].done + 1
    case Interrupt(j, gone) => j in s.jobs && s.jobs[j].phase == Generating && (gone || s.jobs[j].cancelRequested)
                               && !s.jobs[j].inThread
                               && s.jobs[j].generated + s.jobs[j].failed == s.jobs[j].done < s.jobs[j].toGenerate
    case Leave(j) => j in s.jobs && s.jobs[j].phase == Generating && s.jobs[j].done == s.jobs[j].toGenerate
    case EndFold(j, state) => j in s.jobs && s.jobs[j].phase == Folding
                              && (state == Some(NotWaited) ==> s.jobs[j].cancelRequested)
    case Kill(j) => j in s.jobs && s.jobs[j].Active()
  }

  function With(s: State, j: nat, job: Job): State {
    s.(jobs := s.jobs[j := job])
  }

  /** How a job ends after its wait for the fold. */
  function PhaseAfter(state: Option<FoldState>): Phase {
    match state
    case None => Failed
    case Some(NotWaited) => Cancelled
    case Some(_) => Succeeded
  }

  function Apply(s: State, a: Step): State
    requires Enabled(s, a)
  {
    match a
    case Ask(r, q) =>
      if Busy(s, q.mapName) then s.(answers := s.answers[r := AnswerFor(s, q)])
      else s.(asking := s.asking[r := q])
    case Refuse(r) => s.(asking := s.asking - {r}, answers := s.answers[r := Refused])
    case Decide(r) =>
      var q := s.asking[r];
      if Busy(s, q.mapName) then s.(asking := s.asking - {r}, answers := s.answers[r := AnswerFor(s, q)])
      else s.(asking := s.asking - {r}, answers := s.answers[r := Started(s.nextJob)],
              jobs := s.jobs[s.nextJob := Job(q.mapName, q.session, Queued, 0, 0, 0, 0, false, false)],
              latest := s.latest[q.mapName := s.nextJob], nextJob := s.nextJob + 1)
    case Cancel(m) => With(s, s.latest[m], s.jobs[s.latest[m]].(cancelRequested := true))
    case Enter(j, n) =>
      var job := s.jobs[j];
      if job.cancelRequested then With(s, j, job.(phase := Cancelled))
      else With(s, j, job.(phase := Generating, toGenerate := n)).(slot := Some(j))
    case Dispatch(j) => With(s, j, s.jobs[j].(inThread := true))
    case Handle(j, ok) =>
      var job := s.jobs[j].(inThread := false);
      With(s, j, if ok then job.(generated := job.generated + 1) else job.(failed := job.failed + 1))
    case Count(j) => With(s, j, s.jobs[j].(done := s.jobs[j].done + 1))
    case Interrupt(j, gone) =>
      With(s, j, s.jobs[j].(phase := if gone then Failed else Cancelled)).(slot := None)
    case Leave(j) =>
      var job := s.jobs[j];
      var phase := if job.cancelRequested then Cancelled
                   else if job.toGenerate > 0 && job.generated == 0 then Failed else Folding;
      With(s, j, job.(phase := phase)).(slot := None)
    case EndFold(j, state) => With(s, j, s.jobs[j].(phase := PhaseAfter(state)))
    case Kill(j) => With(s, j, s.jobs[j].(phase := Cancelled)).(slot := if s.slot == Some(j) then None else s.slot)
  }

  /** Nodes that are counted or in the thread. */
  function Begun(job: Job): nat {
    job.generated + job.failed + if job.inThread then 1 else 0
  }

  /** The books of a job: what is done was generated or failed, with at most one node in its thread. */
  predicate Accounted(job: Job) {
    && job.done <= job.generated + job.failed && Begun(job) <= job.done + 1 && Begun(job) <= job.toGenerate
    && (job.inThread ==> job.phase == Generating || job.phase == Cancelled)
    && (job.phase == Folding || job.phase == Succeeded ==> job.done == job.toGenerate == job.generated + job.failed)
    && (job.phase == Queued ==> job.toGenerate == 0)
    && (job.phase == Failed ==> job.done == job.generated + job.failed)
    && ((job.phase == Folding || job.phase == Succeeded) && job.toGenerate > 0 ==> job.generated > 0)
  }

  /** An active job is the latest of its map; a generating one holds the slot. */
  ghost predicate GoodJob(s: State, j: nat)
    requires j in s.jobs
  {
    var job := s.jobs[j];
    && j < s.nextJob && Accounted(job)
    && (job.Active() ==> job.mapName in s.latest && s.latest[job.mapName] == j)
    && (job.phase == Generating <==> s.slot == Some(j))
  }

  ghost predicate Inv(s: State) {
    && (forall j {:trigger GoodJob(s, j)} | j in s.jobs :: GoodJob(s, j))
    && (forall m {:trigger GoodMap(s, m)} | m in s.latest :: GoodMap(s, m))
    && (s.slot.Some? ==> s.slot.value in s.jobs)
  }

  ghost predicate GoodMap(s: State, m: string)
    requires m in s.latest
  {
    s.latest[m] in s.jobs && s.jobs[s.latest[m]].mapName == m
  }

  /** The step changes this job itself. */
  predicate Concerns(s: State, a: Step, j: nat) {
    match a
    case Cancel(m) => m in s.latest && s.latest[m] == j
    case Ask(_, _) => false
    case Refuse(_) => false
    case Decide(_) => false
    case _ => a.j == j
  }

  lemma OtherJobsKept(s: State, a: Step, j: nat)
    requires Inv(s) && Enabled(s, a) && j in s.jobs && !Concerns(s, a, j)
    ensures j in Apply(s, a).jobs && Apply(s, a).jobs[j] == s.jobs[j]
    ensures GoodJob(Apply(s, a), j)
  {
    assert GoodJob(s, j);
    if a.Interrupt? || a.Leave? || a.Kill? {
      assert GoodJob(s, a.j);
    }
  }

  lemma OwnJobKept(s: State, a: Step, j: nat)
    requires Inv(s) && Enabled(s, a) && j in s.jobs && Concerns(s, a, j)
    ensures j in Apply(s, a).jobs && GoodJob(Apply(s, a), j)
  {
    assert GoodJob(s, j);
  }

  lemma InvStep(s: State, a: Step)
    requires Inv(s) && Enabled(s, a)
    ensures Inv(Apply(s, a))
  {
    var s' := Apply(s, a);
    forall j | j in s'.jobs ensures GoodJob(s', j) {
      if j !in s.jobs {
        assert a.Decide? && j == s.nextJob;
        assert s.slot.Some? ==> GoodJob(s, s.slot.value);
      } else if Concerns(s, a, j) {
        OwnJobKept(s, a, j);
      } else {
        OtherJobsKept(s, a, j);
      }
    }
    forall m | m in s'.latest ensures GoodMap(s', m) {
      assert m in s.latest ==> GoodMap(s, m) && GoodJob(s, s.latest[m]);
    }
  }

  ghost predicate IsRun(s: State, run: seq<Step>)
    decreases |run|, 0
  {
    run == [] || (IsRun(s, Front(run)) && Enabled(After(s, Front(run)), Last(run)))
  }

  ghost function After(s: State, run: seq<Step>): State
    requires IsRun(s, run)
    decreases |run|, 1
  {
    if run == [] then s else Apply(After(s, Front(run)), Last(run))
  }

  lemma {:induction false} RunsKeepInv(s: State, run: seq<Step>)
    requires Inv(s) && IsRun(s, run)
    ensures Inv(After(s, run))
  {
    if run != [] {
      RunsKeepInv(s, Front(run));
      InvStep(After(s, Front(run)), Last(run));
    }
  }

  /** In every interleaving: one active job per map, one job generating, balanced books. */
  lemma JobsExclusive(run: seq<Step>)
    requires IsRun(IDLE, run)
    ensures var s := After(IDLE, run);
            && (forall i, j | i in s.jobs && j in s.jobs && s.jobs[i].Active() && s.jobs[j].Active()
                             && s.jobs[i].mapName == s.jobs[j].mapName :: i == j)
            && (forall i, j | i in s.jobs && j in s.jobs && s.jobs[i].phase == Generating
                             && s.jobs[j].phase == Generating :: i == j)
            && (forall j | j in s.jobs :: Accounted(s.jobs[j]))
  {
    RunsKeepInv(IDLE, run);
    var s := After(IDLE, run);
    assert forall j | j in s.jobs :: GoodJob(s, j);
  }

  /** All of a job but what its thread counts. */
  function Settled(job: Job): Job {
    job.(generated := 0, failed := 0, inThread := false)
  }

  lemma TerminalStep(s: State, a: Step, j: nat)
    requires Inv(s) && Enabled(s, a) && j in s.jobs && !s.jobs[j].Active()
    ensures j in Apply(s, a).jobs && !Apply(s, a).jobs[j].Active()
    ensures var job, after := s.jobs[j], Apply(s, a).jobs[j];
            && Settled(after) == Settled(job) && Begun(after) == Begun(job)
            && job.generated <= after.generated && job.failed <= after.failed
            && (after != job <==> a.Handle? && a.j == j)
            && (after != job ==> job.inThread && !after.inThread)
  {
    assert GoodJob(s, j);
    if !(a.Handle? && a.j == j) {
      assert !Concerns(s, a, j);
      OtherJobsKept(s, a, j);
    }
  }

  /** The thread of job j comes to its end in the run. */
  ghost predicate ThreadEnds(run: seq<Step>, j: nat) {
    exists n | 0 <= n < |run| :: run[n].Handle? && run[n].j == j
  }

  /** A terminal job never changes again, whatever else happens, with one exception: the thread of a node that
      outlives a stop still counts that node, once, exactly if it comes to its end. */
  lemma {:induction false} TerminalForever(s: State, run: seq<Step>, j: nat)
    requires Inv(s) && IsRun(s, run) && j in s.jobs && !s.jobs[j].Active()
    ensures j in After(s, run).jobs && !After(s, run).jobs[j].Active()
    ensures var job, after := s.jobs[j], After(s, run).jobs[j];
            && Settled(after) == Settled(job) && Begun(after) == Begun(job)
            && job.generated <= after.generated && job.failed <= after.failed
            && (after != job <==> ThreadEnds(run, j))
            && (after != job ==> job.inThread && !after.inThread)
  {
    if run != [] {
      TerminalForever(s, Front(run), j);
      RunsKeepInv(s, Front(run));
      TerminalStep(After(s, Front(run)), Last(run), j);
      ThreadEndsStep(run, j);
    }
  }

  lemma ThreadEndsStep(run: seq<Step>, j: nat)
    requires run != []
    ensures ThreadEnds(run, j) <==> ThreadEnds(Front(run), j) || (Last(run).Handle? && Last(run).j == j)
  {
    if ThreadEnds(Front(run), j) {
      var n :| 0 <= n < |run| - 1 && Front(run)[n].Handle? && Front(run)[n].j == j;
      assert run[n].Handle?;
    }
    if Last(run).Handle? && Last(run).j == j {
      assert run[|run| - 1].Handle?;
    }
  }

  /** A job whose fold caught up, timed out, was not needed or not wanted has succeeded; only one that was cancelled
      while it waited is cancelled, and one whose wait raised has failed. */
  lemma FoldEndsJob(s: State, j: nat, state: Option<FoldState>)
    requires Enabled(s, EndFold(j, state))
    ensures var phase := Apply(s, EndFold(j, state)).jobs[j].phase;
            && (phase == Succeeded <==>
                  state in {Some(CaughtUp), Some(TimedOut), Some(NotNeeded), Some(WorkerOff), Some(MapDisabled)})
            && (phase == Cancelled <==> state == Some(NotWaited)) && (phase == Failed <==> state.None?)
  {
  }

  /** A job that was cancelled while it waited for the slot ends without taking it; any other generates. Between
      two nodes a cancel ends the job as cancelled, a map that is gone as failed. Either way the slot is free again. */
  lemma SlotMeans(s: State, j: nat, n: nat, gone: bool)
    ensures Enabled(s, Enter(j, n)) ==>
              var job, s' := s.jobs[j], Apply(s, Enter(j, n));
              if job.cancelRequested then s'.jobs[j] == job.(phase := Cancelled) && s'.slot.None?
              else s'.jobs[j] == job.(phase := Generating, toGenerate := n) && s'.slot == Some(j)
    ensures Enabled(s, Interrupt(j, gone)) ==>
              var s' := Apply(s, Interrupt(j, gone));
              s'.jobs[j] == s.jobs[j].(phase := if gone then Failed else Cancelled) && s'.slot.None?
  {
  }

  /** After its last node a job is cancelled if that was asked, failed if it had nodes and generated none, and folds
      otherwise. */
  lemma LeaveMeans(s: State, j: nat)
    requires Enabled(s, Leave(j))
    ensures var job, phase := s.jobs[j], Apply(s, Leave(j)).jobs[j].phase;
            && (phase == Cancelled <==> job.cancelRequested)
            && (phase == Failed <==> !job.cancelRequested && job.toGenerate > 0 && job.generated == 0)
            && (phase == Folding <==> !job.cancelRequested && (job.toGenerate == 0 || job.generated > 0))
  {
  }

  /** A start answered with a running job names the active job of its map, of its own scope or another. */
  lemma AnswersName(s: State, a: Step, r: nat)
    requires Inv(s) && Enabled(s, a) && (a == Decide(r) || (a.Ask? && a.r == r))
    ensures var s' := Apply(s, a);
            var q := if a.Ask? then a.request else s.asking[r];
            r in s'.answers && !s'.answers[r].Refused? ==>
              var j := s'.answers[r].job;
              && j in s'.jobs && s'.jobs[j].Active() && s'.jobs[j].mapName == q.mapName
              && (s'.answers[r].Conflict? <==> s'.jobs[j].session != q.session)
  {
    var q := if a.Ask? then a.request else s.asking[r];
    if Busy(s, q.mapName) {
      assert GoodMap(s, q.mapName);
    }
  }
}
