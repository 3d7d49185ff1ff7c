/** Moving legacy nodes into their map's frame and back (tools/maps_m2_legacy_nodes.py): one update of the
    ArangoDB nodes, then one Postgres transaction, with a possible stop in between. */
module LegacyNodes {
  import opened Common

  datatype Key = Key(name: string)
  datatype SessionId = SessionId(name: string)
  datatype FieldName = X | Y | Yaw | Theta | Other(name: string)

  /** A pose document: its numeric fields. */
  type Fields = map<FieldName, real>
  datatype Pose = Pose(x: real, y: real, yaw: real)

  /** A node. `robotPose`: the attribute is absent, or holds a pose document or null. */
  datatype Doc = Doc(pose: Option<Fields>, robotPose: Option<Option<Fields>>, session: Option<SessionId>)

  datatype Transform = Transform(tx: real, ty: real, yaw: real)
  const IDENTITY := Transform(0.0, 0.0, 0.0)

  /** What the geometry modules compute. */
  datatype Geometry<!Geo, !Datum> = Geometry(
    sessionTransform: (Geo, Datum) -> Transform,
    originAsDatum: Geo -> Datum,
    applyPose: (Transform, Pose) -> Pose)

  datatype Legacy<Datum> = Legacy(sid: SessionId, datum: Option<Datum>, mapT: Option<Transform>, nodeCount: nat)
  datatype Counts = Counts(nodes: nat, edges: nat)
  /** A map's rows. `geo`: its origin, on a geo map that has one. */
  datatype Pg<Geo, Datum> = Pg(geo: Option<Geo>, specDatum: Option<Datum>,
                               legacy: Option<Legacy<Datum>>, counts: Counts)
  /** Both stores: the node documents by key and the number of edges (ArangoDB), the rows (Postgres). */
  datatype World<Geo, Datum> = World(docs: map<Key, Doc>, edges: nat, pg: Pg<Geo, Datum>)

  // --- one node ------------------------------------------------------------------------------------------

  function Field(f: Fields, k: FieldName, default: real): real {
    if k in f then f[k] else default
  }

  function PoseOf(d: Doc): Pose {
    var f := if d.pose.Some? then d.pose.value else map[];
    Pose(Field(f, X, 0.0), Field(f, Y, 0.0), Field(f, Yaw, Field(f, Theta, 0.0)))
  }

  function PoseFields(p: Pose): Fields {
    map[X := p.x, Y := p.y, Yaw := p.yaw]
  }

  /** UPDATE merges an object into the stored one; null replaces it. */
  function Merged(stored: Option<Fields>, update: Fields): Option<Fields> {
    Some((if stored.Some? then stored.value else map[]) + update)
  }

  /** UPDATE_AQL on one document. */
  function Migrated(d: Doc, p: Pose, sid: SessionId): Doc {
    if d.robotPose.Some? then d
    else d.(pose := Merged(d.pose, PoseFields(p)), robotPose := Some(d.pose), session := Some(sid))
  }

  /** REVERT_AQL on one document: a null pose removes the attribute. */
  function Reverted(d: Doc): Doc {
    if d.robotPose.None? then d
    else d.(pose := if d.robotPose.value.None? then None else Merged(d.pose, d.robotPose.value.value),
            robotPose := None, session := None)
  }

  /** Revert gives a migrated node back exactly when it had no session id and its pose, if it had one, had
      x, y and yaw: a pose without one of them keeps the field the migration added. */
  lemma RevertRestoresIff(d: Doc, p: Pose, sid: SessionId)
    requires d.robotPose.None?
    ensures Reverted(Migrated(d, p, sid)) == d <==>
              && d.session.None?
              && (d.pose.Some? ==> {X, Y, Yaw} <= d.pose.value.Keys)
  {
    var r := Reverted(Migrated(d, p, sid));
    if d.pose.Some? {
      var f := d.pose.value;
      var back := f + PoseFields(p) + f;
      assert r.pose == Some(back);
      assert back.Keys == f.Keys + {X, Y, Yaw};
      if {X, Y, Yaw} <= f.Keys {
        assert back == f;
      }
    }
  }

  // --- plans ---------------------------------------------------------------------------------------------

  /** What one run sets: `None` for a column that already holds the wanted value. */
  datatype Plan<Datum> = Plan(
    sid: SessionId, updates: map<Key, Pose>,
    newT: Option<Transform>, newCount: Option<nat>, newDatum: Option<Datum>, newCounts: Option<Counts>)
  {
    predicate Changes() {
      updates != map[] || newT.Some? || newCount.Some? || newDatum.Some? || newCounts.Some?
    }
  }

  /** The nodes a run moves. */
  function Pending(docs: map<Key, Doc>): set<Key> {
    set k | k in docs && docs[k].robotPose.None?
  }

  /** The nodes of session `sid` that are in the map frame already. */
  function Tagged(docs: map<Key, Doc>, sid: SessionId): set<Key> {
    set k | k in docs && docs[k].robotPose.Some? && docs[k].session == Some(sid)
  }

  function LegacyTransform<G, D>(g: Geometry<G, D>, pg: Pg<G, D>): Transform {
    if pg.legacy.None? || pg.geo.None? then IDENTITY
    else
      var datum := if pg.legacy.value.datum.Some? then pg.legacy.value.datum else pg.specDatum;
      if datum.None? then IDENTITY else g.sessionTransform(pg.geo.value, datum.value)
  }

  function Differs<T(==)>(current: Option<T>, wanted: T): Option<T> {
    if current == Some(wanted) then None else Some(wanted)
  }

  /** The new poses of the pending nodes. */
  function Targets<G, D>(g: Geometry<G, D>, t: Transform, docs: map<Key, Doc>): map<Key, Pose> {
    map k | k in Pending(docs) :: g.applyPose(t, PoseOf(docs[k]))
  }

  /** The legacy session's nodes once the pending ones are moved. */
  function LegacyNodes(docs: map<Key, Doc>, sid: SessionId): nat {
    |Tagged(docs, sid)| + |Pending(docs)|
  }

  function PlanOf<G, D(==)>(g: Geometry<G, D>, w: World<G, D>): Plan<D> {
    var counts := Counts(|w.docs|, w.edges);
    if w.pg.legacy.None? then Plan(SessionId(""), map[], None, None, None, Differs(Some(w.pg.counts), counts))
    else PlanWith(g, w.pg, counts, Targets(g, LegacyTransform(g, w.pg), w.docs),
                  LegacyNodes(w.docs, w.pg.legacy.value.sid))
  }

  /** The plan, once the pending nodes are moved and the legacy session's nodes counted. */
  function PlanWith<G, D(==)>(g: Geometry<G, D>, pg: Pg<G, D>, counts: Counts,
                              updates: map<Key, Pose>, legacyNodes: nat): Plan<D>
    requires pg.legacy.Some?
  {
    var l := pg.legacy.value;
    Plan(l.sid, updates,
         Differs(l.mapT, LegacyTransform(g, pg)),
         Differs(Some(l.nodeCount), legacyNodes),
         if pg.geo.Some? then Differs(pg.specDatum, g.originAsDatum(pg.geo.value)) else None,
         Differs(Some(pg.counts), counts))
  }

  /** The planning pass over the nodes, `order` being the order in which the query lists them. */
  method PlanMap<G, D(==)>(g: Geometry<G, D>, w: World<G, D>, order: seq<Key>) returns (plan: Plan<D>)
    requires Lists(order, w.docs)
    ensures plan == PlanOf(g, w)
  {
    if w.pg.legacy.None? {
      return Plan(SessionId(""), map[], None, None, None, Differs(Some(w.pg.counts), Counts(|w.docs|, w.edges)));
    }
    var t := LegacyTransform(g, w.pg);
    var updates, tagged := Sweep(g, t, w.docs, w.pg.legacy.value.sid, order);
    TargetKeys(g, t, w.docs);
    plan := PlanWith(g, w.pg, Counts(|w.docs|, w.edges), updates, tagged + |updates|);
  }

  ghost predicate AreTargets<G, D>(g: Geometry<G, D>, t: Transform, docs: map<Key, Doc>,
                                   keys: set<Key>, m: map<Key, Pose>) {
    && (forall k :: k in m <==> k in keys && k in docs && docs[k].robotPose.None?)
    && forall k :: k in m ==> m[k] == g.applyPose(t, PoseOf(docs[k]))
  }

  lemma AreAllTargets<G, D>(g: Geometry<G, D>, t: Transform, docs: map<Key, Doc>, m: map<Key, Pose>)
    requires AreTargets(g, t, docs, docs.Keys, m)
    ensures m == Targets(g, t, docs)
  {
  }

  lemma TaggedStep(docs: map<Key, Doc>, sid: SessionId, seen: set<Key>, k: Key)
    requires k in docs && k !in seen
    ensures |Tagged(docs, sid) * (seen + {k})| ==
            |Tagged(docs, sid) * seen| + if k in Tagged(docs, sid) then 1 else 0
  {
    if k in Tagged(docs, sid) {
      assert Tagged(docs, sid) * (seen + {k}) == Tagged(docs, sid) * seen + {k};
    } else {
      assert Tagged(docs, sid) * (seen + {k}) == Tagged(docs, sid) * seen;
    }
  }

  function KeySet(order: seq<Key>, n: nat): set<Key>
    requires n <= |order|
  {
    set i | 0 <= i < n :: order[i]
  }

  /** `order` lists every node once. */
  ghost predicate Lists(order: seq<Key>, docs: map<Key, Doc>) {
    && KeySet(order, |order|) == docs.Keys
    && forall i, j :: 0 <= i < j < |order| ==> order[i] != order[j]
  }

  lemma KeySetStep(order: seq<Key>, docs: map<Key, Doc>, n: nat)
    requires Lists(order, docs) && n < |order|
    ensures order[n] in docs && order[n] !in KeySet(order, n)
    ensures KeySet(order, n + 1) == KeySet(order, n) + {order[n]}
  {
    assert order[n] in KeySet(order, |order|);
  }

  lemma TargetKeys<G, D>(g: Geometry<G, D>, t: Transform, docs: map<Key, Doc>)
    ensures Targets(g, t, docs).Keys == Pending(docs)
    ensures |Targets(g, t, docs)| == |Pending(docs)|
  {
    SizeOfKeys(Targets(g, t, docs));
  }

  /** The loop of the planning pass. */
  method Sweep<G, D>(g: Geometry<G, D>, t: Transform, docs: map<Key, Doc>, sid: SessionId, order: seq<Key>)
    returns (updates: map<Key, Pose>, tagged: nat)
    requires Lists(order, docs)
    ensures updates == Targets(g, t, docs)
    ensures tagged == |Tagged(docs, sid)|
  {
    updates, tagged := map[], 0;
    for i := 0 to |order|
      invariant AreTargets(g, t, docs, KeySet(order, i), updates)
      invariant tagged == |Tagged(docs, sid) * KeySet(order, i)|
    {
      KeySetStep(order, docs, i);
      TaggedStep(docs, sid, KeySet(order, i), order[i]);
      updates := SweepNode(g, t, docs, KeySet(order, i), order[i], updates);
      if docs[order[i]].robotPose.Some? && docs[order[i]].session == Some(sid) {
        tagged := tagged + 1;
      }
    }
    assert Tagged(docs, sid) * docs.Keys == Tagged(docs, sid);
    AreAllTargets(g, t, docs, updates);
  }

  /** One node of it: the new pose of a node that is pending. */
  method SweepNode<G, D>(g: Geometry<G, D>, t: Transform, docs: map<Key, Doc>, ghost seen: set<Key>, k: Key,
                         before: map<Key, Pose>)
    returns (updates: map<Key, Pose>)
    requires k in docs && AreTargets(g, t, docs, seen, before)
    ensures AreTargets(g, t, docs, seen + {k}, updates)
  {
    updates := before;
    if docs[k].robotPose.None? {
      updates := updates[k := g.applyPose(t, PoseOf(docs[k]))];
    }
  }

  // --- applying a plan -----------------------------------------------------------------------------------

  /** ArangoDB after the updates of the keys `done`. */
  function Moved(docs: map<Key, Doc>, updates: map<Key, Pose>, sid: SessionId, done: set<Key>): map<Key, Doc> {
    map k | k in docs :: if k in updates && k in done then Migrated(docs[k], updates[k], sid) else docs[k]
  }

  function Or<T>(patch: Option<T>, current: T): T {
    if patch.Some? then patch.value else current
  }

  /** Postgres after the transaction of `plan`. */
  function Patched<G, D>(pg: Pg<G, D>, plan: Plan<D>): Pg<G, D> {
    pg.(specDatum := if plan.newDatum.Some? then plan.newDatum else pg.specDatum,
        counts := Or(plan.newCounts, pg.counts),
        legacy := if pg.legacy.None? then None else
                  var l := pg.legacy.value;
                  Some(l.(mapT := if plan.newT.Some? then plan.newT else l.mapT,
                          nodeCount := Or(plan.newCount, l.nodeCount))))
  }

  lemma AllMoved(docs: map<Key, Doc>, updates: map<Key, Pose>, sid: SessionId)
    ensures Moved(docs, updates, sid, docs.Keys) == Moved(docs, updates, sid, updates.Keys)
  {
  }

  /** A run that stops after the updates of the keys `done`, before the Postgres transaction. */
  function StoppedRun<G, D(==)>(g: Geometry<G, D>, w: World<G, D>, done: set<Key>): World<G, D> {
    var plan := PlanOf(g, w);
    w.(docs := Moved(w.docs, plan.updates, plan.sid, done))
  }

  function FullRun<G, D(==)>(g: Geometry<G, D>, w: World<G, D>): World<G, D> {
    var plan := PlanOf(g, w);
    if plan.Changes() then w.(docs := Moved(w.docs, plan.updates, plan.sid, plan.updates.Keys),
                            pg := Patched(w.pg, plan))
    else w
  }

  /** The two stores, written in this order. */
  class Stores<!G, !D(==)> {
    var docs: map<Key, Doc>
    var edges: nat
    var pg: Pg<G, D>

    ghost function Now(): World<G, D> reads this { World(docs, edges, pg) }

    constructor (w: World<G, D>)
      ensures Now() == w
    { docs, edges, pg := w.docs, w.edges, w.pg; }

    /** UPDATE_AQL over the updates in the order of the nodes, stopping early after `stopAfter` of these. */
    method ApplyNodes(updates: map<Key, Pose>, order: seq<Key>, sid: SessionId, stopAfter: nat)
      requires stopAfter <= |order|
      modifies this`docs
      ensures docs == Moved(old(docs), updates, sid, KeySet(order, stopAfter))
    {
      for i := 0 to stopAfter
        invariant docs == Moved(old(docs), updates, sid, KeySet(order, i))
      {
        assert KeySet(order, i + 1) == KeySet(order, i) + {order[i]};
        if order[i] in updates && order[i] in docs {
          docs := docs[order[i] := Migrated(docs[order[i]], updates[order[i]], sid)];
        }
      }
    }

    /** One run, or one that is cut off before Postgres, at the node `stopAt`. */
    method Run(g: Geometry<G, D>, order: seq<Key>, stopAt: Option<nat>)
      requires Lists(order, docs)
      requires stopAt.Some? ==> stopAt.value <= |order|
      modifies this
      ensures stopAt.None? ==> Now() == FullRun(g, old(Now()))
      ensures stopAt.Some? ==> Now() == StoppedRun(g, old(Now()), KeySet(order, stopAt.value))
    {
      ghost var w := Now();
      var plan := PlanMap(g, World(docs, edges, pg), order);
      if stopAt.Some? {
        ApplyNodes(plan.updates, order, plan.sid, stopAt.value);
      } else if plan.Changes() {
        ApplyNodes(plan.updates, order, plan.sid, |order|);
        AllMoved(w.docs, plan.updates, plan.sid);
        pg := Patched(pg, plan);
      }
    }
  }

  // --- what holds over runs ------------------------------------------------------------------------------

  /** Nodes that have a robot pose are left alone, by every run and every part of one. */
  lemma PlacedNodesUntouched<G, D>(g: Geometry<G, D>, w: World<G, D>, done: set<Key>, k: Key)
    requires k in w.docs && w.docs[k].robotPose.Some?
    ensures FullRun(g, w).docs.Keys == w.docs.Keys && FullRun(g, w).docs[k] == w.docs[k]
    ensures StoppedRun(g, w, done).docs.Keys == w.docs.Keys && StoppedRun(g, w, done).docs[k] == w.docs[k]
  {
  }

  /** Splitting a set and joining one part to a disjoint set keeps the sum of the sizes. */
  lemma SizesKept(t: set<Key>, p: set<Key>, done: set<Key>)
    requires t !! p
    ensures |t + p * done| + |p - done| == |t| + |p|
  {
    assert |t + p * done| == |t| + |p * done|;
    assert p == p * done + (p - done);
  }

  /** Moving some of the pending nodes takes exactly them from pending to tagged. */
  lemma MovedSets(docs: map<Key, Doc>, updates: map<Key, Pose>, sid: SessionId, done: set<Key>)
    requires updates.Keys == Pending(docs)
    ensures var after := Moved(docs, updates, sid, done);
            && after.Keys == docs.Keys
            && Pending(after) == Pending(docs) - done
            && Tagged(after, sid) == Tagged(docs, sid) + Pending(docs) * done
  {
    var after := Moved(docs, updates, sid, done);
    forall k | k in docs ensures after[k].robotPose.None? <==> k in Pending(docs) && k !in done {
      assert k in Pending(docs) <==> docs[k].robotPose.None?;
    }
    assert Pending(after) == Pending(docs) - done;
    forall k | k in docs ensures k in Tagged(after, sid) <==> k in Tagged(docs, sid) + Pending(docs) * done {
      assert k in Pending(docs) <==> docs[k].robotPose.None?;
      assert k in Tagged(docs, sid) <==> docs[k].robotPose.Some? && docs[k].session == Some(sid);
      assert k in Tagged(after, sid) <==> after[k].robotPose.Some? && after[k].session == Some(sid);
    }
  }

  /** ... so the size of the collection and of the legacy session afterwards stay what they were. */
  lemma MovedCounts<G, D>(g: Geometry<G, D>, t: Transform, docs: map<Key, Doc>, sid: SessionId, done: set<Key>)
    ensures var after := Moved(docs, Targets(g, t, docs), sid, done);
            && after.Keys == docs.Keys && |after| == |docs|
            && Pending(after) == Pending(docs) - done
            && LegacyNodes(after, sid) == LegacyNodes(docs, sid)
  {
    var after := Moved(docs, Targets(g, t, docs), sid, done);
    TargetKeys(g, t, docs);
    MovedSets(docs, Targets(g, t, docs), sid, done);
    SizesKept(Tagged(docs, sid), Pending(docs), done);
    SameKeysSameSize(docs, after);
  }

  lemma SameKeysSameSize(a: map<Key, Doc>, b: map<Key, Doc>)
    requires a.Keys == b.Keys
    ensures |a| == |b|
  {
    SizeOfKeys(a);
    SizeOfKeys(b);
  }

  /** Moving some nodes, then the rest, is moving all. */
  lemma MovedInTwo<G, D>(g: Geometry<G, D>, t: Transform, docs: map<Key, Doc>, sid: SessionId, done: set<Key>)
    ensures var all := Targets(g, t, docs);
            var mid := Moved(docs, all, sid, done);
            var rest := Targets(g, t, mid);
            Moved(mid, rest, sid, rest.Keys) == Moved(docs, all, sid, all.Keys)
  {
    var all := Targets(g, t, docs);
    var mid := Moved(docs, all, sid, done);
    var rest := Targets(g, t, mid);
    var one, two := Moved(docs, all, sid, all.Keys), Moved(mid, rest, sid, rest.Keys);
    forall k | k in docs ensures two[k] == one[k] {
      if k in all && k !in done {
        assert mid[k] == docs[k];
      }
    }
  }

  /** A plan made after a stop differs only in the nodes still to be moved. */
  lemma PlanAfterStop<G, D>(g: Geometry<G, D>, w: World<G, D>, done: set<Key>)
    requires w.pg.legacy.Some?
    ensures var plan, again := PlanOf(g, w), PlanOf(g, StoppedRun(g, w, done));
            again == plan.(updates := again.updates)
  {
    MovedCounts(g, LegacyTransform(g, w.pg), w.docs, w.pg.legacy.value.sid, done);
  }

  lemma SizeOfKeys<V>(m: map<Key, V>)
    ensures |m| == |m.Keys|
  {
  }

  /** A run after a stop at any point before the Postgres transaction ends where one full run does. */
  lemma RerunAfterStop<G, D>(g: Geometry<G, D>, w: World<G, D>, done: set<Key>)
    ensures FullRun(g, StoppedRun(g, w, done)) == FullRun(g, w)
  {
    var plan := PlanOf(g, w);
    var s := StoppedRun(g, w, done);
    if w.pg.legacy.None? {
      assert s.docs == w.docs;
    } else {
      var again := PlanOf(g, s);
      PlanAfterStop(g, w, done);
      MovedInTwo(g, LegacyTransform(g, w.pg), w.docs, plan.sid, done);
      IdleMove(s.docs, again.updates, plan.sid);
      IdleMove(w.docs, plan.updates, plan.sid);
    }
  }

  /** Without updates nothing moves. */
  lemma IdleMove(docs: map<Key, Doc>, updates: map<Key, Pose>, sid: SessionId)
    ensures updates == map[] ==> Moved(docs, updates, sid, updates.Keys) == docs
  {
  }

  /** When a second run has nothing to do. */
  predicate Settles<G, D(==)>(g: Geometry<G, D>, pg: Pg<G, D>) {
    pg.legacy.None? || pg.geo.None? || pg.legacy.value.datum.Some?
    || LegacyTransform(g, pg) == g.sessionTransform(pg.geo.value, g.originAsDatum(pg.geo.value))
  }

  /** A run without changes is a run all the same. */
  lemma FullRunParts<G, D>(g: Geometry<G, D>, w: World<G, D>)
    ensures var plan := PlanOf(g, w);
            FullRun(g, w) == w.(docs := Moved(w.docs, plan.updates, plan.sid, plan.updates.Keys),
                                pg := Patched(w.pg, plan))
  {
    var plan := PlanOf(g, w);
    if !plan.Changes() {
      IdleMove(w.docs, plan.updates, plan.sid);
      assert Patched(w.pg, plan) == w.pg;
    }
  }

  /** What a full run leaves of the nodes: all placed, the same number, and the legacy ones tagged. */
  lemma NodesAfterRun<G, D>(g: Geometry<G, D>, w: World<G, D>)
    requires w.pg.legacy.Some?
    ensures var w' := FullRun(g, w); var sid := w.pg.legacy.value.sid;
            && Pending(w'.docs) == {} && w'.docs.Keys == w.docs.Keys && |w'.docs| == |w.docs| && w'.edges == w.edges
            && |Tagged(w'.docs, sid)| == LegacyNodes(w.docs, sid)
  {
    FullRunParts(g, w);
    var t := LegacyTransform(g, w.pg);
    TargetKeys(g, t, w.docs);
    MovedCounts(g, t, w.docs, w.pg.legacy.value.sid, Pending(w.docs));
  }

  /** What it leaves of the rows: the counts right, and the transform of the datum it read. */
  lemma RowsAfterRun<G, D>(g: Geometry<G, D>, w: World<G, D>)
    requires w.pg.legacy.Some?
    ensures var pg := FullRun(g, w).pg; var l := w.pg.legacy.value;
            && pg.geo == w.pg.geo
            && pg.counts == Counts(|w.docs|, w.edges)
            && pg.specDatum == (if w.pg.geo.Some? then Some(g.originAsDatum(w.pg.geo.value)) else w.pg.specDatum)
            && pg.legacy == Some(l.(mapT := Some(LegacyTransform(g, w.pg)), nodeCount := LegacyNodes(w.docs, l.sid)))
  {
    FullRunParts(g, w);
  }

  /** The transform a run leaves in the session's row: on a map with an origin that of the legacy session's own
      datum, or else of the map's datum; the identity without an origin or without a datum. */
  lemma TransformMeans<G, D>(g: Geometry<G, D>, w: World<G, D>)
    requires w.pg.legacy.Some?
    ensures var pg := w.pg; var t := FullRun(g, w).pg.legacy.value.mapT;
            && (pg.geo.None? ==> t == Some(Transform(0.0, 0.0, 0.0)))
            && (pg.geo.Some? && pg.legacy.value.datum.Some? ==>
                  t == Some(g.sessionTransform(pg.geo.value, pg.legacy.value.datum.value)))
            && (pg.geo.Some? && pg.legacy.value.datum.None? && pg.specDatum.Some? ==>
                  t == Some(g.sessionTransform(pg.geo.value, pg.specDatum.value)))
            && (pg.geo.Some? && pg.legacy.value.datum.None? && pg.specDatum.None? ==>
                  t == Some(Transform(0.0, 0.0, 0.0)))
  {
    RowsAfterRun(g, w);
  }

  /** Where a pending node ends up: its pose holds what the transform now in the session's row makes of the old x, y and
      yaw (`theta` where there is no yaw, 0 where there is nothing), its other fields stay, `robot_pose` is the old
      pose, and it belongs to the legacy session. */
  lemma NodeAfterRun<G, D>(g: Geometry<G, D>, w: World<G, D>, k: Key)
    requires w.pg.legacy.Some? && k in w.docs && w.docs[k].robotPose.None?
    ensures var l, d, w' := w.pg.legacy.value, w.docs[k], FullRun(g, w);
            var f := if d.pose.Some? then d.pose.value else map[];
            && w'.pg.legacy.Some? && w'.pg.legacy.value.mapT.Some? && k in w'.docs
            && var p := g.applyPose(w'.pg.legacy.value.mapT.value,
                                    Pose(if X in f then f[X] else 0.0, if Y in f then f[Y] else 0.0,
                                         if Yaw in f then f[Yaw] else if Theta in f then f[Theta] else 0.0));
               w'.docs[k] == Doc(Some(f[X := p.x][Y := p.y][Yaw := p.yaw]), Some(d.pose), Some(l.sid))
  {
    RowsAfterRun(g, w);
    FullRunParts(g, w);
    var plan, d := PlanOf(g, w), w.docs[k];
    assert k in Pending(w.docs);
    assert k in plan.updates;
    var p := plan.updates[k];
    var f := if d.pose.Some? then d.pose.value else map[];
    assert FullRun(g, w).docs[k] == Migrated(d, p, plan.sid);
    assert f + PoseFields(p) == f[X := p.x][Y := p.y][Yaw := p.yaw];
  }

  /** A world where every node is placed and counted, and the datum replaced: only the transform can be off. */
  lemma PlanOnceSettled<G, D>(g: Geometry<G, D>, w: World<G, D>, t: Transform)
    requires w.pg.legacy.Some? && Pending(w.docs) == {}
    requires w.pg.legacy.value.mapT == Some(t)
    requires w.pg.legacy.value.nodeCount == |Tagged(w.docs, w.pg.legacy.value.sid)|
    requires w.pg.counts == Counts(|w.docs|, w.edges)
    requires w.pg.geo.Some? ==> w.pg.specDatum == Some(g.originAsDatum(w.pg.geo.value))
    ensures PlanOf(g, w)
         == Plan(w.pg.legacy.value.sid, map[], Differs(Some(t), LegacyTransform(g, w.pg)), None, None, None)
  {
    TargetKeys(g, LegacyTransform(g, w.pg), w.docs);
  }

  /** All that a second run can plan is another transform. */
  lemma SecondPlan<G, D>(g: Geometry<G, D>, w: World<G, D>)
    requires w.pg.legacy.Some?
    ensures var t := LegacyTransform(g, w.pg); var again := LegacyTransform(g, FullRun(g, w).pg);
            PlanOf(g, FullRun(g, w)) == Plan(w.pg.legacy.value.sid, map[], Differs(Some(t), again), None, None, None)
  {
    NodesAfterRun(g, w);
    RowsAfterRun(g, w);
    PlanOnceSettled(g, FullRun(g, w), LegacyTransform(g, w.pg));
  }

  /** A second run plans nothing exactly when the map settles: always with a datum of the legacy session's own.
      Otherwise the first run has replaced the datum that the second one would use. */
  lemma SecondRunIdleIff<G, D>(g: Geometry<G, D>, w: World<G, D>)
    ensures PlanOf(g, FullRun(g, w)).Changes() <==> !Settles(g, w.pg)
  {
    if w.pg.legacy.Some? {
      RowsAfterRun(g, w);
      SecondPlan(g, w);
    } else {
      FullRunParts(g, w);
      IdleMove(w.docs, map[], SessionId(""));
    }
  }

  /** Without a legacy session a run sets the counts and nothing else: it leaves the map as it is if and only if they
      are right. */
  lemma WithoutLegacyOnlyCounts<G, D>(g: Geometry<G, D>, w: World<G, D>)
    requires w.pg.legacy.None?
    ensures FullRun(g, w) == w.(pg := w.pg.(counts := Counts(|w.docs|, w.edges)))
    ensures FullRun(g, w) == w <==> w.pg.counts == Counts(|w.docs|, w.edges)
  {
    FullRunParts(g, w);
    IdleMove(w.docs, map[], SessionId(""));
  }

  /** A third run never has anything to do. */
  lemma ThirdRunIdle<G, D>(g: Geometry<G, D>, w: World<G, D>)
    ensures !PlanOf(g, FullRun(g, FullRun(g, w))).Changes()
  {
    SecondRunIdleIff(g, FullRun(g, w));
    if w.pg.legacy.Some? {
      RowsAfterRun(g, w);
    }
  }

  /** Where a map does not settle, the second run keeps the nodes and replaces the transform they came through. */
  lemma UnsettledMapLosesItsTransform<G, D>(g: Geometry<G, D>, w: World<G, D>)
    requires !Settles(g, w.pg)
    ensures var once := FullRun(g, w); var twice := FullRun(g, once);
            && twice.docs == once.docs
            && once.pg.legacy.value.mapT == Some(LegacyTransform(g, w.pg))
            && twice.pg.legacy.value.mapT != once.pg.legacy.value.mapT
  {
    var once := FullRun(g, w);
    NodesAfterRun(g, w);
    RowsAfterRun(g, w);
    RowsAfterRun(g, once);
    FullRunParts(g, once);
    SecondPlan(g, w);
    IdleMove(once.docs, map[], PlanOf(g, once).sid);
  }

  // --- revert --------------------------------------------------------------------------------------------

  /** The nodes `--revert` gives back. */
  predicate Selected(d: Doc, sid: Option<SessionId>, includeLive: bool) {
    d.robotPose.Some? && (includeLive || (sid.Some? && sid.value.name != "" && d.session == sid))
  }

  function RevertRun<G, D>(w: World<G, D>, includeLive: bool): World<G, D> {
    var sid := if w.pg.legacy.Some? then Some(w.pg.legacy.value.sid) else None;
    var docs := map k | k in w.docs :: if Selected(w.docs[k], sid, includeLive) then Reverted(w.docs[k]) else w.docs[k];
    var pg := if w.pg.legacy.None? then w.pg else
              var l := w.pg.legacy.value;
              w.pg.(legacy := Some(l.(mapT := Some(IDENTITY))),
                    specDatum := if l.datum.Some? then l.datum else w.pg.specDatum);
    w.(docs := docs, pg := pg)
  }

  /** A revert gives back exactly the legacy session's placed nodes, or with `includeLive` every placed node: the fields
      of `robot_pose` are written over the pose, or the pose goes where there was none, and both marks go. */
  lemma RevertMeans<G, D>(w: World<G, D>, includeLive: bool, k: Key)
    requires k in w.docs && (w.pg.legacy.Some? ==> w.pg.legacy.value.sid.name != "")
    ensures var d, r := w.docs[k], RevertRun(w, includeLive);
            var chosen := d.robotPose.Some? &&
                          (includeLive || (w.pg.legacy.Some? && d.session == Some(w.pg.legacy.value.sid)));
            && r.docs.Keys == w.docs.Keys
            && (!chosen ==> r.docs[k] == d)
            && (chosen ==> r.docs[k].robotPose.None? && r.docs[k].session.None?)
            && (chosen && d.robotPose.value.None? ==> r.docs[k].pose.None?)
            && (chosen && d.robotPose.value.Some? ==>
                  r.docs[k].pose == Some((if d.pose.Some? then d.pose.value else map[]) + d.robotPose.value.value))
  {
  }

  /** A node a revert can give back whole. */
  predicate Plain(d: Doc) {
    d.session.None? && (d.pose.Some? ==> {X, Y, Yaw} <= d.pose.value.Keys)
  }

  /** Migrate, then revert: a node is back as it was if and only if it was pending and plain, or placed by another
      session (the legacy session's earlier nodes go back to their robot pose too). */
  lemma MigrateThenRevert<G, D>(g: Geometry<G, D>, w: World<G, D>, k: Key)
    requires w.pg.legacy.Some? && w.pg.legacy.value.sid.name != "" && k in w.docs
    ensures var back := RevertRun(FullRun(g, w), false); var sid := w.pg.legacy.value.sid;
            && back.docs.Keys == w.docs.Keys
            && (back.docs[k] == w.docs[k] <==>
                  if k in Pending(w.docs) then Plain(w.docs[k]) else k !in Tagged(w.docs, sid))
            && back.pg.legacy.value.mapT == Some(IDENTITY)
            && (w.pg.legacy.value.datum.Some? ==> back.pg.specDatum == w.pg.legacy.value.datum)
  {
    RowsAfterRun(g, w);
    NodesAfterRun(g, w);
    FullRunParts(g, w);
    var plan := PlanOf(g, w);
    var d := w.docs[k];
    if k in Pending(w.docs) {
      assert FullRun(g, w).docs[k] == Migrated(d, plan.updates[k], plan.sid);
      RevertRestoresIff(d, plan.updates[k], plan.sid);
    } else {
      PlacedNodesUntouched(g, w, {}, k);
    }
  }

  /** A map whose nodes were all plain or placed by other sessions, and whose legacy session has a datum: after a
      revert, migrating again brings the nodes back to where they were. */
  lemma MigrateRevertMigrate<G, D>(g: Geometry<G, D>, w: World<G, D>)
    requires w.pg.legacy.Some? && w.pg.legacy.value.sid.name != "" && w.pg.legacy.value.datum.Some?
    requires Tagged(w.docs, w.pg.legacy.value.sid) == {}
    requires forall k :: k in Pending(w.docs) ==> Plain(w.docs[k])
    ensures FullRun(g, RevertRun(FullRun(g, w), false)).docs == FullRun(g, w).docs
    ensures FullRun(g, RevertRun(FullRun(g, w), false)).pg.legacy == FullRun(g, w).pg.legacy
  {
    var once := FullRun(g, w);
    var back := RevertRun(once, false);
    RowsAfterRun(g, w);
    FullRunParts(g, w);
    FullRunParts(g, back);
    forall k | k in w.docs ensures back.docs[k] == w.docs[k] { MigrateThenRevert(g, w, k); }
    assert back.docs == w.docs;
    RowsAfterRun(g, back);
    assert LegacyTransform(g, back.pg) == LegacyTransform(g, w.pg);
    assert PlanOf(g, back).updates == PlanOf(g, w).updates;
  }
}
