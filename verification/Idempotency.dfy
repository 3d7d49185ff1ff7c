/** The Idempotency-Key protocol (packages/api/idempotency.py): the atomic statements on the table
    `idempotency_keys`, and the requests of many workers that interleave between them. */
module IdempotencyTable {
  import opened Common

  datatype Id = Id(key: string, actor: string, route: string)
  datatype Response = Response(status: int, body: string)
  /** `completed_at`, the status and the body are set and cleared together: `response`. */
  datatype Row = Row(hash: string, createdAt: int, response: Option<Response>)
  type Table = map<Id, Row>

  datatype Config = Config(ttl: int, lease: int, longLease: int, longRoutes: set<string>) {
    function LeaseFor(id: Id): int {
      if id.route in longRoutes then longLease else lease
    }

    ghost predicate LeasesWithinTtl() {
      lease <= ttl && longLease <= ttl
    }
  }

  predicate Expired(cfg: Config, row: Row, now: int) {
    row.createdAt < now - cfg.ttl
  }

  /** CLAIM: insert, or overwrite an expired row or an abandoned one of the same request. */
  predicate ClaimWins(cfg: Config, t: Table, id: Id, hash: string, now: int) {
    || id !in t
    || Expired(cfg, t[id], now)
    || (t[id].response.None? && t[id].hash == hash && t[id].createdAt < now - cfg.LeaseFor(id))
  }

  function Claimed(cfg: Config, t: Table, id: Id, hash: string, now: int): Table {
    if ClaimWins(cfg, t, id, hash, now) then t[id := Row(hash, now, None)] else t
  }

  /** COMPLETE and RELEASE find their row by its hash alone. */
  predicate Matches(t: Table, id: Id, hash: string) {
    id in t && t[id].hash == hash && t[id].response.None?
  }

  function Completed(t: Table, id: Id, hash: string, r: Response): Table {
    if Matches(t, id, hash) then t[id := t[id].(response := Some(r))] else t
  }

  function Released(t: Table, id: Id, hash: string): Table {
    if Matches(t, id, hash) then t - {id} else t
  }

  function Purged(cfg: Config, t: Table, now: int): Table {
    map id | id in t && !Expired(cfg, t[id], now) :: t[id]
  }
}

module IdempotencyProtocol {
  import opened Common
  import opened IdempotencyTable

  datatype Outcome = Replayed(response: Response) | Mismatch | InProgress

  /** Where one request stands between two statements. `pass` is the loop counter of `claim`. */
  datatype Pc =
    | Claiming(id: Id, hash: string, pass: nat)
    | LookingUp(id: Id, hash: string, pass: nat)
    | Running(id: Id, hash: string, since: int)
    | Releasing(id: Id, hash: string, since: int)
    | Answered(id: Id, hash: string, outcome: Outcome)
    | Ended(id: Id, hash: string)
  {
    predicate Holding() {
      Running? || Releasing?
    }
  }

  datatype Stored = Stored(id: Id, hash: string, response: Response)

  /** The clock, the table, the requests, and every response a COMPLETE ever wrote. */
  datatype State = State(now: int, rows: Table, pcs: map<nat, Pc>, stored: set<Stored>)

  const NOTHING: State := State(0, map[], map[], {})

  datatype Step =
    | Begin(w: nat, id: Id, hash: string)
    | ClaimSql(w: nat)
    | LookupSql(w: nat)
    | CompleteSql(w: nat, response: Response)
    | CompleteFails(w: nat, response: Response, committed: bool)  // an error after or instead of the commit
    | GiveUp(w: nat)                                              // a 5xx, a non-JSON body or an exception
    | ReleaseSql(w: nat)
    | Die(w: nat)                                                 // the worker is gone; nothing is written
    | PurgeSql
    | Tick(to: int)

  predicate Enabled(s: State, a: Step) {
    match a
    case Begin(w, _, _) => w !in s.pcs
    case ClaimSql(w) => w in s.pcs && s.pcs[w].Claiming?
    case LookupSql(w) => w in s.pcs && s.pcs[w].LookingUp?
    case CompleteSql(w, _) => w in s.pcs && s.pcs[w].Running?
    case CompleteFails(w, _, _) => w in s.pcs && s.pcs[w].Running?
    case GiveUp(w) => w in s.pcs && s.pcs[w].Running?
    case ReleaseSql(w) => w in s.pcs && s.pcs[w].Releasing?
    case Die(w) => w in s.pcs
    case PurgeSql => true
    case Tick(to) => s.now <= to
  }

  function LookedUp(t: Table, id: Id, hash: string, pass: nat): Pc {
    if id !in t then (if pass == 0 then Claiming(id, hash, 1) else Answered(id, hash, InProgress))
    else if t[id].hash != hash then Answered(id, hash, Mismatch)
    else if t[id].response.None? then Answered(id, hash, InProgress)
    else Answered(id, hash, Replayed(t[id].response.value))
  }

  function Writes(t: Table, id: Id, hash: string, r: Response): set<Stored> {
    if Matches(t, id, hash) then {Stored(id, hash, r)} else {}
  }

  function Apply(cfg: Config, s: State, a: Step): State
    requires Enabled(s, a)
  {
    match a
    case Begin(w, id, hash) => s.(pcs := s.pcs[w := Claiming(id, hash, 0)])
    case ClaimSql(w) =>
      var Claiming(id, hash, pass) := s.pcs[w];
      if ClaimWins(cfg, s.rows, id, hash, s.now)
      then s.(rows := Claimed(cfg, s.rows, id, hash, s.now), pcs := s.pcs[w := Running(id, hash, s.now)])
      else s.(pcs := s.pcs[w := LookingUp(id, hash, pass)])
    case LookupSql(w) =>
      var LookingUp(id, hash, pass) := s.pcs[w];
      s.(pcs := s.pcs[w := LookedUp(s.rows, id, hash, pass)])
    case CompleteSql(w, r) =>
      var Running(id, hash, _) := s.pcs[w];
      s.(rows := Completed(s.rows, id, hash, r), pcs := s.pcs[w := Ended(id, hash)],
         stored := s.stored + Writes(s.rows, id, hash, r))
    case CompleteFails(w, r, committed) =>
      var Running(id, hash, since) := s.pcs[w];
      var s' := s.(pcs := s.pcs[w := Releasing(id, hash, since)]);
      if committed
      then s'.(rows := Completed(s.rows, id, hash, r), stored := s.stored + Writes(s.rows, id, hash, r))
      else s'
    case GiveUp(w) =>
      var Running(id, hash, since) := s.pcs[w];
      s.(pcs := s.pcs[w := Releasing(id, hash, since)])
    case ReleaseSql(w) =>
      var Releasing(id, hash, _) := s.pcs[w];
      s.(rows := Released(s.rows, id, hash), pcs := s.pcs[w := Ended(id, hash)])
    case Die(w) => s.(pcs := s.pcs[w := Ended(s.pcs[w].id, s.pcs[w].hash)])
    case PurgeSql => s.(rows := Purged(cfg, s.rows, s.now))
    case Tick(to) => s.(now := to)
  }

  /** A run is a list of steps, each enabled where it happens; `After` is the state it leads to. */
  ghost predicate IsRun(cfg: Config, s: State, run: seq<Step>)
    decreases |run|, 0
  {
    run == [] || (IsRun(cfg, s, Front(run)) && Enabled(After(cfg, s, Front(run)), Last(run)))
  }

  ghost function After(cfg: Config, s: State, run: seq<Step>): State
    requires IsRun(cfg, s, run)
    decreases |run|, 1
  {
    if run == [] then s else Apply(cfg, After(cfg, s, Front(run)), Last(run))
  }

  // --- What each statement does, on the rows and the answers ------------------------------------------

  ghost predicate OthersKept(s: State, s': State, id: Id) {
    forall i :: i != id ==> (i in s'.rows <==> i in s.rows) && (i in s.rows ==> s'.rows[i] == s.rows[i])
  }

  /** A claim is NEW exactly without a row, past the TTL, or past the route's lease with the same hash and no response;
      then the row is the request's, as of now. Otherwise the table stays. */
  lemma ClaimIsNewIff(cfg: Config, s: State, w: nat)
    requires Enabled(s, ClaimSql(w))
    ensures var s' := Apply(cfg, s, ClaimSql(w));
            var Claiming(id, hash, pass) := s.pcs[w];
            var lease := if id.route in cfg.longRoutes then cfg.longLease else cfg.lease;
            && (s'.pcs[w].Running? <==>
                  id in s.rows ==>
                    || s.now > s.rows[id].createdAt + cfg.ttl
                    || (s.rows[id].hash == hash && s.rows[id].response.None? && s.now > s.rows[id].createdAt + lease))
            && (s'.pcs[w].Running? ==> id in s'.rows && s'.rows[id] == Row(hash, s.now, None) && OthersKept(s, s', id))
            && (!s'.pcs[w].Running? ==> s'.rows == s.rows && s'.pcs[w] == LookingUp(id, hash, pass))
  {
  }

  /** What a lookup answers: with another hash in the row a mismatch, without a response in progress, else the response;
      a row that vanished is claimed once more. */
  lemma LookupAnswers(cfg: Config, s: State, w: nat)
    requires Enabled(s, LookupSql(w))
    ensures var s' := Apply(cfg, s, LookupSql(w));
            var LookingUp(id, hash, pass) := s.pcs[w];
            && s'.rows == s.rows
            && (s'.pcs[w] == Answered(id, hash, Mismatch) <==> id in s.rows && s.rows[id].hash != hash)
            && (forall r :: s'.pcs[w] == Answered(id, hash, Replayed(r)) <==>
                  id in s.rows && s.rows[id].hash == hash && s.rows[id].response == Some(r))
            && (s'.pcs[w] == Answered(id, hash, InProgress) <==>
                  if id in s.rows then s.rows[id].hash == hash && s.rows[id].response.None? else pass > 0)
            && (s'.pcs[w] == Claiming(id, hash, 1) <==> id !in s.rows && pass == 0)
  {
  }

  /** COMPLETE writes the response into a row with its hash and without a response, whosever it is, and nothing else. */
  lemma CompleteWrites(cfg: Config, s: State, w: nat, r: Response)
    requires Enabled(s, CompleteSql(w, r))
    ensures var s' := Apply(cfg, s, CompleteSql(w, r));
            var id, hash := s.pcs[w].id, s.pcs[w].hash;
            if id in s.rows && s.rows[id].hash == hash && s.rows[id].response.None?
            then id in s'.rows && s'.rows[id] == Row(hash, s.rows[id].createdAt, Some(r)) && OthersKept(s, s', id)
            else s'.rows == s.rows
  {
  }

  /** PURGE removes exactly the rows older than the TTL. */
  lemma PurgeRemovesIff(cfg: Config, s: State, id: Id)
    ensures var s' := Apply(cfg, s, PurgeSql);
            && (id in s'.rows <==> id in s.rows && s.now <= s.rows[id].createdAt + cfg.ttl)
            && (id in s'.rows ==> s'.rows[id] == s.rows[id]) && s'.pcs == s.pcs
  {
  }

  // --- With no assumption on leases ------------------------------------------------------------

  /** No step of any request changes a completed row that is younger than the TTL. */
  lemma CompletedRowKept(cfg: Config, s: State, a: Step, id: Id)
    requires Enabled(s, a)
    requires id in s.rows && s.rows[id].response.Some? && !Expired(cfg, s.rows[id], s.now)
    ensures var s' := Apply(cfg, s, a);
            id in s'.rows && s'.rows[id] == s.rows[id]
  {
  }

  /** A stored (hash, status, body) stays as it is until it is older than the TTL. */
  lemma {:induction false} StoredResponseIsStable(cfg: Config, s: State, run: seq<Step>, id: Id)
    requires IsRun(cfg, s, run)
    requires id in s.rows && s.rows[id].response.Some?
    requires !Expired(cfg, s.rows[id], After(cfg, s, run).now)
    ensures var s' := After(cfg, s, run);
            id in s'.rows && s'.rows[id] == s.rows[id]
  {
    if run != [] {
      var m := After(cfg, s, Front(run));
      assert IsRun(cfg, m, []) && After(cfg, m, []) == m;
      assert m.now <= After(cfg, s, run).now;
      StoredResponseIsStable(cfg, s, Front(run), id);
      CompletedRowKept(cfg, m, Last(run), id);
    }
  }

  /** How many claims of `id` were answered NEW along a run. */
  ghost function NewClaims(cfg: Config, s: State, run: seq<Step>, id: Id): nat
    requires IsRun(cfg, s, run)
  {
    if run == [] then 0 else
    NewClaims(cfg, s, Front(run), id) +
    (var m := After(cfg, s, Front(run));
     var a := Last(run);
     if a.ClaimSql? && m.pcs[a.w].id == id && ClaimWins(cfg, m.rows, id, m.pcs[a.w].hash, m.now) then 1 else 0)
  }

  /** While a response is stored and young, the route never runs again for its key. */
  lemma {:induction false} StoredMeansNoRerun(cfg: Config, s: State, run: seq<Step>, id: Id)
    requires IsRun(cfg, s, run)
    requires id in s.rows && s.rows[id].response.Some?
    requires !Expired(cfg, s.rows[id], After(cfg, s, run).now)
    ensures NewClaims(cfg, s, run, id) == 0
  {
    if run != [] {
      var m := After(cfg, s, Front(run));
      assert m.now <= After(cfg, s, run).now;
      StoredMeansNoRerun(cfg, s, Front(run), id);
      StoredResponseIsStable(cfg, s, Front(run), id);
    }
  }

  predicate ActsFor(s: State, a: Step, hash: string) {
    match a
    case Begin(_, _, h) => h == hash
    case PurgeSql => false
    case Tick(_) => false
    case _ => a.w in s.pcs && s.pcs[a.w].hash == hash
  }

  /** Only requests with the row's own hash can change a row younger than the TTL. */
  lemma OtherHashesChangeNothing(cfg: Config, s: State, a: Step, id: Id)
    requires Enabled(s, a)
    requires id in s.rows && !Expired(cfg, s.rows[id], s.now)
    requires !ActsFor(s, a, s.rows[id].hash)
    ensures var s' := Apply(cfg, s, a);
            id in s'.rows && s'.rows[id] == s.rows[id]
  {
  }

  /** Every completed row and every replayed answer is a response some COMPLETE of the same request wrote. */
  ghost predicate Traceable(s: State) {
    && (forall id | id in s.rows && s.rows[id].response.Some? ::
          Stored(id, s.rows[id].hash, s.rows[id].response.value) in s.stored)
    && (forall w | w in s.pcs && s.pcs[w].Answered? && s.pcs[w].outcome.Replayed? ::
          Stored(s.pcs[w].id, s.pcs[w].hash, s.pcs[w].outcome.response) in s.stored)
  }

  lemma TraceableStep(cfg: Config, s: State, a: Step)
    requires Enabled(s, a) && Traceable(s)
    ensures Traceable(Apply(cfg, s, a))
  {
  }

  lemma {:induction false} ReplaysAreOwnResponses(cfg: Config, run: seq<Step>)
    requires IsRun(cfg, NOTHING, run)
    ensures Traceable(After(cfg, NOTHING, run))
  {
    if run != [] {
      ReplaysAreOwnResponses(cfg, Front(run));
      TraceableStep(cfg, After(cfg, NOTHING, Front(run)), Last(run));
    }
  }

  // --- When every runner finishes within its lease ----------------------------------------------

  /** No request still holds its claim after its lease ran out. */
  ghost predicate LeaseRespected(cfg: Config, s: State) {
    forall w | w in s.pcs && s.pcs[w].Holding() :: s.now <= s.pcs[w].since + cfg.LeaseFor(s.pcs[w].id)
  }

  ghost predicate LeasesRespected(cfg: Config, s: State, run: seq<Step>)
    requires IsRun(cfg, s, run)
  {
    LeaseRespected(cfg, After(cfg, s, run)) && (run != [] ==> LeasesRespected(cfg, s, Front(run)))
  }

  /** A holder's row is its own; while the route runs it has no response yet. */
  ghost predicate Owns(s: State, pc: Pc)
    requires pc.Holding()
  {
    && pc.id in s.rows
    && s.rows[pc.id].hash == pc.hash
    && s.rows[pc.id].createdAt == pc.since
    && (pc.Running? ==> s.rows[pc.id].response.None?)
  }

  ghost predicate Exclusive(s: State) {
    && (forall w | w in s.pcs && s.pcs[w].Holding() :: Owns(s, s.pcs[w]))
    && (forall v, w | v in s.pcs && w in s.pcs && s.pcs[v].Holding() && s.pcs[w].Holding()
                      && s.pcs[v].id == s.pcs[w].id :: v == w)
  }

  /** Nobody else's step takes a holder's row away while its lease lasts. */
  lemma HolderKeepsRow(cfg: Config, s: State, a: Step, w: nat)
    requires cfg.LeasesWithinTtl() && Enabled(s, a)
    requires Exclusive(s) && LeaseRespected(cfg, s)
    requires w in s.pcs && s.pcs[w].Holding()
    ensures var s' := Apply(cfg, s, a);
            s'.pcs[w].Holding() ==> Owns(s', s'.pcs[w])
  {
    assert Owns(s, s.pcs[w]);
    if a.CompleteSql? || a.CompleteFails? || a.ReleaseSql? {
      assert Owns(s, s.pcs[a.w]);
    }
  }

  lemma ExclusiveStep(cfg: Config, s: State, a: Step)
    requires cfg.LeasesWithinTtl() && Enabled(s, a)
    requires Exclusive(s) && LeaseRespected(cfg, s)
    ensures Exclusive(Apply(cfg, s, a))
  {
    var s' := Apply(cfg, s, a);
    forall w | w in s'.pcs && s'.pcs[w].Holding() ensures Owns(s', s'.pcs[w]) {
      if w in s.pcs && s.pcs[w].Holding() {
        HolderKeepsRow(cfg, s, a, w);
      } else {
        assert a.ClaimSql? && a.w == w;
      }
    }
    if a.ClaimSql? && s'.pcs[a.w].Holding() {
      forall v | v in s.pcs && s.pcs[v].Holding() ensures s.pcs[v].id != s.pcs[a.w].id {
        assert Owns(s, s.pcs[v]);
      }
    }
  }

  /** In every interleaving at most one NEW claim of a (key, actor, route) is outstanding, and its own
      row is there, with its hash and without a response, until it finishes. */
  lemma {:induction false} AtMostOneRunner(cfg: Config, run: seq<Step>)
    requires cfg.LeasesWithinTtl()
    requires IsRun(cfg, NOTHING, run) && LeasesRespected(cfg, NOTHING, run)
    ensures Exclusive(After(cfg, NOTHING, run))
  {
    if run != [] {
      AtMostOneRunner(cfg, Front(run));
      ExclusiveStep(cfg, After(cfg, NOTHING, Front(run)), Last(run));
    }
  }

  /** So a runner's response is stored in its own row, and as long as that is younger than the TTL every lookup of the
      request replays it, whatever happens in between. */
  lemma CompletedIsReplayed(cfg: Config, run: seq<Step>, w: nat, r: Response, later: seq<Step>)
    requires cfg.LeasesWithinTtl()
    requires IsRun(cfg, NOTHING, run) && LeasesRespected(cfg, NOTHING, run)
    requires Enabled(After(cfg, NOTHING, run), CompleteSql(w, r))
    requires IsRun(cfg, Apply(cfg, After(cfg, NOTHING, run), CompleteSql(w, r)), later)
    ensures var s := After(cfg, NOTHING, run);
            var Running(id, hash, since) := s.pcs[w];
            var s' := Apply(cfg, s, CompleteSql(w, r));
            var end := After(cfg, s', later);
            && s'.rows == s.rows[id := Row(hash, since, Some(r))]
            && (!Expired(cfg, s'.rows[id], end.now) ==>
                  && id in end.rows && end.rows[id] == s'.rows[id]
                  && forall pass :: LookedUp(end.rows, id, hash, pass) == Answered(id, hash, Replayed(r)))
  {
    AtMostOneRunner(cfg, run);
    var s := After(cfg, NOTHING, run);
    assert Owns(s, s.pcs[w]);
    var id, s' := s.pcs[w].id, Apply(cfg, s, CompleteSql(w, r));
    if !Expired(cfg, s'.rows[id], After(cfg, s', later).now) {
      StoredResponseIsStable(cfg, s', later, id);
    }
  }

  /** A request that gave up frees its key: its row goes, no other row changes, and the next claim of the key, by any
      request with any hash, is NEW. A response that was stored all the same stays. */
  lemma ReleaseFreesKey(cfg: Config, run: seq<Step>, w: nat)
    requires cfg.LeasesWithinTtl()
    requires IsRun(cfg, NOTHING, run) && LeasesRespected(cfg, NOTHING, run)
    requires Enabled(After(cfg, NOTHING, run), ReleaseSql(w))
    ensures var s := After(cfg, NOTHING, run);
            var id := s.pcs[w].id;
            var s' := Apply(cfg, s, ReleaseSql(w));
            && id in s.rows && OthersKept(s, s', id)
            && (s.rows[id].response.Some? ==> s'.rows == s.rows)
            && (s.rows[id].response.None? ==>
                  && id !in s'.rows
                  && forall v | Enabled(s', ClaimSql(v)) && s'.pcs[v].id == id ::
                       Apply(cfg, s', ClaimSql(v)).pcs[v] == Running(id, s'.pcs[v].hash, s'.now))
  {
    AtMostOneRunner(cfg, run);
    var s := After(cfg, NOTHING, run);
    assert Owns(s, s.pcs[w]);
  }

  /** A claim beside a live runner is answered NEW exactly when the runner outlived the TTL, or its
      lease and the request is the same: the hypothesis on leases cannot be dropped. */
  lemma SecondRunnerOnlyPastLease(cfg: Config, s: State, v: nat, w: nat)
    requires v in s.pcs && s.pcs[v].Running? && Owns(s, s.pcs[v])
    requires Enabled(s, ClaimSql(w)) && s.pcs[w].id == s.pcs[v].id
    ensures Apply(cfg, s, ClaimSql(w)).pcs[w].Running?
       <==> || s.now > s.pcs[v].since + cfg.ttl
            || (s.pcs[w].hash == s.pcs[v].hash && s.now > s.pcs[v].since + cfg.LeaseFor(s.pcs[v].id))
  {
  }

  /** A run in which the first runner outlives its lease: two requests run the route at once, and the
      late one's response is stored in the row the other claimed. */
  lemma LateRunnerCompletesForeignRow(cfg: Config, id: Id, r: Response) returns (run: seq<Step>)
    requires 0 <= cfg.LeaseFor(id) < cfg.ttl
    ensures IsRun(cfg, NOTHING, run)
    ensures var late := cfg.LeaseFor(id) + 1;
            var s := After(cfg, NOTHING, run);
            && 0 in s.pcs && s.pcs[0] == Running(id, "h", 0)
            && 1 in s.pcs && s.pcs[1] == Running(id, "h", late)
            && id in s.rows && s.rows[id] == Row("h", late, None)
            && Apply(cfg, s, CompleteSql(0, r)).rows == s.rows[id := Row("h", late, Some(r))]
  {
    var late := cfg.LeaseFor(id) + 1;
    run := [];
    var s := NOTHING;
    run, s := Extend(cfg, run, s, Begin(0, id, "h"));
    run, s := Extend(cfg, run, s, ClaimSql(0));
    run, s := Extend(cfg, run, s, Tick(late));
    run, s := Extend(cfg, run, s, Begin(1, id, "h"));
    run, s := Extend(cfg, run, s, ClaimSql(1));
  }

  lemma Extend(cfg: Config, run: seq<Step>, s: State, a: Step) returns (run': seq<Step>, s': State)
    requires IsRun(cfg, NOTHING, run) && After(cfg, NOTHING, run) == s && Enabled(s, a)
    ensures IsRun(cfg, NOTHING, run')
    ensures s' == Apply(cfg, s, a) && After(cfg, NOTHING, run') == s'
  {
    run', s' := run + [a], Apply(cfg, s, a);
    assert Front(run') == run;
  }
}

/** request_hash: what the digest is fed, each part behind its 8-byte big-endian length. */
module RequestFraming {
  import opened Common

  type Byte = b: int | 0 <= b < 256

  function BigEndian(n: nat, width: nat): (bs: seq<Byte>)
    ensures |bs| == width
  {
    if width == 0 then [] else BigEndian(n / 256, width - 1) + [n % 256]
  }

  function Value(bs: seq<Byte>): nat {
    if bs == [] then 0 else 256 * Value(Front(bs)) + Last(bs)
  }

  function Power256(width: nat): nat {
    if width == 0 then 1 else 256 * Power256(width - 1)
  }

  lemma {:induction false} BigEndianRoundTrip(n: nat, width: nat)
    requires n < Power256(width)
    ensures Value(BigEndian(n, width)) == n
  {
    if width > 0 {
      assert Front(BigEndian(n, width)) == BigEndian(n / 256, width - 1);
      BigEndianRoundTrip(n / 256, width - 1);
    }
  }

  function Frame(parts: seq<seq<Byte>>): seq<Byte> {
    if parts == [] then [] else BigEndian(|parts[0]|, 8) + parts[0] + Frame(parts[1..])
  }

  /** The framed parts determine the request: two requests with one digest input are the same. */
  lemma {:induction false} FrameInjective(a: seq<seq<Byte>>, b: seq<seq<Byte>>)
    requires |a| == |b| && Frame(a) == Frame(b)
    requires forall p | p in a || p in b :: |p| < Power256(8)
    ensures a == b
  {
    if a != [] {
      BigEndianRoundTrip(|a[0]|, 8);
      BigEndianRoundTrip(|b[0]|, 8);
      assert BigEndian(|a[0]|, 8) == Frame(a)[..8] == BigEndian(|b[0]|, 8);
      assert a[0] == Frame(a)[8..8 + |a[0]|] == b[0];
      assert Frame(a[1..]) == Frame(a)[8 + |a[0]|..] == Frame(b[1..]);
      FrameInjective(a[1..], b[1..]);
      assert a == [a[0]] + a[1..] && b == [b[0]] + b[1..];
    }
  }
}
