/** Driving statistics per 0.1 m cell (the pure core of packages/api/drive_stats.py): movements are
    sampled along their segment, grouped by cell chunk by chunk, and grouped once more over all chunks. */
module DriveTiles {
  import opened Common
  import opened CellKeys

  const SAMPLE_DIV := 4
  const MAX_SAMPLES_PER_SEGMENT := 4000

  datatype Cell = Cell(ix: int, iy: int)

  /** A packed cell. */
  datatype Key = Key(code: int)

  function Packed(c: Cell): Key { Key(CellKey(c.ix, c.iy)) }

  /** Length, time, recovery and stopped seconds. */
  datatype Sums = Sums(length: real, time: real, recovery: real, stopped: real) {
    function Plus(o: Sums): Sums {
      Sums(length + o.length, time + o.time, recovery + o.recovery, stopped + o.stopped)
    }

    function Times(w: real): Sums {
      Sums(w * length, w * time, w * recovery, w * stopped)
    }
  }

  const ZERO := Sums(0.0, 0.0, 0.0, 0.0)

  /** One movement; `amounts.length` is |p1 - p0|. */
  datatype Movement = Movement(run: nat, x0: real, y0: real, x1: real, y1: real, amounts: Sums)

  datatype Sample = Sample(cell: Cell, key: Key, run: nat, share: Sums)

  function Ceil(x: real): int {
    -((-x).Floor)
  }

  /** Samples of one movement: none covers more than a quarter of a cell, unless there would be too many. */
  function Nsub(length: real, step: real): (n: nat)
    requires step > 0.0
    ensures 1 <= n <= 4000
    ensures n < 4000 ==> length <= n as real * (step / 4.0)
    ensures n > 1 ==> (n - 1) as real * (step / 4.0) < length
  {
    var d := step / SAMPLE_DIV as real;
    var c := Ceil(length / d);
    var n := if c < 1 then 1 else if c > MAX_SAMPLES_PER_SEGMENT then MAX_SAMPLES_PER_SEGMENT else c;
    Quarters(length, d, n);
    Quarters(length, d, n - 1);
    n
  }

  lemma Quarters(length: real, d: real, n: int)
    requires d > 0.0
    ensures n >= Ceil(length / d) <==> length <= n as real * d
  {
    var q := length / d;
    assert q * d == length;
    assert n >= Ceil(q) <==> n as real >= q;
    if n as real >= q {
      assert (n as real - q) * d >= 0.0;
    } else {
      assert (q - n as real) * d > 0.0;
    }
  }

  function CellOf(x: real, y: real, step: real): Cell
    requires step > 0.0
  {
    Cell((x / step).Floor, (y / step).Floor)
  }

  /** The cell of the point at a fraction of the movement. */
  function CellAt(m: Movement, frac: real, step: real): Cell
    requires step > 0.0
  {
    CellOf(m.x0 + frac * (m.x1 - m.x0), m.y0 + frac * (m.y1 - m.y0), step)
  }

  function SampleCell(m: Movement, k: nat, n: nat, step: real): Cell
    requires step > 0.0 && n > 0
  {
    CellAt(m, (k as real + 0.5) / n as real, step)
  }

  /** The first k of a movement's n samples, each with an equal share. */
  function FirstSamples(m: Movement, k: nat, n: nat, step: real): seq<Sample>
    requires step > 0.0 && n > 0
  {
    if k == 0 then []
    else FirstSamples(m, k - 1, n, step) + [SampleAt(m, k - 1, n, step)]
  }

  function SampleAt(m: Movement, k: nat, n: nat, step: real): Sample
    requires step > 0.0 && n > 0
  {
    var c := SampleCell(m, k, n, step);
    Sample(c, Packed(c), m.run, m.amounts.Times(1.0 / n as real))
  }

  function SamplesOf(m: Movement, step: real): seq<Sample>
    requires step > 0.0
  {
    var n := Nsub(m.amounts.length, step);
    FirstSamples(m, n, n, step)
  }

  function Samples(ms: seq<Movement>, step: real): seq<Sample>
    requires step > 0.0
  {
    if ms == [] then [] else Samples(Front(ms), step) + SamplesOf(Last(ms), step)
  }

  // --- grouping ------------------------------------------------------------------------------------

  type Groups = map<Key, Sums>

  function Get(g: Groups, c: Key): Sums {
    if c in g then g[c] else ZERO
  }

  /** np.unique and np.bincount over the samples of one chunk. */
  function Group(samples: seq<Sample>): Groups {
    if samples == [] then map[]
    else
      var g, s := Group(Front(samples)), Last(samples);
      g[s.key := Get(g, s.key).Plus(s.share)]
  }

  /** The second grouping of two groupings. */
  function Join(a: Groups, b: Groups): Groups {
    map c | c in a.Keys + b.Keys :: Get(a, c).Plus(Get(b, c))
  }

  function JoinAll(gs: seq<Groups>): Groups {
    if gs == [] then map[] else Join(JoinAll(Front(gs)), Last(gs))
  }

  lemma JoinUpdate(a: Groups, b: Groups, s: Sample)
    ensures Join(a, b[s.key := Get(b, s.key).Plus(s.share)])
         == var j := Join(a, b); j[s.key := Get(j, s.key).Plus(s.share)]
  {
  }

  /** Grouping after grouping is grouping once. */
  lemma {:induction false} GroupConcat(a: seq<Sample>, b: seq<Sample>)
    ensures Group(a + b) == Join(Group(a), Group(b))
  {
    if b == [] {
      assert a + b == a;
      assert Join(Group(a), map[]) == Group(a);
    } else {
      assert Front(a + b) == a + Front(b) && Last(a + b) == Last(b);
      GroupConcat(a, Front(b));
      JoinUpdate(Group(a), Group(Front(b)), Last(b));
    }
  }

  lemma {:induction false} SamplesConcat(a: seq<Movement>, b: seq<Movement>, step: real)
    requires step > 0.0
    ensures Samples(a + b, step) == Samples(a, step) + Samples(b, step)
  {
    if b == [] {
      assert a + b == a;
    } else {
      assert Front(a + b) == a + Front(b) && Last(a + b) == Last(b);
      SamplesConcat(a, Front(b), step);
      var l := SamplesOf(Last(b), step);
      assert Samples(a + b, step) == Samples(a + Front(b), step) + l;
      assert (Samples(a, step) + Samples(Front(b), step)) + l == Samples(a, step) + (Samples(Front(b), step) + l);
    }
  }

  // --- totals ---------------------------------------------------------------------------------------

  /** The sum over all cells of a grouping. */
  ghost function TotalOf(g: Groups): Sums
    decreases |g|
  {
    if g == map[] then ZERO
    else
      var c :| c in g;
      g[c].Plus(TotalOf(g - {c}))
  }

  lemma PlusSwap(a: Sums, b: Sums, t: Sums)
    ensures a.Plus(b.Plus(t)) == b.Plus(a.Plus(t))
  {
  }

  lemma {:induction false} TotalPick(g: Groups, c: Key)
    requires c in g
    ensures TotalOf(g) == g[c].Plus(TotalOf(g - {c}))
    decreases |g|
  {
    var d :| d in g && TotalOf(g) == g[d].Plus(TotalOf(g - {d}));
    if d != c {
      TotalPick(g - {d}, c);
      TotalPick(g - {c}, d);
      assert g - {d} - {c} == g - {c} - {d};
      assert TotalOf(g - {d}) == g[c].Plus(TotalOf(g - {d} - {c}));
      assert TotalOf(g - {c}) == g[d].Plus(TotalOf(g - {c} - {d}));
      PlusSwap(g[d], g[c], TotalOf(g - {c} - {d}));
    }
  }

  lemma TotalUpdate(g: Groups, c: Key, share: Sums)
    ensures TotalOf(g[c := Get(g, c).Plus(share)]) == TotalOf(g).Plus(share)
  {
    var g' := g[c := Get(g, c).Plus(share)];
    TotalPick(g', c);
    if c in g {
      TotalPick(g, c);
      assert g' - {c} == g - {c};
    } else {
      assert g' - {c} == g;
    }
  }

  function SharesSum(samples: seq<Sample>): Sums {
    if samples == [] then ZERO else SharesSum(Front(samples)).Plus(Last(samples).share)
  }

  lemma {:induction false} GroupKeepsTotal(samples: seq<Sample>)
    ensures TotalOf(Group(samples)) == SharesSum(samples)
  {
    if samples != [] {
      GroupKeepsTotal(Front(samples));
      TotalUpdate(Group(Front(samples)), Last(samples).key, Last(samples).share);
    }
  }

  lemma {:induction false} SharesConcat(a: seq<Sample>, b: seq<Sample>)
    ensures SharesSum(a + b) == SharesSum(a).Plus(SharesSum(b))
  {
    if b == [] {
      assert a + b == a;
    } else {
      assert Front(a + b) == a + Front(b) && Last(a + b) == Last(b);
      SharesConcat(a, Front(b));
    }
  }

  lemma OneMoreShare(share: Sums, k: real)
    ensures share.Times(k - 1.0).Plus(share) == share.Times(k)
  {
  }

  lemma {:induction false} FirstShares(m: Movement, k: nat, n: nat, step: real)
    requires step > 0.0 && n > 0
    ensures SharesSum(FirstSamples(m, k, n, step)) == m.amounts.Times(1.0 / n as real).Times(k as real)
  {
    if k > 0 {
      FirstShares(m, k - 1, n, step);
      AppendedShare(FirstSamples(m, k - 1, n, step), Last(FirstSamples(m, k, n, step)));
      OneMoreShare(m.amounts.Times(1.0 / n as real), k as real);
    }
  }

  lemma AppendedShare(samples: seq<Sample>, s: Sample)
    ensures SharesSum(samples + [s]) == SharesSum(samples).Plus(s.share)
  {
    assert Front(samples + [s]) == samples;
  }

  lemma WholeShare(n: real, x: real)
    requires n > 0.0
    ensures n * (1.0 / n * x) == x
  {
    assert n * (1.0 / n) == 1.0;
    assert n * (1.0 / n * x) == (n * (1.0 / n)) * x;
  }

  lemma WholeShares(s: Sums, n: real)
    requires n > 0.0
    ensures s.Times(1.0 / n).Times(n) == s
  {
    WholeShare(n, s.length);
    WholeShare(n, s.time);
    WholeShare(n, s.recovery);
    WholeShare(n, s.stopped);
  }

  /** A movement's samples carry all of it. */
  lemma SamplesCarryAll(m: Movement, step: real)
    requires step > 0.0
    ensures SharesSum(SamplesOf(m, step)) == m.amounts
  {
    var n := Nsub(m.amounts.length, step);
    FirstShares(m, n, n, step);
    WholeShares(m.amounts, n as real);
  }

  function AmountsSum(ms: seq<Movement>): Sums {
    if ms == [] then ZERO else AmountsSum(Front(ms)).Plus(Last(ms).amounts)
  }

  /** Length, time, recovery and stopped seconds of the tiles are those of the movements. */
  lemma {:induction false} TilesConserve(ms: seq<Movement>, step: real)
    requires step > 0.0
    ensures TotalOf(Group(Samples(ms, step))) == AmountsSum(ms)
  {
    GroupKeepsTotal(Samples(ms, step));
    if ms != [] {
      TilesConserve(Front(ms), step);
      GroupKeepsTotal(Samples(Front(ms), step));
      SharesConcat(Samples(Front(ms), step), SamplesOf(Last(ms), step));
      SamplesCarryAll(Last(ms), step);
    }
  }

  // --- run counts ------------------------------------------------------------------------------------

  datatype Pair = Pair(key: Key, run: nat)

  /** np.unique over the (cell, run) codes of one chunk. */
  function PairsOf(samples: seq<Sample>): (ps: set<Pair>)
    ensures forall p :: p in ps <==> exists i | 0 <= i < |samples| :: Pair(samples[i].key, samples[i].run) == p
  {
    set i | 0 <= i < |samples| :: Pair(samples[i].key, samples[i].run)
  }

  lemma PairsConcat(a: seq<Sample>, b: seq<Sample>)
    ensures PairsOf(a + b) == PairsOf(a) + PairsOf(b)
  {
    forall p ensures p in PairsOf(a + b) <==> p in PairsOf(a) + PairsOf(b) {
      if p in PairsOf(a) {
        var i :| 0 <= i < |a| && Pair(a[i].key, a[i].run) == p;
        assert Pair((a + b)[i].key, (a + b)[i].run) == p;
      }
      if p in PairsOf(b) {
        var i :| 0 <= i < |b| && Pair(b[i].key, b[i].run) == p;
        assert Pair((a + b)[|a| + i].key, (a + b)[|a| + i].run) == p;
      }
    }
  }

  /** The runs with at least one sample in a cell. */
  ghost function RunsIn(samples: seq<Sample>, c: Key): set<nat> {
    set i | 0 <= i < |samples| && samples[i].key == c :: samples[i].run
  }

  function CountIn(pairs: set<Pair>, c: Key): nat {
    |set p | p in pairs && p.key == c|
  }

  lemma {:induction false} SameSize(ps: set<Pair>, rs: set<nat>, c: Key)
    requires forall p | p in ps :: p.key == c && p.run in rs
    requires forall r | r in rs :: Pair(c, r) in ps
    ensures |ps| == |rs|
    decreases |rs|
  {
    if rs == {} {
      assert forall p | p in ps :: p.run in rs;
      assert ps == {};
    } else {
      var r :| r in rs;
      SameSize(ps - {Pair(c, r)}, rs - {r}, c);
    }
  }

  /** A tile's `n` is the number of distinct runs sampled in it. */
  lemma CountIsDistinctRuns(samples: seq<Sample>, c: Key)
    ensures CountIn(PairsOf(samples), c) == |RunsIn(samples, c)|
  {
    var ps := set p | p in PairsOf(samples) && p.key == c;
    var rs := RunsIn(samples, c);
    forall r | r in rs ensures Pair(c, r) in ps {
      var i :| 0 <= i < |samples| && samples[i].key == c && samples[i].run == r;
    }
    SameSize(ps, rs, c);
  }

  // --- the accumulator --------------------------------------------------------------------------------

  datatype Tiles = Tiles(sums: Groups, n: map<Key, nat>)

  /** The tiles of all movements at once: one grouping, no chunks. */
  ghost function TilesOf(ms: seq<Movement>, step: real): Tiles
    requires step > 0.0
  {
    var all := Samples(ms, step);
    Tiles(Group(all), map c | c in Group(all) :: |RunsIn(all, c)|)
  }

  function UnionAll(ps: seq<set<Pair>>): set<Pair> {
    if ps == [] then {} else UnionAll(Front(ps)) + Last(ps)
  }

  lemma ChunkJoins(groups: seq<Groups>, pairs: seq<set<Pair>>, added: seq<Movement>, ms: seq<Movement>, step: real)
    requires step > 0.0
    requires JoinAll(groups) == Group(Samples(added, step)) && UnionAll(pairs) == PairsOf(Samples(added, step))
    ensures JoinAll(groups + [Group(Samples(ms, step))]) == Group(Samples(added + ms, step))
    ensures UnionAll(pairs + [PairsOf(Samples(ms, step))]) == PairsOf(Samples(added + ms, step))
  {
    var samples := Samples(ms, step);
    SamplesConcat(added, ms, step);
    GroupConcat(Samples(added, step), samples);
    PairsConcat(Samples(added, step), samples);
    assert Front(groups + [Group(samples)]) == groups;
    assert Front(pairs + [PairsOf(samples)]) == pairs;
  }

  lemma {:induction false} JoinAllConcat(a: seq<Groups>, b: seq<Groups>)
    ensures JoinAll(a + b) == Join(JoinAll(a), JoinAll(b))
  {
    if b == [] {
      assert a + b == a;
      assert Join(JoinAll(a), map[]) == JoinAll(a);
    } else {
      assert Front(a + b) == a + Front(b) && Last(a + b) == Last(b);
      JoinAllConcat(a, Front(b));
      JoinAssociative(JoinAll(a), JoinAll(Front(b)), Last(b));
    }
  }

  lemma GetJoin(a: Groups, b: Groups, x: Key)
    ensures Get(Join(a, b), x) == Get(a, x).Plus(Get(b, x))
  {
  }

  lemma JoinAssociativeAt(a: Groups, b: Groups, c: Groups, x: Key)
    ensures Get(Join(Join(a, b), c), x) == Get(Join(a, Join(b, c)), x)
  {
    GetJoin(a, b, x);
    GetJoin(b, c, x);
    GetJoin(Join(a, b), c, x);
    GetJoin(a, Join(b, c), x);
  }

  lemma SameGroups(l: Groups, r: Groups)
    requires l.Keys == r.Keys && forall x :: Get(l, x) == Get(r, x)
    ensures l == r
  {
    forall x | x in l ensures l[x] == r[x] {
      assert Get(l, x) == Get(r, x);
    }
  }

  lemma JoinAssociative(a: Groups, b: Groups, c: Groups)
    ensures Join(Join(a, b), c) == Join(a, Join(b, c))
  {
    var l, r := Join(Join(a, b), c), Join(a, Join(b, c));
    assert l.Keys == a.Keys + b.Keys + c.Keys == r.Keys;
    forall x ensures Get(l, x) == Get(r, x) {
      JoinAssociativeAt(a, b, c, x);
    }
    SameGroups(l, r);
  }

  lemma {:induction false} UnionAllConcat(a: seq<set<Pair>>, b: seq<set<Pair>>)
    ensures UnionAll(a + b) == UnionAll(a) + UnionAll(b)
  {
    if b == [] {
      assert a + b == a;
    } else {
      assert Front(a + b) == a + Front(b) && Last(a + b) == Last(b);
      UnionAllConcat(a, Front(b));
    }
  }

  /** Over disjoint runs the run counts of two accumulators add up. */
  lemma CountsAdd(a: seq<Sample>, b: seq<Sample>, c: Key)
    requires forall i, j | 0 <= i < |a| && 0 <= j < |b| :: a[i].run != b[j].run
    ensures |RunsIn(a + b, c)| == |RunsIn(a, c)| + |RunsIn(b, c)|
  {
    var ra, rb, r := RunsIn(a, c), RunsIn(b, c), RunsIn(a + b, c);
    forall x | x in ra ensures x in r {
      var i :| 0 <= i < |a| && a[i].key == c && a[i].run == x;
      assert (a + b)[i] == a[i];
    }
    forall x | x in rb ensures x in r {
      var i :| 0 <= i < |b| && b[i].key == c && b[i].run == x;
      assert (a + b)[|a| + i] == b[i];
    }
    assert r == ra + rb && ra * rb == {};
  }

  // --- packed pairs -----------------------------------------------------------------------------------

  function IndexOf(uniq: seq<Key>, k: Key): (i: nat)
    requires k in uniq
    ensures i < |uniq| && uniq[i] == k
  {
    if uniq[0] == k then 0 else 1 + IndexOf(uniq[1..], k)
  }

  /** index * n_runs + run. */
  function Code(uniq: seq<Key>, nRuns: nat, p: Pair): nat
    requires p.key in uniq
  {
    IndexOf(uniq, p.key) * nRuns + p.run
  }

  /** np.unique over the codes of the pairs. */
  function Codes(ps: set<Pair>, uniq: seq<Key>, nRuns: nat): set<nat>
    requires forall p | p in ps :: p.key in uniq
  {
    set p | p in ps :: Code(uniq, nRuns, p)
  }

  /** (uniq[code // n_runs], code % n_runs) of every code. */
  function Uncoded(codes: set<nat>, uniq: seq<Key>, nRuns: nat): set<Pair>
    requires nRuns > 0
    requires forall c | c in codes :: c / nRuns < |uniq|
  {
    set c | c in codes :: Pair(uniq[c / nRuns], c % nRuns)
  }

  ghost predicate Lists(uniq: seq<Key>, ps: set<Pair>, nRuns: nat) {
    && (forall p | p in ps :: p.key in uniq && p.run < nRuns)
    && (forall i, j | 0 <= i < j < |uniq| :: uniq[i] != uniq[j])
  }

  lemma CodeParts(uniq: seq<Key>, nRuns: nat, p: Pair)
    requires p.key in uniq && p.run < nRuns
    ensures Code(uniq, nRuns, p) / nRuns == IndexOf(uniq, p.key) && Code(uniq, nRuns, p) % nRuns == p.run
  {
    PairRoundTrip(IndexOf(uniq, p.key), p.run, nRuns);
  }

  /** Packing the pairs and unpacking them loses nothing. */
  lemma PackingLosesNothing(ps: set<Pair>, uniq: seq<Key>, nRuns: nat)
    requires nRuns > 0 && Lists(uniq, ps, nRuns)
    ensures forall c | c in Codes(ps, uniq, nRuns) :: c / nRuns < |uniq|
    ensures Uncoded(Codes(ps, uniq, nRuns), uniq, nRuns) == ps
  {
    var codes := Codes(ps, uniq, nRuns);
    forall p | p in ps
      ensures Code(uniq, nRuns, p) / nRuns == IndexOf(uniq, p.key)
              && Code(uniq, nRuns, p) % nRuns == p.run
    {
      CodeParts(uniq, nRuns, p);
    }
    forall p | p in ps ensures p in Uncoded(codes, uniq, nRuns) {
      assert Code(uniq, nRuns, p) in codes;
    }
  }

  /** The codes of one cell are as many as its pairs. */
  lemma CodesOfCell(ps: set<Pair>, uniq: seq<Key>, nRuns: nat, k: Key)
    requires nRuns > 0 && Lists(uniq, ps, nRuns) && k in uniq
    ensures |set c | c in Codes(ps, uniq, nRuns) && c / nRuns == IndexOf(uniq, k)| == CountIn(ps, k)
  {
    var mine := set p | p in ps && p.key == k;
    var cs := set c | c in Codes(ps, uniq, nRuns) && c / nRuns == IndexOf(uniq, k);
    forall p | p in ps ensures (Code(uniq, nRuns, p) in cs <==> p.key == k) && Code(uniq, nRuns, p) % nRuns == p.run {
      CodeParts(uniq, nRuns, p);
      assert Code(uniq, nRuns, p) in Codes(ps, uniq, nRuns);
    }
    SameCodes(mine, cs, uniq, nRuns, k);
  }

  lemma {:induction false} SameCodes(ps: set<Pair>, cs: set<nat>, uniq: seq<Key>, nRuns: nat, k: Key)
    requires k in uniq && forall p | p in ps :: p.key == k && p.run < nRuns && Code(uniq, nRuns, p) in cs
    requires forall c | c in cs :: exists p | p in ps :: Code(uniq, nRuns, p) == c
    ensures |cs| == |ps|
    decreases |ps|
  {
    if ps == {} {
      assert cs == {};
    } else {
      var p :| p in ps;
      var c := Code(uniq, nRuns, p);
      forall d | d in cs - {c} ensures exists q | q in ps - {p} :: Code(uniq, nRuns, q) == d {
        var q :| q in ps && Code(uniq, nRuns, q) == d;
      }
      SameCodes(ps - {p}, cs - {c}, uniq, nRuns, k);
    }
  }

  /** np.bincount of code // n_runs. */
  function CountedBy(sums: Groups, codes: set<nat>, uniq: seq<Key>, nRuns: nat): map<Key, nat>
    requires nRuns > 0 && forall k | k in sums :: k in uniq
  {
    map k | k in sums :: |set c | c in codes && c / nRuns == IndexOf(uniq, k)|
  }

  /** ... counts the distinct runs of every cell. */
  lemma CountedRuns(samples: seq<Sample>, uniq: seq<Key>, nRuns: nat)
    requires nRuns > 0 && Lists(uniq, PairsOf(samples), nRuns) && forall k | k in Group(samples) :: k in uniq
    ensures CountedBy(Group(samples), Codes(PairsOf(samples), uniq, nRuns), uniq, nRuns)
         == map k | k in Group(samples) :: |RunsIn(samples, k)|
  {
    forall k | k in Group(samples)
      ensures |set c | c in Codes(PairsOf(samples), uniq, nRuns) && c / nRuns == IndexOf(uniq, k)|
           == |RunsIn(samples, k)|
    {
      CodesOfCell(PairsOf(samples), uniq, nRuns, k);
      CountIsDistinctRuns(samples, k);
    }
  }

  /** The keys of a grouping as a list. */
  method KeysOf(g: Groups) returns (uniq: seq<Key>)
    ensures forall k :: k in uniq <==> k in g
    ensures forall i, j | 0 <= i < j < |uniq| :: uniq[i] != uniq[j]
  {
    uniq := [];
    var rest := g.Keys;
    while rest != {}
      invariant forall k :: k in g <==> k in uniq || k in rest
      invariant forall i | 0 <= i < |uniq| :: uniq[i] !in rest
      invariant forall i, j | 0 <= i < j < |uniq| :: uniq[i] != uniq[j]
      decreases |rest|
    {
      var k :| k in rest;
      uniq, rest := uniq + [k], rest - {k};
    }
  }

  ghost predicate RunsBelow(ms: seq<Movement>, nRuns: nat) { forall i | 0 <= i < |ms| :: ms[i].run < nRuns }

  /** The distinct pairs of a chunk, by way of their codes. */
  method PackedPairs(ms: seq<Movement>, step: real, nRuns: nat) returns (pairs: set<Pair>)
    requires step > 0.0 && nRuns > 0 && RunsBelow(ms, nRuns)
    ensures pairs == PairsOf(Samples(ms, step))
  {
    var samples := Samples(ms, step);
    var uniq := KeysOf(Group(samples));
    PairsListed(ms, step, nRuns, uniq);
    var codes := Codes(PairsOf(samples), uniq, nRuns);
    PackingLosesNothing(PairsOf(samples), uniq, nRuns);
    pairs := Uncoded(codes, uniq, nRuns);
  }

  lemma OneChunkMore(before: seq<Movement>, ms: seq<Movement>, lo: nat, hi: nat)
    requires lo <= hi <= |ms|
    ensures before + ms[..lo] + ms[lo..hi] == before + ms[..hi]
  {
  }

  lemma RunsBelowPart(ms: seq<Movement>, nRuns: nat, lo: nat, hi: nat)
    requires RunsBelow(ms, nRuns) && lo <= hi <= |ms|
    ensures RunsBelow(ms[lo..hi], nRuns)
  {
  }

  class Accumulator {
    const step: real
    const nRuns: nat
    var groups: seq<Groups>
    var pairs: seq<set<Pair>>
    ghost var added: seq<Movement>

    ghost predicate Valid()
      reads this
    {
      && step > 0.0 && nRuns > 0 && RunsBelow(added, nRuns)
      && JoinAll(groups) == Group(Samples(added, step))
      && UnionAll(pairs) == PairsOf(Samples(added, step))
    }

    constructor (step: real, nRuns: nat)
      requires step > 0.0
      ensures Valid() && added == [] && this.step == step && this.nRuns == if nRuns > 0 then nRuns else 1
    {
      this.step, this.nRuns := step, if nRuns > 0 then nRuns else 1;
      groups, pairs, added := [], [], [];
      new;
      assert PairsOf(Samples(added, step)) == {};
    }

    method AddChunk(ms: seq<Movement>)
      requires Valid() && RunsBelow(ms, nRuns)
      modifies this
      ensures Valid() && added == old(added) + ms
    {
      if ms == [] {
        assert added + ms == added;
        return;
      }
      var packed := PackedPairs(ms, step, nRuns);
      ChunkJoins(groups, pairs, added, ms, step);
      groups := groups + [Group(Samples(ms, step))];
      pairs := pairs + [packed];
      added := added + ms;
    }

    /** Movements in chunks of `size` (CHUNK_SEGMENTS). */
    method Add(ms: seq<Movement>, size: nat)
      requires Valid() && size > 0 && RunsBelow(ms, nRuns)
      modifies this
      ensures Valid() && added == old(added) + ms
    {
      var lo := 0;
      while lo < |ms|
        invariant Valid() && 0 <= lo <= |ms|
        invariant added == old(added) + ms[..lo]
      {
        var hi := if lo + size < |ms| then lo + size else |ms|;
        RunsBelowPart(ms, nRuns, lo, hi);
        AddChunk(ms[lo..hi]);
        OneChunkMore(old(added), ms, lo, hi);
        lo := hi;
      }
      assert ms[..|ms|] == ms;
    }

    /** Both accumulators' lists one after the other. */
    method MergedWith(other: Accumulator) returns (out: Accumulator)
      requires Valid() && other.Valid() && other.step == step
      ensures fresh(out) && out.Valid() && out.step == step && out.added == added + other.added
    {
      out := new Accumulator(step, if nRuns > other.nRuns then nRuns else other.nRuns);
      SamplesConcat(added, other.added, step);
      GroupConcat(Samples(added, step), Samples(other.added, step));
      PairsConcat(Samples(added, step), Samples(other.added, step));
      JoinAllConcat(groups, other.groups);
      UnionAllConcat(pairs, other.pairs);
      out.groups, out.pairs, out.added := groups + other.groups, pairs + other.pairs, added + other.added;
    }

    /** Whatever the chunks were, the tiles are those of all movements grouped at once. */
    method GetTiles() returns (t: Tiles)
      requires Valid()
      ensures t == TilesOf(added, step)
      ensures TotalOf(t.sums) == AmountsSum(added)
    {
      var sums := JoinAll(groups);
      var all := UnionAll(pairs);
      var uniq := KeysOf(sums);
      PairsListed(added, step, nRuns, uniq);
      t := Tiles(sums, CountedBy(sums, Codes(all, uniq, nRuns), uniq, nRuns));
      CountedRuns(Samples(added, step), uniq, nRuns);
      TilesConserve(added, step);
    }
  }

  // --- where the samples lie ----------------------------------------------------------------------------

  /** A coordinate lies in the i-th stretch of `step`. */
  ghost predicate Between(x: real, i: int, step: real) {
    i as real * step <= x < (i + 1) as real * step
  }

  ghost predicate InCell(x: real, y: real, c: Cell, step: real) {
    Between(x, c.ix, step) && Between(y, c.iy, step)
  }

  /** The point at the fraction f of the movement lies in the cell. */
  ghost predicate PassesAt(m: Movement, f: real, c: Cell, step: real) {
    InCell(m.x0 + f * (m.x1 - m.x0), m.y0 + f * (m.y1 - m.y0), c, step)
  }

  /** A coordinate lies in the stretch its quotient is rounded down to. */
  lemma FloorBetween(x: real, step: real)
    requires step > 0.0
    ensures Between(x, (x / step).Floor, step)
  {
    var q := x / step;
    var i := q.Floor;
    assert q * step == x;
    assert (q - i as real) * step >= 0.0;
    assert ((i + 1) as real - q) * step > 0.0;
  }

  lemma DivisionOrder(a: real, b: real, n: real)
    requires n > 0.0
    ensures a < b <==> a / n < b / n
  {
    var p, q := a / n, b / n;
    assert p * n == a && q * n == b;
    assert (q - p) * n == b - a;
    if p < q {
      assert (q - p) * n > 0.0;
    } else {
      assert (p - q) * n >= 0.0;
    }
  }

  lemma PointInCell(x: real, y: real, step: real)
    requires step > 0.0
    ensures InCell(x, y, CellOf(x, y, step), step)
  {
    FloorBetween(x, step);
    FloorBetween(y, step);
  }

  lemma CellPasses(m: Movement, f: real, step: real)
    requires step > 0.0
    ensures PassesAt(m, f, CellAt(m, f, step), step)
  {
    PointInCell(m.x0 + f * (m.x1 - m.x0), m.y0 + f * (m.y1 - m.y0), step);
  }

  /** The k-th of n samples lies in a cell the movement passes through, between k / n and (k + 1) / n of its way. */
  lemma SampleOnTheWay(m: Movement, k: nat, n: nat, step: real) returns (f: real)
    requires step > 0.0 && n > 0
    ensures k as real / n as real < f < (k + 1) as real / n as real
    ensures PassesAt(m, f, SampleAt(m, k, n, step).cell, step)
  {
    f := (k as real + 0.5) / n as real;
    DivisionOrder(k as real, k as real + 0.5, n as real);
    DivisionOrder(k as real + 0.5, (k + 1) as real, n as real);
    CellPasses(m, f, step);
  }

  /** Some movement passes through the cell. */
  ghost predicate Passed(ms: seq<Movement>, c: Cell, step: real) {
    exists i, f: real | 0 <= i < |ms| :: PassesAt(ms[i], f, c, step) && 0.0 < f < 1.0
  }

  lemma {:induction false} FirstSamplesPass(m: Movement, k: nat, n: nat, step: real, i: nat) returns (f: real)
    requires step > 0.0 && k <= n && n > 0 && i < |FirstSamples(m, k, n, step)|
    ensures 0.0 < f < 1.0 && PassesAt(m, f, FirstSamples(m, k, n, step)[i].cell, step)
  {
    if i == |FirstSamples(m, k, n, step)| - 1 {
      f := SampleOnTheWay(m, k - 1, n, step);
      Within(k - 1, n);
    } else {
      f := FirstSamplesPass(m, k - 1, n, step, i);
    }
  }

  lemma Within(k: nat, n: nat)
    requires k < n
    ensures 0.0 <= k as real / n as real && (k + 1) as real / n as real <= 1.0
  {
    assert n as real / n as real == 1.0;
    DivisionOrder(n as real, (k + 1) as real, n as real);
  }

  lemma {:induction false} SamplesPass(ms: seq<Movement>, step: real, i: nat)
    requires step > 0.0 && i < |Samples(ms, step)|
    ensures Passed(ms, Samples(ms, step)[i].cell, step)
  {
    var c := Samples(ms, step)[i].cell;
    var before := Samples(Front(ms), step);
    if i < |before| {
      SamplesPass(Front(ms), step, i);
      var j, f: real :| 0 <= j < |ms| - 1 && PassesAt(Front(ms)[j], f, c, step) && 0.0 < f < 1.0;
      assert PassesAt(ms[j], f, c, step);
    } else {
      var n := Nsub(Last(ms).amounts.length, step);
      var f := FirstSamplesPass(Last(ms), n, n, step, i - |before|);
      assert PassesAt(ms[|ms| - 1], f, c, step);
    }
  }

  /** A tile is there only for a cell that some movement passes through. */
  lemma TilesWherePassed(ms: seq<Movement>, step: real, k: Key) returns (c: Cell)
    requires step > 0.0 && k in Group(Samples(ms, step))
    ensures k == Packed(c) && Passed(ms, c, step)
  {
    var samples := Samples(ms, step);
    GroupKeys(samples, k);
    var i :| 0 <= i < |samples| && samples[i].key == k;
    SamplesAre(ms, step, MostRuns(ms));
    assert Packs(samples[i]);
    SamplesPass(ms, step, i);
    c := samples[i].cell;
  }

  // --- what the packing needs -------------------------------------------------------------------------

  lemma {:induction false} GroupKeys(samples: seq<Sample>, k: Key)
    ensures k in Group(samples) <==> exists i | 0 <= i < |samples| :: samples[i].key == k
  {
    if samples != [] {
      GroupKeys(Front(samples), k);
      assert samples == Front(samples) + [Last(samples)];
      if exists i | 0 <= i < |samples| - 1 :: Front(samples)[i].key == k {
        var i :| 0 <= i < |samples| - 1 && Front(samples)[i].key == k;
        assert samples[i].key == k;
      }
    }
  }

  lemma {:induction false} FirstSamplesAre(m: Movement, k: nat, n: nat, step: real)
    requires step > 0.0 && n > 0
    ensures forall i | 0 <= i < |FirstSamples(m, k, n, step)| ::
              FirstSamples(m, k, n, step)[i].run == m.run && Packs(FirstSamples(m, k, n, step)[i])
  {
    if k > 0 { FirstSamplesAre(m, k - 1, n, step); }
  }

  predicate Packs(s: Sample) { s.key == Packed(s.cell) }

  lemma {:induction false} SamplesAre(ms: seq<Movement>, step: real, nRuns: nat)
    requires step > 0.0 && RunsBelow(ms, nRuns)
    ensures forall i | 0 <= i < |Samples(ms, step)| :: Samples(ms, step)[i].run < nRuns && Packs(Samples(ms, step)[i])
  {
    if ms != [] {
      SamplesAre(Front(ms), step, nRuns);
      var n := Nsub(Last(ms).amounts.length, step);
      FirstSamplesAre(Last(ms), n, n, step);
    }
  }

  lemma PairsListed(ms: seq<Movement>, step: real, nRuns: nat, uniq: seq<Key>)
    requires step > 0.0 && RunsBelow(ms, nRuns)
    requires forall k :: k in uniq <==> k in Group(Samples(ms, step))
    requires forall i, j | 0 <= i < j < |uniq| :: uniq[i] != uniq[j]
    ensures Lists(uniq, PairsOf(Samples(ms, step)), nRuns)
  {
    var samples := Samples(ms, step);
    SamplesAre(ms, step, nRuns);
    forall p | p in PairsOf(samples) ensures p.key in uniq && p.run < nRuns {
      var i :| 0 <= i < |samples| && Pair(samples[i].key, samples[i].run) == p;
      GroupKeys(samples, p.key);
      assert samples[i].key == p.key;
    }
  }

  /** What the samples of one key, and those of one cell, carry together. */
  function KeyShares(samples: seq<Sample>, k: Key): Sums {
    if samples == [] then ZERO
    else if Last(samples).key == k then KeyShares(Front(samples), k).Plus(Last(samples).share)
    else KeyShares(Front(samples), k)
  }

  function CellShares(samples: seq<Sample>, c: Cell): Sums {
    if samples == [] then ZERO
    else if Last(samples).cell == c then CellShares(Front(samples), c).Plus(Last(samples).share)
    else CellShares(Front(samples), c)
  }

  lemma {:induction false} GroupAt(samples: seq<Sample>, k: Key)
    ensures Get(Group(samples), k) == KeyShares(samples, k)
  {
    if samples != [] { GroupAt(Front(samples), k); }
  }

  /** The cell's key is the key of exactly its samples. */
  ghost predicate Separates(samples: seq<Sample>, c: Cell) {
    forall i | 0 <= i < |samples| :: samples[i].key == Packed(c) <==> samples[i].cell == c
  }

  lemma {:induction false} SharesSeparate(samples: seq<Sample>, c: Cell)
    requires Separates(samples, c)
    ensures KeyShares(samples, Packed(c)) == CellShares(samples, c)
  {
    if samples != [] {
      assert Separates(Front(samples), c);
      SharesSeparate(Front(samples), c);
    }
  }

  ghost predicate AllInRange(samples: seq<Sample>) {
    forall i | 0 <= i < |samples| :: InRange(samples[i].cell.ix, samples[i].cell.iy)
  }

  lemma RangeSeparates(ms: seq<Movement>, step: real, c: Cell)
    requires step > 0.0 && InRange(c.ix, c.iy) && AllInRange(Samples(ms, step))
    ensures Separates(Samples(ms, step), c)
  {
    var samples := Samples(ms, step);
    SamplesAre(ms, step, MostRuns(ms));
    forall i | 0 <= i < |samples| ensures samples[i].key == Packed(c) <==> samples[i].cell == c {
      var d := samples[i].cell;
      assert Packs(samples[i]);
      if samples[i].key == Packed(c) {
        KeyInjective(d.ix, d.iy, c.ix, c.iy);
      }
    }
  }

  /** While all sampled cells are in range, a tile is one cell's: its key gives the cell back, its sums are those of the
      samples in that cell, and its runs are those with a sample there. */
  lemma TileIsOneCell(ms: seq<Movement>, step: real, c: Cell)
    requires step > 0.0 && InRange(c.ix, c.iy) && AllInRange(Samples(ms, step))
    ensures KeyCells(Packed(c).code) == (c.ix, c.iy)
    ensures var samples := Samples(ms, step);
            && (Packed(c) in Group(samples) <==> exists i | 0 <= i < |samples| :: samples[i].cell == c)
            && Get(Group(samples), Packed(c)) == CellShares(samples, c)
            && RunsIn(samples, Packed(c)) == set i | 0 <= i < |samples| && samples[i].cell == c :: samples[i].run
  {
    var samples := Samples(ms, step);
    KeyRoundTrip(c.ix, c.iy);
    RangeSeparates(ms, step, c);
    GroupKeys(samples, Packed(c));
    GroupAt(samples, Packed(c));
    SharesSeparate(samples, c);
  }

  ghost function MostRuns(ms: seq<Movement>): (n: nat)
    ensures RunsBelow(ms, n)
  {
    if ms == [] then 0
    else
      var n := MostRuns(Front(ms));
      if Last(ms).run < n then n else Last(ms).run + 1
  }
}
