/** The connected components of a map's chart graph, computed with a union-find forest whose `find`
    halves paths while it walks (tools/scene_graph_check_generation.py). */
module ChartGraph {
  import opened Common

  datatype Key = Key(name: string)
  datatype Chart = Chart(key: Key, cells: nat)
  datatype Link = Link(a: Key, b: Key)

  function Keys(charts: seq<Chart>): (ks: seq<Key>)
    ensures |ks| == |charts| && forall i | 0 <= i < |charts| :: ks[i] == charts[i].key
  {
    seq(|charts|, i requires 0 <= i < |charts| => charts[i].key)
  }

  ghost predicate Linked(links: seq<Link>, a: Key, b: Key) {
    exists i | 0 <= i < |links| :: links[i] == Link(a, b) || links[i] == Link(b, a)
  }

  ghost predicate IsPath(keys: seq<Key>, links: seq<Link>, p: seq<Key>) {
    && p != []
    && (forall i | 0 <= i < |p| :: p[i] in keys)
    && (forall i, j | 0 <= i && j == i + 1 < |p| :: Linked(links, p[i], p[j]))
  }

  ghost predicate PathFromTo(keys: seq<Key>, links: seq<Link>, a: Key, b: Key, p: seq<Key>) {
    IsPath(keys, links, p) && p[0] == a && Last(p) == b
  }

  /** Some route of links leads from chart `a` to chart `b`. */
  ghost predicate Joined(keys: seq<Key>, links: seq<Link>, a: Key, b: Key) {
    exists p :: PathFromTo(keys, links, a, b, p)
  }

  lemma JoinedReflexive(keys: seq<Key>, links: seq<Link>, a: Key)
    requires a in keys
    ensures Joined(keys, links, a, a)
  {
    assert PathFromTo(keys, links, a, a, [a]);
  }

  lemma JoinedSymmetric(keys: seq<Key>, links: seq<Link>, a: Key, b: Key)
    requires Joined(keys, links, a, b)
    ensures Joined(keys, links, b, a)
  {
    var p :| PathFromTo(keys, links, a, b, p);
    var q := seq(|p|, i requires 0 <= i < |p| => p[|p| - 1 - i]);
    forall i, j | 0 <= i && j == i + 1 < |q| ensures Linked(links, q[i], q[j]) {
      assert Linked(links, p[|p| - 1 - j], p[|p| - 1 - i]);
    }
    assert PathFromTo(keys, links, b, a, q);
  }

  lemma JoinedTransitive(keys: seq<Key>, links: seq<Link>, a: Key, b: Key, c: Key)
    requires Joined(keys, links, a, b) && Joined(keys, links, b, c)
    ensures Joined(keys, links, a, c)
  {
    var p :| PathFromTo(keys, links, a, b, p);
    var q :| PathFromTo(keys, links, b, c, q);
    var r := Front(p) + q;
    forall i, j | 0 <= i && j == i + 1 < |r| ensures Linked(links, r[i], r[j]) {
      if j < |p| {
        assert r[i] == p[i] && r[j] == p[j];
      } else {
        assert r[i] == q[i - |p| + 1] && r[j] == q[j - |p| + 1];
      }
    }
    assert PathFromTo(keys, links, a, c, r);
  }

  lemma JoinedMonotone(keys: seq<Key>, links: seq<Link>, l: Link, a: Key, b: Key)
    requires Joined(keys, links, a, b)
    ensures Joined(keys, links + [l], a, b)
  {
    var p :| PathFromTo(keys, links, a, b, p);
    forall i, j | 0 <= i && j == i + 1 < |p| ensures Linked(links + [l], p[i], p[j]) {
      assert Linked(links, p[i], p[j]);
      var n :| 0 <= n < |links| && (links[n] == Link(p[i], p[j]) || links[n] == Link(p[j], p[i]));
      assert (links + [l])[n] == links[n];
    }
    assert PathFromTo(keys, links + [l], a, b, p);
  }

  lemma JoinedByNewLink(keys: seq<Key>, links: seq<Link>, l: Link)
    requires l.a in keys && l.b in keys
    ensures Joined(keys, links + [l], l.a, l.b)
  {
    assert (links + [l])[|links|] == l;
    assert PathFromTo(keys, links + [l], l.a, l.b, [l.a, l.b]);
  }
}

/** The mutable forest: `par[k]` is k's parent, a root is its own parent. */
module UnionFind {
  import opened ChartGraph

  type Parents = map<Key, Key>
  /** Ghost witnesses: the root of every element, and a number that falls along every parent step. */
  datatype Shape = Shape(root: map<Key, Key>, rank: map<Key, nat>)

  ghost predicate Climbs(par: Parents, sh: Shape, k: Key)
    requires par.Keys == sh.root.Keys == sh.rank.Keys && k in par
  {
    && par[k] in par
    && sh.root[k] == sh.root[par[k]]
    && (par[k] == k ==> sh.root[k] == k)
    && (par[k] != k ==> sh.rank[par[k]] < sh.rank[k])
  }

  ghost predicate IsForest(par: Parents, sh: Shape) {
    && par.Keys == sh.root.Keys == sh.rank.Keys
    && forall k {:trigger Climbs(par, sh, k)} | k in par :: Climbs(par, sh, k)
  }

  /** The element reached by following parents until they stop. */
  ghost function Climb(par: Parents, sh: Shape, k: Key): (r: Key)
    requires IsForest(par, sh) && k in par
    decreases sh.rank[k]
  {
    assert Climbs(par, sh, k);
    if par[k] == k then k else Climb(par, sh, par[k])
  }

  /** The recorded root is the one following parents reaches: the partition is the forest's own. */
  lemma {:induction false} ClimbEndsAtRoot(par: Parents, sh: Shape, k: Key)
    requires IsForest(par, sh) && k in par
    ensures Climb(par, sh, k) == sh.root[k]
    ensures sh.root[k] in par && par[sh.root[k]] == sh.root[k]
    decreases sh.rank[k]
  {
    assert Climbs(par, sh, k);
    if par[k] != k {
      ClimbEndsAtRoot(par, sh, par[k]);
    }
  }

  /** One path-halving write keeps the forest and every element's root. */
  lemma HalvingKeepsForest(par: Parents, sh: Shape, k: Key)
    requires IsForest(par, sh) && k in par
    ensures par[k] in par && IsForest(par[k := par[par[k]]], sh)
  {
    assert Climbs(par, sh, k) && Climbs(par, sh, par[k]);
    var par' := par[k := par[par[k]]];
    assert par'.Keys == par.Keys;
    forall x | x in par' ensures Climbs(par', sh, x) {
      assert Climbs(par, sh, x);
    }
  }

  /** The partition after the classes of roots `ra` and `rb` became one. */
  ghost function Joining(root: map<Key, Key>, ra: Key, rb: Key): map<Key, Key> {
    map k | k in root :: if root[k] == ra then rb else root[k]
  }

  ghost function JoinedShape(sh: Shape, ra: Key, rb: Key): Shape
    requires sh.root.Keys == sh.rank.Keys && rb in sh.rank
  {
    Shape(Joining(sh.root, ra, rb),
          map k | k in sh.rank :: if sh.root[k] == ra then sh.rank[k] + sh.rank[rb] + 1 else sh.rank[k])
  }

  lemma UnionClimbs(par: Parents, sh: Shape, ra: Key, rb: Key, x: Key)
    requires IsForest(par, sh) && ra in par && rb in par && x in par
    requires par[ra] == ra && par[rb] == rb && ra != rb
    requires par[ra := rb].Keys == par.Keys
    ensures Climbs(par[ra := rb], JoinedShape(sh, ra, rb), x)
  {
    assert Climbs(par, sh, ra) && Climbs(par, sh, rb) && Climbs(par, sh, x);
  }

  /** Hanging root `ra` under another root `rb` redirects exactly the members of `ra`'s tree. */
  lemma UnionKeepsForest(par: Parents, sh: Shape, ra: Key, rb: Key)
    requires IsForest(par, sh) && ra in par && rb in par
    requires par[ra] == ra && par[rb] == rb && ra != rb
    ensures IsForest(par[ra := rb], JoinedShape(sh, ra, rb))
  {
    assert par[ra := rb].Keys == par.Keys;
    forall x | x in par ensures Climbs(par[ra := rb], JoinedShape(sh, ra, rb), x) {
      UnionClimbs(par, sh, ra, rb, x);
    }
  }

  class Forest {
    var par: Parents
    ghost var shape: Shape

    ghost predicate Valid()
      reads this
    {
      IsForest(par, shape)
    }

    /** The partition: each element with the root of its tree. */
    ghost function Reps(): map<Key, Key>
      reads this
    {
      shape.root
    }

    constructor (keys: seq<Key>)
      ensures Valid() && par.Keys == set k | k in keys
      ensures Reps() == map k | k in keys :: k
    {
      par := map k | k in keys :: k;
      shape := Shape(map k | k in keys :: k, map k | k in keys :: 0);
    }

    /** Walks to the root, halving the path on the way. */
    method Find(start: Key) returns (k: Key)
      requires Valid() && start in par
      modifies this
      ensures Valid() && par.Keys == old(par.Keys)
      ensures Reps() == old(Reps())
      ensures k in par && par[k] == k && k == Reps()[start]
    {
      k := start;
      while par[k] != k
        invariant Valid() && par.Keys == old(par.Keys) && shape == old(shape)
        invariant k in par && shape.root[k] == shape.root[start]
        decreases shape.rank[k]
      {
        HalvingKeepsForest(par, shape, k);
        assert Climbs(par, shape, k) && Climbs(par, shape, par[k]);
        par := par[k := par[par[k]]];
        k := par[k];
      }
      assert Climbs(par, shape, k);
    }

    /** par[find(a)] = find(b): the right-hand side is looked up first. */
    method Union(a: Key, b: Key)
      requires Valid() && a in par && b in par
      modifies this
      ensures Valid() && par.Keys == old(par.Keys)
      ensures a in old(Reps()) && b in old(Reps())
      ensures Reps() == Joining(old(Reps()), old(Reps())[a], old(Reps())[b])
    {
      var rb := Find(b);
      var ra := Find(a);
      if ra == rb {
        assert par[ra := rb] == par;
        par := par[ra := rb];
      } else {
        ClimbEndsAtRoot(par, shape, b);
        UnionKeepsForest(par, shape, ra, rb);
        shape := JoinedShape(shape, ra, rb);
        par := par[ra := rb];
      }
    }
  }
}

/** link_components and islands. */
module LinkComponents {
  import opened Common
  import opened Sorting
  import opened StringOrder
  import opened ChartGraph
  import opened UnionFind

  type Reps = map<Key, Key>

  /** The partition is the one the links make: same root exactly when some path joins the charts. */
  ghost predicate Represents(root: Reps, keys: seq<Key>, links: seq<Link>) {
    && root.Keys == (set k | k in keys)
    && forall a, b | a in keys && b in keys :: root[a] == root[b] <==> Joined(keys, links, a, b)
  }

  lemma {:induction false} PathStaysInClass(root: Reps, keys: seq<Key>, links: seq<Link>, p: seq<Key>)
    requires IsPath(keys, links, p)
    requires forall k | k in keys :: k in root
    requires forall a, b | a in keys && b in keys && Linked(links, a, b) :: root[a] == root[b]
    ensures root[p[0]] == root[Last(p)]
  {
    if |p| > 1 {
      PathStaysInClass(root, keys, links, Front(p));
      assert Linked(links, p[|p| - 2], p[|p| - 1]);
    }
  }

  lemma RepresentsFresh(keys: seq<Key>)
    ensures Represents(map k | k in keys :: k, keys, [])
  {
    var root := map k | k in keys :: k;
    forall a, b | a in keys && b in keys ensures root[a] == root[b] <==> Joined(keys, [], a, b) {
      if a == b {
        JoinedReflexive(keys, [], a);
      } else if Joined(keys, [], a, b) {
        var p :| PathFromTo(keys, [], a, b, p);
        PathStaysInClass(root, keys, [], p);
      }
    }
  }

  lemma LinkedMeansSameRoot(root: Reps, keys: seq<Key>, links: seq<Link>, a: Key, b: Key)
    requires Represents(root, keys, links)
    requires a in keys && b in keys && Linked(links, a, b)
    ensures root[a] == root[b]
  {
    assert IsPath(keys, links, [a, b]);
    assert PathFromTo(keys, links, a, b, [a, b]);
  }

  /** Completeness of one union: everything it puts together is joined through the new link. */
  lemma SameRootMeansJoined(root: Reps, keys: seq<Key>, links: seq<Link>, l: Link, a: Key, b: Key)
    requires Represents(root, keys, links)
    requires l.a in keys && l.b in keys && a in keys && b in keys
    requires Joining(root, root[l.a], root[l.b])[a] == Joining(root, root[l.a], root[l.b])[b]
    ensures Joined(keys, links + [l], a, b)
  {
    var ls := links + [l];
    JoinedByNewLink(keys, links, l);
    JoinedSymmetric(keys, ls, l.a, l.b);
    if root[a] == root[b] {
      JoinedMonotone(keys, links, l, a, b);
    } else if root[a] == root[l.a] {
      JoinedMonotone(keys, links, l, a, l.a);
      JoinedMonotone(keys, links, l, l.b, b);
      JoinedTransitive(keys, ls, a, l.a, l.b);
      JoinedTransitive(keys, ls, a, l.b, b);
    } else {
      JoinedMonotone(keys, links, l, a, l.b);
      JoinedMonotone(keys, links, l, l.a, b);
      JoinedTransitive(keys, ls, a, l.b, l.a);
      JoinedTransitive(keys, ls, a, l.a, b);
    }
  }

  lemma RepresentsUnion(root: Reps, keys: seq<Key>, links: seq<Link>, l: Link)
    requires Represents(root, keys, links) && l.a in keys && l.b in keys
    ensures Represents(Joining(root, root[l.a], root[l.b]), keys, links + [l])
  {
    var root', ls := Joining(root, root[l.a], root[l.b]), links + [l];
    forall a, b | a in keys && b in keys && Linked(ls, a, b) ensures root'[a] == root'[b] {
      if Linked(links, a, b) {
        LinkedMeansSameRoot(root, keys, links, a, b);
      }
    }
    forall a, b | a in keys && b in keys ensures root'[a] == root'[b] <==> Joined(keys, ls, a, b) {
      if root'[a] == root'[b] {
        SameRootMeansJoined(root, keys, links, l, a, b);
      }
      if Joined(keys, ls, a, b) {
        var p :| PathFromTo(keys, ls, a, b, p);
        PathStaysInClass(root', keys, ls, p);
      }
    }
  }

  /** A link to a chart that is not there joins nothing. */
  lemma RepresentsSkip(root: Reps, keys: seq<Key>, links: seq<Link>, l: Link)
    requires Represents(root, keys, links) && !(l.a in keys && l.b in keys)
    ensures Represents(root, keys, links + [l])
  {
    var ls := links + [l];
    forall a, b | a in keys && b in keys && Linked(ls, a, b) ensures root[a] == root[b] {
      assert Linked(links, a, b);
      LinkedMeansSameRoot(root, keys, links, a, b);
    }
    forall a, b | a in keys && b in keys ensures root[a] == root[b] <==> Joined(keys, ls, a, b) {
      if root[a] == root[b] {
        JoinedMonotone(keys, links, l, a, b);
      }
      if Joined(keys, ls, a, b) {
        var p :| PathFromTo(keys, ls, a, b, p);
        PathStaysInClass(root, keys, ls, p);
      }
    }
  }

  /** The keys of one class, in the order of the chart list. */
  ghost function Members(root: Reps, keys: seq<Key>, r: Key): (ms: seq<Key>)
    requires forall k | k in keys :: k in root
  {
    if keys == [] then [] else
    var before := Members(root, Front(keys), r);
    if root[Last(keys)] == r then before + [Last(keys)] else before
  }

  lemma CountAppend(s: seq<Key>, x: Key, k: Key)
    ensures multiset(s + [x])[k] == multiset(s)[k] + if x == k then 1 else 0
  {
    assert multiset(s + [x]) == multiset(s) + multiset{x};
  }

  lemma {:induction false} MemberCount(root: Reps, keys: seq<Key>, r: Key, k: Key)
    requires forall x | x in keys :: x in root
    ensures multiset(Members(root, keys, r))[k] == if k in root && root[k] == r then multiset(keys)[k] else 0
  {
    if keys != [] {
      var before, x := Members(root, Front(keys), r), Last(keys);
      MemberCount(root, Front(keys), r, k);
      assert keys == Front(keys) + [x];
      CountAppend(Front(keys), x, k);
      CountAppend(before, x, k);
    }
  }

  predicate KeyLe(a: Key, b: Key) { StringLe(a.name, b.name) }

  lemma KeyLeTotalPreorder()
    ensures TotalPreorder(KeyLe)
  {
    StringLeTotalPreorder();
  }

  /** Larger groups first; among groups of one size, the smaller first key first. */
  predicate GroupLe(g: seq<Key>, h: seq<Key>) {
    |g| > |h| || (|g| == |h| && (g == [] || KeyLe(g[0], h[0])))
  }

  lemma GroupLeTotalPreorder()
    ensures TotalPreorder(GroupLe)
  {
    KeyLeTotalPreorder();
  }

  ghost predicate Ordered(comps: seq<seq<Key>>) {
    && SortedBy(comps, GroupLe)
    && forall i | 0 <= i < |comps| :: comps[i] != [] && SortedBy(comps[i], KeyLe)
  }

  /** Largest first, among groups of one size the one with the smaller first name; the names of a group ascend. */
  lemma OrderedMeans(comps: seq<seq<Key>>)
    requires Ordered(comps)
    ensures forall i, j | 0 <= i < j < |comps| ::
              || |comps[i]| > |comps[j]|
              || (|comps[i]| == |comps[j]| && StringLe(comps[i][0].name, comps[j][0].name))
    ensures forall g, i, j | 0 <= g < |comps| && 0 <= i < j < |comps[g]| :: StringLe(comps[g][i].name, comps[g][j].name)
  {
    forall i, j | 0 <= i < j < |comps|
      ensures || |comps[i]| > |comps[j]|
              || (|comps[i]| == |comps[j]| && StringLe(comps[i][0].name, comps[j][0].name))
    {
      assert GroupLe(comps[i], comps[j]) && comps[i] != [];
    }
    forall g, i, j | 0 <= g < |comps| && 0 <= i < j < |comps[g]|
      ensures StringLe(comps[g][i].name, comps[g][j].name)
    {
      assert SortedBy(comps[g], KeyLe);
      assert KeyLe(comps[g][i], comps[g][j]);
    }
  }

  /** Every chart is in exactly one group, as often as it is listed. */
  ghost predicate Partitions(keys: seq<Key>, comps: seq<seq<Key>>) {
    && (forall a | a in keys :: exists i | 0 <= i < |comps| :: a in comps[i])
    && (forall i, a | 0 <= i < |comps| && a in comps[i] :: multiset(comps[i])[a] == multiset(keys)[a])
    && (forall i, j, a | 0 <= i < |comps| && 0 <= j < |comps| && a in comps[i] && a in comps[j] :: i == j)
  }

  /** A group holds exactly the charts joined to any chart of it. */
  ghost predicate Connects(keys: seq<Key>, links: seq<Link>, comps: seq<seq<Key>>) {
    forall i, a, b {:trigger ConnectsAt(keys, links, comps[i], a, b)} | 0 <= i < |comps| && a in comps[i] ::
      ConnectsAt(keys, links, comps[i], a, b)
  }

  ghost predicate ConnectsAt(keys: seq<Key>, links: seq<Link>, g: seq<Key>, a: Key, b: Key) {
    b in g <==> a in keys && b in keys && Joined(keys, links, a, b)
  }

  /** `comps` are the connected components, each a sorted key list, in the order of GroupLe. */
  ghost predicate IsComponents(keys: seq<Key>, links: seq<Link>, comps: seq<seq<Key>>) {
    Ordered(comps) && Partitions(keys, comps) && Connects(keys, links, comps)
  }

  /** The grouping dictionary after some charts: insertion-ordered roots, each with its members. */
  ghost predicate IsGrouping(root: Reps, keys: seq<Key>, order: seq<Key>, groups: map<Key, seq<Key>>)
    requires forall k | k in keys :: k in root
  {
    && (forall r :: r in order <==> r in groups)
    && (forall i, j | 0 <= i < j < |order| :: order[i] != order[j])
    && (forall r :: r in groups <==> exists k | k in keys :: root[k] == r)
    && (forall r | r in groups :: groups[r] == Members(root, keys, r))
  }

  lemma MembersStep(root: Reps, keys: seq<Key>, k: Key, r: Key)
    requires forall x | x in keys + [k] :: x in root
    requires forall x | x in keys :: x in root
    ensures Members(root, keys + [k], r)
         == if root[k] == r then Members(root, keys, r) + [k] else Members(root, keys, r)
  {
    assert Front(keys + [k]) == keys && Last(keys + [k]) == k;
  }

  lemma NoMembers(root: Reps, keys: seq<Key>, r: Key)
    requires forall x | x in keys :: x in root && root[x] != r
    ensures Members(root, keys, r) == []
  {
  }

  lemma GroupingStep(root: Reps, keys: seq<Key>, order: seq<Key>, groups: map<Key, seq<Key>>, k: Key)
    requires (forall x | x in keys + [k] :: x in root) && (forall x | x in keys :: x in root)
    requires IsGrouping(root, keys, order, groups)
    ensures var r := root[k];
            IsGrouping(root, keys + [k], if r in groups then order else order + [r],
                       groups[r := (if r in groups then groups[r] else []) + [k]])
  {
    var r := root[k];
    var groups' := groups[r := (if r in groups then groups[r] else []) + [k]];
    forall x | x in groups' ensures groups'[x] == Members(root, keys + [k], x) {
      MembersStep(root, keys, k, x);
      if x !in groups {
        forall y | y in keys ensures root[y] != x {
          assert root[y] in groups;
        }
        NoMembers(root, keys, x);
      }
    }
    forall x ensures x in groups' <==> exists m | m in keys + [k] :: root[m] == x {
      if x in groups {
        var m :| m in keys && root[m] == x;
        assert m in keys + [k];
      } else if x == r {
        assert k in keys + [k];
      }
    }
  }

  function SortedGroups(order: seq<Key>, groups: map<Key, seq<Key>>): (r: seq<seq<Key>>)
    requires forall x | x in order :: x in groups
    ensures |r| == |order|
    ensures forall i | 0 <= i < |order| :: r[i] == StableSort(groups[order[i]], KeyLe)
  {
    seq(|order|, i requires 0 <= i < |order| => StableSort(groups[order[i]], KeyLe))
  }

  /** The whole class of root `r`, sorted. */
  ghost function SortedClass(root: Reps, keys: seq<Key>, r: Key): seq<Key>
    requires forall k | k in keys :: k in root
  {
    StableSort(Members(root, keys, r), KeyLe)
  }

  lemma SortedClassMembers(root: Reps, keys: seq<Key>, r: Key, a: Key)
    requires forall k | k in keys :: k in root
    ensures SortedBy(SortedClass(root, keys, r), KeyLe)
    ensures a in SortedClass(root, keys, r) <==> a in keys && root[a] == r
    ensures a in SortedClass(root, keys, r) ==> multiset(SortedClass(root, keys, r))[a] == multiset(keys)[a]
  {
    var g := SortedClass(root, keys, r);
    KeyLeTotalPreorder();
    StableSortSorted(Members(root, keys, r), KeyLe);
    MemberCount(root, keys, r, a);
    assert a in g <==> a in multiset(g);
    assert a in keys <==> a in multiset(keys);
  }

  lemma {:induction false} DistinctMeansSingle<T>(s: seq<T>)
    requires forall i, j | 0 <= i < j < |s| :: s[i] != s[j]
    ensures forall x :: multiset(s)[x] <= 1
  {
    if s != [] {
      DistinctMeansSingle(Front(s));
      assert s == Front(s) + [Last(s)];
      assert Last(s) !in Front(s);
    }
  }

  lemma SingleMeansDistinct<T>(s: seq<T>, i: nat, j: nat)
    requires forall x :: multiset(s)[x] <= 1
    requires i < j < |s|
    ensures s[i] != s[j]
  {
    assert s == s[..j] + s[j..];
    assert s[..j][i] == s[i] && s[j..][0] == s[j];
    assert s[i] in multiset(s[..j]) && s[j] in multiset(s[j..]);
    assert multiset(s) == multiset(s[..j]) + multiset(s[j..]);
    assert multiset(s)[s[i]] <= 1;
  }

  ghost predicate IsClass(root: Reps, keys: seq<Key>, g: seq<Key>)
    requires forall k | k in keys :: k in root
  {
    exists k | k in keys :: g == SortedClass(root, keys, root[k])
  }

  /** The list holds the sorted class of every chart, and each once. */
  ghost predicate ListsClasses(root: Reps, keys: seq<Key>, gs: seq<seq<Key>>)
    requires forall k | k in keys :: k in root
  {
    && (forall i | 0 <= i < |gs| :: IsClass(root, keys, gs[i]))
    && (forall k | k in keys :: SortedClass(root, keys, root[k]) in gs)
    && (forall i, j | 0 <= i < j < |gs| :: gs[i] != gs[j])
  }

  lemma GroupsDiffer(root: Reps, keys: seq<Key>, order: seq<Key>, groups: map<Key, seq<Key>>, i: nat, j: nat)
    requires forall k | k in keys :: k in root
    requires IsGrouping(root, keys, order, groups) && i < j < |order|
    ensures SortedGroups(order, groups)[i] != SortedGroups(order, groups)[j]
  {
    assert order[i] in groups && order[j] in groups;
    var k :| k in keys && root[k] == order[i];
    SortedClassMembers(root, keys, order[i], k);
    SortedClassMembers(root, keys, order[j], k);
  }

  lemma GroupIsClass(root: Reps, keys: seq<Key>, order: seq<Key>, groups: map<Key, seq<Key>>, i: nat)
    requires forall k | k in keys :: k in root
    requires IsGrouping(root, keys, order, groups) && i < |order|
    ensures IsClass(root, keys, SortedGroups(order, groups)[i])
  {
    assert order[i] in groups;
    var k :| k in keys && root[k] == order[i];
    assert SortedGroups(order, groups)[i] == SortedClass(root, keys, root[k]);
  }

  lemma GroupsAreClasses(root: Reps, keys: seq<Key>, order: seq<Key>, groups: map<Key, seq<Key>>)
    requires forall k | k in keys :: k in root
    requires IsGrouping(root, keys, order, groups)
    ensures ListsClasses(root, keys, SortedGroups(order, groups))
  {
    var sg := SortedGroups(order, groups);
    forall i | 0 <= i < |sg| ensures IsClass(root, keys, sg[i]) {
      GroupIsClass(root, keys, order, groups, i);
    }
    forall k | k in keys ensures SortedClass(root, keys, root[k]) in sg {
      assert root[k] in order;
      var i :| 0 <= i < |order| && order[i] == root[k];
      assert sg[i] == SortedClass(root, keys, root[k]);
    }
    forall i, j | 0 <= i < j < |sg| ensures sg[i] != sg[j] {
      GroupsDiffer(root, keys, order, groups, i, j);
    }
  }

  /** Reordering the groups keeps them all and repeats none. */
  lemma ReorderedClasses(root: Reps, keys: seq<Key>, sg: seq<seq<Key>>, comps: seq<seq<Key>>)
    requires forall k | k in keys :: k in root
    requires ListsClasses(root, keys, sg) && multiset(comps) == multiset(sg)
    ensures ListsClasses(root, keys, comps)
  {
    DistinctMeansSingle(sg);
    forall i, j | 0 <= i < j < |comps| ensures comps[i] != comps[j] {
      SingleMeansDistinct(comps, i, j);
    }
    forall g ensures g in comps <==> g in sg {
      assert g in comps <==> g in multiset(comps);
      assert g in sg <==> g in multiset(sg);
    }
    forall i | 0 <= i < |comps| ensures IsClass(root, keys, comps[i]) {
      assert comps[i] in sg;
    }
  }

  lemma ClassesOrdered(root: Reps, keys: seq<Key>, comps: seq<seq<Key>>, i: nat)
    requires forall k | k in keys :: k in root
    requires ListsClasses(root, keys, comps) && i < |comps|
    ensures comps[i] != [] && SortedBy(comps[i], KeyLe)
  {
    assert IsClass(root, keys, comps[i]);
    var k :| k in keys && comps[i] == SortedClass(root, keys, root[k]);
    SortedClassMembers(root, keys, root[k], k);
  }

  lemma ClassesDisjoint(root: Reps, keys: seq<Key>, comps: seq<seq<Key>>, i: nat, j: nat, a: Key)
    requires forall k | k in keys :: k in root
    requires ListsClasses(root, keys, comps) && i < |comps| && j < |comps| && a in comps[i] && a in comps[j]
    ensures i == j
  {
    ClassOfMember(root, keys, comps[i], a);
    ClassOfMember(root, keys, comps[j], a);
  }

  lemma ClassesPartition(root: Reps, keys: seq<Key>, comps: seq<seq<Key>>)
    requires forall k | k in keys :: k in root
    requires ListsClasses(root, keys, comps)
    ensures Partitions(keys, comps)
  {
    forall i, a | 0 <= i < |comps| && a in comps[i] ensures multiset(comps[i])[a] == multiset(keys)[a] {
      ClassOfMember(root, keys, comps[i], a);
    }
    forall i, j, a | 0 <= i < |comps| && 0 <= j < |comps| && a in comps[i] && a in comps[j] ensures i == j {
      ClassesDisjoint(root, keys, comps, i, j, a);
    }
    forall a | a in keys ensures exists i | 0 <= i < |comps| :: a in comps[i] {
      SortedClassMembers(root, keys, root[a], a);
      var i :| 0 <= i < |comps| && comps[i] == SortedClass(root, keys, root[a]);
    }
  }

  lemma ClassOfMember(root: Reps, keys: seq<Key>, g: seq<Key>, a: Key)
    requires forall k | k in keys :: k in root
    requires IsClass(root, keys, g) && a in g
    ensures a in keys && g == SortedClass(root, keys, root[a]) && multiset(g)[a] == multiset(keys)[a]
  {
    var k :| k in keys && g == SortedClass(root, keys, root[k]);
    SortedClassMembers(root, keys, root[k], a);
  }

  lemma ClassesConnect(root: Reps, keys: seq<Key>, links: seq<Link>, comps: seq<seq<Key>>)
    requires Represents(root, keys, links) && ListsClasses(root, keys, comps)
    ensures Connects(keys, links, comps)
  {
    forall i, a, b | 0 <= i < |comps| && a in comps[i] ensures ConnectsAt(keys, links, comps[i], a, b) {
      ClassConnects(root, keys, links, comps[i], a, b);
    }
  }

  lemma ClassConnects(root: Reps, keys: seq<Key>, links: seq<Link>, g: seq<Key>, a: Key, b: Key)
    requires Represents(root, keys, links) && IsClass(root, keys, g) && a in g
    ensures ConnectsAt(keys, links, g, a, b)
  {
    ClassOfMember(root, keys, g, a);
    SortedClassMembers(root, keys, root[a], b);
  }

  /** The link loop: afterwards two charts have one root exactly when a path joins them. */
  method JoinAll(keys: seq<Key>, links: seq<Link>) returns (forest: Forest)
    ensures fresh(forest) && forest.Valid() && forest.par.Keys == set k | k in keys
    ensures Represents(forest.Reps(), keys, links)
  {
    forest := new Forest(keys);
    RepresentsFresh(keys);
    for n := 0 to |links|
      invariant forest.Valid() && forest.par.Keys == set k | k in keys
      invariant fresh(forest)
      invariant Represents(forest.Reps(), keys, links[..n])
    {
      var l := links[n];
      assert links[..n + 1] == links[..n] + [l];
      if l.a in forest.par && l.b in forest.par {
        RepresentsUnion(forest.Reps(), keys, links[..n], l);
        forest.Union(l.a, l.b);
      } else {
        RepresentsSkip(forest.Reps(), keys, links[..n], l);
      }
    }
    assert links[..|links|] == links;
  }

  /** groups.setdefault(r, []).append(k). */
  method AddToGroup(ghost root: Reps, ghost keys: seq<Key>, order: seq<Key>, groups: map<Key, seq<Key>>, r: Key, k: Key)
    returns (order': seq<Key>, groups': map<Key, seq<Key>>)
    requires (forall x | x in keys + [k] :: x in root) && (forall x | x in keys :: x in root) && r == root[k]
    requires IsGrouping(root, keys, order, groups)
    ensures IsGrouping(root, keys + [k], order', groups')
  {
    GroupingStep(root, keys, order, groups, k);
    order' := if r in groups then order else order + [r];
    groups' := groups[r := (if r in groups then groups[r] else []) + [k]];
  }

  /** groups.setdefault(find(key), []).append(key), chart by chart. */
  method GroupByRoot(forest: Forest, keys: seq<Key>) returns (order: seq<Key>, groups: map<Key, seq<Key>>)
    requires forest.Valid() && forest.par.Keys == set k | k in keys
    modifies forest
    ensures forest.Valid() && forest.Reps() == old(forest.Reps())
    ensures IsGrouping(forest.Reps(), keys, order, groups)
  {
    ghost var root := forest.Reps();
    order, groups := [], map[];
    for n := 0 to |keys|
      invariant forest.Valid() && forest.par.Keys == set k | k in keys
      invariant forest.Reps() == root
      invariant IsGrouping(root, keys[..n], order, groups)
    {
      var k := keys[n];
      assert keys[..n + 1] == keys[..n] + [k];
      var r := forest.Find(k);
      order, groups := AddToGroup(root, keys[..n], order, groups, r, k);
    }
    assert keys[..|keys|] == keys;
  }

  lemma ListedClassesAreComponents(root: Reps, keys: seq<Key>, links: seq<Link>, comps: seq<seq<Key>>)
    requires Represents(root, keys, links) && ListsClasses(root, keys, comps) && SortedBy(comps, GroupLe)
    ensures IsComponents(keys, links, comps)
  {
    forall i | 0 <= i < |comps| ensures comps[i] != [] && SortedBy(comps[i], KeyLe) {
      ClassesOrdered(root, keys, comps, i);
    }
    ClassesPartition(root, keys, comps);
    ClassesConnect(root, keys, links, comps);
  }

  lemma GroupingGivesComponents(root: Reps, keys: seq<Key>, links: seq<Link>, order: seq<Key>,
                                groups: map<Key, seq<Key>>)
    requires Represents(root, keys, links) && IsGrouping(root, keys, order, groups)
    ensures IsComponents(keys, links, StableSort(SortedGroups(order, groups), GroupLe))
  {
    var sg := SortedGroups(order, groups);
    GroupLeTotalPreorder();
    StableSortSorted(sg, GroupLe);
    GroupsAreClasses(root, keys, order, groups);
    ReorderedClasses(root, keys, sg, StableSort(sg, GroupLe));
    ListedClassesAreComponents(root, keys, links, StableSort(sg, GroupLe));
  }

  method Components(charts: seq<Chart>, links: seq<Link>) returns (comps: seq<seq<Key>>)
    ensures IsComponents(Keys(charts), links, comps)
  {
    var keys := Keys(charts);
    var forest := JoinAll(keys, links);
    var order, groups := GroupByRoot(forest, keys);
    GroupingGivesComponents(forest.Reps(), keys, links, order, groups);
    comps := StableSort(SortedGroups(order, groups), GroupLe);
  }

  // --- there is one answer -----------------------------------------------------------------------------

  ghost predicate AntisymmetricOn<T>(s: seq<T>, le: (T, T) -> bool) {
    forall x, y | x in s && y in s && le(x, y) && le(y, x) :: x == y
  }

  /** Sorted by an order. */
  ghost predicate OrderedBy<T>(s: seq<T>, le: (T, T) -> bool) {
    SortedBy(s, le) && AntisymmetricOn(s, le) && forall x | x in s :: le(x, x)
  }

  /** The last element of a sorted list is above all. */
  lemma LastIsGreatest<T>(s: seq<T>, le: (T, T) -> bool, x: T)
    requires OrderedBy(s, le) && x in s
    ensures le(x, Last(s))
  {
    var i :| 0 <= i < |s| && s[i] == x;
  }

  lemma LastsAgree<T>(a: seq<T>, b: seq<T>, le: (T, T) -> bool)
    requires a != [] && b != [] && OrderedBy(a, le) && OrderedBy(b, le) && Last(a) in b && Last(b) in a
    ensures Last(a) == Last(b)
  {
    LastIsGreatest(a, le, Last(b));
    LastIsGreatest(b, le, Last(a));
  }

  lemma FrontOrdered<T>(s: seq<T>, le: (T, T) -> bool)
    requires s != [] && OrderedBy(s, le)
    ensures OrderedBy(Front(s), le) && multiset(Front(s)) == multiset(s) - multiset{Last(s)}
  {
    assert s == Front(s) + [Last(s)];
    assert forall x | x in Front(s) :: x in s;
  }

  lemma SameMembers<T>(a: seq<T>, b: seq<T>, x: T)
    requires multiset(a) == multiset(b) && x in a
    ensures x in b
  {
    assert x in multiset(a);
  }

  lemma SameLength<T>(a: seq<T>, b: seq<T>)
    requires multiset(a) == multiset(b)
    ensures |a| == |b|
  {
    assert |a| == |multiset(a)| && |b| == |multiset(b)|;
  }

  /** The greatest elements agree, and so do the rests. */
  lemma TakeLast<T>(a: seq<T>, b: seq<T>, le: (T, T) -> bool)
    requires a != [] && b != [] && multiset(a) == multiset(b) && OrderedBy(a, le) && OrderedBy(b, le)
    ensures Last(a) == Last(b) && multiset(Front(a)) == multiset(Front(b))
    ensures OrderedBy(Front(a), le) && OrderedBy(Front(b), le)
  {
    SameMembers(a, b, Last(a));
    SameMembers(b, a, Last(b));
    LastsAgree(a, b, le);
    FrontOrdered(a, le);
    FrontOrdered(b, le);
  }

  lemma PutBack<T>(a: seq<T>, b: seq<T>)
    requires a != [] && b != [] && Front(a) == Front(b) && Last(a) == Last(b)
    ensures a == b
  {
    assert a == Front(a) + [Last(a)] && b == Front(b) + [Last(b)];
  }

  /** Sorting a multiset by an order has one result. */
  lemma {:induction false} SortedUnique<T>(a: seq<T>, b: seq<T>, le: (T, T) -> bool)
    requires multiset(a) == multiset(b) && OrderedBy(a, le) && OrderedBy(b, le)
    ensures a == b
    decreases |a|
  {
    SameLength(a, b);
    if |a| > 0 {
      TakeLast(a, b, le);
      SortedUnique(Front(a), Front(b), le);
      PutBack(a, b);
    }
  }

  lemma KeyLeAntisymmetric(s: seq<Key>)
    ensures AntisymmetricOn(s, KeyLe) && forall x | x in s :: KeyLe(x, x)
  {
    forall x, y | KeyLe(x, y) && KeyLe(y, x) ensures x == y {
      StringLeAntisymmetric(x.name, y.name);
    }
    forall x ensures KeyLe(x, x) {
      StringLeTotal(x.name, x.name);
    }
  }

  /** Two answers have the same group of a chart. */
  lemma SameGroup(keys: seq<Key>, links: seq<Link>, a: seq<seq<Key>>, b: seq<seq<Key>>, i: nat, j: nat, k: Key)
    requires IsComponents(keys, links, a) && IsComponents(keys, links, b)
    requires i < |a| && j < |b| && k in a[i] && k in b[j]
    ensures a[i] == b[j]
  {
    forall x ensures multiset(a[i])[x] == multiset(b[j])[x] {
      assert ConnectsAt(keys, links, a[i], k, x) && ConnectsAt(keys, links, b[j], k, x);
      if x in a[i] {
        assert multiset(a[i])[x] == multiset(keys)[x] == multiset(b[j])[x];
      } else {
        assert x !in multiset(a[i]) && x !in multiset(b[j]);
      }
    }
    KeyLeAntisymmetric(a[i]);
    KeyLeAntisymmetric(b[j]);
    SortedUnique(a[i], b[j], KeyLe);
  }

  lemma GroupsAmong(keys: seq<Key>, links: seq<Link>, a: seq<seq<Key>>, b: seq<seq<Key>>, g: seq<Key>)
    requires IsComponents(keys, links, a) && IsComponents(keys, links, b) && g in a
    ensures g in b
  {
    var i :| 0 <= i < |a| && a[i] == g;
    var k := g[0];
    assert k in a[i];
    assert ConnectsAt(keys, links, a[i], k, k);
    var j :| 0 <= j < |b| && k in b[j];
    SameGroup(keys, links, a, b, i, j, k);
  }

  /** Groups of one answer that the order does not separate are the same. */
  lemma GroupLeAntisymmetric(keys: seq<Key>, links: seq<Link>, comps: seq<seq<Key>>)
    requires IsComponents(keys, links, comps)
    ensures AntisymmetricOn(comps, GroupLe) && forall g | g in comps :: GroupLe(g, g)
  {
    forall g: seq<Key>, h: seq<Key> | g in comps && h in comps && GroupLe(g, h) && GroupLe(h, g) ensures g == h {
      var i :| 0 <= i < |comps| && comps[i] == g;
      var j :| 0 <= j < |comps| && comps[j] == h;
      StringLeAntisymmetric(g[0].name, h[0].name);
      assert g[0] in comps[i] && g[0] in comps[j];
    }
    forall g: seq<Key> | g in comps ensures GroupLe(g, g) {
      var i :| 0 <= i < |comps| && comps[i] == g;
      StringLeTotal(g[0].name, g[0].name);
    }
  }

  lemma GroupsSingle(keys: seq<Key>, links: seq<Link>, comps: seq<seq<Key>>)
    requires IsComponents(keys, links, comps)
    ensures forall g :: multiset(comps)[g] == if g in comps then 1 else 0
  {
    forall i, j | 0 <= i < j < |comps| ensures comps[i] != comps[j] {
      assert comps[i][0] in comps[i];
      assert comps[i][0] in comps[j] ==> i == j;
    }
    DistinctMeansSingle(comps);
    forall g ensures multiset(comps)[g] == if g in comps then 1 else 0 {
      assert g in comps <==> g in multiset(comps);
    }
  }

  /** The components of a chart graph, in their order, are determined: two lists that are components are equal. */
  lemma ComponentsUnique(keys: seq<Key>, links: seq<Link>, a: seq<seq<Key>>, b: seq<seq<Key>>)
    requires IsComponents(keys, links, a) && IsComponents(keys, links, b)
    ensures a == b
  {
    GroupsSingle(keys, links, a);
    GroupsSingle(keys, links, b);
    forall g ensures multiset(a)[g] == multiset(b)[g] {
      if g in a {
        GroupsAmong(keys, links, a, b, g);
      }
      if g in b {
        GroupsAmong(keys, links, b, a, g);
      }
    }
    GroupLeAntisymmetric(keys, links, a);
    GroupLeAntisymmetric(keys, links, b);
    SortedUnique(a, b, GroupLe);
  }

  /** Charts from which no route leads to `k`, in list order. */
  ghost function CutOff(charts: seq<Chart>, keys: seq<Key>, links: seq<Link>, k: Key): seq<Chart> {
    if charts == [] then [] else
    CutOff(Front(charts), keys, links, k)
    + (if Joined(keys, links, Last(charts).key, k) then [] else [Last(charts)])
  }

  /** The charts outside the first component: exactly those no route connects to it, for any chart of it. */
  method Islands(charts: seq<Chart>, links: seq<Link>) returns (out: seq<Chart>, ghost main: seq<Key>)
    ensures charts == [] ==> out == []
    ensures charts != [] ==>
              exists comps: seq<seq<Key>> ::
                && IsComponents(Keys(charts), links, comps) && comps != [] && main == comps[0]
                && forall k | k in main :: out == CutOff(charts, Keys(charts), links, k)
  {
    var comps := Components(charts, links);
    ghost var keys := Keys(charts);
    main := if comps != [] then comps[0] else [];
    var first := if comps != [] then comps[0] else [];
    out := [];
    if charts != [] {
      assert charts[0].key in keys;
      assert comps != [];
    }
    for n := 0 to |charts|
      invariant n == 0 ==> out == []
      invariant charts != [] ==> forall k | k in main :: out == CutOff(charts[..n], keys, links, k)
    {
      assert Front(charts[..n + 1]) == charts[..n] && charts[n].key in keys;
      forall k | k in main ensures Joined(keys, links, charts[n].key, k) <==> charts[n].key in first {
        assert k in comps[0] && ConnectsAt(keys, links, comps[0], k, charts[n].key);
        assert ConnectsAt(keys, links, comps[0], k, k);
        if Joined(keys, links, charts[n].key, k) {
          JoinedSymmetric(keys, links, charts[n].key, k);
        } else if Joined(keys, links, k, charts[n].key) {
          JoinedSymmetric(keys, links, k, charts[n].key);
        }
      }
      if charts[n].key !in first {
        out := out + [charts[n]];
      }
    }
    assert charts[..|charts|] == charts;
  }
}
