/** When rendering over one's own output gives the same text (scripts/render_env.py): the settings are always the
    same, their order is with one exception. */
module RenderOrder {
  import opened Common
  import opened EnvText
  import opened RenderEnv

  // --- places in a dictionary ----------------------------------------------------------------------------

  lemma {:induction false} PutTwice(d: Dict, k: string, v: string, w: string)
    ensures Put(Put(d, k, v), k, w) == Put(d, k, w)
  {
    if d != [] && d[0].0 != k { PutTwice(d[1..], k, v, w); }
  }

  /** Assignments to two keys commute when one of them is there. */
  lemma {:induction false} PutSwap(d: Dict, k: string, v: string, j: string, w: string)
    requires Get(d, k).Some? && j != k
    ensures Put(Put(d, k, v), j, w) == Put(Put(d, j, w), k, v)
  {
    if d[0].0 != k && d[0].0 != j { PutSwap(d[1..], k, v, j, w); }
  }

  /** An assignment to a key of the first part leaves the second alone. */
  lemma {:induction false} PutInFront(d: Dict, e: Dict, k: string, v: string)
    requires Get(d, k).Some?
    ensures Put(d + e, k, v) == Put(d, k, v) + e
  {
    assert (d + e)[1..] == d[1..] + e;
    if d[0].0 != k { PutInFront(d[1..], e, k, v); }
  }

  /** Keys keep their places. */
  lemma {:induction false} PutPlaces(d: Dict, k: string, v: string, i: nat)
    requires i < |d|
    ensures |Put(d, k, v)| == |d| + (if Get(d, k).Some? then 0 else 1) && Put(d, k, v)[i].0 == d[i].0
  {
    if d[0].0 != k && |d| > 1 { PutPlaces(d[1..], k, v, if i > 0 then i - 1 else 0); }
  }

  lemma {:induction false} MergePlaces(d: Dict, e: Dict, i: nat)
    requires i < |d|
    ensures |Merge(d, e)| >= |d| && Merge(d, e)[i].0 == d[i].0
    decreases e
  {
    if e != [] {
      PutPlaces(d, e[0].0, e[0].1, i);
      MergePlaces(Put(d, e[0].0, e[0].1), e[1..], i);
    }
  }

  /** The value of a key that is assigned later does not matter. */
  lemma {:induction false} MergeOverwrites(d: Dict, e: Dict, k: string, v: string)
    requires Get(d, k).Some? && Get(e, k).Some?
    ensures Merge(Put(d, k, v), e) == Merge(d, e)
    decreases e
  {
    var (j, w) := e[0];
    if j == k {
      PutTwice(d, k, v, w);
    } else {
      PutSwap(d, k, v, j, w);
      GetPut(d, j, w, k);
      MergeOverwrites(Put(d, j, w), e[1..], k, v);
    }
  }

  // --- a key at the end of a dictionary, and again in what is merged into it ------------------------------

  predicate AllIn(a: Dict, d: Dict) { forall i :: 0 <= i < |a| ==> Get(d, a[i].0).Some? }

  predicate Lacks(d: Dict, k: string) { forall i :: 0 <= i < |d| ==> d[i].0 != k }

  /** All keys merged before `k` are there: appending `k` first makes no difference. */
  lemma {:induction false} AppendFirst(d: Dict, a: Dict, k: string, v: string, b: Dict)
    requires Get(d, k).None? && Lacks(a, k) && AllIn(a, d)
    ensures Merge(d + [(k, v)], a + [(k, v)] + b) == Merge(d, a + [(k, v)] + b)
    decreases a
  {
    var e := a + [(k, v)] + b;
    if a == [] {
      PutNew(d, k, v);
      PutTwice(d, k, v, v);
      assert e[1..] == b;
    } else {
      var (j, w) := a[0];
      assert e[1..] == a[1..] + [(k, v)] + b;
      PutInFront(d, [(k, v)], j, w);
      GetPut(d, j, w, k);
      forall i | 0 <= i < |a[1..]| ensures Get(Put(d, j, w), a[1..][i].0).Some? {
        assert a[1..][i] == a[i + 1];
        GetPut(d, j, w, a[i + 1].0);
      }
      AppendFirst(Put(d, j, w), a[1..], k, v, b);
    }
  }

  /** Otherwise a new key takes the place that `k` would have. */
  lemma {:induction false} PlaceTaken(d: Dict, a: Dict, k: string, e: Dict)
    requires Lacks(a, k) && !AllIn(a, d)
    ensures |Merge(d, a + e)| > |d| && Merge(d, a + e)[|d|].0 != k
    decreases a
  {
    var (j, w) := a[0];
    assert (a + e)[1..] == a[1..] + e;
    if Get(d, j).None? {
      PutNew(d, j, w);
      MergePlaces(Put(d, j, w), a[1..] + e, |d|);
    } else {
      var i :| 0 <= i < |a| && Get(d, a[i].0).None?;
      assert a[1..][i - 1] == a[i];
      GetPut(d, j, w, a[i].0);
      assert d != [];
      PutPlaces(d, j, w, 0);
      PlaceTaken(Put(d, j, w), a[1..], k, e);
    }
  }

  function Place(d: Dict, k: string): (i: nat)
    ensures i <= |d| && Lacks(d[..i], k)
    ensures i < |d| <==> Get(d, k).Some?
    ensures i < |d| ==> d[i] == (k, Get(d, k).value)
  {
    if d == [] || d[0].0 == k then 0
    else
      assert forall i :: 0 < i <= |d| ==> d[..i] == [d[0]] + d[1..][..i - 1];
      1 + Place(d[1..], k)
  }

  // --- the kept tag --------------------------------------------------------------------------------------

  /** The tag is not among the secrets, or it has its place already, or no new key comes before it. */
  predicate TagInPlace(g: Gathered, previous: Dict) {
    || Get(g.chosen, TAG).None? || Get(g.config, TAG).Some? || Get(previous, TAG).Some?
    || AllIn(g.chosen[..Place(g.chosen, TAG)], g.config)
  }

  lemma MergeOne(d: Dict, k: string, v: string)
    ensures Merge(d, [(k, v)]) == Put(d, k, v)
  {
    assert [(k, v)][1..] == [];
  }

  lemma TagAppended(g: Gathered, previous: Dict, output: Dict)
    requires Get(g.chosen, TAG).Some? && Get(g.config, TAG).None? && Get(previous, TAG).None?
    requires Get(output, TAG) == Get(g.chosen, TAG)
    ensures Everything(g, output) == Everything(g, previous) <==> AllIn(g.chosen[..Place(g.chosen, TAG)], g.config)
  {
    var i, v := Place(g.chosen, TAG), Get(g.chosen, TAG).value;
    var a, b := g.chosen[..i], g.chosen[i + 1..];
    assert g.chosen == a + [(TAG, v)] + b;
    PutNew(g.config, TAG, v);
    MergeOne(g.config, TAG, v);
    if AllIn(a, g.config) {
      AppendFirst(g.config, a, TAG, v, b);
    } else {
      assert a + [(TAG, v)] + b == a + ([(TAG, v)] + b);
      PlaceTaken(g.config, a, TAG, [(TAG, v)] + b);
      MergePlaces(g.config + [(TAG, v)], g.chosen, |g.config|);
    }
  }

  lemma TagOverwritten(g: Gathered, previous: Dict, output: Dict)
    requires Get(g.chosen, TAG).Some? && (Get(g.config, TAG).Some? || Get(previous, TAG).Some?)
    requires Get(output, TAG) == Get(g.chosen, TAG)
    ensures Everything(g, output) == Everything(g, previous)
  {
    var v := Get(g.chosen, TAG).value;
    var c := Merge(g.config, Kept(previous));
    MergeOne(g.config, TAG, v);
    if Get(previous, TAG).Some? {
      var p := Get(previous, TAG).value;
      MergeOne(g.config, TAG, p);
      PutTwice(g.config, TAG, p, v);
      GetPut(g.config, TAG, p, TAG);
    }
    MergeOverwrites(c, g.chosen, TAG, v);
  }

  /** The same settings in the same order, exactly when the tag is in place. */
  lemma SameOrderIff(g: Gathered, previous: Dict, output: Dict)
    requires Clean(g.config) && Clean(g.chosen)
    requires Get(output, TAG) == Get(Everything(g, previous), TAG)
    ensures Everything(g, output) == Everything(g, previous) <==> TagInPlace(g, previous)
  {
    EverythingAt(g, previous, TAG);
    if Get(g.chosen, TAG).None? {
      TagKept(g, previous, output);
    } else if Get(g.config, TAG).Some? || Get(previous, TAG).Some? {
      TagOverwritten(g, previous, output);
    } else {
      TagAppended(g, previous, output);
    }
  }

  /** Over every configuration without a tag, and with the tag as the second of two new secrets, a second render puts
      it first. */
  lemma TagMovesUp(config: Dict, secret: string, v: string, w: string)
    requires secret != TAG && Get(config, TAG).None? && Get(config, secret).None?
    ensures var g := Gathered(".env", config, [(secret, v), (TAG, w)]);
            !TagInPlace(g, []) && Everything(g, [(TAG, w)]) != Everything(g, [])
  {
    var g := Gathered(".env", config, [(secret, v), (TAG, w)]);
    assert g.chosen[1..] == [(TAG, w)];
    assert Get(g.chosen, TAG) == Some(w) && Place(g.chosen, TAG) == 1;
    assert g.chosen[..1][0] == (secret, v);
    TagAppended(g, [], [(TAG, w)]);
  }

  // --- file by file --------------------------------------------------------------------------------------

  lemma {:induction false} PickPut(d: Dict, keep: string -> bool, k: string, v: string)
    ensures Pick(Put(d, k, v), keep) == if keep(k) then Put(Pick(d, keep), k, v) else Pick(d, keep)
  {
    if d != [] && d[0].0 != k {
      PickPut(d[1..], keep, k, v);
      assert Put(d, k, v)[1..] == Put(d[1..], k, v);
    }
  }

  lemma {:induction false} PickMerge(d: Dict, e: Dict, keep: string -> bool)
    ensures Pick(Merge(d, e), keep) == Merge(Pick(d, keep), Pick(e, keep))
    decreases e
  {
    if e != [] {
      PickPut(d, keep, e[0].0, e[0].1);
      PickMerge(Put(d, e[0].0, e[0].1), e[1..], keep);
    }
  }

  /** What is gathered for one file. */
  function Part(g: Gathered, keep: string -> bool): Gathered {
    g.(config := Pick(g.config, keep), chosen := Pick(g.chosen, keep))
  }

  lemma PartOfEverything(g: Gathered, previous: Dict, keep: string -> bool)
    ensures keep(TAG) ==> Pick(Everything(g, previous), keep) == Everything(Part(g, keep), previous)
    ensures !keep(TAG) ==> Pick(Everything(g, previous), keep) == Everything(Part(g, keep), [])
  {
    PickMerge(Merge(g.config, Kept(previous)), g.chosen, keep);
    PickMerge(g.config, Kept(previous), keep);
    assert Kept(previous) != [] ==> Kept(previous)[1..] == [];
    assert Pick(Kept(previous), keep) == if keep(TAG) then Kept(previous) else [];
  }

  /** What goes into the primary file. */
  function PrimaryPart(m: Machine): Gathered
    requires Gather(m).Ok?
  {
    Part(Gather(m).value, SelectionOf(Extras(m.name), 0))
  }

  /** Two sets of outputs are the same texts exactly when they hold the same pairs in the same order. */
  lemma SameTextsIff(name: string, primary: string, a: Dict, b: Dict)
    requires OneLine(name) && Clean(a) && Clean(b)
    requires forall i :: 0 < i <= |Extras(name)| ==>
               Pick(a, SelectionOf(Extras(name), i)) == Pick(b, SelectionOf(Extras(name), i))
    ensures Outputs(name, primary, a) == Outputs(name, primary, b)
       <==> Pick(a, SelectionOf(Extras(name), 0)) == Pick(b, SelectionOf(Extras(name), 0))
  {
    var extras := Extras(name);
    OutputAt(name, primary, a, 0);
    OutputAt(name, primary, b, 0);
    if Pick(a, SelectionOf(extras, 0)) == Pick(b, SelectionOf(extras, 0)) {
      SplitSize(a, extras);
      SplitSize(b, extras);
      forall i | 0 <= i <= |extras| ensures Split(a, extras)[i] == Split(b, extras)[i] {
        var x := SplitAt(a, extras, i);
        var y := SplitAt(b, extras, i);
      }
      assert Split(a, extras) == Split(b, extras);
    }
  }

  /** Rendering again over its own output gives the same texts if and only if the tag is in place in the primary
      file: always, unless a secret is called IMAGE_TAG, nothing had set it before, and a new secret precedes it. */
  lemma RenderStableIff(m: Machine, previous: Dict, disk: Disk)
    requires Printable(m) && Clean(previous) && Gather(m).Ok?
    ensures var output := OnDisk(Write(disk, Render(m, previous).value), Gather(m).value.primary);
            && output.Ok?
            && (Render(m, output.value) == Render(m, previous) <==> TagInPlace(PrimaryPart(m), previous))
  {
    var g := Gather(m).value;
    GatherSound(m);
    var output := SecondRender(m.name, g, previous, disk);
    var a, b := Everything(g, output), Everything(g, previous);
    EverythingClean(g, output);
    EverythingClean(g, previous);
    TagStays(m.name);
    forall i | 0 < i <= |Extras(m.name)|
      ensures Pick(a, SelectionOf(Extras(m.name), i)) == Pick(b, SelectionOf(Extras(m.name), i))
    {
      PartOfEverything(g, output, SelectionOf(Extras(m.name), i));
      PartOfEverything(g, previous, SelectionOf(Extras(m.name), i));
    }
    SameTextsIff(m.name, g.primary, a, b);
    PrimaryOrderIff(m.name, g, previous, output);
  }

  lemma PrimaryOrderIff(name: string, g: Gathered, previous: Dict, output: Dict)
    requires Clean(g.config) && Clean(g.chosen)
    requires SameMap(Everything(g, output), Everything(g, previous))
    requires output == Pick(Everything(g, previous), SelectionOf(Extras(name), 0))
    ensures Pick(Everything(g, output), SelectionOf(Extras(name), 0))
         == Pick(Everything(g, previous), SelectionOf(Extras(name), 0))
       <==> TagInPlace(Part(g, SelectionOf(Extras(name), 0)), previous)
  {
    var keep := SelectionOf(Extras(name), 0);
    TagStays(name);
    PartOfEverything(g, output, keep);
    PartOfEverything(g, previous, keep);
    PickClean(g.config, keep);
    PickClean(g.chosen, keep);
    SameOrderIff(Part(g, keep), previous, output);
  }
}
