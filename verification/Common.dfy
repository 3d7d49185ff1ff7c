/** Datatypes and stable sorting shared by every module of the project. */
module Common {
  datatype Option<+T> = None | Some(value: T)

  function Last<T>(s: seq<T>): T
    requires s != []
  {
    s[|s| - 1]
  }

  function Front<T>(s: seq<T>): seq<T>
    requires s != []
  {
    s[..|s| - 1]
  }
}

/** Python's `sorted`: a stable sort by a total preorder. */
module Sorting {
  import opened Common

  ghost predicate TotalPreorder<T(!new)>(le: (T, T) -> bool) {
    && (forall a, b :: le(a, b) || le(b, a))
    && (forall a, b, c :: le(a, b) && le(b, c) ==> le(a, c))
  }

  ghost predicate SortedBy<T>(s: seq<T>, le: (T, T) -> bool) {
    forall i, j | 0 <= i < j < |s| :: le(s[i], s[j])
  }

  /** Inserts `x` into a sorted sequence, behind every element that may precede it. */
  function Insert<T>(s: seq<T>, x: T, le: (T, T) -> bool): (r: seq<T>)
    ensures multiset(r) == multiset(s) + multiset{x}
    ensures |r| == |s| + 1
  {
    if s == [] || le(Last(s), x) then
      s + [x]
    else
      assert s == Front(s) + [Last(s)];
      Insert(Front(s), x, le) + [Last(s)]
  }

  function StableSort<T>(s: seq<T>, le: (T, T) -> bool): (r: seq<T>)
    ensures multiset(r) == multiset(s)
    ensures |r| == |s|
  {
    if s == [] then []
    else
      assert s == Front(s) + [Last(s)];
      Insert(StableSort(Front(s), le), Last(s), le)
  }

  lemma {:induction false} InsertSorted<T(!new)>(s: seq<T>, x: T, le: (T, T) -> bool)
    requires TotalPreorder(le) && SortedBy(s, le)
    ensures SortedBy(Insert(s, x, le), le)
  {
    if s == [] {
    } else if le(Last(s), x) {
      forall i | 0 <= i < |s| ensures le(s[i], x) {
        assert i == |s| - 1 || le(s[i], Last(s));
      }
    } else {
      InsertSorted(Front(s), x, le);
      var r := Insert(Front(s), x, le);
      forall i | 0 <= i < |r| ensures le(r[i], Last(s)) {
        assert r[i] in multiset(r);
        assert r[i] in multiset(Front(s)) || r[i] == x;
        if r[i] in Front(s) {
          var j :| 0 <= j < |s| - 1 && s[j] == r[i];
        }
      }
    }
  }

  lemma {:induction false} StableSortSorted<T(!new)>(s: seq<T>, le: (T, T) -> bool)
    requires TotalPreorder(le)
    ensures SortedBy(StableSort(s, le), le)
  {
    if s != [] {
      StableSortSorted(Front(s), le);
      InsertSorted(StableSort(Front(s), le), Last(s), le);
    }
  }

  lemma StableSortMembers<T>(s: seq<T>, le: (T, T) -> bool)
    ensures forall x :: x in StableSort(s, le) <==> x in s
  {
    forall x ensures x in StableSort(s, le) <==> x in s {
      assert x in StableSort(s, le) <==> x in multiset(StableSort(s, le));
      assert x in s <==> x in multiset(s);
    }
  }

  function Fold<T, A>(s: seq<T>, init: A, step: (A, T) -> A): A {
    if s == [] then init else step(Fold(Front(s), init, step), Last(s))
  }

  /** A step commutes across every pair that sorting may exchange. */
  ghost predicate CommutesAcross<T(!new), A(!new)>(step: (A, T) -> A, le: (T, T) -> bool) {
    forall a, x, y :: !le(y, x) ==> step(step(a, x), y) == step(step(a, y), x)
  }

  lemma {:induction false} FoldInsert<T(!new), A(!new)>(s: seq<T>, x: T, init: A, step: (A, T) -> A, le: (T, T) -> bool)
    requires CommutesAcross(step, le)
    ensures Fold(Insert(s, x, le), init, step) == step(Fold(s, init, step), x)
  {
    if s == [] || le(Last(s), x) {
      assert Front(s + [x]) == s;
    } else {
      var r := Insert(Front(s), x, le);
      assert Front(r + [Last(s)]) == r;
      FoldInsert(Front(s), x, init, step, le);
    }
  }

  /** What a left fold computes does not change under the sort when its step only depends on the
      order of elements the sort keeps in place. */
  lemma {:induction false} FoldStable<T(!new), A(!new)>(s: seq<T>, init: A, step: (A, T) -> A, le: (T, T) -> bool)
    requires CommutesAcross(step, le)
    ensures Fold(StableSort(s, le), init, step) == Fold(s, init, step)
  {
    if s != [] {
      FoldStable(Front(s), init, step, le);
      FoldInsert(StableSort(Front(s), le), Last(s), init, step, le);
    }
  }
}

/** The order Python gives to strings: by code point, a prefix first. */
module StringOrder {
  import opened Sorting

  predicate StringLe(a: string, b: string) {
    if a == "" then true
    else if b == "" then false
    else if a[0] != b[0] then a[0] < b[0]
    else StringLe(a[1..], b[1..])
  }

  lemma {:induction false} StringLeTotal(a: string, b: string)
    ensures StringLe(a, b) || StringLe(b, a)
  {
    if a != "" && b != "" && a[0] == b[0] {
      StringLeTotal(a[1..], b[1..]);
    }
  }

  lemma {:induction false} StringLeTransitive(a: string, b: string, c: string)
    requires StringLe(a, b) && StringLe(b, c)
    ensures StringLe(a, c)
  {
    if a != "" && b != "" && c != "" && a[0] == b[0] == c[0] {
      StringLeTransitive(a[1..], b[1..], c[1..]);
    }
  }

  lemma {:induction false} StringLeAntisymmetric(a: string, b: string)
    requires StringLe(a, b) && StringLe(b, a)
    ensures a == b
  {
    if a != "" && b != "" {
      StringLeAntisymmetric(a[1..], b[1..]);
      assert a == [a[0]] + a[1..] && b == [b[0]] + b[1..];
    }
  }

  /** The strings agree before i, and there a has the smaller character. */
  ghost predicate SmallerAt(a: string, b: string, i: nat) {
    i < |a| && i < |b| && a[..i] == b[..i] && a[i] < b[i]
  }

  /** Behind a common first character the rest decides. */
  lemma SmallerTail(a: string, b: string, i: nat)
    requires a != "" && b != "" && a[0] == b[0]
    ensures SmallerAt(a[1..], b[1..], i) <==> SmallerAt(a, b, i + 1)
  {
    if i < |a| - 1 && i < |b| - 1 {
      assert a[..i + 1] == [a[0]] + a[1..][..i] && b[..i + 1] == [b[0]] + b[1..][..i];
      assert a[1..][..i] == a[..i + 1][1..] && b[1..][..i] == b[..i + 1][1..];
    }
  }

  lemma SmallerSomewhere(a: string, b: string)
    requires a != "" && b != "" && a[0] == b[0]
    ensures (exists i: nat :: SmallerAt(a, b, i)) <==> exists i: nat :: SmallerAt(a[1..], b[1..], i)
  {
    if exists i: nat :: SmallerAt(a, b, i) {
      var i: nat :| SmallerAt(a, b, i);
      SmallerTail(a, b, i - 1);
    }
    if exists i: nat :: SmallerAt(a[1..], b[1..], i) {
      var i: nat :| SmallerAt(a[1..], b[1..], i);
      SmallerTail(a, b, i);
    }
  }

  lemma PrefixTail(a: string, b: string)
    requires a != "" && b != "" && a[0] == b[0]
    ensures a <= b <==> a[1..] <= b[1..]
  {
  }

  lemma DecidedAtOnce(a: string, b: string)
    requires a != "" && b != "" && a[0] != b[0]
    ensures (exists i: nat :: SmallerAt(a, b, i)) <==> a[0] < b[0]
  {
    forall i: nat ensures SmallerAt(a, b, i) <==> i == 0 && a[0] < b[0] {
      if 0 < i < |a| && i < |b| {
        assert a[..i][0] == a[0] && b[..i][0] == b[0];
      }
    }
    assert a[0] < b[0] ==> SmallerAt(a, b, 0);
  }

  /** A prefix comes first; otherwise the first character that differs decides. */
  lemma {:induction false} StringLeMeans(a: string, b: string)
    ensures StringLe(a, b) <==> a <= b || exists i: nat :: SmallerAt(a, b, i)
  {
    if a != "" && b != "" {
      if a[0] != b[0] {
        DecidedAtOnce(a, b);
      } else {
        StringLeMeans(a[1..], b[1..]);
        SmallerSomewhere(a, b);
        PrefixTail(a, b);
      }
    }
  }

  lemma StringLeTotalPreorder()
    ensures TotalPreorder(StringLe)
  {
    forall a, b ensures StringLe(a, b) || StringLe(b, a) {
      StringLeTotal(a, b);
    }
    forall a, b, c | StringLe(a, b) && StringLe(b, c) ensures StringLe(a, c) {
      StringLeTransitive(a, b, c);
    }
  }
}
