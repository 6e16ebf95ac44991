/**
 * The array operations the editor performs on its child lists: `indexOf` by reference,
 * `splice` after or before a reference element, removal of the first occurrence, and
 * the tail cut of `removeWordsAfter`.  Elements stand for object references, so
 * equality is identity.
 */
module Seqs {
  import opened Wrappers

  /** `s.indexOf(x)`: the first position holding x, or -1. */
  function IndexOf<T(==)>(s: seq<T>, x: T): (i: int)
    ensures -1 <= i < |s|
    ensures i == -1 <==> x !in s
    ensures i >= 0 ==> s[i] == x && x !in s[..i]
  {
    if s == [] then -1
    else if s[0] == x then 0
    else
      var j := IndexOf(s[1..], x);
      assert j >= 0 ==> s[..j + 1] == [s[0]] + s[1..][..j];
      if j == -1 then -1 else j + 1
  }

  /** `s.indexOf(ref)` where ref may be null: null is never an element. */
  function Find<T(==)>(s: seq<T>, ref: Option<T>): (i: int)
    ensures -1 <= i < |s|
  {
    if ref.None? then -1 else IndexOf(s, ref.value)
  }

  /** Splice xs in right after ref, or append them when ref is null or not found. */
  function InsertAfter<T(==)>(s: seq<T>, ref: Option<T>, xs: seq<T>): (r: seq<T>)
    ensures |r| == |s| + |xs|
  {
    var i := Find(s, ref);
    if i == -1 then s + xs
    else
      assert s == s[..i + 1] + s[i + 1..];
      s[..i + 1] + xs + s[i + 1..]
  }

  /** Splice xs in right before ref, or prepend them when ref is null or not found. */
  function InsertBefore<T(==)>(s: seq<T>, ref: Option<T>, xs: seq<T>): (r: seq<T>)
    ensures |r| == |s| + |xs|
  {
    var i := Find(s, ref);
    if i == -1 then xs + s
    else
      assert s == s[..i] + s[i..];
      s[..i] + xs + s[i..]
  }

  /** `var i = s.indexOf(x); if (i !== -1) s.splice(i, 1)` */
  function RemoveFirst<T(==)>(s: seq<T>, x: T): (r: seq<T>)
    ensures x in s ==> |r| == |s| - 1 && multiset(r) == multiset(s) - multiset{x}
    ensures x !in s ==> r == s
  {
    var i := IndexOf(s, x);
    if i == -1 then s
    else
      assert s == s[..i] + [x] + s[i + 1..];
      s[..i] + s[i + 1..]
  }

  /** Splicing in adds exactly the new elements. */
  lemma {:induction false} InsertAfterElems<T>(s: seq<T>, ref: Option<T>, xs: seq<T>)
    ensures multiset(InsertAfter(s, ref, xs)) == multiset(s) + multiset(xs)
  {
    var i := Find(s, ref);
    if i != -1 {
      assert s == s[..i + 1] + s[i + 1..];
    }
  }

  lemma {:induction false} InsertBeforeElems<T>(s: seq<T>, ref: Option<T>, xs: seq<T>)
    ensures multiset(InsertBefore(s, ref, xs)) == multiset(s) + multiset(xs)
  {
    var i := Find(s, ref);
    if i != -1 {
      assert s == s[..i] + s[i..];
    }
  }

  /** Whatever the splice holds was in s or in xs. */
  lemma {:induction false} InsertAfterMembers<T>(s: seq<T>, ref: Option<T>, xs: seq<T>)
    ensures forall x :: x in InsertAfter(s, ref, xs) ==> x in s || x in xs
  {
    InsertAfterElems(s, ref, xs);
    forall x | x in InsertAfter(s, ref, xs) ensures x in s || x in xs {
      assert x in multiset(InsertAfter(s, ref, xs));
    }
  }

  lemma {:induction false} InsertBeforeMembers<T>(s: seq<T>, ref: Option<T>, xs: seq<T>)
    ensures forall x :: x in InsertBefore(s, ref, xs) ==> x in s || x in xs
  {
    InsertBeforeElems(s, ref, xs);
    forall x | x in InsertBefore(s, ref, xs) ensures x in s || x in xs {
      assert x in multiset(InsertBefore(s, ref, xs));
    }
  }

  /** The spliced list is the old one with xs at the landing place k: right after ref, or last. */
  lemma {:induction false} InsertAfterSlices<T>(s: seq<T>, ref: Option<T>, xs: seq<T>, k: nat)
    requires k == if Find(s, ref) == -1 then |s| else Find(s, ref) + 1
    ensures var r := InsertAfter(s, ref, xs);
      k <= |s| && r[..k] == s[..k] && r[k..k + |xs|] == xs && r[k + |xs|..] == s[k..]
  {
  }

  /** The spliced list is the old one with xs at the landing place k: right at ref, or first. */
  lemma {:induction false} InsertBeforeSlices<T>(s: seq<T>, ref: Option<T>, xs: seq<T>, k: nat)
    requires k == if Find(s, ref) == -1 then 0 else Find(s, ref)
    ensures var r := InsertBefore(s, ref, xs);
      k <= |s| && r[..k] == s[..k] && r[k..k + |xs|] == xs && r[k + |xs|..] == s[k..]
  {
  }

  /** Only the first x goes; what comes before and after it keeps its order. */
  lemma {:induction false} RemoveFirstSlices<T>(s: seq<T>, x: T)
    requires x in s
    ensures var i := IndexOf(s, x);
      0 <= i < |s| && s[i] == x && x !in s[..i] && RemoveFirst(s, x) == s[..i] + s[i + 1..]
  {
  }

  /** `removeWordsAfter`: what stays and what `splice` hands back. */
  function CutAfter<T(==)>(s: seq<T>, ref: T): (r: (seq<T>, seq<T>))
    ensures r.0 + r.1 == s
    ensures r.1 != [] ==> |r.0| > 0 && r.0[|r.0| - 1] == ref && ref !in r.0[..|r.0| - 1]
    ensures r.1 == [] <==> IndexOf(s, ref) == -1 || IndexOf(s, ref) == |s| - 1
  {
    var i := IndexOf(s, ref);
    if i == -1 || i == |s| - 1 then (s, [])
    else
      assert s == s[..i + 1] + s[i + 1..];
      (s[..i + 1], s[i + 1..])
  }

  /** Nothing is cut off exactly when ref is missing or only at the end. */
  lemma {:induction false} CutAfterNothing<T>(s: seq<T>, ref: T)
    ensures CutAfter(s, ref).1 == [] <==> ref !in s || (s[|s| - 1] == ref && ref !in s[..|s| - 1])
  {
    if ref in s && s[|s| - 1] == ref && ref !in s[..|s| - 1] {
      forall j | 0 <= j < |s| - 1 ensures s[j] != ref {
        assert s[j] in s[..|s| - 1];
      }
      IndexOfAt(s, ref, |s| - 1);
    }
  }

  /** The concatenation of a list of lists, as `reduce(concat)` computes it. */
  function Concat<T>(ss: seq<seq<T>>): seq<T>
  {
    if ss == [] then [] else ss[0] + Concat(ss[1..])
  }

  /** The first i + 1 elements are the first i and then element i. */
  lemma {:induction false} TakeOneMore<T>(s: seq<T>, i: nat)
    requires i < |s|
    ensures s[..i + 1] == s[..i] + [s[i]]
  {
  }

  lemma {:induction false} ConcatAppend<T>(a: seq<seq<T>>, b: seq<seq<T>>)
    ensures Concat(a + b) == Concat(a) + Concat(b)
  {
    if a == [] {
      assert a + b == b;
    } else {
      assert (a + b)[1..] == a[1..] + b;
      ConcatAppend(a[1..], b);
    }
  }

  lemma {:induction false} ConcatOne<T>(x: seq<T>)
    ensures Concat([x]) == x
  {
    assert [x][1..] == [];
  }

  predicate Distinct<T(==)>(s: seq<T>)
  {
    forall i, j :: 0 <= i < j < |s| ==> s[i] != s[j]
  }

  /** An inserted element that was not there before lands right after ref, or last. */
  lemma {:induction false} InsertAfterLands<T>(s: seq<T>, ref: Option<T>, x: T)
    requires x !in s && (ref.Some? ==> ref.value != x)
    ensures IndexOf(InsertAfter(s, ref, [x]), x) == if Find(s, ref) == -1 then |s| else Find(s, ref) + 1
  {
    var r := InsertAfter(s, ref, [x]);
    var i := Find(s, ref);
    var k := if i == -1 then |s| else i + 1;
    assert r[k] == x && r[..k] == s[..k];
  }

  /** An inserted element that was not there before lands right at ref, or first. */
  lemma {:induction false} InsertBeforeLands<T>(s: seq<T>, ref: Option<T>, x: T)
    requires x !in s
    ensures IndexOf(InsertBefore(s, ref, [x]), x) == if Find(s, ref) == -1 then 0 else Find(s, ref)
  {
    var r := InsertBefore(s, ref, [x]);
    var i := Find(s, ref);
    var k := if i == -1 then 0 else i;
    assert r[k] == x && r[..k] == s[..k];
  }

  /** Removing what `InsertAfter` put in gives the list back. */
  lemma {:induction false} RemoveUndoesInsertAfter<T>(s: seq<T>, ref: Option<T>, x: T)
    requires x !in s && (ref.Some? ==> ref.value != x)
    ensures RemoveFirst(InsertAfter(s, ref, [x]), x) == s
  {
    var k := if Find(s, ref) == -1 then |s| else Find(s, ref) + 1;
    InsertAfterSlices(s, ref, [x], k);
    RemoveSpliced(s, k, x, InsertAfter(s, ref, [x]));
  }

  /** Removing what `InsertBefore` put in gives the list back. */
  lemma {:induction false} RemoveUndoesInsertBefore<T>(s: seq<T>, ref: Option<T>, x: T)
    requires x !in s
    ensures RemoveFirst(InsertBefore(s, ref, [x]), x) == s
  {
    var k := if Find(s, ref) == -1 then 0 else Find(s, ref);
    InsertBeforeSlices(s, ref, [x], k);
    RemoveSpliced(s, k, x, InsertBefore(s, ref, [x]));
  }

  /** Taking x out of s with x spliced in at k gives s back, when s holds no x. */
  lemma {:induction false} RemoveSpliced<T>(s: seq<T>, k: nat, x: T, r: seq<T>)
    requires k <= |s| && x !in s && |r| == |s| + 1
    requires r[..k] == s[..k] && r[k..k + 1] == [x] && r[k + 1..] == s[k..]
    ensures RemoveFirst(r, x) == s
  {
    SpliceAt(s, k, [x], r);
    RemoveFromMiddle(s[..k], x, s[k..]);
    assert s[..k] + s[k..] == s;
  }

  /** A list whose three slices around k are s[..k], xs and s[k..] is that splice. */
  lemma {:induction false} SpliceAt<T>(s: seq<T>, k: nat, xs: seq<T>, r: seq<T>)
    requires k <= |s| && |r| == |s| + |xs|
    requires r[..k] == s[..k] && r[k..k + |xs|] == xs && r[k + |xs|..] == s[k..]
    ensures r == s[..k] + xs + s[k..]
  {
    assert r == r[..k] + r[k..k + |xs|] + r[k + |xs|..];
  }

  /** Taking out an x that nothing before it equals leaves the parts around it. */
  lemma {:induction false} RemoveFromMiddle<T>(a: seq<T>, x: T, b: seq<T>)
    requires x !in a
    ensures RemoveFirst(a + [x] + b, x) == a + b
  {
    var r := a + [x] + b;
    IndexOfAt(r, x, |a|);
    assert r[..|a|] == a && r[|a| + 1..] == b;
  }

  /** The first occurrence is the position that holds x with no x before it. */
  lemma {:induction false} IndexOfAt<T>(s: seq<T>, x: T, k: nat)
    requires k < |s| && s[k] == x
    requires forall j :: 0 <= j < k ==> s[j] != x
    ensures IndexOf(s, x) == k
  {
  }

  /**
   * Inserting fresh elements one at a time, each after the one inserted before it
   * (the first after w), is one splice of all of them after w.
   */
  lemma {:induction false} InsertChainStep<T>(s: seq<T>, w: T, xs: seq<T>, y: T)
    requires forall e :: e in xs + [y] ==> e !in s && e != w
    requires Distinct(xs + [y])
    ensures InsertAfter(InsertAfter(s, Some(w), xs), Some(if xs == [] then w else xs[|xs| - 1]), [y])
         == InsertAfter(s, Some(w), xs + [y])
  {
    var t := InsertAfter(s, Some(w), xs);
    var p := IndexOf(s, w);
    if xs == [] {
      assert t == s;
    } else {
      var last := xs[|xs| - 1];
      assert (xs + [y])[|xs| - 1] == last;
      assert last in xs + [y];
      assert last !in s;
      if p == -1 {
        assert t == s + xs;
        assert InsertAfter(s, Some(w), xs + [y]) == s + (xs + [y]);
        ChainAtEnd(s, xs, y);
        assert s + xs + [y] == s + (xs + [y]);
      } else {
        assert t == s[..p + 1] + xs + s[p + 1..];
        assert InsertAfter(s, Some(w), xs + [y]) == s[..p + 1] + (xs + [y]) + s[p + 1..];
        ChainInside(s, p, xs, y);
      }
    }
  }

  lemma {:induction false} ChainAtEnd<T>(s: seq<T>, xs: seq<T>, y: T)
    requires xs != [] && xs[|xs| - 1] !in s
    requires Distinct(xs + [y])
    ensures InsertAfter(s + xs, Some(xs[|xs| - 1]), [y]) == s + xs + [y]
  {
    var t := s + xs;
    var last := xs[|xs| - 1];
    var k := |s| + |xs| - 1;
    forall j | 0 <= j < k ensures t[j] != last {
      if j >= |s| {
        assert t[j] == (xs + [y])[j - |s|];
        assert (xs + [y])[|xs| - 1] == last;
      }
    }
    IndexOfAt(t, last, k);
    assert t[..k + 1] == t;
  }

  lemma {:induction false} ChainInside<T>(s: seq<T>, p: nat, xs: seq<T>, y: T)
    requires p < |s| && xs != [] && xs[|xs| - 1] !in s
    requires Distinct(xs + [y])
    ensures InsertAfter(s[..p + 1] + xs + s[p + 1..], Some(xs[|xs| - 1]), [y])
         == s[..p + 1] + (xs + [y]) + s[p + 1..]
  {
    var t := s[..p + 1] + xs + s[p + 1..];
    var last := xs[|xs| - 1];
    var k := p + |xs|;
    forall j | 0 <= j < k ensures t[j] != last {
      if j > p {
        assert t[j] == (xs + [y])[j - p - 1];
        assert (xs + [y])[|xs| - 1] == last;
      } else {
        assert t[j] == s[j];
      }
    }
    IndexOfAt(t, last, k);
    assert t[..k + 1] == s[..p + 1] + xs;
    assert t[k + 1..] == s[p + 1..];
  }

  /** Behind a prefix without x, x is found where it is found in the rest. */
  lemma {:induction false} IndexOfBehind<T>(a: seq<T>, t: seq<T>, x: T)
    requires x !in a && x in t
    ensures IndexOf(a + t, x) == |a| + IndexOf(t, x)
  {
    var k := IndexOf(t, x);
    var s := a + t;
    forall j | 0 <= j < |a| + k ensures s[j] != x {
      if j >= |a| {
        assert s[j] == t[..k][j - |a|];
      }
    }
    IndexOfAt(s, x, |a| + k);
  }

  /** With x in s, whatever follows s does not move where x is found. */
  lemma {:induction false} IndexOfEarly<T>(s: seq<T>, c: seq<T>, x: T)
    requires x in s
    ensures IndexOf(s + c, x) == IndexOf(s, x)
  {
    var k := IndexOf(s, x);
    forall j | 0 <= j < k ensures (s + c)[j] != x {
      assert (s + c)[j] == s[..k][j];
    }
    IndexOfAt(s + c, x, k);
  }

  lemma {:induction false} SlicesOfThree<T>(a: seq<T>, s: seq<T>, c: seq<T>, k: nat)
    requires k < |s|
    ensures (a + s + c)[..|a| + k + 1] == a + s[..k + 1]
    ensures (a + s + c)[|a| + k + 1..] == s[k + 1..] + c
  {
  }

  /** What is before or after position i of s is in s. */
  lemma {:induction false} SliceMembers<T>(s: seq<T>, i: nat)
    requires i < |s|
    ensures forall v :: v in s[..i] ==> v in s
    ensures forall v :: v in s[i + 1..] ==> v in s
  {
    forall v | v in s[i + 1..] ensures v in s {
      var j :| 0 <= j < |s[i + 1..]| && s[i + 1..][j] == v;
      assert s[i + 1 + j] == v;
    }
  }

  /** Splicing in after x, where x first shows up in the middle part s, splices inside s. */
  lemma {:induction false} InsertAfterInside<T>(a: seq<T>, s: seq<T>, c: seq<T>, x: T, xs: seq<T>)
    requires x !in a && x in s
    ensures InsertAfter(a + s + c, Some(x), xs) == a + InsertAfter(s, Some(x), xs) + c
  {
    var k := IndexOf(s, x);
    var u := a + s + c;
    var K := |a| + k;
    assert IndexOf(u, x) == K by {
      IndexOfEarly(s, c, x);
      assert u == a + (s + c);
      IndexOfBehind(a, s + c, x);
    }
    assert InsertAfter(u, Some(x), xs) == (a + s[..k + 1]) + xs + (s[k + 1..] + c) by {
      SlicesOfThree(a, s, c, k);
      InsertAfterAt(u, x, xs, K);
    }
    assert InsertAfter(s, Some(x), xs) == s[..k + 1] + xs + s[k + 1..] by {
      InsertAfterAt(s, x, xs, k);
    }
    Regroup5(a, s[..k + 1], xs, s[k + 1..], c, InsertAfter(u, Some(x), xs), InsertAfter(s, Some(x), xs));
  }

  lemma {:induction false} InsertAfterAt<T>(s: seq<T>, x: T, xs: seq<T>, k: nat)
    requires k < |s| && IndexOf(s, x) == k
    ensures InsertAfter(s, Some(x), xs) == s[..k + 1] + xs + s[k + 1..]
  {
  }

  lemma {:induction false} Regroup5<T>(a: seq<T>, l: seq<T>, xs: seq<T>, m: seq<T>, c: seq<T>, whole: seq<T>, part: seq<T>)
    requires whole == (a + l) + xs + (m + c) && part == l + xs + m
    ensures whole == a + part + c
  {
  }

  /** Cutting right after x once xs went in right after x: the cut keeps up to x, xs lead the rest. */
  lemma {:induction false} CutAfterInserted<T>(s: seq<T>, x: T, xs: seq<T>)
    requires x in s
    ensures var i := IndexOf(s, x); CutAfter(InsertAfter(s, Some(x), xs), x) == (s[..i + 1], xs + s[i + 1..])
  {
    var i := IndexOf(s, x);
    var l, m := s[..i + 1], xs + s[i + 1..];
    var u := InsertAfter(s, Some(x), xs);
    assert u == l + m;
    assert IndexOf(u, x) == i by {
      IndexOfAt(l, x, i);
      IndexOfEarly(l, m, x);
    }
    assert u[..i + 1] == l && u[i + 1..] == m;
  }

  /** In a list without repeats, an element of the middle part is not in the front part. */
  lemma {:induction false} DistinctApart<T>(a: seq<T>, s: seq<T>, c: seq<T>, x: T)
    requires Distinct(a + s + c) && x in s
    ensures x !in a
  {
    var q :| 0 <= q < |s| && s[q] == x;
    forall p | 0 <= p < |a| ensures a[p] != x {
      assert (a + s + c)[p] == a[p] && (a + s + c)[|a| + q] == s[q];
    }
  }
}
