/** Bottom-up merge sort on sequences: one pass merges neighbouring runs, and passes
    with doubling run lengths sort stably. */
module MergeSort {
  import opened Sequences

  // [leq] says whether its first argument may stay before its second.
  ghost predicate Preorder<T(!new)>(leq: (T, T) -> bool) {
    && (forall x, y :: leq(x, y) || leq(y, x))
    && (forall x, y, z :: leq(x, y) && leq(y, z) ==> leq(x, z))
  }

  predicate Sorted<T>(s: seq<T>, leq: (T, T) -> bool) {
    forall i, j :: 0 <= i < j < |s| ==> leq(s[i], s[j])
  }

  // The elements of [s] that are equivalent to [x], in order.
  function Class<T>(s: seq<T>, x: T, leq: (T, T) -> bool): seq<T> {
    if s == [] then [] else (if leq(x, s[0]) && leq(s[0], x) then [s[0]] else []) + Class(s[1..], x, leq)
  }

  // [r] has the elements of [s], and equivalent ones in the same order.
  ghost predicate StablyPermutes<T(!new)>(s: seq<T>, r: seq<T>, leq: (T, T) -> bool) {
    multiset(s) == multiset(r) && forall x :: Class(s, x, leq) == Class(r, x, leq)
  }

  // Of two equivalent elements, the same is first in both.
  lemma StableOrder<T(!new)>(s: seq<T>, r: seq<T>, leq: (T, T) -> bool, i: nat, j: nat, k: nat, l: nat)
    requires Preorder(leq) && StablyPermutes(s, r, leq) && Distinct(s) && Distinct(r)
    requires i < j < |s| && leq(s[i], s[j]) && leq(s[j], s[i])
    requires k < |r| && l < |r| && r[k] == s[i] && r[l] == s[j]
    ensures k < l
  {
    var c := Class(s, s[i], leq);
    ClassOrder(s, s[i], leq, i, j);
    ClassDistinct(s, s[i], leq);
    if l < k { ClassOrder(r, s[i], leq, l, k); }
  }

  lemma {:induction false} ClassOrder<T>(s: seq<T>, x: T, leq: (T, T) -> bool, i: nat, j: nat)
    requires i < j < |s| && leq(x, s[i]) && leq(s[i], x) && leq(x, s[j]) && leq(s[j], x)
    ensures exists p, q :: 0 <= p < q < |Class(s, x, leq)| && Class(s, x, leq)[p] == s[i] && Class(s, x, leq)[q] == s[j]
  {
    var c, rest := Class(s, x, leq), Class(s[1..], x, leq);
    var d := |c| - |rest|;
    if i == 0 {
      var q := ClassHas(s[1..], x, leq, j - 1);
      assert c[0] == s[0] && c[q + 1] == s[j];
    } else {
      ClassOrder(s[1..], x, leq, i - 1, j - 1);
      var p, q :| 0 <= p < q < |rest| && rest[p] == s[i] && rest[q] == s[j];
      assert c[p + d] == s[i] && c[q + d] == s[j];
    }
  }

  lemma {:induction false} ClassHas<T>(s: seq<T>, x: T, leq: (T, T) -> bool, j: nat) returns (q: nat)
    requires j < |s| && leq(x, s[j]) && leq(s[j], x)
    ensures q < |Class(s, x, leq)| && Class(s, x, leq)[q] == s[j]
  {
    if j == 0 {
      q := 0;
    } else {
      q := ClassHas(s[1..], x, leq, j - 1);
      q := q + |Class(s, x, leq)| - |Class(s[1..], x, leq)|;
    }
  }

  lemma {:induction false} ClassDistinct<T>(s: seq<T>, x: T, leq: (T, T) -> bool)
    requires Distinct(s)
    ensures Distinct(Class(s, x, leq)) && forall y :: y in Class(s, x, leq) ==> y in s
  {
    if s != [] {
      ClassDistinct(s[1..], x, leq);
      assert s[0] !in s[1..];
    }
  }

  function Min(a: nat, b: nat): nat {
    if a < b then a else b
  }

  // Merges two runs; an element of the first goes before an equivalent one of the
  // second.
  function Merge<T>(xs: seq<T>, ys: seq<T>, leq: (T, T) -> bool): (r: seq<T>)
    ensures |r| == |xs| + |ys|
    decreases |xs| + |ys|
  {
    if xs == [] then ys
    else if ys == [] then xs
    else if leq(xs[0], ys[0]) then [xs[0]] + Merge(xs[1..], ys, leq)
    else [ys[0]] + Merge(xs, ys[1..], leq)
  }

  // One pass over runs of length [k].
  function Pass<T>(s: seq<T>, k: nat, leq: (T, T) -> bool): (r: seq<T>)
    requires k > 0
    ensures |r| == |s|
    decreases |s|
  {
    if s == [] then []
    else
      var p, q := Min(k, |s|), Min(2 * k, |s|);
      Merge(s[..p], s[p..q], leq) + Pass(s[q..], k, leq)
  }

  // Every run of length [k] is sorted.
  predicate Runs<T>(s: seq<T>, k: nat, leq: (T, T) -> bool)
    requires k > 0
    decreases |s|
  {
    s == [] || (Sorted(s[..Min(k, |s|)], leq) && Runs(s[Min(k, |s|)..], k, leq))
  }

  lemma {:induction false} SingleRuns<T>(s: seq<T>, leq: (T, T) -> bool)
    ensures Runs(s, 1, leq)
    decreases |s|
  {
    if s != [] { SingleRuns(s[1..], leq); }
  }

  lemma {:induction false} ClassConcat<T>(a: seq<T>, b: seq<T>, x: T, leq: (T, T) -> bool)
    ensures Class(a + b, x, leq) == Class(a, x, leq) + Class(b, x, leq)
    decreases |a|
  {
    if a == [] {
      assert a + b == b;
    } else {
      assert (a + b)[1..] == a[1..] + b;
      ClassConcat(a[1..], b, x, leq);
    }
  }

  // Nothing in [s] is equivalent to [x].
  lemma {:induction false} ClassNone<T>(s: seq<T>, x: T, leq: (T, T) -> bool)
    requires forall i :: 0 <= i < |s| ==> !leq(x, s[i]) || !leq(s[i], x)
    ensures Class(s, x, leq) == []
    decreases |s|
  {
    if s != [] { ClassNone(s[1..], x, leq); }
  }

  lemma {:induction false} MergeSorted<T(!new)>(xs: seq<T>, ys: seq<T>, leq: (T, T) -> bool)
    requires Preorder(leq) && Sorted(xs, leq) && Sorted(ys, leq)
    ensures Sorted(Merge(xs, ys, leq), leq) && multiset(Merge(xs, ys, leq)) == multiset(xs) + multiset(ys)
    decreases |xs| + |ys|
  {
    hide *;
    MergeStep(xs, ys, leq);
    if xs != [] && ys != [] {
      SortedRest(xs, leq);
      SortedRest(ys, leq);
      Either(xs[0], ys[0], leq);
      if leq(xs[0], ys[0]) {
        MergeSorted(xs[1..], ys, leq);
        Smallest(xs[0], xs[1..], ys, Merge(xs[1..], ys, leq), leq);
      } else {
        MergeSorted(xs, ys[1..], leq);
        Smallest(ys[0], xs, ys[1..], Merge(xs, ys[1..], leq), leq);
      }
    }
  }

  lemma MergeStep<T>(xs: seq<T>, ys: seq<T>, leq: (T, T) -> bool)
    ensures xs == [] ==> Merge(xs, ys, leq) == ys
    ensures ys == [] ==> Merge(xs, ys, leq) == xs
    ensures xs != [] && ys != [] && leq(xs[0], ys[0]) ==> Merge(xs, ys, leq) == [xs[0]] + Merge(xs[1..], ys, leq)
    ensures xs != [] && ys != [] && !leq(xs[0], ys[0]) ==> Merge(xs, ys, leq) == [ys[0]] + Merge(xs, ys[1..], leq)
  {
  }

  // The next element that a merge takes.
  lemma MergeTake<T>(xs: seq<T>, ys: seq<T>, leq: (T, T) -> bool)
    ensures ys != [] && (xs == [] || !leq(xs[0], ys[0])) ==> Merge(xs, ys, leq) == [ys[0]] + Merge(xs, ys[1..], leq)
    ensures xs != [] && (ys == [] || leq(xs[0], ys[0])) ==> Merge(xs, ys, leq) == [xs[0]] + Merge(xs[1..], ys, leq)
  {
    hide Merge;
    MergeStep(xs, ys, leq);
    if ys != [] { MergeStep(xs, ys[1..], leq); }
    if xs != [] { MergeStep(xs[1..], ys, leq); }
  }

  lemma Either<T(!new)>(x: T, y: T, leq: (T, T) -> bool)
    requires Preorder(leq)
    ensures leq(x, y) || leq(y, x)
  {
  }

  lemma SortedRest<T>(s: seq<T>, leq: (T, T) -> bool)
    requires s != [] && Sorted(s, leq)
    ensures Sorted(s[1..], leq) && (|s| > 1 ==> leq(s[0], s[1])) && multiset(s) == multiset{s[0]} + multiset(s[1..])
  {
    assert s == [s[0]] + s[1..];
  }

  // [x] may stay before everything in [r], which has the elements of [a] and [b].
  lemma Smallest<T(!new)>(x: T, a: seq<T>, b: seq<T>, r: seq<T>, leq: (T, T) -> bool)
    requires Preorder(leq) && Sorted(a, leq) && Sorted(b, leq) && multiset(r) == multiset(a) + multiset(b)
    requires (a != [] ==> leq(x, a[0])) && (b != [] ==> leq(x, b[0])) && Sorted(r, leq)
    ensures Sorted([x] + r, leq)
  {
    forall j | 0 <= j < |r| ensures leq(x, r[j]) {
      assert r[j] in multiset(r);
      if r[j] in a {
        var i :| 0 <= i < |a| && a[i] == r[j];
        assert i == 0 || leq(a[0], a[i]);
      } else {
        var i :| 0 <= i < |b| && b[i] == r[j];
        assert i == 0 || leq(b[0], b[i]);
      }
    }
  }

  lemma {:induction false} MergeStable<T(!new)>(xs: seq<T>, ys: seq<T>, x: T, leq: (T, T) -> bool)
    requires Preorder(leq) && Sorted(xs, leq) && Sorted(ys, leq)
    ensures Class(Merge(xs, ys, leq), x, leq) == Class(xs, x, leq) + Class(ys, x, leq)
    decreases |xs| + |ys|
  {
    hide *;
    MergeStep(xs, ys, leq);
    ClassStep(xs, x, leq);
    ClassStep(ys, x, leq);
    if xs != [] && ys != [] {
      SortedRest(xs, leq);
      SortedRest(ys, leq);
      ClassStep(Merge(xs, ys, leq), x, leq);
      if leq(xs[0], ys[0]) {
        MergeStable(xs[1..], ys, x, leq);
      } else {
        MergeStable(xs, ys[1..], x, leq);
        if leq(x, ys[0]) && leq(ys[0], x) { ClassBefore(xs, ys[0], x, leq); }
      }
    }
  }

  lemma ClassStep<T>(s: seq<T>, x: T, leq: (T, T) -> bool)
    ensures s == [] ==> Class(s, x, leq) == []
    ensures s != [] ==>
              Class(s, x, leq) == (if leq(x, s[0]) && leq(s[0], x) then [s[0]] else []) + Class(s[1..], x, leq)
  {
  }

  // Everything in the sorted [xs] has to stay after [y], so nothing in it is
  // equivalent to what [y] is equivalent to.
  lemma ClassBefore<T(!new)>(xs: seq<T>, y: T, x: T, leq: (T, T) -> bool)
    requires Preorder(leq) && Sorted(xs, leq) && xs != [] && !leq(xs[0], y) && leq(x, y) && leq(y, x)
    ensures Class(xs, x, leq) == []
  {
    forall i | 0 <= i < |xs| ensures !leq(x, xs[i]) || !leq(xs[i], x) {
      assert i == 0 || leq(xs[0], xs[i]);
    }
    ClassNone(xs, x, leq);
  }

  // A pass keeps the elements and the order of equivalent ones, and doubles the
  // length of the runs.
  lemma {:induction false} PassRuns<T(!new)>(s: seq<T>, k: nat, leq: (T, T) -> bool)
    requires k > 0 && Preorder(leq) && Runs(s, k, leq)
    ensures Runs(Pass(s, k, leq), 2 * k, leq) && StablyPermutes(s, Pass(s, k, leq), leq)
    decreases |s|
  {
    hide *;
    if s == [] {
      PassNothing(k, leq);
    } else {
      var p := MinIs(k, |s|);
      var q := MinIs(2 * k, |s|);
      PassStep(s, k, leq);
      RunsSplit(s, k, leq);
      MergeSorted(s[..p], s[p..q], leq);
      PassRuns(s[q..], k, leq);
      var merged, rest := Merge(s[..p], s[p..q], leq), Pass(s[q..], k, leq);
      RunsJoin(merged, rest, 2 * k, leq);
      assert s == s[..p] + s[p..q] + s[q..];
      StableJoin(s[..p], s[p..q], s[q..], rest, leq);
    }
  }

  lemma MinIs(a: nat, b: nat) returns (m: nat)
    ensures m == Min(a, b) && m <= a && m <= b && (m == a || m == b)
  {
    m := Min(a, b);
  }

  lemma PassEmpty<T>(k: nat, leq: (T, T) -> bool)
    requires k > 0
    ensures Pass([], k, leq) == []
  {
  }

  lemma PassNothing<T(!new)>(k: nat, leq: (T, T) -> bool)
    requires k > 0
    ensures Pass<T>([], k, leq) == [] && Runs<T>([], 2 * k, leq) && StablyPermutes<T>([], [], leq)
  {
  }

  lemma PassStep<T>(s: seq<T>, k: nat, leq: (T, T) -> bool)
    requires k > 0 && s != []
    ensures var p, q := Min(k, |s|), Min(2 * k, |s|);
            p <= q <= |s| && q > 0 && Pass(s, k, leq) == Merge(s[..p], s[p..q], leq) + Pass(s[q..], k, leq)
  {
    hide Merge;
  }

  lemma RunsStep<T>(s: seq<T>, k: nat, leq: (T, T) -> bool)
    requires k > 0 && s != []
    ensures var p := Min(k, |s|); 0 < p <= |s| && (Runs(s, k, leq) <==> Sorted(s[..p], leq) && Runs(s[p..], k, leq))
    ensures Runs([], k, leq)
  {
    hide Sorted;
  }

  lemma RunsSplit<T>(s: seq<T>, k: nat, leq: (T, T) -> bool)
    requires k > 0 && s != [] && Runs(s, k, leq)
    ensures var p, q := Min(k, |s|), Min(2 * k, |s|);
            p <= q <= |s| && Sorted(s[..p], leq) && Sorted(s[p..q], leq) && Runs(s[q..], k, leq)
  {
    hide Runs;
    var p, q := Min(k, |s|), Min(2 * k, |s|);
    RunsStep(s, k, leq);
    if p < |s| {
      var t := s[p..];
      RunsStep(t, k, leq);
      assert t[..q - p] == s[p..q] && t[q - p..] == s[q..];
    } else {
      assert s[q..] == [] && s[p..q] == [];
    }
  }

  lemma RunsJoin<T>(a: seq<T>, b: seq<T>, k: nat, leq: (T, T) -> bool)
    requires k > 0 && 0 < |a| <= k && (|a| == k || b == []) && Sorted(a, leq) && Runs(b, k, leq)
    ensures Runs(a + b, k, leq)
  {
    hide Runs, Sorted;
    RunsStep(a + b, k, leq);
    assert (a + b)[..|a|] == a && (a + b)[|a|..] == b;
  }

  // Merging the first two of three parts and stably permuting the third.
  lemma StableJoin<T(!new)>(a: seq<T>, b: seq<T>, c: seq<T>, rest: seq<T>, leq: (T, T) -> bool)
    requires Preorder(leq) && Sorted(a, leq) && Sorted(b, leq) && StablyPermutes(c, rest, leq)
    ensures StablyPermutes(a + b + c, Merge(a, b, leq) + rest, leq)
  {
    hide Class, Merge, Sorted, Preorder;
    var merged := Merge(a, b, leq);
    MergeSorted(a, b, leq);
    forall x ensures Class(a + b + c, x, leq) == Class(merged + rest, x, leq) {
      MergeStable(a, b, x, leq);
      ClassConcat(a + b, c, x, leq);
      ClassConcat(a, b, x, leq);
      ClassConcat(merged, rest, x, leq);
    }
  }

  lemma OneRun<T>(s: seq<T>, k: nat, leq: (T, T) -> bool)
    requires 0 < k && |s| <= k && Runs(s, k, leq)
    ensures Sorted(s, leq)
  {
    if s != [] { assert s[..|s|] == s; }
  }

  lemma StableTrans<T(!new)>(a: seq<T>, b: seq<T>, c: seq<T>, leq: (T, T) -> bool)
    requires StablyPermutes(a, b, leq) && StablyPermutes(b, c, leq)
    ensures StablyPermutes(a, c, leq)
  {
  }

  // ----- Sorting by a key -----

  lemma {:induction false} MergePermutes<T>(xs: seq<T>, ys: seq<T>, leq: (T, T) -> bool)
    ensures multiset(Merge(xs, ys, leq)) == multiset(xs) + multiset(ys)
    decreases |xs| + |ys|
  {
    if xs != [] && ys != [] {
      assert xs == [xs[0]] + xs[1..] && ys == [ys[0]] + ys[1..];
      if leq(xs[0], ys[0]) { MergePermutes(xs[1..], ys, leq); } else { MergePermutes(xs, ys[1..], leq); }
    }
  }

  lemma {:induction false} PassPermutes<T>(s: seq<T>, k: nat, leq: (T, T) -> bool)
    requires k > 0
    ensures multiset(Pass(s, k, leq)) == multiset(s)
    decreases |s|
  {
    hide Merge;
    if s != [] {
      var p, q := Min(k, |s|), Min(2 * k, |s|);
      MergePermutes(s[..p], s[p..q], leq);
      PassPermutes(s[q..], k, leq);
      assert s == s[..p] + s[p..q] + s[q..];
    }
  }

  function Map<T, K>(f: T -> K, s: seq<T>): (r: seq<K>)
    ensures |r| == |s| && forall i :: 0 <= i < |s| ==> r[i] == f(s[i])
  {
    if s == [] then [] else [f(s[0])] + Map(f, s[1..])
  }

  // Compares elements by their keys.
  function ByKey<T, K>(f: T -> K, leq: (K, K) -> bool): (T, T) -> bool {
    (x: T, y: T) => leq(f(x), f(y))
  }

  // Sorting elements by a key is sorting the keys.
  lemma {:induction false} MergeKeys<T, K>(f: T -> K, xs: seq<T>, ys: seq<T>, leq: (K, K) -> bool)
    ensures Map(f, Merge(xs, ys, ByKey(f, leq))) == Merge(Map(f, xs), Map(f, ys), leq)
    decreases |xs| + |ys|
  {
    if xs != [] && ys != [] {
      if leq(f(xs[0]), f(ys[0])) {
        MergeKeys(f, xs[1..], ys, leq);
        assert Map(f, xs)[1..] == Map(f, xs[1..]);
      } else {
        MergeKeys(f, xs, ys[1..], leq);
        assert Map(f, ys)[1..] == Map(f, ys[1..]);
      }
    }
  }

  lemma {:induction false} PassKeys<T, K>(f: T -> K, s: seq<T>, k: nat, leq: (K, K) -> bool)
    requires k > 0
    ensures Map(f, Pass(s, k, ByKey(f, leq))) == Pass(Map(f, s), k, leq)
    decreases |s|
  {
    hide *;
    var cmp := ByKey(f, leq);
    if s == [] {
      PassEmpty(k, cmp);
      PassEmpty(k, leq);
      assert Map(f, s) == [];
    } else {
      var p := MinIs(k, |s|);
      var q := MinIs(2 * k, |s|);
      PassStep(s, k, cmp);
      PassStep(Map(f, s), k, leq);
      MergeKeys(f, s[..p], s[p..q], leq);
      PassKeys(f, s[q..], k, leq);
      MapSlices(f, s, p, q);
      MapConcat(f, Merge(s[..p], s[p..q], cmp), Pass(s[q..], k, cmp));
    }
  }

  lemma MapSlices<T, K>(f: T -> K, s: seq<T>, p: nat, q: nat)
    requires p <= q <= |s|
    ensures Map(f, s[..p]) == Map(f, s)[..p] && Map(f, s[p..q]) == Map(f, s)[p..q] && Map(f, s[q..]) == Map(f, s)[q..]
  {
    hide Map;
  }

  lemma MapConcat<T, K>(f: T -> K, a: seq<T>, b: seq<T>)
    ensures Map(f, a + b) == Map(f, a) + Map(f, b)
  {
    hide Map;
  }
}
