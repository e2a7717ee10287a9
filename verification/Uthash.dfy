/** The hash table of uthash: every element is on the list of all elements, in the
    order of insertion, and on the chain of its bucket. */
module Uthash {
  import opened Bits
  import opened MergeSort
  import opened Sequences

  // An element with its hash handle. Its key and hash value do not change while it
  // is in a table.
  class Node {
    const key: int
    const hashv: nat
    var prev: Node?
    var next: Node?
    var hhPrev: Node?
    var hhNext: Node?

    constructor (key: int, hashv: nat)
      ensures this.key == key && this.hashv == hashv
    {
      this.key, this.hashv := key, hashv;
      prev, next, hhPrev, hhNext := null, null, null, null;
    }
  }

  // A bucket: the first element of its chain and the length of the chain. A bucket
  // with a high [expandMult] tolerates a longer chain.
  datatype Bucket = Bucket(head: Node?, count: nat, expandMult: nat)

  const INITIAL_NUM_BUCKETS := 32
  const BKT_CAPACITY_THRESH := 10

  // ----- Sequences of nodes -----

  function Succ(s: seq<Node>, i: nat): Node?
    requires i < |s|
  {
    if i + 1 < |s| then s[i + 1] else null
  }

  function Pred(s: seq<Node>, i: nat): Node?
    requires i < |s|
  {
    if i > 0 then s[i - 1] else null
  }

  function First(s: seq<Node>): Node? {
    if s == [] then null else s[0]
  }

  function Last(s: seq<Node>): Node? {
    if s == [] then null else s[|s| - 1]
  }

  function Without(s: seq<Node>, p: nat): (r: seq<Node>)
    requires p < |s|
    ensures |r| == |s| - 1
    ensures forall j :: 0 <= j < |r| ==> r[j] == s[if j < p then j else j + 1]
  {
    s[..p] + s[p + 1..]
  }

  lemma WithoutMembers(s: seq<Node>, p: nat)
    requires p < |s| && Distinct(s)
    ensures Distinct(Without(s, p)) && forall x :: x in Without(s, p) <==> x in s && x != s[p]
  {
    var r := Without(s, p);
    forall x | x in s && x != s[p] ensures x in r {
      var j :| 0 <= j < |s| && s[j] == x;
      assert r[if j < p then j else j - 1] == x;
    }
  }

  // ----- Doubly linked lists -----

  // [s] is linked by its prev and next pointers.
  ghost predicate AppLinked(s: seq<Node>)
    reads s`prev, s`next
  {
    && Distinct(s)
    && (forall i {:trigger Succ(s, i)} :: 0 <= i < |s| ==> s[i].next == Succ(s, i))
    && (forall i {:trigger Pred(s, i)} :: 0 <= i < |s| ==> s[i].prev == Pred(s, i))
  }

  // [s] is linked by its hh_prev and hh_next pointers.
  ghost predicate Chained(s: seq<Node>)
    reads s`hhPrev, s`hhNext
  {
    && Distinct(s)
    && (forall i {:trigger Succ(s, i)} :: 0 <= i < |s| ==> s[i].hhNext == Succ(s, i))
    && (forall i {:trigger Pred(s, i)} :: 0 <= i < |s| ==> s[i].hhPrev == Pred(s, i))
  }

  // Puts [x] in front of a chain.
  method PushChain(x: Node, head: Node?, ghost s: seq<Node>)
    requires Chained(s) && head == First(s) && x !in s
    modifies x`hhPrev, x`hhNext, s`hhPrev
    ensures Chained([x] + s)
  {
    x.hhNext := head;
    x.hhPrev := null;
    if head != null { head.hhPrev := x; }
    ghost var r := [x] + s;
    forall i {:trigger Succ(r, i)} | 0 <= i < |r| ensures r[i].hhNext == Succ(r, i) {
      if i > 0 { assert s[i - 1].hhNext == Succ(s, i - 1); }
    }
    forall i {:trigger Pred(r, i)} | 0 <= i < |r| ensures r[i].hhPrev == Pred(r, i) {
      if i > 1 { assert old(s[i - 1].hhPrev) == Pred(s, i - 1); }
    }
  }

  // Takes the element at [p] out of a chain.
  method UnlinkChain(x: Node, ghost s: seq<Node>, ghost p: nat)
    requires Chained(s) && p < |s| && s[p] == x
    modifies s`hhPrev, s`hhNext
    ensures Chained(Without(s, p)) && x.hhNext == Succ(s, p)
  {
    assert x.hhNext == Succ(s, p) && x.hhPrev == Pred(s, p);
    if x.hhPrev != null { x.hhPrev.hhNext := x.hhNext; }
    if x.hhNext != null { x.hhNext.hhPrev := x.hhPrev; }
    ghost var r := Without(s, p);
    WithoutMembers(s, p);
    forall i {:trigger Succ(r, i)} | 0 <= i < |r| ensures r[i].hhNext == Succ(r, i) {
      var k := if i < p then i else i + 1;
      assert old(s[k].hhNext) == Succ(s, k);
    }
    forall i {:trigger Pred(r, i)} | 0 <= i < |r| ensures r[i].hhPrev == Pred(r, i) {
      var k := if i < p then i else i + 1;
      assert old(s[k].hhPrev) == Pred(s, k);
    }
  }

  // ----- Buckets -----

  // The bucket of a hash value, among [n].
  function ToBucket(hashv: nat, n: nat): (b: nat)
    requires n > 0
    ensures b < n
  {
    And(hashv, n - 1)
  }

  // The chains [cs] hold exactly [nodes], each in its own bucket.
  predicate Placed(cs: seq<seq<Node>>, nodes: set<Node>) {
    && |cs| > 0
    && (forall b, i :: 0 <= b < |cs| && 0 <= i < |cs[b]| ==> cs[b][i] in nodes && ToBucket(cs[b][i].hashv, |cs|) == b)
    && (forall x :: x in nodes ==> x in cs[ToBucket(x.hashv, |cs|)])
  }

  // The buckets [bs] start the chains [cs] of [nodes], and count them.
  ghost predicate BucketsOk(bs: seq<Bucket>, cs: seq<seq<Node>>, nodes: set<Node>)
    reads nodes`hhPrev, nodes`hhNext
  {
    && |bs| == |cs| && Placed(cs, nodes)
    && (forall b :: 0 <= b < |bs| ==> bs[b].head == First(cs[b]) && bs[b].count == |cs[b]|)
    && (forall b :: 0 <= b < |cs| ==> Chained(cs[b]))
  }

  function Total(cs: seq<seq<Node>>): nat {
    if cs == [] then 0 else |cs[0]| + Total(cs[1..])
  }

  lemma {:induction false} TotalUpdate(cs: seq<seq<Node>>, b: nat, s: seq<Node>)
    requires b < |cs|
    ensures Total(cs[b := s]) == Total(cs) - |cs[b]| + |s|
    decreases |cs|
  {
    if b == 0 {
      assert cs[0 := s][1..] == cs[1..];
    } else {
      assert cs[b := s][1..] == cs[1..][b - 1 := s];
      TotalUpdate(cs[1..], b - 1, s);
    }
  }

  // Puts [x] in front of the chain of its bucket.
  method AddToBucket(bs: seq<Bucket>, ghost cs: seq<seq<Node>>, ghost nodes: set<Node>, x: Node)
    returns (r: seq<Bucket>, ghost ds: seq<seq<Node>>)
    requires BucketsOk(bs, cs, nodes) && x !in nodes
    modifies x`hhPrev, x`hhNext, nodes`hhPrev
    ensures BucketsOk(r, ds, nodes + {x}) && |r| == |bs| && Total(ds) == Total(cs) + 1
    ensures var b := ToBucket(x.hashv, |bs|);
            ds == cs[b := [x] + cs[b]] && r == bs[b := Bucket(x, bs[b].count + 1, bs[b].expandMult)]
  {
    var b := ToBucket(x.hashv, |bs|);
    PushChain(x, bs[b].head, cs[b]);
    r := bs[b := Bucket(x, bs[b].count + 1, bs[b].expandMult)];
    ds := cs[b := [x] + cs[b]];
    TotalUpdate(cs, b, [x] + cs[b]);
    PlacedMore(cs, nodes, x);
  }

  lemma PlacedMore(cs: seq<seq<Node>>, nodes: set<Node>, x: Node)
    requires Placed(cs, nodes)
    ensures var b := ToBucket(x.hashv, |cs|); Placed(cs[b := [x] + cs[b]], nodes + {x})
  {
    var b := ToBucket(x.hashv, |cs|);
    var ds := cs[b := [x] + cs[b]];
    forall y | y in nodes + {x} ensures y in ds[ToBucket(y.hashv, |ds|)] {
      if y != x { assert y in cs[ToBucket(y.hashv, |cs|)]; }
    }
  }

  // Takes [x] out of the chain of its bucket.
  method DeleteInBucket(bs: seq<Bucket>, ghost cs: seq<seq<Node>>, ghost nodes: set<Node>, x: Node)
    returns (r: seq<Bucket>, ghost ds: seq<seq<Node>>)
    requires BucketsOk(bs, cs, nodes) && x in nodes
    modifies nodes`hhPrev, nodes`hhNext
    ensures BucketsOk(r, ds, nodes - {x}) && |r| == |bs| && Total(ds) == Total(cs) - 1
  {
    var b := ToBucket(x.hashv, |bs|);
    ghost var p :| 0 <= p < |cs[b]| && cs[b][p] == x;
    hide Without, ToBucket;
    FirstWithout(cs[b], p);
    PlacedLess(cs, nodes, x, b, p);
    var head := bs[b].head;
    UnlinkChain(x, cs[b], p);
    if head == x { head := x.hhNext; }
    r := bs[b := Bucket(head, bs[b].count - 1, bs[b].expandMult)];
    ds := cs[b := Without(cs[b], p)];
    TotalUpdate(cs, b, Without(cs[b], p));
    forall c | 0 <= c < |ds| ensures Chained(ds[c]) {
      if c != b { assert ds[c] == cs[c] && forall i :: 0 <= i < |cs[c]| ==> cs[c][i] !in cs[b]; }
    }
  }

  lemma FirstWithout(s: seq<Node>, p: nat)
    requires p < |s| && Distinct(s)
    ensures First(Without(s, p)) == if s[0] == s[p] then Succ(s, p) else First(s)
  {
  }

  lemma PlacedLess(cs: seq<seq<Node>>, nodes: set<Node>, x: Node, b: nat, p: nat)
    requires Placed(cs, nodes) && b < |cs| && p < |cs[b]| && cs[b][p] == x && Distinct(cs[b])
    ensures Placed(cs[b := Without(cs[b], p)], nodes - {x})
  {
    WithoutMembers(cs[b], p);
    var ds := cs[b := Without(cs[b], p)];
    forall c, i | 0 <= c < |ds| && 0 <= i < |ds[c]|
      ensures ds[c][i] in nodes - {x} && ToBucket(ds[c][i].hashv, |ds|) == c
    {
      if c == b { assert ds[c][i] in Without(cs[b], p); } else { assert ds[c][i] == cs[c][i] && cs[b][p] == x; }
    }
    forall y | y in nodes - {x} ensures y in ds[ToBucket(y.hashv, |ds|)] {
      assert y in cs[ToBucket(y.hashv, |cs|)];
    }
  }

  // Looks for [key] along the chain of its bucket.
  method FindInBucket(bs: seq<Bucket>, ghost cs: seq<seq<Node>>, ghost nodes: set<Node>, key: int, hashv: nat)
    returns (out: Node?)
    requires BucketsOk(bs, cs, nodes)
    ensures out != null ==> out in nodes && out.hashv == hashv && out.key == key
    ensures out == null ==> forall x :: x in nodes ==> x.hashv != hashv || x.key != key
  {
    var b := ToBucket(hashv, |bs|);
    out := bs[b].head;
    ghost var i := 0;
    while out != null
      invariant 0 <= i <= |cs[b]| && out == (if i < |cs[b]| then cs[b][i] else null)
      invariant forall j :: 0 <= j < i ==> cs[b][j].hashv != hashv || cs[b][j].key != key
      decreases |cs[b]| - i
    {
      if out.hashv == hashv && out.key == key { return; }
      assert out.hhNext == Succ(cs[b], i);
      out := out.hhNext;
      i := i + 1;
    }
    forall x | x in nodes ensures x.hashv != hashv || x.key != key {
      assert x in cs[ToBucket(x.hashv, |cs|)];
    }
  }

  // ----- Doubling the buckets -----

  function NoBuckets(n: nat): (r: seq<Bucket>)
    ensures |r| == n && forall b :: 0 <= b < n ==> r[b] == Bucket(null, 0, 0)
  {
    if n == 0 then [] else NoBuckets(n - 1) + [Bucket(null, 0, 0)]
  }

  function NoChains(n: nat): (r: seq<seq<Node>>)
    ensures |r| == n && forall b :: 0 <= b < n ==> r[b] == []
  {
    if n == 0 then [] else [[]] + NoChains(n - 1)
  }

  lemma {:induction false} TotalNone(n: nat)
    ensures Total(NoChains(n)) == 0
  {
    if n > 0 {
      assert NoChains(n)[1..] == NoChains(n - 1);
      TotalNone(n - 1);
    }
  }

  lemma {:induction false} TotalNext(cs: seq<seq<Node>>, i: nat)
    requires i < |cs|
    ensures Total(cs[..i + 1]) == Total(cs[..i]) + |cs[i]|
    decreases |cs|
  {
    if i > 0 {
      assert cs[..i + 1][1..] == cs[1..][..i] && cs[..i][1..] == cs[1..][..i - 1];
      TotalNext(cs[1..], i - 1);
    } else {
      assert cs[..1][1..] == [];
    }
  }

  // The lengths that a chain should not exceed, if items were spread evenly.
  function IdealChainMaxlen(items: nat, buckets: nat): nat
    requires buckets > 0
  {
    Quotient(items, buckets) + if And(items, buckets - 1) != 0 then 1 else 0
  }

  function Quotient(n: nat, d: nat): nat
    requires d > 0
  {
    n / d
  }

  // What expanding counts: the elements beyond the ideal length of their chain, and for
  // each chain by how much it exceeds that.
  function Excess(bs: seq<Bucket>, ideal: nat): nat {
    if bs == [] then 0 else Excess(bs[..|bs| - 1], ideal) + Beyond(bs[|bs| - 1].count, ideal)
  }

  function Beyond(count: nat, ideal: nat): nat {
    if count > ideal then count - ideal else 0
  }

  function Multiple(count: nat, ideal: nat): nat {
    if count == 0 then 0 else Stretched(Multiple(count - 1, ideal), count, ideal)
  }

  function Stretched(m: nat, count: nat, ideal: nat): nat {
    if count > ideal && count > m * ideal then m + 1 else m
  }

  lemma {:induction false} NoMultiple(count: nat, ideal: nat)
    requires count <= ideal
    ensures Multiple(count, ideal) == 0
  {
    if count > 0 { NoMultiple(count - 1, ideal); }
  }

  ghost predicate Tallied(bs: seq<Bucket>, ideal: nat, nonideal: nat) {
    nonideal == Excess(bs, ideal) && forall b :: 0 <= b < |bs| ==> bs[b].expandMult == Multiple(bs[b].count, ideal)
  }

  // The multiple times the ideal length is the length of the chain, rounded up, where it
  // is not just one less.
  lemma {:induction false} MultipleBounds(count: nat, ideal: nat)
    requires count > ideal > 0
    ensures var m := Multiple(count, ideal); m > 0 && (m - 1) * ideal < count <= m * ideal + 1
  {
    if count > ideal + 1 {
      MultipleBounds(count - 1, ideal);
      var m := Multiple(count - 1, ideal);
      assert m * ideal == (m - 1) * ideal + ideal && (m + 1) * ideal == m * ideal + ideal;
    } else {
      NoMultiple(count - 1, ideal);
    }
  }

  lemma {:induction false} ExcessUpdate(bs: seq<Bucket>, b: nat, x: Bucket, ideal: nat)
    requires b < |bs|
    ensures Excess(bs[b := x], ideal) == Excess(bs, ideal) - Beyond(bs[b].count, ideal) + Beyond(x.count, ideal)
  {
    var n := |bs| - 1;
    if b < n {
      ExcessUpdate(bs[..n], b, x, ideal);
      assert bs[b := x][..n] == bs[..n][b := x];
    } else {
      assert bs[b := x][..n] == bs[..n];
    }
  }

  lemma {:induction false} NothingTallied(n: nat, ideal: nat)
    ensures Tallied(NoBuckets(n), ideal, 0)
  {
    if n > 0 {
      NothingTallied(n - 1, ideal);
      assert NoBuckets(n)[..n - 1] == NoBuckets(n - 1);
    }
  }

  lemma TalliedNext(bs: seq<Bucket>, b: nat, head: Node?, ideal: nat, nonideal: nat)
    requires Tallied(bs, ideal, nonideal) && b < |bs|
    ensures var c := bs[b].count + 1;
            && Tallied(bs[b := Bucket(head, c, Multiple(c, ideal))], ideal, nonideal + if c > ideal then 1 else 0)
            && Multiple(c, ideal) == Stretched(bs[b].expandMult, c, ideal)
  {
    ExcessUpdate(bs, b, Bucket(head, bs[b].count + 1, Multiple(bs[b].count + 1, ideal)), ideal);
  }

  // The ideal length of a chain is the least at which the chains have room for the items.
  lemma IdealIsLeast(items: nat, buckets: nat)
    requires buckets > 0 && IsPowerOf2(buckets)
    ensures var ideal := IdealChainMaxlen(items, buckets);
            items <= ideal * buckets && (ideal > 0 ==> (ideal - 1) * buckets < items)
  {
    hide And, IsPowerOf2;
    MaskRemainder(items, buckets);
    var q, m := items / buckets, items % buckets;
    assert items == q * buckets + m && (q + 1) * buckets == q * buckets + buckets
           && (q - 1) * buckets == q * buckets - buckets;
  }

  // Moves the elements of the chain [s] to their buckets among [bs].
  method MoveChain(
      head: Node?, ghost s: seq<Node>, bs: seq<Bucket>, ghost cs: seq<seq<Node>>, ghost nodes: set<Node>, ideal: nat,
      nonideal: nat)
    returns (r: seq<Bucket>, ghost ds: seq<seq<Node>>, nonideal': nat)
    requires Chained(s) && head == First(s) && BucketsOk(bs, cs, nodes) && forall x :: x in s ==> x !in nodes
    requires Tallied(bs, ideal, nonideal)
    modifies s`hhPrev, s`hhNext, nodes`hhPrev
    ensures BucketsOk(r, ds, nodes + (set x | x in s)) && |r| == |bs| && Total(ds) == Total(cs) + |s|
    ensures Tallied(r, ideal, nonideal')
  {
    hide BucketsOk, Tallied;
    r, ds, nonideal' := bs, cs, nonideal;
    var thh := head;
    ghost var done, i := nodes, 0;
    while thh != null
      invariant 0 <= i <= |s| && thh == (if i < |s| then s[i] else null)
      invariant done == nodes + (set x | x in s[..i]) && forall x :: x in s[i..] ==> x !in done
      invariant forall j {:trigger Succ(s, j)} :: i <= j < |s| ==> s[j].hhNext == Succ(s, j)
      invariant BucketsOk(r, ds, done) && |r| == |bs| && Total(ds) == Total(cs) + i && Tallied(r, ideal, nonideal')
      decreases |s| - i
    {
      var next := thh.hhNext;
      assert next == Succ(s, i) && thh in s[i..] && s[i..][1..] == s[i + 1..];
      r, ds, nonideal' := MoveElement(r, ds, done, thh, ideal, nonideal');
      done := done + {thh};
      assert s[..i + 1] == s[..i] + [thh];
      thh := next;
      i := i + 1;
    }
    assert s[..i] == s;
  }

  // Puts [x] first in its bucket.
  method MoveElement(
      bs: seq<Bucket>, ghost cs: seq<seq<Node>>, ghost nodes: set<Node>, x: Node, ideal: nat, nonideal: nat)
    returns (r: seq<Bucket>, ghost ds: seq<seq<Node>>, nonideal': nat)
    requires BucketsOk(bs, cs, nodes) && x !in nodes && Tallied(bs, ideal, nonideal)
    modifies x`hhPrev, x`hhNext, nodes`hhPrev
    ensures BucketsOk(r, ds, nodes + {x}) && |r| == |bs| && Total(ds) == Total(cs) + 1
    ensures Tallied(r, ideal, nonideal')
  {
    BucketsSome(bs, cs, nodes);
    hide BucketsOk, Tallied, Total, Multiple, Stretched;
    var b := ToBucket(x.hashv, |bs|);
    TalliedNext(bs, b, x, ideal, nonideal);
    r, ds := AddToBucket(bs, cs, nodes, x);
    nonideal', r := CountNonideal(r, ds, nodes + {x}, b, ideal, nonideal);
    assert r == bs[b := Bucket(x, bs[b].count + 1, Multiple(bs[b].count + 1, ideal))];
  }

  // Records that a chain has outgrown its ideal length.
  method CountNonideal(
      bs: seq<Bucket>, ghost cs: seq<seq<Node>>, ghost nodes: set<Node>, b: nat, ideal: nat, nonideal: nat)
    returns (nonideal': nat, r: seq<Bucket>)
    requires BucketsOk(bs, cs, nodes) && b < |bs|
    ensures BucketsOk(r, cs, nodes) && |r| == |bs|
    ensures nonideal' == nonideal + if bs[b].count > ideal then 1 else 0
    ensures r == bs[b := bs[b].(expandMult := Stretched(bs[b].expandMult, bs[b].count, ideal))]
  {
    nonideal', r := nonideal, bs;
    if bs[b].count > ideal {
      nonideal' := nonideal + 1;
      if bs[b].count > bs[b].expandMult * ideal { r := bs[b := bs[b].(expandMult := bs[b].expandMult + 1)]; }
    }
  }

  // Moves the elements of chain [i], and leaves the later ones as they were.
  method MoveBucket(head: Node?, ghost cs: seq<seq<Node>>, ghost nodes: set<Node>, ghost i: nat,
                    bs: seq<Bucket>, ghost ds: seq<seq<Node>>, ideal: nat, nonideal: nat)
    returns (r: seq<Bucket>, ghost ds': seq<seq<Node>>, nonideal': nat)
    requires Tallied(bs, ideal, nonideal)
    requires Placed(cs, nodes) && i < |cs| && head == First(cs[i]) && BucketsOk(bs, ds, Lower(nodes, |cs|, i))
    requires forall b :: i <= b < |cs| ==> Chained(cs[b])
    modifies nodes`hhPrev, nodes`hhNext
    ensures BucketsOk(r, ds', Lower(nodes, |cs|, i + 1)) && |r| == |bs| && Total(ds') == Total(ds) + |cs[i]|
    ensures forall b :: i < b < |cs| ==> Chained(cs[b])
    ensures Tallied(r, ideal, nonideal')
  {
    hide BucketsOk, Placed, Chained, Lower, Tallied;
    LowerNext(cs, nodes, i);
    r, ds', nonideal' := MoveChain(head, cs[i], bs, ds, Lower(nodes, |cs|, i), ideal, nonideal);
  }

  // Spreads the elements over twice as many buckets.
  method ExpandBuckets(bs: seq<Bucket>, ghost cs: seq<seq<Node>>, ghost nodes: set<Node>, items: nat)
    returns (r: seq<Bucket>, ghost ds: seq<seq<Node>>, nonideal: nat)
    requires BucketsOk(bs, cs, nodes)
    modifies nodes`hhPrev, nodes`hhNext
    ensures BucketsOk(r, ds, nodes) && |r| == 2 * |bs| && Total(ds) == Total(cs)
    ensures Tallied(r, IdealChainMaxlen(items, |r|), nonideal)
  {
    hide *;
    BucketsParts(bs, cs, nodes);
    var n := |bs|;
    EmptyOk(2 * n);
    var ideal := IdealChainMaxlen(items, 2 * n);
    r, ds, nonideal := NoBuckets(2 * n), NoChains(2 * n), 0;
    TotalNone(2 * n);
    NothingTallied(2 * n, ideal);
    LowerAll(nodes, n);
    assert cs[..0] == [];
    for i := 0 to n
      invariant BucketsOk(r, ds, Lower(nodes, n, i)) && |r| == 2 * n && Total(ds) == Total(cs[..i])
      invariant Tallied(r, ideal, nonideal)
      invariant forall b :: i <= b < n ==> Chained(cs[b])
    {
      TotalNext(cs, i);
      r, ds, nonideal := MoveBucket(bs[i].head, cs, nodes, i, r, ds, ideal, nonideal);
    }
    assert cs[..n] == cs;
    LowerAll(nodes, n);
  }

  // The nodes of the first [i] of [n] buckets.
  ghost function Lower(nodes: set<Node>, n: nat, i: nat): set<Node>
    requires n > 0
  {
    set x | x in nodes && ToBucket(x.hashv, n) < i
  }

  lemma LowerAll(nodes: set<Node>, n: nat)
    requires n > 0
    ensures Lower(nodes, n, n) == nodes && Lower(nodes, n, 0) == {}
  {
  }

  lemma LowerNext(cs: seq<seq<Node>>, nodes: set<Node>, i: nat)
    requires Placed(cs, nodes) && i < |cs|
    ensures Lower(nodes, |cs|, i + 1) == Lower(nodes, |cs|, i) + (set x | x in cs[i])
    ensures forall x :: x in cs[i] ==> x !in Lower(nodes, |cs|, i)
    ensures forall b, k :: i < b < |cs| && 0 <= k < |cs[b]| ==> cs[b][k] !in Lower(nodes, |cs|, i) && cs[b][k] !in cs[i]
    ensures forall b, k :: 0 <= b < |cs| && 0 <= k < |cs[b]| ==> cs[b][k] in nodes
    ensures Lower(nodes, |cs|, i) <= nodes
  {
  }

  lemma BucketsParts(bs: seq<Bucket>, cs: seq<seq<Node>>, nodes: set<Node>)
    requires BucketsOk(bs, cs, nodes)
    ensures Placed(cs, nodes) && |bs| == |cs| > 0 && Total([]) == 0
    ensures forall b :: 0 <= b < |cs| ==> bs[b].head == First(cs[b]) && Chained(cs[b])
  {
  }

  lemma InitialPower()
    ensures IsPowerOf2(INITIAL_NUM_BUCKETS)
  {
    assert IsPowerOf2(4) && IsPowerOf2(16);
  }

  lemma EmptyOk(n: nat)
    requires n > 0
    ensures BucketsOk(NoBuckets(n), NoChains(n), {})
  {
  }

  // ----- The list of all elements -----

  // Appends [x] to the list [s], whose last element is [tail].
  method AppendList(x: Node, tail: Node?, ghost s: seq<Node>)
    requires AppLinked(s) && tail == Last(s) && x !in s
    modifies x`prev, x`next, s`next
    ensures AppLinked(s + [x])
  {
    x.next := null;
    x.prev := tail;
    if tail != null { tail.next := x; }
    ghost var r := s + [x];
    forall i {:trigger Succ(r, i)} | 0 <= i < |r| ensures r[i].next == Succ(r, i) {
      if i + 1 < |s| { assert old(s[i].next) == Succ(s, i); }
    }
    forall i {:trigger Pred(r, i)} | 0 <= i < |r| ensures r[i].prev == Pred(r, i) {
      if i < |s| { assert old(s[i].prev) == Pred(s, i); }
    }
  }

  // Takes the element at [p] out of the list.
  method UnlinkList(x: Node, ghost s: seq<Node>, ghost p: nat)
    requires AppLinked(s) && p < |s| && s[p] == x
    modifies s`prev, s`next
    ensures AppLinked(Without(s, p)) && x.next == Succ(s, p) && x.prev == Pred(s, p)
  {
    assert x.next == Succ(s, p) && x.prev == Pred(s, p);
    if x.prev != null { x.prev.next := x.next; }
    if x.next != null { x.next.prev := x.prev; }
    ghost var r := Without(s, p);
    WithoutMembers(s, p);
    forall i {:trigger Succ(r, i)} | 0 <= i < |r| ensures r[i].next == Succ(r, i) {
      var k := if i < p then i else i + 1;
      assert old(s[k].next) == Succ(s, k);
    }
    forall i {:trigger Pred(r, i)} | 0 <= i < |r| ensures r[i].prev == Pred(r, i) {
      var k := if i < p then i else i + 1;
      assert old(s[k].prev) == Pred(s, k);
    }
  }

  // ----- The table -----

  ghost function Members(s: seq<Node>): set<Node> {
    set x | x in s
  }

  lemma DoublePower(n: nat)
    requires IsPowerOf2(n)
    ensures IsPowerOf2(2 * n)
  {
  }

  // Whether one more element with this hash value makes its chain too long.
  predicate Grown(bs: seq<Bucket>, hashv: nat, noexpand: bool) {
    bs != [] && !noexpand && var bucket := bs[ToBucket(hashv, |bs|)]; bucket.count + 1 >= (bucket.expandMult + 1) * 10
  }

  class Hash {
    const hash: int -> nat
    var head: Node?
    var tail: Node?
    var buckets: seq<Bucket>
    var numItems: nat
    var ineffExpands: nat
    var noexpand: bool

    // The elements in the order they were added, and the chains of the buckets.
    ghost var app: seq<Node>
    ghost var chains: seq<seq<Node>>

    // The elements have different keys, and the hash values of their keys.
    ghost predicate Keyed()
      reads `app
    {
      && (forall i :: 0 <= i < |app| ==> app[i].hashv == hash(app[i].key))
      && (forall i, j :: 0 <= i < j < |app| ==> app[i].key != app[j].key)
    }

    ghost predicate Listed()
      reads `head, `tail, `app, app`prev, app`next
    {
      AppLinked(app) && head == First(app) && (app != [] ==> tail == Last(app))
    }

    // There is no table while there is no element.
    ghost predicate Tabled()
      reads `app, `buckets, `chains, `numItems, app`hhPrev, app`hhNext
    {
      app != [] ==>
        BucketsOk(buckets, chains, Members(app)) && numItems == |app| == Total(chains) && IsPowerOf2(|buckets|)
    }

    ghost predicate Valid()
      reads this, app
    {
      Keyed() && Listed() && Tabled()
    }

    constructor (hash: int -> nat)
      ensures Valid() && app == [] && this.hash == hash
    {
      this.hash := hash;
      head, tail, buckets, numItems, ineffExpands, noexpand := null, null, [], 0, 0, false;
      app, chains := [], [];
    }

    // The element with [key], or null if there is none.
    method Find(key: int) returns (out: Node?)
      requires Valid()
      ensures out != null ==> out in app && out.key == key
      ensures out == null ==> forall x :: x in app ==> x.key != key
    {
      if head == null { return null; }
      out := FindInBucket(buckets, chains, Members(app), key, hash(key));
    }

    // Adds an element whose key no other element has.
    method Add(x: Node)
      requires Valid() && x !in app && x.hashv == hash(x.key) && forall y :: y in app ==> y.key != x.key
      modifies this, x, app
      ensures Valid() && app == old(app) + [x]
      ensures old(app) == [] ==> |buckets| == 32
      ensures old(app) != [] ==>
                && |buckets|
                   == (if Grown(old(buckets), x.hashv, old(noexpand)) then 2 * |old(buckets)| else |old(buckets)|)
                && (if |buckets| == |old(buckets)| then noexpand == old(noexpand) && ineffExpands == old(ineffExpands)
                    else Expanded(old(ineffExpands), old(noexpand)))
    {
      hide BucketsOk, AppLinked, Total, Expanded, IsPowerOf2;
      NewTable();
      Append(x);
      AddToTable(x, old(app));
    }

    method Append(x: Node)
      requires Listed() && tail == Last(app) && x !in app
      modifies `head, `tail, `app, x`prev, x`next, app`next
      ensures Listed() && app == old(app) + [x]
    {
      hide AppLinked;
      AppendList(x, tail, app);
      if head == null { head := x; }
      tail := x;
      app := app + [x];
    }

    // Counts [x] and puts it in its bucket. A long chain makes the table grow.
    method AddToTable(x: Node, ghost s: seq<Node>)
      requires BucketsOk(buckets, chains, Members(s)) && numItems == |s| == Total(chains) && app == s + [x] && x !in s
      requires IsPowerOf2(|buckets|)
      modifies `buckets, `chains, `numItems, `ineffExpands, `noexpand, app`hhPrev, app`hhNext
      ensures BucketsOk(buckets, chains, Members(app)) && numItems == |app| == Total(chains) && IsPowerOf2(|buckets|)
      ensures |buckets| == if Grown(old(buckets), x.hashv, old(noexpand)) then 2 * |old(buckets)| else |old(buckets)|
      ensures if |buckets| == |old(buckets)| then noexpand == old(noexpand) && ineffExpands == old(ineffExpands)
              else Expanded(old(ineffExpands), old(noexpand))
    {
      hide BucketsOk, Total, Tallied, Excess, IsPowerOf2, Expanded;
      MembersMore(s, x);
      numItems := numItems + 1;
      DoublePower(|buckets|);
      BucketsSome(buckets, chains, Members(s));
      buckets, chains := AddToBucket(buckets, chains, Members(s), x);
      var b := ToBucket(x.hashv, |buckets|);
      if buckets[b].count >= (buckets[b].expandMult + 1) * BKT_CAPACITY_THRESH && !noexpand {
        Expand();
      }
    }

    // An empty table, if there is none yet.
    method NewTable()
      requires Valid()
      modifies `tail, `buckets, `numItems, `ineffExpands, `noexpand, `chains
      ensures Valid() && tail == Last(app) && BucketsOk(buckets, chains, Members(app))
              && numItems == |app| == Total(chains) && IsPowerOf2(|buckets|)
      ensures if app == [] then buckets == NoBuckets(32) else buckets == old(buckets)
      ensures app != [] ==> noexpand == old(noexpand) && ineffExpands == old(ineffExpands)
    {
      if head == null {
        tail, numItems, ineffExpands, noexpand := null, 0, 0, false;
        buckets, chains := NoBuckets(INITIAL_NUM_BUCKETS), NoChains(INITIAL_NUM_BUCKETS);
        EmptyOk(INITIAL_NUM_BUCKETS);
        TotalNone(INITIAL_NUM_BUCKETS);
        InitialPower();
        assert Members(app) == {};
      }
    }

    // The counts after doubling the buckets. A second expansion in a row that leaves more
    // than half of the elements beyond the ideal lengths is the last.
    ghost predicate Expanded(ineffective: nat, disabled: bool)
      reads `buckets, `numItems, `ineffExpands, `noexpand
    {
      |buckets| > 0 &&
      var ideal := IdealChainMaxlen(numItems, |buckets|);
      && Tallied(buckets, ideal, Excess(buckets, ideal))
      && ineffExpands == (if Excess(buckets, ideal) > numItems / 2 then ineffective + 1 else 0)
      && noexpand == (disabled || ineffExpands > 1)
    }

    method Expand()
      requires BucketsOk(buckets, chains, Members(app)) && numItems == |app| == Total(chains)
      modifies `buckets, `ineffExpands, `noexpand, `chains, app`hhPrev, app`hhNext
      ensures BucketsOk(buckets, chains, Members(app)) && numItems == |app| == Total(chains)
      ensures |buckets| == 2 * |old(buckets)|
      ensures Expanded(old(ineffExpands), old(noexpand))
    {
      hide BucketsOk, Total;
      var nonideal;
      buckets, chains, nonideal := ExpandBuckets(buckets, chains, Members(app), numItems);
      ineffExpands := if nonideal > numItems / 2 then ineffExpands + 1 else 0;
      if ineffExpands > 1 { noexpand := true; }
    }

    // Removes an element of the table.
    method Delete(x: Node)
      requires Valid() && x in app
      modifies this, app
      ensures Valid() && x !in app && exists p :: 0 <= p < |old(app)| && old(app)[p] == x && app == Without(old(app), p)
    {
      hide BucketsOk, AppLinked, Total;
      ghost var p :| 0 <= p < |app| && app[p] == x;
      ghost var s := app;
      MembersLess(s, p);
      if x.prev == null && x.next == null {
        OnlyOne(s, p);
        head := null;
        app := Without(s, p);
        LinkedNone();
      } else {
        MoreThanOne(s, p);
        Unlink(x, p);
        DeleteFromTable(x, s);
      }
    }

    method Unlink(x: Node, ghost p: nat)
      requires Listed() && |app| > 1 && p < |app| && app[p] == x && x.prev == Pred(app, p)
      modifies `head, `tail, `app, app`prev, app`next
      ensures Listed() && app == Without(old(app), p)
    {
      hide AppLinked;
      ghost var s := app;
      DistinctList();
      EndsWithout(s, p);
      if x == tail { tail := x.prev; }
      UnlinkList(x, s, p);
      if x.prev == null { head := x.next; }
      app := Without(s, p);
    }

    lemma DistinctList()
      requires Listed()
      ensures Distinct(app)
    {
    }

    // Sorts the list of all elements. The buckets stay as they are.
    method Sort(leq: (int, int) -> bool)
      requires Valid() && Preorder(leq)
      modifies `head, `tail, `app, app`prev, app`next
      ensures Valid() && multiset(app) == multiset(old(app))
      ensures Sorted(KeysOf(app), leq) && StablyPermutes(KeysOf(old(app)), KeysOf(app), leq)
      // No key comes before a smaller one, and of two equivalent keys the same is first as
      // before.
      ensures InOrder(old(app), app, leq)
    {
      hide AppLinked, Sorted, Preorder, StablyPermutes, Keyed, Tabled, KeysOf, InOrder;
      if head == null {
        StableSame(KeysOf(app), leq);
        NothingSorted(leq);
        NothingOrdered(leq);
        return;
      }
      ghost var before := app;
      Relist(leq);
      KeyedKeys();
      SortedOrder(before, app, leq);
    }

    // The list gets its new order.
    method Relist(leq: (int, int) -> bool)
      requires Valid() && Preorder(leq) && head != null
      modifies `head, `tail, `app, app`prev, app`next
      ensures Valid() && multiset(app) == multiset(old(app)) && Distinct(KeysOf(old(app)))
      ensures Sorted(KeysOf(app), leq) && StablyPermutes(KeysOf(old(app)), KeysOf(app), leq)
    {
      hide AppLinked, Sorted, Preorder, StablyPermutes, BucketsOk, Keyed, KeysOf, Distinct, Total, IsPowerOf2;
      KeyedKeys();
      ghost var s;
      head, tail, s := SortList(head, leq, app);
      SameLength(s, app);
      SameMembers(s, app);
      KeyedStill(s);
      app := s;
      KeyedAgain();
    }

    lemma KeyedKeys()
      requires Keyed()
      ensures Distinct(KeysOf(app))
    {
    }

    lemma KeyedAgain()
      requires forall i :: 0 <= i < |app| ==> app[i].hashv == hash(app[i].key)
      requires forall i, j :: 0 <= i < j < |app| ==> app[i].key != app[j].key
      ensures Keyed()
    {
    }

    // Masking finds the remainder of every hash value.
    lemma Masked(hashv: nat)
      requires Valid() && app != []
      ensures ToBucket(hashv, |buckets|) == hashv % |buckets|
    {
      MaskRemainder(hashv, |buckets|);
    }

    // Every pointer from the table leads to one of [nodes], or nowhere.
    ghost predicate Closed(nodes: set<Node>)
      reads this, nodes
    {
      head != null ==>
        && head in nodes
        && (forall b :: 0 <= b < |buckets| && buckets[b].head != null ==> buckets[b].head in nodes)
        && (forall x :: x in nodes && x.next != null ==> x.next in nodes)
        && (forall x :: x in nodes && x.hhNext != null ==> x.hhNext in nodes)
    }

    // The elements are linked as [s], the chains as [cs], and every count is right.
    ghost predicate Sound(s: seq<Node>, cs: seq<seq<Node>>)
      reads this, s, Flat(cs)
    {
      AppLinked(s) && head == First(s) && ChainsOk(buckets, cs) && numItems == |s| == Total(cs)
    }

    // Checks every count and every back link, as the debugging check of uthash does.
    // Whatever the pointers are, it ends, and passes exactly the sound tables.
    method Fsck(ghost nodes: set<Node>) returns (ok: bool, ghost s: seq<Node>, ghost cs: seq<seq<Node>>)
      requires Closed(nodes)
      ensures head == null ==> ok
      ensures head != null && ok ==> Sound(s, cs) && forall r, ds :: Sound(r, ds) ==> r == s && ds == cs
      ensures !ok ==> forall r, ds :: !Sound(r, ds)
    {
      hide AppLinked, ChainsOk, Total, WrongChain, ListFollowed;
      s, cs := [], [];
      if head == null { return true, s, cs; }
      ghost var last;
      var linked, count, ordered, items;
      linked, count, cs, last := CheckBuckets(buckets, nodes);
      if !linked || count != numItems {
        forall r, ds ensures !Sound(r, ds) {
          if linked { ChainsSame(buckets, cs, ds); } else { ChainsFail(buckets, cs, last, ds); }
        }
        return false, s, cs;
      }
      ordered, items, s, last := CheckList(head, nodes);
      ok := ordered && items == numItems;
      forall r, ds ensures Sound(r, ds) ==> ok && r == s && ds == cs {
        ChainsSame(buckets, cs, ds);
        ListSame(head, s, last, r);
      }
    }

    // A valid table passes. What the check leaves open for a table that passes is
    // whether the keys are right, which element is the last, and which bucket each is in.
    lemma SoundValid()
      requires app != []
      ensures Valid() <==>
              Sound(app, chains) && Keyed() && tail == Last(app) && IsPowerOf2(|buckets|)
              && Placed(chains, Members(app))
    {
      hide AppLinked, Chained, Total, Keyed, IsPowerOf2, Placed;
    }

    lemma ValidClosed()
      requires Valid()
      ensures Closed(Members(app))
    {
      hide Total, Keyed, IsPowerOf2;
      if head != null {
        forall b | 0 <= b < |buckets| && buckets[b].head != null ensures buckets[b].head in app {
          assert buckets[b].head == chains[b][0];
        }
        forall x | x in app && x.next != null ensures x.next in app {
          var i :| 0 <= i < |app| && app[i] == x;
          assert x.next == Succ(app, i);
        }
        forall x | x in app && x.hhNext != null ensures x.hhNext in app {
          var c := chains[ToBucket(x.hashv, |chains|)];
          var i :| 0 <= i < |c| && c[i] == x;
          assert x.hhNext == Succ(c, i);
        }
      }
    }

    // Runs adds, deletes and finds: the elements found are those whose keys have been
    // added and not deleted since.
    method Run(ops: seq<TableOp>) returns (found: seq<bool>)
      requires Valid() && LegalOps(KeysOf(app), ops)
      modifies this, app
      ensures Valid() && KeysOf(app) == FinalKeys(old(KeysOf(app)), ops) && found == FoundBy(old(KeysOf(app)), ops)
      ensures fresh(Members(app) - Members(old(app)))
    {
      hide Keyed, Listed, Tabled, KeysOf;
      found := [];
      ghost var start := KeysOf(app);
      var i := 0;
      while i < |ops|
        invariant i <= |ops| && Valid() && LegalOps(KeysOf(app), ops[i..]) && fresh(Members(app) - Members(old(app)))
        invariant FinalKeys(start, ops) == FinalKeys(KeysOf(app), ops[i..])
        invariant FoundBy(start, ops) == found + FoundBy(KeysOf(app), ops[i..])
      {
        assert ops[i..][1..] == ops[i + 1..] && ops[i..][0] == ops[i];
        var f := Execute(ops[i]);
        found := found + f;
        i := i + 1;
      }
    }

    method Execute(op: TableOp) returns (found: seq<bool>)
      requires Valid() && LegalOp(KeysOf(app), op)
      modifies this, app
      ensures Valid() && KeysOf(app) == AfterOp(old(KeysOf(app)), op) && found == FoundOne(old(KeysOf(app)), op)
      ensures fresh(Members(app) - Members(old(app)))
    {
      hide Valid, KeysOf;
      match op
      case AddKey(key) =>
        found := [];
        AddNew(key);
      case DeleteKey(key) =>
        found := [];
        DeleteFound(key);
      case FindKey(key) =>
        var x := Find(key);
        HasKey(app, key);
        found := [x != null];
    }

    method AddNew(key: int)
      requires Valid() && key !in KeysOf(app)
      modifies this, app
      ensures Valid() && KeysOf(app) == old(KeysOf(app)) + [key] && fresh(Members(app) - Members(old(app)))
    {
      hide Valid, KeysOf;
      ghost var s := app;
      NoKey(s, key);
      var x := new Node(key, hash(key));
      Add(x);
      KeysMore(s, x);
    }

    method DeleteFound(key: int)
      requires Valid() && key in KeysOf(app)
      modifies this, app
      ensures Valid() && KeysOf(app) == RemoveKey(old(KeysOf(app)), key) && fresh(Members(app) - Members(old(app)))
    {
      hide Listed, Tabled, KeysOf, RemoveKey;
      ghost var s := app;
      var x := Find(key);
      HasKey(s, key);
      Delete(x);
      ghost var p :| 0 <= p < |s| && s[p] == x && app == Without(s, p);
      KeysLess(s, p);
    }

    // Permuting the elements keeps their keys different.
    lemma KeyedStill(s: seq<Node>)
      requires Keyed() && AppLinked(s) && Members(s) == Members(app)
      ensures forall i :: 0 <= i < |s| ==> s[i].hashv == hash(s[i].key)
      ensures forall i, j :: 0 <= i < j < |s| ==> s[i].key != s[j].key
    {
      forall i | 0 <= i < |s| ensures s[i].hashv == hash(s[i].key) {
        assert s[i] in Members(s);
      }
      forall i, j | 0 <= i < j < |s| ensures s[i].key != s[j].key {
        assert s[i] in Members(s) && s[j] in Members(s) && s[i] != s[j];
      }
    }

    method DeleteFromTable(x: Node, ghost s: seq<Node>)
      requires BucketsOk(buckets, chains, Members(s)) && numItems == |s| == Total(chains) && |app| == |s| - 1
      requires x in s && Members(app) == Members(s) - {x} && IsPowerOf2(|buckets|)
      modifies `buckets, `chains, `numItems, s`hhPrev, s`hhNext
      ensures BucketsOk(buckets, chains, Members(app)) && numItems == |app| == Total(chains) && IsPowerOf2(|buckets|)
    {
      hide BucketsOk, Total;
      buckets, chains := DeleteInBucket(buckets, chains, Members(s), x);
      numItems := numItems - 1;
    }
  }

  lemma BucketsSome(bs: seq<Bucket>, cs: seq<seq<Node>>, nodes: set<Node>)
    requires BucketsOk(bs, cs, nodes)
    ensures |bs| > 0
  {
  }

  lemma MembersMore(s: seq<Node>, x: Node)
    ensures Members(s + [x]) == Members(s) + {x} && forall y :: y in s <==> y in Members(s)
  {
  }

  lemma MembersLess(s: seq<Node>, p: nat)
    requires p < |s| && AppLinked(s)
    ensures Members(Without(s, p)) == Members(s) - {s[p]} && s[p] !in Without(s, p)
  {
    WithoutMembers(s, p);
  }

  lemma LinkedNone()
    ensures AppLinked([])
  {
  }

  // An element with no neighbours is the only one.
  lemma OnlyOne(s: seq<Node>, p: nat)
    requires AppLinked(s) && p < |s| && s[p].prev == null && s[p].next == null
    ensures |s| == 1
  {
    assert s[p].prev == Pred(s, p) && s[p].next == Succ(s, p);
  }

  lemma MoreThanOne(s: seq<Node>, p: nat)
    requires AppLinked(s) && p < |s| && (s[p].prev != null || s[p].next != null)
    ensures |s| > 1 && s[p].prev == Pred(s, p) && s[p].next == Succ(s, p)
  {
    assert s[p].prev == Pred(s, p) && s[p].next == Succ(s, p);
  }

  lemma EndsWithout(s: seq<Node>, p: nat)
    requires p < |s| && |s| > 1 && Distinct(s)
    ensures First(Without(s, p)) == if p == 0 then Succ(s, p) else First(s)
    ensures Last(Without(s, p)) == if p == |s| - 1 then Pred(s, p) else Last(s)
  {
  }

  // ----- Runs and checks -----

  datatype TableOp = AddKey(key: int) | DeleteKey(key: int) | FindKey(key: int)

  // A table, as the keys of its elements in the order they were added.
  predicate LegalOp(keys: seq<int>, op: TableOp) {
    match op
    case AddKey(key) => key !in keys
    case DeleteKey(key) => key in keys
    case FindKey(_) => true
  }

  function RemoveKey(keys: seq<int>, key: int): seq<int> {
    if keys == [] then [] else if keys[0] == key then keys[1..] else [keys[0]] + RemoveKey(keys[1..], key)
  }

  function AfterOp(keys: seq<int>, op: TableOp): seq<int> {
    match op
    case AddKey(key) => keys + [key]
    case DeleteKey(key) => RemoveKey(keys, key)
    case FindKey(_) => keys
  }

  function FoundOne(keys: seq<int>, op: TableOp): seq<bool> {
    match op
    case FindKey(key) => [key in keys]
    case _ => []
  }

  predicate LegalOps(keys: seq<int>, ops: seq<TableOp>)
    decreases |ops|
  {
    ops == [] || (LegalOp(keys, ops[0]) && LegalOps(AfterOp(keys, ops[0]), ops[1..]))
  }

  function FinalKeys(keys: seq<int>, ops: seq<TableOp>): seq<int>
    decreases |ops|
  {
    if ops == [] then keys else FinalKeys(AfterOp(keys, ops[0]), ops[1..])
  }

  function FoundBy(keys: seq<int>, ops: seq<TableOp>): seq<bool>
    decreases |ops|
  {
    if ops == [] then [] else FoundOne(keys, ops[0]) + FoundBy(AfterOp(keys, ops[0]), ops[1..])
  }

  // After [ops], key [k] is in a table that had [keys] at first: it was added after it was
  // last deleted, or was there and never deleted.
  predicate Present(keys: seq<int>, ops: seq<TableOp>, k: int) {
    (exists i :: 0 <= i < |ops| && ops[i] == AddKey(k) && forall j :: i < j < |ops| ==> ops[j] != DeleteKey(k))
    || (k in keys && forall j :: 0 <= j < |ops| ==> ops[j] != DeleteKey(k))
  }

  predicate NoRepeats(keys: seq<int>) {
    forall i, j :: 0 <= i < j < |keys| ==> keys[i] != keys[j]
  }

  lemma OpNoRepeats(keys: seq<int>, op: TableOp)
    requires NoRepeats(keys) && LegalOp(keys, op)
    ensures NoRepeats(AfterOp(keys, op))
  {
    if op.DeleteKey? { RemoveMembers(keys, op.key); }
  }

  lemma PresentNext(keys: seq<int>, op: TableOp, ops: seq<TableOp>, k: int)
    requires NoRepeats(keys)
    ensures Present(keys, [op] + ops, k) <==> Present(AfterOp(keys, op), ops, k)
  {
    RemoveMembers(keys, if op.DeleteKey? then op.key else 0);
    if Present(keys, [op] + ops, k) {
      var all := [op] + ops;
      if i :| 0 <= i < |all| && all[i] == AddKey(k) && forall j :: i < j < |all| ==> all[j] != DeleteKey(k) {
        assert forall j :: 0 <= j < |ops| ==> ops[j] == all[j + 1];
        if i > 0 { assert ops[i - 1] == AddKey(k); }
      } else {
        assert forall j :: 0 <= j < |ops| ==> ops[j] == all[j + 1];
        assert all[0] != DeleteKey(k);
      }
    }
    if Present(AfterOp(keys, op), ops, k) {
      var all := [op] + ops;
      assert forall j :: 0 < j < |all| ==> all[j] == ops[j - 1];
      if i :| 0 <= i < |ops| && ops[i] == AddKey(k) && forall j :: i < j < |ops| ==> ops[j] != DeleteKey(k) {
        assert all[i + 1] == AddKey(k);
      } else if op == AddKey(k) {
        assert all[0] == AddKey(k);
      }
    }
  }

  lemma {:induction false} RemoveMembers(keys: seq<int>, k: int)
    requires NoRepeats(keys)
    ensures var r := RemoveKey(keys, k);
            && (forall x :: x in r <==> x in keys && x != k)
            && NoRepeats(r)
  {
    if keys != [] {
      var rest := keys[1..];
      RemoveMembers(rest, k);
      assert keys[0] !in rest;
      assert forall x :: x in keys <==> x == keys[0] || x in rest;
    }
  }

  // The keys left are those present, each once.
  lemma {:induction false} FinalPresent(keys: seq<int>, ops: seq<TableOp>, k: int)
    requires LegalOps(keys, ops) && NoRepeats(keys)
    ensures k in FinalKeys(keys, ops) <==> Present(keys, ops, k)
    ensures NoRepeats(FinalKeys(keys, ops))
    decreases |ops|
  {
    if ops != [] {
      hide Present, NoRepeats;
      OpNoRepeats(keys, ops[0]);
      FinalPresent(AfterOp(keys, ops[0]), ops[1..], k);
      assert [ops[0]] + ops[1..] == ops;
      PresentNext(keys, ops[0], ops[1..], k);
    }
  }

  // A key that is added goes to the end, and one that is deleted leaves the others in
  // their order.
  lemma {:induction false} FinalNext(keys: seq<int>, ops: seq<TableOp>, op: TableOp)
    requires LegalOps(keys, ops)
    ensures var was, now := FinalKeys(keys, ops), FinalKeys(keys, ops + [op]);
            && (op.AddKey? ==> now == was + [op.key])
            && (op.FindKey? ==> now == was)
            && (op.DeleteKey? && op.key in was ==>
                  exists p :: 0 <= p < |was| && was[p] == op.key && now == was[..p] + was[p + 1..])
    decreases |ops|
  {
    if ops == [] {
      assert (ops + [op])[1..] == [];
      if op.DeleteKey? && op.key in keys { var _ := RemoveAt(keys, op.key); }
    } else {
      assert (ops + [op])[1..] == ops[1..] + [op] && (ops + [op])[0] == ops[0];
      FinalNext(AfterOp(keys, ops[0]), ops[1..], op);
    }
  }

  lemma {:induction false} RemoveAt(keys: seq<int>, k: int) returns (p: nat)
    requires k in keys
    ensures p < |keys| && keys[p] == k && RemoveKey(keys, k) == keys[..p] + keys[p + 1..]
  {
    if keys[0] == k {
      p := 0;
    } else {
      var rest := keys[1..];
      var q := RemoveAt(rest, k);
      p := q + 1;
      assert keys[..p] == [keys[0]] + rest[..q] && keys[p + 1..] == rest[q + 1..];
    }
  }

  lemma FoundFirst(keys: seq<int>, op: TableOp, ops: seq<TableOp>)
    ensures FoundBy(keys, [op] + ops) == FoundOne(keys, op) + FoundBy(AfterOp(keys, op), ops)
  {
    hide AfterOp, FoundOne;
    assert ([op] + ops)[1..] == ops;
  }

  // A search finds a key exactly when it is present, and nothing else answers.
  function FoundLast(keys: seq<int>, ops: seq<TableOp>, op: TableOp): seq<bool> {
    if op.FindKey? then [Present(keys, ops, op.key)] else []
  }

  lemma {:induction false} FoundNext(keys: seq<int>, ops: seq<TableOp>, op: TableOp)
    requires LegalOps(keys, ops) && NoRepeats(keys)
    ensures FoundBy(keys, ops + [op]) == FoundBy(keys, ops) + FoundLast(keys, ops, op)
    decreases |ops|
  {
    hide NoRepeats, FoundBy, FoundOne, FoundLast, LegalOp, AfterOp;
    if ops == [] {
      FoundOnly(keys, op);
      assert ops + [op] == [op];
    } else {
      var first, rest := ops[0], ops[1..];
      OpNoRepeats(keys, first);
      FoundNext(AfterOp(keys, first), rest, op);
      FoundFirst(keys, first, rest);
      FoundFirst(keys, first, rest + [op]);
      FoundLastNext(keys, first, rest, op);
      assert ops == [first] + rest && ops + [op] == [first] + (rest + [op]);
    }
  }

  lemma FoundOnly(keys: seq<int>, op: TableOp)
    ensures FoundBy(keys, [op]) == FoundBy(keys, []) + FoundLast(keys, [], op)
  {
    FoundFirst(keys, op, []);
    assert [op] == [op] + [];
  }

  lemma FoundLastNext(keys: seq<int>, first: TableOp, rest: seq<TableOp>, op: TableOp)
    requires NoRepeats(keys)
    ensures FoundLast(keys, [first] + rest, op) == FoundLast(AfterOp(keys, first), rest, op)
  {
    hide Present, NoRepeats, AfterOp;
    if op.FindKey? { PresentNext(keys, first, rest, op.key); }
  }

  lemma NoKey(s: seq<Node>, key: int)
    requires key !in KeysOf(s)
    ensures forall x :: x in s ==> x.key != key
  {
    forall x | x in s ensures x.key != key {
      var i :| 0 <= i < |s| && s[i] == x;
      assert KeysOf(s)[i] == x.key;
    }
  }

  lemma HasKey(s: seq<Node>, key: int)
    ensures key in KeysOf(s) <==> exists x :: x in s && x.key == key
  {
    if key in KeysOf(s) {
      var i :| 0 <= i < |KeysOf(s)| && KeysOf(s)[i] == key;
      assert s[i] in s;
    } else {
      NoKey(s, key);
    }
  }

  lemma KeysMore(s: seq<Node>, x: Node)
    ensures KeysOf(s + [x]) == KeysOf(s) + [x.key]
  {
    hide Map;
  }

  lemma {:induction false} KeysLess(s: seq<Node>, p: nat)
    requires p < |s| && forall i, j :: 0 <= i < j < |s| ==> s[i].key != s[j].key
    ensures KeysOf(Without(s, p)) == RemoveKey(KeysOf(s), s[p].key)
    decreases p
  {
    if p == 0 {
      assert Without(s, 0) == s[1..];
    } else {
      assert Without(s, p) == [s[0]] + Without(s[1..], p - 1);
      KeysLess(s[1..], p - 1);
      assert KeysOf(s[1..]) == KeysOf(s)[1..];
    }
  }

  // ----- Checking a table -----

  ghost function Flat(cs: seq<seq<Node>>): set<Node> {
    set b, i | 0 <= b < |cs| && 0 <= i < |cs[b]| :: cs[b][i]
  }

  // The buckets [bs] start the chains [cs], and count them.
  ghost predicate ChainsOk(bs: seq<Bucket>, cs: seq<seq<Node>>)
    reads Flat(cs)`hhPrev, Flat(cs)`hhNext
  {
    && |bs| == |cs|
    && (forall b :: 0 <= b < |bs| ==> bs[b].head == First(cs[b]) && bs[b].count == |cs[b]|)
    && (forall b :: 0 <= b < |cs| ==> Chained(cs[b]))
  }

  // Walks every chain, up to the first wrong back link or length. Adds up the lengths.
  method CheckBuckets(bs: seq<Bucket>, ghost nodes: set<Node>)
    returns (ok: bool, count: nat, ghost cs: seq<seq<Node>>, ghost last: Node?)
    requires forall b :: 0 <= b < |bs| && bs[b].head != null ==> bs[b].head in nodes
    requires forall x :: x in nodes && x.hhNext != null ==> x.hhNext in nodes
    ensures ok ==> ChainsOk(bs, cs) && count == Total(cs) && Flat(cs) <= nodes
    ensures !ok ==> 0 < |cs| <= |bs| && WrongChain(bs[|cs| - 1], cs[|cs| - 1], last)
  {
    hide Chained, Total, Followed;
    ok, count, cs, last := true, 0, [], null;
    TotalNothing();
    for i := 0 to |bs|
      invariant |cs| == i && count == Total(cs)
      invariant forall b :: 0 <= b < i ==> bs[b].head == First(cs[b]) && bs[b].count == |cs[b]|
      invariant forall b :: 0 <= b < i ==> Chained(cs[b])
      invariant forall b, k :: 0 <= b < i && 0 <= k < |cs[b]| ==> cs[b][k] in nodes
    {
      var linked, n;
      ghost var s;
      linked, n, s, last := CheckChain(bs[i].head, nodes);
      TotalMore(cs, s);
      count := count + n;
      cs := cs + [s];
      if !linked || bs[i].count != n { return false, count, cs, last; }
    }
  }

  // [s] are the elements met along a chain from [head] with right back links, and
  // [thh] comes next.
  ghost predicate Followed(head: Node?, s: seq<Node>, thh: Node?)
    reads s`hhPrev, s`hhNext
  {
    && Distinct(s) && (s != [] ==> s[0] == head) && thh == (if s == [] then head else s[|s| - 1].hhNext)
    && (forall i {:trigger Succ(s, i)} :: 0 <= i < |s| - 1 ==> s[i].hhNext == Succ(s, i))
    && (forall i {:trigger Pred(s, i)} :: 0 <= i < |s| ==> s[i].hhPrev == Pred(s, i))
  }

  // The element after those has a wrong back link, or there is none and their number
  // is wrong.
  ghost predicate WrongChain(b: Bucket, s: seq<Node>, thh: Node?)
    reads s`hhPrev, s`hhNext, (if thh == null then {} else {thh})`hhPrev
  {
    Followed(b.head, s, thh) && if thh == null then b.count != |s| else thh.hhPrev != Last(s)
  }

  // Every chain from [head] begins like that.
  lemma {:induction false} ChainFrom(head: Node?, s: seq<Node>, thh: Node?, r: seq<Node>)
    requires Followed(head, s, thh) && Chained(r) && First(r) == head
    ensures s <= r && thh == At(r, |s|) && (thh != null ==> thh.hhPrev == Last(s))
  {
    if s != [] {
      var n := |s| - 1;
      forall i {:trigger Succ(s[..n], i)} | 0 <= i < n - 1 ensures s[i].hhNext == Succ(s[..n], i) {
        assert s[i].hhNext == Succ(s, i);
      }
      forall i {:trigger Pred(s[..n], i)} | 0 <= i < n ensures s[i].hhPrev == Pred(s[..n], i) {
        assert s[i].hhPrev == Pred(s, i);
      }
      assert n > 0 ==> s[n - 1].hhNext == Succ(s, n - 1);
      ChainFrom(head, s[..n], s[n], r);
      assert r[n].hhNext == Succ(r, n) && s == s[..n] + [s[n]];
    }
    assert |s| < |r| ==> r[|s|].hhPrev == Pred(r, |s|);
  }

  lemma TotalNothing()
    ensures Total([]) == 0
  {
  }

  lemma TotalMore(cs: seq<seq<Node>>, s: seq<Node>)
    ensures Total(cs + [s]) == Total(cs) + |s|
  {
    var ds := cs + [s];
    TotalNext(ds, |cs|);
    assert ds[..|cs| + 1] == ds && ds[..|cs|] == cs;
  }

  lemma ChainsFail(bs: seq<Bucket>, cs: seq<seq<Node>>, last: Node?, ds: seq<seq<Node>>)
    requires 0 < |cs| <= |bs| && WrongChain(bs[|cs| - 1], cs[|cs| - 1], last)
    ensures !ChainsOk(bs, ds)
  {
    hide Chained, Followed;
    var i := |cs| - 1;
    if ChainsOk(bs, ds) { ChainFrom(bs[i].head, cs[i], last, ds[i]); }
  }

  lemma ChainsSame(bs: seq<Bucket>, cs: seq<seq<Node>>, ds: seq<seq<Node>>)
    requires ChainsOk(bs, cs)
    ensures ChainsOk(bs, ds) ==> ds == cs
  {
    if ChainsOk(bs, ds) {
      forall b | 0 <= b < |bs| ensures ds[b] == cs[b] {
        assert cs[b] != [] ==> cs[b][|cs[b]| - 1].hhNext == Succ(cs[b], |cs[b]| - 1);
        ChainFrom(bs[b].head, cs[b], null, ds[b]);
      }
    }
  }

  lemma ListSame(head: Node?, s: seq<Node>, last: Node?, r: seq<Node>)
    requires ListFollowed(head, s, last)
    ensures AppLinked(r) && First(r) == head ==> s <= r && last == At(r, |s|) && (last != null ==> last.prev == Last(s))
  {
    hide ListFollowed, AppLinked;
    if AppLinked(r) && First(r) == head { ListFrom(head, s, last, r); }
  }

  // Follows a chain, up to the first wrong back link. One that comes back to an
  // element already met has one there.
  method CheckChain(head: Node?, ghost nodes: set<Node>)
    returns (ok: bool, count: nat, ghost s: seq<Node>, ghost last: Node?)
    requires (head != null ==> head in nodes) && forall x :: x in nodes && x.hhNext != null ==> x.hhNext in nodes
    ensures Followed(head, s, last) && count == |s| && (ok ==> Chained(s) && First(s) == head && last == null)
    ensures (!ok ==> last != null && last.hhPrev != Last(s)) && forall x :: x in s ==> x in nodes
  {
    var thh, prev: Node? := head, null;
    count, s := 0, [];
    while thh != null
      invariant Followed(head, s, thh) && count == |s| && prev == Last(s)
      invariant (forall x :: x in s ==> x in nodes) && (thh != null ==> thh in nodes)
      decreases |nodes| - |s|
    {
      if prev != thh.hhPrev { return false, count, s, thh; }
      FollowedMore(head, s, thh);
      DistinctWithin(s + [thh], nodes);
      count, s := count + 1, s + [thh];
      prev, thh := thh, thh.hhNext;
    }
    ok, last := true, null;
  }

  lemma FollowedMore(head: Node?, s: seq<Node>, thh: Node)
    requires Followed(head, s, thh) && thh.hhPrev == Last(s)
    ensures Followed(head, s + [thh], thh.hhNext)
  {
    var r := s + [thh];
    forall k | 0 <= k < |s| ensures s[k].hhPrev != thh.hhPrev {
      assert s[k].hhPrev == Pred(s, k);
    }
    forall i {:trigger Succ(r, i)} | 0 <= i < |r| - 1 ensures r[i].hhNext == Succ(r, i) {
      assert i < |s| - 1 ==> s[i].hhNext == Succ(s, i);
    }
    forall i {:trigger Pred(r, i)} | 0 <= i < |r| ensures r[i].hhPrev == Pred(r, i) {
      assert i < |s| ==> s[i].hhPrev == Pred(s, i);
    }
  }

  // The same along the list of all elements.
  ghost predicate ListFollowed(head: Node?, s: seq<Node>, thh: Node?)
    reads s`prev, s`next
  {
    && Distinct(s) && (s != [] ==> s[0] == head) && thh == (if s == [] then head else s[|s| - 1].next)
    && (forall i {:trigger Succ(s, i)} :: 0 <= i < |s| - 1 ==> s[i].next == Succ(s, i))
    && (forall i {:trigger Pred(s, i)} :: 0 <= i < |s| ==> s[i].prev == Pred(s, i))
  }

  lemma {:induction false} ListFrom(head: Node?, s: seq<Node>, thh: Node?, r: seq<Node>)
    requires ListFollowed(head, s, thh) && AppLinked(r) && First(r) == head
    ensures s <= r && thh == At(r, |s|) && (thh != null ==> thh.prev == Last(s))
  {
    if s != [] {
      var n := |s| - 1;
      forall i {:trigger Succ(s[..n], i)} | 0 <= i < n - 1 ensures s[i].next == Succ(s[..n], i) {
        assert s[i].next == Succ(s, i);
      }
      forall i {:trigger Pred(s[..n], i)} | 0 <= i < n ensures s[i].prev == Pred(s[..n], i) {
        assert s[i].prev == Pred(s, i);
      }
      assert n > 0 ==> s[n - 1].next == Succ(s, n - 1);
      ListFrom(head, s[..n], s[n], r);
      assert r[n].next == Succ(r, n) && s == s[..n] + [s[n]];
    }
    assert |s| < |r| ==> r[|s|].prev == Pred(r, |s|);
  }

  method CheckList(head: Node?, ghost nodes: set<Node>)
    returns (ok: bool, count: nat, ghost s: seq<Node>, ghost last: Node?)
    requires (head != null ==> head in nodes) && forall x :: x in nodes && x.next != null ==> x.next in nodes
    ensures ListFollowed(head, s, last) && count == |s| && (ok ==> AppLinked(s) && First(s) == head && last == null)
    ensures !ok ==> last != null && last.prev != Last(s)
  {
    var thh, prev: Node? := head, null;
    count, s := 0, [];
    while thh != null
      invariant ListFollowed(head, s, thh) && count == |s| && prev == Last(s)
      invariant (forall x :: x in s ==> x in nodes) && (thh != null ==> thh in nodes)
      decreases |nodes| - |s|
    {
      if prev != thh.prev { return false, count, s, thh; }
      ListFollowedMore(head, s, thh);
      DistinctWithin(s + [thh], nodes);
      count, s := count + 1, s + [thh];
      prev, thh := thh, thh.next;
    }
    ok, last := true, null;
  }

  lemma ListFollowedMore(head: Node?, s: seq<Node>, thh: Node)
    requires ListFollowed(head, s, thh) && thh.prev == Last(s)
    ensures ListFollowed(head, s + [thh], thh.next)
  {
    var r := s + [thh];
    forall k | 0 <= k < |s| ensures s[k].prev != thh.prev {
      assert s[k].prev == Pred(s, k);
    }
    forall i {:trigger Succ(r, i)} | 0 <= i < |r| - 1 ensures r[i].next == Succ(r, i) {
      assert i < |s| - 1 ==> s[i].next == Succ(s, i);
    }
    forall i {:trigger Pred(r, i)} | 0 <= i < |r| ensures r[i].prev == Pred(r, i) {
      assert i < |s| ==> s[i].prev == Pred(s, i);
    }
  }

  lemma {:induction false} DistinctWithin(s: seq<Node>, nodes: set<Node>)
    requires Distinct(s) && forall x :: x in s ==> x in nodes
    ensures |s| <= |nodes|
  {
    if s != [] {
      var last := s[|s| - 1];
      DistinctWithin(s[..|s| - 1], nodes - {last});
    }
  }

  // ----- Sorting the list of all elements -----

  function At(s: seq<Node>, i: nat): Node? {
    if i < |s| then s[i] else null
  }

  // [out] is linked, but for the next pointer of its last element.
  ghost predicate OutLinked(out: seq<Node>)
    reads out`prev, out`next
  {
    && Distinct(out)
    && (forall i {:trigger Succ(out, i)} :: 0 <= i < |out| - 1 ==> out[i].next == Succ(out, i))
    && (forall i {:trigger Pred(out, i)} :: 0 <= i < |out| ==> out[i].prev == Pred(out, i))
  }

  // The elements of [s] from [i] up to [j] are not in [out], and their next pointers
  // are those of [s].
  ghost predicate Waiting(s: seq<Node>, i: nat, j: nat, out: seq<Node>)
    reads s`next
  {
    && (forall k :: i <= k < j && k < |s| ==> s[k] !in out)
    && (forall k {:trigger Succ(s, k)} :: i <= k < j && k < |s| ==> s[k].next == Succ(s, k))
  }

  // Steps over a run of at most [insize] elements.
  method SplitRun(p: Node, insize: nat, ghost s: seq<Node>, ghost i: nat, ghost out: seq<Node>)
    returns (q: Node?, psize: nat)
    requires i < |s| && p == s[i] && insize > 0 && Waiting(s, i, |s|, out)
    ensures psize == Min(insize, |s| - i) && q == At(s, i + psize)
  {
    q, psize := p, 0;
    while psize < insize
      invariant psize <= insize && i + psize < |s| && q == s[i + psize]
    {
      psize := psize + 1;
      assert s[i + psize - 1].next == Succ(s, i + psize - 1);
      q := q.next;
      if q == null { return; }
    }
  }

  // Appends [e] to the sorted list that starts at [list] and ends at [tail].
  method AppendSorted(e: Node, list: Node?, tail: Node?, ghost out: seq<Node>) returns (list': Node?)
    requires OutLinked(out) && list == First(out) && tail == Last(out) && e !in out
    modifies out`next, e`prev
    ensures OutLinked(out + [e]) && list' == First(out + [e])
    ensures forall x :: x in out && x != tail ==> x.next == old(x.next)
  {
    list' := list;
    if tail != null {
      tail.next := e;
    } else {
      list' := e;
    }
    e.prev := tail;
    ghost var r := out + [e];
    forall i {:trigger Succ(r, i)} | 0 <= i < |r| - 1 ensures r[i].next == Succ(r, i) {
      if i < |out| - 1 { assert old(out[i].next) == Succ(out, i); }
    }
    forall i {:trigger Pred(r, i)} | 0 <= i < |r| ensures r[i].prev == Pred(r, i) {
      if i < |out| { assert old(out[i].prev) == Pred(out, i); }
    }
  }

  lemma RunRest(s: seq<Node>, a: nat, m: nat)
    requires a <= m <= |s|
    ensures a < m ==> s[a..m] != [] && s[a..m][0] == s[a] && s[a..m][1..] == s[a + 1..m]
  {
  }

  lemma Regroup(a: seq<Node>, b: seq<Node>, c: seq<Node>)
    ensures a + b + c == a + (b + c)
  {
  }

  lemma OutMore(out: seq<Node>, x: Node, rest: seq<Node>)
    ensures out + [x] + rest == out + ([x] + rest) && Last(out + [x]) == x
  {
  }

  lemma WaitingSplit(s: seq<Node>, i: nat, m: nat, out: seq<Node>)
    requires Waiting(s, i, |s|, out) && i <= m <= |s|
    ensures Waiting(s, i, m, out) && Waiting(s, m, |s|, out)
  {
  }

  lemma WaitingNext(s: seq<Node>, i: nat, j: nat, out: seq<Node>)
    requires Waiting(s, i, j, out)
    ensures i < j <= |s| ==> s[i].next == Succ(s, i) && s[i] !in out && Waiting(s, i + 1, j, out)
  {
    if i < j <= |s| { assert s[i].next == Succ(s, i); }
  }

  lemma OnlyHere(s: seq<Node>, k: nat)
    requires Distinct(s) && k < |s|
    ensures forall j :: 0 <= j < |s| && j != k ==> s[j] != s[k]
  {
  }

  // Appends [x], which neither run has any more.
  method EmitSorted(
      x: Node, list: Node?, tail: Node?, ghost out: seq<Node>, ghost s: seq<Node>, ghost a: nat, ghost m: nat,
      ghost b: nat)
    returns (list': Node?)
    requires OutLinked(out) && list == First(out) && tail == Last(out) && x !in out && x in s
             && forall y :: y in out ==> y in s
    requires a <= m <= b <= |s| && Waiting(s, a, m, out) && Waiting(s, b, |s|, out)
    requires forall k :: a <= k < m || b <= k < |s| ==> s[k] != x
    modifies s`next, s`prev
    ensures OutLinked(out + [x]) && list' == First(out + [x])
    ensures Waiting(s, a, m, out + [x]) && Waiting(s, b, |s|, out + [x])
  {
    hide OutLinked;
    assert forall k :: 0 <= k < |out| ==> out[k] in out;
    list' := AppendSorted(x, list, tail, out);
    assert forall k {:trigger Succ(s, k)} :: (a <= k < m || b <= k < |s|) ==> s[k] != tail;
  }

  // Merges the run of [psize] elements at [p] with the run of at most [qsize] at
  // [q], onto the sorted list.
  method MergeRuns(p0: Node, psize0: nat, q0: Node?, qsize0: nat, list0: Node?, tail0: Node?, leq: (Node, Node) -> bool,
                   ghost s: seq<Node>, ghost i: nat, ghost out0: seq<Node>)
    returns (q: Node?, list: Node?, tail: Node?, ghost out: seq<Node>)
    requires Distinct(s) && i < |s| && 0 < psize0 <= |s| - i && p0 == s[i] && q0 == At(s, i + psize0)
    requires Waiting(s, i, |s|, out0) && OutLinked(out0) && list0 == First(out0) && tail0 == Last(out0)
    requires forall x :: x in out0 ==> x in s
    modifies s`prev, s`next
    ensures var m, e := i + psize0, Min(i + psize0 + qsize0, |s|);
            && out == out0 + Merge(s[i..m], s[m..e], leq) && q == At(s, e) && Waiting(s, e, |s|, out)
    ensures OutLinked(out) && list == First(out) && tail == Last(out) && forall x :: x in out ==> x in s
  {
    hide OutLinked, Waiting, Merge, First, Last, Distinct;
    WaitingSplit(s, i, i + psize0, out0);
    var p, psize, qsize := p0, psize0, qsize0;
    q, list, tail, out := q0, list0, tail0, out0;
    ghost var m, e := i + psize0, Min(i + psize0 + qsize0, |s|);
    ghost var a, b := i, m;
    while psize != 0 || (qsize != 0 && q != null)
      invariant i <= a <= m <= b <= e && psize == m - a && qsize == qsize0 - (b - m)
      invariant (psize != 0 ==> p == s[a]) && q == At(s, b)
      invariant out + Merge(s[a..m], s[b..e], leq) == out0 + Merge(s[i..m], s[m..e], leq)
      invariant Waiting(s, a, m, out) && Waiting(s, b, |s|, out)
      invariant OutLinked(out) && list == First(out) && tail == Last(out) && forall x :: x in out ==> x in s
      decreases psize + (e - b)
    {
      MergeTake(s[a..m], s[b..e], leq);
      RunRest(s, a, m);
      RunRest(s, b, e);
      WaitingNext(s, a, m, out);
      WaitingNext(s, b, |s|, out);
      var x: Node;
      if psize == 0 || (qsize != 0 && q != null && !leq(p, q)) {
        x := q;
        OnlyHere(s, b);
        q := q.next;
        qsize := qsize - 1;
        b := b + 1;
      } else {
        x := p;
        OnlyHere(s, a);
        if psize > 1 { p := p.next; }
        psize := psize - 1;
        a := a + 1;
      }
      list := EmitSorted(x, list, tail, out, s, a, m, b);
      OutMore(out, x, Merge(s[a..m], s[b..e], leq));
      tail := x;
      out := out + [x];
    }
    assert s[a..m] == [] && s[b..e] == [];
    MergeStep<Node>([], [], leq);
  }

  lemma PassStart(s: seq<Node>)
    requires AppLinked(s)
    ensures Distinct(s) && Waiting(s, 0, |s|, []) && OutLinked([]) && First([]) == null && Last([]) == null
  {
  }

  lemma PassNext(s: seq<Node>, i: nat, k: nat, leq: (Node, Node) -> bool)
    requires k > 0 && i < |s|
    ensures var m := i + Min(k, |s| - i);
            var e := Min(m + k, |s|);
            && m <= e && e == Min(i + 2 * k, |s|)
            && Pass(s[i..], k, leq) == Merge(s[i..m], s[m..e], leq) + Pass(s[e..], k, leq)
  {
    hide Pass, Merge;
    var m := i + Min(k, |s| - i);
    var e := Min(m + k, |s|);
    PassStep(s[i..], k, leq);
    assert s[i..][..m - i] == s[i..m] && s[i..][m - i..e - i] == s[m..e] && s[i..][e - i..] == s[e..];
  }

  lemma LastIn(s: seq<Node>)
    requires s != []
    ensures Last(s) == s[|s| - 1] && Last(s) in s
  {
  }

  // Ends the sorted list.
  method Terminate(tail: Node, ghost out: seq<Node>)
    requires OutLinked(out) && out != [] && tail == Last(out)
    modifies tail`next
    ensures AppLinked(out)
  {
    tail.next := null;
    forall i {:trigger Succ(out, i)} | 0 <= i < |out| ensures out[i].next == Succ(out, i) {
      if i < |out| - 1 { assert old(out[i].next) == Succ(out, i); }
    }
  }

  // After [n] merges of two runs each, the pass is at [i] of [len].
  predicate Merged(n: nat, i: nat, insize: nat, len: nat) {
    && (n == 0 ==> i == 0) && (n == 1 ==> i == Min(2 * insize, len)) && (n > 1 ==> len > 2 * insize)
  }

  lemma MergedFirst(insize: nat, len: nat)
    ensures Merged(0, 0, insize, len)
  {
  }

  lemma MergedNext(n: nat, i: nat, insize: nat, len: nat)
    requires Merged(n, i, insize, len) && i < len
    ensures Merged(n + 1, Min(i + Min(insize, len - i) + insize, len), insize, len)
  {
  }

  lemma MergedAll(n: nat, insize: nat, len: nat)
    requires Merged(n, len, insize, len) && len > 0
    ensures n <= 1 <==> len <= 2 * insize
  {
  }

  // One pass of the sort over the list [s]: merges its runs of [insize] elements in
  // pairs, and counts the merges.
  method SortPass(first: Node, insize: nat, leq: (Node, Node) -> bool, ghost s: seq<Node>)
    returns (list: Node?, tail: Node?, nmerges: nat, ghost out: seq<Node>)
    requires insize > 0 && s != [] && AppLinked(s) && first == s[0]
    modifies s`prev, s`next
    ensures out == Pass(s, insize, leq) && AppLinked(out) && list == First(out) && tail == Last(out)
    ensures forall x :: x in out ==> x in s
    ensures nmerges <= 1 <==> |s| <= 2 * insize
  {
    hide OutLinked, AppLinked, Pass, Waiting, Merge, Distinct, First, Last, Merged;
    PassStart(s);
    MergedFirst(insize, |s|);
    list, tail, nmerges, out := null, null, 0, [];
    var p: Node? := first;
    ghost var i := 0;
    assert s[i..] == s;
    while p != null
      invariant 0 <= i <= |s| && p == At(s, i) && Merged(nmerges, i, insize, |s|)
      invariant out + Pass(s[i..], insize, leq) == Pass(s, insize, leq) && (i > 0 ==> out != [])
      invariant Waiting(s, i, |s|, out) && OutLinked(out) && list == First(out) && tail == Last(out)
      invariant forall x :: x in out ==> x in s
      decreases |s| - i
    {
      PassNext(s, i, insize, leq);
      MergedNext(nmerges, i, insize, |s|);
      nmerges := nmerges + 1;
      var q, psize := SplitRun(p, insize, s, i, out);
      ghost var e := Min(i + psize + insize, |s|);
      Regroup(out, Merge(s[i..i + psize], s[i + psize..e], leq), Pass(s[e..], insize, leq));
      p, list, tail, out := MergeRuns(p, psize, q, insize, list, tail, leq, s, i, out);
      i := e;
    }
    assert s[i..] == [];
    MergedAll(nmerges, insize, |s|);
    PassEmpty(insize, leq);
    LastIn(out);
    Terminate(tail, out);
  }

  // Sorts the list [s0], in passes that merge ever longer runs.
  method SortList(first: Node, leq: (int, int) -> bool, ghost s0: seq<Node>)
    returns (list: Node, tail: Node, ghost s: seq<Node>)
    requires s0 != [] && AppLinked(s0) && first == s0[0] && Preorder(leq)
    modifies s0`prev, s0`next
    ensures AppLinked(s) && list == First(s) && tail == Last(s) && multiset(s) == multiset(s0)
    ensures Sorted(KeysOf(s), leq) && StablyPermutes(KeysOf(s0), KeysOf(s), leq)
  {
    hide AppLinked, Runs, Sorted, Preorder, StablyPermutes, KeysOf, Pass;
    StableSame(KeysOf(s0), leq);
    SingleRuns(KeysOf(s0), leq);
    var insize := 1;
    var looping := true;
    list, tail, s := first, first, s0;
    while looping
      invariant insize > 0 && s != [] && |s| == |s0| && multiset(s) == multiset(s0)
      invariant AppLinked(s) && list == First(s) && StablyPermutes(KeysOf(s0), KeysOf(s), leq)
      invariant looping ==> Runs(KeysOf(s), insize, leq)
      invariant !looping ==> Sorted(KeysOf(s), leq) && tail == Last(s)
      decreases looping, |s0| - insize
    {
      ghost var before := s;
      InFirst(s, s0);
      var next, end, nmerges;
      next, end, nmerges, s := SortPass(list, insize, NodeOrder(leq), before);
      PassSorts(s0, before, s, insize, leq);
      list, tail := next, end;
      if nmerges <= 1 {
        KeysLength(s);
        OneRun(KeysOf(s), 2 * insize, leq);
        looping := false;
      }
      insize := insize * 2;
    }
  }

  // [r] is sorted by its keys, and equivalent elements are in the order of [s].
  ghost predicate InOrder(s: seq<Node>, r: seq<Node>, leq: (int, int) -> bool) {
    && (forall i, j :: 0 <= i < j < |r| ==> leq(r[i].key, r[j].key))
    && (forall i, j :: 0 <= i < j < |s| && leq(s[i].key, s[j].key) && leq(s[j].key, s[i].key) ==>
          IndexOf(r, s[i]) < IndexOf(r, s[j]))
  }

  lemma SortedOrder(s: seq<Node>, r: seq<Node>, leq: (int, int) -> bool)
    requires Preorder(leq) && Sorted(KeysOf(r), leq) && StablyPermutes(KeysOf(s), KeysOf(r), leq)
    requires multiset(s) == multiset(r) && Distinct(KeysOf(s)) && Distinct(KeysOf(r))
    ensures InOrder(s, r, leq)
  {
    hide Preorder, StablyPermutes, Distinct, KeysOf, IndexOf;
    InFirst(s, r);
    forall i, j | 0 <= i < j < |r| ensures leq(r[i].key, r[j].key) {
      KeyAt(r, i);
      KeyAt(r, j);
    }
    forall i, j | 0 <= i < j < |s| && leq(s[i].key, s[j].key) && leq(s[j].key, s[i].key)
      ensures IndexOf(r, s[i]) < IndexOf(r, s[j])
    {
      PairOrder(s, r, leq, i, j);
    }
  }

  lemma NothingOrdered(leq: (int, int) -> bool)
    ensures InOrder([], [], leq)
  {
  }

  lemma PairOrder(s: seq<Node>, r: seq<Node>, leq: (int, int) -> bool, i: nat, j: nat)
    requires Preorder(leq) && StablyPermutes(KeysOf(s), KeysOf(r), leq) && Distinct(KeysOf(s)) && Distinct(KeysOf(r))
    requires i < j < |s| && s[i] in r && s[j] in r && leq(s[i].key, s[j].key) && leq(s[j].key, s[i].key)
    ensures IndexOf(r, s[i]) < IndexOf(r, s[j])
  {
    hide Preorder, StablyPermutes, Distinct, KeysOf, IndexOf;
    var k, l := IndexOf(r, s[i]), IndexOf(r, s[j]);
    KeyAt(s, i);
    KeyAt(s, j);
    KeyAt(r, k);
    KeyAt(r, l);
    StableOrder(KeysOf(s), KeysOf(r), leq, i, j, k, l);
  }

  lemma KeyAt(s: seq<Node>, i: nat)
    requires i < |s|
    ensures |KeysOf(s)| == |s| && KeysOf(s)[i] == s[i].key
  {
  }

  lemma InFirst(a: seq<Node>, b: seq<Node>)
    requires multiset(a) == multiset(b)
    ensures forall i :: 0 <= i < |a| ==> a[i] in b
  {
    forall i | 0 <= i < |a| ensures a[i] in b {
      assert a[i] in multiset(a);
    }
  }

  function KeyOf(x: Node): int {
    x.key
  }

  function KeysOf(s: seq<Node>): seq<int> {
    Map<Node, int>(KeyOf, s)
  }

  function NodeOrder(leq: (int, int) -> bool): (Node, Node) -> bool {
    ByKey<Node, int>(KeyOf, leq)
  }

  lemma KeysLength(s: seq<Node>)
    ensures |KeysOf(s)| == |s|
  {
  }

  lemma StableSame(s: seq<int>, leq: (int, int) -> bool)
    ensures StablyPermutes(s, s, leq)
  {
  }

  lemma NothingSorted(leq: (int, int) -> bool)
    ensures Sorted(KeysOf([]), leq)
  {
  }

  lemma SameLength(a: seq<Node>, b: seq<Node>)
    requires multiset(a) == multiset(b)
    ensures |a| == |b|
  {
    assert |multiset(a)| == |multiset(b)|;
  }

  lemma SameMembers(a: seq<Node>, b: seq<Node>)
    requires multiset(a) == multiset(b)
    ensures Members(a) == Members(b)
  {
    forall x ensures x in Members(a) <==> x in Members(b) {
      assert x in a <==> x in multiset(a);
      assert x in b <==> x in multiset(b);
    }
  }

  // One pass doubles the runs, and keeps the order of equivalent elements.
  lemma PassSorts(s0: seq<Node>, s: seq<Node>, r: seq<Node>, k: nat, leq: (int, int) -> bool)
    requires k > 0 && Preorder(leq) && r == Pass(s, k, NodeOrder(leq)) && multiset(s) == multiset(s0)
    requires Runs(KeysOf(s), k, leq) && StablyPermutes(KeysOf(s0), KeysOf(s), leq)
    ensures Runs(KeysOf(r), 2 * k, leq) && StablyPermutes(KeysOf(s0), KeysOf(r), leq)
    ensures multiset(r) == multiset(s0) && |r| == |s|
  {
    hide Pass, Runs, Preorder, StablyPermutes, ByKey, Map;
    PassPermutes(s, k, NodeOrder(leq));
    PassKeys<Node, int>(KeyOf, s, k, leq);
    PassRuns(KeysOf(s), k, leq);
    StableTrans(KeysOf(s0), KeysOf(s), KeysOf(r), leq);
  }
}
