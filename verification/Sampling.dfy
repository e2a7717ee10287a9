/** Random samples and shuffles. The random generator is a list of choices, and fairness
    is counting: equally many choices lead to each result. */
module Sampling {
  import opened Options
  import opened Sequences

  // ----- Choices -----

  // The choices of [j] calls of int(a + 1), int(a + 2), ...
  predicate Choices(a: nat, cs: seq<nat>) {
    forall i :: 0 <= i < |cs| ==> cs[i] <= a + i
  }

  // The positions that Floyd's algorithm picks: each choice, or the largest position so
  // far if the choice is taken.
  function Picked(a: nat, cs: seq<nat>): (r: seq<nat>)
    ensures |r| == |cs|
  {
    if cs == [] then []
    else
      var p, c := Picked(a, cs[..|cs| - 1]), cs[|cs| - 1];
      p + [if c in p then a + |cs| - 1 else c]
  }

  function Positions(s: seq<nat>): set<nat> {
    set i | i in s
  }

  // A sample has distinct positions of the list.
  lemma {:induction false} PickedDistinct(a: nat, cs: seq<nat>)
    requires Choices(a, cs)
    ensures Distinct(Picked(a, cs)) && Within(Picked(a, cs), a + |cs|)
    decreases |cs|
  {
    if cs != [] { PickedDistinct(a, cs[..|cs| - 1]); }
  }

  // ----- Sampling -----

  predicate Within(positions: seq<nat>, n: nat) {
    forall i :: 0 <= i < |positions| ==> positions[i] < n
  }

  function At<T>(list: seq<T>, positions: seq<nat>): seq<T>
    requires Within(positions, |list|)
  {
    seq(|positions|, i requires 0 <= i < |positions| => list[positions[i]])
  }

  // sample(list, count): with a map for small samples, and with booleans for large ones.
  method Sample<T>(list: seq<T>, count: nat, choices: seq<nat>) returns (r: Option<seq<T>>)
    requires count <= |list| ==> |choices| == count && Choices(|list| - count, choices)
    ensures r.None? <==> count > |list|
    ensures r.Some? ==>
              Within(Picked(|list| - count, choices), |list|) && r.value == At(list, Picked(|list| - count, choices))
  {
    if count > |list| { return None; }
    PickedDistinct(|list| - count, choices);
    var result;
    if count * 4 < |list| {
      result := SampleByMap(list, count, choices);
    } else {
      result := SampleByBooleans(list, count, choices);
    }
    return Some(result);
  }

  method SampleByMap<T>(list: seq<T>, count: nat, choices: seq<nat>) returns (result: seq<T>)
    requires count <= |list| && |choices| == count && Choices(|list| - count, choices)
    requires Within(Picked(|list| - count, choices), |list|)
    ensures result == At(list, Picked(|list| - count, choices))
  {
    ghost var a, all := |list| - count, Picked(|list| - count, choices);
    var picked: map<nat, bool> := map[];
    result := [];
    for i := |list| - count to |list|
      invariant result == At(list, all[..i - a]) && forall p :: p in picked <==> p in all[..i - a]
    {
      var index := choices[i - (|list| - count)];
      PickedNext(a, choices, i - a);
      if index in picked { index := i; }
      picked := picked[index := true];
      result := result + [list[index]];
    }
    assert all[..count] == all;
  }

  method SampleByBooleans<T>(list: seq<T>, count: nat, choices: seq<nat>) returns (result: seq<T>)
    requires count <= |list| && |choices| == count && Choices(|list| - count, choices)
    requires Within(Picked(|list| - count, choices), |list|)
    ensures result == At(list, Picked(|list| - count, choices))
  {
    ghost var a, all := |list| - count, Picked(|list| - count, choices);
    var picked := new bool[|list|](_ => false);
    result := [];
    for i := |list| - count to |list|
      invariant result == At(list, all[..i - a]) && forall p :: 0 <= p < |list| ==> (picked[p] <==> p in all[..i - a])
    {
      var index := choices[i - (|list| - count)];
      PickedNext(a, choices, i - a);
      if picked[index] { index := i; }
      picked[index] := true;
      result := result + [list[index]];
    }
    assert all[..count] == all;
  }

  // The next position picked.
  lemma {:induction false} PickedNext(a: nat, cs: seq<nat>, j: nat)
    requires j < |cs|
    ensures var all := Picked(a, cs);
            && all[..j] == Picked(a, cs[..j]) && all[..j + 1] == all[..j] + [all[j]]
            && all[j] == if cs[j] in all[..j] then a + j else cs[j]
    decreases |cs|
  {
    var d := cs[..|cs| - 1];
    if j + 1 < |cs| {
      PickedNext(a, d, j);
      assert d[..j] == cs[..j];
      assert Picked(a, cs)[..j] == Picked(a, d)[..j];
    }
  }

  // ----- Every sample is equally likely -----

  // Every list of [j] choices.
  ghost function AllChoices(a: nat, j: nat): set<seq<nat>> {
    if j == 0 then {[]} else set p, c | p in AllChoices(a, j - 1) && 0 <= c <= a + j - 1 :: p + [c]
  }

  lemma {:induction false} AllChoicesAre(a: nat, j: nat, cs: seq<nat>)
    ensures cs in AllChoices(a, j) <==> |cs| == j && Choices(a, cs)
  {
    if j > 0 && cs != [] {
      var p, c := cs[..|cs| - 1], cs[|cs| - 1];
      AllChoicesAre(a, j - 1, p);
      assert cs == p + [c];
    }
  }

  // The choices that lead to the sample [s].
  ghost function Ways(a: nat, j: nat, s: set<nat>): set<seq<nat>> {
    set cs | cs in AllChoices(a, j) && Positions(Picked(a, cs)) == s
  }

  function Factorial(n: nat): nat {
    if n == 0 then 1 else n * Factorial(n - 1)
  }

  // What the choices before the last one, [c], lead to.
  ghost function Before(s: set<nat>, last: nat, c: nat): set<nat> {
    if last in s then s - {last} else s - {c}
  }

  // The choices that lead to [s] and end in one of [ends].
  ghost function WaysEnding(a: nat, j: nat, s: set<nat>, ends: set<nat>): set<seq<nat>>
    requires j > 0
  {
    set c, p | c in ends && p in Ways(a, j - 1, Before(s, a + j - 1, c)) :: p + [c]
  }

  lemma LastPick(a: nat, p: seq<nat>, c: nat)
    requires Choices(a, p)
    ensures var x := if c in Picked(a, p) then a + |p| else c;
            Picked(a, p + [c]) == Picked(a, p) + [x] && Positions(Picked(a, p + [c])) == Positions(Picked(a, p)) + {x}
    ensures a + |p| !in Picked(a, p)
  {
    PickedDistinct(a, p);
    assert (p + [c])[..|p|] == p;
  }

  // Every choice that leads to [s] ends in one of its members.
  lemma WaysEnd(a: nat, j: nat, s: set<nat>)
    requires j > 0 && (forall p :: p in s ==> p < a + j)
    ensures Ways(a, j, s) == WaysEnding(a, j, s, s)
  {
    hide AllChoices, Picked;
    var last := a + j - 1;
    forall cs | cs in Ways(a, j, s) ensures cs in WaysEnding(a, j, s, s) {
      AllChoicesAre(a, j, cs);
      var p, c := cs[..j - 1], cs[j - 1];
      assert cs == p + [c];
      AllChoicesAre(a, j - 1, p);
      LastPick(a, p, c);
      assert Positions(Picked(a, p)) == Before(s, last, c);
      assert p in Ways(a, j - 1, Before(s, last, c));
    }
    forall cs | cs in WaysEnding(a, j, s, s) ensures cs in Ways(a, j, s) {
      var c, p :| c in s && p in Ways(a, j - 1, Before(s, last, c)) && cs == p + [c];
      AllChoicesAre(a, j - 1, p);
      LastPick(a, p, c);
      AllChoicesAre(a, j, cs);
    }
  }

  ghost function Appended(ways: set<seq<nat>>, c: nat): set<seq<nat>> {
    set p | p in ways :: p + [c]
  }

  lemma {:induction false} AppendedSize(ways: set<seq<nat>>, c: nat)
    ensures |Appended(ways, c)| == |ways|
  {
    if ways == {} {
      assert Appended(ways, c) == {};
    } else {
      var p :| p in ways;
      AppendedSize(ways - {p}, c);
      assert forall q :: q in ways - {p} ==> (q + [c])[..|q|] == q;
      assert (p + [c])[..|p|] == p;
      assert p + [c] !in Appended(ways - {p}, c);
      assert Appended(ways, c) == Appended(ways - {p}, c) + {p + [c]};
    }
  }

  lemma {:induction false} EndingCount(a: nat, j: nat, s: set<nat>, ends: set<nat>)
    requires j > 0 && ends <= s && |s| == j && (forall p :: p in s ==> p < a + j)
    ensures |WaysEnding(a, j, s, ends)| == |ends| * Factorial(j - 1)
    decreases j, 0, |ends|
  {
    hide Ways, Before, Factorial, WaysEnding, Appended;
    if ends == {} {
      NoEnding(a, j, s);
    } else {
      var c :| c in ends;
      var rest, b := ends - {c}, Before(s, a + j - 1, c);
      EndingCount(a, j, s, rest);
      BeforeSize(a, j, s, c);
      WaysCount(a, j - 1, b);
      AppendedSize(Ways(a, j - 1, b), c);
      Split(a, j, s, ends, c);
      OneMore(|rest|, Factorial(j - 1));
      assert ends == rest + {c};
    }
  }

  lemma NoEnding(a: nat, j: nat, s: set<nat>)
    requires j > 0
    ensures WaysEnding(a, j, s, {}) == {}
  {
  }

  lemma BeforeSize(a: nat, j: nat, s: set<nat>, c: nat)
    requires j > 0 && |s| == j && c in s && forall p :: p in s ==> p < a + j
    ensures var b := Before(s, a + j - 1, c); |b| == j - 1 && forall p :: p in b ==> p < a + j - 1
  {
  }

  lemma OneMore(n: nat, f: nat)
    ensures (n + 1) * f == n * f + f && 0 * f == 0
  {
  }

  lemma Split(a: nat, j: nat, s: set<nat>, ends: set<nat>, c: nat)
    requires j > 0 && c in ends
    ensures var x, y := WaysEnding(a, j, s, ends - {c}), Appended(Ways(a, j - 1, Before(s, a + j - 1, c)), c);
            WaysEnding(a, j, s, ends) == x + y && x !! y
  {
    hide Ways, Before;
    var x, y := WaysEnding(a, j, s, ends - {c}), Appended(Ways(a, j - 1, Before(s, a + j - 1, c)), c);
    assert forall cs :: cs in y ==> cs[|cs| - 1] == c;
    assert forall cs :: cs in x ==> cs[|cs| - 1] != c;
  }

  // Every set of [j] positions is the sample of exactly j! lists of choices.
  lemma {:induction false} WaysCount(a: nat, j: nat, s: set<nat>)
    requires |s| == j && forall p :: p in s ==> p < a + j
    ensures |Ways(a, j, s)| == Factorial(j)
    decreases j, 1
  {
    if j == 0 {
      assert Ways(a, 0, s) == {[]};
    } else {
      WaysEnd(a, j, s);
      EndingCount(a, j, s, s);
    }
  }

  // ----- Shuffling -----

  // The choices of int(i, n), for i from [i] to n - 2.
  predicate Swaps(n: nat, i: nat, cs: seq<nat>) {
    |cs| == (if i + 1 < n then n - 1 - i else 0) && forall k :: 0 <= k < |cs| ==> i + k <= cs[k] < n
  }

  function Swapped<T>(s: seq<T>, i: nat, k: nat): (r: seq<T>)
    requires i < |s| && k < |s|
    ensures |r| == |s|
  {
    s[k := s[i]][i := s[k]]
  }

  // The list after the swaps from [i] on.
  function Shuffled<T>(s: seq<T>, i: nat, cs: seq<nat>): (r: seq<T>)
    requires Swaps(|s|, i, cs)
    ensures |r| == |s|
    decreases |cs|
  {
    if cs == [] then s else Shuffled(Swapped(s, i, cs[0]), i + 1, cs[1..])
  }

  // shuffle(list), in place.
  method Shuffle<T>(list: array<T>, choices: seq<nat>)
    requires Swaps(list.Length, 0, choices)
    modifies list
    ensures list[..] == Shuffled(old(list[..]), 0, choices)
  {
    if list.Length == 0 { return; }
    for i := 0 to list.Length - 1
      invariant Swaps(list.Length, i, choices[i..])
                && Shuffled(list[..], i, choices[i..]) == Shuffled(old(list[..]), 0, choices)
    {
      ghost var before := list[..];
      assert choices[i..][1..] == choices[i + 1..];
      var from := choices[i];
      var temp := list[from];
      list[from] := list[i];
      list[i] := temp;
      assert list[..] == Swapped(before, i, from);
    }
  }

  // [t] is [s] in another order, when the elements of [s] are distinct.
  predicate Permutes<T(==)>(s: seq<T>, t: seq<T>) {
    |s| == |t| && Distinct(s) && Distinct(t) && (forall i :: 0 <= i < |s| ==> s[i] in t)
        && (forall i :: 0 <= i < |t| ==> t[i] in s)
  }

  // The choices that make [t] of [s], from [i] on.
  function Undo<T(==)>(s: seq<T>, t: seq<T>, i: nat): seq<nat>
    requires Permutes(s, t) && i <= |s|
    decreases |s| - i
  {
    if i + 1 >= |s| then []
    else
      var k := IndexOf(s, t[i]);
      SwapPermutes(s, t, i, k);
      [k] + Undo(Swapped(s, i, k), t, i + 1)
  }

  lemma SwapPermutes<T>(s: seq<T>, t: seq<T>, i: nat, k: nat)
    requires Permutes(s, t) && i < |s| && k < |s|
    ensures Permutes(Swapped(s, i, k), t)
  {
    var r := Swapped(s, i, k);
    forall m, n | 0 <= m < n < |r| ensures r[m] != r[n] {
      assert r[m] == s[Other(i, k, m)] && r[n] == s[Other(i, k, n)];
    }
    forall j | 0 <= j < |r| ensures r[j] in t {
      assert r[j] == s[Other(i, k, j)];
    }
    forall j | 0 <= j < |t| ensures t[j] in r {
      var m := IndexOf(s, t[j]);
      assert r[Other(i, k, m)] == s[m];
    }
  }

  // Where position [j] goes when [i] and [k] are swapped.
  function Other(i: nat, k: nat, j: nat): nat {
    if j == i then k else if j == k then i else j
  }

  // The choices found lead to [t].
  lemma {:induction false} ShuffleReaches<T>(s: seq<T>, t: seq<T>, i: nat)
    requires Permutes(s, t) && i <= |s| && s[..i] == t[..i]
    ensures Swaps(|s|, i, Undo(s, t, i)) && Shuffled(s, i, Undo(s, t, i)) == t
    decreases |s| - i
  {
    hide IndexOf, Distinct;
    if i + 1 < |s| {
      var k := IndexOf(s, t[i]);
      NotYet(s, t, i, k);
      SwapPermutes(s, t, i, k);
      var r := Swapped(s, i, k);
      assert r[..i + 1] == t[..i + 1];
      ShuffleReaches(r, t, i + 1);
    } else {
      LastInPlace(s, t, i);
    }
  }

  // The next element of [t] is not among those already in place.
  lemma NotYet<T>(s: seq<T>, t: seq<T>, i: nat, k: nat)
    requires Permutes(s, t) && i < |s| && s[..i] == t[..i] && k < |s| && s[k] == t[i]
    ensures i <= k
  {
    assert forall j {:trigger s[j]} {:trigger t[j]} :: 0 <= j < i ==> s[j] == s[..i][j] == t[..i][j] == t[j];
  }

  lemma LastInPlace<T>(s: seq<T>, t: seq<T>, i: nat)
    requires Permutes(s, t) && i <= |s| <= i + 1 && s[..i] == t[..i]
    ensures s == t
  {
    if i < |s| {
      NotYet(s, t, i, IndexOf(s, t[i]));
      assert s == s[..i] + [s[i]] && t == t[..i] + [t[i]];
    }
  }

  // And no others do: each order of the list comes from exactly one list of choices.
  lemma {:induction false} ShuffleOnce<T>(s: seq<T>, t: seq<T>, i: nat, cs: seq<nat>)
    requires Permutes(s, t) && i <= |s| && Swaps(|s|, i, cs) && Shuffled(s, i, cs) == t
    ensures cs == Undo(s, t, i)
    decreases |cs|
  {
    hide IndexOf, Distinct;
    if cs != [] {
      var r := Swapped(s, i, cs[0]);
      SwapPermutes(s, t, i, cs[0]);
      ShuffleOnce(r, t, i + 1, cs[1..]);
      Settled(r, i + 1, cs[1..]);
      assert t[i] == t[..i + 1][i] == r[..i + 1][i] == s[cs[0]];
      IndexIs(s, t[i], cs[0]);
      assert cs == [cs[0]] + cs[1..];
    }
  }

  lemma IndexIs<T>(s: seq<T>, x: T, k: nat)
    requires Distinct(s) && k < |s| && s[k] == x
    ensures x in s && IndexOf(s, x) == k
  {
    var i := IndexOf(s, x);
    assert s[i] == s[k];
  }

  // Later swaps leave the elements before them in place.
  lemma {:induction false} Settled<T>(s: seq<T>, i: nat, cs: seq<nat>)
    requires i <= |s| && Swaps(|s|, i, cs)
    ensures Shuffled(s, i, cs)[..i] == s[..i]
    decreases |cs|
  {
    if cs != [] {
      var r := Swapped(s, i, cs[0]);
      Settled(r, i + 1, cs[1..]);
      assert Shuffled(r, i + 1, cs[1..])[..i] == Shuffled(r, i + 1, cs[1..])[..i + 1][..i] == r[..i + 1][..i] == s[..i];
    }
  }


  // Any choices give the same elements in another order.
  lemma {:induction false} ShuffleKeeps<T>(s: seq<T>, i: nat, cs: seq<nat>)
    requires Swaps(|s|, i, cs)
    ensures multiset(Shuffled(s, i, cs)) == multiset(s)
    decreases |cs|
  {
    if cs != [] {
      ShuffleKeeps(Swapped(s, i, cs[0]), i + 1, cs[1..]);
      SwapKeeps(s, i, cs[0]);
    }
  }

  lemma SwapKeeps<T>(s: seq<T>, i: nat, k: nat)
    requires i < |s| && k < |s|
    ensures multiset(Swapped(s, i, k)) == multiset(s)
  {
    var t := s[k := s[i]];
    assert multiset(t) == multiset(s) - multiset{s[k]} + multiset{s[i]};
    assert multiset(t[i := s[k]]) == multiset(t) - multiset{t[i]} + multiset{s[k]};
  }
}
