/** Splitting strings by a delimiter, joining them, and replacing in them. */
module Splitting {
  import opened Bytes
  import opened Options
  import opened Utf8
  import opened StringFind
  import opened Slicing

  // ----- The pieces of a string -----

  // The first match at or after [start], or -1.
  function NextMatch(s: seq<byte>, d: seq<byte>, start: nat): (r: int)
    ensures r == -1 ==> forall j :: start <= j ==> !Match(s, d, j)
    ensures r != -1 ==> start <= r && Match(s, d, r) && forall j :: start <= j < r ==> !Match(s, d, j)
    decreases |s| - start
  {
    if start + |d| > |s| then -1 else if Match(s, d, start) then start else if start == |s| then -1
        else NextMatch(s, d, start + 1)
  }

  // What is between the delimiters, from [last] on.
  function Pieces(s: seq<byte>, d: seq<byte>, last: nat): (r: seq<seq<byte>>)
    requires d != []
    ensures r != []
    decreases |s| - last
  {
    if last >= |s| then [[]]
    else
      var i := NextMatch(s, d, last);
      if i == -1 then [s[last..]] else [s[last..i]] + Pieces(s, d, i + |d|)
  }

  function Joined(pieces: seq<seq<byte>>, sep: seq<byte>): seq<byte> {
    if pieces == [] then [] else if |pieces| == 1 then pieces[0] else pieces[0] + sep + Joined(pieces[1..], sep)
  }

  // Nothing joined is empty, one piece is itself, and there is one separator between two
  // lists of pieces.
  lemma {:induction false} JoinParts(xs: seq<seq<byte>>, ys: seq<seq<byte>>, x: seq<byte>, sep: seq<byte>)
    ensures Joined([], sep) == [] && Joined([x], sep) == x
    ensures xs != [] && ys != [] ==> Joined(xs + ys, sep) == Joined(xs, sep) + sep + Joined(ys, sep)
    decreases |xs|
  {
    if |xs| == 1 && ys != [] {
      assert (xs + ys)[1..] == ys;
    } else if |xs| > 1 && ys != [] {
      assert (xs + ys)[1..] == xs[1..] + ys;
      JoinParts(xs[1..], ys, x, sep);
      assert xs[0] + sep + (Joined(xs[1..], sep) + sep + Joined(ys, sep))
          == xs[0] + sep + Joined(xs[1..], sep) + sep + Joined(ys, sep);
    }
  }

  // Splitting and joining with the same delimiter gives the string back.
  lemma {:induction false} SplitJoin(s: seq<byte>, d: seq<byte>, last: nat)
    requires d != [] && last <= |s|
    ensures Joined(Pieces(s, d, last), d) == s[last..]
    decreases |s| - last
  {
    hide NextMatch, Joined;
    var i := NextMatch(s, d, last);
    if last < |s| && i != -1 {
      SplitJoin(s, d, i + |d|);
      hide Pieces;
      JoinedFirst(s[last..i], Pieces(s, d, i + |d|), d);
      assert s[i..i + |d|] == d;
      assert s[last..] == s[last..i] + s[i..i + |d|] + s[i + |d|..];
    } else {
      JoinedOne(s[last..], d);
      JoinedOne([], d);
    }
  }

  lemma JoinedFirst(piece: seq<byte>, rest: seq<seq<byte>>, d: seq<byte>)
    requires rest != []
    ensures Joined([piece] + rest, d) == piece + d + Joined(rest, d)
  {
    assert ([piece] + rest)[1..] == rest;
  }

  lemma JoinedOne(piece: seq<byte>, d: seq<byte>)
    ensures Joined([piece], d) == piece
  {
  }

  // No piece contains the delimiter, and no delimiter starts in a piece before the one
  // that ends it.
  ghost predicate Leftmost(ps: seq<seq<byte>>, d: seq<byte>) {
    && (forall k, j :: 0 <= k < |ps| && 0 <= j ==> !Match(ps[k], d, j))
    && (forall k, j :: 0 <= k < |ps| - 1 && 0 <= j < |ps[k]| ==> !Match(ps[k] + d, d, j))
  }

  // The pieces end at the leftmost delimiters.
  lemma {:induction false} PiecesLeftmost(s: seq<byte>, d: seq<byte>, last: nat)
    requires d != []
    ensures Leftmost(Pieces(s, d, last), d)
    decreases |s| - last
  {
    hide Leftmost, Match;
    var i := NextMatch(s, d, last);
    if i != -1 { MatchIn(s, d, i); }
    if last < |s| {
      var end := if i == -1 then |s| else i;
      var p := s[last..end];
      NoneBetween(s, d, last, end, p);
      if i != -1 {
        PiecesLeftmost(s, d, i + |d|);
        assert p + d == s[last..i + |d|];
        NoneBefore(s, d, last, i, p + d);
        Cons(p, Pieces(s, d, i + |d|), d);
      } else {
        assert s[last..] == p;
        One(p, d);
      }
    } else {
      MatchIn([], d, 0);
      One([], d);
    }
  }

  lemma One(p: seq<byte>, d: seq<byte>)
    requires forall j: nat :: !Match(p, d, j)
    ensures Leftmost([p], d)
  {
  }

  lemma NoneBetween(s: seq<byte>, d: seq<byte>, a: nat, b: nat, p: seq<byte>)
    requires a <= b <= |s| && d != [] && p == s[a..b] && forall j :: a <= j < b ==> !Match(s, d, j)
    ensures forall j: nat :: !Match(p, d, j)
  {
    hide Match;
    forall j: nat ensures !Match(p, d, j) {
      SubMatch(s, d, a, b, j);
    }
  }

  lemma NoneBefore(s: seq<byte>, d: seq<byte>, a: nat, b: nat, p: seq<byte>)
    requires a <= b && b + |d| <= |s| && d != [] && p == s[a..b + |d|] && forall j :: a <= j < b ==> !Match(s, d, j)
    ensures forall j: nat :: j < b - a ==> !Match(p, d, j)
  {
    hide Match;
    forall j: nat | j < b - a ensures !Match(p, d, j) {
      SubMatch(s, d, a, b + |d|, j);
    }
  }

  // A match in a part of the string is a match in the string, that the part holds.
  lemma SubMatch(s: seq<byte>, d: seq<byte>, a: nat, b: nat, j: nat)
    requires a <= b <= |s| && d != []
    ensures Match(s[a..b], d, j) ==> Match(s, d, a + j) && a + j < b
  {
    if j + |d| <= b - a {
      var x, y := s[a..b][j..j + |d|], s[a + j..a + j + |d|];
      assert forall k :: 0 <= k < |d| ==> x[k] == y[k];
      assert x == y;
    }
  }

  lemma MatchIn(s: seq<byte>, d: seq<byte>, i: nat)
    ensures Match(s, d, i) ==> i + |d| <= |s| && s[i..i + |d|] == d
    ensures s == [] && d != [] ==> forall j :: !Match(s, d, j)
  {
  }

  lemma Cons(p: seq<byte>, ps: seq<seq<byte>>, d: seq<byte>)
    requires Leftmost(ps, d) && (forall j: nat :: !Match(p, d, j)) && forall j: nat :: j < |p| ==> !Match(p + d, d, j)
    ensures Leftmost([p] + ps, d)
  {
    hide Match;
    var r := [p] + ps;
    forall k, j | 0 <= k < |r| && 0 <= j ensures !Match(r[k], d, j) {
      if k > 0 { assert r[k] == ps[k - 1]; }
    }
    forall k, j | 0 <= k < |r| - 1 && 0 <= j < |r[k]| ensures !Match(r[k] + d, d, j) {
      if k > 0 { assert r[k] == ps[k - 1]; }
    }
  }

  // ----- Matches in well-formed strings -----

  // Whether [i] is between two code points.
  predicate IsBoundary(cps: seq<nat>, i: nat) {
    i == |EncodedAll(cps)| || LeadAt(cps, i).Some?
  }

  // The bytes of the code point that starts at [i], and the boundary after it.
  lemma {:induction false} LeadBytes(cps: seq<nat>, i: nat)
    requires ValidCodePoints(cps) && LeadAt(cps, i).Some?
    ensures var s, e := EncodedAll(cps), Encoded(LeadAt(cps, i).value);
            && e != [] && i + |e| <= |s| && s[i..i + |e|] == e && IsBoundary(cps, i + |e|)
            && forall j :: i < j < i + |e| ==> IsContinuation(s[j])
    decreases |cps|
  {
    hide Encoded, EncodeNumBytes, IsContinuation;
    var s, e := EncodedAll(cps), Encoded(cps[0]);
    DecodeEncoded(cps[0], []);
    if i == 0 {
      assert s[0..|e|] == e && forall j {:trigger e[j]} :: 0 <= j < |e| ==> s[j] == e[j];
      assert LeadAt(cps, |e|) == LeadAt(cps[1..], 0);
      assert cps[1..] == [] ==> EncodedAll(cps[1..]) == [];
    } else {
      var r := EncodedAll(cps[1..]);
      var f := Encoded(LeadAt(cps, i).value);
      LeadBytes(cps[1..], i - |e|);
      assert s[i..i + |f|] == r[i - |e|..i - |e| + |f|];
      assert forall j {:trigger s[j]} :: |e| <= j < |s| ==> s[j] == r[j - |e|];
    }
  }

  // The encoding that [s] starts with is that of the code point it decodes to.
  lemma SameLead(cps: seq<nat>, i: nat, value: nat)
    requires ValidCodePoints(cps) && value <= MAX_CODE_POINT && LeadAt(cps, i).Some?
             && i + |Encoded(value)| <= |EncodedAll(cps)|
    requires EncodedAll(cps)[i..i + |Encoded(value)|] == Encoded(value)
    ensures LeadAt(cps, i).value == value
  {
    hide LeadAt, EncodedAll, Encoded, Decoded, EncodeNumBytes;
    LeadBytes(cps, i);
    ByteAt(cps, i);
    var s, e := EncodedAll(cps), Encoded(value);
    DecodeEncoded(value, s[i + |e|..]);
    assert s[i..] == e + s[i + |e|..];
  }

  // A well-formed string that occurs in another one occurs between two code points.
  lemma {:induction false} MatchEnds(cps: seq<nat>, ds: seq<nat>, i: nat)
    requires ValidCodePoints(cps) && ValidCodePoints(ds) && LeadAt(cps, i).Some? && ds != []
    requires i + |EncodedAll(ds)| <= |EncodedAll(cps)| && EncodedAll(cps)[i..i + |EncodedAll(ds)|] == EncodedAll(ds)
    ensures IsBoundary(cps, i + |EncodedAll(ds)|)
    decreases |ds|
  {
    hide LeadAt, Encoded, EncodeNumBytes;
    var s, d, e := EncodedAll(cps), EncodedAll(ds), Encoded(ds[0]);
    var rest := EncodedAll(ds[1..]);
    assert d[..|e|] == e && d[|e|..] == rest;
    assert s[i..i + |e|] == s[i..i + |d|][..|e|];
    SameLead(cps, i, ds[0]);
    LeadBytes(cps, i);
    if ds[1..] != [] {
      Start(ds[1..]);
      assert s[i + |e|..i + |e| + |rest|] == s[i..i + |d|][|e|..];
      MatchEnds(cps, ds[1..], i + |e|);
    }
  }

  lemma FirstLead(cps: seq<nat>)
    requires cps != []
    ensures LeadAt(cps, 0).Some?
  {
  }

  // Every match is between two code points.
  lemma MatchBoundaries(cps: seq<nat>, ds: seq<nat>, i: nat)
    requires ValidCodePoints(cps) && ValidCodePoints(ds) && ds != [] && Match(EncodedAll(cps), EncodedAll(ds), i)
    ensures LeadAt(cps, i).Some? && IsBoundary(cps, i + |EncodedAll(ds)|)
  {
    hide LeadAt, Encoded, EncodedAll, Decoded, DecodeNumBytes, EncodeNumBytes;
    Start(ds);
    FirstLead(ds);
    ByteAt(ds, 0);
    ByteAt(cps, i);
    assert EncodedAll(cps)[i] == EncodedAll(cps)[i..i + |EncodedAll(ds)|][0];
    MatchEnds(cps, ds, i);
  }

  // The first boundary at or after [i].
  function NextBoundary(cps: seq<nat>, i: nat): (r: nat)
    requires i <= |EncodedAll(cps)|
    ensures i <= r <= |EncodedAll(cps)| && IsBoundary(cps, r) && forall j :: i <= j < r ==> !IsBoundary(cps, j)
    decreases |EncodedAll(cps)| - i
  {
    if IsBoundary(cps, i) then i else NextBoundary(cps, i + 1)
  }

  // A slice from a boundary gives the bytes up to the first boundary after it.
  lemma {:induction false} SliceForward(cps: seq<nat>, a: nat, n: nat)
    requires ValidCodePoints(cps) && IsBoundary(cps, a) && a + n <= |EncodedAll(cps)|
    ensures InRange(EncodedAll(cps), a, n, 1)
            && Written(EncodedAll(cps), a, n, 1) == EncodedAll(cps)[a..NextBoundary(cps, a + n)]
    decreases n
  {
    hide LeadAt, Encoded, EncodedAll, EncodeNumBytes, Piece;
    var s := EncodedAll(cps);
    if n > 0 {
      var j := a + n - 1;
      SliceForward(cps, a, n - 1);
      SliceOne(cps, j);
      ByteAt(cps, j);
      if LeadAt(cps, j).Some? {
        LeadBytes(cps, j);
        var end := j + |Encoded(LeadAt(cps, j).value)|;
        InMiddle(cps, j, end);
        assert s[a..j] + s[j..end] == s[a..end];
      }
    }
  }

  // The first boundary after a lead byte is after its code point.
  lemma InMiddle(cps: seq<nat>, j: nat, end: nat)
    requires ValidCodePoints(cps) && j < end <= |EncodedAll(cps)| && IsBoundary(cps, end)
    requires forall i :: j < i < end ==> IsContinuation(EncodedAll(cps)[i])
    ensures NextBoundary(cps, j + 1) == end
  {
    forall i | j < i < end ensures !IsBoundary(cps, i) {
      ByteAt(cps, i);
    }
  }

  // A slice between two boundaries is the bytes between them.
  lemma SliceBytes(cps: seq<nat>, a: nat, b: nat)
    requires ValidCodePoints(cps) && a <= b <= |EncodedAll(cps)| && IsBoundary(cps, a) && IsBoundary(cps, b)
    ensures var s := EncodedAll(cps);
            InRange(s, a, b - a, 1) && Written(s, a, b - a, 1) == s[a..b] && Allocated(s, a, b - a, 1) == b - a
  {
    hide LeadAt, EncodedAll, Written, Allocated;
    SliceForward(cps, a, b - a);
    SliceSelects(cps, a, b - a, 1);
  }

  // UTF-8 has no byte 255.
  lemma {:induction false} NoByte255(cps: seq<nat>)
    requires ValidCodePoints(cps)
    ensures 255 !in EncodedAll(cps)
  {
    if cps != [] {
      EncodedForm(cps[0]);
      hide Encoded;
      NoByte255(cps[1..]);
    }
  }

  // ----- The methods of strings -----

  // The index of the first match at or after [start], or -1.
  method IndexOf(s: seq<byte>, d: seq<byte>, start: nat) returns (r: int)
    requires start < |s| && d != [] && 255 !in s && 255 !in d
    ensures r == NextMatch(s, d, start)
  {
    var found := Find(s, d, start);
    return if found.Found? then found.index else -1;
  }

  // The slice from one boundary to another, with an exclusive end.
  method Slice(s: seq<byte>, from: nat, to: nat, ghost cps: seq<nat>) returns (r: seq<byte>)
    requires ValidCodePoints(cps) && s == EncodedAll(cps) && from <= to <= |s| && from < |s| && IsBoundary(cps, from)
             && IsBoundary(cps, to)
    ensures r == s[from..to]
  {
    hide LeadAt, EncodedAll, Written, Allocated, TooLarge;
    var result, span, n, unreachable := Subscript(s, from, to, false);
    var expected := Span(from, to - from, if from == to then 0 else if from + 1 == to then -1 else 1);
    SpanOf(from, to, |s|, expected);
    AllReachable(cps, span.start, span.count, span.step);
    SliceBytes(cps, from, to);
    SliceFew(s, from);
    return result.value[..];
  }

  // The slice from a boundary to index -1, which is included.
  method SliceToEnd(s: seq<byte>, from: nat, ghost cps: seq<nat>) returns (r: seq<byte>)
    requires ValidCodePoints(cps) && s == EncodedAll(cps) && from < |s| && IsBoundary(cps, from)
    ensures r == s[from..]
  {
    hide LeadAt, EncodedAll, Written, Allocated, TooLarge;
    AtEnd(cps);
    var result, span, n, unreachable := Subscript(s, from, -1, true);
    SpanToEnd(from, |s|, Span(from, |s| - from, if from + 1 == |s| then -1 else 1));
    AllReachable(cps, span.start, span.count, span.step);
    SliceBytes(cps, from, |s|);
    SliceFew(s, from);
    assert s[from..|s|] == s[from..];
    return result.value[..];
  }

  lemma SpanToEnd(from: nat, length: nat, span: Span)
    requires from < length && span == Span(from, length - from, if from + 1 == length then -1 else 1)
    ensures Spans(from, -1, true, length, span)
            && forall other :: Spans(from, -1, true, length, other) ==> other == span
  {
    assert forall n: int :: n * 1 == n;
  }

  lemma SpanOf(from: nat, to: nat, length: nat, span: Span)
    requires from <= to <= length && from < length
             && span == Span(from, to - from, if from == to then 0 else if from + 1 == to then -1 else 1)
    ensures Spans(from, to, false, length, span)
            && forall other :: Spans(from, to, false, length, other) ==> other == span
  {
    assert forall n: int :: n * 1 == n;
  }

  // The step does not matter to a slice of at most one index.
  lemma SliceFew(s: seq<byte>, from: nat)
    requires from < |s|
    ensures Written(s, from, 0, 0) == Written(s, from, 0, 1) && Allocated(s, from, 0, 0) == Allocated(s, from, 0, 1)
    ensures InRange(s, from, 1, -1) && Written(s, from, 1, -1) == Written(s, from, 1, 1)
            && Allocated(s, from, 1, -1) == Allocated(s, from, 1, 1)
  {
  }

  // string.split(delimiter), or None for an empty delimiter.
  method Split(s: seq<byte>, d: seq<byte>, ghost cps: seq<nat>, ghost ds: seq<nat>) returns (r: Option<seq<seq<byte>>>)
    requires ValidCodePoints(cps) && ValidCodePoints(ds) && s == EncodedAll(cps) && d == EncodedAll(ds)
    ensures r == if d == [] then None else Some(Pieces(s, d, 0))
  {
    hide LeadAt, EncodedAll, Pieces, Match;
    if |d| == 0 { return None; }
    var result: seq<seq<byte>> := [];
    var last, index := 0, 0;
    NoByte255(cps);
    NoByte255(ds);
    AtStart(cps, ds);
    while last < |s|
      invariant last <= |s| && IsBoundary(cps, last) && Pieces(s, d, 0) == result + Pieces(s, d, last)
      decreases |s| - last
    {
      index := IndexOf(s, d, last);
      PiecesStep(s, d, last);
      if index == -1 { break; }
      Ends(cps, ds, index);
      var piece := Slice(s, last, index, cps);
      result := result + [piece];
      last := index + |d|;
    }
    PiecesStep(s, d, last);
    if last < |s| {
      var piece := SliceToEnd(s, last, cps);
      return Some(result + [piece]);
    } else {
      return Some(result + [[]]);
    }
  }

  lemma AtStart(cps: seq<nat>, ds: seq<nat>)
    requires ValidCodePoints(cps) && ValidCodePoints(ds) && EncodedAll(ds) != []
    ensures IsBoundary(cps, 0) && ds != []
  {
    if cps != [] { FirstLead(cps); }
  }

  lemma AtEnd(cps: seq<nat>)
    ensures IsBoundary(cps, |EncodedAll(cps)|)
  {
  }

  lemma Ends(cps: seq<nat>, ds: seq<nat>, i: nat)
    requires ValidCodePoints(cps) && ValidCodePoints(ds) && ds != [] && Match(EncodedAll(cps), EncodedAll(ds), i)
    ensures IsBoundary(cps, i) && IsBoundary(cps, i + |EncodedAll(ds)|) && i + |EncodedAll(ds)| <= |EncodedAll(cps)|
            && |EncodedAll(ds)| > 0
  {
    MatchBoundaries(cps, ds, i);
    Start(ds);
  }

  lemma PiecesStep(s: seq<byte>, d: seq<byte>, last: nat)
    requires d != []
    ensures last >= |s| ==> Pieces(s, d, last) == [[]]
    ensures last < |s| && NextMatch(s, d, last) == -1 ==> Pieces(s, d, last) == [s[last..]]
    ensures var i := NextMatch(s, d, last);
            last < |s| && i != -1 ==> i <= |s| && Pieces(s, d, last) == [s[last..i]] + Pieces(s, d, i + |d|)
  {
  }

  // list.join(sep).
  method Join(elements: seq<seq<byte>>, sep: seq<byte>) returns (result: seq<byte>)
    ensures result == Joined(elements, sep)
  {
    var first := true;
    result := [];
    for i := 0 to |elements|
      invariant first <==> i == 0
      invariant result == Joined(elements[..i], sep)
    {
      assert elements[..i + 1] == elements[..i] + [elements[i]];
      JoinedMore(elements[..i], elements[i], sep);
      if !first { result := result + sep; }
      first := false;
      result := result + elements[i];
    }
    assert elements[..|elements|] == elements;
  }

  lemma {:induction false} JoinedMore(ps: seq<seq<byte>>, p: seq<byte>, sep: seq<byte>)
    ensures Joined(ps + [p], sep) == if ps == [] then p else Joined(ps, sep) + sep + p
    decreases |ps|
  {
    if ps == [] {
      assert ps + [p] == [p];
    } else {
      JoinedMore(ps[1..], p, sep);
      assert (ps + [p])[1..] == ps[1..] + [p];
    }
  }

  // string.replace(from, to), or None for an empty [from]: what splitting by [from] and
  // joining with [to] gives.
  method Replace(s: seq<byte>, from: seq<byte>, to: seq<byte>, ghost cps: seq<nat>, ghost fs: seq<nat>)
    returns (r: Option<seq<byte>>)
    requires ValidCodePoints(cps) && ValidCodePoints(fs) && s == EncodedAll(cps) && from == EncodedAll(fs)
    ensures r == if from == [] then None else Some(Joined(Pieces(s, from, 0), to))
  {
    hide LeadAt, EncodedAll, Pieces, Match, Joined;
    if |from| == 0 { return None; }
    var result: seq<byte> := [];
    var last, index := 0, 0;
    NoByte255(cps);
    NoByte255(fs);
    AtStart(cps, fs);
    while last < |s|
      invariant last <= |s| && IsBoundary(cps, last)
                && Joined(Pieces(s, from, 0), to) == result + Joined(Pieces(s, from, last), to)
      decreases |s| - last
    {
      index := IndexOf(s, from, last);
      PiecesStep(s, from, last);
      if index == -1 { break; }
      Ends(cps, fs, index);
      var piece := Slice(s, last, index, cps);
      JoinedStep(piece, Pieces(s, from, index + |from|), to);
      result := result + piece + to;
      last := index + |from|;
    }
    PiecesStep(s, from, last);
    if last < |s| {
      var rest := SliceToEnd(s, last, cps);
      JoinedStep(rest, [], to);
      result := result + rest;
    } else {
      JoinedStep([], [], to);
      assert result + [] == result;
    }
    return Some(result);
  }

  lemma JoinedStep(p: seq<byte>, ps: seq<seq<byte>>, sep: seq<byte>)
    ensures Joined([p], sep) == p
    ensures ps != [] ==> Joined([p] + ps, sep) == p + sep + Joined(ps, sep)
  {
    assert ([p] + ps)[1..] == ps;
  }
}
