/** Iterating over a string, and slicing it by a range of byte indices. */
module Slicing {
  import opened Bytes
  import opened Utf8
  import opened Options

  // ----- Well-formed strings -----

  predicate ValidCodePoints(cps: seq<nat>) {
    forall i :: 0 <= i < |cps| ==> cps[i] <= MAX_CODE_POINT
  }

  function EncodedAll(cps: seq<nat>): seq<byte> {
    if cps == [] then [] else Encoded(cps[0]) + EncodedAll(cps[1..])
  }

  // The code point whose first byte is at [i].
  function LeadAt(cps: seq<nat>, i: nat): Option<nat> {
    if cps == [] then None
    else if i == 0 then Some(cps[0])
    else if i < |Encoded(cps[0])| then None
    else LeadAt(cps[1..], i - |Encoded(cps[0])|)
  }

  // Every byte of a well-formed string starts a code point, which decodes as it was, or
  // is in the middle of one.
  lemma {:induction false} ByteAt(cps: seq<nat>, i: nat)
    requires ValidCodePoints(cps) && i < |EncodedAll(cps)|
    ensures var s := EncodedAll(cps); LeadAt(cps, i).None? <==> IsContinuation(s[i])
    ensures var s := EncodedAll(cps);
            LeadAt(cps, i).Some? ==>
                  LeadAt(cps, i).value <= MAX_CODE_POINT && Decoded(s[i..]) == LeadAt(cps, i).value
                      && DecodeNumBytes(s[i]) == |Encoded(LeadAt(cps, i).value)|
    decreases |cps|
  {
    hide Encoded, Decoded, DecodeNumBytes, EncodeNumBytes, IsContinuation;
    var s, e := EncodedAll(cps), Encoded(cps[0]);
    DecodeEncoded(cps[0], EncodedAll(cps[1..]));
    if i == 0 {
      assert s[0..] == s;
    } else if i < |e| {
      assert s[i] == e[i];
    } else {
      ByteAt(cps[1..], i - |e|);
      assert EncodedAll(cps[1..])[i - |e|..] == s[i..];
    }
  }

  // ----- Iteration -----

  // The next index that does not continue a code point.
  method Iterate(s: seq<byte>, last: Option<int>) returns (r: Option<nat>)
    ensures last.None? ==> r == if s == [] then None else Some(0)
    ensures last.Some? && last.value < 0 ==> r == None
    ensures last.Some? && last.value >= 0 && r.Some? ==>
              last.value < r.value < |s| && !IsContinuation(s[r.value]) && Continues(s, last.value + 1, r.value)
    ensures last.Some? && last.value >= 0 && r.None? ==> Continues(s, last.value + 1, |s|)
  {
    if last.None? {
      if |s| == 0 { return None; }
      return Some(0);
    }
    if last.value < 0 { return None; }
    var index := last.value + 1;
    if index >= |s| { return None; }
    while IsContinuation(s[index])
      invariant last.value < index < |s| && Continues(s, last.value + 1, index)
      decreases |s| - index
    {
      index := index + 1;
      if index >= |s| { return None; }
    }
    return Some(index);
  }

  ghost predicate Continues(s: seq<byte>, a: int, b: int) {
    forall i :: 0 <= i < |s| && a <= i < b ==> IsContinuation(s[i])
  }

  // What a loop over the code points sees.
  method CodePoints(s: seq<byte>, ghost cps: seq<nat>) returns (seen: seq<int>)
    requires ValidCodePoints(cps) && s == EncodedAll(cps)
    ensures seen == cps
  {
    hide Encoded, Decoded, Continues;
    seen := [];
    var index := Iterate(s, None);
    ghost var k := 0;
    Start(cps);
    while index.Some?
      invariant k <= |cps| && |seen| == k && (forall j :: 0 <= j < k ==> seen[j] == cps[j])
      invariant index.Some? ==> k < |cps| && index.value < |s| && s[index.value..] == EncodedAll(cps[k..])
      invariant index.None? ==> k == |cps|
      decreases |cps| - k
    {
      var i := index.value;
      var c := Decode(s[i..]);
      index := Iterate(s, Some(i));
      Following(s, cps, k, i, index);
      seen := seen + [c];
      k := k + 1;
    }
  }

  lemma Start(cps: seq<nat>)
    requires ValidCodePoints(cps)
    ensures EncodedAll(cps) == [] <==> cps == []
    ensures cps[0..] == cps && EncodedAll(cps)[0..] == EncodedAll(cps)
  {
    if cps != [] { DecodeEncoded(cps[0], []); }
  }

  // From the start of code point [k], the iteration goes to the next one.
  lemma Following(s: seq<byte>, cps: seq<nat>, k: nat, i: nat, next: Option<nat>)
    requires ValidCodePoints(cps) && k < |cps| && i < |s| && s[i..] == EncodedAll(cps[k..])
    requires next.Some? ==> i < next.value < |s| && !IsContinuation(s[next.value]) && Continues(s, i + 1, next.value)
    requires next.None? ==> Continues(s, i + 1, |s|)
    ensures Decoded(s[i..]) == cps[k] && (next.None? <==> k + 1 == |cps|)
            && (next.Some? ==> s[next.value..] == EncodedAll(cps[k + 1..]))
  {
    hide Encoded, Decoded, DecodeNumBytes, EncodeNumBytes, IsContinuation;
    var e, rest := Encoded(cps[k]), EncodedAll(cps[k + 1..]);
    DecodeEncoded(cps[k], rest);
    assert cps[k..][1..] == cps[k + 1..] && s[i..] == e + rest;
    assert forall j {:trigger e[j]} :: 0 < j < |e| ==> s[i + j] == e[j];
    assert s[i + |e|..] == rest;
    if rest != [] {
      Start(cps[k + 1..]);
      DecodeEncoded(cps[k + 1], EncodedAll(cps[k + 1..][1..]));
      assert s[i + |e|] == rest[0] == Encoded(cps[k + 1])[0];
    } else {
      Start(cps[k + 1..]);
    }
  }

  // ----- Slices -----

  // The indices start, start + step, ... are in the string.
  predicate InRange(s: seq<byte>, start: int, count: nat, step: int) {
    forall i :: 0 <= i < count ==> 0 <= start + i * step < |s|
  }

  // What a slice takes from index [i].
  function Piece(s: seq<byte>, i: nat): seq<byte>
    requires i < |s|
  {
    var c := Decoded(s[i..]);
    if c == -1 then [] else Encoded(c)
  }

  // The bytes that a slice writes.
  function Written(s: seq<byte>, start: int, count: nat, step: int): seq<byte>
    requires InRange(s, start, count, step)
  {
    if count == 0 then [] else Written(s, start, count - 1, step) + Piece(s, start + (count - 1) * step)
  }

  // The bytes that it allocates.
  function Allocated(s: seq<byte>, start: int, count: nat, step: int): nat
    requires InRange(s, start, count, step)
  {
    if count == 0 then 0 else Allocated(s, start, count - 1, step) + DecodeNumBytes(s[start + (count - 1) * step])
  }

  // Decoding never yields a code point longer than the bytes it was decoded from.
  lemma PieceFits(s: seq<byte>, i: nat)
    requires i < |s|
    ensures |Piece(s, i)| <= DecodeNumBytes(s[i])
  {
    var t := s[i..];
    var n := DecodeNumBytes(t[0]);
    if 2 <= n <= |t| {
      var lead := t[0] - (if n == 2 then 0xc0 else if n == 3 then 0xe0 else 0xf0);
      TailBound(lead, t[1..n]);
    }
  }

  // Each continuation byte adds six bits.
  lemma TailBound(value: nat, t: seq<byte>)
    requires |t| <= 3
    ensures |t| == 1 ==> DecodedTail(value, t) < (value + 1) * 64
    ensures |t| == 2 ==> DecodedTail(value, t) < (value + 1) * 0x1000
    ensures |t| == 3 ==> DecodedTail(value, t) < (value + 1) * 0x40000
    decreases |t|
  {
    if t != [] && IsContinuation(t[0]) { TailBound(value * 64 + (t[0] - 0x80), t[1..]); }
  }

  // The byte at [i] is ASCII, or is in the middle of a sequence, or starts one that is
  // complete, is the shortest one for its code point, and is not above the last.
  predicate CompleteAt(s: seq<byte>, i: nat)
    requires i < |s|
  {
    var b := s[i];
    || b < 0xc0
    || (0xc2 <= b < 0xe0 && Follows(s, i, 1))
    || (0xe0 <= b < 0xf0 && Follows(s, i, 2) && (b == 0xe0 ==> s[i + 1] >= 0xa0))
    || (0xf0 <= b <= 0xf4 && Follows(s, i, 3) && (b == 0xf0 ==> s[i + 1] >= 0x90) && (b == 0xf4 ==> s[i + 1] < 0x90))
  }

  // [n] continuation bytes follow the one at [i].
  predicate Follows(s: seq<byte>, i: nat, n: nat) {
    i + n < |s| && forall j :: i < j <= i + n ==> IsContinuation(s[j])
  }

  // The sequence at [i] is of a code point above the last one, which the original
  // declares unreachable.
  predicate TooLarge(s: seq<byte>, i: nat)
    requires i < |s|
  {
    Decoded(s[i..]) > MAX_CODE_POINT
  }

  // Both are known from the bytes: the piece fills what is allocated for it exactly when
  // its sequence is complete.
  lemma PieceComplete(s: seq<byte>, i: nat)
    requires i < |s|
    ensures |Piece(s, i)| == DecodeNumBytes(s[i]) <==> CompleteAt(s, i)
    ensures TooLarge(s, i) <==> 0xf4 <= s[i] < 0xf8 && Follows(s, i, 3) && (s[i] == 0xf4 ==> s[i + 1] >= 0x90)
  {
    hide Decoded, Encoded, EncodeNumBytes;
    var b, c := s[i], Decoded(s[i..]);
    SequenceAt(s, i);
    NumBytes(b);
    hide DecodeNumBytes;
    assert |Piece(s, i)| == if c == -1 then 0 else EncodeNumBytes(c);
    if c >= 0 { NumBytesOf(c); }
  }

  lemma NumBytes(b: byte)
    ensures DecodeNumBytes(b) == if b < 0x80 then 1 else if b < 0xc0 then 0 else if b < 0xe0 then 2
            else if b < 0xf0 then 3 else if b < 0xf8 then 4 else 1
  {
  }

  lemma NumBytesOf(c: nat)
    ensures EncodeNumBytes(c) == if c < 0x80 then 1 else if c < 0x800 then 2 else if c < 0x1_0000 then 3
            else if c <= MAX_CODE_POINT then 4 else 0
  {
  }

  // The code point of the sequence at [i].
  lemma SequenceAt(s: seq<byte>, i: nat)
    requires i < |s|
    ensures var b, c := s[i] as int, Decoded(s[i..]);
            && (b < 0x80 ==> c == b) && (0x80 <= b < 0xc0 || b >= 0xf8 ==> c == -1)
            && (0xc0 <= b < 0xe0 ==> c == if Follows(s, i, 1) then (b - 0xc0) * 64 + (s[i + 1] as int - 0x80) else -1)
            && (0xe0 <= b < 0xf0 ==>
                  c == if Follows(s, i, 2)
                      then (b - 0xe0) * 0x1000 + (s[i + 1] as int - 0x80) * 64 + (s[i + 2] as int - 0x80) else -1)
            && (0xf0 <= b < 0xf8 ==>
                  c == if Follows(s, i, 3)
                       then (b - 0xf0) * 0x40000 + (s[i + 1] as int - 0x80) * 0x1000 + (s[i + 2] as int - 0x80) * 64
                           + (s[i + 3] as int - 0x80)
                       else -1)
  {
    hide DecodedFrom;
    var b, t := s[i], s[i..];
    if 0xc0 <= b < 0xe0 && |t| >= 2 {
      assert t[1..2] == [s[i + 1]];
      DecodedOne(b - 0xc0, t[1..2]);
    } else if 0xe0 <= b < 0xf0 && |t| >= 3 {
      assert t[1..3] == [s[i + 1], s[i + 2]];
      DecodedTwo(b - 0xe0, t[1..3]);
    } else if 0xf0 <= b < 0xf8 && |t| >= 4 {
      assert t[1..4] == [s[i + 1], s[i + 2], s[i + 3]];
      DecodedThree(b - 0xf0, t[1..4]);
    }
  }

  lemma DecodedOne(value: nat, t: seq<byte>)
    requires |t| == 1
    ensures DecodedFrom(value, t) == if IsContinuation(t[0]) then value * 64 + (t[0] as int - 0x80) else -1
  {
    assert t[1..] == [];
    if IsContinuation(t[0]) { assert DecodedTail(value * 64 + (t[0] - 0x80), []) == value * 64 + (t[0] - 0x80); }
  }

  lemma DecodedTwo(value: nat, t: seq<byte>)
    requires |t| == 2
    ensures DecodedFrom(value, t)
         == if IsContinuation(t[0]) && IsContinuation(t[1])
            then value * 0x1000 + (t[0] as int - 0x80) * 64 + (t[1] as int - 0x80) else -1
  {
    if IsContinuation(t[0]) { DecodedOne(value * 64 + (t[0] - 0x80), t[1..]); }
  }

  lemma DecodedThree(value: nat, t: seq<byte>)
    requires |t| == 3
    ensures DecodedFrom(value, t)
         == if IsContinuation(t[0]) && IsContinuation(t[1]) && IsContinuation(t[2])
            then value * 0x40000 + (t[0] as int - 0x80) * 0x1000 + (t[1] as int - 0x80) * 64 + (t[2] as int - 0x80)
                else -1
  {
    if IsContinuation(t[0]) { DecodedTwo(value * 64 + (t[0] - 0x80), t[1..]); }
  }

  // A slice that reaches no code point above the last writes at most what it allocates,
  // and all of that exactly when every sequence that starts at one of its indices is
  // complete.
  lemma {:induction false} WrittenFits(s: seq<byte>, start: int, count: nat, step: int)
    requires InRange(s, start, count, step)
    ensures |Written(s, start, count, step)| <= Allocated(s, start, count, step)
    ensures |Written(s, start, count, step)| == Allocated(s, start, count, step)
            <==> forall i :: 0 <= i < count ==> CompleteAt(s, start + i * step)
  {
    hide Piece, DecodeNumBytes, CompleteAt, TooLarge, Follows;
    if count > 0 {
      WrittenFits(s, start, count - 1, step);
      PieceFits(s, start + (count - 1) * step);
      PieceComplete(s, start + (count - 1) * step);
    }
  }

  // A sequence cut short, and one that is longer than it need be: some of the bytes
  // allocated are not written.
  lemma SliceUnwritten(s: seq<byte>, t: seq<byte>)
    requires s == [0xc2] && t == [0xc0, 0x80]
    ensures InRange(s, 0, 1, 1) && |Written(s, 0, 1, 1)| == 0 && Allocated(s, 0, 1, 1) == 2
    ensures InRange(t, 0, 2, 1) && |Written(t, 0, 2, 1)| == 1 && Allocated(t, 0, 2, 1) == 2
  {
    SequenceAt(s, 0);
    SequenceAt(t, 0);
    SequenceAt(t, 1);
    hide Decoded;
    assert Piece(s, 0) == [] && Piece(t, 0) == [0] && Piece(t, 1) == [];
    hide Piece;
    assert Written(s, 0, 0, 1) == [] && Written(t, 0, 0, 1) == [] && Written(t, 0, 1, 1) == [0];
    assert Allocated(s, 0, 0, 1) == Allocated(t, 0, 0, 1) == 0 && Allocated(t, 0, 1, 1) == 2;
  }

  // A slice of [count] bytes from [start], of the code points that start at them. It never
  // writes more than it allocates. When it comes to a code point above the last, it
  // reaches what the original declares unreachable, and the result means nothing.
  method NewStringFromRange(source: seq<byte>, start: int, count: nat, step: int)
    returns (result: array<byte>, n: nat, unreachable: bool)
    requires InRange(source, start, count, step)
    ensures fresh(result) && result.Length == Allocated(source, start, count, step)
    ensures unreachable <==> exists i :: 0 <= i < count && TooLarge(source, start + i * step)
    ensures !unreachable ==> n <= result.Length && result[..n] == Written(source, start, count, step)
  {
    hide Piece, DecodeNumBytes;
    unreachable := false;
    var length := 0;
    for i := 0 to count
      invariant InRange(source, start, i, step) && length == Allocated(source, start, i, step)
    {
      length := length + DecodeNumBytes(source[start + i * step]);
    }
    result := new byte[length];
    n := 0;
    for i := 0 to count
      invariant forall j :: 0 <= j < i ==> !TooLarge(source, start + j * step)
      invariant InRange(source, start, i, step) && n <= result.Length == length
                && result[..n] == Written(source, start, i, step)
    {
      var index := start + i * step;
      Enough(source, start, count, step, i);
      var codePoint := Decode(source[index..]);
      PieceIs(source, index);
      if codePoint > MAX_CODE_POINT {
        assert TooLarge(source, start + i * step);
        unreachable := true;
        return;
      }
      if codePoint != -1 {
        ghost var before := result[..n];
        var k := Encode(codePoint, result, n);
        assert result[..n + k] == before + Encoded(codePoint);
        n := n + k;
      }
    }
  }

  lemma PieceIs(s: seq<byte>, i: nat)
    requires i < |s|
    ensures Piece(s, i) == if Decoded(s[i..]) == -1 then [] else Encoded(Decoded(s[i..]))
  {
  }

  // What is allocated is enough up to and including each index.
  lemma {:induction false} Enough(s: seq<byte>, start: int, count: nat, step: int, i: nat)
    requires InRange(s, start, count, step) && i < count
    ensures InRange(s, start, i, step) && InRange(s, start, i + 1, step)
    ensures |Written(s, start, i, step)| + |Piece(s, start + i * step)| <= Allocated(s, start, count, step)
    decreases count
  {
    hide Piece, DecodeNumBytes;
    if i + 1 < count {
      Enough(s, start, count - 1, step, i);
    } else {
      WrittenFits(s, start, i, step);
      PieceFits(s, start + i * step);
    }
  }

  // The code points whose first byte is at one of the indices, in the order of the
  // indices.
  function Selected(cps: seq<nat>, start: int, count: nat, step: int): seq<nat> {
    if count == 0 then []
    else
      var i := start + (count - 1) * step;
      Selected(cps, start, count - 1, step) + (if i >= 0 && LeadAt(cps, i).Some? then [LeadAt(cps, i).value] else [])
  }

  // A well-formed string has no code point above the last.
  lemma NoneTooLarge(cps: seq<nat>, i: nat)
    requires ValidCodePoints(cps) && i < |EncodedAll(cps)|
    ensures !TooLarge(EncodedAll(cps), i)
  {
    hide LeadAt, EncodedAll;
    ByteAt(cps, i);
    SequenceAt(EncodedAll(cps), i);
    hide Decoded;
  }

  lemma AllReachable(cps: seq<nat>, start: int, count: nat, step: int)
    requires ValidCodePoints(cps) && InRange(EncodedAll(cps), start, count, step)
    ensures forall i :: 0 <= i < count ==> !TooLarge(EncodedAll(cps), start + i * step)
  {
    hide EncodedAll, TooLarge;
    forall i | 0 <= i < count ensures !TooLarge(EncodedAll(cps), start + i * step) {
      NoneTooLarge(cps, start + i * step);
    }
  }

  // A slice of a well-formed string writes every byte that it allocates, and gives the
  // selected code points.
  lemma {:induction false} SliceSelects(cps: seq<nat>, start: int, count: nat, step: int)
    requires ValidCodePoints(cps) && InRange(EncodedAll(cps), start, count, step)
    ensures var s := EncodedAll(cps);
            && Written(s, start, count, step) == EncodedAll(Selected(cps, start, count, step))
            && |Written(s, start, count, step)| == Allocated(s, start, count, step)
  {
    hide LeadAt, EncodedAll, Piece, DecodeNumBytes, Encoded, EncodeNumBytes, Decoded;
    Start([]);
    if count > 0 {
      SliceSelects(cps, start, count - 1, step);
      SliceOne(cps, start + (count - 1) * step);
      var c := LeadAt(cps, start + (count - 1) * step);
      var before := Selected(cps, start, count - 1, step);
      assert before + [] == before;
      if c.Some? { EncodedMore(before, c.value); }
    } else {
      EncodedNone();
    }
  }

  lemma EncodedNone()
    ensures EncodedAll([]) == []
  {
  }

  lemma {:induction false} EncodedMore(cps: seq<nat>, c: nat)
    ensures EncodedAll(cps + [c]) == EncodedAll(cps) + Encoded(c)
    decreases |cps|
  {
    hide Encoded;
    if cps == [] {
      assert cps + [c] == [c] && [c][1..] == [];
    } else {
      EncodedMore(cps[1..], c);
      assert (cps + [c])[1..] == cps[1..] + [c];
    }
  }

  lemma SliceOne(cps: seq<nat>, i: nat)
    requires ValidCodePoints(cps) && i < |EncodedAll(cps)|
    ensures var s, c := EncodedAll(cps), LeadAt(cps, i);
            Piece(s, i) == (if c.Some? then Encoded(c.value) else []) && |Piece(s, i)| == DecodeNumBytes(s[i])
  {
    hide LeadAt, EncodedAll, Encoded;
    ByteAt(cps, i);
  }

  // ----- Ranges -----

  // An index from the end, when it is negative.
  function FromEnd(value: int, length: nat): int {
    if value < 0 then length + value else value
  }

  datatype Span = Span(start: nat, count: nat, step: int)

  // The indices of a range over [length] elements, or None when it is out of bounds.
  method CalculateRange(from: int, to: int, isInclusive: bool, length: nat) returns (r: Option<Span>)
    ensures r.Some? ==> Spans(from, to, isInclusive, length, r.value)
    ensures r.None? ==> forall span :: !Spans(from, to, isInclusive, length, span)
  {
    if from == length && to == (if isInclusive then -1 else length) { return Some(Span(0, 0, 0)); }
    var start := if from < 0 then length + from else from;
    if start < 0 || start >= length { return None; }
    var value := to;
    if value < 0 { value := length + value; }
    if !isInclusive {
      if value == start { return Some(Span(start, 0, 0)); }
      value := value + if value >= start then -1 else 1;
    }
    if value < 0 || value >= length { return None; }
    var distance := if start < value then value - start else start - value;
    return Some(Span(start, distance + 1, if start < value then 1 else -1));
  }

  // The span goes from the first index of the range to its last one, or is empty. An
  // exclusive range stops one before its end, from whichever side it comes.
  predicate Spans(from: int, to: int, isInclusive: bool, length: nat, span: Span) {
    var a, b := FromEnd(from, length), FromEnd(to, length);
    if from == length && to == (if isInclusive then -1 else length) then span == Span(0, 0, 0)
    else if !isInclusive && a == b then 0 <= a < length && span == Span(a, 0, 0)
    else
      var last := if isInclusive then b else if b > a then b - 1 else b + 1;
      && 0 <= a < length && 0 <= last < length && span.count > 0 && span.start == a
      && span.start + (span.count - 1) * span.step == last && span.step == if a < last then 1 else -1
  }

  // A range takes the indices from its first end to its last, the last one included or
  // not, in either direction. Negative ends count from the end.
  lemma SpanCovers(from: int, to: int, isInclusive: bool, length: nat, span: Span, i: int)
    requires Spans(from, to, isInclusive, length, span)
    requires !(from == length && to == if isInclusive then -1 else length)
    ensures var a := if from < 0 then length + from else from;
            var b := if to < 0 then length + to else to;
            && span.start == a && (span.count > 1 ==> span.step == if a < b then 1 else -1)
            && ((exists k :: 0 <= k < span.count && i == span.start + k * span.step)
                <==> if isInclusive then a <= i <= b || b <= i <= a else a <= i < b || b < i <= a)
  {
    var a := if from < 0 then length + from else from;
    var b := if to < 0 then length + to else to;
    if span.step == 1 {
      if a <= i < a + span.count { assert i == span.start + (i - a) * span.step; }
    } else if span.step == -1 {
      if a - span.count < i <= a { assert i == span.start + (a - i) * span.step; }
    }
  }

  // It is out of bounds unless both of its ends are indices, or it is empty. At the end of
  // the string an empty one is allowed, and an exclusive end may be one beyond.
  lemma SpanExists(from: int, to: int, isInclusive: bool, length: nat)
    ensures var a := if from < 0 then length + from else from;
            var b := if to < 0 then length + to else to;
            (exists span :: Spans(from, to, isInclusive, length, span))
            <==> || (from == length && to == if isInclusive then -1 else length)
                 || (0 <= a < length && if isInclusive then 0 <= b < length else -1 <= b <= length)
  {
    var a := if from < 0 then length + from else from;
    var b := if to < 0 then length + to else to;
    if from == length && to == (if isInclusive then -1 else length) {
      assert Spans(from, to, isInclusive, length, Span(0, 0, 0));
    } else if 0 <= a < length && (if isInclusive then 0 <= b < length else -1 <= b <= length) {
      var last := if isInclusive then b else if b > a then b - 1 else b + 1;
      var span := if !isInclusive && a == b then Span(a, 0, 0)
          else Span(a, if a < last then last - a + 1 else a - last + 1, if a < last then 1 else -1);
      assert Spans(from, to, isInclusive, length, span);
    }
  }

  // Every index of a span is in bounds.
  lemma SpanInRange(from: int, to: int, isInclusive: bool, s: seq<byte>, span: Span)
    requires Spans(from, to, isInclusive, |s|, span)
    ensures InRange(s, span.start, span.count, span.step)
  {
    forall i | 0 <= i < span.count ensures 0 <= span.start + i * span.step < |s| {
      if span.step == 1 {
        assert i * span.step == i && (span.count - 1) * span.step == span.count - 1;
      } else if span.step == -1 {
        assert i * span.step == -i && (span.count - 1) * span.step == -(span.count - 1);
      }
    }
  }

  // A string's slice by a range.
  method Subscript(s: seq<byte>, from: int, to: int, isInclusive: bool)
    returns (r: Option<array<byte>>, ghost span: Span, n: nat, unreachable: bool)
    ensures r.None? <==> forall sp :: !Spans(from, to, isInclusive, |s|, sp)
    ensures r.Some? ==>
              fresh(r.value) && Spans(from, to, isInclusive, |s|, span) && InRange(s, span.start, span.count, span.step)
    ensures r.Some? ==>
              && r.value.Length == Allocated(s, span.start, span.count, span.step)
              && (unreachable <==> exists i :: 0 <= i < span.count && TooLarge(s, span.start + i * span.step))
              && (!unreachable ==> n <= r.value.Length && r.value[..n] == Written(s, span.start, span.count, span.step))
  {
    hide Spans, InRange, TooLarge;
    var range := CalculateRange(from, to, isInclusive, |s|);
    if range.None? { return None, Span(0, 0, 0), 0, false; }
    span := range.value;
    SpanInRange(from, to, isInclusive, s, range.value);
    var result;
    result, n, unreachable := NewStringFromRange(s, range.value.start, range.value.count, range.value.step);
    r := Some(result);
  }
}
