/** UTF-8, section 3 of RFC 3629, without its exclusion of surrogates: encoding, decoding,
    and iterating over the code points of a string. Bit operations are written as
    arithmetic. */
module Utf8 {
  import opened Bytes

  const MAX_CODE_POINT := 0x10ffff

  // A byte of the form 10xxxxxx.
  predicate IsContinuation(b: byte) {
    0x80 <= b < 0xc0
  }

  // ----- Encoding -----

  function EncodeNumBytes(value: nat): nat {
    if value <= 0x7f then 1 else if value <= 0x7ff then 2 else if value <= 0xffff then 3
        else if value <= MAX_CODE_POINT then 4 else 0
  }

  // The last [n] continuation bytes of a code point.
  function Tail(value: nat, n: nat): (r: seq<byte>)
    ensures |r| == n && forall i :: 0 <= i < n ==> IsContinuation(r[i])
  {
    if n == 0 then [] else Tail(value / 64, n - 1) + [0x80 + value % 64]
  }

  // The encoding of a code point, which larger values do not have.
  function Encoded(value: nat): (r: seq<byte>)
    ensures |r| == EncodeNumBytes(value)
  {
    if value <= 0x7f then [value]
    else if value <= 0x7ff then [0xc0 + value / 64] + Tail(value, 1)
    else if value <= 0xffff then [0xe0 + value / 0x1000] + Tail(value, 2)
    else if value <= MAX_CODE_POINT then [0xf0 + value / 0x40000] + Tail(value, 3)
    else []
  }

  // Writes the encoding of [value] at [at], and returns its length. Larger values are
  // declared unreachable.
  method Encode(value: nat, bytes: array<byte>, at: nat) returns (n: nat)
    requires value <= MAX_CODE_POINT && at + EncodeNumBytes(value) <= bytes.Length
    modifies bytes
    ensures n == |Encoded(value)| && bytes[..] == old(bytes[..at]) + Encoded(value) + old(bytes[at + n..])
  {
    hide Encoded;
    EncodedForm(value);
    ghost var before := bytes[..];
    n := EncodeNumBytes(value);
    if value <= 0x7f {
      bytes[at] := value;
    } else if value <= 0x7ff {
      bytes[at] := 0xc0 + value / 64 % 32;
      bytes[at + 1] := 0x80 + value % 64;
    } else if value <= 0xffff {
      bytes[at] := 0xe0 + value / 0x1000 % 16;
      bytes[at + 1] := 0x80 + value / 64 % 64;
      bytes[at + 2] := 0x80 + value % 64;
    } else {
      bytes[at] := 0xf0 + value / 0x40000 % 8;
      bytes[at + 1] := 0x80 + value / 0x1000 % 64;
      bytes[at + 2] := 0x80 + value / 64 % 64;
      bytes[at + 3] := 0x80 + value % 64;
    }
    assert bytes[at..at + n] == Encoded(value);
    assert bytes[..] == before[..at] + bytes[at..at + n] + before[at + n..];
  }

  // The bytes of an encoding.
  lemma EncodedForm(value: nat)
    ensures 0x7f < value <= 0x7ff ==> Encoded(value) == [0xc0 + value / 64 % 32, 0x80 + value % 64]
    ensures 0x7ff < value <= 0xffff ==>
              Encoded(value) == [0xe0 + value / 0x1000 % 16, 0x80 + value / 64 % 64, 0x80 + value % 64]
    ensures 0xffff < value <= 0x10ffff ==>
              Encoded(value)
                  == [0xf0 + value / 0x40000 % 8, 0x80 + value / 0x1000 % 64, 0x80 + value / 64 % 64, 0x80 + value % 64]
    ensures value <= 0x7f ==> Encoded(value) == [value]
    ensures value > 0x10ffff ==> Encoded(value) == []
  {
    TailForm(value);
    hide Tail;
    if 0x7f < value <= 0x7ff { Quotient(value, 64); }
    if 0x7ff < value <= 0xffff { Quotient(value, 0x1000); }
    if 0xffff < value <= MAX_CODE_POINT { Quotient(value, 0x40000); }
  }

  lemma Quotient(value: nat, d: nat)
    requires d == 64 || d == 0x1000 || d == 0x40000
    ensures value < d * 8 ==> value / d % 8 == value / d
    ensures value < d * 16 ==> value / d % 16 == value / d
    ensures value < d * 32 ==> value / d % 32 == value / d
  {
  }

  lemma TailForm(value: nat)
    ensures Tail(value, 1) == [0x80 + value % 64]
    ensures Tail(value, 2) == [0x80 + value / 64 % 64, 0x80 + value % 64]
    ensures Tail(value, 3) == [0x80 + value / 0x1000 % 64, 0x80 + value / 64 % 64, 0x80 + value % 64]
  {
    TailStep(value, 0);
    TailStep(value / 64, 0);
    TailStep(value / 64 / 64, 0);
    TailStep(value, 1);
    TailStep(value / 64, 1);
    TailStep(value, 2);
    assert value / 64 / 64 == value / 0x1000;
  }

  lemma TailStep(value: nat, n: nat)
    ensures Tail(value, n + 1) == Tail(value / 64, n) + [0x80 + value % 64] && (n == 0 ==> Tail(value, n) == [])
  {
  }

  // ----- Decoding -----

  // The number of bytes of the sequence that [b] starts, or 0 if it is in the middle.
  function DecodeNumBytes(b: byte): nat {
    if IsContinuation(b) then 0
    else if 0xf0 <= b < 0xf8 then 4
    else if 0xe0 <= b < 0xf0 then 3
    else if 0xc0 <= b < 0xe0 then 2
    else 1
  }

  // Appends continuation bytes to [value]; -1 if one of them is none.
  function DecodedTail(value: nat, s: seq<byte>): int
    decreases |s|
  {
    if s == [] then value
    else if !IsContinuation(s[0]) then -1
    else DecodedTail(value * 64 + (s[0] - 0x80), s[1..])
  }

  // The code point that [s] starts with, or -1.
  function Decoded(s: seq<byte>): (r: int)
    requires s != []
    ensures r >= -1
  {
    var b := s[0];
    if b <= 0x7f then b
    else if 0xc0 <= b < 0xe0 then (if |s| < 2 then -1 else DecodedFrom(b - 0xc0, s[1..2]))
    else if 0xe0 <= b < 0xf0 then (if |s| < 3 then -1 else DecodedFrom(b - 0xe0, s[1..3]))
    else if 0xf0 <= b < 0xf8 then (if |s| < 4 then -1 else DecodedFrom(b - 0xf0, s[1..4]))
    else -1
  }

  function DecodedFrom(value: nat, s: seq<byte>): (r: int)
    ensures r >= -1
  {
    TailRange(value, s);
    DecodedTail(value, s)
  }

  lemma {:induction false} TailRange(value: nat, s: seq<byte>)
    ensures DecodedTail(value, s) >= -1
    decreases |s|
  {
    if s != [] && IsContinuation(s[0]) { TailRange(value * 64 + (s[0] - 0x80), s[1..]); }
  }

  // The code point that a sequence of each length gives, and the sequences that give none.
  lemma DecodedForm(s: seq<byte>)
    requires s != []
    ensures s[0] < 0x80 ==> Decoded(s) == s[0]
    ensures 0x80 <= s[0] < 0xc0 || 0xf8 <= s[0] ==> Decoded(s) == -1
    ensures 0xc0 <= s[0] < 0xe0 ==>
              Decoded(s) == if |s| < 2 || s[1] / 64 != 2 then -1
                  else ((s[0] as int) - 0xc0) * 64 + ((s[1] as int) - 0x80)
    ensures 0xe0 <= s[0] < 0xf0 ==>
              Decoded(s)
                  == if |s| < 3 || s[1] / 64 != 2 || s[2] / 64 != 2 then -1
                     else ((s[0] as int) - 0xe0) * 0x1000 + ((s[1] as int) - 0x80) * 64 + ((s[2] as int) - 0x80)
    ensures 0xf0 <= s[0] < 0xf8 ==>
              Decoded(s)
                  == if |s| < 4 || s[1] / 64 != 2 || s[2] / 64 != 2 || s[3] / 64 != 2 then -1
                     else (((s[0] as int) - 0xf0) * 0x40000 + ((s[1] as int) - 0x80) * 0x1000
                           + ((s[2] as int) - 0x80) * 64 + ((s[3] as int) - 0x80))
  {
    hide DecodedTail;
    if |s| >= 2 { TailOne((s[0] as int) - 0xc0, s[1..2]); }
    if |s| >= 3 { TailTwo((s[0] as int) - 0xe0, s[1..3]); }
    if |s| >= 4 { TailThree((s[0] as int) - 0xf0, s[1..4]); }
  }

  lemma TailOne(v: int, s: seq<byte>)
    requires |s| == 1
    ensures v >= 0 ==> DecodedTail(v, s) == if s[0] / 64 != 2 then -1 else v * 64 + ((s[0] as int) - 0x80)
  {
    if v >= 0 { assert DecodedTail(v * 64, []) == v * 64; }
  }

  lemma TailTwo(v: int, s: seq<byte>)
    requires |s| == 2
    ensures v >= 0 ==>
              DecodedTail(v, s)
                  == if s[0] / 64 != 2 || s[1] / 64 != 2 then -1
                     else v * 0x1000 + ((s[0] as int) - 0x80) * 64 + ((s[1] as int) - 0x80)
  {
    if v >= 0 && IsContinuation(s[0]) { TailOne(v * 64 + ((s[0] as int) - 0x80), s[1..]); }
  }

  lemma TailThree(v: int, s: seq<byte>)
    requires |s| == 3
    ensures v >= 0 ==>
              DecodedTail(v, s)
                  == if s[0] / 64 != 2 || s[1] / 64 != 2 || s[2] / 64 != 2 then -1
                     else (v * 0x40000 + ((s[0] as int) - 0x80) * 0x1000 + ((s[1] as int) - 0x80) * 64
                           + ((s[2] as int) - 0x80))
  {
    if v >= 0 && IsContinuation(s[0]) { TailTwo(v * 64 + ((s[0] as int) - 0x80), s[1..]); }
  }

  method Decode(bytes: seq<byte>) returns (value: int)
    requires bytes != []
    ensures value == Decoded(bytes)
  {
    var b := bytes[0];
    if b <= 0x7f { return b; }
    var remainingBytes: nat;
    if 0xc0 <= b < 0xe0 {
      value := b % 0x20;
      remainingBytes := 1;
    } else if 0xe0 <= b < 0xf0 {
      value := b % 0x10;
      remainingBytes := 2;
    } else if 0xf0 <= b < 0xf8 {
      value := b % 0x08;
      remainingBytes := 3;
    } else {
      return -1;
    }
    if remainingBytes > |bytes| - 1 { return -1; }
    var i := 0;
    ghost var end := remainingBytes + 1;
    assert Decoded(bytes) == DecodedTail(value, bytes[1..end]);
    while remainingBytes > 0
      invariant i + 1 + remainingBytes == end <= |bytes| && value >= 0
                && Decoded(bytes) == DecodedTail(value, bytes[i + 1..end])
    {
      i := i + 1;
      remainingBytes := remainingBytes - 1;
      assert bytes[i..end][0] == bytes[i] && bytes[i..end][1..] == bytes[i + 1..end];
      if !IsContinuation(bytes[i]) { return -1; }
      value := value * 64 + bytes[i] % 64;
    }
  }

  // Decoding the encoding of a code point, with anything after it, gives it back.
  lemma {:induction false} DecodeEncoded(value: nat, rest: seq<byte>)
    requires value <= MAX_CODE_POINT
    ensures Encoded(value) != [] && Decoded(Encoded(value) + rest) == value
            && DecodeNumBytes(Encoded(value)[0]) == |Encoded(value)|
    ensures !IsContinuation(Encoded(value)[0])
            && forall i :: 0 < i < |Encoded(value)| ==> IsContinuation(Encoded(value)[i])
  {
    var s := Encoded(value) + rest;
    ShiftedForm(value);
    hide Tail, DecodedTail, Shifted;
    if 0x7f < value <= 0x7ff {
      assert s[1..2] == Tail(value, 1);
      DecodeTail(value, 1);
    } else if 0x7ff < value <= 0xffff {
      assert s[1..3] == Tail(value, 2);
      DecodeTail(value, 2);
    } else if 0xffff < value {
      assert s[1..4] == Tail(value, 3);
      DecodeTail(value, 3);
    }
  }

  // What is left of [value] without its last [n] groups of six bits.
  function Shifted(value: nat, n: nat): nat {
    if n == 0 then value else Shifted(value / 64, n - 1)
  }

  lemma {:induction false} DecodeTail(value: nat, n: nat)
    ensures DecodedTail(Shifted(value, n), Tail(value, n)) == value
  {
    if n > 0 {
      DecodeTail(value / 64, n - 1);
      TailAppend(Shifted(value, n), Tail(value / 64, n - 1), 0x80 + value % 64);
    }
  }

  lemma ShiftedForm(value: nat)
    ensures Shifted(value, 1) == value / 64 && Shifted(value, 2) == value / 0x1000
            && Shifted(value, 3) == value / 0x40000
  {
    assert Shifted(value / 64, 1) == value / 64 / 64
        && Shifted(value / 64, 2) == Shifted(value / 64 / 64, 1) == value / 64 / 64 / 64;
  }

  lemma {:induction false} TailAppend(value: nat, s: seq<byte>, b: byte)
    requires IsContinuation(b) && DecodedTail(value, s) >= 0
    ensures DecodedTail(value, s + [b]) == DecodedTail(value, s) * 64 + (b - 0x80)
    decreases |s|
  {
    if s != [] {
      TailAppend(value * 64 + (s[0] - 0x80), s[1..], b);
      assert (s + [b])[1..] == s[1..] + [b];
    }
  }
}
