/** Searching in strings, with the shift table of Boyer, Moore and Horspool. */
module StringFind {
  import opened Bytes

  // The length of the shift table, which has no entry for byte 255.
  const UINT8_MAX := 255

  // OutOfBounds is an access beyond the shift table.
  datatype Outcome = Found(index: nat) | NotFound | OutOfBounds

  // [needle] occurs in [haystack] at [i].
  predicate Match(haystack: seq<byte>, needle: seq<byte>, i: nat) {
    i + |needle| <= |haystack| && haystack[i..i + |needle|] == needle
  }

  lemma MatchBytes(haystack: seq<byte>, needle: seq<byte>, i: nat)
    ensures Match(haystack, needle, i)
            <==> i + |needle| <= |haystack| && forall k :: i <= k < i + |needle| ==> haystack[k] == needle[k - i]
  {
    if i + |needle| <= |haystack| {
      assert forall k :: i <= k < i + |needle| ==> haystack[i..i + |needle|][k - i] == haystack[k];
    }
  }

  // The window may advance by [shift] when its last byte is [c]: no smaller advance puts
  // an equal byte of the needle there.
  ghost predicate Safe(needle: seq<byte>, shift: nat, c: byte)
    requires needle != []
  {
    1 <= shift <= |needle| && forall m :: |needle| - 1 - shift < m < |needle| - 1 ==> needle[m] != c
  }

  // How far the window advances when its last byte is [c]: the least advance, from [m] on,
  // that puts an equal byte of the needle there, or the length of the needle.
  function AdvanceFrom(needle: seq<byte>, c: byte, m: nat): (r: nat)
    requires 1 <= m <= |needle|
    ensures m <= r <= |needle| && (r < |needle| ==> needle[|needle| - 1 - r] == c)
    ensures forall j :: |needle| - 1 - r < j <= |needle| - 1 - m ==> needle[j] != c
    decreases |needle| - m
  {
    if m == |needle| || needle[|needle| - 1 - m] == c then m else AdvanceFrom(needle, c, m + 1)
  }

  function Advance(needle: seq<byte>, c: byte): (r: nat)
    requires needle != []
    ensures Safe(needle, r, c)
  {
    AdvanceFrom(needle, c, 1)
  }

  // Only one advance is safe and puts an equal byte there, if there is one.
  lemma AdvanceUnique(needle: seq<byte>, c: byte, shift: nat)
    requires needle != [] && Safe(needle, shift, c) && (shift < |needle| ==> needle[|needle| - 1 - shift] == c)
    ensures shift == Advance(needle, c)
  {
    var r := AdvanceFrom(needle, c, 1);
    assert r < |needle| ==> needle[|needle| - 1 - r] == c;
  }

  // The search from [i] on looks a byte 255 up in the shift table: no window matches
  // before one that ends in it.
  predicate Hits255(haystack: seq<byte>, needle: seq<byte>, i: nat)
    requires needle != []
    decreases |haystack| - i
  {
    i + |needle| <= |haystack| && !Match(haystack, needle, i) &&
    var c := haystack[i + |needle| - 1];
    c == 255 || Hits255(haystack, needle, i + Advance(needle, c))
  }

  // Which a caller can exclude beforehand, by the bytes that windows can end in.
  lemma {:induction false} NeverHits255(haystack: seq<byte>, needle: seq<byte>, i: nat)
    requires needle != [] && forall j :: i + |needle| - 1 <= j < |haystack| ==> haystack[j] != 255
    ensures !Hits255(haystack, needle, i)
    decreases |haystack| - i
  {
    hide Match, Advance;
    if i + |needle| <= |haystack| {
      NeverHits255(haystack, needle, i + Advance(needle, haystack[i + |needle| - 1]));
    }
  }

  // A window that ends in 255 does not always come up: another may match before, or the
  // needle may end in 255 itself.
  lemma HitsExamples()
    ensures Hits255([255], [97], 0) && Hits255([98, 97, 255], [97, 97], 0)
    ensures !Hits255([97, 255], [97], 0) && !Hits255([97, 255], [97, 255], 0) && !Hits255([97, 97, 97], [97, 255], 0)
  {
    var a, b, d: seq<byte> := [255], [97], [98, 97, 255];
    var e, f, g: seq<byte> := [97, 97], [97, 255], [97, 97, 97];
    assert !Match(a, b, 0) by { assert a[0..1][0] == 255; }
    assert !Match(d, e, 0) by { assert d[0..2][0] == 98; }
    assert Advance(e, 97) == 1 by { AdvanceUnique(e, 97, 1); }
    assert !Match(d, e, 1) by { assert d[1..3][1] == 255; }
    assert Hits255(d, e, 1);
    assert Match(f, b, 0) by { assert f[0..1] == b; }
    assert Match(f, f, 0) by { assert f[0..2] == f; }
    NeverHits255(g, f, 0);
  }

  // No shift skips a match.
  lemma ShiftSkipsNone(haystack: seq<byte>, needle: seq<byte>, index: nat, shift: nat, j: nat)
    requires needle != [] && index + |needle| <= |haystack| && Safe(needle, shift, haystack[index + |needle| - 1])
    requires index < j < index + shift
    ensures !Match(haystack, needle, j)
  {
    var end := |needle| - 1;
    var m := end - (j - index);
    assert j + |needle| <= |haystack| ==> haystack[j..j + |needle|][m] == haystack[index + end];
  }

  // A match is compared in two parts: its last byte, and the others.
  lemma MatchParts(haystack: seq<byte>, needle: seq<byte>, i: nat)
    requires needle != [] && i + |needle| <= |haystack|
    ensures var end := |needle| - 1;
            Match(haystack, needle, i) <==> needle[end] == haystack[i + end] && haystack[i..i + end] == needle[..end]
  {
    var end := |needle| - 1;
    assert haystack[i..i + |needle|] == haystack[i..i + end] + [haystack[i + end]];
    assert needle == needle[..end] + [needle[end]];
  }

  // The table for [needle], unless one of its bytes but the last is 255.
  method ShiftTable(needle: seq<byte>) returns (shift: array<nat>, ok: bool)
    requires needle != []
    ensures ok <==> 255 !in needle[..|needle| - 1]
    ensures ok ==> shift.Length == UINT8_MAX && forall c: byte :: c < UINT8_MAX ==> shift[c] == Advance(needle, c)
  {
    shift := new nat[UINT8_MAX](_ => |needle|);
    var needleEnd := |needle| - 1;
    for index := 0 to needleEnd
      invariant 255 !in needle[..index]
      invariant forall c: byte :: c < UINT8_MAX ==> 1 <= shift[c] <= |needle|
      invariant forall c: byte :: c < UINT8_MAX && shift[c] < |needle| ==> needle[needleEnd - shift[c]] == c
      invariant forall c: byte, m :: c < UINT8_MAX && 0 <= m < index && needle[m] == c ==> shift[c] <= needleEnd - m
    {
      var c := needle[index];
      if c >= UINT8_MAX {
        assert needle[..needleEnd][index] == 255;
        return shift, false;
      }
      shift[c] := needleEnd - index;
    }
    ok := true;
    forall c: byte | c < UINT8_MAX ensures shift[c] == Advance(needle, c) {
      AdvanceUnique(needle, c, shift[c]);
    }
  }

  // The first match at or after [start].
  method Find(haystack: seq<byte>, needle: seq<byte>, start: nat) returns (r: Outcome)
    ensures r.Found? ==>
              r.index >= start && (start <= |haystack| ==> Match(haystack, needle, r.index))
                  && forall j :: start <= j < r.index ==> !Match(haystack, needle, j)
    ensures r.NotFound? ==> forall j :: start <= j ==> !Match(haystack, needle, j)
    ensures r.OutOfBounds? ==> 255 in needle || 255 in haystack
    ensures r.OutOfBounds? <==>
              needle != [] && start + |needle| <= |haystack|
                  && (255 in needle[..|needle| - 1] || Hits255(haystack, needle, start))
  {
    hide Advance;
    if |needle| == 0 { return Found(start); }
    if start + |needle| > |haystack| { return NotFound; }
    if start >= |haystack| { return NotFound; }
    var shift, ok := ShiftTable(needle);
    if !ok { return OutOfBounds; }
    var needleEnd := |needle| - 1;
    var lastChar := needle[needleEnd];
    var range := |haystack| - |needle|;
    var index := start;
    while index <= range
      invariant start <= index && shift.Length == UINT8_MAX
                && forall c: byte :: c < UINT8_MAX ==> shift[c] == Advance(needle, c)
      invariant forall j :: start <= j < index ==> !Match(haystack, needle, j)
      invariant Hits255(haystack, needle, start) <==> Hits255(haystack, needle, index)
      decreases |haystack| - index
    {
      var c := haystack[index + needleEnd];
      MatchParts(haystack, needle, index);
      if lastChar == c && haystack[index..index + needleEnd] == needle[..needleEnd] { return Found(index); }
      if c >= UINT8_MAX { return OutOfBounds; }
      forall j | index < j < index + shift[c] ensures !Match(haystack, needle, j) {
        ShiftSkipsNone(haystack, needle, index, shift[c], j);
      }
      index := index + shift[c];
    }
    return NotFound;
  }
}
