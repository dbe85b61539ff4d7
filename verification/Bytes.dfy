/** Byte strings, little-endian integers and substring search, as Python's
    `struct.unpack_from` and `bytes.rfind` provide them. */
module Bytes {
  type Byte = b: int | 0 <= b < 256

  function Pow256(n: nat): (p: nat)
    ensures p > 0
  {
    if n == 0 then 1 else 256 * Pow256(n - 1)
  }

  lemma WordSizes()
    ensures Pow256(4) == 0x1_0000_0000
    ensures Pow256(8) == 0x1_0000_0000_0000_0000
  {
    assert Pow256(4) == 256 * (256 * (256 * (256 * Pow256(0))));
    assert Pow256(8) == 256 * (256 * (256 * (256 * Pow256(4))));
  }

  function FromLittleEndian(s: seq<Byte>): (v: nat)
    ensures v < Pow256(|s|)
  {
    if s == [] then 0 else s[0] + 256 * FromLittleEndian(s[1..])
  }

  function ToLittleEndian(v: nat, width: nat): (s: seq<Byte>)
    ensures |s| == width
  {
    if width == 0 then [] else [v % 256] + ToLittleEndian(v / 256, width - 1)
  }

  lemma {:induction false} DecodeEncoded(v: nat, width: nat)
    requires v < Pow256(width)
    ensures FromLittleEndian(ToLittleEndian(v, width)) == v
  {
    if width > 0 {
      DecodeEncoded(v / 256, width - 1);
      var s := ToLittleEndian(v, width);
      assert s[1..] == ToLittleEndian(v / 256, width - 1);
    }
  }

  lemma LowByte(low: Byte, high: nat)
    ensures (low + 256 * high) % 256 == low && (low + 256 * high) / 256 == high
  {
  }

  lemma {:induction false} EncodeDecoded(s: seq<Byte>)
    ensures ToLittleEndian(FromLittleEndian(s), |s|) == s
  {
    if s != [] {
      LowByte(s[0], FromLittleEndian(s[1..]));
      EncodeDecoded(s[1..]);
      assert s == [s[0]] + s[1..];
    }
  }

  function U32At(data: seq<Byte>, i: nat): (v: nat)
    requires i + 4 <= |data|
    ensures v < 0x1_0000_0000
  {
    WordSizes();
    FromLittleEndian(data[i..i + 4])
  }

  function U64At(data: seq<Byte>, i: nat): (v: nat)
    requires i + 8 <= |data|
    ensures v < 0x1_0000_0000_0000_0000
  {
    WordSizes();
    FromLittleEndian(data[i..i + 8])
  }

  /** The first byte is the lowest. */
  lemma U32Bytes(data: seq<Byte>, i: nat)
    requires i + 4 <= |data|
    ensures U32At(data, i) == data[i] as int + 0x100 * data[i + 1] as int
                              + 0x1_0000 * data[i + 2] as int + 0x100_0000 * data[i + 3] as int
  {
    FirstFour(data[i..i + 4]);
  }

  lemma FirstFour(s: seq<Byte>)
    requires |s| >= 4
    ensures FromLittleEndian(s) == s[0] as int + 0x100 * s[1] as int + 0x1_0000 * s[2] as int
                                   + 0x100_0000 * s[3] as int + 0x1_0000_0000 * FromLittleEndian(s[4..])
  {
    var a, b, c := s[1..], s[2..], s[3..];
    assert a[1..] == b && b[1..] == c && c[1..] == s[4..];
    assert FromLittleEndian(c) == s[3] as int + 256 * FromLittleEndian(s[4..]);
    assert FromLittleEndian(b) == s[2] as int + 256 * FromLittleEndian(c);
    assert FromLittleEndian(a) == s[1] as int + 256 * FromLittleEndian(b);
  }

  lemma U64Bytes(data: seq<Byte>, i: nat)
    requires i + 8 <= |data|
    ensures U64At(data, i) == U32At(data, i) + 0x1_0000_0000 * U32At(data, i + 4)
  {
    var s := data[i..i + 8];
    assert s[4..] == data[i + 4..i + 8] && s[..4] == data[i..i + 4];
    FirstFour(s);
    U32Bytes(data, i);
  }

  predicate OccursAt(data: seq<Byte>, pattern: seq<Byte>, i: int) {
    0 <= i <= |data| - |pattern| && data[i..i + |pattern|] == pattern
  }

  /** The last occurrence of `pattern` that starts before `limit`, or -1. */
  function LastBefore(data: seq<Byte>, pattern: seq<Byte>, limit: nat): (i: int)
    ensures -1 <= i < limit
    ensures i >= 0 ==> OccursAt(data, pattern, i)
    ensures forall j :: i < j < limit ==> !OccursAt(data, pattern, j)
  {
    if limit == 0 then -1
    else if OccursAt(data, pattern, limit - 1) then limit - 1
    else LastBefore(data, pattern, limit - 1)
  }

  /** `data.rfind(pattern)`. */
  function LastIndexOf(data: seq<Byte>, pattern: seq<Byte>): (i: int)
    ensures i == -1 || OccursAt(data, pattern, i)
    ensures forall j :: j > i ==> !OccursAt(data, pattern, j)
  {
    LastBefore(data, pattern, |data| + 1)
  }

  /** A suffix that shows the pattern only at its start holds the last occurrence. */
  lemma LastIndexInSuffix(before: seq<Byte>, suffix: seq<Byte>, pattern: seq<Byte>)
    requires OccursAt(suffix, pattern, 0)
    requires forall i :: i > 0 ==> !OccursAt(suffix, pattern, i)
    ensures LastIndexOf(before + suffix, pattern) == |before|
  {
    var data := before + suffix;
    OccursInSuffix(before, suffix, pattern, 0);
    var last := LastIndexOf(data, pattern);
    if last > |before| {
      OccursInSuffix(before, suffix, pattern, last - |before|);
    }
  }

  lemma OccursInSuffix(before: seq<Byte>, suffix: seq<Byte>, pattern: seq<Byte>, i: nat)
    ensures OccursAt(before + suffix, pattern, |before| + i) <==> OccursAt(suffix, pattern, i)
  {
    if i + |pattern| <= |suffix| {
      var data := before + suffix;
      assert data[|before| + i..|before| + i + |pattern|] == suffix[i..i + |pattern|];
    }
  }
}
