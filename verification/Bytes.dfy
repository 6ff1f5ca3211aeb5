/** Bytes, the machine's little-endian integer layout, and positional writes on a file's content. */
module Bytes {
  newtype byte = x: int | 0 <= x < 256

  datatype Option<+T> = None | Some(value: T)

  const INT_LIMIT: int := 0x8000_0000
  const UINT_LIMIT: int := 0x1_0000_0000
  const SIZE_LIMIT: int := 0x1_0000_0000_0000_0000

  function Pow256(k: nat): (r: nat)
    ensures r >= 1
  {
    if k == 0 then 1 else 256 * Pow256(k - 1)
  }

  lemma WidthLimits()
    ensures Pow256(4) == UINT_LIMIT
    ensures Pow256(8) == SIZE_LIMIT
  {
    assert Pow256(2) == 0x1_0000;
    assert Pow256(4) == UINT_LIMIT;
    assert Pow256(6) == 0x1_0000_0000_0000;
  }

  /** The low `k` bytes of `n`, least significant first. */
  function Encode(n: nat, k: nat): (s: seq<byte>)
    ensures |s| == k
  {
    if k == 0 then [] else [(n % 256) as byte] + Encode(n / 256, k - 1)
  }

  function Decode(s: seq<byte>): (n: nat)
    ensures n < Pow256(|s|)
  {
    if s == [] then 0 else s[0] as int + 256 * Decode(s[1..])
  }

  lemma Regroup(n: int, b: int, m: int)
    ensures 256 * (n + b * m) == 256 * n + b * (256 * m)
  {
  }

  /** Little-endian: every further byte counts 256 times as much as the one before. */
  lemma {:induction false} DecodeSnoc(s: seq<byte>, b: byte)
    ensures Decode(s + [b]) == Decode(s) + b as int * Pow256(|s|)
  {
    if s == [] {
      assert [b][1..] == [];
    } else {
      assert (s + [b])[1..] == s[1..] + [b];
      DecodeSnoc(s[1..], b);
      Regroup(Decode(s[1..]), b as int, Pow256(|s| - 1));
    }
  }

  lemma {:induction false} DecodeEncode(n: nat, k: nat)
    requires n < Pow256(k)
    ensures Decode(Encode(n, k)) == n
  {
    if k != 0 {
      DecodeEncode(n / 256, k - 1);
      assert Encode(n, k)[1..] == Encode(n / 256, k - 1);
    }
  }

  lemma LowByte(b: byte, n: nat)
    ensures (b as int + 256 * n) % 256 == b as int && (b as int + 256 * n) / 256 == n
  {
  }

  lemma {:induction false} EncodeDecode(s: seq<byte>)
    ensures Encode(Decode(s), |s|) == s
  {
    if s != [] {
      EncodeDecode(s[1..]);
      LowByte(s[0], Decode(s[1..]));
      assert s == [s[0]] + s[1..];
    }
  }

  predicate FitsInt(i: int) {
    -INT_LIMIT <= i < INT_LIMIT
  }

  /** A C++ `int`: four bytes, two's complement. */
  function EncodeInt(i: int): (s: seq<byte>)
    requires FitsInt(i)
    ensures |s| == 4
  {
    Encode(if i < 0 then i + UINT_LIMIT else i, 4)
  }

  function DecodeInt(s: seq<byte>): (i: int)
    requires |s| == 4
    ensures FitsInt(i)
  {
    WidthLimits();
    var n := Decode(s);
    if n >= INT_LIMIT then n - UINT_LIMIT else n
  }

  /** Two's complement: the number that fits, up to a multiple of 2^32. */
  lemma IntValue(s: seq<byte>)
    requires |s| == 4
    ensures DecodeInt(s) == if Decode(s) < UINT_LIMIT / 2 then Decode(s) else Decode(s) - UINT_LIMIT
  {
  }

  lemma DecodeEncodeInt(i: int)
    requires FitsInt(i)
    ensures DecodeInt(EncodeInt(i)) == i
  {
    WidthLimits();
    DecodeEncode(if i < 0 then i + UINT_LIMIT else i, 4);
  }

  lemma EncodeDecodeInt(s: seq<byte>)
    requires |s| == 4
    ensures EncodeInt(DecodeInt(s)) == s
  {
    WidthLimits();
    EncodeDecode(s);
  }

  /** A C++ `size_t` or a non-negative `long`: eight bytes. */
  function EncodeSize(n: nat): (s: seq<byte>)
    ensures |s| == 8
  {
    Encode(n, 8)
  }

  lemma DecodeEncodeSize(n: nat)
    requires n < SIZE_LIMIT
    ensures Decode(EncodeSize(n)) == n
  {
    WidthLimits();
    DecodeEncode(n, 8);
  }

  /** Reduction of a sum to a 64-bit `size_t`. */
  function Wrap(n: nat): (r: nat)
    ensures r < SIZE_LIMIT
    ensures n < SIZE_LIMIT ==> r == n
  {
    if n < SIZE_LIMIT then n else Wrap(n - SIZE_LIMIT)
  }

  /** What is left of a number in 64 bits is its remainder. */
  lemma {:induction false} WrapIsRemainder(n: nat)
    ensures Wrap(n) == n % SIZE_LIMIT
  {
    if n >= SIZE_LIMIT {
      WrapIsRemainder(n - SIZE_LIMIT);
    }
  }

  /** Adding in `size_t` and reducing once at the end agree. */
  lemma {:induction false} WrapAdd(a: nat, b: nat)
    ensures Wrap(Wrap(a) + b) == Wrap(a + b)
  {
    if a >= SIZE_LIMIT {
      WrapAdd(a - SIZE_LIMIT, b);
    }
  }

  function Max(a: int, b: int): (r: int) {
    if a < b then b else a
  }

  function Min(a: int, b: int): (r: int) {
    if a < b then a else b
  }

  /** What `pwrite` leaves behind: a write past the end fills the gap with zeros,
      an empty write changes nothing. */
  function Overwrite(f: seq<byte>, off: nat, data: seq<byte>): (r: seq<byte>)
    ensures |r| == if data == [] then |f| else Max(|f|, off + |data|)
    ensures forall i :: 0 <= i < |r| ==>
      r[i] == if off <= i < off + |data| then data[i - off] else if i < |f| then f[i] else 0
  {
    var padded := f + seq(Max(0, off - |f|), _ => 0 as byte);
    if data == [] then f
    else padded[..off] + data + padded[Min(|padded|, off + |data|)..]
  }

  /** Two adjacent writes amount to one write of the concatenation. */
  lemma OverwriteSplit(f: seq<byte>, off: nat, a: seq<byte>, b: seq<byte>)
    ensures Overwrite(Overwrite(f, off, a), off + |a|, b) == Overwrite(f, off, a + b)
  {
    var m := Overwrite(f, off, a);
    var l, r := Overwrite(m, off + |a|, b), Overwrite(f, off, a + b);
    assert |l| == |r|;
    forall i | 0 <= i < |l| ensures l[i] == r[i] {}
  }

  lemma OverwriteEmpty(data: seq<byte>)
    ensures Overwrite([], 0, data) == data
  {
  }

  /** A write leaves a disjoint range as it was. */
  lemma OverwriteKeeps(f: seq<byte>, off: nat, data: seq<byte>, o: nat, n: nat)
    requires o + n <= |f| && (o + n <= off || off + |data| <= o)
    ensures o + n <= |Overwrite(f, off, data)| && Overwrite(f, off, data)[o..o + n] == f[o..o + n]
  {
  }

  /** A write right behind a range extends it. */
  lemma OverwriteExtends(f: seq<byte>, o: nat, n: nat, data: seq<byte>)
    requires data != [] && (n > 0 ==> o + n <= |f|)
    ensures var r := Overwrite(f, o + n, data);
      o + n + |data| <= |r| && r[o..o + n + |data|] == (if n > 0 then f[o..o + n] else []) + data
  {
  }
}
