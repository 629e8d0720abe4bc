/** The kdump file as a map from offsets to bytes, and the encodings used in it (qemu/dump.c). */
module KdumpFile {
  import opened Common
  import opened Arithmetic

  type File = map<nat, byte>

  /** The file after the record (offset, data) is applied: write_buffer. */
  function Write(f: File, offset: nat, data: seq<byte>): File {
    if data == [] then f
    else
      var n := |data| - 1;
      Write(f, offset, data[..n])[offset + n := data[n]]
  }

  lemma {:induction false} WriteAt(f: File, offset: nat, data: seq<byte>, p: nat)
    ensures offset <= p < offset + |data| ==>
              p in Write(f, offset, data) && Write(f, offset, data)[p] == data[p - offset]
    ensures !(offset <= p < offset + |data|) ==>
              (p in Write(f, offset, data) <==> p in f) && (p in f ==> Write(f, offset, data)[p] == f[p])
  {
    if data != [] {
      WriteAt(f, offset, data[..|data| - 1], p);
    }
  }

  /** The file holds `data` at `offset`. */
  ghost predicate Holds(f: File, offset: nat, data: seq<byte>) {
    forall p: nat :: offset <= p < offset + |data| ==> p in f && f[p] == data[p - offset]
  }

  /** Outside [lo, hi) the two files agree. */
  ghost predicate SameOutside(f: File, f': File, lo: nat, hi: nat) {
    forall p: nat :: !(lo <= p < hi) ==> (p in f' <==> p in f) && (p in f ==> f'[p] == f[p])
  }

  /** `n` bytes of the file from `offset`; bytes never written read as zero. */
  function Read(f: File, offset: nat, n: nat): (s: seq<byte>)
    ensures |s| == n
  {
    seq(n, i requires 0 <= i < n => if offset + i in f then f[offset + i] else 0)
  }

  lemma ReadHeld(f: File, offset: nat, data: seq<byte>)
    requires Holds(f, offset, data)
    ensures Read(f, offset, |data|) == data
  {
    forall i | 0 <= i < |data|
      ensures Read(f, offset, |data|)[i] == data[i]
    {
      assert offset <= offset + i < offset + |data|;
    }
  }

  function Zeros(n: nat): seq<byte> { seq(n, i => 0) }

  /** Bit `bit` of a number. */
  predicate TestBit(n: nat, bit: nat) {
    if bit == 0 then n % 2 == 1 else TestBit(n / 2, bit - 1)
  }

  /** n |= 1u << bit, or n &= ~(1u << bit), on a number of `width` bits. */
  function WithBit(n: nat, bit: nat, value: bool, width: nat): (n': nat)
    requires bit < width && n < Pow2(width)
    ensures n' < Pow2(width)
  {
    if bit == 0 then n - n % 2 + (if value then 1 else 0) else 2 * WithBit(n / 2, bit - 1, value, width - 1) + n % 2
  }

  lemma WithBitHalves(n: nat, bit: nat, value: bool, width: nat)
    requires bit < width && n < Pow2(width)
    ensures var n' := WithBit(n, bit, value, width);
            if bit == 0 then n' % 2 == (if value then 1 else 0) && n' / 2 == n / 2
            else n' % 2 == n % 2 && n' / 2 == WithBit(n / 2, bit - 1, value, width - 1)
  {
    if bit == 0 {
      HalfOf(n / 2, if value then 1 else 0);
    } else {
      HalfOf(WithBit(n / 2, bit - 1, value, width - 1), n % 2);
    }
  }

  lemma HalfOf(w: nat, r: nat)
    requires r < 2
    ensures (2 * w + r) / 2 == w && (2 * w + r) % 2 == r
  {
  }

  /** Setting a bit changes that bit alone. */
  lemma {:induction false} WithBitTests(n: nat, bit: nat, value: bool, width: nat, k: nat)
    requires bit < width && n < Pow2(width)
    ensures TestBit(WithBit(n, bit, value, width), k) == if k == bit then value else TestBit(n, k)
  {
    WithBitHalves(n, bit, value, width);
    if bit > 0 && k > 0 {
      WithBitTests(n / 2, bit - 1, value, width - 1, k - 1);
    }
    hide WithBit, Pow2;
  }

  /** Bit number `bit` is worth two to the power of `bit`. */
  lemma {:induction false} BitValue(n: nat, bit: nat, width: nat)
    requires bit < width && n < Pow2(width)
    ensures WithBit(n, bit, true, width) == if TestBit(n, bit) then n else n + Pow2(bit)
    ensures WithBit(n, bit, false, width) == if TestBit(n, bit) then n - Pow2(bit) else n
  {
    if bit > 0 {
      BitValue(n / 2, bit - 1, width - 1);
    }
  }

  /** WithBit on a byte. */
  function ByteWithBit(b: byte, bit: nat, value: bool): byte
    requires bit < 8
  {
    assert Pow2(8) == 256 by { assert Pow2(4) == 16; }
    WithBit(b, bit, value, 8)
  }

  lemma {:induction false} ZeroBits(k: nat)
    ensures !TestBit(0, k)
  {
    if k > 0 {
      ZeroBits(k - 1);
    }
  }

  function Pow256(k: nat): (r: nat)
    ensures 0 < r
  {
    if k == 0 then 1 else 256 * Pow256(k - 1)
  }

  /** The `k` bytes of a number, least significant first or last: cpu_to_dump16/32/64. */
  function Encode(bigEndian: bool, n: nat, k: nat): (s: seq<byte>)
    ensures |s| == k
    decreases k
  {
    if k == 0 then []
    else
      var low: byte := n % 256;
      if bigEndian then Encode(bigEndian, n / 256, k - 1) + [low] else [low] + Encode(bigEndian, n / 256, k - 1)
  }

  function Decode(bigEndian: bool, s: seq<byte>): nat
    decreases |s|
  {
    if s == [] then 0
    else if bigEndian then s[|s| - 1] + 256 * Decode(bigEndian, s[..|s| - 1])
    else s[0] + 256 * Decode(bigEndian, s[1..])
  }

  /** Byte `i` from the low end has the digit of 256 to the power of `i`. */
  lemma {:induction false} EncodeBytes(bigEndian: bool, n: nat, k: nat, i: nat)
    requires i < k
    ensures Encode(bigEndian, n, k)[if bigEndian then k - 1 - i else i] == n / Pow256(i) % 256
    decreases i
  {
    if i > 0 {
      EncodeBytes(bigEndian, n / 256, k - 1, i - 1);
      DivDiv(n, 256, Pow256(i - 1));
      assert Pow256(i - 1) * 256 == Pow256(i);
    } else {
      assert n / 1 == n;
    }
  }

  /** A number that fits is read back. */
  lemma {:induction false} EncodeDecodes(bigEndian: bool, n: nat, k: nat)
    requires n < Pow256(k)
    ensures Decode(bigEndian, Encode(bigEndian, n, k)) == n
    decreases k
  {
    if k > 0 {
      EncodeDecodes(bigEndian, n / 256, k - 1);
      var s := Encode(bigEndian, n, k);
      if bigEndian {
        assert s[..k - 1] == Encode(bigEndian, n / 256, k - 1);
      } else {
        assert s[1..] == Encode(bigEndian, n / 256, k - 1);
      }
    }
  }
}
