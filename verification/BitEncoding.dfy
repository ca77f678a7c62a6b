/**
 How a client packs a pledge into slots: integers and byte strings become bits,
 most significant bit first.
 */
module BitEncoding {
  import opened Arithmetic
  import opened SlotVectors

  const UINT64_BITS := 64
  const FROM_START := 0
  const UNTIL_START := 64
  const EXCLUSIVE_SLOT := 128
  const ID_BITS := 256
  const ID_BYTES := 32

  function Pow2(n: nat): (p: nat)
    ensures p > 0
  {
    if n == 0 then 1 else 2 * Pow2(n - 1)
  }

  lemma {:induction false} Pow2Add(m: nat, n: nat)
    ensures Pow2(m + n) == Pow2(m) * Pow2(n)
  {
    if m > 0 {
      Pow2Add(m - 1, n);
    }
  }

  ghost predicate Boolean(s: seq<Residue>) {
    forall i :: 0 <= i < |s| ==> s[i] <= 1
  }

  function Bit(b: bool): Residue { if b then 1 else 0 }

  /** The number a bit string spells, most significant bit first. */
  function Value(bits: seq<Residue>): (v: nat)
  {
    if bits == [] then 0 else 2 * Value(bits[..|bits| - 1]) + bits[|bits| - 1]
  }

  /** The `width`-bit string of `value`. */
  function BitsOf(value: nat, width: nat): (bits: seq<Residue>)
    ensures |bits| == width
  {
    if width == 0 then [] else BitsOf(value / 2, width - 1) + [value % 2]
  }

  lemma {:induction false} ValueBound(bits: seq<Residue>)
    requires Boolean(bits)
    ensures Value(bits) < Pow2(|bits|)
  {
    if bits != [] {
      ValueBound(bits[..|bits| - 1]);
    }
  }

  /** Concatenating bit strings shifts the first one up. */
  lemma {:induction false} ValueConcat(hi: seq<Residue>, lo: seq<Residue>)
    ensures Value(hi + lo) == Value(hi) * Pow2(|lo|) + Value(lo)
  {
    if lo == [] {
      assert hi + lo == hi;
    } else {
      var n := |lo| - 1;
      ValueConcat(hi, lo[..n]);
      assert (hi + lo)[..|hi| + n] == hi + lo[..n];
      DoubleShift(Value(hi), Pow2(n), Value(lo[..n]), lo[n]);
    }
  }

  lemma {:induction false} DoubleShift(h: int, p: int, l: int, b: int)
    ensures 2 * (h * p + l) + b == h * (2 * p) + (2 * l + b)
  {
  }

  lemma {:induction false} DivPow2(value: nat, k: nat)
    ensures (value / 2) / Pow2(k) == value / Pow2(k + 1)
  {
    var p := Pow2(k);
    var q := value / (2 * p);
    var r := value % (2 * p);
    assert value == 2 * (p * q) + r;
    assert value / 2 == p * q + r / 2;
    assert 0 <= r / 2 < p;
    assert (p * q + r / 2) / p == q by {
      DivUnique(p * q + r / 2, p, q, r / 2);
    }
  }

  /** Bit `i` is what the shift-and-mask expression `(value >> (width - 1 - i)) & 1` yields. */
  lemma {:induction false} BitAt(value: nat, width: nat, i: nat)
    requires i < width
    ensures BitsOf(value, width)[i] == (value / Pow2(width - 1 - i)) % 2
  {
    if i < width - 1 {
      BitAt(value / 2, width - 1, i);
      DivPow2(value, width - 2 - i);
    }
  }

  /** Reading a written integer back: nothing is lost when the integer fits the width. */
  lemma {:induction false} BitsRoundTrip(value: nat, width: nat)
    requires value < Pow2(width)
    ensures Boolean(BitsOf(value, width))
    ensures Value(BitsOf(value, width)) == value
  {
    if width > 0 {
      BitsRoundTrip(value / 2, width - 1);
      assert BitsOf(value, width)[..width - 1] == BitsOf(value / 2, width - 1);
    }
  }

  lemma {:induction false} ValueInjective(a: seq<Residue>, b: seq<Residue>)
    requires Boolean(a) && Boolean(b) && |a| == |b|
    ensures Value(a) == Value(b) <==> a == b
  {
    if a != [] {
      var n := |a| - 1;
      ValueInjective(a[..n], b[..n]);
      assert a == a[..n] + [a[n]] && b == b[..n] + [b[n]];
    }
  }

  // ----- byte strings

  newtype Byte = x: int | 0 <= x < 256

  function BytesBits(bytes: seq<Byte>): (bits: seq<Residue>)
    ensures |bits| == 8 * |bytes|
  {
    if bytes == [] then [] else BytesBits(bytes[..|bytes| - 1]) + BitsOf(bytes[|bytes| - 1] as int, 8)
  }

  lemma {:induction false} BitsOfInjective(x: nat, y: nat, width: nat)
    requires x < Pow2(width) && y < Pow2(width)
    ensures Boolean(BitsOf(x, width))
    ensures BitsOf(x, width) == BitsOf(y, width) <==> x == y
  {
    BitsRoundTrip(x, width);
    BitsRoundTrip(y, width);
  }

  lemma {:induction false} ConcatInjective<T>(a: seq<T>, x: seq<T>, b: seq<T>, y: seq<T>)
    requires |a| == |b|
    ensures a + x == b + y <==> a == b && x == y
  {
    assert (a + x)[..|a|] == a && (a + x)[|a|..] == x;
    assert (b + y)[..|b|] == b && (b + y)[|b|..] == y;
  }

  /** Two byte strings of one length are equal exactly when their bit strings are. */
  lemma {:induction false} BytesBitsInjective(a: seq<Byte>, b: seq<Byte>)
    requires |a| == |b|
    ensures Boolean(BytesBits(a))
    ensures BytesBits(a) == BytesBits(b) <==> a == b
  {
    if a != [] {
      var n, w := |a| - 1, 8;
      BytesBitsInjective(a[..n], b[..n]);
      assert Pow2(8) == 256;
      BitsOfInjective(a[n] as int, b[n] as int, w);
      ConcatInjective(BytesBits(a[..n]), BitsOf(a[n] as int, w), BytesBits(b[..n]), BitsOf(b[n] as int, w));
      assert a == a[..n] + [a[n]] && b == b[..n] + [b[n]];
    }
  }

  // ----- the writers, in place on the slot buffer

  ghost function Spliced(s: seq<Residue>, start: nat, bits: seq<Residue>): (r: seq<Residue>)
    requires start + |bits| <= |s|
    ensures |r| == |s|
  {
    s[..start] + bits + s[start + |bits|..]
  }

  /** `dst` holds `before` with the first `n` of `bits` written from `start` on. */
  ghost predicate Written(dst: seq<Residue>, before: seq<Residue>, start: nat, bits: seq<Residue>, n: nat)
    requires n <= |bits| && start + |bits| <= |before|
  {
    |dst| == |before| &&
    forall k :: 0 <= k < |dst| ==> dst[k] == if start <= k < start + n then bits[k - start] else before[k]
  }

  method WriteUint64Bits(dst: array<Residue>, start: nat, value: nat)
    requires start + UINT64_BITS <= dst.Length && value < Pow2(UINT64_BITS)
    modifies dst
    ensures dst[..] == Spliced(old(dst[..]), start, BitsOf(value, UINT64_BITS))
  {
    for i := 0 to UINT64_BITS
      invariant Written(dst[..], old(dst[..]), start, BitsOf(value, UINT64_BITS), i)
    {
      BitAt(value, UINT64_BITS, i);
      dst[start + i] := (value / Pow2(UINT64_BITS - 1 - i)) % 2;
    }
  }

  /** The bits of a number given as 64-bit limbs, most significant limb first. */
  function LimbBits(limbs: seq<nat>): (bits: seq<Residue>)
    ensures |bits| == UINT64_BITS * |limbs|
  {
    if limbs == [] then [] else LimbBits(limbs[..|limbs| - 1]) + BitsOf(limbs[|limbs| - 1], UINT64_BITS)
  }

  /** The number that limbs spell, most significant limb first. */
  function LimbNumber(limbs: seq<nat>): nat {
    if limbs == [] then 0 else LimbNumber(limbs[..|limbs| - 1]) * 0x1_0000_0000_0000_0000 + limbs[|limbs| - 1]
  }

  lemma {:induction false} LimbBitsValue(limbs: seq<nat>)
    requires Pow2(UINT64_BITS) == 0x1_0000_0000_0000_0000 && forall k :: 0 <= k < |limbs| ==> limbs[k] < Pow2(UINT64_BITS)
    ensures Boolean(LimbBits(limbs)) && Value(LimbBits(limbs)) == LimbNumber(limbs)
  {
    if limbs != [] {
      var n := |limbs| - 1;
      LimbBitsValue(limbs[..n]);
      BitsRoundTrip(limbs[n], UINT64_BITS);
      ValueConcat(LimbBits(limbs[..n]), BitsOf(limbs[n], UINT64_BITS));
    }
  }

  lemma {:induction false} SpliceMore(s: seq<Residue>, start: nat, bits: seq<Residue>, more: seq<Residue>)
    requires start + |bits| + |more| <= |s|
    ensures Spliced(Spliced(s, start, bits), start + |bits|, more) == Spliced(s, start, bits + more)
  {
  }

  /** Writing limb `k` after the limbs before it. */
  lemma {:induction false} LimbStep(s: seq<Residue>, start: nat, limbs: seq<nat>, k: nat)
    requires k < |limbs| && start + UINT64_BITS * |limbs| <= |s|
    ensures Spliced(Spliced(s, start, LimbBits(limbs[..k])), start + k * UINT64_BITS, BitsOf(limbs[k], UINT64_BITS))
         == Spliced(s, start, LimbBits(limbs[..k + 1]))
  {
    assert limbs[..k + 1][..k] == limbs[..k];
    SpliceMore(s, start, LimbBits(limbs[..k]), BitsOf(limbs[k], UINT64_BITS));
  }

  method WriteUint256Bits(dst: array<Residue>, start: nat, limbs: seq<nat>)
    requires start + UINT64_BITS * |limbs| <= dst.Length && forall k :: 0 <= k < |limbs| ==> limbs[k] < Pow2(UINT64_BITS)
    modifies dst
    ensures dst[..] == Spliced(old(dst[..]), start, LimbBits(limbs))
  {
    ghost var before := dst[..];
    assert Spliced(before, start, []) == before;
    for limb := 0 to |limbs|
      invariant dst[..] == Spliced(before, start, LimbBits(limbs[..limb]))
    {
      WriteUint64Bits(dst, start + limb * UINT64_BITS, limbs[limb]);
      LimbStep(before, start, limbs, limb);
    }
    assert limbs[..|limbs|] == limbs;
  }

  lemma {:induction false} ByteBitAt(bytes: seq<Byte>, i: nat, bit: nat)
    requires i < |bytes| && bit < 8
    ensures BytesBits(bytes)[8 * i + bit] == (bytes[i] as int / Pow2(7 - bit)) % 2
  {
    if i == |bytes| - 1 {
      BitAt(bytes[i] as int, 8, bit);
    } else {
      ByteBitAt(bytes[..|bytes| - 1], i, bit);
    }
  }

  method WriteBytesBits(dst: array<Residue>, start: nat, bytes: seq<Byte>)
    requires start + 8 * |bytes| <= dst.Length
    modifies dst
    ensures dst[..] == Spliced(old(dst[..]), start, BytesBits(bytes))
  {
    ghost var bits := BytesBits(bytes);
    for i := 0 to |bytes|
      invariant Written(dst[..], old(dst[..]), start, bits, 8 * i)
    {
      for bit := 0 to 8
        invariant Written(dst[..], old(dst[..]), start, bits, 8 * i + bit)
      {
        ByteBitAt(bytes, i, bit);
        dst[start + i * 8 + bit] := (bytes[i] as int / Pow2(7 - bit)) % 2;
      }
    }
  }
}
