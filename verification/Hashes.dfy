/** The key hash of common/src/hashes.cxx: CRC32C in mixed-width steps, then a mixing finalizer.
    Registers are 64-bit words, as in crc32_accumulate; the CRC itself occupies the low 32 bits. */
module Hashes {
  import opened Common

  type byte = bv8

  // The CRC32C generator 0x11EDC6F41 of section 12.1 of RFC 3720, bit-reflected.
  const POLY: bv64 := 0x82F63B78
  const LOW32: bv64 := 0xFFFF_FFFF

  /** Neighbouring groups of bits swapped: those of the mask with those `k` places above. */
  function Swapped(x: bv32, mask: bv32, k: bv5): bv32 { ((x >> k) & mask) | ((x & mask) << k) }

  /** The bits in reverse order: neighbours, pairs, nibbles, bytes and halves change places. */
  function Reversed(x: bv32): bv32 {
    Swapped(Swapped(Swapped(Swapped(Swapped(x, 0x5555_5555, 1), 0x3333_3333, 2), 0x0F0F_0F0F, 4), 0x00FF_00FF, 8),
            0x0000_FFFF, 16)
  }

  /** POLY is the generator without its top term, bits reversed. */
  lemma PolyReflectsGenerator()
    ensures POLY == Reversed(0x1EDC_6F41) as bv64
  {
    assert Swapped(0x1EDC_6F41, 0x5555_5555, 1) == 0x2DEC_9F82;
    assert Swapped(0x2DEC_9F82, 0x3333_3333, 2) == 0x87B3_6F28;
    assert Swapped(0x87B3_6F28, 0x0F0F_0F0F, 4) == 0x783B_F682;
    assert Swapped(0x783B_F682, 0x00FF_00FF, 8) == 0x3B78_82F6;
    assert Swapped(0x3B78_82F6, 0x0000_FFFF, 16) == 0x82F6_3B78;
  }

  function Xor(a: bv64, b: bv64): bv64 { a ^ b }

  function Half(a: bv64): bv64 { a >> 1 }

  function LowBit(a: bv64): bv64 { a & 1 }

  function Feedback(low: bv64): bv64 { if low == 1 then POLY else 0 }

  /** One division step on the reflected register. */
  function BitStep(r: bv64): bv64 {
    Xor(Half(r), Feedback(LowBit(r)))
  }

  function Steps(n: nat, r: bv64): bv64 {
    if n == 0 then r else Steps(n - 1, BitStep(r))
  }

  /** The byte `b` above which `rest` begins: the little-endian layout of an integer. */
  function Above(rest: bv64): bv64 { rest << 8 }

  /** The value memcpy puts into an integer of |s| bytes on the little-endian target. */
  function LoadLE(s: seq<byte>): bv64 {
    if s == [] then 0 else Xor(s[0] as bv64, Above(LoadLE(s[1..])))
  }

  function Low32(r: bv64): bv64 { r & LOW32 }

  /** The SSE4.2 CRC32 instruction for an operand of `bits` bits: the operand enters the low end of the
      register, and `bits` division steps follow. Only the low half of the accumulator is read. */
  function CrcInstruction(bits: nat, crc: bv64, operand: bv64): bv64 {
    Steps(bits, Xor(Low32(crc), operand))
  }

  /** Reference definition: CRC32C one byte at a time. */
  function CrcBytes(crc: bv64, s: seq<byte>): bv64
    decreases |s|
  {
    if s == [] then crc else CrcBytes(CrcInstruction(8, crc, s[0] as bv64), s[1..])
  }

  // ---- xor and shift on words ----

  lemma XorAssoc(a: bv64, b: bv64, c: bv64)
    ensures Xor(a, Xor(b, c)) == Xor(Xor(a, b), c)
  {
    calc {
      Xor(a, Xor(b, c));
      Xor(a, b ^ c);
      a ^ (b ^ c);
      (a ^ b) ^ c;
      Xor(a ^ b, c);
      Xor(Xor(a, b), c);
    }
  }

  lemma XorSwap(a: bv64, b: bv64, c: bv64)
    ensures Xor(Xor(a, b), c) == Xor(Xor(a, c), b)
  {
    calc {
      Xor(Xor(a, b), c);
      Xor(a ^ b, c);
      (a ^ b) ^ c;
      (a ^ c) ^ b;
      Xor(a ^ c, b);
      Xor(Xor(a, c), b);
    }
  }

  lemma HalfXor(a: bv64, b: bv64)
    ensures Half(Xor(a, b)) == Xor(Half(a), Half(b))
  {
    calc {
      Half(Xor(a, b));
      (a ^ b) >> 1;
      (a >> 1) ^ (b >> 1);
      Xor(a >> 1, b >> 1);
      Xor(Half(a), Half(b));
    }
  }

  lemma LowXor(a: bv64, b: bv64)
    requires LowBit(b) == 0
    ensures LowBit(Xor(a, b)) == LowBit(a)
  {
    calc {
      LowBit(Xor(a, b));
      (a ^ b) & 1;
      (a & 1) ^ (b & 1);
      a & 1;
      LowBit(a);
    }
  }

  lemma BitStepXor(a: bv64, b: bv64)
    requires LowBit(b) == 0
    ensures BitStep(Xor(a, b)) == Xor(BitStep(a), Half(b))
  {
    hide Xor, Half, LowBit, Feedback;
    HalfXor(a, b);
    LowXor(a, b);
    XorSwap(Half(a), Half(b), Feedback(LowBit(a)));
  }

  function Halve(n: nat, x: bv64): bv64 {
    if n == 0 then x else Halve(n - 1, Half(x))
  }

  predicate LowZero(n: nat, x: bv64) {
    n == 0 || (LowBit(x) == 0 && LowZero(n - 1, Half(x)))
  }

  /** Bits above the low `n` only move down while the low `n` are divided out. */
  lemma {:induction false} StepsXor(n: nat, a: bv64, x: bv64)
    requires LowZero(n, x)
    ensures Steps(n, Xor(a, x)) == Xor(Steps(n, a), Halve(n, x))
  {
    hide BitStep, Xor, Half, LowBit;
    if n > 0 {
      BitStepXor(a, x);
      StepsXor(n - 1, BitStep(a), Half(x));
    }
  }

  lemma ByteAbove(b: bv64)
    requires b <= 0xFF_FFFF_FFFF_FFFF
    ensures LowZero(8, Above(b)) && Halve(8, Above(b)) == b
  {
    hide Half, LowBit;
    ShiftDown(b);
    assert b << 0 == b;
    assert LowZero(1, b << 1) && Halve(1, b << 1) == b;
    assert LowZero(2, b << 2) && Halve(2, b << 2) == b;
    assert LowZero(3, b << 3) && Halve(3, b << 3) == b;
    assert LowZero(4, b << 4) && Halve(4, b << 4) == b;
    assert LowZero(5, b << 5) && Halve(5, b << 5) == b;
    assert LowZero(6, b << 6) && Halve(6, b << 6) == b;
    assert LowZero(7, b << 7) && Halve(7, b << 7) == b;
  }

  lemma ShiftDown(b: bv64)
    requires b <= 0xFF_FFFF_FFFF_FFFF
    ensures Half(b << 8) == b << 7 && LowBit(b << 8) == 0
    ensures Half(b << 7) == b << 6 && LowBit(b << 7) == 0
    ensures Half(b << 6) == b << 5 && LowBit(b << 6) == 0
    ensures Half(b << 5) == b << 4 && LowBit(b << 5) == 0
    ensures Half(b << 4) == b << 3 && LowBit(b << 4) == 0
    ensures Half(b << 3) == b << 2 && LowBit(b << 3) == 0
    ensures Half(b << 2) == b << 1 && LowBit(b << 2) == 0
    ensures Half(b << 1) == b << 0 && LowBit(b << 1) == 0
  {
    calc { Half(b << 8); (b << 8) >> 1; b << 7; }
    calc { LowBit(b << 8); (b << 8) & 1; 0; }
    calc { Half(b << 7); (b << 7) >> 1; b << 6; }
    calc { LowBit(b << 7); (b << 7) & 1; 0; }
    calc { Half(b << 6); (b << 6) >> 1; b << 5; }
    calc { LowBit(b << 6); (b << 6) & 1; 0; }
    calc { Half(b << 5); (b << 5) >> 1; b << 4; }
    calc { LowBit(b << 5); (b << 5) & 1; 0; }
    calc { Half(b << 4); (b << 4) >> 1; b << 3; }
    calc { LowBit(b << 4); (b << 4) & 1; 0; }
    calc { Half(b << 3); (b << 3) >> 1; b << 2; }
    calc { LowBit(b << 3); (b << 3) & 1; 0; }
    calc { Half(b << 2); (b << 2) >> 1; b << 1; }
    calc { LowBit(b << 2); (b << 2) & 1; 0; }
    calc { Half(b << 1); (b << 1) >> 1; b << 0; }
    calc { LowBit(b << 1); (b << 1) & 1; 0; }
  }

  lemma {:induction false} StepsAdd(m: nat, n: nat, r: bv64)
    ensures Steps(m + n, r) == Steps(n, Steps(m, r))
  {
    hide BitStep;
    if m > 0 {
      StepsAdd(m - 1, n, BitStep(r));
    }
  }

  lemma BitStepNarrow(r: bv64)
    requires r <= LOW32
    ensures BitStep(r) <= LOW32
  {}

  /** Narrow registers stay narrow. */
  lemma {:induction false} StepsNarrow(n: nat, r: bv64)
    requires r <= LOW32
    ensures Steps(n, r) <= LOW32
  {
    hide BitStep;
    if n > 0 {
      BitStepNarrow(r);
      StepsNarrow(n - 1, BitStep(r));
    }
  }

  lemma NextNarrow(crc: bv64, b: byte)
    ensures Xor(Low32(crc), b as bv64) <= LOW32
    ensures CrcInstruction(8, crc, b as bv64) <= LOW32
  {
    hide Steps;
    StepsNarrow(8, Xor(Low32(crc), b as bv64));
  }

  lemma LowOfNarrow(r: bv64)
    requires r <= LOW32
    ensures Low32(r) == r
  {}

  /** The largest value of `n` bytes. */
  function LoadLimit(n: nat): bv64 {
    if n == 0 then 0 else Xor(0xFF, Above(LoadLimit(n - 1)))
  }

  predicate AtMost(a: bv64, b: bv64) { a <= b }

  lemma LoadMonotone(b: byte, y: bv64, limit: bv64)
    requires AtMost(y, limit) && AtMost(limit, 0xFF_FFFF_FFFF_FFFF)
    ensures AtMost(Xor(b as bv64, Above(y)), Xor(0xFF, Above(limit)))
  {
    calc {
      Xor(b as bv64, Above(y));
      (b as bv64) ^ (y << 8);
    <=
      0xFF ^ (limit << 8);
      Xor(0xFF, Above(limit));
    }
  }

  lemma LimitValues()
    ensures LoadLimit(1) == 0xFF && LoadLimit(2) == 0xFFFF && LoadLimit(3) == 0xFF_FFFF
    ensures LoadLimit(4) == LOW32 && LoadLimit(5) == 0xFF_FFFF_FFFF && LoadLimit(6) == 0xFFFF_FFFF_FFFF
    ensures LoadLimit(7) == 0xFF_FFFF_FFFF_FFFF
  {
    assert LoadLimit(1) == 0xFF;
    assert LoadLimit(2) == 0xFFFF;
    assert LoadLimit(3) == 0xFF_FFFF;
    assert LoadLimit(4) == LOW32;
    assert LoadLimit(5) == 0xFF_FFFF_FFFF;
    assert LoadLimit(6) == 0xFFFF_FFFF_FFFF;
  }

  lemma LimitSmall(n: nat)
    requires n <= 7
    ensures AtMost(LoadLimit(n), 0xFF_FFFF_FFFF_FFFF)
  {
    LimitValues();
    if n == 0 || n == 1 || n == 2 || n == 3 || n == 4 || n == 5 || n == 6 || n == 7 {
    }
  }

  lemma LoadStep(s: seq<byte>)
    ensures s == [] ==> LoadLE(s) == 0 && LoadLimit(|s|) == 0
    ensures s != [] ==> LoadLE(s) == Xor(s[0] as bv64, Above(LoadLE(s[1..])))
    ensures s != [] ==> LoadLimit(|s|) == Xor(0xFF, Above(LoadLimit(|s[1..]|)))
  {
    hide Xor, Above;
  }

  lemma {:induction false} LoadUnderLimit(s: seq<byte>)
    requires |s| <= 7
    ensures AtMost(LoadLE(s), LoadLimit(|s|))
  {
    hide Xor, Above, LoadLE, LoadLimit;
    LoadStep(s);
    if s != [] {
      hide AtMost;
      LoadUnderLimit(s[1..]);
      LimitSmall(|s[1..]|);
      LoadMonotone(s[0], LoadLE(s[1..]), LoadLimit(|s[1..]|));
    }
  }

  lemma LoadBound(s: seq<byte>)
    requires |s| <= 7
    ensures LoadLE(s) <= 0xFF_FFFF_FFFF_FFFF
  {
    hide LoadLE, LoadLimit;
    LoadUnderLimit(s);
    LimitSmall(|s|);
  }

  /** The heart of the mixed-width loop: one instruction of any width equals the byte fold. */
  lemma {:induction false} WideIsBytes(crc: bv64, s: seq<byte>)
    requires 1 <= |s| <= 8
    ensures CrcInstruction(8 * |s|, crc, LoadLE(s)) == CrcBytes(crc, s)
    decreases |s|
  {
    hide Xor, Above, Low32, Steps;
    var first, rest := s[0] as bv64, LoadLE(s[1..]);
    var c := Low32(crc);
    var next := CrcInstruction(8, crc, first);
    assert Steps(8, Xor(c, LoadLE(s))) == Xor(next, rest) by {
      LoadBound(s[1..]);
      XorAssoc(c, first, Above(rest));
      ByteAbove(rest);
      StepsXor(8, Xor(c, first), Above(rest));
    }
    StepsAdd(8, 8 * |s[1..]|, Xor(c, LoadLE(s)));
    NextNarrow(crc, s[0]);
    LowOfNarrow(next);
    if |s| == 1 {
      XorZero(next);
      NoSteps(next);
    } else {
      WideIsBytes(next, s[1..]);
    }
  }

  lemma NoSteps(r: bv64)
    ensures Steps(0, r) == r
  {}

  lemma XorZero(a: bv64)
    ensures Xor(a, 0) == a
  {}

  lemma {:induction false} BytesSplit(crc: bv64, a: seq<byte>, b: seq<byte>)
    ensures CrcBytes(crc, a + b) == CrcBytes(CrcBytes(crc, a), b)
    decreases |a|
  {
    hide CrcInstruction;
    if a == [] {
      assert a + b == b;
    } else {
      assert (a + b)[1..] == a[1..] + b;
      BytesSplit(CrcInstruction(8, crc, a[0] as bv64), a[1..], b);
    }
  }

  // ---- the accumulator ----

  /** The bytes a load of `n` bytes at `at` consumes. */
  lemma LoadAdvances(seed: bv64, s: seq<byte>, at: nat, n: nat)
    requires 1 <= n <= 8 && at + n <= |s|
    ensures CrcBytes(seed, s[..at + n]) == CrcInstruction(8 * n, CrcBytes(seed, s[..at]), LoadLE(s[at..at + n]))
  {
    hide CrcBytes, CrcInstruction, LoadLE;
    assert s[..at + n] == s[..at] + s[at..at + n];
    BytesSplit(seed, s[..at], s[at..at + n]);
    WideIsBytes(CrcBytes(seed, s[..at]), s[at..at + n]);
  }

  lemma NoBytes(seed: bv64, s: seq<byte>)
    requires s == []
    ensures CrcBytes(seed, s) == seed
  {}

  method Crc32Accumulate(data: array<byte>, size: nat, seed: bv64) returns (crc: bv64)
    requires size <= data.Length
    ensures crc == CrcBytes(seed, data[..size])
  {
    hide CrcBytes, CrcInstruction, LoadLE;
    crc := seed;
    var sample, tail := 0, size;
    NoBytes(seed, data[..0]);
    while tail >= 8
      invariant sample + tail == size
      invariant crc == CrcBytes(seed, data[..sample])
    {
      crc := TakeLoad(data, sample, 8, crc, seed);
      sample, tail := sample + 8, tail - 8;
    }
    crc := AccumulateTail(data, sample, tail, crc, seed);
  }

  /** The 4/2/1-byte tail, which strong_hash and crc32_accumulate share. */
  method AccumulateTail(data: array<byte>, start: nat, rest: nat, before: bv64, ghost seed: bv64) returns (crc: bv64)
    requires rest < 8 && start + rest <= data.Length
    requires before == CrcBytes(seed, data[..start])
    ensures crc == CrcBytes(seed, data[..start + rest])
  {
    hide CrcBytes, CrcInstruction, LoadLE;
    var sample, tail := start, rest;
    crc := before;
    if tail >= 4 {
      crc := TakeLoad(data, sample, 4, crc, seed);
      sample, tail := sample + 4, tail - 4;
    }
    if tail >= 2 {
      crc := TakeLoad(data, sample, 2, crc, seed);
      sample, tail := sample + 2, tail - 2;
    }
    if tail >= 1 {
      crc := TakeLoad(data, sample, 1, crc, seed);
    }
  }

  /** One memcpy of `n` bytes and the CRC32 instruction of that width. */
  method TakeLoad(data: array<byte>, sample: nat, n: nat, before: bv64, ghost seed: bv64) returns (crc: bv64)
    requires n in {1, 2, 4, 8} && sample + n <= data.Length
    requires before == CrcBytes(seed, data[..sample])
    ensures crc == CrcBytes(seed, data[..sample + n])
  {
    hide CrcBytes, CrcInstruction, LoadLE;
    LoadAdvances(seed, data[..], sample, n);
    assert data[..][..sample] == data[..sample] && data[..][..sample + n] == data[..sample + n];
    crc := CrcInstruction(8 * n, before, LoadLE(data[..][sample..sample + n]));
  }

  // ---- the finalizer ----

  const FACTOR_1: bv32 := 0x85ebca77
  const FACTOR_2: bv32 := 0xc2b2ae3d
  // Inverses of the odd factors modulo 2^32.
  const INVERSE_1: bv32 := 0xb6c92f47
  const INVERSE_2: bv32 := 0xa89ed915

  function Word32(r: bv64): bv32 { (r & LOW32) as bv32 }

  function SizeWord(n: nat): bv32 { Uint32(n) as bv32 }

  function Xor32(a: bv32, b: bv32): bv32 { a ^ b }

  function Down16(x: bv32): bv32 { x >> 16 }

  function Down13(x: bv32): bv32 { x >> 13 }

  function Fold16(x: bv32): bv32 { Xor32(x, Down16(x)) }

  function Fold13(x: bv32): bv32 { Xor32(x, Down13(x)) }

  function Unfold13(x: bv32): bv32 { Xor32(Xor32(x, Down13(x)), Down13(Down13(x))) }

  function Times(x: bv32, factor: bv32): bv32 { x * factor }

  function AddSize(x: bv32, n: bv32): bv32 { Xor32(x, n) }

  function Mix(x: bv32, n: bv32): bv32 {
    Fold16(Times(Fold13(Times(Fold16(AddSize(x, n)), FACTOR_1)), FACTOR_2))
  }

  /** The inverse of Mix. */
  function Unmix(y: bv32, n: bv32): bv32 {
    AddSize(Fold16(Times(Unfold13(Times(Fold16(y), INVERSE_2)), INVERSE_1)), n)
  }

  lemma Xor32Undone(x: bv32, a: bv32)
    ensures Xor32(Xor32(x, a), a) == x
  {}

  lemma Xor32Zero(x: bv32)
    ensures Xor32(x, 0) == x
  {}

  lemma Xor32Swap(a: bv32, b: bv32)
    ensures Xor32(a, b) == Xor32(b, a)
  {}

  lemma Xor32Assoc(a: bv32, b: bv32, c: bv32)
    ensures Xor32(a, Xor32(b, c)) == Xor32(Xor32(a, b), c)
  {}

  lemma Down16Kept(x: bv32)
    ensures Down16(Xor32(x, Down16(x))) == Down16(x)
  {}

  lemma Down13Xor(a: bv32, b: bv32)
    ensures Down13(Xor32(a, b)) == Xor32(Down13(a), Down13(b))
  {}

  lemma Down13Cubed(x: bv32)
    ensures Down13(Down13(Down13(x))) == 0
  {}

  lemma Telescopes(x: bv32, a: bv32, b: bv32)
    ensures Xor32(Xor32(Xor32(x, a), Xor32(a, b)), Xor32(b, 0)) == x
    ensures Xor32(Xor32(Xor32(x, a), b), Xor32(Xor32(a, b), 0)) == x
  {
    hide Xor32;
    Xor32Zero(b);
    Xor32Zero(Xor32(a, b));
    Xor32Undone(x, a);
    Xor32Undone(x, b);
    Xor32Assoc(Xor32(x, a), a, b);
    Xor32Assoc(Xor32(Xor32(x, a), b), a, b);
    Xor32Assoc(Xor32(x, a), b, a);
    Xor32Assoc(Xor32(x, a), a, b);
    Xor32Swap(a, b);
  }

  lemma Fold16Inverse(x: bv32)
    ensures Fold16(Fold16(x)) == x
  {
    hide Xor32, Down16;
    Down16Kept(x);
    Xor32Undone(x, Down16(x));
  }

  lemma Fold13Inverse(x: bv32)
    ensures Unfold13(Fold13(x)) == x && Fold13(Unfold13(x)) == x
  {
    hide Xor32, Down13;
    var a, b := Down13(x), Down13(Down13(x));
    Down13Cubed(x);
    Down13Xor(x, a);
    Down13Xor(a, b);
    Down13Xor(Xor32(x, a), b);
    Telescopes(x, a, b);
  }

  lemma Times1Inverse(x: bv32)
    ensures Times(Times(x, FACTOR_1), INVERSE_1) == x && Times(Times(x, INVERSE_1), FACTOR_1) == x
  {
    calc { Times(Times(x, FACTOR_1), INVERSE_1); Times(x * 0x85ebca77, 0xb6c92f47); (x * 0x85ebca77) * 0xb6c92f47; x; }
    calc { Times(Times(x, INVERSE_1), FACTOR_1); Times(x * 0xb6c92f47, 0x85ebca77); (x * 0xb6c92f47) * 0x85ebca77; x; }
  }

  lemma Times2Inverse(x: bv32)
    ensures Times(Times(x, FACTOR_2), INVERSE_2) == x && Times(Times(x, INVERSE_2), FACTOR_2) == x
  {
    calc { Times(Times(x, FACTOR_2), INVERSE_2); Times(x * 0xc2b2ae3d, 0xa89ed915); (x * 0xc2b2ae3d) * 0xa89ed915; x; }
    calc { Times(Times(x, INVERSE_2), FACTOR_2); Times(x * 0xa89ed915, 0xc2b2ae3d); (x * 0xa89ed915) * 0xc2b2ae3d; x; }
  }

  lemma AddSizeInverse(x: bv32, n: bv32)
    ensures AddSize(AddSize(x, n), n) == x
  {
    hide Xor32;
    Xor32Undone(x, n);
  }

  lemma MixBijection(x: bv32, n: bv32)
    ensures Unmix(Mix(x, n), n) == x && Mix(Unmix(x, n), n) == x
  {
    hide Fold16, Fold13, Unfold13, Times, AddSize;
    var a := AddSize(x, n);
    var b := Times(Fold16(a), FACTOR_1);
    var c := Times(Fold13(b), FACTOR_2);
    AddSizeInverse(x, n);
    Fold16Inverse(a);
    Times1Inverse(Fold16(a));
    Fold13Inverse(b);
    Times2Inverse(Fold13(b));
    Fold16Inverse(c);
    var d := Times(Fold16(x), INVERSE_2);
    var e := Times(Unfold13(d), INVERSE_1);
    Fold16Inverse(x);
    Times2Inverse(Fold16(x));
    Fold13Inverse(d);
    Times1Inverse(Unfold13(d));
    Fold16Inverse(e);
    AddSizeInverse(Fold16(e), n);
  }

  method Crc32Finalize(crc: bv64, totalSize: nat) returns (result: bv32)
    ensures result == Mix(Word32(crc), SizeWord(totalSize))
  {
    hide Word32, SizeWord, AddSize, Fold16, Fold13, Times;
    result := Word32(crc);
    result := AddSize(result, SizeWord(totalSize));
    result := Fold16(result);
    result := Times(result, FACTOR_1);
    result := Fold13(result);
    result := Times(result, FACTOR_2);
    result := Fold16(result);
  }

  /** What strong_hash computes, by the reference definition. */
  function HashOf(s: seq<byte>): bv32 {
    Mix(Word32(CrcBytes(0, s)), SizeWord(|s|))
  }

  method StrongHash(data: array?<byte>, size: nat) returns (hash: bv32)
    requires size < UINT32
    requires data != null ==> size <= data.Length
    ensures data == null ==> hash == 0
    ensures data != null ==> hash == HashOf(data[..size])
  {
    hide CrcBytes, CrcInstruction, LoadLE, Word32, SizeWord, AddSize, Fold16, Fold13, Times;
    if data == null {
      return 0;
    }
    var crc: bv64 := 0;
    var sample, tail := 0, size;
    NoBytes(0, data[..0]);
    while tail >= 8
      invariant sample + tail == size
      invariant crc == CrcBytes(0, data[..sample])
    {
      crc := TakeLoad(data, sample, 8, crc, 0);
      sample, tail := sample + 8, tail - 8;
    }
    crc := AccumulateTail(data, sample, tail, crc, 0);
    hash := Word32(crc);
    hash := AddSize(hash, SizeWord(size));
    hash := Fold16(hash);
    hash := Times(hash, FACTOR_1);
    hash := Fold13(hash);
    hash := Times(hash, FACTOR_2);
    hash := Fold16(hash);
  }

  /** The size enters the hash: two finalizers agree exactly when register and size, combined, do. */
  lemma MixSeparates(x: bv32, n: bv32, y: bv32, m: bv32)
    ensures Mix(x, n) == Mix(y, m) <==> Xor32(x, n) == Xor32(y, m)
  {
    var a, b := Xor32(x, n), Xor32(y, m);
    MixBijection(a, 0);
    MixBijection(b, 0);
    Xor32Zero(a);
    Xor32Zero(b);
    hide Xor32, Fold16, Fold13, Times, Unmix;
    assert Mix(x, n) == Mix(a, 0) && Mix(y, m) == Mix(b, 0);
  }

  /** One value through the finalizer, stage by stage. */
  lemma MixSample()
    ensures Mix(0x0123_4567, 0) == 0x7D3A_5DC9
  {
    assert AddSize(0x0123_4567, 0) == 0x0123_4567;
    assert Fold16(0x0123_4567) == 0x0123_4444;
    assert Times(0x0123_4444, FACTOR_1) == 0x59AE_639C;
    assert Fold13(0x59AE_639C) == 0x59AC_AEEF;
    assert Times(0x59AC_AEEF, FACTOR_2) == 0x7D3A_20F3;
    assert Fold16(0x7D3A_20F3) == 0x7D3A_5DC9;
  }

  /** Keys with the same CRC but of different size, as 32 bit words, have different hashes. */
  lemma SizeSeparates(s: seq<byte>, t: seq<byte>)
    requires CrcBytes(0, s) == CrcBytes(0, t) && Uint32(|s|) as bv32 != Uint32(|t|) as bv32
    ensures HashOf(s) != HashOf(t)
  {
    assert SizeWord(|s|) != SizeWord(|t|);
    hide CrcBytes, Mix, Xor32, Word32, SizeWord;
    var x := Word32(CrcBytes(0, s));
    MixSeparates(x, SizeWord(|s|), x, SizeWord(|t|));
    Xor32Undone(SizeWord(|s|), x);
    Xor32Undone(SizeWord(|t|), x);
    Xor32Swap(x, SizeWord(|s|));
    Xor32Swap(x, SizeWord(|t|));
  }

  /** Hashing in pieces: accumulating parts from seed 0 and finalizing with the total size is strong_hash
      of the whole; for every split and every 64-bit intermediate value. */
  lemma PiecewiseHash(a: seq<byte>, b: seq<byte>)
    ensures Mix(Word32(CrcBytes(CrcBytes(0, a), b)), SizeWord(|a| + |b|)) == HashOf(a + b)
  {
    hide CrcBytes, Mix, Word32, SizeWord;
    BytesSplit(0, a, b);
  }

  // ---- collisions ----

  function UnBitStep(r: bv64): bv64 {
    if r >= 0x8000_0000 then ((r ^ POLY) << 1) ^ 1 else r << 1
  }

  lemma BitStepInverse(r: bv64)
    requires r <= LOW32
    ensures UnBitStep(BitStep(r)) == r
  {}

  lemma {:induction false} StepsInjective(n: nat, r: bv64, q: bv64)
    requires r <= LOW32 && q <= LOW32 && Steps(n, r) == Steps(n, q)
    ensures r == q
  {
    hide BitStep, UnBitStep;
    if n > 0 {
      BitStepNarrow(r);
      BitStepNarrow(q);
      StepsInjective(n - 1, BitStep(r), BitStep(q));
      BitStepInverse(r);
      BitStepInverse(q);
    }
  }

  lemma XorCancel(c: bv64, x: bv64, y: bv64)
    requires Xor(c, x) == Xor(c, y)
    ensures x == y
  {
    calc { x; c ^ (c ^ x); c ^ (c ^ y); y; }
  }

  function FirstByte(r: bv64): byte { (r & 0xFF) as byte }

  function Rest(r: bv64): bv64 { r >> 8 }

  lemma LoadParts(b: byte, x: bv64)
    requires x <= 0xFF_FFFF_FFFF_FFFF
    ensures FirstByte(Xor(b as bv64, Above(x))) == b
    ensures Rest(Xor(b as bv64, Above(x))) == x
  {
    calc {
      Xor(b as bv64, Above(x));
      (b as bv64) ^ (x << 8);
    }
    assert (((b as bv64) ^ (x << 8)) & 0xFF) as byte == b;
    assert ((b as bv64) ^ (x << 8)) >> 8 == x;
  }

  lemma LoadFirst(s: seq<byte>)
    requires 1 <= |s| <= 8
    ensures FirstByte(LoadLE(s)) == s[0] && Rest(LoadLE(s)) == LoadLE(s[1..])
  {
    hide Xor, Above, FirstByte, Rest;
    LoadBound(s[1..]);
    LoadParts(s[0], LoadLE(s[1..]));
  }

  lemma {:induction false} LoadInjective(s: seq<byte>, t: seq<byte>)
    requires |s| == |t| <= 4 && LoadLE(s) == LoadLE(t)
    ensures s == t
  {
    hide LoadLE, FirstByte, Rest;
    if s != [] {
      LoadFirst(s);
      LoadFirst(t);
      LoadInjective(s[1..], t[1..]);
      assert s == [s[0]] + s[1..] && t == [t[0]] + t[1..];
    }
  }

  /** A CRC over at most four bytes is a division of one word, so it separates them. */
  lemma WindowInjective(c: bv64, s: seq<byte>, t: seq<byte>)
    requires 1 <= |s| == |t| <= 4 && s != t && c <= LOW32
    ensures CrcBytes(c, s) != CrcBytes(c, t)
    ensures CrcBytes(c, s) <= LOW32 && CrcBytes(c, t) <= LOW32
  {
    hide CrcBytes, Xor, LoadLE, Low32, Steps, LoadLimit;
    WideIsBytes(c, s);
    WideIsBytes(c, t);
    WordEntry(c, s);
    WordEntry(c, t);
    StepsNarrow(8 * |s|, Xor(c, LoadLE(s)));
    StepsNarrow(8 * |t|, Xor(c, LoadLE(t)));
    if CrcBytes(c, s) == CrcBytes(c, t) {
      StepsInjective(8 * |s|, Xor(c, LoadLE(s)), Xor(c, LoadLE(t)));
      XorCancel(c, LoadLE(s), LoadLE(t));
      LoadInjective(s, t);
    }
  }

  lemma WordEntry(c: bv64, s: seq<byte>)
    requires |s| <= 4 && c <= LOW32
    ensures Low32(c) == c && Xor(c, LoadLE(s)) <= LOW32
  {
    hide LoadLE, LoadLimit;
    LowOfNarrow(c);
    LoadUnderLimit(s);
    WordLimit(|s|);
    var x := LoadLE(s);
    assert x <= LOW32;
    assert c ^ x <= LOW32;
  }

  lemma WordLimit(n: nat)
    requires n <= 4
    ensures LoadLimit(n) <= LOW32
  {
    LimitValues();
    if n == 0 || n == 1 || n == 2 || n == 3 || n == 4 {
    }
  }

  lemma ByteInjective(c: bv64, d: bv64, b: byte)
    requires c <= LOW32 && d <= LOW32 && c != d
    ensures CrcInstruction(8, c, b as bv64) != CrcInstruction(8, d, b as bv64)
  {
    hide Xor, Low32, Steps;
    LowOfNarrow(c);
    LowOfNarrow(d);
    NextNarrow(c, b);
    NextNarrow(d, b);
    if CrcInstruction(8, c, b as bv64) == CrcInstruction(8, d, b as bv64) {
      StepsInjective(8, Xor(c, b as bv64), Xor(d, b as bv64));
      XorCancelLeft(c, d, b as bv64);
    }
  }

  lemma {:induction false} SuffixInjective(c: bv64, d: bv64, s: seq<byte>)
    requires c <= LOW32 && d <= LOW32 && c != d
    ensures CrcBytes(c, s) != CrcBytes(d, s)
    ensures CrcBytes(c, s) <= LOW32 && CrcBytes(d, s) <= LOW32
    decreases |s|
  {
    hide CrcInstruction;
    if s != [] {
      NextNarrow(c, s[0]);
      NextNarrow(d, s[0]);
      ByteInjective(c, d, s[0]);
      SuffixInjective(CrcInstruction(8, c, s[0] as bv64), CrcInstruction(8, d, s[0] as bv64), s[1..]);
    }
  }

  lemma XorCancelLeft(x: bv64, y: bv64, c: bv64)
    requires Xor(x, c) == Xor(y, c)
    ensures x == y
  {
    calc { x; (x ^ c) ^ c; (y ^ c) ^ c; y; }
  }

  lemma {:induction false} PrefixNarrow(c: bv64, s: seq<byte>)
    requires c <= LOW32
    ensures CrcBytes(c, s) <= LOW32
    decreases |s|
  {
    hide CrcInstruction;
    if s != [] {
      NextNarrow(c, s[0]);
      PrefixNarrow(CrcInstruction(8, c, s[0] as bv64), s[1..]);
    }
  }

  lemma Word32Widens(c: bv64)
    requires c <= LOW32
    ensures Word32(c) as bv64 == c
  {}

  /** Keys that differ only inside a window of at most four consecutive bytes never share a strong hash.
      With an empty prefix and suffix: strong_hash is injective on equal-length keys of up to four bytes. */
  lemma NoWindowCollision(prefix: seq<byte>, s: seq<byte>, t: seq<byte>, suffix: seq<byte>)
    requires 1 <= |s| == |t| <= 4 && s != t
    ensures HashOf(prefix + s + suffix) != HashOf(prefix + t + suffix)
  {
    hide CrcBytes, Mix, Unmix, Word32, SizeWord;
    var c := CrcBytes(0, prefix);
    PrefixNarrow(0, prefix);
    WindowInjective(c, s, t);
    SuffixInjective(CrcBytes(c, s), CrcBytes(c, t), suffix);
    BytesSplit(0, prefix, s);
    BytesSplit(0, prefix + s, suffix);
    BytesSplit(0, prefix, t);
    BytesSplit(0, prefix + t, suffix);
    var x, y := CrcBytes(CrcBytes(c, s), suffix), CrcBytes(CrcBytes(c, t), suffix);
    Word32Widens(x);
    Word32Widens(y);
    var n := SizeWord(|prefix| + |s| + |suffix|);
    MixBijection(Word32(x), n);
    MixBijection(Word32(y), n);
  }
}
