/** mux64 of common/src/hashes.cxx: a 64x64 -> 128 bit product, natively and by the portable fallback.
    64-bit words are naturals below 2^64 with the wrap-around written out. */
module Mux {
  import opened Common

  const B: nat := 0x1_0000_0000
  const W: nat := 0x1_0000_0000_0000_0000

  type word = x: int | 0 <= x < 0x1_0000_0000_0000_0000

  const PRIME_0: word := 0xEC997CE353AD73ED
  const PRIME_1: word := 0xBE1F145728F2090D

  /** Low and high half of the product. */
  datatype Halves = Halves(low: int, high: int)

  function Split(x: int): Halves {
    Halves(x % W, x / W)
  }

  /** The two halves are words that make up the number. */
  lemma SplitRecombines(x: nat)
    requires x / W < W
    ensures 0 <= Split(x).low < W && 0 <= Split(x).high < W && Split(x).high * W + Split(x).low == x
  {
    assert x == (x / W) * W + x % W;
  }

  /** The branch for compilers with a 128-bit integer. */
  function Native(v: word, p: word): Halves {
    Split(v * p)
  }

  /** The sum of the two cross products and the carry of the low product, before it wraps. */
  function Cross(v: word, p: word): int {
    (v / B) * (p % B) + (v % B) * (p / B) + ((v % B) * (p % B)) / B
  }

  /** The fallback's last three lines, on the word-sized partial products. The two operands of its
      bitwise or occupy disjoint halves of the word, so the or is a sum. */
  function Assemble(h: int, mm: int, l: int): Halves {
    Halves(l % B + (mm * B) % W, (h + mm / B) % W)
  }

  function Portable(v: word, p: word): Halves {
    Assemble(((v / B) * (p / B)) % W, Cross(v, p) % W, ((v % B) * (p % B)) % W)
  }

  function Carry(v: word, p: word): int { Cross(v, p) / W }

  lemma HalfProduct(a: nat, b: nat)
    requires a < B && b < B
    ensures 0 <= a * b <= (B - 1) * (B - 1)
  {
    MulBound(a, b, B - 1, B - 1);
  }

  /** Schoolbook multiplication of two-digit numbers in base B. */
  lemma Schoolbook(v: word, p: word)
    ensures v * p == (v / B) * (p / B) * W + Cross(v, p) * B + ((v % B) * (p % B)) % B
  {
    var vl, vh, pl, ph := v % B, v / B, p % B, p / B;
    var l := vl * pl;
    assert v == vh * B + vl && p == ph * B + pl;
    calc {
      v * p;
      (vh * B + vl) * (ph * B + pl);
      (vh * B) * (ph * B) + (vh * B) * pl + vl * (ph * B) + l;
      (vh * ph) * (B * B) + (vh * pl) * B + (vl * ph) * B + l;
      (vh * ph) * W + (vh * pl + vl * ph) * B + (l / B * B + l % B);
      (vh * ph) * W + (vh * pl + vl * ph + l / B) * B + l % B;
    }
  }

  lemma ShiftWraps(mm: nat)
    requires mm < W
    ensures mm * B == (mm / B) * W + (mm % B) * B
    ensures (mm * B) % W == (mm % B) * B
  {
    SplitUnique(mm / B, (mm % B) * B, W);
  }

  /** The halves of a number given in base-B digits, where the middle digit may overflow a word. */
  lemma Recombine(h: nat, sum: nat, r: nat)
    requires r < B
    ensures (h * W + sum * B + r) / W == h + (sum / W) * B + (sum % W) / B
    ensures (h * W + sum * B + r) % W == ((sum % W) * B) % W + r
  {
    var mm, c := sum % W, sum / W;
    ShiftWraps(mm);
    var high, low := h + c * B + mm / B, (mm % B) * B + r;
    assert h * W + sum * B + r == high * W + low;
    SplitUnique(high, low, W);
  }

  lemma CrossBound(v: word, p: word)
    ensures 0 <= Cross(v, p) < 2 * W
    ensures 0 <= (v % B) * (p % B) && ((v % B) * (p % B)) % W == (v % B) * (p % B)
    ensures 0 <= (v / B) * (p / B) && ((v / B) * (p / B)) % W == (v / B) * (p / B)
  {
    HalfProduct(v % B, p % B);
    HalfProduct(v / B, p % B);
    HalfProduct(v % B, p / B);
    HalfProduct(v / B, p / B);
  }

  lemma AssembleError(h: nat, sum: nat, l: nat, x: nat)
    requires x == h * W + sum * B + l % B && x / W < W
    ensures Assemble(h, sum % W, l).low == Split(x).low
    ensures Split(x).high == Assemble(h, sum % W, l).high + (sum / W) * B
  {
    Recombine(h, sum, l % B);
  }

  /** With a 128-bit integer the two halves are those of the exact product. */
  lemma NativeExact(v: word, p: word)
    ensures var r := Native(v, p);
            0 <= r.low < W && 0 <= r.high < W && r.high * W + r.low == v * p
  {
    HighFits(v, p);
    SplitRecombines(v * p);
  }

  /** The fallback's low half is always right; its high half loses exactly 2^32 per lost carry,
      and at most one carry is lost. */
  lemma PortableError(v: word, p: word)
    ensures Carry(v, p) <= 1
    ensures Portable(v, p).low == Native(v, p).low
    ensures Native(v, p).high == Portable(v, p).high + Carry(v, p) * B
  {
    hide Assemble, Split, Cross;
    CrossBound(v, p);
    Schoolbook(v, p);
    HighFits(v, p);
    AssembleError((v / B) * (p / B), Cross(v, p), (v % B) * (p % B), v * p);
  }

  lemma HighFits(v: word, p: word)
    ensures 0 <= v * p && (v * p) / W < W
  {
    MulBound(v, p, W - 1, W - 1);
  }

  /** The fallback agrees with the product for every multiplicand exactly when the two halves of the
      multiplier sum to at most 2^32. */
  lemma PortableExact(p: word)
    ensures (forall v: word :: Portable(v, p) == Native(v, p)) <==> p % B + p / B <= B
  {
    var pl, ph := p % B, p / B;
    if pl + ph <= B {
      forall v: word ensures Portable(v, p) == Native(v, p) {
        NoCarry(v, p);
        PortableError(v, p);
      }
    } else {
      var v: word := W - 1;
      assert v % B == B - 1 && v / B == B - 1;
      var s := pl + ph;
      MulBound(B - 1, B + 1, B - 1, s);
      LowCarry(pl);
      assert Cross(v, p) == (B - 1) * pl + (B - 1) * ph + ((B - 1) * pl) / B;
      assert (B - 1) * pl + (B - 1) * ph == (B - 1) * s;
      assert Cross(v, p) >= W;
      PortableError(v, p);
      assert Portable(v, p) != Native(v, p);
    }
  }

  lemma LowCarry(pl: nat)
    requires 1 <= pl < B
    ensures ((B - 1) * pl) / B == pl - 1
  {
    assert (B - 1) * pl == (pl - 1) * B + (B - pl);
    SplitUnique(pl - 1, B - pl, B);
  }

  lemma NoCarry(v: word, p: word)
    requires p % B + p / B <= B
    ensures Carry(v, p) == 0
  {
    var vl, vh, pl, ph := v % B, v / B, p % B, p / B;
    var x, y, l := vh * pl, vl * ph, vl * pl;
    MulBound(vh, pl, B - 1, pl);
    MulBound(vl, ph, B - 1, ph);
    MulBound(vl, pl, B - 1, pl);
    var top := if pl == 0 then 0 else pl - 1;
    if pl > 0 {
      LowCarry(pl);
    }
    DivMonotone(l, (B - 1) * pl);
    assert 0 <= l / B <= top;
    assert 0 <= x + y <= (B - 1) * (pl + ph);
    assert 0 <= x + y + l / B < W;
  }

  lemma DivMonotone(a: nat, b: nat)
    requires a <= b
    ensures a / B <= b / B
  {}

  /** Of the two multipliers of week_hash only the second is safe in the fallback. */
  lemma PrimesDiffer()
    ensures forall v: word :: Portable(v, PRIME_1) == Native(v, PRIME_1)
    ensures Portable(0xFFFF_FFFF_FFFF_FFFF, PRIME_0) != Native(0xFFFF_FFFF_FFFF_FFFF, PRIME_0)
  {
    PortableExact(PRIME_1);
    PortableExact(PRIME_0);
    var v: word := 0xFFFF_FFFF_FFFF_FFFF;
    PortableError(v, PRIME_0);
    assert Cross(v, PRIME_0) >= W;
  }
}
