/** The 256-bit decoder of three-bit streams, 32 values to a step. A register is its 32 bytes; the
    instructions work within two halves of sixteen. */
module FixedVectors {
  import opened Numbers
  import opened BitStrings
  import opened FixedCodes
  import opened FixedDictionaries

  type Reg = r: seq<nat> | |r| == 32 && forall i :: 0 <= i < 32 ==> r[i] < 256
    witness seq(32, _ => 0)
  type Words = w: seq<nat> | |w| == 16 && forall i :: 0 <= i < 16 ==> w[i] < 0x1_0000
    witness seq(16, _ => 0)

  // ------------------------------------------------------------------ instructions

  /** Sixteen bytes into both halves. */
  function Broadcast(a: seq<Byte>): Reg
    requires |a| == 16
  {
    seq(32, i requires 0 <= i < 32 => a[i % 16])
  }

  function Shuffle(a: Reg, at: Reg): Reg {
    seq(32, i requires 0 <= i < 32 => if at[i] >= 128 then 0 else a[16 * (i / 16) + at[i] % 16])
  }

  function AsWords(a: Reg): Words {
    seq(16, k requires 0 <= k < 16 => Pair(a[2 * k], a[2 * k + 1]))
  }

  function MulLow(a: Words, b: Words): Words {
    seq(16, k requires 0 <= k < 16 => a[k] * b[k] % 0x1_0000)
  }

  function ShiftRight13(a: Words): Words {
    seq(16, k requires 0 <= k < 16 => a[k] / 0x2000)
  }

  /** Words to bytes, saturating as signed words do; each half takes eight from a and eight from b. */
  function Pack(a: Words, b: Words): Reg {
    seq(32, i requires 0 <= i < 32 => Saturate(if i % 16 < 8 then a[8 * (i / 16) + i % 8] else b[8 * (i / 16) + i % 8]))
  }

  function Saturate(w: nat): (b: nat)
    requires w < 0x1_0000
    ensures b < 256
  {
    if w >= 0x8000 then 0 else if w > 255 then 255 else w
  }

  function Equal7(a: Reg): Reg {
    seq(32, i requires 0 <= i < 32 => if a[i] == 7 then 255 else 0)
  }

  /** Bytes that are zero or 255, masked with one. */
  function Low1(a: Reg): Reg {
    seq(32, i requires 0 <= i < 32 => a[i] % 2)
  }

  function Add(a: Reg, b: Reg): Reg {
    seq(32, i requires 0 <= i < 32 => (a[i] + b[i]) % 256)
  }

  function Subtract(a: Reg, b: Reg): Reg {
    seq(32, i requires 0 <= i < 32 => (a[i] + 256 - b[i]) % 256)
  }

  /** Each 64-bit part moved up by n bytes. */
  function ShiftBytes(a: Reg, n: nat): Reg {
    seq(32, i requires 0 <= i < 32 => if i % 8 < n then 0 else a[i - n])
  }

  function Blend(a: Reg, b: Reg, mask: Reg): Reg {
    seq(32, i requires 0 <= i < 32 => if mask[i] >= 128 then b[i] else a[i])
  }

  /** One bit for the sign of each byte. */
  function SignMask(a: seq<nat>): nat {
    if a == [] then 0 else (if a[0] >= 128 then 1 else 0) + 2 * SignMask(a[1..])
  }

  function PopCount(m: nat): nat {
    if m == 0 then 0 else m % 2 + PopCount(m / 2)
  }

  function UnpackLow(a: Reg, b: Reg): Reg {
    seq(32, i requires 0 <= i < 32 => Interleaved(a, b, 16 * (i / 16) + i % 16 / 2, i))
  }

  function UnpackHigh(a: Reg, b: Reg): Reg {
    seq(32, i requires 0 <= i < 32 => Interleaved(a, b, 16 * (i / 16) + 8 + i % 16 / 2, i))
  }

  function Interleaved(a: Reg, b: Reg, k: nat, i: nat): (r: nat)
    requires k < 32
    ensures r < 256
  {
    if i % 2 == 0 then a[k] else b[k]
  }

  // ------------------------------------------------------------------ codes

  const LO: seq<nat> := [0, 1, 0, 1, 0, 1, 1, 2, 1, 2, 1, 2, 2, 3, 2, 3,
                         6, 7, 6, 7, 6, 7, 7, 8, 7, 8, 7, 8, 8, 9, 8, 9]
  const HI: seq<nat> := [3, 4, 3, 4, 3, 4, 4, 5, 4, 5, 4, 5, 5, 6, 5, 6,
                         9, 10, 9, 10, 9, 10, 10, 11, 10, 11, 10, 11, 11, 12, 11, 12]
  const MUL: seq<nat> := [8192, 1024, 128, 4096, 512, 64, 2048, 256,
                          8192, 1024, 128, 4096, 512, 64, 2048, 256]

  /** Gather two bytes to a word, multiply, and keep the top three bits. */
  function Gather(index: seq<Byte>, at: Reg, mul: Words): Words
    requires |index| == 16
  {
    ShiftRight13(MulLow(AsWords(Shuffle(Broadcast(index), at)), mul))
  }

  function CodesBy(index: seq<Byte>, lo: Reg, hi: Reg, mul: Words): Reg
    requires |index| == 16
  {
    Pack(Gather(index, lo, mul), Gather(index, hi, mul))
  }

  ghost predicate LowBytes(lo: Reg) {
    forall k: nat :: k < 16 ==> BytePair(lo, k, 6 * (k / 8) + 3 * (k % 8) / 8)
  }

  ghost predicate HighBytes(hi: Reg) {
    forall k: nat :: k < 16 ==> BytePair(hi, k, 3 + 6 * (k / 8) + 3 * (k % 8) / 8)
  }

  ghost predicate BytePair(at: Reg, k: nat, q: nat)
    requires k < 16
  {
    at[2 * k] == q && at[2 * k + 1] == q + 1
  }

  ghost predicate Multipliers(mul: Words) {
    forall k :: 0 <= k < 16 ==> mul[k] == Pow2(13 - 3 * (k % 8) % 8)
  }

  lemma {:induction false} LowFirst(k: nat)
    requires k < 16
    ensures LO[2 * k] == 6 * (k / 8) + 3 * (k % 8) / 8
  {}

  lemma {:induction false} LowSecond(k: nat)
    requires k < 16
    ensures LO[2 * k + 1] == LO[2 * k] + 1
  {}

  lemma {:induction false} HighFirst(k: nat)
    requires k < 16
    ensures HI[2 * k] == 3 + 6 * (k / 8) + 3 * (k % 8) / 8
  {}

  lemma {:induction false} HighSecond(k: nat)
    requires k < 16
    ensures HI[2 * k + 1] == HI[2 * k] + 1
  {}

  lemma {:induction false} LowTable()
    ensures LowBytes(LO)
  {
    forall k: nat | k < 16
      ensures BytePair(LO, k, 6 * (k / 8) + 3 * (k % 8) / 8)
    {
      LowFirst(k);
      LowSecond(k);
    }
  }

  lemma {:induction false} HighTable()
    ensures HighBytes(HI)
  {
    forall k: nat | k < 16
      ensures BytePair(HI, k, 3 + 6 * (k / 8) + 3 * (k % 8) / 8)
    {
      HighFirst(k);
      HighSecond(k);
    }
  }

  lemma {:induction false} PowersOfTwo()
    ensures Pow2(6) == 64 && Pow2(7) == 128 && Pow2(8) == 256 && Pow2(9) == 512
    ensures Pow2(10) == 1024 && Pow2(11) == 2048 && Pow2(12) == 4096 && Pow2(13) == 8192
  {}

  lemma {:induction false} MultiplierAt(k: nat)
    requires k < 16
    ensures MUL[k] == Pow2(13 - 3 * (k % 8) % 8)
  {
    PowersOfTwo();
  }

  lemma {:induction false} MultiplierTable()
    ensures Multipliers(MUL)
  {
    forall k: nat | k < 16
      ensures MUL[k] == Pow2(13 - 3 * (k % 8) % 8)
    {
      MultiplierAt(k);
    }
  }

  /** A multiplication that moves a field to the top of a word, and a shift that brings it down. */
  lemma {:induction false} MultiplyShift(w: nat, s: nat)
    requires s < 8
    ensures w * Pow2(13 - s) % 0x1_0000 / 0x2000 == Shr(w, s) % 8
  {
    var d, m := Remainder(w, Pow2(s));
    ShrOfSum(d, m, s);
    Pow2Add(s, 13 - s);
    assert Pow2(13) == 0x2000;
    FieldMoved(d, m, Pow2(s), Pow2(13 - s));
  }

  lemma {:induction false} FieldMoved(d: nat, m: nat, p: nat, t: nat)
    requires m < p && p * t == 0x2000
    ensures (d * p + m) * t % 0x1_0000 / 0x2000 == d % 8
  {
    assert (d * p + m) * t == d * (p * t) + m * t;
    assert m * t < 0x2000 by {
      assert m * t + t == (m + 1) * t;
      Below(m + 1, p, t, t);
    }
    TopField(d, m * t);
  }

  lemma {:induction false} TopField(d: nat, r: nat)
    requires r < 0x2000
    ensures (d * 0x2000 + r) % 0x1_0000 / 0x2000 == d % 8
  {
    assert d * 0x2000 + r == 0x1_0000 * (d / 8) + (d % 8 * 0x2000 + r);
  }

  /** One word of a gathered register: the code at bit 8q + s of the sixteen bytes. */
  lemma {:induction false} GatheredCode(index: seq<Byte>, at: Reg, mul: Words, k: nat, q: nat, s: nat)
    requires |index| == 16 && k < 16 && at[2 * k] == q && at[2 * k + 1] == q + 1 && q < 15
    requires s < 8 && mul[k] == Pow2(13 - s)
    ensures Gather(index, at, mul)[k] == Shr(Pair(index[q], index[q + 1]), s) % 8
  {
    ShuffledWord(index, at, k, q);
    MultiplyShift(Pair(index[q], index[q + 1]), s);
    ScaledWord(AsWords(Shuffle(Broadcast(index), at)), mul, k);
  }

  lemma {:induction false} ShuffledWord(index: seq<Byte>, at: Reg, k: nat, q: nat)
    requires |index| == 16 && k < 16 && at[2 * k] == q && at[2 * k + 1] == q + 1 && q < 15
    ensures AsWords(Shuffle(Broadcast(index), at))[k] == Pair(index[q], index[q + 1])
  {
    ShuffledByte(index, at, 2 * k);
    ShuffledByte(index, at, 2 * k + 1);
    WordAt(Shuffle(Broadcast(index), at), k);
  }

  lemma {:induction false} ShuffledByte(index: seq<Byte>, at: Reg, i: nat)
    requires |index| == 16 && i < 32 && at[i] < 16
    ensures Shuffle(Broadcast(index), at)[i] == index[at[i]]
  {}

  lemma {:induction false} WordAt(a: Reg, k: nat)
    requires k < 16
    ensures AsWords(a)[k] == Pair(a[2 * k], a[2 * k + 1])
  {}

  lemma {:induction false} ScaledWord(w: Words, mul: Words, k: nat)
    requires k < 16
    ensures ShiftRight13(MulLow(w, mul))[k] == w[k] * mul[k] % 0x1_0000 / 0x2000
  {}

  /** Position j = 16 * half + 8 * upper + t of a register, whose code starts at bit 3j = 8q + s of the
      sixteen bytes, with q = 6 * half + 3 * upper + r. */
  ghost predicate IsPlace(half: nat, upper: nat, t: nat, r: nat, s: nat) {
    half < 2 && upper < 2 && t < 8 && s < 8 && 3 * t == 8 * r + s
  }

  lemma {:induction false} PlaceOf(j: nat) returns (half: nat, upper: nat, t: nat, r: nat, s: nat)
    requires j < 32
    ensures IsPlace(half, upper, t, r, s) && j == 16 * half + 8 * upper + t
  {
    half, upper, t := j / 16, j % 16 / 8, j % 8;
    r, s := 3 * t / 8, 3 * t % 8;
  }

  lemma {:induction false} PackedAt(a: Words, b: Words, half: nat, upper: nat, t: nat, j: nat)
    requires half < 2 && upper < 2 && t < 8 && j == 16 * half + 8 * upper + t
    ensures Pack(a, b)[j] == Saturate(if upper == 0 then a[8 * half + t] else b[8 * half + t])
  {
    assert j / 16 == half && j % 16 == 8 * upper + t && j % 8 == t;
  }

  /** The gather tables: word 8 * half + t of each takes two adjacent bytes, and its multiplier lifts the
      code to the top. */
  ghost predicate GatherTables(lo: Reg, hi: Reg, mul: Words) {
    forall half: nat, upper: nat, t: nat, r: nat, s: nat :: IsPlace(half, upper, t, r, s) ==>
        PlaceEntry(lo, hi, mul, half, t, r, s)
  }

  ghost predicate PlaceEntry(lo: Reg, hi: Reg, mul: Words, half: nat, t: nat, r: nat, s: nat) {
    && half < 2 && t < 8 && r < 3 && s < 8
    && BytePair(lo, 8 * half + t, 6 * half + r) && BytePair(hi, 8 * half + t, 6 * half + r + 3)
    && mul[8 * half + t] == Pow2(13 - s)
  }

  lemma {:induction false} TableEntry(lo: Reg, hi: Reg, mul: Words, half: nat, t: nat, r: nat, s: nat)
    requires LowBytes(lo) && HighBytes(hi) && Multipliers(mul) && half < 2 && t < 8 && s < 8 && 3 * t == 8 * r + s
    ensures PlaceEntry(lo, hi, mul, half, t, r, s)
  {
    var k := 8 * half + t;
    assert k / 8 == half && k % 8 == t;
    assert 3 * (k % 8) / 8 == r && 3 * (k % 8) % 8 == s;
    assert BytePair(lo, k, 6 * (k / 8) + 3 * (k % 8) / 8);
    assert BytePair(hi, k, 3 + 6 * (k / 8) + 3 * (k % 8) / 8);
  }

  lemma {:induction false} TablesGather(lo: Reg, hi: Reg, mul: Words)
    requires LowBytes(lo) && HighBytes(hi) && Multipliers(mul)
    ensures GatherTables(lo, hi, mul)
  {
    forall half: nat, upper: nat, t: nat, r: nat, s: nat | IsPlace(half, upper, t, r, s)
      ensures PlaceEntry(lo, hi, mul, half, t, r, s)
    {
      TableEntry(lo, hi, mul, half, t, r, s);
    }
  }

  lemma {:induction false} TablesAreRight()
    ensures GatherTables(LO, HI, MUL)
  {
    LowTable();
    HighTable();
    MultiplierTable();
    TablesGather(LO, HI, MUL);
  }

  lemma {:induction false} GatheredLow(index: seq<Byte>, lo: Reg, hi: Reg, mul: Words, half: nat, t: nat, j: nat,
                                       k: nat, q: nat, s: nat)
    requires |index| == 16 && half < 2 && t < 8 && s < 8 && j == 16 * half + t && k == 8 * half + t && q < 15
    requires BytePair(lo, k, q) && mul[k] == Pow2(13 - s)
    ensures CodesBy(index, lo, hi, mul)[j] == Shr(Pair(index[q], index[q + 1]), s) % 8
  {
    PackedAt(Gather(index, lo, mul), Gather(index, hi, mul), half, 0, t, j);
    GatheredCode(index, lo, mul, k, q, s);
  }

  lemma {:induction false} GatheredHigh(index: seq<Byte>, lo: Reg, hi: Reg, mul: Words, half: nat, t: nat, j: nat,
                                        k: nat, q: nat, s: nat)
    requires |index| == 16 && half < 2 && t < 8 && s < 8 && j == 16 * half + 8 + t && k == 8 * half + t && q < 15
    requires BytePair(hi, k, q) && mul[k] == Pow2(13 - s)
    ensures CodesBy(index, lo, hi, mul)[j] == Shr(Pair(index[q], index[q + 1]), s) % 8
  {
    PackedAt(Gather(index, lo, mul), Gather(index, hi, mul), half, 1, t, j);
    GatheredCode(index, hi, mul, k, q, s);
  }

  lemma {:induction false} FieldIsCode(index: seq<Byte>, n: nat, q: nat, s: nat)
    requires 3 * n == 8 * q + s && s < 8 && q + 1 < |index|
    ensures Shr(Pair(index[q], index[q + 1]), s) % 8 == CodeAt(index, 3, n)
  {
    CrossingField(index, q, s);
    CodeAtIsField(index, 3, n);
    assert Pow2(3) == 8;
    LsbInjective(CodeAt(index, 3, n), Shr(Pair(index[q], index[q + 1]), s) % 8, 3);
  }

  lemma {:induction false} LoadedField(index: seq<Byte>, off: nat, q: nat, n: nat, s: nat)
    requires off + 16 <= |index| && q < 15 && 3 * n == 8 * (off + q) + s && s < 8
    ensures var sixteen := index[off..off + 16];
            Shr(Pair(sixteen[q], sixteen[q + 1]), s) % 8 == CodeAt(index, 3, n)
  {
    var sixteen := index[off..off + 16];
    assert sixteen[q] == index[off + q] && sixteen[q + 1] == index[off + q + 1];
    FieldIsCode(index, n, off + q, s);
  }

  lemma {:induction false} FieldLow(index: seq<Byte>, off: nat, n: nat, lo: Reg, hi: Reg, mul: Words, half: nat, t: nat,
                                    j: nat, k: nat, q: nat, s: nat)
    requires off + 16 <= |index| && q < 15 && 3 * n == 8 * (off + q) + s && s < 8
    requires j == 16 * half + t
    requires half < 2 && t < 8 && k == 8 * half + t && BytePair(lo, k, q) && mul[k] == Pow2(13 - s)
    ensures CodesBy(index[off..off + 16], lo, hi, mul)[j] == CodeAt(index, 3, n)
  {
    LoadedField(index, off, q, n, s);
    GatheredLow(index[off..off + 16], lo, hi, mul, half, t, j, k, q, s);
  }

  lemma {:induction false} FieldHigh(index: seq<Byte>, off: nat, n: nat, lo: Reg, hi: Reg, mul: Words, half: nat,
                                     t: nat, j: nat, k: nat, q: nat, s: nat)
    requires off + 16 <= |index| && q < 15 && 3 * n == 8 * (off + q) + s && s < 8
    requires j == 16 * half + 8 + t
    requires half < 2 && t < 8 && k == 8 * half + t && BytePair(hi, k, q) && mul[k] == Pow2(13 - s)
    ensures CodesBy(index[off..off + 16], lo, hi, mul)[j] == CodeAt(index, 3, n)
  {
    LoadedField(index, off, q, n, s);
    GatheredHigh(index[off..off + 16], lo, hi, mul, half, t, j, k, q, s);
  }

  /** The codes of a step are the codes of the stream. */
  lemma {:induction false} StepCodes(index: seq<Byte>, off: nat, n: nat, j: nat, lo: Reg, hi: Reg, mul: Words)
    requires j < 32 && off + 16 <= |index| && GatherTables(lo, hi, mul) && 3 * n == 8 * off + 3 * j
    ensures 3 * n + 3 <= 8 * |index|
    ensures CodesBy(index[off..off + 16], lo, hi, mul)[j] == CodeAt(index, 3, n)
  {
    var half, upper, t, r, s := PlaceOf(j);
    assert PlaceEntry(lo, hi, mul, half, t, r, s);
    if upper == 0 {
      FieldLow(index, off, n, lo, hi, mul, half, t, j, 8 * half + t, 6 * half + r, s);
    } else {
      FieldHigh(index, off, n, lo, hi, mul, half, t, j, 8 * half + t, 6 * half + r + 3, s);
    }
  }

  // ------------------------------------------------------------------ ranks of the escapes

  /** How many of the codes in a range escape. */
  ghost function Sevens(codes: Reg, first: nat, last: nat): (n: nat)
    requires first <= last <= 32
    ensures n <= last - first
    decreases codes, last
  {
    if first == last then 0 else Sevens(codes, first, last - 1) + if codes[last - 1] == 7 then 1 else 0
  }

  lemma {:induction false} SevensSplit(codes: Reg, a: nat, b: nat, c: nat)
    requires a <= b <= c <= 32
    ensures Sevens(codes, a, c) == Sevens(codes, a, b) + Sevens(codes, b, c)
    decreases c
  {
    if b < c {
      SevensSplit(codes, a, b, c - 1);
    }
  }

  /** Where a window of width w that ends at byte i starts, within its 64-bit part. */
  function WindowStart(i: nat, w: nat): (a: nat)
    ensures a <= i + 1
  {
    if i % 8 + 1 >= w then i + 1 - w else i - i % 8
  }

  ghost predicate WindowAt(s: Reg, codes: Reg, w: nat, i: nat) {
    i < 32 && s[i] == Sevens(codes, WindowStart(i, w), i + 1)
  }

  ghost predicate Windows(s: Reg, codes: Reg, w: nat) {
    forall i: nat :: i < 32 ==> WindowAt(s, codes, w, i)
  }

  lemma {:induction false} WindowsMeet(i: nat, w: nat)
    requires 1 <= w <= 4 && i % 8 >= w
    ensures WindowStart(i - w, w) == WindowStart(i, 2 * w) && WindowStart(i, w) == i - w + 1
  {
    assert (i - w) % 8 == i % 8 - w;
  }

  lemma {:induction false} ShortWindow(i: nat, w: nat)
    requires 1 <= w <= 4 && i % 8 < w
    ensures WindowStart(i, w) == WindowStart(i, 2 * w)
  {}

  lemma {:induction false} DoubleWindowAt(s: Reg, codes: Reg, w: nat, i: nat)
    requires Windows(s, codes, w) && 1 <= w <= 4 && i < 32
    ensures WindowAt(Add(s, ShiftBytes(s, w)), codes, 2 * w, i)
  {
    assert WindowAt(s, codes, w, i);
    if i % 8 >= w {
      WindowsMeet(i, w);
      assert WindowAt(s, codes, w, i - w);
      SevensSplit(codes, WindowStart(i, 2 * w), i - w + 1, i + 1);
    } else {
      ShortWindow(i, w);
    }
  }

  /** Adding the counts moved up by w doubles the window. */
  lemma {:induction false} DoubleWindow(s: Reg, codes: Reg, w: nat)
    requires Windows(s, codes, w) && 1 <= w <= 4
    ensures Windows(Add(s, ShiftBytes(s, w)), codes, 2 * w)
  {
    forall i: nat | i < 32
      ensures WindowAt(Add(s, ShiftBytes(s, w)), codes, 2 * w, i)
    {
      DoubleWindowAt(s, codes, w, i);
    }
  }

  const CARRY: seq<nat> := [255, 255, 255, 255, 255, 255, 255, 255, 7, 7, 7, 7, 7, 7, 7, 7,
                            255, 255, 255, 255, 255, 255, 255, 255, 7, 7, 7, 7, 7, 7, 7, 7]

  /** The number of escapes up to each byte, within its half. */
  function Ranks(one: Reg, carry: Reg): Reg {
    var s1 := Add(one, ShiftBytes(one, 1));
    var s2 := Add(s1, ShiftBytes(s1, 2));
    var s4 := Add(s2, ShiftBytes(s2, 4));
    Add(s4, Shuffle(s4, carry))
  }

  ghost predicate CarryTable(carry: Reg) {
    forall i: nat :: i < 32 ==> CarryAt(carry, i)
  }

  ghost predicate CarryAt(carry: Reg, i: nat) {
    i < 32 && carry[i] == if i % 16 < 8 then 255 else 7
  }

  lemma {:induction false} CarryEntry(i: nat)
    requires i < 32
    ensures CarryAt(CARRY, i)
  {}

  lemma {:induction false} CarryIsRight()
    ensures CarryTable(CARRY)
  {
    forall i: nat | i < 32
      ensures CarryAt(CARRY, i)
    {
      CarryEntry(i);
    }
  }

  function HalfStart(i: nat): (a: nat)
    ensures a <= i
  {
    16 * (i / 16)
  }

  lemma {:induction false} HalfWindows(i: nat)
    requires i < 32
    ensures i % 16 < 8 ==> WindowStart(i, 8) == HalfStart(i)
    ensures i % 16 >= 8 ==> WindowStart(i, 8) == HalfStart(i) + 8 && WindowStart(HalfStart(i) + 7, 8) == HalfStart(i)
  {}

  lemma {:induction false} AddCarry(s: Reg, codes: Reg, carry: Reg, i: nat)
    requires Windows(s, codes, 8) && CarryTable(carry) && i < 32
    ensures Add(s, Shuffle(s, carry))[i] == Sevens(codes, HalfStart(i), i + 1)
  {
    var h := HalfStart(i);
    HalfWindows(i);
    assert CarryAt(carry, i) && WindowAt(s, codes, 8, i);
    if i % 16 >= 8 {
      assert WindowAt(s, codes, 8, h + 7);
      SevensSplit(codes, h, h + 8, i + 1);
    }
  }

  lemma {:induction false} OneAt(codes: Reg, i: nat)
    requires i < 32
    ensures Low1(Equal7(codes))[i] == if codes[i] == 7 then 1 else 0
  {}

  lemma {:induction false} OneWindow(codes: Reg)
    ensures Windows(Low1(Equal7(codes)), codes, 1)
  {
    forall i: nat | i < 32
      ensures WindowAt(Low1(Equal7(codes)), codes, 1, i)
    {
      OneAt(codes, i);
      assert Sevens(codes, i, i) == 0;
    }
  }

  lemma {:induction false} RanksCount(codes: Reg, carry: Reg, i: nat)
    requires CarryTable(carry) && i < 32
    ensures Ranks(Low1(Equal7(codes)), carry)[i] == Sevens(codes, HalfStart(i), i + 1)
  {
    var one := Low1(Equal7(codes));
    OneWindow(codes);
    var s1 := Add(one, ShiftBytes(one, 1));
    DoubleWindow(one, codes, 1);
    var s2 := Add(s1, ShiftBytes(s1, 2));
    DoubleWindow(s1, codes, 2);
    var s4 := Add(s2, ShiftBytes(s2, 4));
    DoubleWindow(s2, codes, 4);
    AddCarry(s4, codes, carry, i);
  }

  // ------------------------------------------------------------------ counting by population

  lemma {:induction false} SignMaskConcat(a: seq<nat>, b: seq<nat>)
    ensures SignMask(a + b) == SignMask(a) + Pow2(|a|) * SignMask(b) && SignMask(a) < Pow2(|a|)
  {
    if a == [] {
      assert a + b == b;
    } else {
      assert (a + b)[1..] == a[1..] + b;
      SignMaskConcat(a[1..], b);
      Associate(2, Pow2(|a| - 1), SignMask(b));
    }
  }

  ghost function CountSigns(a: seq<nat>): nat {
    if a == [] then 0 else (if a[0] >= 128 then 1 else 0) + CountSigns(a[1..])
  }

  lemma {:induction false} PopCountOfMask(a: seq<nat>)
    ensures PopCount(SignMask(a)) == CountSigns(a)
  {
    if a != [] {
      PopCountOfMask(a[1..]);
      var m := SignMask(a);
      assert m / 2 == SignMask(a[1..]) && m % 2 == if a[0] >= 128 then 1 else 0;
      assert PopCount(m) == m % 2 + PopCount(m / 2);
    }
  }

  lemma {:induction false} CountSignsPush(a: seq<nat>, x: nat)
    ensures CountSigns(a + [x]) == CountSigns(a) + if x >= 128 then 1 else 0
  {
    if a == [] {
      assert [x][1..] == [];
    } else {
      assert (a + [x])[1..] == a[1..] + [x];
      CountSignsPush(a[1..], x);
    }
  }

  lemma {:induction false} SignsAreSevens(codes: Reg, first: nat, last: nat)
    requires first <= last <= 32
    ensures CountSigns(Equal7(codes)[first..last]) == Sevens(codes, first, last)
    decreases last
  {
    if first < last {
      var esc := Equal7(codes);
      SignsAreSevens(codes, first, last - 1);
      assert esc[first..last] == esc[first..last - 1] + [esc[last - 1]];
      CountSignsPush(esc[first..last - 1], esc[last - 1]);
    }
  }

  lemma {:induction false} MaskOfHalves(a: seq<nat>, b: seq<nat>)
    requires |a| == 16
    ensures SignMask(a + b) % 0x1_0000 == SignMask(a) && SignMask(a + b) / 0x1_0000 == SignMask(b)
  {
    SignMaskConcat(a, b);
    assert Pow2(16) == 0x1_0000 by {
      Pow2Add(8, 8);
      WordSizes();
    }
    SplitWord(SignMask(a + b), SignMask(a), SignMask(b));
  }

  lemma {:induction false} SplitWord(x: nat, low: nat, high: nat)
    requires x == low + 0x1_0000 * high && low < 0x1_0000
    ensures x % 0x1_0000 == low && x / 0x1_0000 == high
  {}

  /** The population counts of the two halves of the mask. */
  lemma {:induction false} HalvesCount(codes: Reg)
    ensures PopCount(SignMask(Equal7(codes)) % 0x1_0000) == Sevens(codes, 0, 16)
    ensures PopCount(SignMask(Equal7(codes)) / 0x1_0000) == Sevens(codes, 16, 32)
  {
    var esc := Equal7(codes);
    assert esc == esc[..16] + esc[16..] && esc[0..16] == esc[..16] && esc[16..32] == esc[16..];
    MaskOfHalves(esc[..16], esc[16..]);
    PopCountOfMask(esc[..16]);
    PopCountOfMask(esc[16..]);
    SignsAreSevens(codes, 0, 16);
    SignsAreSevens(codes, 16, 32);
  }

  // ------------------------------------------------------------------ the high bytes of a step

  /** Two sixteen-byte loads. */
  function LoadHalves(a: seq<Byte>, b: seq<Byte>): Reg
    requires |a| == |b| == 16
  {
    seq(32, i requires 0 <= i < 32 => if i < 16 then a[i] else b[i - 16])
  }

  function PatchedBy(table: Reg, codes: Reg, escapes: Reg, ranks: Reg): Reg {
    var esc := Equal7(codes);
    Blend(Shuffle(table, codes), Shuffle(escapes, Subtract(ranks, Low1(esc))), esc)
  }

  /** Table entries, with the next stored escapes shuffled into the escaping positions. */
  function Patched(table: Reg, codes: Reg, escapes: Reg, carry: Reg): Reg {
    PatchedBy(table, codes, escapes, Ranks(Low1(Equal7(codes)), carry))
  }

  lemma {:induction false} PatchedPlain(table: Reg, codes: Reg, escapes: Reg, ranks: Reg, j: nat)
    requires j < 32 && codes[j] < 7
    ensures PatchedBy(table, codes, escapes, ranks)[j] == table[16 * (j / 16) + codes[j]]
  {}

  lemma {:induction false} PatchedRank(table: Reg, codes: Reg, escapes: Reg, ranks: Reg, j: nat, r: nat)
    requires j < 32 && codes[j] == 7 && ranks[j] == r + 1 && r < 16
    ensures PatchedBy(table, codes, escapes, ranks)[j] == escapes[16 * (j / 16) + r]
  {}

  lemma {:induction false} PatchedEscape(table: Reg, codes: Reg, escapes: Reg, carry: Reg, j: nat, h: nat, r: nat)
    requires j < 32 && codes[j] == 7 && CarryTable(carry) && h == HalfStart(j) && r == Sevens(codes, h, j)
    ensures r < 16 && h + r < 32
    ensures Patched(table, codes, escapes, carry)[j] == escapes[h + r]
  {
    RanksCount(codes, carry, j);
    PatchedRank(table, codes, escapes, Ranks(Low1(Equal7(codes)), carry), j, r);
  }

  ghost predicate StepCode(v: View, m: nat, codes: Reg, j: nat)
    requires Readable(v) && 32 * m + 32 <= v.values
  {
    j < 32 && codes[j] == Code(v, 32 * m + j)
  }

  ghost predicate IsStep(v: View, m: nat, e: nat, codes: Reg) {
    && Readable(v) && v.bits == 3 && 32 * m + 32 <= v.values
    && e == EscapesBefore(v, 32 * m) && e + 32 <= |v.escape|
    && forall j: nat :: j < 32 ==> StepCode(v, m, codes, j)
  }

  lemma {:induction false} EscapesInStep(v: View, m: nat, e: nat, codes: Reg, j: nat)
    requires IsStep(v, m, e, codes) && j <= 32
    ensures EscapesBefore(v, 32 * m + j) == e + Sevens(codes, 0, j)
  {
    if j > 0 {
      EscapesInStep(v, m, e, codes, j - 1);
      assert StepCode(v, m, codes, j - 1);
      EscapesNext(v, 32 * m + (j - 1));
    }
  }

  /** The escapes a step may need: sixteen for the first half, sixteen more after the f it used. */
  function EscapeLoads(escape: seq<Byte>, e: nat, f: nat): Reg
    requires e + 32 <= |escape| && f <= 16
  {
    LoadHalves(escape[e..e + 16], escape[e + f..e + f + 16])
  }

  lemma {:induction false} LoadedByte(escape: seq<Byte>, e: nat, f: nat, r: nat)
    requires e + 32 <= |escape| && f <= 16 && r < 16
    ensures EscapeLoads(escape, e, f)[r] == escape[e + r] && EscapeLoads(escape, e, f)[16 + r] == escape[e + f + r]
  {}

  lemma {:induction false} HalfStarts(j: nat)
    requires j < 32
    ensures HalfStart(j) == if j < 16 then 0 else 16
  {}

  lemma {:induction false} LoadedEscape(escape: seq<Byte>, e: nat, codes: Reg, j: nat, f: nat, h: nat, r: nat)
    requires e + 32 <= |escape| && j < 32 && f == Sevens(codes, 0, 16)
    requires h == HalfStart(j) && r == Sevens(codes, h, j) && r < 16
    ensures EscapeLoads(escape, e, f)[h + r] == escape[e + Sevens(codes, 0, j)]
  {
    LoadedByte(escape, e, f, r);
    HalfStarts(j);
    RankSplits(codes, j, h);
  }

  lemma {:induction false} RankSplits(codes: Reg, j: nat, h: nat)
    requires j < 32 && h == if j < 16 then 0 else 16
    ensures Sevens(codes, 0, j) == Sevens(codes, h, j) + if j < 16 then 0 else Sevens(codes, 0, 16)
  {
    if j >= 16 {
      SevensSplit(codes, 0, 16, j);
    }
  }

  lemma {:induction false} TableHalf(table: seq<Byte>, j: nat, c: nat)
    requires |table| == 16 && j < 32 && c < 16
    ensures Broadcast(table)[16 * (j / 16) + c] == table[c]
  {}

  lemma {:induction false} HighOfEscape(v: View, n: nat, r: nat)
    requires Readable(v) && n < v.values && Escapes(v, n) && r == EscapesBefore(v, n) < |v.escape|
    ensures HighAt(v, n) == v.escape[r]
  {}

  lemma {:induction false} EscapeOfStep(v: View, m: nat, e: nat, codes: Reg, escapes: Reg, carry: Reg, j: nat, f: nat)
    requires IsStep(v, m, e, codes) && j < 32 && CarryTable(carry) && codes[j] == 7
    requires f == Sevens(codes, 0, 16) && escapes == EscapeLoads(v.escape, e, f)
    ensures Patched(Broadcast(v.table), codes, escapes, carry)[j] == HighAt(v, 32 * m + j)
  {
    var h := HalfStart(j);
    var r := Sevens(codes, h, j);
    PatchedEscape(Broadcast(v.table), codes, escapes, carry, j, h, r);
    LoadedEscape(v.escape, e, codes, j, f, h, r);
    HighFromRank(v, m, e, codes, j);
  }

  lemma {:induction false} HighFromRank(v: View, m: nat, e: nat, codes: Reg, j: nat)
    requires IsStep(v, m, e, codes) && j < 32 && codes[j] == 7
    ensures HighAt(v, 32 * m + j) == v.escape[e + Sevens(codes, 0, j)]
  {
    assert StepCode(v, m, codes, j);
    EscapesInStep(v, m, e, codes, j);
    HighOfEscape(v, 32 * m + j, e + Sevens(codes, 0, j));
  }

  lemma {:induction false} HighOfStep(v: View, m: nat, e: nat, codes: Reg, escapes: Reg, carry: Reg, j: nat, f: nat)
    requires IsStep(v, m, e, codes) && j < 32 && CarryTable(carry)
    requires f == Sevens(codes, 0, 16) && escapes == EscapeLoads(v.escape, e, f)
    ensures Patched(Broadcast(v.table), codes, escapes, carry)[j] == HighAt(v, 32 * m + j)
  {
    if codes[j] == 7 {
      EscapeOfStep(v, m, e, codes, escapes, carry, j, f);
    } else {
      assert StepCode(v, m, codes, j);
      PatchedPlain(Broadcast(v.table), codes, escapes, Ranks(Low1(Equal7(codes)), carry), j);
      TableHalf(v.table, j, codes[j]);
    }
  }

  ghost predicate HighStep(v: View, m: nat, high: Reg)
    requires Readable(v) && 32 * m + 32 <= v.values
  {
    forall j: nat :: j < 32 ==> HighStepAt(v, m, high, j)
  }

  ghost predicate HighStepAt(v: View, m: nat, high: Reg, j: nat)
    requires Readable(v) && 32 * m + 32 <= v.values
  {
    j < 32 && high[j] == HighAt(v, 32 * m + j)
  }

  lemma {:induction false} ThreeBitCode(v: View, n: nat)
    requires Readable(v) && v.bits == 3 && n < v.values
    ensures 3 * n + 3 <= 8 * |v.index| && Code(v, n) == CodeAt(v.index, 3, n)
  {
    InPlane(v.values, v.bits, n);
  }

  /** Position j of the register of step m holds code 32m + j of the plane. */
  ghost predicate PlaneCode(index: seq<Byte>, codes: Reg, m: nat, j: nat) {
    j < 32 && 3 * (32 * m + j) + 3 <= 8 * |index| && codes[j] == CodeAt(index, 3, 32 * m + j)
  }

  ghost predicate PlaneCodes(index: seq<Byte>, codes: Reg, m: nat) {
    forall j: nat :: j < 32 ==> PlaneCode(index, codes, m, j)
  }

  lemma {:induction false} GatheredPlane(index: seq<Byte>, m: nat, off: nat, lo: Reg, hi: Reg, mul: Words)
    requires off == 12 * m && off + 16 <= |index| && GatherTables(lo, hi, mul)
    ensures PlaneCodes(index, CodesBy(index[off..off + 16], lo, hi, mul), m)
  {
    var codes := CodesBy(index[off..off + 16], lo, hi, mul);
    forall j: nat | j < 32
      ensures PlaneCode(index, codes, m, j)
    {
      StepCodes(index, off, 32 * m + j, j, lo, hi, mul);
    }
  }

  lemma {:induction false} StepCodeAt(v: View, m: nat, codes: Reg, j: nat)
    requires Readable(v) && v.bits == 3 && 32 * m + 32 <= v.values && PlaneCode(v.index, codes, m, j)
    ensures StepCode(v, m, codes, j)
  {
    ThreeBitCode(v, 32 * m + j);
  }

  lemma {:induction false} StepIsStep(v: View, m: nat, e: nat, codes: Reg)
    requires Readable(v) && v.bits == 3 && 32 * m + 32 <= v.values && PlaneCodes(v.index, codes, m)
    requires e == EscapesBefore(v, 32 * m) && e + 32 <= |v.escape|
    ensures IsStep(v, m, e, codes)
  {
    forall j: nat | j < 32
      ensures StepCode(v, m, codes, j)
    {
      StepCodeAt(v, m, codes, j);
    }
  }

  method LoadCodes(index: seq<Byte>, m: nat) returns (codes: Reg)
    requires 12 * m + 16 <= |index|
    ensures PlaneCodes(index, codes, m)
  {
    codes := CodesBy(index[12 * m..12 * m + 16], LO, HI, MUL);
    TablesAreRight();
    GatheredPlane(index, m, 12 * m, LO, HI, MUL);
  }

  /** The codes of 32 values: step m covers values 32m to 32m + 31, and its index bytes start at 12m. */
  method StepCodes32(v: View, m: nat, ghost e: nat) returns (codes: Reg)
    requires Readable(v) && v.bits == 3 && 32 * m + 32 <= v.values && 12 * m + 16 <= |v.index|
    requires e == EscapesBefore(v, 32 * m) && e + 32 <= |v.escape|
    ensures IsStep(v, m, e, codes)
  {
    codes := LoadCodes(v.index, m);
    StepIsStep(v, m, e, codes);
  }

  method PatchEscapes(v: View, ghost m: nat, e: nat, codes: Reg, carry: Reg, first: nat) returns (high: Reg)
    requires IsStep(v, m, e, codes) && CarryTable(carry) && first == Sevens(codes, 0, 16)
    ensures HighStep(v, m, high)
  {
    var escapes := EscapeLoads(v.escape, e, first);
    high := Patched(Broadcast(v.table), codes, escapes, carry);
    forall j: nat | j < 32
      ensures HighStepAt(v, m, high, j)
    {
      HighOfStep(v, m, e, codes, escapes, carry, j, first);
    }
  }

  /** The escapes of the two halves, from the population of the mask. */
  method CountEscapes(codes: Reg) returns (first: nat, second: nat)
    ensures first == Sevens(codes, 0, 16) && second == Sevens(codes, 16, 32)
  {
    var mask := SignMask(Equal7(codes));
    HalvesCount(codes);
    first, second := PopCount(mask % 0x1_0000), PopCount(mask / 0x1_0000);
  }

  lemma {:induction false} StepCount(v: View, m: nat, e: nat, codes: Reg, a: nat, b: nat)
    requires IsStep(v, m, e, codes) && a <= b <= 32
    ensures e + Sevens(codes, 0, a) + Sevens(codes, a, b) == EscapesBefore(v, 32 * m + b)
  {
    SevensSplit(codes, 0, a, b);
    EscapesInStep(v, m, e, codes, b);
  }

  /** The high bytes of 32 values, and the position after the escapes they used. */
  method High32(v: View, m: nat, e: nat) returns (high: Reg, e': nat)
    requires Readable(v) && v.bits == 3 && 32 * m + 32 <= v.values && 12 * m + 16 <= |v.index|
    requires e == EscapesBefore(v, 32 * m) && e + 32 <= |v.escape|
    ensures e' == EscapesBefore(v, 32 * m + 32) && HighStep(v, m, high)
  {
    var codes := StepCodes32(v, m, e);
    var first, second := CountEscapes(codes);
    StepCount(v, m, e, codes, 16, 32);
    CarryIsRight();
    high := PatchEscapes(v, m, e, codes, CARRY, first);
    e' := e + first + second;
  }

  // ------------------------------------------------------------------ the decoder

  ghost predicate Block(o: seq<Byte>, at: nat, r: Reg, half: nat, n: nat)
    requires at + 16 <= |o| && half < 2 && n <= 16
  {
    forall k: nat :: k < n ==> BlockAt(o, at, r, half, k)
  }

  ghost predicate BlockAt(o: seq<Byte>, at: nat, r: Reg, half: nat, k: nat)
    requires at + 16 <= |o| && half < 2 && k < 16
  {
    o[at + k] == r[16 * half + k]
  }

  lemma {:induction false} BlockKept(o: seq<Byte>, o': seq<Byte>, at: nat, r: Reg, half: nat, n: nat)
    requires |o| == |o'| && at + 16 <= |o| && half < 2 && n <= 16 && Block(o, at, r, half, n)
    requires forall k :: at <= k < at + n ==> o'[k] == o[k]
    ensures Block(o', at, r, half, n)
  {
    forall k: nat | k < n
      ensures BlockAt(o', at, r, half, k)
    {
      assert BlockAt(o, at, r, half, k);
    }
  }

  /** One sixteen-byte store. */
  method Store16(out: array<Byte>, at: nat, r: Reg, half: nat)
    requires at + 16 <= out.Length && half < 2
    modifies out
    ensures Block(out[..], at, r, half, 16)
    ensures forall k :: 0 <= k < out.Length && !(at <= k < at + 16) ==> out[k] == old(out[k])
  {
    for k := 0 to 16
      invariant Block(out[..], at, r, half, k)
      invariant forall b :: 0 <= b < out.Length && !(at <= b < at + 16) ==> out[b] == old(out[b])
    {
      ghost var o := out[..];
      out[at + k] := r[16 * half + k];
      BlockKept(o, out[..], at, r, half, k);
    }
  }

  /** Values k of the step, interleaved with their low bytes. */
  ghost predicate Stored(o: seq<Byte>, o': seq<Byte>, at: nat, low: Reg, high: Reg)
    requires at + 64 <= |o|
  {
    && |o'| == |o| && o'[..at] == o[..at] && o'[at + 64..] == o[at + 64..]
    && forall k: nat :: k < 32 ==> StoredAt(o', at, low, high, k)
  }

  ghost predicate StoredAt(o: seq<Byte>, at: nat, low: Reg, high: Reg, k: nat)
    requires at + 64 <= |o| && k < 32
  {
    o[at + 2 * k] == low[k] && o[at + 2 * k + 1] == high[k]
  }

  lemma {:induction false} UnpackedAt(low: Reg, high: Reg, half: nat, k: nat)
    requires half < 2 && k < 8
    ensures var first, second := UnpackLow(low, high), UnpackHigh(low, high);
            && first[16 * half + 2 * k] == low[16 * half + k] && first[16 * half + 2 * k + 1] == high[16 * half + k]
            && second[16 * half + 2 * k] == low[16 * half + 8 + k]
                && second[16 * half + 2 * k + 1] == high[16 * half + 8 + k]
  {
    var i := 16 * half + 2 * k;
    assert i / 16 == half && i % 16 / 2 == k && (i + 1) / 16 == half && (i + 1) % 16 / 2 == k;
  }

  lemma {:induction false} LowBlock(o: seq<Byte>, at: nat, low: Reg, high: Reg, half: nat, t: nat, b: nat)
    requires b + 16 <= |o| && at + 64 <= |o| && half < 2 && t < 8 && b == at + 32 * half
    requires Block(o, b, UnpackLow(low, high), half, 16)
    ensures StoredAt(o, at, low, high, 16 * half + t)
  {
    UnpackedAt(low, high, half, t);
    assert BlockAt(o, b, UnpackLow(low, high), half, 2 * t);
    assert BlockAt(o, b, UnpackLow(low, high), half, 2 * t + 1);
  }

  lemma {:induction false} HighBlock(o: seq<Byte>, at: nat, low: Reg, high: Reg, half: nat, t: nat, b: nat)
    requires b + 16 <= |o| && at + 64 <= |o| && half < 2 && t < 8 && b == at + 32 * half + 16
    requires Block(o, b, UnpackHigh(low, high), half, 16)
    ensures StoredAt(o, at, low, high, 16 * half + 8 + t)
  {
    UnpackedAt(low, high, half, t);
    assert BlockAt(o, b, UnpackHigh(low, high), half, 2 * t);
    assert BlockAt(o, b, UnpackHigh(low, high), half, 2 * t + 1);
  }

  lemma {:induction false} FourBlocks(o: seq<Byte>, at: nat, low: Reg, high: Reg, first: Reg, second: Reg)
    requires at + 64 <= |o| && first == UnpackLow(low, high) && second == UnpackHigh(low, high)
    requires Block(o, at, first, 0, 16) && Block(o, at + 16, second, 0, 16)
    requires Block(o, at + 32, first, 1, 16) && Block(o, at + 48, second, 1, 16)
    ensures forall k: nat :: k < 32 ==> StoredAt(o, at, low, high, k)
  {
    forall k: nat | k < 32
      ensures StoredAt(o, at, low, high, k)
    {
      if k < 8 {
        LowBlock(o, at, low, high, 0, k, at);
      } else if k < 16 {
        HighBlock(o, at, low, high, 0, k - 8, at + 16);
      } else if k < 24 {
        LowBlock(o, at, low, high, 1, k - 16, at + 32);
      } else {
        HighBlock(o, at, low, high, 1, k - 24, at + 48);
      }
    }
  }

  /** Interleave 32 low and high bytes into the output. */
  method StoreStep(out: array<Byte>, at: nat, low: Reg, high: Reg)
    requires at + 64 <= out.Length
    modifies out
    ensures Stored(old(out[..]), out[..], at, low, high)
  {
    var first, second := UnpackLow(low, high), UnpackHigh(low, high);
    FourStores(out, at, first, second);
    FourBlocks(out[..], at, low, high, first, second);
  }

  method FourStores(out: array<Byte>, at: nat, first: Reg, second: Reg)
    requires at + 64 <= out.Length
    modifies out
    ensures Block(out[..], at, first, 0, 16) && Block(out[..], at + 16, second, 0, 16)
    ensures Block(out[..], at + 32, first, 1, 16) && Block(out[..], at + 48, second, 1, 16)
    ensures forall k :: 0 <= k < out.Length && !(at <= k < at + 64) ==> out[k] == old(out[k])
  {
    Store16(out, at, first, 0);
    ghost var o1 := out[..];
    Store16(out, at + 16, second, 0);
    ghost var o2 := out[..];
    BlockKept(o1, o2, at, first, 0, 16);
    Store16(out, at + 32, first, 1);
    ghost var o3 := out[..];
    BlockKept(o2, o3, at, first, 0, 16);
    BlockKept(o2, o3, at + 16, second, 0, 16);
    Store16(out, at + 48, second, 1);
    BlockKept(o3, out[..], at, first, 0, 16);
    BlockKept(o3, out[..], at + 16, second, 0, 16);
    BlockKept(o3, out[..], at + 32, first, 1, 16);
  }

  function LoadReg(a: seq<Byte>): Reg
    requires |a| == 32
  {
    a
  }

  lemma {:induction false} StepDecoded(v: View, o: seq<Byte>, o': seq<Byte>, m: nat, low: Reg, high: Reg)
    requires Readable(v) && 32 * m + 32 <= v.values && |o| >= v.rawBytes && DecodedTo(v, o, 32 * m)
    requires Stored(o, o', 64 * m, low, high) && low == v.low[32 * m..32 * m + 32]
    requires HighStep(v, m, high)
    ensures DecodedTo(v, o', 32 * m + 32) && o'[v.rawBytes..] == o[v.rawBytes..]
  {
    forall i | 0 <= i < 32 * m + 32
      ensures ValueDecoded(v, o', i)
    {
      if i < 32 * m {
        assert ValueDecoded(v, o, i);
        assert o'[2 * i] == o'[..64 * m][2 * i] == o[2 * i] && o'[2 * i + 1] == o'[..64 * m][2 * i + 1] == o[2 * i + 1];
      } else {
        assert StoredAt(o', 64 * m, low, high, i - 32 * m) && HighStepAt(v, m, high, i - 32 * m);
      }
    }
  }

  /** The vector decoder agrees with the scalar one: the same status on every readable view, and the
      same bytes when that is 0. Each step's loads lie inside the planes, because a step is taken only
      while sixteen index bytes and 32 readable escapes are left. */
  method DecodeNative(v: View, out: array<Byte>) returns (status: int)
    requires Readable(v) && v.bits == 3
    modifies out
    ensures status == 0 || status == -1
    ensures status == 0 <==> out.Length >= v.rawBytes && Consistent(v)
    ensures status == 0 ==> IsDecoded(v, out[..]) && out[v.rawBytes..] == old(out[v.rawBytes..])
  {
    if out.Length < v.rawBytes {
      return -1;
    }
    var m, e := 0, 0;
    while 32 * m + 32 <= v.values && 12 * m + 16 <= |v.index| && e + 32 <= |v.escape|
      invariant 32 * m <= v.values && e == EscapesBefore(v, 32 * m) <= v.escapes
      invariant DecodedTo(v, out[..], 32 * m) && out[v.rawBytes..] == old(out[v.rawBytes..])
      decreases v.values - 32 * m
    {
      var high;
      high, e := High32(v, m, e);
      if e > v.escapes {
        EscapesGrow(v, 32 * m + 32, v.values);
        return -1;
      }
      var low := LoadReg(v.low[32 * m..32 * m + 32]);
      ghost var o := out[..];
      StoreStep(out, 64 * m, low, high);
      StepDecoded(v, o, out[..], m, low, high);
      m := m + 1;
    }
    status := DecodeTail(v, out, 32 * m, e);
  }

  /** The decoder of either width: the vector one for three bits, the plain loop for four. */
  method DecodeAnyNative(v: View, out: array<Byte>) returns (status: int)
    requires Readable(v)
    modifies out
    ensures status == 0 || status == -1
    ensures status == 0 <==> out.Length >= v.rawBytes && Consistent(v)
    ensures status == 0 ==> IsDecoded(v, out[..]) && out[v.rawBytes..] == old(out[v.rawBytes..])
  {
    if v.bits == 3 {
      status := DecodeNative(v, out);
    } else {
      status := DecodeScalar(v, out);
    }
  }
}
