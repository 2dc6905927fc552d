/** Bit strings, most significant bit first, and the machine words and bytes that hold them. */
module BitStrings {

  type Bit = b: int | 0 <= b < 2
  type Byte = b: int | 0 <= b < 256

  function Pow2(n: nat): (p: nat)
    ensures p >= 1
  {
    if n == 0 then 1 else 2 * Pow2(n - 1)
  }

  lemma {:induction false} Pow2Add(m: nat, n: nat)
    ensures Pow2(m + n) == Pow2(m) * Pow2(n)
  {
    if m > 0 {
      Pow2Add(m - 1, n);
      TwiceProduct(Pow2(m - 1), Pow2(n));
    }
  }

  lemma {:induction false} TwiceProduct(a: nat, b: nat)
    ensures (2 * a) * b == 2 * (a * b)
  {}

  lemma {:induction false} Pow2Grows(m: nat, n: nat)
    requires m <= n
    ensures Pow2(m) <= Pow2(n)
    decreases n
  {
    if m < n {
      Pow2Grows(m, n - 1);
    }
  }

  /** The low n bits of v, most significant first. */
  ghost function BitsOf(v: nat, n: nat): (b: seq<Bit>)
    ensures |b| == n
    decreases v, n
  {
    if n == 0 then [] else BitsOf(v / 2, n - 1) + [v % 2]
  }

  ghost function ValueOf(b: seq<Bit>): nat {
    if b == [] then 0 else 2 * ValueOf(b[..|b| - 1]) + b[|b| - 1]
  }

  ghost function Zeros(n: nat): (b: seq<Bit>)
    ensures |b| == n
  {
    seq(n, _ => 0)
  }

  /** A shift by k makes room for a k-bit field. */
  lemma {:induction false} BitsOfShift(v: nat, n: nat, u: nat, k: nat)
    requires u < Pow2(k)
    ensures BitsOf(v * Pow2(k) + u, n + k) == BitsOf(v, n) + BitsOf(u, k)
  {
    if k == 0 {
      assert v * Pow2(k) + u == v;
    } else {
      HalfShift(v, u, k);
      BitsOfShift(v, n, u / 2, k - 1);
      assert BitsOf(v * Pow2(k) + u, n + k) == BitsOf((v * Pow2(k) + u) / 2, n + k - 1) + [u % 2];
    }
  }

  lemma {:induction false} HalfShift(v: nat, u: nat, k: nat)
    requires k > 0
    ensures (v * Pow2(k) + u) / 2 == v * Pow2(k - 1) + u / 2
    ensures (v * Pow2(k) + u) % 2 == u % 2
  {
    var x := v * Pow2(k - 1);
    assert v * Pow2(k) == 2 * x by {
      assert Pow2(k) == 2 * Pow2(k - 1);
      assert v * (2 * Pow2(k - 1)) == 2 * (v * Pow2(k - 1));
    }
  }

  lemma {:induction false} ValueOfBits(v: nat, n: nat)
    requires v < Pow2(n)
    ensures ValueOf(BitsOf(v, n)) == v
  {
    if n > 0 {
      ValueOfBits(v / 2, n - 1);
      assert BitsOf(v, n)[..n - 1] == BitsOf(v / 2, n - 1);
    }
  }

  lemma {:induction false} BitsOfZero(n: nat)
    ensures BitsOf(0, n) == Zeros(n)
  {
    if n > 0 {
      BitsOfZero(n - 1);
    }
  }

  lemma {:induction false} SliceOfSlice<T>(b: seq<T>, o: nat, m: nat, s: nat, n: nat)
    requires s + n <= m && o + m <= |b|
    ensures b[o..o + m][s..s + n] == b[o + s..o + s + n]
  {
    var x, y := b[o..o + m][s..s + n], b[o + s..o + s + n];
    assert forall k :: 0 <= k < n ==> x[k] == y[k];
  }

  lemma {:induction false} FieldFits(v: nat, a: nat, u: nat, b: nat)
    requires v < a && u < b
    ensures v * b + u < a * b
  {
    assert (v + 1) * b <= a * b;
    assert (v + 1) * b == v * b + b;
  }

  lemma {:induction false} ShiftLess(v: nat, n: nat, u: nat, k: nat)
    requires v < Pow2(n) && u < Pow2(k)
    ensures v * Pow2(k) + u < Pow2(n + k)
  {
    Pow2Add(n, k);
    FieldFits(v, Pow2(n), u, Pow2(k));
  }

  /** v >> k */
  function Shr(v: nat, k: nat): nat {
    if k == 0 then v else Shr(v / 2, k - 1)
  }

  /** A right shift drops low bits. */
  lemma {:induction false} BitsOfShr(v: nat, n: nat, k: nat)
    ensures BitsOf(Shr(v, k), n) == BitsOf(v, n + k)[..n]
  {
    if k > 0 {
      BitsOfShr(v / 2, n, k - 1);
      assert BitsOf(v, n + k)[..n] == BitsOf(v / 2, n + k - 1)[..n];
    }
  }

  lemma {:induction false} ShrOfSum(q: nat, r: nat, k: nat)
    requires r < Pow2(k)
    ensures Shr(q * Pow2(k) + r, k) == q
  {
    if k == 0 {
      assert q * Pow2(k) + r == q;
    } else {
      HalfShift(q, r, k);
      ShrOfSum(q, r / 2, k - 1);
    }
  }

  /** Bits above a field do not show in it. */
  lemma {:induction false} BitsOfLow(q: nat, r: nat, n: nat, m: nat)
    requires n <= m
    ensures BitsOf(q * Pow2(m) + r, n) == BitsOf(r, n)
  {
    if n > 0 {
      HalfShift(q, r, m);
      BitsOfLow(q, r / 2, n - 1, m - 1);
    }
  }

  lemma {:induction false} WordSizes()
    ensures Pow2(8) == 0x100 && Pow2(12) == 4096 && Pow2(32) == 0x1_0000_0000
    ensures Pow2(64) == 0x1_0000_0000_0000_0000
  {
    assert Pow2(4) == 16;
    Pow2Add(4, 4);
    Pow2Add(8, 4);
    Pow2Add(8, 8);
    Pow2Add(16, 16);
    Pow2Add(32, 32);
  }

  /** Masking or truncating to a word keeps its low bits. */
  lemma {:induction false} BitsOfMasked(v: nat, n: nat)
    ensures n <= 12 ==> BitsOf(v % 4096, n) == BitsOf(v, n)
    ensures n <= 64 ==> BitsOf(v % 0x1_0000_0000_0000_0000, n) == BitsOf(v, n)
  {
    WordSizes();
    if n <= 12 {
      BitsOfLow(v / 4096, v % 4096, n, 12);
    }
    if n <= 64 {
      BitsOfLow(v / 0x1_0000_0000_0000_0000, v % 0x1_0000_0000_0000_0000, n, 64);
    }
  }

  // ------------------------------------------------------------------ bytes

  ghost function BitsOfBytes(s: seq<Byte>): (b: seq<Bit>)
    ensures |b| == 8 * |s|
  {
    if s == [] then [] else BitsOf(s[0], 8) + BitsOfBytes(s[1..])
  }

  lemma {:induction false} BitsOfBytesConcat(s: seq<Byte>, t: seq<Byte>)
    ensures BitsOfBytes(s + t) == BitsOfBytes(s) + BitsOfBytes(t)
  {
    if s == [] {
      assert s + t == t;
    } else {
      assert (s + t)[1..] == s[1..] + t;
      BitsOfBytesConcat(s[1..], t);
    }
  }
}
