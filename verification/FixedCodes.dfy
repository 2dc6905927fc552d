/** Fixed-width codes in a byte plane, least significant bit first: how a decoder extracts code i and
    how three encoders write the plane. */
module FixedCodes {
  import opened Numbers
  import opened BitStrings

  // ------------------------------------------------------------------ bits, least significant first

  ghost function Lsb(v: nat, n: nat): (b: seq<Bit>)
    ensures |b| == n
    decreases v, n
  {
    if n == 0 then [] else [v % 2] + Lsb(v / 2, n - 1)
  }

  lemma {:induction false} HalfJoin(u: nat, v: nat, n: nat)
    requires n > 0
    ensures (u + Pow2(n) * v) / 2 == u / 2 + Pow2(n - 1) * v && (u + Pow2(n) * v) % 2 == u % 2
  {
    var x := Pow2(n - 1) * v;
    assert Pow2(n) * v == 2 * x;
  }

  /** A number above n low bits: its bits follow theirs. */
  lemma {:induction false} LsbJoin(u: nat, n: nat, v: nat, k: nat)
    requires u < Pow2(n)
    ensures Lsb(u + Pow2(n) * v, n + k) == Lsb(u, n) + Lsb(v, k)
  {
    if n == 0 {
      assert u + Pow2(n) * v == v;
    } else {
      HalfJoin(u, v, n);
      LsbJoin(u / 2, n - 1, v, k);
    }
  }

  lemma {:induction false} LsbInjective(u: nat, v: nat, n: nat)
    requires u < Pow2(n) && v < Pow2(n) && Lsb(u, n) == Lsb(v, n)
    ensures u == v
  {
    if n > 0 {
      assert Lsb(u, n)[0] == Lsb(v, n)[0];
      assert Lsb(u, n)[1..] == Lsb(v, n)[1..];
      LsbInjective(u / 2, v / 2, n - 1);
    }
  }

  /** A field of a word: shift it down and mask. */
  lemma {:induction false} LsbOfField(v: nat, s: nat, n: nat, m: nat)
    requires s + n <= m
    ensures Lsb(Shr(v, s), n) == Lsb(v, m)[s..s + n]
  {
    if s > 0 {
      LsbOfField(v / 2, s - 1, n, m - 1);
      assert Lsb(v, m)[s..s + n] == Lsb(v / 2, m - 1)[s - 1..s - 1 + n];
    } else {
      LsbPrefix(v, n, m);
    }
  }

  lemma {:induction false} LsbPrefix(v: nat, n: nat, m: nat)
    requires n <= m
    ensures Lsb(v, m)[..n] == Lsb(v, n)
  {
    if n > 0 {
      LsbPrefix(v / 2, n - 1, m - 1);
      assert Lsb(v, m)[..n] == [v % 2] + Lsb(v / 2, m - 1)[..n - 1];
    }
  }

  lemma {:induction false} LsbMasked(u: nat, v: nat, n: nat)
    ensures Lsb(u + Pow2(n) * v, n) == Lsb(u, n)
  {
    if n > 0 {
      HalfJoin(u, v, n);
      LsbMasked(u / 2, v, n - 1);
    }
  }

  ghost function Plane(bytes: seq<Byte>): (b: seq<Bit>)
    ensures |b| == 8 * |bytes|
  {
    if bytes == [] then [] else Lsb(bytes[0], 8) + Plane(bytes[1..])
  }

  lemma {:induction false} PlaneConcat(s: seq<Byte>, t: seq<Byte>)
    ensures Plane(s + t) == Plane(s) + Plane(t)
  {
    if s == [] {
      assert s + t == t;
    } else {
      assert (s + t)[1..] == s[1..] + t;
      PlaneConcat(s[1..], t);
    }
  }

  lemma {:induction false} PlaneByte(s: seq<Byte>, q: nat)
    requires q < |s|
    ensures Plane(s)[8 * q..8 * q + 8] == Lsb(s[q], 8)
  {
    assert s == s[..q] + ([s[q]] + s[q + 1..]);
    PlaneConcat(s[..q], [s[q]] + s[q + 1..]);
    assert Plane([s[q]] + s[q + 1..]) == Lsb(s[q], 8) + Plane(s[q + 1..]) by {
      assert ([s[q]] + s[q + 1..])[1..] == s[q + 1..];
    }
  }

  /** A plane as one little-endian number. */
  ghost function Number(bytes: seq<Byte>): nat {
    if bytes == [] then 0 else bytes[0] + 256 * Number(bytes[1..])
  }

  lemma {:induction false} LsbJoinAt(u: nat, n: nat, p: nat, v: nat, k: nat)
    requires p == Pow2(n) && u < p
    ensures Lsb(u + p * v, n + k) == Lsb(u, n) + Lsb(v, k)
  {
    LsbJoin(u, n, v, k);
  }

  lemma {:induction false} LsbOfNumber(bytes: seq<Byte>)
    ensures Lsb(Number(bytes), 8 * |bytes|) == Plane(bytes)
  {
    if bytes != [] {
      var k := 8 * (|bytes| - 1);
      LsbOfNumber(bytes[1..]);
      WordSizes();
      LsbJoinAt(bytes[0], 8, 256, Number(bytes[1..]), k);
    }
  }

  lemma {:induction false} NumberConcat(s: seq<Byte>, t: seq<Byte>)
    ensures Number(s + t) == Number(s) + Pow2(8 * |s|) * Number(t)
  {
    if s == [] {
      assert s + t == t;
    } else {
      assert (s + t)[1..] == s[1..] + t;
      NumberConcat(s[1..], t);
      Pow2Add(8, 8 * (|s| - 1));
      assert Pow2(8) == 256;
      Associate(256, Pow2(8 * (|s| - 1)), Number(t));
    }
  }

  lemma {:induction false} NumberInjective(s: seq<Byte>, t: seq<Byte>)
    requires |s| == |t| && Number(s) == Number(t)
    ensures s == t
  {
    if s != [] {
      NumberInjective(s[1..], t[1..]);
    }
  }

  // ------------------------------------------------------------------ codes in a plane

  type Width = w: nat | w == 3 || w == 4 witness 3

  /** The code that escapes: all ones. */
  function Escape(bits: Width): nat {
    if bits == 3 then 7 else 15
  }

  lemma {:induction false} EscapeIsLast(bits: Width)
    ensures Escape(bits) + 1 == Pow2(bits)
  {
    assert Pow2(3) == 8 && Pow2(4) == 16;
  }

  ghost predicate AreCodes(codes: seq<nat>, bits: Width) {
    forall i :: 0 <= i < |codes| ==> codes[i] <= Escape(bits)
  }

  /** The number with code i at bits [bits * i, bits * i + bits). */
  ghost function CodeNumber(codes: seq<nat>, bits: Width): nat {
    if codes == [] then 0 else CodeNumber(codes[..|codes| - 1], bits) + Pow2(bits * (|codes| - 1)) * codes[|codes| - 1]
  }

  function PlaneSize(n: nat, bits: Width): nat {
    (bits * n + 7) / 8
  }

  /** The plane that holds these codes, with zero bits after them up to a whole byte. */
  ghost predicate IsPlane(index: seq<Byte>, codes: seq<nat>, bits: Width) {
    |index| == PlaneSize(|codes|, bits) && Number(index) == CodeNumber(codes, bits)
  }

  lemma {:induction false} PlaneIsUnique(a: seq<Byte>, b: seq<Byte>, codes: seq<nat>, bits: Width)
    requires IsPlane(a, codes, bits) && IsPlane(b, codes, bits)
    ensures a == b
  {
    NumberInjective(a, b);
  }

  lemma {:induction false} CodeNumberFits(codes: seq<nat>, bits: Width)
    requires AreCodes(codes, bits)
    ensures CodeNumber(codes, bits) < Pow2(bits * |codes|)
  {
    if codes != [] {
      var n := |codes| - 1;
      CodeNumberFits(codes[..n], bits);
      EscapeIsLast(bits);
      Pow2Add(bits * n, bits);
      assert bits * n + bits == bits * |codes|;
      FieldFits(codes[n], Pow2(bits), CodeNumber(codes[..n], bits), Pow2(bits * n));
    }
  }

  lemma {:induction false} CodeNumberConcat(a: seq<nat>, b: seq<nat>, bits: Width)
    ensures CodeNumber(a + b, bits) == CodeNumber(a, bits) + Pow2(bits * |a|) * CodeNumber(b, bits)
  {
    if b == [] {
      assert a + b == a;
    } else {
      var n := |b| - 1;
      assert (a + b)[..|a| + n] == a + b[..n];
      CodeNumberConcat(a, b[..n], bits);
      Pow2Add(bits * |a|, bits * n);
      assert bits * |a| + bits * n == bits * (|a + b| - 1);
      Associate(Pow2(bits * |a|), Pow2(bits * n), b[n]);
      Distribute(Pow2(bits * |a|), CodeNumber(b[..n], bits), Pow2(bits * n) * b[n]);
    }
  }

  lemma {:induction false} CodeNumberAround(codes: seq<nat>, bits: Width, i: nat)
    requires i < |codes|
    ensures CodeNumber(codes, bits) ==
            CodeNumber(codes[..i], bits) + Pow2(bits * i) * (codes[i] + Pow2(bits) * CodeNumber(codes[i + 1..], bits))
  {
    var a, one, b := codes[..i], [codes[i]], codes[i + 1..];
    assert codes == a + (one + b) && bits * |one| == bits;
    CodeNumberConcat(a, one + b, bits);
    CodeNumberConcat(one, b, bits);
    CodeNumberOne(codes[i], bits);
    assert CodeNumber(one + b, bits) == codes[i] + Pow2(bits) * CodeNumber(b, bits);
  }

  /** The bits of the plane from code i on start with that code. */
  lemma {:induction false} CodeNumberField(codes: seq<nat>, bits: Width, i: nat, m: nat)
    requires AreCodes(codes, bits) && i < |codes| && bits * i + bits <= m
    ensures Lsb(CodeNumber(codes, bits), m)[bits * i..bits * i + bits] == Lsb(codes[i], bits)
  {
    CodeNumberAround(codes, bits, i);
    CodeNumberFits(codes[..i], bits);
    EscapeIsLast(bits);
    MiddleField(CodeNumber(codes[..i], bits), bits * i, codes[i], bits, CodeNumber(codes[i + 1..], bits), m);
  }

  lemma {:induction false} MiddleField(u: nat, n: nat, c: nat, k: nat, v: nat, m: nat)
    requires u < Pow2(n) && c < Pow2(k) && n + k <= m
    ensures Lsb(u + Pow2(n) * (c + Pow2(k) * v), m)[n..n + k] == Lsb(c, k)
  {
    var x := c + Pow2(k) * v;
    LsbJoin(u, n, x, m - n);
    LsbJoin(c, k, v, m - n - k);
    MiddlePart(Lsb(u, n), Lsb(c, k), Lsb(v, m - n - k));
  }

  lemma {:induction false} MiddlePart<T>(a: seq<T>, b: seq<T>, c: seq<T>)
    ensures (a + (b + c))[|a|..|a| + |b|] == b
  {}

  lemma {:induction false} CodeNumberOne(c: nat, bits: Width)
    ensures CodeNumber([c], bits) == c
  {
    assert [c][..0] == [];
    assert CodeNumber([c], bits) == CodeNumber([c][..0], bits) + Pow2(bits * 0) * c;
  }

  function Pair(low: nat, high: nat): nat {
    low + 0x100 * high
  }

  /** Code i of a plane as the decoders read it: one byte, or two when the code crosses into the next. */
  function CodeAt(index: seq<Byte>, bits: Width, i: nat): (c: nat)
    requires bits * i + bits <= 8 * |index|
    ensures c <= Escape(bits)
  {
    if bits == 3 then
      var bit := 3 * i;
      var w := if bit % 8 > 5 then Pair(index[bit / 8], index[bit / 8 + 1]) else index[bit / 8];
      Shr(w, bit % 8) % 8
    else
      Shr(index[i / 2], 4 * (i % 2)) % 16
  }

  lemma {:induction false} FieldOfWord(w: nat, s: nat, n: nat, m: nat, p: nat)
    requires s + n <= m && p == Pow2(n)
    ensures Lsb(Shr(w, s) % p, n) == Lsb(w, m)[s..s + n]
  {
    var d, r := Remainder(Shr(w, s), p);
    LsbMasked(r, d, n);
    LsbOfField(w, s, n, m);
  }

  lemma {:induction false} JoinFields(b: seq<Bit>, o: nat, m: nat, n: nat)
    requires o + m + n <= |b|
    ensures b[o..o + m] + b[o + m..o + m + n] == b[o..o + m + n]
  {}

  lemma {:induction false} WordOfTwo(s: seq<Byte>, q: nat)
    requires q + 1 < |s|
    ensures Lsb(Pair(s[q], s[q + 1]), 16) == Plane(s)[8 * q..8 * q + 16]
  {
    LsbOfPair(s[q], s[q + 1]);
    TwoBytes(s, q);
  }

  lemma {:induction false} LsbOfPair(a: Byte, b: Byte)
    ensures Lsb(Pair(a, b), 16) == Lsb(a, 8) + Lsb(b, 8)
  {
    assert Pow2(8) == 256;
    LsbJoin(a, 8, b, 8);
  }

  lemma {:induction false} TwoBytes(s: seq<Byte>, q: nat)
    requires q + 1 < |s|
    ensures Plane(s)[8 * q..8 * q + 16] == Lsb(s[q], 8) + Lsb(s[q + 1], 8)
  {
    var o := 8 * q;
    PlaneByte(s, q);
    PlaneByte(s, q + 1);
    assert 8 * (q + 1) == o + 8;
    JoinFields(Plane(s), o, 8, 8);
  }

  lemma {:induction false} CrossingField(index: seq<Byte>, q: nat, s: nat)
    requires q + 1 < |index| && s < 8
    ensures Lsb(Shr(Pair(index[q], index[q + 1]), s) % 8, 3) == Plane(index)[8 * q + s..8 * q + s + 3]
  {
    assert Pow2(3) == 8;
    WordOfTwo(index, q);
    FieldOfWord(Pair(index[q], index[q + 1]), s, 3, 16, 8);
    SliceOfSlice(Plane(index), 8 * q, 16, s, 3);
  }

  lemma {:induction false} InsideField(index: seq<Byte>, q: nat, s: nat, n: nat, p: nat)
    requires q < |index| && s + n <= 8 && p == Pow2(n)
    ensures Lsb(Shr(index[q], s) % p, n) == Plane(index)[8 * q + s..8 * q + s + n]
  {
    PlaneByte(index, q);
    FieldOfWord(index[q], s, n, 8, p);
    SliceOfSlice(Plane(index), 8 * q, 8, s, n);
  }

  /** What the decoders extract is the field of the plane. */
  lemma {:induction false} CodeAtIsField(index: seq<Byte>, bits: Width, i: nat)
    requires bits * i + bits <= 8 * |index|
    ensures Lsb(CodeAt(index, bits, i), bits) == Plane(index)[bits * i..bits * i + bits]
  {
    assert Pow2(3) == 8 && Pow2(4) == 16;
    if bits == 4 {
      InsideField(index, i / 2, 4 * (i % 2), 4, 16);
      assert 4 * i == 8 * (i / 2) + 4 * (i % 2);
    } else {
      var q, s := 3 * i / 8, 3 * i % 8;
      assert 3 * i == 8 * q + s;
      if s > 5 {
        CrossingField(index, q, s);
      } else {
        InsideField(index, q, s, 3, 8);
      }
    }
  }

  /** Reading a plane gives back its codes. */
  lemma {:induction false} CodeAtOfPlane(index: seq<Byte>, codes: seq<nat>, bits: Width, i: nat)
    requires IsPlane(index, codes, bits) && AreCodes(codes, bits) && i < |codes|
    ensures bits * i + bits <= 8 * |index| && CodeAt(index, bits, i) == codes[i]
  {
    CodeAtIsField(index, bits, i);
    LsbOfNumber(index);
    CodeNumberField(codes, bits, i, 8 * |index|);
    EscapeIsLast(bits);
    LsbInjective(CodeAt(index, bits, i), codes[i], bits);
  }

  // ------------------------------------------------------------------ writing a plane

  function BitOr(a: nat, b: nat): nat
    decreases a
  {
    if a == 0 then b
    else if b == 0 then a
    else (if a % 2 == 1 || b % 2 == 1 then 1 else 0) + 2 * BitOr(a / 2, b / 2)
  }

  /** Bits that do not overlap add up. */
  lemma {:induction false} OrAdds(a: nat, r: nat, u: nat)
    requires a < Pow2(r)
    ensures BitOr(a, Pow2(r) * u) == a + Pow2(r) * u
  {
    if a != 0 && Pow2(r) * u != 0 {
      HalfJoin(0, u, r);
      OrAdds(a / 2, r - 1, u);
    }
  }

  /** The low byte and the rest of a code moved up by r bits. */
  lemma {:induction false} ShiftSplits(c: nat, r: nat)
    requires c < 16 && r < 8
    ensures c * Pow2(r) == c * Pow2(r) % 256 + 256 * Shr(c, 8 - r)
    ensures c * Pow2(r) % 256 == Pow2(r) * (c % Pow2(8 - r)) && Pow2(r) * (c % Pow2(8 - r)) + Pow2(r) <= 256
  {
    var d, m := Remainder(c, Pow2(8 - r));
    ShrOfSum(d, m, 8 - r);
    Pow2Add(8 - r, r);
    assert Pow2(8) == 256;
    LowHigh(d, m, Pow2(8 - r), Pow2(r));
  }

  lemma {:induction false} LowHigh(d: nat, m: nat, p: nat, t: nat)
    requires m < p && p * t == 256
    ensures (d * p + m) * t == 256 * d + t * m && (d * p + m) * t % 256 == t * m && t * m + t <= 256
  {
    assert (d * p + m) * t == d * (p * t) + t * m;
    assert t * m + t == t * (m + 1) && t * (m + 1) <= t * p;
  }

  lemma {:induction false} NumberSplit(s: seq<Byte>, q: nat)
    requires q < |s|
    ensures Number(s) == Number(s[..q]) + Pow2(8 * q) * (s[q] + 256 * Number(s[q + 1..]))
  {
    assert s == s[..q] + s[q..];
    NumberConcat(s[..q], s[q..]);
    assert s[q..][1..] == s[q + 1..];
  }

  lemma {:induction false} HighIsZero(a: nat, p: nat, x: nat, t: nat)
    requires a + p * x < p * t && p > 0
    ensures x < t
  {
    if x >= t {
      Below(t, x, p, p);
    }
  }

  lemma {:induction false} Pow2Small(r: nat)
    requires r < 8
    ensures Pow2(r) <= 128
  {
    Pow2Grows(r, 7);
    assert Pow2(7) == 128;
  }

  /** Nothing is written yet above bit 8q + r. */
  lemma {:induction false} ClearAbove(index: seq<Byte>, q: nat, r: nat)
    requires q < |index| && r < 8 && Number(index) < Pow2(8 * q + r)
    ensures index[q] < Pow2(r) && Number(index[q + 1..]) == 0
  {
    NumberSplit(index, q);
    Pow2Add(8 * q, r);
    Pow2Small(r);
    HighIsZero(Number(index[..q]), Pow2(8 * q), index[q] + 256 * Number(index[q + 1..]), Pow2(r));
  }

  /** The bits of a code that go into its second byte. */
  function Carry(c: nat, r: nat): nat
    requires r < 8
  {
    Shr(c, 8 - r)
  }

  lemma {:induction false} NoCarry(c: nat, r: nat, bits: Width)
    requires r < 8 && c <= Escape(bits)
    ensures r + bits <= 8 ==> Carry(c, r) == 0
    ensures Carry(c, r) < 256
  {
    ShiftSplits(c, r);
    EscapeIsLast(bits);
    Pow2Small(r);
    if r + bits <= 8 {
      Pow2Grows(bits, 8 - r);
      ShrOfSum(0, c, 8 - r);
    } else {
      assert c * Pow2(r) <= 15 * 128 by { Below(c, 15, Pow2(r), 128); }
    }
  }

  /** The plane after the code c is put at bit 8q + r. */
  ghost predicate IsPut(index: seq<Byte>, after: seq<Byte>, q: nat, r: nat, c: nat)
    requires r < 8 && q < |index|
  {
    && |after| == |index| && after[..q] == index[..q]
    && after[q] == index[q] + Pow2(r) * (c % Pow2(8 - r))
    && Number(after[q + 1..]) == Carry(c, r)
  }

  lemma {:induction false} PutByte(index: seq<Byte>, after: seq<Byte>, q: nat, r: nat, c: nat)
    requires q < |index| && r < 8 && c < 16 && Number(index) < Pow2(8 * q + r) && IsPut(index, after, q, r, c)
    ensures after[q] + 256 * Number(after[q + 1..]) == index[q] + c * Pow2(r) && Number(index[q + 1..]) == 0
  {
    ClearAbove(index, q, r);
    ShiftSplits(c, r);
  }

  lemma {:induction false} PutAdds(index: seq<Byte>, after: seq<Byte>, q: nat, r: nat, c: nat)
    requires q < |index| && r < 8 && c < 16 && Number(index) < Pow2(8 * q + r) && IsPut(index, after, q, r, c)
    ensures Number(after) == Number(index) + Pow2(8 * q + r) * c
  {
    PutByte(index, after, q, r, c);
    NumberSplit(index, q);
    NumberSplit(after, q);
    AddShifted(Number(index[..q]), q, index[q], c, r);
  }

  lemma {:induction false} AddShifted(a: nat, q: nat, x: nat, c: nat, r: nat)
    ensures a + Pow2(8 * q) * (x + c * Pow2(r)) == (a + Pow2(8 * q) * x) + Pow2(8 * q + r) * c
  {
    Pow2Add(8 * q, r);
    Distribute(Pow2(8 * q), x, c * Pow2(r));
    Associate(Pow2(8 * q), Pow2(r), c);
  }

  /** OR a code into a plane whose later bits are clear: into one byte, or two when it crosses. */
  method PutCode(index: array<Byte>, bits: Width, j: nat, c: nat)
    requires c <= Escape(bits) && bits * j + bits <= 8 * index.Length && Number(index[..]) < Pow2(bits * j)
    modifies index
    ensures Number(index[..]) == old(Number(index[..])) + Pow2(bits * j) * c
  {
    var bit := bits * j;
    var q, r := bit / 8, bit % 8;
    ghost var before := index[..];
    ClearAbove(before, q, r);
    ShiftSplits(c, r);
    NoCarry(c, r, bits);
    OrAdds(before[q], r, c % Pow2(8 - r));
    index[q] := BitOr(index[q], c * Pow2(r) % 256);
    NumberOfRest(index[..], before, q);
    if r + bits > 8 {
      PutHigh(index[..], q, Carry(c, r));
      index[q + 1] := BitOr(index[q + 1], Carry(c, r));
    }
    PutAdds(before, index[..], q, r, c);
  }

  lemma {:induction false} NumberOfRest(after: seq<Byte>, before: seq<Byte>, q: nat)
    requires q < |before| == |after| && after == before[q := after[q]]
    ensures after[q + 1..] == before[q + 1..] && after[..q] == before[..q]
  {}

  lemma {:induction false} PutHigh(index: seq<Byte>, q: nat, h: nat)
    requires q + 1 < |index| && Number(index[q + 1..]) == 0 && h < 256
    ensures BitOr(index[q + 1], h) == h
    ensures var after := index[q + 1 := h];
            after[..q + 1] == index[..q + 1] && Number(after[q + 1..]) == h
  {
    var rest := index[q + 1..];
    assert rest[0] == index[q + 1] && Number(rest[1..]) == 0;
    var after := index[q + 1 := h];
    assert after[q + 1..] == [h] + rest[1..];
    assert ([h] + rest[1..])[1..] == rest[1..];
  }

  lemma {:induction false} CodeNumberPush(codes: seq<nat>, bits: Width, j: nat)
    requires AreCodes(codes, bits) && j < |codes|
    ensures CodeNumber(codes[..j + 1], bits) == CodeNumber(codes[..j], bits) + Pow2(bits * j) * codes[j]
    ensures CodeNumber(codes[..j], bits) < Pow2(bits * j)
    ensures bits * j + bits <= 8 * PlaneSize(|codes|, bits)
  {
    assert codes[..j + 1][..j] == codes[..j];
    CodeNumberFits(codes[..j], bits);
  }

  lemma {:induction false} NumberOfZeros(s: seq<Byte>)
    requires forall i :: 0 <= i < |s| ==> s[i] == 0
    ensures Number(s) == 0
  {
    if s != [] {
      NumberOfZeros(s[1..]);
    }
  }

  method ClearPlane(index: array<Byte>)
    modifies index
    ensures Number(index[..]) == 0
  {
    for i := 0 to index.Length
      invariant forall k :: 0 <= k < i ==> index[k] == 0
    {
      index[i] := 0;
    }
    NumberOfZeros(index[..]);
  }

  /** The plane of these codes, a code at a time. At four bits no code crosses a byte, and this is the
      nibble encoder. */
  method PutCodes(index: array<Byte>, codes: seq<nat>, bits: Width)
    requires AreCodes(codes, bits) && index.Length == PlaneSize(|codes|, bits)
    modifies index
    ensures IsPlane(index[..], codes, bits)
  {
    ClearPlane(index);
    for j := 0 to |codes|
      invariant Number(index[..]) == CodeNumber(codes[..j], bits)
    {
      CodeNumberPush(codes, bits, j);
      PutCode(index, bits, j, codes[j]);
    }
    assert codes[..|codes|] == codes;
  }

  // ------------------------------------------------------------------ eight codes to a 24-bit word

  lemma {:induction false} ChunkStep(chunk: seq<nat>, j: nat)
    requires AreCodes(chunk, 3) && j < |chunk|
    ensures BitOr(CodeNumber(chunk[..j], 3), Pow2(3 * j) * chunk[j]) == CodeNumber(chunk[..j + 1], 3)
  {
    CodeNumberPush(chunk, 3, j);
    OrAdds(CodeNumber(chunk[..j], 3), 3 * j, chunk[j]);
  }

  /** The 24-bit word of up to eight three-bit codes. */
  method PutInWord(chunk: seq<nat>, j: nat, word: nat) returns (after: nat)
    requires AreCodes(chunk, 3) && j < |chunk| && word == CodeNumber(chunk[..j], 3)
    ensures after == CodeNumber(chunk[..j + 1], 3)
  {
    ChunkStep(chunk, j);
    after := BitOr(word, Pow2(3 * j) * chunk[j]);
  }

  method ChunkWord(chunk: seq<nat>) returns (word: nat)
    requires AreCodes(chunk, 3) && |chunk| <= 8
    ensures word == CodeNumber(chunk, 3)
  {
    word := 0;
    for j := 0 to |chunk|
      invariant word == CodeNumber(chunk[..j], 3)
    {
      word := PutInWord(chunk, j, word);
    }
    assert chunk[..|chunk|] == chunk;
  }

  /** Byte k of a word. */
  function WordByte(v: nat, k: nat): Byte {
    if k == 0 then v % 256 else WordByte(v / 256, k - 1)
  }

  /** The low bytes of a word, least significant first. */
  function LittleEndian(v: nat, n: nat): (s: seq<Byte>)
    ensures |s| == n
  {
    seq(n, k requires 0 <= k < n => WordByte(v, k))
  }

  lemma {:induction false} LittleEndianNext(v: nat, n: nat)
    ensures LittleEndian(v, n + 1) == [v % 256] + LittleEndian(v / 256, n)
  {
    var s, t := LittleEndian(v, n + 1), [v % 256] + LittleEndian(v / 256, n);
    forall k | 0 <= k < n + 1
      ensures s[k] == t[k]
    {
    }
  }

  lemma {:induction false} LittleEndianNumber(v: nat, n: nat)
    requires v < Pow2(8 * n)
    ensures Number(LittleEndian(v, n)) == v
  {
    if n > 0 {
      Pow2Add(8, 8 * (n - 1));
      assert Pow2(8) == 256;
      LittleEndianNumber(v / 256, n - 1);
      LittleEndianNext(v, n - 1);
    }
  }

  lemma {:induction false} LittleEndianPrefix(v: nat, n: nat, m: nat)
    requires n <= m
    ensures LittleEndian(v, m)[..n] == LittleEndian(v, n)
  {}

  lemma {:induction false} ChunkBytes(chunk: seq<nat>)
    requires AreCodes(chunk, 3) && |chunk| <= 8
    ensures PlaneSize(|chunk|, 3) <= 3
    ensures IsPlane(LittleEndian(CodeNumber(chunk, 3), 3)[..PlaneSize(|chunk|, 3)], chunk, 3)
  {
    var n := PlaneSize(|chunk|, 3);
    CodeNumberFits(chunk, 3);
    Pow2Grows(3 * |chunk|, 8 * n);
    LittleEndianPrefix(CodeNumber(chunk, 3), n, 3);
    LittleEndianNumber(CodeNumber(chunk, 3), n);
  }

  /** Planes of whole groups of eight codes follow one another. */
  lemma {:induction false} PlaneOfGroups(a: seq<Byte>, front: seq<nat>, b: seq<Byte>, back: seq<nat>)
    requires IsPlane(a, front, 3) && IsPlane(b, back, 3) && |front| % 8 == 0
    ensures IsPlane(a + b, front + back, 3)
  {
    WholeGroups(|front|, |back|);
    NumberConcat(a, b);
    CodeNumberConcat(front, back, 3);
  }

  lemma {:induction false} WholeGroups(m: nat, n: nat)
    requires m % 8 == 0
    ensures 8 * PlaneSize(m, 3) == 3 * m && PlaneSize(m + n, 3) == PlaneSize(m, 3) + PlaneSize(n, 3)
  {
    var k := m / 8;
    assert m == 8 * k && PlaneSize(m, 3) == 3 * k;
    assert (3 * (m + n) + 7) / 8 == 3 * k + (3 * n + 7) / 8;
  }

  lemma {:induction false} NextGroup(codes: seq<nat>, group: nat, next: nat)
    requires group <= next <= |codes|
    ensures codes[..next] == codes[..group] + codes[group..next]
  {}

  /** One group: its word's bytes, as many as its codes need. */
  method GroupBytes(chunk: seq<nat>) returns (bytes: seq<Byte>)
    requires AreCodes(chunk, 3) && |chunk| <= 8
    ensures IsPlane(bytes, chunk, 3)
  {
    var word := ChunkWord(chunk);
    ChunkBytes(chunk);
    var width := (3 * |chunk| + 7) / 8;
    bytes := LittleEndian(word, 3)[..width];
  }

  method PutGroup(before: seq<Byte>, codes: seq<nat>, group: nat, next: nat) returns (index: seq<Byte>)
    requires AreCodes(codes, 3) && group % 8 == 0 && group <= next <= |codes| && next <= group + 8
    requires IsPlane(before, codes[..group], 3)
    ensures IsPlane(index, codes[..next], 3)
  {
    var bytes := GroupBytes(codes[group..next]);
    PlaneOfGroups(before, codes[..group], bytes, codes[group..next]);
    NextGroup(codes, group, next);
    index := before + bytes;
  }

  /** The same plane at three bits, eight codes to a word: each word's bytes follow the last's. */
  method PutWords(codes: seq<nat>) returns (index: seq<Byte>)
    requires AreCodes(codes, 3)
    ensures IsPlane(index, codes, 3)
  {
    index := [];
    var group := 0;
    while group < |codes|
      invariant group % 8 == 0
      invariant IsPlane(index, codes[..Min(group, |codes|)], 3)
    {
      index := PutGroup(index, codes, group, Min(group + 8, |codes|));
      group := group + 8;
    }
    assert codes[..|codes|] == codes;
  }
}
