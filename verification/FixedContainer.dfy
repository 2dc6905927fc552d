/** The container of a fixed-width dictionary stream. The parser is the inverse of the layout: it
    accepts a buffer exactly when the buffer is the layout of some valid view, and returns that view. */
module FixedContainers {
  import opened BitStrings
  import opened BytePlanes
  import opened FixedCodes
  import opened FixedDictionaries

  // ------------------------------------------------------------------ the layout

  function Magic(bits: Width): (m: seq<Byte>)
    ensures |m| == 4
  {
    if bits == 3 then [0x46, 0x44, 0x33, 0x42] else [0x46, 0x44, 0x34, 0x42]
  }

  /** Zero bytes that three-bit streams keep after the escapes, for vector loads. */
  function Slack(bits: Width): nat {
    if bits == 3 then SLACK else 0
  }

  /** Bits after the last code are zero. */
  predicate PadClear(index: seq<Byte>, n: nat, bits: Width) {
    bits * n % 8 != 0 && index != [] ==> Shr(index[|index| - 1], bits * n % 8) == 0
  }

  predicate DistinctEntries(table: seq<Byte>, n: nat)
    requires n <= |table|
  {
    forall i, j :: 0 <= j < i < n ==> table[i] != table[j]
  }

  predicate ZeroFrom(s: seq<Byte>, n: nat) {
    forall i :: n <= i < |s| ==> s[i] == 0
  }

  ghost predicate ValidView(v: View) {
    && v.rawBytes <= MAX_RAW && v.values == v.rawBytes / 2 && v.escapes <= v.values
    && |v.table| == 16 && DistinctEntries(v.table, Escape(v.bits)) && ZeroFrom(v.table, Escape(v.bits))
    && |v.index| == PlaneSize(v.values, v.bits) && PadClear(v.index, v.values, v.bits)
    && |v.low| == (v.rawBytes + 1) / 2
    && |v.escape| == v.escapes + Slack(v.bits) && ZeroFrom(v.escape, v.escapes)
  }

  lemma {:induction false} ValidIsReadable(v: View)
    requires ValidView(v)
    ensures Readable(v)
  {}

  ghost function Header(bits: Width, rawBytes: nat, escapes: nat): (h: seq<Byte>)
    ensures |h| == 16
  {
    Magic(bits) + LittleEndian(rawBytes, 4) + LittleEndian(escapes, 4) + LittleEndian(0, 4)
  }

  ghost function Serialize(v: View): seq<Byte> {
    Header(v.bits, v.rawBytes, v.escapes) + v.table + v.index + v.low + v.escape
  }

  // ------------------------------------------------------------------ header words

  function U32(data: seq<Byte>, at: nat): nat
    requires at + 4 <= |data|
  {
    Word(data[at], data[at + 1], data[at + 2], data[at + 3])
  }

  function Word(a: nat, b: nat, c: nat, d: nat): nat {
    a + 0x100 * b + 0x1_0000 * c + 0x100_0000 * d
  }

  lemma {:induction false} FourDigits(a: Byte, b: Byte, c: Byte, d: Byte)
    ensures LittleEndian(Word(a, b, c, d), 4) == [a, b, c, d] && Word(a, b, c, d) < 0x1_0000_0000
  {
    var v, v1, v2 := Word(a, b, c, d), Word(b, c, d, 0), Word(c, d, 0, 0);
    assert v / 256 == v1 && v % 256 == a && v1 / 256 == v2 && v1 % 256 == b;
    LittleEndianNext(v, 3);
    LittleEndianNext(v1, 2);
    LittleEndianNext(v2, 1);
    LittleEndianNext(d, 0);
  }

  lemma {:induction false} U32Digits(data: seq<Byte>, at: nat)
    requires at + 4 <= |data|
    ensures LittleEndian(U32(data, at), 4) == data[at..at + 4] && U32(data, at) < 0x1_0000_0000
  {
    FourDigits(data[at], data[at + 1], data[at + 2], data[at + 3]);
  }

  lemma {:induction false} U32OfDigits(data: seq<Byte>, at: nat, x: nat)
    requires at + 4 <= |data| && data[at..at + 4] == LittleEndian(x, 4) && x < 0x1_0000_0000
    ensures U32(data, at) == x
  {
    U32Digits(data, at);
    WordSizes();
    LittleEndianNumber(x, 4);
    LittleEndianNumber(U32(data, at), 4);
  }

  // ------------------------------------------------------------------ the parser

  function Slices(data: seq<Byte>, bits: Width, raw: nat, escapes: nat): View
    requires |data| == 32 + PlaneSize(raw / 2, bits) + (raw + 1) / 2 + escapes + Slack(bits)
  {
    var low := 32 + PlaneSize(raw / 2, bits);
    var escape := low + (raw + 1) / 2;
    View(bits, data[16..32], data[32..low], data[low..escape], data[escape..], raw, raw / 2, escapes)
  }

  ghost predicate Accepts(data: seq<Byte>, bits: Width) {
    && |data| >= 32 && data[..4] == Magic(bits) && U32(data, 12) == 0
    && U32(data, 4) <= MAX_RAW && U32(data, 8) <= U32(data, 4) / 2
    && |data| == 32 + PlaneSize(U32(data, 4) / 2, bits) + (U32(data, 4) + 1) / 2 + U32(data, 8) + Slack(bits)
    && ValidView(Slices(data, bits, U32(data, 4), U32(data, 8)))
  }

  lemma {:induction false} SlicesLayout(data: seq<Byte>, bits: Width, raw: nat, escapes: nat)
    requires |data| == 32 + PlaneSize(raw / 2, bits) + (raw + 1) / 2 + escapes + Slack(bits)
    requires data[..4] == Magic(bits) && data[4..8] == LittleEndian(raw, 4)
    requires data[8..12] == LittleEndian(escapes, 4) && data[12..16] == LittleEndian(0, 4)
    ensures Serialize(Slices(data, bits, raw, escapes)) == data
  {
    HeaderIs(data, bits, raw, escapes);
    var low := 32 + PlaneSize(raw / 2, bits);
    var escape := low + (raw + 1) / 2;
    var v := Slices(data, bits, raw, escapes);
    FivePieces(data, low, escape);
    SerializedParts(v, data[..16], data[16..32], data[32..low], data[low..escape], data[escape..]);
  }

  lemma {:induction false} SerializedParts(v: View, header: seq<Byte>, table: seq<Byte>, index: seq<Byte>,
                                           low: seq<Byte>, escape: seq<Byte>)
    requires header == Header(v.bits, v.rawBytes, v.escapes) && v.table == table && v.index == index
    requires v.low == low && v.escape == escape
    ensures Serialize(v) == header + table + index + low + escape
  {}

  lemma {:induction false} HeaderIs(data: seq<Byte>, bits: Width, raw: nat, escapes: nat)
    requires |data| >= 16 && data[..4] == Magic(bits) && data[4..8] == LittleEndian(raw, 4)
    requires data[8..12] == LittleEndian(escapes, 4) && data[12..16] == LittleEndian(0, 4)
    ensures data[..16] == Header(bits, raw, escapes)
  {
    FourWords(data);
  }

  lemma {:induction false} FourWords(data: seq<Byte>)
    requires |data| >= 16
    ensures data[..16] == data[..4] + data[4..8] + data[8..12] + data[12..16]
  {}

  lemma {:induction false} FivePieces(data: seq<Byte>, low: nat, escape: nat)
    requires 32 <= low <= escape <= |data|
    ensures data == data[..16] + data[16..32] + data[32..low] + data[low..escape] + data[escape..]
  {}

  lemma {:induction false} AcceptedLayout(data: seq<Byte>, bits: Width)
    requires Accepts(data, bits)
    ensures Serialize(Slices(data, bits, U32(data, 4), U32(data, 8))) == data
  {
    U32Digits(data, 4);
    U32Digits(data, 8);
    U32Digits(data, 12);
    SlicesLayout(data, bits, U32(data, 4), U32(data, 8));
  }

  lemma {:induction false} HeaderFields(h: seq<Byte>, bits: Width, raw: nat, escapes: nat)
    requires h == Header(bits, raw, escapes)
    ensures h[..4] == Magic(bits) && h[4..8] == LittleEndian(raw, 4)
    ensures h[8..12] == LittleEndian(escapes, 4) && h[12..16] == LittleEndian(0, 4)
  {}

  lemma {:induction false} LayoutHeader(v: View, data: seq<Byte>)
    requires ValidView(v) && data == Serialize(v)
    ensures |data| == 32 + |v.index| + |v.low| + |v.escape| && data[..4] == Magic(v.bits)
    ensures U32(data, 4) == v.rawBytes && U32(data, 8) == v.escapes && U32(data, 12) == 0
  {
    var h := Header(v.bits, v.rawBytes, v.escapes);
    HeaderFields(h, v.bits, v.rawBytes, v.escapes);
    assert data[..16] == h;
    assert data[..4] == h[..4] && data[4..8] == h[4..8] && data[8..12] == h[8..12] && data[12..16] == h[12..16];
    U32OfDigits(data, 4, v.rawBytes);
    U32OfDigits(data, 8, v.escapes);
    U32OfDigits(data, 12, 0);
  }

  /** A layout is accepted, and its slices are the view it was made from. */
  lemma {:induction false} LayoutAccepted(v: View, data: seq<Byte>)
    requires ValidView(v) && data == Serialize(v)
    ensures Accepts(data, v.bits) && Slices(data, v.bits, U32(data, 4), U32(data, 8)) == v
  {
    LayoutHeader(v, data);
    SlicesOfLayout(v, data);
  }

  lemma {:induction false} SlicesOfLayout(v: View, data: seq<Byte>)
    requires ValidView(v) && data == Serialize(v)
    requires |data| == 32 + PlaneSize(v.rawBytes / 2, v.bits) + (v.rawBytes + 1) / 2 + v.escapes + Slack(v.bits)
    ensures Slices(data, v.bits, v.rawBytes, v.escapes) == v
  {
    LayoutParts(Header(v.bits, v.rawBytes, v.escapes), v.table, v.index, v.low, v.escape, data);
  }

  lemma {:induction false} LayoutParts(h: seq<Byte>, t: seq<Byte>, i: seq<Byte>, l: seq<Byte>, e: seq<Byte>,
                                       data: seq<Byte>)
    requires |h| == 16 && |t| == 16 && data == h + t + i + l + e
    ensures data[16..32] == t && data[32..32 + |i|] == i && data[32 + |i|..32 + |i| + |l|] == l
    ensures data[32 + |i| + |l|..] == e
  {}

  method CheckDistinct(table: seq<Byte>, n: nat) returns (ok: bool)
    requires n <= |table|
    ensures ok <==> DistinctEntries(table, n)
  {
    for i := 0 to n
      invariant DistinctEntries(table, i)
    {
      for j := 0 to i
        invariant forall k :: 0 <= k < j ==> table[i] != table[k]
      {
        if table[i] == table[j] {
          return false;
        }
      }
    }
    ok := true;
  }

  method CheckZero(s: seq<Byte>, n: nat) returns (ok: bool)
    ensures ok <==> ZeroFrom(s, n)
  {
    var i := n;
    while i < |s|
      invariant forall k :: n <= k < i && k < |s| ==> s[k] == 0
    {
      if s[i] != 0 {
        return false;
      }
      i := i + 1;
    }
    ok := true;
  }

  /** The planes of a buffer, or -1. */
  method Parse(data: seq<Byte>, bits: Width) returns (status: int, v: View)
    ensures status == 0 || status == -1
    ensures status == 0 ==> ValidView(v) && Readable(v) && v.bits == bits && Serialize(v) == data
    ensures status == -1 ==> forall u: View :: ValidView(u) && u.bits == bits ==> Serialize(u) != data
  {
    v := View(bits, [], [], [], [], 0, 0, 0);
    status := ParsePlanes(data, bits);
    if status == 0 {
      v := Slices(data, bits, U32(data, 4), U32(data, 8));
      AcceptedLayout(data, bits);
      ValidIsReadable(v);
    } else {
      forall u: View | ValidView(u) && u.bits == bits
        ensures Serialize(u) != data
      {
        if Serialize(u) == data {
          LayoutAccepted(u, data);
        }
      }
    }
  }

  method ParsePlanes(data: seq<Byte>, bits: Width) returns (status: int)
    ensures status == 0 || status == -1
    ensures status == 0 <==> Accepts(data, bits)
  {
    if |data| < 32 || data[..4] != Magic(bits) || U32(data, 12) != 0 {
      return -1;
    }
    var raw, escapes := U32(data, 4), U32(data, 8);
    if raw > MAX_RAW || escapes > raw / 2 {
      return -1;
    }
    if |data| != 32 + PlaneSize(raw / 2, bits) + (raw + 1) / 2 + escapes + Slack(bits) {
      return -1;
    }
    var v := Slices(data, bits, raw, escapes);
    var zeros := CheckZero(v.table, Escape(bits));
    var distinct := CheckDistinct(v.table, Escape(bits));
    var slack := CheckZero(v.escape, escapes);
    status := if zeros && distinct && PadClear(v.index, v.values, bits) && slack then 0 else -1;
  }

  // ------------------------------------------------------------------ encoding

  predicate ValidDictionary(dict: seq<Byte>, bits: Width) {
    |dict| == Escape(bits) && DistinctEntries(dict, |dict|)
  }

  /** The position of a byte in the dictionary, or the dictionary's size, which is the escape code. */
  function Find(dict: seq<Byte>, b: Byte): (k: nat)
    ensures k <= |dict|
  {
    if dict == [] || dict[0] == b then 0 else 1 + Find(dict[1..], b)
  }

  lemma {:induction false} Found(dict: seq<Byte>, b: Byte)
    ensures Find(dict, b) < |dict| ==> dict[Find(dict, b)] == b
    ensures Find(dict, b) == |dict| <==> b !in dict
  {
    if dict != [] && dict[0] != b {
      Found(dict[1..], b);
      assert b in dict <==> b in dict[1..];
    }
  }

  function CodesOf(dict: seq<Byte>, high: seq<Byte>): (codes: seq<nat>)
    ensures |codes| == |high|
  {
    seq(|high|, i requires 0 <= i < |high| => Find(dict, high[i]))
  }

  /** The bytes that are not in the dictionary, in order. */
  function EscapesOf(dict: seq<Byte>, high: seq<Byte>): (e: seq<Byte>)
    ensures |e| <= |high|
  {
    if high == [] then []
    else EscapesOf(dict, high[..|high| - 1]) + if Find(dict, high[|high| - 1]) == |dict| then [high[|high| - 1]] else []
  }

  ghost function ViewFor(raw: seq<Byte>, dict: seq<Byte>, bits: Width, index: seq<Byte>): View
    requires |dict| <= 16
  {
    var escapes := EscapesOf(dict, Odd(raw));
    View(bits, dict + ZeroBytes(16 - |dict|), index, Even(raw), escapes + ZeroBytes(Slack(bits)), |raw|, |raw| / 2,
         |escapes|)
  }

  function ZeroBytes(n: nat): (z: seq<Byte>)
    ensures |z| == n && ZeroFrom(z, 0)
  {
    seq(n, _ => 0)
  }

  /** data is the stream of raw with this dictionary. */
  ghost predicate IsEncoding(data: seq<Byte>, raw: seq<Byte>, dict: seq<Byte>, bits: Width)
    requires |dict| <= 16
  {
    exists index: seq<Byte> :: IsEncodingWith(data, raw, dict, bits, index)
  }

  ghost predicate IsEncodingWith(data: seq<Byte>, raw: seq<Byte>, dict: seq<Byte>, bits: Width, index: seq<Byte>)
    requires |dict| <= 16
  {
    IsPlane(index, CodesOf(dict, Odd(raw)), bits) && data == Serialize(ViewFor(raw, dict, bits, index))
  }

  /** Two encoders that both write the stream write the same bytes. */
  lemma {:induction false} EncodingIsUnique(a: seq<Byte>, b: seq<Byte>, raw: seq<Byte>, dict: seq<Byte>, bits: Width)
    requires |dict| <= 16 && IsEncoding(a, raw, dict, bits) && IsEncoding(b, raw, dict, bits)
    ensures a == b
  {
    var i: seq<Byte> :| IsEncodingWith(a, raw, dict, bits, i);
    var j: seq<Byte> :| IsEncodingWith(b, raw, dict, bits, j);
    PlaneIsUnique(i, j, CodesOf(dict, Odd(raw)), bits);
  }

  lemma {:induction false} CodesFit(dict: seq<Byte>, high: seq<Byte>, bits: Width)
    requires |dict| == Escape(bits)
    ensures AreCodes(CodesOf(dict, high), bits)
  {}

  lemma {:induction false} PlanePadIsClear(index: seq<Byte>, codes: seq<nat>, bits: Width)
    requires IsPlane(index, codes, bits) && AreCodes(codes, bits)
    ensures PadClear(index, |codes|, bits)
  {
    CodeNumberFits(codes, bits);
    if bits * |codes| % 8 != 0 {
      PadOfNumber(index, bits * |codes|);
    }
  }

  lemma {:induction false} PadOfNumber(index: seq<Byte>, n: nat)
    requires n % 8 != 0 && |index| == (n + 7) / 8 && Number(index) < Pow2(n)
    ensures |index| > 0 && Shr(index[|index| - 1], n % 8) == 0
  {
    var q, r := |index| - 1, n % 8;
    LastByteBit(n);
    assert n == 8 * q + r;
    ClearAbove(index, q, r);
    ShrOfSum(0, index[q], r);
  }

  lemma {:induction false} LastByteBit(n: nat)
    requires n % 8 != 0
    ensures n == 8 * ((n + 7) / 8 - 1) + n % 8 && (n + 7) / 8 >= 1
  {}

  lemma {:induction false} EncodedIsValid(raw: seq<Byte>, dict: seq<Byte>, bits: Width, index: seq<Byte>)
    requires |raw| <= MAX_RAW && ValidDictionary(dict, bits) && IsPlane(index, CodesOf(dict, Odd(raw)), bits)
    ensures ValidView(ViewFor(raw, dict, bits, index))
  {
    CodesFit(dict, Odd(raw), bits);
    PlanePadIsClear(index, CodesOf(dict, Odd(raw)), bits);
  }

  lemma {:induction false} CodeOfValue(raw: seq<Byte>, dict: seq<Byte>, bits: Width, index: seq<Byte>, i: nat)
    requires ValidDictionary(dict, bits) && IsPlane(index, CodesOf(dict, Odd(raw)), bits) && i < |raw| / 2
    ensures Readable(ViewFor(raw, dict, bits, index))
    ensures Code(ViewFor(raw, dict, bits, index), i) == Find(dict, Odd(raw)[i])
  {
    CodesFit(dict, Odd(raw), bits);
    CodeAtOfPlane(index, CodesOf(dict, Odd(raw)), bits, i);
  }

  lemma {:induction false} EscapesPush(dict: seq<Byte>, high: seq<Byte>, n: nat)
    requires n < |high|
    ensures EscapesOf(dict, high[..n + 1]) ==
            EscapesOf(dict, high[..n]) + if Find(dict, high[n]) == |dict| then [high[n]] else []
  {
    assert high[..n + 1][..n] == high[..n];
  }

  lemma {:induction false} EscapesCounted(raw: seq<Byte>, dict: seq<Byte>, bits: Width, index: seq<Byte>, n: nat)
    requires ValidDictionary(dict, bits) && IsPlane(index, CodesOf(dict, Odd(raw)), bits) && n <= |raw| / 2
    ensures Readable(ViewFor(raw, dict, bits, index))
    ensures EscapesBefore(ViewFor(raw, dict, bits, index), n) == |EscapesOf(dict, Odd(raw)[..n])|
  {
    if n > 0 {
      EscapesCounted(raw, dict, bits, index, n - 1);
      CodeOfValue(raw, dict, bits, index, n - 1);
      EscapesPush(dict, Odd(raw), n - 1);
    }
  }

  lemma {:induction false} EscapesPrefix(dict: seq<Byte>, high: seq<Byte>, n: nat, m: nat)
    requires n <= m <= |high|
    ensures EscapesOf(dict, high[..n]) <= EscapesOf(dict, high[..m])
    decreases m
  {
    if n < m {
      EscapesPrefix(dict, high, n, m - 1);
      EscapesPush(dict, high, m - 1);
    }
  }

  lemma {:induction false} EscapeAt(dict: seq<Byte>, high: seq<Byte>, i: nat)
    requires i < |high| && Find(dict, high[i]) == |dict|
    ensures |EscapesOf(dict, high[..i])| < |EscapesOf(dict, high)|
    ensures EscapesOf(dict, high)[|EscapesOf(dict, high[..i])|] == high[i]
  {
    EscapesPush(dict, high, i);
    EscapesPrefix(dict, high, i + 1, |high|);
    assert high[..|high|] == high;
  }

  lemma {:induction false} HighOfValue(raw: seq<Byte>, dict: seq<Byte>, bits: Width, index: seq<Byte>, i: nat)
    requires ValidDictionary(dict, bits) && IsPlane(index, CodesOf(dict, Odd(raw)), bits) && i < |raw| / 2
    ensures Readable(ViewFor(raw, dict, bits, index))
    ensures HighAt(ViewFor(raw, dict, bits, index), i) == Odd(raw)[i]
  {
    var high := Odd(raw);
    CodeOfValue(raw, dict, bits, index, i);
    EscapesCounted(raw, dict, bits, index, i);
    Found(dict, high[i]);
    if Find(dict, high[i]) == |dict| {
      EscapeAt(dict, high, i);
    }
  }

  /** The view of an encoded buffer is consistent, and what it decodes to is the buffer. */
  lemma {:induction false} EncodedDecodes(raw: seq<Byte>, dict: seq<Byte>, bits: Width, index: seq<Byte>)
    requires ValidDictionary(dict, bits) && IsPlane(index, CodesOf(dict, Odd(raw)), bits)
    ensures Readable(ViewFor(raw, dict, bits, index))
    ensures Consistent(ViewFor(raw, dict, bits, index)) && IsDecoded(ViewFor(raw, dict, bits, index), raw)
  {
    var v := ViewFor(raw, dict, bits, index);
    EscapesCounted(raw, dict, bits, index, |raw| / 2);
    assert Odd(raw)[..|raw| / 2] == Odd(raw);
    forall i | 0 <= i < |raw| / 2
      ensures ValueDecoded(v, raw, i)
    {
      ValueOfEncoding(raw, dict, bits, index, v, i);
    }
  }

  lemma {:induction false} ValueOfEncoding(raw: seq<Byte>, dict: seq<Byte>, bits: Width, index: seq<Byte>, v: View,
                                           i: nat)
    requires ValidDictionary(dict, bits) && IsPlane(index, CodesOf(dict, Odd(raw)), bits) && i < |raw| / 2
    requires v == ViewFor(raw, dict, bits, index)
    ensures Readable(v) && ValueDecoded(v, raw, i)
  {
    HighOfValue(raw, dict, bits, index, i);
    assert Odd(raw)[i] == raw[2 * i + 1] && Even(raw)[i] == raw[2 * i];
  }

  /** A byte that the dictionary has is named by its place there; only other bytes escape. */
  ghost predicate NamesValue(v: View, dict: seq<Byte>, high: Byte, i: nat)
    requires Readable(v) && i < v.values
  {
    if high in dict then Code(v, i) < |dict| && dict[Code(v, i)] == high else Code(v, i) == |dict|
  }

  /** The planes of raw for this dictionary, with nothing stored beside. */
  ghost predicate Compresses(v: View, raw: seq<Byte>, dict: seq<Byte>) {
    && Readable(v) && v.rawBytes == |raw| && |dict| <= 16 && v.table[..|dict|] == dict
    && Consistent(v) && IsDecoded(v, raw) && PadClear(v.index, v.values, v.bits)
    && |v.low| == (|raw| + 1) / 2 && |v.escape| == v.escapes + Slack(v.bits) && ZeroFrom(v.escape, v.escapes)
    && forall i: nat :: i < v.values ==> NamesValue(v, dict, raw[2 * i + 1], i)
  }

  ghost predicate IsDictionaryStream(data: seq<Byte>, raw: seq<Byte>, dict: seq<Byte>, bits: Width) {
    exists v: View :: v.bits == bits && Compresses(v, raw, dict) && data == Serialize(v)
  }

  lemma {:induction false} ValueIsNamed(raw: seq<Byte>, dict: seq<Byte>, bits: Width, index: seq<Byte>, v: View, i: nat,
                                        high: Byte)
    requires ValidDictionary(dict, bits) && IsPlane(index, CodesOf(dict, Odd(raw)), bits) && i < |raw| / 2
    requires v == ViewFor(raw, dict, bits, index) && high == raw[2 * i + 1]
    ensures Readable(v) && NamesValue(v, dict, high, i)
  {
    CodeOfValue(raw, dict, bits, index, i);
    Found(dict, high);
  }

  /** What the encoders write names every value that the dictionary has, and decodes to the buffer. */
  lemma {:induction false} EncodingCompresses(data: seq<Byte>, raw: seq<Byte>, dict: seq<Byte>, bits: Width)
    requires ValidDictionary(dict, bits) && IsEncoding(data, raw, dict, bits)
    ensures IsDictionaryStream(data, raw, dict, bits)
  {
    var index: seq<Byte> :| IsEncodingWith(data, raw, dict, bits, index);
    var v := ViewFor(raw, dict, bits, index);
    EncodedDecodes(raw, dict, bits, index);
    CodesFit(dict, Odd(raw), bits);
    PlanePadIsClear(index, CodesOf(dict, Odd(raw)), bits);
    forall i: nat | i < v.values
      ensures NamesValue(v, dict, raw[2 * i + 1], i)
    {
      ValueIsNamed(raw, dict, bits, index, v, i, raw[2 * i + 1]);
    }
    assert v.bits == bits && Compresses(v, raw, dict) && data == Serialize(v);
  }

  lemma {:induction false} EncodingParts(data: seq<Byte>, raw: seq<Byte>, dict: seq<Byte>, bits: Width)
    returns (v: View)
    requires |raw| <= MAX_RAW && ValidDictionary(dict, bits) && IsEncoding(data, raw, dict, bits)
    ensures ValidView(v) && v.bits == bits && Serialize(v) == data && v.rawBytes == |raw|
    ensures Consistent(v) && IsDecoded(v, raw)
  {
    var index: seq<Byte> :| IsEncodingWith(data, raw, dict, bits, index);
    v := ViewFor(raw, dict, bits, index);
    EncodedIsValid(raw, dict, bits, index);
    EncodedDecodes(raw, dict, bits, index);
  }

  lemma {:induction false} LayoutIsInjective(u: View, v: View)
    requires ValidView(u) && ValidView(v) && u.bits == v.bits && Serialize(u) == Serialize(v)
    ensures u == v
  {
    LayoutAccepted(u, Serialize(u));
    LayoutAccepted(v, Serialize(v));
  }

  /** Parsing an encoded buffer succeeds, and its decoding is the buffer, of even or odd length. */
  method DecodeEncoding(data: seq<Byte>, bits: Width, ghost raw: seq<Byte>, ghost dict: seq<Byte>)
    returns (status: int, out: array<Byte>)
    requires |raw| <= MAX_RAW && ValidDictionary(dict, bits) && IsEncoding(data, raw, dict, bits)
    ensures status == 0 && out[..] == raw
  {
    ghost var u := EncodingParts(data, raw, dict, bits);
    var v;
    status, v := Parse(data, bits);
    LayoutIsInjective(u, v);
    out := new Byte[v.rawBytes];
    status := DecodeScalar(v, out);
    DecodedStream(v, out[..], raw);
  }

  // ------------------------------------------------------------------ the two encoders

  datatype Encoded = InvalidInput | Encoded(data: seq<Byte>)

  const MAX_ENCODED := 0x100_0000

  lemma {:induction false} EncodedWith(raw: seq<Byte>, dict: seq<Byte>, bits: Width, index: seq<Byte>, data: seq<Byte>)
    requires |dict| <= 16 && IsPlane(index, CodesOf(dict, Odd(raw)), bits)
    requires data == Serialize(ViewFor(raw, dict, bits, index))
    ensures IsEncoding(data, raw, dict, bits)
  {
    assert IsEncodingWith(data, raw, dict, bits, index);
  }

  /** The escapes of these high bytes. */
  method CollectEscapes(dict: seq<Byte>, high: seq<Byte>) returns (escapes: seq<Byte>)
    ensures escapes == EscapesOf(dict, high)
  {
    escapes := [];
    for i := 0 to |high|
      invariant escapes == EscapesOf(dict, high[..i])
    {
      EscapesPush(dict, high, i);
      if Find(dict, high[i]) == |dict| {
        escapes := escapes + [high[i]];
      }
    }
    assert high[..|high|] == high;
  }

  /** The script's encoders: nibbles OR-ed in place at four bits, 24-bit words at three. */
  method EncodeScript(raw: seq<Byte>, dict: seq<Byte>, bits: Width) returns (r: Encoded)
    ensures r == InvalidInput <==> |raw| > MAX_ENCODED || !ValidDictionary(dict, bits)
    ensures r.Encoded? ==> IsEncoding(r.data, raw, dict, bits) && IsDictionaryStream(r.data, raw, dict, bits)
  {
    if |raw| > MAX_ENCODED || |dict| != Escape(bits) {
      return InvalidInput;
    }
    var distinct := CheckDistinct(dict, |dict|);
    if !distinct {
      return InvalidInput;
    }
    var codes := CodesOf(dict, Odd(raw));
    CodesFit(dict, Odd(raw), bits);
    var index;
    if bits == 3 {
      index := PutWords(codes);
    } else {
      var nibbles := new Byte[PlaneSize(|codes|, bits)];
      PutCodes(nibbles, codes, bits);
      index := nibbles[..];
    }
    var escapes := CollectEscapes(dict, Odd(raw));
    var data := Magic(bits) + LittleEndian(|raw|, 4) + LittleEndian(|escapes|, 4) + LittleEndian(0, 4) +
      (dict + ZeroBytes(16 - |dict|)) + index + Even(raw) + (escapes + ZeroBytes(Slack(bits)));
    EncodedWith(raw, dict, bits, index, data);
    EncodingCompresses(data, raw, dict, bits);
    r := Encoded(data);
  }

  /** The table of codes by byte value. */
  method CodeTable(dict: seq<Byte>, bits: Width) returns (code: seq<nat>)
    requires ValidDictionary(dict, bits)
    ensures |code| == 256 && forall b: Byte :: code[b] == Find(dict, b)
  {
    code := seq(256, _ => |dict|);
    for k := 0 to |dict|
      invariant |code| == 256
      invariant forall b: Byte :: code[b] == if Find(dict, b) < k then Find(dict, b) else |dict|
    {
      FindEntry(dict, k);
      code := code[dict[k] := k];
    }
  }

  lemma {:induction false} FindEntry(dict: seq<Byte>, k: nat)
    requires DistinctEntries(dict, |dict|) && k < |dict|
    ensures forall b: Byte :: Find(dict, b) == k <==> b == dict[k]
  {
    forall b: Byte
      ensures Find(dict, b) == k <==> b == dict[k]
    {
      Found(dict, b);
      if b == dict[k] {
        assert b in dict;
        assert Find(dict, b) == k;
      }
    }
  }

  /** The benchmark's encoder, one loop over the values for codes and escapes at either width. */
  method EncodeBenchmark(raw: seq<Byte>, dict: seq<Byte>, bits: Width) returns (data: seq<Byte>)
    requires ValidDictionary(dict, bits)
    ensures IsEncoding(data, raw, dict, bits) && IsDictionaryStream(data, raw, dict, bits)
  {
    var code := CodeTable(dict, bits);
    var index := new Byte[PlaneSize(|raw| / 2, bits)];
    var escapes := PutValues(index, raw, dict, bits, code);
    data := Magic(bits) + LittleEndian(|raw|, 4) + LittleEndian(|escapes|, 4) + LittleEndian(0, 4) +
      (dict + ZeroBytes(16 - |dict|)) + index[..] + Even(raw) + (escapes + ZeroBytes(Slack(bits)));
    EncodedWith(raw, dict, bits, index[..], data);
    EncodingCompresses(data, raw, dict, bits);
  }

  /** Value j: its code into the plane, and its high byte among the escapes when it has no code. */
  method PutValue(index: array<Byte>, raw: seq<Byte>, ghost dict: seq<Byte>, bits: Width, code: seq<nat>,
                  ghost codes: seq<nat>, j: nat, before: seq<Byte>)
    returns (escapes: seq<Byte>)
    requires ValidDictionary(dict, bits) && |code| == 256 && forall b: Byte :: code[b] == Find(dict, b)
    requires codes == CodesOf(dict, Odd(raw)) && AreCodes(codes, bits) && j < |raw| / 2
    requires index.Length == PlaneSize(|raw| / 2, bits) && Number(index[..]) == CodeNumber(codes[..j], bits)
    requires before == EscapesOf(dict, Odd(raw)[..j])
    modifies index
    ensures Number(index[..]) == CodeNumber(codes[..j + 1], bits)
    ensures escapes == EscapesOf(dict, Odd(raw)[..j + 1])
  {
    var c := code[raw[2 * j + 1]];
    CodeNumberPush(codes, bits, j);
    EscapesPush(dict, Odd(raw), j);
    PutCode(index, bits, j, c);
    escapes := if c == Escape(bits) then before + [raw[2 * j + 1]] else before;
  }

  method PutValues(index: array<Byte>, raw: seq<Byte>, dict: seq<Byte>, bits: Width, code: seq<nat>)
    returns (escapes: seq<Byte>)
    requires ValidDictionary(dict, bits) && |code| == 256 && forall b: Byte :: code[b] == Find(dict, b)
    requires index.Length == PlaneSize(|raw| / 2, bits)
    modifies index
    ensures IsPlane(index[..], CodesOf(dict, Odd(raw)), bits) && escapes == EscapesOf(dict, Odd(raw))
  {
    ghost var codes := CodesOf(dict, Odd(raw));
    CodesFit(dict, Odd(raw), bits);
    ClearPlane(index);
    escapes := [];
    for j := 0 to |raw| / 2
      invariant Number(index[..]) == CodeNumber(codes[..j], bits)
      invariant escapes == EscapesOf(dict, Odd(raw)[..j])
    {
      escapes := PutValue(index, raw, dict, bits, code, codes, j, escapes);
    }
    assert codes[..|raw| / 2] == codes && Odd(raw)[..|raw| / 2] == Odd(raw);
  }
}
