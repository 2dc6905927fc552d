/** Symbols as a bit stream: the encoder's output, and what decoding one symbol or two from the front
    of a stream means. */
module CodeStreams {
  import opened Numbers
  import opened BitStrings
  import opened CodeLengths
  import opened CodeTables

  /** Lengths a decoder's table can be built from. */
  ghost predicate IsCode(lens: seq<nat>) {
    IsLengths(lens) && 0 < CodeSpace(lens, MAX_LENGTH) <= TABLE_SIZE
  }

  ghost predicate IsText(lens: seq<nat>, text: seq<Byte>) {
    |lens| == SYMBOLS && forall i :: 0 <= i < |text| ==> lens[text[i]] > 0
  }

  ghost function Encoded(lens: seq<nat>, text: seq<Byte>): seq<Bit>
    requires IsLengths(lens)
  {
    if text == [] then [] else CodeWord(lens, text[0]) + Encoded(lens, text[1..])
  }

  lemma {:induction false} EncodedConcat(lens: seq<nat>, s: seq<Byte>, t: seq<Byte>)
    requires IsLengths(lens)
    ensures Encoded(lens, s + t) == Encoded(lens, s) + Encoded(lens, t)
  {
    if s == [] {
      assert s + t == t;
    } else {
      assert (s + t)[1..] == s[1..] + t;
      EncodedConcat(lens, s[1..], t);
    }
  }

  lemma {:induction false} EncodedOne(lens: seq<nat>, s: Byte)
    requires IsLengths(lens)
    ensures Encoded(lens, [s]) == CodeWord(lens, s)
  {
    assert [s][1..] == [];
  }

  lemma {:induction false} EncodedPush(lens: seq<nat>, text: seq<Byte>, s: Byte)
    requires IsLengths(lens)
    ensures Encoded(lens, text + [s]) == Encoded(lens, text) + CodeWord(lens, s)
  {
    EncodedConcat(lens, text, [s]);
    EncodedOne(lens, s);
  }

  // ------------------------------------------------------------------ the next symbols of a stream

  /** The stream b starts with the code word of s. */
  ghost predicate Leads(lens: seq<nat>, s: Byte, b: seq<Bit>)
    requires IsLengths(lens)
  {
    lens[s] > 0 && CodeWord(lens, s) <= b
  }

  ghost predicate NoSymbol(lens: seq<nat>, b: seq<Bit>)
    requires IsLengths(lens)
  {
    forall s: Byte :: !Leads(lens, s, b)
  }

  lemma {:induction false} PrefixesCompare<T>(x: seq<T>, y: seq<T>, b: seq<T>)
    requires x <= b && y <= b && |x| <= |y|
    ensures x <= y
  {
    assert x == b[..|x|] && y == b[..|y|];
    assert b[..|y|][..|x|] == b[..|x|];
  }

  lemma {:induction false} NextIsUnique(lens: seq<nat>, s: Byte, t: Byte, b: seq<Bit>)
    requires IsCode(lens) && Leads(lens, s, b) && Leads(lens, t, b)
    ensures s == t
  {
    if s != t {
      if lens[s] <= lens[t] {
        PrefixesCompare(CodeWord(lens, s), CodeWord(lens, t), b);
        CanonicalIsPrefixFree(lens, s, t);
      } else {
        PrefixesCompare(CodeWord(lens, t), CodeWord(lens, s), b);
        CanonicalIsPrefixFree(lens, t, s);
      }
      assert false;
    }
  }

  lemma {:induction false} DropPrefix<T>(x: seq<T>, y: seq<T>, z: seq<T>)
    requires x + y == x + z
    ensures y == z
  {
    assert y == (x + y)[|x|..];
    assert z == (x + z)[|x|..];
  }

  /** A text whose encoding starts a stream goes on from any text already read from it. */
  lemma {:induction false} SameFirst(lens: seq<nat>, done: seq<Byte>, rest: seq<Bit>, text: seq<Byte>, tail: seq<Bit>)
    requires IsCode(lens) && IsText(lens, done) && IsText(lens, text) && done != [] && text != []
    requires Encoded(lens, done) + rest == Encoded(lens, text) + tail
    ensures done[0] == text[0] && Encoded(lens, done[1..]) + rest == Encoded(lens, text[1..]) + tail
  {
    var b := Encoded(lens, done) + rest;
    var x, y := CodeWord(lens, done[0]), CodeWord(lens, text[0]);
    var xs, ys := Encoded(lens, done[1..]) + rest, Encoded(lens, text[1..]) + tail;
    assert b == x + xs && b == y + ys;
    assert Leads(lens, done[0], b) && Leads(lens, text[0], b);
    NextIsUnique(lens, done[0], text[0], b);
    DropPrefix(x, xs, ys);
  }

  lemma {:induction false} ReadIsPrefix(lens: seq<nat>, done: seq<Byte>, rest: seq<Bit>, text: seq<Byte>,
                                        tail: seq<Bit>)
    requires IsCode(lens) && IsText(lens, done) && IsText(lens, text) && |done| <= |text|
    requires Encoded(lens, done) + rest == Encoded(lens, text) + tail
    ensures text[..|done|] == done && rest == Encoded(lens, text[|done|..]) + tail
  {
    if done == [] {
      assert text[0..] == text;
    } else {
      SameFirst(lens, done, rest, text, tail);
      ReadIsPrefix(lens, done[1..], rest, text[1..], tail);
      assert text[1..][|done| - 1..] == text[|done|..];
    }
  }

  /** Twelve bits from the front, padded with zeros. */
  ghost function Window(b: seq<Bit>): (w: seq<Bit>)
    ensures |w| == MAX_LENGTH
  {
    if |b| >= MAX_LENGTH then b[..MAX_LENGTH] else b + Zeros(MAX_LENGTH - |b|)
  }

  lemma {:induction false} WindowPrefix(b: seq<Bit>, x: seq<Bit>)
    requires |x| <= MAX_LENGTH && |x| <= |b|
    ensures x <= b <==> Window(b)[..|x|] == x
  {
    assert Window(b)[..|x|] == b[..|x|];
  }

  /** What the table says of a stream's window. */
  lemma {:induction false} TableLookup(lens: seq<nat>, v: nat, i: nat, b: seq<Bit>)
    requires IsCode(lens) && IsEntry(lens, v, i) && BitsOf(i, MAX_LENGTH) == Window(b)
    ensures v % 16 != 0 && v % 16 <= |b| ==>
              v / 16 < SYMBOLS && v % 16 == lens[v / 16] && Leads(lens, v / 16, b)
    ensures v % 16 == 0 || v % 16 > |b| ==> NoSymbol(lens, b)
  {
    EntryParts(lens, v, i);
    if v % 16 != 0 && v % 16 <= |b| {
      WindowPrefix(b, CodeWord(lens, v / 16));
    } else {
      forall s: Byte | Leads(lens, s, b)
        ensures false
      {
        WindowPrefix(b, CodeWord(lens, s));
        assert Starts(lens, i, s);
      }
    }
  }

  lemma {:induction false} EntryParts(lens: seq<nat>, v: nat, i: nat)
    requires IsLengths(lens) && IsEntry(lens, v, i)
    ensures v % 16 != 0 ==> v / 16 < SYMBOLS && v % 16 == lens[v / 16] && Starts(lens, i, v / 16)
    ensures forall s: Byte :: lens[s] > 0 && Starts(lens, i, s) ==> v / 16 == s && v % 16 == lens[s]
  {
    if v % 16 != 0 {
      var s: Byte :| HasEntry(lens, v, i, s);
      assert v / 16 == s && v % 16 == lens[s];
    }
    forall s: Byte | lens[s] > 0 && Starts(lens, i, s)
      ensures v / 16 == s && v % 16 == lens[s]
    {
      assert v == 16 * s + lens[s];
    }
  }

  // ------------------------------------------------------------------ the encoder

  lemma {:induction false} LowBits(v: nat, n: nat, k: nat)
    ensures BitsOf(v, n + k)[n..] == BitsOf(v, k)
  {
    if k > 0 {
      LowBits(v / 2, n, k - 1);
      assert BitsOf(v, n + k)[n..] == BitsOf(v / 2, n + k - 1)[n..] + [v % 2];
    }
  }

  /** Taking the top eight of held bits off the accumulator. */
  lemma {:induction false} TakeByte(acc: nat, held: nat)
    ensures BitsOf(acc, held + 8) == BitsOf(Shr(acc, held) % 256, 8) + BitsOf(acc, held)
  {
    BitsOfShr(acc, 8, held);
    LowBits(acc, 8, held);
    var v := Shr(acc, held);
    WordSizes();
    BitsOfLow(v / 256, v % 256, 8, 8);
    assert v == v / 256 * Pow2(8) + v % 256;
    assert BitsOf(acc, held + 8) == BitsOf(acc, held + 8)[..8] + BitsOf(acc, held + 8)[8..];
  }

  lemma {:induction false} BitsOfOneByte(b: Byte)
    ensures BitsOfBytes([b]) == BitsOf(b, 8)
  {
    assert [b][1..] == [];
  }

  lemma {:induction false} PushByte(out: seq<Byte>, b: Byte)
    ensures BitsOfBytes(out + [b]) == BitsOfBytes(out) + BitsOf(b, 8)
  {
    BitsOfBytesConcat(out, [b]);
    BitsOfOneByte(b);
  }

  lemma {:induction false} MaskedBits(acc: nat, held: nat)
    ensures acc % Pow2(held) < Pow2(held) && BitsOf(acc % Pow2(held), held) == BitsOf(acc, held)
  {
    var d, m := Remainder(acc, Pow2(held));
    BitsOfLow(d, m, held, held);
  }

  /** Bytes that hold the encoding of a text and at most seven zero bits after it. */
  ghost predicate IsLane(lens: seq<nat>, bytes: seq<Byte>, text: seq<Byte>)
    requires IsLengths(lens)
  {
    IsText(lens, text) && exists pad :: 0 <= pad < 8 && IsPadded(lens, bytes, text, pad)
  }

  ghost predicate IsPadded(lens: seq<nat>, bytes: seq<Byte>, text: seq<Byte>, pad: nat)
    requires IsLengths(lens)
  {
    BitsOfBytes(bytes) == Encoded(lens, text) + Zeros(pad)
  }

  /** A lane determines its text, given how long the text is. */
  lemma {:induction false} LaneIsUnique(lens: seq<nat>, bytes: seq<Byte>, s: seq<Byte>, t: seq<Byte>)
    requires IsCode(lens) && IsLane(lens, bytes, s) && IsLane(lens, bytes, t) && |s| == |t|
    ensures s == t
  {
    var p: nat :| p < 8 && IsPadded(lens, bytes, s, p);
    var q: nat :| q < 8 && IsPadded(lens, bytes, t, q);
    ReadIsPrefix(lens, s, Zeros(p), t, Zeros(q));
    assert t[..|s|] == t;
  }

  lemma {:induction false} MoveByte(out: seq<Byte>, acc: nat, held: nat)
    ensures BitsOfBytes(out + [Shr(acc, held) % 256]) + BitsOf(acc, held) == BitsOfBytes(out) + BitsOf(acc, held + 8)
  {
    TakeByte(acc, held);
    PushByte(out, Shr(acc, held) % 256);
  }

  /** Append one code to the accumulator and move whole bytes out. */
  method PushCode(out: seq<Byte>, acc: nat, held: nat, code: Code) returns (out': seq<Byte>, acc': nat, held': nat)
    requires held < 8 && code.value < Pow2(code.width)
    ensures held' < 8 && acc' < Pow2(held')
    ensures BitsOfBytes(out') + BitsOf(acc', held') ==
            BitsOfBytes(out) + (BitsOf(acc, held) + BitsOf(code.value, code.width))
  {
    BitsOfShift(acc, held, code.value, code.width);
    var pushed := acc * Pow2(code.width) + code.value;
    out', held' := out, held + code.width;
    while held' >= 8
      invariant BitsOfBytes(out') + BitsOf(pushed, held') == BitsOfBytes(out) + BitsOf(pushed, held + code.width)
    {
      held' := held' - 8;
      MoveByte(out', pushed, held');
      out' := out' + [Shr(pushed, held') % 256];
    }
    MaskedBits(pushed, held');
    acc' := pushed % Pow2(held');
  }

  lemma {:induction false} EncodedNext(lens: seq<nat>, raw: seq<Byte>, i: nat, codes: seq<Code>)
    requires IsCode(lens) && IsCanonical(lens, codes) && IsText(lens, raw) && i < |raw|
    ensures var c := codes[raw[i]];
            c.value < Pow2(c.width) && Encoded(lens, raw[..i + 1]) == Encoded(lens, raw[..i]) + BitsOf(c.value, c.width)
  {
    CodeBits(lens, codes[raw[i]], raw[i]);
    EncodedPush(lens, raw[..i], raw[i]);
    assert raw[..i + 1] == raw[..i] + [raw[i]];
  }

  /** What is written and held so far is the encoding of the first i symbols. */
  ghost predicate Written(lens: seq<nat>, out: seq<Byte>, acc: nat, held: nat, text: seq<Byte>)
    requires IsLengths(lens)
  {
    held < 8 && acc < Pow2(held) && BitsOfBytes(out) + BitsOf(acc, held) == Encoded(lens, text)
  }

  lemma {:induction false} AssocBits(a: seq<Bit>, b: seq<Bit>, c: seq<Bit>)
    ensures a + b + c == a + (b + c)
  {}

  method PushSymbol(out: seq<Byte>, acc: nat, held: nat, raw: seq<Byte>, i: nat, codes: seq<Code>, ghost lens: seq<nat>)
    returns (out': seq<Byte>, acc': nat, held': nat)
    requires IsCode(lens) && IsCanonical(lens, codes) && IsText(lens, raw) && i < |raw|
    requires Written(lens, out, acc, held, raw[..i])
    ensures Written(lens, out', acc', held', raw[..i + 1])
  {
    EncodedNext(lens, raw, i, codes);
    var code := codes[raw[i]];
    AssocBits(BitsOfBytes(out), BitsOf(acc, held), BitsOf(code.value, code.width));
    out', acc', held' := PushCode(out, acc, held, code);
  }

  /** The encoder's bit writer: code words one after another, most significant bit first, and zero
      bits up to a whole byte. */
  method EncodeBits(raw: seq<Byte>, codes: seq<Code>, ghost lens: seq<nat>) returns (out: seq<Byte>)
    requires IsCode(lens) && IsText(lens, raw) && (raw != [] ==> IsCanonical(lens, codes))
    ensures IsLane(lens, out, raw)
  {
    var acc: nat, held: nat := 0, 0;
    out := [];
    for i := 0 to |raw|
      invariant Written(lens, out, acc, held, raw[..i])
    {
      out, acc, held := PushSymbol(out, acc, held, raw, i, codes, lens);
    }
    assert raw[..|raw|] == raw;
    LastByte(lens, out, acc, held, raw);
    if held > 0 {
      out := out + [acc * Pow2(8 - held)];
    }
  }

  lemma {:induction false} LastBits(acc: nat, held: nat)
    requires held <= 8 && acc < Pow2(held)
    ensures acc * Pow2(8 - held) < 256
    ensures BitsOf(acc * Pow2(8 - held), 8) == BitsOf(acc, held) + Zeros(8 - held)
  {
    ShiftLess(acc, held, 0, 8 - held);
    assert Pow2(8) == 256;
    BitsOfShift(acc, held, 0, 8 - held);
    BitsOfZero(8 - held);
  }

  lemma {:induction false} LastByte(lens: seq<nat>, out: seq<Byte>, acc: nat, held: nat, text: seq<Byte>)
    requires IsLengths(lens) && Written(lens, out, acc, held, text)
    ensures acc * Pow2(8 - held) < 256
    ensures held > 0 ==> IsPadded(lens, out + [acc * Pow2(8 - held)], text, 8 - held)
    ensures held == 0 ==> IsPadded(lens, out, text, 0)
  {
    LastBits(acc, held);
    PushByte(out, acc * Pow2(8 - held));
    AssocBits(BitsOfBytes(out), BitsOf(acc, held), Zeros(8 - held));
  }
}
