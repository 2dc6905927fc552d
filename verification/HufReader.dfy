/** One lane's bit buffer: a reader that holds up to 43 bits, and the tables that give one or two
    symbols per lookup. */
module HufReaders {
  import opened BitStrings
  import opened CodeLengths
  import opened CodeTables
  import opened CodeStreams

  const WORD_64 := 0x1_0000_0000_0000_0000

  // ------------------------------------------------------------------ two symbols per lookup

  function First(e: nat): nat { e % 0x100 }
  function Second(e: nat): nat { e / 0x100 % 0x100 }
  function Bits(e: nat): nat { e / 0x1_0000 % 16 }
  function Two(e: nat): nat { e / 0x10_0000 }

  lemma {:induction false} Fields(a: nat, b: nat, n: nat)
    requires a < 256 && b < 256 && n < 16
    ensures var e := a + n * 0x1_0000; First(e) == a && Bits(e) == n && Two(e) == 0
    ensures var e := a + b * 0x100 + n * 0x1_0000 + 0x10_0000;
            First(e) == a && Second(e) == b && Bits(e) == n && Two(e) == 1
  {}

  /** The two symbols at the front of a stream. */
  ghost predicate LeadTwo(lens: seq<nat>, s: Byte, t: Byte, b: seq<Bit>)
    requires IsLengths(lens)
  {
    Leads(lens, s, b) && Leads(lens, t, b[lens[s]..])
  }

  ghost predicate NoTwo(lens: seq<nat>, b: seq<Bit>)
    requires IsLengths(lens)
  {
    forall s: Byte, t: Byte :: !LeadTwo(lens, s, t, b)
  }

  /** The front of b: no symbol, one symbol of n bits with none after it, or two of n bits in all. */
  ghost predicate IsPair(lens: seq<nat>, b: seq<Bit>, s: nat, t: nat, n: nat, two: nat)
    requires IsLengths(lens)
  {
    if n == 0 then NoSymbol(lens, b)
    else if two == 0 then
      s < SYMBOLS && Leads(lens, s, b) && n == lens[s] && NoSymbol(lens, b[n..])
    else
      s < SYMBOLS && t < SYMBOLS && two == 1 && LeadTwo(lens, s, t, b) && n == lens[s] + lens[t]
  }

  /** e is the pair entry of the twelve-bit word i. */
  ghost predicate IsPairEntry(lens: seq<nat>, e: nat, i: nat)
    requires IsLengths(lens)
  {
    IsPair(lens, BitsOf(i, MAX_LENGTH), First(e), Second(e), Bits(e), Two(e))
  }

  ghost predicate IsPairTable(lens: seq<nat>, pairs: seq<nat>)
    requires IsLengths(lens)
  {
    |pairs| == TABLE_SIZE && forall i :: 0 <= i < TABLE_SIZE ==> IsPairEntry(lens, pairs[i], i)
  }

  lemma {:induction false} ShiftedWord(i: nat, n: nat)
    requires n <= MAX_LENGTH
    ensures BitsOf(i * Pow2(n) % TABLE_SIZE, MAX_LENGTH) == Window(BitsOf(i, MAX_LENGTH)[n..])
  {
    BitsOfShift(i, MAX_LENGTH, 0, n);
    BitsOfZero(n);
    BitsOfMasked(i * Pow2(n), MAX_LENGTH);
    LowBits(i * Pow2(n), n, MAX_LENGTH);
  }

  function PairEntry(s: nat, m: nat, t: nat, n: nat): nat {
    if m == 0 then 0
    else if n != 0 && m + n <= MAX_LENGTH then s + t * 0x100 + (m + n) * 0x1_0000 + 0x10_0000
    else s + m * 0x1_0000
  }

  lemma {:induction false} PairOfEntries(lens: seq<nat>, s: nat, m: nat, t: nat, n: nat, i: nat)
    requires IsCode(lens) && i < TABLE_SIZE && s < SYMBOLS && t < SYMBOLS && m <= MAX_LENGTH && n <= MAX_LENGTH
    requires var b := BitsOf(i, MAX_LENGTH);
             if m == 0 then NoSymbol(lens, b)
             else m == lens[s] && Leads(lens, s, b)
                  && if n != 0 && m + n <= MAX_LENGTH then n == lens[t] && Leads(lens, t, b[m..])
                     else NoSymbol(lens, b[m..])
    ensures IsPairEntry(lens, PairEntry(s, m, t, n), i)
  {
    if m != 0 && n != 0 && m + n <= MAX_LENGTH {
      Fields(s, t, m + n);
    } else {
      Fields(s, 0, m);
    }
  }

  lemma {:induction false} Lookup(lens: seq<nat>, table: seq<nat>, i: nat, b: seq<Bit>) returns (s: nat, n: nat)
    requires IsCode(lens) && IsTable(lens, table) && i < TABLE_SIZE && BitsOf(i, MAX_LENGTH) == Window(b)
    ensures s < SYMBOLS && n <= MAX_LENGTH && table[i] / 16 == s && table[i] % 16 == n
    ensures n != 0 && n <= |b| ==> n == lens[s] && Leads(lens, s, b)
    ensures n == 0 || n > |b| ==> NoSymbol(lens, b)
  {
    assert IsEntry(lens, table[i], i);
    EntryParts(lens, table[i], i);
    TableLookup(lens, table[i], i, b);
    s, n := table[i] / 16, table[i] % 16;
  }

  method PairAt(table: seq<nat>, i: nat, ghost lens: seq<nat>) returns (e: nat)
    requires IsCode(lens) && IsTable(lens, table) && i < TABLE_SIZE
    ensures IsPairEntry(lens, e, i)
  {
    ghost var b := BitsOf(i, MAX_LENGTH);
    ghost var s, m := Lookup(lens, table, i, b);
    var j := i * Pow2(table[i] % 16) % TABLE_SIZE;
    ShiftedWord(i, m);
    ghost var t, n := Lookup(lens, table, j, b[m..]);
    PairOfEntries(lens, s, m, t, n, i);
    e := PairEntry(table[i] / 16, table[i] % 16, table[j] / 16, table[j] % 16);
  }

  /** The pair table, from the table of single symbols. */
  method BuildPairs(pairs: array<nat>, table: seq<nat>, ghost lens: seq<nat>)
    requires pairs.Length == TABLE_SIZE && IsCode(lens) && IsTable(lens, table)
    modifies pairs
    ensures IsPairTable(lens, pairs[..])
  {
    for i := 0 to TABLE_SIZE
      invariant forall k :: 0 <= k < i ==> IsPairEntry(lens, pairs[k], k)
    {
      var e := PairAt(table, i, lens);
      pairs[i] := e;
    }
  }

  // ------------------------------------------------------------------ pair lookups on a stream

  lemma {:induction false} LeadsWindow(lens: seq<nat>, s: Byte, b: seq<Bit>)
    requires IsLengths(lens) && |CodeWord(lens, s)| <= |b|
    ensures Leads(lens, s, b) <==> Leads(lens, s, Window(b))
  {
    WindowPrefix(b, CodeWord(lens, s));
    assert CodeWord(lens, s) <= Window(b) <==> Window(b)[..lens[s]] == CodeWord(lens, s);
  }

  /** A second symbol seen in the window is there in the stream when the stream is long enough. */
  lemma {:induction false} SecondInWindow(lens: seq<nat>, n: nat, t: Byte, b: seq<Bit>)
    requires IsLengths(lens) && n <= MAX_LENGTH && n <= |b| && n + lens[t] <= |b| && n + lens[t] <= MAX_LENGTH
    ensures Leads(lens, t, b[n..]) <==> Leads(lens, t, Window(b)[n..])
  {
    var m := n + lens[t];
    assert Window(b)[..m] == b[..m];
    assert Window(b)[n..][..lens[t]] == Window(b)[n..m] == b[n..m] == b[n..][..lens[t]];
  }

  lemma {:induction false} PairRefused(lens: seq<nat>, e: nat, i: nat, b: seq<Bit>)
    requires IsCode(lens) && IsPairEntry(lens, e, i) && BitsOf(i, MAX_LENGTH) == Window(b)
    requires Bits(e) == 0 || Bits(e) > |b|
    ensures NoTwo(lens, b)
  {
    forall s: Byte, t: Byte
      ensures !LeadTwo(lens, s, t, b)
    {
      if LeadTwo(lens, s, t, b) {
        LeadsWindow(lens, s, b);
        FirstOfPair(lens, e, i, s, b);
        SecondOfPair(lens, e, i, s, t, b);
        assert false;
      }
    }
  }

  lemma {:induction false} FirstOfPair(lens: seq<nat>, e: nat, i: nat, s: Byte, b: seq<Bit>)
    requires IsCode(lens) && IsPairEntry(lens, e, i) && BitsOf(i, MAX_LENGTH) == Window(b)
    requires Leads(lens, s, Window(b))
    ensures Bits(e) != 0 && First(e) == s
  {
    assert Bits(e) != 0;
    NextIsUnique(lens, First(e), s, Window(b));
  }

  lemma {:induction false} SecondOfPair(lens: seq<nat>, e: nat, i: nat, s: Byte, t: Byte, b: seq<Bit>)
    requires IsCode(lens) && IsPairEntry(lens, e, i) && BitsOf(i, MAX_LENGTH) == Window(b)
    requires Bits(e) != 0 && First(e) == s && LeadTwo(lens, s, t, b)
    ensures Bits(e) <= |b|
  {
    if Bits(e) > |b| {
      assert Two(e) == 1;
      SecondInWindow(lens, lens[s], t, b);
      NextIsUnique(lens, Second(e), t, Window(b)[lens[s]..]);
      assert false;
    }
  }

  lemma {:induction false} PairTaken(lens: seq<nat>, e: nat, i: nat, b: seq<Bit>)
    requires IsCode(lens) && IsPairEntry(lens, e, i) && BitsOf(i, MAX_LENGTH) == Window(b)
    requires 0 < Bits(e) <= |b|
    ensures Leads(lens, First(e), b) && lens[First(e)] <= |b|
    ensures Two(e) == 0 || Two(e) == 1
    ensures Two(e) == 0 ==> Bits(e) == lens[First(e)]
    ensures Two(e) == 1 ==> LeadTwo(lens, First(e), Second(e), b) && Bits(e) == lens[First(e)] + lens[Second(e)]
  {
    LeadsWindow(lens, First(e), b);
    if Two(e) == 1 {
      SecondInWindow(lens, lens[First(e)], Second(e), b);
    }
  }

  // ------------------------------------------------------------------ the bit buffer

  function Push(v: nat, b: Byte): nat {
    v * 256 + b
  }

  function BigEndian(a: Byte, b: Byte, c: Byte, d: Byte): nat {
    Push(Push(Push(a, b), c), d)
  }

  lemma {:induction false} BytePushed(v: nat, n: nat, b: Byte)
    requires v < Pow2(n)
    ensures Push(v, b) < Pow2(n + 8) && BitsOf(Push(v, b), n + 8) == BitsOf(v, n) + BitsOf(b, 8)
  {
    assert Pow2(8) == 256;
    ShiftLess(v, n, b, 8);
    BitsOfShift(v, n, b, 8);
  }

  lemma {:induction false} BigEndianBits(a: Byte, b: Byte, c: Byte, d: Byte)
    ensures BitsOf(BigEndian(a, b, c, d), 32) == BitsOf(a, 8) + BitsOf(b, 8) + BitsOf(c, 8) + BitsOf(d, 8)
    ensures BigEndian(a, b, c, d) < Pow2(32)
  {
    assert Pow2(8) == 256;
    BytePushed(a, 8, b);
    BytePushed(Push(a, b), 16, c);
    BytePushed(Push(Push(a, b), c), 24, d);
  }

  lemma {:induction false} FourBytes(s: seq<Byte>)
    requires |s| == 4
    ensures BitsOfBytes(s) == BitsOf(s[0], 8) + BitsOf(s[1], 8) + BitsOf(s[2], 8) + BitsOf(s[3], 8)
  {
    assert s == [s[0]] + [s[1]] + [s[2]] + [s[3]];
    PushByte([s[0]] + [s[1]] + [s[2]], s[3]);
    PushByte([s[0]] + [s[1]], s[2]);
    PushByte([s[0]], s[1]);
    BitsOfOneByte(s[0]);
  }

  /** Shifting a field in keeps the held bits while the word is wide enough. */
  lemma {:induction false} ShiftIn(bits: nat, held: nat, field: nat, n: nat, p: nat)
    requires p == Pow2(n) && field < p && held + n <= 64
    ensures BitsOf((bits * p + field) % WORD_64, held + n) == BitsOf(bits, held) + BitsOf(field, n)
  {
    BitsOfMasked(bits * p + field, held + n);
    BitsOfShift(bits, held, field, n);
  }

  lemma {:induction false} FourOf(src: seq<Byte>, p: nat)
    requires p + 4 <= |src|
    ensures BitsOfBytes(src[p..]) ==
            BitsOf(BigEndian(src[p], src[p + 1], src[p + 2], src[p + 3]), 32) + BitsOfBytes(src[p + 4..])
  {
    FourBytes(src[p..p + 4]);
    BigEndianBits(src[p], src[p + 1], src[p + 2], src[p + 3]);
    SplitBytes(src, p, p + 4);
  }

  lemma {:induction false} SplitBytes(src: seq<Byte>, p: nat, q: nat)
    requires p <= q <= |src|
    ensures BitsOfBytes(src[p..]) == BitsOfBytes(src[p..q]) + BitsOfBytes(src[q..])
  {
    assert src[p..] == src[p..q] + src[q..];
    BitsOfBytesConcat(src[p..q], src[q..]);
  }

  lemma {:induction false} ShiftWord(bits: nat, held: nat, word: nat)
    requires held <= 32 && word < Pow2(32)
    ensures BitsOf((bits * 0x1_0000_0000 + word) % WORD_64, held + 32) == BitsOf(bits, held) + BitsOf(word, 32)
  {
    WordSizes();
    ShiftIn(bits, held, word, 32, 0x1_0000_0000);
  }

  lemma {:induction false} WordIn(bits: nat, held: nat, src: seq<Byte>, p: nat, word: nat)
    requires held <= 32 && p + 4 <= |src| && word == BigEndian(src[p], src[p + 1], src[p + 2], src[p + 3])
    ensures BitsOf((bits * 0x1_0000_0000 + word) % WORD_64, held + 32) + BitsOfBytes(src[p + 4..]) ==
            BitsOf(bits, held) + BitsOfBytes(src[p..])
  {
    FourOf(src, p);
    BigEndianBits(src[p], src[p + 1], src[p + 2], src[p + 3]);
    ShiftWord(bits, held, word);
    Regroup(BitsOf(bits, held), BitsOf(word, 32), BitsOfBytes(src[p + 4..]));
  }

  lemma {:induction false} Regroup<T>(a: seq<T>, b: seq<T>, c: seq<T>)
    ensures (a + b) + c == a + (b + c)
  {}

  lemma {:induction false} ByteIn(bits: nat, held: nat, src: seq<Byte>, p: nat)
    requires held <= 56 && p < |src|
    ensures BitsOf((bits * 256 + src[p]) % WORD_64, held + 8) + BitsOfBytes(src[p + 1..]) ==
            BitsOf(bits, held) + BitsOfBytes(src[p..])
  {
    WordSizes();
    ShiftIn(bits, held, src[p], 8, 0x100);
    assert src[p..][1..] == src[p + 1..];
    Regroup(BitsOf(bits, held), BitsOf(src[p], 8), BitsOfBytes(src[p + 1..]));
  }

  lemma {:induction false} TopTwelve(bits: nat, held: nat)
    requires held >= 12
    ensures BitsOf(Shr(bits, held - 12) % TABLE_SIZE, MAX_LENGTH) == BitsOf(bits, held)[..12]
  {
    BitsOfMasked(Shr(bits, held - 12), MAX_LENGTH);
    BitsOfShr(bits, 12, held - 12);
  }

  lemma {:induction false} MaskedTwice(v: nat)
    ensures BitsOf(v % WORD_64 % TABLE_SIZE, MAX_LENGTH) == BitsOf(v, MAX_LENGTH)
  {
    BitsOfMasked(v % WORD_64, MAX_LENGTH);
    BitsOfMasked(v, MAX_LENGTH);
  }

  lemma {:induction false} PaddedTwelve(bits: nat, held: nat)
    requires held <= 12
    ensures BitsOf(bits * Pow2(12 - held) % WORD_64 % TABLE_SIZE, MAX_LENGTH) == BitsOf(bits, held) + Zeros(12 - held)
  {
    MaskedTwice(bits * Pow2(12 - held));
    BitsOfShift(bits, held, 0, 12 - held);
    BitsOfZero(12 - held);
  }

  class HufReader {
    const src: seq<Byte>
    var p: nat
    var bits: nat
    var held: nat

    ghost predicate Valid()
      reads this
    {
      p <= |src| && bits < WORD_64 && held <= 43
    }

    /** The bits of the lane not yet consumed. */
    ghost function Remaining(): (b: seq<Bit>)
      reads this
      requires Valid()
    {
      BitsOf(bits, held) + BitsOfBytes(src[p..])
    }

    ghost predicate Filled()
      reads this
    {
      held >= 12 || p == |src|
    }

    constructor (lane: seq<Byte>)
      ensures src == lane && p == 0 && bits == 0 && held == 0
      ensures Valid() && Remaining() == BitsOfBytes(lane)
    {
      src, p, bits, held := lane, 0, 0, 0;
      new;
      assert lane[0..] == lane;
    }

    method Refill()
      requires Valid()
      modifies this
      ensures Valid() && Filled() && Remaining() == old(Remaining())
    {
      if held < 12 {
        if |src| - p >= 4 {
          RefillWord();
        } else {
          while p < |src|
            invariant Valid() && Remaining() == old(Remaining())
            invariant held < 12 + 8 * (p - old(p)) && p - old(p) <= 3
          {
            RefillByte();
          }
        }
      }
    }

    method RefillWord()
      requires Valid() && held < 12 && |src| - p >= 4
      modifies this
      ensures Valid() && held == old(held) + 32 && Remaining() == old(Remaining())
    {
      var word := BigEndian(src[p], src[p + 1], src[p + 2], src[p + 3]);
      WordIn(bits, held, src, p, word);
      bits := (bits * 0x1_0000_0000 + word) % WORD_64;
      held := held + 32;
      p := p + 4;
    }

    method RefillByte()
      requires Valid() && held <= 35 && p < |src|
      modifies this
      ensures Valid() && held == old(held) + 8 && p == old(p) + 1 && Remaining() == old(Remaining())
    {
      ByteIn(bits, held, src, p);
      bits := (bits * 256 + src[p]) % WORD_64;
      p := p + 1;
      held := held + 8;
    }

    /** The next twelve bits, padded with zeros when fewer are held. */
    function Index(): (i: nat)
      reads this
      requires Valid()
      ensures i < TABLE_SIZE
    {
      if held >= 12 then Shr(bits, held - 12) % TABLE_SIZE
      else bits * Pow2(12 - held) % WORD_64 % TABLE_SIZE
    }

    lemma {:induction false} IndexIsWindow()
      requires Valid() && Filled()
      ensures BitsOf(Index(), MAX_LENGTH) == Window(Remaining())
    {
      if held >= 12 {
        TopTwelve(bits, held);
      } else {
        assert BitsOfBytes(src[p..]) == [];
        PaddedTwelve(bits, held);
      }
    }

    method Consume(n: nat)
      requires Valid() && n <= held
      modifies this
      ensures Valid() && n <= |old(Remaining())| && Remaining() == old(Remaining())[n..]
    {
      LowBits(bits, n, held - n);
      held := held - n;
    }

    /** One symbol, or -1 when no code word starts what remains of the lane. */
    method Symbol(table: seq<nat>, ghost lens: seq<nat>) returns (r: int)
      requires Valid() && IsCode(lens) && IsTable(lens, table)
      modifies this
      ensures Valid()
      ensures r < 0 ==> NoSymbol(lens, old(Remaining())) && Remaining() == old(Remaining())
      ensures r >= 0 ==> r < SYMBOLS && Leads(lens, r, old(Remaining())) && Remaining() == old(Remaining())[lens[r]..]
    {
      Refill();
      var at := Index();
      IndexIsWindow();
      var value := table[at];
      var n := value % 16;
      ghost var symbol, length := Lookup(lens, table, at, Remaining());
      if n == 0 || n > held {
        assert n == 0 || n > |Remaining()|;
        return -1;
      }
      Consume(n);
      r := value / 16;
    }

    /** One or two symbols, written four positions apart; or -1, in which case what remains of the lane
        does not start with two symbols. */
    method Pair(pairs: seq<nat>, out: array<Byte>, pos: nat, ghost lens: seq<nat>)
      returns (status: int, pos': nat, ghost read: seq<Byte>)
      requires Valid() && IsCode(lens) && IsPairTable(lens, pairs) && 2 * pos + 9 < out.Length
      modifies this, out
      ensures Valid()
      ensures status < 0 ==> NoTwo(lens, old(Remaining())) && out[..] == old(out[..]) && read == []
      ensures old(Remaining()) == Encoded(lens, read) + Remaining() && IsText(lens, read)
      ensures |read| <= 2 && pos' == pos + 4 * |read|
      ensures read == [] ==> out[..] == old(out[..]) && status < 0
      ensures |read| == 1 ==> out[..] == old(out[..])[2 * pos + 1 := read[0]]
      ensures |read| == 2 ==> out[..] == old(out[..])[2 * pos + 1 := read[0]][2 * pos + 9 := read[1]]
    {
      Refill();
      var at := Index();
      IndexIsWindow();
      var entry := pairs[at];
      assert IsPairEntry(lens, entry, at);
      read, pos' := [], pos;
      if Bits(entry) == 0 || Bits(entry) > held {
        PairRefused(lens, entry, at, Remaining());
        return -1, pos', read;
      }
      PairTaken(lens, entry, at, Remaining());
      read := if Two(entry) == 1 then [First(entry), Second(entry)] else [First(entry)];
      ReadFromStream(lens, read, Remaining());
      Consume(Bits(entry));
      out[2 * pos + 1] := First(entry);
      if Two(entry) != 0 {
        out[2 * pos + 9] := Second(entry);
      }
      pos' := pos + 4 * (1 + Two(entry));
      status := 0;
    }
  }

  lemma {:induction false} TakeCode(x: seq<Bit>, b: seq<Bit>)
    requires x <= b
    ensures b == x + b[|x|..]
  {}

  lemma {:induction false} ReadFromStream(lens: seq<nat>, read: seq<Byte>, b: seq<Bit>)
    requires IsCode(lens)
    requires (|read| == 1 && Leads(lens, read[0], b)) || (|read| == 2 && LeadTwo(lens, read[0], read[1], b))
    ensures IsText(lens, read) && |Encoded(lens, read)| <= |b| && b == Encoded(lens, read) + b[|Encoded(lens, read)|..]
    ensures |Encoded(lens, read)| == if |read| == 1 then lens[read[0]] else lens[read[0]] + lens[read[1]]
  {
    EncodedOne(lens, read[0]);
    if |read| == 2 {
      assert read == [read[0]] + [read[1]];
      EncodedPush(lens, [read[0]], read[1]);
      TwoCodes(CodeWord(lens, read[0]), CodeWord(lens, read[1]), b);
    } else {
      assert read == [read[0]];
    }
  }

  lemma {:induction false} TwoCodes(x: seq<Bit>, y: seq<Bit>, b: seq<Bit>)
    requires x <= b && y <= b[|x|..]
    ensures x + y <= b && b == (x + y) + b[|x| + |y|..]
  {
    TakeCode(x, b);
    TakeCode(y, b[|x|..]);
    assert b[|x|..][|y|..] == b[|x| + |y|..];
    assert b == (x + y) + b[|x| + |y|..];
  }
}
