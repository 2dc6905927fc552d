/** The four-stream decoder and its encoder. The high bytes of a 16-bit plane are dealt over four
    independently coded lanes; the decoder reads lanes two symbols at a time while every lane has at
    least two to go, and then one at a time. */
module FourStreams {
  import opened BitStrings
  import opened BytePlanes
  import opened HuffmanCosts
  import opened CodeLengths
  import opened CodeTables
  import opened CodeStreams
  import opened HufReaders

  const LANES := 4

  // ------------------------------------------------------------------ dealing bytes over lanes

  function LaneCount(n: nat, j: nat): nat {
    if j < n then (n - j + 3) / 4 else 0
  }

  /** Every fourth byte from j on. */
  function Lane(high: seq<Byte>, j: nat): (lane: seq<Byte>)
    ensures |lane| == LaneCount(|high|, j)
  {
    seq(LaneCount(|high|, j), k requires 0 <= k < LaneCount(|high|, j) => high[j + 4 * k])
  }

  lemma {:induction false} LanesDetermine(a: seq<Byte>, b: seq<Byte>)
    requires |a| == |b| && forall j :: 0 <= j < LANES ==> Lane(a, j) == Lane(b, j)
    ensures a == b
  {
    forall i | 0 <= i < |a|
      ensures a[i] == b[i]
    {
      assert Lane(a, i % 4)[i / 4] == Lane(b, i % 4)[i / 4];
    }
  }

  /** The lanes hold these high bytes, each followed by less than a byte of zero bits. */
  ghost predicate Holds(lens: seq<nat>, src: seq<seq<Byte>>, high: seq<Byte>)
    requires IsLengths(lens)
  {
    |src| == LANES && forall j :: 0 <= j < LANES ==> IsLane(lens, src[j], Lane(high, j))
  }

  lemma {:induction false} HoldsOne(lens: seq<nat>, src: seq<seq<Byte>>, a: seq<Byte>, b: seq<Byte>)
    requires IsCode(lens) && |a| == |b| && Holds(lens, src, a) && Holds(lens, src, b)
    ensures a == b
  {
    forall j | 0 <= j < LANES
      ensures Lane(a, j) == Lane(b, j)
    {
      LaneIsUnique(lens, src[j], Lane(a, j), Lane(b, j));
    }
    LanesDetermine(a, b);
  }

  // ------------------------------------------------------------------ one lane in progress

  /** The bytes of lane j written so far. */
  ghost predicate Shows(o: seq<Byte>, j: nat, done: seq<Byte>) {
    |done| <= LaneCount(|o| / 2, j) && forall k :: 0 <= k < |done| ==> ShownAt(o, j, k, done[k])
  }

  ghost predicate ShownAt(o: seq<Byte>, j: nat, k: nat, b: Byte) {
    2 * (j + 4 * k) + 1 < |o| && o[2 * (j + 4 * k) + 1] == b
  }

  ghost predicate OnlyLane(o: seq<Byte>, o': seq<Byte>, j: nat) {
    |o| == |o'| && forall i :: 0 <= i < |o| && !(i % 2 == 1 && i / 2 % 4 == j) ==> o'[i] == o[i]
  }

  lemma {:induction false} ShowsOtherLane(o: seq<Byte>, o': seq<Byte>, j: nat, k: nat, done: seq<Byte>)
    requires Shows(o, k, done) && OnlyLane(o, o', j) && j < LANES && k < LANES && j != k
    ensures Shows(o', k, done)
  {
    forall i | 0 <= i < |done|
      ensures ShownAt(o', k, i, done[i])
    {
      assert ShownAt(o, k, i, done[i]);
      var at := 2 * (k + 4 * i) + 1;
      assert at / 2 % 4 == k;
    }
  }

  /** rest is what remains of the lane after the symbols done, which are in the output. */
  ghost predicate LaneRead(lens: seq<nat>, src: seq<Byte>, rest: seq<Bit>, o: seq<Byte>, j: nat, done: seq<Byte>,
                           pos: nat)
    requires IsLengths(lens)
  {
    && IsText(lens, done) && pos == j + 4 * |done| && Shows(o, j, done)
    && BitsOfBytes(src) == Encoded(lens, done) + rest
  }

  ghost predicate LaneAt(reader: HufReader, lens: seq<nat>, o: seq<Byte>, j: nat, done: seq<Byte>, pos: nat)
    requires IsLengths(lens)
    reads reader
  {
    reader.Valid() && LaneRead(lens, reader.src, reader.Remaining(), o, j, done, pos)
  }

  lemma {:induction false} ReadMore(lens: seq<nat>, src: seq<Byte>, b: seq<Bit>, o: seq<Byte>, j: nat, done: seq<Byte>,
                                    pos: nat, read: seq<Byte>, rest: seq<Bit>, o': seq<Byte>)
    requires IsLengths(lens) && LaneRead(lens, src, b, o, j, done, pos)
    requires IsText(lens, read) && b == Encoded(lens, read) + rest && Shows(o', j, done + read)
    ensures LaneRead(lens, src, rest, o', j, done + read, pos + 4 * |read|)
  {
    EncodedConcat(lens, done, read);
    TextConcat(lens, done, read);
  }

  lemma {:induction false} TextConcat(lens: seq<nat>, s: seq<Byte>, t: seq<Byte>)
    requires IsText(lens, s) && IsText(lens, t)
    ensures IsText(lens, s + t)
  {}

  lemma {:induction false} ShowOne(o: seq<Byte>, j: nat, done: seq<Byte>, b: Byte)
    requires j < LANES && Shows(o, j, done) && j + 4 * |done| < |o| / 2
    ensures var o' := o[2 * (j + 4 * |done|) + 1 := b]; Shows(o', j, done + [b]) && OnlyLane(o, o', j)
  {
    var at := 2 * (j + 4 * |done|) + 1;
    var o' := o[at := b];
    assert at % 2 == 1 && at / 2 % 4 == j;
    var more := done + [b];
    forall k | 0 <= k < |more|
      ensures ShownAt(o', j, k, more[k])
    {
      if k < |done| {
        assert ShownAt(o, j, k, done[k]);
      }
    }
  }

  lemma {:induction false} OnlyLaneTwice(o: seq<Byte>, o1: seq<Byte>, o2: seq<Byte>, j: nat)
    requires OnlyLane(o, o1, j) && OnlyLane(o1, o2, j)
    ensures OnlyLane(o, o2, j)
  {}

  lemma {:induction false} ShowTwo(o: seq<Byte>, j: nat, done: seq<Byte>, a: Byte, b: Byte)
    requires j < LANES && Shows(o, j, done) && j + 4 * |done| + 4 < |o| / 2
    ensures var at := 2 * (j + 4 * |done|) + 1;
            var o' := o[at := a][at + 8 := b];
            Shows(o', j, done + [a, b]) && OnlyLane(o, o', j)
  {
    var at := 2 * (j + 4 * |done|) + 1;
    ShowOne(o, j, done, a);
    var o1 := o[at := a];
    ShowOne(o1, j, done + [a], b);
    assert done + [a] + [b] == done + [a, b];
    OnlyLaneTwice(o, o1, o1[at + 8 := b], j);
  }

  // ------------------------------------------------------------------ refusing a lane

  /** No text of this many symbols is what the lane holds. */
  ghost predicate Rejects(lens: seq<nat>, bytes: seq<Byte>, count: nat)
    requires IsLengths(lens)
  {
    forall t: seq<Byte> :: |t| == count ==> !IsLane(lens, bytes, t)
  }

  lemma {:induction false} LaneContinues(lens: seq<nat>, src: seq<Byte>, done: seq<Byte>, rest: seq<Bit>, t: seq<Byte>)
    returns (pad: nat)
    requires IsCode(lens) && IsText(lens, done) && BitsOfBytes(src) == Encoded(lens, done) + rest
    requires |done| <= |t| && IsLane(lens, src, t)
    ensures pad < 8 && t[..|done|] == done && rest == Encoded(lens, t[|done|..]) + Zeros(pad)
  {
    pad :| 0 <= pad < 8 && IsPadded(lens, src, t, pad);
    ReadIsPrefix(lens, done, rest, t, Zeros(pad));
  }

  lemma {:induction false} NextLeads(lens: seq<nat>, text: seq<Byte>, rest: seq<Bit>)
    requires IsLengths(lens) && IsText(lens, text) && text != []
    ensures var b := Encoded(lens, text) + rest;
            Leads(lens, text[0], b) && b[lens[text[0]]..] == Encoded(lens, text[1..]) + rest
  {
    var b := Encoded(lens, text) + rest;
    assert b == CodeWord(lens, text[0]) + (Encoded(lens, text[1..]) + rest);
  }

  lemma {:induction false} SymbolRejects(lens: seq<nat>, src: seq<Byte>, done: seq<Byte>, rest: seq<Bit>, count: nat)
    requires IsCode(lens) && IsText(lens, done) && BitsOfBytes(src) == Encoded(lens, done) + rest
    requires NoSymbol(lens, rest) && |done| < count
    ensures Rejects(lens, src, count)
  {
    forall t: seq<Byte> | |t| == count
      ensures !IsLane(lens, src, t)
    {
      if IsLane(lens, src, t) {
        var pad := LaneContinues(lens, src, done, rest, t);
        NextLeads(lens, t[|done|..], Zeros(pad));
        assert false;
      }
    }
  }

  lemma {:induction false} PairRejects(lens: seq<nat>, src: seq<Byte>, done: seq<Byte>, rest: seq<Bit>, count: nat)
    requires IsCode(lens) && IsText(lens, done) && BitsOfBytes(src) == Encoded(lens, done) + rest
    requires NoTwo(lens, rest) && |done| + 1 < count
    ensures Rejects(lens, src, count)
  {
    forall t: seq<Byte> | |t| == count
      ensures !IsLane(lens, src, t)
    {
      if IsLane(lens, src, t) {
        var pad := LaneContinues(lens, src, done, rest, t);
        var more := t[|done|..];
        NextLeads(lens, more, Zeros(pad));
        NextLeads(lens, more[1..], Zeros(pad));
        assert LeadTwo(lens, more[0], more[1], rest);
        assert false;
      }
    }
  }

  /** Once every symbol is read, the lane is accepted exactly for less than a byte of zero bits. */
  ghost predicate OnlyPadding(rest: seq<Bit>) {
    |rest| < 8 && rest == Zeros(|rest|)
  }

  lemma {:induction false} PaddingDecides(lens: seq<nat>, src: seq<Byte>, done: seq<Byte>, rest: seq<Bit>)
    requires IsCode(lens) && IsText(lens, done) && BitsOfBytes(src) == Encoded(lens, done) + rest
    ensures OnlyPadding(rest) ==> IsLane(lens, src, done)
    ensures !OnlyPadding(rest) ==> Rejects(lens, src, |done|)
  {
    if OnlyPadding(rest) {
      assert IsPadded(lens, src, done, |rest|);
    } else {
      forall t: seq<Byte> | |t| == |done|
        ensures !IsLane(lens, src, t)
      {
        if IsLane(lens, src, t) {
          var pad := LaneContinues(lens, src, done, rest, t);
          assert false;
        }
      }
    }
  }

  // ------------------------------------------------------------------ lane steps

  /** One table lookup on one lane that has at least two symbols to go. */
  method LanePair(reader: HufReader, pairs: seq<nat>, out: array<Byte>, j: nat, pos: nat, ghost lens: seq<nat>,
                  ghost done: seq<Byte>)
    returns (status: int, pos': nat, ghost done': seq<Byte>)
    requires IsCode(lens) && IsPairTable(lens, pairs) && j < LANES
    requires LaneAt(reader, lens, out[..], j, done, pos) && pos + 4 < out.Length / 2
    modifies reader, out
    ensures OnlyLane(old(out[..]), out[..], j)
    ensures LaneAt(reader, lens, out[..], j, done', pos') && pos' >= pos
    ensures status >= 0 ==> pos' > pos
    ensures status < 0 ==> Rejects(lens, reader.src, LaneCount(out.Length / 2, j))
  {
    ghost var read;
    ghost var o, b := out[..], reader.Remaining();
    status, pos', read := reader.Pair(pairs, out, pos, lens);
    done' := done + read;
    if status < 0 {
      PairRejects(lens, reader.src, done, b, LaneCount(out.Length / 2, j));
    }
    ShowRead(o, out[..], j, done, read);
    ReadMore(lens, reader.src, b, o, j, done, pos, read, reader.Remaining(), out[..]);
  }

  lemma {:induction false} ShowRead(o: seq<Byte>, o': seq<Byte>, j: nat, done: seq<Byte>, read: seq<Byte>)
    requires j < LANES && Shows(o, j, done) && j + 4 * |done| + 4 < |o| / 2 && |read| <= 2
    requires var at := 2 * (j + 4 * |done|) + 1;
             o' == if |read| == 0 then o else if |read| == 1
                 then o[at := read[0]] else o[at := read[0]][at + 8 := read[1]]
    ensures Shows(o', j, done + read) && OnlyLane(o, o', j)
  {
    if |read| == 0 {
      assert done + read == done;
    } else if |read| == 1 {
      ShowOne(o, j, done, read[0]);
      assert read == [read[0]];
    } else {
      ShowTwo(o, j, done, read[0], read[1]);
      assert read == [read[0], read[1]];
    }
  }

  /** The rest of one lane, a symbol at a time. */
  method FinishLane(reader: HufReader, table: seq<nat>, out: array<Byte>, j: nat, pos: nat, ghost lens: seq<nat>,
                    ghost done: seq<Byte>)
    returns (status: int, ghost done': seq<Byte>)
    requires IsCode(lens) && IsTable(lens, table) && j < LANES
    requires LaneAt(reader, lens, out[..], j, done, pos)
    modifies reader, out
    ensures reader.Valid() && OnlyLane(old(out[..]), out[..], j)
    ensures status >= 0 ==>
              LaneAt(reader, lens, out[..], j, done', j + 4 * |done'|) && |done'| == LaneCount(out.Length / 2, j)
    ensures status < 0 ==> Rejects(lens, reader.src, LaneCount(out.Length / 2, j))
  {
    done' := done;
    var i := pos;
    while i < out.Length / 2
      invariant LaneAt(reader, lens, out[..], j, done', i) && OnlyLane(old(out[..]), out[..], j)
    {
      status, done' := LaneSymbol(reader, table, out, j, i, lens, done');
      if status < 0 {
        return;
      }
      i := i + 4;
    }
    status := 0;
  }

  method LaneSymbol(reader: HufReader, table: seq<nat>, out: array<Byte>, j: nat, i: nat, ghost lens: seq<nat>,
                    ghost done: seq<Byte>)
    returns (status: int, ghost done': seq<Byte>)
    requires IsCode(lens) && IsTable(lens, table) && j < LANES && i < out.Length / 2
    requires LaneAt(reader, lens, out[..], j, done, i)
    modifies reader, out
    ensures reader.Valid() && OnlyLane(old(out[..]), out[..], j)
    ensures status >= 0 ==> LaneAt(reader, lens, out[..], j, done', i + 4)
    ensures status < 0 ==> Rejects(lens, reader.src, LaneCount(out.Length / 2, j))
  {
    ghost var o, b := out[..], reader.Remaining();
    status := reader.Symbol(table, lens);
    done' := done;
    if status < 0 {
      SymbolRejects(lens, reader.src, done, b, LaneCount(out.Length / 2, j));
    } else {
      ReadFromStream(lens, [status], b);
      ShowOne(o, j, done, status);
      out[2 * i + 1] := status;
      done' := done + [status];
      ReadMore(lens, reader.src, b, o, j, done, i, [status], reader.Remaining(), out[..]);
    }
  }

  /** Nothing left but less than a byte of zero bits. */
  method AtPadding(reader: HufReader) returns (ok: bool)
    requires reader.Valid()
    ensures ok <==> OnlyPadding(reader.Remaining())
  {
    ok := reader.p == |reader.src| && reader.held <= 7 && reader.bits % Pow2(reader.held) == 0;
    PaddingBits(reader.bits, reader.held);
    if reader.p == |reader.src| {
      assert BitsOfBytes(reader.src[reader.p..]) == [];
    }
  }

  lemma {:induction false} PaddingBits(bits: nat, held: nat)
    ensures bits % Pow2(held) == 0 <==> BitsOf(bits, held) == Zeros(held)
  {
    MaskedBits(bits, held);
    BitsOfZero(held);
    if BitsOf(bits, held) == Zeros(held) {
      BitsOfInjective(bits % Pow2(held), 0, held);
    }
  }

  // ------------------------------------------------------------------ the decoder

  ghost predicate Readers(r: seq<HufReader>, src: seq<seq<Byte>>) {
    && |r| == |src| == LANES
    && (forall j :: 0 <= j < LANES ==> r[j].src == src[j])
    && forall j, k :: 0 <= j < k < LANES ==> r[j] != r[k]
  }

  ghost predicate LanesAt(r: seq<HufReader>, lens: seq<nat>, o: seq<Byte>, done: seq<seq<Byte>>, p: seq<nat>)
    requires IsLengths(lens) && |r| == LANES
    reads r
  {
    |done| == |p| == LANES && forall j :: 0 <= j < LANES ==> LaneAt(r[j], lens, o, j, done[j], p[j])
  }

  ghost predicate SomeRejects(lens: seq<nat>, src: seq<seq<Byte>>, n: nat)
    requires IsLengths(lens)
  {
    |src| == LANES && exists j :: 0 <= j < LANES && Rejects(lens, src[j], LaneCount(n / 2, j))
  }

  lemma {:induction false} RejectedHoldsNothing(lens: seq<nat>, src: seq<seq<Byte>>, n: nat, high: seq<Byte>)
    requires IsLengths(lens) && SomeRejects(lens, src, n) && |high| == n / 2
    ensures !Holds(lens, src, high)
  {
    var j :| 0 <= j < LANES && Rejects(lens, src[j], LaneCount(n / 2, j));
    assert !IsLane(lens, src[j], Lane(high, j));
  }

  lemma {:induction false} NothingHeld(lens: seq<nat>, src: seq<seq<Byte>>, n: nat)
    requires IsLengths(lens) && SomeRejects(lens, src, n)
    ensures forall high: seq<Byte> :: |high| == n / 2 ==> !Holds(lens, src, high)
  {
    forall high: seq<Byte> | |high| == n / 2
      ensures !Holds(lens, src, high)
    {
      RejectedHoldsNothing(lens, src, n, high);
    }
  }

  lemma {:induction false} ShownLane(o: seq<Byte>, j: nat, done: seq<Byte>)
    requires Shows(o, j, done) && |done| == LaneCount(|o| / 2, j)
    ensures Lane(Odd(o), j) == done
  {
    forall k | 0 <= k < |done|
      ensures Lane(Odd(o), j)[k] == done[k]
    {
      assert ShownAt(o, j, k, done[k]);
    }
  }

  lemma {:induction false} OtherKept(lens: seq<nat>, src: seq<Byte>, rest: seq<Bit>, o: seq<Byte>, o': seq<Byte>,
                                     j: nat, k: nat, done: seq<Byte>, pos: nat)
    requires IsLengths(lens) && OnlyLane(o, o', j) && j < LANES && k < LANES && k != j
    requires LaneRead(lens, src, rest, o, k, done, pos)
    ensures LaneRead(lens, src, rest, o', k, done, pos)
  {
    ShowsOtherLane(o, o', j, k, done);
  }

  /** The lanes from j on have at least two symbols to go. */
  ghost predicate RoomFrom(p: seq<nat>, j: nat, symbols: nat) {
    |p| == LANES && forall k :: j <= k < LANES ==> p[k] + 4 < symbols
  }

  /** One lookup on lane j; the other lanes stay where they are. */
  method PairOn(r: seq<HufReader>, pairs: seq<nat>, out: array<Byte>, p: seq<nat>, j: nat, ghost src: seq<seq<Byte>>,
                ghost lens: seq<nat>, ghost done: seq<seq<Byte>>)
    returns (status: int, p': seq<nat>, ghost done': seq<seq<Byte>>)
    requires IsCode(lens) && IsPairTable(lens, pairs) && Readers(r, src) && j < LANES
    requires LanesAt(r, lens, out[..], done, p) && RoomFrom(p, j, out.Length / 2)
    modifies r, out
    ensures LanesAt(r, lens, out[..], done', p')
    ensures RoomFrom(p', j + 1, out.Length / 2)
    ensures p'[0] >= p[0] && (j == 0 && status >= 0 ==> p'[0] > p[0])
    ensures status < 0 ==> SomeRejects(lens, src, out.Length)
  {
    ghost var o := out[..];
    ghost var next;
    var pos;
    status, pos, next := LanePair(r[j], pairs, out, j, p[j], lens, done[j]);
    p', done' := p[j := pos], done[j := next];
    forall k | 0 <= k < LANES && k != j
      ensures LaneAt(r[k], lens, out[..], k, done[k], p[k])
    {
      OtherKept(lens, r[k].src, r[k].Remaining(), o, out[..], j, k, done[k], p[k]);
    }
  }

  /** Every lane has at least two symbols to go. */
  predicate TwoToGo(p: seq<nat>, symbols: nat) {
    |p| == LANES && p[0] + 4 < symbols && p[1] + 4 < symbols && p[2] + 4 < symbols && p[3] + 4 < symbols
  }

  /** Two lanes in turn. */
  method TwoPairs(r: seq<HufReader>, pairs: seq<nat>, out: array<Byte>, p: seq<nat>, j: nat, ghost src: seq<seq<Byte>>,
                  ghost lens: seq<nat>, ghost done: seq<seq<Byte>>)
    returns (a: int, b: int, p': seq<nat>, ghost done': seq<seq<Byte>>)
    requires IsCode(lens) && IsPairTable(lens, pairs) && Readers(r, src) && j + 1 < LANES
    requires LanesAt(r, lens, out[..], done, p) && RoomFrom(p, j, out.Length / 2)
    modifies r, out
    ensures LanesAt(r, lens, out[..], done', p')
    ensures RoomFrom(p', j + 2, out.Length / 2)
    ensures p'[0] >= p[0] && (j == 0 && a >= 0 ==> p'[0] > p[0])
    ensures a < 0 || b < 0 ==> SomeRejects(lens, src, out.Length)
  {
    a, p', done' := PairOn(r, pairs, out, p, j, src, lens, done);
    b, p', done' := PairOn(r, pairs, out, p', j + 1, src, lens, done');
  }

  lemma {:induction false} RoomOnAll(p: seq<nat>, symbols: nat)
    requires TwoToGo(p, symbols)
    ensures RoomFrom(p, 0, symbols)
  {
    forall k | 0 <= k < LANES
      ensures p[k] + 4 < symbols
    {
      assert k == 0 || k == 1 || k == 2 || k == 3;
    }
  }

  /** One lookup on each lane. */
  method FourPairs(r: seq<HufReader>, pairs: seq<nat>, out: array<Byte>, p: seq<nat>, ghost src: seq<seq<Byte>>,
                   ghost lens: seq<nat>, ghost done: seq<seq<Byte>>)
    returns (status: int, p': seq<nat>, ghost done': seq<seq<Byte>>)
    requires IsCode(lens) && IsPairTable(lens, pairs) && Readers(r, src)
    requires LanesAt(r, lens, out[..], done, p) && TwoToGo(p, out.Length / 2)
    modifies r, out
    ensures LanesAt(r, lens, out[..], done', p')
    ensures status >= 0 ==> p'[0] > p[0]
    ensures status < 0 ==> SomeRejects(lens, src, out.Length)
  {
    RoomOnAll(p, out.Length / 2);
    var a, b, c, d;
    a, b, p', done' := TwoPairs(r, pairs, out, p, 0, src, lens, done);
    c, d, p', done' := TwoPairs(r, pairs, out, p', 2, src, lens, done');
    status := if a < 0 || b < 0 || c < 0 || d < 0 then -1 else 0;
  }

  /** Finish lane j; the other lanes stay where they are. */
  method FinishOn(r: seq<HufReader>, table: seq<nat>, out: array<Byte>, ghost p: seq<nat>, i: nat, j: nat,
                  ghost src: seq<seq<Byte>>, ghost lens: seq<nat>, ghost done: seq<seq<Byte>>)
    returns (status: int, ghost p': seq<nat>, ghost done': seq<seq<Byte>>)
    requires IsCode(lens) && IsTable(lens, table) && Readers(r, src) && j < LANES
    requires LanesAt(r, lens, out[..], done, p) && p[j] == i
    modifies r, out
    ensures status >= 0 ==>
              LanesAt(r, lens, out[..], done', p') && |p| == LANES && p' == p[j := p'[j]]
              && done' == done[j := done'[j]]
    ensures status >= 0 ==> |done'[j]| == LaneCount(out.Length / 2, j)
    ensures status < 0 ==> SomeRejects(lens, src, out.Length)
  {
    ghost var o := out[..];
    ghost var next;
    status, next := FinishLane(r[j], table, out, j, i, lens, done[j]);
    p', done' := p[j := j + 4 * |next|], done[j := next];
    forall k | 0 <= k < LANES && k != j
      ensures LaneAt(r[k], lens, out[..], k, done[k], p[k])
    {
      OtherKept(lens, r[k].src, r[k].Remaining(), o, out[..], j, k, done[k], p[k]);
    }
  }

  ghost predicate Finished(done: seq<seq<Byte>>, symbols: nat, j: nat) {
    |done| == LANES && j <= LANES && forall k :: 0 <= k < j ==> |done[k]| == LaneCount(symbols, k)
  }

  /** The symbols left on each lane, a lane at a time. */
  method FinishLanes(r: seq<HufReader>, table: seq<nat>, out: array<Byte>, p: seq<nat>, ghost src: seq<seq<Byte>>,
                     ghost lens: seq<nat>, ghost done: seq<seq<Byte>>)
    returns (status: int, ghost p': seq<nat>, ghost done': seq<seq<Byte>>)
    requires IsCode(lens) && IsTable(lens, table) && Readers(r, src)
    requires LanesAt(r, lens, out[..], done, p)
    modifies r, out
    ensures status >= 0 ==> LanesAt(r, lens, out[..], done', p') && Finished(done', out.Length / 2, LANES)
    ensures status < 0 ==> SomeRejects(lens, src, out.Length)
  {
    p', done' := p, done;
    for j := 0 to LANES
      invariant LanesAt(r, lens, out[..], done', p') && Finished(done', out.Length / 2, j)
      invariant forall k :: j <= k < LANES ==> p'[k] == p[k]
    {
      status, p', done' := FinishOn(r, table, out, p', p[j], j, src, lens, done');
      if status < 0 {
        return;
      }
    }
    status := 0;
  }

  lemma {:induction false} FinishedLane(lens: seq<nat>, src: seq<Byte>, rest: seq<Bit>, o: seq<Byte>, j: nat,
                                        done: seq<Byte>, pos: nat)
    requires IsCode(lens) && LaneRead(lens, src, rest, o, j, done, pos) && |done| == LaneCount(|o| / 2, j)
    ensures OnlyPadding(rest) ==> IsLane(lens, src, Lane(Odd(o), j))
    ensures !OnlyPadding(rest) ==> Rejects(lens, src, LaneCount(|o| / 2, j))
  {
    PaddingDecides(lens, src, done, rest);
    ShownLane(o, j, done);
  }

  /** The last check: every lane is at its padding. */
  method AllAtPadding(r: seq<HufReader>, ghost src: seq<seq<Byte>>, ghost o: seq<Byte>, ghost p: seq<nat>,
                      ghost lens: seq<nat>, ghost done: seq<seq<Byte>>)
    returns (status: int)
    requires IsCode(lens) && Readers(r, src) && LanesAt(r, lens, o, done, p) && Finished(done, |o| / 2, LANES)
    ensures status >= 0 ==> Holds(lens, src, Odd(o))
    ensures status < 0 ==> SomeRejects(lens, src, |o|)
  {
    for j := 0 to LANES
      invariant forall k :: 0 <= k < j ==> IsLane(lens, src[k], Lane(Odd(o), k))
    {
      assert LaneAt(r[j], lens, o, j, done[j], p[j]);
      var ok := AtPadding(r[j]);
      FinishedLane(lens, src[j], r[j].Remaining(), o, j, done[j], p[j]);
      if !ok {
        return -1;
      }
    }
    status := 0;
  }

  /** The low bytes, at the even offsets. */
  method FillLow(out: array<Byte>, low: seq<Byte>)
    requires |low| >= (out.Length + 1) / 2
    modifies out
    ensures Odd(out[..]) == old(Odd(out[..])) && Even(out[..]) == low[..(out.Length + 1) / 2]
  {
    for i := 0 to (out.Length + 1) / 2
      invariant forall k :: 0 <= k < out.Length && k % 2 == 1 ==> out[k] == old(out[k])
      invariant forall k :: 0 <= k < i ==> out[2 * k] == low[k]
    {
      out[2 * i] := low[i];
    }
  }

  /** Decode four lanes and the plain low bytes into out. Status 0 means that the lanes hold exactly
      the high bytes written, with nothing after them but the padding of the last byte. */
  method Decode(table: seq<nat>, pairs: seq<nat>, src: seq<seq<Byte>>, low: seq<Byte>, out: array<Byte>,
                ghost lens: seq<nat>)
    returns (status: int)
    requires IsCode(lens) && IsTable(lens, table) && IsPairTable(lens, pairs)
    requires |src| == LANES && |low| >= (out.Length + 1) / 2
    modifies out
    ensures status == 0 || status == -1
    ensures status == 0 <==> exists high: seq<Byte> :: |high| == out.Length / 2 && Holds(lens, src, high)
    ensures status == 0 ==> Holds(lens, src, Odd(out[..])) && Even(out[..]) == low[..(out.Length + 1) / 2]
  {
    status := DecodeLanes(table, pairs, src, low, out, lens);
    if status < 0 {
      NothingHeld(lens, src, out.Length);
    }
  }

  method NewReader(lane: seq<Byte>, j: nat, ghost lens: seq<nat>, ghost o: seq<Byte>) returns (reader: HufReader)
    requires IsLengths(lens)
    ensures fresh(reader) && reader.src == lane && LaneAt(reader, lens, o, j, [], j)
  {
    reader := new HufReader(lane);
  }

  method NewReaders(src: seq<seq<Byte>>, ghost lens: seq<nat>, ghost o: seq<Byte>)
    returns (r: seq<HufReader>, p: seq<nat>, ghost done: seq<seq<Byte>>)
    requires |src| == LANES && IsLengths(lens)
    ensures Readers(r, src) && fresh(r) && LanesAt(r, lens, o, done, p)
  {
    r, p, done := [], [], [];
    for j := 0 to LANES
      invariant |r| == |p| == |done| == j && fresh(r)
      invariant forall k :: 0 <= k < j ==> r[k].src == src[k] && LaneAt(r[k], lens, o, k, done[k], p[k])
      invariant forall i, k :: 0 <= i < k < j ==> r[i] != r[k]
    {
      var reader := NewReader(src[j], j, lens, o);
      r, p, done := r + [reader], p + [j], done + [[]];
    }
  }

  method DecodeLanes(table: seq<nat>, pairs: seq<nat>, src: seq<seq<Byte>>, low: seq<Byte>, out: array<Byte>,
                     ghost lens: seq<nat>)
    returns (status: int)
    requires IsCode(lens) && IsTable(lens, table) && IsPairTable(lens, pairs)
    requires |src| == LANES && |low| >= (out.Length + 1) / 2
    modifies out
    ensures status == 0 || status == -1
    ensures status == 0 ==> Holds(lens, src, Odd(out[..])) && Even(out[..]) == low[..(out.Length + 1) / 2]
    ensures status == -1 ==> SomeRejects(lens, src, out.Length)
  {
    ghost var last, done;
    var r;
    status, r, last, done := ReadLanes(table, pairs, src, out, lens);
    if status == 0 {
      status := FinishDecode(r, src, low, out, lens, last, done);
    }
  }

  /** What follows the high bytes: the low bytes, and the padding of every lane. */
  method FinishDecode(r: seq<HufReader>, ghost src: seq<seq<Byte>>, low: seq<Byte>, out: array<Byte>,
                      ghost lens: seq<nat>, ghost last: seq<nat>, ghost done: seq<seq<Byte>>)
    returns (status: int)
    requires IsCode(lens) && Readers(r, src) && LanesAt(r, lens, out[..], done, last)
    requires Finished(done, out.Length / 2, LANES) && |low| >= (out.Length + 1) / 2
    modifies out
    ensures status == 0 || status == -1
    ensures status == 0 ==> Holds(lens, src, Odd(out[..])) && Even(out[..]) == low[..(out.Length + 1) / 2]
    ensures status == -1 ==> SomeRejects(lens, src, out.Length)
  {
    ghost var o := out[..];
    FillLow(out, low);
    status := AllAtPadding(r, src, o, last, lens, done);
    status := if status < 0 then -1 else 0;
  }

  /** Every high byte from the lanes: in pairs while all lanes have two to go, then one at a time. */
  method ReadLanes(table: seq<nat>, pairs: seq<nat>, src: seq<seq<Byte>>, out: array<Byte>, ghost lens: seq<nat>)
    returns (status: int, r: seq<HufReader>, ghost last: seq<nat>, ghost done: seq<seq<Byte>>)
    requires IsCode(lens) && IsTable(lens, table) && IsPairTable(lens, pairs) && |src| == LANES
    modifies out
    ensures status == 0 || status == -1
    ensures status == 0 ==> Readers(r, src) && fresh(r)
    ensures status == 0 ==> LanesAt(r, lens, out[..], done, last) && Finished(done, out.Length / 2, LANES)
    ensures status == -1 ==> SomeRejects(lens, src, out.Length)
  {
    var p;
    r, p, done := NewReaders(src, lens, out[..]);
    last := p;
    while TwoToGo(p, out.Length / 2)
      invariant LanesAt(r, lens, out[..], done, p)
      decreases out.Length / 2 - p[0]
    {
      status, p, done := FourPairs(r, pairs, out, p, src, lens, done);
      if status < 0 {
        return -1, r, last, done;
      }
    }
    status, last, done := FinishLanes(r, table, out, p, src, lens, done);
    status := if status < 0 then -1 else 0;
  }

  // ------------------------------------------------------------------ decoding by single symbols

  /** The plain decoder: every lane from its first symbol to its last by single lookups, without pairs. */
  method DecodeBySymbols(table: seq<nat>, src: seq<seq<Byte>>, low: seq<Byte>, out: array<Byte>, ghost lens: seq<nat>)
    returns (status: int)
    requires IsCode(lens) && IsTable(lens, table)
    requires |src| == LANES && |low| >= (out.Length + 1) / 2
    modifies out
    ensures status == 0 || status == -1
    ensures status == 0 <==> exists high: seq<Byte> :: |high| == out.Length / 2 && Holds(lens, src, high)
    ensures status == 0 ==> Holds(lens, src, Odd(out[..])) && Even(out[..]) == low[..(out.Length + 1) / 2]
  {
    status := SymbolLanes(table, src, low, out, lens);
    if status < 0 {
      NothingHeld(lens, src, out.Length);
    }
  }

  method SymbolLanes(table: seq<nat>, src: seq<seq<Byte>>, low: seq<Byte>, out: array<Byte>, ghost lens: seq<nat>)
    returns (status: int)
    requires IsCode(lens) && IsTable(lens, table)
    requires |src| == LANES && |low| >= (out.Length + 1) / 2
    modifies out
    ensures status == 0 || status == -1
    ensures status == 0 ==> Holds(lens, src, Odd(out[..])) && Even(out[..]) == low[..(out.Length + 1) / 2]
    ensures status == -1 ==> SomeRejects(lens, src, out.Length)
  {
    ghost var done, last;
    var r, p;
    r, p, done := NewReaders(src, lens, out[..]);
    status, last, done := FinishLanes(r, table, out, p, src, lens, done);
    if status < 0 {
      return -1;
    }
    status := FinishDecode(r, src, low, out, lens, last, done);
  }

  /** On every input, damaged or not, both decoders accept or both refuse, and what both accept they
      decode to the same bytes. */
  method DecodeBothWays(table: seq<nat>, pairs: seq<nat>, src: seq<seq<Byte>>, low: seq<Byte>, n: nat,
                        ghost lens: seq<nat>)
    returns (pairStatus: int, symbolStatus: int, byPairs: seq<Byte>, bySymbols: seq<Byte>)
    requires IsCode(lens) && IsTable(lens, table) && IsPairTable(lens, pairs)
    requires |src| == LANES && |low| >= (n + 1) / 2
    ensures pairStatus == symbolStatus && |byPairs| == |bySymbols| == n
    ensures pairStatus == 0 ==> byPairs == bySymbols
    ensures pairStatus == 0 <==> exists high: seq<Byte> :: |high| == n / 2 && Holds(lens, src, high)
  {
    var a, b := new Byte[n], new Byte[n];
    pairStatus := Decode(table, pairs, src, low, a, lens);
    symbolStatus := DecodeBySymbols(table, src, low, b, lens);
    byPairs, bySymbols := a[..], b[..];
    if pairStatus == 0 {
      HoldsOne(lens, src, Odd(byPairs), Odd(bySymbols));
      OddEvenDetermine(byPairs, bySymbols);
    }
  }

  // ------------------------------------------------------------------ the encoder and the round trip

  datatype Stream = Stream(size: nat, lens: seq<nat>, one: seq<Byte>, lanes: seq<seq<Byte>>, low: seq<Byte>)

  lemma {:induction false} CodesHaveSpace(raw: seq<Byte>, counts: seq<nat>, floor: nat, lens: seq<nat>)
    requires raw != [] && IsCount(raw, counts) && floor >= 1 && Codes(Raised(counts, floor), lens)
    requires Bounded(lens, MAX_LENGTH)
    ensures IsCode(lens)
  {
    assert multiset(raw)[raw[0]] > 0;
    PositiveHas(Raised(counts, floor), raw[0]);
  }

  /** Code lengths from the high bytes. With no high byte the header still names one code, so that a
      table can be built from it. */
  method HighCodes(high: seq<Byte>) returns (lens: seq<nat>, codes: seq<Code>)
    ensures IsCode(lens) && IsText(lens, high)
    ensures high != [] ==> IsCanonical(lens, codes)
  {
    ghost var counts, floor;
    HeapTopIsPick();
    lens, counts, floor := CodesFor(high, HeapTop);
    codes := AssignCodes(lens);
    if high == [] {
      lens := lens[0 := 1];
      LoneSpace(lens, 0);
    } else {
      CodesHaveSpace(high, counts, floor, lens);
    }
  }

  lemma {:induction false} LaneIsText(lens: seq<nat>, high: seq<Byte>, j: nat)
    requires IsText(lens, high)
    ensures IsText(lens, Lane(high, j))
  {}

  /** Code the high bytes once in a single stream and once over four lanes; keep the low bytes plain. */
  method Encode(raw: seq<Byte>) returns (s: Stream)
    ensures s.size == |raw| && s.low == Even(raw) && IsCode(s.lens)
    ensures IsLane(s.lens, s.one, Odd(raw)) && Holds(s.lens, s.lanes, Odd(raw))
  {
    var high := Odd(raw);
    var lens, codes := HighCodes(high);
    var one := EncodeBits(high, codes, lens);
    var lanes: seq<seq<Byte>> := [];
    for j := 0 to LANES
      invariant |lanes| == j && forall k :: 0 <= k < j ==> IsLane(lens, lanes[k], Lane(high, k))
    {
      LaneIsText(lens, high, j);
      var lane := EncodeBits(Lane(high, j), codes, lens);
      lanes := lanes + [lane];
    }
    s := Stream(|raw|, lens, one, lanes, Even(raw));
  }

  /** What the decoder writes for an encoded buffer is the buffer, of even or odd length. */
  method DecodeStream(s: Stream, ghost raw: seq<Byte>) returns (status: int, out: array<Byte>)
    requires s.size == |raw| && s.low == Even(raw) && IsCode(s.lens) && Holds(s.lens, s.lanes, Odd(raw))
    ensures status == 0 && out[..] == raw
  {
    out := new Byte[s.size];
    var table := new nat[TABLE_SIZE];
    var built := BuildTable(table, s.lens);
    var pairs := new nat[TABLE_SIZE];
    BuildPairs(pairs, table[..], s.lens);
    status := Decode(table[..], pairs[..], s.lanes, s.low, out, s.lens);
    assert |Odd(raw)| == out.Length / 2;
    HoldsOne(s.lens, s.lanes, Odd(out[..]), Odd(raw));
    OddEvenDetermine(out[..], raw);
  }

  /** Encoding and then decoding is the identity. */
  method RoundTrip(raw: seq<Byte>) returns (status: int, out: array<Byte>)
    ensures status == 0 && out[..] == raw
  {
    var s := Encode(raw);
    status, out := DecodeStream(s, raw);
  }
}
