/** Packing: by plan and by whole blocks. Packing succeeds exactly when every frame survives its round
    trip and the output stays within the limit; what it produces is a packed form of the file, and raw
    extents keep their alignment. */
module ArchivePacking {
  import opened Numbers
  import opened BitStrings
  import opened Archives
  import opened ScalePlans

  datatype Limit = Unlimited | AtMost(bytes: nat)

  datatype PackError = OverLimit | NotLossless

  datatype Packed = Failed(error: PackError) | Packed(archive: Archive)

  predicate Exceeds(n: nat, limit: Limit) {
    limit.AtMost? && n > limit.bytes
  }

  /** The codec's output size for something a packer compresses, as the reader checks it. */
  ghost predicate SizeFits(codec: Codec, block: nat, plain: seq<Byte>) {
    |plain| <= block + PREFIX ==> 9 <= |codec.compress(plain)| <= codec.bound(block + PREFIX)
  }

  ghost predicate SizesFit(codec: Codec, block: nat) {
    forall plain :: SizeFits(codec, block, plain)
  }

  predicate RoundTrips(codec: Codec, plain: seq<Byte>) {
    codec.decompress(codec.compress(plain), |plain|) == Plain(plain)
  }

  ghost predicate Survives(codec: Codec, block: nat, plain: seq<Byte>) {
    |plain| <= block + PREFIX ==> RoundTrips(codec, plain)
  }

  /** The codec is lossless on everything a packer compresses. */
  ghost predicate IsLossless(codec: Codec, block: nat) {
    forall plain :: Survives(codec, block, plain)
  }

  /** Everything a packer is given. */
  datatype Job = Job(x: seq<Byte>, block: nat, id: Id, codec: Codec, limit: Limit)

  ghost predicate ValidJob(j: Job) {
    |j.x| <= MAX_SIZE && ValidBlock(j.block) && SizesFit(j.codec, j.block)
  }

  // ------------------------------------------------------------------ outcomes

  /** One frame tried: its compressed size, and whether it survives the round trip. */
  datatype Trial = Trial(stored: nat, survives: bool)

  ghost predicate AllSurvive(trials: seq<Trial>, n: nat) {
    forall i :: 0 <= i < n && i < |trials| ==> trials[i].survives
  }

  lemma {:induction false} SurvivesNext(trials: seq<Trial>, i: nat)
    requires i < |trials| && AllSurvive(trials, i) && trials[i].survives
    ensures AllSurvive(trials, i + 1)
  {}

  /** sizes[n] is how long the output is after n frames. */
  ghost predicate Growing(trials: seq<Trial>, sizes: seq<nat>) {
    |sizes| == |trials| + 1 && forall i, k :: 0 <= i <= k < |sizes| ==> sizes[i] <= sizes[k]
  }

  /** Every frame survives, and the output stays within the limit. */
  ghost predicate Packs(trials: seq<Trial>, sizes: seq<nat>, limit: Limit) {
    |sizes| == |trials| + 1 && AllSurvive(trials, |trials|) && !Exceeds(sizes[|trials|], limit)
  }

  /** Frame i is the first that does not survive, and the output before it is within the limit. */
  ghost predicate FailsLossy(trials: seq<Trial>, sizes: seq<nat>, limit: Limit, i: nat) {
    i < |trials| < |sizes| && !trials[i].survives && AllSurvive(trials, i) && !Exceeds(sizes[i], limit)
  }

  /** The output of n frames exceeds the limit, and they survive. */
  ghost predicate FailsLarge(trials: seq<Trial>, sizes: seq<nat>, limit: Limit, n: nat) {
    n <= |trials| < |sizes| && AllSurvive(trials, n) && Exceeds(sizes[n], limit)
  }

  /** The three outcomes exclude each other. */
  lemma {:induction false} OutcomesDiffer(trials: seq<Trial>, sizes: seq<nat>, limit: Limit, i: nat, n: nat)
    requires Growing(trials, sizes)
    ensures FailsLossy(trials, sizes, limit, i) ==> !Packs(trials, sizes, limit) && !FailsLarge(trials, sizes, limit, n)
    ensures FailsLarge(trials, sizes, limit, n) ==> !Packs(trials, sizes, limit)
  {}

  /** What a packer answers: an archive of the full size, exactly when all frames survive and it is within the
      limit, or else whichever of the two fails first. */
  ghost predicate Outcome(trials: seq<Trial>, sizes: seq<nat>, limit: Limit, r: Packed) {
    && |sizes| == |trials| + 1 && (r.Packed? <==> Packs(trials, sizes, limit))
    && match r
       case Packed(a) => |a.data| == sizes[|trials|]
       case Failed(NotLossless) => exists i: nat :: FailsLossy(trials, sizes, limit, i)
       case Failed(OverLimit) => exists n: nat :: FailsLarge(trials, sizes, limit, n)
  }

  /** Frame i is where packing stops, and this is why. */
  ghost predicate StopsAt(trials: seq<Trial>, sizes: seq<nat>, limit: Limit, i: nat, error: PackError) {
    && i < |trials| && |sizes| == |trials| + 1 && AllSurvive(trials, i) && !Exceeds(sizes[i], limit)
    && (error == NotLossless <==> !trials[i].survives)
    && (error == OverLimit ==> Exceeds(sizes[i + 1], limit))
  }

  lemma {:induction false} Stops(trials: seq<Trial>, sizes: seq<nat>, limit: Limit, i: nat, error: PackError)
    requires Growing(trials, sizes) && StopsAt(trials, sizes, limit, i, error)
    ensures !Packs(trials, sizes, limit)
    ensures if error == NotLossless
            then FailsLossy(trials, sizes, limit, i) else FailsLarge(trials, sizes, limit, i + 1)
  {
    OutcomesDiffer(trials, sizes, limit, i, i + 1);
  }

  /** What the codec is given for a frame. */
  function PlainOf(j: Job, i: nat, kind: Kind, raw: seq<Byte>): (plain: seq<Byte>)
    ensures |plain| == PREFIX + |raw|
  {
    Prefix(j.id, i, kind) + Payload(raw, kind)
  }

  function TrialOf(codec: Codec, plain: seq<Byte>): Trial {
    Trial(|codec.compress(plain)|, RoundTrips(codec, plain))
  }

  function TextOf(j: Job, lo: nat, hi: nat): seq<Byte> {
    if lo <= hi <= |j.x| then j.x[lo..hi] else []
  }

  // ------------------------------------------------------------------ packing by plan

  /** Extent i stores this part of the file, at most a page after the bytes before it. Plain bytes keep
      the alignment they have in the file. */
  ghost predicate PartStored(j: Job, e: Extent, i: nat, lo: nat, hi: nat, before: nat, data: seq<Byte>)
  {
    && lo < hi <= |j.x| && e.last == hi && e.offset + e.stored <= |data| && before <= e.offset < before + ALIGN
    && (e.kind == Raw ==>
          e.stored == hi - lo && e.offset % ALIGN == lo % ALIGN && data[e.offset..e.offset + e.stored] == j.x[lo..hi])
    && (e.kind != Raw ==>
          && hi - lo <= j.block && 9 <= e.stored <= j.codec.bound(j.block + PREFIX)
          && Decoded(j.codec, j.id, i, e.kind, data[e.offset..e.offset + e.stored], hi - lo) == Bytes(j.x[lo..hi]))
  }

  function EndOf(extents: seq<Extent>, i: nat, index: nat): nat
    requires i <= |extents|
  {
    if i == 0 then index else extents[i - 1].offset + extents[i - 1].stored
  }

  /** A piece may be compressed, and what the codec makes of it is smaller. */
  ghost predicate Shrinks(j: Job, p: Piece, i: nat) {
    p.kind != Raw && |j.codec.compress(PlainOf(j, i, Frame, TextOf(j, p.lo, p.hi)))| < p.hi - p.lo
  }

  /** Extent i is plain exactly when its piece does not shrink; otherwise it is what the codec makes of the piece,
      right after the bytes before it. */
  ghost predicate StoresSmaller(j: Job, p: Piece, e: Extent, i: nat, before: nat, data: seq<Byte>) {
    && e.offset + e.stored <= |data| && (e.kind == Raw <==> !Shrinks(j, p, i))
    && (e.kind != Raw ==>
          && e.kind == Frame && e.offset == before
          && data[e.offset..e.offset + e.stored] == j.codec.compress(PlainOf(j, i, Frame, TextOf(j, p.lo, p.hi))))
  }

  ghost predicate PieceStored(j: Job, plan: seq<Piece>, extents: seq<Extent>, data: seq<Byte>, index: nat, i: nat)
  {
    && i < |extents| && i < |plan| && extents[i].kind != Shuffled
    && PartStored(j, extents[i], i, plan[i].lo, plan[i].hi, EndOf(extents, i, index), data)
    && StoresSmaller(j, plan[i], extents[i], i, EndOf(extents, i, index), data)
  }

  /** The first pieces of the plan are stored, and nothing after them. */
  ghost predicate Storing(j: Job, plan: seq<Piece>, extents: seq<Extent>, data: seq<Byte>, index: nat)
  {
    && |extents| <= |plan| && index <= |data| && EndOf(extents, |extents|, index) == |data|
    && forall i: nat :: i < |extents| ==> PieceStored(j, plan, extents, data, index, i)
  }

  lemma {:induction false} PrefixSlice(data: seq<Byte>, more: seq<Byte>, a: nat, b: nat)
    requires a <= b <= |data|
    ensures (data + more)[a..b] == data[a..b]
  {}

  lemma {:induction false} StoredGrows(j: Job, plan: seq<Piece>, extents: seq<Extent>, data: seq<Byte>, more: seq<Byte>,
                                       index: nat, e: Extent, i: nat)
    requires PieceStored(j, plan, extents, data, index, i)
    ensures PieceStored(j, plan, extents + [e], data + more, index, i)
  {
    PrefixSlice(data, more, extents[i].offset, extents[i].offset + extents[i].stored);
    assert (extents + [e])[i] == extents[i];
    assert EndOf(extents + [e], i, index) == EndOf(extents, i, index);
  }

  /** One more extent at the end of the data. */
  lemma {:induction false} StoreOne(j: Job, plan: seq<Piece>, extents: seq<Extent>, data: seq<Byte>, index: nat,
                                    e: Extent, more: seq<Byte>)
    requires Storing(j, plan, extents, data, index) && |extents| < |plan| && e.kind != Shuffled
    requires e.offset + e.stored == |data| + |more|
    requires PartStored(j, e, |extents|, plan[|extents|].lo, plan[|extents|].hi, |data|, data + more)
    requires StoresSmaller(j, plan[|extents|], e, |extents|, |data|, data + more)
    ensures Storing(j, plan, extents + [e], data + more, index)
  {
    forall i: nat | i < |extents| + 1
      ensures PieceStored(j, plan, extents + [e], data + more, index, i)
    {
      if i < |extents| {
        StoredGrows(j, plan, extents, data, more, index, e, i);
      }
    }
  }

  /** Zero bytes up to the alignment of a logical offset. */
  function Padding(lo: nat, cursor: nat): (pad: nat)
    ensures pad < ALIGN && (cursor + pad) % ALIGN == lo % ALIGN
  {
    (lo - cursor) % ALIGN
  }

  function ZeroRun(n: nat): (z: seq<Byte>)
    ensures |z| == n
  {
    seq(n, _ => 0)
  }

  /** Plain bytes, a block at a time, within the limit. */
  method CopyRaw(j: Job, before: seq<Byte>, lo: nat, hi: nat) returns (ok: bool, data: seq<Byte>)
    requires lo < hi <= |j.x| && j.block > 0
    ensures ok <==> !Exceeds(|before| + (hi - lo), j.limit)
    ensures ok ==> data == before + j.x[lo..hi]
  {
    ok, data := true, before;
    var at := lo;
    while at < hi
      invariant lo <= at <= hi && data == before + j.x[lo..at] && (at > lo ==> !Exceeds(|data|, j.limit))
      decreases hi - at
    {
      var n := Min(j.block, hi - at);
      if Exceeds(|data| + n, j.limit) {
        return false, data;
      }
      AppendPart(before, j.x, lo, at, at + n);
      data := data + j.x[at..at + n];
      at := at + n;
    }
  }

  lemma {:induction false} AppendPart(before: seq<Byte>, x: seq<Byte>, a: nat, b: nat, c: nat)
    requires a <= b <= c <= |x|
    ensures before + x[a..b] + x[b..c] == before + x[a..c]
  {
    assert x[a..c] == x[a..b] + x[b..c];
  }

  lemma {:induction false} SuffixSlice(data: seq<Byte>, more: seq<Byte>)
    ensures (data + more)[|data|..|data| + |more|] == more
  {}

  /** Where a raw extent ends: padding, then the bytes. */
  function RawEnd(lo: nat, hi: nat, cursor: nat): (end: nat)
    requires lo <= hi
    ensures end >= cursor
  {
    cursor + Padding(lo, cursor) + (hi - lo)
  }

  /** A raw extent. */
  method StoreRaw(j: Job, ghost plan: seq<Piece>, extents: seq<Extent>, data: seq<Byte>, ghost index: nat, lo: nat,
                  hi: nat)
    returns (ok: bool, extents': seq<Extent>, data': seq<Byte>)
    requires ValidJob(j) && Storing(j, plan, extents, data, index) && |extents| < |plan|
    requires lo == plan[|extents|].lo < hi == plan[|extents|].hi <= |j.x|
    requires !Shrinks(j, plan[|extents|], |extents|)
    ensures ok <==> !Exceeds(RawEnd(lo, hi, |data|), j.limit)
    ensures ok ==> |extents'| == |extents| + 1 && Storing(j, plan, extents', data', index)
    ensures ok ==> |data'| == RawEnd(lo, hi, |data|)
  {
    var pad := Padding(lo, |data|);
    if Exceeds(|data| + pad, j.limit) {
      return false, extents, data;
    }
    var padded := data + ZeroRun(pad);
    ok, data' := CopyRaw(j, padded, lo, hi);
    var e := Extent(hi, |padded|, hi - lo, Raw);
    extents' := extents + [e];
    if ok {
      ghost var more := ZeroRun(pad) + j.x[lo..hi];
      assert data' == data + more;
      SuffixSlice(padded, j.x[lo..hi]);
      StoreOne(j, plan, extents, data, index, e, more);
    }
  }

  datatype Step = Stored | Stopped(error: PackError)

  /** Where a piece ends: raw, or compressed when that is smaller. */
  function PieceEnd(p: Piece, t: Trial, cursor: nat): (end: nat)
    ensures end >= cursor
  {
    if p.lo > p.hi then cursor
    else if p.kind == Raw || t.stored >= p.hi - p.lo then RawEnd(p.lo, p.hi, cursor)
    else cursor + t.stored
  }

  /** A piece that may compress: a verified frame, or plain bytes when the frame is no smaller. */
  method StoreFrame(j: Job, ghost plan: seq<Piece>, extents: seq<Extent>, data: seq<Byte>, ghost index: nat, lo: nat,
                    hi: nat, ghost t: Trial)
    returns (step: Step, extents': seq<Extent>, data': seq<Byte>)
    requires ValidJob(j) && Storing(j, plan, extents, data, index) && |extents| < |plan|
    requires lo == plan[|extents|].lo < hi == plan[|extents|].hi <= |j.x| && hi - lo <= j.block
    requires plan[|extents|].kind != Raw
    requires t == TrialOf(j.codec, PlainOf(j, |extents|, Frame, j.x[lo..hi]))
    ensures step == Stopped(NotLossless) <==> !t.survives
    ensures step == Stopped(OverLimit) ==> Exceeds(PieceEnd(Piece(lo, hi, Frame), t, |data|), j.limit)
    ensures step == Stored ==> |extents'| == |extents| + 1 && Storing(j, plan, extents', data', index)
    ensures step == Stored ==> |data'| == PieceEnd(Piece(lo, hi, Frame), t, |data|) && !Exceeds(|data'|, j.limit)
  {
    extents', data' := extents, data;
    var plain := PlainOf(j, |extents|, Frame, j.x[lo..hi]);
    assert SizeFits(j.codec, j.block, plain);
    var packed := j.codec.compress(plain);
    if j.codec.decompress(packed, |plain|) != Plain(plain) {
      return Stopped(NotLossless), extents', data';
    }
    if |packed| >= hi - lo {
      var ok;
      ok, extents', data' := StoreRaw(j, plan, extents, data, index, lo, hi);
      step := if ok then Stored else Stopped(OverLimit);
      return;
    }
    if Exceeds(|data| + |packed|, j.limit) {
      return Stopped(OverLimit), extents', data';
    }
    var e := Extent(hi, |data|, |packed|, Frame);
    SuffixSlice(data, packed);
    DecodedPayload(j.codec, j.id, |extents|, Frame, packed, j.x[lo..hi]);
    StoreOne(j, plan, extents, data, index, e, packed);
    extents', data', step := extents + [e], data + packed, Stored;
  }

  function PieceTrial(j: Job, p: Piece, i: nat): Trial {
    if p.kind == Raw then Trial(0, true) else TrialOf(j.codec, PlainOf(j, i, Frame, TextOf(j, p.lo, p.hi)))
  }

  ghost function PlanTrials(j: Job, plan: seq<Piece>): seq<Trial> {
    seq(|plan|, i requires 0 <= i < |plan| => PieceTrial(j, plan[i], i))
  }

  /** How long the output is after n pieces. */
  ghost function SizeAfter(plan: seq<Piece>, trials: seq<Trial>, n: nat): nat
    requires n <= |plan| == |trials|
  {
    if n == 0 then IndexSize(true, |plan|) else PieceEnd(plan[n - 1], trials[n - 1], SizeAfter(plan, trials, n - 1))
  }

  ghost function PlanSizes(plan: seq<Piece>, trials: seq<Trial>): seq<nat>
    requires |plan| == |trials|
  {
    seq(|plan| + 1, n requires 0 <= n <= |plan| => SizeAfter(plan, trials, n))
  }

  lemma {:induction false} SizeGrows(plan: seq<Piece>, trials: seq<Trial>, m: nat, n: nat)
    requires m <= n <= |plan| == |trials|
    ensures SizeAfter(plan, trials, m) <= SizeAfter(plan, trials, n)
    decreases n - m
  {
    if m < n {
      SizeGrows(plan, trials, m, n - 1);
    }
  }

  lemma {:induction false} PlanGrows(plan: seq<Piece>, trials: seq<Trial>)
    requires |plan| == |trials|
    ensures Growing(trials, PlanSizes(plan, trials))
  {
    var sizes := PlanSizes(plan, trials);
    forall i, k | 0 <= i <= k < |sizes|
      ensures sizes[i] <= sizes[k]
    {
      SizeGrows(plan, trials, i, k);
    }
  }

  lemma {:induction false} LosslessPlan(j: Job, plan: seq<Piece>, trials: seq<Trial>)
    requires IsLossless(j.codec, j.block) && j.limit == Unlimited && IsPlan(plan, |j.x|, j.block)
    requires trials == PlanTrials(j, plan)
    ensures Packs(trials, PlanSizes(plan, trials), j.limit)
  {
    forall i | 0 <= i < |plan|
      ensures trials[i].survives
    {
      PieceInside(plan, i, |j.x|, j.block);
      assert Survives(j.codec, j.block, PlainOf(j, i, Frame, TextOf(j, plan[i].lo, plan[i].hi)));
    }
  }

  /** Raw extents of the archive sit at their logical alignment. */
  ghost predicate RawAligned(a: Archive) {
    forall i: nat :: i < |a.extents| && a.extents[i].kind == Raw ==> a.extents[i].offset % ALIGN == Start(a, i) % ALIGN
  }

  /** A frame comes back from the codec as it went in. Plain pieces have none. */
  ghost predicate PieceSurvives(j: Job, p: Piece, i: nat) {
    p.kind == Raw || RoundTrips(j.codec, PlainOf(j, i, Frame, TextOf(j, p.lo, p.hi)))
  }

  /** A piece that shrinks adds what the codec makes of it; another adds its bytes and the padding before them. */
  ghost predicate PieceAdds(j: Job, p: Piece, i: nat, before: nat, after: nat) {
    if Shrinks(j, p, i) then after == before + |j.codec.compress(PlainOf(j, i, Frame, TextOf(j, p.lo, p.hi)))|
    else
      var start := after - (p.hi - p.lo);
      before <= start < before + ALIGN && start % ALIGN == p.lo % ALIGN
  }

  /** Each piece's frame tried, and how long the output is after each piece. */
  ghost predicate PlanTried(j: Job, plan: seq<Piece>, trials: seq<Trial>, sizes: seq<nat>) {
    && |trials| == |plan| && |sizes| == |plan| + 1 && sizes[0] == IndexSize(true, |plan|)
    && forall i: nat :: i < |plan| ==> PieceTried(j, plan, trials, sizes, i)
  }

  ghost predicate PieceTried(j: Job, plan: seq<Piece>, trials: seq<Trial>, sizes: seq<nat>, i: nat)
    requires i < |plan| == |trials| && i + 1 < |sizes|
  {
    && (trials[i].survives <==> PieceSurvives(j, plan[i], i))
    && PieceAdds(j, plan[i], i, sizes[i], sizes[i + 1])
  }

  lemma {:induction false} SurviveOneMore(trials: seq<Trial>, n: nat)
    requires n < |trials|
    ensures AllSurvive(trials, n + 1) <==> AllSurvive(trials, n) && trials[n].survives
  {}

  lemma {:induction false} PieceTriedOnce(j: Job, plan: seq<Piece>, trials: seq<Trial>, sizes: seq<nat>,
                                          trials': seq<Trial>, sizes': seq<nat>, i: nat)
    requires PlanTried(j, plan, trials, sizes) && PlanTried(j, plan, trials', sizes')
    requires i < |plan| && sizes[i] == sizes'[i]
    ensures sizes[i + 1] == sizes'[i + 1] && trials[i].survives == trials'[i].survives
  {
    assert PieceTried(j, plan, trials, sizes, i) && PieceTried(j, plan, trials', sizes', i);
  }

  /** What was tried is determined. */
  lemma {:induction false} PlanTriedOnce(j: Job, plan: seq<Piece>, trials: seq<Trial>, sizes: seq<nat>,
                                         trials': seq<Trial>, sizes': seq<nat>, n: nat)
    requires PlanTried(j, plan, trials, sizes) && PlanTried(j, plan, trials', sizes') && n <= |plan|
    ensures sizes[n] == sizes'[n] && (AllSurvive(trials, n) <==> AllSurvive(trials', n))
  {
    if n > 0 {
      PlanTriedOnce(j, plan, trials, sizes, trials', sizes', n - 1);
      PieceTriedOnce(j, plan, trials, sizes, trials', sizes', n - 1);
      SurviveOneMore(trials, n - 1);
      SurviveOneMore(trials', n - 1);
    }
  }

  ghost predicate StoresPieces(j: Job, plan: seq<Piece>, a: Archive) {
    |a.extents| == |plan|
    && forall i: nat :: i < |plan| ==> StoresSmaller(j, plan[i], a.extents[i], i, Cursor(a, i), a.data)
  }

  lemma {:induction false} PlanIsTried(j: Job, plan: seq<Piece>, trials: seq<Trial>, sizes: seq<nat>)
    requires IsPlan(plan, |j.x|, j.block) && trials == PlanTrials(j, plan) && sizes == PlanSizes(plan, trials)
    ensures PlanTried(j, plan, trials, sizes)
  {
    forall i: nat | i < |plan|
      ensures PieceTried(j, plan, trials, sizes, i)
    {
      assert PieceFits(plan, i, j.block);
      TriedAt(j, plan, trials, sizes, i);
      PieceEnds(j, plan[i], i, trials[i], sizes[i], sizes[i + 1]);
    }
  }

  lemma {:induction false} TriedAt(j: Job, plan: seq<Piece>, trials: seq<Trial>, sizes: seq<nat>, i: nat)
    requires trials == PlanTrials(j, plan) && sizes == PlanSizes(plan, trials) && i < |plan|
    ensures trials[i] == PieceTrial(j, plan[i], i) && sizes[i + 1] == PieceEnd(plan[i], trials[i], sizes[i])
  {}

  lemma {:induction false} PieceEnds(j: Job, p: Piece, i: nat, t: Trial, before: nat, after: nat)
    requires p.lo < p.hi && t == PieceTrial(j, p, i) && after == PieceEnd(p, t, before)
    ensures PieceAdds(j, p, i, before, after) && (t.survives <==> PieceSurvives(j, p, i))
  {}

  lemma {:induction false} PlanStores(j: Job, plan: seq<Piece>, a: Archive)
    requires |a.extents| == |plan| && a.mapped && Storing(j, plan, a.extents, a.data, IndexSize(true, |plan|))
    ensures StoresPieces(j, plan, a)
  {
    forall i: nat | i < |plan|
      ensures StoresSmaller(j, plan[i], a.extents[i], i, Cursor(a, i), a.data)
    {
      assert PieceStored(j, plan, a.extents, a.data, IndexSize(true, |plan|), i);
      assert Cursor(a, i) == EndOf(a.extents, i, IndexSize(true, |plan|));
    }
  }

  /** Pack by plan: it succeeds exactly when every frame survives and the output stays within the limit,
      and otherwise reports whichever fails first. */
  method PackPlan(j: Job, plan: seq<Piece>) returns (r: Packed)
    requires ValidJob(j) && IsPlan(plan, |j.x|, j.block) && |plan| <= MAX_COUNT
    ensures exists trials, sizes :: PlanTried(j, plan, trials, sizes) && Outcome(trials, sizes, j.limit, r)
    ensures r.Packed? ==> StoresPieces(j, plan, r.archive)
    ensures r.Packed? ==> IsPacked(r.archive, j.codec, j.x) && r.archive.mapped && RawAligned(r.archive)
    ensures IsLossless(j.codec, j.block) && j.limit == Unlimited ==> r.Packed?
  {
    r := PackPieces(j, plan);
    ghost var trials := PlanTrials(j, plan);
    ghost var sizes := PlanSizes(plan, trials);
    PlanIsTried(j, plan, trials, sizes);
    assert PlanTried(j, plan, trials, sizes) && Outcome(trials, sizes, j.limit, r);
  }

  method PackPieces(j: Job, plan: seq<Piece>) returns (r: Packed)
    requires ValidJob(j) && IsPlan(plan, |j.x|, j.block) && |plan| <= MAX_COUNT
    ensures Outcome(PlanTrials(j, plan), PlanSizes(plan, PlanTrials(j, plan)), j.limit, r)
    ensures r.Packed? ==> IsPacked(r.archive, j.codec, j.x) && r.archive.mapped && RawAligned(r.archive)
    ensures r.Packed? ==> StoresPieces(j, plan, r.archive)
    ensures IsLossless(j.codec, j.block) && j.limit == Unlimited ==> r.Packed?
  {
    ghost var trials := PlanTrials(j, plan);
    ghost var sizes := PlanSizes(plan, trials);
    if IsLossless(j.codec, j.block) && j.limit == Unlimited {
      LosslessPlan(j, plan, trials);
    }
    PlanGrows(plan, trials);
    if Exceeds(IndexSize(true, |plan|), j.limit) {
      OutcomesDiffer(trials, sizes, j.limit, 0, 0);
      assert FailsLarge(trials, sizes, j.limit, 0);
      return Failed(OverLimit);
    }
    var step, extents, data := StorePieces(j, plan, trials, sizes);
    if step != Stored {
      ghost var i: nat :| StopsAt(trials, sizes, j.limit, i, step.error);
      Stops(trials, sizes, j.limit, i, step.error);
      return Failed(step.error);
    }
    var a := Archive(true, |j.x|, j.block, j.id, extents, data);
    PlanIsPacked(j, plan, a);
    PlanStores(j, plan, a);
    r := Packed(a);
  }

  /** Every piece in turn, after room for the index. */
  method StorePieces(j: Job, plan: seq<Piece>, ghost trials: seq<Trial>, ghost sizes: seq<nat>)
    returns (step: Step, extents: seq<Extent>, data: seq<Byte>)
    requires ValidJob(j) && IsPlan(plan, |j.x|, j.block) && !Exceeds(IndexSize(true, |plan|), j.limit)
    requires trials == PlanTrials(j, plan) && sizes == PlanSizes(plan, trials)
    ensures step == Stored ==> |extents| == |plan| && Storing(j, plan, extents, data, IndexSize(true, |plan|))
    ensures step == Stored ==> AllSurvive(trials, |plan|) && |data| == sizes[|plan|] && !Exceeds(|data|, j.limit)
    ensures step != Stored ==> exists i: nat :: StopsAt(trials, sizes, j.limit, i, step.error)
  {
    var index := IndexSize(true, |plan|);
    step, extents, data := Stored, [], ZeroRun(index);
    for i := 0 to |plan|
      invariant step == Stored && |extents| == i && Storing(j, plan, extents, data, index)
      invariant AllSurvive(trials, i) && |data| == sizes[i] && !Exceeds(|data|, j.limit)
    {
      PieceInside(plan, i, |j.x|, j.block);
      step, extents, data := StorePiece(j, plan, extents, data, index, trials[i]);
      if step != Stored {
        assert StopsAt(trials, sizes, j.limit, i, step.error);
        return;
      }
      SurvivesNext(trials, i);
    }
  }

  method StorePiece(j: Job, plan: seq<Piece>, extents: seq<Extent>, data: seq<Byte>, ghost index: nat, ghost t: Trial)
    returns (step: Step, extents': seq<Extent>, data': seq<Byte>)
    requires ValidJob(j) && Storing(j, plan, extents, data, index) && |extents| < |plan|
    requires PieceFits(plan, |extents|, j.block) && plan[|extents|].hi <= |j.x|
    requires t == PieceTrial(j, plan[|extents|], |extents|)
    ensures step == Stopped(NotLossless) <==> !t.survives
    ensures step == Stopped(OverLimit) ==> Exceeds(PieceEnd(plan[|extents|], t, |data|), j.limit)
    ensures step == Stored ==> |extents'| == |extents| + 1 && Storing(j, plan, extents', data', index)
    ensures step == Stored ==> |data'| == PieceEnd(plan[|extents|], t, |data|) && !Exceeds(|data'|, j.limit)
  {
    var p := plan[|extents|];
    if p.kind == Raw {
      var ok;
      ok, extents', data' := StoreRaw(j, plan, extents, data, index, p.lo, p.hi);
      step := if ok then Stored else Stopped(OverLimit);
    } else {
      step, extents', data' := StoreFrame(j, plan, extents, data, index, p.lo, p.hi, t);
    }
  }

  lemma {:induction false} PieceInside(plan: seq<Piece>, i: nat, end: nat, block: nat)
    requires IsPlan(plan, end, block) && i < |plan|
    ensures PieceFits(plan, i, block) && plan[i].hi <= end
    decreases |plan| - i
  {
    if i + 1 < |plan| {
      PieceInside(plan, i + 1, end, block);
    }
  }

  lemma {:induction false} PlanStart(j: Job, plan: seq<Piece>, a: Archive, i: nat)
    requires IsPlan(plan, |j.x|, j.block) && a.mapped && |a.extents| == |plan| && i < |plan|
    requires Storing(j, plan, a.extents, a.data, IndexSize(true, |plan|))
    ensures Start(a, i) == plan[i].lo && End(a, i) == plan[i].hi
            && PieceStored(j, plan, a.extents, a.data, IndexSize(true, |plan|), i)
  {
    assert PieceStored(j, plan, a.extents, a.data, IndexSize(true, |plan|), i);
    assert PieceFits(plan, i, j.block);
    if i > 0 {
      assert PieceStored(j, plan, a.extents, a.data, IndexSize(true, |plan|), i - 1);
    }
  }

  lemma {:induction false} PlanExtent(j: Job, plan: seq<Piece>, a: Archive, i: nat)
    requires ValidJob(j) && IsPlan(plan, |j.x|, j.block) && i < |plan|
    requires a == Archive(true, |j.x|, j.block, j.id, a.extents, a.data) && |a.extents| == |plan|
    requires Storing(j, plan, a.extents, a.data, IndexSize(true, |plan|))
    ensures GoodExtent(j, a, i)
  {
    PlanStart(j, plan, a, i);
    PlanHolds(j, plan, a, i);
    assert Cursor(a, i) == EndOf(a.extents, i, IndexSize(true, |plan|));
  }

  lemma {:induction false} PlanHolds(j: Job, plan: seq<Piece>, a: Archive, i: nat)
    requires i < |plan| && i < |a.extents| && a.id == j.id
    requires Start(a, i) == plan[i].lo && End(a, i) == plan[i].hi
    requires PieceStored(j, plan, a.extents, a.data, IndexSize(true, |plan|), i)
    ensures KeepsPart(j, a, i)
  {}

  lemma {:induction false} PlanIsPacked(j: Job, plan: seq<Piece>, a: Archive)
    requires ValidJob(j) && IsPlan(plan, |j.x|, j.block) && |plan| <= MAX_COUNT
    requires a == Archive(true, |j.x|, j.block, j.id, a.extents, a.data) && |a.extents| == |plan|
    requires Storing(j, plan, a.extents, a.data, IndexSize(true, |plan|))
    ensures IsPacked(a, j.codec, j.x) && RawAligned(a)
  {
    forall i: nat | i < |a.extents|
      ensures GoodExtent(j, a, i)
    {
      PlanExtent(j, plan, a, i);
    }
    assert Cursor(a, |plan|) == EndOf(a.extents, |plan|, IndexSize(true, |plan|));
    if |plan| > 0 {
      PlanStart(j, plan, a, |plan| - 1);
    }
    AllGood(j, a);
  }

  /** Extent i stores its part of the file. */
  ghost predicate KeepsPart(j: Job, a: Archive, i: nat)
    requires i < |a.extents|
  {
    var e := a.extents[i];
    && Start(a, i) < End(a, i) <= |j.x| && a.id == j.id && e.offset + e.stored <= |a.data|
    && var stored, part := a.data[e.offset..e.offset + e.stored], j.x[Start(a, i)..End(a, i)];
       if e.kind == Raw then stored == part
       else Decoded(j.codec, a.id, i, e.kind, stored, End(a, i) - Start(a, i)) == Bytes(part)
  }

  lemma {:induction false} KeptIsLoaded(j: Job, a: Archive, i: nat)
    requires i < |a.extents| && KeepsPart(j, a, i)
    ensures Load(a, j.codec, i) == Bytes(j.x[Start(a, i)..End(a, i)])
  {}

  lemma {:induction false} KeptIsHeld(j: Job, a: Archive, i: nat)
    requires ValidIndex(a, j.codec) && i < |a.extents| && KeepsPart(j, a, i)
    ensures HoldsPart(Parts(a, j.codec), j.x, i)
  {
    KeptIsLoaded(j, a, i);
    PartOf(a, j.codec, i);
  }

  /** An extent that the reader accepts, that stores its part of the file, and that is aligned when raw. */
  ghost predicate GoodExtent(j: Job, a: Archive, i: nat) {
    && i < |a.extents| && ValidExtent(a, j.codec, i) && KeepsPart(j, a, i)
    && (a.extents[i].kind == Raw ==> a.extents[i].offset % ALIGN == Start(a, i) % ALIGN)
  }

  lemma {:induction false} AllGood(j: Job, a: Archive)
    requires ValidJob(j) && |a.extents| <= MAX_COUNT && a.block == j.block && a.size == |j.x|
    requires forall i: nat :: i < |a.extents| ==> GoodExtent(j, a, i)
    requires !a.mapped ==> |a.extents| == BlockCount(a.size, a.block)
    requires IndexSize(a.mapped, |a.extents|) <= |a.data| && Cursor(a, |a.extents|) == |a.data|
    requires (if a.extents == [] then 0 else End(a, |a.extents| - 1)) == a.size
    ensures IsPacked(a, j.codec, j.x) && RawAligned(a)
  {
    forall i: nat | i < |a.extents|
      ensures ValidExtent(a, j.codec, i)
    {
      assert GoodExtent(j, a, i);
    }
    GoodHold(j, a);
    forall i: nat | i < |a.extents| && a.extents[i].kind == Raw
      ensures a.extents[i].offset % ALIGN == Start(a, i) % ALIGN
    {
      assert GoodExtent(j, a, i);
    }
  }

  lemma {:induction false} GoodHold(j: Job, a: Archive)
    requires ValidIndex(a, j.codec) && a.size == |j.x|
    requires forall i: nat :: i < |a.extents| ==> GoodExtent(j, a, i)
    ensures Hold(Parts(a, j.codec), j.x)
  {
    ExtentsTile(a, j.codec);
    forall i: nat | i < |a.extents|
      ensures HoldsPart(Parts(a, j.codec), j.x, i)
    {
      assert GoodExtent(j, a, i);
      KeptIsHeld(j, a, i);
    }
  }

  // ------------------------------------------------------------------ packing whole blocks

  datatype Mode = Off | Auto | On

  function BlockStart(j: Job, i: nat): nat {
    Min(Times(i, j.block), |j.x|)
  }

  function BlockText(j: Job, i: nat): seq<Byte> {
    TextOf(j, BlockStart(j, i), BlockStart(j, i + 1))
  }

  /** Shuffling is asked for, or it saves more than a fiftieth and that is enough. */
  ghost predicate Shuffles(j: Job, mode: Mode, i: nat) {
    || mode == On
    || (mode == Auto && 100 * |j.codec.compress(PlainOf(j, i, Shuffled, BlockText(j, i)))|
                        < 98 * |j.codec.compress(PlainOf(j, i, Frame, BlockText(j, i)))|)
  }

  ghost function KindAt(j: Job, mode: Mode, i: nat): Kind {
    if Shuffles(j, mode, i) then Shuffled else Frame
  }

  /** Extent i is what the codec makes of the block, shuffled or not. */
  ghost predicate StoresChosen(j: Job, mode: Mode, e: Extent, i: nat, data: seq<Byte>) {
    match e
    case Extent(_, offset, stored, kind) =>
      && offset + stored <= |data| && kind == KindAt(j, mode, i)
      && data[offset..offset + stored] == j.codec.compress(PlainOf(j, i, kind, BlockText(j, i)))
  }

  ghost predicate AllChosen(j: Job, mode: Mode, extents: seq<Extent>, data: seq<Byte>) {
    forall i: nat :: i < |extents| ==> StoresChosen(j, mode, extents[i], i, data)
  }

  lemma {:induction false} ChosenGrows(j: Job, mode: Mode, e: Extent, i: nat, data: seq<Byte>, more: seq<Byte>)
    requires StoresChosen(j, mode, e, i, data)
    ensures StoresChosen(j, mode, e, i, data + more)
  {
    PrefixSlice(data, more, e.offset, e.offset + e.stored);
  }

  lemma {:induction false} NewChosen(j: Job, mode: Mode, i: nat, data: seq<Byte>, e: Extent, more: seq<Byte>)
    requires e.offset == |data| && e.stored == |more| && e.kind == KindAt(j, mode, i)
    requires more == j.codec.compress(PlainOf(j, i, e.kind, BlockText(j, i)))
    ensures StoresChosen(j, mode, e, i, data + more)
  {
    SuffixSlice(data, more);
  }

  lemma {:induction false} ChooseOne(j: Job, mode: Mode, extents: seq<Extent>, data: seq<Byte>, e: Extent,
                                     more: seq<Byte>)
    requires AllChosen(j, mode, extents, data) && e.offset == |data| && e.stored == |more|
    requires e.kind == KindAt(j, mode, |extents|)
    requires more == j.codec.compress(PlainOf(j, |extents|, e.kind, BlockText(j, |extents|)))
    ensures AllChosen(j, mode, extents + [e], data + more)
  {
    NewChosen(j, mode, |extents|, data, e, more);
    var all := extents + [e];
    forall i: nat | i < |all|
      ensures StoresChosen(j, mode, all[i], i, data + more)
    {
      if i < |extents| {
        ChosenGrows(j, mode, extents[i], i, data, more);
      }
    }
  }

  ghost predicate BlockStored(j: Job, extents: seq<Extent>, data: seq<Byte>, index: nat, i: nat)
  {
    && i < |extents| && extents[i].kind != Raw && extents[i].offset == EndOf(extents, i, index)
    && PartStored(j, extents[i], i, BlockStart(j, i), BlockStart(j, i + 1), EndOf(extents, i, index), data)
  }

  ghost predicate StoringBlocks(j: Job, extents: seq<Extent>, data: seq<Byte>, index: nat)
  {
    && index <= |data| && EndOf(extents, |extents|, index) == |data|
    && forall i: nat :: i < |extents| ==> BlockStored(j, extents, data, index, i)
  }

  lemma {:induction false} BlockIsInside(j: Job, i: nat)
    requires j.block > 0 && i < BlockCount(|j.x|, j.block)
    ensures BlockStart(j, i) < BlockStart(j, i + 1) <= BlockStart(j, i) + j.block
    ensures i + 1 == BlockCount(|j.x|, j.block) ==> BlockStart(j, i + 1) == |j.x|
  {
    LastBlock(|j.x|, j.block, i);
  }

  lemma {:induction false} BlockGrows(j: Job, extents: seq<Extent>, data: seq<Byte>, more: seq<Byte>, index: nat,
                                      e: Extent, i: nat)
    requires i < |extents| && BlockStored(j, extents, data, index, i)
    ensures BlockStored(j, extents + [e], data + more, index, i)
  {
    PrefixSlice(data, more, extents[i].offset, extents[i].offset + extents[i].stored);
    assert (extents + [e])[i] == extents[i];
    assert EndOf(extents + [e], i, index) == EndOf(extents, i, index);
  }

  lemma {:induction false} StoreBlock(j: Job, extents: seq<Extent>, data: seq<Byte>, index: nat, e: Extent,
                                      more: seq<Byte>)
    requires StoringBlocks(j, extents, data, index) && e.kind != Raw && e.offset == |data| && e.stored == |more|
    requires PartStored(j, e, |extents|, BlockStart(j, |extents|), BlockStart(j, |extents| + 1), |data|, data + more)
    ensures StoringBlocks(j, extents + [e], data + more, index)
  {
    forall i: nat | i < |extents| + 1
      ensures BlockStored(j, extents + [e], data + more, index, i)
    {
      if i < |extents| {
        BlockGrows(j, extents, data, more, index, e, i);
      }
    }
  }

  /** Shuffling is worth it when it saves more than a fiftieth. */
  function ChosenKind(codec: Codec, mode: Mode, plain: seq<Byte>, shuffled: seq<Byte>): (kind: Kind)
    ensures kind != Raw
  {
    if mode == On || (mode == Auto && 100 * |codec.compress(shuffled)| < 98 * |codec.compress(plain)|) then Shuffled
    else Frame
  }

  function BlockKind(j: Job, mode: Mode, i: nat, raw: seq<Byte>): (kind: Kind)
    ensures kind != Raw
  {
    ChosenKind(j.codec, mode, PlainOf(j, i, Frame, raw), PlainOf(j, i, Shuffled, raw))
  }

  function BlockTrial(j: Job, mode: Mode, i: nat, raw: seq<Byte>): Trial {
    TrialOf(j.codec, PlainOf(j, i, BlockKind(j, mode, i, raw), raw))
  }

  ghost function BlockTrials(j: Job, mode: Mode): seq<Trial>
    requires j.block > 0
  {
    seq(BlockCount(|j.x|, j.block), i requires 0 <= i => BlockTrial(j, mode, i, BlockText(j, i)))
  }

  /** How long the output is after n blocks. */
  ghost function BlocksSize(trials: seq<Trial>, n: nat): nat
    requires n <= |trials|
  {
    if n == 0 then IndexSize(false, |trials|) else BlocksSize(trials, n - 1) + trials[n - 1].stored
  }

  ghost function BlockSizes(trials: seq<Trial>): seq<nat> {
    seq(|trials| + 1, n requires 0 <= n <= |trials| => BlocksSize(trials, n))
  }

  lemma {:induction false} BlocksGrow(trials: seq<Trial>, m: nat, n: nat)
    requires m <= n <= |trials|
    ensures BlocksSize(trials, m) <= BlocksSize(trials, n)
    decreases n - m
  {
    if m < n {
      BlocksGrow(trials, m, n - 1);
    }
  }

  lemma {:induction false} BlockSizesGrow(trials: seq<Trial>)
    ensures Growing(trials, BlockSizes(trials))
  {
    var sizes := BlockSizes(trials);
    forall i, k | 0 <= i <= k < |sizes|
      ensures sizes[i] <= sizes[k]
    {
      BlocksGrow(trials, i, k);
    }
  }

  lemma {:induction false} LosslessBlocks(j: Job, mode: Mode, trials: seq<Trial>)
    requires ValidJob(j) && IsLossless(j.codec, j.block) && j.limit == Unlimited && trials == BlockTrials(j, mode)
    ensures Packs(trials, BlockSizes(trials), j.limit)
  {
    forall i | 0 <= i < |trials|
      ensures trials[i].survives
    {
      BlockIsInside(j, i);
      var raw := BlockText(j, i);
      assert Survives(j.codec, j.block, PlainOf(j, i, BlockKind(j, mode, i, raw), raw));
    }
  }

  /** The frame to store for one block: plain, or shuffled when that is asked for or saves enough. */
  method ChooseFrame(j: Job, mode: Mode, i: nat, raw: seq<Byte>) returns (packed: seq<Byte>, kind: Kind)
    requires ValidJob(j) && |raw| <= j.block
    ensures kind == BlockKind(j, mode, i, raw) && packed == j.codec.compress(PlainOf(j, i, kind, raw))
    ensures 9 <= |packed| <= j.codec.bound(j.block + PREFIX)
  {
    var plain := PlainOf(j, i, Frame, raw);
    assert SizeFits(j.codec, j.block, plain);
    kind := Frame;
    packed := if mode == On then [] else j.codec.compress(plain);
    if mode != Off {
      var shuffled := PlainOf(j, i, Shuffled, raw);
      assert SizeFits(j.codec, j.block, shuffled);
      var candidate := j.codec.compress(shuffled);
      if mode == On || 100 * |candidate| < 98 * |packed| {
        packed, kind := candidate, Shuffled;
      }
    }
  }

  lemma {:induction false} TrialIs(j: Job, mode: Mode, i: nat, raw: seq<Byte>, kind: Kind, t: Trial)
    requires t == BlockTrial(j, mode, i, raw) && kind == BlockKind(j, mode, i, raw)
    ensures t.survives == RoundTrips(j.codec, PlainOf(j, i, kind, raw))
    ensures t.stored == |j.codec.compress(PlainOf(j, i, kind, raw))|
  {}

  method PackBlock(j: Job, mode: Mode, extents: seq<Extent>, data: seq<Byte>, ghost index: nat, ghost t: Trial)
    returns (step: Step, extents': seq<Extent>, data': seq<Byte>)
    requires ValidJob(j) && StoringBlocks(j, extents, data, index) && |extents| < BlockCount(|j.x|, j.block)
    requires AllChosen(j, mode, extents, data)
    requires t == BlockTrial(j, mode, |extents|, BlockText(j, |extents|))
    ensures step == Stopped(NotLossless) <==> !t.survives
    ensures step == Stopped(OverLimit) ==> Exceeds(|data| + t.stored, j.limit)
    ensures step == Stored ==> |extents'| == |extents| + 1 && StoringBlocks(j, extents', data', index)
    ensures step == Stored ==> AllChosen(j, mode, extents', data')
    ensures step == Stored ==> |data'| == |data| + t.stored && !Exceeds(|data'|, j.limit)
  {
    var i := |extents|;
    BlockIsInside(j, i);
    var raw := BlockText(j, i);
    var packed, kind := ChooseFrame(j, mode, i, raw);
    TrialIs(j, mode, i, raw, kind, t);
    step, extents', data' := StoreChosen(j, mode, extents, data, index, raw, packed, kind);
  }

  method StoreChosen(j: Job, ghost mode: Mode, extents: seq<Extent>, data: seq<Byte>, ghost index: nat,
                     raw: seq<Byte>, packed: seq<Byte>, kind: Kind)
    returns (step: Step, extents': seq<Extent>, data': seq<Byte>)
    requires ValidJob(j) && StoringBlocks(j, extents, data, index) && kind != Raw && AllChosen(j, mode, extents, data)
    requires BlockStart(j, |extents|) < BlockStart(j, |extents| + 1) <= BlockStart(j, |extents|) + j.block
    requires raw == j.x[BlockStart(j, |extents|)..BlockStart(j, |extents| + 1)] && kind == KindAt(j, mode, |extents|)
    requires packed == j.codec.compress(PlainOf(j, |extents|, kind, raw))
             && 9 <= |packed| <= j.codec.bound(j.block + PREFIX)
    ensures step == Stopped(NotLossless) <==> !RoundTrips(j.codec, PlainOf(j, |extents|, kind, raw))
    ensures step == Stopped(OverLimit) ==> Exceeds(|data| + |packed|, j.limit)
    ensures step == Stored ==> |extents'| == |extents| + 1 && StoringBlocks(j, extents', data', index)
    ensures step == Stored ==> AllChosen(j, mode, extents', data')
    ensures step == Stored ==> |data'| == |data| + |packed| && !Exceeds(|data'|, j.limit)
  {
    extents', data' := extents, data;
    var i := |extents|;
    var lo, hi := BlockStart(j, i), BlockStart(j, i + 1);
    if j.codec.decompress(packed, |raw| + PREFIX) != Plain(PlainOf(j, i, kind, raw)) {
      return Stopped(NotLossless), extents', data';
    }
    if Exceeds(|data| + |packed|, j.limit) {
      return Stopped(OverLimit), extents', data';
    }
    var e := Extent(hi, |data|, |packed|, kind);
    FrameStored(j, e, i, lo, hi, data, packed);
    SuffixSlice(data, packed);
    StoreBlock(j, extents, data, index, e, packed);
    ChooseOne(j, mode, extents, data, e, packed);
    extents', data', step := extents + [e], data + packed, Stored;
  }

  lemma {:induction false} FrameStored(j: Job, e: Extent, i: nat, lo: nat, hi: nat, data: seq<Byte>, packed: seq<Byte>)
    requires lo < hi <= |j.x| && hi - lo <= j.block && e.kind != Raw
    requires e == Extent(hi, |data|, |packed|, e.kind) && 9 <= |packed| <= j.codec.bound(j.block + PREFIX)
    requires IsFrameOf(j.codec, j.id, i, e.kind, packed, j.x[lo..hi])
    ensures PartStored(j, e, i, lo, hi, |data|, data + packed)
  {
    SuffixSlice(data, packed);
    assert (data + packed)[e.offset..e.offset + e.stored] == packed;
    DecodedPayload(j.codec, j.id, i, e.kind, packed, j.x[lo..hi]);
  }

  /** The frame of each block tried, shuffled or not, and how long the output is after each block. */
  ghost predicate BlocksTriedAs(j: Job, mode: Mode, trials: seq<Trial>, sizes: seq<nat>)
    requires j.block > 0
  {
    && |trials| == BlockCount(|j.x|, j.block) && |sizes| == |trials| + 1 && sizes[0] == IndexSize(false, |trials|)
    && forall i: nat :: i < |trials| ==> BlockTriedAs(j, mode, trials, sizes, i)
  }

  ghost predicate BlockTriedAs(j: Job, mode: Mode, trials: seq<Trial>, sizes: seq<nat>, i: nat)
    requires i < |trials| && i + 1 < |sizes|
  {
    var plain := PlainOf(j, i, KindAt(j, mode, i), BlockText(j, i));
    (trials[i].survives <==> RoundTrips(j.codec, plain)) && sizes[i + 1] == sizes[i] + |j.codec.compress(plain)|
  }

  ghost predicate StoresBlocks(j: Job, mode: Mode, a: Archive)
    requires j.block > 0
  {
    |a.extents| == BlockCount(|j.x|, j.block) && AllChosen(j, mode, a.extents, a.data)
  }

  lemma {:induction false} KindIsChosen(j: Job, mode: Mode, i: nat)
    ensures KindAt(j, mode, i) == BlockKind(j, mode, i, BlockText(j, i))
  {}

  lemma {:induction false} BlocksAreTried(j: Job, mode: Mode, trials: seq<Trial>, sizes: seq<nat>)
    requires j.block > 0 && |trials| == BlockCount(|j.x|, j.block) && |sizes| == |trials| + 1
    requires sizes[0] == IndexSize(false, |trials|)
    requires forall i: nat :: i < |trials| ==> IsBlockTrial(j, mode, trials, i) && BlockAdds(trials, sizes, i)
    ensures BlocksTriedAs(j, mode, trials, sizes)
  {
    forall i: nat | i < |trials|
      ensures BlockTriedAs(j, mode, trials, sizes, i)
    {
      assert IsBlockTrial(j, mode, trials, i) && BlockAdds(trials, sizes, i);
      KindIsChosen(j, mode, i);
      TrialIs(j, mode, i, BlockText(j, i), KindAt(j, mode, i), trials[i]);
    }
  }

  /** Pack every block of a file: it succeeds exactly when every frame survives and the output stays
      within the limit, and otherwise reports whichever fails first. */
  method PackBlocks(j: Job, mode: Mode) returns (r: Packed)
    requires ValidJob(j) && BlockCount(|j.x|, j.block) <= MAX_COUNT
    ensures exists trials, sizes :: BlocksTriedAs(j, mode, trials, sizes) && Outcome(trials, sizes, j.limit, r)
    ensures r.Packed? ==> StoresBlocks(j, mode, r.archive)
    ensures r.Packed? ==> IsPacked(r.archive, j.codec, j.x) && !r.archive.mapped
    ensures IsLossless(j.codec, j.block) && j.limit == Unlimited ==> r.Packed?
  {
    r := PackAll(j, mode);
    ghost var trials := BlockTrials(j, mode);
    ghost var sizes := BlockSizes(trials);
    BlocksTried(j, mode, trials, sizes);
    BlocksAreTried(j, mode, trials, sizes);
    assert BlocksTriedAs(j, mode, trials, sizes) && Outcome(trials, sizes, j.limit, r);
  }

  method PackAll(j: Job, mode: Mode) returns (r: Packed)
    requires ValidJob(j) && BlockCount(|j.x|, j.block) <= MAX_COUNT
    ensures Outcome(BlockTrials(j, mode), BlockSizes(BlockTrials(j, mode)), j.limit, r)
    ensures r.Packed? ==> IsPacked(r.archive, j.codec, j.x) && !r.archive.mapped && StoresBlocks(j, mode, r.archive)
    ensures IsLossless(j.codec, j.block) && j.limit == Unlimited ==> r.Packed?
  {
    ghost var trials := BlockTrials(j, mode);
    ghost var sizes := BlockSizes(trials);
    if IsLossless(j.codec, j.block) && j.limit == Unlimited {
      LosslessBlocks(j, mode, trials);
    }
    BlockSizesGrow(trials);
    BlocksTried(j, mode, trials, sizes);
    var count := BlockCount(|j.x|, j.block);
    if Exceeds(IndexSize(false, count), j.limit) {
      OutcomesDiffer(trials, sizes, j.limit, 0, 0);
      assert FailsLarge(trials, sizes, j.limit, 0);
      return Failed(OverLimit);
    }
    var step, extents, data := StoreBlocks(j, mode, count, trials, sizes);
    if step != Stored {
      ghost var i: nat :| StopsAt(trials, sizes, j.limit, i, step.error);
      Stops(trials, sizes, j.limit, i, step.error);
      return Failed(step.error);
    }
    var a := Archive(false, |j.x|, j.block, j.id, extents, data);
    BlocksArePacked(j, a);
    r := Packed(a);
  }

  ghost predicate IsBlockTrial(j: Job, mode: Mode, trials: seq<Trial>, i: nat)
    requires i < |trials|
  {
    trials[i] == BlockTrial(j, mode, i, BlockText(j, i))
  }

  ghost predicate BlockAdds(trials: seq<Trial>, sizes: seq<nat>, i: nat)
    requires i < |trials| && i + 1 < |sizes|
  {
    sizes[i + 1] == sizes[i] + trials[i].stored
  }

  lemma {:induction false} BlocksTried(j: Job, mode: Mode, trials: seq<Trial>, sizes: seq<nat>)
    requires j.block > 0 && trials == BlockTrials(j, mode) && sizes == BlockSizes(trials)
    ensures sizes[0] == IndexSize(false, |trials|)
    ensures forall i: nat :: i < |trials| ==> IsBlockTrial(j, mode, trials, i) && BlockAdds(trials, sizes, i)
  {
    forall i: nat | i < |trials|
      ensures IsBlockTrial(j, mode, trials, i) && BlockAdds(trials, sizes, i)
    {
      BlockTried(j, mode, trials, i);
      SizeAdds(trials, sizes, i);
    }
  }

  lemma {:induction false} BlockTried(j: Job, mode: Mode, trials: seq<Trial>, i: nat)
    requires j.block > 0 && trials == BlockTrials(j, mode) && i < |trials|
    ensures IsBlockTrial(j, mode, trials, i)
  {}

  lemma {:induction false} SizeAdds(trials: seq<Trial>, sizes: seq<nat>, i: nat)
    requires sizes == BlockSizes(trials) && i < |trials|
    ensures BlockAdds(trials, sizes, i)
  {}

  /** Every block in turn, after room for the index. */
  method StoreBlocks(j: Job, mode: Mode, count: nat, ghost trials: seq<Trial>, ghost sizes: seq<nat>)
    returns (step: Step, extents: seq<Extent>, data: seq<Byte>)
    requires ValidJob(j) && count == BlockCount(|j.x|, j.block) && !Exceeds(IndexSize(false, count), j.limit)
    requires |trials| == count && |sizes| == count + 1 && sizes[0] == IndexSize(false, count)
    requires forall i: nat :: i < count ==> IsBlockTrial(j, mode, trials, i) && BlockAdds(trials, sizes, i)
    ensures step == Stored ==> |extents| == count && StoringBlocks(j, extents, data, IndexSize(false, count))
    ensures step == Stored ==> AllChosen(j, mode, extents, data)
    ensures step == Stored ==> AllSurvive(trials, count) && |data| == sizes[count] && !Exceeds(|data|, j.limit)
    ensures step != Stored ==> exists i: nat :: StopsAt(trials, sizes, j.limit, i, step.error)
  {
    var index := IndexSize(false, count);
    step, extents, data := Stored, [], ZeroRun(index);
    for i := 0 to count
      invariant step == Stored && |extents| == i && StoringBlocks(j, extents, data, index)
      invariant AllChosen(j, mode, extents, data)
      invariant AllSurvive(trials, i) && |data| == sizes[i] && !Exceeds(|data|, j.limit)
    {
      assert IsBlockTrial(j, mode, trials, i) && BlockAdds(trials, sizes, i);
      step, extents, data := PackBlock(j, mode, extents, data, index, trials[i]);
      if step != Stored {
        assert StopsAt(trials, sizes, j.limit, i, step.error);
        return;
      }
      SurvivesNext(trials, i);
    }
  }

  lemma {:induction false} BlockExtent(j: Job, a: Archive, i: nat)
    requires ValidJob(j) && a == Archive(false, |j.x|, j.block, j.id, a.extents, a.data)
    requires |a.extents| == BlockCount(|j.x|, j.block) && i < |a.extents|
    requires StoringBlocks(j, a.extents, a.data, IndexSize(false, |a.extents|))
    ensures GoodExtent(j, a, i) && End(a, i) == BlockStart(j, i + 1)
  {
    assert BlockStored(j, a.extents, a.data, IndexSize(false, |a.extents|), i);
    assert Cursor(a, i) == EndOf(a.extents, i, IndexSize(false, |a.extents|));
    assert Start(a, i) == BlockStart(j, i);
  }

  lemma {:induction false} BlocksArePacked(j: Job, a: Archive)
    requires ValidJob(j) && a == Archive(false, |j.x|, j.block, j.id, a.extents, a.data)
    requires |a.extents| == BlockCount(|j.x|, j.block) <= MAX_COUNT
    requires StoringBlocks(j, a.extents, a.data, IndexSize(false, |a.extents|))
    ensures IsPacked(a, j.codec, j.x)
  {
    forall i: nat | i < |a.extents|
      ensures GoodExtent(j, a, i)
    {
      BlockExtent(j, a, i);
    }
    assert Cursor(a, |a.extents|) == EndOf(a.extents, |a.extents|, IndexSize(false, |a.extents|));
    if a.extents == [] {
      NoBlocks(|j.x|, j.block);
    } else {
      BlockExtent(j, a, |a.extents| - 1);
      BlockIsInside(j, |a.extents| - 1);
    }
    AllGood(j, a);
  }

  // ------------------------------------------------------------------ reading back

  /** Open an archive, seek, and read. */
  method ReadAt(a: Archive, codec: Codec, pos: nat, n: int) returns (r: Loaded)
    requires ValidIndex(a, codec)
    ensures forall x :: IsPacked(a, codec, x) ==> r == Bytes(RangeFrom(x, pos, n))
  {
    var reader := OpenArchive(a, codec);
    var ok := reader.Seek(pos, 0);
    ghost var asked := reader.Asked(n);
    r := reader.Read(n);
    ReadOfPacked(a, codec, pos, n, asked, r);
  }

  lemma {:induction false} ReadOfPacked(a: Archive, codec: Codec, pos: nat, n: int, asked: nat, r: Loaded)
    requires ValidIndex(a, codec)
    requires asked == if pos >= a.size then 0 else if n < 0 then a.size - pos else Min(n, a.size - pos)
    requires r.Bytes? ==> |r.bytes| == asked && Spells(Parts(a, codec), pos, r.bytes)
    requires r.Refused? <==> AnyDamage(Parts(a, codec), pos, pos + asked)
    ensures forall x :: IsPacked(a, codec, x) ==> r == Bytes(RangeFrom(x, pos, n))
  {
    forall x | IsPacked(a, codec, x)
      ensures r == Bytes(RangeFrom(x, pos, n))
    {
      ReadIsRange(Parts(a, codec), x, pos, n, asked, r);
    }
  }

  lemma {:induction false} ReadIsRange(parts: seq<Part>, x: seq<Byte>, pos: nat, n: int, asked: nat, r: Loaded)
    requires Hold(parts, x) && asked == |RangeFrom(x, pos, n)|
    requires r.Bytes? ==> |r.bytes| == asked && Spells(parts, pos, r.bytes)
    requires r.Refused? <==> AnyDamage(parts, pos, pos + asked)
    ensures r == Bytes(RangeFrom(x, pos, n))
  {
    NoDamage(parts, x, pos, pos + asked);
    SpellsOriginal(parts, x, pos, r.bytes);
  }

  /** At most n bytes of x from a position on, or all that is left. */
  function RangeFrom(x: seq<Byte>, pos: nat, n: int): seq<Byte> {
    if pos >= |x| then [] else if n < 0 then x[pos..] else x[pos..pos + Min(n, |x| - pos)]
  }

  /** What was packed by plan is what is read, from any position. */
  method PackPlanAndRead(j: Job, plan: seq<Piece>, pos: nat, n: int) returns (r: Packed, part: Loaded)
    requires ValidJob(j) && IsPlan(plan, |j.x|, j.block) && |plan| <= MAX_COUNT
    ensures exists trials, sizes :: PlanTried(j, plan, trials, sizes) && Outcome(trials, sizes, j.limit, r)
    ensures r.Packed? ==> part == Bytes(RangeFrom(j.x, pos, n))
  {
    part := Refused;
    r := PackPlan(j, plan);
    if r.Packed? {
      part := ReadAt(r.archive, j.codec, pos, n);
    }
  }

  /** What was packed by blocks is what is read, from any position. */
  method PackBlocksAndRead(j: Job, mode: Mode, pos: nat, n: int) returns (r: Packed, part: Loaded)
    requires ValidJob(j) && BlockCount(|j.x|, j.block) <= MAX_COUNT
    ensures exists trials, sizes :: BlocksTriedAs(j, mode, trials, sizes) && Outcome(trials, sizes, j.limit, r)
    ensures r.Packed? ==> part == Bytes(RangeFrom(j.x, pos, n))
  {
    part := Refused;
    r := PackBlocks(j, mode);
    if r.Packed? {
      part := ReadAt(r.archive, j.codec, pos, n);
    }
  }
}
