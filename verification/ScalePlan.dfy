/** The plan of a weight file: the safetensors header is checked, the scale tensors of the experts are
    selected, and the file is cut exactly at their boundaries. */
module ScalePlans {
  import opened Numbers
  import opened Archives

  // ------------------------------------------------------------------ the header

  const METADATA := "__metadata__"
  const MAX_HEADER := 0x400_0000

  /** What the header says under a name. A list that is missing or holds anything but integers is empty. */
  datatype Entry = Other | Tensor(offsets: seq<int>, shape: seq<int>, dtype: string)

  datatype Item = Item(name: string, entry: Entry)

  type Range = (nat, nat)

  predicate StartsAt(s: string, part: string, i: nat) {
    i + |part| <= |s| && s[i..i + |part|] == part
  }

  predicate Contains(s: string, part: string) {
    exists i :: 0 <= i <= |s| && StartsAt(s, part, i)
  }

  predicate EndsWith(s: string, part: string) {
    |part| <= |s| && StartsAt(s, part, |s| - |part|)
  }

  /** The names of the expert scales. */
  predicate IsScaleName(name: string) {
    && Contains(name, ".block_sparse_moe.experts.")
    && (EndsWith(name, ".w1.weight_scale") || EndsWith(name, ".w2.weight_scale") || EndsWith(name, ".w3.weight_scale"))
  }

  function PackedName(name: string): (r: string)
    requires IsScaleName(name)
    ensures |r| > |METADATA|
  {
    name[..|name| - |"weight_scale"|] + "weight_packed"
  }

  /** Where a name is, or the number of items. */
  function Find(header: seq<Item>, name: string): (i: nat)
    ensures i <= |header|
    ensures i < |header| ==> header[i].name == name
    ensures forall k :: 0 <= k < i ==> header[k].name != name
  {
    if header == [] || header[0].name == name then 0 else 1 + Find(header[1..], name)
  }

  predicate HasOffsets(e: Entry, room: nat) {
    e.Tensor? && |e.offsets| == 2 && 0 <= e.offsets[0] <= e.offsets[1] <= room
  }

  function RangeOf(e: Entry): Range
    requires e.Tensor? && |e.offsets| == 2 && 0 <= e.offsets[0] <= e.offsets[1]
  {
    (e.offsets[0], e.offsets[1])
  }

  ghost predicate GoodOffsets(items: seq<Item>, room: nat) {
    forall i :: 0 <= i < |items| && items[i].name != METADATA ==> HasOffsets(items[i].entry, room)
  }

  ghost predicate UniqueNames(items: seq<Item>) {
    forall i, j :: 0 <= i < j < |items| ==> items[i].name != items[j].name
  }

  /** The range of a tensor, unless it is empty. */
  function SpanOf(it: Item, room: nat): (r: seq<Range>)
    requires it.name != METADATA ==> HasOffsets(it.entry, room)
    ensures |r| <= 1
  {
    if it.name == METADATA || it.entry.offsets[0] == it.entry.offsets[1] then [] else [RangeOf(it.entry)]
  }

  /** The ranges of the tensors that are not empty, in the header's order. */
  ghost function Spans(items: seq<Item>, room: nat): seq<Range>
    requires GoodOffsets(items, room)
  {
    if items == [] then [] else Spans(items[..|items| - 1], room) + SpanOf(items[|items| - 1], room)
  }

  predicate IsPair(shape: seq<int>) {
    |shape| == 2 && shape[0] > 0 && shape[1] > 0
  }

  /** A scale tensor of bytes beside packed weights of bytes, one scale for sixteen of them. */
  predicate Compatible(tensor: Entry, packed: Entry) {
    && tensor.Tensor? && packed.Tensor? && IsPair(tensor.shape) && IsPair(packed.shape)
    && tensor.dtype == "U8" && packed.dtype == "U8"
    && tensor.shape[0] == packed.shape[0] && tensor.shape[1] * 16 == packed.shape[1]
    && FillsShape(tensor) && FillsShape(packed)
  }

  predicate FillsShape(e: Entry)
    requires e.Tensor? && |e.shape| == 2
  {
    |e.offsets| == 2 && e.shape[0] * e.shape[1] == e.offsets[1] - e.offsets[0]
  }

  predicate IsPaired(header: seq<Item>, it: Item) {
    IsScaleName(it.name) ==>
      var k := Find(header, PackedName(it.name));
      k < |header| && Compatible(it.entry, header[k].entry)
  }

  ghost predicate AllPaired(header: seq<Item>, items: seq<Item>) {
    forall i :: 0 <= i < |items| ==> IsPaired(header, items[i])
  }

  /** Everything the header must be, for tensor data of room bytes. */
  ghost predicate ValidHeader(header: seq<Item>, room: nat) {
    && UniqueNames(header) && GoodOffsets(header, room) && AllApart(Spans(header, room))
    && AllPaired(header, header)
  }

  // ------------------------------------------------------------------ ranges apart

  predicate Apart(a: Range, b: Range) {
    a.1 <= b.0 || b.1 <= a.0
  }

  ghost predicate ApartFrom(a: Range, s: seq<Range>) {
    forall b :: b in s ==> Apart(a, b)
  }

  ghost predicate AllApart(s: seq<Range>) {
    forall i, j :: 0 <= i < j < |s| ==> Apart(s[i], s[j])
  }

  lemma {:induction false} ApartPush(s: seq<Range>, a: Range)
    ensures AllApart(s + [a]) <==> AllApart(s) && ApartFrom(a, s)
  {
    var t := s + [a];
    if AllApart(t) {
      forall i, j | 0 <= i < j < |s|
        ensures Apart(s[i], s[j])
      {
        assert Apart(t[i], t[j]);
      }
      forall b | b in s
        ensures Apart(a, b)
      {
        var i :| 0 <= i < |s| && s[i] == b;
        assert Apart(t[i], t[|s|]);
      }
    }
    if AllApart(s) && ApartFrom(a, s) {
      forall i, j | 0 <= i < j < |t|
        ensures Apart(t[i], t[j])
      {
        assert t[i] == s[i] && s[i] in s;
      }
    }
  }

  lemma {:induction false} ApartCons(a: Range, s: seq<Range>)
    ensures AllApart([a] + s) <==> AllApart(s) && ApartFrom(a, s)
  {
    var t := [a] + s;
    if AllApart(t) {
      forall i, j | 0 <= i < j < |s|
        ensures Apart(s[i], s[j])
      {
        assert Apart(t[i + 1], t[j + 1]);
      }
      forall b | b in s
        ensures Apart(a, b)
      {
        var i :| 0 <= i < |s| && s[i] == b;
        assert Apart(t[0], t[i + 1]);
      }
    }
    if AllApart(s) && ApartFrom(a, s) {
      forall i, j | 0 <= i < j < |t|
        ensures Apart(t[i], t[j])
      {
        assert t[j] == s[j - 1] && s[j - 1] in s;
        assert i > 0 ==> t[i] == s[i - 1];
      }
    }
  }

  lemma {:induction false} ApartFromCons(a: Range, b: Range, s: seq<Range>)
    ensures ApartFrom(a, [b] + s) <==> Apart(a, b) && ApartFrom(a, s)
  {
    assert forall c :: c in [b] + s <==> c == b || c in s;
  }

  lemma {:induction false} ApartFromSame(a: Range, b: Range, s: seq<Range>, t: seq<Range>)
    requires forall c :: c in t <==> c in s || c == b
    ensures ApartFrom(a, t) <==> Apart(a, b) && ApartFrom(a, s)
  {}

  // ------------------------------------------------------------------ sorting

  predicate Before(a: Range, b: Range) {
    a.0 < b.0 || (a.0 == b.0 && a.1 <= b.1)
  }

  ghost predicate Ordered(s: seq<Range>) {
    forall i, j :: 0 <= i < j < |s| ==> Before(s[i], s[j])
  }

  function Insert(s: seq<Range>, a: Range): (r: seq<Range>)
    ensures |r| == |s| + 1
  {
    if s == [] || Before(a, s[0]) then [a] + s else [s[0]] + Insert(s[1..], a)
  }

  function Sorted(s: seq<Range>): (r: seq<Range>)
    ensures |r| == |s|
  {
    if s == [] then [] else Insert(Sorted(s[1..]), s[0])
  }

  lemma {:induction false} InsertKeeps(s: seq<Range>, a: Range)
    ensures forall b :: b in Insert(s, a) <==> b in s || b == a
    ensures AllApart(Insert(s, a)) <==> AllApart(s) && ApartFrom(a, s)
    ensures Ordered(s) ==> Ordered(Insert(s, a))
  {
    if s == [] || Before(a, s[0]) {
      ApartCons(a, s);
      InsertFirst(s, a);
    } else {
      InsertKeeps(s[1..], a);
      assert s == [s[0]] + s[1..];
      ApartCons(s[0], s[1..]);
      ApartCons(s[0], Insert(s[1..], a));
      ApartFromCons(a, s[0], s[1..]);
      ApartFromSame(s[0], a, s[1..], Insert(s[1..], a));
      InsertLater(s, a);
    }
  }

  lemma {:induction false} InsertFirst(s: seq<Range>, a: Range)
    requires s == [] || Before(a, s[0])
    ensures Ordered(s) ==> Ordered([a] + s)
  {
    var t := [a] + s;
    if Ordered(s) {
      forall i, j | 0 <= i < j < |t|
        ensures Before(t[i], t[j])
      {
        assert t[j] == s[j - 1] && (j > 1 ==> Before(s[0], s[j - 1]));
        assert i > 0 ==> t[i] == s[i - 1];
      }
    }
  }

  lemma {:induction false} InsertLater(s: seq<Range>, a: Range)
    requires s != [] && !Before(a, s[0])
    requires Ordered(s[1..]) ==> Ordered(Insert(s[1..], a))
    requires forall b :: b in Insert(s[1..], a) <==> b in s[1..] || b == a
    ensures Ordered(s) ==> Ordered([s[0]] + Insert(s[1..], a))
  {
    if Ordered(s) {
      assert forall i :: 0 <= i < |s[1..]| ==> s[1..][i] == s[i + 1];
      var t := Insert(s[1..], a);
      assert t[0] in t && (t[0] == a || t[0] in s[1..]);
      InsertFirst(t, s[0]);
    }
  }

  /** Sorting keeps the ranges, orders them, and keeps whether they are apart. */
  lemma {:induction false} SortedKeeps(s: seq<Range>)
    ensures forall b :: b in Sorted(s) <==> b in s
    ensures AllApart(Sorted(s)) <==> AllApart(s)
    ensures Ordered(Sorted(s))
  {
    if s != [] {
      SortedKeeps(s[1..]);
      InsertKeeps(Sorted(s[1..]), s[0]);
      assert s == [s[0]] + s[1..];
      ApartCons(s[0], s[1..]);
    }
  }

  ghost predicate NoneEmpty(s: seq<Range>) {
    forall r :: r in s ==> r.0 < r.1
  }

  ghost predicate EndsFirst(s: seq<Range>, i: nat, j: nat) {
    i < |s| && j < |s| && s[i].1 <= s[j].0
  }

  predicate EndsBeforeNext(s: seq<Range>, i: nat) {
    i + 1 < |s| ==> s[i].1 <= s[i + 1].0
  }

  /** Each range ends before the next begins. */
  predicate NeighboursApart(s: seq<Range>) {
    forall i: nat :: i < |s| ==> EndsBeforeNext(s, i)
  }

  lemma {:induction false} NeighboursReach(s: seq<Range>, i: nat, j: nat)
    requires NoneEmpty(s) && NeighboursApart(s) && i < j < |s|
    ensures EndsFirst(s, i, j)
    decreases j - i
  {
    assert EndsBeforeNext(s, j - 1);
    if i + 1 < j {
      NeighboursReach(s, i, j - 1);
      assert s[j - 1] in s;
    }
  }

  /** Of ordered ranges it is enough to look at neighbours. */
  lemma {:induction false} NeighboursSuffice(s: seq<Range>)
    requires Ordered(s) && NoneEmpty(s)
    ensures NeighboursApart(s) <==> AllApart(s)
    ensures NeighboursApart(s) ==> forall i: nat, j: nat :: i < j < |s| ==> EndsFirst(s, i, j)
  {
    if NeighboursApart(s) {
      forall i: nat, j: nat | i < j < |s|
        ensures EndsFirst(s, i, j)
      {
        NeighboursReach(s, i, j);
      }
      forall i, j | 0 <= i < j < |s|
        ensures Apart(s[i], s[j])
      {
        NeighboursReach(s, i, j);
      }
    }
    if AllApart(s) {
      forall i: nat | i < |s|
        ensures EndsBeforeNext(s, i)
      {
        if i + 1 < |s| {
          assert Apart(s[i], s[i + 1]) && Before(s[i], s[i + 1]) && s[i] in s && s[i + 1] in s;
        }
      }
    }
  }

  // ------------------------------------------------------------------ the selected ranges

  /** The range of a scale tensor in the file. */
  function ScaleOf(it: Item, base: nat, room: nat): (r: seq<Range>)
    requires it.name != METADATA ==> HasOffsets(it.entry, room)
  {
    if it.name == METADATA || !IsScaleName(it.name) then []
    else [(base + it.entry.offsets[0], base + it.entry.offsets[1])]
  }

  /** The ranges of the scale tensors, in the header's order. */
  ghost function Selected(items: seq<Item>, base: nat, room: nat): seq<Range>
    requires GoodOffsets(items, room)
  {
    if items == [] then [] else Selected(items[..|items| - 1], base, room) + ScaleOf(items[|items| - 1], base, room)
  }

  lemma {:induction false} Positive(a: int, b: int)
    requires a > 0 && b > 0
    ensures a * b > 0
  {}

  /** A paired scale tensor is not empty. */
  lemma {:induction false} PairedIsWide(header: seq<Item>, it: Item)
    requires IsPaired(header, it) && IsScaleName(it.name)
    ensures IsWide(it.entry)
  {
    Positive(it.entry.shape[0], it.entry.shape[1]);
  }

  ghost predicate Shifted(s: seq<Range>, spans: seq<Range>, base: nat) {
    forall r :: r in s ==> r.0 >= base && r.1 >= base && (r.0 - base, r.1 - base) in spans
  }

  predicate IsWide(e: Entry) {
    e.Tensor? && |e.offsets| == 2 && e.offsets[0] < e.offsets[1]
  }

  ghost predicate ScalesAreWide(items: seq<Item>) {
    forall i :: 0 <= i < |items| && IsScaleName(items[i].name) ==> IsWide(items[i].entry)
  }

  lemma {:induction false} PairedAreWide(header: seq<Item>, items: seq<Item>)
    requires AllPaired(header, items)
    ensures ScalesAreWide(items)
  {
    forall i | 0 <= i < |items| && IsScaleName(items[i].name)
      ensures IsWide(items[i].entry)
    {
      PairedIsWide(header, items[i]);
    }
  }

  /** The scales are tensors of the header, so they are apart when all its tensors are. */
  lemma {:induction false} SelectedAreSpans(items: seq<Item>, base: nat, room: nat)
    requires GoodOffsets(items, room) && ScalesAreWide(items)
    ensures Shifted(Selected(items, base, room), Spans(items, room), base)
    ensures AllApart(Spans(items, room)) ==> AllApart(Selected(items, base, room))
    ensures InRoom(Spans(items, room), room)
  {
    if items != [] {
      var front, it := items[..|items| - 1], items[|items| - 1];
      SelectedAreSpans(front, base, room);
      var scale, span := ScaleOf(it, base, room), SpanOf(it, room);
      ScaleIsSpan(it, base, room);
      ShiftedPush(Selected(front, base, room), Spans(front, room), base, room, scale, span);
    }
  }

  ghost predicate IsShift(scale: seq<Range>, span: seq<Range>, base: nat) {
    scale == [] || (|scale| == |span| == 1 && scale[0] == (base + span[0].0, base + span[0].1))
  }

  lemma {:induction false} ScaleIsSpan(it: Item, base: nat, room: nat)
    requires it.name != METADATA ==> HasOffsets(it.entry, room)
    requires IsScaleName(it.name) ==> IsWide(it.entry)
    ensures IsShift(ScaleOf(it, base, room), SpanOf(it, room), base) && InRoom(SpanOf(it, room), room)
  {}

  ghost predicate InRoom(s: seq<Range>, room: nat) {
    forall r :: r in s ==> r.0 < r.1 <= room
  }

  lemma {:induction false} ShiftedPush(s: seq<Range>, spans: seq<Range>, base: nat, room: nat, scale: seq<Range>,
                                       span: seq<Range>)
    requires Shifted(s, spans, base) && InRoom(spans, room) && (AllApart(spans) ==> AllApart(s))
    requires IsShift(scale, span, base) && InRoom(span, room) && |span| <= 1
    ensures Shifted(s + scale, spans + span, base) && InRoom(spans + span, room)
    ensures AllApart(spans + span) ==> AllApart(s + scale)
  {
    if span == [] {
      assert s + scale == s && spans + span == spans;
    } else {
      ApartPush(spans, span[0]);
      assert spans + span == spans + [span[0]];
      if scale != [] {
        ApartPush(s, scale[0]);
        assert s + scale == s + [scale[0]];
      } else {
        assert s + scale == s;
      }
    }
  }

  // ------------------------------------------------------------------ cutting

  datatype Piece = Piece(lo: nat, hi: nat, kind: Kind)

  /** Consecutive pieces from 0 to end, none empty; frames no longer than a block. */
  ghost predicate IsPlan(plan: seq<Piece>, end: nat, block: nat) {
    && (forall i: nat :: i < |plan| ==> PieceFits(plan, i, block))
    && end == if plan == [] then 0 else plan[|plan| - 1].hi
  }

  ghost predicate PieceFits(plan: seq<Piece>, i: nat, block: nat)
    requires i < |plan|
  {
    && plan[i].lo < plan[i].hi && plan[i].kind != Shuffled
        && (plan[i].kind == Frame ==> plan[i].hi - plan[i].lo <= block)
    && plan[i].lo == if i == 0 then 0 else plan[i - 1].hi
  }

  /** Ranges in order, apart, and inside the file. */
  ghost predicate AreScales(scales: seq<Range>, size: nat) {
    && (forall i :: 0 <= i < |scales| ==> scales[i].0 < scales[i].1 <= size)
    && forall i, j :: 0 <= i < j < |scales| ==> scales[i].1 <= scales[j].0
  }

  ghost predicate InRange(r: Range, b: nat) {
    r.0 <= b < r.1
  }

  /** A byte of the file belongs to a scale. */
  ghost predicate InScales(scales: seq<Range>, b: nat) {
    exists r :: r in scales && InRange(r, b)
  }

  ghost predicate FrameHas(plan: seq<Piece>, i: nat, b: nat) {
    i < |plan| && plan[i].kind == Frame && plan[i].lo <= b < plan[i].hi
  }

  /** A byte of the file is in a frame of the plan. */
  ghost predicate InFrames(plan: seq<Piece>, b: nat) {
    exists i: nat :: FrameHas(plan, i, b)
  }

  /** The frames are exactly the scales. */
  ghost predicate FramesAre(plan: seq<Piece>, scales: seq<Range>) {
    forall b: nat :: InFrames(plan, b) <==> InScales(scales, b)
  }

  /** A frame of this scale that is a whole block or ends with it. */
  ghost predicate FrameOf(r: Range, p: Piece, block: nat) {
    r.0 <= p.lo && p.hi <= r.1 && (p.hi - p.lo == block || p.hi == r.1)
  }

  /** No piece could be joined to the one after it. */
  ghost predicate IsTight(plan: seq<Piece>, i: nat, scales: seq<Range>, block: nat)
    requires i < |plan|
  {
    && (plan[i].kind == Frame ==> exists r :: r in scales && FrameOf(r, plan[i], block))
    && (plan[i].kind == Raw && i + 1 < |plan| ==> plan[i + 1].kind == Frame)
  }

  ghost predicate AllTight(plan: seq<Piece>, scales: seq<Range>, block: nat) {
    forall i: nat :: i < |plan| ==> IsTight(plan, i, scales, block)
  }

  predicate EndsRaw(plan: seq<Piece>) {
    plan != [] && plan[|plan| - 1].kind == Raw
  }

  lemma {:induction false} PushFits(plan: seq<Piece>, end: nat, block: nat, p: Piece)
    requires IsPlan(plan, end, block) && p.lo == end < p.hi && p.kind != Shuffled
    requires p.kind == Frame ==> p.hi - p.lo <= block
    ensures IsPlan(plan + [p], p.hi, block)
  {
    var q := plan + [p];
    forall i: nat | i < |q|
      ensures PieceFits(q, i, block)
    {
      assert i < |plan| ==> PieceFits(plan, i, block);
    }
  }

  lemma {:induction false} PushFrames(plan: seq<Piece>, p: Piece)
    ensures forall b: nat :: InFrames(plan + [p], b) <==> InFrames(plan, b) || (p.kind == Frame && p.lo <= b < p.hi)
  {
    var q := plan + [p];
    forall b: nat
      ensures InFrames(q, b) <==> InFrames(plan, b) || (p.kind == Frame && p.lo <= b < p.hi)
    {
      if InFrames(plan, b) {
        var i: nat :| FrameHas(plan, i, b);
        assert FrameHas(q, i, b);
      } else if p.kind == Frame && p.lo <= b < p.hi {
        assert FrameHas(q, |plan|, b);
      } else if i: nat :| FrameHas(q, i, b) {
        assert i < |plan| ==> FrameHas(plan, i, b);
      }
    }
  }

  lemma {:induction false} PushTight(plan: seq<Piece>, scales: seq<Range>, block: nat, p: Piece)
    requires AllTight(plan, scales, block) && (p.kind == Frame || !EndsRaw(plan))
    requires p.kind == Frame ==> exists r :: r in scales && FrameOf(r, p, block)
    ensures AllTight(plan + [p], scales, block)
  {
    var q := plan + [p];
    forall i: nat | i < |q|
      ensures IsTight(q, i, scales, block)
    {
      if i < |plan| {
        assert IsTight(plan, i, scales, block) && q[i] == plan[i];
      }
    }
  }

  /** The plan so far covers the file up to end, and its frames the first k scales. */
  ghost predicate Planned(plan: seq<Piece>, end: nat, scales: seq<Range>, k: nat, block: nat)
    requires k <= |scales|
  {
    IsPlan(plan, end, block) && AllTight(plan, scales, block) && FramesAre(plan, scales[..k])
  }

  /** Raw bytes up to an offset, if there are any. */
  method PushRaw(before: seq<Piece>, lo: nat, hi: nat, ghost scales: seq<Range>, ghost k: nat, block: nat)
    returns (plan: seq<Piece>)
    requires k <= |scales| && Planned(before, lo, scales, k, block) && lo <= hi && !EndsRaw(before)
    ensures Planned(plan, hi, scales, k, block)
  {
    plan := before;
    if lo < hi {
      var p := Piece(lo, hi, Raw);
      PushFits(plan, lo, block, p);
      PushFrames(plan, p);
      PushTight(plan, scales, block, p);
      plan := plan + [p];
    }
  }

  /** Cut one scale into frames of at most a block. */
  method CutScale(before: seq<Piece>, r: Range, ghost scales: seq<Range>, block: nat) returns (plan: seq<Piece>)
    requires block > 0 && r.0 < r.1 && IsPlan(before, r.0, block) && AllTight(before, scales, block) && r in scales
    ensures IsPlan(plan, r.1, block) && AllTight(plan, scales, block) && !EndsRaw(plan)
    ensures forall b: nat :: InFrames(plan, b) <==> InFrames(before, b) || InRange(r, b)
  {
    plan := before;
    var lo := r.0;
    while lo < r.1
      invariant r.0 <= lo <= r.1 && IsPlan(plan, lo, block) && AllTight(plan, scales, block)
      invariant lo > r.0 ==> !EndsRaw(plan)
      invariant forall b: nat :: InFrames(plan, b) <==> InFrames(before, b) || r.0 <= b < lo
      decreases r.1 - lo
    {
      var end := Min(r.1, lo + block);
      var p := Piece(lo, end, Frame);
      PushFits(plan, lo, block, p);
      PushFrames(plan, p);
      assert FrameOf(r, p, block);
      PushTight(plan, scales, block, p);
      plan := plan + [p];
      lo := end;
    }
  }

  lemma {:induction false} InScalesNext(scales: seq<Range>, k: nat)
    requires k < |scales|
    ensures forall b: nat :: InScales(scales[..k + 1], b) <==> InScales(scales[..k], b) || InRange(scales[k], b)
  {
    assert scales[..k + 1] == scales[..k] + [scales[k]];
  }

  /** Cut the file at the scales: it is partitioned, and the frames cover exactly the scales. */
  method CutFile(scales: seq<Range>, size: nat, block: nat) returns (plan: seq<Piece>)
    requires block > 0 && AreScales(scales, size)
    ensures IsPlan(plan, size, block) && AllTight(plan, scales, block) && FramesAre(plan, scales)
  {
    plan := [];
    var cursor: nat := 0;
    for k := 0 to |scales|
      invariant Planned(plan, cursor, scales, k, block) && cursor <= size && !EndsRaw(plan)
      invariant cursor == if k == 0 then 0 else scales[k - 1].1
    {
      plan := PushRaw(plan, cursor, scales[k].0, scales, k, block);
      plan := CutScale(plan, scales[k], scales, block);
      InScalesNext(scales, k);
      cursor := scales[k].1;
    }
    plan := PushRaw(plan, cursor, size, scales, |scales|, block);
    assert scales[..|scales|] == scales;
  }

  // ------------------------------------------------------------------ the plan

  datatype Outcome = NoPlan | Plan(pieces: seq<Piece>)

  lemma {:induction false} NextIsNew(header: seq<Item>, i: nat)
    requires i < |header|
    ensures UniqueNames(header[..i + 1]) <==> UniqueNames(header[..i]) && Find(header[..i], header[i].name) == i
    ensures UniqueNames(header) ==> UniqueNames(header[..i + 1])
  {
    var front, next := header[..i], header[..i + 1];
    var k := Find(front, header[i].name);
    assert next[i] == header[i] && forall a :: 0 <= a < i ==> next[a] == front[a];
    if k < i {
      assert next[k].name == next[i].name;
    } else if UniqueNames(front) {
      forall a, b | 0 <= a < b < |next|
        ensures next[a].name != next[b].name
      {
        assert b < i ==> front[a].name != front[b].name;
      }
    }
    if UniqueNames(next) {
      forall a, b | 0 <= a < b < |front|
        ensures front[a].name != front[b].name
      {
        assert next[a].name != next[b].name;
      }
    }
  }

  lemma {:induction false} NextOffsets(header: seq<Item>, i: nat, room: nat)
    requires i < |header|
    ensures GoodOffsets(header[..i + 1], room) <==>
              GoodOffsets(header[..i], room) && (header[i].name != METADATA ==> HasOffsets(header[i].entry, room))
    ensures GoodOffsets(header, room) ==> GoodOffsets(header[..i + 1], room)
    ensures GoodOffsets(header[..i + 1], room) ==>
              Spans(header[..i + 1], room) == Spans(header[..i], room) + SpanOf(header[i], room)
  {
    var next := header[..i + 1];
    assert next[..i] == header[..i] && next[i] == header[i];
    if GoodOffsets(header[..i], room) && (header[i].name != METADATA ==> HasOffsets(header[i].entry, room)) {
      forall k | 0 <= k < i + 1 && next[k].name != METADATA
        ensures HasOffsets(next[k].entry, room)
      {
        assert k < i ==> next[k] == header[..i][k];
      }
    }
  }

  /** One pass over the tensors: their offsets, and the ranges of those that are not empty. */
  method CheckTensors(header: seq<Item>, room: nat) returns (ok: bool, spans: seq<Range>)
    ensures ok <==> UniqueNames(header) && GoodOffsets(header, room)
    ensures ok ==> spans == Spans(header, room)
  {
    spans := [];
    for i := 0 to |header|
      invariant UniqueNames(header[..i]) && GoodOffsets(header[..i], room)
      invariant spans == Spans(header[..i], room)
    {
      var it := header[i];
      NextIsNew(header, i);
      NextOffsets(header, i, room);
      if Find(header[..i], it.name) < i || (it.name != METADATA && !HasOffsets(it.entry, room)) {
        return false, spans;
      }
      spans := spans + SpanOf(it, room);
    }
    assert header[..|header|] == header;
    ok := true;
  }

  lemma {:induction false} NextPaired(header: seq<Item>, i: nat, base: nat, room: nat)
    requires i < |header| && GoodOffsets(header, room)
    ensures AllPaired(header, header[..i + 1]) <==> AllPaired(header, header[..i]) && IsPaired(header, header[i])
    ensures Selected(header[..i + 1], base, room) == Selected(header[..i], base, room) + ScaleOf(header[i], base, room)
  {
    var next := header[..i + 1];
    assert next[..i] == header[..i] && next[i] == header[i];
    if AllPaired(header, header[..i]) && IsPaired(header, header[i]) {
      forall k | 0 <= k < i + 1
        ensures IsPaired(header, next[k])
      {
        assert k < i ==> next[k] == header[..i][k];
      }
    }
    if AllPaired(header, next) {
      forall k | 0 <= k < i
        ensures IsPaired(header, header[..i][k])
      {
        assert next[k] == header[..i][k];
      }
    }
  }

  /** A second pass: every scale tensor is paired, and their ranges in the file. */
  method SelectScales(header: seq<Item>, base: nat, room: nat) returns (ok: bool, selected: seq<Range>)
    requires GoodOffsets(header, room)
    ensures ok <==> AllPaired(header, header)
    ensures ok ==> selected == Selected(header, base, room)
  {
    selected := [];
    for i := 0 to |header|
      invariant AllPaired(header, header[..i]) && selected == Selected(header[..i], base, room)
    {
      NextPaired(header, i, base, room);
      var it := header[i];
      if !IsPaired(header, it) {
        return false, selected;
      }
      selected := selected + ScaleOf(it, base, room);
    }
    assert header[..|header|] == header;
    ok := true;
  }

  lemma {:induction false} SelectedAreScales(header: seq<Item>, base: nat, room: nat)
    requires ValidHeader(header, room)
    ensures var s := Sorted(Selected(header, base, room));
            AreScales(s, base + room) && forall b :: b in s <==> b in Selected(header, base, room)
  {
    var selected, spans := Selected(header, base, room), Spans(header, room);
    PairedAreWide(header, header);
    SelectedAreSpans(header, base, room);
    SortedKeeps(selected);
    var s := Sorted(selected);
    assert forall r :: r in selected ==> (r.0 - base, r.1 - base) in spans;
    NeighboursSuffice(s);
  }

  /** What a file and its header must be for a plan. */
  ghost predicate Accepts(header: seq<Item>, length: nat, size: nat, block: nat) {
    && ValidBlock(block) && 8 <= size <= MAX_SIZE && 2 <= length <= MAX_HEADER && 8 + length <= size
    && ValidHeader(header, size - 8 - length)
  }

  /** The scale tensors' ranges in the file. */
  ghost function ScalesOf(header: seq<Item>, length: nat, size: nat): seq<Range>
    requires 8 + length <= size && GoodOffsets(header, size - 8 - length)
  {
    Selected(header, 8 + length, size - 8 - length)
  }

  /** The pieces of a file whose header is valid. */
  method PlanHeader(header: seq<Item>, base: nat, room: nat, block: nat) returns (ok: bool, plan: seq<Piece>)
    requires block > 0
    ensures ok <==> ValidHeader(header, room)
    ensures ok ==> IsScalePlan(plan, Selected(header, base, room), base + room, block)
  {
    plan := [];
    var spans, selected;
    ok, spans := CheckTensors(header, room);
    if !ok {
      return;
    }
    NeighboursOfSpans(header, room);
    if !NeighboursApart(Sorted(spans)) {
      return false, plan;
    }
    ok, selected := SelectScales(header, base, room);
    if !ok {
      return;
    }
    SelectedAreScales(header, base, room);
    plan := CutFile(Sorted(selected), base + room, block);
    SameScales(plan, Sorted(selected), selected, block);
  }

  /** The plan partitions the whole file, its frames cover exactly the scales, and no piece could be
      joined to the next. */
  ghost predicate IsScalePlan(plan: seq<Piece>, scales: seq<Range>, size: nat, block: nat) {
    IsPlan(plan, size, block) && FramesAre(plan, scales) && AllTight(plan, scales, block)
  }

  /** The plan of a file by its header; or the header is refused, or the plan is too long. */
  method ScalePlan(header: seq<Item>, length: nat, size: nat, block: nat) returns (r: Outcome, ghost plan: seq<Piece>)
    ensures !Accepts(header, length, size, block) ==> r == NoPlan
    ensures Accepts(header, length, size, block) ==>
              && IsScalePlan(plan, ScalesOf(header, length, size), size, block)
              && r == if |plan| <= MAX_COUNT then Plan(plan) else NoPlan
  {
    plan := [];
    if !ValidBlock(block) || size < 8 || size > MAX_SIZE || length < 2 || length > Min(MAX_HEADER, size - 8) {
      return NoPlan, plan;
    }
    var ok, pieces := PlanHeader(header, 8 + length, size - 8 - length, block);
    plan := pieces;
    r := if ok && |pieces| <= MAX_COUNT then Plan(pieces) else NoPlan;
  }

  lemma {:induction false} NeighboursOfSpans(header: seq<Item>, room: nat)
    requires GoodOffsets(header, room)
    ensures NeighboursApart(Sorted(Spans(header, room))) <==> AllApart(Spans(header, room))
  {
    var spans := Spans(header, room);
    SpansAreWide(header, room);
    SortedKeeps(spans);
    NeighboursSuffice(Sorted(spans));
  }

  lemma {:induction false} SpansAreWide(items: seq<Item>, room: nat)
    requires GoodOffsets(items, room)
    ensures NoneEmpty(Spans(items, room))
  {
    if items != [] {
      SpansAreWide(items[..|items| - 1], room);
    }
  }

  lemma {:induction false} SameScales(plan: seq<Piece>, s: seq<Range>, t: seq<Range>, block: nat)
    requires FramesAre(plan, s) && AllTight(plan, s, block) && forall r :: r in s <==> r in t
    ensures FramesAre(plan, t) && AllTight(plan, t, block)
  {
    forall i: nat | i < |plan|
      ensures IsTight(plan, i, t, block)
    {
      assert IsTight(plan, i, s, block);
    }
    forall b: nat
      ensures InFrames(plan, b) <==> InScales(t, b)
    {
      assert InFrames(plan, b) <==> InScales(s, b);
    }
  }
}
