/** The row index: any range of rows of a stream is itself a stream. */
module FixedRows {
  import opened Numbers
  import opened BitStrings
  import opened FixedCodes
  import opened FixedDictionaries
  import FixedVectors

  /** Checkpoints: entry j is the escapes stored before row j * group. */
  datatype Rows = Rows(entry: seq<nat>, rows: nat, cols: nat, group: nat)

  function Entries(rows: nat, group: nat): nat
    requires group > 0
  {
    Quotient(rows, group) + if Leftover(rows, group) != 0 then 1 else 0
  }

  /** An index that fits the stream's shape. */
  ghost predicate FitsStream(x: Rows, whole: View) {
    && x.cols > 0 && x.group > 0 && Times(x.rows, x.cols) == whole.values && Times(x.cols, whole.bits) % 8 == 0
    && |x.entry| == Entries(x.rows, x.group)
    && whole.rawBytes == 2 * whole.values
  }

  /** The checkpoints are the true escape counts. */
  ghost predicate TrueCheckpoints(x: Rows, whole: View)
    requires Readable(whole)
  {
    FitsStream(x, whole) && forall j :: 0 <= j < |x.entry| ==> TrueCheckpoint(x, whole, j)
  }

  ghost predicate TrueCheckpoint(x: Rows, whole: View, j: nat)
    requires Readable(whole) && j < |x.entry|
  {
    RowStart(x, Times(j, x.group)) <= whole.values && x.entry[j] == EscapesBefore(whole, RowStart(x, Times(j, x.group)))
  }

  /** The first value of a row. */
  function RowStart(x: Rows, row: nat): nat {
    Times(row, x.cols)
  }

  lemma {:induction false} RowStartFits(x: Rows, whole: View, first: nat, last: nat)
    requires FitsStream(x, whole) && first <= last <= x.rows
    ensures RowStart(x, first) <= RowStart(x, last) <= whole.values
    ensures RowStart(x, last) - RowStart(x, first) == Times(last - first, x.cols)
  {
    TimesGrows(first, last, x.cols);
    TimesGrows(last, x.rows, x.cols);
    TimesAdd(first, last - first, x.cols);
  }

  // ------------------------------------------------------------------ slices of a plane

  lemma {:induction false} PlaneSlice(s: seq<Byte>, o: nat, p: nat)
    requires o <= p <= |s|
    ensures Plane(s[o..p]) == Plane(s)[8 * o..8 * p]
  {
    assert s == s[..o] + s[o..p] + s[p..];
    PlaneConcat(s[..o], s[o..p]);
    PlaneConcat(s[..o] + s[o..p], s[p..]);
  }

  lemma {:induction false} FieldOfSlice(s: seq<Byte>, o: nat, p: nat, a: nat, n: nat)
    requires o <= p <= |s| && a + n <= 8 * (p - o)
    ensures Plane(s[o..p])[a..a + n] == Plane(s)[8 * o + a..8 * o + a + n]
  {
    PlaneSlice(s, o, p);
    SliceOfSlice(Plane(s), 8 * o, 8 * (p - o), a, n);
  }

  /** Code i of a slice that starts at a whole byte is code k + i of the plane. */
  lemma {:induction false} CodeOfSlice(s: seq<Byte>, bits: Width, o: nat, p: nat, k: nat, i: nat)
    requires o <= p <= |s| && bits * k == 8 * o && bits * i + bits <= 8 * (p - o)
    ensures bits * (k + i) + bits <= 8 * |s| && CodeAt(s[o..p], bits, i) == CodeAt(s, bits, k + i)
  {
    Distribute(bits, k, i);
    assert bits * (k + i) == 8 * o + bits * i;
    FieldOfSlice(s, o, p, bits * i, bits);
    SameField(s[o..p], s, bits, i, k + i);
  }

  lemma {:induction false} SameField(s: seq<Byte>, t: seq<Byte>, bits: Width, i: nat, j: nat)
    requires bits * i + bits <= 8 * |s| && bits * j + bits <= 8 * |t|
    requires Plane(s)[bits * i..bits * i + bits] == Plane(t)[bits * j..bits * j + bits]
    ensures CodeAt(s, bits, i) == CodeAt(t, bits, j)
  {
    CodeAtIsField(s, bits, i);
    CodeAtIsField(t, bits, j);
    EscapeIsLast(bits);
    LsbInjective(CodeAt(s, bits, i), CodeAt(t, bits, j), bits);
  }

  // ------------------------------------------------------------------ a range of rows

  function RowBytes(x: Rows, bits: Width): nat {
    Times(x.cols, bits) / 8
  }

  /** Rows [first, last) as a view: slices of the index, low and escape planes. */
  function RowsOf(x: Rows, whole: View, first: nat, last: nat, e0: nat, e1: nat): View
    requires Readable(whole) && first <= last && e0 <= e1 <= whole.escapes
    requires Times(first, RowBytes(x, whole.bits)) <= Times(last, RowBytes(x, whole.bits)) <= |whole.index|
    requires RowStart(x, first) <= RowStart(x, last) <= |whole.low|
  {
    whole.(index := whole.index[Times(first, RowBytes(x, whole.bits))..Times(last, RowBytes(x, whole.bits))],
           low := whole.low[RowStart(x, first)..RowStart(x, last)], escape := whole.escape[e0..],
           values := RowStart(x, last) - RowStart(x, first), rawBytes := 2 * (RowStart(x, last) - RowStart(x, first)),
           escapes := e1 - e0)
  }

  lemma {:induction false} RowBytesFit(x: Rows, whole: View, row: nat)
    requires Readable(whole) && FitsStream(x, whole) && row <= x.rows
    ensures whole.bits * RowStart(x, row) == 8 * (Times(row, RowBytes(x, whole.bits)))
    ensures Times(row, RowBytes(x, whole.bits)) <= |whole.index|
  {
    var w := RowBytes(x, whole.bits);
    ByteRows(row, x.cols, whole.bits, w);
    ByteRows(x.rows, x.cols, whole.bits, w);
    TimesGrows(row, x.rows, w);
  }

  lemma {:induction false} ByteRows(row: nat, cols: nat, bits: nat, w: nat)
    requires Times(cols, bits) == 8 * w
    ensures bits * Times(row, cols) == 8 * Times(row, w)
  {
    if row == 0 {
      assert bits * 0 == 0;
    } else {
      ByteRows(row - 1, cols, bits, w);
      TimesIsProduct(cols, bits);
      Distribute(bits, Times(row - 1, cols), cols);
    }
  }

  /** The range is well shaped, whatever the two escape counts. */
  lemma {:induction false} RangeShape(x: Rows, whole: View, first: nat, last: nat)
    requires Readable(whole) && FitsStream(x, whole) && first <= last <= x.rows
    ensures var w := RowBytes(x, whole.bits);
            && Times(first, w) <= Times(last, w) <= |whole.index|
            && RowStart(x, first) <= RowStart(x, last) <= whole.values <= |whole.low|
            && Times(last, w) - Times(first, w) == PlaneSize(RowStart(x, last) - RowStart(x, first), whole.bits)
  {
    var w := RowBytes(x, whole.bits);
    RowStartFits(x, whole, first, last);
    RowBytesFit(x, whole, first);
    RowBytesFit(x, whole, last);
    TimesGrows(first, last, w);
    Distribute(whole.bits, RowStart(x, first), RowStart(x, last) - RowStart(x, first));
  }

  ghost predicate IsRange(x: Rows, whole: View, first: nat, last: nat, e0: nat, e1: nat, part: View) {
    && Readable(whole) && FitsStream(x, whole) && first <= last <= x.rows && e0 <= e1 <= whole.escapes
    && Times(first, RowBytes(x, whole.bits)) <= Times(last, RowBytes(x, whole.bits)) <= |whole.index|
    && RowStart(x, first) <= RowStart(x, last) <= whole.values
    && part == RowsOf(x, whole, first, last, e0, e1)
  }

  lemma {:induction false} RangeIsReadable(x: Rows, whole: View, first: nat, last: nat, e0: nat, e1: nat, part: View)
    requires IsRange(x, whole, first, last, e0, e1, part)
    ensures Readable(part)
  {
    RangeShape(x, whole, first, last);
  }

  lemma {:induction false} CodeOfRange(x: Rows, whole: View, first: nat, last: nat, e0: nat, e1: nat, part: View,
                                       i: nat)
    requires IsRange(x, whole, first, last, e0, e1, part) && Readable(part) && i < part.values
    ensures Code(part, i) == Code(whole, RowStart(x, first) + i)
  {
    RowBytesFit(x, whole, first);
    InPlane(part.values, part.bits, i);
    CodeOfSlice(whole.index, whole.bits, Times(first, RowBytes(x, whole.bits)), Times(last, RowBytes(x, whole.bits)),
                RowStart(x, first), i);
  }

  ghost predicate EscapesMatch(part: View, whole: View, k: nat, i: nat)
    requires Readable(part) && Readable(whole)
  {
    i < part.values && k + i < whole.values && (Escapes(part, i) <==> Escapes(whole, k + i))
  }

  /** Of the first n positions, those with a flag. */
  ghost function CountOf(flag: nat -> bool, n: nat): nat {
    if n == 0 then 0 else CountOf(flag, n - 1) + if flag(n - 1) then 1 else 0
  }

  ghost function EscapeFlags(v: View): nat -> bool
    requires Readable(v)
  {
    (i: nat) => Readable(v) && i < v.values && Escapes(v, i)
  }

  lemma {:induction false} EscapesAreFlags(v: View, n: nat)
    requires Readable(v) && n <= v.values
    ensures EscapesBefore(v, n) == CountOf(EscapeFlags(v), n)
  {
    if n > 0 {
      EscapesAreFlags(v, n - 1);
      EscapesNext(v, n - 1);
    }
  }

  lemma {:induction false} FlagsFollow(part: nat -> bool, whole: nat -> bool, k: nat, n: nat)
    requires forall i: nat :: i < n ==> part(i) == whole(k + i)
    ensures CountOf(whole, k + n) == CountOf(whole, k) + CountOf(part, n)
  {
    if n > 0 {
      FlagsFollow(part, whole, k, n - 1);
      assert part(n - 1) == whole(k + (n - 1));
    }
  }

  lemma {:induction false} MatchedCounts(part: View, whole: View, k: nat, n: nat)
    requires Readable(part) && Readable(whole) && n <= part.values && k + n <= whole.values
    requires forall i: nat :: i < part.values ==> EscapesMatch(part, whole, k, i)
    ensures CountOf(EscapeFlags(whole), k + n) == CountOf(EscapeFlags(whole), k) + CountOf(EscapeFlags(part), n)
  {
    forall i: nat | i < n
      ensures EscapeFlags(part)(i) == EscapeFlags(whole)(k + i)
    {
      assert EscapesMatch(part, whole, k, i);
    }
    FlagsFollow(EscapeFlags(part), EscapeFlags(whole), k, n);
  }

  lemma {:induction false} EscapesFollow(part: View, whole: View, k: nat, n: nat)
    requires Readable(part) && Readable(whole) && n <= part.values && k + n <= whole.values
    requires forall i: nat :: i < part.values ==> EscapesMatch(part, whole, k, i)
    ensures EscapesBefore(whole, k + n) == EscapesBefore(whole, k) + EscapesBefore(part, n)
  {
    MatchedCounts(part, whole, k, n);
    EscapesAreFlags(whole, k + n);
    EscapesAreFlags(whole, k);
    EscapesAreFlags(part, n);
  }

  /** The range has the escapes that the whole has between its ends. */
  lemma {:induction false} EscapesOfRange(x: Rows, whole: View, first: nat, last: nat, e0: nat, e1: nat, part: View,
                                          n: nat)
    requires IsRange(x, whole, first, last, e0, e1, part) && Readable(part) && n <= part.values
    ensures EscapesBefore(whole, RowStart(x, first) + n) ==
            EscapesBefore(whole, RowStart(x, first)) + EscapesBefore(part, n)
  {
    RangeIsFrom(x, whole, first, last, e0, e1, part);
    var k := RowStart(x, first);
    forall i: nat | i < part.values
      ensures EscapesMatch(part, whole, k, i)
    {
      MatchOfRange(x, whole, first, last, e0, e1, part, k, i);
    }
    EscapesFollow(part, whole, k, n);
  }

  lemma {:induction false} MatchOfRange(x: Rows, whole: View, first: nat, last: nat, e0: nat, e1: nat, part: View,
                                        k: nat, i: nat)
    requires IsRange(x, whole, first, last, e0, e1, part) && Readable(part) && i < part.values
             && k == RowStart(x, first)
    ensures EscapesMatch(part, whole, k, i)
  {
    CodeOfRange(x, whole, first, last, e0, e1, part, i);
  }

  lemma {:induction false} ValueOfRange(x: Rows, whole: View, first: nat, last: nat, e0: nat, e1: nat, part: View,
                                        i: nat)
    requires IsRange(x, whole, first, last, e0, e1, part) && Readable(part) && i < part.values
    requires e0 == EscapesBefore(whole, RowStart(x, first))
    ensures HighAt(part, i) == HighAt(whole, RowStart(x, first) + i)
    ensures part.low[i] == whole.low[RowStart(x, first) + i]
  {
    CodeOfRange(x, whole, first, last, e0, e1, part, i);
    EscapesOfRange(x, whole, first, last, e0, e1, part, i);
  }

  /** A range decodes exactly when its escape counts differ by the escapes in it; with a true count at
      its start, it decodes to the whole's bytes for those rows. */
  lemma {:induction false} RangeConsistent(x: Rows, whole: View, first: nat, last: nat, e0: nat, e1: nat, part: View)
    requires IsRange(x, whole, first, last, e0, e1, part) && Readable(part)
    ensures Consistent(part) <==>
              EscapesBefore(whole, RowStart(x, last)) - EscapesBefore(whole, RowStart(x, first)) == e1 - e0
  {
    EscapesOfRange(x, whole, first, last, e0, e1, part, part.values);
    RangeIsFrom(x, whole, first, last, e0, e1, part);
    SameDifference(whole, part, RowStart(x, first), RowStart(x, last), e1 - e0);
  }

  lemma {:induction false} SameDifference(whole: View, part: View, a: nat, b: nat, d: nat)
    requires Readable(whole) && Readable(part) && a + part.values == b <= whole.values && part.escapes == d
    requires EscapesBefore(whole, a + part.values) == EscapesBefore(whole, a) + EscapesBefore(part, part.values)
    ensures Consistent(part) <==> EscapesBefore(whole, b) - EscapesBefore(whole, a) == d
  {}

  lemma {:induction false} RangeIsFrom(x: Rows, whole: View, first: nat, last: nat, e0: nat, e1: nat, part: View)
    requires IsRange(x, whole, first, last, e0, e1, part)
    ensures RowStart(x, first) + part.values == RowStart(x, last) && part.escapes == e1 - e0
  {}

  lemma {:induction false} RangeDecodes(x: Rows, whole: View, first: nat, last: nat, e0: nat, e1: nat, part: View,
                                        all: seq<Byte>, o: seq<Byte>)
    requires IsRange(x, whole, first, last, e0, e1, part) && Readable(part)
    requires e0 == EscapesBefore(whole, RowStart(x, first))
    requires |all| == whole.rawBytes && IsDecoded(whole, all) && |o| == part.rawBytes && IsDecoded(part, o)
    ensures o == all[2 * RowStart(x, first)..2 * RowStart(x, last)]
  {
    var k := RowStart(x, first);
    var slice := all[2 * k..2 * RowStart(x, last)];
    forall i: nat | i < part.values
      ensures SamePair(o, slice, i)
    {
      PairOfRange(x, whole, first, last, e0, e1, part, all, o, i);
    }
    SamePairs(o, slice, part.values);
  }

  lemma {:induction false} PairOfRange(x: Rows, whole: View, first: nat, last: nat, e0: nat, e1: nat, part: View,
                                       all: seq<Byte>, o: seq<Byte>, i: nat)
    requires IsRange(x, whole, first, last, e0, e1, part) && Readable(part) && i < part.values
    requires e0 == EscapesBefore(whole, RowStart(x, first))
    requires |all| == whole.rawBytes && IsDecoded(whole, all) && |o| == part.rawBytes && IsDecoded(part, o)
    ensures o[2 * i] == all[2 * (RowStart(x, first) + i)] && o[2 * i + 1] == all[2 * (RowStart(x, first) + i) + 1]
  {
    assert ValueDecoded(part, o, i);
    assert ValueDecoded(whole, all, RowStart(x, first) + i);
    ValueOfRange(x, whole, first, last, e0, e1, part, i);
  }

  ghost predicate SamePair(a: seq<Byte>, b: seq<Byte>, i: nat) {
    2 * i + 1 < |a| && 2 * i + 1 < |b| && a[2 * i] == b[2 * i] && a[2 * i + 1] == b[2 * i + 1]
  }

  lemma {:induction false} SamePairs(a: seq<Byte>, b: seq<Byte>, n: nat)
    requires |a| == |b| == 2 * n && forall i: nat :: i < n ==> SamePair(a, b, i)
    ensures a == b
  {
    forall k | 0 <= k < |a|
      ensures a[k] == b[k]
    {
      assert SamePair(a, b, k / 2);
    }
  }

  // ------------------------------------------------------------------ escapes before a row

  method CountEscapes(v: View, first: nat, last: nat) returns (n: nat)
    requires Readable(v) && first <= last <= v.values
    ensures n == EscapesBefore(v, last) - EscapesBefore(v, first)
  {
    n := 0;
    for i := first to last
      invariant n == EscapesBefore(v, i) - EscapesBefore(v, first)
    {
      InPlane(v.values, v.bits, i);
      if CodeAt(v.index, v.bits, i) == Escape(v.bits) {
        n := n + 1;
      }
    }
  }

  lemma {:induction false} GroupOfRow(x: Rows, whole: View, row: nat)
    requires FitsStream(x, whole) && row < x.rows
    ensures Quotient(row, x.group) < |x.entry| && Times(Quotient(row, x.group), x.group) <= row
  {
    Divide(row, x.group);
    Divide(x.rows, x.group);
    GroupsBound(Quotient(row, x.group), Leftover(row, x.group), Quotient(x.rows, x.group), Leftover(x.rows, x.group),
                x.group);
  }

  lemma {:induction false} GroupsBound(d: nat, m: nat, d': nat, m': nat, group: nat)
    requires m < group && m' < group && Times(d, group) + m < Times(d', group) + m'
    ensures d < d' + if m' != 0 then 1 else 0
  {
    if d > d' {
      TimesGrows(d' + 1, d, group);
    }
  }

  /** e is the escape count before a row as the checkpoints tell it. */
  ghost predicate CountedBefore(x: Rows, whole: View, row: nat, e: nat)
    requires Readable(whole) && FitsStream(x, whole)
  {
    if row == x.rows then e == whole.escapes
    else CountedFrom(x, whole, Quotient(row, x.group), RowStart(x, Times(Quotient(row, x.group), x.group)),
                     RowStart(x, row), e)
  }

  /** e is a checkpoint and the escapes from one value to another. */
  ghost predicate CountedFrom(x: Rows, whole: View, g: nat, start: nat, end: nat, e: nat)
    requires Readable(whole)
  {
    g < |x.entry| && start <= end <= whole.values
        && e == x.entry[g] + EscapesBefore(whole, end) - EscapesBefore(whole, start)
  }

  /** The escapes stored before a row: its group's checkpoint and a count from the group's start. */
  method EscapesBeforeRow(x: Rows, whole: View, row: nat) returns (e: nat)
    requires Readable(whole) && FitsStream(x, whole) && row <= x.rows
    ensures CountedBefore(x, whole, row, e)
  {
    if row == x.rows {
      return whole.escapes;
    }
    var g := Quotient(row, x.group);
    GroupOfRow(x, whole, row);
    RowStartFits(x, whole, Times(g, x.group), row);
    EscapesGrow(whole, RowStart(x, Times(g, x.group)), RowStart(x, row));
    var n := CountEscapes(whole, RowStart(x, Times(g, x.group)), RowStart(x, row));
    e := x.entry[g] + n;
  }

  // ------------------------------------------------------------------ views of row ranges

  lemma {:induction false} TrueAt(x: Rows, whole: View, row: nat, e: nat)
    requires Readable(whole) && TrueCheckpoints(x, whole) && Consistent(whole) && row <= x.rows
    requires CountedBefore(x, whole, row, e)
    ensures RowStart(x, row) <= whole.values && e == EscapesBefore(whole, RowStart(x, row))
  {
    if row < x.rows {
      assert TrueCheckpoint(x, whole, Quotient(row, x.group));
    }
  }

  /** The view of a row range. With true checkpoints it is refused only for a range that is not one,
      and its start is the true escape count. */
  method RowsView(x: Rows, whole: View, first: nat, last: nat)
    returns (status: int, part: View, ghost e0: nat, ghost e1: nat)
    requires Readable(whole) && FitsStream(x, whole)
    ensures status == 0 || status == -1
    ensures status == 0 ==> IsRange(x, whole, first, last, e0, e1, part) && Readable(part)
    ensures TrueCheckpoints(x, whole) && Consistent(whole) ==> (status == 0 <==> first <= last <= x.rows)
    ensures status == 0 && TrueCheckpoints(x, whole) && Consistent(whole) ==>
              e0 == EscapesBefore(whole, RowStart(x, first)) && e1 == EscapesBefore(whole, RowStart(x, last))
  {
    part, e0, e1 := whole, 0, 0;
    if first > last || last > x.rows {
      return -1, part, e0, e1;
    }
    var a := EscapesBeforeRow(x, whole, first);
    var b := EscapesBeforeRow(x, whole, last);
    e0, e1 := a, b;
    RowStartFits(x, whole, first, last);
    EscapesGrow(whole, RowStart(x, first), RowStart(x, last));
    EscapesGrow(whole, RowStart(x, last), whole.values);
    if TrueCheckpoints(x, whole) && Consistent(whole) {
      TrueAt(x, whole, first, a);
      TrueAt(x, whole, last, b);
    }
    if b < a || b > whole.escapes {
      return -1, part, e0, e1;
    }
    RangeShape(x, whole, first, last);
    part := RowsOf(x, whole, first, last, a, b);
    RangeIsReadable(x, whole, first, last, a, b, part);
    status := 0;
  }

  // ------------------------------------------------------------------ decoding in chunks

  /** Rows [first, last), decoded into a buffer of their own. */
  method DecodeRows(x: Rows, whole: View, first: nat, last: nat, ghost all: seq<Byte>)
    returns (status: int, out: array<Byte>)
    requires Readable(whole) && TrueCheckpoints(x, whole) && Consistent(whole) && first <= last <= x.rows
    requires |all| == whole.rawBytes && IsDecoded(whole, all)
    ensures 2 * RowStart(x, first) <= 2 * RowStart(x, last) <= |all|
    ensures status == 0 && out[..] == all[2 * RowStart(x, first)..2 * RowStart(x, last)]
  {
    var part;
    ghost var e0, e1;
    status, part, e0, e1 := RowsView(x, whole, first, last);
    RowStartFits(x, whole, first, last);
    out := new Byte[part.rawBytes];
    RangeConsistent(x, whole, first, last, e0, e1, part);
    status := FixedVectors.DecodeAnyNative(part, out);
    RangeDecodes(x, whole, first, last, e0, e1, part, all, out[..]);
  }

  /** Chunks of rows, one after another, are the whole. */
  method DecodeChunks(x: Rows, whole: View, chunkRows: nat, ghost all: seq<Byte>) returns (out: seq<Byte>)
    requires Readable(whole) && TrueCheckpoints(x, whole) && Consistent(whole) && chunkRows > 0
    requires |all| == whole.rawBytes && IsDecoded(whole, all)
    ensures out == all
  {
    out := [];
    var first := 0;
    while first < x.rows
      invariant first <= x.rows && 2 * RowStart(x, first) <= |all| && out == all[..2 * RowStart(x, first)]
    {
      var last := if first + chunkRows < x.rows then first + chunkRows else x.rows;
      var status, part := DecodeRows(x, whole, first, last, all);
      JoinSlices(all, 2 * RowStart(x, first), 2 * RowStart(x, last));
      out := out + part[..];
      first := last;
    }
  }

  lemma {:induction false} JoinSlices(s: seq<Byte>, a: nat, b: nat)
    requires a <= b <= |s|
    ensures s[..a] + s[a..b] == s[..b]
  {}

  // ------------------------------------------------------------------ checkpoints that cannot lie

  /** The row where group g ends. */
  function GroupEnd(x: Rows, g: nat): nat {
    if Times(g + 1, x.group) < x.rows then Times(g + 1, x.group) else x.rows
  }

  /** The escape count the index gives for the end of group g. */
  function CountAfter(x: Rows, whole: View, g: nat): nat {
    if g + 1 < |x.entry| then x.entry[g + 1] else whole.escapes
  }

  /** Group g, taken as a view by itself, decodes. */
  ghost predicate GroupDecodes(x: Rows, whole: View, g: nat)
    requires Readable(whole) && FitsStream(x, whole) && g < |x.entry|
  {
    && Times(g, x.group) <= GroupEnd(x, g) && x.entry[g] <= CountAfter(x, whole, g) <= whole.escapes
    && forall part ::
         IsRange(x, whole, Times(g, x.group), GroupEnd(x, g), x.entry[g], CountAfter(x, whole, g), part)
             && Readable(part) ==>
           Consistent(part)
  }

  lemma {:induction false} GroupCounts(x: Rows, whole: View, g: nat)
    requires Readable(whole) && FitsStream(x, whole) && g < |x.entry| && GroupDecodes(x, whole, g)
    ensures RowStart(x, Times(g, x.group)) <= RowStart(x, GroupEnd(x, g)) <= whole.values
    ensures EscapesBefore(whole, RowStart(x, GroupEnd(x, g))) - EscapesBefore(whole, RowStart(x, Times(g, x.group))) ==
            CountAfter(x, whole, g) - x.entry[g]
  {
    var first, last, e0, e1 := Times(g, x.group), GroupEnd(x, g), x.entry[g], CountAfter(x, whole, g);
    RangeShape(x, whole, first, last);
    var part := RowsOf(x, whole, first, last, e0, e1);
    RangeIsReadable(x, whole, first, last, e0, e1, part);
    RangeConsistent(x, whole, first, last, e0, e1, part);
  }

  lemma {:induction false} GroupEnds(x: Rows, whole: View, g: nat)
    requires FitsStream(x, whole) && g < |x.entry|
    ensures g + 1 < |x.entry| ==> GroupEnd(x, g) == Times(g + 1, x.group)
    ensures g + 1 == |x.entry| ==> GroupEnd(x, g) == x.rows
  {
    var d, m := Quotient(x.rows, x.group), Leftover(x.rows, x.group);
    Divide(x.rows, x.group);
    if g + 1 < |x.entry| {
      TimesGrows(g + 1, d, x.group);
    } else {
      TimesGrows(d, g + 1, x.group);
    }
  }

  /** An index that starts at zero and whose every group decodes has only true checkpoints, and the
      stream is consistent: a false checkpoint cannot hide. */
  lemma {:induction false} DecodedGroupsProveCheckpoints(x: Rows, whole: View, g: nat)
    requires Readable(whole) && FitsStream(x, whole) && g <= |x.entry| && (x.entry != [] ==> x.entry[0] == 0)
    requires forall k: nat :: k < |x.entry| ==> GroupDecodes(x, whole, k)
    ensures forall k :: 0 <= k < g ==> TrueCheckpoint(x, whole, k)
    ensures 0 < g == |x.entry| ==> Consistent(whole)
  {
    if g > 0 {
      DecodedGroupsProveCheckpoints(x, whole, g - 1);
      CheckpointIsTrue(x, whole, g - 1);
      GroupCounts(x, whole, g - 1);
      GroupEnds(x, whole, g - 1);
      if g == |x.entry| {
        assert RowStart(x, x.rows) == whole.values;
      }
    }
  }

  lemma {:induction false} CheckpointIsTrue(x: Rows, whole: View, g: nat)
    requires Readable(whole) && FitsStream(x, whole) && g < |x.entry| && x.entry[0] == 0
    requires forall k: nat :: k < |x.entry| ==> GroupDecodes(x, whole, k)
    requires forall k :: 0 <= k < g ==> TrueCheckpoint(x, whole, k)
    ensures TrueCheckpoint(x, whole, g)
  {
    if g == 0 {
      assert RowStart(x, Times(0, x.group)) == 0;
    } else {
      assert TrueCheckpoint(x, whole, g - 1);
      GroupCounts(x, whole, g - 1);
      GroupEnds(x, whole, g - 1);
    }
  }
}
