/** The stored form of a row index: parsing is the inverse of the layout, and the benchmark's index of a
    stream has true checkpoints. */
module FixedIndexes {
  import opened Numbers
  import opened BitStrings
  import opened BytePlanes
  import opened FixedCodes
  import opened FixedDictionaries
  import opened FixedContainers
  import opened FixedRows

  const WORD_32 := 0x1_0000_0000

  function IndexMagic(): (m: seq<Byte>)
    ensures |m| == 4
  {
    [0x46, 0x44, 0x52, 0x58]
  }

  ghost function Checkpoints(entry: seq<nat>): (s: seq<Byte>)
    ensures |s| == 4 * |entry|
  {
    if entry == [] then [] else Checkpoints(entry[..|entry| - 1]) + LittleEndian(entry[|entry| - 1], 4)
  }

  ghost function SerializeRows(x: Rows): seq<Byte> {
    IndexMagic() + LittleEndian(x.rows, 4) + LittleEndian(x.cols, 4) + LittleEndian(x.group, 4) + Checkpoints(x.entry)
  }

  /** The checkpoint starts at zero or grows by at most what a group can hold. */
  ghost predicate Plausible(x: Rows, whole: View, j: nat)
    requires j < |x.entry|
  {
    && x.entry[j] <= whole.escapes
    && if j == 0 then x.entry[0] == 0
       else x.entry[j - 1] <= x.entry[j] <= x.entry[j - 1] + Times(x.group, x.cols)
  }

  ghost predicate LastPlausible(x: Rows, whole: View)
    requires x.entry != [] ==> Times(|x.entry| - 1, x.group) <= x.rows
  {
    x.entry != [] ==> whole.escapes - x.entry[|x.entry| - 1] <= Times(x.rows - Times(|x.entry| - 1, x.group), x.cols)
  }

  ghost predicate ValidRows(x: Rows, whole: View) {
    && FitsStream(x, whole) && x.rows < WORD_32 && x.cols < WORD_32 && x.group < WORD_32 && whole.escapes < WORD_32
    && (x.entry != [] ==> Times(|x.entry| - 1, x.group) <= x.rows)
    && (forall j: nat :: j < |x.entry| ==> Plausible(x, whole, j)) && LastPlausible(x, whole)
  }

  // ------------------------------------------------------------------ checkpoints in a buffer

  lemma {:induction false} CheckpointAt(entry: seq<nat>, j: nat)
    requires j < |entry|
    ensures Checkpoints(entry)[4 * j..4 * j + 4] == LittleEndian(entry[j], 4)
  {
    var n := |entry| - 1;
    var front := Checkpoints(entry[..n]);
    if j < n {
      CheckpointAt(entry[..n], j);
      assert Checkpoints(entry)[4 * j..4 * j + 4] == front[4 * j..4 * j + 4];
    } else {
      assert |front| == 4 * n;
    }
  }

  function EntriesOf(data: seq<Byte>, n: nat): (entry: seq<nat>)
    requires |data| == 16 + 4 * n
    ensures |entry| == n
  {
    seq(n, j requires 0 <= j < n => U32(data, 16 + 4 * j))
  }

  lemma {:induction false} CheckpointsOfEntries(data: seq<Byte>, n: nat, m: nat)
    requires |data| == 16 + 4 * n && m <= n
    ensures Checkpoints(EntriesOf(data, n)[..m]) == data[16..16 + 4 * m]
  {
    if m > 0 {
      CheckpointsOfEntries(data, n, m - 1);
      U32Digits(data, 16 + 4 * (m - 1));
      var entry := EntriesOf(data, n);
      assert entry[..m][..m - 1] == entry[..m - 1];
      assert data[16..16 + 4 * m] == data[16..16 + 4 * (m - 1)] + data[16 + 4 * (m - 1)..16 + 4 * m];
    }
  }

  function IndexFields(data: seq<Byte>, n: nat): Rows
    requires |data| == 16 + 4 * n
  {
    Rows(EntriesOf(data, n), U32(data, 4), U32(data, 8), U32(data, 12))
  }

  lemma {:induction false} FieldsLayout(data: seq<Byte>, n: nat)
    requires |data| == 16 + 4 * n && data[..4] == IndexMagic()
    ensures SerializeRows(IndexFields(data, n)) == data
  {
    U32Digits(data, 4);
    U32Digits(data, 8);
    U32Digits(data, 12);
    CheckpointsOfEntries(data, n, n);
    assert EntriesOf(data, n)[..n] == EntriesOf(data, n);
    FourWords(data);
    assert data == data[..16] + data[16..];
  }

  lemma {:induction false} IndexParts(m: seq<Byte>, a: seq<Byte>, b: seq<Byte>, c: seq<Byte>, e: seq<Byte>,
                                      data: seq<Byte>)
    requires |m| == |a| == |b| == |c| == 4 && data == m + a + b + c + e
    ensures data[..4] == m && data[4..8] == a && data[8..12] == b && data[12..16] == c && data[16..] == e
  {}

  lemma {:induction false} LayoutFields(x: Rows, whole: View, data: seq<Byte>)
    requires ValidRows(x, whole) && data == SerializeRows(x)
    ensures |data| == 16 + 4 * |x.entry| && data[..4] == IndexMagic() && IndexFields(data, |x.entry|) == x
  {
    var n := |x.entry|;
    IndexParts(IndexMagic(), LittleEndian(x.rows, 4), LittleEndian(x.cols, 4), LittleEndian(x.group, 4),
               Checkpoints(x.entry), data);
    U32OfDigits(data, 4, x.rows);
    U32OfDigits(data, 8, x.cols);
    U32OfDigits(data, 12, x.group);
    forall j: nat | j < n
      ensures x.entry[j] < WORD_32
    {
      assert Plausible(x, whole, j);
    }
    StoredEntries(x.entry, data);
  }

  lemma {:induction false} StoredEntries(entry: seq<nat>, data: seq<Byte>)
    requires |data| == 16 + 4 * |entry| && data[16..] == Checkpoints(entry) && forall j: nat :: j < |entry| ==>
               entry[j] < WORD_32
    ensures EntriesOf(data, |entry|) == entry
  {
    forall j: nat | j < |entry|
      ensures U32(data, 16 + 4 * j) == entry[j]
    {
      StoredCheckpoint(entry, data, j);
    }
  }

  lemma {:induction false} SliceOfTail(data: seq<Byte>, o: nat, a: nat, n: nat)
    requires o + a + n <= |data|
    ensures data[o..][a..a + n] == data[o + a..o + a + n]
  {}

  lemma {:induction false} StoredCheckpoint(entry: seq<nat>, data: seq<Byte>, j: nat)
    requires |data| == 16 + 4 * |entry| && data[16..] == Checkpoints(entry) && j < |entry| && entry[j] < WORD_32
    ensures U32(data, 16 + 4 * j) == entry[j]
  {
    CheckpointAt(entry, j);
    SliceOfTail(data, 16, 4 * j, 4);
    U32OfDigits(data, 16 + 4 * j, entry[j]);
  }

  lemma {:induction false} LastGroupStarts(x: Rows, whole: View)
    requires FitsStream(x, whole) && x.entry != []
    ensures Times(|x.entry| - 1, x.group) <= x.rows
  {
    Divide(x.rows, x.group);
    TimesGrows(|x.entry| - 1, Quotient(x.rows, x.group), x.group);
  }

  // ------------------------------------------------------------------ the parser

  method CheckEntries(x: Rows, whole: View) returns (ok: bool)
    requires FitsStream(x, whole)
    ensures ok <==> forall j: nat :: j < |x.entry| ==> Plausible(x, whole, j)
  {
    var previous := 0;
    for j := 0 to |x.entry|
      invariant forall k: nat :: k < j ==> Plausible(x, whole, k)
      invariant previous == if j == 0 then 0 else x.entry[j - 1]
    {
      var at := x.entry[j];
      if (j == 0 && at != 0) || at < previous || at > whole.escapes
          || (j > 0 && at - previous > Times(x.group, x.cols)) {
        assert !Plausible(x, whole, j);
        return false;
      }
      previous := at;
    }
    ok := true;
  }

  /** The shape tests of the parser, before any checkpoint is read. */
  predicate ShapeFits(data: seq<Byte>, whole: View) {
    && |data| >= 16 && data[..4] == IndexMagic() && whole.rawBytes % 2 == 0
    && U32(data, 8) != 0 && U32(data, 12) != 0
    && U32(data, 4) <= Quotient(whole.values, U32(data, 8)) && Times(U32(data, 4), U32(data, 8)) == whole.values
    && Times(U32(data, 8), whole.bits) % 8 == 0
    && |data| == 16 + 4 * Entries(U32(data, 4), U32(data, 12))
  }

  lemma {:induction false} ShapeIsFit(data: seq<Byte>, whole: View)
    requires Readable(whole) && ShapeFits(data, whole)
    ensures FitsStream(IndexFields(data, Entries(U32(data, 4), U32(data, 12))), whole)
    ensures U32(data, 4) < WORD_32 && U32(data, 8) < WORD_32 && U32(data, 12) < WORD_32
  {
    U32Digits(data, 4);
    U32Digits(data, 8);
    U32Digits(data, 12);
  }

  lemma {:induction false} FitIsShape(x: Rows, whole: View, data: seq<Byte>)
    requires Readable(whole) && ValidRows(x, whole) && data == SerializeRows(x)
    ensures ShapeFits(data, whole) && IndexFields(data, Entries(U32(data, 4), U32(data, 12))) == x
  {
    LayoutFields(x, whole, data);
    QuotientOfTimes(x.rows, x.cols);
  }

  /** The checkpoint tests, including the last one against the stream's escapes. */
  method CheckAll(x: Rows, whole: View) returns (ok: bool)
    requires FitsStream(x, whole) && x.rows < WORD_32 && x.cols < WORD_32 && x.group < WORD_32
             && whole.escapes < WORD_32
    ensures ok <==> ValidRows(x, whole)
  {
    ok := CheckEntries(x, whole);
    if x.entry != [] {
      LastGroupStarts(x, whole);
      ok := ok && whole.escapes - x.entry[|x.entry| - 1] <= Times(x.rows - Times(|x.entry| - 1, x.group), x.cols);
    }
  }

  /** A row index for this stream, or -1: accepted exactly when the buffer is the layout of a valid one. */
  method ParseRows(data: seq<Byte>, whole: View) returns (status: int, x: Rows)
    requires Readable(whole) && whole.escapes < WORD_32
    ensures status == 0 || status == -1
    ensures status == 0 ==> ValidRows(x, whole) && SerializeRows(x) == data
    ensures status == -1 ==> forall y: Rows :: ValidRows(y, whole) ==> SerializeRows(y) != data
  {
    x, status := Rows([], 0, 0, 0), -1;
    if ShapeFits(data, whole) {
      x := IndexFields(data, Entries(U32(data, 4), U32(data, 12)));
      ShapeIsFit(data, whole);
      FieldsLayout(data, Entries(U32(data, 4), U32(data, 12)));
      var ok := CheckAll(x, whole);
      status := if ok then 0 else -1;
    }
    if status == -1 {
      forall y: Rows | ValidRows(y, whole)
        ensures SerializeRows(y) != data
      {
        if SerializeRows(y) == data {
          FitIsShape(y, whole, data);
        }
      }
    }
  }

  // ------------------------------------------------------------------ true indexes

  lemma {:induction false} GroupRows(x: Rows, j: nat)
    requires j > 0
    ensures RowStart(x, Times(j, x.group)) == RowStart(x, Times(j - 1, x.group)) + Times(x.group, x.cols)
  {
    TimesAdd(Times(j - 1, x.group), x.group, x.cols);
  }

  lemma {:induction false} TruePlausible(x: Rows, whole: View, j: nat)
    requires Readable(whole) && TrueCheckpoints(x, whole) && Consistent(whole) && j < |x.entry|
    ensures Plausible(x, whole, j)
  {
    assert TrueCheckpoint(x, whole, j);
    EscapesGrow(whole, RowStart(x, Times(j, x.group)), whole.values);
    if j == 0 {
      assert RowStart(x, Times(0, x.group)) == 0;
    } else {
      assert TrueCheckpoint(x, whole, j - 1);
      GroupRows(x, j);
      EscapesGrow(whole, RowStart(x, Times(j - 1, x.group)), RowStart(x, Times(j, x.group)));
    }
  }

  /** True checkpoints of a consistent stream are never refused. */
  lemma {:induction false} TrueIsValid(x: Rows, whole: View)
    requires Readable(whole) && TrueCheckpoints(x, whole) && Consistent(whole)
    requires x.rows < WORD_32 && x.cols < WORD_32 && x.group < WORD_32 && whole.escapes < WORD_32
    ensures ValidRows(x, whole)
  {
    forall j: nat | j < |x.entry|
      ensures Plausible(x, whole, j)
    {
      TruePlausible(x, whole, j);
    }
    if x.entry != [] {
      LastGroupStarts(x, whole);
      TrueLast(x, whole, Times(|x.entry| - 1, x.group));
    }
  }

  lemma {:induction false} TrueLast(x: Rows, whole: View, start: nat)
    requires Readable(whole) && TrueCheckpoints(x, whole) && Consistent(whole) && x.entry != []
    requires start == Times(|x.entry| - 1, x.group) <= x.rows
    ensures whole.escapes - x.entry[|x.entry| - 1] <= Times(x.rows - start, x.cols)
  {
    assert TrueCheckpoint(x, whole, |x.entry| - 1);
    RowStartFits(x, whole, start, x.rows);
    EscapesGrow(whole, RowStart(x, start), whole.values);
  }

  // ------------------------------------------------------------------ the benchmark's index

  /** The escapes of each row of the buffer, counted up to the row's start. */
  ghost predicate RowCounts(entry: seq<nat>, dict: seq<Byte>, high: seq<Byte>, cols: nat) {
    forall r: nat :: r < |entry| ==> RowCount(entry, dict, high, cols, r)
  }

  ghost predicate RowCount(entry: seq<nat>, dict: seq<Byte>, high: seq<Byte>, cols: nat, r: nat)
    requires r < |entry|
  {
    Times(r, cols) <= |high| && entry[r] == |EscapesOf(dict, high[..Times(r, cols)])|
  }

  method CountRow(before: nat, dict: seq<Byte>, high: seq<Byte>, start: nat, cols: nat) returns (after: nat)
    requires start + cols <= |high| && before == |EscapesOf(dict, high[..start])|
    ensures after == |EscapesOf(dict, high[..start + cols])|
  {
    after := before;
    for c := 0 to cols
      invariant after == |EscapesOf(dict, high[..start + c])|
    {
      EscapesPush(dict, high, start + c);
      if Find(dict, high[start + c]) == |dict| {
        after := after + 1;
      }
    }
  }

  /** One checkpoint a row. */
  method RowIndex(raw: seq<Byte>, dict: seq<Byte>, rows: nat, cols: nat) returns (x: Rows)
    requires Times(rows, cols) == |raw| / 2
    ensures x.rows == rows && x.cols == cols && x.group == 1 && |x.entry| == rows
    ensures RowCounts(x.entry, dict, Odd(raw), cols)
  {
    var entry: seq<nat>, before := [], 0;
    for r := 0 to rows
      invariant |entry| == r && Times(r, cols) <= |Odd(raw)|
      invariant RowCounts(entry, dict, Odd(raw), cols)
      invariant before == |EscapesOf(dict, Odd(raw)[..Times(r, cols)])|
    {
      NextRow(r, rows, cols);
      PushCount(entry, dict, Odd(raw), cols, before);
      entry := entry + [before];
      before := CountRow(before, dict, Odd(raw), Times(r, cols), cols);
    }
    x := Rows(entry, rows, cols, 1);
  }

  lemma {:induction false} NextRow(r: nat, rows: nat, cols: nat)
    requires r < rows
    ensures Times(r + 1, cols) == Times(r, cols) + cols <= Times(rows, cols)
  {
    TimesGrows(r + 1, rows, cols);
  }

  lemma {:induction false} PushCount(entry: seq<nat>, dict: seq<Byte>, high: seq<Byte>, cols: nat, before: nat)
    requires RowCounts(entry, dict, high, cols) && Times(|entry|, cols) <= |high|
    requires before == |EscapesOf(dict, high[..Times(|entry|, cols)])|
    ensures RowCounts(entry + [before], dict, high, cols)
  {
    forall k: nat | k < |entry + [before]|
      ensures RowCount(entry + [before], dict, high, cols, k)
    {
      assert k < |entry| ==> RowCount(entry, dict, high, cols, k);
    }
  }

  /** The index counted from the buffer is true of its stream. */
  lemma {:induction false} RowIndexIsTrue(x: Rows, raw: seq<Byte>, dict: seq<Byte>, bits: Width, index: seq<Byte>)
    requires ValidDictionary(dict, bits) && IsPlane(index, CodesOf(dict, Odd(raw)), bits) && |raw| % 2 == 0
    requires x.group == 1 && x.cols > 0 && Times(x.rows, x.cols) == |raw| / 2 && Times(x.cols, bits) % 8 == 0
    requires |x.entry| == x.rows && RowCounts(x.entry, dict, Odd(raw), x.cols)
    ensures Readable(ViewFor(raw, dict, bits, index)) && TrueCheckpoints(x, ViewFor(raw, dict, bits, index))
  {
    var whole := ViewFor(raw, dict, bits, index);
    EncodedDecodes(raw, dict, bits, index);
    OneRowGroups(x.rows);
    forall j: nat | j < |x.entry|
      ensures TrueCheckpoint(x, whole, j)
    {
      OneRowGroups(j);
      assert RowCount(x.entry, dict, Odd(raw), x.cols, j);
      EscapesCounted(raw, dict, bits, index, RowStart(x, j));
    }
  }

  lemma {:induction false} OneRowGroups(rows: nat)
    ensures Times(rows, 1) == rows && Entries(rows, 1) == rows
  {
    TimesIsProduct(rows, 1);
    QuotientOfTimes(rows, 1);
  }
}
