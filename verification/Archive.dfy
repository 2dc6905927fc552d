/** Packed weight files and the seekable reader. Whatever archive passes the reader's validation, its
    extents tile the file, every load is inside the data, and a read gives the bytes of the extents it
    meets or is refused for a damaged one. */
module Archives {
  import opened Numbers
  import opened BitStrings
  import opened BytePlanes
  import opened FixedCodes

  const ALIGN := 4096
  const HEADER := 48
  const PREFIX := 32
  const MAX_COUNT := 0x40_0000
  const MIN_BLOCK := 0x1_0000
  const MAX_BLOCK := 0x80_0000
  const MAX_SIZE := 0x7fff_ffff_ffff_ffff

  /** How an extent is stored: a compressed frame, a frame of byte-shuffled data, or the plain bytes. */
  datatype Kind = Frame | Shuffled | Raw

  datatype Extent = Extent(last: nat, offset: nat, stored: nat, kind: Kind)

  datatype Unpacked = Damaged | Plain(bytes: seq<Byte>)

  datatype Codec = Codec(compress: seq<Byte> -> seq<Byte>, decompress: (seq<Byte>, nat) -> Unpacked,
                         bound: nat -> nat)

  type Id = id: seq<Byte> | |id| == 16 witness seq(16, _ => 0)

  /** A file with its index read: data is every byte, the index region included. */
  datatype Archive = Archive(mapped: bool, size: nat, block: nat, id: Id, extents: seq<Extent>, data: seq<Byte>)

  function IndexSize(mapped: bool, count: nat): nat {
    HEADER + count * if mapped then 32 else 16
  }

  predicate IsPowerOfTwo(n: nat) {
    n == 1 || (n > 1 && n % 2 == 0 && IsPowerOfTwo(n / 2))
  }

  predicate ValidBlock(block: nat) {
    MIN_BLOCK <= block <= MAX_BLOCK && IsPowerOfTwo(block)
  }

  function BlockCount(size: nat, block: nat): nat
    requires block > 0
  {
    Quotient(size + block - 1, block)
  }

  // ------------------------------------------------------------------ extents

  /** Where extent i ends in the logical file. */
  function End(a: Archive, i: nat): nat
    requires i < |a.extents|
  {
    if a.mapped then a.extents[i].last else Min(Times(i + 1, a.block), a.size)
  }

  function Start(a: Archive, i: nat): nat
    requires i < |a.extents|
  {
    if i == 0 then 0 else End(a, i - 1)
  }

  /** Where the bytes of extent i may begin: after those of the one before, or after the index. */
  function Cursor(a: Archive, i: nat): nat
    requires i <= |a.extents|
  {
    if i == 0 then IndexSize(a.mapped, |a.extents|) else a.extents[i - 1].offset + a.extents[i - 1].stored
  }

  /** What the reader accepts of one index entry. */
  ghost predicate ValidExtent(a: Archive, codec: Codec, i: nat)
    requires i < |a.extents|
  {
    var e := a.extents[i];
    && (a.mapped ==>
          && Start(a, i) < e.last <= a.size && e.kind != Shuffled
          && (e.kind == Raw ==> e.stored == e.last - Start(a, i))
          && (e.kind == Frame ==> e.last - Start(a, i) <= a.block))
    && (!a.mapped ==> e.kind != Raw)
    && Cursor(a, i) <= e.offset < Cursor(a, i) + (if a.mapped then ALIGN else 1)
    && e.offset + e.stored <= |a.data|
    && (e.kind != Raw ==> 9 <= e.stored <= codec.bound(a.block + PREFIX))
  }

  ghost predicate ValidIndex(a: Archive, codec: Codec) {
    && ValidBlock(a.block) && a.size <= MAX_SIZE && |a.extents| <= MAX_COUNT
    && (!a.mapped ==> |a.extents| == BlockCount(a.size, a.block))
    && IndexSize(a.mapped, |a.extents|) <= |a.data|
    && (forall i: nat :: i < |a.extents| ==> ValidExtent(a, codec, i))
    && (a.mapped ==> (if a.extents == [] then 0 else a.extents[|a.extents| - 1].last) == a.size)
    && Cursor(a, |a.extents|) == |a.data|
  }

  /** The reader's validation: the header's limits, then the entries in order, then the file's end. */
  method Validate(a: Archive, codec: Codec) returns (ok: bool)
    ensures ok <==> ValidIndex(a, codec)
  {
    if !ValidBlock(a.block) || a.size > MAX_SIZE || |a.extents| > MAX_COUNT {
      return false;
    }
    if !a.mapped && |a.extents| != BlockCount(a.size, a.block) {
      return false;
    }
    var cursor := IndexSize(a.mapped, |a.extents|);
    if cursor > |a.data| {
      return false;
    }
    var end, bound := 0, codec.bound(a.block + PREFIX);
    for i := 0 to |a.extents|
      invariant forall k: nat :: k < i ==> ValidExtent(a, codec, k)
      invariant cursor == Cursor(a, i) && end == if i == 0 || !a.mapped then 0 else a.extents[i - 1].last
    {
      var e := a.extents[i];
      assert ValidIndex(a, codec) ==> ValidExtent(a, codec, i);
      if a.mapped {
        if e.last <= end || e.last > a.size || e.kind == Shuffled
           || (e.kind == Raw && e.stored != e.last - end) || (e.kind == Frame && e.last - end > a.block) {
          return false;
        }
        end := e.last;
      }
      var gap := e.offset - cursor;
      if gap < 0 || gap >= (if a.mapped then ALIGN else 1) || e.stored > |a.data| - e.offset
         || (!a.mapped && e.kind == Raw) || (e.kind != Raw && !(9 <= e.stored <= bound)) {
        return false;
      }
      cursor := e.offset + e.stored;
    }
    ok := (a.mapped ==> end == a.size) && cursor == |a.data|;
  }

  // ------------------------------------------------------------------ any valid index

  lemma {:induction false} LastBlock(size: nat, block: nat, i: nat)
    requires block > 0 && i < BlockCount(size, block)
    ensures Times(i, block) < size && (i + 1 == BlockCount(size, block) ==> size <= Times(i + 1, block))
  {
    Divide(size + block - 1, block);
    TimesGrows(i + 1, BlockCount(size, block), block);
  }

  lemma {:induction false} NoBlocks(size: nat, block: nat)
    requires block > 0 && BlockCount(size, block) == 0
    ensures size == 0
  {
    Divide(size + block - 1, block);
  }

  /** Extents are not empty, lie in the file, and end with it. */
  lemma {:induction false} ExtentBounds(a: Archive, codec: Codec, i: nat)
    requires ValidIndex(a, codec) && i < |a.extents|
    ensures Start(a, i) < End(a, i) <= a.size && (i + 1 == |a.extents| ==> End(a, i) == a.size)
  {
    assert ValidExtent(a, codec, i);
    if !a.mapped {
      LastBlock(a.size, a.block, i);
    }
  }

  /** What extents store is inside the data, after the index, and apart. */
  lemma {:induction false} StoredApart(a: Archive, codec: Codec, i: nat, j: nat)
    requires ValidIndex(a, codec) && i < j <= |a.extents|
    ensures IndexSize(a.mapped, |a.extents|) <= a.extents[i].offset
    ensures a.extents[i].offset + a.extents[i].stored <= Cursor(a, j) <= |a.data|
    ensures j < |a.extents| ==> a.extents[i].offset + a.extents[i].stored <= a.extents[j].offset
    decreases j
  {
    assert ValidExtent(a, codec, i) && ValidExtent(a, codec, j - 1);
    if i > 0 {
      StoredApart(a, codec, i - 1, i);
      IndexFirst(a, codec, i);
    }
    if i + 1 < j {
      StoredApart(a, codec, i, j - 1);
    }
    if j < |a.extents| {
      assert ValidExtent(a, codec, j);
    }
  }

  lemma {:induction false} IndexFirst(a: Archive, codec: Codec, i: nat)
    requires ValidIndex(a, codec) && i < |a.extents|
    ensures IndexSize(a.mapped, |a.extents|) <= Cursor(a, i) <= a.extents[i].offset
  {
    assert ValidExtent(a, codec, i);
    if i > 0 {
      IndexFirst(a, codec, i - 1);
    }
  }

  // ------------------------------------------------------------------ contents

  function Shuffle(raw: seq<Byte>): seq<Byte> {
    Even(raw) + Odd(raw)
  }

  function Unshuffle(data: seq<Byte>): (raw: seq<Byte>)
    ensures |raw| == |data|
  {
    var half := (|data| + 1) / 2;
    seq(|data|, i requires 0 <= i < |data| => if i % 2 == 0 then data[i / 2] else data[half + i / 2])
  }

  lemma {:induction false} UnshuffleShuffle(raw: seq<Byte>)
    ensures Unshuffle(Shuffle(raw)) == raw
  {
    var d := Shuffle(raw);
    assert |d| == |raw|;
    forall i | 0 <= i < |raw|
      ensures Unshuffle(d)[i] == raw[i]
    {
      if i % 2 == 0 {
        assert d[i / 2] == Even(raw)[i / 2];
      } else {
        assert d[(|raw| + 1) / 2 + i / 2] == Odd(raw)[i / 2];
      }
    }
  }

  /** The frame prefix binds a block to its archive, its position and its transform. */
  function Prefix(id: Id, index: nat, kind: Kind): (p: seq<Byte>)
    ensures |p| == PREFIX
  {
    id + LittleEndian(index, 8) + LittleEndian(if kind == Shuffled then 1 else 0, 4) + LittleEndian(0, 4)
  }

  function Payload(raw: seq<Byte>, kind: Kind): seq<Byte> {
    if kind == Shuffled then Shuffle(raw) else raw
  }

  /** Undo the transform of a payload. */
  function Restored(payload: seq<Byte>, kind: Kind): (raw: seq<Byte>)
    ensures |raw| == |payload|
  {
    if kind == Shuffled then Unshuffle(payload) else payload
  }

  datatype Loaded = Refused | Bytes(bytes: seq<Byte>)

  /** A frame decoded: it must have the length asked for and the prefix of its place. */
  function Decoded(codec: Codec, id: Id, index: nat, kind: Kind, packed: seq<Byte>, size: nat): (r: Loaded)
    ensures r.Bytes? ==> |r.bytes| == size
  {
    match codec.decompress(packed, size + PREFIX)
    case Damaged => Refused
    case Plain(raw) =>
      if |raw| != size + PREFIX || raw[..PREFIX] != Prefix(id, index, kind) then Refused
      else Bytes(Restored(raw[PREFIX..], kind))
  }

  /** Decompressed, a frame is its prefix and the payload of these bytes. */
  ghost predicate IsFrameOf(codec: Codec, id: Id, index: nat, kind: Kind, packed: seq<Byte>, raw: seq<Byte>) {
    codec.decompress(packed, |raw| + PREFIX) == Plain(Prefix(id, index, kind) + Payload(raw, kind))
  }

  lemma {:induction false} DecodedPayload(codec: Codec, id: Id, index: nat, kind: Kind, packed: seq<Byte>,
                                          raw: seq<Byte>)
    requires IsFrameOf(codec, id, index, kind, packed, raw)
    ensures Decoded(codec, id, index, kind, packed, |raw|) == Bytes(raw)
  {
    var plain := Prefix(id, index, kind) + Payload(raw, kind);
    assert plain[..PREFIX] == Prefix(id, index, kind) && plain[PREFIX..] == Payload(raw, kind);
    UnshuffleShuffle(raw);
  }

  lemma {:induction false} EightBytes(v: nat, w: nat)
    requires v < Pow2(64) && w < Pow2(64) && LittleEndian(v, 8) == LittleEndian(w, 8)
    ensures v == w
  {
    LittleEndianNumber(v, 8);
    LittleEndianNumber(w, 8);
  }

  lemma {:induction false} PrefixParts(id: Id, index: nat, kind: Kind)
    ensures var p := Prefix(id, index, kind);
            && p[..16] == id && p[16..24] == LittleEndian(index, 8)
            && p[24] == if kind == Shuffled then 1 else 0
  {
    var flag: nat := if kind == Shuffled then 1 else 0;
    assert LittleEndian(flag, 4)[0] == flag;
  }

  /** A frame is given only in its own place: in another archive, at another index or with another transform it is
      refused, whatever bytes it holds. */
  lemma {:induction false} MisplacedIsRefused(codec: Codec, id: Id, index: nat, kind: Kind, packed: seq<Byte>,
                                              raw: seq<Byte>, id': Id, index': nat, kind': Kind)
    requires IsFrameOf(codec, id, index, kind, packed, raw) && index < Pow2(64) && index' < Pow2(64)
    ensures Decoded(codec, id', index', kind', packed, |raw|) == Refused <==>
            id != id' || index != index' || (kind == Shuffled) != (kind' == Shuffled)
  {
    var plain := Prefix(id, index, kind) + Payload(raw, kind);
    assert plain[..PREFIX] == Prefix(id, index, kind);
    PrefixParts(id, index, kind);
    PrefixParts(id', index', kind');
    if Prefix(id, index, kind) == Prefix(id', index', kind') {
      EightBytes(index, index');
    }
  }

  /** What extent i stores, decoded. */
  function Load(a: Archive, codec: Codec, i: nat): (r: Loaded)
    requires i < |a.extents| && Start(a, i) <= End(a, i) && a.extents[i].offset + a.extents[i].stored <= |a.data|
  {
    var e := a.extents[i];
    var stored := a.data[e.offset..e.offset + e.stored];
    if e.kind == Raw then Bytes(stored) else Decoded(codec, a.id, i, e.kind, stored, End(a, i) - Start(a, i))
  }

  lemma {:induction false} ExtentLoads(a: Archive, codec: Codec, i: nat)
    requires ValidIndex(a, codec) && i < |a.extents|
    ensures Start(a, i) < End(a, i) && a.extents[i].offset + a.extents[i].stored <= |a.data|
    ensures a.extents[i].kind == Raw ==> a.extents[i].stored == End(a, i) - Start(a, i)
  {
    ExtentBounds(a, codec, i);
    assert ValidExtent(a, codec, i);
  }

  /** The bytes of the file that extent i gives. */
  ghost function Content(a: Archive, codec: Codec, i: nat): (r: Loaded)
    requires ValidIndex(a, codec) && i < |a.extents|
    ensures r.Bytes? ==> |r.bytes| == End(a, i) - Start(a, i)
  {
    ExtentLoads(a, codec, i);
    Load(a, codec, i)
  }

  // ------------------------------------------------------------------ the file as parts

  /** What one extent gives: a range of the file, and its bytes unless they are damaged. */
  datatype Part = Part(lo: nat, hi: nat, content: Loaded)

  ghost function Parts(a: Archive, codec: Codec): (parts: seq<Part>)
    requires ValidIndex(a, codec)
    ensures |parts| == |a.extents|
  {
    seq(|a.extents|, i requires 0 <= i < |a.extents| => Part(Start(a, i), End(a, i), Content(a, codec, i)))
  }

  lemma {:induction false} PartOf(a: Archive, codec: Codec, i: nat)
    requires ValidIndex(a, codec) && i < |a.extents|
    ensures Start(a, i) < End(a, i) && a.extents[i].offset + a.extents[i].stored <= |a.data|
    ensures Parts(a, codec)[i] == Part(Start(a, i), End(a, i), Load(a, codec, i))
  {
    ExtentLoads(a, codec, i);
  }

  ghost predicate PartFits(parts: seq<Part>, i: nat)
    requires i < |parts|
  {
    var p := parts[i];
    p.lo < p.hi && p.lo == (if i == 0 then 0 else parts[i - 1].hi)
        && (p.content.Bytes? ==> |p.content.bytes| == p.hi - p.lo)
  }

  /** Consecutive parts from 0 to the size, none empty. */
  ghost predicate Tiles(parts: seq<Part>, size: nat) {
    && (forall i: nat :: i < |parts| ==> PartFits(parts, i))
    && size == if parts == [] then 0 else parts[|parts| - 1].hi
  }

  /** The extents of any archive with a valid index tile its file. */
  lemma {:induction false} ExtentsTile(a: Archive, codec: Codec)
    requires ValidIndex(a, codec)
    ensures Tiles(Parts(a, codec), a.size)
  {
    forall i: nat | i < |a.extents|
      ensures PartFits(Parts(a, codec), i)
    {
      ExtentBounds(a, codec, i);
    }
    if a.extents != [] {
      ExtentBounds(a, codec, |a.extents| - 1);
    } else if !a.mapped {
      NoBlocks(a.size, a.block);
    }
  }

  predicate Covers(parts: seq<Part>, i: nat, pos: nat) {
    i < |parts| && parts[i].lo <= pos < parts[i].hi
  }

  lemma {:induction false} Later(parts: seq<Part>, size: nat, i: nat, j: nat)
    requires Tiles(parts, size) && i < j < |parts|
    ensures parts[i].hi <= parts[j].lo
    decreases j - i
  {
    assert PartFits(parts, j);
    if i + 1 < j {
      Later(parts, size, i, j - 1);
      assert PartFits(parts, j - 1);
    }
  }

  lemma {:induction false} CoveredOnce(parts: seq<Part>, size: nat, pos: nat, i: nat, j: nat)
    requires Tiles(parts, size) && Covers(parts, i, pos) && Covers(parts, j, pos)
    ensures i == j
  {
    if i < j {
      Later(parts, size, i, j);
    } else if j < i {
      Later(parts, size, j, i);
    }
  }

  lemma {:induction false} Covered(parts: seq<Part>, size: nat, pos: nat, i: nat) returns (k: nat)
    requires Tiles(parts, size) && pos < size && i < |parts| && parts[i].lo <= pos
    ensures Covers(parts, k, pos)
    decreases |parts| - i
  {
    if pos < parts[i].hi {
      k := i;
    } else {
      assert PartFits(parts, i + 1);
      k := Covered(parts, size, pos, i + 1);
    }
  }

  /** Every position of the file, and no other, lies in exactly one part. */
  lemma {:induction false} OnePartEach(parts: seq<Part>, size: nat, pos: nat)
    requires Tiles(parts, size)
    ensures pos < size <==> exists i: nat :: Covers(parts, i, pos)
    ensures forall i: nat, j: nat :: Covers(parts, i, pos) && Covers(parts, j, pos) ==> i == j
  {
    if pos < size {
      assert PartFits(parts, 0);
      var i := Covered(parts, size, pos, 0);
    }
    forall i: nat | Covers(parts, i, pos)
      ensures pos < size
    {
      CoversInside(parts, size, i, pos);
    }
    forall i: nat, j: nat | Covers(parts, i, pos) && Covers(parts, j, pos)
      ensures i == j
    {
      CoveredOnce(parts, size, pos, i, j);
    }
  }

  lemma {:induction false} CoversInside(parts: seq<Part>, size: nat, i: nat, pos: nat)
    requires Tiles(parts, size) && Covers(parts, i, pos)
    ensures pos < size
  {
    var last: nat := |parts| - 1;
    if i < last {
      Later(parts, size, i, last);
      assert PartFits(parts, last);
    }
  }

  /** Part i covers a position and gives this byte there. */
  ghost predicate Gives(parts: seq<Part>, i: nat, pos: nat, b: Byte) {
    && Covers(parts, i, pos) && parts[i].content.Bytes?
    && pos - parts[i].lo < |parts[i].content.bytes| && parts[i].content.bytes[pos - parts[i].lo] == b
  }

  ghost predicate ByteAt(parts: seq<Part>, pos: nat, b: Byte) {
    exists i: nat :: Gives(parts, i, pos, b)
  }

  ghost predicate SpeltAt(parts: seq<Part>, pos: nat, text: seq<Byte>, k: nat)
    requires k < |text|
  {
    ByteAt(parts, pos + k, text[k])
  }

  /** These bytes are those of the file from a position on. */
  ghost predicate Spells(parts: seq<Part>, pos: nat, text: seq<Byte>) {
    forall k: nat :: k < |text| ==> SpeltAt(parts, pos, text, k)
  }

  lemma {:induction false} SpellsMore(parts: seq<Part>, pos: nat, text: seq<Byte>, more: seq<Byte>)
    requires Spells(parts, pos, text) && Spells(parts, pos + |text|, more)
    ensures Spells(parts, pos, text + more)
  {
    forall k: nat | k < |text + more|
      ensures SpeltAt(parts, pos, text + more, k)
    {
      if k < |text| {
        assert SpeltAt(parts, pos, text, k);
      } else {
        assert SpeltAt(parts, pos + |text|, more, k - |text|);
      }
    }
  }

  lemma {:induction false} SpellsPart(parts: seq<Part>, size: nat, i: nat, within: nat, take: nat)
    requires Tiles(parts, size) && i < |parts| && parts[i].content.Bytes? && parts[i].lo + within + take <= parts[i].hi
    ensures within + take <= |parts[i].content.bytes|
    ensures Spells(parts, parts[i].lo + within, parts[i].content.bytes[within..within + take])
  {
    assert PartFits(parts, i);
    var text, from := parts[i].content.bytes[within..within + take], parts[i].lo + within;
    forall k: nat | k < |text|
      ensures SpeltAt(parts, from, text, k)
    {
      assert Gives(parts, i, from + k, text[k]);
    }
  }

  /** Part i meets the positions from lo on, before hi, and is damaged. */
  ghost predicate DamagedWithin(parts: seq<Part>, i: nat, lo: nat, hi: nat) {
    i < |parts| && lo < hi && parts[i].lo < hi && lo < parts[i].hi && parts[i].content == Refused
  }

  ghost predicate AnyDamage(parts: seq<Part>, lo: nat, hi: nat) {
    exists i: nat :: DamagedWithin(parts, i, lo, hi)
  }

  /** Bytes spelt are of parts that are not damaged. */
  lemma {:induction false} SpellsUndamaged(parts: seq<Part>, size: nat, pos: nat, text: seq<Byte>)
    requires Tiles(parts, size) && Spells(parts, pos, text)
    ensures !AnyDamage(parts, pos, pos + |text|)
  {
    if AnyDamage(parts, pos, pos + |text|) {
      var i: nat :| DamagedWithin(parts, i, pos, pos + |text|);
      NotSpelt(parts, size, pos, text, i);
    }
  }

  lemma {:induction false} WiderDamage(parts: seq<Part>, pos: nat, lo: nat, hi: nat)
    requires AnyDamage(parts, pos, pos + 1) && lo <= pos < hi
    ensures AnyDamage(parts, lo, hi)
  {
    var i: nat :| DamagedWithin(parts, i, pos, pos + 1);
    assert DamagedWithin(parts, i, lo, hi);
  }

  lemma {:induction false} NotSpelt(parts: seq<Part>, size: nat, pos: nat, text: seq<Byte>, i: nat)
    requires Tiles(parts, size) && DamagedWithin(parts, i, pos, pos + |text|)
    ensures !Spells(parts, pos, text)
  {
    assert PartFits(parts, i);
    var k: nat := if parts[i].lo < pos then 0 else parts[i].lo - pos;
    var p, b := pos + k, text[k];
    forall j: nat
      ensures !Gives(parts, j, p, b)
    {
      if Covers(parts, j, p) {
        CoveredOnce(parts, size, p, i, j);
      }
    }
    assert !SpeltAt(parts, pos, text, k);
  }

  ghost predicate HoldsPart(parts: seq<Part>, x: seq<Byte>, i: nat)
    requires i < |parts|
  {
    parts[i].lo <= parts[i].hi <= |x| && parts[i].content == Bytes(x[parts[i].lo..parts[i].hi])
  }

  /** The parts give x. */
  ghost predicate Hold(parts: seq<Part>, x: seq<Byte>) {
    Tiles(parts, |x|) && forall i: nat :: i < |parts| ==> HoldsPart(parts, x, i)
  }

  /** What is spelt of x is x, and nothing of it is damaged. */
  lemma {:induction false} SpellsOriginal(parts: seq<Part>, x: seq<Byte>, pos: nat, text: seq<Byte>)
    requires Hold(parts, x) && Spells(parts, pos, text)
    ensures text != [] ==> pos + |text| <= |x| && text == x[pos..pos + |text|]
  {
    if text != [] {
      SpeltOriginal(parts, x, pos, text, |text| - 1);
    }
    forall k: nat | k < |text|
      ensures text[k] == x[pos + k]
    {
      SpeltOriginal(parts, x, pos, text, k);
    }
  }

  lemma {:induction false} SpeltOriginal(parts: seq<Part>, x: seq<Byte>, pos: nat, text: seq<Byte>, k: nat)
    requires Hold(parts, x) && k < |text| && SpeltAt(parts, pos, text, k)
    ensures pos + k < |x| && text[k] == x[pos + k]
  {
    var i: nat :| Gives(parts, i, pos + k, text[k]);
    assert HoldsPart(parts, x, i);
  }

  lemma {:induction false} NoDamage(parts: seq<Part>, x: seq<Byte>, lo: nat, hi: nat)
    requires Hold(parts, x)
    ensures !AnyDamage(parts, lo, hi)
  {
    forall i: nat
      ensures !DamagedWithin(parts, i, lo, hi)
    {
      assert i < |parts| ==> HoldsPart(parts, x, i);
    }
  }

  /** The archive is a packed form of x. */
  ghost predicate IsPacked(a: Archive, codec: Codec, x: seq<Byte>) {
    |x| == a.size && ValidIndex(a, codec) && Hold(Parts(a, codec), x)
  }

  // ------------------------------------------------------------------ the reader

  /** The first extent that ends after a position. */
  method LocateMapped(a: Archive, pos: nat, ghost codec: Codec) returns (i: nat)
    requires ValidIndex(a, codec) && a.mapped && pos < a.size
    ensures Covers(Parts(a, codec), i, pos)
  {
    i := 0;
    while a.extents[i].last <= pos
      invariant i < |a.extents| && (i == 0 || a.extents[i - 1].last <= pos)
      decreases |a.extents| - i
    {
      assert i != |a.extents| - 1;
      i := i + 1;
    }
  }

  lemma {:induction false} BlockCovers(a: Archive, codec: Codec, pos: nat, i: nat)
    requires ValidIndex(a, codec) && !a.mapped && pos < a.size && i < |a.extents|
    requires Times(i, a.block) <= pos < Times(i + 1, a.block)
    ensures Covers(Parts(a, codec), i, pos)
  {}

  lemma {:induction false} InBlock(pos: nat, block: nat, size: nat, d: nat)
    requires block > 0 && pos < size && d == Quotient(pos, block)
    ensures d < BlockCount(size, block) && Times(d, block) <= pos < Times(d + 1, block)
  {
    Divide(pos, block);
    Divide(size + block - 1, block);
    if BlockCount(size, block) <= d {
      TimesGrows(BlockCount(size, block), d, block);
    }
  }

  method LocateBlock(a: Archive, pos: nat, ghost codec: Codec) returns (i: nat)
    requires ValidIndex(a, codec) && !a.mapped && pos < a.size
    ensures Covers(Parts(a, codec), i, pos)
  {
    i := Quotient(pos, a.block);
    InBlock(pos, a.block, a.size, i);
    BlockCovers(a, codec, pos, i);
  }

  method Locate(a: Archive, pos: nat, ghost codec: Codec) returns (i: nat)
    requires ValidIndex(a, codec) && pos < a.size
    ensures Covers(Parts(a, codec), i, pos)
  {
    if a.mapped {
      i := LocateMapped(a, pos, codec);
    } else {
      i := LocateBlock(a, pos, codec);
    }
  }

  class Reader {
    const a: Archive
    const codec: Codec
    ghost const parts: seq<Part>
    var pos: nat
    var cachedIndex: int
    var cached: seq<Byte>

    /** The index is valid, and what is cached is a decoded block. */
    ghost predicate Valid()
      reads this
    {
      && ValidIndex(a, codec) && parts == Parts(a, codec)
      && (cachedIndex == -1 || (0 <= cachedIndex < |parts| && parts[cachedIndex].content == Bytes(cached)))
    }

    constructor (a: Archive, codec: Codec)
      requires ValidIndex(a, codec)
      ensures this.a == a && this.codec == codec && pos == 0 && Valid() && parts == Parts(a, codec)
    {
      this.a, this.codec, pos, cachedIndex, cached := a, codec, 0, -1, [];
      parts := Parts(a, codec);
    }

    /** One block, from the cache or decoded from the file. */
    method Block(i: nat) returns (r: Loaded)
      requires Valid() && i < |a.extents| && a.extents[i].kind != Raw
      modifies this`cachedIndex, this`cached
      ensures Valid() && r == parts[i].content
    {
      if i == cachedIndex {
        return Bytes(cached);
      }
      ExtentLoads(a, codec, i);
      r := Load(a, codec, i);
      if r.Bytes? {
        cachedIndex, cached := i, r.bytes;
      }
    }

    /** Bytes of one extent: of a raw one, only those are loaded. */
    method Slice(i: nat, within: nat, take: nat) returns (r: Loaded)
      requires Valid() && i < |a.extents| && Start(a, i) + within + take <= End(a, i)
      modifies this`cachedIndex, this`cached
      ensures Valid() && (r.Refused? <==> parts[i].content == Refused)
      ensures r.Bytes? ==> within + take <= |parts[i].content.bytes|
                           && r.bytes == parts[i].content.bytes[within..within + take]
    {
      if a.extents[i].kind == Raw {
        var at := a.extents[i].offset + within;
        RawPart(a, codec, i, within, take);
        r := Bytes(a.data[at..at + take]);
      } else {
        r := Block(i);
        if r.Bytes? {
          r := Bytes(r.bytes[within..within + take]);
        }
      }
    }

    /** The bytes of one extent from the current position on, at most left of them. */
    method Take(left: nat) returns (r: Loaded)
      requires Valid() && pos < a.size && left > 0
      modifies this`cachedIndex, this`cached
      ensures Valid()
      ensures r.Bytes? ==> 0 < |r.bytes| <= left && pos + |r.bytes| <= a.size && Spells(parts, pos, r.bytes)
      ensures r.Refused? ==> AnyDamage(parts, pos, pos + 1)
    {
      var i := Locate(a, pos, codec);
      var take := Min(left, End(a, i) - pos);
      r := Slice(i, pos - Start(a, i), take);
      SliceSpells(a, codec, i, pos, take, r);
    }

    /** How many bytes a read of n is for: at most n, or all that is left. */
    function Asked(n: int): (r: nat)
      reads this
      ensures r > 0 ==> pos + r <= a.size
    {
      var left := if pos >= a.size then 0 else a.size - pos;
      if n < 0 then left else Min(n, left)
    }

    /** Read from the current position. The read is refused exactly when an extent it meets is damaged,
        and then the position is left in such an extent. */
    method Read(n: int) returns (r: Loaded)
      requires Valid()
      modifies this
      ensures Valid()
      ensures r.Bytes? ==> |r.bytes| == old(Asked(n)) && pos == old(pos) + |r.bytes|
      ensures r.Bytes? ==> Spells(parts, old(pos), r.bytes)
      ensures r.Refused? <==> AnyDamage(parts, old(pos), old(pos + Asked(n)))
      ensures r.Refused? ==> old(pos) <= pos < old(pos + Asked(n)) && AnyDamage(parts, pos, pos + 1)
    {
      var size := Asked(n);
      ghost var start := pos;
      var result := [];
      while |result| < size
        invariant Valid() && pos == start + |result| && |result| <= size && (size > 0 ==> start + size <= a.size)
        invariant Spells(parts, start, result)
        decreases size - |result|
      {
        var part := Take(size - |result|);
        if part.Refused? {
          WiderDamage(parts, pos, start, start + size);
          return Refused;
        }
        SpellsMore(parts, start, result, part.bytes);
        result := result + part.bytes;
        pos := pos + |part.bytes|;
      }
      ReadUndamaged(a, codec, start, result);
      r := Bytes(result);
    }

    /** Move the cursor, from the start, from where it is, or from the end. */
    method Seek(offset: int, whence: int) returns (ok: bool)
      requires Valid()
      modifies this`pos
      ensures Valid()
      ensures ok <==> 0 <= whence <= 2
                      && offset + (if whence == 1 then old(pos) else if whence == 2 then a.size else 0) >= 0
      ensures ok ==> pos == offset + (if whence == 1 then old(pos) else if whence == 2 then a.size else 0)
      ensures !ok ==> pos == old(pos)
    {
      if whence < 0 || whence > 2 {
        return false;
      }
      var to := offset + if whence == 1 then pos else if whence == 2 then a.size else 0;
      if to < 0 {
        return false;
      }
      pos := to;
      ok := true;
    }
  }

  /** Open an archive, or refuse an index that is not valid. */
  method OpenArchive(a: Archive, codec: Codec) returns (reader: Reader?)
    ensures reader == null <==> !ValidIndex(a, codec)
    ensures reader != null ==> fresh(reader) && reader.a == a && reader.codec == codec
                               && reader.pos == 0 && reader.Valid() && reader.parts == Parts(a, codec)
  {
    var ok := Validate(a, codec);
    if !ok {
      return null;
    }
    reader := new Reader(a, codec);
  }

  lemma {:induction false} RawPart(a: Archive, codec: Codec, i: nat, within: nat, take: nat)
    requires ValidIndex(a, codec) && i < |a.extents| && a.extents[i].kind == Raw
    requires Start(a, i) + within + take <= End(a, i)
    ensures var at := a.extents[i].offset + within;
            && Content(a, codec, i).Bytes? && at + take <= |a.data|
            && within + take <= |Content(a, codec, i).bytes|
            && a.data[at..at + take] == Content(a, codec, i).bytes[within..within + take]
  {
    assert ValidExtent(a, codec, i);
    SliceOfSlice(a.data, a.extents[i].offset, a.extents[i].stored, within, take);
  }

  lemma {:induction false} SliceSpells(a: Archive, codec: Codec, i: nat, pos: nat, take: nat, r: Loaded)
    requires ValidIndex(a, codec) && Covers(Parts(a, codec), i, pos) && pos + take <= End(a, i)
    requires r.Refused? <==> Content(a, codec, i) == Refused
    requires r.Bytes? ==> r.bytes == Content(a, codec, i).bytes[pos - Start(a, i)..pos - Start(a, i) + take]
    ensures pos + take <= a.size
    ensures if r.Bytes? then |r.bytes| == take && Spells(Parts(a, codec), pos, r.bytes)
            else AnyDamage(Parts(a, codec), pos, pos + 1)
  {
    ExtentBounds(a, codec, i);
    ExtentsTile(a, codec);
    if r.Bytes? {
      SpellsPart(Parts(a, codec), a.size, i, pos - Start(a, i), take);
    } else {
      assert DamagedWithin(Parts(a, codec), i, pos, pos + 1);
    }
  }

  lemma {:induction false} ReadUndamaged(a: Archive, codec: Codec, pos: nat, text: seq<Byte>)
    requires ValidIndex(a, codec) && Spells(Parts(a, codec), pos, text)
    ensures !AnyDamage(Parts(a, codec), pos, pos + |text|)
  {
    ExtentsTile(a, codec);
    SpellsUndamaged(Parts(a, codec), a.size, pos, text);
  }
}
