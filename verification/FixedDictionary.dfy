/** Fixed-width dictionary streams: a view over the planes, the escapes in a stretch of codes, and the scalar
    decoder. */
module FixedDictionaries {
  import opened BitStrings
  import opened FixedCodes

  const MAX_RAW := 0x4000_0000
  const SLACK := 32

  /** The planes of a stream. escape runs on past the stored escapes as far as may be read. */
  datatype View = View(bits: Width, table: seq<Byte>, index: seq<Byte>, low: seq<Byte>, escape: seq<Byte>,
                       rawBytes: nat, values: nat, escapes: nat)

  /** What a parsed view, or a view of some of its rows, guarantees a decoder. */
  predicate Readable(v: View) {
    && |v.table| == 16 && v.values == v.rawBytes / 2
    && |v.index| == PlaneSize(v.values, v.bits)
    && |v.low| >= (v.rawBytes + 1) / 2 && |v.escape| >= v.escapes
  }

  lemma {:induction false} InPlane(n: nat, bits: Width, i: nat)
    requires i < n
    ensures bits * i + bits <= 8 * PlaneSize(n, bits)
  {
    assert bits == 3 || bits == 4;
  }

  function Code(v: View, i: nat): (c: nat)
    requires Readable(v) && i < v.values
    ensures c <= Escape(v.bits)
  {
    InPlane(v.values, v.bits, i);
    CodeAt(v.index, v.bits, i)
  }

  predicate Escapes(v: View, i: nat)
    requires Readable(v) && i < v.values
  {
    Code(v, i) == Escape(v.bits)
  }

  /** How many of the first n codes escape. */
  ghost function EscapesBefore(v: View, n: nat): nat
    requires Readable(v) && n <= v.values
  {
    if n == 0 then 0 else EscapesBefore(v, n - 1) + if Escapes(v, n - 1) then 1 else 0
  }

  lemma {:induction false} EscapesNext(v: View, n: nat)
    requires Readable(v) && n < v.values
    ensures EscapesBefore(v, n + 1) == EscapesBefore(v, n) + if Escapes(v, n) then 1 else 0
  {}

  ghost predicate Consistent(v: View)
    requires Readable(v)
  {
    EscapesBefore(v, v.values) == v.escapes
  }

  /** The high byte of value i: the next stored escape, or a table entry. */
  ghost function HighAt(v: View, i: nat): Byte
    requires Readable(v) && i < v.values
  {
    if !Escapes(v, i) then v.table[Code(v, i)]
    else if EscapesBefore(v, i) < |v.escape| then v.escape[EscapesBefore(v, i)]
    else 0
  }

  ghost predicate ValueDecoded(v: View, o: seq<Byte>, i: nat)
    requires Readable(v) && i < v.values && |o| >= v.rawBytes
  {
    o[2 * i] == v.low[i] && o[2 * i + 1] == HighAt(v, i)
  }

  ghost predicate DecodedTo(v: View, o: seq<Byte>, n: nat)
    requires Readable(v) && n <= v.values && |o| >= v.rawBytes
  {
    forall i :: 0 <= i < n ==> ValueDecoded(v, o, i)
  }

  /** The first rawBytes bytes of o are the decoded stream. */
  ghost predicate IsDecoded(v: View, o: seq<Byte>)
    requires Readable(v) && |o| >= v.rawBytes
  {
    DecodedTo(v, o, v.values) && (v.rawBytes % 2 == 1 ==> o[v.rawBytes - 1] == v.low[v.values])
  }

  lemma {:induction false} EscapesGrow(v: View, m: nat, n: nat)
    requires Readable(v) && m <= n <= v.values
    ensures EscapesBefore(v, m) <= EscapesBefore(v, n) <= EscapesBefore(v, m) + n - m
    decreases n
  {
    if m < n {
      EscapesGrow(v, m, n - 1);
    }
  }

  lemma {:induction false} DecodedStream(v: View, a: seq<Byte>, b: seq<Byte>)
    requires Readable(v) && |a| == |b| == v.rawBytes && IsDecoded(v, a) && IsDecoded(v, b)
    ensures a == b
  {
    forall k | 0 <= k < |a|
      ensures a[k] == b[k]
    {
      if k / 2 < v.values {
        assert ValueDecoded(v, a, k / 2) && ValueDecoded(v, b, k / 2);
      }
    }
  }

  // ------------------------------------------------------------------ the scalar decoder

  /** One value; false when the stored escapes have run out. */
  method DecodeValue(v: View, out: array<Byte>, i: nat, e: nat) returns (ok: bool, e': nat)
    requires Readable(v) && i < v.values && out.Length >= v.rawBytes
    requires e == EscapesBefore(v, i) <= v.escapes && DecodedTo(v, out[..], i)
    modifies out
    ensures ok ==> e' == EscapesBefore(v, i + 1) <= v.escapes && DecodedTo(v, out[..], i + 1)
    ensures ok ==> out[v.rawBytes..] == old(out[v.rawBytes..])
    ensures !ok ==> EscapesBefore(v, i + 1) > v.escapes
  {
    InPlane(v.values, v.bits, i);
    var code := CodeAt(v.index, v.bits, i);
    var high := v.table[code];
    e' := e;
    if code == Escape(v.bits) {
      if e == v.escapes {
        return false, e;
      }
      high := v.escape[e];
      e' := e + 1;
    }
    ghost var before := out[..];
    out[2 * i] := v.low[i];
    out[2 * i + 1] := high;
    forall k | 0 <= k <= i
      ensures ValueDecoded(v, out[..], k)
    {
      assert k < i ==> ValueDecoded(v, before, k);
    }
    ok := true;
  }

  /** The scalar loop from value i on, and the end of the stream. */
  method DecodeTail(v: View, out: array<Byte>, i0: nat, e0: nat) returns (status: int)
    requires Readable(v) && i0 <= v.values && out.Length >= v.rawBytes
    requires e0 == EscapesBefore(v, i0) <= v.escapes && DecodedTo(v, out[..], i0)
    modifies out
    ensures status == 0 || status == -1
    ensures status == 0 <==> Consistent(v)
    ensures status == 0 ==> IsDecoded(v, out[..]) && out[v.rawBytes..] == old(out[v.rawBytes..])
  {
    var i, e := i0, e0;
    while i < v.values
      invariant i <= v.values && e == EscapesBefore(v, i) <= v.escapes && DecodedTo(v, out[..], i)
      invariant out[v.rawBytes..] == old(out[v.rawBytes..])
    {
      var ok;
      ok, e := DecodeValue(v, out, i, e);
      if !ok {
        EscapesGrow(v, i + 1, v.values);
        return -1;
      }
      i := i + 1;
    }
    LastByte(v, out);
    status := if e == v.escapes then 0 else -1;
  }

  /** An odd final byte is a low byte without a high one. */
  method LastByte(v: View, out: array<Byte>)
    requires Readable(v) && out.Length >= v.rawBytes && DecodedTo(v, out[..], v.values)
    modifies out
    ensures IsDecoded(v, out[..]) && out[v.rawBytes..] == old(out[v.rawBytes..])
  {
    ghost var before := out[..];
    if v.rawBytes % 2 == 1 {
      out[v.rawBytes - 1] := v.low[v.values];
    }
    forall k | 0 <= k < v.values
      ensures ValueDecoded(v, out[..], k)
    {
      assert ValueDecoded(v, before, k);
    }
  }

  /** Status 0 exactly when the output has room and the codes escape as often as the header says. */
  method DecodeScalar(v: View, out: array<Byte>) returns (status: int)
    requires Readable(v)
    modifies out
    ensures status == 0 || status == -1
    ensures status == 0 <==> out.Length >= v.rawBytes && Consistent(v)
    ensures status == 0 ==> IsDecoded(v, out[..]) && out[v.rawBytes..] == old(out[v.rawBytes..])
  {
    if out.Length < v.rawBytes {
      return -1;
    }
    status := DecodeTail(v, out, 0, 0);
  }
}
