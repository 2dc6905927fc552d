/** The two byte planes of 16-bit little-endian data. */
module BytePlanes {
  import opened BitStrings

  /** The high bytes, at the odd offsets. */
  function Odd(raw: seq<Byte>): (high: seq<Byte>)
    ensures |high| == |raw| / 2
  {
    seq(|raw| / 2, i requires 0 <= i < |raw| / 2 => raw[2 * i + 1])
  }

  /** The low bytes, at the even offsets, with an odd final byte. */
  function Even(raw: seq<Byte>): (low: seq<Byte>)
    ensures |low| == (|raw| + 1) / 2
  {
    seq((|raw| + 1) / 2, i requires 0 <= i < (|raw| + 1) / 2 => raw[2 * i])
  }

  lemma {:induction false} OddEvenDetermine(a: seq<Byte>, b: seq<Byte>)
    requires |a| == |b| && Odd(a) == Odd(b) && Even(a) == Even(b)
    ensures a == b
  {
    forall i | 0 <= i < |a|
      ensures a[i] == b[i]
    {
      if i % 2 == 1 {
        assert a[i] == Odd(a)[i / 2] && b[i] == Odd(b)[i / 2];
      } else {
        assert a[i] == Even(a)[i / 2] && b[i] == Even(b)[i / 2];
      }
    }
  }
}
