/** Canonical codes from code lengths: the encoder's running assignment and the decoder's lookup
    table. Each used symbol owns an interval of twelve-bit words that starts where the intervals of
    the symbols before it, in order of length and then symbol, end. */
module CodeTables {
  import opened Numbers
  import opened BitStrings
  import opened HuffmanCosts
  import opened PrefixCodes
  import opened CodeLengths

  const TABLE_SIZE := 4096

  ghost predicate IsLengths(lens: seq<nat>) {
    |lens| == SYMBOLS && Bounded(lens, MAX_LENGTH)
  }

  /** Symbol t comes before position (l, s) in the order of length and then symbol. */
  ghost predicate Precedes(lens: seq<nat>, t: int, l: nat, s: nat)
    requires 0 <= t < |lens|
  {
    0 < lens[t] && (lens[t] < l || (lens[t] == l && t < s))
  }

  ghost function SpacesBefore(lens: seq<nat>, l: nat, s: nat): (f: seq<nat>)
    requires IsLengths(lens)
    ensures |f| == SYMBOLS
  {
    seq(SYMBOLS, t requires 0 <= t < SYMBOLS => if Precedes(lens, t, l, s) then Pow2(MAX_LENGTH - lens[t]) else 0)
  }

  /** The twelve-bit words owned by the symbols before (l, s). */
  ghost function SpaceBefore(lens: seq<nat>, l: nat, s: nat): nat
    requires IsLengths(lens)
  {
    Total(SpacesBefore(lens, l, s))
  }

  ghost function Width(lens: seq<nat>, s: Byte): (w: nat)
    requires IsLengths(lens)
    ensures w >= 1
  {
    Pow2(MAX_LENGTH - lens[s])
  }

  ghost function Begin(lens: seq<nat>, s: Byte): nat
    requires IsLengths(lens)
  {
    SpaceBefore(lens, lens[s], s)
  }

  /** The code word of a used symbol. */
  ghost function CodeWord(lens: seq<nat>, s: Byte): (w: Word)
    requires IsLengths(lens)
    ensures |w| == lens[s]
  {
    BitsOf(Begin(lens, s), MAX_LENGTH)[..lens[s]]
  }

  // ------------------------------------------------------------------ disjoint intervals

  lemma {:induction false} TotalChange(f: seq<nat>, g: seq<nat>, i: nat)
    requires |f| == |g| && i < |f| && forall j :: 0 <= j < |f| && j != i ==> f[j] == g[j]
    ensures Total(f) + g[i] == Total(g) + f[i]
  {
    TotalUpdate(f, i);
    TotalUpdate(g, i);
    assert f[i := 0] == g[i := 0];
  }

  lemma {:induction false} TotalAtMost(f: seq<nat>, g: seq<nat>)
    requires |f| == |g| && forall j :: 0 <= j < |f| ==> f[j] <= g[j]
    ensures Total(f) <= Total(g)
  {
    if f != [] {
      TotalAtMost(f[1..], g[1..]);
    }
  }

  /** Stepping past one symbol adds what it owns. */
  lemma {:induction false} SpaceAfterSymbol(lens: seq<nat>, l: nat, s: Byte)
    requires IsLengths(lens) && l >= 1
    ensures SpaceBefore(lens, l, s + 1) == SpaceBefore(lens, l, s) + if lens[s] == l then Width(lens, s) else 0
  {
    TotalChange(SpacesBefore(lens, l, s + 1), SpacesBefore(lens, l, s), s);
  }

  lemma {:induction false} SpaceOfNextLevel(lens: seq<nat>, l: nat)
    requires IsLengths(lens)
    ensures SpaceBefore(lens, l + 1, 0) == SpaceBefore(lens, l, SYMBOLS)
  {
    assert SpacesBefore(lens, l + 1, 0) == SpacesBefore(lens, l, SYMBOLS);
  }

  lemma {:induction false} SpaceOfFirst(lens: seq<nat>)
    requires IsLengths(lens)
    ensures SpaceBefore(lens, 1, 0) == 0
  {
    TotalOfZeros(SpacesBefore(lens, 1, 0));
  }

  /** Everything before a later position lies below it. */
  lemma {:induction false} IntervalsInOrder(lens: seq<nat>, s: Byte, l: nat, t: nat)
    requires IsLengths(lens) && Precedes(lens, s, l, t)
    ensures Begin(lens, s) + Width(lens, s) <= SpaceBefore(lens, l, t)
  {
    SpaceAfterSymbol(lens, lens[s], s);
    TotalAtMost(SpacesBefore(lens, lens[s], s + 1), SpacesBefore(lens, l, t));
  }

  lemma {:induction false} IntervalsFit(lens: seq<nat>, s: Byte)
    requires IsLengths(lens) && lens[s] > 0
    ensures Begin(lens, s) + Width(lens, s) <= CodeSpace(lens, MAX_LENGTH)
  {
    SpaceAfterSymbol(lens, lens[s], s);
    TotalAtMost(SpacesBefore(lens, lens[s], s + 1), Spaces(lens, MAX_LENGTH));
  }

  lemma {:induction false} TotalOfMultiples(f: seq<nat>, p: nat) returns (q: nat)
    requires p > 0 && forall i :: 0 <= i < |f| ==> IsMultiple(f[i], p)
    ensures Total(f) == Multiple(q, p)
  {
    if f == [] {
      q := 0;
    } else {
      assert IsMultiple(f[0], p);
      var m: nat :| f[0] == Multiple(m, p);
      var r := TotalOfMultiples(f[1..], p);
      q := m + r;
      assert (m + r) * p == m * p + r * p;
    }
  }

  ghost function Multiple(m: nat, p: nat): nat {
    m * p
  }

  ghost predicate IsMultiple(x: nat, p: nat) {
    exists m: nat :: x == Multiple(m, p)
  }

  /** A symbol's interval starts at a multiple of its width. */
  lemma {:induction false} BeginIsAligned(lens: seq<nat>, s: Byte) returns (q: nat)
    requires IsLengths(lens)
    ensures Begin(lens, s) == q * Width(lens, s)
  {
    var f, p := SpacesBefore(lens, lens[s], s), Width(lens, s);
    forall t | 0 <= t < |f|
      ensures IsMultiple(f[t], p)
    {
      if Precedes(lens, t, lens[s], s) {
        Pow2Add(lens[s] - lens[t], MAX_LENGTH - lens[s]);
        assert f[t] == Multiple(Pow2(lens[s] - lens[t]), p);
      } else {
        assert f[t] == Multiple(0, p);
      }
    }
    q := TotalOfMultiples(f, p);
  }

  ghost predicate Owns(lens: seq<nat>, s: Byte, i: int)
    requires IsLengths(lens)
  {
    lens[s] > 0 && Begin(lens, s) <= i < Begin(lens, s) + Width(lens, s)
  }

  lemma {:induction false} OneOwner(lens: seq<nat>, s: Byte, t: Byte, i: int)
    requires IsLengths(lens) && Owns(lens, s, i) && Owns(lens, t, i)
    ensures s == t
  {
    if s != t {
      if Precedes(lens, s, lens[t], t) {
        IntervalsInOrder(lens, s, lens[t], t);
      } else {
        IntervalsInOrder(lens, t, lens[s], s);
      }
      assert false;
    }
  }

  // ------------------------------------------------------------------ intervals and prefixes

  lemma {:induction false} TopBits(q: nat, r: nat, l: nat, k: nat)
    requires r < Pow2(k)
    ensures BitsOf(q * Pow2(k) + r, l + k)[..l] == BitsOf(q, l)
  {
    BitsOfShift(q, l, r, k);
  }

  lemma {:induction false} BitsOfInjective(x: nat, y: nat, n: nat)
    requires x < Pow2(n) && y < Pow2(n) && BitsOf(x, n) == BitsOf(y, n)
    ensures x == y
  {
    ValueOfBits(x, n);
    ValueOfBits(y, n);
  }

  lemma {:induction false} SameBlock(q: nat, d: nat, m: nat, p: nat)
    requires m < p
    ensures q * p <= d * p + m < q * p + p <==> d == q
  {
    if d > q {
      FewTimes(q + 1, d, p);
      OneMore(q, p);
    } else if d < q {
      FewTimes(d + 1, q, p);
      OneMore(d, p);
    }
  }

  lemma {:induction false} BlockBound(q: nat, p: nat, n: nat)
    requires p > 0 && q * p < n * p
    ensures q < n
  {
    if q >= n {
      FewTimes(n, q, p);
    }
  }

  lemma {:induction false} QuotientBits(d: nat, m: nat, l: nat, k: nat)
    requires m < Pow2(k) && d * Pow2(k) + m < Pow2(l + k)
    ensures d < Pow2(l)
  {
    Pow2Add(l, k);
    BlockBound(d, Pow2(k), Pow2(l));
  }

  /** An aligned block is the words that share their leading bits. */
  lemma {:induction false} BlockIffPrefix(q: nat, i: nat, l: nat, k: nat)
    requires q < Pow2(l) && i < Pow2(l + k)
    ensures q * Pow2(k) <= i < q * Pow2(k) + Pow2(k) <==> BitsOf(i, l + k)[..l] == BitsOf(q, l)
  {
    var d, m := Remainder(i, Pow2(k));
    SameBlock(q, d, m, Pow2(k));
    QuotientBits(d, m, l, k);
    TopBits(d, m, l, k);
    if BitsOf(d, l) == BitsOf(q, l) {
      BitsOfInjective(d, q, l);
    }
  }

  /** The n-bit words of an aligned block are those with its first bits. */
  lemma {:induction false} AlignedBlock(begin: nat, width: nat, q: nat, i: nat, l: nat, k: nat, n: nat)
    requires begin == q * width && width == Pow2(k) && l + k == n && begin + width <= Pow2(n) && i < Pow2(n)
    ensures begin <= i < begin + width <==> BitsOf(i, n)[..l] == BitsOf(begin, n)[..l]
  {
    Pow2Add(l, k);
    BlockBound(q, width, Pow2(l));
    TopBits(q, 0, l, k);
    BlockIffPrefix(q, i, l, k);
  }

  /** A twelve-bit word is owned by s exactly when it starts with the code word of s. */
  lemma {:induction false} OwnsIffPrefix(lens: seq<nat>, s: Byte, i: nat)
    requires IsLengths(lens) && lens[s] > 0 && CodeSpace(lens, MAX_LENGTH) <= TABLE_SIZE && i < TABLE_SIZE
    ensures Owns(lens, s, i) <==> BitsOf(i, MAX_LENGTH)[..lens[s]] == CodeWord(lens, s)
  {
    var q := BeginIsAligned(lens, s);
    IntervalsFit(lens, s);
    WordSizes();
    AlignedBlock(Begin(lens, s), Width(lens, s), q, i, lens[s], MAX_LENGTH - lens[s], MAX_LENGTH);
  }

  /** No code word is a prefix of another symbol's. */
  lemma {:induction false} CanonicalIsPrefixFree(lens: seq<nat>, s: Byte, t: Byte)
    requires IsLengths(lens) && CodeSpace(lens, MAX_LENGTH) <= TABLE_SIZE
    requires lens[s] > 0 && lens[t] > 0 && s != t
    ensures !(CodeWord(lens, s) <= CodeWord(lens, t))
  {
    if CodeWord(lens, s) <= CodeWord(lens, t) {
      var i := Begin(lens, t);
      IntervalsFit(lens, t);
      assert BitsOf(i, MAX_LENGTH)[..lens[s]] == CodeWord(lens, t)[..lens[s]] == CodeWord(lens, s);
      OwnsIffPrefix(lens, s, i);
      OneOwner(lens, s, t, i);
    }
  }

  // ------------------------------------------------------------------ the encoder's assignment

  datatype Code = Code(value: nat, width: nat)

  /** The used symbols in order of length and then symbol. */
  ghost predicate IsRanking(lens: seq<nat>, order: seq<Byte>, l: nat, s: nat) {
    && |lens| == SYMBOLS
    && (forall i, j :: 0 <= i < j < |order| ==> Precedes(lens, order[i], lens[order[j]], order[j]))
    && forall t: Byte :: t in order <==> Precedes(lens, t, l, s)
  }

  method Ranking(lens: seq<nat>) returns (order: seq<Byte>)
    requires IsLengths(lens)
    ensures IsRanking(lens, order, MAX_LENGTH, SYMBOLS)
  {
    order := [];
    for l := 1 to MAX_LENGTH + 1
      invariant IsRanking(lens, order, l, 0)
    {
      for s := 0 to SYMBOLS
        invariant IsRanking(lens, order, l, s)
      {
        order := RankNext(lens, order, l, s);
      }
      assert forall t: Byte :: Precedes(lens, t, l, SYMBOLS) <==> Precedes(lens, t, l + 1, 0);
    }
  }

  method RankNext(lens: seq<nat>, order: seq<Byte>, l: nat, s: Byte) returns (after: seq<Byte>)
    requires IsRanking(lens, order, l, s) && l >= 1
    ensures IsRanking(lens, after, l, s + 1)
  {
    after := order;
    if lens[s] == l {
      after := order + [s];
      assert forall i :: 0 <= i < |order| ==> order[i] in order;
      assert forall t: Byte :: t in after <==> t in order || t == s;
    }
  }

  /** The assigned codes are the canonical ones. */
  ghost predicate IsCanonical(lens: seq<nat>, codes: seq<Code>)
  {
    && IsLengths(lens) && |codes| == SYMBOLS
    && forall s: Byte :: IsCodeOf(lens, codes[s], s)
  }

  ghost predicate IsCodeOf(lens: seq<nat>, code: Code, s: Byte)
    requires IsLengths(lens)
  {
    code.width == lens[s] && (lens[s] > 0 ==> code.value * Width(lens, s) == Begin(lens, s))
  }

  /** s has a code, t too, and s is shorter, or as short and a smaller symbol. */
  ghost predicate ComesBefore(lens: seq<nat>, s: Byte, t: Byte)
    requires |lens| == SYMBOLS
  {
    0 < lens[s] <= lens[t] && (lens[s] == lens[t] ==> s < t)
  }

  ghost predicate NoneBetween(lens: seq<nat>, s: Byte, t: Byte)
    requires |lens| == SYMBOLS
  {
    forall u: Byte :: !(ComesBefore(lens, s, u) && ComesBefore(lens, u, t))
  }

  lemma {:induction false} NextInterval(lens: seq<nat>, s: Byte, t: Byte)
    requires IsLengths(lens) && ComesBefore(lens, s, t) && NoneBetween(lens, s, t)
    ensures Begin(lens, t) == Begin(lens, s) + Width(lens, s)
  {
    SpaceAfterSymbol(lens, lens[s], s);
    var f, g := SpacesBefore(lens, lens[s], s + 1), SpacesBefore(lens, lens[t], t);
    forall u: Byte
      ensures f[u] == g[u]
    {
      assert Precedes(lens, u, lens[t], t) <==> ComesBefore(lens, u, t);
      assert Precedes(lens, u, lens[s], s + 1) <==> u == s || ComesBefore(lens, u, s);
    }
    assert f == g;
  }

  lemma {:induction false} CodeAfter(v: nat, w: nat, big: nat, small: nat, factor: nat)
    requires small >= 1 && big == factor * small && w * small == v * big + big
    ensures w == (v + 1) * factor
  {
    assert v * big + big == (v + 1) * factor * small;
    SameFactor(small, w, (v + 1) * factor);
  }

  lemma {:induction false} SameFactor(f: nat, a: nat, b: nat)
    requires f >= 1 && a * f == b * f
    ensures a == b
  {
    CancelFactor(f, a, b);
    CancelFactor(f, b, a);
  }

  /** From each code to the next in order: one more, and as many zero bits as the next code is longer. */
  lemma {:induction false} CanonicalSuccessor(lens: seq<nat>, codes: seq<Code>, s: Byte, t: Byte)
    requires IsCanonical(lens, codes) && ComesBefore(lens, s, t) && NoneBetween(lens, s, t)
    ensures codes[s].width == lens[s] && codes[t].width == lens[t]
    ensures codes[t].value == (codes[s].value + 1) * Pow2(lens[t] - lens[s])
  {
    NextInterval(lens, s, t);
    assert IsCodeOf(lens, codes[s], s) && IsCodeOf(lens, codes[t], t);
    Pow2Add(lens[t] - lens[s], MAX_LENGTH - lens[t]);
    CodeAfter(codes[s].value, codes[t].value, Width(lens, s), Width(lens, t), Pow2(lens[t] - lens[s]));
  }

  /** The first code is zero. */
  lemma {:induction false} CanonicalFirst(lens: seq<nat>, codes: seq<Code>, t: Byte)
    requires IsCanonical(lens, codes) && lens[t] > 0 && forall u: Byte :: !ComesBefore(lens, u, t)
    ensures codes[t].value == 0
  {
    assert IsCodeOf(lens, codes[t], t);
    var f := SpacesBefore(lens, lens[t], t);
    forall u: Byte
      ensures f[u] == 0
    {
      assert Precedes(lens, u, lens[t], t) <==> ComesBefore(lens, u, t);
    }
    TotalOfZeros(f);
    SameFactor(Width(lens, t), codes[t].value, 0);
  }

  lemma {:induction false} CodeBits(lens: seq<nat>, code: Code, s: Byte)
    requires IsLengths(lens) && CodeSpace(lens, MAX_LENGTH) <= TABLE_SIZE && lens[s] > 0 && IsCodeOf(lens, code, s)
    ensures BitsOf(code.value, code.width) == CodeWord(lens, s) && code.value < Pow2(code.width)
  {
    var k := MAX_LENGTH - lens[s];
    TopBits(code.value, 0, lens[s], k);
    IntervalsFit(lens, s);
    Pow2Add(lens[s], k);
    WordSizes();
    BlockBound(code.value, Pow2(k), Pow2(lens[s]));
  }

  lemma {:induction false} RankedBefore(lens: seq<nat>, order: seq<Byte>, k: nat)
    requires IsLengths(lens) && IsRanking(lens, order, MAX_LENGTH, SYMBOLS) && k < |order|
    ensures forall t: Byte :: t in order[..k] <==> Precedes(lens, t, lens[order[k]], order[k])
    ensures lens[order[k]] > 0
  {
    assert order[k] in order;
    forall t: Byte
      ensures t in order[..k] <==> Precedes(lens, t, lens[order[k]], order[k])
    {
      if Precedes(lens, t, lens[order[k]], order[k]) {
        assert t in order;
        var i :| 0 <= i < |order| && order[i] == t;
        assert i < k;
      }
    }
  }

  lemma {:induction false} SameSpace(lens: seq<nat>, l: nat, s: nat, l': nat, s': nat)
    requires IsLengths(lens) && forall t: Byte :: Precedes(lens, t, l, s) <==> Precedes(lens, t, l', s')
    ensures SpaceBefore(lens, l, s) == SpaceBefore(lens, l', s')
  {
    assert SpacesBefore(lens, l, s) == SpacesBefore(lens, l', s');
  }

  /** Where the assignment stands: (l, s) is the position after the first k symbols, and code, of the
      given width, begins where their intervals end. */
  ghost predicate Reached(lens: seq<nat>, order: seq<Byte>, k: nat, l: nat, s: nat, code: nat, width: nat)
    requires IsLengths(lens) && k <= |order|
  {
    && (forall t: Byte :: t in order[..k] <==> Precedes(lens, t, l, s))
    && width <= MAX_LENGTH && (k == 0 ==> width == 0) && (k > 0 ==> width == lens[order[k - 1]])
    && code * Pow2(MAX_LENGTH - width) == SpaceBefore(lens, l, s)
  }

  lemma {:induction false} WidthsGrow(lens: seq<nat>, order: seq<Byte>, k: nat, width: nat)
    requires IsLengths(lens) && IsRanking(lens, order, MAX_LENGTH, SYMBOLS) && k < |order|
    requires (k == 0 ==> width == 0) && (k > 0 ==> width == lens[order[k - 1]])
    ensures width <= lens[order[k]]
  {
    if k > 0 {
      assert Precedes(lens, order[k - 1], lens[order[k]], order[k]);
    }
  }

  lemma {:induction false} ShiftedCode(code: nat, a: nat, b: nat, m: nat)
    requires a <= b <= m
    ensures code * Pow2(b - a) * Pow2(m - b) == code * Pow2(m - a)
  {
    Pow2Add(b - a, m - b);
    assert code * (Pow2(b - a) * Pow2(m - b)) == code * Pow2(b - a) * Pow2(m - b);
  }

  /** The running code, widened to the next symbol's length, begins at that symbol's interval. */
  lemma {:induction false} ReachSymbol(lens: seq<nat>, order: seq<Byte>, k: nat, l: nat, s: nat, code: nat, width: nat)
    requires IsLengths(lens) && IsRanking(lens, order, MAX_LENGTH, SYMBOLS) && k < |order|
    requires Reached(lens, order, k, l, s, code, width)
    ensures var t: nat := order[k];
            width <= lens[t] && lens[t] > 0 && code * Pow2(lens[t] - width) * Width(lens, t) == Begin(lens, t)
  {
    var t: nat := order[k];
    WidthsGrow(lens, order, k, width);
    ShiftedCode(code, width, lens[t], MAX_LENGTH);
    RankedBefore(lens, order, k);
    SameSpace(lens, l, s, lens[t], t);
  }

  lemma {:induction false} ReachNext(lens: seq<nat>, order: seq<Byte>, k: nat, code: nat)
    requires IsLengths(lens) && IsRanking(lens, order, MAX_LENGTH, SYMBOLS) && k < |order|
    requires lens[order[k]] > 0 && code * Width(lens, order[k]) == Begin(lens, order[k])
    ensures var t: nat := order[k]; Reached(lens, order, k + 1, lens[t], t + 1, code + 1, lens[t])
  {
    var t: nat := order[k];
    RankedBefore(lens, order, k);
    SpaceAfterSymbol(lens, lens[t], t);
    OneMore(code, Width(lens, t));
    assert order[..k + 1] == order[..k] + [t];
  }

  ghost predicate Assigned(lens: seq<nat>, codes: seq<Code>, done: seq<Byte>)
    requires IsLengths(lens)
  {
    |codes| == SYMBOLS && forall t: Byte :: if t in done then IsCodeOf(lens, codes[t], t) else codes[t] == Code(0, 0)
  }

  lemma {:induction false} AssignedOneMore(lens: seq<nat>, codes: seq<Code>, order: seq<Byte>, k: nat, code: Code)
    requires IsLengths(lens) && k < |order| && Assigned(lens, codes, order[..k]) && IsCodeOf(lens, code, order[k])
    ensures Assigned(lens, codes[order[k] := code], order[..k + 1])
  {
    assert order[..k + 1] == order[..k] + [order[k]];
  }

  lemma {:induction false} AllAssigned(lens: seq<nat>, codes: seq<Code>, order: seq<Byte>)
    requires IsLengths(lens) && IsRanking(lens, order, MAX_LENGTH, SYMBOLS) && Assigned(lens, codes, order)
    ensures IsCanonical(lens, codes)
  {}

  /** One symbol in order: the code is shifted to its width, and the next one is one more. */
  method AssignNext(lens: seq<nat>, codes: seq<Code>, order: seq<Byte>, k: nat, code: nat, previous: nat, ghost l: nat,
                    ghost s: nat)
    returns (codes': seq<Code>, code': nat)
    requires IsLengths(lens) && IsRanking(lens, order, MAX_LENGTH, SYMBOLS) && k < |order|
    requires Assigned(lens, codes, order[..k]) && Reached(lens, order, k, l, s, code, previous)
    ensures Assigned(lens, codes', order[..k + 1])
    ensures var symbol: nat := order[k]; Reached(lens, order, k + 1, lens[symbol], symbol + 1, code', lens[symbol])
  {
    var symbol := order[k];
    ReachSymbol(lens, order, k, l, s, code, previous);
    var shifted := code * Pow2(lens[symbol] - previous);
    ReachNext(lens, order, k, shifted);
    AssignedOneMore(lens, codes, order, k, Code(shifted, lens[symbol]));
    codes', code' := codes[symbol := Code(shifted, lens[symbol])], shifted + 1;
  }

  /** Sorted assignment: widen the running code to the next length, hand it out, add one. */
  method AssignCodes(lens: seq<nat>) returns (codes: seq<Code>)
    requires IsLengths(lens)
    ensures IsCanonical(lens, codes)
  {
    codes := seq(SYMBOLS, _ => Code(0, 0));
    var order := Ranking(lens);
    var code: nat, previous: nat := 0, 0;
    SpaceOfFirst(lens);
    ghost var l: nat, s: nat := 1, 0;
    for k := 0 to |order|
      invariant Assigned(lens, codes, order[..k])
      invariant Reached(lens, order, k, l, s, code, previous)
    {
      var symbol: nat := order[k];
      codes, code := AssignNext(lens, codes, order, k, code, previous, l, s);
      previous := lens[symbol];
      l, s := lens[symbol], symbol + 1;
    }
    assert order[..|order|] == order;
    AllAssigned(lens, codes, order);
  }

  // ------------------------------------------------------------------ the decoder's table

  /** v is the table entry of the twelve-bit word i: the symbol whose code word i starts with and that
      word's length, or zero when no code word fits. */
  ghost predicate IsEntry(lens: seq<nat>, v: nat, i: nat)
    requires IsLengths(lens)
  {
    && (v == 0 || exists s: Byte :: HasEntry(lens, v, i, s))
    && forall s: Byte :: lens[s] > 0 && Starts(lens, i, s) ==> v == 16 * s + lens[s]
  }

  ghost predicate Starts(lens: seq<nat>, i: nat, s: Byte)
    requires IsLengths(lens)
  {
    BitsOf(i, MAX_LENGTH)[..lens[s]] == CodeWord(lens, s)
  }

  ghost predicate HasEntry(lens: seq<nat>, v: nat, i: nat, s: Byte)
    requires IsLengths(lens)
  {
    lens[s] > 0 && Starts(lens, i, s) && v == 16 * s + lens[s]
  }

  ghost predicate IsTable(lens: seq<nat>, table: seq<nat>)
    requires IsLengths(lens)
  {
    |table| == TABLE_SIZE && forall i :: 0 <= i < TABLE_SIZE ==> IsEntry(lens, table[i], i)
  }

  /** The table when the symbols below n have been entered. */
  ghost predicate Entered(lens: seq<nat>, v: nat, i: nat, n: nat)
    requires IsLengths(lens)
  {
    && (v == 0 || exists s: Byte :: s < n && Owns(lens, s, i) && v == 16 * s + lens[s])
    && forall s: Byte :: s < n && Owns(lens, s, i) ==> v == 16 * s + lens[s]
  }

  lemma {:induction false} EnteredAll(lens: seq<nat>, v: nat, i: nat)
    requires IsLengths(lens) && CodeSpace(lens, MAX_LENGTH) <= TABLE_SIZE && i < TABLE_SIZE
    requires Entered(lens, v, i, SYMBOLS)
    ensures IsEntry(lens, v, i)
  {
    if v != 0 {
      var s: Byte :| s < SYMBOLS && Owns(lens, s, i) && v == 16 * s + lens[s];
      OwnsIffPrefix(lens, s, i);
      assert HasEntry(lens, v, i, s);
    }
    forall s: Byte | lens[s] > 0 && Starts(lens, i, s)
      ensures v == 16 * s + lens[s]
    {
      OwnsIffPrefix(lens, s, i);
    }
  }

  /** How many of the first n symbols have length l. */
  ghost function CountAt(lens: seq<nat>, l: nat, n: nat): nat
    requires n <= |lens|
  {
    if n == 0 then 0 else CountAt(lens, l, n - 1) + if lens[n - 1] == l then 1 else 0
  }

  lemma {:induction false} SpaceOfCount(lens: seq<nat>, l: nat, n: nat)
    requires IsLengths(lens) && 1 <= l <= MAX_LENGTH && n <= SYMBOLS
    ensures SpaceBefore(lens, l, n) == SpaceBefore(lens, l, 0) + CountAt(lens, l, n) * Pow2(MAX_LENGTH - l)
  {
    if n > 0 {
      SpaceOfCount(lens, l, n - 1);
      SpaceAfterSymbol(lens, l, n - 1);
      OneMore(CountAt(lens, l, n - 1), Pow2(MAX_LENGTH - l));
    }
  }

  lemma {:induction false} SpaceOfAll(lens: seq<nat>)
    requires IsLengths(lens)
    ensures SpaceBefore(lens, MAX_LENGTH + 1, 0) == CodeSpace(lens, MAX_LENGTH)
  {
    assert SpacesBefore(lens, MAX_LENGTH + 1, 0) == Spaces(lens, MAX_LENGTH);
  }

  ghost predicate IsHistogram(lens: seq<nat>, count: seq<nat>) {
    && IsLengths(lens) && |count| == MAX_LENGTH + 1
    && forall l :: 1 <= l <= MAX_LENGTH ==> count[l] == CountAt(lens, l, SYMBOLS)
  }

  method CountLengths(lens: seq<nat>) returns (ok: bool, count: seq<nat>)
    requires |lens| == SYMBOLS
    ensures ok <==> Bounded(lens, MAX_LENGTH)
    ensures ok ==> IsHistogram(lens, count)
  {
    count := seq(MAX_LENGTH + 1, _ => 0);
    for s := 0 to SYMBOLS
      invariant |count| == MAX_LENGTH + 1 && forall t :: 0 <= t < s ==> lens[t] <= MAX_LENGTH
      invariant forall l :: 0 <= l <= MAX_LENGTH ==> count[l] == CountAt(lens, l, s)
    {
      if lens[s] > MAX_LENGTH {
        return false, count;
      }
      count := count[lens[s] := count[lens[s]] + 1];
    }
    count := count[0 := 0];
    ok := true;
  }

  lemma {:induction false} LevelSpace(lens: seq<nat>, count: seq<nat>, l: nat)
    requires IsHistogram(lens, count) && 1 <= l <= MAX_LENGTH
    ensures SpaceBefore(lens, l + 1, 0) == SpaceBefore(lens, l, 0) + count[l] * Pow2(MAX_LENGTH - l)
  {
    SpaceOfCount(lens, l, SYMBOLS);
    SpaceOfNextLevel(lens, l);
  }

  method CountedSpace(lens: seq<nat>, count: seq<nat>) returns (space: nat)
    requires IsHistogram(lens, count)
    ensures space == CodeSpace(lens, MAX_LENGTH)
  {
    space := 0;
    SpaceOfFirst(lens);
    for l := 1 to MAX_LENGTH + 1
      invariant space == SpaceBefore(lens, l, 0)
    {
      LevelSpace(lens, count, l);
      space := space + count[l] * Pow2(MAX_LENGTH - l);
    }
    SpaceOfAll(lens);
  }

  /** next[l] is the code that a symbol s of length l would get. */
  ghost predicate IsNext(lens: seq<nat>, next: seq<nat>, s: nat) {
    && IsLengths(lens) && |next| == MAX_LENGTH + 1
    && forall l :: 1 <= l <= MAX_LENGTH ==> NextAt(lens, next[l], l, s)
  }

  ghost predicate NextAt(lens: seq<nat>, code: nat, l: nat, s: nat)
    requires IsLengths(lens) && l <= MAX_LENGTH
  {
    code * Pow2(MAX_LENGTH - l) == SpaceBefore(lens, l, s)
  }

  lemma {:induction false} NextLevel(lens: seq<nat>, count: seq<nat>, code: nat, l: nat)
    requires IsHistogram(lens, count) && 1 <= l < MAX_LENGTH && NextAt(lens, code, l, 0)
    ensures NextAt(lens, (code + count[l]) * 2, l + 1, 0)
  {
    LevelSpace(lens, count, l);
    DoubleCode(code, count[l], Pow2(MAX_LENGTH - l - 1));
    assert Pow2(MAX_LENGTH - l) == 2 * Pow2(MAX_LENGTH - l - 1);
  }

  lemma {:induction false} DoubleCode(c: nat, n: nat, p: nat)
    ensures (c + n) * 2 * p == c * (2 * p) + n * (2 * p)
  {}

  method FirstCodes(lens: seq<nat>, count: seq<nat>) returns (first: seq<nat>)
    requires IsHistogram(lens, count)
    ensures IsNext(lens, first, 0)
  {
    first := seq(MAX_LENGTH + 1, _ => 0);
    var code: nat := 0;
    SpaceOfFirst(lens);
    for l := 1 to MAX_LENGTH + 1
      invariant |first| == MAX_LENGTH + 1
      invariant l <= MAX_LENGTH ==> NextAt(lens, code, l, 0)
      invariant forall k :: 1 <= k < l ==> NextAt(lens, first[k], k, 0)
    {
      first := first[l := code];
      if l < MAX_LENGTH {
        NextLevel(lens, count, code, l);
      }
      code := (code + count[l]) * 2;
    }
  }

  lemma {:induction false} NextSymbol(lens: seq<nat>, next: seq<nat>, s: Byte)
    requires IsNext(lens, next, s)
    ensures lens[s] == 0 ==> IsNext(lens, next, s + 1)
    ensures lens[s] > 0 ==> next[lens[s]] * Width(lens, s) == Begin(lens, s)
    ensures lens[s] > 0 ==> IsNext(lens, next[lens[s] := next[lens[s]] + 1], s + 1)
  {
    var after := if lens[s] == 0 then next else next[lens[s] := next[lens[s]] + 1];
    forall l | 1 <= l <= MAX_LENGTH
      ensures NextAt(lens, after[l], l, s + 1)
    {
      SpaceAfterSymbol(lens, l, s);
      OneMore(next[l], Pow2(MAX_LENGTH - l));
      assert NextAt(lens, next[l], l, s);
    }
    if lens[s] > 0 {
      assert NextAt(lens, next[lens[s]], lens[s], s);
    }
  }

  lemma {:induction false} EnteredNext(lens: seq<nat>, v: nat, v': nat, i: nat, s: Byte)
    requires IsLengths(lens) && Entered(lens, v, i, s)
    requires v' == if Owns(lens, s, i) then 16 * s + lens[s] else v
    ensures Entered(lens, v', i, s + 1)
  {
    if Owns(lens, s, i) {
      forall t: Byte | t < s + 1 && Owns(lens, t, i)
        ensures v' == 16 * t + lens[t]
      {
        OneOwner(lens, s, t, i);
      }
    } else if v != 0 {
      var t: Byte :| t < s && Owns(lens, t, i) && v == 16 * t + lens[t];
      assert t < s + 1;
    }
  }

  /** Every word that starts with the code of s gets its entry. */
  method Enter(table: array<nat>, lens: seq<nat>, s: Byte, code: nat)
    requires table.Length == TABLE_SIZE && IsLengths(lens) && CodeSpace(lens, MAX_LENGTH) <= TABLE_SIZE
    requires lens[s] > 0 && code * Width(lens, s) == Begin(lens, s)
    requires forall i :: 0 <= i < TABLE_SIZE ==> Entered(lens, table[i], i, s)
    modifies table
    ensures forall i :: 0 <= i < TABLE_SIZE ==> Entered(lens, table[i], i, s + 1)
  {
    IntervalsFit(lens, s);
    var n := Pow2(MAX_LENGTH - lens[s]);
    var lo := code * n;
    ghost var before := table[..];
    for i := 0 to n
      invariant forall k :: 0 <= k < TABLE_SIZE ==> table[k] == if lo <= k < lo + i then 16 * s + lens[s] else before[k]
    {
      table[lo + i] := 16 * s + lens[s];
    }
    forall i | 0 <= i < TABLE_SIZE
      ensures Entered(lens, table[i], i, s + 1)
    {
      EnteredNext(lens, before[i], table[i], i, s);
    }
  }

  lemma {:induction false} SkipSymbol(lens: seq<nat>, v: nat, i: nat, s: Byte)
    requires IsLengths(lens) && lens[s] == 0 && Entered(lens, v, i, s)
    ensures Entered(lens, v, i, s + 1)
  {
    EnteredNext(lens, v, v, i, s);
  }

  /** Build the lookup table, or refuse lengths that are too long, over-full or all absent. */
  method BuildTable(table: array<nat>, lens: seq<nat>) returns (ok: bool)
    requires table.Length == TABLE_SIZE && |lens| == SYMBOLS
    modifies table
    ensures ok <==> Bounded(lens, MAX_LENGTH) && 0 < CodeSpace(lens, MAX_LENGTH) <= TABLE_SIZE
    ensures ok ==> IsTable(lens, table[..])
  {
    var count;
    ok, count := CountLengths(lens);
    if !ok {
      return;
    }
    var space := CountedSpace(lens, count);
    if space > TABLE_SIZE || space == 0 {
      return false;
    }
    var next := FirstCodes(lens, count);
    for i := 0 to TABLE_SIZE
      invariant forall k :: 0 <= k < i ==> table[k] == 0
    {
      table[i] := 0;
    }
    FillTable(table, lens, next);
  }

  method FillTable(table: array<nat>, lens: seq<nat>, first: seq<nat>)
    requires table.Length == TABLE_SIZE && IsNext(lens, first, 0) && CodeSpace(lens, MAX_LENGTH) <= TABLE_SIZE
    requires forall k :: 0 <= k < TABLE_SIZE ==> table[k] == 0
    modifies table
    ensures IsTable(lens, table[..])
  {
    var next := first;
    for s := 0 to SYMBOLS
      invariant IsNext(lens, next, s)
      invariant forall i :: 0 <= i < TABLE_SIZE ==> Entered(lens, table[i], i, s)
    {
      NextSymbol(lens, next, s);
      if lens[s] == 0 {
        forall i | 0 <= i < TABLE_SIZE
          ensures Entered(lens, table[i], i, s + 1)
        {
          SkipSymbol(lens, table[i], i, s);
        }
      } else {
        var code := next[lens[s]];
        next := next[lens[s] := code + 1];
        Enter(table, lens, s, code);
      }
    }
    forall i | 0 <= i < TABLE_SIZE
      ensures IsEntry(lens, table[i], i)
    {
      EnteredAll(lens, table[i], i);
    }
  }
}
