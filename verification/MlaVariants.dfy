/** Four loop structures of cached attention. Each computes, for every token and head, the same output
    row, scores and normaliser: only when a term is computed differs, never its operands or order. */
module MlaVariants {
  import opened Numbers
  import opened MlaAttentions

  /** What a call leaves for one token and head: the output row, the raw scores and the normaliser. */
  datatype Cell<F, D> = Cell(o: seq<F>, scores: seq<F>, z: D)

  ghost predicate Finished<F, D>(c: Call<F, D>, cell: Cell<F, D>, t: nat, h: nat)
    requires c.Shaped()
  {
    match cell
    case Cell(o, scores, z) => Attended(c, o, scores, z, t, h)
  }

  /** Room for every token and head. */
  ghost predicate Fits<F, D>(c: Call<F, D>, out: array2<Cell<F, D>>) {
    out.Length0 == c.tokens && out.Length1 == c.heads
  }

  ghost predicate AllFinished<F, D>(c: Call<F, D>, out: array2<Cell<F, D>>)
    requires c.Shaped() && Fits(c, out)
    reads out
  {
    forall t: nat, h: nat :: t < c.tokens && h < c.heads ==> Finished(c, out[t, h], t, h)
  }

  /** Two variants that both finish leave the same cells. */
  lemma {:induction false} FinishedIsUnique<F, D>(c: Call<F, D>, a: Cell<F, D>, b: Cell<F, D>, t: nat, h: nat)
    requires c.Shaped() && Finished(c, a, t, h) && Finished(c, b, t, h)
    ensures a == b
  {
    assert a.o == b.o;
  }

  function Zeros<F>(zero: F, n: nat): (o: seq<F>)
    ensures |o| == n
  {
    seq(n, _ => zero)
  }

  // ------------------------------------------------------------------ E

  /** The score of one visible position, from its cached rows. */
  method ScoreAt<F, D>(c: Call<F, D>, kv: seq<seq<seq<F>>>, rope: seq<seq<F>>, t: nat, h: nat, s: nat)
    returns (score: F)
    requires c.Shaped() && h < c.heads && s < c.Positions()
    requires ExpandedStored(c, kv, c.Positions()) && RopesStored(c, rope, c.Positions())
    ensures score == Score(c, t, h, s)
  {
    assert ExpandedAt(c, kv[s], s);
    var d := Dot(c, t, h, kv[s][h], rope[s]);
    score := c.a.times(c.a.narrow(d), c.a.scale);
  }

  lemma {:induction false} ScorePrefix<F, D>(c: Call<F, D>, t: nat, h: nat, s: nat)
    requires c.Shaped() && s < Seen(c, t)
    ensures ScoreRow(c, t, h)[..s + 1] == ScoreRow(c, t, h)[..s] + [Score(c, t, h, s)]
    ensures Maximum(c.a, ScoreRow(c, t, h), s + 1) ==
            if c.a.greater(Score(c, t, h, s), Maximum(c.a, ScoreRow(c, t, h), s)) then Score(c, t, h, s)
            else Maximum(c.a, ScoreRow(c, t, h), s)
  {}

  /** Scores and their maximum, in one pass over the visible positions. */
  method ScoresE<F, D>(c: Call<F, D>, kv: seq<seq<seq<F>>>, rope: seq<seq<F>>, t: nat, h: nat)
    returns (sc: seq<F>, m: F)
    requires c.Shaped() && t < c.tokens && h < c.heads
    requires ExpandedStored(c, kv, c.Positions()) && RopesStored(c, rope, c.Positions())
    ensures sc == ScoreRow(c, t, h) && m == Maximum(c.a, sc, |sc|)
  {
    ghost var w := ScoreRow(c, t, h);
    sc, m := [], c.a.lowest;
    for s := 0 to c.cached + t + 1
      invariant sc == w[..s] && m == Maximum(c.a, w, s)
    {
      var score := ScoreAt(c, kv, rope, t, h, s);
      ScorePrefix(c, t, h, s);
      sc := sc + [score];
      if c.a.greater(score, m) {
        m := score;
      }
    }
    assert w[..Seen(c, t)] == w;
  }

  method ExponentialsE<F, D>(a: Arith<F, D>, sc: seq<F>, m: F) returns (e: seq<F>, z: D)
    requires m == Maximum(a, sc, |sc|)
    ensures |e| == |sc| && z == Normaliser(a, sc, |sc|, |sc|)
    ensures forall s :: 0 <= s < |sc| ==> e[s] == Exponential(a, sc, |sc|, s)
  {
    e, z := sc, a.zeroD;
    for s := 0 to |sc|
      invariant |e| == |sc| && e[s..] == sc[s..] && z == Normaliser(a, sc, |sc|, s)
      invariant forall k :: 0 <= k < s ==> e[k] == Exponential(a, sc, |sc|, k)
    {
      e := e[s := a.exp(a.minus(e[s], m))];
      z := a.plusD(z, a.widen(e[s]));
    }
  }

  /** One token and head: everything in position order. */
  method AttendOneE<F(0), D>(c: Call<F, D>, kv: seq<seq<seq<F>>>, rope: seq<seq<F>>, t: nat, h: nat)
    returns (cell: Cell<F, D>)
    requires c.Shaped() && t < c.tokens && h < c.heads
    requires ExpandedStored(c, kv, c.Positions()) && RopesStored(c, rope, c.Positions())
    ensures Finished(c, cell, t, h)
  {
    var sc, m := ScoresE(c, kv, rope, t, h);
    var e, z := ExponentialsE(c.a, sc, m);
    var o := Zeros(c.a.zero, c.value);
    for s := 0 to c.cached + t + 1
      invariant Summed(c, o, t, h, s)
    {
      o := AddQuotient(c, kv, o, e[s], z, t, h, s);
    }
    cell := Cell(o, sc, z);
  }

  /** The quotient of one position, rounded, times its value row. */
  method AddQuotient<F, D>(c: Call<F, D>, kv: seq<seq<seq<F>>>, o: seq<F>, e: F, z: D, ghost t: nat, h: nat, s: nat)
    returns (r: seq<F>)
    requires c.Shaped() && h < c.heads && s < Seen(c, t) && s < c.Positions() && ExpandedStored(c, kv, c.Positions())
    requires Summed(c, o, t, h, s) && z == ZOf(c, t, h) && e == Exponential(c.a, ScoreRow(c, t, h), Seen(c, t), s)
    ensures Summed(c, r, t, h, s + 1)
  {
    assert ExpandedAt(c, kv[s], s);
    r := AddPosition(c, o, c.a.narrow(c.a.overD(c.a.widen(e), z)), kv[s][h], c.nope, t, h, s);
  }

  /** E: tokens, heads, positions, over the expanded cache. */
  method AttendE<F(0), D>(c: Call<F, D>, kv: seq<seq<seq<F>>>, rope: seq<seq<F>>, out: array2<Cell<F, D>>)
    requires c.Shaped() && Fits(c, out)
    requires ExpandedStored(c, kv, c.Positions()) && RopesStored(c, rope, c.Positions())
    modifies out
    ensures AllFinished(c, out)
  {
    for t := 0 to c.tokens
      invariant forall u: nat, h: nat :: u < t && h < c.heads ==> Finished(c, out[u, h], u, h)
    {
      AttendTokenE(c, kv, rope, t, out);
    }
  }

  method AttendTokenE<F(0), D>(c: Call<F, D>, kv: seq<seq<seq<F>>>, rope: seq<seq<F>>, t: nat, out: array2<Cell<F, D>>)
    requires c.Shaped() && Fits(c, out) && t < c.tokens
    requires ExpandedStored(c, kv, c.Positions()) && RopesStored(c, rope, c.Positions())
    modifies out
    ensures forall h: nat :: h < c.heads ==> Finished(c, out[t, h], t, h)
    ensures forall u: nat, h: nat :: u < c.tokens && h < c.heads && u != t ==> out[u, h] == old(out[u, h])
  {
    for h := 0 to c.heads
      invariant forall k: nat :: k < h ==> Finished(c, out[t, k], t, k)
      invariant forall u: nat, k: nat :: u < c.tokens && k < c.heads && u != t ==> out[u, k] == old(out[u, k])
    {
      var cell := AttendOneE(c, kv, rope, t, h);
      out[t, h] := cell;
    }
  }

  // ------------------------------------------------------------------ E+

  /** The first token that sees position s. */
  function FirstSeeing<F, D>(c: Call<F, D>, s: nat): nat {
    if s > c.cached then s - c.cached else 0
  }

  /** Scores of a row below position n, as far as the token sees. */
  ghost predicate ScoredTo<F, D>(c: Call<F, D>, row: seq<F>, t: nat, h: nat, n: nat)
    requires c.Shaped()
  {
    |row| == c.Positions() && Scored(c, row, t, h, Min(n, Seen(c, t)))
  }

  /** The key and rope rows of up to four positions; unused places repeat the first. */
  method FourRows<F>(kv: seq<seq<seq<F>>>, rope: seq<seq<F>>, h: nat, s0: nat, nb: nat)
    returns (ks: seq<seq<F>>, kr: seq<seq<F>>)
    requires 1 <= nb <= 4 && s0 + nb <= |kv| && s0 + nb <= |rope|
    requires forall s :: s0 <= s < s0 + nb ==> h < |kv[s]|
    ensures |ks| == |kr| == 4 && forall b :: 0 <= b < nb ==> ks[b] == kv[s0 + b][h] && kr[b] == rope[s0 + b]
  {
    ks, kr := [], [];
    for b := 0 to 4
      invariant |ks| == |kr| == b && forall k :: 0 <= k < b && k < nb ==>
                  ks[k] == kv[s0 + k][h] && kr[k] == rope[s0 + k]
    {
      var s := s0 + if b < nb then b else 0;
      ks, kr := ks + [kv[s][h]], kr + [rope[s]];
    }
  }

  ghost predicate HasRows<F, D>(c: Call<F, D>, ks: seq<seq<F>>, kr: seq<seq<F>>, h: nat, s0: nat, nb: nat) {
    |ks| == |kr| == 4 && nb <= 4 && forall b: nat :: b < nb ==> HasRow(c, ks, kr, h, s0, b)
  }

  ghost predicate HasRow<F, D>(c: Call<F, D>, ks: seq<seq<F>>, kr: seq<seq<F>>, h: nat, s0: nat, b: nat)
    requires |ks| == |kr| == 4
  {
    b < 4 && ks[b] == Expanded(c, s0 + b, h) && kr[b] == c.ropes(s0 + b)
  }

  /** Scores of one token for the positions of a block: four chains at once when it sees all four. */
  method ScoreBlock<F, D>(c: Call<F, D>, ks: seq<seq<F>>, kr: seq<seq<F>>, t: nat, h: nat, s0: nat, nb: nat,
                          row: seq<F>)
    returns (r: seq<F>)
    requires c.Shaped() && 1 <= nb <= 4 && s0 + nb <= c.Positions() && s0 < Seen(c, t)
    requires HasRows(c, ks, kr, h, s0, nb) && ScoredTo(c, row, t, h, s0)
    ensures ScoredTo(c, r, t, h, s0 + nb)
  {
    var vis := Seen(c, t) - s0;
    if nb == 4 && vis >= 4 {
      r := ScoreFour(c, ks, kr, t, h, s0, row);
    } else {
      var e := Min(nb, vis);
      r := row;
      for b := 0 to e
        invariant ScoredTo(c, r, t, h, s0 + b)
      {
        assert HasRow(c, ks, kr, h, s0, b);
        var d := Dot(c, t, h, ks[b], kr[b]);
        r := PutScore(c, r, t, h, s0 + b, d, ks[b], kr[b]);
      }
    }
  }

  method ScoreFour<F, D>(c: Call<F, D>, ks: seq<seq<F>>, kr: seq<seq<F>>, t: nat, h: nat, s0: nat, row: seq<F>)
    returns (r: seq<F>)
    requires c.Shaped() && s0 + 4 <= c.Positions() && s0 + 4 <= Seen(c, t)
    requires HasRows(c, ks, kr, h, s0, 4) && ScoredTo(c, row, t, h, s0)
    ensures ScoredTo(c, r, t, h, s0 + 4)
  {
    RowIs(c, ks, kr, h, s0, 0, s0);
    RowIs(c, ks, kr, h, s0, 1, s0 + 1);
    RowIs(c, ks, kr, h, s0, 2, s0 + 2);
    RowIs(c, ks, kr, h, s0, 3, s0 + 3);
    var d0, d1, d2, d3 := Dot4(c, t, h, ks[0], ks[1], ks[2], ks[3], kr[0], kr[1], kr[2], kr[3]);
    r := PutScore(c, row, t, h, s0, d0, ks[0], kr[0]);
    r := PutScore(c, r, t, h, s0 + 1, d1, ks[1], kr[1]);
    r := PutScore(c, r, t, h, s0 + 2, d2, ks[2], kr[2]);
    r := PutScore(c, r, t, h, s0 + 3, d3, ks[3], kr[3]);
  }

  lemma {:induction false} RowIs<F, D>(c: Call<F, D>, ks: seq<seq<F>>, kr: seq<seq<F>>, h: nat, s0: nat, b: nat, s: nat)
    requires c.Shaped() && HasRows(c, ks, kr, h, s0, 4) && b < 4 && s == s0 + b
    ensures ks[b] == Expanded(c, s, h) && kr[b] == c.ropes(s) && |ks[b]| == c.HeadRows() && |kr[b]| == c.rope
  {
    assert HasRow(c, ks, kr, h, s0, b);
  }

  /** A finished chain becomes the score of its position. */
  method PutScore<F, D>(c: Call<F, D>, row: seq<F>, ghost t: nat, ghost h: nat, s: nat, d: D, ghost k: seq<F>,
                        ghost kr: seq<F>)
    returns (r: seq<F>)
    requires c.Shaped() && s < c.Positions() && s < Seen(c, t) && ScoredTo(c, row, t, h, s)
    requires k == Expanded(c, s, h) && kr == c.ropes(s) && d == RopeChain(c, t, h, k, kr, c.rope)
    ensures ScoredTo(c, r, t, h, s + 1)
  {
    r := row[s := c.a.times(c.a.narrow(d), c.a.scale)];
  }

  /** Scores of one head: positions outside in blocks of four, the tokens that see them inside. */
  method ScoreHead<F(0), D>(c: Call<F, D>, kv: seq<seq<seq<F>>>, rope: seq<seq<F>>, h: nat) returns (rows: seq<seq<F>>)
    requires c.Shaped() && h < c.heads
    requires ExpandedStored(c, kv, c.Positions()) && RopesStored(c, rope, c.Positions())
    ensures |rows| == c.tokens && forall t: nat :: t < c.tokens ==> ScoredTo(c, rows[t], t, h, c.Positions())
  {
    rows := seq(c.tokens, _ => Zeros(c.a.zero, c.Positions()));
    var s0 := 0;
    while s0 < c.Positions()
      invariant |rows| == c.tokens && forall t: nat :: t < c.tokens ==>
                  ScoredTo(c, rows[t], t, h, Min(s0, c.Positions()))
    {
      var nb := Min(4, c.Positions() - s0);
      rows := ScoreHeadBlock(c, kv, rope, h, s0, nb, rows);
      s0 := s0 + 4;
    }
  }

  method ScoreHeadBlock<F(0), D>(c: Call<F, D>, kv: seq<seq<seq<F>>>, rope: seq<seq<F>>, h: nat, s0: nat, nb: nat,
                                 before: seq<seq<F>>)
    returns (rows: seq<seq<F>>)
    requires c.Shaped() && h < c.heads && 1 <= nb <= 4 && s0 + nb <= c.Positions()
    requires ExpandedStored(c, kv, c.Positions()) && RopesStored(c, rope, c.Positions())
    requires |before| == c.tokens && forall t: nat :: t < c.tokens ==> ScoredTo(c, before[t], t, h, s0)
    ensures |rows| == c.tokens && forall t: nat :: t < c.tokens ==> ScoredTo(c, rows[t], t, h, s0 + nb)
  {
    var ks, kr := BlockRows(c, kv, rope, h, s0, nb);
    rows := before;
    var t := FirstSeeing(c, s0);
    forall u: nat | u < t && u < c.tokens
      ensures ScoredTo(c, rows[u], u, h, s0 + nb)
    {
      assert ScoredTo(c, before[u], u, h, s0);
    }
    while t < c.tokens
      invariant t >= FirstSeeing(c, s0) && |rows| == c.tokens
      invariant forall u: nat :: u < t && u < c.tokens ==> ScoredTo(c, rows[u], u, h, s0 + nb)
      invariant forall u: nat :: t <= u < c.tokens ==> ScoredTo(c, rows[u], u, h, s0)
    {
      var r := ScoreBlock(c, ks, kr, t, h, s0, nb, rows[t]);
      rows := rows[t := r];
      t := t + 1;
    }
  }

  method BlockRows<F, D>(c: Call<F, D>, kv: seq<seq<seq<F>>>, rope: seq<seq<F>>, h: nat, s0: nat, nb: nat)
    returns (ks: seq<seq<F>>, kr: seq<seq<F>>)
    requires h < c.heads && 1 <= nb <= 4 && s0 + nb <= c.Positions()
    requires ExpandedStored(c, kv, c.Positions()) && RopesStored(c, rope, c.Positions())
    ensures HasRows(c, ks, kr, h, s0, nb)
  {
    forall s | s0 <= s < s0 + nb
      ensures h < |kv[s]|
    {
      assert ExpandedAt(c, kv[s], s);
    }
    ks, kr := FourRows(kv, rope, h, s0, nb);
    forall b: nat | b < nb
      ensures HasRow(c, ks, kr, h, s0, b)
    {
      assert ExpandedAt(c, kv[s0 + b], s0 + b);
    }
  }

  /** Softmax of every token's row of a head: what the value pass starts from. */
  ghost predicate Softmaxed<F, D>(c: Call<F, D>, row: seq<F>, cell: Cell<F, D>, t: nat, h: nat)
    requires c.Shaped()
  {
    Weighted(c, row, t, h) && cell.scores == ScoreRow(c, t, h) && cell.z == ZOf(c, t, h)
  }

  method SoftmaxCell<F(0), D>(c: Call<F, D>, row: seq<F>, ghost t: nat, ghost h: nat, n: nat)
    returns (r: seq<F>, cell: Cell<F, D>)
    requires c.Shaped() && n == Seen(c, t) && ScoredTo(c, row, t, h, c.Positions()) && t < c.tokens
    ensures |r| == c.Positions() && Softmaxed(c, r, cell, t, h) && Summed(c, cell.o, t, h, 0)
  {
    var z;
    r, z := SoftmaxScores(c, row, t, h, n);
    cell := Cell(Zeros(c.a.zero, c.value), row[..n], z);
    assert row[..n] == ScoreRow(c, t, h);
  }

  /** Progress of the value pass: the sums reach position n, or as far as the token sees. */
  ghost predicate ValuesTo<F, D>(c: Call<F, D>, row: seq<F>, cell: Cell<F, D>, t: nat, h: nat, n: nat)
    requires c.Shaped()
  {
    match cell
    case Cell(o, scores, z) =>
      |row| == c.Positions() && Softmaxed(c, row, cell, t, h) && Summed(c, o, t, h, Min(n, Seen(c, t)))
  }

  /** Position s for one token that sees it. */
  method AddValue<F, D>(c: Call<F, D>, row: seq<F>, cell: Cell<F, D>, values: seq<F>, offset: nat, ghost t: nat,
                        ghost h: nat, s: nat)
    returns (r: Cell<F, D>)
    requires c.Shaped() && t < c.tokens && s < Seen(c, t) && ValuesTo(c, row, cell, t, h, s)
    requires |values| >= offset + c.value && values[offset..offset + c.value] == Expanded(c, s, h)[c.nope..]
    ensures ValuesTo(c, row, r, t, h, s + 1)
  {
    var o := AddPosition(c, cell.o, row[s], values, offset, t, h, s);
    r := cell.(o := o);
  }

  lemma {:induction false} ValuesUnseen<F, D>(c: Call<F, D>, row: seq<F>, cell: Cell<F, D>, t: nat, h: nat, s: nat)
    requires c.Shaped() && s >= Seen(c, t) && ValuesTo(c, row, cell, t, h, s)
    ensures ValuesTo(c, row, cell, t, h, s + 1)
  {}

  lemma {:induction false} ValuesDone<F, D>(c: Call<F, D>, row: seq<F>, cell: Cell<F, D>, t: nat, h: nat)
    requires c.Shaped() && t < c.tokens && ValuesTo(c, row, cell, t, h, c.Positions())
    ensures Finished(c, cell, t, h)
  {}

  /** Position s for every token that sees it, of one head. */
  method AddToTokens<F, D>(c: Call<F, D>, rows: seq<seq<F>>, before: seq<Cell<F, D>>, values: seq<F>, offset: nat,
                           ghost h: nat, s: nat)
    returns (cells: seq<Cell<F, D>>)
    requires c.Shaped() && s < c.Positions() && |rows| == |before| == c.tokens
    requires forall t: nat :: t < c.tokens ==> ValuesTo(c, rows[t], before[t], t, h, s)
    requires |values| >= offset + c.value && values[offset..offset + c.value] == Expanded(c, s, h)[c.nope..]
    ensures |cells| == c.tokens && forall t: nat :: t < c.tokens ==> ValuesTo(c, rows[t], cells[t], t, h, s + 1)
  {
    cells := before;
    var t := FirstSeeing(c, s);
    forall u: nat | u < t && u < c.tokens
      ensures ValuesTo(c, rows[u], cells[u], u, h, s + 1)
    {
      ValuesUnseen(c, rows[u], before[u], u, h, s);
    }
    while t < c.tokens
      invariant t >= FirstSeeing(c, s) && |cells| == c.tokens
      invariant forall u: nat :: u < t && u < c.tokens ==> ValuesTo(c, rows[u], cells[u], u, h, s + 1)
      invariant forall u: nat :: t <= u < c.tokens ==> ValuesTo(c, rows[u], cells[u], u, h, s)
    {
      var cell := AddValue(c, rows[t], cells[t], values, offset, t, h, s);
      cells := cells[t := cell];
      t := t + 1;
    }
  }

  /** One head of E+. */
  method AttendHeadEP<F(0), D>(c: Call<F, D>, kv: seq<seq<seq<F>>>, rope: seq<seq<F>>, h: nat)
    returns (cells: seq<Cell<F, D>>)
    requires c.Shaped() && h < c.heads
    requires ExpandedStored(c, kv, c.Positions()) && RopesStored(c, rope, c.Positions())
    ensures |cells| == c.tokens && forall t: nat :: t < c.tokens ==> Finished(c, cells[t], t, h)
  {
    var rows := ScoreHead(c, kv, rope, h);
    rows, cells := SoftmaxHead(c, rows, h);
    for s := 0 to c.Positions()
      invariant |rows| == |cells| == c.tokens && forall t: nat :: t < c.tokens ==>
                  ValuesTo(c, rows[t], cells[t], t, h, s)
    {
      assert ExpandedAt(c, kv[s], s);
      cells := AddToTokens(c, rows, cells, kv[s][h], c.nope, h, s);
    }
    forall t: nat | t < c.tokens
      ensures Finished(c, cells[t], t, h)
    {
      ValuesDone(c, rows[t], cells[t], t, h);
    }
  }

  method SoftmaxHead<F(0), D>(c: Call<F, D>, scored: seq<seq<F>>, ghost h: nat)
    returns (rows: seq<seq<F>>, cells: seq<Cell<F, D>>)
    requires c.Shaped()
    requires |scored| == c.tokens && forall t: nat :: t < c.tokens ==> ScoredTo(c, scored[t], t, h, c.Positions())
    ensures |rows| == |cells| == c.tokens && forall t: nat :: t < c.tokens ==> ValuesTo(c, rows[t], cells[t], t, h, 0)
  {
    rows, cells := [], [];
    for t := 0 to c.tokens
      invariant |rows| == |cells| == t && forall u: nat :: u < t ==> ValuesTo(c, rows[u], cells[u], u, h, 0)
    {
      var r, cell := SoftmaxCell(c, scored[t], t, h, Seen(c, t));
      rows, cells := rows + [r], cells + [cell];
    }
  }

  /** E+: heads outside. */
  method AttendEP<F(0), D>(c: Call<F, D>, kv: seq<seq<seq<F>>>, rope: seq<seq<F>>, out: array2<Cell<F, D>>)
    requires c.Shaped() && Fits(c, out)
    requires ExpandedStored(c, kv, c.Positions()) && RopesStored(c, rope, c.Positions())
    modifies out
    ensures AllFinished(c, out)
  {
    for h := 0 to c.heads
      invariant forall t: nat, k: nat :: t < c.tokens && k < h ==> Finished(c, out[t, k], t, k)
    {
      var cells := AttendHeadEP(c, kv, rope, h);
      StoreHead(c, cells, out, h);
    }
  }

  method StoreHead<F, D>(c: Call<F, D>, cells: seq<Cell<F, D>>, out: array2<Cell<F, D>>, h: nat)
    requires c.Shaped() && Fits(c, out) && h < c.heads && |cells| == c.tokens
    modifies out
    ensures forall t: nat, k: nat :: t < c.tokens && k < c.heads ==>
              out[t, k] == if k == h then cells[t] else old(out[t, k])
  {
    for t := 0 to c.tokens
      invariant forall u: nat, k: nat :: u < c.tokens && k < c.heads ==>
                  out[u, k] == if k == h && u < t then cells[u] else old(out[u, k])
    {
      out[t, h] := cells[t];
    }
  }
}
