/** Arithmetic that several modules need. */
module Numbers {
  function Min(a: nat, b: nat): nat {
    if a < b then a else b
  }

  lemma {:induction false} Distribute(a: int, b: int, c: int)
    ensures a * (b + c) == a * b + a * c
  {}

  lemma {:induction false} Associate(a: nat, b: nat, c: nat)
    ensures a * (b * c) == (a * b) * c
  {}

  lemma {:induction false} Remainder(v: nat, p: nat) returns (d: nat, m: nat)
    requires p > 0
    ensures v == d * p + m && m == v % p && m < p
  {
    d, m := v / p, v % p;
  }

  lemma {:induction false} Below(a: nat, b: nat, x: nat, y: nat)
    requires a <= b && x <= y
    ensures a * x <= b * y
  {
    assert (b - a) * y >= 0 && a * (y - x) >= 0;
    assert b * y == a * x + a * (y - x) + (b - a) * y;
  }

  lemma {:induction false} QuotientIs(v: nat, p: nat, d: nat, m: nat)
    requires v == d * p + m && m < p
    ensures v / p == d
  {
    var e, k := Remainder(v, p);
    if e < d {
      Below(e + 1, d, p, p);
      Distribute(p, e, 1);
    } else if d < e {
      Below(d + 1, e, p, p);
      Distribute(p, d, 1);
    }
    assert e == v / p;
  }

  /** m times n, as repeated addition. */
  function Times(m: nat, n: nat): nat {
    if m == 0 then 0 else Times(m - 1, n) + n
  }

  lemma {:induction false} TimesIsProduct(m: nat, n: nat)
    ensures Times(m, n) == m * n
  {
    if m > 0 {
      TimesIsProduct(m - 1, n);
      assert m * n == (m - 1) * n + n;
    }
  }

  lemma {:induction false} TimesNext(m: nat, n: nat)
    ensures Times(m + 1, n) == Times(m, n) + n
  {}

  lemma {:induction false} TimesGrows(m: nat, n: nat, p: nat)
    requires m <= n
    ensures Times(m, p) <= Times(n, p)
  {
    if m < n {
      TimesGrows(m, n - 1, p);
    }
  }

  /** v divided by p, as repeated subtraction. */
  function Quotient(v: nat, p: nat): nat
    requires p > 0
  {
    if v < p then 0 else 1 + Quotient(v - p, p)
  }

  lemma {:induction false} QuotientIsDivision(v: nat, p: nat)
    requires p > 0
    ensures Quotient(v, p) == v / p
  {
    if v >= p {
      QuotientIsDivision(v - p, p);
      var d, m := Remainder(v - p, p);
      Distribute(p, d, 1);
      QuotientIs(v, p, d + 1, m);
      QuotientIs(v - p, p, d, m);
    } else {
      QuotientIs(v, p, 0, v);
    }
  }

  lemma {:induction false} TimesAdd(m: nat, n: nat, k: nat)
    ensures Times(m + n, k) == Times(m, k) + Times(n, k)
  {
    if n > 0 {
      TimesAdd(m, n - 1, k);
    }
  }

  lemma {:induction false} TimesOfSum(k: nat, m: nat, n: nat)
    ensures Times(k, m + n) == Times(k, m) + Times(k, n)
  {
    if k > 0 {
      TimesOfSum(k - 1, m, n);
    }
  }

  /** What is left of v after taking p away as often as it goes. */
  function Leftover(v: nat, p: nat): (m: nat)
    requires p > 0
    ensures m < p
  {
    if v < p then v else Leftover(v - p, p)
  }

  lemma {:induction false} Divide(v: nat, p: nat)
    requires p > 0
    ensures v == Times(Quotient(v, p), p) + Leftover(v, p)
  {
    if v >= p {
      Divide(v - p, p);
    }
  }

  lemma {:induction false} QuotientOfTimes(m: nat, p: nat)
    requires p > 0
    ensures Quotient(Times(m, p), p) == m
  {
    if m > 0 {
      QuotientOfTimes(m - 1, p);
    }
  }
}
