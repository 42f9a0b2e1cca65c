/** Facts about multiplication and floor division over plain integers, kept
    apart from the record functions so that each proof sees only the arithmetic
    it needs. */
module Arith {

  /** Floor division of a size by a positive stride. It is a function of its
      own, rather than `x / y` written out, so that a proof mentioning a record
      count sees an uninterpreted term and reaches the division facts only
      through the lemmas below, instead of the solver's nonlinear arithmetic. */
  function Quotient(x: nat, y: nat): nat
    requires y > 0
  {
    x / y
  }

  lemma MulLe(a: nat, b: nat, c: nat)
    requires a <= b
    ensures a * c <= b * c
  {
  }

  lemma MulSucc(k: nat, S: nat)
    ensures (k + 1) * S == k * S + S
  {
  }

  lemma DivBounds(x: nat, y: nat)
    requires y > 0
    ensures (x / y) * y <= x
    ensures x < (x / y) * y + y
  {
    assert x == (x / y) * y + x % y;
  }

  /** Floor division is determined by its bounds. */
  lemma DivUnique(x: nat, y: nat, q: nat)
    requires y > 0
    requires q * y <= x < q * y + y
    ensures x / y == q
  {
    DivBounds(x, y);
    var q' := x / y;
    if q' < q {
      MulLe(q' + 1, q, y);
      MulSucc(q', y);
    } else if q < q' {
      MulLe(q + 1, q', y);
      MulSucc(q, y);
    }
  }

  /** Removing one stride from a size removes one whole record. */
  lemma DivStep(x: nat, S: nat)
    requires 0 < S <= x
    ensures (x - S) / S == x / S - 1
    ensures x / S >= 1
  {
    DivBounds(x, S);
    var q := x / S;
    MulSucc(q, S);
    assert q * S > 0;
    MulSucc(q - 1, S);
    DivUnique(x - S, S, q - 1);
  }

  /** Dividing by a product is dividing by one factor, then by the other. */
  lemma DivDiv(x: nat, a: nat, b: nat)
    requires a > 0 && b > 0
    ensures x / (a * b) == (x / a) / b
  {
    var p := x / a;
    var q := p / b;
    DivBounds(x, a);
    DivBounds(p, b);
    // x = p * a + r0 with r0 < a, and p = q * b + r1 with r1 <= b - 1
    var r0 := x - p * a;
    var r1 := p - q * b;
    assert x == (q * b) * a + r1 * a + r0 by {
      assert p * a == (q * b + r1) * a;
    }
    MulLe(r1, b - 1, a);
    assert (b - 1) * a == b * a - a;
    assert (q * b) * a == q * (a * b);
    assert q * (a * b) <= x < q * (a * b) + a * b;
    DivUnique(x, a * b, q);
  }

  /** A record before the N-th lies within the first N records. */
  lemma RecordInFile(i: nat, N: nat, S: nat, len: nat)
    requires i < N && N * S <= len
    ensures i * S + S <= len
  {
    MulLe(i + 1, N, S);
    MulSucc(i, S);
  }

  /** A positive multiple of S is at least S, and removing S leaves a multiple. */
  lemma MultipleStep(q: nat, S: nat)
    requires q > 0
    ensures S <= q * S && q * S - S == (q - 1) * S
  {
    MulLe(1, q, S);
    MulSucc(q - 1, S);
  }
}
