/** Real powers and products; scores are exact reals. */
module Reals {
  /** Per-hop decay of trust. */
  const DECAY: real := 0.7
  /** Reliability lost per distrusted target. */
  const DISTRUST_PENALTY: real := 0.25
  const MAX_DEPTH: nat := 3

  function Pow(b: real, n: nat): real {
    if n == 0 then 1.0 else b * Pow(b, n - 1)
  }

  lemma MulMonotone(a: real, b: real, c: real, d: real)
    requires 0.0 <= a <= b && 0.0 <= c <= d
    ensures 0.0 <= a * c <= b * d
  {
    assert a * c <= b * c;
    assert b * c <= b * d;
  }

  lemma MulPositive(a: real, b: real)
    requires a > 0.0 && b > 0.0
    ensures a * b > 0.0
  {}

  lemma MulLess(a: real, b: real, c: real)
    requires a < b && c > 0.0
    ensures a * c < b * c
  {
    var d := b - a;
    MulPositive(d, c);
    assert d * c == b * c - a * c;
  }

  lemma {:induction false} PowRange(b: real, n: nat)
    requires 0.0 < b <= 1.0
    ensures 0.0 < Pow(b, n) <= 1.0
  {
    if n > 0 {
      PowRange(b, n - 1);
      MulMonotone(b, 1.0, Pow(b, n - 1), 1.0);
    }
  }

  /** Longer means smaller. */
  lemma {:induction false} PowAntitone(b: real, m: nat, n: nat)
    requires 0.0 < b <= 1.0 && m <= n
    ensures Pow(b, n) <= Pow(b, m)
  {
    if m < n {
      PowAntitone(b, m, n - 1);
      PowRange(b, n - 1);
      MulMonotone(b, 1.0, Pow(b, n - 1), Pow(b, n - 1));
    }
  }

  lemma {:induction false} PowStrict(b: real, m: nat, n: nat)
    requires 0.0 < b < 1.0 && m < n
    ensures Pow(b, n) < Pow(b, m)
  {
    assert Pow(b, n) == b * Pow(b, n - 1);
    hide Pow;
    PowRange(b, n - 1);
    MulLess(b, 1.0, Pow(b, n - 1));
    PowAntitone(b, m, n - 1);
  }
}
