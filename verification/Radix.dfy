/** Base-60 arithmetic: the timing wheels are an odometer with sixty slots per wheel. */
module Radix {

  /** 60 to the power k: the number of ticks one slot of wheel k stands for. */
  function Pow(k: nat): (p: nat)
    ensures p > 0
  {
    if k == 0 then 1 else 60 * Pow(k - 1)
  }

  /** What the k lowest digits of x stand for. */
  function Low(x: nat, k: nat): (r: nat)
    ensures r < Pow(k)
  {
    x % Pow(k)
  }

  /** 1 + 60 + ... + 60^(k-1). */
  function Ones(k: nat): nat {
    if k == 0 then 0 else Ones(k - 1) + Pow(k - 1)
  }

  lemma {:induction false} OnesClosedForm(k: nat)
    ensures 59 * Ones(k) == Pow(k) - 1
  {
    if k > 0 { OnesClosedForm(k - 1); }
  }

  lemma MulMono(d: nat, a: int, b: int)
    requires a <= b
    ensures d * a <= d * b
  {
  }

  /** Quotient and remainder are determined by the decomposition. */
  lemma DivUnique(a: int, d: nat, q: int, r: int)
    requires d > 0 && a == d * q + r && 0 <= r < d
    ensures a / d == q && a % d == r
  {
    var q', r' := a / d, a % d;
    assert d * q' + r' == a;
    if q' < q {
      MulMono(d, q' + 1, q);
    } else if q' > q {
      MulMono(d, q + 1, q');
    }
  }

  lemma DivMulAdd(d: nat, q: int, r: nat)
    requires r < d
    ensures (d * q + r) / d == q && (d * q + r) % d == r
  {
    DivUnique(d * q + r, d, q, r);
  }

  lemma DivMono(a: int, b: int, d: nat)
    requires d > 0 && a <= b
    ensures a / d <= b / d
  {
    if b / d < a / d {
      MulMono(d, b / d + 1, a / d);
    }
  }

  /** One more digit: dividing by 60^(k+1) is dividing by 60^k and then by 60. */
  lemma DivPowSucc(n: nat, k: nat)
    ensures n / Pow(k + 1) == n / Pow(k) / 60
    ensures n % Pow(k + 1) == Pow(k) * (n / Pow(k) % 60) + n % Pow(k)
  {
    var p := Pow(k);
    var q, r := n / p, n % p;
    var a, b := q / 60, q % 60;
    assert q == 60 * a + b;
    calc {
      n;
      p * q + r;
      p * (60 * a + b) + r;
      (60 * p) * a + (p * b + r);
    }
    MulMono(p, b, 59);
    assert 0 <= p * b by { MulMono(p, 0, b); }
    DivUnique(n, 60 * p, a, p * b + r);
  }

  /** A multiple of 60^(k+1) is a multiple of 60^k whose digit k is zero. */
  lemma MultipleDown(n: nat, k: nat)
    requires n % Pow(k + 1) == 0
    ensures n % Pow(k) == 0 && n / Pow(k) % 60 == 0
  {
    DivPowSucc(n, k);
    var d := n / Pow(k) % 60;
    if d > 0 { MulMono(Pow(k), 1, d); }
  }

  lemma {:induction false} MultipleDownTo(n: nat, k: nat, j: nat)
    requires j <= k && n % Pow(k) == 0
    ensures n % Pow(j) == 0
    ensures j < k ==> n / Pow(j) % 60 == 0
    decreases k
  {
    if j < k {
      MultipleDown(n, k - 1);
      MultipleDownTo(n, k - 1, j);
    }
  }

  lemma DropSixties(z: int, y: int)
    ensures (60 * z + y) % 60 == y % 60
  {
  }

  /** Reducing modulo 60^(k+1) keeps the lowest digit. */
  lemma {:induction false} LowDigit(x: nat, k: nat)
    ensures x % Pow(k + 1) % 60 == x % 60
  {
    if k > 0 {
      DivPowSucc(x, k);
      LowDigit(x, k - 1);
      SixtyTimes(Pow(k - 1), x / Pow(k) % 60, x % Pow(k));
    }
  }

  lemma SixtyTimes(p: int, d: int, y: int)
    ensures (60 * p * d + y) % 60 == y % 60
  {
    assert 60 * p * d == 60 * (p * d);
    DropSixties(p * d, y);
  }

  /** Numbers with at most k digits. */
  lemma {:induction false} PowMono(j: nat, k: nat)
    requires j <= k
    ensures Pow(j) <= Pow(k)
  {
    if j < k { PowMono(j, k - 1); }
  }

  /** The block of length p that position p*q lies q blocks into. */
  lemma BlockStart(p: nat, n: nat, lead: nat)
    requires p > 0 && lead > 0
    ensures p * (n / p + lead) > n
    ensures p * (n / p + lead) % p == 0 && p * (n / p + lead) / p == n / p + lead
  {
    DivMulAdd(p, n / p + lead, 0);
    MulMono(p, n / p + 1, n / p + lead);
  }

  /** r blocks on from a block boundary. */
  lemma BlocksOn(p: nat, n: nat, r: nat)
    requires p > 0 && n % p == 0
    ensures n <= n + r * p
    ensures (n + r * p) % p == 0 && (n + r * p) / p == n / p + r
  {
    var q := n / p;
    assert n == p * q;
    assert n + r * p == p * (q + r);
    DivMulAdd(p, q + r, 0);
    MulMono(p, 0, r);
  }

  lemma Distribute(r: int, a: int, b: int)
    ensures r * (a + b) == r * a + r * b
  {
  }
}
