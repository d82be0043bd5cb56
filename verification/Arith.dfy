/** Division by a variable, for the proofs of the sample layout and decoding. */
module Arith {
  lemma MulAtLeast(b: nat, d: int)
    requires b > 0 && d >= 1
    ensures b * d >= b
  {
  }

  lemma Quotients(b: nat, q: int, r: int, q': int, r': int)
    requires b > 0 && 0 <= r < b && 0 <= r' < b && b * q + r == b * q' + r'
    ensures q == q' && r == r'
  {
    assert b * (q - q') == r' - r && b * (q' - q) == r - r';
    if q > q' {
      MulAtLeast(b, q - q');
    } else if q < q' {
      MulAtLeast(b, q' - q);
    }
  }

  /** Quotient and remainder are the only ones. */
  lemma DivModUnique(x: int, b: nat, q: int, r: int)
    requires b > 0 && x == b * q + r && 0 <= r < b
    ensures x / b == q && x % b == r
  {
    Quotients(b, q, r, x / b, x % b);
  }

  lemma MulMono(u: nat, a: int, b: int)
    requires a <= b
    ensures u * a <= u * b
  {
  }

  lemma QuotientBelow(x: nat, unit: nat, bound: nat)
    requires unit > 0 && x < unit * bound
    ensures x / unit < bound
  {
    var q := x / unit;
    if bound <= q {
      MulMono(unit, bound, q);
    }
  }

  /** Numbers that differ by a multiple of m * k have the same remainder by m. */
  lemma SameRemainder(x: int, y: int, m: nat, k: int, q: int)
    requires m > 0 && x == y + (m * k) * q
    ensures x % m == y % m
  {
    var d := y / m + k * q;
    assert m * d == m * (y / m) + (m * k) * q;
    DivModUnique(x, m, d, y % m);
  }

  /** m is b taken some number of times. */
  predicate Multiple(m: nat, b: nat)
    requires b > 0
  {
    m == 0 || (m >= b && Multiple(m - b, b))
  }

  lemma {:induction false} MultipleMeans(m: nat, b: nat)
    requires b > 0
    ensures Multiple(m, b) <==> m % b == 0
  {
    if m < b {
      DivModUnique(m, b, 0, m);
    } else {
      MultipleMeans(m - b, b);
      DivModUnique(m, b, (m - b) / b + 1, (m - b) % b);
    }
  }

  /** Two different multiples are at least b apart. */
  lemma {:induction false} MultipleGap(m: nat, n: nat, b: nat)
    requires b > 0 && Multiple(m, b) && Multiple(n, b) && m < n
    ensures m + b <= n
  {
    if m == 0 {
    } else {
      MultipleGap(m - b, n - b, b);
    }
  }

  /** The bytes % size computation of the layout rounds up to a multiple. */
  lemma RoundedUp(n: nat, b: nat)
    requires b > 0
    ensures var up := if n % b == 0 then n else n - n % b + b;
            Multiple(up, b) && n <= up < n + b
  {
    MultipleMeans(n, b);
    if n % b != 0 {
      var up := n - n % b + b;
      DivModUnique(up, b, n / b + 1, 0);
      MultipleMeans(up, b);
    }
  }
}
