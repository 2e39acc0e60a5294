/** Division by a variable, in steps small enough for the solver. */
module Division {
  function Product(a: nat, b: nat): nat {
    a * b
  }

  lemma MulAtLeast(e: int, a: int)
    requires 0 < a
    ensures e >= 1 ==> e * a >= a
    ensures e <= -1 ==> e * a <= -a
  {
  }

  lemma MulSub(p: int, q: int, a: int)
    ensures (p - q) * a == p * a - q * a
  {
  }

  lemma DivMod(x: int, a: int)
    requires 0 < a
    ensures x == (x / a) * a + x % a && 0 <= x % a < a
  {
  }

  lemma QuotientsAgree(d: int, m: int, q: int, r: int, a: int)
    requires 0 < a && 0 <= m < a && 0 <= r < a
    requires d * a + m == q * a + r
    ensures d == q && m == r
  {
    MulSub(q, d, a);
    MulAtLeast(q - d, a);
  }

  /** Quotient and remainder are determined by the division equation. */
  lemma DivisionUnique(x: int, q: int, r: int, a: int)
    requires 0 < a && x == q * a + r && 0 <= r < a
    ensures x / a == q && x % a == r
  {
    DivMod(x, a);
    QuotientsAgree(x / a, x % a, q, r, a);
  }

  lemma MultipleIsZero(q: int, a: int)
    requires 0 < a
    ensures (q * a) % a == 0 && (q * a) / a == q
  {
    DivisionUnique(q * a, q, 0, a);
  }

  lemma SumOfMultiples(x: int, y: int, a: int)
    requires 0 < a && x % a == 0 && y % a == 0
    ensures (x + y) % a == 0
  {
    DivMod(x, a);
    DivMod(y, a);
    MulSub(x / a, -(y / a), a);
    MultipleIsZero(x / a + y / a, a);
  }

  /** Different multiples of `a` are at least `a` apart. */
  lemma MultiplesApart(u: int, v: int, a: int)
    requires 0 < a && u % a == 0 && v % a == 0 && u < v
    ensures u + a <= v
  {
    DivMod(u, a);
    DivMod(v, a);
    MulSub(v / a, u / a, a);
    MulAtLeast(v / a - u / a, a);
  }

  /** `div_ceil`: the least number of groups of `d` that hold `x`. */
  function CeilDiv(x: nat, d: nat): (q: nat)
    requires 0 < d
    ensures forall n: nat :: n >= q <==> n * d >= x
  {
    var q := x / d + if x % d == 0 then 0 else 1;
    CeilDivLeast(x, d, q);
    q
  }

  lemma CeilDivLeast(x: nat, d: nat, q: nat)
    requires 0 < d && q == x / d + if x % d == 0 then 0 else 1
    ensures forall n: nat :: n >= q <==> n * d >= x
  {
    DivMod(x, d);
    MulSub(x / d, -1, d);
    forall n: nat
      ensures n >= q <==> n * d >= x
    {
      MulSub(n, x / d, d);
      MulAtLeast(n - x / d, d);
      MulSub(n, x / d + 1, d);
      MulAtLeast(n - (x / d + 1), d);
    }
  }
}
