/** Facts about mixed-radix positions. */
module CartesianArithmetic {

  lemma MulMonotone(a: int, b: int, m: nat)
    requires a <= b
    ensures a * m <= b * m
  {
    assert (b - a) * m >= 0;
  }

  lemma LessFromProduct(a: int, b: int, m: nat)
    requires a * m < b * m
    ensures a < b
  {
    if b <= a {
      MulMonotone(b, a, m);
    }
  }

  lemma Distribute(a: int, b: int, m: int)
    ensures (a + b) * m == a * m + b * m
    ensures (a - b) * m == a * m - b * m
  {}

  lemma Associate(a: int, b: int, c: int)
    ensures (a * b) * c == a * (b * c)
  {}

  lemma DivModUnique(a: nat, m: nat, q: int, r: nat)
    requires r < m && a == q * m + r
    ensures q >= 0
    ensures a / m == q && a % m == r
  {
    var q', r' := a / m, a % m;
    assert a == q' * m + r';
    Distribute(q', 1, m);
    Distribute(q, 1, m);
    LessFromProduct(q, q' + 1, m);
    LessFromProduct(q', q + 1, m);
  }

  lemma Positive(a: nat, b: nat)
    requires a > 0 && b > 0
    ensures a * b > 0
  {
    MulMonotone(1, a, b);
  }

  /** `i * g + u` runs through `0 .. m * g - 1` as `i < m` and `u < g`. */
  lemma InGrid(i: nat, u: nat, m: nat, g: nat)
    requires i < m && u < g
    ensures i * g + u < m * g
  {
    MulMonotone(i + 1, m, g);
    Distribute(i, 1, g);
  }

  lemma Nested(a: nat, g: nat, m: nat, q: nat, r: nat, q': nat, r': nat)
    requires r < g && r' < m && a == q * g + r && q == q' * m + r'
    ensures a == q' * (m * g) + (r' * g + r) && r' * g + r < m * g
  {
    Distribute(q' * m, r', g);
    Associate(q', m, g);
    InGrid(r', r, m, g);
  }

  lemma DivModDef(a: nat, m: nat)
    requires m > 0
    ensures a == (a / m) * m + a % m && a % m < m
  {}

  lemma DivDiv(a: nat, g: nat, m: nat)
    requires g > 0 && m > 0
    ensures m * g > 0
    ensures (a / g) / m == a / (m * g)
  {
    var q, r := a / g, a % g;
    DivModDef(a, g);
    DivModDef(q, m);
    Nested(a, g, m, q, r, q / m, q % m);
    DivModUnique(a, m * g, q / m, q % m * g + r);
  }

  /** Taking away a multiple of `m` does not change the remainder. */
  lemma SubtractMultiple(x: nat, m: nat, k: nat)
    requires m > 0 && k * m <= x
    ensures (x - k * m) % m == x % m && (x - k * m) / m == x / m - k
  {
    var q, r := x / m, x % m;
    assert x == q * m + r;
    Distribute(q, k, m);
    DivModUnique(x - k * m, m, q - k, r);
  }

  /** The start position of a column: complete cycles, complete groups, and a part of a group. */
  lemma StartPosition(offset: nat, m: nat, g: nat) returns (q: nat)
    requires m > 0 && g > 0
    ensures m * g > 0
    ensures offset % (m * g) / g < m
    ensures offset == (q * m + offset % (m * g) / g) * g + offset % g
  {
    Positive(m, g);
    q := offset / (m * g);
    var r := offset % (m * g);
    DivModDef(offset, m * g);
    DivModDef(r, g);
    Regroup(offset, m, g, q, r, r / g, r % g);
    DivModUnique(offset, g, q * m + r / g, r % g);
  }

  lemma Regroup(p: nat, m: nat, g: nat, q: nat, r: nat, i: nat, u: nat)
    requires p == q * (m * g) + r && r == i * g + u && r < m * g
    ensures p == (q * m + i) * g + u && i < m
  {
    Associate(q, m, g);
    Distribute(q * m, i, g);
    LessFromProduct(i, m, g);
  }

  lemma GridPosition(q: nat, i: nat, u: nat, m: nat, g: nat, p: nat)
    requires i < m && u < g && p == (q * m + i) * g + u
    ensures p / g % m == i
  {
    DivModUnique(p, g, q * m + i, u);
    DivModUnique(p / g, m, q, i);
  }

  lemma NextGroup(q: nat, i: nat, m: nat, g: nat)
    ensures (q * m + i) * g + g == (q * m + (i + 1)) * g
    ensures q * m + m == (q + 1) * m
  {
    Distribute(q * m + i, 1, g);
    Distribute(q, 1, m);
  }
}
