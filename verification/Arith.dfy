/** Powers of two, and division and remainder read off products. */
module Arith {
  function Pow2(i: nat): (r: nat)
    ensures r > 0
  {
    if i == 0 then 1 else 2 * Pow2(i - 1)
  }

  /** `x` rounded up to a multiple of `page`. */
  function Ceil(page: nat, x: nat): (r: nat)
    requires page > 0
    ensures x <= r
  {
    (x + page - 1) / page * page
  }

  lemma MulMono(a: nat, b: nat, m: nat)
    ensures a <= b ==> a * m <= b * m
  {
    if a <= b { assert b * m == a * m + (b - a) * m; }
  }

  lemma Div(x: nat, m: nat, q: nat, r: nat)
    requires m > 0 && r < m && x == q * m + r
    ensures x / m == q && x % m == r
  {
    var k := x / m;
    assert x == k * m + x % m;
    assert (k + 1) * m == k * m + m && (q + 1) * m == q * m + m;
    MulMono(q + 1, k, m);
    MulMono(k + 1, q, m);
  }

  lemma Multiples(q: nat, p: nat, m: nat)
    requires q * m < p * m + m && p * m < q * m + m
    ensures q == p
  {
    assert (q + 1) * m == q * m + m && (p + 1) * m == p * m + m;
    MulMono(q + 1, p, m);
    MulMono(p + 1, q, m);
  }

  /** Numbers that agree modulo `m` and differ by less are equal. */
  lemma ModApart(x: nat, y: nat, m: nat)
    requires m > 0 && x % m == y % m && x < y + m && y < x + m
    ensures x == y
  {
    var q, p, r := x / m, y / m, x % m;
    assert x == q * m + r && y == p * m + r;
    Multiples(q, p, m);
  }

  lemma NextMod(x: nat, m: nat)
    requires m > 0
    ensures (x % m + 1) % m == (x + 1) % m
  {
    var q, r := x / m, x % m;
    assert x == q * m + r;
    assert (q + 1) * m == q * m + m;
    if r + 1 == m {
      Div(x + 1, m, q + 1, 0);
      Div(m, m, 1, 0);
    } else {
      Div(x + 1, m, q, r + 1);
      Div(r + 1, m, 0, r + 1);
    }
  }

  // ---------------------------------------------------------------- pages

  ghost predicate Times(page: nat, q: nat, x: nat) { x == q * page }

  ghost predicate Aligned(page: nat, x: nat) { exists q: nat :: Times(page, q, x) }

  lemma CeilAligned(page: nat, x: nat)
    requires page > 0
    ensures Aligned(page, Ceil(page, x)) && x <= Ceil(page, x) < x + page
  {
    var q := (x + page - 1) / page;
    assert x + page - 1 == q * page + (x + page - 1) % page;
    assert Times(page, q, Ceil(page, x));
  }

  lemma PagesApart(page: nat, p: nat, q: nat)
    ensures p < q ==> p * page + page <= q * page
  {
    if p < q {
      var d := q - p - 1;
      assert q * page == (p + 1 + d) * page == p * page + page + d * page;
    }
  }

  /** Two aligned numbers closer than a page are equal. */
  lemma AlignedGap(page: nat, x: nat, y: nat)
    requires page > 0 && Aligned(page, x) && Aligned(page, y) && x <= y < x + page
    ensures x == y
  {
    var p: nat :| Times(page, p, x);
    var q: nat :| Times(page, q, y);
    PagesApart(page, p, q);
    PagesApart(page, q, p);
  }

  lemma CeilOfAligned(page: nat, x: nat)
    requires page > 0 && Aligned(page, x)
    ensures Ceil(page, x) == x
  {
    CeilAligned(page, x);
    AlignedGap(page, x, Ceil(page, x));
  }

  lemma AlignedSum(page: nat, x: nat, y: nat)
    requires Aligned(page, x) && Aligned(page, y)
    ensures Aligned(page, x + y)
  {
    var p: nat :| Times(page, p, x);
    var q: nat :| Times(page, q, y);
    assert x + y == p * page + q * page == (p + q) * page;
    assert Times(page, p + q, x + y);
  }

  /** `p` is the first page boundary at or above `x`. */
  ghost predicate FirstPage(page: nat, x: nat, p: nat) {
    Aligned(page, p) && x <= p && forall q: nat | Aligned(page, q) && x <= q :: p <= q
  }

  lemma CeilFirst(page: nat, x: nat, p: nat)
    requires page > 0
    ensures FirstPage(page, x, p) <==> p == Ceil(page, x)
  {
    var c := Ceil(page, x);
    CeilAligned(page, x);
    forall q: nat | Aligned(page, q) && x <= q ensures c <= q { if q < c { AlignedGap(page, q, c); } }
    hide Ceil, Aligned;
  }
}
