// An optional value, and facts about products and divisions.
module Basics {
  datatype Option<T> = None | Some(value: T)

  lemma Grow(a: nat, b: nat, c: nat)
    requires a <= b
    ensures a * c <= b * c
  {
  }

  lemma Stretch(a: real, b: real, k: real)
    requires a > b && k > 0.0
    ensures a * k > b * k
  {
  }

  lemma DivRange(i: nat, d: nat, n: nat)
    requires i < n * d
    ensures d > 0 && n > 0 && 0 <= i / d < n && 0 <= i % d < d && i == (i / d) * d + i % d
  {
    if d > 0 && i / d >= n {
      Grow(n, i / d, d);
    }
  }

  lemma DivMod(q: int, d: nat, r: int)
    requires 0 <= r < d && 0 <= q
    ensures (q * d + r) / d == q && (q * d + r) % d == r
  {
    var n := q * d + r;
    assert n == (n / d) * d + n % d;
    if n / d < q {
      Grow(n / d + 1, q, d);
    } else if n / d > q {
      Grow(q + 1, n / d, d);
    }
  }

  // Positions in rows of equal width.
  lemma RowBelow(r: int, rows: nat, width: nat, x: int)
    requires 0 <= r < rows && 0 <= x < width
    ensures 0 <= r * width + x < rows * width
  {
    assert (r + 1) * width <= rows * width;
  }

  lemma RowUnique(width: nat, r: int, x: int, r': int, x': int)
    requires 0 <= x < width && 0 <= x' < width && r * width + x == r' * width + x'
    ensures r == r' && x == x'
  {
    if r < r' {
      RowsApart(width, r, r');
    } else if r' < r {
      RowsApart(width, r', r);
    }
  }

  lemma RowsApart(width: nat, r: int, r': int)
    requires r < r'
    ensures r * width + width <= r' * width
  {
    assert (r + 1) * width <= r' * width;
  }
}
