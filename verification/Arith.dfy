/** Ring-index and multiplication facts the solver does not find unaided. */
module Arith {

  lemma MulAtLeast(d: int, n: nat)
    requires d >= 1
    ensures d * n >= n
  {
    assert d * n == n + (d - 1) * n;
  }

  lemma SmallMultiple(d: int, n: int)
    requires 0 < n && -n < d * n < n
    ensures d == 0
  {
    if d >= 1 {
      MulAtLeast(d, n);
    }
  }

  lemma DivModUnique(x: nat, q: nat, r: nat, n: nat)
    requires r < n && x == q * n + r
    ensures x % n == r && x / n == q
  {
    var d := x / n - q;
    assert d * n == r - x % n by {
      assert x == (x / n) * n + x % n;
      assert (x / n) * n - q * n == d * n;
    }
    SmallMultiple(d, n);
  }

  lemma ModWrap(i: nat, n: nat)
    requires 0 < n && i < 2 * n
    ensures i % n == if i < n then i else i - n
  {
    if i >= n {
      DivModUnique(i, 1, i - n, n);
    } else {
      DivModUnique(i, 0, i, n);
    }
  }

  /** Adding before or after reduction gives the same ring cell. */
  lemma ModShift(x: nat, i: nat, n: nat)
    requires 0 < n && i <= n
    ensures (x + i) % n == (x % n + i) % n
  {
    var q, r := x / n, x % n;
    assert x == q * n + r;
    ModWrap(if r + i < 2 * n then r + i else 0, n);
    if r + i < n {
      DivModUnique(x + i, q, r + i, n);
    } else {
      assert x + i == (q + 1) * n + (r + i - n);
      DivModUnique(x + i, q + 1, r + i - n, n);
    }
  }

  /** Two positions less than `n` apart never share a ring cell. */
  lemma ModApart(a: nat, b: nat, n: nat)
    requires 0 < n && a < b < a + n
    ensures a % n != b % n
  {
    if a % n == b % n {
      var d := b / n - a / n;
      assert b - a == d * n by {
        assert a == (a / n) * n + a % n;
        assert b == (b / n) * n + b % n;
        assert (b / n) * n - (a / n) * n == d * n;
      }
      SmallMultiple(d, n);
    }
  }

  /** Positions a full turn apart share their cell. */
  lemma ModTurn(x: nat, n: nat)
    requires 0 < n
    ensures (x + n) % n == x % n
  {
    assert x + n == (x / n + 1) * n + x % n;
    DivModUnique(x + n, x / n + 1, x % n, n);
  }

  lemma MulMono(a: nat, b: nat, c: nat)
    requires a <= b
    ensures a * c <= b * c
  {
    assert b * c == a * c + (b - a) * c;
  }
}
