/**
 * Integer facts the models share, and Rust's integer division, which truncates
 * toward zero where Dafny's `/` and `%` are Euclidean.
 */
module Arith {

  /** Rust's `i64`. */
  newtype i64 = x: int | -0x8000_0000_0000_0000 <= x < 0x8000_0000_0000_0000

  lemma {:induction false} MulMonotone(a: nat, b: nat, n: nat)
    requires a <= b
    ensures a * n <= b * n
  {
  }

  /** Quotient and remainder are the only pair with `a == q * n + r` and `0 <= r < n`. */
  lemma {:induction false} DivModUnique(a: nat, n: nat, q: nat, r: nat)
    requires n > 0 && r < n && a == q * n + r
    ensures a / n == q && a % n == r
  {
    var q', r' := a / n, a % n;
    assert a == q' * n + r';
    if q < q' {
      MulMonotone(q + 1, q', n);
    } else if q' < q {
      MulMonotone(q' + 1, q, n);
    }
  }

  lemma {:induction false} DivModBounds(x: nat, y: nat)
    requires y > 0
    ensures x / y >= 0 && 0 <= x % y < y && x == (x / y) * y + x % y
  {
  }

  lemma {:induction false} ModSmaller(a: nat, n: nat)
    requires n > 0
    ensures a % n <= a && a % n < n
  {
    var q := a / n;
    assert a == q * n + a % n;
    MulMonotone(0, q, n);
  }

  /** Counting up by one: the remainder steps up by one and wraps to zero at `n`. */
  lemma {:induction false} ModSucc(a: nat, n: nat)
    requires n > 0
    ensures (a + 1) % n == if a % n + 1 == n then 0 else a % n + 1
  {
    var q, r := a / n, a % n;
    assert a == q * n + r;
    if r + 1 < n {
      DivModUnique(a + 1, n, q, r + 1);
    } else {
      assert (q + 1) * n == q * n + n;
      DivModUnique(a + 1, n, q + 1, 0);
    }
  }

  /**
   * Multiplication and division of naturals by repetition. Models use these where a
   * factor is a variable, so that the solver reasons about them linearly; the two
   * lemmas after them show they agree with `*` and `/`.
   */
  function Times(a: nat, b: nat): nat {
    if a == 0 then 0 else Times(a - 1, b) + b
  }

  function Quotient(a: nat, b: nat): (q: nat)
    requires b > 0
    ensures Times(q, b) <= a < Times(q, b) + b
    decreases a
  {
    if a < b then 0 else 1 + Quotient(a - b, b)
  }

  function Remainder(a: nat, b: nat): (r: nat)
    requires b > 0
    ensures r <= a && r < b
    decreases a
  {
    if a < b then a else Remainder(a - b, b)
  }

  lemma {:induction false} RemainderIsMod(a: nat, b: nat)
    requires b > 0
    ensures Remainder(a, b) == a % b
    decreases a
  {
    if a < b {
      DivModUnique(a, b, 0, a);
    } else {
      RemainderIsMod(a - b, b);
      var q := (a - b) / b;
      assert a - b == q * b + (a - b) % b;
      assert a == (q + 1) * b + (a - b) % b;
      ModSmaller(a - b, b);
      DivModUnique(a, b, q + 1, (a - b) % b);
    }
  }

  lemma {:induction false} TimesIsMul(a: nat, b: nat)
    ensures Times(a, b) == a * b
  {
    if a > 0 {
      TimesIsMul(a - 1, b);
      assert a * b == (a - 1) * b + b;
    }
  }

  lemma {:induction false} QuotientIsDiv(a: nat, b: nat)
    requires b > 0
    ensures Quotient(a, b) == a / b
  {
    var q := Quotient(a, b);
    TimesIsMul(q, b);
    DivModUnique(a, b, q, a - Times(q, b));
  }

  /** The quotient is the only `q` with `q * b <= a < q * b + b`. */
  lemma {:induction false} QuotientUnique(a: nat, b: nat, q: nat)
    requires b > 0 && Times(q, b) <= a < Times(q, b) + b
    ensures Quotient(a, b) == q
    decreases q
  {
    if q > 0 {
      assert Times(q, b) == Times(q - 1, b) + b;
      QuotientUnique(a - b, b, q - 1);
    }
  }

  /** Rust's `/` on signed integers: the quotient rounded toward zero. */
  function TruncDiv(a: int, b: int): (q: int)
    requires b != 0
    ensures a >= 0 && b > 0 ==> q == a / b
    ensures Abs(q) == Abs(a) / Abs(b)
  {
    var x := Abs(a);
    var y := Abs(b);
    DivModBounds(x, y);
    if (a >= 0) == (b > 0) then x / y else -(x / y)
  }

  /** Rust's `%` on signed integers: the remainder takes the sign of the dividend. */
  function TruncRem(a: int, b: int): (r: int)
    requires b != 0
    ensures a == TruncDiv(a, b) * b + r
    ensures Abs(r) < Abs(b)
    ensures a >= 0 ==> r >= 0
    ensures a <= 0 ==> r <= 0
  {
    var x := Abs(a);
    var y := Abs(b);
    DivModBounds(x, y);
    if a >= 0 then x % y else -(x % y)
  }

  function Abs(a: int): nat {
    if a < 0 then -a else a
  }
}
