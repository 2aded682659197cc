/** Machine-word arithmetic the sources rely on: the range of `isize` and the
    two's-complement wrap-around of its atomic adds, powers of two, and the
    bitwise AND that turns a ring-buffer cursor into a slot index. */
module Words {

  const WORD: int := 0x1_0000_0000_0000_0000
  const ISIZE_MIN: int := -0x8000_0000_0000_0000
  const ISIZE_MAX: int := 0x7FFF_FFFF_FFFF_FFFF

  /** A 64-bit signed machine integer. */
  type Isize = x: int | ISIZE_MIN <= x <= ISIZE_MAX

  /** The result of an exact sum or difference as `AtomicIsize::fetch_add` and
      `fetch_sub` store it: reduced modulo 2^64 into the signed range. */
  function WrapIsize(x: int): (r: Isize)
    ensures ISIZE_MIN <= x <= ISIZE_MAX ==> r == x
    ensures ISIZE_MAX < x <= ISIZE_MAX + WORD ==> r == x - WORD
    ensures ISIZE_MIN - WORD <= x < ISIZE_MIN ==> r == x + WORD
  {
    (x - ISIZE_MIN) % WORD + ISIZE_MIN
  }

  /** `cmp::min`. */
  function Min(a: int, b: int): (m: int)
    ensures m <= a && m <= b && (m == a || m == b)
  {
    if a <= b then a else b
  }

  predicate IsPowerOfTwo(n: nat)
    decreases n
  {
    n == 1 || (n >= 2 && n % 2 == 0 && IsPowerOfTwo(n / 2))
  }

  /** `usize::next_power_of_two` (without its overflow): a power of two no
      smaller than `n`; `NextPowerOfTwoIsLeast` shows it is the least one. */
  function NextPowerOfTwo(n: nat): (r: nat)
    ensures IsPowerOfTwo(r) && n <= r
    decreases n
  {
    if n <= 1 then 1 else 2 * NextPowerOfTwo((n + 1) / 2)
  }

  lemma {:induction false} NextPowerOfTwoIsLeast(n: nat, p: nat)
    requires IsPowerOfTwo(p) && n <= p
    ensures NextPowerOfTwo(n) <= p
    decreases n
  {
    if n > 1 {
      // p >= 2 is even, and half of it still covers half of n, rounded up
      assert p != 1;
      NextPowerOfTwoIsLeast((n + 1) / 2, p / 2);
    }
  }

  /** Bitwise AND of two non-negative integers, bit by bit from the lowest. */
  function BitAnd(a: nat, b: nat): nat
    decreases a
  {
    if a == 0 || b == 0 then 0 else 2 * BitAnd(a / 2, b / 2) + (a % 2) * (b % 2)
  }

  lemma {:induction false} BitAndSelf(a: nat)
    ensures BitAnd(a, a) == a
    decreases a
  {
    if a != 0 {
      BitAndSelf(a / 2);
      if a % 2 == 0 {
        assert BitAnd(a, a) == 2 * BitAnd(a / 2, a / 2);
      } else {
        assert BitAnd(a, a) == 2 * BitAnd(a / 2, a / 2) + 1;
      }
    }
  }

  /** The test `n & (n - 1) == 0` recognises exactly the powers of two. */
  lemma {:induction false} PowerOfTwoTest(n: nat)
    requires n >= 1
    ensures BitAnd(n, n - 1) == 0 <==> IsPowerOfTwo(n)
    decreases n
  {
    if n == 1 {
      assert BitAnd(1, 0) == 0;
    } else if n % 2 == 0 {
      assert (n - 1) / 2 == n / 2 - 1 && (n - 1) % 2 == 1;
      assert BitAnd(n, n - 1) == 2 * BitAnd(n / 2, n / 2 - 1);
      PowerOfTwoTest(n / 2);
    } else {
      assert (n - 1) / 2 == n / 2 && (n - 1) % 2 == 0;
      assert BitAnd(n, n - 1) == 2 * BitAnd(n / 2, n / 2);
      BitAndSelf(n / 2);
    }
  }

  /** Masking with `n - 1` for a power of two `n` is reduction modulo `n`. */
  lemma {:induction false} MaskIsModulo(x: nat, n: nat)
    requires IsPowerOfTwo(n)
    ensures BitAnd(x, n - 1) == x % n
    decreases n
  {
    if n == 1 {
      assert BitAnd(x, 0) == 0;
    } else if x == 0 {
      assert BitAnd(0, n - 1) == 0;
    } else {
      var h := n / 2;
      assert (n - 1) / 2 == h - 1 && (n - 1) % 2 == 1;
      assert BitAnd(x, n - 1) == 2 * BitAnd(x / 2, h - 1) + x % 2;
      MaskIsModulo(x / 2, h);
      HalvingModulo(x, h);
    }
  }

  lemma HalvingModulo(x: nat, h: nat)
    requires h >= 1
    ensures x % (2 * h) == 2 * ((x / 2) % h) + x % 2
  {
    var a, b := x / 2, x % 2;
    var q, r := a / h, a % h;
    assert x == 2 * (h * q + r) + b;
    assert x == (2 * h) * q + (2 * r + b);
    ModUnique(x, 2 * h, q, 2 * r + b);
  }

  /** Quotient and remainder are unique. */
  lemma ModUnique(x: int, d: int, q: int, r: int)
    requires 0 < d && x == d * q + r && 0 <= r < d
    ensures x / d == q && x % d == r
  {
    var q', r' := x / d, x % d;
    assert x == d * q' + r';
    if q' < q {
      MulMonotone(d, q' + 1, q);
    } else if q' > q {
      MulMonotone(d, q + 1, q');
    }
  }

  lemma MulMonotone(d: int, a: int, b: int)
    requires 0 <= d && a <= b
    ensures d * a <= d * b
  {
    assert d * b - d * a == d * (b - a);
  }

  /** Two positions less than `m` apart land in different slots. */
  lemma ModDistinct(a: int, b: int, m: int)
    requires 0 < m && a < b < a + m
    ensures a % m != b % m
  {
    var qa, qb := a / m, b / m;
    if a % m == b % m {
      assert b - a == m * (qb - qa);
      if qb - qa <= 0 {
        MulMonotone(m, qb - qa, 0);
      } else {
        MulMonotone(m, 1, qb - qa);
      }
    }
  }

  /** Positions one full lap apart share a slot. */
  lemma ModShift(p: int, m: int)
    requires 0 < m
    ensures (p + m) % m == p % m
  {
    ModUnique(p + m, m, p / m + 1, p % m);
  }

  lemma ModSmall(p: int, m: int)
    requires 0 <= p < m
    ensures p % m == p
  {
    ModUnique(p, m, 0, p);
  }
}
