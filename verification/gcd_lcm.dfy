/**
 * `gcd`, `lcm` and `lcm_all` of 2023/day-8/src/lcm.rs: Euclid's algorithm by
 * remainders, the least common multiple through it, and its left fold from 1.
 * The proofs show `gcd` is the greatest common divisor and `lcm` the least
 * common multiple, so the fold does not depend on the order of its inputs.
 */
module GcdLcm {
  /** `d` divides `n`; only 0 is a multiple of 0. */
  predicate Divides(d: nat, n: nat) {
    if d == 0 then n == 0 else n % d == 0
  }

  // ---------------------------------------------------------------------------
  // Arithmetic facts

  /** Division with remainder has one answer. */
  lemma DivModUnique(n: nat, d: nat, q: nat, r: nat)
    requires d > 0 && r < d && n == q * d + r
    ensures n / d == q && n % d == r
  {
    var q', r' := n / d, n % d;
    assert (q' - q) * d == r - r';
    MulBetween(q' - q, d);
  }

  lemma MulAtLeast(k: nat, d: nat)
    requires k >= 1
    ensures k * d >= d
  {
  }

  /** A nonzero factor can be cancelled. */
  lemma MulCancel(g: nat, p: nat, q: nat)
    requires g > 0 && g * p == g * q
    ensures p == q
  {
    assert (p - q) * g == 0;
    MulBetween(p - q, g);
  }

  /** The only multiple of `d` strictly between `-d` and `d` is 0. */
  lemma MulBetween(k: int, d: nat)
    requires d > 0 && k * d < d && -(k * d) < d
    ensures k == 0
  {
    if k >= 1 {
      MulAtLeast(k, d);
      assert false;
    } else if k <= -1 {
      assert false;
    }
  }

  lemma MultipleDivides(d: nat, k: nat)
    ensures Divides(d, d * k)
  {
    if d > 0 {
      DivModUnique(d * k, d, k, 0);
    }
  }

  /** The quotient of a divisible number. */
  lemma Factor(d: nat, n: nat) returns (k: nat)
    requires Divides(d, n)
    ensures n == d * k
  {
    if d == 0 {
      k := 0;
    } else {
      k := n / d;
    }
  }

  /** Each of two numbers dividing the other are equal. */
  lemma DividesAntisymmetric(a: nat, b: nat)
    requires Divides(a, b) && Divides(b, a)
    ensures a == b
  {
    if a != 0 && b != 0 {
      var k := Factor(a, b);
      var j := Factor(b, a);
      MulAtLeast(k, a);
      MulAtLeast(j, b);
    }
  }

  lemma DividesTransitive(a: nat, b: nat, c: nat)
    requires Divides(a, b) && Divides(b, c)
    ensures Divides(a, c)
  {
    var k := Factor(a, b);
    var j := Factor(b, c);
    assert c == a * (k * j);
    MultipleDivides(a, k * j);
  }

  // ---------------------------------------------------------------------------
  // gcd

  /** `gcd`: Euclid's algorithm by remainders; `gcd(0, b)` is `b`. */
  function Gcd(a: nat, b: nat): (r: nat)
    ensures r == 0 <==> a == 0 && b == 0
    decreases a
  {
    if a == 0 then b else Gcd(b % a, a)
  }

  /** The result divides both arguments. */
  lemma {:induction false} GcdDivides(a: nat, b: nat)
    ensures Divides(Gcd(a, b), a) && Divides(Gcd(a, b), b)
    decreases a
  {
    if a == 0 {
      MultipleDivides(b, 0);
      MultipleDivides(b, 1);
    } else {
      var g := Gcd(b % a, a);
      GcdDivides(b % a, a);
      var x := Factor(g, b % a);
      var y := Factor(g, a);
      var q := b / a;
      assert b == q * a + b % a;
      assert b == g * (q * y + x) by {
        assert q * a == q * (g * y) == g * (q * y);
      }
      MultipleDivides(g, q * y + x);
    }
  }

  /** A positive first argument bounds the result: it is one of its divisors. */
  lemma GcdAtMost(a: nat, b: nat)
    requires a > 0
    ensures Gcd(a, b) <= a
  {
    GcdDivides(a, b);
    var k := Factor(Gcd(a, b), a);
    MulAtLeast(k, Gcd(a, b));
  }

  /** Every common divisor divides the result: it is the greatest. */
  lemma {:induction false} GcdGreatest(a: nat, b: nat, d: nat)
    requires Divides(d, a) && Divides(d, b)
    ensures Divides(d, Gcd(a, b))
    decreases a
  {
    if a != 0 {
      var x := Factor(d, a);
      var y := Factor(d, b);
      var q := b / a;
      assert b % a == d * (y - q * x) by {
        assert b == q * a + b % a;
        assert q * a == q * (d * x) == d * (q * x);
      }
      assert y - q * x >= 0;
      MultipleDivides(d, y - q * x);
      GcdGreatest(b % a, a, d);
    }
  }


  /** Scaling both arguments scales the result. */
  lemma {:induction false} GcdScale(k: nat, a: nat, b: nat)
    ensures Gcd(k * a, k * b) == k * Gcd(a, b)
    decreases a
  {
    if a != 0 && k != 0 {
      var q, r := b / a, b % a;
      assert k * b == q * (k * a) + k * r by {
        assert b == q * a + r;
      }
      assert k * r < k * a;
      DivModUnique(k * b, k * a, q, k * r);
      GcdScale(k, r, a);
    }
  }

  // ---------------------------------------------------------------------------
  // lcm

  /** The largest `u64`. */
  const U64_MAX: nat := 0xFFFF_FFFF_FFFF_FFFF

  /**
   * `lcm`: `a * b / gcd(a, b)` on `u64`. Both 0 divides by zero, and a
   * product past `u64` overflows; callers exclude both.
   */
  function Lcm(a: nat, b: nat): (r: nat)
    requires a != 0 || b != 0
    requires a * b <= U64_MAX
    ensures r <= a * b
  {
    Quotient(a * b, Gcd(a, b))
  }

  /** Division of a natural number by a positive one. */
  function Quotient(n: nat, d: nat): (q: nat)
    requires d > 0
    ensures q <= n
  {
    QuotientAtMost(n, d);
    n / d
  }

  /** Dividing by a positive number never increases. */
  lemma QuotientAtMost(n: nat, d: nat)
    requires d > 0
    ensures n / d <= n
  {
    var q := n / d;
    var e := d - 1;
    assert n == d * q + n % d;
    assert d * q == q + e * q;
    assert e * q >= 0;
  }

  /** The result through the reduced arguments: `a = g x`, `b = g y`, `lcm = g x y`. */
  lemma LcmForm(a: nat, b: nat) returns (x: nat, y: nat)
    requires a != 0 || b != 0
    requires a * b <= U64_MAX
    ensures a == Gcd(a, b) * x && b == Gcd(a, b) * y
    ensures Lcm(a, b) == x * b && Lcm(a, b) == a * y
  {
    var g := Gcd(a, b);
    GcdDivides(a, b);
    x := Factor(g, a);
    y := Factor(g, b);
    assert a * b == (x * b) * g + 0 by {
      assert a * b == (g * x) * b == (x * b) * g;
    }
    DivModUnique(a * b, g, x * b, 0);
    assert x * b == x * (g * y) == (g * x) * y;
  }

  /** Both arguments divide the result: it is a common multiple. */
  lemma LcmMultiple(a: nat, b: nat)
    requires a != 0 || b != 0
    requires a * b <= U64_MAX
    ensures Divides(a, Lcm(a, b)) && Divides(b, Lcm(a, b))
  {
    var x, y := LcmForm(a, b);
    MultipleDivides(a, y);
    assert Lcm(a, b) == b * x;
    MultipleDivides(b, x);
  }

  /** The result is 0 exactly when an argument is. */
  lemma LcmZero(a: nat, b: nat)
    requires a != 0 || b != 0
    requires a * b <= U64_MAX
    ensures Lcm(a, b) == 0 <==> a == 0 || b == 0
  {
    var x, y := LcmForm(a, b);
    if a != 0 && b != 0 {
      assert x != 0;
    }
  }

  /** Dividing out the gcd leaves arguments whose gcd is 1. */
  lemma ReducedCoprime(a: nat, b: nat, x: nat, y: nat)
    requires a != 0 || b != 0
    requires a == Gcd(a, b) * x && b == Gcd(a, b) * y
    ensures Gcd(x, y) == 1
  {
    var g := Gcd(a, b);
    GcdScale(g, x, y);
    assert g * Gcd(x, y) == g * 1;
    MulCancel(g, Gcd(x, y), 1);
  }

  /** Euclid's lemma: a divisor of `u x` that shares nothing with `x` divides `u`. */
  lemma CoprimeDivides(x: nat, y: nat, u: nat)
    requires Gcd(x, y) == 1 && Divides(y, u * x)
    ensures Divides(y, u)
  {
    GcdScale(u, x, y);
    MultipleDivides(y, u);
    assert Divides(y, u * y) by { assert u * y == y * u; }
    GcdGreatest(u * x, u * y, y);
  }

  lemma MulAssoc(p: nat, q: nat, r: nat)
    ensures p * (q * r) == (p * q) * r
  {
  }

  lemma MulComm(p: nat, q: nat)
    ensures p * q == q * p
  {
  }

  /** With `a = g x`, `b = g y` and `gcd(x, y) = 1`, `x b` divides every common multiple. */
  lemma ReducedLeast(a: nat, b: nat, g: nat, x: nat, y: nat, m: nat)
    requires g > 0 && a == g * x && b == g * y && Gcd(x, y) == 1
    requires Divides(a, m) && Divides(b, m)
    ensures Divides(x * b, m)
  {
    var u := Factor(a, m);
    var v := Factor(b, m);
    MulAssoc(g, x, u);
    MulAssoc(g, y, v);
    MulCancel(g, x * u, y * v);
    MulComm(u, x);
    MultipleDivides(y, v);
    CoprimeDivides(x, y, u);
    var w := Factor(y, u);
    // m = g (x (y w)) = (x (g y)) w
    MulAssoc(x, y, w);
    MulAssoc(g, x * y, w);
    MulAssoc(g, x, y);
    MulComm(g, x);
    MulAssoc(x, g, y);
    MultipleDivides(x * b, w);
  }

  /** The result divides every common multiple: it is the least. */
  lemma LcmLeast(a: nat, b: nat, m: nat)
    requires a != 0 || b != 0
    requires a * b <= U64_MAX
    requires Divides(a, m) && Divides(b, m)
    ensures Divides(Lcm(a, b), m)
  {
    var x, y := LcmForm(a, b);
    if a == 0 || b == 0 {
      LcmZero(a, b);
    } else {
      ReducedCoprime(a, b, x, y);
      ReducedLeast(a, b, Gcd(a, b), x, y, m);
    }
  }

  // ---------------------------------------------------------------------------
  // lcm_all

  function Zeros(xs: seq<nat>): nat {
    multiset(xs)[0]
  }

  /**
   * The fold stays within `u64`: every product `lcm` forms is at most
   * `U64_MAX`.
   */
  predicate FoldFits(xs: seq<nat>)
    requires Zeros(xs) <= 1
    decreases |xs|, 0
  {
    xs == [] ||
    var front, last := xs[..|xs| - 1], xs[|xs| - 1];
    assert xs == front + [last];
    FoldFits(front) && LcmAll(front) * last <= U64_MAX
  }

  /**
   * `lcm_all`: `lcm` folded from the left, starting at 1. A second 0 would
   * meet an accumulator of 0 and divide by zero.
   */
  function LcmAll(xs: seq<nat>): (r: nat)
    requires Zeros(xs) <= 1 && FoldFits(xs)
    ensures r == 0 <==> 0 in xs
    decreases |xs|, 1
  {
    if xs == [] then 1
    else
      var front, last := xs[..|xs| - 1], xs[|xs| - 1];
      assert xs == front + [last];
      var acc := LcmAll(front);
      LcmZero(acc, last);
      Lcm(acc, last)
  }

  /** Every input divides the result. */
  lemma {:induction false} LcmAllMultiple(xs: seq<nat>, i: nat)
    requires Zeros(xs) <= 1 && FoldFits(xs) && i < |xs|
    ensures Divides(xs[i], LcmAll(xs))
  {
    var front, last := xs[..|xs| - 1], xs[|xs| - 1];
    assert xs == front + [last];
    var acc := LcmAll(front);
    LcmMultiple(acc, last);
    if i < |xs| - 1 {
      LcmAllMultiple(front, i);
      DividesTransitive(xs[i], acc, LcmAll(xs));
    }
  }

  /** The result divides every common multiple of the inputs. */
  lemma {:induction false} LcmAllLeast(xs: seq<nat>, m: nat)
    requires Zeros(xs) <= 1 && FoldFits(xs)
    requires forall i | 0 <= i < |xs| :: Divides(xs[i], m)
    ensures Divides(LcmAll(xs), m)
  {
    if xs == [] {
      MultipleDivides(1, m);
    } else {
      var front, last := xs[..|xs| - 1], xs[|xs| - 1];
      assert xs == front + [last];
      forall i | 0 <= i < |front| ensures Divides(front[i], m) {
        assert front[i] == xs[i];
      }
      LcmAllLeast(front, m);
      LcmZero(LcmAll(front), last);
      LcmLeast(LcmAll(front), last, m);
    }
  }

  /** When every input of `xs` is among `ys`, the result for `xs` divides the one for `ys`. */
  lemma LcmAllAmong(xs: seq<nat>, ys: seq<nat>)
    requires Zeros(xs) <= 1 && Zeros(ys) <= 1 && FoldFits(xs) && FoldFits(ys)
    requires forall x | x in xs :: x in ys
    ensures Divides(LcmAll(xs), LcmAll(ys))
  {
    forall i | 0 <= i < |xs| ensures Divides(xs[i], LcmAll(ys)) {
      assert xs[i] in ys;
      var j :| 0 <= j < |ys| && ys[j] == xs[i];
      LcmAllMultiple(ys, j);
    }
    LcmAllLeast(xs, LcmAll(ys));
  }

  /**
   * Inputs with the same elements, in any order and with any repetition,
   * give the same result.
   */
  lemma LcmAllSameElements(xs: seq<nat>, ys: seq<nat>)
    requires Zeros(xs) <= 1 && Zeros(ys) <= 1 && FoldFits(xs) && FoldFits(ys)
    requires forall x :: x in xs <==> x in ys
    ensures LcmAll(xs) == LcmAll(ys)
  {
    LcmAllAmong(xs, ys);
    LcmAllAmong(ys, xs);
    DividesAntisymmetric(LcmAll(xs), LcmAll(ys));
  }
}
