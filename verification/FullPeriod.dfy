/**
  The 48-bit linear congruential generator behind the restart-replay manifest, as arithmetic.

  The main results are that the generator returns to an earlier state after exactly 2^48 draws, from every
  seed, and that it visits every 48-bit state on the way.
 */
module FullPeriod {
  import opened Common

  const MODULUS := 0x1_0000_0000_0000
  const MULTIPLIER := 25214903917
  const INCREMENT := 11

  /** One draw: `(state * 25214903917 + 11) & 0xFFFFFFFFFFFF`. */
  function Step(state: int): int {
    (state * MULTIPLIER + INCREMENT) % MODULUS
  }

  /** The state after `n` draws. */
  function Iterate(state: int, n: nat): int {
    if n == 0 then state else Step(Iterate(state, n - 1))
  }

  ghost predicate InRange(state: int) {
    0 <= state < MODULUS
  }

  lemma {:induction false} IterateInRange(state: int, n: nat)
    requires InRange(state)
    ensures InRange(Iterate(state, n))
  {
    if n == 0 {
    } else {
      IterateInRange(state, n - 1);
    }
  }

  lemma {:induction false} IterateSplit(state: int, m: nat, n: nat)
    ensures Iterate(state, m + n) == Iterate(Iterate(state, m), n)
  {
    if n == 0 {
    } else {
      IterateSplit(state, m, n - 1);
    }
  }

  // ---- powers of two and of the multiplier -------------------------------

  ghost function Pow2(k: nat): int {
    if k == 0 then 1 else 2 * Pow2(k - 1)
  }

  lemma {:induction false} Pow2Positive(k: nat)
    ensures Pow2(k) > 0
  {
    if k == 0 {
    } else {
      Pow2Positive(k - 1);
    }
  }

  ghost function Power(n: nat): int {
    if n == 0 then 1 else MULTIPLIER * Power(n - 1)
  }

  /** 1 + A + ... + A^(n-1) for the multiplier A. */
  ghost function Geometric(n: nat): int {
    if n == 0 then 0 else MULTIPLIER * Geometric(n - 1) + 1
  }

  /** The draws without the reduction modulo 2^48. */
  ghost function Unreduced(state: int, n: nat): int {
    if n == 0 then state else MULTIPLIER * Unreduced(state, n - 1) + INCREMENT
  }

  ghost function Drift(state: int): int {
    (MULTIPLIER - 1) * state + INCREMENT
  }

  ghost predicate DivisibleBy(m: int, x: int)
    requires m > 0
  {
    x % m == 0
  }

  lemma {:induction false} PowerIsOneMod4(n: nat)
    ensures Power(n) % 4 == 1
  {
    if n == 0 {
    } else {
      PowerIsOneMod4(n - 1);
      ProductIsOneMod4(MULTIPLIER, Power(n - 1));
    }
  }

  lemma ProductIsOneMod4(x: int, y: int)
    requires x % 4 == 1 && y % 4 == 1
    ensures (x * y) % 4 == 1
  {
    var a, b := x / 4, y / 4;
    ExpandMod4(a, b);
    assert x == 4 * a + 1 && y == 4 * b + 1;
  }

  lemma ExpandMod4(a: int, b: int)
    ensures ((4 * a + 1) * (4 * b + 1)) % 4 == 1
  {
    var ab := a * b;
    assert (4 * a + 1) * (4 * b + 1) == 16 * ab + 4 * a + 4 * b + 1;
    assert (4 * (4 * ab + a + b) + 1) % 4 == 1;
  }

  /** An even summand does not change parity. */
  lemma EvenPlus(k: int, x: int)
    ensures (2 * k + x) % 2 == x % 2
  {
  }

  lemma TimesOdd(x: int, b: int)
    ensures x * (2 * b + 1) == 2 * (x * b) + x
  {
  }

  lemma ProductParity(x: int, y: int)
    requires y % 2 == 1
    ensures (x * y) % 2 == x % 2
  {
    var b := y / 2;
    TimesOdd(x, b);
    EvenPlus(x * b, x);
    assert y == 2 * b + 1;
  }

  lemma {:induction false} GeometricParity(n: nat)
    ensures Geometric(n) % 2 == n % 2
  {
    if n == 0 {
    } else {
      GeometricParity(n - 1);
      NextParity(Geometric(n - 1), n - 1);
    }
  }

  lemma NextParity(g: int, n: nat)
    requires g % 2 == n % 2
    ensures (MULTIPLIER * g + 1) % 2 == (n + 1) % 2
  {
    assert MULTIPLIER == 2 * 12607451958 + 1;
    EvenPlus(12607451958 * g, g + 1);
  }

  lemma {:induction false} PowerAdd(m: nat, n: nat)
    ensures Power(m + n) == Power(m) * Power(n)
  {
    if m == 0 {
    } else {
      PowerAdd(m - 1, n);
      assert Power(m + n) == MULTIPLIER * (Power(m - 1) * Power(n));
      assert MULTIPLIER * (Power(m - 1) * Power(n)) == (MULTIPLIER * Power(m - 1)) * Power(n);
    }
  }

  lemma {:induction false} GeometricAdd(m: nat, n: nat)
    ensures Geometric(m + n) == Power(m) * Geometric(n) + Geometric(m)
  {
    if m == 0 {
    } else {
      GeometricAdd(m - 1, n);
      var p, g := Power(m - 1), Geometric(n);
      assert MULTIPLIER * (p * g) == (MULTIPLIER * p) * g;
    }
  }

  lemma {:induction false} GeometricDouble(m: nat)
    ensures Geometric(2 * m) == (Power(m) + 1) * Geometric(m)
  {
    GeometricAdd(m, m);
  }

  lemma DoubleDivisible(half: int, x: int)
    requires half > 0
    ensures DivisibleBy(2 * half, 2 * x) <==> DivisibleBy(half, x)
  {
    if DivisibleBy(half, x) {
      var q := x / half;
      assert 2 * x == (2 * half) * q;
      MultipleIsDivisible(2 * half, q);
    }
    if DivisibleBy(2 * half, 2 * x) {
      var q := 2 * x / (2 * half);
      assert 2 * x == 2 * (half * q);
      MultipleIsDivisible(half, q);
    }
  }

  lemma MultipleIsDivisible(m: int, q: int)
    requires m > 0
    ensures DivisibleBy(m, m * q)
  {
    DivModUnique(m, m * q, q, 0);
  }

  /** An odd factor does not help a power of two divide. */
  lemma {:induction false} OddFactorCancels(k: nat, x: int, odd: int)
    requires odd % 2 == 1
    ensures Pow2(k) > 0
    ensures DivisibleBy(Pow2(k), x * odd) <==> DivisibleBy(Pow2(k), x)
  {
    Pow2Positive(k);
    if k == 0 {
    } else {
      Pow2Positive(k - 1);
      var half := Pow2(k - 1);
      ProductParity(x, odd);
      if x % 2 == 0 {
        var y := x / 2;
        assert x * odd == 2 * (y * odd) by {
          assert x == 2 * y;
        }
        OddFactorCancels(k - 1, y, odd);
        DoubleDivisible(half, y);
        DoubleDivisible(half, y * odd);
      } else {
        OddNotDivisible(half, x);
        OddNotDivisible(half, x * odd);
      }
    }
  }

  lemma OddNotDivisible(half: int, x: int)
    requires half > 0 && x % 2 == 1
    ensures !DivisibleBy(2 * half, x)
  {
    var q, r := x / (2 * half), x % (2 * half);
    assert x == 2 * (half * q) + r;
  }

  lemma Pow2Step(k: nat)
    requires k > 0
    ensures Pow2(k - 1) > 0 && Pow2(k) == 2 * Pow2(k - 1)
  {
    Pow2Positive(k - 1);
  }

  /** Doubling the length of a geometric sum adds exactly one factor of two. */
  lemma GeometricHalving(k: nat, m: nat)
    requires k > 0
    ensures Pow2(k) > 0 && Pow2(k - 1) > 0
    ensures DivisibleBy(Pow2(k), Geometric(2 * m)) <==> DivisibleBy(Pow2(k - 1), Geometric(m))
  {
    hide Pow2, Power, Geometric, DivisibleBy;
    Pow2Step(k);
    var odd := HalfOfNext(m);
    GeometricDouble(m);
    EvenFactor(Power(m) + 1, odd, Geometric(m));
    DoubleDivisible(Pow2(k - 1), Geometric(m) * odd);
    OddFactorCancels(k - 1, Geometric(m), odd);
  }

  lemma HalfOfNext(m: nat) returns (odd: int)
    ensures Power(m) + 1 == 2 * odd && odd % 2 == 1
  {
    PowerIsOneMod4(m);
    hide Power;
    odd := HalfOdd(Power(m));
  }

  lemma HalfOdd(p: int) returns (odd: int)
    requires p % 4 == 1
    ensures p + 1 == 2 * odd && odd % 2 == 1
  {
    odd := (p + 1) / 2;
  }

  lemma EvenFactor(twice: int, half: int, x: int)
    requires twice == 2 * half
    ensures twice * x == 2 * (x * half)
  {
  }

  /** The multiplier is 1 modulo 4, so the geometric sums carry exactly the powers of two of their length. */
  lemma {:induction false} GeometricValuation(k: nat, n: nat)
    ensures Pow2(k) > 0
    ensures DivisibleBy(Pow2(k), Geometric(n)) <==> DivisibleBy(Pow2(k), n)
  {
    Pow2Positive(k);
    if k == 0 {
    } else {
      Pow2Positive(k - 1);
      var half := Pow2(k - 1);
      GeometricParity(n);
      if n % 2 == 1 {
        OddNotDivisible(half, n);
        OddNotDivisible(half, Geometric(n));
      } else {
        var m := n / 2;
        GeometricHalving(k, m);
        GeometricValuation(k - 1, m);
        DoubleDivisible(half, m);
      }
    }
  }

  // ---- from arithmetic to the generator ----------------------------------

  lemma {:induction false} UnreducedClosedForm(state: int, n: nat)
    ensures Unreduced(state, n) == state + Geometric(n) * Drift(state)
  {
    if n == 0 {
    } else {
      UnreducedClosedForm(state, n - 1);
      var g, d := Geometric(n - 1), Drift(state);
      assert MULTIPLIER * (g * d) == (MULTIPLIER * g) * d;
      assert (MULTIPLIER * g) * d + d == (MULTIPLIER * g + 1) * d;
    }
  }

  lemma {:induction false} IterateIsUnreducedMod(state: int, n: nat)
    requires InRange(state)
    ensures Iterate(state, n) == Unreduced(state, n) % MODULUS
  {
    if n == 0 {
    } else {
      IterateIsUnreducedMod(state, n - 1);
      var u := Unreduced(state, n - 1);
      assert u == MODULUS * (u / MODULUS) + u % MODULUS;
      var r := MULTIPLIER * (u % MODULUS) + INCREMENT;
      assert Unreduced(state, n) == MODULUS * (MULTIPLIER * (u / MODULUS)) + r;
      DivModUnique(MODULUS, Unreduced(state, n), MULTIPLIER * (u / MODULUS) + r / MODULUS, r % MODULUS);
    }
  }

  lemma ModulusIsPow2()
    ensures MODULUS == Pow2(48)
  {
    assert Pow2(1) == 2 && Pow2(2) == 4 && Pow2(3) == 8;
    Pow2Add(3, 3);
    Pow2Add(6, 6);
    Pow2Add(12, 12);
    Pow2Add(24, 24);
  }

  lemma {:induction false} Pow2Add(a: nat, b: nat)
    ensures Pow2(a + b) == Pow2(a) * Pow2(b)
  {
    if a == 0 {
    } else {
      Pow2Add(a - 1, b);
    }
  }

  lemma ReturnsIffMultiple(state: int, n: nat)
    requires InRange(state)
    ensures Iterate(state, n) == state <==> n % MODULUS == 0
  {
    ModulusIsPow2();
    IterateIsUnreducedMod(state, n);
    UnreducedClosedForm(state, n);
    DriftIsOdd(state);
    OddFactorCancels(48, Geometric(n), Drift(state));
    GeometricValuation(48, n);
    OffsetVanishes(MODULUS, state, Geometric(n) * Drift(state));
  }

  lemma DriftIsOdd(state: int)
    ensures Drift(state) % 2 == 1
  {
    assert MULTIPLIER - 1 == 2 * 12607451958;
    EvenPlus(12607451958 * state, INCREMENT);
  }

  lemma OffsetVanishes(m: int, r: int, offset: int)
    requires 0 <= r < m
    ensures (r + offset) % m == r <==> offset % m == 0
  {
    if offset % m == 0 {
      DivModUnique(m, r + offset, offset / m, r);
    }
    if (r + offset) % m == r {
      DivModUnique(m, offset, (r + offset) / m, 0);
    }
  }

  lemma NegatedMultiple(d: int, m: int)
    requires m > 0
    ensures (-d) % m == 0 <==> d % m == 0
  {
    if d % m == 0 {
      NegateQuotient(d, m);
    }
    if (-d) % m == 0 {
      NegateQuotient(-d, m);
    }
  }

  lemma NegateQuotient(d: int, m: int)
    requires m > 0 && d % m == 0
    ensures (-d) % m == 0
  {
    var q := d / m;
    assert d == m * q;
    assert -d == m * -q;
    DivModUnique(m, -d, -q, 0);
  }

  lemma OrderedCoincidence(state: int, m: nat, n: nat)
    requires InRange(state) && m <= n
    ensures Iterate(state, m) == Iterate(state, n) <==> (n - m) % MODULUS == 0
  {
    hide Iterate, Step;
    IterateInRange(state, m);
    IterateSplit(state, m, n - m);
    ReturnsIffMultiple(Iterate(state, m), n - m);
  }

  /** Two points of an orbit coincide exactly when their distance is a multiple of 2^48. */
  lemma OrbitCoincidence(state: int, m: nat, n: nat)
    requires InRange(state)
    ensures Iterate(state, m) == Iterate(state, n) <==> (n - m) % MODULUS == 0
  {
    hide Iterate, Step;
    if m <= n {
      OrderedCoincidence(state, m, n);
    } else {
      OrderedCoincidence(state, n, m);
      NegatedMultiple(m - n, MODULUS);
    }
  }

  // ---- every state is visited --------------------------------------------

  ghost function Image(f: nat -> int, n: nat): set<int> {
    set i: nat | i < n :: f(i)
  }

  lemma {:induction false} ImageSize(f: nat -> int, n: nat)
    requires forall i: nat, j: nat :: i < j < n ==> f(i) != f(j)
    ensures |Image(f, n)| == n
  {
    hide Image;
    if n == 0 {
      NoImage(f);
    } else {
      ImageSize(f, n - 1);
      ImageNext(f, n - 1);
      NotYetInImage(f, n - 1);
      AddOne(Image(f, n - 1), f(n - 1));
    }
  }

  lemma NoImage(f: nat -> int)
    ensures Image(f, 0) == {}
  {
  }

  lemma NotYetInImage(f: nat -> int, n: nat)
    requires forall i: nat :: i < n ==> f(i) != f(n)
    ensures f(n) !in Image(f, n)
  {
  }

  lemma AddOne(s: set<int>, x: int)
    requires x !in s
    ensures |s + {x}| == |s| + 1
  {
  }

  lemma ImageNext(f: nat -> int, n: nat)
    ensures Image(f, n + 1) == Image(f, n) + {f(n)}
  {
  }

  lemma SubsetOfEqualSize(a: set<int>, b: set<int>)
    requires a <= b && |a| == |b|
    ensures a == b
  {
    assert |b - a| == |b| - |a|;
  }

  /** Full period: the orbit from any seed meets every 48-bit state within its first 2^48 draws. */
  lemma EveryStateIsVisited(state: int, target: int)
    requires InRange(state) && InRange(target)
    ensures exists n: nat :: n < MODULUS && Iterate(state, n) == target
  {
    var orbit := (i: nat) => Iterate(state, i);
    var self := (i: nat) => i as int;
    var visited, interval := Image(orbit, MODULUS), Image(self, MODULUS);
    forall i: nat, j: nat | i < j < MODULUS ensures orbit(i) != orbit(j) {
      OrbitCoincidence(state, i, j);
    }
    ImageSize(orbit, MODULUS);
    ImageSize(self, MODULUS);
    forall x | x in visited ensures x in interval {
      var i: nat :| i < MODULUS && orbit(i) == x;
      IterateInRange(state, i);
      assert self(x) == x;
    }
    SubsetOfEqualSize(visited, interval);
    assert self(target) == target;
    assert target in visited;
    var n: nat :| n < MODULUS && orbit(n) == target;
    assert Iterate(state, n) == target;
  }

  /** A draw loses nothing: each 48-bit state is the successor of exactly one 48-bit state. */
  lemma StepIsPermutation(state: int)
    requires InRange(state)
    ensures exists before :: InRange(before) && Step(before) == state
    ensures forall a, b :: InRange(a) && InRange(b) && Step(a) == Step(b) ==> a == b
  {
    var n := MODULUS - 1;
    IterateInRange(state, n);
    ReturnsIffMultiple(state, MODULUS);
    assert Step(Iterate(state, n)) == state;
    forall a, b | InRange(a) && InRange(b) && Step(a) == Step(b) ensures a == b {
      ReturnsIffMultiple(a, MODULUS);
      ReturnsIffMultiple(b, MODULUS);
      IterateSplit(a, 1, n);
      IterateSplit(b, 1, n);
      assert Iterate(a, 1) == Step(Iterate(a, 0)) && Iterate(b, 1) == Step(Iterate(b, 0));
    }
  }
}
