/** The bit operations on nonnegative longs that the route arithmetic uses, as integer facts. */
module BitMath {

  function Pow2(n: nat): (r: nat)
    ensures r > 0
  {
    if n == 0 then 1 else 2 * Pow2(n - 1)
  }

  /** The & of two nonnegative integers, bit by bit. */
  function And(a: nat, b: nat): (r: nat)
    decreases a
  {
    if a == 0 || b == 0 then 0 else (if a % 2 == 1 && b % 2 == 1 then 1 else 0) + 2 * And(a / 2, b / 2)
  }

  /** The | of two nonnegative integers, bit by bit. */
  function Or(a: nat, b: nat): (r: nat)
    decreases a + b
  {
    if a == 0 && b == 0 then 0 else (if a % 2 == 1 || b % 2 == 1 then 1 else 0) + 2 * Or(a / 2, b / 2)
  }

  lemma Pow2Values()
    ensures Pow2(0) == 1 && Pow2(8) == 0x100 && Pow2(16) == 0x1_0000 && Pow2(24) == 0x100_0000
    ensures Pow2(32) == 0x1_0000_0000
  {
    Pow2Add(8, 8);
    Pow2Add(16, 8);
    Pow2Add(16, 16);
    assert Pow2(4) == 16;
    Pow2Add(4, 4);
  }

  lemma {:induction false} Pow2Add(a: nat, b: nat)
    ensures Pow2(a + b) == Pow2(a) * Pow2(b)
  {
    if a > 0 {
      Pow2Add(a - 1, b);
      TwiceProduct(Pow2(a - 1), Pow2(b));
    }
  }

  lemma TwiceProduct(x: nat, y: nat)
    ensures 2 * (x * y) == (2 * x) * y
  {
  }

  lemma {:induction false} Pow2Monotonic(a: nat, b: nat)
    requires a <= b
    ensures Pow2(a) <= Pow2(b)
  {
    if a < b {
      Pow2Monotonic(a, b - 1);
    }
  }

  /** Halving: a mod 2m in terms of (a/2) mod m. */
  lemma ModDouble(a: nat, m: nat)
    requires m > 0
    ensures a % (2 * m) == 2 * ((a / 2) % m) + a % 2
  {
    var q, r := (a / 2) / m, (a / 2) % m;
    assert a / 2 == q * m + r;
    assert a == 2 * (q * m + r) + a % 2;
    assert 2 * (q * m) == q * (2 * m);
    ModIs(a, 2 * m, q, 2 * r + a % 2);
  }

  lemma ModIs(a: nat, m: nat, q: nat, r: nat)
    requires m > 0 && a == q * m + r && r < m
    ensures a % m == r && a / m == q
  {
    var q', r' := a / m, a % m;
    assert a == q' * m + r';
    if q < q' {
      MulStep(q, q', m);
    } else if q' < q {
      MulStep(q', q, m);
    }
  }

  /** a & 0xFF..F keeps the low bits. */
  lemma {:induction false} AndLowMask(a: nat, n: nat)
    ensures And(a, Pow2(n) - 1) == a % Pow2(n)
    decreases n
  {
    if n > 0 {
      var m := Pow2(n - 1);
      AndLowMask(a / 2, n - 1);
      ModDouble(a, m);
      assert (2 * m - 1) / 2 == m - 1 && (2 * m - 1) % 2 == 1;
      if a == 0 {
        assert And(0, m - 1) == 0;
      } 
    } else {
      assert a % 1 == 0;
    }
  }

  /** a & 11..100..0 clears the low k bits. */
  lemma {:induction false} AndHighMask(a: nat, n: nat, k: nat)
    requires k <= n && a < Pow2(n)
    ensures Pow2(k) <= Pow2(n) && And(a, Pow2(n) - Pow2(k)) == a - a % Pow2(k)
    decreases k
  {
    hide And, Pow2;
    Pow2Monotonic(k, n);
    Pow2Double(k);
    Pow2Double(n);
    if k == 0 {
      assert And(a, Pow2(n) - 1) == a by { AndLowMask(a, n); ModIs(a, Pow2(n), 0, a); }
      assert a % 1 == 0 by { ModIs(a, 1, a, 0); }
    } else {
      assert a / 2 < Pow2(n - 1) by { HalfOf(a); }
      AndHighMask(a / 2, n - 1, k - 1);
      AndHighStep(a, Pow2(n - 1), Pow2(k - 1));
    }
  }

  /** One more mask bit on both ends. */
  lemma AndHighStep(a: nat, h: nat, m: nat)
    requires 0 < m <= h && And(a / 2, h - m) == a / 2 - (a / 2) % m
    ensures And(a, 2 * h - 2 * m) == a - a % (2 * m)
  {
    hide And;
    ModDouble(a, m);
    AndDouble(a, h - m);
    HalfOf(a);
  }

  lemma Pow2Double(n: nat)
    ensures Pow2(n) == if n == 0 then 1 else 2 * Pow2(n - 1)
  {
  }

  lemma HalfOf(a: nat)
    ensures a == 2 * (a / 2) + a % 2
  {
  }

  /** An even mask: the lowest bit goes, the others are those of the halves. */
  lemma AndDouble(a: nat, b: nat)
    ensures And(a, 2 * b) == 2 * And(a / 2, b)
  {
    assert 2 * b / 2 == b && 2 * b % 2 == 0;
  }

  /** s | 0..01..1 fills the clear low k bits. */
  lemma {:induction false} OrLow(s: nat, x: nat, k: nat)
    requires s % Pow2(k) == 0 && x < Pow2(k)
    ensures Or(s, x) == s + x
    decreases k
  {
    if k == 0 {
      OrZero(s);
    } else {
      var m := Pow2(k - 1);
      ModDouble(s, m);
      OrLow(s / 2, x / 2, k - 1);
    }
  }

  lemma {:induction false} OrZero(s: nat)
    ensures Or(s, 0) == s
  {
    if s > 0 {
      OrZero(s / 2);
    }
  }

  // ---------------------------------------------------------------- multiples

  lemma DivMod(a: nat, m: nat)
    requires m > 0
    ensures a == (a / m) * m + a % m && a % m <= a && a % m < m
  {
    assert a / m >= 0;
    assert (a / m) * m >= 0;
  }

  /** a rounded down to a multiple of m. */
  function RoundDown(a: nat, m: nat): (r: nat)
    requires m > 0
    ensures r <= a < r + m && r % m == 0
  {
    DivMod(a, m);
    ModIs((a / m) * m, m, a / m, 0);
    (a / m) * m
  }

  lemma RoundDownIs(a: nat, m: nat)
    requires m > 0
    ensures RoundDown(a, m) == a - a % m
  {
    DivMod(a, m);
  }

  lemma MulLe(x: nat, y: nat, m: nat)
    requires x <= y
    ensures x * m <= y * m
  {
  }

  lemma MulStep(x: nat, y: nat, m: nat)
    requires x < y
    ensures x * m + m <= y * m
  {
    assert (x + 1) * m == x * m + m;
    MulLe(x + 1, y, m);
  }

  /** Multiples of m are a whole step apart or equal. */
  lemma MultipleGap(a: nat, b: nat, m: nat)
    requires m > 0 && a % m == 0 && b % m == 0 && a < b
    ensures a + m <= b
  {
    DivMod(a, m);
    DivMod(b, m);
    var x, y := a / m, b / m;
    if y <= x {
      MulLe(y, x, m);
    } else {
      MulStep(x, y, m);
    }
  }

  lemma MultipleOfMultiple(a: nat, k: nat, m: nat)
    requires k > 0 && m > 0 && k * m > 0 && a % (k * m) == 0
    ensures a % m == 0 && (a + k * m) % m == 0
  {
    var q := a / (k * m);
    DivMod(a, k * m);
    assert q * (k * m) == (q * k) * m;
    ModIs(a, m, q * k, 0);
    assert a + k * m == (q * k + k) * m;
    ModIs(a + k * m, m, q * k + k, 0);
  }

  /** A multiple of m is, modulo 2m, 0 or m. */
  lemma EvenOrOdd(a: nat, m: nat)
    requires m > 0 && a % m == 0
    ensures a == RoundDown(a, 2 * m) || a == RoundDown(a, 2 * m) + m
  {
    var r := RoundDown(a, 2 * m);
    MultipleOfMultiple(r, 2, m);
    if a > r {
      MultipleGap(r, a, m);
      if a > r + m {
        MultipleGap(r + m, a, m) by { PlusStep(r, m); }
      }
    }
  }

  lemma PlusStep(a: nat, m: nat)
    requires m > 0 && a % m == 0
    ensures (a + m) % m == 0
  {
    DivMod(a, m);
    assert a + m == (a / m + 1) * m;
    ModIs(a + m, m, a / m + 1, 0);
  }
}
