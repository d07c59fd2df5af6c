// Bitwise operations on the binary digits of natural numbers.
module BitArithmetic {
  function Pow2(n: nat): (p: nat)
    ensures p > 0
  {
    if n == 0 then 1 else 2 * Pow2(n - 1)
  }

  function BothSet(a: nat, b: nat): nat {
    if a % 2 == 1 && b % 2 == 1 then 1 else 0
  }

  function And(a: nat, b: nat): nat
    decreases a
  {
    if a == 0 then 0 else BothSet(a, b) + 2 * And(a / 2, b / 2)
  }

  function Or(a: nat, b: nat): nat
    decreases a + b
  {
    if a == 0 && b == 0 then 0
    else (if a % 2 == 1 || b % 2 == 1 then 1 else 0) + 2 * Or(a / 2, b / 2)
  }

  // The integer an n-bit two's-complement pattern stands for.
  function Signed(pattern: nat, n: nat): int
    requires n > 0
  {
    if pattern < Pow2(n - 1) then pattern else pattern - Pow2(n)
  }

  lemma {:induction false} Pow2Add(m: nat, n: nat)
    ensures Pow2(m + n) == Pow2(m) * Pow2(n)
  {
    if m > 0 {
      Pow2Add(m - 1, n);
    }
  }

  lemma Pow2Grows(m: nat, n: nat)
    requires m <= n
    ensures Pow2(m) <= Pow2(n)
    ensures m < n ==> 2 * Pow2(m) <= Pow2(n)
  {
  }

  lemma MulBounds(m: int, d: int)
    requires m >= 1
    ensures d >= 0 ==> m * d >= d
    ensures d >= 1 ==> m * d >= m
    ensures d <= -1 ==> m * d <= -m
  {
  }

  // q and r are the quotient and the remainder.
  lemma DivModUnique(x: int, m: nat, q: int, r: int)
    requires m > 0 && x == m * q + r && 0 <= r < m
    ensures x / m == q && x % m == r
  {
    var q', r' := x / m, x % m;
    assert x == m * q' + r';
    assert m * (q' - q) == m * q' - m * q;
    MulBounds(m, q' - q);
  }

  // One binary digit at a time.
  lemma ModDoubled(x: int, m: nat)
    requires m > 0
    ensures x % (2 * m) == x % 2 + 2 * ((x / 2) % m)
    ensures x / (2 * m) == (x / 2) / m
  {
    var q, r := (x / 2) / m, (x / 2) % m;
    assert x / 2 == m * q + r;
    assert x == 2 * m * q + (x % 2 + 2 * r) by {
      assert 2 * (m * q) == 2 * m * q;
    }
    DivModUnique(x, 2 * m, q, x % 2 + 2 * r);
  }

  // A larger power of two does not matter under a smaller one.
  lemma {:induction false} ModMod(x: int, m: nat, n: nat)
    requires m <= n
    ensures (x % Pow2(n)) % Pow2(m) == x % Pow2(m)
    decreases m
  {
    if m > 0 {
      var a := x % Pow2(n);
      ModDoubled(x, Pow2(n - 1));
      ModDoubled(x, Pow2(m - 1));
      ModDoubled(a, Pow2(m - 1));
      assert a / 2 == (x / 2) % Pow2(n - 1) && a % 2 == x % 2;
      ModMod(x / 2, m - 1, n - 1);
    }
  }

  // Setting the next bit of a block of ones.
  lemma {:induction false} OrNextBit(n: nat)
    ensures Or(Pow2(n) - 1, Pow2(n)) == Pow2(n + 1) - 1
  {
    if n == 0 {
      assert Or(0, 1) == 1 + 2 * Or(0, 0);
    } else {
      OrNextBit(n - 1);
      var a, b := Pow2(n) - 1, Pow2(n);
      assert a == 2 * (Pow2(n - 1) - 1) + 1 && b == 2 * Pow2(n - 1);
    }
  }

  // A block of ones keeps the low digits.
  lemma {:induction false} AndOnes(a: nat, n: nat)
    ensures And(a, Pow2(n) - 1) == a % Pow2(n)
    decreases n
  {
    if n == 0 {
      AndZero(a);
    } else {
      ModDoubled(a, Pow2(n - 1));
      AndOnes(a / 2, n - 1);
      var b := Pow2(n) - 1;
      assert b == 2 * (Pow2(n - 1) - 1) + 1;
      assert b / 2 == Pow2(n - 1) - 1 && b % 2 == 1;
    }
  }

  lemma {:induction false} AndZero(a: nat)
    ensures And(a, 0) == 0
  {
    if a > 0 {
      AndZero(a / 2);
    }
  }

  // The low digits of a conjunction are the conjunction of the low digits.
  lemma {:induction false} AndMod(a: nat, b: nat, n: nat)
    ensures And(a, b) % Pow2(n) == And(a % Pow2(n), b % Pow2(n))
    decreases n
  {
    if n > 0 {
      AndMod(a / 2, b / 2, n - 1);
      AndModDoubled(a, b, Pow2(n - 1));
    }
  }

  lemma AndModDoubled(a: nat, b: nat, m: nat)
    requires m > 0 && And(a / 2, b / 2) % m == And((a / 2) % m, (b / 2) % m)
    ensures And(a, b) % (2 * m) == And(a % (2 * m), b % (2 * m))
  {
    var x, y := a % (2 * m), b % (2 * m);
    ModDoubled(a, m);
    ModDoubled(b, m);
    ModDoubled(And(a, b), m);
    AndDigits(a, b);
    AndDigits(x, y);
    assert x % 2 == a % 2 && x / 2 == (a / 2) % m;
    assert y % 2 == b % 2 && y / 2 == (b / 2) % m;
  }

  lemma AndDigits(a: nat, b: nat)
    ensures And(a, b) % 2 == BothSet(a, b) && And(a, b) / 2 == And(a / 2, b / 2)
    ensures And(a, b) == BothSet(a, b) + 2 * And(a / 2, b / 2)
  {
  }

  // Two's complement: the one integer in range congruent to the pattern.
  lemma SignedExactly(pattern: nat, n: nat, x: int)
    requires n > 0 && pattern < Pow2(n)
    ensures x == Signed(pattern, n) <==> 0 <= x + Pow2(n - 1) && x < Pow2(n - 1) && x % Pow2(n) == pattern
  {
    var m := Pow2(n);
    assert m == 2 * Pow2(n - 1);
    DivModUnique(pattern, m, 0, pattern);
    DivModUnique(pattern - m, m, -1, pattern);
    if 0 <= x < Pow2(n - 1) {
      DivModUnique(x, m, 0, x);
    } else if x < 0 <= x + Pow2(n - 1) {
      DivModUnique(x, m, -1, x + m);
    }
  }
}
