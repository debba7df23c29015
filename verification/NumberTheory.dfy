/** Elementary number theory behind the residue transport: congruences, Bezout
    coefficients, modular inverses and the product of a modulus list.
 */
module NumberTheory {

  /** No integer above one divides both arguments. */
  ghost predicate Coprime(a: nat, b: nat)
  {
    forall d: nat :: 1 < d ==> !(Divides(d, a) && Divides(d, b))
  }

  ghost predicate Divides(d: int, n: int)
  {
    exists k: int :: Multiple(d, k, n)
  }

  ghost predicate Multiple(d: int, k: int, n: int)
  {
    n == d * k
  }

  lemma DividesIntro(d: int, k: int, n: int)
    requires n == d * k
    ensures Divides(d, n)
  {
    assert Multiple(d, k, n);
  }

  lemma DividesElim(d: int, n: int) returns (k: int)
    requires Divides(d, n)
    ensures n == d * k
  {
    k :| Multiple(d, k, n);
  }

  lemma DividesSum(d: int, a: int, b: int)
    requires Divides(d, a) && Divides(d, b)
    ensures Divides(d, a + b) && Divides(d, a - b)
  {
    var k := DividesElim(d, a);
    var l := DividesElim(d, b);
    assert d * (k + l) == d * k + d * l;
    assert d * (k - l) == d * k - d * l;
    DividesIntro(d, k + l, a + b);
    DividesIntro(d, k - l, a - b);
  }

  lemma DividesScale(d: int, a: int, c: int)
    requires Divides(d, a)
    ensures Divides(d, a * c) && Divides(d, c * a)
  {
    var k := DividesElim(d, a);
    assert (d * k) * c == d * (k * c);
    DividesIntro(d, k * c, a * c);
    assert c * a == a * c;
  }

  /** The remainder of a division is determined by the equation it solves. */
  lemma RemainderUnique(a: int, m: int, q: int, r: int)
    requires 0 < m && 0 <= r < m
    requires a == m * q + r
    ensures a % m == r && a / m == q
  {
    var d := a / m - q;
    assert m * (a / m) + a % m == a;
    assert m * d == m * (a / m) - m * q;
    assert m * d == r - a % m;
    assert d >= 1 ==> m * d >= m;
    assert d <= -1 ==> m * d <= -m;
  }

  /** Equal remainders mean a difference that is a multiple of the modulus. */
  lemma Congruent(a: int, b: int, m: int)
    requires 0 < m
    ensures a % m == b % m <==> Divides(m, a - b)
  {
    assert a == m * (a / m) + a % m;
    assert b == m * (b / m) + b % m;
    if a % m == b % m {
      assert m * (a / m - b / m) == m * (a / m) - m * (b / m);
      DividesIntro(m, a / m - b / m, a - b);
    }
    if Divides(m, a - b) {
      var k := DividesElim(m, a - b);
      assert m * (k + b / m) == m * k + m * (b / m);
      RemainderUnique(a, m, k + b / m, b % m);
    }
  }

  /** Adding a multiple of the modulus leaves the remainder alone. */
  lemma AddMultiple(a: int, b: int, m: int)
    requires 0 < m && Divides(m, b)
    ensures (a + b) % m == a % m
  {
    assert (a + b) - a == b;
    Congruent(a + b, a, m);
  }

  lemma DividesSmall(d: int, n: int)
    requires 0 < d && Divides(d, n) && -d < n < d
    ensures n == 0
  {
  }

  /** Euclid's algorithm run backwards: a linear combination that equals one. */
  lemma {:induction false} Bezout(a: nat, b: nat) returns (x: int, y: int)
    requires Coprime(a, b)
    ensures a * x + b * y == 1
    decreases b
  {
    if b == 0 {
      DividesIntro(a, 1, a);
      DividesIntro(a, 0, 0);
      if a == 0 {
        DividesIntro(2, 0, 0);
        assert false;
      }
      x, y := 1, 0;
    } else {
      var r := a % b;
      var q := a / b;
      assert a == b * q + r;
      forall d: nat | 1 < d ensures !(Divides(d, b) && Divides(d, r)) {
        if Divides(d, b) && Divides(d, r) {
          DividesScale(d, b, q);
          DividesSum(d, b * q, r);
        }
        assert !(Divides(d, a) && Divides(d, b));
      }
      var u, v := Bezout(b, r);
      x, y := v, u - q * v;
      calc {
        a * x + b * y;
        (b * q + r) * v + b * (u - q * v);
        {
          assert (b * q + r) * v == b * q * v + r * v;
          assert b * (u - q * v) == b * u - b * (q * v);
          assert b * q * v == b * (q * v);
        }
        b * u + r * v;
        1;
      }
    }
  }

  /** A linear combination equal to one rules out every larger common divisor. */
  lemma CoprimeIntro(a: nat, b: nat, x: int, y: int)
    requires a * x + b * y == 1
    ensures Coprime(a, b)
  {
    forall d: nat | 1 < d ensures !(Divides(d, a) && Divides(d, b)) {
      if Divides(d, a) && Divides(d, b) {
        DividesScale(d, a, x);
        DividesScale(d, b, y);
        DividesSum(d, a * x, b * y);
        DividesSmall(d, 1);
      }
    }
  }

  lemma CoprimeSymmetric(a: nat, b: nat)
    requires Coprime(a, b)
    ensures Coprime(b, a)
  {
  }

  /** Coprimality with a modulus is kept by products. */
  lemma CoprimeProduct(a: nat, b: nat, m: nat)
    requires Coprime(a, m) && Coprime(b, m)
    ensures Coprime(a * b, m)
  {
    var x, y := Bezout(a, m);
    var u, v := Bezout(b, m);
    var w := a * x * v + y * b * u + m * y * v;
    calc {
      1;
      (a * x + m * y) * (b * u + m * v);
      {
        assert (a * x + m * y) * (b * u + m * v)
            == (a * x) * (b * u) + (a * x) * (m * v) + (m * y) * (b * u) + (m * y) * (m * v);
      }
      (a * x) * (b * u) + (a * x) * (m * v) + (m * y) * (b * u) + (m * y) * (m * v);
      { assert (a * x) * (b * u) == (a * b) * (x * u);
        assert (a * x) * (m * v) == m * (a * x * v);
        assert (m * y) * (b * u) == m * (y * b * u);
        assert (m * y) * (m * v) == m * (m * y * v); }
      (a * b) * (x * u) + m * (a * x * v) + m * (y * b * u) + m * (m * y * v);
      { assert m * w == m * (a * x * v) + m * (y * b * u) + m * (m * y * v); }
      (a * b) * (x * u) + m * w;
    }
    CoprimeIntro(a * b, m, x * u, w);
  }

  lemma Rearranged(a: int, b: int, k: int, l: int, x: int, y: int)
    ensures (b * l) * (a * x) + (a * k) * (b * y) == (a * b) * (l * x + k * y)
  {
  }

  /** Two coprime divisors of a number divide it together. */
  lemma CoprimeDivisors(a: nat, b: nat, n: int)
    requires Coprime(a, b) && Divides(a, n) && Divides(b, n)
    ensures Divides(a * b, n)
  {
    var x, y := Bezout(a, b);
    var k := DividesElim(a, n);
    var l := DividesElim(b, n);
    Rearranged(a, b, k, l, x, y);
    assert n * (a * x + b * y) == n * (a * x) + n * (b * y);
    DividesIntro(a * b, l * x + k * y, n);
  }

  /** `i` undoes multiplication by `a` modulo `m`. */
  predicate IsInverse(a: int, m: nat, i: int)
    requires 0 < m
  {
    0 <= i < m && (a * i) % m == 1 % m
  }

  /** Python's `pow(a, -1, m)`: the inverse of `a` modulo `m`. */
  function ModInverse(a: nat, m: nat): (i: nat)
    requires 0 < m && Coprime(a, m)
    ensures IsInverse(a, m, i)
  {
    InverseExists(a, m);
    InverseFrom(a, m, 0)
  }

  /** The first inverse at or after `i`. */
  function InverseFrom(a: nat, m: nat, i: nat): (r: nat)
    requires 0 < m && i < m
    requires exists j :: i <= j < m && IsInverse(a, m, j)
    ensures IsInverse(a, m, r)
    decreases m - i
  {
    if IsInverse(a, m, i) then i else InverseFrom(a, m, i + 1)
  }

  lemma InverseExists(a: nat, m: nat)
    requires 0 < m && Coprime(a, m)
    ensures exists i :: 0 <= i < m && IsInverse(a, m, i)
  {
    var x, y := Bezout(a, m);
    var i := x % m;
    assert x == m * (x / m) + i;
    assert a * x == a * (m * (x / m)) + a * i by {
      assert a * (m * (x / m) + i) == a * (m * (x / m)) + a * i;
    }
    assert a * (m * (x / m)) == m * (a * (x / m));
    var k := -(a * (x / m)) - y;
    assert m * k == -(m * (a * (x / m))) - m * y;
    assert a * i - 1 == m * k;
    DividesIntro(m, k, a * i - 1);
    Congruent(a * i, 1, m);
    assert IsInverse(a, m, i);
  }

  /** An inverse exists exactly for coprime arguments. */
  lemma InverseExact(a: nat, m: nat)
    requires 0 < m
    ensures (exists i :: IsInverse(a, m, i)) <==> Coprime(a, m)
  {
    if Coprime(a, m) {
      InverseExists(a, m);
    }
    if i :| IsInverse(a, m, i) {
      Congruent(a * i, 1, m);
      var k := DividesElim(m, a * i - 1);
      CoprimeIntro(a, m, i, -k);
    }
  }
}
