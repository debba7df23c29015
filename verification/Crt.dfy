/** The Chinese Remainder Theorem for any list of pairwise coprime moduli, and the
    summation that computes the common solution.
 */
module Crt {
  import opened NumberTheory

  datatype Residue = Residue(modulus: int, residue: int)

  /** A Python dict from modulus to residue, as its items in insertion order. */
  type Dict = seq<Residue>

  predicate DistinctModuli(d: Dict)
  {
    forall i, j :: 0 <= i < j < |d| ==> d[i].modulus != d[j].modulus
  }

  predicate InRange(d: Dict)
  {
    forall i :: 0 <= i < |d| ==> 0 <= d[i].residue < d[i].modulus
  }

  ghost predicate PairwiseCoprime(d: Dict)
    requires InRange(d)
  {
    forall i, j :: 0 <= i < j < |d| ==> Coprime(d[i].modulus, d[j].modulus)
  }

  /** `x` leaves every listed residue. */
  ghost predicate Matches(d: Dict, x: int)
    requires InRange(d)
  {
    forall i :: 0 <= i < |d| ==> x % d[i].modulus == d[i].residue
  }

  function Product(d: Dict): (p: nat)
    requires InRange(d)
    ensures 0 < p
  {
    if d == [] then 1 else
      var p := Product(d[..|d| - 1]);
      assert p * d[|d| - 1].modulus > 0;
      p * d[|d| - 1].modulus
  }

  function Without(d: Dict, j: nat): Dict
    requires j < |d|
  {
    d[..j] + d[j + 1..]
  }

  /** A number coprime to every modulus is coprime to their product. */
  lemma {:induction false} ProductCoprime(d: Dict, m: nat)
    requires InRange(d)
    requires forall i :: 0 <= i < |d| ==> Coprime(d[i].modulus, m)
    ensures Coprime(Product(d), m)
  {
    if d == [] {
      CoprimeIntro(1, m, 1, 0);
    } else {
      var n := |d| - 1;
      ProductCoprime(d[..n], m);
      CoprimeProduct(Product(d[..n]), d[n].modulus, m);
    }
  }

  /** What every modulus divides, the product divides. */
  lemma {:induction false} ProductDivides(d: Dict, x: int)
    requires InRange(d) && PairwiseCoprime(d)
    requires forall i :: 0 <= i < |d| ==> Divides(d[i].modulus, x)
    ensures Divides(Product(d), x)
  {
    if d == [] {
      DividesIntro(1, x, x);
    } else {
      var n := |d| - 1;
      ProductDivides(d[..n], x);
      ProductCoprime(d[..n], d[n].modulus);
      CoprimeDivisors(Product(d[..n]), d[n].modulus, x);
    }
  }

  lemma {:induction false} MemberDivides(d: Dict, i: nat)
    requires InRange(d) && i < |d|
    ensures Divides(d[i].modulus, Product(d))
  {
    var n := |d| - 1;
    if i == n {
      DividesIntro(d[i].modulus, Product(d[..n]), Product(d));
    } else {
      MemberDivides(d[..n], i);
      DividesScale(d[i].modulus, Product(d[..n]), d[n].modulus);
    }
  }

  lemma {:induction false} ProductWithout(d: Dict, j: nat)
    requires InRange(d) && j < |d|
    ensures Product(d) == d[j].modulus * Product(Without(d, j))
  {
    var n := |d| - 1;
    if j == n {
      assert Without(d, j) == d[..n];
    } else {
      var w := Without(d, j);
      assert w[..|w| - 1] == Without(d[..n], j);
      ProductWithout(d[..n], j);
      var a, b, c := d[j].modulus, Product(w[..|w| - 1]), d[n].modulus;
      assert Product(w) == b * c;
      assert (a * b) * c == a * (b * c);
    }
  }

  /** At most one number below the product leaves all the residues. */
  lemma SolutionUnique(d: Dict, x: int, y: int)
    requires InRange(d) && PairwiseCoprime(d)
    requires Matches(d, x) && Matches(d, y)
    requires 0 <= x < Product(d) && 0 <= y < Product(d)
    ensures x == y
  {
    forall i | 0 <= i < |d| ensures Divides(d[i].modulus, x - y) {
      Congruent(x, y, d[i].modulus);
    }
    ProductDivides(d, x - y);
    DividesSmall(Product(d), x - y);
  }

  /** Reducing modulo the product keeps all the residues. */
  lemma ReduceMatches(d: Dict, x: int)
    requires InRange(d) && Matches(d, x)
    ensures Matches(d, x % Product(d))
  {
    var p := Product(d);
    assert x == p * (x / p) + x % p;
    DividesIntro(p, x / p, x - x % p);
    forall i | 0 <= i < |d| ensures (x % p) % d[i].modulus == d[i].residue {
      MemberDivides(d, i);
      DividesScale(d[i].modulus, p, x / p);
      Congruent(x, x % p, d[i].modulus);
    }
  }

  lemma CofactorCoprime(d: Dict, j: nat)
    requires InRange(d) && PairwiseCoprime(d) && j < |d|
    ensures Product(d) / d[j].modulus == Product(Without(d, j))
    ensures Coprime(Product(Without(d, j)), d[j].modulus)
  {
    var w := Without(d, j);
    ProductWithout(d, j);
    RemainderUnique(Product(d), d[j].modulus, Product(w), 0);
    forall i | 0 <= i < |w| ensures Coprime(w[i].modulus, d[j].modulus) {
      if i >= j { CoprimeSymmetric(d[j].modulus, d[i + 1].modulus); }
    }
    ProductCoprime(w, d[j].modulus);
  }

  lemma CofactorDivides(d: Dict, j: nat, i: nat)
    requires InRange(d) && j < |d| && i < |d| && i != j
    ensures Divides(d[i].modulus, Product(Without(d, j)))
  {
    MemberDivides(Without(d, j), if i < j then i else i - 1);
  }

  /** A residue times a number and that number's inverse is the residue again. */
  lemma ScaledInverse(r: int, p: nat, inverse: int, m: nat)
    requires 0 <= r < m && IsInverse(p, m, inverse)
    ensures (r * p * inverse) % m == r
  {
    Congruent(p * inverse, 1, m);
    DividesScale(m, p * inverse - 1, r);
    assert r * p * inverse - r == r * (p * inverse - 1);
    Congruent(r * p * inverse, r, m);
    RemainderUnique(r, m, 0, r);
  }

  /** The j-th term of the sum vanishes modulo all the other moduli. */
  lemma TermVanishes(d: Dict, j: nat, inverse: int)
    requires InRange(d) && PairwiseCoprime(d) && j < |d|
    ensures forall i :: 0 <= i < |d| && i != j ==>
              Divides(d[i].modulus, d[j].residue * Product(Without(d, j)) * inverse)
  {
    var r, p := d[j].residue, Product(Without(d, j));
    forall i | 0 <= i < |d| && i != j ensures Divides(d[i].modulus, r * p * inverse) {
      CofactorDivides(d, j, i);
      DividesScale(d[i].modulus, p, r);
      DividesScale(d[i].modulus, r * p, inverse);
    }
  }

  /** Extends a partial sum by one term. */
  lemma AddTerm(d: Dict, j: nat, value: int, term: int)
    requires InRange(d) && j < |d|
    requires forall i :: 0 <= i < j ==> value % d[i].modulus == d[i].residue
    requires forall i :: j <= i < |d| ==> Divides(d[i].modulus, value)
    requires forall i :: 0 <= i < |d| && i != j ==> Divides(d[i].modulus, term)
    requires term % d[j].modulus == d[j].residue
    ensures forall i :: 0 <= i <= j ==> (value + term) % d[i].modulus == d[i].residue
    ensures forall i :: j < i < |d| ==> Divides(d[i].modulus, value + term)
  {
    forall i | 0 <= i <= j ensures (value + term) % d[i].modulus == d[i].residue {
      if i < j {
        AddMultiple(value, term, d[i].modulus);
      } else {
        AddMultiple(term, value, d[j].modulus);
      }
    }
    forall i | j < i < |d| ensures Divides(d[i].modulus, value + term) {
      DividesSum(d[i].modulus, value, term);
    }
  }

  /** From a number that matches all residues but the last to one that matches them all. */
  lemma Extended(d: Dict, y: int) returns (v: int)
    requires InRange(d) && PairwiseCoprime(d) && d != [] && Matches(d[..|d| - 1], y)
    ensures forall i :: 0 <= i < |d| ==> v % d[i].modulus == d[i].residue
  {
    var n := |d| - 1;
    var m, r, p := d[n].modulus, d[n].residue, Product(d[..n]);
    ProductCoprime(d[..n], m);
    var inverse := ModInverse(p, m);
    var c := (r - y) % m;
    var t := c * p * inverse;
    ScaledInverse(c, p, inverse, m);
    assert t == p * (c * inverse);
    v := y + t;
    forall i | 0 <= i < n ensures v % d[i].modulus == d[i].residue {
      assert d[..n][i] == d[i];
      MemberDivides(d[..n], i);
      DividesScale(d[i].modulus, p, c * inverse);
      AddMultiple(y, t, d[i].modulus);
    }
    LastResidue(y, t, r, m);
  }

  lemma LastResidue(y: int, t: int, r: int, m: nat)
    requires 0 <= r < m && t % m == (r - y) % m
    ensures (y + t) % m == r
  {
    Congruent(t, r - y, m);
    assert (y + t) - r == t - (r - y);
    Congruent(y + t, r, m);
    RemainderUnique(r, m, 0, r);
  }

  /** Every combination of residues has a common solution below the product, built one modulus at a time. */
  lemma {:induction false} SolutionExists(d: Dict) returns (x: int)
    requires InRange(d) && PairwiseCoprime(d)
    ensures 0 <= x < Product(d) && Matches(d, x)
  {
    if d == [] {
      x := 0;
    } else {
      var y := SolutionExists(d[..|d| - 1]);
      var v := Extended(d, y);
      x := v % Product(d);
      ReduceMatches(d, v);
    }
  }

  lemma SomeSolution(d: Dict)
    requires InRange(d) && PairwiseCoprime(d)
    ensures exists x :: 0 <= x < Product(d) && Matches(d, x)
  {
    var x := SolutionExists(d);
  }

  /** The common solution below the product. */
  ghost function Solution(d: Dict): (x: int)
    requires InRange(d) && PairwiseCoprime(d)
    ensures 0 <= x < Product(d) && Matches(d, x)
  {
    SomeSolution(d);
    var x :| 0 <= x < Product(d) && Matches(d, x);
    x
  }

  /** The summation: for any pairwise coprime moduli the result is the one and only
      number below their product that leaves every residue. */
  method Combine(d: Dict) returns (value: int)
    requires InRange(d) && PairwiseCoprime(d)
    ensures value == Solution(d)
  {
    var modulusProduct := 1;
    for i := 0 to |d|
      invariant modulusProduct == Product(d[..i])
    {
      assert d[..i + 1][..i] == d[..i];
      modulusProduct := modulusProduct * d[i].modulus;
    }
    assert d[..|d|] == d;

    value := 0;
    forall i | 0 <= i < |d| ensures Divides(d[i].modulus, 0) { DividesIntro(d[i].modulus, 0, 0); }
    for j := 0 to |d|
      invariant forall i :: 0 <= i < j ==> value % d[i].modulus == d[i].residue
      invariant forall i :: j <= i < |d| ==> Divides(d[i].modulus, value)
    {
      var partial := modulusProduct / d[j].modulus;
      CofactorCoprime(d, j);
      var inverse := ModInverse(partial, d[j].modulus);
      ScaledInverse(d[j].residue, partial, inverse, d[j].modulus);
      TermVanishes(d, j, inverse);
      AddTerm(d, j, value, d[j].residue * partial * inverse);
      value := value + d[j].residue * partial * inverse;
    }

    ReduceMatches(d, value);
    value := value % modulusProduct;
    SolutionUnique(d, Solution(d), value);
  }

  /** Residues taken from one number determine it up to the product of the moduli. */
  lemma SolutionOf(d: Dict, v: int)
    requires InRange(d) && PairwiseCoprime(d) && Matches(d, v)
    ensures Solution(d) == v % Product(d)
  {
    ReduceMatches(d, v);
    SolutionUnique(d, Solution(d), v % Product(d));
  }
}
