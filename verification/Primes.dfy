/** Divisors, primes and products, as far as factorize() needs them. */
module Primes {

  ghost predicate Times(d: nat, k: nat, n: nat)
  {
    n == d * k
  }

  ghost predicate Divides(d: nat, n: nat)
  {
    exists k: nat :: Times(d, k, n)
  }

  /** No number from 2 up to, not including, f divides n. */
  ghost predicate NoneBelow(n: nat, f: nat)
  {
    forall d :: 2 <= d < f ==> !Divides(d, n)
  }

  ghost predicate Prime(n: nat)
  {
    n >= 2 && NoneBelow(n, n)
  }

  lemma AtLeast(d: nat, x: int)
    requires x >= 1
    ensures d * x >= d
  {
  }

  lemma QuotientUnique(d: nat, q: int, r: nat, q': int, r': nat)
    requires d * q + r == d * q' + r' && r < d && r' < d
    ensures q == q' && r == r'
  {
    assert d * (q - q') == r' - r;
    if q > q' {
      AtLeast(d, q - q');
    } else if q < q' {
      AtLeast(d, q' - q);
    }
  }

  lemma Euclid(n: nat, d: nat)
    requires d > 0
    ensures n == d * (n / d) + n % d && n % d < d
  {
  }

  lemma DividesByMod(d: nat, n: nat)
    requires d > 0
    ensures Divides(d, n) <==> n % d == 0
    ensures n % d == 0 ==> Times(d, n / d, n)
  {
    Euclid(n, d);
    if Divides(d, n) {
      var k: nat :| Times(d, k, n);
      QuotientUnique(d, k, 0, n / d, n % d);
    }
    if n % d == 0 {
      assert Times(d, n / d, n);
    }
  }

  lemma DividesTrans(a: nat, b: nat, c: nat)
    requires Divides(a, b) && Divides(b, c)
    ensures Divides(a, c)
  {
    var i: nat :| Times(a, i, b);
    var j: nat :| Times(b, j, c);
    assert c == a * (i * j);
    assert Times(a, i * j, c);
  }

  /** The least divisor of a number is prime. */
  lemma LeastIsPrime(n: nat, f: nat)
    requires f >= 2 && Divides(f, n) && NoneBelow(n, f)
    ensures Prime(f)
  {
    forall d | 2 <= d < f
      ensures !Divides(d, f)
    {
      if Divides(d, f) {
        DividesTrans(d, f, n);
        assert false;
      }
    }
  }

  /** Dividing keeps small divisors out. */
  lemma NoneBelowQuotient(n: nat, m: nat, f: nat)
    requires NoneBelow(n, f) && Divides(m, n)
    ensures NoneBelow(m, f)
  {
    forall d | 2 <= d < f
      ensures !Divides(d, m)
    {
      if Divides(d, m) {
        DividesTrans(d, m, n);
        assert false;
      }
    }
  }

  /** A number without divisors up to its root is prime. */
  lemma RootBound(n: nat, s: nat)
    requires n >= 2 && (s + 1) * (s + 1) > n && NoneBelow(n, s + 1)
    ensures Prime(n)
  {
    forall d | 2 <= d < n
      ensures !Divides(d, n)
    {
      if Divides(d, n) {
        var k: nat :| Times(d, k, n);
        assert k != 0 && k != 1;
        assert Times(k, d, n);
        assert Divides(k, n) && Divides(d, n);
        assert d > s && k > s;
        MulGrows(s + 1, d, s + 1, k);
        assert false;
      }
    }
  }

  lemma MulGrows(a: nat, b: nat, c: nat, d: nat)
    requires a <= b && c <= d
    ensures a * c <= b * d
  {
    assert a * c <= b * c;
    assert b * c <= b * d;
  }

  // ---------- powers and products ----------

  function Pow(b: nat, e: nat): nat
  {
    if e == 0 then 1 else b * Pow(b, e - 1)
  }

  function Product(s: seq<nat>): nat
  {
    if s == [] then 1 else Product(s[..|s| - 1]) * s[|s| - 1]
  }

  function Copies(n: nat, k: nat): (s: seq<nat>)
    ensures |s| == k && forall i :: 0 <= i < k ==> s[i] == n
  {
    seq(k, _ => n)
  }

  lemma {:induction false} ProductConcat(s: seq<nat>, t: seq<nat>)
    ensures Product(s + t) == Product(s) * Product(t)
    decreases |t|
  {
    if t == [] {
      assert s + t == s;
    } else {
      var n := |t| - 1;
      assert (s + t)[..|s + t| - 1] == s + t[..n];
      ProductConcat(s, t[..n]);
      MulAssoc(Product(s), Product(t[..n]), t[n]);
    }
  }

  lemma MulAssoc(a: nat, b: nat, c: nat)
    ensures (a * b) * c == a * (b * c)
  {
  }

  lemma {:induction false} ProductCopies(n: nat, k: nat)
    ensures Product(Copies(n, k)) == Pow(n, k)
  {
    if k > 0 {
      assert Copies(n, k)[..k - 1] == Copies(n, k - 1);
      ProductCopies(n, k - 1);
    }
  }

  lemma {:induction false} PowMul(a: nat, b: nat, e: nat)
    ensures Pow(a * b, e) == Pow(a, e) * Pow(b, e)
  {
    if e > 0 {
      PowMul(a, b, e - 1);
      Swap(a, b, Pow(a, e - 1), Pow(b, e - 1));
    }
  }

  lemma Swap(a: nat, b: nat, x: nat, y: nat)
    ensures (a * b) * (x * y) == (a * x) * (b * y)
  {
    assert (a * b) * (x * y) == a * (b * (x * y)) == a * ((b * x) * y) == a * ((x * b) * y) == a * (x * (b * y));
  }

  /** A square's powers are its root's doubled powers. */
  lemma {:induction false} PowSquare(s: nat, e: nat)
    ensures Pow(s * s, e) == Pow(s, 2 * e)
  {
    if e > 0 {
      PowSquare(s, e - 1);
      assert Pow(s, 2 * e) == s * (s * Pow(s, 2 * e - 2));
      MulAssoc(s, s, Pow(s, 2 * e - 2));
    }
  }

  lemma {:induction false} PowTwo(n: nat, e: nat)
    requires n >= 2
    ensures Pow(n, e) >= Pow(2, e)
  {
    if e > 0 {
      PowTwo(n, e - 1);
      MulGrows(2, n, Pow(2, e - 1), Pow(n, e - 1));
    }
  }

  lemma {:induction false} PowMonotone(a: nat, b: nat)
    requires a <= b
    ensures Pow(2, a) <= Pow(2, b)
    decreases b
  {
    if a < b {
      PowMonotone(a, b - 1);
    }
  }

  predicate Sorted(s: seq<nat>)
  {
    forall i, j :: 0 <= i < j < |s| ==> s[i] <= s[j]
  }

  /** s and then t: what is left is at least as large as what was printed. */
  lemma SortedConcat(s: seq<nat>, t: seq<nat>, f: nat)
    requires Sorted(s) && Sorted(t) && (forall i :: 0 <= i < |s| ==> s[i] <= f)
        && (forall i :: 0 <= i < |t| ==> f <= t[i])
    ensures Sorted(s + t)
  {
  }
}
