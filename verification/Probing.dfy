/** Double hashing: why a probe sequence visits every slot of a table of prime size. */
module Probing {
  import opened Primes

  datatype Hash = Hash(start: nat, dec: nat)

  predicate HashOk(h: Hash, p: nat)
  {
    h.start < p && 1 <= h.dec < p
  }

  /** The slot after x. */
  function NextProbe(x: nat, dec: nat, p: nat): (y: nat)
    requires x < p && 1 <= dec < p
    ensures y < p
  {
    if x < dec then x + p - dec else x - dec
  }

  /** The slot at step i. */
  function Probe(h: Hash, p: nat, i: nat): (x: nat)
    requires HashOk(h, p)
    ensures x < p
  {
    if i == 0 then h.start else NextProbe(Probe(h, p, i - 1), h.dec, p)
  }

  /** How often the first i steps have gone around. */
  function Wraps(h: Hash, p: nat, i: nat): nat
    requires HashOk(h, p)
  {
    if i == 0 then 0 else Wraps(h, p, i - 1) + (if Probe(h, p, i - 1) < h.dec then 1 else 0)
  }

  lemma {:induction false} ProbeIs(h: Hash, p: nat, i: nat)
    requires HashOk(h, p)
    ensures Probe(h, p, i) + i * h.dec == h.start + p * Wraps(h, p, i)
  {
    if i > 0 {
      ProbeIs(h, p, i - 1);
      assert i * h.dec == (i - 1) * h.dec + h.dec;
      assert p * (Wraps(h, p, i - 1) + 1) == p * Wraps(h, p, i - 1) + p;
    }
  }

  lemma DividesSum(p: nat, a: nat, b: nat)
    requires Divides(p, a) && Divides(p, b) && a >= b
    ensures Divides(p, a - b)
  {
    var i: nat :| Times(p, i, a);
    var j: nat :| Times(p, j, b);
    assert p * (i - j) == a - b;
    if i < j {
      assert p * i <= p * j;
      assert Times(p, 0, a - b);
    } else {
      assert Times(p, i - j, a - b);
    }
  }

  /** A prime divides no product of two smaller positive numbers. */
  lemma {:induction false} NoSmallProduct(p: nat, d: nat, a: nat)
    requires Prime(p) && 1 <= d < p && 1 <= a < p
    ensures !Divides(p, a * d)
    decreases a
  {
    if Divides(p, a * d) {
      if a == 1 {
        TooSmall(p, d);
      } else {
        var q, r := p / a, p % a;
        Euclid(p, a);
        assert r > 0 by { DividesByMod(a, p); }
        NoSmallProduct(p, d, r);
        RestDivided(p, d, a, q, r);
      }
      assert false;
    }
  }

  lemma TooSmall(p: nat, d: nat)
    requires 1 <= d < p
    ensures !Divides(p, 1 * d)
  {
    DividesByMod(p, d);
  }

  lemma RestDivided(p: nat, d: nat, a: nat, q: nat, r: nat)
    requires p == a * q + r && Divides(p, a * d)
    ensures Divides(p, r * d)
  {
    assert Divides(p, p * d) by { assert Times(p, d, p * d); }
    var k: nat :| Times(p, k, a * d);
    assert q * (a * d) == p * (q * k) by {
      assert q * (p * k) == p * (q * k);
    }
    assert Times(p, q * k, q * (a * d));
    Expand(a, q, r, d);
    DividesSum(p, p * d, q * (a * d));
  }

  lemma Expand(a: nat, q: nat, r: nat, d: nat)
    ensures (a * q + r) * d == q * (a * d) + r * d
  {
    assert (a * q + r) * d == (a * q) * d + r * d;
    assert (a * q) * d == q * (a * d);
  }

  lemma {:induction false} SameSlot(p: nat, d: nat, i: nat, j: nat, x: nat, start: nat, u: int, v: int)
    requires x + i * d == start + p * u && x + j * d == start + p * v && i < j && 1 <= d && 1 <= p
    ensures v > u && Times(p, v - u, (j - i) * d)
  {
    assert (j - i) * d == j * d - i * d;
    assert p * (v - u) == p * v - p * u;
    assert (j - i) * d >= 1 by { MulGrows(1, j - i, 1, d); }
    if v <= u {
      MulGrows(0, u - v, 0, p);
    }
  }

  /** Different steps below p lead to different slots. */
  lemma {:induction false} ProbesDiffer(h: Hash, p: nat, i: nat, j: nat)
    requires HashOk(h, p) && Prime(p) && i < j < p
    ensures Probe(h, p, i) != Probe(h, p, j)
  {
    hide Probe, Wraps, Times;
    ProbeIs(h, p, i);
    ProbeIs(h, p, j);
    NoSmallProduct(p, h.dec, j - i);
    if Probe(h, p, i) == Probe(h, p, j) {
      SameSlot(p, h.dec, i, j, Probe(h, p, i), h.start, Wraps(h, p, i), Wraps(h, p, j));
      assert false;
    }
  }

  // ---------- every slot is visited ----------

  ghost function Visited(h: Hash, p: nat, k: nat): set<nat>
    requires HashOk(h, p)
  {
    set i | 0 <= i < k :: Probe(h, p, i)
  }

  predicate InTable(x: nat, p: nat)
  {
    x < p
  }

  ghost function AllSlots(p: nat): set<nat>
  {
    set x | 0 <= x < p && InTable(x, p)
  }

  lemma {:induction false} SlotsCount(p: nat)
    ensures |AllSlots(p)| == p
  {
    if p == 0 {
      assert AllSlots(0) == {};
    } else {
      SlotsCount(p - 1);
      assert AllSlots(p) == AllSlots(p - 1) + {p - 1};
    }
  }

  lemma {:induction false} VisitedCount(h: Hash, p: nat, k: nat)
    requires HashOk(h, p) && Prime(p) && k <= p
    ensures |Visited(h, p, k)| == k
  {
    if k == 0 {
      assert Visited(h, p, 0) == {};
    } else {
      VisitedCount(h, p, k - 1);
      forall i | 0 <= i < k - 1
        ensures Probe(h, p, i) != Probe(h, p, k - 1)
      {
        ProbesDiffer(h, p, i, k - 1);
      }
      assert Visited(h, p, k) == Visited(h, p, k - 1) + {Probe(h, p, k - 1)};
    }
  }

  lemma SameCount(a: set<nat>, b: set<nat>)
    requires a <= b && |a| == |b|
    ensures a == b
  {
    if x :| x in b && x !in a {
      assert a <= b - {x};
      SubsetCount(a, b - {x});
      assert false;
    }
  }

  lemma {:induction false} SubsetCount(a: set<nat>, b: set<nat>)
    requires a <= b
    ensures |a| <= |b|
    decreases |a|
  {
    if a != {} {
      var x :| x in a;
      SubsetCount(a - {x}, b - {x});
    }
  }

  /** Every slot comes up within p steps. */
  lemma Reaches(h: Hash, p: nat, x: nat) returns (i: nat)
    requires HashOk(h, p) && Prime(p) && x < p
    ensures i < p && Probe(h, p, i) == x
  {
    VisitedCount(h, p, p);
    SlotsCount(p);
    SameCount(Visited(h, p, p), AllSlots(p));
    assert x in Visited(h, p, p);
    i :| 0 <= i < p && Probe(h, p, i) == x;
  }

  // ---------- tables ----------

  /** The slots before x on the way of h are all taken. */
  ghost predicate Rooted(taken: seq<bool>, h: Hash, x: nat)
    requires HashOk(h, |taken|)
  {
    exists i: nat :: i < |taken| && OnWay(taken, h, x, i)
  }

  ghost predicate OnWay(taken: seq<bool>, h: Hash, x: nat, i: nat)
    requires HashOk(h, |taken|)
  {
    Probe(h, |taken|, i) == x && forall j :: 0 <= j < i ==> taken[Probe(h, |taken|, j)]
  }

  /** Taking more slots keeps what is rooted. */
  lemma RootedKept(taken: seq<bool>, taken': seq<bool>, h: Hash, x: nat)
    requires HashOk(h, |taken|) && |taken'| == |taken| && Rooted(taken, h, x)
    requires forall s :: 0 <= s < |taken| && taken[s] ==> taken'[s]
    ensures Rooted(taken', h, x)
  {
    var i: nat :| i < |taken| && OnWay(taken, h, x, i);
    assert OnWay(taken', h, x, i);
  }

  // ---------- the sizes in use ----------

  /** No number from d up to, not including, e divides n. */
  predicate NotDivided(n: nat, d: nat, e: nat)
    decreases e - d
  {
    d >= e || (d > 0 && n % d != 0 && NotDivided(n, d + 1, e))
  }

  lemma {:induction false} NotDividedNone(n: nat, d: nat, e: nat, x: nat)
    requires NotDivided(n, d, e) && d <= x < e
    ensures !Divides(x, n)
    decreases e - d
  {
    if x == d {
      DividesByMod(d, n);
    } else {
      NotDividedNone(n, d + 1, e, x);
    }
  }

  lemma PrimeByTrial(n: nat, s: nat)
    requires n >= 2 && NotDivided(n, 2, s + 1) && (s + 1) * (s + 1) > n
    ensures Prime(n)
  {
    forall d | 2 <= d < s + 1
      ensures !Divides(d, n)
    {
      NotDividedNone(n, 2, s + 1, d);
    }
    RootBound(n, s);
  }

  lemma {:induction false} FurtherOn(n: nat, d: nat, m: nat, e: nat)
    requires NotDivided(n, d, m) && NotDivided(n, m, e) && d <= m
    ensures NotDivided(n, d, e)
    decreases m - d
  {
    if d < m {
      FurtherOn(n, d + 1, m, e);
    }
  }

  lemma Trial16381()
    ensures NotDivided(16381, 2, 72)
  {
    assert NotDivided(16381, 2, 16);
    FurtherOn(16381, 2, 16, 30);
    FurtherOn(16381, 2, 30, 44);
    FurtherOn(16381, 2, 44, 58);
    FurtherOn(16381, 2, 58, 72);
  }

  lemma Prime16381()
    ensures Prime(16381)
  {
    hide Prime;
    assert NotDivided(16381, 72, 86);
    FurtherOn(16381, 72, 86, 100);
    FurtherOn(16381, 72, 100, 114);
    FurtherOn(16381, 72, 114, 128);
    Trial16381();
    FurtherOn(16381, 2, 72, 128);
    PrimeByTrial(16381, 127);
  }

  lemma Trial10007()
    ensures NotDivided(10007, 2, 58)
  {
    assert NotDivided(10007, 2, 16);
    FurtherOn(10007, 2, 16, 30);
    FurtherOn(10007, 2, 30, 44);
    FurtherOn(10007, 2, 44, 58);
  }

  lemma Prime10007()
    ensures Prime(10007)
  {
    hide Prime;
    assert NotDivided(10007, 58, 72);
    FurtherOn(10007, 58, 72, 86);
    FurtherOn(10007, 58, 86, 100);
    FurtherOn(10007, 58, 100, 101);
    Trial10007();
    FurtherOn(10007, 2, 58, 101);
    PrimeByTrial(10007, 100);
  }

  lemma Trial8191()
    ensures NotDivided(8191, 2, 44)
  {
    assert NotDivided(8191, 2, 16);
    FurtherOn(8191, 2, 16, 30);
    FurtherOn(8191, 2, 30, 44);
  }

  lemma Prime8191()
    ensures Prime(8191)
  {
    hide Prime;
    assert NotDivided(8191, 44, 58);
    FurtherOn(8191, 44, 58, 72);
    FurtherOn(8191, 44, 72, 86);
    FurtherOn(8191, 44, 86, 91);
    Trial8191();
    FurtherOn(8191, 2, 44, 91);
    PrimeByTrial(8191, 90);
  }
}
