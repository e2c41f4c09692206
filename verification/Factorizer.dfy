/** factorize(): trial division on the wheel, with a shortcut for perfect squares. */
module Factoring {
  import opened Sums
  import opened Bits
  import opened Primes
  import opened Wheel

  const WIDE := 0x1_0000_0000_0000_0000  // 2^64
  const HALF := 0x1_0000_0000            // 2^32

  // ---------- the packed table ----------

  /** The P and R macros: three bits for half of each of n increments, from bit 1 on. */
  function Pack(s: Steps, n: nat): nat
    requires n <= Len(s)
  {
    if n == 0 then 0 else s.k + 8 * Pack(s.rest, n - 1)
  }

  /** packed_wheel[i]. */
  function PackedWheel(i: nat): nat
    requires i < 23
  {
    Walk0();
    Pack(Drop(From0(), 21 * i), 21)
  }

  lemma {:induction false} PackEven(s: Steps, p: nat, e: nat, n: nat)
    requires Walk(s, p, e) && n <= Len(s)
    ensures Pack(s, n) % 2 == 0
    decreases n
  {
    hide Gap;
    if n > 0 {
      PackEven(s.rest, p + s.k, e, n - 1);
      EvenSum(s.k, Pack(s.rest, n - 1));
    }
  }

  lemma EvenSum(k: nat, r: nat)
    requires k % 2 == 0
    ensures (k + 8 * r) % 2 == 0
  {
  }

  /** v & 0xe is the next increment, v >>= 3 leaves the others and one stray low bit, and zero follows the last. */
  lemma PackStep(s: Steps, p: nat, e: nat, n: nat, v: nat)
    requires Walk(s, p, e) && n <= Len(s) && v - v % 2 == Pack(s, n)
    ensures if n == 0 then v % 16 - v % 2 == 0
            else v % 16 - v % 2 == s.k && s.k > 0 && v / 8 - v / 8 % 2 == Pack(s.rest, n - 1)
  {
    hide Gap;
    if n > 0 {
      PackEven(s.rest, p + s.k, e, n - 1);
      LowField(v, s.k, Pack(s.rest, n - 1));
    }
  }

  lemma LowField(v: nat, k: nat, rest: nat)
    requires v - v % 2 == k + 8 * rest && k < 16 && k % 2 == 0 && rest % 2 == 0
    ensures v % 16 - v % 2 == k && v / 8 - v / 8 % 2 == rest
  {
    var b, h := v % 2, rest / 2;
    assert v == 16 * h + (k + b);
    assert v / 8 == 2 * h + (k + b) / 8;
  }

  /** The steps of entry i that are still packed. */
  lemma Remaining(i: nat, j: nat)
    requires i < 23 && j <= 21
    ensures Len(From0()) == 483
    ensures var s := Drop(From0(), 21 * i + j);
            && Walk(s, PosAt(From0(), 5, 21 * i + j), 2323) && s == Drop(Drop(From0(), 21 * i), j)
            && (j < 21 ==> s.Go? && s.k == Increment(2 + 21 * i + j) && s.rest == Drop(From0(), 21 * i + j + 1))
  {
    hide Walk, From0, Gap;
    Walk0();
    WalkAt(From0(), 5, 2323, 21 * i + j);
    DropDrop(From0(), 21 * i, j);
    if j < 21 {
      DropDrop(From0(), 21 * i + j, 1);
    }
  }

  /** unpack_wheel. */
  method UnpackWheel() returns (tab: array<nat>)
    ensures fresh(tab) && tab.Length == WHEEL_SIZE
    ensures forall w :: 0 <= w < WHEEL_SIZE ==> tab[w] == Increment(w)
  {
    hide Increment, From0, Walk, Drop, Pack;
    assert Increment(0) == 1 && Increment(1) == 2 by { FirstIncrements(); }
    tab := new nat[WHEEL_SIZE];
    tab[0] := 1;
    tab[1] := 2;
    var i := 0;
    while i < 23
      invariant i <= 23 && tab.Length == WHEEL_SIZE && fresh(tab)
      invariant forall w :: 0 <= w < 2 + 21 * i ==> tab[w] == Increment(w)
    {
      UnpackEntry(tab, i);
      i := i + 1;
    }
  }

  method UnpackEntry(tab: array<nat>, i: nat)
    requires i < 23 && tab.Length == WHEEL_SIZE && forall w :: 0 <= w < 2 + 21 * i ==> tab[w] == Increment(w)
    modifies tab
    ensures forall w :: 0 <= w < 2 + 21 * (i + 1) ==> tab[w] == Increment(w)
  {
    hide Increment, From0, Walk, Drop, Pack;
    var v, p := PackedWheel(i), 2 + 21 * i;
    ghost var j := 0;
    EntryStart(i);
    while v % 16 - v % 2 != 0
      invariant j <= 21 && p == 2 + 21 * i + j && Unpacking(i, j, v)
      invariant forall w :: 0 <= w < p ==> tab[w] == Increment(w)
      decreases 21 - j
    {
      EntryStep(i, j, v);
      tab[p] := v % 16 - v % 2;
      p := p + 1;
      v := v / 8;
      j := j + 1;
    }
    EntryStep(i, j, v);
  }

  ghost predicate Unpacking(i: nat, j: nat, v: nat)
    requires i < 23 && j <= 21
  {
    Len(From0()) == 483 && v - v % 2 == Pack(Drop(From0(), 21 * i + j), 21 - j)
  }

  lemma EntryStart(i: nat)
    requires i < 23
    ensures Unpacking(i, 0, PackedWheel(i))
  {
    hide From0, Walk, Pack, Drop;
    Remaining(i, 0);
    PackEven(Drop(From0(), 21 * i), PosAt(From0(), 5, 21 * i), 2323, 21);
  }

  lemma EntryStep(i: nat, j: nat, v: nat)
    requires i < 23 && j <= 21 && Unpacking(i, j, v)
    ensures if j == 21 then v % 16 - v % 2 == 0
            else v % 16 - v % 2 == Increment(2 + 21 * i + j) > 0 && Unpacking(i, j + 1, v / 8)
  {
    hide From0, Walk, Pack, Drop, Increment;
    Remaining(i, j);
    PackStep(Drop(From0(), 21 * i + j), PosAt(From0(), 5, 21 * i + j), 2323, 21 - j, v);
  }

  lemma FirstIncrements()
    ensures Increment(0) == 1 && Increment(1) == 2
  {
  }

  // ---------- isqrt ----------

  lemma WidthIs()
    ensures Pow2(64) == WIDE && Pow2(0) == 1
  {
    assert Pow2(8) == 256;
    hide Pow2;
    Pow2Add(8, 8);
    Pow2Add(16, 16);
    Pow2Add(32, 32);
    assert Pow2(0) == 1 by { PowNone(); }
  }

  lemma PowNone()
    ensures Pow2(0) == 1
  {
  }

  lemma RootStep(x: nat, m: nat, m': nat)
    requires x * x <= m < (x + 1) * (x + 1) && m' / 4 == m
    ensures 4 * (x * x) <= m' < 4 * ((x + 1) * (x + 1))
    ensures (2 * x) * (2 * x) == 4 * (x * x) && (2 * x + 2) * (2 * x + 2) == 4 * ((x + 1) * (x + 1))
  {
    assert (2 * x + 2) * (2 * x + 2) == 4 * ((x + 1) * (x + 1));
  }

  lemma ShrTwo(n: nat, k: nat)
    ensures Shr(n, k) / 4 == Shr(n, k + 2)
  {
    ShrShr(n, k, 2);
    var v := Shr(n, k);
    assert Shr(v, 2) == Shr(v / 2, 1) == Shr(v / 2 / 2, 0);
  }

  /** isqrt: two bits of N and one bit of the root at a time. */
  method Isqrt(N: nat) returns (x: nat)
    requires N < WIDE
    ensures x * x <= N < (x + 1) * (x + 1) && x < HALF
  {
    hide Shr, Pow2;
    assert Shr(N, 64) == 0 by {
      WidthIs();
      ShrFits(N, 64, 0);
    }
    var shift := 62;
    x := 0;
    while true
      invariant shift % 2 == 0 && 0 <= shift <= 62 && x * x <= Shr(N, shift + 2) < (x + 1) * (x + 1)
      decreases shift
    {
      ShrTwo(N, shift);
      RootStep(x, Shr(N, shift + 2), Shr(N, shift));
      x := 2 * x + 1;
      if x * x > Shr(N, shift) {
        x := x - 1;
      }
      if shift == 0 {
        break;
      }
      shift := shift - 2;
    }
    assert Shr(N, 0) == N by { ShrZero(N); }
    if x >= HALF {
      MulGrows(HALF, x, HALF, x);
    }
  }

  lemma ShrZero(n: nat)
    ensures Shr(n, 0) == n
  {
  }

  // ---------- the factors ----------

  /** fs are the prime factors of n in order, each as often as in n to the power reps. */
  ghost predicate Factors(fs: seq<nat>, n: nat, reps: nat)
  {
    && Sorted(fs) && Product(fs) == Pow(n, reps)
    && forall i :: 0 <= i < |fs| ==> Prime(fs[i]) && Divides(fs[i], n)
  }

  /** Trial division in progress: done was printed, n is left, and nothing below factor divides n. */
  ghost predicate Trial(whole: nat, reps: nat, done: seq<nat>, n: nat, factor: nat)
  {
    && n >= 1 && Divides(n, whole) && NoneBelow(n, factor) && Product(done) * Pow(n, reps) == Pow(whole, reps)
    && Pow(n, reps) < WIDE && Sorted(done) && PrimesUpTo(done, whole, factor)
  }

  ghost predicate PrimesUpTo(done: seq<nat>, whole: nat, factor: nat)
  {
    forall i :: 0 <= i < |done| ==> Prime(done[i]) && Divides(done[i], whole) && done[i] <= factor
  }

  lemma TrialStart(n: nat, reps: nat)
    requires n >= 1 && Pow(n, reps) < WIDE
    ensures Trial(n, reps, [], n, 2)
  {
    assert Times(n, 1, n);
  }

  lemma PrimesAppend(done: seq<nat>, whole: nat, factor: nat, p: nat, reps: nat)
    requires PrimesUpTo(done, whole, factor) && Sorted(done) && factor <= p && Prime(p) && Divides(p, whole)
    ensures PrimesUpTo(done + Copies(p, reps), whole, p) && Sorted(done + Copies(p, reps))
  {
    hide Prime, Divides;
    SortedConcat(done, Copies(p, reps), p);
  }

  /** Dividing out a divisor. */
  lemma TrialDivide(whole: nat, reps: nat, done: seq<nat>, n: nat, factor: nat)
    requires Trial(whole, reps, done, n, factor) && factor >= 2 && n % factor == 0 && reps >= 1
    ensures 1 <= n / factor < n && Trial(whole, reps, done + Copies(factor, reps), n / factor, factor)
  {
    hide Sorted, Prime, NoneBelow, Divides, PrimesUpTo, Product, Pow;
    var m := n / factor;
    QuotientLess(n, factor);
    DividesByMod(factor, n);
    assert Divides(factor, n) && Divides(m, n) by { CoDivisors(factor, m, n); }
    assert Prime(factor) by { LeastIsPrime(n, factor); }
    NoneBelowQuotient(n, m, factor);
    DividesTrans(m, n, whole);
    DividesTrans(factor, n, whole);
    PrimesAppend(done, whole, factor, factor, reps);
    ProductConcat(done, Copies(factor, reps));
    ProductCopies(factor, reps);
    PowMul(factor, m, reps);
    MulAssoc(Product(done), Pow(factor, reps), Pow(m, reps));
    PowPositive(factor, reps);
    AtLeastFactor(Pow(factor, reps), Pow(m, reps));
  }

  lemma QuotientLess(n: nat, d: nat)
    requires n >= 1 && d >= 2 && n % d == 0
    ensures 1 <= n / d < n && n == d * (n / d)
  {
    Euclid(n, d);
  }

  lemma CoDivisors(a: nat, b: nat, n: nat)
    requires n == a * b
    ensures Divides(a, n) && Divides(b, n)
  {
    assert Times(a, b, n) && Times(b, a, n);
  }

  lemma {:induction false} PowPositive(b: nat, e: nat)
    requires b >= 1
    ensures Pow(b, e) >= 1
  {
    if e > 0 {
      PowPositive(b, e - 1);
    }
  }

  lemma AtLeastFactor(a: nat, b: nat)
    requires a >= 1
    ensures b <= a * b
  {
  }

  /** What is left is prime, or was factored on its own. */
  lemma TrialEnds(whole: nat, reps: nat, done: seq<nat>, n: nat, factor: nat, fs: seq<nat>)
    requires Trial(whole, reps, done, n, factor) && Factors(fs, n, reps)
    ensures Factors(done + fs, whole, reps)
  {
    hide Prime, Product, Pow;
    ProductConcat(done, fs);
    forall i | 0 <= i < |fs|
      ensures factor <= fs[i] && Divides(fs[i], whole)
    {
      assert fs[i] >= 2 by { PrimeTwo(fs[i]); }
      DividesTrans(fs[i], n, whole);
    }
    hide Divides;
    SortedConcat(done, fs, factor);
  }

  lemma PrimeTwo(p: nat)
    requires Prime(p)
    ensures p >= 2
  {
  }

  lemma PrimeFactors(n: nat, reps: nat)
    requires Prime(n)
    ensures Factors(Copies(n, reps), n, reps)
  {
    ProductCopies(n, reps);
    assert Times(n, 1, n);
  }

  /** A square's factors are its root's, twice as often. */
  lemma SquareFactors(s: nat, reps: nat, fs: seq<nat>)
    requires Factors(fs, s, 2 * reps)
    ensures Factors(fs, s * s, reps)
  {
    hide Sorted, Prime, Product, Pow;
    PowSquare(s, reps);
    assert Times(s, s, s * s);
    forall i | 0 <= i < |fs|
      ensures Divides(fs[i], s * s)
    {
      DividesTrans(fs[i], s, s * s);
    }
  }

  /** The repetition count stays far below 256. */
  lemma FewSquares(n: nat, reps: nat)
    requires n >= 2 && Pow(n, reps) < WIDE
    ensures reps < 64
  {
    hide Pow;
    if reps >= 64 {
      PowTwo(n, reps);
      PowMonotone(64, reps);
      PowIsPow2(64);
      WidthIs();
    }
  }

  lemma {:induction false} PowIsPow2(e: nat)
    ensures Pow(2, e) == Pow2(e)
  {
    if e > 0 {
      PowIsPow2(e - 1);
    }
  }

  // ---------- factorize ----------

  /** maxFactor is the root of n, rounded down to an odd number. */
  ghost predicate OddRoot(n: nat, r: nat, maxFactor: nat)
  {
    r * r < n < (r + 1) * (r + 1) && 1 <= r < HALF && maxFactor == (if r % 2 == 1 then r else r - 1)
  }

  /** With no divisor up to the odd root, n is prime: the even root itself cannot be the only one. */
  lemma NoDivisorLeft(n: nat, r: nat, maxFactor: nat, bound: nat)
    requires OddRoot(n, r, maxFactor) && NoneBelow(n, bound) && bound > maxFactor && bound >= 3
    ensures Prime(n)
  {
    forall d | 2 <= d < r + 1
      ensures !Divides(d, n)
    {
      if d >= bound && Divides(d, n) {
        DividesByMod(2, d);
        DividesTrans(2, d, n);
        assert false;
      }
    }
    assert n >= 2 by { RootPositive(r); }
    RootBound(n, r);
  }

  lemma RootPositive(r: nat)
    requires r >= 1
    ensures r * r >= 1
  {
  }

  class Factorizer {
    const wheelTab: array<nat>
    var squareCount: nat
    var printed: seq<nat>
    var lines: nat

    ghost predicate Ready()
      reads wheelTab
    {
      wheelTab.Length == WHEEL_SIZE && forall w :: 0 <= w < WHEEL_SIZE ==> wheelTab[w] == Increment(w)
    }

    constructor ()
      ensures Ready() && printed == [] && lines == 0 && squareCount == 1 && fresh(wheelTab)
    {
      var tab := UnpackWheel();
      wheelTab := tab;
      squareCount, printed, lines := 1, [], 0;
    }

    /** print_w: n, as often as square_count says. */
    method PrintW(n: nat)
      requires squareCount >= 1
      modifies `printed
      ensures printed == old(printed) + Copies(n, squareCount)
    {
      var rep := squareCount;
      ghost var k := 0;
      while true
        invariant rep >= 1 && k + rep == squareCount && printed == old(printed) + Copies(n, k)
        decreases rep
      {
        printed := printed + [n];
        k := k + 1;
        assert Copies(n, k) == Copies(n, k - 1) + [n];
        rep := rep - 1;
        if rep == 0 {
          break;
        }
      }
    }

    /** isqrt_odd: factors a square on the spot and returns zero, or returns the odd root. */
    method IsqrtOdd(N: nat) returns (s: nat, ghost r: nat, ghost fs: seq<nat>)
      requires Ready() && 1 <= N < WIDE && 1 <= squareCount < 64 && Pow(N, squareCount) < WIDE
      modifies this
      ensures s == 0 ==> printed == old(printed) + fs && Factors(fs, N, old(squareCount)) && lines == old(lines) + 1
      ensures s != 0 ==>
          OddRoot(N, r, s) && s < HALF && printed == old(printed) && lines == old(lines)
              && squareCount == old(squareCount)
      decreases N, 0
    {
      hide Pow, Factors;
      s := Isqrt(N);
      r, fs := s, [];
      if s * s == N {
        SquareLess(s, N);
        PowSquare(s, squareCount);
        // squareCount is a byte
        squareCount := squareCount * 2 % 256;
        fs := Factorize(s);
        SquareFactors(s, old(squareCount), fs);
        return 0, r, fs;
      }
      s := if s % 2 == 1 then s else s - 1;
    }

    /** factorize: the prime factors of N in order, each squareCount times. */
    method Factorize(N: nat) returns (ghost fs: seq<nat>)
      requires Ready() && N < WIDE && 1 <= squareCount <= 128 && (N >= 1 ==> Pow(N, squareCount) < WIDE)
      modifies this
      ensures printed == old(printed) + fs && lines == old(lines) + 1
      ensures if N == 0 then fs == [] else Factors(fs, N, old(squareCount))
      decreases if N < 4 then 0 else N, 2
    {
      hide Pow, Factors;
      if N >= 4 {
        FewSquares(N, squareCount);
        ghost var r;
        var maxFactor;
        maxFactor, r, fs := IsqrtOdd(N);
        if maxFactor == 0 {
          return;
        }
        fs := Search(N, maxFactor, r);
      } else {
        fs := SmallFactors(N, squareCount);
        if N > 1 {
          PrintW(N);
        }
        lines := lines + 1;
      }
    }

    /** Divides by factor as long as that goes; a square met on the way is factored at once. */
    method DivideOut(N: nat, n0: nat, factor: nat, limit: nat, ghost root: nat, ghost done0: seq<nat>,
        ghost before: seq<nat>)
      returns (n: nat, maxFactor: nat, ghost r: nat, ghost done: seq<nat>, ghost fs: seq<nat>)
      requires Ready() && N < WIDE && 1 <= squareCount < 64 && factor >= 2 && n0 <= N && printed == before + done0
      requires Trial(N, squareCount, done0, n0, factor) && 0 < limit < HALF && OddRoot(n0, root, limit)
      modifies this
      ensures maxFactor == 0 ==> printed == before + fs && lines == old(lines) + 1 && Factors(fs, N, old(squareCount))
      ensures maxFactor != 0 ==>
          Trial(N, squareCount, done, n, factor) && OddRoot(n, r, maxFactor) && maxFactor < HALF && n % factor != 0
      ensures maxFactor != 0 ==>
          printed == before + done && n <= N && squareCount == old(squareCount) && lines == old(lines)
      decreases N, 0
    {
      hide Pow, Factors, Trial, OddRoot;
      n, maxFactor, r, done, fs := n0, limit, root, done0, [];
      while n % factor == 0
        invariant Trial(N, squareCount, done, n, factor) && OddRoot(n, r, maxFactor) && 0 < maxFactor < HALF && n <= N
        invariant printed == before + done && squareCount == old(squareCount) && lines == old(lines)
        decreases n
      {
        TrialDivide(N, squareCount, done, n, factor);
        n := n / factor;
        PrintW(factor);
        done := done + Copies(factor, squareCount);
        TrialFits(N, squareCount, done, n, factor);
        maxFactor, r, fs := IsqrtOdd(n);
        if maxFactor == 0 {
          TrialEnds(N, old(squareCount), done, n, factor, fs);
          fs := done + fs;
          return;
        }
      }
    }

    /** Trial division by every position of the wheel up to the root of what is left. */
    method Search(N: nat, limit: nat, ghost root: nat) returns (ghost fs: seq<nat>)
      requires Ready() && 4 <= N < WIDE && 1 <= squareCount < 64 && Pow(N, squareCount) < WIDE && 0 < limit < HALF
          && OddRoot(N, root, limit)
      modifies this
      ensures printed == old(printed) + fs && lines == old(lines) + 1 && Factors(fs, N, old(squareCount))
      decreases N, 1
    {
      hide Pow, Factors, Trial, OnWheel, NoneBelow, Divides, OddRoot, Increment;
      var n: nat, factor: nat, w: nat, maxFactor := N, 2, 0, limit;
      ghost var c: nat, r, done: seq<nat>, bound: nat := 0, root, [], 0;
      TrialStart(N, squareCount);
      assert OnWheel(0, 2, 0) by { WheelStart(); }
      while true
        invariant Trial(N, squareCount, done, n, factor) && OddRoot(n, r, maxFactor) && OnWheel(w, factor, c)
            && 2 <= factor < HALF
        invariant 0 < maxFactor < HALF
        invariant printed == old(printed) + done && squareCount == old(squareCount) && lines == old(lines) && n <= N
        decreases HALF - factor
      {
        n, maxFactor, r, done, fs := DivideOut(N, n, factor, maxFactor, r, done, old(printed));
        if maxFactor == 0 {
          return;
        }
        NotDivided(N, squareCount, done, n, factor);
        bound := factor + 1;
        if factor >= maxFactor {
          break;
        }
        assert w < WHEEL_SIZE by { OnWheelSize(w, factor, c); }
        NextDivisor(w, factor, c, n);
        bound := factor + Increment(w);
        var fw := (factor + wheelTab[w]) % HALF;
        if fw < factor {
          break; // overflow
        }
        OnWheelNext(w, factor, c);
        TrialMoves(N, squareCount, done, n, factor, bound);
        factor := fw;
        w := w + 1;
        if w >= WHEEL_SIZE {
          w, c := WHEEL_START, c + 1;
        }
      }
      NoDivisorLeft(n, r, maxFactor, bound);
      PrimeFactors(n, squareCount);
      TrialEnds(N, squareCount, done, n, factor, Copies(n, squareCount));
      fs := done + Copies(n, squareCount);
      PrintW(n);
      lines := lines + 1;
    }
  }

  lemma WheelStart()
    ensures OnWheel(0, 2, 0)
  {
  }

  lemma OnWheelSize(w: nat, factor: nat, c: nat)
    requires OnWheel(w, factor, c)
    ensures w < WHEEL_SIZE
  {
  }

  lemma TrialFits(whole: nat, reps: nat, done: seq<nat>, n: nat, factor: nat)
    requires Trial(whole, reps, done, n, factor)
    ensures Pow(n, reps) < WIDE && n >= 1
  {
  }

  lemma NotDivided(whole: nat, reps: nat, done: seq<nat>, n: nat, factor: nat)
    requires Trial(whole, reps, done, n, factor) && factor >= 2 && n % factor != 0
    ensures !Divides(factor, n) && NoneBelow(n, factor) && NoneBelow(n, factor + 1)
  {
    DividesByMod(factor, n);
  }

  lemma TrialMoves(whole: nat, reps: nat, done: seq<nat>, n: nat, factor: nat, next: nat)
    requires Trial(whole, reps, done, n, factor) && NoneBelow(n, next) && next >= factor
    ensures Trial(whole, reps, done, n, next)
  {
    hide Sorted, Prime, Divides, Pow, Product;
  }

  /** One has no factors; two and three are prime. */
  lemma SmallFactors(n: nat, reps: nat) returns (fs: seq<nat>)
    requires n < 4
    ensures fs == if n > 1 then Copies(n, reps) else []
    ensures n > 0 ==> Factors(fs, n, reps)
  {
    fs := if n > 1 then Copies(n, reps) else [];
    if n > 1 {
      assert Prime(n) by {
        forall d | 2 <= d < n
          ensures !Divides(d, n)
        {
          DividesByMod(d, n);
        }
      }
      PrimeFactors(n, reps);
    } else if n == 1 {
      OnePower(reps);
    }
  }

  lemma {:induction false} OnePower(e: nat)
    ensures Pow(1, e) == 1
  {
    if e > 0 {
      OnePower(e - 1);
    }
  }

  lemma SquareLess(s: nat, n: nat)
    requires s * s == n && n >= 1
    ensures s >= 1 && (s < n || n == 1)
  {
  }

  /** One number: its prime factors in non-decreasing order, their product the number. */
  method FactorNumber(N: nat) returns (factors: seq<nat>, lines: nat)
    requires N < WIDE
    ensures Sorted(factors) && lines == 1
    ensures N >= 1 ==> Product(factors) == N && forall i :: 0 <= i < |factors| ==> Prime(factors[i])
    ensures N == 0 ==> factors == []
  {
    hide Product, Pow, Prime;
    assert Pow(N, 1) == N by { FirstPower(N); }
    var f := new Factorizer();
    ghost var fs := f.Factorize(N);
    factors, lines := f.printed, f.lines;
    assert factors == fs;
  }

  lemma FirstPower(n: nat)
    ensures Pow(n, 1) == n
  {
    assert Pow(n, 0) == 1;
  }
}
