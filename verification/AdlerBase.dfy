/** The modulus of the checksum, as section 9 of RFC 1950 gives it. */
module AdlerBase {
  import opened Primes
  import opened Probing
  import opened Adler

  lemma Trial0()
    ensures NotDivided(65521, 2, 58)
  {
    assert NotDivided(65521, 2, 16);
    FurtherOn(65521, 2, 16, 30);
    FurtherOn(65521, 2, 30, 44);
    FurtherOn(65521, 2, 44, 58);
  }

  lemma Trial1()
    ensures NotDivided(65521, 58, 114)
  {
    assert NotDivided(65521, 58, 72);
    FurtherOn(65521, 58, 72, 86);
    FurtherOn(65521, 58, 86, 100);
    FurtherOn(65521, 58, 100, 114);
  }

  lemma Trial2()
    ensures NotDivided(65521, 114, 170)
  {
    assert NotDivided(65521, 114, 128);
    FurtherOn(65521, 114, 128, 142);
    FurtherOn(65521, 114, 142, 156);
    FurtherOn(65521, 114, 156, 170);
  }

  lemma Trial3()
    ensures NotDivided(65521, 170, 226)
  {
    assert NotDivided(65521, 170, 184);
    FurtherOn(65521, 170, 184, 198);
    FurtherOn(65521, 170, 198, 212);
    FurtherOn(65521, 170, 212, 226);
  }

  lemma Trial4()
    ensures NotDivided(65521, 226, 256)
  {
    assert NotDivided(65521, 226, 240);
    FurtherOn(65521, 226, 240, 254);
    FurtherOn(65521, 226, 254, 256);
  }

  lemma Prime65521()
    ensures Prime(65521)
  {
    hide Prime, NotDivided;
    Trial0();
    Trial1();
    FurtherOn(65521, 2, 58, 114);
    Trial2();
    FurtherOn(65521, 2, 114, 170);
    Trial3();
    FurtherOn(65521, 2, 170, 226);
    Trial4();
    FurtherOn(65521, 2, 226, 256);
    PrimeByTrial(65521, 255);
  }

  lemma {:induction false} NotPrime(n: nat, d: nat, k: nat)
    requires n == d * k && 2 <= d < n
    ensures !Prime(n)
  {
    assert Times(d, k, n);
    assert Divides(d, n);
  }

  /** LZO_BASE is the largest prime below 65536. */
  lemma {:induction false} BaseIsLargestPrime(n: nat)
    requires n < 65536
    ensures Prime(LZO_BASE) && (Prime(n) ==> n <= LZO_BASE)
  {
    hide Prime;
    Prime65521();
    if n > LZO_BASE {
      if n % 2 == 0 {
        NotPrime(n, 2, n / 2);
      } else if n % 3 == 0 {
        NotPrime(n, 3, n / 3);
      } else {
        assert n in [65525, 65527, 65531, 65533];
        var d := if n == 65525 then 5 else if n == 65527 then 7 else if n == 65531 then 19 else 13;
        NotPrime(n, d, n / d);
      }
    }
  }
}
