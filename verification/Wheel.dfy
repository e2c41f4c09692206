/** The trial divisor wheel: its table, and why no divisor is missed. */
module Wheel {
  import opened Primes

  const WHEEL_START := 5
  const WHEEL_SIZE := 5 + 24 * 20

  /** The increments, in order. */
  datatype Steps = Done | Go(k: nat, rest: Steps)

  /** An odd number after p that a small prime, itself at most p, divides. */
  predicate Sieved(q: nat, p: nat)
  {
    (q % 3 == 0 && 3 <= p) || (q % 5 == 0 && 5 <= p) || (q % 7 == 0 && 7 <= p) || (q % 11 == 0 && 11 <= p)
  }

  /** Every odd number from q up to, not including, e can be skipped after p. */
  predicate Gap(p: nat, q: nat, e: nat)
    decreases e - q
  {
    q >= e || (Sieved(q, p) && Gap(p, q + 2, e))
  }

  /** The steps lead from p to e and skip only sieved numbers. */
  predicate Walk(s: Steps, p: nat, e: nat)
  {
    match s
    case Done => p == e
    case Go(k, rest) => 0 < k < 16 && k % 2 == 0 && Gap(p, p + 2, p + k) && Walk(rest, p + k, e)
  }

  function Len(s: Steps): nat
  {
    match s
    case Done => 0
    case Go(_, rest) => 1 + Len(rest)
  }

  lemma NoSteps(p: nat)
    ensures Walk(Done, p, p) && Len(Done) == 0
  {
  }

  function Seven(a: nat, b: nat, c: nat, d: nat, e: nat, f: nat, g: nat, rest: Steps): Steps
  {
    Go(a, Go(b, Go(c, Go(d, Go(e, Go(f, Go(g, rest)))))))
  }

  predicate SevenSkip(p: nat, a: nat, b: nat, c: nat, d: nat, e: nat, f: nat, g: nat)
  {
    && 0 < a < 16 && 0 < b < 16 && 0 < c < 16 && 0 < d < 16 && 0 < e < 16 && 0 < f < 16 && 0 < g < 16
    && a % 2 == 0 && b % 2 == 0 && c % 2 == 0 && d % 2 == 0 && e % 2 == 0 && f % 2 == 0 && g % 2 == 0
    && Gap(p, p + 2, p + a)
    && Gap(p + a, p + a + 2, p + a + b)
    && Gap(p + a + b, p + a + b + 2, p + a + b + c)
    && Gap(p + a + b + c, p + a + b + c + 2, p + a + b + c + d)
    && Gap(p + a + b + c + d, p + a + b + c + d + 2, p + a + b + c + d + e)
    && Gap(p + a + b + c + d + e, p + a + b + c + d + e + 2, p + a + b + c + d + e + f)
    && Gap(p + a + b + c + d + e + f, p + a + b + c + d + e + f + 2, p + a + b + c + d + e + f + g)
  }

  lemma SevenWalk(p: nat, a: nat, b: nat, c: nat, d: nat, e: nat, f: nat, g: nat, rest: Steps, end: nat)
    requires SevenSkip(p, a, b, c, d, e, f, g) && Walk(rest, p + a + b + c + d + e + f + g, end)
    ensures Walk(Seven(a, b, c, d, e, f, g, rest), p, end) && Len(Seven(a, b, c, d, e, f, g, rest)) == 7 + Len(rest)
  {
    hide Gap;
    assert Walk(Go(g, rest), p + a + b + c + d + e + f, end);
    assert Walk(Go(f, Go(g, rest)), p + a + b + c + d + e, end);
    assert Walk(Go(e, Go(f, Go(g, rest))), p + a + b + c + d, end);
    assert Walk(Go(d, Go(e, Go(f, Go(g, rest)))), p + a + b + c, end);
    assert Walk(Go(c, Go(d, Go(e, Go(f, Go(g, rest))))), p + a + b, end);
    assert Walk(Go(b, Go(c, Go(d, Go(e, Go(f, Go(g, rest)))))), p + a, end);
    assert Len(Go(d, Go(e, Go(f, Go(g, rest))))) == 4 + Len(rest) by {
      assert Len(Go(f, Go(g, rest))) == 2 + Len(rest);
    }
    assert Len(Go(b, Go(c, Go(d, Go(e, Go(f, Go(g, rest))))))) == 6 + Len(rest);
  }

  function From0(): Steps
  {
    Seven(2, 4, 2, 4, 2, 4, 6, Seven(2, 6, 4, 2, 4, 6, 6, Seven(2, 6, 4, 2, 6, 4, 6, From1())))
  }

  function From1(): Steps
  {
    Seven(8, 4, 2, 4, 2, 4, 14, Seven(4, 6, 2, 10, 2, 6, 6, Seven(4, 2, 4, 6, 2, 10, 2, From2())))
  }

  function From2(): Steps
  {
    Seven(4, 2, 12, 10, 2, 4, 2, Seven(4, 6, 2, 6, 4, 6, 6, Seven(6, 2, 6, 4, 2, 6, 4, From3())))
  }

  function From3(): Steps
  {
    Seven(6, 8, 4, 2, 4, 6, 8, Seven(6, 10, 2, 4, 6, 2, 6, Seven(6, 4, 2, 4, 6, 2, 6, From4())))
  }

  function From4(): Steps
  {
    Seven(4, 2, 6, 10, 2, 10, 2, Seven(4, 2, 4, 6, 8, 4, 2, Seven(4, 12, 2, 6, 4, 2, 6, From5())))
  }

  function From5(): Steps
  {
    Seven(4, 6, 12, 2, 4, 2, 4, Seven(8, 6, 4, 6, 2, 4, 6, Seven(2, 6, 10, 2, 4, 6, 2, From6())))
  }

  function From6(): Steps
  {
    Seven(6, 4, 2, 4, 2, 10, 2, Seven(10, 2, 4, 6, 6, 2, 6, Seven(6, 4, 6, 6, 2, 6, 4, From7())))
  }

  function From7(): Steps
  {
    Seven(2, 6, 4, 6, 8, 4, 2, Seven(6, 4, 8, 6, 4, 6, 2, Seven(4, 6, 8, 6, 4, 2, 10, From8())))
  }

  function From8(): Steps
  {
    Seven(2, 6, 4, 2, 4, 2, 10, Seven(2, 10, 2, 4, 2, 4, 8, Seven(6, 4, 2, 4, 6, 6, 2, From9())))
  }

  function From9(): Steps
  {
    Seven(6, 4, 8, 4, 6, 8, 4, Seven(2, 4, 2, 4, 8, 6, 4, Seven(6, 6, 6, 2, 6, 6, 4, From10())))
  }

  function From10(): Steps
  {
    Seven(2, 4, 6, 2, 6, 4, 2, Seven(4, 2, 10, 2, 10, 2, 6, Seven(4, 6, 2, 6, 4, 2, 4, From11())))
  }

  function From11(): Steps
  {
    Seven(6, 6, 8, 4, 2, 6, 10, Seven(8, 4, 2, 4, 2, 4, 8, Seven(10, 6, 2, 4, 8, 6, 6, From12())))
  }

  function From12(): Steps
  {
    Seven(4, 2, 4, 6, 2, 6, 4, Seven(6, 2, 10, 2, 10, 2, 4, Seven(2, 4, 6, 2, 6, 4, 2, From13())))
  }

  function From13(): Steps
  {
    Seven(4, 6, 6, 2, 6, 6, 6, Seven(4, 6, 8, 4, 2, 4, 2, Seven(4, 8, 6, 4, 8, 4, 6, From14())))
  }

  function From14(): Steps
  {
    Seven(2, 6, 6, 4, 2, 4, 6, Seven(8, 4, 2, 4, 2, 10, 2, Seven(10, 2, 4, 2, 4, 6, 2, From15())))
  }

  function From15(): Steps
  {
    Seven(10, 2, 4, 6, 8, 6, 4, Seven(2, 6, 4, 6, 8, 4, 6, Seven(2, 4, 8, 6, 4, 6, 2, From16())))
  }

  function From16(): Steps
  {
    Seven(4, 6, 2, 6, 6, 4, 6, Seven(6, 2, 6, 6, 4, 2, 10, Seven(2, 10, 2, 4, 2, 4, 6, From17())))
  }

  function From17(): Steps
  {
    Seven(2, 6, 4, 2, 10, 6, 2, Seven(6, 4, 2, 6, 4, 6, 8, Seven(4, 2, 4, 2, 12, 6, 4, From18())))
  }

  function From18(): Steps
  {
    Seven(6, 2, 4, 6, 2, 12, 4, Seven(2, 4, 8, 6, 4, 2, 4, Seven(2, 10, 2, 10, 6, 2, 4, From19())))
  }

  function From19(): Steps
  {
    Seven(6, 2, 6, 4, 2, 4, 6, Seven(6, 2, 6, 4, 2, 10, 6, Seven(8, 6, 4, 2, 4, 8, 6, From20())))
  }

  function From20(): Steps
  {
    Seven(4, 6, 2, 4, 6, 2, 6, Seven(6, 6, 4, 6, 2, 6, 4, Seven(2, 4, 2, 10, 12, 2, 4, From21())))
  }

  function From21(): Steps
  {
    Seven(2, 10, 2, 6, 4, 2, 4, Seven(6, 6, 2, 10, 2, 6, 4, Seven(14, 4, 2, 4, 2, 4, 8, From22())))
  }

  function From22(): Steps
  {
    Seven(6, 4, 6, 2, 4, 6, 2, Seven(6, 6, 4, 2, 4, 6, 2, Seven(6, 4, 2, 4, 12, 2, 12, Done)))
  }

  lemma Walk22()
    ensures Walk(From22(), 2221, 2323) && Len(From22()) == 21
  {
    hide Walk, Seven, Len;
    NoSteps(2323);
    SevenWalk(2281, 6, 4, 2, 4, 12, 2, 12, Done, 2323);
    SevenWalk(2251, 6, 6, 4, 2, 4, 6, 2, Seven(6, 4, 2, 4, 12, 2, 12, Done), 2323);
    SevenWalk(2221, 6, 4, 6, 2, 4, 6, 2, Seven(6, 6, 4, 2, 4, 6, 2, Seven(6, 4, 2, 4, 12, 2, 12, Done)), 2323);
  }

  lemma Walk21()
    ensures Walk(From21(), 2117, 2323) && Len(From21()) == 42
  {
    hide Walk, Seven, Len;
    Walk22();
    SevenWalk(2183, 14, 4, 2, 4, 2, 4, 8, From22(), 2323);
    SevenWalk(2147, 6, 6, 2, 10, 2, 6, 4, Seven(14, 4, 2, 4, 2, 4, 8, From22()), 2323);
    SevenWalk(2117, 2, 10, 2, 6, 4, 2, 4, Seven(6, 6, 2, 10, 2, 6, 4, Seven(14, 4, 2, 4, 2, 4, 8, From22())), 2323);
  }

  lemma Walk20()
    ensures Walk(From20(), 2017, 2323) && Len(From20()) == 63
  {
    hide Walk, Seven, Len;
    Walk21();
    SevenWalk(2081, 2, 4, 2, 10, 12, 2, 4, From21(), 2323);
    SevenWalk(2047, 6, 6, 4, 6, 2, 6, 4, Seven(2, 4, 2, 10, 12, 2, 4, From21()), 2323);
    SevenWalk(2017, 4, 6, 2, 4, 6, 2, 6, Seven(6, 6, 4, 6, 2, 6, 4, Seven(2, 4, 2, 10, 12, 2, 4, From21())), 2323);
  }

  lemma Walk19()
    ensures Walk(From19(), 1913, 2323) && Len(From19()) == 84
  {
    hide Walk, Seven, Len;
    Walk20();
    SevenWalk(1979, 8, 6, 4, 2, 4, 8, 6, From20(), 2323);
    SevenWalk(1943, 6, 2, 6, 4, 2, 10, 6, Seven(8, 6, 4, 2, 4, 8, 6, From20()), 2323);
    SevenWalk(1913, 6, 2, 6, 4, 2, 4, 6, Seven(6, 2, 6, 4, 2, 10, 6, Seven(8, 6, 4, 2, 4, 8, 6, From20())), 2323);
  }

  lemma Walk18()
    ensures Walk(From18(), 1811, 2323) && Len(From18()) == 105
  {
    hide Walk, Seven, Len;
    Walk19();
    SevenWalk(1877, 2, 10, 2, 10, 6, 2, 4, From19(), 2323);
    SevenWalk(1847, 2, 4, 8, 6, 4, 2, 4, Seven(2, 10, 2, 10, 6, 2, 4, From19()), 2323);
    SevenWalk(1811, 6, 2, 4, 6, 2, 12, 4, Seven(2, 4, 8, 6, 4, 2, 4, Seven(2, 10, 2, 10, 6, 2, 4, From19())), 2323);
  }

  lemma Walk17()
    ensures Walk(From17(), 1709, 2323) && Len(From17()) == 126
  {
    hide Walk, Seven, Len;
    Walk18();
    SevenWalk(1777, 4, 2, 4, 2, 12, 6, 4, From18(), 2323);
    SevenWalk(1741, 6, 4, 2, 6, 4, 6, 8, Seven(4, 2, 4, 2, 12, 6, 4, From18()), 2323);
    SevenWalk(1709, 2, 6, 4, 2, 10, 6, 2, Seven(6, 4, 2, 6, 4, 6, 8, Seven(4, 2, 4, 2, 12, 6, 4, From18())), 2323);
  }

  lemma Walk16()
    ensures Walk(From16(), 1609, 2323) && Len(From16()) == 147
  {
    hide Walk, Seven, Len;
    Walk17();
    SevenWalk(1679, 2, 10, 2, 4, 2, 4, 6, From17(), 2323);
    SevenWalk(1643, 6, 2, 6, 6, 4, 2, 10, Seven(2, 10, 2, 4, 2, 4, 6, From17()), 2323);
    SevenWalk(1609, 4, 6, 2, 6, 6, 4, 6, Seven(6, 2, 6, 6, 4, 2, 10, Seven(2, 10, 2, 4, 2, 4, 6, From17())), 2323);
  }

  lemma Walk15()
    ensures Walk(From15(), 1501, 2323) && Len(From15()) == 168
  {
    hide Walk, Seven, Len;
    Walk16();
    SevenWalk(1577, 2, 4, 8, 6, 4, 6, 2, From16(), 2323);
    SevenWalk(1541, 2, 6, 4, 6, 8, 4, 6, Seven(2, 4, 8, 6, 4, 6, 2, From16()), 2323);
    SevenWalk(1501, 10, 2, 4, 6, 8, 6, 4, Seven(2, 6, 4, 6, 8, 4, 6, Seven(2, 4, 8, 6, 4, 6, 2, From16())), 2323);
  }

  lemma Walk14()
    ensures Walk(From14(), 1409, 2323) && Len(From14()) == 189
  {
    hide Walk, Seven, Len;
    Walk15();
    SevenWalk(1471, 10, 2, 4, 2, 4, 6, 2, From15(), 2323);
    SevenWalk(1439, 8, 4, 2, 4, 2, 10, 2, Seven(10, 2, 4, 2, 4, 6, 2, From15()), 2323);
    SevenWalk(1409, 2, 6, 6, 4, 2, 4, 6, Seven(8, 4, 2, 4, 2, 10, 2, Seven(10, 2, 4, 2, 4, 6, 2, From15())), 2323);
  }

  lemma Walk13()
    ensures Walk(From13(), 1303, 2323) && Len(From13()) == 210
  {
    hide Walk, Seven, Len;
    Walk14();
    SevenWalk(1369, 4, 8, 6, 4, 8, 4, 6, From14(), 2323);
    SevenWalk(1339, 4, 6, 8, 4, 2, 4, 2, Seven(4, 8, 6, 4, 8, 4, 6, From14()), 2323);
    SevenWalk(1303, 4, 6, 6, 2, 6, 6, 6, Seven(4, 6, 8, 4, 2, 4, 2, Seven(4, 8, 6, 4, 8, 4, 6, From14())), 2323);
  }

  lemma Walk12()
    ensures Walk(From12(), 1213, 2323) && Len(From12()) == 231
  {
    hide Walk, Seven, Len;
    Walk13();
    SevenWalk(1277, 2, 4, 6, 2, 6, 4, 2, From13(), 2323);
    SevenWalk(1241, 6, 2, 10, 2, 10, 2, 4, Seven(2, 4, 6, 2, 6, 4, 2, From13()), 2323);
    SevenWalk(1213, 4, 2, 4, 6, 2, 6, 4, Seven(6, 2, 10, 2, 10, 2, 4, Seven(2, 4, 6, 2, 6, 4, 2, From13())), 2323);
  }

  lemma Walk11()
    ensures Walk(From11(), 1097, 2323) && Len(From11()) == 252
  {
    hide Walk, Seven, Len;
    Walk12();
    SevenWalk(1171, 10, 6, 2, 4, 8, 6, 6, From12(), 2323);
    SevenWalk(1139, 8, 4, 2, 4, 2, 4, 8, Seven(10, 6, 2, 4, 8, 6, 6, From12()), 2323);
    SevenWalk(1097, 6, 6, 8, 4, 2, 6, 10, Seven(8, 4, 2, 4, 2, 4, 8, Seven(10, 6, 2, 4, 8, 6, 6, From12())), 2323);
  }

  lemma Walk10()
    ensures Walk(From10(), 1007, 2323) && Len(From10()) == 273
  {
    hide Walk, Seven, Len;
    Walk11();
    SevenWalk(1069, 4, 6, 2, 6, 4, 2, 4, From11(), 2323);
    SevenWalk(1033, 4, 2, 10, 2, 10, 2, 6, Seven(4, 6, 2, 6, 4, 2, 4, From11()), 2323);
    SevenWalk(1007, 2, 4, 6, 2, 6, 4, 2, Seven(4, 2, 10, 2, 10, 2, 6, Seven(4, 6, 2, 6, 4, 2, 4, From11())), 2323);
  }

  lemma Walk9()
    ensures Walk(From9(), 901, 2323) && Len(From9()) == 294
  {
    hide Walk, Seven, Len;
    Walk10();
    SevenWalk(971, 6, 6, 6, 2, 6, 6, 4, From10(), 2323);
    SevenWalk(941, 2, 4, 2, 4, 8, 6, 4, Seven(6, 6, 6, 2, 6, 6, 4, From10()), 2323);
    SevenWalk(901, 6, 4, 8, 4, 6, 8, 4, Seven(2, 4, 2, 4, 8, 6, 4, Seven(6, 6, 6, 2, 6, 6, 4, From10())), 2323);
  }

  lemma Walk8()
    ensures Walk(From8(), 809, 2323) && Len(From8()) == 315
  {
    hide Walk, Seven, Len;
    Walk9();
    SevenWalk(871, 6, 4, 2, 4, 6, 6, 2, From9(), 2323);
    SevenWalk(839, 2, 10, 2, 4, 2, 4, 8, Seven(6, 4, 2, 4, 6, 6, 2, From9()), 2323);
    SevenWalk(809, 2, 6, 4, 2, 4, 2, 10, Seven(2, 10, 2, 4, 2, 4, 8, Seven(6, 4, 2, 4, 6, 6, 2, From9())), 2323);
  }

  lemma Walk7()
    ensures Walk(From7(), 701, 2323) && Len(From7()) == 336
  {
    hide Walk, Seven, Len;
    Walk8();
    SevenWalk(769, 4, 6, 8, 6, 4, 2, 10, From8(), 2323);
    SevenWalk(733, 6, 4, 8, 6, 4, 6, 2, Seven(4, 6, 8, 6, 4, 2, 10, From8()), 2323);
    SevenWalk(701, 2, 6, 4, 6, 8, 4, 2, Seven(6, 4, 8, 6, 4, 6, 2, Seven(4, 6, 8, 6, 4, 2, 10, From8())), 2323);
  }

  lemma Walk6()
    ensures Walk(From6(), 601, 2323) && Len(From6()) == 357
  {
    hide Walk, Seven, Len;
    Walk7();
    SevenWalk(667, 6, 4, 6, 6, 2, 6, 4, From7(), 2323);
    SevenWalk(631, 10, 2, 4, 6, 6, 2, 6, Seven(6, 4, 6, 6, 2, 6, 4, From7()), 2323);
    SevenWalk(601, 6, 4, 2, 4, 2, 10, 2, Seven(10, 2, 4, 6, 6, 2, 6, Seven(6, 4, 6, 6, 2, 6, 4, From7())), 2323);
  }

  lemma Walk5()
    ensures Walk(From5(), 499, 2323) && Len(From5()) == 378
  {
    hide Walk, Seven, Len;
    Walk6();
    SevenWalk(569, 2, 6, 10, 2, 4, 6, 2, From6(), 2323);
    SevenWalk(533, 8, 6, 4, 6, 2, 4, 6, Seven(2, 6, 10, 2, 4, 6, 2, From6()), 2323);
    SevenWalk(499, 4, 6, 12, 2, 4, 2, 4, Seven(8, 6, 4, 6, 2, 4, 6, Seven(2, 6, 10, 2, 4, 6, 2, From6())), 2323);
  }

  lemma Walk4()
    ensures Walk(From4(), 397, 2323) && Len(From4()) == 399
  {
    hide Walk, Seven, Len;
    Walk5();
    SevenWalk(463, 4, 12, 2, 6, 4, 2, 6, From5(), 2323);
    SevenWalk(433, 4, 2, 4, 6, 8, 4, 2, Seven(4, 12, 2, 6, 4, 2, 6, From5()), 2323);
    SevenWalk(397, 4, 2, 6, 10, 2, 10, 2, Seven(4, 2, 4, 6, 8, 4, 2, Seven(4, 12, 2, 6, 4, 2, 6, From5())), 2323);
  }

  lemma Walk3()
    ensures Walk(From3(), 293, 2323) && Len(From3()) == 420
  {
    hide Walk, Seven, Len;
    Walk4();
    SevenWalk(367, 6, 4, 2, 4, 6, 2, 6, From4(), 2323);
    SevenWalk(331, 6, 10, 2, 4, 6, 2, 6, Seven(6, 4, 2, 4, 6, 2, 6, From4()), 2323);
    SevenWalk(293, 6, 8, 4, 2, 4, 6, 8, Seven(6, 10, 2, 4, 6, 2, 6, Seven(6, 4, 2, 4, 6, 2, 6, From4())), 2323);
  }

  lemma Walk2()
    ensures Walk(From2(), 193, 2323) && Len(From2()) == 441
  {
    hide Walk, Seven, Len;
    Walk3();
    SevenWalk(263, 6, 2, 6, 4, 2, 6, 4, From3(), 2323);
    SevenWalk(229, 4, 6, 2, 6, 4, 6, 6, Seven(6, 2, 6, 4, 2, 6, 4, From3()), 2323);
    SevenWalk(193, 4, 2, 12, 10, 2, 4, 2, Seven(4, 6, 2, 6, 4, 6, 6, Seven(6, 2, 6, 4, 2, 6, 4, From3())), 2323);
  }

  lemma Walk1()
    ensures Walk(From1(), 89, 2323) && Len(From1()) == 462
  {
    hide Walk, Seven, Len;
    Walk2();
    SevenWalk(163, 4, 2, 4, 6, 2, 10, 2, From2(), 2323);
    SevenWalk(127, 4, 6, 2, 10, 2, 6, 6, Seven(4, 2, 4, 6, 2, 10, 2, From2()), 2323);
    SevenWalk(89, 8, 4, 2, 4, 2, 4, 14, Seven(4, 6, 2, 10, 2, 6, 6, Seven(4, 2, 4, 6, 2, 10, 2, From2())), 2323);
  }

  lemma Walk0()
    ensures Walk(From0(), 5, 2323) && Len(From0()) == 483
  {
    hide Walk, Seven, Len;
    Walk1();
    SevenWalk(59, 2, 6, 4, 2, 6, 4, 6, From1(), 2323);
    SevenWalk(29, 2, 6, 4, 2, 4, 6, 6, Seven(2, 6, 4, 2, 6, 4, 6, From1()), 2323);
    SevenWalk(5, 2, 4, 2, 4, 2, 4, 6, Seven(2, 6, 4, 2, 4, 6, 6, Seven(2, 6, 4, 2, 6, 4, 6, From1())), 2323);
  }

  // ---------- positions on the wheel ----------

  function Drop(s: Steps, n: nat): (r: Steps)
    requires n <= Len(s)
    ensures Len(r) == Len(s) - n
  {
    if n == 0 then s else Drop(s.rest, n - 1)
  }

  lemma {:induction false} DropDrop(s: Steps, n: nat, m: nat)
    requires n + m <= Len(s)
    ensures Drop(s, n + m) == Drop(Drop(s, n), m)
  {
    if n > 0 {
      DropDrop(s.rest, n - 1, m);
    }
  }

  /** Where n steps from p lead. */
  function PosAt(s: Steps, p: nat, n: nat): nat
    requires n <= Len(s)
  {
    if n == 0 then p else PosAt(s.rest, p + s.k, n - 1)
  }

  lemma {:induction false} WalkAt(s: Steps, p: nat, e: nat, n: nat)
    requires Walk(s, p, e) && n <= Len(s)
    ensures Walk(Drop(s, n), PosAt(s, p, n), e) && PosAt(s, p, n) % 2 == p % 2 && PosAt(s, p, n) >= p
    decreases n
  {
    hide Gap;
    if n > 0 {
      WalkAt(s.rest, p + s.k, e, n - 1);
    }
  }

  lemma {:induction false} PosStep(s: Steps, p: nat, n: nat)
    requires n < Len(s)
    ensures Drop(s, n).Go? && PosAt(s, p, n + 1) == PosAt(s, p, n) + Drop(s, n).k
    decreases n
  {
    if n > 0 {
      PosStep(s.rest, p + s.k, n - 1);
    }
  }

  lemma {:induction false} GapAt(p: nat, q0: nat, e: nat, q: nat)
    requires Gap(p, q0, e) && q0 <= q < e && (q - q0) % 2 == 0
    ensures Sieved(q, p)
    decreases e - q0
  {
    if q0 < q {
      GapAt(p, q0 + 2, e, q);
    }
  }

  /** The increment that wheel_tab holds at w. */
  function Increment(w: nat): nat
    requires w < WHEEL_SIZE
  {
    if w == 0 then 1 else if w == 1 then 2 else Walk0(); Drop(From0(), w - 2).k
  }

  /** The divisor stands at position w, after c turns of the wheel. */
  ghost predicate OnWheel(w: nat, factor: nat, c: nat)
  {
    && w < WHEEL_SIZE
    && if w < 2 then factor == w + 2 && c == 0
       else Walk0(); factor == PosAt(From0(), 5, w - 2) + 2310 * c && (w < WHEEL_START ==> c == 0)
  }

  lemma OnWheelBounds(w: nat, factor: nat, c: nat)
    requires OnWheel(w, factor, c)
    ensures factor >= 2 && (w >= 1 ==> factor >= 3) && (w >= 2 ==> factor >= 5 && factor % 2 == 1)
  {
    hide Walk, From0, Gap, PosAt, Drop, Len;
    if w >= 2 {
      Walk0();
      WalkAt(From0(), 5, 2323, w - 2);
    }
  }

  /** The position after an increment. */
  lemma OnWheelNext(w: nat, factor: nat, c: nat)
    requires OnWheel(w, factor, c)
    ensures if w + 1 < WHEEL_SIZE then OnWheel(w + 1, factor + Increment(w), c)
            else OnWheel(WHEEL_START, factor + Increment(w), c + 1)
  {
    hide Walk, Gap, From0;
    Walk0();
    if w >= 2 {
      PosStep(From0(), 5, w - 2);
      if w + 1 == WHEEL_SIZE {
        TurnEnd();
      }
    } else if w == 1 {
      assert PosAt(From0(), 5, 0) == 5;
    }
  }

  lemma TurnEnd()
    ensures Len(From0()) == 483 && PosAt(From0(), 5, 483) == 2323 && PosAt(From0(), 5, 3) == 13
  {
    hide Gap, From0;
    Walk0();
    WalkAt(From0(), 5, 2323, 483);
    FirstThree();
  }

  lemma FirstThree()
    ensures Len(From0()) >= 3 && PosAt(From0(), 5, 3) == 13
  {
    var s := From0();
    assert s.k == 2 && s.rest.k == 4 && s.rest.rest.k == 2;
    assert PosAt(s, 5, 3) == PosAt(s.rest, 7, 2) == PosAt(s.rest.rest, 11, 1) == PosAt(s.rest.rest.rest, 13, 0);
  }

  // ---------- nothing is missed ----------

  /** Whole turns do not change which small primes divide a number. */
  lemma TurnsKeep(q: nat, c: nat)
    ensures (q + 2310 * c) % 3 == q % 3 && (q + 2310 * c) % 5 == q % 5
    ensures (q + 2310 * c) % 7 == q % 7 && (q + 2310 * c) % 11 == q % 11
  {
    ModMultiple(q, 3, 770 * c);
    ModMultiple(q, 5, 462 * c);
    ModMultiple(q, 7, 330 * c);
    ModMultiple(q, 11, 210 * c);
  }

  lemma ModMultiple(q: nat, m: nat, t: nat)
    requires m > 0
    ensures (q + m * t) % m == q % m
  {
    Euclid(q, m);
    Euclid(q + m * t, m);
    assert m * (q / m + t) == m * (q / m) + m * t;
    QuotientUnique(m, q / m + t, q % m, (q + m * t) / m, (q + m * t) % m);
  }

  /** What a small prime divides, and comes after it, cannot be the least divisor of n. */
  lemma SmallPrime(r: nat, q: nat, f: nat, n: nat)
    requires 2 <= r <= f && q % r == 0 && NoneBelow(n, f) && !Divides(f, n)
    ensures !Divides(q, n)
  {
    DividesByMod(r, q);
    if Divides(q, n) {
      DividesTrans(r, q, n);
      assert false;
    }
  }

  lemma SievedOut(q: nat, p: nat, c: nat, n: nat)
    requires p >= 2 && Sieved(q, p) && NoneBelow(n, p + 2310 * c) && !Divides(p + 2310 * c, n)
    ensures !Divides(q + 2310 * c, n)
  {
    hide Divides, NoneBelow;
    TurnsKeep(q, c);
    var f := p + 2310 * c;
    if q % 3 == 0 && 3 <= p {
      SmallPrime(3, q + 2310 * c, f, n);
    } else if q % 5 == 0 && 5 <= p {
      SmallPrime(5, q + 2310 * c, f, n);
    } else if q % 7 == 0 && 7 <= p {
      SmallPrime(7, q + 2310 * c, f, n);
    } else {
      SmallPrime(11, q + 2310 * c, f, n);
    }
  }

  /** Numbers between two positions of the wheel divide n only if an earlier one does. */
  lemma Skipped(w: nat, factor: nat, c: nat, n: nat, q: nat)
    requires OnWheel(w, factor, c) && NoneBelow(n, factor) && !Divides(factor, n) && factor < q < factor + Increment(w)
    ensures !Divides(q, n)
  {
    hide Divides, NoneBelow, Walk, From0, Sieved;
    OnWheelBounds(w, factor, c);
    if q % 2 == 0 {
      SmallPrime(2, q, factor, n);
    } else {
      var p := factor - 2310 * c;
      GapOn(w, factor, c);
      hide OnWheel, Increment, Gap;
      GapAt(p, p + 2, p + Increment(w), q - 2310 * c);
      SievedOut(q - 2310 * c, p, c, n);
    }
  }

  /** Every odd number up to the next place on the wheel has one of its primes. */
  lemma GapOn(w: nat, factor: nat, c: nat)
    requires OnWheel(w, factor, c) && w >= 2
    ensures factor >= 2310 * c + 5 && Gap(factor - 2310 * c, factor - 2310 * c + 2, factor - 2310 * c + Increment(w))
  {
    hide Walk, From0, Sieved, Gap;
    Walk0();
    var p := PosAt(From0(), 5, w - 2);
    WalkAt(From0(), 5, 2323, w - 2);
    GapOf(Drop(From0(), w - 2), p, 2323);
  }

  lemma GapOf(s: Steps, p: nat, e: nat)
    requires Walk(s, p, e) && s.Go?
    ensures Gap(p, p + 2, p + s.k) && s.k % 2 == 0 && 0 < s.k < 16
  {
  }

  /** The next position still has no divisor of n below it. */
  lemma NextDivisor(w: nat, factor: nat, c: nat, n: nat)
    requires OnWheel(w, factor, c) && NoneBelow(n, factor) && !Divides(factor, n)
    ensures NoneBelow(n, factor + Increment(w)) && 0 < Increment(w) < 16
  {
    hide Divides, Increment;
    assert w < WHEEL_SIZE;
    hide OnWheel;
    forall d | 2 <= d < factor + Increment(w)
      ensures !Divides(d, n)
    {
      if d > factor {
        Skipped(w, factor, c, n, d);
      }
    }
    IncrementBounds(w);
  }

  lemma IncrementBounds(w: nat)
    requires w < WHEEL_SIZE
    ensures 0 < Increment(w) < 16
  {
    hide Walk, From0, Gap;
    if w >= 2 {
      Walk0();
      WalkAt(From0(), 5, 2323, w - 2);
      GapOf(Drop(From0(), w - 2), PosAt(From0(), 5, w - 2), 2323);
    }
  }
}
