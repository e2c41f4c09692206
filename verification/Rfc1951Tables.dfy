/** The tables of RFC 1951 by the rules behind them. */
module Rfc1951Tables {
  import opened Sums
  import opened Rfc1951

  /** Section 3.2.5: from 257 on the codes cover the lengths from 3 to 258 without a gap, with one more extra bit in
      every fourth code from 265 on; the last code is 258 alone. */
  lemma LengthTable(c: nat)
    requires c < 29
    ensures |LENGTH_BASE| == 29 == |LENGTH_EXTRA| && LENGTH_BASE[0] == 3 && LENGTH_BASE[28] == 258
    ensures LENGTH_EXTRA[c] == if c < 8 || c == 28 then 0 else c / 4 - 1
    ensures c < 27 ==> LENGTH_BASE[c + 1] == LENGTH_BASE[c] + Pow2(LENGTH_EXTRA[c])
    ensures LENGTH_BASE[27] + Pow2(LENGTH_EXTRA[27]) == 258 + 1
  {
    SmallPowers();
  }

  /** Section 3.2.5: the distances from 1 to 32768, with one more extra bit in every second code from 4 on. */
  lemma DistTable(c: nat)
    requires c < 30
    ensures |DIST_BASE| == 30 == |DIST_EXTRA| && DIST_BASE[0] == 1
    ensures DIST_EXTRA[c] == if c < 2 then 0 else c / 2 - 1
    ensures c < 29 ==> DIST_BASE[c + 1] == DIST_BASE[c] + Pow2(DIST_EXTRA[c])
    ensures DIST_BASE[29] + Pow2(DIST_EXTRA[29]) == 32768 + 1
  {
    SmallPowers();
  }

  lemma SmallPowers()
    ensures Pow2(0) == 1 && Pow2(1) == 2 && Pow2(2) == 4 && Pow2(3) == 8 && Pow2(4) == 16 && Pow2(5) == 32
    ensures Pow2(6) == 64 && Pow2(7) == 128 && Pow2(8) == 256 && Pow2(9) == 512 && Pow2(10) == 1024
    ensures Pow2(11) == 2048 && Pow2(12) == 4096 && Pow2(13) == 8192
  {
  }

  /** Section 3.2.7: the repeat codes and zero first, then the lengths by their distance from 8, the longer one
      first. */
  lemma OrderTable(k: nat)
    requires k < 8
    ensures |CL_ORDER| == 19 && CL_ORDER[..4] == [16, 17, 18, 0]
    ensures CL_ORDER[4 + 2 * k] == 8 + k && (k < 7 ==> CL_ORDER[5 + 2 * k] == 7 - k)
  {
  }
}
