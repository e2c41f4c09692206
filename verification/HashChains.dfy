/** The hash chains over the window: what prev[] and head[] mean, and how inserting and sliding keep it. */
module HashChains {
  import opened Sums
  import opened Bits
  import opened StringHash

  /** q & WMASK, for a window index. */
  function Slot(q: nat, wsize: nat): nat
    requires q < 2 * wsize
  {
    if q < wsize then q else q - wsize
  }

  /** The hash of the three bytes at window index q. */
  function HashAt(p: Hashing, win: seq<byte>, q: nat): nat
    requires q + 2 < |win|
  {
    Hash3(p, win[q], win[q + 1], win[q + 2])
  }

  /** The last string before n with the hash h; 0 if there is none behind the one at index 0. */
  ghost function Latest(p: Hashing, win: seq<byte>, h: nat, n: nat): (q: nat)
    requires n + 1 < |win|
    ensures q == 0 || (q < n && HashAt(p, win, q) == h)
    ensures forall r :: q < r < n ==> HashAt(p, win, r) != h
  {
    if n <= 1 then 0 else if HashAt(p, win, n - 1) == h then n - 1 else Latest(p, win, h, n - 1)
  }

  lemma LatestIs(p: Hashing, win: seq<byte>, h: nat, n: nat, q: nat)
    requires n + 1 < |win| && (q == 0 || (q < n && HashAt(p, win, q) == h))
    requires forall r :: q < r < n ==> HashAt(p, win, r) != h
    ensures Latest(p, win, h, n) == q
  {
    hide HashAt;
  }

  /** The link stored for q leads to the last string before it with the same hash, or ends the chain. */
  ghost predicate LinkOk(p: Hashing, win: seq<byte>, prev: seq<nat>, q: nat)
    requires q < 2 * |prev| && q + 2 < |win|
  {
    prev[Slot(q, |prev|)] == Latest(p, win, HashAt(p, win, q), q)
  }

  ghost predicate HeadOk(p: Hashing, win: seq<byte>, head: seq<nat>, h: nat, ins: nat)
    requires h < |head| && ins + 1 < |win|
  {
    head[h] == Latest(p, win, h, ins)
  }

  /** All strings below ins have been inserted, each behind the last one with the same hash; the last |prev| of them
      still have their links. */
  ghost predicate Chains(p: Hashing, win: seq<byte>, prev: seq<nat>, head: seq<nat>, ins: nat)
  {
    && ins <= 2 * |prev| && 2 * |prev| + 1 < |win| && |head| == Pow2(p.bits)
    && (forall q :: 0 <= q < ins && ins - |prev| <= q ==> LinkOk(p, win, prev, q))
    && (forall h :: 0 <= h < |head| ==> HeadOk(p, win, head, h, ins))
  }

  lemma ChainsEmpty(p: Hashing, win: seq<byte>, prev: seq<nat>, head: seq<nat>)
    requires 2 * |prev| + 1 < |win| && |head| == Pow2(p.bits) && forall h :: 0 <= h < |head| ==> head[h] == 0
    ensures Chains(p, win, prev, head, 0)
  {
  }

  /** INSERT_STRING keeps the chains, and finds the last string with the same hash. */
  lemma ChainsInsert(p: Hashing, win: seq<byte>, prev: seq<nat>, head: seq<nat>, ins: nat, h: nat)
    requires Chains(p, win, prev, head, ins) && ins < 2 * |prev|
    requires h < |head| && h == HashAt(p, win, ins)
    ensures Chains(p, win, prev[Slot(ins, |prev|) := head[h]], head[h := ins], ins + 1)
    ensures head[h] == Latest(p, win, h, ins)
  {
    hide HashAt;
    assert HeadOk(p, win, head, h, ins);
    var prev', head' := prev[Slot(ins, |prev|) := head[h]], head[h := ins];
    forall q | 0 <= q < ins + 1 && ins + 1 - |prev| <= q
      ensures LinkOk(p, win, prev', q)
    {
      if q < ins {
        assert LinkOk(p, win, prev, q);
        assert Slot(q, |prev|) != Slot(ins, |prev|);
      }
    }
    var ins' := ins + 1;
    forall g | 0 <= g < |head'|
      ensures HeadOk(p, win, head', g, ins')
    {
      assert HeadOk(p, win, head, g, ins);
    }
  }

  lemma {:induction false} LatestSame(p: Hashing, win: seq<byte>, win': seq<byte>, h: nat, n: nat)
    requires n + 1 < |win| == |win'| && (n > 0 ==> win'[..n + 2] == win[..n + 2])
    ensures Latest(p, win', h, n) == Latest(p, win, h, n)
  {
    hide HashAt;
    if n > 1 {
      var k := n - 1;
      SameHash(p, win, win', n, k);
      assert win'[..k + 2] == win'[..n + 2][..k + 2] && win[..k + 2] == win[..n + 2][..k + 2];
      LatestSame(p, win, win', h, k);
    }
  }

  lemma SameHash(p: Hashing, win: seq<byte>, win': seq<byte>, n: nat, q: nat)
    requires q < n && n + 1 < |win| == |win'| && win'[..n + 2] == win[..n + 2]
    ensures HashAt(p, win', q) == HashAt(p, win, q)
  {
    hide Hash3;
    assert win'[..n + 2][q] == win[..n + 2][q] && win'[..n + 2][q + 1] == win[..n + 2][q + 1];
    assert win'[..n + 2][q + 2] == win[..n + 2][q + 2];
  }

  /** The chains depend only on the bytes up to the second one after the last inserted index. */
  lemma ChainsSameBytes(p: Hashing, win: seq<byte>, win': seq<byte>, prev: seq<nat>, head: seq<nat>, ins: nat)
    requires Chains(p, win, prev, head, ins) && |win'| == |win| && (ins == 0 || win'[..ins + 2] == win[..ins + 2])
    ensures Chains(p, win', prev, head, ins)
  {
    hide HashAt, Latest;
    forall q | 0 <= q < ins && ins - |prev| <= q
      ensures LinkOk(p, win', prev, q)
    {
      assert LinkOk(p, win, prev, q);
      SameHash(p, win, win', ins, q);
      assert win'[..q + 2] == win'[..ins + 2][..q + 2] && win[..q + 2] == win[..ins + 2][..q + 2];
      LatestSame(p, win, win', HashAt(p, win, q), q);
    }
    forall h | 0 <= h < |head|
      ensures HeadOk(p, win', head, h, ins)
    {
      assert HeadOk(p, win, head, h, ins);
      LatestSame(p, win, win', h, ins);
    }
  }

  /** An index after the upper half of the window has moved down. */
  function Down(m: nat, wsize: nat): nat
  {
    if m >= wsize then m - wsize else 0
  }

  /** Every entry of a table after the slide. */
  ghost predicate MovedDown(before: seq<nat>, after: seq<nat>, wsize: nat)
  {
    |after| == |before| && forall n :: 0 <= n < |before| ==> after[n] == Down(before[n], wsize)
  }

  lemma HashSlides(p: Hashing, win: seq<byte>, win': seq<byte>, wsize: nat, m: nat)
    requires 2 * wsize <= |win| == |win'| && win'[..wsize] == win[wsize..2 * wsize] && wsize <= m && m + 2 < 2 * wsize
    ensures HashAt(p, win', m - wsize) == HashAt(p, win, m)
  {
    hide Hash3;
    var k := m - wsize;
    assert win'[..wsize][k] == win[wsize..2 * wsize][k];
    assert win'[..wsize][k + 1] == win[wsize..2 * wsize][k + 1];
    assert win'[..wsize][k + 2] == win[wsize..2 * wsize][k + 2];
  }

  lemma LatestSlides(p: Hashing, win: seq<byte>, win': seq<byte>, wsize: nat, h: nat, n: nat)
    requires 2 * wsize + 1 < |win| == |win'| && win'[..wsize] == win[wsize..2 * wsize]
    requires wsize <= n && n + 1 < 2 * wsize
    ensures Latest(p, win', h, n - wsize) == Down(Latest(p, win, h, n), wsize)
  {
    hide HashAt;
    var q, k: nat := Latest(p, win, h, n), n - wsize;
    var d := Down(q, wsize);
    forall r | 0 <= r < k
      ensures HashAt(p, win', r) == HashAt(p, win, r + wsize)
    {
      HashSlides(p, win, win', wsize, r + wsize);
    }
    LatestIs(p, win', h, k, d);
  }

  /** Sliding the window keeps the chains. */
  lemma ChainsSlide(p: Hashing, win: seq<byte>, win': seq<byte>, prev: seq<nat>, prev': seq<nat>,
                    head: seq<nat>, head': seq<nat>, ins: nat)
    requires Chains(p, win, prev, head, ins) && |prev| <= ins && ins + 1 < 2 * |prev|
    requires |win'| == |win| && win'[..|prev|] == win[|prev|..2 * |prev|]
    requires MovedDown(prev, prev', |prev|) && MovedDown(head, head', |prev|)
    ensures Chains(p, win', prev', head', ins - |prev|)
  {
    hide HashAt, Latest;
    var w := |prev|;
    forall q | 0 <= q < ins - w
      ensures LinkOk(p, win', prev', q)
    {
      assert LinkOk(p, win, prev, q + w);
      HashSlides(p, win, win', w, q + w);
      LatestSlides(p, win, win', w, HashAt(p, win, q + w), q + w);
    }
    var ins': nat := ins - w;
    forall h | 0 <= h < |head'|
      ensures HeadOk(p, win', head', h, ins')
    {
      assert HeadOk(p, win, head, h, ins);
      LatestSlides(p, win, win', w, h, ins);
    }
  }

  /** Two stretches of the window are equal. */
  ghost predicate SameStretch(win: seq<byte>, a: nat, b: nat, len: nat)
    requires a + len <= |win| && b + len <= |win|
  {
    win[a..a + len] == win[b..b + len]
  }

  lemma SameOneMore(win: seq<byte>, a: nat, b: nat, len: nat)
    requires a + len < |win| && b + len < |win| && SameStretch(win, a, b, len) && win[a + len] == win[b + len]
    ensures SameStretch(win, a, b, len + 1)
  {
    assert win[a..a + len + 1] == win[a..a + len] + [win[a + len]];
    assert win[b..b + len + 1] == win[b..b + len] + [win[b + len]];
  }

  lemma SameShorter(win: seq<byte>, a: nat, b: nat, len: nat, k: nat)
    requires a + len <= |win| && b + len <= |win| && SameStretch(win, a, b, len) && k <= len
    ensures SameStretch(win, a, b, k)
  {
    assert win[a..a + k] == win[a..a + len][..k];
    assert win[b..b + k] == win[b..b + len][..k];
  }

  /** Two strings with the same hash that agree in two bytes agree in three. */
  lemma ThreeEqual(p: Hashing, win: seq<byte>, a: nat, b: nat)
    requires p.Valid() && a + 2 < |win| && b + 2 < |win| && HashAt(p, win, a) == HashAt(p, win, b)
    requires win[a] == win[b] && win[a + 1] == win[b + 1]
    ensures win[a + 2] == win[b + 2]
  {
    hide Hash3;
    ThirdEqual(p, win[a], win[a + 1], win[a + 2], win[b + 2]);
  }
}
