/** Tallied tokens: their symbol frequencies, their cost in bits, and their packed representation. */
module Tokens {
  import opened Sums
  import opened Bits
  import opened Rfc1951
  import opened Blocks

  const LITERALS := 256
  const L_CODES := 286
  const D_CODES := 30
  const BL_CODES := 19

  /** The literal/length symbol of a token. */
  function LSym(t: Token): (s: nat)
    ensures s < L_CODES
  {
    match t
    case Literal(b) => b
    case Match(length, _) => 257 + LengthCode(length)
  }

  function DSym(t: Token): (s: nat)
    requires t.Match?
    ensures s < D_CODES
  {
    DistCode(t.distance)
  }

  function Bump(freq: seq<nat>, s: nat): (r: seq<nat>)
    requires s < |freq|
    ensures |r| == |freq|
  {
    freq[s := freq[s] + 1]
  }

  /** How often each literal/length symbol occurs, end-of-block included. */
  function LFreq(ts: seq<Token>): (freq: seq<nat>)
    ensures |freq| == L_CODES
  {
    if ts == [] then seq(L_CODES, _ => 0)[END_BLOCK := 1]
    else Bump(LFreq(ts[..|ts| - 1]), LSym(ts[|ts| - 1]))
  }

  function DFreq(ts: seq<Token>): (freq: seq<nat>)
    ensures |freq| == D_CODES
  {
    if ts == [] then seq(D_CODES, _ => 0)
    else
      var front, t := DFreq(ts[..|ts| - 1]), ts[|ts| - 1];
      if t.Match? then Bump(front, DSym(t)) else front
  }

  lemma LFreqAppend(ts: seq<Token>, t: Token)
    ensures LFreq(ts + [t]) == Bump(LFreq(ts), LSym(t))
    ensures DFreq(ts + [t]) == if t.Match? then Bump(DFreq(ts), DSym(t)) else DFreq(ts)
  {
    assert (ts + [t])[..|ts|] == ts;
  }

  lemma {:induction false} FreqMonotone(ts: seq<Token>, i: nat)
    requires i < |ts|
    ensures LFreq(ts)[LSym(ts[i])] > 0
    ensures ts[i].Match? ==> DFreq(ts)[DSym(ts[i])] > 0
    ensures LFreq(ts)[END_BLOCK] > 0
    decreases |ts|
  {
    var n := |ts| - 1;
    if i < n {
      FreqMonotone(ts[..n], i);
    } else {
      EndOccurs(ts[..n]);
    }
  }

  lemma {:induction false} EndOccurs(ts: seq<Token>)
    ensures LFreq(ts)[END_BLOCK] > 0
  {
    if ts != [] {
      EndOccurs(ts[..|ts| - 1]);
    }
  }

  // ---------- cost in bits ----------

  function Products(freq: seq<nat>, w: seq<nat>): (ts: seq<int>)
    requires |freq| == |w|
    ensures |ts| == |freq| && forall s :: 0 <= s < |freq| ==> ts[s] == freq[s] * w[s]
  {
    seq(|freq|, s requires 0 <= s < |freq| => freq[s] * w[s])
  }

  lemma BumpCost(freq: seq<nat>, w: seq<nat>, s: nat)
    requires |freq| == |w| && s < |freq|
    ensures Sum(Products(Bump(freq, s), w)) == Sum(Products(freq, w)) + w[s]
  {
    var a := Products(freq, w);
    assert Products(Bump(freq, s), w) == a[s := a[s] + w[s]];
    SumUpdate(a, s, a[s] + w[s]);
  }

  lemma BumpSum(freq: seq<nat>, s: nat)
    requires s < |freq|
    ensures Sum(Bump(freq, s)) == Sum(freq) + 1
  {
    hide Sum;
    var a: seq<int> := freq;
    SumUpdate(a, s, freq[s] + 1);
  }

  lemma EmptyFreq()
    ensures Sum(LFreq([])) == 1 && Sum(DFreq([])) == 0
  {
    var z: seq<int> := seq(L_CODES, _ => 0);
    SumZero(z);
    SumUpdate(z, END_BLOCK, 1);
    assert LFreq([]) == z[END_BLOCK := 1];
    SumZero(DFreq([]));
  }

  lemma {:induction false} TotalFreq(ts: seq<Token>)
    ensures Sum(LFreq(ts)) == |ts| + 1
    ensures Sum(DFreq(ts)) <= |ts|
    decreases |ts|
  {
    hide Sum, LSym, DSym, Bump;
    if ts == [] {
      EmptyFreq();
    } else {
      var front, t := ts[..|ts| - 1], ts[|ts| - 1];
      TotalFreq(front);
      BumpSum(LFreq(front), LSym(t));
      if t.Match? {
        BumpSum(DFreq(front), DSym(t));
      }
    }
  }

  /** Bits per occurrence of each symbol: its code and its extra bits. */
  function LExtra(s: nat): nat
  {
    if 257 <= s < L_CODES then LENGTH_EXTRA[s - 257] else 0
  }

  function LWeights(ll: seq<nat>): (w: seq<nat>)
    ensures |w| == L_CODES && forall s :: 0 <= s < L_CODES ==> w[s] == (if s < |ll| then ll[s] else 0) + LExtra(s)
  {
    seq(L_CODES, s requires 0 <= s < L_CODES => (if s < |ll| then ll[s] else 0) + LExtra(s))
  }

  function DExtra(s: nat): nat
  {
    if s < D_CODES then DIST_EXTRA[s] else 0
  }

  function DWeights(dl: seq<nat>): (w: seq<nat>)
    ensures |w| == D_CODES && forall s :: 0 <= s < D_CODES ==> w[s] == (if s < |dl| then dl[s] else 0) + DExtra(s)
  {
    seq(D_CODES, s requires 0 <= s < D_CODES => (if s < |dl| then dl[s] else 0) + DExtra(s))
  }

  lemma TokenCost(ll: seq<nat>, dl: seq<nat>, t: Token)
    requires TokenHasCode(ll, dl, t)
    ensures |TokenBits(ll, dl, t)| == LWeights(ll)[LSym(t)] + (if t.Match? then DWeights(dl)[DSym(t)] else 0)
  {
    hide LengthCode, DistCode;
    if t.Match? {
      LengthExtraFits(t.length);
      DistExtraFits(t.distance);
    }
  }

  /** The bits of a set of tokens follow from the symbol frequencies alone. */
  ghost function Cost(ll: seq<nat>, dl: seq<nat>, ts: seq<Token>): int
  {
    Sum(Products(LFreq(ts), LWeights(ll))) + Sum(Products(DFreq(ts), DWeights(dl)))
  }

  lemma EmptyCost(ll: seq<nat>, dl: seq<nat>)
    ensures Cost(ll, dl, []) == if 256 < |ll| then ll[256] else 0
  {
    var w := LWeights(ll);
    var z: seq<int> := seq(L_CODES, _ => 0);
    SumZero(z);
    SumUpdate(z, END_BLOCK, w[END_BLOCK]);
    assert Products(LFreq([]), w) == z[END_BLOCK := w[END_BLOCK]];
    SumZero(Products(DFreq([]), DWeights(dl)));
  }

  lemma CostAppend(ll: seq<nat>, dl: seq<nat>, ts: seq<Token>, t: Token)
    ensures Cost(ll, dl, ts + [t])
         == Cost(ll, dl, ts) + LWeights(ll)[LSym(t)] + (if t.Match? then DWeights(dl)[DSym(t)] else 0)
  {
    hide Sum, LSym, DSym, Bump, LWeights, DWeights;
    LFreqAppend(ts, t);
    BumpCost(LFreq(ts), LWeights(ll), LSym(t));
    if t.Match? {
      BumpCost(DFreq(ts), DWeights(dl), DSym(t));
    }
  }

  lemma {:induction false} TokensCost(ll: seq<nat>, dl: seq<nat>, ts: seq<Token>)
    requires TokensHaveCodes(ll, dl, ts)
    ensures |DataBits(ll, dl, ts)| == Cost(ll, dl, ts)
    decreases |ts|
  {
    hide TokenBits, TokenHasCode, Cost, LSym, DSym, LWeights, DWeights;
    if ts == [] {
      EmptyCost(ll, dl);
    } else {
      var front, t := ts[..|ts| - 1], ts[|ts| - 1];
      assert ts == front + [t];
      TokensCost(ll, dl, front);
      CostAppend(ll, dl, front, t);
      TokenCost(ll, dl, t);
    }
  }

  // ---------- the packed buffers ----------

  /** What l_buf holds for a token. */
  function LByte(t: Token): int
  {
    match t
    case Literal(b) => b
    case Match(length, _) => length - MIN_MATCH
  }

  function Matches(ts: seq<Token>): (n: nat)
    ensures n <= |ts|
  {
    if ts == [] then 0 else Matches(ts[..|ts| - 1]) + (if ts[|ts| - 1].Match? then 1 else 0)
  }

  /** The flags of the tokens from i to j. */
  function FlagBits(ts: seq<Token>, i: nat, j: nat): (bs: seq<bool>)
    requires i <= j <= |ts|
    ensures |bs| == j - i && forall k :: 0 <= k < j - i ==> bs[k] == ts[i + k].Match?
  {
    seq(j - i, k requires 0 <= k < j - i => ts[i + k].Match?)
  }

  function FlagEnd(ts: seq<Token>, j: nat): (e: nat)
    requires 8 * j <= |ts|
    ensures 8 * j <= e <= |ts| && e <= 8 * j + 8
  {
    if 8 * j + 8 <= |ts| then 8 * j + 8 else |ts|
  }

  /** The j-th byte of flags, possibly incomplete. */
  function FlagByte(ts: seq<Token>, j: nat): nat
    requires 8 * j <= |ts|
  {
    FromBits(FlagBits(ts, 8 * j, FlagEnd(ts, j)))
  }

  lemma {:induction false} FromBitsAppend(bs: seq<bool>, b: bool)
    ensures FromBits(bs + [b]) == FromBits(bs) + (if b then Pow2(|bs|) else 0)
  {
    if bs == [] {
      assert bs + [b] == [b];
    } else {
      assert (bs + [b])[1..] == bs[1..] + [b];
      FromBitsAppend(bs[1..], b);
    }
  }

  lemma {:induction false} ShlOne(k: nat)
    ensures Shl(1, k) == Pow2(k)
  {
    if k > 0 {
      ShlOne(k - 1);
    }
  }

  /** Setting the next flag. */
  lemma FlagAppend(ts: seq<Token>, i: nat, t: Token)
    requires i <= |ts|
    ensures var flags := FromBits(FlagBits(ts, i, |ts|)); var bit := Pow2(|ts| - i);
            FromBits(FlagBits(ts + [t], i, |ts| + 1)) == if t.Match? then BitOr(flags, bit) else flags
  {
    var bs := FlagBits(ts, i, |ts|);
    assert FlagBits(ts + [t], i, |ts| + 1) == bs + [t.Match?];
    FromBitsAppend(bs, t.Match?);
    ShlOne(|ts| - i);
    BitOrDisjoint(FromBits(bs), |ts| - i, 1);
  }

  lemma FlagFirst(ts: seq<Token>, i: nat, j: nat)
    requires i < j <= |ts|
    ensures FromBits(FlagBits(ts, i, j)) % 2 == (if ts[i].Match? then 1 else 0)
    ensures FromBits(FlagBits(ts, i, j)) / 2 == FromBits(FlagBits(ts, i + 1, j))
  {
    assert FlagBits(ts, i, j)[1..] == FlagBits(ts, i + 1, j);
  }
}
