/** Canonical prefix codes as section 3.2.2 of RFC 1951 builds them from code lengths alone. */
module Canonical {
  import opened Options
  import opened Sums
  import opened Bits

  /** No code is longer than this. */
  const MAX_BITS := 15

  /** How many of the symbols below i have code length len. */
  function Count(lens: seq<nat>, len: nat, i: nat): (c: nat)
    requires i <= |lens|
    ensures c <= i
  {
    if i == 0 then 0 else Count(lens, len, i - 1) + (if lens[i - 1] == len then 1 else 0)
  }

  /**
   * The number of len-bit strings used up by the codes of length at most len: each code of length k
   * uses up 2^(len - k) of them. The Kraft sum is Slots(lens, len) / 2^len for the largest len.
   */
  function Slots(lens: seq<nat>, len: nat): nat
  {
    if len == 0 then 0 else 2 * Slots(lens, len - 1) + Count(lens, len, |lens|)
  }

  /** The smallest code of a given length (step 2 of section 3.2.2). */
  function FirstCode(lens: seq<nat>, len: nat): nat
  {
    if len == 0 then 0 else 2 * Slots(lens, len - 1)
  }

  /** The code of symbol s (step 3 of section 3.2.2). */
  function Code(lens: seq<nat>, s: nat): nat
    requires s < |lens|
  {
    FirstCode(lens, lens[s]) + Count(lens, lens[s], s)
  }

  /** The lengths belong to a prefix code: no length above max, and the Kraft sum is at most one. */
  ghost predicate Prefix(lens: seq<nat>, max: nat)
  {
    && (forall s :: 0 <= s < |lens| ==> lens[s] <= max)
    && Slots(lens, max) <= Pow2(max)
  }

  /** The low n bits of code, most significant first. */
  function MsbBits(code: nat, n: nat): (bs: seq<bool>)
    ensures |bs| == n
  {
    if n == 0 then [] else [BitAt(code, n - 1)] + MsbBits(code, n - 1)
  }

  /** What a Huffman code looks like in the stream: most significant bit first. */
  function CodeBits(lens: seq<nat>, s: nat): (bs: seq<bool>)
    requires s < |lens|
    ensures |bs| == lens[s]
  {
    MsbBits(Code(lens, s), lens[s])
  }

  /** The first symbol at or after s with the given code length and code, or |lens|. */
  function Find(lens: seq<nat>, len: nat, code: nat, s: nat): (r: nat)
    requires s <= |lens|
    ensures s <= r <= |lens|
    ensures r < |lens| ==> lens[r] == len && Code(lens, r) == code
    decreases |lens| - s
  {
    if s == |lens| || (lens[s] == len && Code(lens, s) == code) then s
    else Find(lens, len, code, s + 1)
  }

  /** Reads bits one at a time until they spell a code. */
  function Walk(lens: seq<nat>, bs: seq<bool>, len: nat, code: nat): (r: Option<(nat, seq<bool>)>)
    ensures r.Some? ==> r.value.0 < |lens| && |r.value.1| < |bs|
  {
    if bs == [] then None
    else
      var code' := 2 * code + (if bs[0] then 1 else 0);
      var s := Find(lens, len + 1, code', 0);
      if s < |lens| then Some((s, bs[1..])) else Walk(lens, bs[1..], len + 1, code')
  }

  function DecodeSymbol(lens: seq<nat>, bs: seq<bool>): (r: Option<(nat, seq<bool>)>)
    ensures r.Some? ==> r.value.0 < |lens| && |r.value.1| < |bs|
  {
    Walk(lens, bs, 0, 0)
  }

  lemma {:induction false} CountStrict(lens: seq<nat>, len: nat, i: nat, j: nat)
    requires i < j <= |lens| && lens[i] == len
    ensures Count(lens, len, i) < Count(lens, len, j)
    decreases j
  {
    if i < j - 1 {
      CountStrict(lens, len, i, j - 1);
    }
  }

  /** Shorter prefixes of the length range also satisfy the Kraft inequality. */
  lemma {:induction false} SlotsFit(lens: seq<nat>, len: nat, max: nat)
    requires len <= max && Slots(lens, max) <= Pow2(max)
    ensures Slots(lens, len) <= Pow2(len)
    decreases max
  {
    if len < max {
      SlotsFit(lens, len, max - 1);
    }
  }

  /** Every code lies between the first code of its length and the slots used up. */
  lemma CodeRange(lens: seq<nat>, s: nat)
    requires s < |lens| && lens[s] > 0
    ensures 2 * Slots(lens, lens[s] - 1) <= Code(lens, s) < Slots(lens, lens[s])
  {
    CountStrict(lens, lens[s], s, |lens|);
  }

  lemma CodeFits(lens: seq<nat>, s: nat, max: nat)
    requires Prefix(lens, max) && s < |lens| && lens[s] > 0
    ensures Code(lens, s) < Pow2(lens[s])
  {
    CodeRange(lens, s);
    SlotsFit(lens, lens[s], max);
  }

  /** Codes of equal length differ. */
  lemma SameLengthDiffer(lens: seq<nat>, s: nat, t: nat)
    requires s < |lens| && t < |lens| && s != t && lens[s] == lens[t]
    ensures Code(lens, s) != Code(lens, t)
  {
    if s < t {
      CountStrict(lens, lens[s], s, t);
    } else {
      CountStrict(lens, lens[s], t, s);
    }
  }

  lemma {:induction false} ShrStep(v: nat, k: nat)
    ensures Shr(v, k) == 2 * Shr(v, k + 1) + (if BitAt(v, k) then 1 else 0)
  {
    if k > 0 {
      ShrStep(v / 2, k - 1);
    }
  }

  /** The leading n bits of a longer code lie above every code of length n. */
  lemma {:induction false} LongerCodesAbove(lens: seq<nat>, t: nat, n: nat)
    requires t < |lens| && n < lens[t]
    ensures Shr(Code(lens, t), lens[t] - n) >= Slots(lens, n)
    decreases lens[t] - n
  {
    var len := lens[t];
    CodeRange(lens, t);
    if n == len - 1 {
      ShrStep(Code(lens, t), 0);
    } else {
      LongerCodesAbove(lens, t, n + 1);
      ShrStep(Code(lens, t), len - n - 1);
    }
  }

  /** No code is a prefix of a longer one. */
  lemma NoProperPrefix(lens: seq<nat>, s: nat, t: nat)
    requires s < |lens| && t < |lens| && 0 < lens[s] < lens[t]
    ensures Shr(Code(lens, t), lens[t] - lens[s]) != Code(lens, s)
  {
    LongerCodesAbove(lens, t, lens[s]);
    CodeRange(lens, s);
  }

  /** Find at a code's own length picks exactly that code's symbol, and at a shorter length nothing. */
  lemma {:induction false} FindExact(lens: seq<nat>, t: nat, n: nat, from: nat)
    requires t < |lens| && 0 < n <= lens[t] && from <= |lens|
    requires n == lens[t] ==> from <= t
    ensures Find(lens, n, Shr(Code(lens, t), lens[t] - n), from) == if n == lens[t] then t else |lens|
    decreases |lens| - from
  {
    var code := Shr(Code(lens, t), lens[t] - n);
    if from < |lens| && !(lens[from] == n && Code(lens, from) == code) {
      if n == lens[t] {
        assert from != t;
      }
      FindExact(lens, t, n, from + 1);
    } else if from < |lens| {
      if n < lens[t] {
        NoProperPrefix(lens, from, t);
        assert false;
      } else if from != t {
        SameLengthDiffer(lens, from, t);
        assert false;
      }
    }
  }

  /** Having read n of the bits of t's code, the decoder goes on to find t. */
  lemma {:induction false} WalkFinds(lens: seq<nat>, t: nat, n: nat, rest: seq<bool>)
    requires t < |lens| && n < lens[t]
    ensures var k := lens[t] - n;
            Walk(lens, MsbBits(Code(lens, t), k) + rest, n, Shr(Code(lens, t), k)) == Some((t, rest))
    decreases lens[t] - n
  {
    var k := lens[t] - n;
    var code := Code(lens, t);
    var bs := MsbBits(code, k) + rest;
    ShrStep(code, k - 1);
    FindExact(lens, t, n + 1, 0);
    assert bs[1..] == MsbBits(code, k - 1) + rest;
    if k > 1 {
      WalkFinds(lens, t, n + 1, rest);
    }
  }

  /** Decoding a symbol's code gives the symbol back and stops right after it. */
  lemma DecodeEncoded(lens: seq<nat>, max: nat, t: nat, rest: seq<bool>)
    requires Prefix(lens, max) && t < |lens| && lens[t] > 0
    ensures DecodeSymbol(lens, CodeBits(lens, t) + rest) == Some((t, rest))
  {
    CodeFits(lens, t, max);
    ShrFits(Code(lens, t), lens[t], 0);
    WalkFinds(lens, t, 0, rest);
  }

  /** In the order sent, no symbol's bits start with another symbol's bits. */
  lemma PrefixFree(lens: seq<nat>, max: nat, s: nat, t: nat)
    requires Prefix(lens, max) && s < |lens| && t < |lens| && s != t && 0 < lens[s] && 0 < lens[t]
    ensures !(CodeBits(lens, s) <= CodeBits(lens, t))
  {
    var a, b := CodeBits(lens, s), CodeBits(lens, t);
    if a <= b {
      assert b + [] == a + b[|a|..];
      DecodeEncoded(lens, max, s, b[|a|..]);
      DecodeEncoded(lens, max, t, []);
    }
  }

  /** A complete code: the last code of maximal length is all ones. */
  lemma LastCodeAllOnes(lens: seq<nat>, t: nat)
    requires t < |lens| && lens[t] > 0 && Slots(lens, lens[t]) == Pow2(lens[t])
    requires forall s :: t < s < |lens| ==> lens[s] != lens[t]
    ensures Code(lens, t) == Pow2(lens[t]) - 1
  {
    CountAfter(lens, lens[t], t + 1, |lens|);
  }

  lemma {:induction false} CountAfter(lens: seq<nat>, len: nat, i: nat, j: nat)
    requires i <= j <= |lens|
    requires forall s :: i <= s < j ==> lens[s] != len
    ensures Count(lens, len, j) == Count(lens, len, i)
    decreases j
  {
    if i < j {
      CountAfter(lens, len, i, j - 1);
    }
  }

  /** The Kraft sum of the lengths, symbol by symbol, in units of 2^-max. */
  function KraftTerms(lens: seq<nat>, max: nat): (ts: seq<int>)
    ensures |ts| == |lens|
  {
    seq(|lens|, s requires 0 <= s < |lens| => if 0 < lens[s] <= max then Pow2(max - lens[s]) else 0)
  }

  /** Counting slots length by length gives the Kraft sum. */
  lemma {:induction false} SlotsIsKraft(lens: seq<nat>, max: nat)
    ensures Slots(lens, max) == Sum(KraftTerms(lens, max))
  {
    if max == 0 {
      SumZero(KraftTerms(lens, 0));
    } else {
      SlotsIsKraft(lens, max - 1);
      var shorter := KraftTerms(lens, max - 1);
      var doubled := seq(|lens|, s requires 0 <= s < |lens| => 2 * shorter[s]);
      SumScale(shorter, 2, doubled);
      var ones := Ones(lens, max);
      CountIsSum(lens, max, |lens|);
      assert ones[..|lens|] == ones;
      SumAdd(doubled, ones, KraftTerms(lens, max));
    }
  }

  function Ones(lens: seq<nat>, len: nat): (ts: seq<int>)
    ensures |ts| == |lens|
  {
    seq(|lens|, s requires 0 <= s < |lens| => if lens[s] == len then 1 else 0)
  }

  lemma {:induction false} CountIsSum(lens: seq<nat>, len: nat, i: nat)
    requires i <= |lens|
    ensures Count(lens, len, i) == Sum(Ones(lens, len)[..i])
  {
    if i > 0 {
      CountIsSum(lens, len, i - 1);
      assert Ones(lens, len)[..i][..i - 1] == Ones(lens, len)[..i - 1];
    }
  }
}
