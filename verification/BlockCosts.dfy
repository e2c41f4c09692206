/** opt_len and static_len are exact: the bits counted while building trees are the bits sent. */
module BlockCosts {
  import opened Sums
  import opened Options
  import opened Rfc1951
  import opened RunLength
  import opened Blocks
  import opened HuffmanPass
  import opened HuffmanBuilding
  import opened Tokens
  import opened LengthSending

  /** Lengths plus extra bits. */
  function Weights(lens: seq<nat>, extra: seq<nat>): (w: seq<nat>)
    requires |lens| == |extra|
    ensures |w| == |lens| && forall s :: 0 <= s < |lens| ==> w[s] == lens[s] + extra[s]
  {
    seq(|lens|, s requires 0 <= s < |lens| => lens[s] + extra[s])
  }

  /** The extra bits a tree description attaches to each symbol. */
  ghost predicate ExtraIs(c: Costs, extra: seq<nat>)
  {
    forall s :: 0 <= s < |extra| ==> XBits(c, s) == extra[s]
  }

  lemma CostIsProducts(c: Costs, freq: seq<nat>, lens: seq<nat>, extra: seq<nat>)
    requires |freq| == |lens| == |extra| && |lens| <= |c.freq| && c.freq[..|lens|] == freq
    requires CoversUsed(freq, lens) && ExtraIs(c, extra)
    ensures Sum(CostTerms(c, lens)) == Sum(Products(freq, Weights(lens, extra)))
  {
    hide Sum, XBits;
    forall s | 0 <= s < |lens|
      ensures CostTerms(c, lens)[s] == Products(freq, Weights(lens, extra))[s]
    {
      assert c.freq[s] == c.freq[..|lens|][s];
    }
    assert CostTerms(c, lens) == Products(freq, Weights(lens, extra));
  }

  lemma StaticIsProducts(c: Costs, freq: seq<nat>, lens: seq<nat>, slens: seq<nat>, extra: seq<nat>)
    requires |freq| == |lens| == |extra| && |lens| <= |c.freq| && c.freq[..|lens|] == freq
    requires |lens| == |slens| && c.staticLens.Some? && |lens| <= |c.staticLens.value|
        && c.staticLens.value[..|lens|] == slens
    requires CoversUsed(freq, lens) && ExtraIs(c, extra)
    ensures Sum(StaticTerms(c, lens)) == Sum(Products(freq, Weights(slens, extra)))
  {
    hide Sum, XBits;
    forall s | 0 <= s < |lens|
      ensures StaticTerms(c, lens)[s] == Products(freq, Weights(slens, extra))[s]
    {
      assert c.freq[s] == c.freq[..|lens|][s] && c.staticLens.value[s] == c.staticLens.value[..|lens|][s];
    }
    assert StaticTerms(c, lens) == Products(freq, Weights(slens, extra));
  }

  // ---------- the three alphabets ----------

  function LExtras(): (x: seq<nat>)
    ensures |x| == L_CODES && forall s :: 0 <= s < L_CODES ==> x[s] == LExtra(s)
  {
    seq(L_CODES, s requires 0 <= s => LExtra(s))
  }

  function DExtras(): (x: seq<nat>)
    ensures |x| == D_CODES && forall s :: 0 <= s < D_CODES ==> x[s] == DExtra(s)
  {
    seq(D_CODES, s requires 0 <= s => DExtra(s))
  }

  /** extra_blbits. */
  function BlExtra(s: nat): nat
  {
    if s == 16 then 2 else if s == 17 then 3 else if s == 18 then 7 else 0
  }

  function BlExtras(): (x: seq<nat>)
    ensures |x| == BL_CODES && forall s :: 0 <= s < BL_CODES ==> x[s] == BlExtra(s)
  {
    seq(BL_CODES, s requires 0 <= s => BlExtra(s))
  }

  /** Cutting off symbols without a code changes no weight. */
  lemma TrimmedWeights(ll: seq<nat>, k: nat)
    requires |ll| == L_CODES && k <= L_CODES && forall s :: k <= s < L_CODES ==> ll[s] == 0
    ensures LWeights(ll[..k]) == LWeights(ll) == Weights(ll, LExtras())
  {
  }

  lemma TrimmedDWeights(dl: seq<nat>, k: nat)
    requires |dl| == D_CODES && k <= D_CODES && forall s :: k <= s < D_CODES ==> dl[s] == 0
    ensures DWeights(dl[..k]) == DWeights(dl) == Weights(dl, DExtras())
  {
  }

  /** The bits of items follow from their counts. */
  lemma {:induction false} ItemsCost(cl: seq<nat>, items: seq<Item>)
    requires |cl| == BL_CODES && Codable(cl, items) && ItemsOk(items)
    ensures |ItemsBits(cl, items)| == Sum(Products(CountItems(NoCounts(), items), Weights(cl, BlExtras())))
    decreases |items|
  {
    hide Sum, Products, ItemBits;
    var w := Weights(cl, BlExtras());
    if items == [] {
      ZeroProducts(w);
    } else {
      var front, it := items[..|items| - 1], items[|items| - 1];
      assert items == front + [it];
      CodablePrefix(cl, front, [it]);
      ItemsCost(cl, front);
      OneItem(cl, it);
      ItemsBitsConcat(cl, front, [it]);
      BumpCost(CountItems(NoCounts(), front), w, ItemSymbol(it));
      ItemCost(cl, it);
    }
  }

  function NoCounts(): (z: seq<nat>)
    ensures |z| == BL_CODES && forall i :: 0 <= i < BL_CODES ==> z[i] == 0
  {
    seq(BL_CODES, _ => 0)
  }

  lemma ZeroProducts(w: seq<nat>)
    requires |w| == BL_CODES
    ensures Sum(Products(NoCounts(), w)) == 0
  {
    SumZero(Products(NoCounts(), w));
  }

  lemma ItemCost(cl: seq<nat>, it: Item)
    requires |cl| == BL_CODES && HasCode(cl, it) && ItemOk(it)
    ensures |ItemBits(cl, it)| == Weights(cl, BlExtras())[ItemSymbol(it)]
  {
  }

  /** Every item sent was counted. */
  lemma {:induction false} ItemsOccur(items: seq<Item>, i: nat)
    requires i < |items| && ItemSymbol(items[i]) < BL_CODES
    ensures CountItems(NoCounts(), items)[ItemSymbol(items[i])] > 0
    decreases |items|
  {
    var n := |items| - 1;
    if i < n {
      ItemsOccur(items[..n], i);
    }
  }

  /** The bits of a block's data, from what the two trees cost. */
  lemma DataCost(ts: seq<Token>, ll: seq<nat>, dl: seq<nat>, lk: nat, dk: nat)
    requires |ll| == L_CODES && lk <= L_CODES && forall s :: lk <= s < L_CODES ==> ll[s] == 0
    requires |dl| == D_CODES && dk <= D_CODES && forall s :: dk <= s < D_CODES ==> dl[s] == 0
    requires TokensHaveCodes(ll[..lk], dl[..dk], ts)
    ensures |DataBits(ll[..lk], dl[..dk], ts)|
         == Sum(Products(LFreq(ts), Weights(ll, LExtras()))) + Sum(Products(DFreq(ts), Weights(dl, DExtras())))
  {
    hide Sum, Products, LFreq, DFreq, LWeights, DWeights, Weights;
    TokensCost(ll[..lk], dl[..dk], ts);
    TrimmedWeights(ll, lk);
    TrimmedDWeights(dl, dk);
  }

  lemma FixedCost(ts: seq<Token>)
    requires TokensHaveCodes(FixedLens(), FixedDistLens(), ts)
    ensures |DataBits(FixedLens(), FixedDistLens(), ts)|
         == Sum(Products(LFreq(ts), Weights(FixedLens()[..L_CODES], LExtras())))
          + Sum(Products(DFreq(ts), Weights(FixedDistLens(), DExtras())))
  {
    hide Sum, Products, LFreq, DFreq;
    TokensCost(FixedLens(), FixedDistLens(), ts);
    assert LWeights(FixedLens()) == Weights(FixedLens()[..L_CODES], LExtras());
    assert DWeights(FixedDistLens()) == Weights(FixedDistLens(), DExtras());
  }

  // ---------- at least one length is sent as itself ----------

  /** Without an item for a nonzero length only zeros are decoded. */
  lemma {:induction false} OnlyZeros(acc: seq<nat>, items: seq<Item>)
    requires (forall i :: 0 <= i < |acc| ==> acc[i] == 0)
    requires forall i :: 0 <= i < |items| && items[i].Len? ==> items[i].len == 0
    ensures forall i :: 0 <= i < |ApplyAll(acc, items)| ==> ApplyAll(acc, items)[i] == 0
    decreases |items|
  {
    if items != [] {
      var it := items[0];
      if it.Prev? && acc != [] {
        RepeatIs(acc, acc[|acc| - 1], it.count);
      } else if it.ZeroRun? {
        RepeatIs(acc, 0, it.count);
      }
      OnlyZeros(Apply(acc, it), items[1..]);
    }
  }

  lemma SomeLength(lens: seq<nat>, s: nat) returns (i: nat)
    requires (forall k :: 0 <= k < |lens| ==> lens[k] < 16) && s < |lens| && lens[s] > 0
    ensures i < |AllItems(lens)| && AllItems(lens)[i].Len? && 0 < AllItems(lens)[i].len < 16
  {
    hide AllItems;
    RunLengthRoundTrip([], lens);
    assert [] + lens == lens;
    if forall k :: 0 <= k < |AllItems(lens)| && AllItems(lens)[k].Len? ==> AllItems(lens)[k].len == 0 {
      OnlyZeros([], AllItems(lens));
      assert false;
    }
    i :| 0 <= i < |AllItems(lens)| && AllItems(lens)[i].Len? && AllItems(lens)[i].len != 0;
    assert ItemOk(AllItems(lens)[i]);
  }

  lemma {:induction false} CountTotal(freq: seq<nat>, items: seq<Item>)
    requires |freq| == BL_CODES
    ensures Sum(CountItems(freq, items)) <= Sum(freq) + |items|
    decreases |items|
  {
    hide Sum;
    if items != [] {
      var n := |items| - 1;
      CountTotal(freq, items[..n]);
      if ItemSymbol(items[n]) < BL_CODES {
        BumpSum(CountItems(freq, items[..n]), ItemSymbol(items[n]));
      }
    }
  }

  /** There are no more items than lengths. */
  lemma ItemsFewer(lens: seq<nat>)
    requires forall k :: 0 <= k < |lens| ==> lens[k] < 16
    ensures |AllItems(lens)| <= |lens|
  {
    hide AllItems;
    RunLengthRoundTrip([], lens);
    ApplyGrows([], AllItems(lens));
  }
}
