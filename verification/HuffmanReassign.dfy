/** Handing the repaired counts back to the leaves, rarest symbols first. */
module HuffmanReassign {
  import opened Sums
  import opened Canonical
  import opened HuffmanShape
  import opened HuffmanLengths
  import opened HuffmanPass

  /** The lengths now stored for the leaves. */
  ghost function StoredLens(sh: Shape, dl: seq<nat>): (lens: seq<nat>)
    requires sh.elems <= |dl|
    ensures |lens| == sh.elems
    ensures forall s :: 0 <= s < sh.elems ==> lens[s] == if s in sh.syms then dl[s] else 0
  {
    seq(sh.elems, s requires 0 <= s < sh.elems => if s in sh.syms then dl[s] else 0)
  }

  /** The lengths handed out so far: those of the leaves listed from position i on. */
  ghost function Handed(sh: Shape, pos: seq<nat>, dl: seq<nat>, i: nat): (lens: seq<nat>)
    requires sh.elems <= |dl| && sh.elems <= |pos|
    ensures |lens| == sh.elems
    ensures forall s :: 0 <= s < sh.elems ==> lens[s] == if s in sh.syms && pos[s] >= i then dl[s] else 0
  {
    seq(sh.elems, s requires 0 <= s < sh.elems => if s in sh.syms && pos[s] >= i then dl[s] else 0)
  }

  /** Lengths above bits are used up, n codes of length bits are still to be handed out. */
  function Given(counts: seq<nat>, bits: nat, n: nat, len: nat): int
    requires len < |counts|
  {
    if len > bits then counts[len] else if len == bits then counts[len] - n else 0
  }

  ghost predicate HandInv(sh: Shape, order: seq<nat>, pos: seq<nat>, counts: seq<nat>, max: nat,
                          dl: seq<nat>, bits: nat, n: nat, i: nat)
    requires Full(sh) && Listed(sh, order, pos)
  {
    && max < |counts| && sh.root < |dl| && i <= |order| && bits <= max && (bits == 0 ==> n == 0)
    && (forall s :: s in sh.syms && pos[s] >= i ==> 1 <= dl[s] <= max)
    && (forall len :: 1 <= len <= max ==>
          Count(Handed(sh, pos, dl, i), len, sh.elems) == Given(counts, bits, n, len))
  }

  lemma {:induction false} CountUpdate(lens: seq<nat>, s: nat, v: nat, len: nat, i: nat)
    requires s < |lens| && i <= |lens|
    ensures Count(lens[s := v], len, i)
         == Count(lens, len, i) + (if s < i && v == len then 1 else 0) - (if s < i && lens[s] == len then 1 else 0)
  {
    if i > 0 {
      CountUpdate(lens, s, v, len, i - 1);
    }
  }

  lemma {:induction false} CountNone(lens: seq<nat>, len: nat, i: nat)
    requires i <= |lens| && forall s :: 0 <= s < i ==> lens[s] != len
    ensures Count(lens, len, i) == 0
  {
    if i > 0 {
      CountNone(lens, len, i - 1);
    }
  }

  lemma HandStart(sh: Shape, order: seq<nat>, pos: seq<nat>, counts: seq<nat>, max: nat, dl: seq<nat>)
    requires Full(sh) && Listed(sh, order, pos) && 0 < max < |counts| && sh.root < |dl|
    ensures HandInv(sh, order, pos, counts, max, dl, max, counts[max], |order|)
  {
    hide Count;
    forall s | s in sh.syms
      ensures pos[s] < |order|
    {
      LeafDepth(sh, s);
    }
    forall len | 1 <= len <= max
      ensures Count(Handed(sh, pos, dl, |order|), len, sh.elems) == 0
    {
      CountNone(Handed(sh, pos, dl, |order|), len, sh.elems);
    }
  }

  /** All codes of one length are handed out: on to the next shorter length. */
  lemma HandNextLength(sh: Shape, order: seq<nat>, pos: seq<nat>, counts: seq<nat>, max: nat,
                       dl: seq<nat>, bits: nat, i: nat)
    requires Full(sh) && Listed(sh, order, pos)
    requires HandInv(sh, order, pos, counts, max, dl, bits, 0, i) && bits > 0
    ensures HandInv(sh, order, pos, counts, max, dl, bits - 1, if bits == 1 then 0 else counts[bits - 1], i)
  {
    hide Full, Listed, Count, Handed;
    forall len | 1 <= len <= max
      ensures Given(counts, bits, 0, len) == Given(counts, bits - 1, if bits == 1 then 0 else counts[bits - 1], len)
    {
    }
  }

  /** Inner nodes are passed over. */
  lemma HandSkip(sh: Shape, order: seq<nat>, pos: seq<nat>, counts: seq<nat>, max: nat,
                 dl: seq<nat>, bits: nat, n: nat, i: nat)
    requires Full(sh) && Listed(sh, order, pos)
    requires HandInv(sh, order, pos, counts, max, dl, bits, n, i) && i > 0 && order[i - 1] !in sh.syms
    ensures HandInv(sh, order, pos, counts, max, dl, bits, n, i - 1)
  {
    hide Count;
    forall s | s in sh.syms
      ensures pos[s] >= i <==> pos[s] >= i - 1
    {
      LeafDepth(sh, s);
    }
    assert Handed(sh, pos, dl, i - 1) == Handed(sh, pos, dl, i);
  }

  /** The next leaf gets a code of length bits. */
  lemma HandLeaf(sh: Shape, order: seq<nat>, pos: seq<nat>, counts: seq<nat>, max: nat,
                 dl: seq<nat>, bits: nat, n: nat, i: nat)
    requires Full(sh) && Listed(sh, order, pos)
    requires HandInv(sh, order, pos, counts, max, dl, bits, n, i) && i > 0 && order[i - 1] in sh.syms && n > 0
    ensures HandInv(sh, order, pos, counts, max, dl[order[i - 1] := bits], bits, n - 1, i - 1)
  {
    hide Count;
    var m := order[i - 1];
    var dl' := dl[m := bits];
    var a, b := Handed(sh, pos, dl, i), Handed(sh, pos, dl', i - 1);
    forall s | s in sh.syms
      ensures pos[s] >= i - 1 <==> pos[s] >= i || s == m
    {
      LeafDepth(sh, s);
      assert pos[m] == i - 1;
    }
    assert b == a[m := bits];
    forall len | 1 <= len <= max
      ensures Count(b, len, sh.elems) == Given(counts, bits, n - 1, len)
    {
      CountUpdate(a, m, bits, len, sh.elems);
    }
  }

  // ---------- there are always enough leaves, and in the end none is left ----------

  lemma {:induction false} UsedMonotone(a: seq<nat>, b: seq<nat>, i: nat)
    requires |a| == |b| && i <= |a| && forall s :: 0 <= s < |a| && a[s] > 0 ==> b[s] > 0
    ensures Used(a, i) <= Used(b, i)
    ensures (exists s :: 0 <= s < i && a[s] == 0 && b[s] > 0) ==> Used(a, i) < Used(b, i)
  {
    if i > 0 {
      UsedMonotone(a, b, i - 1);
    }
  }

  lemma {:induction false} GivenTotal(counts: seq<nat>, lens: seq<nat>, max: nat, bits: nat, n: nat, len: nat)
    requires len <= max < |counts| && bits <= max && (bits == 0 ==> n == 0)
    requires forall l :: 1 <= l <= max ==> Count(lens, l, |lens|) == Given(counts, bits, n, l)
    ensures bits <= len ==>
        TotalTo(lens, len, |lens|)
            == Total(counts, len) - n - Total(counts, bits) + (if bits == 0 then 0 else counts[bits])
    ensures len < bits ==> TotalTo(lens, len, |lens|) == 0
    decreases len
  {
    if len > 0 {
      GivenTotal(counts, lens, max, bits, n, len - 1);
    }
  }

  /** The number of lengths handed out so far. */
  lemma HandedTotal(sh: Shape, order: seq<nat>, pos: seq<nat>, counts: seq<nat>, max: nat,
                    dl: seq<nat>, bits: nat, n: nat, i: nat)
    requires Full(sh) && Listed(sh, order, pos)
    requires HandInv(sh, order, pos, counts, max, dl, bits, n, i)
    ensures Used(Handed(sh, pos, dl, i), sh.elems)
         == Total(counts, max) - n - (if bits == 0 then 0 else Total(counts, bits - 1))
  {
    hide Count;
    var a := Handed(sh, pos, dl, i);
    GivenTotal(counts, a, max, bits, n, max);
    forall s | 0 <= s < sh.elems
      ensures a[s] <= max
    {
    }
    TotalToUsed(a, max, sh.elems);
  }

  /** While a code is to be handed out, a leaf is left to take it. */
  lemma LeafLeft(sh: Shape, order: seq<nat>, pos: seq<nat>, counts: seq<nat>, max: nat,
                 dl: seq<nat>, bits: nat, n: nat, i: nat)
    requires Full(sh) && Listed(sh, order, pos)
    requires HandInv(sh, order, pos, counts, max, dl, bits, n, i) && n > 0
    requires forall s :: s in sh.syms ==> dl[s] > 0
    requires Total(counts, max) == Used(StoredLens(sh, dl), sh.elems)
    ensures i > 0
  {
    hide Count, Total;
    if i == 0 {
      assert Handed(sh, pos, dl, i) == StoredLens(sh, dl);
    }
    HandedTotal(sh, order, pos, counts, max, dl, bits, n, i);
  }

  /** When every length is handed out, every leaf has got one, and the counts match. */
  lemma HandDone(sh: Shape, order: seq<nat>, pos: seq<nat>, counts: seq<nat>, max: nat, dl: seq<nat>, i: nat)
    requires Full(sh) && Listed(sh, order, pos)
    requires HandInv(sh, order, pos, counts, max, dl, 0, 0, i)
    requires forall s :: s in sh.syms ==> dl[s] > 0
    requires Total(counts, max) == Used(StoredLens(sh, dl), sh.elems)
    ensures CountsOf(counts, StoredLens(sh, dl), max)
    ensures forall s :: s in sh.syms ==> 1 <= dl[s] <= max
  {
    hide Count, Total;
    var a, b := Handed(sh, pos, dl, i), StoredLens(sh, dl);
    HandedTotal(sh, order, pos, counts, max, dl, 0, 0, i);
    UsedMonotone(a, b, sh.elems);
    assert a == b;
  }

  // ---------- the cost follows every change of a length ----------

  lemma CostUpdate(sh: Shape, c: Costs, dl: seq<nat>, m: nat, bits: nat)
    requires sh.elems <= |dl| && m in sh.syms && m < sh.elems && dl[m] > 0 && bits > 0
    ensures Sum(CostTerms(c, StoredLens(sh, dl[m := bits])))
         == Sum(CostTerms(c, StoredLens(sh, dl))) + (bits - dl[m]) * FreqOf(c, m)
  {
    hide OptCost;
    var a, b := CostTerms(c, StoredLens(sh, dl)), CostTerms(c, StoredLens(sh, dl[m := bits]));
    assert b == a[m := OptCost(c, m, bits)];
    SumUpdate(a, m, OptCost(c, m, bits));
    OptCostLinear(c, m, dl[m], bits);
  }

  lemma OptCostLinear(c: Costs, m: nat, old_: nat, new_: nat)
    ensures OptCost(c, m, new_) == OptCost(c, m, old_) + (new_ - old_) * FreqOf(c, m)
  {
  }

  /** The pass leaves the clamped lengths in the leaves. */
  lemma StoredAfterPass(sh: Shape, order: seq<nat>, pos: seq<nat>, max: nat, dl: seq<nat>)
    requires Full(sh) && Listed(sh, order, pos) && LinksInv(sh, order, max, dl, |order|) && max > 0
    ensures sh.elems <= |dl| && StoredLens(sh, dl) == ClampedLens(sh, max)
    ensures forall s :: s in sh.syms ==> s < sh.elems && 1 <= dl[s] <= max
  {
    hide Depth;
    forall s | s in sh.syms
      ensures s < sh.elems && dl[s] == ClampedLens(sh, max)[s] && 1 <= dl[s] <= max
    {
      assert Present(sh, s);
      LeafDepth(sh, s);
      assert order[pos[s]] == s;
      LenPositive(sh, max, s);
    }
  }

  lemma StaticSame(c: Costs, a: seq<nat>, b: seq<nat>)
    requires |a| == |b| && forall s :: 0 <= s < |a| ==> (a[s] == 0 <==> b[s] == 0)
    ensures StaticTerms(c, a) == StaticTerms(c, b)
  {
  }

  lemma {:induction false} UsedSame(a: seq<nat>, b: seq<nat>, i: nat)
    requires |a| == |b| && i <= |a| && forall s :: 0 <= s < |a| ==> (a[s] == 0 <==> b[s] == 0)
    ensures Used(a, i) == Used(b, i)
  {
    if i > 0 {
      UsedSame(a, b, i - 1);
    }
  }
}
