/** Huffman's theorem for the trees gzip builds: no prefix code has a smaller weighted length. */
module HuffmanOptimal {
  import opened Sums
  import opened HuffmanShape
  import opened HuffmanForest
  import opened HuffmanHeap

  // ---------- lengths assigned to the nodes of a cut ----------

  ghost function KraftTerm(sh: Shape, j: nat, ls: seq<nat>, base: nat, k: nat): int
    requires Full(sh) && k < |ls|
  {
    if OnCut(sh, j, k) && ls[k] <= base then Pow2(base - ls[k]) else 0
  }

  ghost function KraftOn(sh: Shape, j: nat, ls: seq<nat>, base: nat): (ts: seq<int>)
    requires Full(sh) && |ls| == sh.root + 1
    ensures |ts| == sh.root + 1
    ensures forall k :: 0 <= k <= sh.root ==> ts[k] == KraftTerm(sh, j, ls, base, k)
  {
    seq(sh.root + 1, k requires 0 <= k <= sh.root => KraftTerm(sh, j, ls, base, k))
  }

  ghost function CostTermOn(sh: Shape, f: seq<nat>, j: nat, ls: seq<nat>, k: nat): int
    requires Full(sh) && k < |ls| && k < |f|
  {
    if OnCut(sh, j, k) then f[k] * ls[k] else 0
  }

  ghost function CostOn(sh: Shape, f: seq<nat>, j: nat, ls: seq<nat>): (ts: seq<int>)
    requires Full(sh) && |ls| == sh.root + 1 && sh.root < |f|
    ensures |ts| == sh.root + 1
    ensures forall k :: 0 <= k <= sh.root ==> ts[k] == CostTermOn(sh, f, j, ls, k)
  {
    seq(sh.root + 1, k requires 0 <= k <= sh.root => CostTermOn(sh, f, j, ls, k))
  }

  /** ls gives the nodes on the cut at j lengths, none above base, that satisfy Kraft's inequality. */
  ghost predicate Admissible(sh: Shape, j: nat, ls: seq<nat>, base: nat)
    requires Full(sh)
  {
    && |ls| == sh.root + 1
    && (forall k :: 0 <= k <= sh.root && OnCut(sh, j, k) ==> ls[k] <= base)
    && Sum(KraftOn(sh, j, ls, base)) <= Pow2(base)
  }

  lemma SumSwap(ts: seq<int>, a: nat, b: nat)
    requires a < |ts| && b < |ts| && a != b
    ensures Sum(ts[a := ts[b]][b := ts[a]]) == Sum(ts)
  {
    SumUpdate(ts, a, ts[b]);
    SumUpdate(ts[a := ts[b]], b, ts[a]);
  }

  lemma SwapGain(p: nat, q: nat, x: nat, y: nat)
    requires p <= q && x <= y
    ensures p * y + q * x <= p * x + q * y
  {
    assert (q - p) * (y - x) >= 0;
  }

  /** Giving the longer code to the rarer node keeps Kraft's inequality and does not cost more. */
  lemma SwapBetter(sh: Shape, f: seq<nat>, j: nat, ls: seq<nat>, base: nat, a: nat, b: nat)
    requires Full(sh) && sh.root < |f| && Admissible(sh, j, ls, base)
    requires a <= sh.root && b <= sh.root && OnCut(sh, j, a) && OnCut(sh, j, b)
    requires f[a] <= f[b] && ls[a] <= ls[b]
    ensures Admissible(sh, j, Swap(ls, a, b), base)
    ensures Sum(CostOn(sh, f, j, Swap(ls, a, b))) <= Sum(CostOn(sh, f, j, ls))
  {
    hide Full, OnCut, Sum, Pow2;
    if a == b {
      assert Swap(ls, a, b) == ls;
    } else {
      var ls' := Swap(ls, a, b);
      var ks := KraftOn(sh, j, ls, base);
      assert KraftOn(sh, j, ls', base) == ks[a := ks[b]][b := ks[a]];
      SumSwap(ks, a, b);
      var cs := CostOn(sh, f, j, ls);
      assert CostOn(sh, f, j, ls') == cs[a := f[a] * ls[b]][b := f[b] * ls[a]];
      SumUpdate(cs, a, f[a] * ls[b]);
      SumUpdate(cs[a := f[a] * ls[b]], b, f[b] * ls[a]);
      SwapGain(f[a], f[b], ls[a], ls[b]);
    }
  }

  // ---------- the longest length on a cut, leaving out one node ----------

  /** m has the longest length among the nodes of the cut below n, other than skip. */
  ghost predicate LongestBelow(sh: Shape, j: nat, ls: seq<nat>, skip: int, n: nat, m: nat)
    requires Full(sh) && |ls| == sh.root + 1
  {
    && m <= sh.root && OnCut(sh, j, m) && m != skip
    && forall k :: 0 <= k < n && k <= sh.root && OnCut(sh, j, k) && k != skip ==> ls[k] <= ls[m]
  }

  lemma {:induction false} FindLongest(sh: Shape, j: nat, ls: seq<nat>, skip: int, n: nat, some: nat) returns (m: nat)
    requires Full(sh) && |ls| == sh.root + 1 && n <= sh.root + 1
    requires some <= sh.root && OnCut(sh, j, some) && some != skip
    ensures LongestBelow(sh, j, ls, skip, n, m)
    decreases n
  {
    if n == 0 {
      m := some;
    } else {
      m := FindLongest(sh, j, ls, skip, n - 1, some);
      if OnCut(sh, j, n - 1) && n - 1 != skip && ls[n - 1] > ls[m] {
        m := n - 1;
      }
    }
  }

  // ---------- bringing the two rarest nodes together ----------

  lemma {:induction false} Pow2Sub(a: nat, b: nat)
    requires b <= a
    ensures Pow2(a) == Pow2(a - b) * Pow2(b)
  {
    Pow2Add(a - b, b);
  }

  /** Kraft sums scale with the base. */
  lemma KraftScale(sh: Shape, j: nat, ls: seq<nat>, base: nat, top: nat, l: nat)
    requires Full(sh) && |ls| == sh.root + 1 && top <= base && l <= sh.root && OnCut(sh, j, l)
    requires forall k :: 0 <= k <= sh.root && OnCut(sh, j, k) && k != l ==> ls[k] <= top
    ensures Sum(KraftOn(sh, j, ls, base)[l := 0]) == Pow2(base - top) * Sum(KraftOn(sh, j, ls, top)[l := 0])
  {
    hide Full, OnCut;
    var s, u := KraftOn(sh, j, ls, top)[l := 0], KraftOn(sh, j, ls, base)[l := 0];
    forall k | 0 <= k <= sh.root
      ensures u[k] == Pow2(base - top) * s[k]
    {
      if k != l && OnCut(sh, j, k) {
        Pow2Sub(base - ls[k], top - ls[k]);
      }
    }
    SumScale(s, Pow2(base - top), u);
  }

  lemma SmallFactor(p: nat, s: int, q: nat)
    requires p > 0 && p * s < p * q
    ensures s < q
  {
    assert p * (q - s) == p * q - p * s;
  }

  /** The rarest node's code may be shortened to the longest of the others. */
  lemma ShortenOk(sh: Shape, j: nat, ls: seq<nat>, base: nat, l: nat, r: nat)
    requires Full(sh) && Admissible(sh, j, ls, base) && l <= sh.root && r <= sh.root && l != r
    requires OnCut(sh, j, l) && OnCut(sh, j, r) && ls[r] <= ls[l]
    requires forall k :: 0 <= k <= sh.root && OnCut(sh, j, k) && k != l ==> ls[k] <= ls[r]
    ensures Admissible(sh, j, ls[l := ls[r]], ls[r])
    ensures ls[r] > 0
  {
    hide Full, OnCut;
    var top := ls[r];
    var ks, ts := KraftOn(sh, j, ls, base), KraftOn(sh, j, ls, top);
    SumUpdate(ks, l, 0);
    KraftScale(sh, j, ls, base, top, l);
    var rest := Sum(ts[l := 0]);
    Pow2Sub(base, top);
    SmallFactor(Pow2(base - top), rest, Pow2(top));
    var ts' := KraftOn(sh, j, ls[l := top], top);
    assert ts' == ts[l := 0][l := 1];
    SumUpdate(ts[l := 0], l, 1);
    SumUpdate(ts[l := 0], r, 0);
    NonNegative(ts[l := 0][r := 0]);
  }

  lemma CostLower(sh: Shape, f: seq<nat>, j: nat, ls: seq<nat>, l: nat, len: nat)
    requires Full(sh) && sh.root < |f| && |ls| == sh.root + 1 && l <= sh.root && OnCut(sh, j, l) && len <= ls[l]
    ensures Sum(CostOn(sh, f, j, ls[l := len])) <= Sum(CostOn(sh, f, j, ls))
  {
    hide Full, OnCut;
    var cs := CostOn(sh, f, j, ls);
    assert CostOn(sh, f, j, ls[l := len]) == cs[l := f[l] * len];
    SumUpdate(cs, l, f[l] * len);
    SwapGain(0, f[l], len, ls[l]);
  }

  lemma ShapeSizes(sh: Shape)
    requires Full(sh)
    ensures sh.elems <= sh.root && |sh.dad| == |sh.left| == |sh.right| == sh.root + 1
  {
  }

  /** Any lengths on the cut can be improved until the two rarest nodes have equal, longest codes. */
  lemma Improve(sh: Shape, f: seq<nat>, j: nat, ls: seq<nat>, base: nat) returns (ls': seq<nat>, top: nat)
    requires Full(sh) && sh.root < |f| && sh.elems <= j <= sh.root && GreedyAt(sh, f, j) && Admissible(sh, j, ls, base)
    ensures Admissible(sh, j, ls', top) && top > 0
    ensures ls'[sh.left[j]] == top == ls'[sh.right[j]]
    ensures Sum(CostOn(sh, f, j, ls')) <= Sum(CostOn(sh, f, j, ls))
  {
    ShapeSizes(sh);
    hide Full, Sum, KraftOn, CostOn;
    var l, r := sh.left[j], sh.right[j];
    CutStep(sh, j, l);
    CutStep(sh, j, r);
    var n := sh.root + 1;
    var a := FindLongest(sh, j, ls, -1, n, l);
    SwapBetter(sh, f, j, ls, base, l, a);
    var ls1 := Swap(ls, l, a);
    var b := FindLongest(sh, j, ls1, l, n, r);
    SwapBetter(sh, f, j, ls1, base, r, b);
    var ls2 := Swap(ls1, r, b);
    ShortenOk(sh, j, ls2, base, l, r);
    top := ls2[r];
    CostLower(sh, f, j, ls2, l, top);
    ls' := ls2[l := top];
  }

  lemma MergedTerms(sh: Shape, f: seq<nat>, j: nat, ls: seq<nat>, top: nat)
    requires Full(sh) && sh.root < |f| && sh.elems <= j <= sh.root && ChildrenOk(sh, j) && |ls| == sh.root + 1
        && top > 0
    requires ls[sh.left[j]] == top == ls[sh.right[j]]
    ensures var l, r, ls' := sh.left[j], sh.right[j], ls[j := top - 1];
            && KraftOn(sh, j + 1, ls', top) == KraftOn(sh, j, ls, top)[l := 0][r := 0][j := 2]
            && CostOn(sh, f, j + 1, ls') == CostOn(sh, f, j, ls)[l := 0][r := 0][j := f[j] * (top - 1)]
            && KraftOn(sh, j, ls, top)[l] == 1 == KraftOn(sh, j, ls, top)[r] && KraftOn(sh, j, ls, top)[j] == 0
            && CostOn(sh, f, j, ls)[l] == f[l] * top && CostOn(sh, f, j, ls)[r] == f[r] * top
               && CostOn(sh, f, j, ls)[j] == 0
  {
    ShapeSizes(sh);
    hide Full, OnCut;
    var l, r, ls', j' := sh.left[j], sh.right[j], ls[j := top - 1], j + 1;
    CutStep(sh, j, l);
    CutStep(sh, j, r);
    assert Pow2(0) == 1 && Pow2(1) == 2;
    var ks, cs := KraftOn(sh, j, ls, top)[l := 0][r := 0][j := 2],
        CostOn(sh, f, j, ls)[l := 0][r := 0][j := f[j] * (top - 1)];
    forall k | 0 <= k <= sh.root
      ensures KraftOn(sh, j', ls', top)[k] == ks[k] && CostOn(sh, f, j', ls')[k] == cs[k]
    {
      CutStep(sh, j, k);
    }
  }

  lemma SumThree(ts: seq<int>, a: nat, b: nat, c: nat, x: int)
    requires a < |ts| && b < |ts| && c < |ts| && a != b && a != c && b != c
    ensures Sum(ts[a := 0][b := 0][c := x]) == Sum(ts) - ts[a] - ts[b] - ts[c] + x
  {
    SumUpdate(ts, a, 0);
    SumUpdate(ts[a := 0], b, 0);
    SumUpdate(ts[a := 0][b := 0], c, x);
  }

  /** Undoing one merge: lengths for the cut below node j give lengths for the cut above, cheaper by f[j]. */
  lemma MergeBack(sh: Shape, f: seq<nat>, j: nat, ls: seq<nat>, base: nat) returns (ls': seq<nat>, base': nat)
    requires Full(sh) && Weighed(sh, f) && sh.elems <= j <= sh.root && GreedyAt(sh, f, j) && Admissible(sh, j, ls, base)
    ensures Admissible(sh, j + 1, ls', base')
    ensures Sum(CostOn(sh, f, j + 1, ls')) + f[j] <= Sum(CostOn(sh, f, j, ls))
  {
    ShapeSizes(sh);
    hide Full, Sum, OnCut, KraftOn, CostOn;
    var ls1, top := Improve(sh, f, j, ls, base);
    var l, r := sh.left[j], sh.right[j];
    assert f[j] == f[l] + f[r];
    ls', base' := ls1[j := top - 1], top;
    MergedTerms(sh, f, j, ls1, top);
    SumThree(KraftOn(sh, j, ls1, top), l, r, j, 2);
    SumThree(CostOn(sh, f, j, ls1), l, r, j, f[j] * (top - 1));
    MergeGain(f[l], f[r], top);
    forall k | 0 <= k <= sh.root && OnCut(sh, j + 1, k)
      ensures ls'[k] <= top
    {
      CutStep(sh, j, k);
    }
  }

  lemma MergeGain(p: nat, q: nat, top: nat)
    requires top > 0
    ensures (p + q) * (top - 1) + (p + q) == p * top + q * top
  {
  }

  /** The frequencies of the inner nodes from j on. */
  ghost function InnerSum(sh: Shape, f: seq<nat>, j: nat): int
    requires sh.root < |f|
    decreases sh.root + 1 - j
  {
    if j > sh.root then 0 else f[j] + InnerSum(sh, f, j + 1)
  }

  /** Any code costs at least the sum of the inner frequencies. */
  lemma {:induction false} LowerBound(sh: Shape, f: seq<nat>, j: nat, ls: seq<nat>, base: nat)
    requires Full(sh) && Weighed(sh, f) && GreedyShape(sh, f) && sh.elems <= j <= sh.root + 1
        && Admissible(sh, j, ls, base)
    ensures InnerSum(sh, f, j) <= Sum(CostOn(sh, f, j, ls))
    decreases sh.root + 1 - j
  {
    hide Full, OnCut, Sum, Weighed;
    if j == sh.root + 1 {
      CostNonNegative(sh, f, j, ls);
    } else {
      assert GreedyAt(sh, f, j);
      var ls', base' := MergeBack(sh, f, j, ls, base);
      LowerBound(sh, f, j + 1, ls', base');
    }
  }

  lemma CostNonNegative(sh: Shape, f: seq<nat>, j: nat, ls: seq<nat>)
    requires Full(sh) && sh.root < |f| && |ls| == sh.root + 1
    ensures Sum(CostOn(sh, f, j, ls)) >= 0
  {
    NonNegative(CostOn(sh, f, j, ls));
  }

  // ---------- the tree itself reaches the bound ----------

  ghost function PathCosts(sh: Shape, f: seq<nat>): (vs: seq<int>)
    requires Full(sh) && sh.root < |f|
    ensures |vs| == sh.root + 1
    ensures forall k :: 0 <= k <= sh.root ==> vs[k] == if Present(sh, k) then f[k] * Depth(sh, k) else 0
  {
    seq(sh.root + 1, k requires 0 <= k <= sh.root => if Present(sh, k) then f[k] * Depth(sh, k) else 0)
  }

  lemma PathSplit(sh: Shape, f: seq<nat>, j: nat)
    requires Full(sh) && Weighed(sh, f) && sh.elems <= j <= sh.root
    ensures ChildrenOk(sh, j)
    ensures var vs := PathCosts(sh, f); vs[sh.left[j]] + vs[sh.right[j]] - vs[j] == f[j]
  {
    ChildDepth(sh, j);
    var l, r, d := sh.left[j], sh.right[j], Depth(sh, j);
    MergeGain(f[l], f[r], d + 1);
  }

  lemma {:induction false} TreeCost(sh: Shape, f: seq<nat>, j: nat)
    requires Full(sh) && Weighed(sh, f) && sh.elems <= j <= sh.root + 1
    ensures Sum(CutVals(sh, PathCosts(sh, f), j)) == InnerSum(sh, f, j)
    decreases sh.root + 1 - j
  {
    hide Full, Sum, CutVals, Weighed;
    WeighedSize(sh, f);
    if j == sh.root + 1 {
      CutSumTop(sh, PathCosts(sh, f));
      RootDepth(sh);
    } else {
      TreeCost(sh, f, j + 1);
      CutSumStep(sh, PathCosts(sh, f), j);
      PathSplit(sh, f, j);
    }
  }

  lemma WeighedSize(sh: Shape, f: seq<nat>)
    requires Full(sh) && Weighed(sh, f)
    ensures sh.root < |f|
  {
  }

  // ---------- the theorem, on symbols ----------

  /** Lengths for the symbols, none above base, satisfying Kraft's inequality. */
  ghost predicate KraftOk(syms: set<nat>, ls: seq<nat>, base: nat)
  {
    && (forall s :: s in syms ==> s < |ls| && ls[s] <= base)
    && Sum(KraftSymbols(syms, ls, base)) <= Pow2(base)
  }

  ghost function KraftSymbols(syms: set<nat>, ls: seq<nat>, base: nat): (ts: seq<int>)
    ensures |ts| == |ls|
    ensures forall s :: 0 <= s < |ls| ==> ts[s] == if s in syms && ls[s] <= base then Pow2(base - ls[s]) else 0
  {
    seq(|ls|, s requires 0 <= s < |ls| => if s in syms && ls[s] <= base then Pow2(base - ls[s]) else 0)
  }

  /** The weighted length: every symbol's frequency times its code length. */
  ghost function WeightedTerms(syms: set<nat>, f: seq<nat>, ls: seq<nat>): (ts: seq<int>)
    requires |ls| <= |f|
    ensures |ts| == |ls|
    ensures forall s :: 0 <= s < |ls| ==> ts[s] == if s in syms then f[s] * ls[s] else 0
  {
    seq(|ls|, s requires 0 <= s < |ls| => if s in syms then f[s] * ls[s] else 0)
  }

  lemma PadSum(ts: seq<int>, us: seq<int>)
    requires |ts| <= |us| && us[..|ts|] == ts && forall i :: |ts| <= i < |us| ==> us[i] == 0
    ensures Sum(us) == Sum(ts)
  {
    var zeros := us[|ts|..];
    assert us == ts + zeros;
    SumConcat(ts, zeros);
    SumZero(zeros);
  }

  lemma ExtendSums(sh: Shape, f: seq<nat>, ls: seq<nat>, ext: seq<nat>, base: nat)
    requires Full(sh) && sh.root < |f| && |ls| == sh.elems && |ext| == sh.root + 1 && ext[..sh.elems] == ls
    requires forall k :: 0 <= k <= sh.root ==> (OnCut(sh, sh.elems, k) <==> k in sh.syms)
    ensures Sum(KraftOn(sh, sh.elems, ext, base)) == Sum(KraftSymbols(sh.syms, ls, base))
    ensures Sum(CostOn(sh, f, sh.elems, ext)) == Sum(WeightedTerms(sh.syms, f, ls))
  {
    hide OnCut;
    PadSum(KraftSymbols(sh.syms, ls, base), KraftOn(sh, sh.elems, ext, base));
    PadSum(WeightedTerms(sh.syms, f, ls), CostOn(sh, f, sh.elems, ext));
  }

  /** The tree's depths have the least weighted length among all codes for its symbols. */
  lemma DepthsOptimal(sh: Shape, f: seq<nat>, ls: seq<nat>, base: nat)
    requires Full(sh) && Weighed(sh, f) && GreedyShape(sh, f) && |ls| == sh.elems && KraftOk(sh.syms, ls, base)
    ensures Sum(CutVals(sh, PathCosts(sh, f), sh.elems)) <= Sum(WeightedTerms(sh.syms, f, ls))
  {
    hide Sum, Depth, KraftOn, CostOn, KraftSymbols, WeightedTerms;
    var ext := ls + seq(sh.root + 1 - sh.elems, _ => 0);
    forall k | 0 <= k <= sh.root
      ensures OnCut(sh, sh.elems, k) <==> k in sh.syms
    {
      CutBottom(sh, k);
    }
    ExtendSums(sh, f, ls, ext, base);
    TreeCost(sh, f, sh.elems);
    LowerBound(sh, f, sh.elems, ext, base);
  }

  /** When no length had to be clamped, the lengths assigned are optimal. */
  lemma LengthsOptimal(sh: Shape, f: seq<nat>, max: nat, ls: seq<nat>, base: nat)
    requires Full(sh) && Weighed(sh, f) && GreedyShape(sh, f) && |ls| == sh.elems && KraftOk(sh.syms, ls, base)
    requires DeepNodes(sh, max, sh.elems) == 0 && max > 0
    ensures Sum(WeightedTerms(sh.syms, f, ClampedLens(sh, max))) <= Sum(WeightedTerms(sh.syms, f, ls))
  {
    hide Sum, Depth, Weighed, GreedyShape, DeepNodes;
    WeighedSize(sh, f);
    var lens := ClampedLens(sh, max);
    forall s | 0 <= s < sh.elems
      ensures WeightedTerms(sh.syms, f, lens)[s] == if s in sh.syms then PathCosts(sh, f)[s] else 0
    {
      if s in sh.syms {
        LeafDepth(sh, s);
        NotClamped(sh, max, s);
      }
    }
    LeafSum(sh, PathCosts(sh, f), WeightedTerms(sh.syms, f, lens));
    DepthsOptimal(sh, f, ls, base);
  }

  lemma {:induction false} DeepNone(sh: Shape, max: nat, j: nat, k: nat)
    requires Full(sh) && sh.elems <= j <= k <= sh.root && DeepNodes(sh, max, j) == 0
    ensures Depth(sh, k) < max
    decreases k - j
  {
    if j < k {
      DeepNone(sh, max, j + 1, k);
    }
  }

  lemma NotClamped(sh: Shape, max: nat, s: nat)
    requires Full(sh) && s in sh.syms && DeepNodes(sh, max, sh.elems) == 0
    ensures Present(sh, s) && Depth(sh, s) <= max
  {
    LeafDepth(sh, s);
    assert DadOk(sh, s);
    DeepNone(sh, max, sh.elems, sh.dad[s]);
  }
}
