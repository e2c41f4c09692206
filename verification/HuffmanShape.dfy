/** Full binary trees given by parent links, and what clamping their depths does to the Kraft sum. */
module HuffmanShape {
  import opened Sums
  import opened Canonical

  /**
   * Leaves are the symbols in syms, all below elems; inner nodes are elems..root, numbered in the
   * order they were made, so every node has a smaller number than its parent.
   */
  datatype Shape = Shape(elems: nat, root: nat, syms: set<nat>, dad: seq<nat>, left: seq<nat>, right: seq<nat>)

  ghost predicate Present(sh: Shape, k: nat)
  {
    k in sh.syms || sh.elems <= k <= sh.root
  }

  ghost predicate ChildrenOk(sh: Shape, j: nat)
    requires j < |sh.left| && j < |sh.right|
  {
    var l, r := sh.left[j], sh.right[j];
    && l != r && l < j && r < j && Present(sh, l) && Present(sh, r)
    && l < |sh.dad| && r < |sh.dad| && sh.dad[l] == j == sh.dad[r]
  }

  ghost predicate DadOk(sh: Shape, k: nat)
    requires k < |sh.dad|
  {
    var d := sh.dad[k];
    && sh.elems <= d <= sh.root && k < d
    && d < |sh.left| && d < |sh.right| && (sh.left[d] == k || sh.right[d] == k)
  }

  ghost predicate Full(sh: Shape)
  {
    && sh.elems <= sh.root
    && |sh.dad| == |sh.left| == |sh.right| == sh.root + 1
    && (forall s :: s in sh.syms ==> s < sh.elems)
    && (forall j :: sh.elems <= j <= sh.root ==> ChildrenOk(sh, j))
    && (forall k :: 0 <= k < sh.root && Present(sh, k) ==> DadOk(sh, k))
  }

  ghost function Depth(sh: Shape, k: nat): nat
    requires Full(sh) && Present(sh, k)
    decreases sh.root - k
  {
    if k >= sh.root then 0 else assert DadOk(sh, k); 1 + Depth(sh, sh.dad[k])
  }

  lemma ChildDepth(sh: Shape, j: nat)
    requires Full(sh) && sh.elems <= j <= sh.root
    ensures ChildrenOk(sh, j)
    ensures Depth(sh, sh.left[j]) == Depth(sh, j) + 1 == Depth(sh, sh.right[j])
  {
    assert ChildrenOk(sh, j);
  }

  /** The code length of a node at depth d when no code may be longer than max. */
  function Clamp(d: nat, max: nat): nat
  {
    if d <= max then d else max
  }

  /** The code lengths read off the tree: zero for symbols that are not leaves. */
  ghost function ClampedLens(sh: Shape, max: nat): (lens: seq<nat>)
    requires Full(sh)
    ensures |lens| == sh.elems
    ensures forall s :: 0 <= s < sh.elems && s in sh.syms ==> lens[s] == Clamp(Depth(sh, s), max)
    ensures forall s :: 0 <= s < sh.elems && s !in sh.syms ==> lens[s] == 0
  {
    seq(sh.elems, s requires 0 <= s < sh.elems =>
          if s in sh.syms then assert Present(sh, s); Clamp(Depth(sh, s), max) else 0)
  }

  // ---------- cutting the tree: nodes below j whose parent is j or above ----------

  ghost predicate OnCut(sh: Shape, j: nat, k: nat)
    requires Full(sh)
  {
    && k <= sh.root && Present(sh, k) && k < j
    && (k == sh.root || sh.dad[k] >= j)
  }

  /** The values of the nodes on the cut at j, zero elsewhere. */
  ghost function CutVals(sh: Shape, vals: seq<int>, j: nat): (vs: seq<int>)
    requires Full(sh) && |vals| == sh.root + 1
    ensures |vs| == sh.root + 1
    ensures forall k :: 0 <= k <= sh.root ==> vs[k] == if OnCut(sh, j, k) then vals[k] else 0
  {
    seq(sh.root + 1, k requires 0 <= k <= sh.root => if OnCut(sh, j, k) then vals[k] else 0)
  }

  /** The inner nodes from j on that lie at depth max or deeper. */
  ghost function DeepNodes(sh: Shape, max: nat, j: nat): nat
    requires Full(sh) && sh.elems <= j
    decreases sh.root + 1 - j
  {
    if j > sh.root then 0
    else (if Depth(sh, j) >= max then 1 else 0) + DeepNodes(sh, max, j + 1)
  }

  /** Lowering the cut past node j replaces j by its two children. */
  lemma CutStep(sh: Shape, j: nat, k: nat)
    requires Full(sh) && sh.elems <= j <= sh.root && k <= sh.root
    ensures ChildrenOk(sh, j)
    ensures OnCut(sh, j + 1, j) && !OnCut(sh, j, j)
    ensures k == sh.left[j] || k == sh.right[j] ==> OnCut(sh, j, k) && !OnCut(sh, j + 1, k)
    ensures k != j && k != sh.left[j] && k != sh.right[j] ==> (OnCut(sh, j, k) <==> OnCut(sh, j + 1, k))
  {
    assert ChildrenOk(sh, j);
    if j < sh.root {
      assert DadOk(sh, j);
    }
    if k < sh.root && Present(sh, k) {
      assert DadOk(sh, k);
    }
  }

  lemma CutSumStep(sh: Shape, vals: seq<int>, j: nat)
    requires Full(sh) && |vals| == sh.root + 1 && sh.elems <= j <= sh.root
    ensures ChildrenOk(sh, j)
    ensures Sum(CutVals(sh, vals, j))
         == Sum(CutVals(sh, vals, j + 1)) - vals[j] + vals[sh.left[j]] + vals[sh.right[j]]
  {
    assert ChildrenOk(sh, j);
    var l, r := sh.left[j], sh.right[j];
    var a, b := CutVals(sh, vals, j + 1), CutVals(sh, vals, j);
    CutStep(sh, j, l);
    CutStep(sh, j, r);
    forall k | 0 <= k <= sh.root
      ensures b[k] == a[j := 0][l := vals[l]][r := vals[r]][k]
    {
      CutStep(sh, j, k);
    }
    assert b == a[j := 0][l := vals[l]][r := vals[r]];
    SumUpdate(a, j, 0);
    SumUpdate(a[j := 0], l, vals[l]);
    SumUpdate(a[j := 0][l := vals[l]], r, vals[r]);
  }

  /** Above the root the cut is the root alone. */
  lemma CutSumTop(sh: Shape, vals: seq<int>)
    requires Full(sh) && |vals| == sh.root + 1
    ensures Sum(CutVals(sh, vals, sh.root + 1)) == vals[sh.root]
  {
    var top := sh.root + 1;
    var zeros := seq(top, _ => 0);
    SumZero(zeros);
    SumUpdate(zeros, sh.root, vals[sh.root]);
    forall k | 0 <= k < sh.root
      ensures !OnCut(sh, top, k)
    {
      if Present(sh, k) {
        assert DadOk(sh, k);
      }
    }
    assert CutVals(sh, vals, top) == zeros[sh.root := vals[sh.root]];
  }

  /** At the bottom the cut is the leaves. */
  lemma CutBottom(sh: Shape, k: nat)
    requires Full(sh) && k <= sh.root
    ensures OnCut(sh, sh.elems, k) <==> k in sh.syms
  {
    if k in sh.syms {
      assert DadOk(sh, k);
    }
  }

  // ---------- the Kraft sum after clamping ----------

  ghost function Weight(sh: Shape, max: nat, k: nat): int
    requires Full(sh)
  {
    if Present(sh, k) then Pow2(max - Clamp(Depth(sh, k), max)) else 0
  }

  ghost function Weights(sh: Shape, max: nat): (ws: seq<int>)
    requires Full(sh)
    ensures |ws| == sh.root + 1
    ensures forall k :: 0 <= k <= sh.root ==> ws[k] == Weight(sh, max, k)
  {
    seq(sh.root + 1, k requires 0 <= k <= sh.root => Weight(sh, max, k))
  }

  lemma RootDepth(sh: Shape)
    requires Full(sh)
    ensures Present(sh, sh.root) && Depth(sh, sh.root) == 0
  {
  }

  lemma RootWeight(sh: Shape, max: nat)
    requires Full(sh)
    ensures Weight(sh, max, sh.root) == Pow2(max) == ShallowWeight(sh, max, sh.root)
  {
    hide Full, Pow2;
    RootDepth(sh);
  }

  lemma WeightSplit(sh: Shape, max: nat, j: nat)
    requires Full(sh) && sh.elems <= j <= sh.root
    ensures ChildrenOk(sh, j)
    ensures Weight(sh, max, sh.left[j]) + Weight(sh, max, sh.right[j]) - Weight(sh, max, j)
         == if Depth(sh, j) >= max then 1 else 0
  {
    ChildDepth(sh, j);
    var d := Depth(sh, j);
    if d < max {
      assert Pow2(max - d) == 2 * Pow2(max - d - 1);
    }
  }

  lemma {:induction false} CutWeight(sh: Shape, max: nat, j: nat)
    requires Full(sh) && sh.elems <= j <= sh.root + 1
    ensures Sum(CutVals(sh, Weights(sh, max), j)) == Pow2(max) + DeepNodes(sh, max, j)
    decreases sh.root + 1 - j
  {
    hide Full, Pow2, CutVals, Sum, Weight, ShallowWeight;
    if j == sh.root + 1 {
      CutSumTop(sh, Weights(sh, max));
      RootWeight(sh, max);
    } else {
      CutWeight(sh, max, j + 1);
      CutSumStep(sh, Weights(sh, max), j);
      WeightSplit(sh, max, j);
    }
  }

  /** Sums over the leaves are sums over the symbols: the inner nodes contribute nothing. */
  lemma LeafSum(sh: Shape, vals: seq<int>, terms: seq<int>)
    requires Full(sh) && |vals| == sh.root + 1 && |terms| == sh.elems
    requires forall s :: 0 <= s < sh.elems ==> terms[s] == if s in sh.syms then vals[s] else 0
    ensures Sum(CutVals(sh, vals, sh.elems)) == Sum(terms)
  {
    var cut := CutVals(sh, vals, sh.elems);
    var zeros := seq(sh.root + 1 - sh.elems, _ => 0);
    forall k | 0 <= k <= sh.root
      ensures cut[k] == (terms + zeros)[k]
    {
      CutBottom(sh, k);
    }
    assert cut == terms + zeros;
    SumConcat(terms, zeros);
    SumZero(zeros);
  }

  lemma LeafDepth(sh: Shape, s: nat)
    requires Full(sh) && s in sh.syms
    ensures s < sh.root && Present(sh, s) && Depth(sh, s) >= 1
  {
    assert DadOk(sh, s);
  }

  /** Clamping adds one slot of length max for every inner node at depth max or deeper. */
  lemma KraftExcess(sh: Shape, max: nat)
    requires Full(sh) && max > 0
    ensures Slots(ClampedLens(sh, max), max) == Pow2(max) + DeepNodes(sh, max, sh.elems)
  {
    var lens := ClampedLens(sh, max);
    forall s | 0 <= s < sh.elems
      ensures KraftTerms(lens, max)[s] == if s in sh.syms then Weights(sh, max)[s] else 0
    {
      if s in sh.syms {
        LeafDepth(sh, s);
      }
    }
    LeafSum(sh, Weights(sh, max), KraftTerms(lens, max));
    SlotsIsKraft(lens, max);
    CutWeight(sh, max, sh.elems);
  }

  // ---------- the number of clamped nodes ----------

  /** One for every node deeper than max whose parent is j or above. */
  ghost function OverTerms(sh: Shape, max: nat, j: nat): (ts: seq<int>)
    requires Full(sh)
    ensures |ts| == sh.root + 1
    ensures forall k :: 0 <= k <= sh.root ==> ts[k] == if IsOver(sh, max, j, k) then 1 else 0
  {
    seq(sh.root + 1, k requires 0 <= k <= sh.root => if IsOver(sh, max, j, k) then 1 else 0)
  }

  ghost predicate IsOver(sh: Shape, max: nat, j: nat, k: nat)
    requires Full(sh) && k <= sh.root
  {
    k < sh.root && Present(sh, k) && sh.dad[k] >= j && Depth(sh, k) > max
  }

  lemma OverStep(sh: Shape, max: nat, j: nat)
    requires Full(sh) && sh.elems <= j <= sh.root
    ensures Sum(OverTerms(sh, max, j))
         == Sum(OverTerms(sh, max, j + 1)) + (if Depth(sh, j) >= max then 2 else 0)
  {
    ChildDepth(sh, j);
    var l, r := sh.left[j], sh.right[j];
    var x := if Depth(sh, j) >= max then 1 else 0;
    var a, b := OverTerms(sh, max, j + 1), OverTerms(sh, max, j);
    forall k | 0 <= k <= sh.root
      ensures b[k] == a[l := x][r := x][k]
    {
      if k < sh.root && Present(sh, k) {
        assert DadOk(sh, k);
      }
    }
    assert b == a[l := x][r := x];
    SumUpdate(a, l, x);
    SumUpdate(a[l := x], r, x);
  }

  /** The nodes deeper than max come in pairs: twice the excess of the Kraft sum. */
  lemma {:induction false} OverCount(sh: Shape, max: nat, j: nat)
    requires Full(sh) && sh.elems <= j <= sh.root + 1
    ensures Sum(OverTerms(sh, max, j)) == 2 * DeepNodes(sh, max, j)
    decreases sh.root + 1 - j
  {
    if j == sh.root + 1 {
      forall k | 0 <= k <= sh.root
        ensures !IsOver(sh, max, j, k)
      {
        if k < sh.root && Present(sh, k) {
          assert DadOk(sh, k);
        }
      }
      SumZero(OverTerms(sh, max, j));
    } else {
      OverCount(sh, max, j + 1);
      OverStep(sh, max, j);
    }
  }

  // ---------- the codes shorter than max leave room ----------

  ghost function ShallowWeight(sh: Shape, max: nat, k: nat): int
    requires Full(sh)
  {
    if Present(sh, k) && Depth(sh, k) <= max then Pow2(max - Depth(sh, k)) else 0
  }

  ghost function ShallowWeights(sh: Shape, max: nat): (ws: seq<int>)
    requires Full(sh)
    ensures |ws| == sh.root + 1
    ensures forall k :: 0 <= k <= sh.root ==> ws[k] == ShallowWeight(sh, max, k)
  {
    seq(sh.root + 1, k requires 0 <= k <= sh.root => ShallowWeight(sh, max, k))
  }

  lemma ShallowSplit(sh: Shape, max: nat, j: nat)
    requires Full(sh) && sh.elems <= j <= sh.root
    ensures ChildrenOk(sh, j)
    ensures ShallowWeight(sh, max, sh.left[j]) + ShallowWeight(sh, max, sh.right[j]) <= ShallowWeight(sh, max, j)
  {
    ChildDepth(sh, j);
    var d := Depth(sh, j);
    if d < max {
      assert Pow2(max - d) == 2 * Pow2(max - d - 1);
    }
  }

  lemma {:induction false} CutShallow(sh: Shape, max: nat, j: nat)
    requires Full(sh) && sh.elems <= j <= sh.root + 1
    ensures Sum(CutVals(sh, ShallowWeights(sh, max), j)) <= Pow2(max)
    decreases sh.root + 1 - j
  {
    hide Full, Pow2, CutVals, Sum, Weight, ShallowWeight;
    if j == sh.root + 1 {
      CutSumTop(sh, ShallowWeights(sh, max));
      RootWeight(sh, max);
    } else {
      CutShallow(sh, max, j + 1);
      CutSumStep(sh, ShallowWeights(sh, max), j);
      ShallowSplit(sh, max, j);
    }
  }

  /** Twice the Kraft term of a code shorter than max is its weight in units of 2^-max. */
  lemma ShorterTerm(sh: Shape, max: nat, s: nat)
    requires Full(sh) && max > 0 && s < sh.elems
    ensures 2 * KraftTerms(ClampedLens(sh, max), max - 1)[s]
         <= if s in sh.syms then ShallowWeight(sh, max, s) else 0
  {
    var lens := ClampedLens(sh, max);
    if s in sh.syms {
      LeafDepth(sh, s);
      var d := Depth(sh, s);
      if d < max {
        assert Pow2(max - d) == 2 * Pow2(max - 1 - d);
      }
    }
  }

  ghost function ShallowLeaves(sh: Shape, max: nat): (ts: seq<int>)
    requires Full(sh)
    ensures |ts| == sh.elems
    ensures forall s :: 0 <= s < sh.elems ==> ts[s] == if s in sh.syms then ShallowWeight(sh, max, s) else 0
  {
    seq(sh.elems, s requires 0 <= s < sh.elems => if s in sh.syms then ShallowWeight(sh, max, s) else 0)
  }

  /** The codes shorter than max alone satisfy the Kraft inequality. */
  lemma ShorterFit(sh: Shape, max: nat)
    requires Full(sh) && max > 0
    ensures 2 * Slots(ClampedLens(sh, max), max - 1) <= Pow2(max)
  {
    hide Pow2, ShallowWeight, Depth, KraftTerms, CutVals, Sum, Slots;
    var terms := KraftTerms(ClampedLens(sh, max), max - 1);
    forall s | 0 <= s < sh.elems
      ensures 2 * terms[s] <= ShallowLeaves(sh, max)[s]
    {
      ShorterTerm(sh, max, s);
    }
    SumDominates(terms, 2, ShallowLeaves(sh, max));
    LeafSum(sh, ShallowWeights(sh, max), ShallowLeaves(sh, max));
    CutShallow(sh, max, sh.elems);
    SlotsIsKraft(ClampedLens(sh, max), max - 1);
  }
}
