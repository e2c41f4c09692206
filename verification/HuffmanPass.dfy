/** What gen_bitlen's pass over the tree has established after i nodes. */
module HuffmanPass {
  import opened Sums
  import opened Options
  import opened Canonical
  import opened HuffmanShape
  import opened HuffmanLengths

  /** The parts of a tree description that do not change: extra bits, static code lengths, the limit. */
  datatype Costs = Costs(extraBits: seq<nat>, extraBase: nat, staticLens: Option<seq<nat>>, freq: seq<nat>)

  function XBits(c: Costs, n: nat): nat
  {
    if c.extraBase <= n < c.extraBase + |c.extraBits| then c.extraBits[n - c.extraBase] else 0
  }

  function FreqOf(c: Costs, n: nat): nat
  {
    if n < |c.freq| then c.freq[n] else 0
  }

  /** The bits symbol n costs with a code of length len, over all its occurrences. */
  function OptCost(c: Costs, n: nat, len: nat): int
  {
    FreqOf(c, n) * (len + XBits(c, n))
  }

  function StaticCost(c: Costs, n: nat): int
  {
    match c.staticLens
    case None => 0
    case Some(lens) => FreqOf(c, n) * ((if n < |lens| then lens[n] else 0) + XBits(c, n))
  }

  ghost function LenOne(sh: Shape, max: nat, len: nat, k: nat): int
    requires Full(sh)
  {
    if k in sh.syms && Clamp(Depth(sh, k), max) == len then 1 else 0
  }

  ghost function LenOnes(sh: Shape, max: nat, len: nat): (vs: seq<int>)
    requires Full(sh)
    ensures |vs| == sh.root + 1
    ensures forall k :: 0 <= k <= sh.root ==> vs[k] == LenOne(sh, max, len, k)
  {
    seq(sh.root + 1, k requires 0 <= k <= sh.root => LenOne(sh, max, len, k))
  }

  ghost function OptVal(sh: Shape, max: nat, c: Costs, k: nat): int
    requires Full(sh)
  {
    if k in sh.syms then OptCost(c, k, Clamp(Depth(sh, k), max)) else 0
  }

  ghost function OptVals(sh: Shape, max: nat, c: Costs): (vs: seq<int>)
    requires Full(sh)
    ensures |vs| == sh.root + 1
    ensures forall k :: 0 <= k <= sh.root ==> vs[k] == OptVal(sh, max, c, k)
  {
    seq(sh.root + 1, k requires 0 <= k <= sh.root => OptVal(sh, max, c, k))
  }

  ghost function StaticVal(sh: Shape, c: Costs, k: nat): int
  {
    if k in sh.syms then StaticCost(c, k) else 0
  }

  ghost function StaticVals(sh: Shape, c: Costs): (vs: seq<int>)
    ensures |vs| == sh.root + 1
    ensures forall k :: 0 <= k <= sh.root ==> vs[k] == StaticVal(sh, c, k)
  {
    seq(sh.root + 1, k requires 0 <= k <= sh.root => StaticVal(sh, c, k))
  }

  /** dl holds lengths for the nodes visited, and still parents for the others. */
  ghost predicate LinksInv(sh: Shape, order: seq<nat>, max: nat, dl: seq<nat>, i: nat)
    requires Full(sh)
  {
    && (forall j :: 0 <= j < |order| ==> order[j] <= sh.root && Present(sh, order[j]))
    && |dl| > sh.root
    && (forall j :: 0 <= j < |order| && j < i ==> dl[order[j]] == Clamp(Depth(sh, order[j]), max))
    && (forall j :: i <= j < |order| && order[j] < sh.root ==> dl[order[j]] == sh.dad[order[j]])
  }

  /** The running totals after i nodes. */
  datatype Tally = Tally(bl: seq<nat>, over: int, opt: int, stat: int)

  ghost predicate CountsInv(sh: Shape, order: seq<nat>, pos: seq<nat>, max: nat, bl: seq<nat>, i: nat)
    requires Full(sh) && |pos| == sh.root + 1
  {
    && |bl| > max
    && forall len :: 1 <= len <= max ==> bl[len] == Sum(Visited(LenOnes(sh, max, len), order, pos, i))
  }

  ghost predicate TallyInv(sh: Shape, order: seq<nat>, pos: seq<nat>, max: nat, c: Costs, t: Tally, i: nat)
    requires Full(sh) && |pos| == sh.root + 1
  {
    && CountsInv(sh, order, pos, max, t.bl, i)
    && t.over == Sum(Visited(OverTerms(sh, max, sh.elems), order, pos, i))
    && t.opt == Sum(Visited(OptVals(sh, max, c), order, pos, i))
    && t.stat == Sum(Visited(StaticVals(sh, c), order, pos, i))
  }

  /** What visiting node n, with code length bits, adds to the totals. */
  function AddNode(t: Tally, c: Costs, n: nat, leaf: bool, bits: nat, clamped: bool): Tally
    requires bits < |t.bl|
  {
    var t := t.(over := t.over + if clamped then 1 else 0);
    if leaf
    then t.(bl := t.bl[bits := t.bl[bits] + 1], opt := t.opt + OptCost(c, n, bits), stat := t.stat + StaticCost(c, n))
    else t
  }

  /** The length the loop computes for the next node. */
  lemma NextLength(sh: Shape, order: seq<nat>, pos: seq<nat>, max: nat, dl: seq<nat>, i: nat)
    requires Full(sh) && Listed(sh, order, pos) && LinksInv(sh, order, max, dl, i) && 1 <= i < |order|
    ensures var n := order[i];
            && n < sh.root && dl[n] == sh.dad[n] <= sh.root
            && dl[dl[n]] + 1 >= 1
            && (dl[dl[n]] + 1 > max <==> IsOver(sh, max, sh.elems, n))
            && Clamp(dl[dl[n]] + 1, max) == Clamp(Depth(sh, n), max)
  {
    var n := order[i];
    assert n != sh.root by { assert pos[n] == i; }
    assert Present(sh, n) && DadOk(sh, n);
    var d := sh.dad[n];
    assert Present(sh, d);
    assert pos[d] < pos[n] == i;
    assert order[pos[d]] == d;
    assert dl[d] == Clamp(Depth(sh, d), max);
    assert Depth(sh, n) == Depth(sh, d) + 1;
  }

  lemma LinksStep(sh: Shape, order: seq<nat>, pos: seq<nat>, max: nat, dl: seq<nat>, i: nat)
    requires Full(sh) && Listed(sh, order, pos) && LinksInv(sh, order, max, dl, i) && i < |order|
    ensures LinksInv(sh, order, max, dl[order[i] := Clamp(Depth(sh, order[i]), max)], i + 1)
  {
    hide Full, Depth;
    var dl' := dl[order[i] := Clamp(Depth(sh, order[i]), max)];
    forall j | 0 <= j < |order| && j != i
      ensures order[j] != order[i]
    {
      assert pos[order[j]] == j && pos[order[i]] == i;
    }
  }

  lemma CountsStep(sh: Shape, order: seq<nat>, pos: seq<nat>, max: nat, bl: seq<nat>, i: nat)
    requires Full(sh) && Listed(sh, order, pos) && CountsInv(sh, order, pos, max, bl, i) && i < |order|
    ensures var n := order[i]; var bits := Clamp(Depth(sh, n), max);
            CountsInv(sh, order, pos, max, if n in sh.syms then bl[bits := bl[bits] + 1] else bl, i + 1)
  {
    hide Full, Depth, Sum, Visited;
    var n := order[i];
    var bits := Clamp(Depth(sh, n), max);
    var bl' := if n in sh.syms then bl[bits := bl[bits] + 1] else bl;
    forall len | 1 <= len <= max
      ensures bl'[len] == Sum(Visited(LenOnes(sh, max, len), order, pos, i + 1))
    {
      VisitNext(LenOnes(sh, max, len), order, pos, i);
    }
  }

  /** Visiting the next node keeps every running total. */
  lemma TallyStep(sh: Shape, order: seq<nat>, pos: seq<nat>, max: nat, c: Costs, t: Tally, i: nat)
    requires Full(sh) && Listed(sh, order, pos) && TallyInv(sh, order, pos, max, c, t, i) && i < |order|
    ensures var n := order[i]; var bits := Clamp(Depth(sh, n), max);
            TallyInv(sh, order, pos, max, c,
                     AddNode(t, c, n, n in sh.syms, bits, IsOver(sh, max, sh.elems, n)), i + 1)
  {
    hide Full, Depth, Sum, Visited, OptCost, StaticCost, IsOver, CountsInv;
    var n := order[i];
    assert order[i] <= sh.root && pos[n] == i;
    CountsStep(sh, order, pos, max, t.bl, i);
    VisitNext(OverTerms(sh, max, sh.elems), order, pos, i);
    VisitNext(OptVals(sh, max, c), order, pos, i);
    VisitNext(StaticVals(sh, c), order, pos, i);
  }

  /** Before the loop only the root, which is no leaf, has been visited. */
  lemma TallyStart(sh: Shape, order: seq<nat>, pos: seq<nat>, max: nat, c: Costs, bl: seq<nat>)
    requires Full(sh) && Listed(sh, order, pos) && |bl| > max
    requires forall len :: 1 <= len <= max ==> bl[len] == 0
    ensures TallyInv(sh, order, pos, max, c, Tally(bl, 0, 0, 0), 1)
  {
    hide Sum, Visited, Depth, OptCost, StaticCost;
    RootFirst(sh, order, pos);
    forall len | 1 <= len <= max
      ensures Sum(Visited(LenOnes(sh, max, len), order, pos, 1)) == 0
    {
      VisitRoot(LenOnes(sh, max, len), order, pos);
    }
    VisitRoot(OverTerms(sh, max, sh.elems), order, pos);
    VisitRoot(OptVals(sh, max, c), order, pos);
    VisitRoot(StaticVals(sh, c), order, pos);
  }

  lemma RootFirst(sh: Shape, order: seq<nat>, pos: seq<nat>)
    requires Full(sh) && Listed(sh, order, pos)
    ensures order != [] && order[0] == sh.root && |pos| == sh.root + 1
    ensures pos[sh.root] == 0 && sh.root !in sh.syms && Present(sh, sh.root)
  {
    assert Present(sh, sh.root);
  }

  lemma VisitRoot(vals: seq<int>, order: seq<nat>, pos: seq<nat>)
    requires |pos| == |vals| && order != [] && order[0] < |pos| && pos[order[0]] == 0 && vals[order[0]] == 0
    ensures Sum(Visited(vals, order, pos, 1)) == 0
  {
    VisitNone(vals, order, pos);
    VisitNext(vals, order, pos, 0);
  }

  // ---------- totals over the symbols ----------

  /** The cost of each symbol under the given lengths; symbols without a code cost nothing. */
  function CostTerms(c: Costs, lens: seq<nat>): (ts: seq<int>)
    ensures |ts| == |lens|
    ensures forall s :: 0 <= s < |lens| ==> ts[s] == CostTerm(c, lens[s], s)
  {
    seq(|lens|, s requires 0 <= s < |lens| => CostTerm(c, lens[s], s))
  }

  function CostTerm(c: Costs, len: nat, s: nat): int
  {
    if len == 0 then 0 else OptCost(c, s, len)
  }

  function StaticTerms(c: Costs, lens: seq<nat>): (ts: seq<int>)
    ensures |ts| == |lens|
    ensures forall s :: 0 <= s < |lens| ==> ts[s] == if lens[s] == 0 then 0 else StaticCost(c, s)
  {
    seq(|lens|, s requires 0 <= s < |lens| => if lens[s] == 0 then 0 else StaticCost(c, s))
  }

  lemma LenPositive(sh: Shape, max: nat, s: nat)
    requires Full(sh) && max > 0 && s < sh.elems
    ensures ClampedLens(sh, max)[s] > 0 <==> s in sh.syms
    ensures ClampedLens(sh, max)[s] <= max
  {
    if s in sh.syms {
      LeafDepth(sh, s);
    }
  }

  lemma CountIsVisited(sh: Shape, order: seq<nat>, pos: seq<nat>, max: nat, len: nat)
    requires Full(sh) && Listed(sh, order, pos) && max > 0 && len > 0
    ensures Sum(Visited(LenOnes(sh, max, len), order, pos, |order|))
         == Count(ClampedLens(sh, max), len, sh.elems)
  {
    hide Sum, Depth, Count;
    var lens := ClampedLens(sh, max);
    VisitAll(sh, LenOnes(sh, max, len), order, pos);
    LeavesOnly(sh, LenOnes(sh, max, len), Ones(lens, len));
    CountIsSum(lens, len, sh.elems);
    assert Ones(lens, len)[..sh.elems] == Ones(lens, len);
  }

  lemma CostIsVisited(sh: Shape, order: seq<nat>, pos: seq<nat>, max: nat, c: Costs)
    requires Full(sh) && Listed(sh, order, pos) && max > 0
    ensures Sum(Visited(OptVals(sh, max, c), order, pos, |order|)) == Sum(CostTerms(c, ClampedLens(sh, max)))
    ensures Sum(Visited(StaticVals(sh, c), order, pos, |order|)) == Sum(StaticTerms(c, ClampedLens(sh, max)))
  {
    hide Sum, Depth, OptCost, StaticCost;
    var lens := ClampedLens(sh, max);
    forall s | 0 <= s < sh.elems
      ensures lens[s] > 0 <==> s in sh.syms
    {
      LenPositive(sh, max, s);
    }
    VisitAll(sh, OptVals(sh, max, c), order, pos);
    VisitAll(sh, StaticVals(sh, c), order, pos);
    LeavesOnly(sh, OptVals(sh, max, c), CostTerms(c, lens));
    LeavesOnly(sh, StaticVals(sh, c), StaticTerms(c, lens));
  }

  /** After the loop: the counts are those of the clamped lengths, and the totals are exact. */
  lemma TallyEnd(sh: Shape, order: seq<nat>, pos: seq<nat>, max: nat, c: Costs, t: Tally)
    requires Full(sh) && Listed(sh, order, pos) && max > 0
    requires TallyInv(sh, order, pos, max, c, t, |order|)
    ensures CountsOf(t.bl, ClampedLens(sh, max), max)
    ensures t.over == 2 * DeepNodes(sh, max, sh.elems)
    ensures t.opt == Sum(CostTerms(c, ClampedLens(sh, max)))
    ensures t.stat == Sum(StaticTerms(c, ClampedLens(sh, max)))
  {
    hide Full, Sum, Depth, OptCost, StaticCost, DeepNodes, IsOver, Listed;
    forall len | 1 <= len <= max
      ensures t.bl[len] == Count(ClampedLens(sh, max), len, sh.elems)
    {
      CountIsVisited(sh, order, pos, max, len);
    }
    CostIsVisited(sh, order, pos, max, c);
    OverVisited(sh, order, pos, max);
  }

  lemma OverVisited(sh: Shape, order: seq<nat>, pos: seq<nat>, max: nat)
    requires Full(sh) && Listed(sh, order, pos)
    ensures Sum(Visited(OverTerms(sh, max, sh.elems), order, pos, |order|)) == 2 * DeepNodes(sh, max, sh.elems)
  {
    hide Sum, Depth, DeepNodes;
    VisitAll(sh, OverTerms(sh, max, sh.elems), order, pos);
    OverCount(sh, max, sh.elems);
  }

  // ---------- how many symbols have a code ----------

  function Used(lens: seq<nat>, i: nat): (n: nat)
    requires i <= |lens|
    ensures n <= i
  {
    if i == 0 then 0 else Used(lens, i - 1) + (if lens[i - 1] > 0 then 1 else 0)
  }

  function TotalTo(lens: seq<nat>, len: nat, i: nat): nat
    requires i <= |lens|
  {
    if len == 0 then 0 else TotalTo(lens, len - 1, i) + Count(lens, len, i)
  }

  lemma {:induction false} TotalToStep(lens: seq<nat>, len: nat, i: nat)
    requires i < |lens|
    ensures TotalTo(lens, len, i + 1) == TotalTo(lens, len, i) + (if 1 <= lens[i] <= len then 1 else 0)
  {
    if len > 0 {
      TotalToStep(lens, len - 1, i);
    }
  }

  lemma {:induction false} TotalToUsed(lens: seq<nat>, max: nat, i: nat)
    requires i <= |lens| && forall s :: 0 <= s < |lens| ==> lens[s] <= max
    ensures TotalTo(lens, max, i) == Used(lens, i)
    decreases i
  {
    if i > 0 {
      TotalToUsed(lens, max, i - 1);
      TotalToStep(lens, max, i - 1);
    } else {
      TotalToZero(lens, max);
    }
  }

  lemma {:induction false} TotalToZero(lens: seq<nat>, len: nat)
    ensures TotalTo(lens, len, 0) == 0
  {
    if len > 0 {
      TotalToZero(lens, len - 1);
    }
  }

  lemma {:induction false} TotalOfCounts(counts: seq<nat>, lens: seq<nat>, max: nat, len: nat)
    requires CountsOf(counts, lens, max) && len <= max
    ensures Total(counts, len) == TotalTo(lens, len, |lens|)
  {
    if len > 0 {
      TotalOfCounts(counts, lens, max, len - 1);
    }
  }

  /** The counts of the clamped lengths exceed a full code by exactly half the clamped nodes. */
  lemma ExcessAfterPass(sh: Shape, max: nat, counts: seq<nat>)
    requires Full(sh) && max > 0 && sh.elems <= Pow2(max)
    requires CountsOf(counts, ClampedLens(sh, max), max)
    ensures Excess(counts, max, DeepNodes(sh, max, sh.elems), Used(ClampedLens(sh, max), sh.elems))
  {
    hide Full, Depth, DeepNodes, Pow2;
    var lens := ClampedLens(sh, max);
    SlotsOfCounts(counts, lens, max, max);
    SlotsOfCounts(counts, lens, max, max - 1);
    KraftExcess(sh, max);
    ShorterFit(sh, max);
    TotalOfCounts(counts, lens, max, max);
    forall s | 0 <= s < sh.elems
      ensures lens[s] <= max
    {
      LenPositive(sh, max, s);
    }
    TotalToUsed(lens, max, sh.elems);
  }
}
