/** Code lengths and codes for one alphabet, built in place as gzip's trees section does. */
module HuffmanBuilding {
  import opened Sums
  import opened Options
  import opened Canonical
  import opened HuffmanShape
  import opened HuffmanLengths
  import opened HuffmanPass
  import opened HuffmanReassign
  import opened CodeTrees
  import opened HuffmanHeap
  import opened HuffmanForest
  import opened HuffmanPadding

  class HuffmanBuilder {
    const heap: array<nat>     // heap[1..heapLen] is the heap, heap[heapMax..] the nodes taken out
    const depth: array<nat>    // depth of each subtree, the tie breaker
    const blCount: array<nat>  // number of codes of each length
    var heapLen: nat
    var heapMax: nat
    var optLen: int            // bits of the block with the new trees
    var staticLen: int         // bits of the block with the static trees

    constructor (heapSize: nat)
      requires 0 < heapSize
      ensures heap.Length == heapSize == depth.Length && blCount.Length == MAX_BITS + 1
      ensures fresh(heap) && fresh(depth) && fresh(blCount)
      ensures heap != depth && heap != blCount && depth != blCount
      ensures heapLen == 0 && heapMax == heapSize && optLen == 0 && staticLen == 0
      ensures forall i :: 0 <= i < blCount.Length ==> blCount[i] == 0
    {
      heap := new nat[heapSize](_ => 0);
      depth := new nat[heapSize](_ => 0);
      blCount := new nat[MAX_BITS + 1](_ => 0);
      heapLen, heapMax, optLen, staticLen := 0, heapSize, 0, 0;
    }

    ghost predicate Distinct(desc: TreeDesc)
    {
      var t := desc.dynTree;
      && heap != depth && heap != blCount && depth != blCount
      && t.fc != heap && t.fc != depth && t.fc != blCount && t.fc != t.dl
      && t.dl != heap && t.dl != depth && t.dl != blCount
      && (desc.staticTree != null ==>
            var s := desc.staticTree.dl;
            s != heap && s != depth && s != blCount && s != t.fc && s != t.dl)
    }

    /** The arrays are large enough for the tree. */
    ghost predicate Sized(desc: TreeDesc)
    {
      && 3 <= desc.elems && 2 * desc.elems < heap.Length == depth.Length
      && 2 * desc.elems <= desc.dynTree.fc.Length == desc.dynTree.dl.Length
      && blCount.Length == MAX_BITS + 1 && 0 < desc.maxLength <= MAX_BITS
      && desc.elems <= Pow2(desc.maxLength)
      && (desc.staticTree != null ==> desc.elems <= desc.staticTree.dl.Length)
      && desc.elems <= desc.extraBase + |desc.extraBits|
    }

    ghost function CostsOf(desc: TreeDesc): Costs
      reads desc.dynTree.fc, if desc.staticTree == null then {} else {desc.staticTree.dl}
    {
      Costs(desc.extraBits, desc.extraBase,
            if desc.staticTree == null then None else Some(desc.staticTree.dl[..]), desc.dynTree.fc[..])
    }

    ghost predicate TreeListed(desc: TreeDesc, sh: Shape, order: seq<nat>, pos: seq<nat>)
      reads this, desc, heap
    {
      && Full(sh) && Listed(sh, order, pos) && heapMax <= heap.Length && order == heap[heapMax..]
      && sh.elems == desc.elems && sh.root < desc.dynTree.dl.Length
      && desc.maxCode < desc.elems && forall s :: s in sh.syms ==> s <= desc.maxCode
    }

    /** The first pass of gen_bitlen: lengths from the depths, clamped to the limit. */
    method FirstPass(desc: TreeDesc, ghost sh: Shape, ghost order: seq<nat>, ghost pos: seq<nat>)
      returns (overflow: nat)
      requires Distinct(desc) && Sized(desc) && TreeListed(desc, sh, order, pos)
      requires forall k :: 0 <= k < sh.root && Present(sh, k) ==> desc.dynTree.dl[k] == sh.dad[k]
      modifies `optLen, `staticLen, blCount, desc.dynTree.dl
      ensures LinksInv(sh, order, desc.maxLength, desc.dynTree.dl[..], |order|)
      ensures TallyInv(sh, order, pos, desc.maxLength, CostsOf(desc),
                       Tally(blCount[..], overflow, optLen - old(optLen), staticLen - old(staticLen)), |order|)
      ensures forall k :: 0 <= k < desc.dynTree.dl.Length && !(k <= sh.root && Present(sh, k)) ==>
                desc.dynTree.dl[k] == old(desc.dynTree.dl[k])
      ensures ZeroOutside(blCount[..], desc.maxLength)
    {
      hide Full, Listed, LinksInv, TallyInv;
      var tree, max := desc.dynTree, desc.maxLength;
      ghost var c := CostsOf(desc);
      RootFirst(sh, order, pos);
      ClearCounts();
      tree.dl[heap[heapMax]] := 0;
      overflow := 0;
      var h := heapMax + 1;
      PassStart(sh, order, pos, max, c, tree.dl[..], blCount[..]);
      while h < heap.Length
        invariant heapMax < h <= heap.Length
        invariant LinksInv(sh, order, max, tree.dl[..], h - heapMax)
        invariant TallyInv(sh, order, pos, max, c,
                           Tally(blCount[..], overflow, optLen - old(optLen), staticLen - old(staticLen)), h - heapMax)
        invariant forall k :: 0 <= k < tree.dl.Length && !(k <= sh.root && Present(sh, k)) ==>
                    tree.dl[k] == old(tree.dl[k])
        invariant ZeroOutside(blCount[..], max)
      {
        overflow := VisitNode(desc, h, overflow, sh, order, pos, old(optLen), old(staticLen));
        h := h + 1;
      }
    }

    method ClearCounts()
      modifies blCount
      ensures forall i :: 0 <= i < blCount.Length ==> blCount[i] == 0
    {
      var bits := 0;
      while bits < blCount.Length
        invariant bits <= blCount.Length
        invariant forall i :: 0 <= i < bits ==> blCount[i] == 0
      {
        blCount[bits] := 0;
        bits := bits + 1;
      }
    }

    /** A leaf counts once under its length and adds its bits to both totals. */
    method CountLeaf(desc: TreeDesc, n: nat, bits: nat)
      requires Distinct(desc) && Sized(desc) && n < desc.elems && bits < blCount.Length
      modifies `optLen, `staticLen, blCount
      ensures blCount[..] == old(blCount[..])[bits := old(blCount[bits]) + 1]
      ensures optLen == old(optLen) + OptCost(CostsOf(desc), n, bits)
      ensures staticLen == old(staticLen) + StaticCost(CostsOf(desc), n)
    {
      blCount[bits] := blCount[bits] + 1;
      var xbits := if n >= desc.extraBase then desc.extraBits[n - desc.extraBase] else 0;
      var f := desc.dynTree.fc[n];
      optLen := optLen + f * (bits + xbits);
      if desc.staticTree != null {
        staticLen := staticLen + f * (desc.staticTree.dl[n] + xbits);
      }
    }

    /** The body of the first pass, for the node at heap[h]. */
    method VisitNode(desc: TreeDesc, h: nat, over: nat, ghost sh: Shape, ghost order: seq<nat>, ghost pos: seq<nat>,
                     ghost opt0: int, ghost stat0: int)
      returns (overflow: nat)
      requires Distinct(desc) && Sized(desc) && TreeListed(desc, sh, order, pos)
      requires heapMax < h < heap.Length
      requires LinksInv(sh, order, desc.maxLength, desc.dynTree.dl[..], h - heapMax)
      requires TallyInv(sh, order, pos, desc.maxLength, CostsOf(desc),
                        Tally(blCount[..], over, optLen - opt0, staticLen - stat0), h - heapMax)
      requires ZeroOutside(blCount[..], desc.maxLength)
      modifies `optLen, `staticLen, blCount, desc.dynTree.dl
      ensures LinksInv(sh, order, desc.maxLength, desc.dynTree.dl[..], h - heapMax + 1)
      ensures TallyInv(sh, order, pos, desc.maxLength, CostsOf(desc),
                       Tally(blCount[..], overflow, optLen - opt0, staticLen - stat0), h - heapMax + 1)
      ensures forall k :: 0 <= k < desc.dynTree.dl.Length && !(k <= sh.root && Present(sh, k)) ==>
                desc.dynTree.dl[k] == old(desc.dynTree.dl[k])
      ensures ZeroOutside(blCount[..], desc.maxLength)
    {
      hide Full, Listed, LinksInv, TallyInv, OptCost, StaticCost, Pow2;
      var tree, max := desc.dynTree, desc.maxLength;
      ghost var c, i := CostsOf(desc), h - heapMax;
      ghost var t := Tally(blCount[..], over, optLen - opt0, staticLen - stat0);
      ghost var dl := tree.dl[..];
      NodeFacts(sh, order, pos, max, dl, i);
      NextLength(sh, order, pos, max, dl, i);
      LinksStep(sh, order, pos, max, dl, i);
      TallyStep(sh, order, pos, max, c, t, i);
      var n := heap[h];
      var bits := tree.dl[tree.dl[n]] + 1;
      overflow := over;
      if bits > max {
        bits := max;
        overflow := over + 1;
      }
      tree.dl[n] := bits;
      assert tree.dl[..] == dl[n := bits];
      if n > desc.maxCode {
        return;
      }
      CountLeaf(desc, n, bits);
      assert Tally(blCount[..], overflow, optLen - opt0, staticLen - stat0)
          == AddNode(t, c, n, n in sh.syms, bits, IsOver(sh, max, sh.elems, n));
    }

    /** Moves codes around until no length is above the limit and the code is complete. */
    method RepairOverflow(max: nat, over: nat, ghost n: nat)
      requires 0 < max < blCount.Length && over > 0 && over % 2 == 0
      requires Excess(blCount[..], max, over / 2, n) && ZeroOutside(blCount[..], max)
      modifies blCount
      ensures Excess(blCount[..], max, 0, n)
      ensures ZeroOutside(blCount[..], max)
    {
      hide Excess;
      var overflow := over;
      while overflow > 0
        invariant overflow % 2 == 0 && 0 < max < blCount.Length
        invariant Excess(blCount[..], max, overflow / 2, n)
        invariant ZeroOutside(blCount[..], max)
        decreases overflow
      {
        MoveOne(max, overflow / 2, n);
        overflow := overflow - 2;
      }
    }

    /** One round: the longest code shorter than max is split. */
    method MoveOne(max: nat, ghost excess: nat, ghost n: nat)
      requires 0 < max < blCount.Length && excess > 0 && Excess(blCount[..], max, excess, n)
      requires ZeroOutside(blCount[..], max)
      modifies blCount
      ensures Excess(blCount[..], max, excess - 1, n)
      ensures ZeroOutside(blCount[..], max)
    {
      hide Excess;
      ghost var counts := blCount[..];
      ShorterExists(counts, max, excess, n);
      ghost var witness_ :| 1 <= witness_ < max && counts[witness_] > 0;
      var bits := max - 1;
      while blCount[bits] == 0
        invariant witness_ <= bits < max
        decreases bits
      {
        bits := bits - 1;
      }
      RepairRound(counts, max, excess, n, bits);
      blCount[bits] := blCount[bits] - 1;
      blCount[bits + 1] := blCount[bits + 1] + 2;
      blCount[max] := blCount[max] - 1;
      assert blCount[..] == Moved(counts, bits, max);
    }

    /** Hands the lengths out again, walking the leaves from the least frequent. */
    method Reassign(desc: TreeDesc, ghost sh: Shape, ghost order: seq<nat>, ghost pos: seq<nat>, ghost c: Costs,
                    ghost opt0: int)
      requires Distinct(desc) && Sized(desc) && TreeListed(desc, sh, order, pos) && c == CostsOf(desc)
      requires LeavesCoded(sh, desc.dynTree.dl[..])
      requires Total(blCount[..], desc.maxLength) == Used(StoredLens(sh, desc.dynTree.dl[..]), sh.elems)
      requires optLen == opt0 + Sum(CostTerms(c, StoredLens(sh, desc.dynTree.dl[..])))
      modifies `optLen, desc.dynTree.dl
      ensures CountsOf(blCount[..], StoredLens(sh, desc.dynTree.dl[..]), desc.maxLength)
      ensures forall s :: s in sh.syms ==> 1 <= desc.dynTree.dl[s] <= desc.maxLength
      ensures optLen == opt0 + Sum(CostTerms(c, StoredLens(sh, desc.dynTree.dl[..])))
      ensures forall k :: 0 <= k < desc.dynTree.dl.Length && k !in sh.syms ==>
                desc.dynTree.dl[k] == old(desc.dynTree.dl[k])
    {
      hide Full, Listed, HandInv, Sum, CostTerms, CountsOf, Total, Used;
      var tree, max := desc.dynTree, desc.maxLength;
      ghost var counts := blCount[..];
      var h := heap.Length;
      var bits: nat := max;
      HandStart(sh, order, pos, counts, max, tree.dl[..]);
      while bits != 0
        invariant bits <= max && heapMax <= h <= heap.Length
        invariant HandInv(sh, order, pos, counts, max, tree.dl[..], bits, if bits == 0 then 0
            else counts[bits], h - heapMax)
        invariant LeavesCoded(sh, tree.dl[..])
        invariant Total(counts, max) == Used(StoredLens(sh, tree.dl[..]), sh.elems)
        invariant optLen == opt0 + Sum(CostTerms(c, StoredLens(sh, tree.dl[..])))
        invariant forall k :: 0 <= k < tree.dl.Length && k !in sh.syms ==> tree.dl[k] == old(tree.dl[k])
      {
        var n := blCount[bits];
        while n != 0
          invariant heapMax <= h <= heap.Length
          invariant HandInv(sh, order, pos, counts, max, tree.dl[..], bits, n, h - heapMax)
          invariant LeavesCoded(sh, tree.dl[..])
          invariant Total(counts, max) == Used(StoredLens(sh, tree.dl[..]), sh.elems)
          invariant optLen == opt0 + Sum(CostTerms(c, StoredLens(sh, tree.dl[..])))
          invariant forall k :: 0 <= k < tree.dl.Length && k !in sh.syms ==> tree.dl[k] == old(tree.dl[k])
          decreases h
        {
          h, n := HandOne(desc, h, bits, n, sh, order, pos, c, counts, opt0);
        }
        HandNextLength(sh, order, pos, counts, max, tree.dl[..], bits, h - heapMax);
        bits := bits - 1;
      }
      HandDone(sh, order, pos, counts, max, tree.dl[..], h - heapMax);
    }

    /** One step of the inner loop: takes the next node, and gives it a length when it is a leaf. */
    method HandOne(desc: TreeDesc, h: nat, bits: nat, n: nat, ghost sh: Shape, ghost order: seq<nat>,
                   ghost pos: seq<nat>, ghost c: Costs, ghost counts: seq<nat>, ghost opt0: int)
      returns (h': nat, n': nat)
      requires Distinct(desc) && Sized(desc) && TreeListed(desc, sh, order, pos) && c == CostsOf(desc)
      requires heapMax <= h <= heap.Length && n > 0 && 0 < bits && desc.maxLength < |counts|
      requires HandInv(sh, order, pos, counts, desc.maxLength, desc.dynTree.dl[..], bits, n, h - heapMax)
      requires LeavesCoded(sh, desc.dynTree.dl[..])
      requires Total(counts, desc.maxLength) == Used(StoredLens(sh, desc.dynTree.dl[..]), sh.elems)
      requires optLen == opt0 + Sum(CostTerms(c, StoredLens(sh, desc.dynTree.dl[..])))
      modifies `optLen, desc.dynTree.dl
      ensures heapMax <= h' < h
      ensures HandInv(sh, order, pos, counts, desc.maxLength, desc.dynTree.dl[..], bits, n', h' - heapMax)
      ensures LeavesCoded(sh, desc.dynTree.dl[..])
      ensures Total(counts, desc.maxLength) == Used(StoredLens(sh, desc.dynTree.dl[..]), sh.elems)
      ensures optLen == opt0 + Sum(CostTerms(c, StoredLens(sh, desc.dynTree.dl[..])))
      ensures forall k :: 0 <= k < desc.dynTree.dl.Length && k !in sh.syms ==>
                desc.dynTree.dl[k] == old(desc.dynTree.dl[k])
    {
      hide Full, Listed, HandInv, Sum, CostTerms, Total, Used;
      var tree, max := desc.dynTree, desc.maxLength;
      ghost var dl, i := tree.dl[..], h - heapMax;
      LeafLeft(sh, order, pos, counts, max, dl, bits, n, i);
      h', n' := h - 1, n;
      var m := heap[h'];
      ListedNode(sh, order, pos, i - 1);
      if m > desc.maxCode {
        HandSkip(sh, order, pos, counts, max, dl, bits, n, i);
        return;
      }
      HandLeaf(sh, order, pos, counts, max, dl, bits, n, i);
      CostUpdate(sh, c, dl, m, bits);
      if tree.dl[m] != bits {
        optLen := optLen + (bits - tree.dl[m]) * tree.fc[m];
        tree.dl[m] := bits;
      }
      assert tree.dl[..] == dl[m := bits];
      UsedSame(StoredLens(sh, dl), StoredLens(sh, tree.dl[..]), sh.elems);
      n' := n - 1;
    }

    /** Restores the heap property from index k0 down. */
    method PqDownHeap(tree: CtData, k0: nat)
      requires heap != tree.fc && heap != depth && 1 <= k0 <= heapLen < heap.Length
      requires HeapFrom(heap[..], heapLen, tree.fc[..], depth[..], k0 + 1)
      modifies heap
      ensures HeapFrom(heap[..], heapLen, tree.fc[..], depth[..], k0)
      ensures Rearranged(old(heap[..]), heap[..], heapLen)
    {
      hide Rearranged, HeapFrom, Sifting, SmallerSon, Swap;
      ghost var f, d, h0 := tree.fc[..], depth[..], heap[..];
      var v := heap[k0];
      var k, j := k0, 2 * k0;
      ghost var h := h0;
      SiftStart(h0, heapLen, f, d, k0);
      while j <= heapLen
        invariant 1 <= k <= heapLen < heap.Length && j == 2 * k
        invariant |h| == heap.Length && h[k] == v && heap[..][k := v] == h
        invariant Sifting(h, heapLen, f, d, k0, k)
        invariant Rearranged(h0, h, heapLen)
        decreases heapLen - k
      {
        SiftEntries(h, heapLen, f, d, k0, k);
        assert forall i :: 1 <= i <= heapLen && i != k ==> heap[i] == h[i];
        if j < heapLen && Smaller'(tree, heap[j + 1], heap[j]) {
          j := j + 1;
        }
        ChooseSon(h, heapLen, f, d, k, j);
        if Smaller'(tree, v, heap[j]) {
          break;
        }
        SiftDown(h, heapLen, f, d, k0, k, j);
        SwapRearranged(h0, h, heapLen, k, j);
        SwapHole(heap[..], h, k, j);
        heap[k] := heap[j];
        h := Swap(h, k, j);
        k := j;
        j := 2 * j;
      }
      SiftStop(h, heapLen, f, d, k0, k, j);
      heap[k] := v;
      assert heap[..] == h;
    }

    /** The SMALLER macro on the arrays. */
    predicate Smaller'(tree: CtData, n: nat, m: nat)
      requires n < tree.fc.Length && m < tree.fc.Length && n < depth.Length && m < depth.Length
      reads tree.fc, depth
    {
      tree.fc[n] < tree.fc[m] || (tree.fc[n] == tree.fc[m] && depth[n] <= depth[m])
    }

    /** The heap's entries are exactly the nodes in live, each once. */
    ghost predicate Holds(live: set<nat>)
      reads this, heap
    {
      heapLen < heap.Length && multiset(heap[1..heapLen + 1]) == multiset(live)
    }

    method ClearHeap()
      requires heap.Length > 0
      modifies `heapLen, `heapMax
      ensures heapLen == 0 && heapMax == heap.Length && Holds({})
    {
      heapLen, heapMax := 0, heap.Length;
      assert heap[1..heapLen + 1] == [];
    }

    method HeapPush(n: nat, ghost live: set<nat>)
      requires Holds(live) && n !in live && heapLen + 1 < heap.Length
      modifies `heapLen, heap
      ensures heapLen == old(heapLen) + 1 && Holds(live + {n})
    {
      ghost var before := heap[1..heapLen + 1];
      heapLen := heapLen + 1;
      heap[heapLen] := n;
      assert heap[1..heapLen + 1] == before + [n];
      assert multiset(live + {n}) == multiset(live) + multiset{n};
    }

    /** Puts every symbol of nonzero frequency in the heap. */
    method InitHeap(desc: TreeDesc) returns (maxCode: int, ghost syms: set<nat>)
      requires Distinct(desc) && Sized(desc)
      modifies `heapLen, `heapMax, heap, depth, desc.dynTree.dl
      ensures heapMax == heap.Length && Holds(syms)
      ensures syms == Occurring(desc.dynTree.fc[..], desc.elems)
      ensures -1 <= maxCode < desc.elems && (forall s :: s in syms ==> s <= maxCode)
      ensures maxCode >= 0 ==> maxCode in syms
      ensures forall n :: 0 <= n < desc.elems && n !in syms ==> desc.dynTree.dl[n] == 0
    {
      hide Holds;
      var tree := desc.dynTree;
      ClearHeap();
      maxCode, syms := -1, {};
      var n := 0;
      while n < desc.elems
        invariant n <= desc.elems && heapLen <= n && heapMax == heap.Length
        invariant syms == Occurring(tree.fc[..], n) && Holds(syms)
        invariant -1 <= maxCode < n && (forall s :: s in syms ==> s <= maxCode)
        invariant maxCode >= 0 ==> maxCode in syms
        invariant forall i :: 0 <= i < n && i !in syms ==> tree.dl[i] == 0
      {
        if tree.fc[n] != 0 {
          HeapPush(n, syms);
          maxCode := n;
          depth[n] := 0;
          syms := syms + {n};
        } else {
          tree.dl[n] := 0;
        }
        n := n + 1;
      }
    }

    /** Adds one symbol that does not occur, so that two codes exist. */
    method PadOne(desc: TreeDesc, max: int, ghost syms: set<nat>) returns (maxCode: int, ghost new_: nat)
      requires Distinct(desc) && Sized(desc) && Holds(syms) && heapLen < 2
      requires -1 <= max < desc.elems && (forall s :: s in syms ==> s <= max) && (max >= 0 ==> max in syms)
      modifies `heapLen, `optLen, `staticLen, heap, depth, desc.dynTree.fc
      ensures heapLen == old(heapLen) + 1 && Holds(syms + {new_})
      ensures new_ !in syms && new_ < 3 && new_ < desc.elems && new_ == NextPad(max)
      ensures maxCode == (if max < 2 then max + 1 else max)
      ensures maxCode < desc.elems && maxCode in syms + {new_} && forall s :: s in syms + {new_} ==> s <= maxCode
      ensures desc.dynTree.fc[..] == old(desc.dynTree.fc[..])[new_ := 1]
      ensures optLen == old(optLen) - 1
      ensures staticLen == old(staticLen) - StaticLenOf(desc, new_)
    {
      var new' := if max < 2 then max + 1 else 0;
      maxCode := if max < 2 then max + 1 else max;
      FreshSymbol(heap[1..heapLen + 1], syms, max);
      new_ := new';
      HeapPush(new', syms);
      desc.dynTree.fc[new'] := 1;
      depth[new'] := 0;
      optLen := optLen - 1;
      if desc.staticTree != null {
        staticLen := staticLen - desc.staticTree.dl[new'];
      }
    }

    ghost function StaticLenOf(desc: TreeDesc, n: nat): nat
      requires desc.staticTree != null ==> n < desc.staticTree.dl.Length
      reads if desc.staticTree == null then {} else {desc.staticTree.dl}
    {
      if desc.staticTree == null then 0 else desc.staticTree.dl[n]
    }

    /** Establishes the heap property bottom up. */
    method Heapify(tree: CtData, ghost live: set<nat>)
      requires heap != tree.fc && heap != depth && heapLen < heap.Length
      requires Entries(heap[..], heapLen, tree.fc[..], depth[..]) && Holds(live)
      modifies heap
      ensures HeapFrom(heap[..], heapLen, tree.fc[..], depth[..], 1) && Holds(live)
      ensures forall i :: heapLen < i < heap.Length ==> heap[i] == old(heap[i])
    {
      var n := heapLen / 2;
      while n >= 1
        invariant 0 <= n <= heapLen
        invariant HeapFrom(heap[..], heapLen, tree.fc[..], depth[..], n + 1)
        invariant Holds(live)
        invariant forall i :: heapLen < i < heap.Length ==> heap[i] == old(heap[i])
      {
        PqDownHeap(tree, n);
        n := n - 1;
      }
    }

    /** PQREMOVE: takes the least frequent node out of the heap. */
    method PqRemove(tree: CtData, ghost live: set<nat>) returns (top: nat)
      requires heap != tree.fc && heap != depth && 2 <= heapLen
      requires Holds(live) && HeapFrom(heap[..], heapLen, tree.fc[..], depth[..], 1)
      modifies `heapLen, heap
      ensures heapLen == old(heapLen) - 1 && top in live && Holds(live - {top})
      ensures HeapFrom(heap[..], heapLen, tree.fc[..], depth[..], 1)
      ensures Least(tree.fc[..], live, top)
      ensures forall i :: old(heapLen) < i < heap.Length ==> heap[i] == old(heap[i])
    {
      hide HeapFrom, Least;
      ghost var h, f, d := heap[..], tree.fc[..], depth[..];
      top := heap[1];
      RootLeast(h, heapLen, f, d, live);
      HeapShrunk(h, heapLen, f, d);
      RemoveRoot(h, heapLen, live);
      heap[1] := heap[heapLen];
      heapLen := heapLen - 1;
      assert heap[..] == h[1 := h[heapLen + 1]];
      assert heap[1..heapLen + 1] == h[1 := h[heapLen + 1]][1..heapLen + 1];
      PqDownHeap(tree, 1);
    }

    /** Puts a new node in place of the root. */
    method ReplaceRoot(tree: CtData, node: nat, ghost live: set<nat>)
      requires heap != tree.fc && heap != depth && 1 <= heapLen < heap.Length
      requires Holds(live) && HeapFrom(heap[..], heapLen, tree.fc[..], depth[..], 1)
      requires node < tree.fc.Length && node < depth.Length && node !in live
      modifies heap
      ensures Holds(live - {old(heap[1])} + {node})
      ensures HeapFrom(heap[..], heapLen, tree.fc[..], depth[..], 1)
      ensures forall i :: heapLen < i < heap.Length ==> heap[i] == old(heap[i])
    {
      hide HeapFrom;
      ghost var h := heap[..];
      HeapNewRoot(h, heapLen, tree.fc[..], depth[..], node);
      ExchangeRoot(h, heapLen, live, node);
      heap[1] := node;
      assert heap[..] == h[1 := node];
      assert heap[1..heapLen + 1] == h[1 := node][1..heapLen + 1];
      PqDownHeap(tree, 1);
    }

    /** The arrays hold a forest under construction. */
    ghost predicate Merging(desc: TreeDesc, F: Forest, at: seq<nat>)
      reads this, heap, depth, desc.dynTree.fc, desc.dynTree.dl
    {
      var f := desc.dynTree.fc[..];
      && F.elems == desc.elems && F.dad == desc.dynTree.dl[..]
      && Growing(F, f) && AllGreedy(F, f)
      && TakenOut(F, heap[..], heapMax, at) && ByFrequency(F, f, heap[..], heapMax)
      && Holds(F.live) && HeapFrom(heap[..], heapLen, f, depth[..], 1)
      && LiveTotal(F, f) < 65536
      && F.elems <= F.node && heapMax == heap.Length - 2 * (F.node - F.elems)
      && heapLen + (F.node - F.elems) <= F.elems && 1 <= heapLen
      && (F.elems < F.node ==> F.node - 1 in F.live)
    }

    /** Takes the two least frequent roots; the second stays at the root of the heap for now. */
    method TakeTwo(desc: TreeDesc, ghost F: Forest) returns (n: nat, m: nat)
      requires Distinct(desc) && 2 <= heapLen && heapLen + 1 < heapMax <= heap.Length
      requires Holds(F.live) && HeapFrom(heap[..], heapLen, desc.dynTree.fc[..], depth[..], 1)
      modifies `heapLen, `heapMax, heap
      ensures heapLen == old(heapLen) - 1 && heapMax == old(heapMax) - 2
      ensures LeastTwo(F, desc.dynTree.fc[..], n, m) && m == heap[1]
      ensures Holds(F.live - {n}) && HeapFrom(heap[..], heapLen, desc.dynTree.fc[..], depth[..], 1)
      ensures Pushed(old(heap[..]), heap[..], old(heapMax), n, m)
    {
      hide HeapFrom, Least, LeastTwo, Holds;
      var tree := desc.dynTree;
      n := PqRemove(tree, F.live);
      m := heap[1];
      RootLeast'(tree, F.live - {n});
      LeastPair(F, tree.fc[..], n, m);
      PushPair(tree, n, m, F.live - {n});
    }

    method PushPair(tree: CtData, n: nat, m: nat, ghost live: set<nat>)
      requires heap != tree.fc && heap != depth && 1 <= heapLen && heapLen + 2 < heapMax <= heap.Length
      requires Holds(live) && HeapFrom(heap[..], heapLen, tree.fc[..], depth[..], 1)
      modifies `heapMax, heap
      ensures heapMax == old(heapMax) - 2 && heap[1] == old(heap[1])
      ensures Holds(live) && HeapFrom(heap[..], heapLen, tree.fc[..], depth[..], 1)
      ensures Pushed(old(heap[..]), heap[..], old(heapMax), n, m)
    {
      hide HeapFrom;
      ghost var h := heap[..];
      heapMax := heapMax - 1;
      heap[heapMax] := n;
      heapMax := heapMax - 1;
      heap[heapMax] := m;
      HeapPrefix(h, heap[..], heapLen, tree.fc[..], depth[..], 1);
    }

    /** Makes node the parent of n and m. */
    method LinkNode(desc: TreeDesc, node: nat, n: nat, m: nat, ghost live: set<nat>)
      requires Distinct(desc) && Sized(desc) && heapLen < heap.Length
      requires n < node && m < node < desc.dynTree.fc.Length && node < depth.Length && n != m
      requires desc.dynTree.fc[n] + desc.dynTree.fc[m] < 65536
      requires Holds(live) && (forall k :: k in live ==> k < node)
      requires HeapFrom(heap[..], heapLen, desc.dynTree.fc[..], depth[..], 1)
      modifies depth, desc.dynTree.fc, desc.dynTree.dl
      ensures HeapFrom(heap[..], heapLen, desc.dynTree.fc[..], depth[..], 1)
      ensures desc.dynTree.fc[..] == old(desc.dynTree.fc[..])[node := old(desc.dynTree.fc[n] + desc.dynTree.fc[m])]
      ensures desc.dynTree.dl[..] == old(desc.dynTree.dl[..])[n := node][m := node]
    {
      hide HeapFrom;
      var tree := desc.dynTree;
      ghost var h, f, d := heap[..], tree.fc[..], depth[..];
      forall i | 1 <= i <= heapLen
        ensures h[i] != node
      {
        EntryLive(h, heapLen, live, i);
      }
      var freq := (tree.fc[n] + tree.fc[m]) % 65536;
      var deep := ((if depth[n] >= depth[m] then depth[n] else depth[m]) + 1) % 256;
      HeapFrame(h, heapLen, f, d, 1, node, freq, deep);
      tree.fc[node] := freq;
      depth[node] := deep;
      assert tree.fc[..] == f[node := freq] && depth[..] == d[node := deep];
      tree.dl[n] := node;
      tree.dl[m] := node;
    }

    /** Joins the two least frequent roots under a new node. */
    method MergeTwo(desc: TreeDesc, node: nat, ghost F: Forest, ghost at: seq<nat>)
      returns (ghost F': Forest, ghost at': seq<nat>)
      requires Distinct(desc) && Sized(desc) && Merging(desc, F, at) && F.node == node && 2 <= heapLen
      modifies `heapLen, `heapMax, heap, depth, desc.dynTree.fc, desc.dynTree.dl
      ensures Merging(desc, F', at') && F'.node == node + 1 && heapLen == old(heapLen) - 1
      ensures F'.syms == F.syms
      ensures forall k :: 0 <= k < F.elems ==> desc.dynTree.fc[k] == old(desc.dynTree.fc[k])
      ensures forall k :: 0 <= k < F.elems && k !in F.syms ==> desc.dynTree.dl[k] == old(desc.dynTree.dl[k])
    {
      hide HeapFrom, Growing, AllGreedy, TakenOut, ByFrequency, LiveTotal, Holds, LeastTwo;
      var tree := desc.dynTree;
      ghost var f, h, hm := tree.fc[..], heap[..], heapMax;
      var n, m := TakeTwo(desc, F);
      MergeFacts(F, f, n, m);
      LinkNode(desc, node, n, m, F.live - {n});
      ReplaceRoot(tree, node, F.live - {n});
      ghost var h' := heap[..];
      assert Pushed(h, h', hm, n, m);
      MergeGrows(F, f, n, m);
      MergeGreedy(F, f, n, m);
      PushTwo(F, f, h, h', hm, at, n, m);
      PushByFrequency(F, f, h, h', hm, n, m);
      F', at' := Merge(F, n, m), at[n := hm - 1][m := hm - 2];
      assert F.live - {n} - {m} + {node} == F'.live;
    }

    lemma RootLeast'(tree: CtData, live: set<nat>)
      requires 1 <= heapLen && Holds(live) && HeapFrom(heap[..], heapLen, tree.fc[..], depth[..], 1)
      ensures heap[1] in live && Least(tree.fc[..], live, heap[1])
    {
      RootLeast(heap[..], heapLen, tree.fc[..], depth[..], live);
    }

    /** Builds the Huffman tree over the symbols in the heap and lists its nodes. */
    method GrowTree(desc: TreeDesc, ghost syms: set<nat>)
      returns (ghost sh: Shape, ghost order: seq<nat>, ghost pos: seq<nat>)
      requires Distinct(desc) && Sized(desc) && Holds(syms) && 2 <= heapLen <= desc.elems && heapMax == heap.Length
      requires forall s :: s in syms ==> s < desc.elems
      requires LiveTotal(Seedlings(desc.elems, syms, desc.dynTree.dl[..]), desc.dynTree.fc[..]) < 65536
      modifies `heapLen, `heapMax, heap, depth, desc.dynTree.fc, desc.dynTree.dl
      ensures Full(sh) && sh.elems == desc.elems && sh.syms == syms && sh.root < desc.dynTree.dl.Length
      ensures heapMax <= heap.Length && order == heap[heapMax..] && Listed(sh, order, pos)
      ensures forall k :: 0 <= k < sh.root ==> desc.dynTree.dl[k] == sh.dad[k]
      ensures Weighed(sh, desc.dynTree.fc[..]) && GreedyShape(sh, desc.dynTree.fc[..])
      ensures Falling(desc.dynTree.fc[..], order)
      ensures forall k :: 0 <= k < desc.elems ==> desc.dynTree.fc[k] == old(desc.dynTree.fc[k])
      ensures forall k :: 0 <= k < desc.elems && k !in syms ==> desc.dynTree.dl[k] == old(desc.dynTree.dl[k])
    {
      hide HeapFrom, Growing, AllGreedy, TakenOut, ByFrequency, LiveTotal, Full, Listed, Weighed, GreedyShape, Falling;
      var tree := desc.dynTree;
      LiveEntries(heap[..], heapLen, tree.fc[..], depth[..], syms, desc.elems);
      Heapify(tree, syms);
      ghost var F, at := Seedlings(desc.elems, syms, tree.dl[..]), tree.dl[..];
      SeedlingsGrow(desc.elems, syms, tree.dl[..], tree.fc[..], heap[..]);
      var node := desc.elems;
      while heapLen >= 2
        invariant Merging(desc, F, at) && F.node == node && F.syms == syms
        invariant desc.elems < node || heapLen >= 2
        invariant forall k :: 0 <= k < desc.elems ==> tree.fc[k] == old(tree.fc[k])
        invariant forall k :: 0 <= k < desc.elems && k !in syms ==> tree.dl[k] == old(tree.dl[k])
        decreases heapLen
      {
        F, at := MergeTwo(desc, node, F, at);
        node := node + 1;
      }
      sh, order, pos := FinishTree(desc, F, at);
    }

    /** Puts the last root in front of the list. */
    method FinishTree(desc: TreeDesc, ghost F: Forest, ghost at: seq<nat>)
      returns (ghost sh: Shape, ghost order: seq<nat>, ghost pos: seq<nat>)
      requires Distinct(desc) && Sized(desc) && Merging(desc, F, at) && heapLen == 1 && F.elems < F.node
      modifies `heapMax, heap
      ensures Full(sh) && sh.elems == desc.elems && sh.syms == F.syms && sh.root < desc.dynTree.dl.Length
      ensures heapMax <= heap.Length && order == heap[heapMax..] && Listed(sh, order, pos)
      ensures forall k :: 0 <= k < sh.root ==> desc.dynTree.dl[k] == sh.dad[k]
      ensures Weighed(sh, desc.dynTree.fc[..]) && GreedyShape(sh, desc.dynTree.fc[..])
      ensures Falling(desc.dynTree.fc[..], order)
    {
      hide HeapFrom, Growing, AllGreedy, TakenOut, ByFrequency, LiveTotal, Full, Listed, Weighed, GreedyShape, Falling;
      ghost var f, h, hm := desc.dynTree.fc[..], heap[..], heapMax;
      OneRoot(F, f, h);
      FinishedFull(F, f);
      FinishedGreedy(F, f);
      heapMax := heapMax - 1;
      heap[heapMax] := heap[1];
      FinishedListed(F, f, h, heap[..], hm, at);
      FinishedFalling(F, f, h, heap[..], hm);
      sh, order, pos := Finished(F), heap[heapMax..], Positions(F, at, heapMax);
    }

    /** gen_bitlen: the lengths of all codes, none above the limit, with a Kraft sum of exactly one. */
    method GenBitlen(desc: TreeDesc, ghost sh: Shape, ghost order: seq<nat>, ghost pos: seq<nat>)
      requires Distinct(desc) && Sized(desc) && TreeListed(desc, sh, order, pos)
      requires forall k :: 0 <= k < sh.root && Present(sh, k) ==> desc.dynTree.dl[k] == sh.dad[k]
      modifies `optLen, `staticLen, blCount, desc.dynTree.dl
      ensures Coded(sh, desc.dynTree.dl[..], desc.maxLength)
      ensures CountsOf(blCount[..], StoredLens(sh, desc.dynTree.dl[..]), desc.maxLength)
      ensures ZeroOutside(blCount[..], desc.maxLength)
      ensures Slots(StoredLens(sh, desc.dynTree.dl[..]), desc.maxLength) == Pow2(desc.maxLength)
      ensures optLen == old(optLen) + Sum(CostTerms(CostsOf(desc), StoredLens(sh, desc.dynTree.dl[..])))
      ensures staticLen == old(staticLen) + Sum(StaticTerms(CostsOf(desc), StoredLens(sh, desc.dynTree.dl[..])))
      ensures DeepNodes(sh, desc.maxLength, sh.elems) == 0 ==>
                StoredLens(sh, desc.dynTree.dl[..]) == ClampedLens(sh, desc.maxLength)
      ensures forall k :: 0 <= k < desc.dynTree.dl.Length && !(k <= sh.root && Present(sh, k)) ==>
                desc.dynTree.dl[k] == old(desc.dynTree.dl[k])
    {
      hide Full, Listed, LinksInv, TallyInv, Sum, CostTerms, StaticTerms, DeepNodes, CountsOf, Slots, Excess, Used,
          Pow2;
      var tree, max := desc.dynTree, desc.maxLength;
      ghost var c := CostsOf(desc);
      var overflow := FirstPass(desc, sh, order, pos);
      ghost var lens := ClampedLens(sh, max);
      TallyEnd(sh, order, pos, max, c, Tally(blCount[..], overflow, optLen - old(optLen), staticLen - old(staticLen)));
      StoredAfterPass(sh, order, pos, max, tree.dl[..]);
      ExcessAfterPass(sh, max, blCount[..]);
      ghost var n := Used(lens, sh.elems);
      if overflow == 0 {
        NoExcess(blCount[..], lens, max, n);
        return;
      }
      RepairOverflow(max, overflow, n);
      TotalWhenDone(blCount[..], max, n);
      Reassign(desc, sh, order, pos, c, old(optLen));
      ghost var final := StoredLens(sh, tree.dl[..]);
      NoExcess(blCount[..], final, max, n);
      StaticSame(c, lens, final);
    }

    /** One round of the padding: the next symbol joins, and what is still to be added stays the same. */
    method PadNext(desc: TreeDesc, max: int, ghost syms: set<nat>, ghost ds: seq<nat>, ghost c: Costs,
                   ghost syms0: set<nat>)
      returns (next: int, ghost joined: set<nat>, ghost pads: seq<nat>)
      requires Distinct(desc) && Sized(desc) && Holds(syms) && heapLen == |syms| < 2 && LargestOf(syms, max)
      requires Padded(c, desc.elems, syms0, syms, ds, desc.dynTree.fc[..], max)
      requires c.staticLens == CostsOf(desc).staticLens && forall n :: 0 <= n < 3 ==> XBits(c, n) == 0
      modifies `heapLen, `optLen, `staticLen, heap, depth, desc.dynTree.fc
      ensures heapLen == old(heapLen) + 1 == |joined| && Holds(joined) && LargestOf(joined, next)
      ensures |pads| == |ds| + 1 && pads + PadsFor(joined, next) == ds + PadsFor(syms, max)
      ensures Padded(c, desc.elems, syms0, joined, pads, desc.dynTree.fc[..], next)
      ensures optLen == old(optLen) - 1 && staticLen + StaticLens(c, pads) == old(staticLen) + StaticLens(c, ds)
    {
      hide Holds, XBits, Padded, StaticLens, Occurring, PadsFor, Pow2;
      ghost var freq := desc.dynTree.fc[..];
      PaddedFacts(c, desc.elems, syms0, syms, ds, freq, max);
      ghost var d;
      next, d := PadOne(desc, max, syms);
      PadsStep(syms, max, next);
      PaddedStep(c, desc.elems, syms0, syms, ds, freq, max, d, next);
      joined, pads := syms + {d}, ds + [d];
    }

    /** Forces at least two codes of nonzero frequency. */
    method PadToTwo(desc: TreeDesc, max: int, ghost syms0: set<nat>) returns (maxCode: int, ghost syms: set<nat>,
        ghost ds: seq<nat>)
      requires Distinct(desc) && Sized(desc) && Holds(syms0) && heapLen <= desc.elems
      requires syms0 == Occurring(desc.dynTree.fc[..], desc.elems)
      requires -1 <= max < desc.elems && (forall s :: s in syms0 ==> s <= max) && (max >= 0 ==> max in syms0)
      requires forall n :: 0 <= n < 3 ==> XBits(CostsOf(desc), n) == 0
      modifies `heapLen, `optLen, `staticLen, heap, depth, desc.dynTree.fc
      ensures 2 <= heapLen <= desc.elems && Holds(syms) && syms0 <= syms
      ensures maxCode in syms && maxCode < desc.elems && forall s :: s in syms ==> s <= maxCode
      ensures Padding(old(CostsOf(desc)), ds) && (ds != [] ==> heapLen == 2) && ds == PadsFor(syms0, max)
      ensures (forall i :: 0 <= i < |ds| ==> ds[i] in syms) && |ds| <= 2
      ensures desc.dynTree.fc[..] == PadFreq(old(desc.dynTree.fc[..]), ds)
      ensures syms == Occurring(desc.dynTree.fc[..], desc.elems)
      ensures optLen == old(optLen) - |ds|
      ensures staticLen == old(staticLen) - StaticLens(old(CostsOf(desc)), ds)
    {
      hide Holds, XBits, Padded, StaticLens, Occurring, PadsFor, Pow2;
      maxCode, syms, ds := max, syms0, [];
      ghost var c := CostsOf(desc);
      PaddedStart(c, desc.elems, syms0, max);
      HeldCount(syms0);
      while heapLen < 2
        invariant heapLen <= desc.elems && Holds(syms) && heapLen == |syms0| + |ds|
        invariant ds != [] ==> heapLen <= 2
        invariant LargestOf(syms, maxCode) && |syms| == heapLen && ds + PadsFor(syms, maxCode) == PadsFor(syms0, max)
        invariant Padded(c, desc.elems, syms0, syms, ds, desc.dynTree.fc[..], maxCode)
        invariant optLen == old(optLen) - |ds|
        invariant staticLen == old(staticLen) - StaticLens(c, ds)
        decreases 2 - heapLen
      {
        maxCode, syms, ds := PadNext(desc, maxCode, syms, ds, c, syms0);
      }
      PaddedFacts(c, desc.elems, syms0, syms, ds, desc.dynTree.fc[..], maxCode);
      HeldSome(syms);
      assert PadsFor(syms, maxCode) == [] by { NoPads(syms, maxCode); }
    }

    lemma HeldSome(live: set<nat>)
      requires Holds(live) && heapLen > 0
      ensures live != {}
    {
      EntryLive(heap[..], heapLen, live, 1);
    }

    lemma HeldCount(live: set<nat>)
      requires Holds(live)
      ensures heapLen == |live|
    {
      assert |multiset(live)| == |heap[1..heapLen + 1]|;
    }

    /** What build_tree expects: frequencies whose total fits 16 bits, and no extra bits on the first symbols. */
    ghost predicate Buildable(desc: TreeDesc)
      reads desc.dynTree.fc, if desc.staticTree == null then {} else {desc.staticTree.dl}
    {
      && Distinct(desc) && Sized(desc)
      && (forall n :: 0 <= n < 3 ==> XBits(CostsOf(desc), n) == 0)
      && Sum(desc.dynTree.fc[..desc.elems]) + 2 < 65536
    }

    /** The heap of all symbols that occur, padded to two. */
    method PrepareHeap(desc: TreeDesc) returns (ghost syms: set<nat>, ghost ds: seq<nat>)
      requires Buildable(desc)
      modifies desc`maxCode, this, heap, depth, desc.dynTree.fc, desc.dynTree.dl
      ensures 2 <= heapLen <= desc.elems && Holds(syms) && heapMax == heap.Length
      ensures 0 <= desc.maxCode < desc.elems && desc.maxCode in syms && forall s :: s in syms ==> s <= desc.maxCode
      ensures Prepared(old(CostsOf(desc)), desc.elems, syms, ds, desc.dynTree.fc[..])
      ensures forall n :: 0 <= n < desc.elems && n !in syms ==> desc.dynTree.dl[n] == 0
      ensures optLen == old(optLen) - |ds| && staticLen == old(staticLen) - StaticLens(old(CostsOf(desc)), ds)
    {
      hide Holds, XBits, Padding, PadFreq, StaticLens, Occurring;
      ghost var c := CostsOf(desc);
      var max0, syms0 := InitHeap(desc);
      HeldCount(syms0);
      OccurringCount(desc.dynTree.fc[..], desc.elems);
      var maxCode;
      maxCode, syms, ds := PadToTwo(desc, max0, syms0);
      desc.maxCode := maxCode;
      HeldCount(syms);
    }

    /** The tree over the prepared heap, and the code lengths read off it. */
    method GrowAndMeasure(desc: TreeDesc, ghost syms: set<nat>) returns (ghost sh: Shape, ghost f: seq<nat>)
      requires Distinct(desc) && Sized(desc) && Holds(syms) && 2 <= heapLen <= desc.elems && heapMax == heap.Length
      requires 0 <= desc.maxCode < desc.elems && desc.maxCode in syms && forall s :: s in syms ==> s <= desc.maxCode
      requires forall n :: 0 <= n < desc.elems && n !in syms ==> desc.dynTree.dl[n] == 0
      requires LiveTotal(Seedlings(desc.elems, syms, desc.dynTree.dl[..]), desc.dynTree.fc[..]) < 65536
      modifies this, heap, depth, blCount, desc.dynTree.fc, desc.dynTree.dl
      ensures MeasuredShape(sh, f, old(desc.dynTree.fc[..]), desc.elems, syms, desc.maxLength,
          desc.dynTree.dl[..desc.elems])
      ensures CompleteLens(desc.dynTree.dl[..desc.elems], desc.maxLength, desc.maxCode)
      ensures forall s :: 0 <= s < desc.elems ==> (desc.dynTree.dl[s] > 0 <==> s in syms)
      ensures CountsOf(blCount[..], desc.dynTree.dl[..desc.elems], desc.maxLength)
          && ZeroOutside(blCount[..], desc.maxLength)
      ensures optLen == old(optLen) + Sum(CostTerms(old(CostsOf(desc)), desc.dynTree.dl[..desc.elems]))
      ensures staticLen == old(staticLen) + Sum(StaticTerms(old(CostsOf(desc)), desc.dynTree.dl[..desc.elems]))
    {
      hide Holds, LiveTotal, Sum, CostTerms, StaticTerms, CountsOf, Slots, Pow2, Listed, GreedyShape, Weighed, Falling,
           Full, DeepNodes;
      ghost var c := CostsOf(desc);
      ghost var order, pos;
      sh, order, pos := GrowTree(desc, syms);
      f := desc.dynTree.fc[..];
      ghost var c' := CostsOf(desc);
      GenBitlen(desc, sh, order, pos);
      ghost var lens := desc.dynTree.dl[..desc.elems];
      StoredIsAll(sh, desc.dynTree.dl[..]);
      CostFrame(c, c', lens);
    }

    /** The Huffman tree of the frequencies, its code lengths, and what the symbols cost. */
    method BuildLengths(desc: TreeDesc) returns (ghost sh: Shape, ghost f: seq<nat>, ghost syms: set<nat>)
      requires Buildable(desc)
      modifies desc`maxCode, this, heap, depth, blCount, desc.dynTree.fc, desc.dynTree.dl
      ensures CompleteLens(desc.dynTree.dl[..desc.elems], desc.maxLength, desc.maxCode)
      ensures CoversUsed(old(desc.dynTree.fc[..desc.elems]), desc.dynTree.dl[..desc.elems])
      ensures CountsOf(blCount[..], desc.dynTree.dl[..desc.elems], desc.maxLength)
          && ZeroOutside(blCount[..], desc.maxLength)
      ensures optLen == old(optLen) + Sum(CostTerms(old(CostsOf(desc)), desc.dynTree.dl[..desc.elems]))
      ensures staticLen == old(staticLen) + Sum(StaticTerms(old(CostsOf(desc)), desc.dynTree.dl[..desc.elems]))
      ensures BuiltOn(sh, f, old(CostsOf(desc)), desc.elems, syms, desc.maxLength, desc.dynTree.dl[..desc.elems])
    {
      hide Holds, XBits, StaticLens, LiveTotal, Sum, CostTerms, StaticTerms, CountsOf, Slots, Pow2, MeasuredShape,
          CompleteLens,
           Prepared, CoversUsed, ZeroOutside;
      ghost var c := CostsOf(desc);
      ghost var ds;
      syms, ds := PrepareHeap(desc);
      ghost var c1 := CostsOf(desc);
      PreparedTotal(c, desc.elems, syms, ds, desc.dynTree.fc[..], desc.dynTree.dl[..]);
      HeldCount(syms);
      sh, f := GrowAndMeasure(desc, syms);
      PreparedCost(c, c1, desc.elems, syms, ds, desc.dynTree.dl[..desc.elems], desc.maxLength, desc.maxCode);
    }

    /** build_tree: lengths and codes for one alphabet, and what its symbols cost. */
    method BuildTree(desc: TreeDesc) returns (ghost sh: Shape, ghost f: seq<nat>, ghost syms: set<nat>)
      requires Buildable(desc)
      modifies desc`maxCode, this, heap, depth, blCount, desc.dynTree.fc, desc.dynTree.dl
      ensures CompleteLens(desc.dynTree.dl[..desc.elems], desc.maxLength, desc.maxCode)
      ensures CoversUsed(old(desc.dynTree.fc[..desc.elems]), desc.dynTree.dl[..desc.elems])
      ensures HoldsCodes(desc.dynTree, desc.dynTree.dl[..desc.maxCode + 1])
      ensures optLen == old(optLen) + Sum(CostTerms(old(CostsOf(desc)), desc.dynTree.dl[..desc.elems]))
      ensures staticLen == old(staticLen) + Sum(StaticTerms(old(CostsOf(desc)), desc.dynTree.dl[..desc.elems]))
      ensures BuiltOn(sh, f, old(CostsOf(desc)), desc.elems, syms, desc.maxLength, desc.dynTree.dl[..desc.elems])
    {
      hide Buildable, CompleteLens, CoversUsed, HoldsCodes, Sum, CostTerms, StaticTerms, BuiltOn, CountsOf;
      BuildableFacts(desc);
      sh, f, syms := BuildLengths(desc);
      ghost var lens := desc.dynTree.dl[..desc.elems];
      TrimCounts(blCount[..], lens, desc.maxLength, desc.maxCode);
      assert lens[..desc.maxCode + 1] == desc.dynTree.dl[..desc.maxCode + 1];
      GenCodes(blCount, desc.dynTree, desc.maxCode, lens[..desc.maxCode + 1]);
    }

    lemma BuildableFacts(desc: TreeDesc)
      requires Buildable(desc)
      ensures Distinct(desc) && Sized(desc)
    {
    }
  }

  /** Every leaf has a length from 1 to max. */
  ghost predicate Coded(sh: Shape, dl: seq<nat>, max: nat)
  {
    sh.elems <= |dl| && forall s :: s in sh.syms ==> s < sh.elems && 1 <= dl[s] <= max
  }

  lemma NoExcess(counts: seq<nat>, lens: seq<nat>, max: nat, n: nat)
    requires Excess(counts, max, 0, n) && CountsOf(counts, lens, max)
    ensures Slots(lens, max) == Pow2(max)
  {
    SlotsOfCounts(counts, lens, max, max);
  }

  lemma TotalWhenDone(counts: seq<nat>, max: nat, n: nat)
    requires Excess(counts, max, 0, n)
    ensures max < |counts| && Total(counts, max) == n
  {
  }

  /** No code has length zero or a length above max. */
  ghost predicate ZeroOutside(counts: seq<nat>, max: nat)
  {
    forall len :: 0 <= len < |counts| && !(1 <= len <= max) ==> counts[len] == 0
  }

  ghost predicate LeavesCoded(sh: Shape, dl: seq<nat>)
  {
    sh.elems <= |dl| && forall s :: s in sh.syms ==> s < sh.elems && dl[s] > 0
  }

  lemma ListedNode(sh: Shape, order: seq<nat>, pos: seq<nat>, i: nat)
    requires Full(sh) && Listed(sh, order, pos) && i < |order|
    ensures order[i] <= sh.root && (order[i] in sh.syms || sh.elems <= order[i])
  {
  }

  lemma NodeFacts(sh: Shape, order: seq<nat>, pos: seq<nat>, max: nat, dl: seq<nat>, i: nat)
    requires Full(sh) && Listed(sh, order, pos) && LinksInv(sh, order, max, dl, i) && i < |order|
    ensures order[i] <= sh.root < |dl| && Present(sh, order[i])
    ensures order[i] !in sh.syms ==> order[i] >= sh.elems
  {
  }

  lemma PassStart(sh: Shape, order: seq<nat>, pos: seq<nat>, max: nat, c: Costs, dl: seq<nat>, bl: seq<nat>)
    requires Full(sh) && Listed(sh, order, pos) && |bl| > max && sh.root < |dl|
    requires forall i :: 0 <= i < |bl| ==> bl[i] == 0
    requires forall k :: 0 <= k < sh.root && Present(sh, k) ==> dl[k] == sh.dad[k]
    requires order[0] <= sh.root && dl[order[0]] == 0
    ensures LinksInv(sh, order, max, dl, 1)
    ensures TallyInv(sh, order, pos, max, c, Tally(bl, 0, 0, 0), 1)
  {
    RootFirst(sh, order, pos);
    TallyStart(sh, order, pos, max, c, bl);
  }

  /** The symbols below n that occur. */
  ghost function Occurring(freq: seq<nat>, n: nat): set<nat>
    requires n <= |freq|
  {
    set s | 0 <= s < n && freq[s] != 0
  }

  /** With at most one symbol in use, the symbol the padding picks is new. */
  lemma NoPads(syms: set<nat>, max: int)
    requires |syms| >= 2
    ensures PadsFor(syms, max) == []
  {
  }

  lemma FreshSymbol(entries: seq<nat>, syms: set<nat>, max: int)
    requires multiset(entries) == multiset(syms) && |entries| < 2
    requires (forall s :: s in syms ==> s <= max) && (max >= 0 ==> max in syms)
    ensures max >= 2 ==> 0 !in syms
  {
    assert |multiset(syms)| == |syms| == |entries|;
    if max >= 2 && 0 in syms {
      TwoMembers(syms, 0, max);
    }
  }

  lemma TwoMembers(s: set<nat>, a: nat, b: nat)
    requires a in s && b in s && a != b
    ensures |s| >= 2
  {
    assert s == (s - {a}) + {a};
    assert b in s - {a};
  }

  lemma LeastPair(F: Forest, f: seq<nat>, n: nat, m: nat)
    requires n in F.live && Least(f, F.live, n) && m in F.live - {n} && Least(f, F.live - {n}, m)
    ensures LeastTwo(F, f, n, m)
  {
  }

  lemma MergeFacts(F: Forest, f: seq<nat>, n: nat, m: nat)
    requires Growing(F, f) && LeastTwo(F, f, n, m) && F.node < |f|
    ensures n < F.node && m < F.node && n != m && n < |f| && m < |f|
    ensures F.node !in F.live && forall k :: k in F.live ==> k < F.node
    ensures F.elems <= F.node < |F.left| == |F.right| == |F.dad|
    ensures f[n] + f[m] <= LiveTotal(F, f)
    ensures LiveTotal(Merge(F, n, m), f[F.node := f[n] + f[m]]) == LiveTotal(F, f)
    ensures n !in F.syms ==> F.elems <= n
    ensures m !in F.syms ==> F.elems <= m
  {
    MergeTotal(F, f, n, m);
    NodeIsNew(F, f);
  }

  lemma LiveEntries(h: seq<nat>, len: nat, f: seq<nat>, d: seq<nat>, live: set<nat>, n: nat)
    requires len < |h| && multiset(h[1..len + 1]) == multiset(live) && n <= |f| && n <= |d|
    requires forall k :: k in live ==> k < n
    ensures Entries(h, len, f, d)
  {
    forall i | 1 <= i <= len
      ensures h[i] < n
    {
      EntryLive(h, len, live, i);
    }
  }

  /** When the heap holds one node, it is the node made last. */
  lemma OneRoot(F: Forest, f: seq<nat>, h: seq<nat>)
    requires Growing(F, f) && F.elems < F.node && F.node - 1 in F.live
    requires 1 < |h| && multiset(h[1..2]) == multiset(F.live)
    ensures F.live == {F.node - 1} && h[1] == F.node - 1
    ensures F.node <= |F.dad| == |F.left| == |F.right| == |f|
  {
    assert h[1..2] == [h[1]];
    forall k | k in F.live
      ensures k == h[1]
    {
      assert k in multiset(h[1..2]);
    }
  }

  /** The nodes are listed in order of falling frequency. */
  ghost predicate Falling(f: seq<nat>, order: seq<nat>)
  {
    && (forall i :: 0 <= i < |order| ==> order[i] < |f|)
    && forall i, j :: 0 <= i <= j < |order| ==> f[order[i]] >= f[order[j]]
  }

  lemma FinishedFalling(F: Forest, f: seq<nat>, h: seq<nat>, h': seq<nat>, hm: nat)
    requires ByFrequency(F, f, h, hm) && F.node > 0 && F.node - 1 in F.live && 1 <= hm <= |h| == |h'|
    requires h'[hm - 1] == F.node - 1 && forall i :: hm <= i < |h| ==> h'[i] == h[i]
    ensures Falling(f, h'[hm - 1..])
  {
    var order := h'[hm - 1..];
    forall i | 0 <= i < |order|
      ensures order[i] == (if i == 0 then F.node - 1 else h[hm - 1 + i])
    {
    }
  }

  /** The state while symbols are added. */
  ghost predicate Padded(c: Costs, n: nat, syms0: set<nat>, syms: set<nat>, ds: seq<nat>, freq: seq<nat>, maxCode: int)
  {
    && n <= |c.freq| && Padding(c, ds) && freq == PadFreq(c.freq, ds) && syms == Occurring(freq, n) && syms0 <= syms
    && (forall i :: 0 <= i < |ds| ==> ds[i] in syms)
    && -1 <= maxCode < n && (forall s :: s in syms ==> s <= maxCode) && (maxCode >= 0 ==> maxCode in syms)
  }

  lemma PaddedFacts(c: Costs, n: nat, syms0: set<nat>, syms: set<nat>, ds: seq<nat>, freq: seq<nat>, maxCode: int)
    requires Padded(c, n, syms0, syms, ds, freq, maxCode)
    ensures n <= |c.freq| && Padding(c, ds) && freq == PadFreq(c.freq, ds) && syms == Occurring(freq, n)
        && syms0 <= syms
    ensures forall i :: 0 <= i < |ds| ==> ds[i] in syms
    ensures -1 <= maxCode < n && (forall s :: s in syms ==> s <= maxCode) && (maxCode >= 0 ==> maxCode in syms)
    ensures syms != {} ==> maxCode >= 0
  {
  }

  lemma PaddedStart(c: Costs, n: nat, syms0: set<nat>, maxCode: int)
    requires n <= |c.freq| && syms0 == Occurring(c.freq, n)
    requires -1 <= maxCode < n && (forall s :: s in syms0 ==> s <= maxCode) && (maxCode >= 0 ==> maxCode in syms0)
    ensures Padded(c, n, syms0, syms0, [], c.freq, maxCode) && StaticLens(c, []) == 0
  {
  }

  lemma PaddedStep(c: Costs, n: nat, syms0: set<nat>, syms: set<nat>, ds: seq<nat>, freq: seq<nat>, maxCode: int,
                   d: nat, maxCode': int)
    requires Padded(c, n, syms0, syms, ds, freq, maxCode) && d < n && d !in syms && XBits(c, d) == 0
    requires maxCode' < n && maxCode' in syms + {d} && forall s :: s in syms + {d} ==> s <= maxCode'
    ensures Padded(c, n, syms0, syms + {d}, ds + [d], freq[d := 1], maxCode')
    ensures StaticLens(c, ds + [d]) == StaticLens(c, ds) + StaticLen(c, d)
  {
    hide XBits, Padding, PadFreq, StaticLens, Occurring;
    OccurringAdd(freq, n, d);
    PadFreqElsewhere(c.freq, ds, d);
    PadAppend(c, ds, d);
  }

  lemma OccurringAdd(freq: seq<nat>, n: nat, d: nat)
    requires d < n <= |freq|
    ensures Occurring(freq[d := 1], n) == Occurring(freq, n) + {d}
    ensures d !in Occurring(freq, n) ==> freq[d] == 0
  {
  }

  /** A complete code whose last symbol is maxCode. */
  ghost predicate CompleteLens(lens: seq<nat>, max: nat, maxCode: int)
  {
    && 0 <= maxCode < |lens| && lens[maxCode] > 0
    && (forall s :: 0 <= s < |lens| ==> lens[s] <= max)
    && (forall s :: maxCode < s < |lens| ==> lens[s] == 0)
    && Slots(lens, max) == Pow2(max)
  }

  /** Every symbol that occurs has a code. */
  ghost predicate CoversUsed(freq: seq<nat>, lens: seq<nat>)
  {
    |freq| == |lens| && forall s :: 0 <= s < |freq| && freq[s] > 0 ==> lens[s] > 0
  }

  lemma {:induction false} OccurringCount(freq: seq<nat>, n: nat)
    requires n <= |freq|
    ensures |Occurring(freq, n)| <= n
  {
    if n > 0 {
      OccurringCount(freq, n - 1);
      assert Occurring(freq, n) == Occurring(freq, n - 1) + (if freq[n - 1] != 0 then {n - 1} else {});
    } else {
      assert Occurring(freq, n) == {};
    }
  }

  /** The padded frequencies and the symbols that now occur. */
  ghost predicate Prepared(c: Costs, n: nat, syms: set<nat>, ds: seq<nat>, freq: seq<nat>)
  {
    && n <= |c.freq| && Padding(c, ds) && freq == PadFreq(c.freq, ds) && syms == Occurring(freq, n)
    && (forall i :: 0 <= i < |ds| ==> ds[i] in syms) && |ds| <= 2 && (ds != [] ==> |syms| == 2)
    && Occurring(c.freq, n) <= syms
  }

  lemma PreparedTotal(c: Costs, n: nat, syms: set<nat>, ds: seq<nat>, freq: seq<nat>, dad: seq<nat>)
    requires Prepared(c, n, syms, ds, freq) && Sum(c.freq[..n]) + 2 < 65536
    ensures LiveTotal(Seedlings(n, syms, dad), freq) < 65536
  {
    PadTotal(c.freq, ds, n);
    SeedTotal(n, syms, dad, freq);
  }

  /** The code built is a code for exactly the symbols in syms, over a Huffman tree of their frequencies. */
  ghost predicate MeasuredShape(sh: Shape, f: seq<nat>, freq: seq<nat>, n: nat, syms: set<nat>, max: nat,
      lens: seq<nat>)
  {
    && Full(sh) && sh.elems == n && sh.syms == syms && Weighed(sh, f) && GreedyShape(sh, f)
    && n <= |f| && n <= |freq| && f[..n] == freq[..n] && |lens| == n
    && (DeepNodes(sh, max, n) == 0 ==> lens == ClampedLens(sh, max))
  }

  lemma StoredIsAll(sh: Shape, dl: seq<nat>)
    requires sh.elems <= |dl| && forall s :: 0 <= s < sh.elems && s !in sh.syms ==> dl[s] == 0
    ensures StoredLens(sh, dl) == dl[..sh.elems]
  {
  }

  lemma CostFrame(c: Costs, c': Costs, lens: seq<nat>)
    requires c' == c.(freq := c'.freq) && |lens| <= |c.freq| && |lens| <= |c'.freq|
    requires forall s :: 0 <= s < |lens| ==> c'.freq[s] == c.freq[s]
    ensures CostTerms(c', lens) == CostTerms(c, lens) && StaticTerms(c', lens) == StaticTerms(c, lens)
  {
  }

  /** The padding is paid back exactly. */
  lemma PreparedCost(c: Costs, c1: Costs, n: nat, syms: set<nat>, ds: seq<nat>, lens: seq<nat>, max: nat, maxCode: int)
    requires Prepared(c, n, syms, ds, c1.freq) && c1 == c.(freq := c1.freq)
    requires |lens| == n && CompleteLens(lens, max, maxCode)
    requires forall s :: 0 <= s < n ==> (lens[s] > 0 <==> s in syms)
    ensures Sum(CostTerms(c1, lens)) == Sum(CostTerms(c, lens)) + |ds|
    ensures Sum(StaticTerms(c1, lens)) == Sum(StaticTerms(c, lens)) + StaticLens(c, ds)
    ensures CoversUsed(c.freq[..n], lens)
  {
    hide Sum, CostTerms, StaticTerms, Slots, Pow2, XBits;
    if ds != [] {
      var d := ds[0];
      var e :| e in syms && e != d by { OtherMember(syms, d); }
      OnlyTwo(syms, d, e);
      TwoSymbols(lens, max, d, e);
    }
    PadCost(c, ds, lens);
  }

  lemma OtherMember(s: set<nat>, d: nat)
    requires |s| == 2 && d in s
    ensures exists e :: e in s && e != d
  {
    assert |s - {d}| == 1;
    var e :| e in s - {d};
  }

  lemma OnlyTwo(s: set<nat>, d: nat, e: nat)
    requires |s| == 2 && d in s && e in s && d != e
    ensures s == {d, e}
  {
    assert |s - {d} - {e}| == 0;
    assert s == (s - {d} - {e}) + {d, e};
  }

  /** The frequencies f, padded to two symbols, were merged greedily into sh; unclamped, its depths are the lengths. */
  ghost predicate BuiltOn(sh: Shape, f: seq<nat>, c: Costs, n: nat, syms: set<nat>, max: nat, lens: seq<nat>)
  {
    exists ds, freq :: Prepared(c, n, syms, ds, freq) && MeasuredShape(sh, f, freq, n, syms, max, lens)
  }

  lemma {:induction false} CountPrefix(lens: seq<nat>, k: nat, len: nat, i: nat)
    requires i <= k <= |lens|
    ensures Count(lens[..k], len, i) == Count(lens, len, i)
    decreases i
  {
    if i > 0 {
      CountPrefix(lens, k, len, i - 1);
    }
  }

  /** The counts also fit the lengths cut off after the last used symbol, up to the longest length possible. */
  lemma TrimCounts(counts: seq<nat>, lens: seq<nat>, max: nat, maxCode: int)
    requires |counts| == MAX_BITS + 1 && max <= MAX_BITS
    requires CompleteLens(lens, max, maxCode) && CountsOf(counts, lens, max) && ZeroOutside(counts, max)
    ensures 0 <= maxCode < |lens| && counts[0] == 0 && CountsOf(counts, lens[..maxCode + 1], MAX_BITS)
    ensures forall s :: 0 <= s <= maxCode ==> lens[s] <= MAX_BITS
  {
    hide Slots, Pow2, Count;
    var k := maxCode + 1;
    forall len | 1 <= len <= MAX_BITS
      ensures counts[len] == Count(lens[..k], len, k)
    {
      CountPrefix(lens, k, len, k);
      CountAfter(lens, len, k, |lens|);
      if len > max {
        CountNone(lens, len, |lens|);
      }
    }
  }
}
