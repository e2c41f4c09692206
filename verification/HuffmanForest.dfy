/** The forest while it is merged into one tree, and the list of nodes taken out of the heap. */
module HuffmanForest {
  import opened Sums
  import opened HuffmanShape
  import opened HuffmanLengths

  /** live are the roots; nodes elems..node-1 have been made so far. */
  datatype Forest = Forest(elems: nat, node: nat, syms: set<nat>,
                           dad: seq<nat>, left: seq<nat>, right: seq<nat>, live: set<nat>)

  ghost predicate Alive(F: Forest, k: nat)
  {
    k in F.syms || F.elems <= k < F.node
  }

  ghost predicate Inner(F: Forest, f: seq<nat>, j: nat)
    requires j < |F.left| && j < |F.right| && |F.dad| == |f|
  {
    var l, r := F.left[j], F.right[j];
    && l != r && l < j && r < j && Alive(F, l) && Alive(F, r) && l !in F.live && r !in F.live
    && j < |f| && F.dad[l] == j == F.dad[r] && f[j] == f[l] + f[r]
  }

  ghost predicate HasDad(F: Forest, k: nat)
    requires k < |F.dad|
  {
    var d := F.dad[k];
    && F.elems <= d < F.node && k < d
    && d < |F.left| && d < |F.right| && (F.left[d] == k || F.right[d] == k)
  }

  ghost predicate Growing(F: Forest, f: seq<nat>)
  {
    && |F.dad| == |F.left| == |F.right| == |f| && F.elems <= F.node <= |f|
    && (forall s :: s in F.syms ==> s < F.elems)
    && (forall k :: k in F.live ==> Alive(F, k))
    && (forall j :: F.elems <= j < F.node ==> Inner(F, f, j))
    && (forall k :: 0 <= k < F.node && Alive(F, k) && k !in F.live ==> HasDad(F, k))
  }

  /** k was a root when node j was made. */
  ghost predicate Waiting(F: Forest, j: nat, k: nat)
  {
    Alive(F, k) && k < j && k < |F.dad| && (k in F.live || F.dad[k] >= j)
  }

  /** Node j joined two roots of least frequency. */
  ghost predicate Greedy(F: Forest, f: seq<nat>, j: nat)
    requires j < |F.left| && j < |F.right|
  {
    var l, r := F.left[j], F.right[j];
    && l < |f| && r < |f| && f[l] <= f[r]
    && forall k :: 0 <= k < |f| && Waiting(F, j, k) && k != l && k != r ==> f[r] <= f[k]
  }

  ghost predicate AllGreedy(F: Forest, f: seq<nat>)
    requires Growing(F, f)
  {
    forall j :: F.elems <= j < F.node ==> Greedy(F, f, j)
  }

  ghost predicate LeastTwo(F: Forest, f: seq<nat>, n: nat, m: nat)
  {
    && n in F.live && m in F.live && n != m && n < |f| && m < |f| && f[n] <= f[m]
    && forall k :: k in F.live && k != n && k != m ==> k < |f| && f[m] <= f[k]
  }

  function Merge(F: Forest, n: nat, m: nat): Forest
    requires n < |F.dad| && m < |F.dad| && F.node < |F.left| && F.node < |F.right|
  {
    F.(node := F.node + 1, dad := F.dad[n := F.node][m := F.node],
       left := F.left[F.node := n], right := F.right[F.node := m],
       live := F.live - {n, m} + {F.node})
  }

  lemma MergeGrows(F: Forest, f: seq<nat>, n: nat, m: nat)
    requires Growing(F, f) && LeastTwo(F, f, n, m) && F.node < |f|
    ensures Growing(Merge(F, n, m), f[F.node := f[n] + f[m]])
  {
    var F', f' := Merge(F, n, m), f[F.node := f[n] + f[m]];
    assert Alive(F, n) && Alive(F, m);
    forall j | F'.elems <= j < F'.node
      ensures Inner(F', f', j)
    {
      if j < F.node {
        assert Inner(F, f, j);
      }
    }
    forall k | 0 <= k < F'.node && Alive(F', k) && k !in F'.live
      ensures HasDad(F', k)
    {
      if k != n && k != m {
        assert HasDad(F, k);
      }
    }
  }

  lemma MergeGreedy(F: Forest, f: seq<nat>, n: nat, m: nat)
    requires Growing(F, f) && AllGreedy(F, f) && LeastTwo(F, f, n, m) && F.node < |f|
    requires Growing(Merge(F, n, m), f[F.node := f[n] + f[m]])
    ensures AllGreedy(Merge(F, n, m), f[F.node := f[n] + f[m]])
  {
    var F', f' := Merge(F, n, m), f[F.node := f[n] + f[m]];
    assert Alive(F, n) && Alive(F, m);
    forall j | F'.elems <= j < F'.node
      ensures Greedy(F', f', j)
    {
      forall k | 0 <= k < |f| && Waiting(F', j, k)
        ensures k != F.node && (j < F.node ==> Waiting(F, j, k)) && (j == F.node ==> k in F.live)
      {
        if k !in F.live && k < F.node {
          assert HasDad(F, k);
        }
      }
      if j < F.node {
        assert Greedy(F, f, j) && Inner(F, f, j);
      }
    }
  }

  // ---------- the total frequency ----------

  ghost function LiveVals(live: set<nat>, f: seq<nat>): (vs: seq<int>)
    ensures |vs| == |f|
    ensures forall k :: 0 <= k < |f| ==> vs[k] == if k in live then f[k] else 0
  {
    seq(|f|, k requires 0 <= k < |f| => if k in live then f[k] else 0)
  }

  /** The sum of the frequencies of the roots. */
  ghost function LiveTotal(F: Forest, f: seq<nat>): int
  {
    Sum(LiveVals(F.live, f))
  }

  lemma NodeIsNew(F: Forest, f: seq<nat>)
    requires Growing(F, f)
    ensures F.node !in F.live
  {
    assert !Alive(F, F.node);
  }

  /** Merging keeps the total, and neither frequency sum exceeds it. */
  lemma MergeTotal(F: Forest, f: seq<nat>, n: nat, m: nat)
    requires Growing(F, f) && LeastTwo(F, f, n, m) && F.node < |f|
    ensures LiveTotal(Merge(F, n, m), f[F.node := f[n] + f[m]]) == LiveTotal(F, f)
    ensures f[n] + f[m] <= LiveTotal(F, f)
  {
    assert Alive(F, n) && Alive(F, m);
    NodeIsNew(F, f);
    var a := LiveVals(F.live, f);
    var b := a[n := 0][m := 0];
    SumUpdate(a, n, 0);
    SumUpdate(a[n := 0], m, 0);
    SumUpdate(b, F.node, f[n] + f[m]);
    assert LiveVals(Merge(F, n, m).live, f[F.node := f[n] + f[m]]) == b[F.node := f[n] + f[m]];
    NonNegative(b);
  }

  lemma NonNegative(s: seq<int>)
    requires forall i :: 0 <= i < |s| ==> s[i] >= 0
    ensures Sum(s) >= 0
  {
    var zeros := seq(|s|, _ => 0);
    SumZero(zeros);
    SumMonotone(zeros, s);
  }

  // ---------- the list of nodes taken out ----------

  /** h[hm..] lists the nodes that are no longer roots; at tells where; parents come before children. */
  ghost predicate TakenOut(F: Forest, h: seq<nat>, hm: nat, at: seq<nat>)
  {
    && |at| == |F.dad| && hm <= |h|
    && (forall i :: hm <= i < |h| ==> TakenAt(F, h, at, i))
    && (forall k :: 0 <= k < |at| && Alive(F, k) && k !in F.live ==> PlaceOf(F, h, hm, at, k))
  }

  ghost predicate TakenAt(F: Forest, h: seq<nat>, at: seq<nat>, i: nat)
    requires i < |h|
  {
    h[i] < |at| && h[i] < F.node && Alive(F, h[i]) && h[i] !in F.live && at[h[i]] == i
  }

  ghost predicate PlaceOf(F: Forest, h: seq<nat>, hm: nat, at: seq<nat>, k: nat)
    requires |at| == |F.dad| && k < |at|
  {
    && hm <= at[k] < |h| && h[at[k]] == k
    && (F.dad[k] in F.live || (F.dad[k] < |at| && at[F.dad[k]] < at[k]))
  }

  /** h' agrees with h from hm on, and holds n and then m just before that. */
  ghost predicate Pushed(h: seq<nat>, h': seq<nat>, hm: nat, n: nat, m: nat)
  {
    && 2 <= hm <= |h| == |h'| && h'[hm - 1] == n && h'[hm - 2] == m
    && forall i :: hm <= i < |h| ==> h'[i] == h[i]
  }

  lemma PushTwo(F: Forest, f: seq<nat>, h: seq<nat>, h': seq<nat>, hm: nat, at: seq<nat>, n: nat, m: nat)
    requires Growing(F, f) && LeastTwo(F, f, n, m) && F.node < |f|
    requires TakenOut(F, h, hm, at) && Pushed(h, h', hm, n, m)
    ensures n < |at| && m < |at|
    ensures TakenOut(Merge(F, n, m), h', hm - 2, at[n := hm - 1][m := hm - 2])
  {
    var F', at' := Merge(F, n, m), at[n := hm - 1][m := hm - 2];
    assert Alive(F, n) && Alive(F, m);
    forall i | hm - 2 <= i < |h'|
      ensures TakenAt(F', h', at', i)
    {
      if i >= hm {
        assert TakenAt(F, h, at, i);
      }
    }
    forall k | 0 <= k < |at'| && Alive(F', k) && k !in F'.live
      ensures PlaceOf(F', h', hm - 2, at', k)
    {
      if k != n && k != m {
        assert PlaceOf(F, h, hm, at, k);
        assert HasDad(F, k);
      }
    }
  }

  /** The nodes taken out are in order of frequency, and no root is rarer than any of them. */
  ghost predicate ByFrequency(F: Forest, f: seq<nat>, h: seq<nat>, hm: nat)
  {
    && hm <= |h|
    && (forall i :: hm <= i < |h| ==> h[i] < F.node && h[i] < |f|)
    && (forall i, j :: hm <= i <= j < |h| ==> f[h[i]] >= f[h[j]])
    && (forall k :: k in F.live ==> k < |f|)
    && (forall i, k :: hm <= i < |h| && k in F.live ==> f[h[i]] <= f[k])
  }

  lemma PushByFrequency(F: Forest, f: seq<nat>, h: seq<nat>, h': seq<nat>, hm: nat, n: nat, m: nat)
    requires Growing(F, f) && LeastTwo(F, f, n, m) && F.node < |f|
    requires ByFrequency(F, f, h, hm) && Pushed(h, h', hm, n, m)
    ensures ByFrequency(Merge(F, n, m), f[F.node := f[n] + f[m]], h', hm - 2)
  {
    assert Alive(F, n) && Alive(F, m);
    var f' := f[F.node := f[n] + f[m]];
    forall i | hm - 2 <= i < |h'|
      ensures h'[i] < F.node && f'[h'[i]] <= f[m]
    {
      if i >= hm {
        assert h'[i] == h[i];
      }
    }
  }

  // ---------- the finished tree ----------

  function Finished(F: Forest): Shape
    requires 0 < F.node <= |F.dad| && F.node <= |F.left| && F.node <= |F.right|
  {
    Shape(F.elems, F.node - 1, F.syms, F.dad[..F.node], F.left[..F.node], F.right[..F.node])
  }

  /** When one root is left the forest is a full binary tree over the symbols. */
  lemma FinishedFull(F: Forest, f: seq<nat>)
    requires Growing(F, f) && F.elems < F.node && F.live == {F.node - 1}
    ensures Full(Finished(F))
  {
    var sh := Finished(F);
    forall j | sh.elems <= j <= sh.root
      ensures ChildrenOk(sh, j)
    {
      assert Inner(F, f, j);
    }
    forall k | 0 <= k < sh.root && Present(sh, k)
      ensures DadOk(sh, k)
    {
      assert HasDad(F, k);
    }
  }

  ghost function Positions(F: Forest, at: seq<nat>, hm: nat): (pos: seq<nat>)
    requires F.node <= |at|
    ensures |pos| == F.node
  {
    seq(F.node, k requires 0 <= k < F.node => if k == F.node - 1 || at[k] < hm then 0 else at[k] - hm)
  }

  /** With the root pushed last, the list is a listing of the whole tree, parents first. */
  lemma FinishedListed(F: Forest, f: seq<nat>, h: seq<nat>, h': seq<nat>, hm: nat, at: seq<nat>)
    requires Growing(F, f) && F.elems < F.node && F.live == {F.node - 1} && Full(Finished(F))
    requires TakenOut(F, h, hm, at) && 1 <= hm <= |h| == |h'| && h'[hm - 1] == F.node - 1
    requires forall i :: hm <= i < |h| ==> h'[i] == h[i]
    ensures F.node <= |at| && Listed(Finished(F), h'[hm - 1..], Positions(F, at, hm - 1))
  {
    var sh, order, pos := Finished(F), h'[hm - 1..], Positions(F, at, hm - 1);
    forall k | 0 <= k <= sh.root && Present(sh, k)
      ensures pos[k] < |order| && order[pos[k]] == k
    {
      if k < sh.root {
        assert PlaceOf(F, h, hm, at, k);
      }
    }
    forall i | 0 <= i < |order|
      ensures order[i] <= sh.root && Present(sh, order[i]) && pos[order[i]] == i
    {
      if i > 0 {
        assert TakenAt(F, h, at, hm - 1 + i);
      }
    }
    forall k | 0 <= k < sh.root && Present(sh, k)
      ensures pos[sh.dad[k]] < pos[k]
    {
      assert PlaceOf(F, h, hm, at, k) && HasDad(F, k);
      var d := F.dad[k];
      if d < sh.root {
        assert PlaceOf(F, h, hm, at, d);
      }
    }
  }

  // ---------- the start: every symbol is a tree of its own ----------

  function Seedlings(elems: nat, syms: set<nat>, dad: seq<nat>): Forest
  {
    Forest(elems, elems, syms, dad, dad, dad, syms)
  }

  lemma SeedlingsGrow(elems: nat, syms: set<nat>, dad: seq<nat>, f: seq<nat>, h: seq<nat>)
    requires |dad| == |f| && elems <= |f| && forall s :: s in syms ==> s < elems
    ensures Growing(Seedlings(elems, syms, dad), f)
    ensures AllGreedy(Seedlings(elems, syms, dad), f)
    ensures TakenOut(Seedlings(elems, syms, dad), h, |h|, dad)
    ensures ByFrequency(Seedlings(elems, syms, dad), f, h, |h|)
  {
  }

  /** The shape's frequencies: every inner node weighs as much as its children. */
  ghost predicate Weighed(sh: Shape, f: seq<nat>)
    requires Full(sh)
  {
    && sh.root < |f|
    && forall j :: sh.elems <= j <= sh.root ==> ChildrenOk(sh, j) && f[j] == f[sh.left[j]] + f[sh.right[j]]
  }

  /** Every inner node joined two nodes of least frequency among those on the cut. */
  ghost predicate GreedyShape(sh: Shape, f: seq<nat>)
    requires Full(sh)
  {
    && sh.root < |f|
    && forall j :: sh.elems <= j <= sh.root ==> GreedyAt(sh, f, j)
  }

  ghost predicate GreedyAt(sh: Shape, f: seq<nat>, j: nat)
    requires Full(sh) && sh.elems <= j <= sh.root < |f|
  {
    && ChildrenOk(sh, j) && f[sh.left[j]] <= f[sh.right[j]]
    && forall k :: 0 <= k <= sh.root && OnCut(sh, j, k) && k != sh.left[j] && k != sh.right[j] ==>
         f[sh.right[j]] <= f[k]
  }

  lemma FinishedGreedy(F: Forest, f: seq<nat>)
    requires Growing(F, f) && AllGreedy(F, f) && F.elems < F.node && F.live == {F.node - 1} && Full(Finished(F))
    ensures Weighed(Finished(F), f) && GreedyShape(Finished(F), f)
  {
    var sh := Finished(F);
    forall j | sh.elems <= j <= sh.root
      ensures ChildrenOk(sh, j) && f[j] == f[sh.left[j]] + f[sh.right[j]] && GreedyAt(sh, f, j)
    {
      assert ChildrenOk(sh, j) && Inner(F, f, j) && Greedy(F, f, j);
      forall k | 0 <= k <= sh.root && OnCut(sh, j, k)
        ensures Waiting(F, j, k)
      {
      }
    }
  }
}
