/** The priority queue of subtrees: a binary heap on frequency, with depth as tie breaker. */
module HuffmanHeap {

  /** The SMALLER macro. */
  predicate Smaller(f: seq<nat>, d: seq<nat>, n: nat, m: nat)
    requires n < |f| && m < |f| && n < |d| && m < |d|
  {
    f[n] < f[m] || (f[n] == f[m] && d[n] <= d[m])
  }

  /** All entries 1..len are node numbers. */
  ghost predicate Entries(h: seq<nat>, len: nat, f: seq<nat>, d: seq<nat>)
  {
    len < |h| && forall i :: 1 <= i <= len ==> h[i] < |f| && h[i] < |d|
  }

  /** The entry at j is no larger than its sons. */
  ghost predicate ParentOk(h: seq<nat>, len: nat, f: seq<nat>, d: seq<nat>, j: nat)
    requires Entries(h, len, f, d) && 1 <= j
  {
    && (2 * j <= len ==> Smaller(f, d, h[j], h[2 * j]))
    && (2 * j + 1 <= len ==> Smaller(f, d, h[j], h[2 * j + 1]))
  }

  /** The heap property holds from index k on. */
  ghost predicate HeapFrom(h: seq<nat>, len: nat, f: seq<nat>, d: seq<nat>, k: nat)
    requires 1 <= k
  {
    && Entries(h, len, f, d)
    && forall j :: k <= j <= len ==> ParentOk(h, len, f, d, j)
  }

  /** The heap property except at k, where the entry may be too large; k's parent fits k's sons. */
  ghost predicate Sifting(h: seq<nat>, len: nat, f: seq<nat>, d: seq<nat>, k0: nat, k: nat)
    requires 1 <= k0
  {
    && Entries(h, len, f, d) && k0 <= k <= len
    && (forall j :: k0 <= j <= len && j != k ==> ParentOk(h, len, f, d, j))
    && (k0 <= k / 2 ==> ParentFits(h, len, f, d, k))
  }

  ghost predicate ParentFits(h: seq<nat>, len: nat, f: seq<nat>, d: seq<nat>, k: nat)
    requires Entries(h, len, f, d) && 2 <= k <= len
  {
    && (2 * k <= len ==> Smaller(f, d, h[k / 2], h[2 * k]))
    && (2 * k + 1 <= len ==> Smaller(f, d, h[k / 2], h[2 * k + 1]))
  }

  /** j is the smaller son of k. */
  ghost predicate SmallerSon(h: seq<nat>, len: nat, f: seq<nat>, d: seq<nat>, k: nat, j: nat)
    requires Entries(h, len, f, d) && 1 <= k
  {
    && (j == 2 * k || j == 2 * k + 1) && j <= len
    && Smaller(f, d, h[j], h[2 * k])
    && (2 * k + 1 <= len ==> Smaller(f, d, h[j], h[2 * k + 1]))
  }

  function Swap(h: seq<nat>, k: nat, j: nat): seq<nat>
    requires k < |h| && j < |h|
  {
    h[k := h[j]][j := h[k]]
  }

  /** Moving an entry into the hole at k moves the hole to j. */
  lemma SwapHole(a: seq<nat>, h: seq<nat>, k: nat, j: nat)
    requires k < |a| && j < |a| == |h| && k != j && a[k := h[k]] == h
    ensures a[k := a[j]][j := h[k]] == Swap(h, k, j) && Swap(h, k, j)[j] == h[k] && |Swap(h, k, j)| == |h|
  {
    assert forall i :: 0 <= i < |a| && i != k ==> a[i] == h[i];
  }

  /** The entry is larger than its smaller son: exchanging them moves the trouble down. */
  lemma SiftDown(h: seq<nat>, len: nat, f: seq<nat>, d: seq<nat>, k0: nat, k: nat, j: nat)
    requires 1 <= k0 && Sifting(h, len, f, d, k0, k) && SmallerSon(h, len, f, d, k, j)
    requires !Smaller(f, d, h[k], h[j])
    ensures Sifting(Swap(h, k, j), len, f, d, k0, j)
  {
    var h' := Swap(h, k, j);
    assert j / 2 == k;
    assert ParentOk(h, len, f, d, j);
    forall i | k0 <= i <= len && i != j
      ensures ParentOk(h', len, f, d, i)
    {
      if i != k {
        assert ParentOk(h, len, f, d, i);
      }
    }
  }

  /** The entry is no larger than its smaller son, or has no sons: the heap property is restored. */
  lemma SiftStop(h: seq<nat>, len: nat, f: seq<nat>, d: seq<nat>, k0: nat, k: nat, j: nat)
    requires 1 <= k0 && Sifting(h, len, f, d, k0, k)
    requires 2 * k > len || (SmallerSon(h, len, f, d, k, j) && Smaller(f, d, h[k], h[j]))
    ensures HeapFrom(h, len, f, d, k0)
  {
  }

  lemma SiftStart(h: seq<nat>, len: nat, f: seq<nat>, d: seq<nat>, k0: nat)
    requires 1 <= k0 <= len && HeapFrom(h, len, f, d, k0 + 1)
    ensures Sifting(h, len, f, d, k0, k0) && Rearranged(h, h, len)
  {
  }

  lemma SiftEntries(h: seq<nat>, len: nat, f: seq<nat>, d: seq<nat>, k0: nat, k: nat)
    requires 1 <= k0 && Sifting(h, len, f, d, k0, k)
    ensures Entries(h, len, f, d)
  {
  }

  /** Comparing the two sons picks the smaller. */
  lemma ChooseSon(h: seq<nat>, len: nat, f: seq<nat>, d: seq<nat>, k: nat, j: nat)
    requires Entries(h, len, f, d) && 1 <= k && 2 * k <= len
    requires j == if 2 * k < len && Smaller(f, d, h[2 * k + 1], h[2 * k]) then 2 * k + 1 else 2 * k
    ensures SmallerSon(h, len, f, d, k, j)
  {
  }

  /** The root of a heap is the smallest entry. */
  lemma {:induction false} RootSmallest(h: seq<nat>, len: nat, f: seq<nat>, d: seq<nat>, i: nat)
    requires HeapFrom(h, len, f, d, 1) && 1 <= i <= len
    ensures Smaller(f, d, h[1], h[i])
    decreases i
  {
    if i > 1 {
      assert ParentOk(h, len, f, d, i / 2);
      RootSmallest(h, len, f, d, i / 2);
    }
  }

  lemma SwapMultiset(h: seq<nat>, k: nat, j: nat)
    requires k < |h| && j < |h|
    ensures multiset(Swap(h, k, j)) == multiset(h)
  {
    UpdateMultiset(h, k, h[j]);
    UpdateMultiset(h[k := h[j]], j, h[k]);
  }

  lemma UpdateMultiset(h: seq<nat>, k: nat, x: nat)
    requires k < |h|
    ensures multiset(h[k := x]) == multiset(h) - multiset{h[k]} + multiset{x}
  {
  }

  /** h and g agree outside 1..len and hold the same entries inside. */
  ghost predicate Rearranged(h: seq<nat>, g: seq<nat>, len: nat)
  {
    && |h| == |g| && len < |h| && h[0] == g[0]
    && (forall i :: len < i < |h| ==> g[i] == h[i])
    && multiset(g[1..len + 1]) == multiset(h[1..len + 1])
  }

  lemma SwapRearranged(h: seq<nat>, g: seq<nat>, len: nat, k: nat, j: nat)
    requires Rearranged(h, g, len) && 1 <= k <= len && 1 <= j <= len
    ensures Rearranged(h, Swap(g, k, j), len)
  {
    assert Swap(g, k, j)[1..len + 1] == Swap(g[1..len + 1], k - 1, j - 1);
    SwapMultiset(g[1..len + 1], k - 1, j - 1);
  }

  /** Putting the last entry first and dropping the last place removes the first entry. */
  lemma RemoveFirst(h: seq<nat>, len: nat)
    requires 1 <= len < |h|
    ensures multiset(h[1 := h[len]][1..len]) == multiset(h[1..len + 1]) - multiset{h[1]}
  {
    var s := h[1..len + 1];
    if len == 1 {
      assert h[1 := h[len]][1..len] == [] && s == [h[1]];
    } else {
      var mid := h[2..len];
      assert s == [h[1]] + mid + [h[len]];
      assert h[1 := h[len]][1..len] == [h[len]] + mid;
    }
  }

  /** Replacing the first entry. */
  lemma ReplaceFirst(h: seq<nat>, len: nat, x: nat)
    requires 1 <= len < |h|
    ensures multiset(h[1 := x][1..len + 1]) == multiset(h[1..len + 1]) - multiset{h[1]} + multiset{x}
  {
    assert h[1 := x][1..len + 1] == h[1..len + 1][0 := x];
    UpdateMultiset(h[1..len + 1], 0, x);
  }

  /** Frequencies of nodes that are not in the heap do not matter. */
  lemma HeapFrame(h: seq<nat>, len: nat, f: seq<nat>, d: seq<nat>, k: nat, node: nat, x: nat, y: nat)
    requires 1 <= k && HeapFrom(h, len, f, d, k) && node < |f| && node < |d|
    requires forall i :: 1 <= i <= len ==> h[i] != node
    ensures HeapFrom(h, len, f[node := x], d[node := y], k)
  {
    var f', d' := f[node := x], d[node := y];
    forall j | k <= j <= len
      ensures ParentOk(h, len, f', d', j)
    {
      assert ParentOk(h, len, f, d, j);
    }
  }

  /** Replacing the root leaves the heap property from the second entry on. */
  lemma HeapNewRoot(h: seq<nat>, len: nat, f: seq<nat>, d: seq<nat>, x: nat)
    requires HeapFrom(h, len, f, d, 1) && x < |f| && x < |d| && 1 <= len
    ensures HeapFrom(h[1 := x], len, f, d, 2)
  {
    var h' := h[1 := x];
    forall j | 2 <= j <= len
      ensures ParentOk(h', len, f, d, j)
    {
      assert ParentOk(h, len, f, d, j);
    }
  }

  /** Dropping the last entry and putting it first. */
  lemma HeapShrunk(h: seq<nat>, len: nat, f: seq<nat>, d: seq<nat>)
    requires HeapFrom(h, len, f, d, 1) && 2 <= len
    ensures HeapFrom(h[1 := h[len]], len - 1, f, d, 2)
  {
    var h', len' := h[1 := h[len]], len - 1;
    forall j | 2 <= j <= len'
      ensures ParentOk(h', len', f, d, j)
    {
      assert ParentOk(h, len, f, d, j);
    }
  }

  /** top is as rare as any node in live. */
  ghost predicate Least(f: seq<nat>, live: set<nat>, top: nat)
  {
    top < |f| && forall k :: k in live ==> k < |f| && f[top] <= f[k]
  }

  /** No entry is rarer than the root. */
  lemma RootLeast(h: seq<nat>, len: nat, f: seq<nat>, d: seq<nat>, live: set<nat>)
    requires HeapFrom(h, len, f, d, 1) && 1 <= len && multiset(h[1..len + 1]) == multiset(live)
    ensures h[1] in live && Least(f, live, h[1])
  {
    EntryLive(h, len, live, 1);
    forall k | k in live
      ensures k < |f| && f[h[1]] <= f[k]
    {
      assert k in multiset(h[1..len + 1]);
      var i :| 0 <= i < len && h[1..len + 1][i] == k;
      RootSmallest(h, len, f, d, i + 1);
    }
  }

  lemma EntryLive(h: seq<nat>, len: nat, live: set<nat>, i: nat)
    requires 1 <= i <= len < |h| && multiset(h[1..len + 1]) == multiset(live)
    ensures h[i] in live
  {
    assert h[1..len + 1][i - 1] in multiset(h[1..len + 1]);
  }

  lemma RemoveRoot(h: seq<nat>, len: nat, live: set<nat>)
    requires 1 <= len < |h| && multiset(h[1..len + 1]) == multiset(live)
    ensures multiset(h[1 := h[len]][1..len]) == multiset(live - {h[1]})
  {
    RemoveFirst(h, len);
    assert multiset(live - {h[1]}) == multiset(live) - multiset{h[1]};
  }

  lemma ExchangeRoot(h: seq<nat>, len: nat, live: set<nat>, x: nat)
    requires 1 <= len < |h| && multiset(h[1..len + 1]) == multiset(live) && x !in live
    ensures multiset(h[1 := x][1..len + 1]) == multiset(live - {h[1]} + {x})
  {
    EntryLive(h, len, live, 1);
    ReplaceFirst(h, len, x);
    assert multiset(live - {h[1]} + {x}) == multiset(live) - multiset{h[1]} + multiset{x};
  }

  /** Only the entries up to len matter. */
  lemma HeapPrefix(h: seq<nat>, h': seq<nat>, len: nat, f: seq<nat>, d: seq<nat>, k: nat)
    requires 1 <= k && HeapFrom(h, len, f, d, k) && |h| == |h'| && forall i :: 1 <= i <= len ==> h'[i] == h[i]
    ensures HeapFrom(h', len, f, d, k)
    ensures h'[1..len + 1] == h[1..len + 1]
  {
    forall j | k <= j <= len
      ensures ParentOk(h', len, f, d, j)
    {
      assert ParentOk(h, len, f, d, j);
    }
  }
}
