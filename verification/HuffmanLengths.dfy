/** Counting code lengths: one pass over a tree's nodes, and the repair of lengths that are too long. */
module HuffmanLengths {
  import opened Sums
  import opened Canonical
  import opened HuffmanShape

  // ---------- visiting the nodes, parents first ----------

  /** order lists every node once, every parent before its children; pos is its inverse. */
  ghost predicate Listed(sh: Shape, order: seq<nat>, pos: seq<nat>)
    requires Full(sh)
  {
    && |pos| == sh.root + 1 && pos[sh.root] == 0 && order != []
    && (forall k :: 0 <= k <= sh.root && Present(sh, k) ==> pos[k] < |order| && order[pos[k]] == k)
    && (forall i :: 0 <= i < |order| ==> order[i] <= sh.root && Present(sh, order[i]) && pos[order[i]] == i)
    && (forall k :: 0 <= k < sh.root && Present(sh, k) ==> pos[sh.dad[k]] < pos[k])
  }

  /** The values of the first i nodes listed; zero for the others. */
  ghost function Visited(vals: seq<int>, order: seq<nat>, pos: seq<nat>, i: nat): (vs: seq<int>)
    requires |pos| == |vals|
    ensures |vs| == |vals|
    ensures forall k :: 0 <= k < |vals| ==> vs[k] == if IsVisited(order, pos, i, k) then vals[k] else 0
  {
    seq(|vals|, k requires 0 <= k < |vals| => if IsVisited(order, pos, i, k) then vals[k] else 0)
  }

  ghost predicate IsVisited(order: seq<nat>, pos: seq<nat>, i: nat, k: nat)
    requires k < |pos|
  {
    pos[k] < i && pos[k] < |order| && order[pos[k]] == k
  }

  lemma VisitNone(vals: seq<int>, order: seq<nat>, pos: seq<nat>)
    requires |pos| == |vals|
    ensures Sum(Visited(vals, order, pos, 0)) == 0
  {
    SumZero(Visited(vals, order, pos, 0));
  }

  lemma VisitNext(vals: seq<int>, order: seq<nat>, pos: seq<nat>, i: nat)
    requires |pos| == |vals| && i < |order| && order[i] < |pos| && pos[order[i]] == i
    ensures Sum(Visited(vals, order, pos, i + 1)) == Sum(Visited(vals, order, pos, i)) + vals[order[i]]
  {
    var a, b := Visited(vals, order, pos, i), Visited(vals, order, pos, i + 1);
    assert b == a[order[i] := vals[order[i]]];
    SumUpdate(a, order[i], vals[order[i]]);
  }

  lemma VisitAll(sh: Shape, vals: seq<int>, order: seq<nat>, pos: seq<nat>)
    requires Full(sh) && Listed(sh, order, pos) && |vals| == |pos|
    requires forall k :: 0 <= k <= sh.root && !Present(sh, k) ==> vals[k] == 0
    ensures Sum(Visited(vals, order, pos, |order|)) == Sum(vals)
  {
    assert Visited(vals, order, pos, |order|) == vals;
  }

  /** Values carried by leaves only sum up over the symbols. */
  lemma LeavesOnly(sh: Shape, vals: seq<int>, terms: seq<int>)
    requires Full(sh) && |vals| == sh.root + 1 && |terms| == sh.elems
    requires forall k :: sh.elems <= k <= sh.root ==> vals[k] == 0
    requires forall s :: 0 <= s < sh.elems ==> terms[s] == vals[s]
    ensures Sum(vals) == Sum(terms)
  {
    var zeros := vals[sh.elems..];
    assert vals == terms + zeros;
    SumConcat(terms, zeros);
    SumZero(zeros);
  }

  // ---------- counts by length ----------

  /** Slots computed from the counts, as gen_codes does. */
  function SlotsOf(counts: seq<nat>, len: nat): nat
    requires len < |counts|
  {
    if len == 0 then 0 else 2 * SlotsOf(counts, len - 1) + counts[len]
  }

  function Total(counts: seq<nat>, len: nat): nat
    requires len < |counts|
  {
    if len == 0 then 0 else Total(counts, len - 1) + counts[len]
  }

  ghost predicate CountsOf(counts: seq<nat>, lens: seq<nat>, max: nat)
  {
    && max < |counts|
    && forall len :: 1 <= len <= max ==> counts[len] == Count(lens, len, |lens|)
  }

  lemma {:induction false} SlotsOfCounts(counts: seq<nat>, lens: seq<nat>, max: nat, len: nat)
    requires CountsOf(counts, lens, max) && len <= max
    ensures SlotsOf(counts, len) == Slots(lens, len)
  {
    if len > 0 {
      SlotsOfCounts(counts, lens, max, len - 1);
    }
  }

  // ---------- the overflow repair ----------

  /**
   * The Kraft sum exceeds one by `excess` codes of length max, the shorter codes leave room, and
   * there are n codes in all.
   */
  ghost predicate Excess(counts: seq<nat>, max: nat, excess: nat, n: nat)
  {
    && 0 < max < |counts|
    && SlotsOf(counts, max) == Pow2(max) + excess
    && 2 * SlotsOf(counts, max - 1) <= Pow2(max)
    && Total(counts, max) == n <= Pow2(max)
  }

  /** One round: a code of length b becomes two of length b + 1, and one of length max goes. */
  function Moved(counts: seq<nat>, b: nat, max: nat): seq<nat>
    requires b < max < |counts| && counts[b] > 0 && counts[max] > 0
  {
    var c := counts[b := counts[b] - 1];
    var d := c[b + 1 := c[b + 1] + 2];
    d[max := d[max] - 1]
  }

  lemma {:induction false} SlotsZero(counts: seq<nat>, len: nat)
    requires len < |counts| && forall i :: 1 <= i <= len ==> counts[i] == 0
    ensures SlotsOf(counts, len) == 0 == Total(counts, len)
  {
    if len > 0 {
      SlotsZero(counts, len - 1);
    }
  }

  /** While there is excess, some code shorter than max can be lengthened. */
  lemma ShorterExists(counts: seq<nat>, max: nat, excess: nat, n: nat)
    requires Excess(counts, max, excess, n) && excess > 0
    ensures counts[max] >= excess
    ensures exists b :: 1 <= b < max && counts[b] > 0
  {
    if forall b :: 1 <= b < max ==> counts[b] == 0 {
      SlotsZero(counts, max - 1);
    }
  }

  lemma {:induction false} SlotsSame(c: seq<nat>, d: seq<nat>, len: nat)
    requires len < |c| && len < |d| && forall i :: 1 <= i <= len ==> c[i] == d[i]
    ensures SlotsOf(c, len) == SlotsOf(d, len) && Total(c, len) == Total(d, len)
  {
    if len > 0 {
      SlotsSame(c, d, len - 1);
    }
  }

  /** Splitting a code of length b changes the slots at length b only. */
  lemma {:induction false} SplitSlots(c: seq<nat>, b: nat, len: nat)
    requires 1 <= b < len < |c| && c[b] > 0
    ensures var d := c[b := c[b] - 1][b + 1 := c[b + 1] + 2];
            SlotsOf(d, len) == SlotsOf(c, len) && Total(d, len) == Total(c, len) + 1
  {
    var d := c[b := c[b] - 1][b + 1 := c[b + 1] + 2];
    if len == b + 1 {
      SlotsSame(c, d, b - 1);
    } else {
      SplitSlots(c, b, len - 1);
    }
  }

  /** Each round keeps the number of codes and removes exactly one from the excess. */
  lemma RepairRound(counts: seq<nat>, max: nat, excess: nat, n: nat, b: nat)
    requires Excess(counts, max, excess, n) && excess > 0
    requires 1 <= b < max && counts[b] > 0 && counts[max] > 0
    ensures Excess(Moved(counts, b, max), max, excess - 1, n)
  {
    var d := counts[b := counts[b] - 1][b + 1 := counts[b + 1] + 2];
    var e := Moved(counts, b, max);
    assert e == d[max := d[max] - 1];
    SplitSlots(counts, b, max);
    SlotsSame(d, e, max - 1);
    if b < max - 1 {
      SplitSlots(counts, b, max - 1);
    } else {
      SlotsSame(counts, d, b - 1);
    }
  }
}
