/** An alphabet of fewer than two symbols is padded to two; the padding costs nothing in the end. */
module HuffmanPadding {
  import opened Sums
  import opened Options
  import opened Canonical
  import opened HuffmanForest
  import opened HuffmanPass

  /** Every symbol in ds gets frequency one. */
  function PadFreq(freq: seq<nat>, ds: seq<nat>): (r: seq<nat>)
    ensures |r| == |freq|
  {
    if ds == [] then freq
    else
      var r := PadFreq(freq, ds[..|ds| - 1]);
      var d := ds[|ds| - 1];
      if d < |r| then r[d := 1] else r
  }

  /** The symbols are distinct, did not occur, and have no extra bits. */
  ghost predicate Padding(c: Costs, ds: seq<nat>)
  {
    && (forall i :: 0 <= i < |ds| ==> ds[i] < |c.freq| && c.freq[ds[i]] == 0 && XBits(c, ds[i]) == 0)
    && forall i, j :: 0 <= i < j < |ds| ==> ds[i] != ds[j]
  }

  /** The symbol that the padding adds when max is the largest in use, -1 for none. */
  function NextPad(max: int): int
  {
    if max < 2 then max + 1 else 0
  }

  /** The symbols that the padding adds to syms, the largest of which is max. */
  ghost function PadsFor(syms: set<nat>, max: int): seq<int>
  {
    if |syms| >= 2 then [] else if |syms| == 1 then [NextPad(max)] else [0, 1]
  }

  /** max is the largest of syms, or -1. */
  ghost predicate LargestOf(syms: set<nat>, max: int)
  {
    -1 <= max && (forall s :: s in syms ==> s <= max) && (max >= 0 ==> max in syms)
  }

  lemma PadsStep(syms: set<nat>, max: int, next: int)
    requires LargestOf(syms, max) && |syms| < 2 && NextPad(max) !in syms && NextPad(max) >= 0
    requires next == if max < 2 then max + 1 else max
    ensures PadsFor(syms, max) == [NextPad(max)] + PadsFor(syms + {NextPad(max)}, next)
  {
    if |syms| == 0 {
      assert syms == {};
    } else {
      var x :| x in syms;
      assert |syms - {x}| == 0;
      assert max in syms;
    }
  }

  /** Symbol 2 is added exactly when 1 is the only symbol in use. */
  lemma TwoAdded(syms: set<nat>, max: int)
    requires LargestOf(syms, max)
    ensures 2 in PadsFor(syms, max) <==> syms == {1}
  {
    if |syms| == 1 {
      var x :| x in syms;
      assert |syms - {x}| == 0;
      assert syms == {x} == {max};
    }
  }

  /** A tree of distances all with code 1 gets the symbol 2. */
  lemma OnlyOneInUse()
    ensures LargestOf({1}, 1) && PadsFor({1}, 1) == [2]
  {
  }

  function StaticLen(c: Costs, n: nat): nat
  {
    match c.staticLens
    case None => 0
    case Some(lens) => if n < |lens| then lens[n] else 0
  }

  function StaticLens(c: Costs, ds: seq<nat>): int
  {
    if ds == [] then 0 else StaticLens(c, ds[..|ds| - 1]) + StaticLen(c, ds[|ds| - 1])
  }

  lemma {:induction false} PadFreqElsewhere(freq: seq<nat>, ds: seq<nat>, k: nat)
    requires k < |freq| && forall i :: 0 <= i < |ds| ==> ds[i] != k
    ensures PadFreq(freq, ds)[k] == freq[k]
  {
    if ds != [] {
      PadFreqElsewhere(freq, ds[..|ds| - 1], k);
    }
  }

  lemma PadAppend(c: Costs, ds: seq<nat>, d: nat)
    requires Padding(c, ds) && d < |c.freq| && c.freq[d] == 0 && XBits(c, d) == 0
    requires forall i :: 0 <= i < |ds| ==> ds[i] != d
    ensures Padding(c, ds + [d])
    ensures PadFreq(c.freq, ds + [d]) == PadFreq(c.freq, ds)[d := 1]
    ensures StaticLens(c, ds + [d]) == StaticLens(c, ds) + StaticLen(c, d)
  {
    hide XBits, StaticLen;
    var e := ds + [d];
    assert e[..|ds|] == ds && e[|ds|] == d;
  }

  lemma CostOfOne(c: Costs, d: nat, lens: seq<nat>)
    requires d < |c.freq| && d < |lens| && c.freq[d] == 0 && XBits(c, d) == 0 && lens[d] == 1
    ensures var c' := c.(freq := c.freq[d := 1]);
            && Sum(CostTerms(c', lens)) == Sum(CostTerms(c, lens)) + 1
            && Sum(StaticTerms(c', lens)) == Sum(StaticTerms(c, lens)) + StaticLen(c, d)
  {
    hide Sum;
    var c' := c.(freq := c.freq[d := 1]);
    var a, b := CostTerms(c, lens), CostTerms(c', lens);
    assert b == a[d := 1];
    SumUpdate(a, d, 1);
    var x, y := StaticTerms(c, lens), StaticTerms(c', lens);
    assert y == x[d := StaticLen(c, d)];
    SumUpdate(x, d, StaticLen(c, d));
  }

  /** Padding symbols with codes of one bit add one bit each: what padding took off beforehand. */
  lemma {:induction false} PadCost(c: Costs, ds: seq<nat>, lens: seq<nat>)
    requires Padding(c, ds) && forall i :: 0 <= i < |ds| ==> ds[i] < |lens| && lens[ds[i]] == 1
    ensures var c' := c.(freq := PadFreq(c.freq, ds));
            && Sum(CostTerms(c', lens)) == Sum(CostTerms(c, lens)) + |ds|
            && Sum(StaticTerms(c', lens)) == Sum(StaticTerms(c, lens)) + StaticLens(c, ds)
    decreases |ds|
  {
    hide Sum, CostTerms, StaticTerms;
    if ds == [] {
      assert c.(freq := PadFreq(c.freq, ds)) == c;
    } else {
      var n := |ds| - 1;
      var front, d := ds[..n], ds[n];
      PadCost(c, front, lens);
      var c1 := c.(freq := PadFreq(c.freq, front));
      PadFreqElsewhere(c.freq, front, d);
      assert XBits(c1, d) == XBits(c, d) && StaticLen(c1, d) == StaticLen(c, d);
      CostOfOne(c1, d, lens);
    }
  }

  // ---------- two symbols get one bit each ----------

  lemma {:induction false} Pow2Strict(a: nat, b: nat)
    requires a < b
    ensures Pow2(a) < Pow2(b)
  {
    Pow2Monotone(a + 1, b);
  }

  lemma TwoTerms(ts: seq<int>, a: nat, b: nat)
    requires a < |ts| && b < |ts| && a != b && forall s :: 0 <= s < |ts| && s != a && s != b ==> ts[s] == 0
    ensures Sum(ts) == ts[a] + ts[b]
  {
    SumUpdate(ts, a, 0);
    SumUpdate(ts[a := 0], b, 0);
    SumZero(ts[a := 0][b := 0]);
  }

  lemma TwoSymbols(lens: seq<nat>, max: nat, a: nat, b: nat)
    requires a < |lens| && b < |lens| && a != b && 0 < lens[a] <= max && 0 < lens[b] <= max
    requires forall s :: 0 <= s < |lens| && s != a && s != b ==> lens[s] == 0
    requires Slots(lens, max) == Pow2(max)
    ensures lens[a] == 1 == lens[b]
  {
    hide Sum, Slots;
    SlotsIsKraft(lens, max);
    TwoTerms(KraftTerms(lens, max), a, b);
    if lens[a] > 1 { Pow2Strict(max - lens[a], max - 1); }
    if lens[b] > 1 { Pow2Strict(max - lens[b], max - 1); }
  }

  // ---------- the total frequency ----------

  lemma SeedTotal(elems: nat, syms: set<nat>, dad: seq<nat>, f: seq<nat>)
    requires elems <= |f| && (forall s :: s in syms ==> s < elems)
    requires forall k :: 0 <= k < elems && k !in syms ==> f[k] == 0
    ensures LiveTotal(Seedlings(elems, syms, dad), f) == Sum(f[..elems])
  {
    var vs := LiveVals(syms, f);
    var zeros := vs[elems..];
    var front: seq<int> := f[..elems];
    assert vs == front + zeros;
    SumConcat(front, zeros);
    SumZero(zeros);
  }

  lemma {:induction false} PadTotal(freq: seq<nat>, ds: seq<nat>, n: nat)
    requires n <= |freq| && forall i :: 0 <= i < |ds| ==> ds[i] < n
    requires forall i, j :: 0 <= i < j < |ds| ==> ds[i] != ds[j]
    requires forall i :: 0 <= i < |ds| ==> freq[ds[i]] == 0
    ensures Sum(PadFreq(freq, ds)[..n]) == Sum(freq[..n]) + |ds|
    decreases |ds|
  {
    if ds != [] {
      var front, d := ds[..|ds| - 1], ds[|ds| - 1];
      PadTotal(freq, front, n);
      PadFreqElsewhere(freq, front, d);
      var r: seq<int> := PadFreq(freq, front)[..n];
      SumUpdate(r, d, 1);
      assert PadFreq(freq, ds)[..n] == r[d := 1];
    }
  }
}
