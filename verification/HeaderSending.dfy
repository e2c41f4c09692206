/** The header of a dynamic block: building the code length code and sending all three trees. */
module HeaderSending {
  import opened Sums
  import opened Bits
  import opened BitWriting
  import opened Options
  import opened Canonical
  import opened Rfc1951
  import opened RunLength
  import opened Blocks
  import opened CodeTrees
  import opened HuffmanPass
  import opened HuffmanBuilding
  import opened Tokens
  import opened BlockSending
  import opened LengthSending
  import opened BlockCosts

  /** A tree holds the codes of lens, followed by the guard. */
  ghost predicate Guarded(tree: CtData, lens: seq<nat>)
    reads tree.dl, tree.fc
  {
    && |lens| < tree.dl.Length && HoldsCodes(tree, lens) && tree.dl[|lens|] == GUARD
  }

  ghost predicate Lengths(lens: seq<nat>)
  {
    forall i :: 0 <= i < |lens| ==> lens[i] < 16
  }

  function BothItems(ll: seq<nat>, dl: seq<nat>): seq<Item>
    requires Lengths(ll) && Lengths(dl)
  {
    AllItems(ll) + AllItems(dl)
  }

  lemma CountBoth(ll: seq<nat>, dl: seq<nat>)
    requires Lengths(ll) && Lengths(dl)
    ensures CountItems(CountItems(NoCounts(), AllItems(ll)), AllItems(dl)) == CountItems(NoCounts(), BothItems(ll, dl))
    ensures ItemsOk(BothItems(ll, dl)) && |BothItems(ll, dl)| <= |ll| + |dl|
  {
    hide CountItems, AllItems;
    CountItemsConcat(NoCounts(), AllItems(ll), AllItems(dl));
    ItemsFewer(ll);
    ItemsFewer(dl);
    RunLengthRoundTrip([], ll);
    RunLengthRoundTrip([], dl);
  }

  lemma GuardKeeps(tree: CtData, before: seq<nat>, lens: seq<nat>)
    requires |lens| < tree.dl.Length == |before| && |lens| <= tree.fc.Length
    requires tree.dl[..] == before[|lens| := GUARD] && before[..|lens|] == lens
    requires forall s :: 0 <= s < |lens| && lens[s] > 0 ==> tree.fc[s] == SentCode(lens, s)
    ensures Guarded(tree, lens)
  {
    hide SentCode;
    assert forall s :: 0 <= s < |lens| ==> tree.dl[..][s] == lens[s];
  }

  /** scan_tree on one tree. */
  method Scan(tree: CtData, bl: CtData, maxCode: nat, ghost lens: seq<nat>)
    requires maxCode + 1 == |lens| < tree.dl.Length && HoldsCodes(tree, lens) && Lengths(lens)
    requires tree.dl != bl.fc && tree.fc != bl.fc && tree.fc != tree.dl && bl.fc.Length >= BL_CODES
    modifies tree.dl, bl.fc
    ensures Guarded(tree, lens)
    ensures bl.fc[..BL_CODES] == CountItems(old(bl.fc[..BL_CODES]), AllItems(lens))
  {
    hide SentCode, CountItems, AllItems;
    assert lens == tree.dl[..maxCode + 1];
    ghost var before := tree.dl[..];
    ScanTree(tree, maxCode, bl, lens);
    GuardKeeps(tree, before, lens);
  }

  // ---------- codes cut off after the last symbol ----------

  /** A tree cut off after its last code holds the same codes as the whole. */
  lemma {:induction false} SlotsTrim(lens: seq<nat>, k: nat, len: nat)
    requires k <= |lens| && forall s :: k <= s < |lens| ==> lens[s] == 0
    ensures Slots(lens[..k], len) == Slots(lens, len)
  {
    if len > 0 {
      SlotsTrim(lens, k, len - 1);
      CountPrefix(lens, k, len, k);
      CountAfter(lens, len, k, |lens|);
    }
  }

  lemma CodeTrim(lens: seq<nat>, k: nat, s: nat)
    requires s < k <= |lens| && forall i :: k <= i < |lens| ==> lens[i] == 0
    ensures Code(lens[..k], s) == Code(lens, s) && SentCode(lens[..k], s) == SentCode(lens, s)
  {
    var len := lens[s];
    if len > 0 {
      SlotsTrim(lens, k, len - 1);
    }
    CountPrefix(lens, k, len, s);
  }

  lemma HoldsTrimmed(tree: CtData, lens: seq<nat>, k: nat)
    requires k <= |lens| <= tree.dl.Length && |lens| <= tree.fc.Length && lens == tree.dl[..|lens|]
    requires forall i :: k <= i < |lens| ==> lens[i] == 0
    requires HoldsCodes(tree, lens[..k])
    ensures HoldsCodes(tree, lens)
  {
    hide SentCode;
    forall s | 0 <= s < |lens|
      ensures tree.dl[s] == lens[s] && (lens[s] > 0 ==> tree.fc[s] == SentCode(lens, s))
    {
      if s < k {
        CodeTrim(lens, k, s);
        assert lens[..k][s] == lens[s];
      }
    }
  }

  /** A complete code, cut off after its last symbol, is a prefix code. */
  lemma TrimmedPrefix(lens: seq<nat>, max: nat, maxCode: int)
    requires CompleteLens(lens, max, maxCode)
    ensures LensOk(lens[..maxCode + 1], max) && LensOk(lens, max)
  {
    SlotsTrim(lens, maxCode + 1, max);
  }

  // ---------- the code length code ----------

  lemma BlBuildable(b: HuffmanBuilder, bl: TreeDesc, items: seq<Item>)
    requires bl.elems == BL_CODES && bl.maxLength == 7 && bl.extraBits == BlExtras() && bl.extraBase == 0
        && bl.staticTree == null
    requires b.Distinct(bl) && bl.dynTree.fc.Length == 2 * BL_CODES + 1 == bl.dynTree.dl.Length
    requires b.heap.Length == b.depth.Length >= 2 * BL_CODES + 1 && b.blCount.Length == MAX_BITS + 1
    requires bl.dynTree.fc[..BL_CODES] == CountItems(NoCounts(), items) && |items| < 60000
    ensures b.Buildable(bl) && ExtraIs(b.CostsOf(bl), BlExtras())
  {
    hide CountItems, Sum;
    CountTotal(NoCounts(), items);
    SumZero(NoCounts());
    assert Pow2(7) == 128;
  }

  /** Without a static tree nothing is added to static_len. */
  lemma NoStatic(c: Costs, lens: seq<nat>)
    requires c.staticLens.None?
    ensures Sum(StaticTerms(c, lens)) == 0
  {
    SumZero(StaticTerms(c, lens));
  }

  /** The codes of the code length alphabet cover everything that is to be sent. */
  ghost predicate BlBuilt(bl: TreeDesc, items: seq<Item>, cl: seq<nat>)
    reads bl.dynTree.fc, bl.dynTree.dl
  {
    && |cl| == BL_CODES && LensOk(cl, MAX_BL_BITS) && HoldsCodes(bl.dynTree, cl) && Codable(cl, items)
  }

  lemma Covered(items: seq<Item>, cl: seq<nat>)
    requires ItemsOk(items) && CoversUsed(CountItems(NoCounts(), items), cl)
    ensures Codable(cl, items)
  {
    hide CountItems;
    forall i | 0 <= i < |items|
      ensures HasCode(cl, items[i])
    {
      assert ItemOk(items[i]);
      ItemsOccur(items, i);
    }
  }

  lemma BlDone(bl: TreeDesc, items: seq<Item>, cl: seq<nat>, maxCode: int)
    requires CompleteLens(cl, MAX_BL_BITS, maxCode) && |cl| == BL_CODES && ItemsOk(items)
    requires CoversUsed(CountItems(NoCounts(), items), cl)
    requires BL_CODES <= bl.dynTree.dl.Length && BL_CODES <= bl.dynTree.fc.Length && cl == bl.dynTree.dl[..BL_CODES]
    requires HoldsCodes(bl.dynTree, bl.dynTree.dl[..maxCode + 1])
    ensures BlBuilt(bl, items, cl) && Codable(cl, items)
    ensures |ItemsBits(cl, items)| == Sum(Products(CountItems(NoCounts(), items), Weights(cl, BlExtras())))
  {
    hide CountItems, Products, Sum, Weights, HoldsCodes, CoversUsed, Prefix, ItemsBits, Slots, Pow2;
    assert bl.dynTree.dl[..maxCode + 1] == cl[..maxCode + 1];
    TrimmedPrefix(cl, MAX_BL_BITS, maxCode);
    HoldsTrimmed(bl.dynTree, cl, maxCode + 1);
    Covered(items, cl);
    ItemsCost(cl, items);
  }

  /** build_tree on the code length alphabet; opt_len grows by the size of the run-length coded lengths. */
  method BuildBl(b: HuffmanBuilder, bl: TreeDesc, ghost items: seq<Item>) returns (ghost cl: seq<nat>)
    requires bl.elems == BL_CODES && bl.maxLength == 7 && bl.extraBits == BlExtras() && bl.extraBase == 0
        && bl.staticTree == null
    requires b.Distinct(bl) && bl.dynTree.fc.Length == 2 * BL_CODES + 1 == bl.dynTree.dl.Length
    requires b.heap.Length == b.depth.Length >= 2 * BL_CODES + 1 && b.blCount.Length == MAX_BITS + 1
    requires bl.dynTree.fc[..BL_CODES] == CountItems(NoCounts(), items) && |items| < 60000 && ItemsOk(items)
    modifies b, b.heap, b.depth, b.blCount, bl`maxCode, bl.dynTree.fc, bl.dynTree.dl
    ensures BlBuilt(bl, items, cl) && cl == bl.dynTree.dl[..BL_CODES]
    ensures b.optLen == old(b.optLen) + |ItemsBits(cl, items)|
    ensures b.staticLen == old(b.staticLen)
  {
    hide Sum, Products, Weights, HoldsCodes, CountItems, CostTerms, StaticTerms, CompleteLens, CoversUsed, BuiltOn,
        XBits;
    hide ExtraIs, BlBuilt, ItemsBits, Codable, ItemsOk, BlExtras;
    BlBuildable(b, bl, items);
    ghost var c, freq := b.CostsOf(bl), bl.dynTree.fc[..BL_CODES];
    assert c.freq[..BL_CODES] == freq;
    var _, _, _ := b.BuildTree(bl);
    cl := bl.dynTree.dl[..BL_CODES];
    NoStatic(c, cl);
    CostIsProducts(c, freq, cl, BlExtras());
    BlDone(bl, items, cl, bl.maxCode);
  }

  /** The index in bl_order of the last code length code to send. */
  method LastIndex(bl: CtData, ghost cl: seq<nat>) returns (maxBlindex: nat)
    requires |cl| == BL_CODES <= bl.dl.Length && cl == bl.dl[..BL_CODES]
    requires exists s :: 0 < s < 16 && cl[s] > 0
    ensures 3 <= maxBlindex < BL_CODES && cl[CL_ORDER[maxBlindex]] != 0
    ensures forall i :: maxBlindex < i < BL_CODES ==> cl[CL_ORDER[i]] == 0
  {
    maxBlindex := BL_CODES - 1;
    while maxBlindex >= 3
      invariant 2 <= maxBlindex < BL_CODES
      invariant forall i :: maxBlindex < i < BL_CODES ==> cl[CL_ORDER[i]] == 0
    {
      if bl.dl[CL_ORDER[maxBlindex]] != 0 {
        return;
      }
      maxBlindex := maxBlindex - 1;
    }
    NoneLeft(cl);
  }

  lemma NoneLeft(cl: seq<nat>)
    requires |cl| == BL_CODES && forall i :: 3 <= i < BL_CODES ==> cl[CL_ORDER[i]] == 0
    ensures forall s :: 0 < s < 16 ==> cl[s] == 0
  {
    assert forall i :: 3 <= i < BL_CODES ==> cl[CL_ORDER[i]] == 0;
    assert cl[CL_ORDER[4]] == 0 && cl[CL_ORDER[5]] == 0 && cl[CL_ORDER[6]] == 0 && cl[CL_ORDER[7]] == 0;
    assert cl[CL_ORDER[8]] == 0 && cl[CL_ORDER[9]] == 0 && cl[CL_ORDER[10]] == 0 && cl[CL_ORDER[11]] == 0;
    assert cl[CL_ORDER[12]] == 0 && cl[CL_ORDER[13]] == 0 && cl[CL_ORDER[14]] == 0 && cl[CL_ORDER[15]] == 0;
    assert cl[CL_ORDER[16]] == 0 && cl[CL_ORDER[17]] == 0 && cl[CL_ORDER[18]] == 0;
  }

  /** Some code length is always sent as itself, so at least four code length codes are. */
  lemma SomeUsed(ll: seq<nat>, dl: seq<nat>, cl: seq<nat>)
    requires Lengths(ll) && Lengths(dl) && |ll| > 256 && ll[256] > 0
    requires |cl| == BL_CODES && Codable(cl, BothItems(ll, dl))
    ensures exists s :: 0 < s < 16 && cl[s] > 0
  {
    hide AllItems;
    var i := SomeLength(ll, 256);
    assert BothItems(ll, dl)[i] == AllItems(ll)[i];
    assert HasCode(cl, BothItems(ll, dl)[i]);
    assert cl[AllItems(ll)[i].len] > 0;
  }

  lemma HeaderMade(ll: seq<nat>, dl: seq<nat>, cl: seq<nat>, maxBlindex: nat)
    requires 257 <= |ll| <= 286 && LensOk(ll, MAX_BITS) && 1 <= |dl| <= 30 && LensOk(dl, MAX_BITS)
    requires Lengths(ll) && Lengths(dl) && |cl| == BL_CODES && LensOk(cl, MAX_BL_BITS)
    requires Codable(cl, BothItems(ll, dl))
    requires 3 <= maxBlindex < BL_CODES && forall i :: maxBlindex < i < BL_CODES ==> cl[CL_ORDER[i]] == 0
    ensures var h := Header(ll, dl, cl, maxBlindex + 1);
            HeaderOk(h) && |HeaderBits(h)| == |ItemsBits(cl, BothItems(ll, dl))| + 3 * (maxBlindex + 1) + 14
  {
    hide AllItems, Prefix, ItemsBits, ToBits;
    var a, b := AllItems(ll), AllItems(dl);
    var h := Header(ll, dl, cl, maxBlindex + 1);
    CodablePrefix(cl, a, b);
    ItemsBitsConcat(cl, a, b);
    ClBitsLength(cl, 0, maxBlindex + 1);
  }

  lemma {:induction false} ClBitsLength(cl: seq<nat>, i: nat, n: nat)
    requires |cl| == 19 && i <= n <= 19
    ensures |ClBits(cl, i, n)| == 3 * (n - i)
    decreases n - i
  {
    if i < n {
      ClBitsLength(cl, i + 1, n);
    }
  }

  /** build_bl_tree: the header that describes both trees, and its exact size added to opt_len. */
  method BuildBlTree(b: HuffmanBuilder, l: TreeDesc, d: TreeDesc, bl: TreeDesc, ghost ll: seq<nat>, ghost dl: seq<nat>)
    returns (maxBlindex: nat, ghost h: Header)
    requires bl.elems == BL_CODES && bl.maxLength == 7 && bl.extraBits == BlExtras() && bl.extraBase == 0
        && bl.staticTree == null
    requires b.Distinct(bl) && bl.dynTree.fc.Length == 2 * BL_CODES + 1 == bl.dynTree.dl.Length
    requires b.heap.Length == b.depth.Length >= 2 * BL_CODES + 1 && b.blCount.Length == MAX_BITS + 1
    requires bl.dynTree.fc[..BL_CODES] == NoCounts()
    requires l.maxCode + 1 == |ll| < l.dynTree.dl.Length && HoldsCodes(l.dynTree, ll) && Lengths(ll)
    requires d.maxCode + 1 == |dl| < d.dynTree.dl.Length && HoldsCodes(d.dynTree, dl) && Lengths(dl)
    requires 257 <= |ll| <= 286 && LensOk(ll, MAX_BITS) && 1 <= |dl| <= 30 && LensOk(dl, MAX_BITS) && ll[256] > 0
    requires bl != l && bl != d
    requires {b.heap, b.depth, b.blCount} !! {l.dynTree.fc} !! {l.dynTree.dl} !! {d.dynTree.fc} !! {d.dynTree.dl}
        !! {bl.dynTree.fc} !! {bl.dynTree.dl}
    modifies b, b.heap, b.depth, b.blCount, bl`maxCode, bl.dynTree.fc, bl.dynTree.dl, l.dynTree.dl, d.dynTree.dl
    ensures Guarded(l.dynTree, ll) && Guarded(d.dynTree, dl) && HoldsCodes(bl.dynTree, h.cl)
    ensures h.ll == ll && h.dl == dl && HeaderOk(h) && h.hclen == maxBlindex + 1
    ensures b.optLen == old(b.optLen) + |HeaderBits(h)| && b.staticLen == old(b.staticLen)
  {
    hide AllItems, CountItems, SentCode, LensOk, ItemsBits, HeaderBits, Codable, HeaderOk, ItemsOk, Lengths, BlExtras;
    Scan(l.dynTree, bl.dynTree, l.maxCode, ll);
    Scan(d.dynTree, bl.dynTree, d.maxCode, dl);
    CountBoth(ll, dl);
    ghost var items := BothItems(ll, dl);
    ghost var cl := BuildBl(b, bl, items);
    SomeUsed(ll, dl, cl);
    maxBlindex := LastIndex(bl.dynTree, cl);
    HeaderMade(ll, dl, cl, maxBlindex);
    h := Header(ll, dl, cl, maxBlindex + 1);
    b.optLen := b.optLen + 3 * (maxBlindex + 1) + 5 + 5 + 4;
  }

  // ---------- sending the header ----------

  lemma {:induction false} ClBitsAppend(cl: seq<nat>, i: nat, n: nat)
    requires |cl| == 19 && i <= n < 19
    ensures ClBits(cl, i, n + 1) == ClBits(cl, i, n) + ToBits(cl[CL_ORDER[n]], 3)
    decreases n - i
  {
    if i < n {
      ClBitsAppend(cl, i + 1, n);
    } else {
      assert ClBits(cl, n + 1, n + 1) == [];
    }
  }

  /** bl_order. */
  function BlOrder(rank: nat): (s: nat)
    requires rank < BL_CODES
    ensures s < BL_CODES
  {
    CL_ORDER[rank]
  }

  lemma NoCl(sent: seq<bool>, cl: seq<nat>)
    requires |cl| == 19
    ensures sent == sent + ClBits(cl, 0, 0)
  {
  }

  lemma MoreCl(sent: seq<bool>, cl: seq<nat>, rank: nat)
    requires |cl| == 19 && rank < 19
    ensures sent + ClBits(cl, 0, rank + 1) == sent + ClBits(cl, 0, rank) + ToBits(cl[BlOrder(rank)], 3)
  {
    hide ToBits, ClBits;
    ClBitsAppend(cl, 0, rank);
  }

  /** The lengths of the code length codes. */
  method SendClLens(w: BitWriter, bl: CtData, blcodes: nat, ghost cl: seq<nat>)
    requires w.Valid() && |cl| == BL_CODES && HoldsCodes(bl, cl) && blcodes <= BL_CODES
    requires forall i :: 0 <= i < BL_CODES ==> cl[i] <= MAX_BL_BITS
    modifies w, w.outbuf
    ensures w.Valid() && w.Sent() == old(w.Sent()) + ClBits(cl, 0, blcodes)
  {
    hide SentCode, Stream, ToBits, ClBits, BlOrder;
    ghost var start := w.Sent();
    NoCl(start, cl);
    var rank := 0;
    while rank < blcodes
      invariant rank <= blcodes && w.Valid() && w.Sent() == start + ClBits(cl, 0, rank)
    {
      assert Pow2(3) == 8;
      MoreCl(start, cl, rank);
      w.SendBits(bl.dl[BlOrder(rank)], 3);
      rank := rank + 1;
    }
  }

  ghost predicate HeaderFits(h: Header)
  {
    && |h.cl| == 19 && Short(h.cl) && (forall i :: 0 <= i < BL_CODES ==> h.cl[i] <= MAX_BL_BITS)
    && Codable(h.cl, AllItems(h.ll)) && Codable(h.cl, AllItems(h.dl)) && Lengths(h.ll) && Lengths(h.dl)
  }

  lemma HeaderBounds(h: Header)
    requires HeaderOk(h)
    ensures HeaderFits(h) && 257 <= |h.ll| <= 286 && 1 <= |h.dl| <= 30 && 4 <= h.hclen <= 19
  {
  }

  function CountBits(h: Header): seq<bool>
    requires HeaderOk(h)
  {
    ToBits(|h.ll| - 257, 5) + ToBits(|h.dl| - 1, 5) + ToBits(h.hclen - 4, 4)
  }

  lemma HeaderPieces(sent: seq<bool>, h: Header)
    requires HeaderOk(h)
    ensures HeaderFits(h)
    ensures sent + CountBits(h) + ClBits(h.cl, 0, h.hclen) + ItemsBits(h.cl, AllItems(h.ll))
        + ItemsBits(h.cl, AllItems(h.dl))
         == sent + HeaderBits(h)
  {
    hide ToBits, ClBits, ItemsBits, AllItems;
    HeaderBounds(h);
  }

  method SendCounts(w: BitWriter, lcodes: nat, dcodes: nat, blcodes: nat, ghost h: Header)
    requires w.Valid() && HeaderOk(h) && lcodes == |h.ll| && dcodes == |h.dl| && blcodes == h.hclen
    modifies w, w.outbuf
    ensures w.Valid() && w.Sent() == old(w.Sent()) + CountBits(h)
  {
    hide ToBits, Stream, Codable, LensOk;
    assert Pow2(5) == 32 && Pow2(4) == 16;
    ghost var start := w.Sent();
    w.SendBits(lcodes - 257, 5);
    w.SendBits(dcodes - 1, 5);
    w.SendBits(blcodes - 4, 4);
    assert w.Sent() == start + CountBits(h);
  }

  /** send_all_trees. */
  method SendAllTrees(w: BitWriter, l: CtData, d: CtData, bl: CtData, lcodes: nat, dcodes: nat, blcodes: nat,
      ghost h: Header)
    requires w.Valid() && HeaderOk(h) && lcodes == |h.ll| && dcodes == |h.dl| && blcodes == h.hclen
    requires Guarded(l, h.ll) && Guarded(d, h.dl) && HoldsCodes(bl, h.cl)
    modifies w, w.outbuf
    ensures w.Valid() && w.Sent() == old(w.Sent()) + HeaderBits(h)
  {
    hide SentCode, Stream, HeaderBits, ClBits, ItemsBits, AllItems, CountBits, HeaderOk, Short, Codable;
    HeaderBounds(h);
    ghost var start := w.Sent();
    SendCounts(w, lcodes, dcodes, blcodes, h);
    SendClLens(w, bl, blcodes, h.cl);
    assert h.ll == l.dl[..lcodes];
    SendTree(w, l, lcodes - 1, bl, h.ll, h.cl);
    assert h.dl == d.dl[..dcodes];
    SendTree(w, d, dcodes - 1, bl, h.dl, h.cl);
    HeaderPieces(start, h);
  }
}
