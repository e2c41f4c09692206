/** Scanning and sending a tree's code lengths in run-length form. */
module LengthSending {
  import opened Bits
  import opened BitWriting
  import opened Canonical
  import opened RunLength
  import opened CodeTrees
  import opened Tokens
  import opened BlockSending

  const GUARD := 0xffff

  /** The frequencies after counting the symbols of all items. */
  function CountItems(freq: seq<nat>, items: seq<Item>): (r: seq<nat>)
    requires |freq| == BL_CODES
    ensures |r| == BL_CODES
    decreases |items|
  {
    if items == [] then freq
    else
      var s := ItemSymbol(items[|items| - 1]);
      var r := CountItems(freq, items[..|items| - 1]);
      if s < BL_CODES then Bump(r, s) else r
  }

  lemma {:induction false} CountItemsConcat(freq: seq<nat>, a: seq<Item>, b: seq<Item>)
    requires |freq| == BL_CODES
    ensures CountItems(freq, a + b) == CountItems(CountItems(freq, a), b)
    decreases |b|
  {
    if b == [] {
      assert a + b == a;
    } else {
      assert (a + b)[..|a + b| - 1] == a + b[..|b| - 1];
      CountItemsConcat(freq, a, b[..|b| - 1]);
    }
  }

  lemma {:induction false} CountCopies(freq: seq<nat>, len: nat, k: nat)
    requires |freq| == BL_CODES && len < BL_CODES
    ensures CountItems(freq, Copies(len, k)) == freq[len := freq[len] + k]
  {
    if k > 0 {
      assert Copies(len, k)[..k - 1] == Copies(len, k - 1);
      CountCopies(freq, len, k - 1);
    }
  }

  lemma CountOne(freq: seq<nat>, it: Item)
    requires |freq| == BL_CODES && ItemSymbol(it) < BL_CODES
    ensures CountItems(freq, [it]) == Bump(freq, ItemSymbol(it))
  {
    assert [it][..0] == [];
  }

  lemma CountTwo(freq: seq<nat>, a: Item, b: Item)
    requires |freq| == BL_CODES && ItemSymbol(a) < BL_CODES && ItemSymbol(b) < BL_CODES
    ensures CountItems(freq, [a, b]) == Bump(Bump(freq, ItemSymbol(a)), ItemSymbol(b))
  {
    CountOne(freq, a);
    CountOne(Bump(freq, ItemSymbol(a)), b);
    CountItemsConcat(freq, [a], [b]);
    assert [a] + [b] == [a, b];
  }

  /** scan_tree's bookkeeping for one run. */
  method CountRun(bl: CtData, prev: int, cur: nat, count: nat)
    requires bl.fc.Length >= BL_CODES && cur < 16 && 0 < count <= MaxCount(prev, cur)
    modifies bl.fc
    ensures bl.fc[..BL_CODES] == CountItems(old(bl.fc[..BL_CODES]), Emit(prev, cur, count))
    ensures forall i :: BL_CODES <= i < bl.fc.Length ==> bl.fc[i] == old(bl.fc[i])
  {
    ghost var freq := bl.fc[..BL_CODES];
    if count < MinCount(prev, cur) {
      CountCopies(freq, cur, count);
      bl.fc[cur] := bl.fc[cur] + count;
    } else if cur != 0 {
      if cur != prev {
        CountTwo(freq, Len(cur), Prev(count - 1));
        bl.fc[cur] := bl.fc[cur] + 1;
      } else {
        CountOne(freq, Prev(count));
      }
      bl.fc[16] := bl.fc[16] + 1;
    } else if count <= 10 {
      CountOne(freq, ZeroRun(count));
      bl.fc[17] := bl.fc[17] + 1;
    } else {
      CountOne(freq, ZeroRun(count));
      bl.fc[18] := bl.fc[18] + 1;
    }
  }

  /** The loop variables of scan_tree and send_tree agree with the items still to come. */
  ghost predicate RunState(lens: seq<nat>, dl: seq<nat>, n: nat, prev: int, next: nat, count: nat, max: nat, min: nat)
  {
    && n <= |lens| && |lens| < |dl| && dl[..|lens|] == lens && dl[|lens|] == GUARD
    && (forall i :: 0 <= i < |lens| ==> lens[i] < 16)
    && (n < |lens| ==> next == lens[n] && max == MaxCount(prev, next) && min == MinCount(prev, next) && count < max)
    && (n == |lens| ==> count == 0)
  }

  /** What one step of the loop does with the items. */
  lemma RunStep(lens: seq<nat>, dl: seq<nat>, n: nat, prev: int, cur: nat, count: nat, max: nat, min: nat)
    requires RunState(lens, dl, n, prev, cur, count, max, min) && n < |lens|
    ensures cur < 16
    ensures var next := dl[n + 1];
            if count + 1 < max && cur == next
            then && RunState(lens, dl, n + 1, prev, next, count + 1, max, min)
                 && Items(lens, n, prev, count) == Items(lens, n + 1, prev, count + 1)
            else && RunState(lens, dl, n + 1, cur, next, 0, MaxCount(cur, next), MinCount(cur, next))
                 && Items(lens, n, prev, count) == Emit(prev, cur, count + 1) + Items(lens, n + 1, cur, 0)
  {
    assert dl[n] == lens[n];
    if n + 1 < |lens| {
      assert dl[n + 1] == dl[..|lens|][n + 1] == lens[n + 1];
    }
  }

  lemma RunStart(lens: seq<nat>, dl: seq<nat>)
    requires 0 < |lens| < |dl| && dl[..|lens|] == lens && dl[|lens|] == GUARD
    requires forall i :: 0 <= i < |lens| ==> lens[i] < 16
    ensures var next := dl[0];
            RunState(lens, dl, 0, -1, next, 0, if next == 0 then 138 else 7, if next == 0 then 3 else 4)
  {
    assert dl[0] == dl[..|lens|][0] == lens[0];
  }

  /** scan_tree: counts the code length symbols send_tree will need, and sets the guard. */
  method ScanTree(tree: CtData, maxCode: nat, bl: CtData, ghost lens: seq<nat>)
    requires maxCode + 1 < tree.dl.Length && lens == tree.dl[..maxCode + 1]
    requires tree.dl != bl.fc && bl.fc.Length >= BL_CODES
    requires forall i :: 0 <= i < |lens| ==> lens[i] < 16
    modifies tree.dl, bl.fc
    ensures tree.dl[..] == old(tree.dl[..])[maxCode + 1 := GUARD]
    ensures bl.fc[..BL_CODES] == CountItems(old(bl.fc[..BL_CODES]), AllItems(lens))
    ensures forall i :: BL_CODES <= i < bl.fc.Length ==> bl.fc[i] == old(bl.fc[i])
  {
    hide RunState, Items, Emit, CountItems;
    tree.dl[maxCode + 1] := GUARD;
    assert tree.dl[..maxCode + 1] == lens;
    ghost var dl, freq := tree.dl[..], bl.fc[..BL_CODES];
    ghost var done: seq<Item> := [];
    var prev: int, next, count := -1, tree.dl[0], 0;
    var max, min := 7, 4;
    if next == 0 {
      max, min := 138, 3;
    }
    RunStart(lens, dl);
    CountNothing(freq);
    var n := 0;
    while n <= maxCode
      invariant n <= maxCode + 1 && tree.dl[..] == dl
      invariant RunState(lens, dl, n, prev, next, count, max, min)
      invariant AllItems(lens) == done + Items(lens, n, prev, count)
      invariant bl.fc[..BL_CODES] == CountItems(freq, done)
      invariant forall i :: BL_CODES <= i < bl.fc.Length ==> bl.fc[i] == old(bl.fc[i])
    {
      var cur := next;
      RunStep(lens, dl, n, prev, cur, count, max, min);
      next := tree.dl[n + 1];
      count := count + 1;
      if !(count < max && cur == next) {
        RunBound(lens, dl, n, prev, cur, count - 1, max, min);
        CountItemsConcat(freq, done, Emit(prev, cur, count));
        CountRun(bl, prev, cur, count);
        done := done + Emit(prev, cur, count);
        count, prev := 0, cur;
        max, min := 7, 4;
        if next == 0 {
          max, min := 138, 3;
        } else if cur == next {
          max, min := 6, 3;
        }
      }
      n := n + 1;
    }
    NothingLeft(lens, prev, count);
    assert done + [] == done;
  }

  lemma RunBound(lens: seq<nat>, dl: seq<nat>, n: nat, prev: int, cur: nat, count: nat, max: nat, min: nat)
    requires RunState(lens, dl, n, prev, cur, count, max, min) && n < |lens|
    ensures 0 < count + 1 <= MaxCount(prev, cur) && min == MinCount(prev, cur)
  {
  }

  lemma CountNothing(freq: seq<nat>)
    requires |freq| == BL_CODES
    ensures CountItems(freq, []) == freq
  {
  }

  lemma NothingLeft(lens: seq<nat>, prev: int, count: nat)
    ensures Items(lens, |lens|, prev, count) == []
  {
  }

  /** Sends one item. */
  method SendItem(w: BitWriter, bl: CtData, it: Item, ghost cl: seq<nat>)
    requires w.Valid() && HoldsCodes(bl, cl) && Short(cl) && HasCode(cl, it) && ItemOk(it)
    modifies w, w.outbuf
    ensures w.Valid() && w.Sent() == old(w.Sent()) + ItemBits(cl, it)
  {
    hide HoldsCodes, CodeBits, ToBits, Stream;
    ghost var start := w.Sent();
    SendCode(w, bl, ItemSymbol(it), cl);
    ExtraFits(it);
    var extra := ItemExtra(it);
    SendExtra(w, extra.0, extra.1);
    Regroup3(start, CodeBits(cl, ItemSymbol(it)), ToBits(extra.0, extra.1));
  }

  lemma OneItem(cl: seq<nat>, it: Item)
    requires HasCode(cl, it)
    ensures Codable(cl, [it]) && ItemsBits(cl, [it]) == ItemBits(cl, it)
  {
    assert [it][1..] == [];
    assert ItemBits(cl, it) + [] == ItemBits(cl, it);
  }

  lemma TwoItems(cl: seq<nat>, a: Item, b: Item)
    requires HasCode(cl, a) && HasCode(cl, b)
    ensures Codable(cl, [a, b]) && ItemsBits(cl, [a, b]) == ItemBits(cl, a) + ItemBits(cl, b)
  {
    OneItem(cl, a);
    OneItem(cl, b);
    ItemsBitsConcat(cl, [a], [b]);
    assert [a] + [b] == [a, b];
  }

  lemma MoreCopies(cl: seq<nat>, len: nat, k: nat)
    requires HasCode(cl, Len(len))
    ensures Codable(cl, Copies(len, k)) && Codable(cl, Copies(len, k + 1))
    ensures ItemsBits(cl, Copies(len, k + 1)) == ItemsBits(cl, Copies(len, k)) + ItemBits(cl, Len(len))
  {
    OneItem(cl, Len(len));
    ItemsBitsConcat(cl, Copies(len, k), [Len(len)]);
    assert Copies(len, k + 1) == Copies(len, k) + [Len(len)];
  }

  /** Sends a length several times. */
  method SendCopies(w: BitWriter, bl: CtData, len: nat, k: nat, ghost cl: seq<nat>)
    requires w.Valid() && HoldsCodes(bl, cl) && Short(cl) && HasCode(cl, Len(len)) && len < 16
    modifies w, w.outbuf
    ensures w.Valid() && Codable(cl, Copies(len, k)) && w.Sent() == old(w.Sent()) + ItemsBits(cl, Copies(len, k))
  {
    hide HoldsCodes, ItemBits, ItemsBits, Codable, Stream;
    ghost var start := w.Sent();
    var i := 0;
    MoreCopies(cl, len, 0);
    NoCopies(start, cl, len);
    while i < k
      invariant i <= k && w.Valid() && HoldsCodes(bl, cl)
      invariant Codable(cl, Copies(len, i)) && w.Sent() == start + ItemsBits(cl, Copies(len, i))
    {
      MoreCopies(cl, len, i);
      SendItem(w, bl, Len(len), cl);
      Regroup3(start, ItemsBits(cl, Copies(len, i)), ItemBits(cl, Len(len)));
      i := i + 1;
    }
  }

  lemma NoCopies(start: seq<bool>, cl: seq<nat>, len: nat)
    requires Codable(cl, Copies(len, 0))
    ensures start + ItemsBits(cl, Copies(len, 0)) == start
  {
  }

  /** send_tree's output for one run. */
  method SendRun(w: BitWriter, bl: CtData, prev: int, cur: nat, count: nat, ghost cl: seq<nat>)
    requires w.Valid() && HoldsCodes(bl, cl) && Short(cl) && cur < 16 && 0 < count <= MaxCount(prev, cur)
    requires Codable(cl, Emit(prev, cur, count))
    modifies w, w.outbuf
    ensures w.Valid() && w.Sent() == old(w.Sent()) + ItemsBits(cl, Emit(prev, cur, count))
  {
    hide HoldsCodes, ItemBits, ItemsBits, Stream;
    ghost var start, items := w.Sent(), Emit(prev, cur, count);
    assert HasCode(cl, items[0]);
    if count < MinCount(prev, cur) {
      SendCopies(w, bl, cur, count, cl);
    } else if cur != 0 && cur != prev {
      assert HasCode(cl, items[1]);
      TwoItems(cl, Len(cur), Prev(count - 1));
      SendItem(w, bl, Len(cur), cl);
      SendItem(w, bl, Prev(count - 1), cl);
      Regroup3(start, ItemBits(cl, Len(cur)), ItemBits(cl, Prev(count - 1)));
    } else {
      OneItem(cl, items[0]);
      SendItem(w, bl, if cur != 0 then Prev(count) else ZeroRun(count), cl);
    }
  }

  lemma CodablePrefix(cl: seq<nat>, a: seq<Item>, b: seq<Item>)
    requires Codable(cl, a + b)
    ensures Codable(cl, a) && Codable(cl, b)
  {
    forall i | 0 <= i < |a|
      ensures HasCode(cl, a[i])
    {
      assert (a + b)[i] == a[i];
    }
    forall i | 0 <= i < |b|
      ensures HasCode(cl, b[i])
    {
      assert (a + b)[|a| + i] == b[i];
    }
  }

  lemma NoItems(start: seq<bool>, cl: seq<nat>)
    ensures Codable(cl, []) && start + ItemsBits(cl, []) == start
  {
  }

  /** send_tree: sends the code lengths with the codes in bl. */
  method SendTree(w: BitWriter, tree: CtData, maxCode: nat, bl: CtData, ghost lens: seq<nat>, ghost cl: seq<nat>)
    requires w.Valid() && HoldsCodes(bl, cl) && Short(cl)
    requires maxCode + 1 < tree.dl.Length && lens == tree.dl[..maxCode + 1] && tree.dl[maxCode + 1] == GUARD
    requires forall i :: 0 <= i < |lens| ==> lens[i] < 16
    requires Codable(cl, AllItems(lens))
    modifies w, w.outbuf
    ensures w.Valid() && w.Sent() == old(w.Sent()) + ItemsBits(cl, AllItems(lens))
  {
    hide RunState, Items, Emit, HoldsCodes, ItemsBits, Codable, Stream, Short;
    ghost var start, dl := w.Sent(), tree.dl[..];
    ghost var done: seq<Item> := [];
    var prev: int, next, count := -1, tree.dl[0], 0;
    var max, min := 7, 4;
    if next == 0 {
      max, min := 138, 3;
    }
    RunStart(lens, dl);
    NoItems(start, cl);
    var n := 0;
    while n <= maxCode
      invariant n <= maxCode + 1 && tree.dl[..] == dl && w.Valid() && HoldsCodes(bl, cl)
      invariant RunState(lens, dl, n, prev, next, count, max, min)
      invariant AllItems(lens) == done + Items(lens, n, prev, count)
      invariant Codable(cl, done) && w.Sent() == start + ItemsBits(cl, done)
    {
      var cur := next;
      RunStep(lens, dl, n, prev, cur, count, max, min);
      next := tree.dl[n + 1];
      count := count + 1;
      if !(count < max && cur == next) {
        ghost var run := Emit(prev, cur, count);
        RunBound(lens, dl, n, prev, cur, count - 1, max, min);
        assert AllItems(lens) == (done + run) + Items(lens, n + 1, cur, 0);
        CodablePrefix(cl, done + run, Items(lens, n + 1, cur, 0));
        CodablePrefix(cl, done, run);
        ItemsBitsConcat(cl, done, run);
        SendRun(w, bl, prev, cur, count, cl);
        Regroup3(start, ItemsBits(cl, done), ItemsBits(cl, run));
        done := done + run;
        count, prev := 0, cur;
        if next == 0 {
          max, min := 138, 3;
        } else if cur == next {
          max, min := 6, 3;
        } else {
          max, min := 7, 4;
        }
      }
      n := n + 1;
    }
    NothingLeft(lens, prev, count);
    assert done + [] == done;
  }
}
