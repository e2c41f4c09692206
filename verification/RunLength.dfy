/** The run-length coding of code lengths that precedes a dynamic block. */
module RunLength {
  import opened Sums
  import opened Bits
  import opened Options
  import opened Canonical
  import opened Rfc1951

  /** One symbol of the code length alphabet with its repeat count. */
  datatype Item = Len(len: nat) | Prev(count: nat) | ZeroRun(count: nat)

  /** The longest and the shortest run that gets its own repeat item, after a length of prev. */
  function MaxCount(prev: int, cur: nat): nat
  {
    if cur == 0 then 138 else if prev == cur then 6 else 7
  }

  function MinCount(prev: int, cur: nat): nat
  {
    if cur == 0 || prev == cur then 3 else 4
  }

  function Copies(len: nat, k: nat): (items: seq<Item>)
    ensures |items| == k
  {
    seq(k, _ => Len(len))
  }

  /** The items for a run of count lengths cur after a length of prev. */
  function Emit(prev: int, cur: nat, count: nat): seq<Item>
  {
    if count < MinCount(prev, cur) then Copies(cur, count)
    else if cur != 0 then (if cur != prev then [Len(cur), Prev(count - 1)] else [Prev(count)])
    else [ZeroRun(count)]
  }

  /** The run ends at n: it is as long as it may be, or the next length differs. */
  predicate RunEnds(lens: seq<nat>, n: nat, prev: int, count: nat)
    requires n < |lens|
  {
    count >= MaxCount(prev, lens[n]) || n + 1 == |lens| || lens[n + 1] != lens[n]
  }

  /** The items for lens[n - count..], when count lengths equal to lens[n] are pending before n. */
  function Items(lens: seq<nat>, n: nat, prev: int, count: nat): seq<Item>
    requires n <= |lens|
    decreases |lens| - n
  {
    if n == |lens| then []
    else if !RunEnds(lens, n, prev, count + 1) then Items(lens, n + 1, prev, count + 1)
    else Emit(prev, lens[n], count + 1) + Items(lens, n + 1, lens[n], 0)
  }

  /** All the items for a code length sequence. */
  function AllItems(lens: seq<nat>): seq<Item>
  {
    Items(lens, 0, -1, 0)
  }

  // ---------- items as section 3.2.7 of RFC 1951 codes them ----------

  function ItemSymbol(it: Item): nat
  {
    match it
    case Len(len) => len
    case Prev(_) => 16
    case ZeroRun(count) => if count <= 10 then 17 else 18
  }

  function ItemExtra(it: Item): (nat, nat)
  {
    match it
    case Len(_) => (0, 0)
    case Prev(count) => (if count < 3 then 0 else count - 3, 2)
    case ZeroRun(count) =>
      if count <= 10 then (if count < 3 then 0 else count - 3, 3) else (count - 11, 7)
  }

  /** The repeat count fits its field. */
  predicate ItemOk(it: Item)
  {
    match it
    case Len(len) => len < 16
    case Prev(count) => 3 <= count <= 6
    case ZeroRun(count) => 3 <= count <= 138
  }

  predicate ItemsOk(items: seq<Item>)
  {
    forall i :: 0 <= i < |items| ==> ItemOk(items[i])
  }

  function ItemBits(cl: seq<nat>, it: Item): seq<bool>
    requires ItemSymbol(it) < |cl|
  {
    CodeBits(cl, ItemSymbol(it)) + ToBits(ItemExtra(it).0, ItemExtra(it).1)
  }

  predicate HasCode(cl: seq<nat>, it: Item)
  {
    ItemSymbol(it) < |cl| && cl[ItemSymbol(it)] > 0
  }

  predicate Codable(cl: seq<nat>, items: seq<Item>)
  {
    forall i :: 0 <= i < |items| ==> HasCode(cl, items[i])
  }

  function ItemsBits(cl: seq<nat>, items: seq<Item>): seq<bool>
    requires Codable(cl, items)
    decreases |items|
  {
    if items == [] then [] else ItemBits(cl, items[0]) + ItemsBits(cl, items[1..])
  }

  lemma {:induction false} ItemsBitsConcat(cl: seq<nat>, a: seq<Item>, b: seq<Item>)
    requires Codable(cl, a) && Codable(cl, b)
    ensures Codable(cl, a + b)
    ensures ItemsBits(cl, a + b) == ItemsBits(cl, a) + ItemsBits(cl, b)
    decreases |a|
  {
    hide ItemBits, HasCode;
    if a == [] {
      assert a + b == b;
    } else {
      assert (a + b)[1..] == a[1..] + b;
      ItemsBitsConcat(cl, a[1..], b);
    }
  }

  // ---------- meaning ----------

  /** What an item adds to the lengths decoded so far. */
  function Apply(acc: seq<nat>, it: Item): (r: seq<nat>)
  {
    match it
    case Len(len) => acc + [len]
    case Prev(count) => if acc == [] then acc else Repeat(acc, acc[|acc| - 1], count)
    case ZeroRun(count) => Repeat(acc, 0, count)
  }

  function ApplyAll(acc: seq<nat>, items: seq<Item>): seq<nat>
    decreases |items|
  {
    if items == [] then acc else ApplyAll(Apply(acc, items[0]), items[1..])
  }

  /** A "repeat previous" needs a previous length. */
  predicate Meaningful(acc: seq<nat>, items: seq<Item>)
    decreases |items|
  {
    items == []
    || (&& (items[0].Prev? ==> acc != [])
        && Meaningful(Apply(acc, items[0]), items[1..]))
  }

  lemma {:induction false} ApplyAllConcat(acc: seq<nat>, a: seq<Item>, b: seq<Item>)
    requires Meaningful(acc, a) && Meaningful(ApplyAll(acc, a), b)
    ensures Meaningful(acc, a + b)
    ensures ApplyAll(acc, a + b) == ApplyAll(ApplyAll(acc, a), b)
    decreases |a|
  {
    if a == [] {
      assert a + b == b;
    } else {
      assert (a + b)[1..] == a[1..] + b;
      ApplyAllConcat(Apply(acc, a[0]), a[1..], b);
    }
  }

  function Run(x: nat, k: nat): (r: seq<nat>)
    ensures |r| == k && forall i :: 0 <= i < k ==> r[i] == x
  {
    seq(k, _ => x)
  }

  lemma {:induction false} RepeatIs(acc: seq<nat>, x: nat, k: nat)
    ensures Repeat(acc, x, k) == acc + Run(x, k)
    decreases k
  {
    if k > 0 {
      RepeatIs(acc + [x], x, k - 1);
    }
  }

  lemma {:induction false} CopiesApply(acc: seq<nat>, x: nat, k: nat)
    ensures Meaningful(acc, Copies(x, k))
    ensures ApplyAll(acc, Copies(x, k)) == acc + Run(x, k)
    decreases k
  {
    if k > 0 {
      assert Copies(x, k)[1..] == Copies(x, k - 1);
      CopiesApply(acc + [x], x, k - 1);
    }
  }

  /** The length before the pending run, or -1 at the start. */
  ghost predicate PrevIs(acc: seq<nat>, prev: int)
  {
    prev == -1 || (acc != [] && acc[|acc| - 1] == prev)
  }

  lemma EmitApply(acc: seq<nat>, prev: int, cur: nat, count: nat)
    requires PrevIs(acc, prev) && count > 0
    ensures Meaningful(acc, Emit(prev, cur, count))
    ensures ApplyAll(acc, Emit(prev, cur, count)) == acc + Run(cur, count)
  {
    var items := Emit(prev, cur, count);
    if count < MinCount(prev, cur) {
      CopiesApply(acc, cur, count);
    } else if cur != 0 && cur != prev {
      assert items[1..] == [Prev(count - 1)] && items[1..][1..] == [];
      RepeatIs(acc + [cur], cur, count - 1);
      assert ApplyAll(acc + [cur], items[1..]) == Repeat(acc + [cur], cur, count - 1);
      assert acc + [cur] + Run(cur, count - 1) == acc + Run(cur, count);
    } else {
      assert items[1..] == [];
      RepeatIs(acc, cur, count);
    }
  }

  lemma EmitOk(prev: int, cur: nat, count: nat)
    requires 0 < count <= MaxCount(prev, cur) && cur < 16
    ensures ItemsOk(Emit(prev, cur, count))
  {
  }

  lemma RunSlice(acc: seq<nat>, lens: seq<nat>, n: nat, count: nat)
    requires count <= n < |lens| && forall i :: n - count <= i < n ==> lens[i] == lens[n]
    ensures acc + Run(lens[n], count + 1) + lens[n + 1..] == acc + lens[n - count..]
  {
    assert Run(lens[n], count + 1) == lens[n - count..n + 1];
    assert lens[n - count..] == lens[n - count..n + 1] + lens[n + 1..];
  }

  lemma {:induction false} ItemsApply(acc: seq<nat>, lens: seq<nat>, n: nat, prev: int, count: nat)
    requires count <= n <= |lens| && PrevIs(acc, prev)
    requires n == |lens| ==> count == 0
    requires n < |lens| ==> forall i :: n - count <= i < n ==> lens[i] == lens[n]
    ensures Meaningful(acc, Items(lens, n, prev, count))
    ensures ApplyAll(acc, Items(lens, n, prev, count)) == acc + lens[n - count..]
    decreases |lens| - n
  {
    hide Emit, Run, MaxCount;
    if n == |lens| {
    } else if !RunEnds(lens, n, prev, count + 1) {
      hide Meaningful, ApplyAll;
      ItemsApply(acc, lens, n + 1, prev, count + 1);
    } else {
      hide Meaningful, ApplyAll;
      var run := Run(lens[n], count + 1);
      EmitApply(acc, prev, lens[n], count + 1);
      ItemsApply(acc + run, lens, n + 1, lens[n], 0);
      ApplyAllConcat(acc, Emit(prev, lens[n], count + 1), Items(lens, n + 1, lens[n], 0));
      RunSlice(acc, lens, n, count);
    }
  }

  lemma {:induction false} ItemsInRange(lens: seq<nat>, n: nat, prev: int, count: nat)
    requires n <= |lens| && forall i :: 0 <= i < |lens| ==> lens[i] < 16
    requires n < |lens| ==> count < MaxCount(prev, lens[n])
    ensures ItemsOk(Items(lens, n, prev, count))
    decreases |lens| - n
  {
    if n < |lens| {
      if !RunEnds(lens, n, prev, count + 1) {
        ItemsInRange(lens, n + 1, prev, count + 1);
      } else {
        EmitOk(prev, lens[n], count + 1);
        ItemsInRange(lens, n + 1, lens[n], 0);
      }
    }
  }

  /** Expanding the items for lens, after anything, appends exactly lens; no repeat comes first. */
  lemma RunLengthRoundTrip(acc: seq<nat>, lens: seq<nat>)
    requires forall i :: 0 <= i < |lens| ==> lens[i] < 16
    ensures ItemsOk(AllItems(lens)) && Meaningful(acc, AllItems(lens))
    ensures ApplyAll(acc, AllItems(lens)) == acc + lens
  {
    ItemsApply(acc, lens, 0, -1, 0);
    ItemsInRange(lens, 0, -1, 0);
  }

  // ---------- the decoder reads items back ----------

  lemma ReadToBits(v: nat, n: nat, rest: seq<bool>)
    requires v < Pow2(n)
    ensures ReadBits(ToBits(v, n) + rest, n) == Some((v, rest))
  {
    var bs := ToBits(v, n) + rest;
    assert bs[..n] == ToBits(v, n) && bs[n..] == rest;
    FromToBits(v, n);
  }

  lemma ExtraFits(it: Item)
    requires ItemOk(it)
    ensures ItemExtra(it).0 < Pow2(ItemExtra(it).1)
  {
    assert Pow2(2) == 4 && Pow2(3) == 8 && Pow2(7) == 128;
  }

  lemma RepeatRead(it: Item, acc: seq<nat>, rest: seq<bool>)
    requires ItemOk(it) && !it.Len? && (it.Prev? ==> acc != [])
    ensures ReadRepeat(ItemSymbol(it), ToBits(ItemExtra(it).0, ItemExtra(it).1) + rest, acc)
         == Some((Apply(acc, it), rest))
  {
    ExtraFits(it);
    ReadToBits(ItemExtra(it).0, ItemExtra(it).1, rest);
  }

  lemma {:induction false} ApplyGrows(acc: seq<nat>, items: seq<Item>)
    requires ItemsOk(items) && Meaningful(acc, items)
    ensures |ApplyAll(acc, items)| >= |acc| + |items|
    decreases |items|
  {
    if items != [] {
      ApplyGrows(Apply(acc, items[0]), items[1..]);
    }
  }

  /** One item is read back, and the decoder goes on with the rest. */
  lemma ReadItem(cl: seq<nat>, max: nat, it: Item, more: seq<bool>, n: nat, acc: seq<nat>)
    requires Prefix(cl, max) && HasCode(cl, it) && ItemOk(it) && (it.Prev? ==> acc != []) && |acc| < n
    ensures ReadLens(cl, ItemBits(cl, it) + more, n, acc) == ReadLens(cl, more, n, Apply(acc, it))
  {
    var extra := ToBits(ItemExtra(it).0, ItemExtra(it).1);
    assert ItemBits(cl, it) + more == CodeBits(cl, ItemSymbol(it)) + (extra + more);
    DecodeEncoded(cl, max, ItemSymbol(it), extra + more);
    if it.Len? {
      assert extra + more == more;
    } else {
      RepeatRead(it, acc, more);
    }
  }

  /** ReadLens undoes ItemsBits: it recovers the lengths and stops right after the last item. */
  lemma {:induction false} ReadLensDecodes(cl: seq<nat>, max: nat, items: seq<Item>, rest: seq<bool>,
                                           n: nat, acc: seq<nat>)
    requires Prefix(cl, max) && Codable(cl, items)
    requires ItemsOk(items) && Meaningful(acc, items) && |ApplyAll(acc, items)| == n
    ensures ReadLens(cl, ItemsBits(cl, items) + rest, n, acc) == Some((ApplyAll(acc, items), rest))
    decreases |items|
  {
    if items == [] {
      assert ItemsBits(cl, items) + rest == rest;
    } else {
      var more := ItemsBits(cl, items[1..]) + rest;
      assert ItemsBits(cl, items) + rest == ItemBits(cl, items[0]) + more;
      ApplyGrows(acc, items);
      ReadItem(cl, max, items[0], more, n, acc);
      ReadLensDecodes(cl, max, items[1..], rest, n, Apply(acc, items[0]));
    }
  }
}
