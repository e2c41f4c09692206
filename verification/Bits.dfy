/** Unsigned machine words as naturals, and their bits, least significant first. */
module Bits {
  import opened Sums

  type byte = x: nat | x < 256

  /** The low n bits of v, least significant first. */
  function ToBits(v: nat, n: nat): (bs: seq<bool>)
    ensures |bs| == n
  {
    if n == 0 then [] else [v % 2 == 1] + ToBits(v / 2, n - 1)
  }

  /** The number whose bits, least significant first, are bs. */
  function FromBits(bs: seq<bool>): (v: nat)
    ensures v < Pow2(|bs|)
  {
    if bs == [] then 0 else (if bs[0] then 1 else 0) + 2 * FromBits(bs[1..])
  }

  /** Bit i of v. */
  predicate BitAt(v: nat, i: nat)
  {
    if i == 0 then v % 2 == 1 else BitAt(v / 2, i - 1)
  }

  /** v & (2^k - 1): truncation to k bits. */
  function Low(v: nat, k: nat): nat
  {
    if k == 0 then 0 else v % 2 + 2 * Low(v / 2, k - 1)
  }

  /** v << k, before any truncation. */
  function Shl(v: nat, k: nat): nat
  {
    if k == 0 then v else 2 * Shl(v, k - 1)
  }

  /** v >> k. */
  function Shr(v: nat, k: nat): nat
  {
    if k == 0 then v else Shr(v / 2, k - 1)
  }

  /** The | operator. */
  function BitOr(a: nat, b: nat): nat
  {
    if a == 0 && b == 0 then 0
    else (if a % 2 == 1 || b % 2 == 1 then 1 else 0) + 2 * BitOr(a / 2, b / 2)
  }

  /** The ^ operator. */
  function BitXor(a: nat, b: nat): nat
  {
    if a == 0 && b == 0 then 0
    else (if a % 2 != b % 2 then 1 else 0) + 2 * BitXor(a / 2, b / 2)
  }

  lemma {:induction false} FromToBits(v: nat, n: nat)
    requires v < Pow2(n)
    ensures FromBits(ToBits(v, n)) == v
  {
    if n > 0 {
      FromToBits(v / 2, n - 1);
      assert ToBits(v, n)[1..] == ToBits(v / 2, n - 1);
    }
  }

  lemma {:induction false} ToFromBits(bs: seq<bool>)
    ensures ToBits(FromBits(bs), |bs|) == bs
  {
    if bs != [] {
      ToFromBits(bs[1..]);
      assert bs == [bs[0]] + bs[1..];
    }
  }

  /** Placing w above the k bits of v concatenates the two bit strings. */
  lemma {:induction false} ToBitsConcat(v: nat, k: nat, w: nat, m: nat)
    requires v < Pow2(k)
    ensures ToBits(v + Shl(w, k), k + m) == ToBits(v, k) + ToBits(w, m)
  {
    if k > 0 {
      var x := v + Shl(w, k);
      assert x % 2 == v % 2;
      assert x / 2 == v / 2 + Shl(w, k - 1);
      ToBitsConcat(v / 2, k - 1, w, m);
    }
  }

  lemma {:induction false} LowShr(v: nat, k: nat)
    ensures Low(v, k) < Pow2(k)
    ensures v == Low(v, k) + Shl(Shr(v, k), k)
  {
    if k > 0 {
      LowShr(v / 2, k - 1);
    }
  }

  lemma {:induction false} ShlIsMul(v: nat, k: nat)
    ensures Shl(v, k) == Pow2(k) * v
  {
    if k > 0 {
      ShlIsMul(v, k - 1);
      assert Pow2(k) * v == 2 * (Pow2(k - 1) * v);
    }
  }

  /** Truncation is the identity on words that fit. */
  lemma {:induction false} LowFits(v: nat, k: nat)
    requires v < Pow2(k)
    ensures Low(v, k) == v
  {
    if k > 0 {
      LowFits(v / 2, k - 1);
    }
  }

  /** Bits beyond the top are not looked at. */
  lemma {:induction false} ToBitsLow(v: nat, k: nat)
    ensures ToBits(Low(v, k), k) == ToBits(v, k)
  {
    if k > 0 {
      ToBitsLow(v / 2, k - 1);
    }
  }

  /** Splitting a word: the low k bits, then the rest. */
  lemma {:induction false} ToBitsSplit(v: nat, k: nat, m: nat)
    ensures ToBits(v, k + m) == ToBits(v, k) + ToBits(Shr(v, k), m)
  {
    if k > 0 {
      ToBitsSplit(v / 2, k - 1, m);
    }
  }

  /** Truncating a word shifted by s to s + k bits keeps its low k bits. */
  lemma {:induction false} LowShift(v: nat, s: nat, k: nat)
    ensures Low(Shl(v, s), s + k) == Shl(Low(v, k), s)
  {
    if s > 0 {
      LowShift(v, s - 1, k);
    }
  }

  lemma {:induction false} ShrFits(v: nat, k: nat, m: nat)
    requires v < Pow2(k + m)
    ensures Shr(v, k) < Pow2(m)
  {
    if k > 0 {
      ShrFits(v / 2, k - 1, m);
    }
  }

  lemma {:induction false} ShrShr(v: nat, a: nat, b: nat)
    ensures Shr(v, a + b) == Shr(Shr(v, a), b)
  {
    if a > 0 {
      ShrShr(v / 2, a - 1, b);
    }
  }

  function Zeros(n: nat): (bs: seq<bool>)
    ensures |bs| == n
  {
    seq(n, _ => false)
  }

  lemma {:induction false} ToBitsZero(n: nat)
    ensures ToBits(0, n) == Zeros(n)
  {
    if n > 0 {
      ToBitsZero(n - 1);
    }
  }

  /** When the operands share no bits, | is +. */
  lemma {:induction false} BitOrDisjoint(v: nat, k: nat, w: nat)
    requires v < Pow2(k)
    ensures BitOr(v, Shl(w, k)) == v + Shl(w, k)
  {
    if k == 0 {
      BitOrZero(w);
    } else {
      BitOrDisjoint(v / 2, k - 1, w);
    }
  }

  lemma {:induction false} BitOrCommutes(a: nat, b: nat)
    ensures BitOr(a, b) == BitOr(b, a)
  {
    if a > 0 || b > 0 {
      BitOrCommutes(a / 2, b / 2);
    }
  }

  lemma {:induction false} BitOrZero(w: nat)
    ensures BitOr(0, w) == w
  {
    if w > 0 {
      BitOrZero(w / 2);
    }
  }

  lemma {:induction false} BitAtXor(a: nat, b: nat, i: nat)
    ensures BitAt(BitXor(a, b), i) == (BitAt(a, i) != BitAt(b, i))
  {
    if i > 0 {
      BitAtXor(a / 2, b / 2, i - 1);
    }
  }

  lemma {:induction false} BitAtShift(v: nat, s: nat, i: nat)
    ensures BitAt(Shl(v, s), i) == (i >= s && BitAt(v, i - s))
  {
    if s > 0 && i > 0 {
      BitAtShift(v, s - 1, i - 1);
    }
  }

  lemma {:induction false} BitAtLow(v: nat, k: nat, i: nat)
    ensures BitAt(Low(v, k), i) == (i < k && BitAt(v, i))
  {
    if k == 0 {
      BitAtZero(i);
    } else if i > 0 {
      BitAtLow(v / 2, k - 1, i - 1);
    }
  }

  lemma {:induction false} BitAtZero(i: nat)
    ensures !BitAt(0, i)
  {
    if i > 0 {
      BitAtZero(i - 1);
    }
  }

  /** Words of k bits are equal when all their bits are. */
  lemma {:induction false} BitsEqual(a: nat, b: nat, k: nat)
    requires a < Pow2(k) && b < Pow2(k)
    requires forall i :: 0 <= i < k ==> BitAt(a, i) == BitAt(b, i)
    ensures a == b
  {
    if k > 0 {
      assert BitAt(a, 0) == BitAt(b, 0);
      forall i | 0 <= i < k - 1
        ensures BitAt(a / 2, i) == BitAt(b / 2, i)
      {
        assert BitAt(a, i + 1) == BitAt(b, i + 1);
      }
      BitsEqual(a / 2, b / 2, k - 1);
    }
  }

  lemma Regroup<T>(a: seq<T>, b: seq<T>, c: seq<T>, d: seq<T>, e: seq<T>)
    requires b + c == d + e
    ensures (a + b) + c == (a + d) + e
  {
    assert (a + b) + c == a + (b + c);
    assert (a + d) + e == a + (d + e);
  }

  /** The bits of a byte string, each byte least significant bit first. */
  function BytesToBits(bytes: seq<byte>): (bs: seq<bool>)
    ensures |bs| == 8 * |bytes|
  {
    if bytes == [] then [] else BytesToBits(bytes[..|bytes| - 1]) + ToBits(bytes[|bytes| - 1], 8)
  }

  lemma BytesToBitsAppend(bytes: seq<byte>, b: byte)
    ensures BytesToBits(bytes + [b]) == BytesToBits(bytes) + ToBits(b, 8)
  {
    assert (bytes + [b])[..|bytes|] == bytes;
  }

  lemma {:induction false} BytesToBitsConcat(a: seq<byte>, b: seq<byte>)
    ensures BytesToBits(a + b) == BytesToBits(a) + BytesToBits(b)
  {
    if b == [] {
      assert a + b == a;
    } else {
      var c, x := b[..|b| - 1], b[|b| - 1];
      assert a + b == (a + c) + [x];
      BytesToBitsConcat(a, c);
      calc {
        BytesToBits(a + b);
        { BytesToBitsAppend(a + c, x); }
        BytesToBits(a + c) + ToBits(x, 8);
        (BytesToBits(a) + BytesToBits(c)) + ToBits(x, 8);
        BytesToBits(a) + (BytesToBits(c) + ToBits(x, 8));
        BytesToBits(a) + BytesToBits(b);
      }
    }
  }
}
