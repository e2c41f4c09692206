/** The buffers ct_tally fills: literals and lengths, distances, and a bit per token telling which. */
module TokenBuffering {
  import opened Sums
  import opened Bits
  import opened Rfc1951
  import opened Tokens

  /** The running indices and the flags not yet saved. */
  datatype Cursor = Cursor(lastLit: nat, lastDist: nat, lastFlags: nat, flags: nat, flagBit: nat)

  ghost predicate LitsPacked(ts: seq<Token>, l: seq<nat>, d: seq<nat>)
  {
    && |ts| <= |l| && Matches(ts) <= |d|
    && (forall i :: 0 <= i < |ts| ==> l[i] == LByte(ts[i]))
    && (forall i :: 0 <= i < |ts| && ts[i].Match? ==> DistAt(ts, d, i))
  }

  ghost predicate DistAt(ts: seq<Token>, d: seq<nat>, i: nat)
    requires i < |ts| && ts[i].Match?
  {
    Matches(ts[..i]) < |d| && d[Matches(ts[..i])] == ts[i].distance - 1
  }

  ghost predicate FlagsPacked(ts: seq<Token>, fb: seq<nat>, c: Cursor)
  {
    && 8 * c.lastFlags <= |ts| < 8 * c.lastFlags + 8
    && c.lastFlags <= |fb|
    && c.flagBit == Pow2(|ts| - 8 * c.lastFlags)
    && c.flags == FromBits(FlagBits(ts, 8 * c.lastFlags, |ts|))
    && (forall j :: 0 <= j < c.lastFlags ==> fb[j] == FlagByte(ts, j))
  }

  /** The buffers hold exactly the tokens ts. */
  ghost predicate Packed(ts: seq<Token>, l: seq<nat>, d: seq<nat>, fb: seq<nat>, c: Cursor)
  {
    && c.lastLit == |ts| && c.lastDist == Matches(ts)
    && LitsPacked(ts, l, d) && FlagsPacked(ts, fb, c)
  }

  lemma {:induction false} MatchesMonotone(ts: seq<Token>, i: nat)
    requires i < |ts| && ts[i].Match?
    ensures Matches(ts[..i]) < Matches(ts)
    decreases |ts|
  {
    var n := |ts| - 1;
    if i < n {
      MatchesMonotone(ts[..n], i);
      assert ts[..n][..i] == ts[..i];
    }
  }

  lemma LitsAppend(ts: seq<Token>, t: Token, l: seq<nat>, d: seq<nat>, l': seq<nat>, d': seq<nat>)
    requires LitsPacked(ts, l, d) && |ts| < |l| && LByte(t) >= 0 && l' == l[|ts| := LByte(t)]
    requires t.Match? ==> Matches(ts) < |d| && t.distance >= 1 && d' == d[Matches(ts) := t.distance - 1]
    requires !t.Match? ==> d' == d
    ensures LitsPacked(ts + [t], l', d')
    ensures Matches(ts + [t]) == Matches(ts) + (if t.Match? then 1 else 0)
  {
    var us := ts + [t];
    assert us[..|ts|] == ts;
    forall i | 0 <= i < |us| && us[i].Match?
      ensures DistAt(us, d', i)
    {
      assert us[..i] == ts[..i];
      if i < |ts| {
        assert DistAt(ts, d, i);
        MatchesMonotone(ts, i);
      } else {
        assert ts[..i] == ts;
      }
    }
  }

  lemma FlagByteStable(ts: seq<Token>, t: Token, j: nat)
    requires 8 * j + 8 <= |ts|
    ensures FlagByte(ts + [t], j) == FlagByte(ts, j)
  {
    assert FlagBits(ts + [t], 8 * j, FlagEnd(ts + [t], j)) == FlagBits(ts, 8 * j, FlagEnd(ts, j));
  }

  /** The flags after one more token; a full byte is saved. */
  function NextCursor(c: Cursor, isMatch: bool): Cursor
  {
    var flags := if isMatch then BitOr(c.flags, c.flagBit) else c.flags;
    var lit := c.lastLit + 1;
    var dist := if isMatch then c.lastDist + 1 else c.lastDist;
    if lit % 8 == 0 then Cursor(lit, dist, c.lastFlags + 1, 0, 1)
    else Cursor(lit, dist, c.lastFlags, flags, 2 * c.flagBit % 256)
  }

  lemma FlagsAppend(ts: seq<Token>, t: Token, fb: seq<nat>, c: Cursor, fb': seq<nat>)
    requires FlagsPacked(ts, fb, c) && c.lastLit == |ts|
    requires (|ts| + 1) % 8 == 0 ==> c.lastFlags < |fb|
    requires fb' == if (|ts| + 1) % 8 == 0
                    then fb[c.lastFlags := if t.Match? then BitOr(c.flags, c.flagBit) else c.flags] else fb
    ensures FlagsPacked(ts + [t], fb', NextCursor(c, t.Match?))
  {
    var us, k := ts + [t], c.lastFlags;
    hide FromBits, BitOr, FlagBits;
    var c' := NextCursor(c, t.Match?);
    assert (|ts| + 1) % 8 == 0 <==> |us| == 8 * k + 8;
    assert Pow2(0) == 1;
    assert |us| == 8 * k + 8 ==> FlagByte(us, k) == FromBits(FlagBits(us, 8 * k, |us|));
    hide FlagByte, Pow2, NextCursor;
    FlagAppend(ts, 8 * k, t);
    forall j | 0 <= j < k
      ensures fb'[j] == FlagByte(us, j)
    {
      FlagByteStable(ts, t, j);
    }
    if |us| == 8 * k + 8 {
      assert FlagEnd(us, k) == |us|;
      EmptyFlags(us);
    } else {
      FlagBitFits(|ts| - 8 * k);
    }
  }

  lemma EmptyFlags(ts: seq<Token>)
    ensures FromBits(FlagBits(ts, |ts|, |ts|)) == 0
  {
    assert FlagBits(ts, |ts|, |ts|) == [];
  }

  lemma FlagBitFits(k: nat)
    requires k < 7
    ensures 2 * Pow2(k) % 256 == Pow2(k + 1)
  {
    Pow2Monotone(k + 1, 7);
    assert Pow2(7) == 128;
  }

  class TokenBuffer {
    const lBuf: array<nat>
    const dBuf: array<nat>
    const flagBuf: array<nat>
    var lastLit: nat
    var lastDist: nat
    var lastFlags: nat
    var flags: nat
    var flagBit: nat

    ghost predicate Sized(litBufsize: nat, distBufsize: nat)
    {
      && litBufsize % 8 == 0 && 0 < litBufsize <= lBuf.Length && flagBuf.Length == litBufsize / 8
      && dBuf.Length == distBufsize
      && lBuf != dBuf && lBuf != flagBuf && dBuf != flagBuf
    }

    ghost predicate Holds(ts: seq<Token>)
      reads this, lBuf, dBuf, flagBuf
    {
      Packed(ts, lBuf[..], dBuf[..], flagBuf[..], Cursor(lastLit, lastDist, lastFlags, flags, flagBit))
    }

    constructor (litBufsize: nat, distBufsize: nat)
      requires litBufsize % 8 == 0 && 0 < litBufsize
      ensures Sized(litBufsize, distBufsize) && Holds([])
      ensures fresh(lBuf) && fresh(dBuf) && fresh(flagBuf)
    {
      lBuf := new nat[litBufsize](_ => 0);
      dBuf := new nat[distBufsize](_ => 0);
      flagBuf := new nat[litBufsize / 8](_ => 0);
      lastLit, lastDist, lastFlags, flags, flagBit := 0, 0, 0, 0, 1;
      new;
      assert FlagBits([], 0, 0) == [];
    }

    /** The buffer part of init_block. */
    method Clear()
      modifies this
      ensures Holds([])
    {
      lastLit, lastDist, lastFlags, flags, flagBit := 0, 0, 0, 0, 1;
      assert FlagBits([], 0, 0) == [];
    }

    /** The buffer part of ct_tally: dist is zero for a literal. */
    method Store(dist: nat, lc: nat, ghost ts: seq<Token>, ghost t: Token)
      requires Holds(ts) && |ts| < lBuf.Length && |ts| / 8 < flagBuf.Length
      requires lBuf != dBuf && lBuf != flagBuf && dBuf != flagBuf
      requires t.Match? <==> dist > 0
      requires lc == LByte(t) && (t.Match? ==> t.distance == dist && Matches(ts) < dBuf.Length)
      modifies this, lBuf, dBuf, flagBuf
      ensures Holds(ts + [t])
    {
      hide LitsPacked, FlagsPacked, BitOr, Matches, LByte;
      ghost var c := Cursor(lastLit, lastDist, lastFlags, flags, flagBit);
      ghost var l, d, fb := lBuf[..], dBuf[..], flagBuf[..];
      PackedSizes(ts, l, d, fb, c);
      lBuf[lastLit] := lc;
      lastLit := lastLit + 1;
      if dist != 0 {
        dBuf[lastDist] := dist - 1;
        lastDist := lastDist + 1;
        flags := BitOr(flags, flagBit);
      }
      flagBit := 2 * flagBit % 256;
      ghost var saved := flags;
      if lastLit % 8 == 0 {
        flagBuf[lastFlags] := flags;
        lastFlags := lastFlags + 1;
        flags := 0;
        flagBit := 1;
      }
      assert lBuf[..] == l[|ts| := lc];
      assert dist != 0 ==> dBuf[..] == d[Matches(ts) := (dist - 1) as nat];
      assert dist == 0 ==> dBuf[..] == d;
      assert flagBuf[..] == if (|ts| + 1) % 8 == 0 then fb[c.lastFlags := saved] else fb;
      LitsAppend(ts, t, l, d, lBuf[..], dBuf[..]);
      FlagsAppend(ts, t, fb, c, flagBuf[..]);
    }

    /** Saves the flags of an incomplete last byte. */
    method SaveFlags(ghost ts: seq<Token>)
      requires Holds(ts) && |ts| / 8 < flagBuf.Length && lBuf != flagBuf && dBuf != flagBuf
      modifies flagBuf
      ensures Holds(ts) && AllFlags(ts)
    {
      flagBuf[lastFlags] := flags;
      assert FlagEnd(ts, lastFlags) == |ts|;
    }

    ghost predicate AllFlags(ts: seq<Token>)
      reads flagBuf
    {
      |ts| / 8 < flagBuf.Length && forall j :: 0 <= j <= |ts| / 8 ==> flagBuf[j] == FlagByte(ts, j)
    }
  }

  lemma PackedSizes(ts: seq<Token>, l: seq<nat>, d: seq<nat>, fb: seq<nat>, c: Cursor)
    requires Packed(ts, l, d, fb, c)
    ensures c.lastFlags == |ts| / 8
  {
  }
}
