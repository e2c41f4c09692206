/** Sending codes, code lengths and tokens through the bit writer. */
module BlockSending {
  import opened Sums
  import opened Bits
  import opened BitWriting
  import opened Canonical
  import opened Rfc1951
  import opened Blocks
  import opened CodeTrees
  import opened CodeTables
  import opened Tokens
  import opened TokenBuffering

  lemma SentCodeBits(lens: seq<nat>, s: nat)
    requires s < |lens|
    ensures SentCode(lens, s) < Pow2(lens[s])
    ensures ToBits(SentCode(lens, s), lens[s]) == CodeBits(lens, s)
  {
    ToFromBits(CodeBits(lens, s));
  }

  /** The SEND_CODE macro. */
  method SendCode(w: BitWriter, tree: CtData, s: nat, ghost lens: seq<nat>)
    requires w.Valid() && HoldsCodes(tree, lens) && s < |lens| && 1 <= lens[s] <= 15
    modifies w, w.outbuf
    ensures w.Valid() && w.Sent() == old(w.Sent()) + CodeBits(lens, s)
  {
    hide SentCode, CodeBits, ToBits, Pow2;
    SentCodeBits(lens, s);
    w.SendBits(tree.fc[s], tree.dl[s]);
  }

  /** Extra bits, sent only when there are any. */
  method SendExtra(w: BitWriter, value: nat, n: nat)
    requires w.Valid() && n <= 16 && value < Pow2(n)
    modifies w, w.outbuf
    ensures w.Valid() && w.Sent() == old(w.Sent()) + ToBits(value, n)
  {
    if n != 0 {
      w.SendBits(value, n);
    } else {
      assert w.Sent() + ToBits(value, n) == w.Sent();
    }
  }

  /** The tables of ct_init. */
  class Tables {
    const lengthCode: seq<nat>
    const baseLength: seq<nat>
    const distCode: seq<nat>
    const baseDist: seq<nat>

    ghost predicate Valid()
    {
      && LengthTables(lengthCode, baseLength)
      && DistTables(distCode, baseDist)
    }

    constructor ()
      ensures Valid()
    {
      var lc, bl := InitLengths();
      var dc, bd := InitDistances();
      lengthCode, baseLength, distCode, baseDist := lc[..], bl[..], dc[..], bd[..];
    }

    /** The code of a match length, given as the length minus MIN_MATCH. */
    method LengthCodeOf(lc: nat) returns (code: nat, extra: nat, value: nat)
      requires Valid() && lc < 256
      ensures code == LengthCode(lc + MIN_MATCH)
      ensures extra == LENGTH_EXTRA[code] <= 16 && value < Pow2(extra)
      ensures LENGTH_BASE[code] + value == lc + MIN_MATCH
    {
      hide DistTables, LengthCode, Pow2;
      LengthExtraFits(lc + MIN_MATCH);
      code := lengthCode[lc];
      extra := LENGTH_EXTRA[code];
      NoExtra(code, lc);
      if extra != 0 {
        value := lc - baseLength[code];
      } else {
        value := 0;
      }
    }

    /** The code of a distance, given as the distance minus one. */
    method DistCodeOf(d: nat) returns (code: nat, extra: nat, value: nat)
      requires Valid() && d < 32768
      ensures code == DistCode(d + 1)
      ensures extra == DIST_EXTRA[code] <= 16 && value < Pow2(extra)
      ensures DIST_BASE[code] + value == d + 1
    {
      hide LengthTables, DistCode, Pow2;
      DistExtraFits(d + 1);
      assert DCode(distCode[..], d) == DistCode(d + 1);
      code := if d < 256 then distCode[d] else distCode[256 + d / 128];
      extra := DIST_EXTRA[code];
      NoDistExtra(code, d);
      if extra != 0 {
        value := d - baseDist[code];
      } else {
        value := 0;
      }
    }
  }

  lemma NoExtra(c: nat, lc: nat)
    requires c == LengthCode(lc + MIN_MATCH) && lc < 256
    ensures LENGTH_EXTRA[c] <= 16
    ensures LENGTH_EXTRA[c] == 0 ==> LENGTH_BASE[c] == lc + MIN_MATCH
    ensures LENGTH_EXTRA[c] != 0 ==> c < 28
  {
    hide LengthCode;
    LengthExtraFits(lc + MIN_MATCH);
    assert Pow2(0) == 1;
  }

  lemma NoDistExtra(c: nat, d: nat)
    requires c == DistCode(d + 1) && d < 32768
    ensures DIST_EXTRA[c] <= 16
    ensures DIST_EXTRA[c] == 0 ==> DIST_BASE[c] == d + 1
  {
    hide DistCode;
    DistExtraFits(d + 1);
    assert Pow2(0) == 1;
  }

  /** No length exceeds the 15 bits send_bits takes at a time. */
  ghost predicate Short(lens: seq<nat>)
  {
    forall s :: 0 <= s < |lens| ==> lens[s] <= 15
  }

  /** Sends a length code with its extra bits. */
  method SendLength(w: BitWriter, tables: Tables, ltree: CtData, lc: nat, ghost length: nat, ghost ll: seq<nat>)
    requires w.Valid() && tables.Valid() && HoldsCodes(ltree, ll) && Short(ll)
    requires lc < 256 && length == lc + MIN_MATCH
    requires 257 + LengthCode(length) < |ll| && ll[257 + LengthCode(length)] > 0
    modifies w, w.outbuf
    ensures w.Valid() && LENGTH_BASE[LengthCode(length)] <= length
    ensures w.Sent() == old(w.Sent()) + LengthBits(ll, length)
  {
    hide HoldsCodes, LengthCode, CodeBits, ToBits, Pow2, LengthTables, DistTables, Stream;
    ghost var start := w.Sent();
    var code, extra, value := tables.LengthCodeOf(lc);
    SendCode(w, ltree, code + 257, ll);
    SendExtra(w, value, extra);
    Regroup3(start, CodeBits(ll, code + 257), ToBits(value, extra));
  }

  lemma Regroup3<T>(a: seq<T>, b: seq<T>, c: seq<T>)
    ensures a + b + c == a + (b + c)
  {
  }

  /** Sends a distance code with its extra bits. */
  method SendDistance(w: BitWriter, tables: Tables, dtree: CtData, dist: nat, ghost distance: nat, ghost dl: seq<nat>)
    requires w.Valid() && tables.Valid() && HoldsCodes(dtree, dl) && Short(dl)
    requires dist < 32768 && distance == dist + 1
    requires DistCode(distance) < |dl| && dl[DistCode(distance)] > 0
    modifies w, w.outbuf
    ensures w.Valid() && DIST_BASE[DistCode(distance)] <= distance
    ensures w.Sent() == old(w.Sent()) + DistBits(dl, distance)
  {
    hide HoldsCodes, DistCode, CodeBits, ToBits, Pow2, LengthTables, DistTables;
    ghost var start := w.Sent();
    var code, extra, value := tables.DistCodeOf(dist);
    SendCode(w, dtree, code, dl);
    SendExtra(w, value, extra);
    Regroup3(start, CodeBits(dl, code), ToBits(value, extra));
  }

  /** Sends a length/distance pair. */
  method SendMatch(w: BitWriter, tables: Tables, ltree: CtData, dtree: CtData, lc: nat, dist: nat,
                   ghost t: Token, ghost ll: seq<nat>, ghost dl: seq<nat>)
    requires w.Valid() && tables.Valid() && HoldsCodes(ltree, ll) && HoldsCodes(dtree, dl) && Short(ll) && Short(dl)
    requires TokenHasCode(ll, dl, t) && t.Match? && lc == t.length - MIN_MATCH && dist == t.distance - 1
    modifies w, w.outbuf
    ensures w.Valid() && w.Sent() == old(w.Sent()) + TokenBits(ll, dl, t)
  {
    hide HoldsCodes, LengthCode, DistCode, LengthBits, DistBits, LengthTables, DistTables;
    ghost var start := w.Sent();
    SendLength(w, tables, ltree, lc, t.length, ll);
    SendDistance(w, tables, dtree, dist, t.distance, dl);
    Regroup3(start, LengthBits(ll, t.length), DistBits(dl, t.distance));
  }

  lemma BufferFacts(buf: TokenBuffer, ts: seq<Token>)
    requires buf.Holds(ts)
    ensures buf.lastLit == |ts| <= buf.lBuf.Length && Matches(ts) <= buf.dBuf.Length
    ensures Matches(ts[..0]) == 0
  {
  }

  /** What the buffers hold for token i. */
  lemma TokenAt(buf: TokenBuffer, ts: seq<Token>, i: nat)
    requires buf.Holds(ts) && i < |ts|
    ensures i < buf.lBuf.Length && buf.lBuf[i] == LByte(ts[i])
    ensures ts[i].Match? ==>
              Matches(ts[..i]) < buf.dBuf.Length && buf.dBuf[Matches(ts[..i])] == ts[i].distance - 1
    ensures Matches(ts[..i + 1]) == Matches(ts[..i]) + (if ts[i].Match? then 1 else 0)
  {
    assert ts[..i + 1][..i] == ts[..i];
    if ts[i].Match? {
      assert DistAt(ts, buf.dBuf[..], i);
    }
  }

  lemma TokensBitsStep(ll: seq<nat>, dl: seq<nat>, ts: seq<Token>, i: nat)
    requires i < |ts| && forall k :: 0 <= k < |ts| ==> TokenHasCode(ll, dl, ts[k])
    ensures TokensBits(ll, dl, ts[..i + 1]) == TokensBits(ll, dl, ts[..i]) + TokenBits(ll, dl, ts[i])
  {
    hide TokenHasCode, TokenBits;
    assert ts[..i + 1][..i] == ts[..i];
  }

  lemma LiteralFacts(ll: seq<nat>, dl: seq<nat>, t: Token)
    requires TokenHasCode(ll, dl, t) && t.Literal? && Short(ll)
    ensures t.b < |ll| && 1 <= ll[t.b] <= 15 && TokenBits(ll, dl, t) == CodeBits(ll, t.b)
  {
  }

  /** The body of compress_block's loop for token lx. */
  method SendNext(w: BitWriter, buf: TokenBuffer, tables: Tables, ltree: CtData, dtree: CtData,
                  lx: nat, dx: nat, flag: nat, ghost ts: seq<Token>, ghost ll: seq<nat>, ghost dl: seq<nat>,
                  ghost start: seq<bool>)
    returns (flag': nat, dx': nat)
    requires w.Valid() && tables.Valid() && HoldsCodes(ltree, ll) && HoldsCodes(dtree, dl) && Short(ll) && Short(dl)
    requires buf.Holds(ts) && TokensHaveCodes(ll, dl, ts)
    requires lx < |ts| && dx == Matches(ts[..lx]) && flag == FlagsFrom(ts, lx)
    requires w.Sent() == start + TokensBits(ll, dl, ts[..lx])
    modifies w, w.outbuf
    ensures w.Valid() && w.Sent() == start + TokensBits(ll, dl, ts[..lx + 1])
    ensures dx' == Matches(ts[..lx + 1])
    ensures (lx + 1) % 8 != 0 && lx + 1 < |ts| ==> flag' == FlagsFrom(ts, lx + 1)
  {
    hide HoldsCodes, TokenHasCode, TokenBits, CodeBits, Packed, Short, LengthTables, DistTables, FlagsFrom, TokensBits,
        Matches;
    ghost var t := ts[lx];
    TokenAt(buf, ts, lx);
    FlagsStep(ts, lx);
    TokensBitsStep(ll, dl, ts, lx);
    var lc := buf.lBuf[lx];
    dx' := dx;
    if flag % 2 == 0 {
      LiteralFacts(ll, dl, t);
      SendCode(w, ltree, lc, ll);
    } else {
      var dist := buf.dBuf[dx];
      dx' := dx + 1;
      SendMatch(w, tables, ltree, dtree, lc, dist, t, ll, dl);
    }
    flag' := flag / 2;
  }

  lemma NoTokens(start: seq<bool>, ll: seq<nat>, dl: seq<nat>, ts: seq<Token>)
    ensures start + TokensBits(ll, dl, ts[..0]) == start
  {
  }

  lemma CodesOfAll(ll: seq<nat>, dl: seq<nat>, ts: seq<Token>)
    requires TokensHaveCodes(ll, dl, ts)
    ensures forall i :: 0 <= i < |ts| ==> TokenHasCode(ll, dl, ts[i])
  {
  }

  lemma ShortEnd(ll: seq<nat>, dl: seq<nat>, ts: seq<Token>)
    requires TokensHaveCodes(ll, dl, ts) && Short(ll)
    ensures END_BLOCK < |ll| && 1 <= ll[END_BLOCK] <= 15
    ensures DataBits(ll, dl, ts) == TokensBits(ll, dl, ts) + CodeBits(ll, END_BLOCK)
  {
  }

  /** The flags from token i to the end of its byte. */
  ghost function FlagsFrom(ts: seq<Token>, i: nat): nat
    requires i < |ts|
  {
    FromBits(FlagBits(ts, i, FlagEnd(ts, i / 8)))
  }

  lemma FlagsStep(ts: seq<Token>, i: nat)
    requires i < |ts|
    ensures FlagsFrom(ts, i) % 2 == (if ts[i].Match? then 1 else 0)
    ensures (i + 1) % 8 != 0 && i + 1 < |ts| ==> FlagsFrom(ts, i) / 2 == FlagsFrom(ts, i + 1)
  {
    hide FromBits, FlagBits;
    FlagFirst(ts, i, FlagEnd(ts, i / 8));
  }

  /** Reads the next byte of flags when the last one is used up. */
  method LoadFlags(buf: TokenBuffer, lx: nat, fx: nat, flag: nat, ghost ts: seq<Token>) returns (flag': nat, fx': nat)
    requires buf.AllFlags(ts) && lx < |ts| && fx == (lx + 7) / 8
    requires lx % 8 != 0 ==> flag == FlagsFrom(ts, lx)
    ensures flag' == FlagsFrom(ts, lx) && fx' == (lx + 8) / 8
  {
    flag', fx' := flag, fx;
    if lx % 8 == 0 {
      flag' := buf.flagBuf[fx];
      fx' := fx + 1;
      assert flag' == FlagByte(ts, lx / 8);
    }
  }

  /** The loop of compress_block. */
  method SendTokens(w: BitWriter, buf: TokenBuffer, tables: Tables, ltree: CtData, dtree: CtData,
                    ghost ts: seq<Token>, ghost ll: seq<nat>, ghost dl: seq<nat>)
    requires w.Valid() && tables.Valid() && HoldsCodes(ltree, ll) && HoldsCodes(dtree, dl) && Short(ll) && Short(dl)
    requires buf.Holds(ts) && buf.AllFlags(ts) && TokensHaveCodes(ll, dl, ts)
    modifies w, w.outbuf
    ensures w.Valid() && w.Sent() == old(w.Sent()) + TokensBits(ll, dl, ts)
  {
    hide HoldsCodes, TokenHasCode, TokenBits, CodeBits, Packed, Short, LengthTables, DistTables, TokensBits, Matches,
         TokensHaveCodes, FlagsFrom, FlagByte;
    CodesOfAll(ll, dl, ts);
    BufferFacts(buf, ts);
    ghost var start := w.Sent();
    NoTokens(start, ll, dl, ts);
    var lx, dx, fx, flag := 0, 0, 0, 0;
    while lx < buf.lastLit
      invariant w.Valid() && tables.Valid() && HoldsCodes(ltree, ll) && HoldsCodes(dtree, dl)
      invariant buf.Holds(ts) && buf.AllFlags(ts)
      invariant lx <= |ts| == buf.lastLit && dx == Matches(ts[..lx]) && fx == (lx + 7) / 8
      invariant lx % 8 != 0 && lx < |ts| ==> flag == FlagsFrom(ts, lx)
      invariant w.Sent() == start + TokensBits(ll, dl, ts[..lx])
    {
      flag, fx := LoadFlags(buf, lx, fx, flag, ts);
      flag, dx := SendNext(w, buf, tables, ltree, dtree, lx, dx, flag, ts, ll, dl, start);
      lx := lx + 1;
    }
    assert ts[..lx] == ts;
  }

  /** compress_block: sends the buffered tokens and end-of-block. */
  method CompressBlock(w: BitWriter, buf: TokenBuffer, tables: Tables, ltree: CtData, dtree: CtData,
                       ghost ts: seq<Token>, ghost ll: seq<nat>, ghost dl: seq<nat>)
    requires w.Valid() && tables.Valid() && HoldsCodes(ltree, ll) && HoldsCodes(dtree, dl) && Short(ll) && Short(dl)
    requires buf.Holds(ts) && buf.AllFlags(ts) && TokensHaveCodes(ll, dl, ts)
    modifies w, w.outbuf
    ensures w.Valid() && w.Sent() == old(w.Sent()) + DataBits(ll, dl, ts)
  {
    hide HoldsCodes, TokenHasCode, TokenBits, CodeBits, Packed, Short, LengthTables, DistTables, TokensBits,
         TokensHaveCodes, DataBits;
    CodesOfAll(ll, dl, ts);
    ghost var start := w.Sent();
    SendTokens(w, buf, tables, ltree, dtree, ts, ll, dl);
    ShortEnd(ll, dl, ts);
    SendCode(w, ltree, END_BLOCK, ll);
    Regroup3(start, TokensBits(ll, dl, ts), CodeBits(ll, END_BLOCK));
  }
}
