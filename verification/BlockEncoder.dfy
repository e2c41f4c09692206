/** One block: tallying tokens, building its trees, choosing a representation and sending it. */
module BlockEncoding {
  import opened Sums
  import opened Bits
  import opened BitWriting
  import opened Options
  import opened Canonical
  import opened Rfc1951
  import opened Blocks
  import opened CodeTrees
  import opened HuffmanPass
  import opened HuffmanBuilding
  import opened Tokens
  import opened TokenBuffering
  import opened BlockSending
  import opened BlockCosts
  import opened HeaderSending

  class BlockEncoder {
    const w: BitWriter
    const b: HuffmanBuilder
    const tables: Tables
    const buf: TokenBuffer
    const l: TreeDesc   // literals and lengths
    const d: TreeDesc   // distances
    const bl: TreeDesc  // code lengths
    const sl: CtData    // the static literal tree
    const sd: CtData    // the static distance tree
    const litBufsize: nat
    const distBufsize: nat
    ghost var tokens: seq<Token>  // tallied since the last block
    ghost var blocks: seq<Block>  // sent so far

    /** The allocation of the buffers, ct_init and init_block. */
    constructor (writer: BitWriter, litSize: nat, distSize: nat)
      requires writer.Valid() && writer.Sent() == []
      requires litSize % 8 == 0 && 0 < litSize <= 32768 && 0 < distSize <= 32768
      ensures w == writer && litBufsize == litSize && distBufsize == distSize
      ensures Steady() && Written() && tokens == [] && blocks == []
      ensures fresh(Parts(b, buf, l, d, bl, sl, sd))
    {
      hide HoldsCodes, FixedLens, FixedDistLens, Tables.Valid, Stream, ShapedParts, ApartParts, Parts, Tallied,
          NoCounts, Pow2;
      var builder, tbuf, ld, dd, bd, slt, sdt := Allocate(litSize, distSize);
      var tb := new Tables();
      w, b, tables, buf := writer, builder, tb, tbuf;
      l, d, bl, sl, sd := ld, dd, bd, slt, sdt;
      litBufsize, distBufsize := litSize, distSize;
      tokens, blocks := [], [];
      new;
      hide Steady, StaticOk;
      NewBlock();
    }

    ghost predicate Shaped()
    {
      ShapedParts(b, buf, l, d, bl, sl, sd, litBufsize, distBufsize)
    }

    /** No two arrays are the same. */
    ghost predicate Apart()
    {
      ApartParts(b, buf, l, d, bl, sl, sd)
    }

    /** The static trees and the tables are those of the format. */
    ghost predicate StaticOk()
      reads sl.fc, sl.dl, sd.fc, sd.dl
    {
      && HoldsCodes(sl, FixedLens()) && HoldsCodes(sd, FixedDistLens()) && tables.Valid()
    }

    /** The buffers and the frequencies describe the tokens. */
    ghost predicate Tallied()
      reads `tokens, buf, buf.lBuf, buf.dBuf, buf.flagBuf, l.dynTree.fc, d.dynTree.fc
    {
      && buf.Holds(tokens) && AllInFormat(tokens)
      && l.dynTree.fc.Length >= L_CODES && l.dynTree.fc[..L_CODES] == LFreq(tokens)
      && d.dynTree.fc.Length >= D_CODES && d.dynTree.fc[..D_CODES] == DFreq(tokens)
    }

    ghost function LL(): seq<nat>
      requires 0 <= l.maxCode < l.dynTree.dl.Length
      reads l, l.dynTree.dl
    {
      l.dynTree.dl[..l.maxCode + 1]
    }

    ghost function DL(): seq<nat>
      requires 0 <= d.maxCode < d.dynTree.dl.Length
      reads d, d.dynTree.dl
    {
      d.dynTree.dl[..d.maxCode + 1]
    }

    /** The literal/length tree holds a complete code for the tokens' symbols. */
    ghost predicate LBuilt()
      requires Shaped()
      reads this, l, l.dynTree.fc, l.dynTree.dl
    {
      && CompleteLens(l.dynTree.dl[..L_CODES], 15, l.maxCode) && HoldsCodes(l.dynTree, LL())
      && CoversUsed(LFreq(tokens), l.dynTree.dl[..L_CODES])
    }

    ghost predicate DBuilt()
      requires Shaped()
      reads this, d, d.dynTree.fc, d.dynTree.dl
    {
      && CompleteLens(d.dynTree.dl[..D_CODES], 15, d.maxCode) && HoldsCodes(d.dynTree, DL())
      && CoversUsed(DFreq(tokens), d.dynTree.dl[..D_CODES])
    }

    lemma BuildableL()
      requires Shaped() && Apart() && StaticOk() && Tallied() && |tokens| < 32768
      ensures b.Buildable(l)
      ensures ExtraIs(b.CostsOf(l), LExtras())
      ensures sl.dl[..L_CODES] == FixedLens()[..L_CODES]
    {
      TotalFreq(tokens);
      assert Pow2(15) >= 286 by { BigEnough(); }
    }

    lemma BuildableD()
      requires Shaped() && Apart() && StaticOk() && d.dynTree.fc[..D_CODES] == DFreq(tokens) && |tokens| < 32768
      ensures b.Buildable(d)
      ensures ExtraIs(b.CostsOf(d), DExtras())
      ensures sd.dl[..D_CODES] == FixedDistLens()
    {
      TotalFreq(tokens);
      assert Pow2(15) >= 286 by { BigEnough(); }
    }

    /** build_tree on the literal/length alphabet. */
    method BuildL()
      requires Shaped() && Apart() && StaticOk() && Tallied() && |tokens| < 32768
      modifies b, b.heap, b.depth, b.blCount, l`maxCode, l.dynTree.fc, l.dynTree.dl
      ensures LBuilt()
      ensures b.optLen == old(b.optLen) + Sum(Products(LFreq(tokens), Weights(l.dynTree.dl[..L_CODES], LExtras())))
      ensures b.staticLen == old(b.staticLen) + Sum(Products(LFreq(tokens), Weights(FixedLens()[..L_CODES], LExtras())))
    {
      hide Sum, Products, Weights, HoldsCodes, LFreq, CostTerms, StaticTerms, CompleteLens, CoversUsed, BuiltOn, XBits,
          ExtraIs;
      BuildableL();
      ghost var c, freq := b.CostsOf(l), l.dynTree.fc[..L_CODES];
      assert c.freq[..L_CODES] == freq;
      var _, _, _ := b.BuildTree(l);
      ghost var lens := l.dynTree.dl[..L_CODES];
      CostIsProducts(c, freq, lens, LExtras());
      StaticIsProducts(c, freq, lens, FixedLens()[..L_CODES], LExtras());
    }

    /** build_tree on the distance alphabet. */
    method BuildD()
      requires Shaped() && Apart() && StaticOk() && |tokens| < 32768 && d.dynTree.fc[..D_CODES] == DFreq(tokens)
      modifies b, b.heap, b.depth, b.blCount, d`maxCode, d.dynTree.fc, d.dynTree.dl
      ensures DBuilt()
      ensures b.optLen == old(b.optLen) + Sum(Products(DFreq(tokens), Weights(d.dynTree.dl[..D_CODES], DExtras())))
      ensures b.staticLen == old(b.staticLen) + Sum(Products(DFreq(tokens), Weights(FixedDistLens(), DExtras())))
    {
      hide Sum, Products, Weights, HoldsCodes, DFreq, CostTerms, StaticTerms, CompleteLens, CoversUsed, BuiltOn, XBits,
          ExtraIs;
      BuildableD();
      ghost var c, freq := b.CostsOf(d), d.dynTree.fc[..D_CODES];
      assert c.freq[..D_CODES] == freq;
      var _, _, _ := b.BuildTree(d);
      ghost var lens := d.dynTree.dl[..D_CODES];
      CostIsProducts(c, freq, lens, DExtras());
      StaticIsProducts(c, freq, lens, FixedDistLens(), DExtras());
    }

    lemma DataTreesDone()
      requires Shaped() && LBuilt() && DBuilt() && AllInFormat(tokens)
      ensures 256 <= l.maxCode < L_CODES && 0 <= d.maxCode < D_CODES
      ensures TokensHaveCodes(LL(), DL(), tokens) && Short(LL()) && Short(DL())
      ensures TokensHaveCodes(FixedLens(), FixedDistLens(), tokens)
      ensures |DataBits(LL(), DL(), tokens)|
           == Sum(Products(LFreq(tokens), Weights(l.dynTree.dl[..L_CODES], LExtras())))
            + Sum(Products(DFreq(tokens), Weights(d.dynTree.dl[..D_CODES], DExtras())))
      ensures |DataBits(FixedLens(), FixedDistLens(), tokens)|
           == Sum(Products(LFreq(tokens), Weights(FixedLens()[..L_CODES], LExtras())))
            + Sum(Products(DFreq(tokens), Weights(FixedDistLens(), DExtras())))
    {
      hide Sum, Products, Weights, HoldsCodes, LFreq, DFreq, CoversUsed, TokensHaveCodes, DataBits, Short, Slots, Pow2;
      var ll, lk := l.dynTree.dl[..L_CODES], l.maxCode + 1;
      var dl, dk := d.dynTree.dl[..D_CODES], d.maxCode + 1;
      CoverTokens(tokens, ll, dl, l.maxCode, d.maxCode);
      assert LL() == ll[..lk] && DL() == dl[..dk];
      FixedHasCodes(tokens);
      DataCost(tokens, ll, dl, lk, dk);
      FixedCost(tokens);
    }

    /** Both data trees; opt_len and static_len are then the exact sizes of the block's data. */
    method BuildDataTrees()
      requires Shaped() && Apart() && StaticOk() && Tallied() && |tokens| < 32768 && b.optLen == 0 == b.staticLen
      modifies b, b.heap, b.depth, b.blCount, l`maxCode, l.dynTree.fc, l.dynTree.dl, d`maxCode, d.dynTree.fc,
          d.dynTree.dl
      ensures LBuilt() && DBuilt()
      ensures l.maxCode >= 256 && TokensHaveCodes(LL(), DL(), tokens) && Short(LL()) && Short(DL())
      ensures TokensHaveCodes(FixedLens(), FixedDistLens(), tokens)
      ensures b.optLen == |DataBits(LL(), DL(), tokens)|
      ensures b.staticLen == |DataBits(FixedLens(), FixedDistLens(), tokens)|
    {
      hide Sum, Products, Weights, LFreq, DFreq, TokensHaveCodes, DataBits, Short, FixedLens, FixedDistLens;
      hide AllInFormat, LExtras, DExtras, LBuilt, DBuilt, StaticOk;
      BuildL();
      BuildD();
      DataTreesDone();
    }

    /** The trees hold the codes that h describes. */
    ghost predicate TreesHold(h: Header)
      reads l, d, l.dynTree.fc, l.dynTree.dl, d.dynTree.fc, d.dynTree.dl, bl.dynTree.fc, bl.dynTree.dl
    {
      && Guarded(l.dynTree, h.ll) && Guarded(d.dynTree, h.dl) && HoldsCodes(bl.dynTree, h.cl)
      && l.maxCode + 1 == |h.ll| && d.maxCode + 1 == |h.dl|
    }

    lemma BothBuilt()
      requires Shaped() && LBuilt() && DBuilt() && 256 <= l.maxCode
      ensures l.maxCode < L_CODES && 0 <= d.maxCode < D_CODES
      ensures Lengths(LL()) && LensOk(LL(), MAX_BITS) && HoldsCodes(l.dynTree, LL())
      ensures Lengths(DL()) && LensOk(DL(), MAX_BITS) && HoldsCodes(d.dynTree, DL())
      ensures LL()[256] > 0
    {
      hide HoldsCodes, Prefix, Slots, Pow2;
      var ll, dl := l.dynTree.dl[..L_CODES], d.dynTree.dl[..D_CODES];
      TrimmedPrefix(ll, 15, l.maxCode);
      TrimmedPrefix(dl, 15, d.maxCode);
      assert LL() == ll[..l.maxCode + 1] && DL() == dl[..d.maxCode + 1];
      EndOccurs(tokens);
    }

    lemma Separate()
      requires Shaped() && Apart()
      ensures {b.heap, b.depth, b.blCount} !! {l.dynTree.fc} !! {l.dynTree.dl} !! {d.dynTree.fc} !! {d.dynTree.dl}
          !! {bl.dynTree.fc} !! {bl.dynTree.dl}
      ensures b.Distinct(bl)
    {
    }

    /** Building trees does not write to x. */
    ghost predicate Untouched(x: array<nat>)
    {
      && x != b.heap && x != b.depth && x != b.blCount && x != l.dynTree.fc && x != l.dynTree.dl
      && x != d.dynTree.fc && x != d.dynTree.dl && x != bl.dynTree.fc && x != bl.dynTree.dl
    }

    ghost predicate NotBuffer(x: array<nat>)
    {
      x != buf.lBuf && x != buf.dBuf && x != buf.flagBuf
    }

    lemma StaticsAreNotBuffers()
      requires Apart()
      ensures NotBuffer(sl.fc) && NotBuffer(sl.dl) && NotBuffer(sd.fc) && NotBuffer(sd.dl)
    {
    }

    lemma Outside()
      requires Apart()
      ensures Untouched(sl.fc) && Untouched(sl.dl) && Untouched(sd.fc) && Untouched(sd.dl)
      ensures Untouched(buf.lBuf) && Untouched(buf.dBuf) && Untouched(buf.flagBuf)
      ensures l != d && l != bl && d != bl
    {
    }

    /** build_bl_tree on the trees just built. */
    method PrepareHeader() returns (maxBlindex: nat, ghost h: Header)
      requires Shaped() && Apart() && LBuilt() && DBuilt() && 256 <= l.maxCode
      requires bl.dynTree.fc[..BL_CODES] == NoCounts()
      modifies b, b.heap, b.depth, b.blCount, bl`maxCode, bl.dynTree.fc, bl.dynTree.dl, l.dynTree.dl, d.dynTree.dl
      ensures TreesHold(h) && HeaderOk(h) && h.hclen == maxBlindex + 1
      ensures h.ll == old(LL()) && h.dl == old(DL())
      ensures b.optLen == old(b.optLen) + |HeaderBits(h)| && b.staticLen == old(b.staticLen)
    {
      hide HoldsCodes, Guarded, HeaderBits, HeaderOk, LensOk, Lengths, NoCounts, LBuilt, DBuilt, BlExtras;
      BothBuilt();
      Separate();
      maxBlindex, h := BuildBlTree(b, l, d, bl, LL(), DL());
    }

    /** The first half of flush_block: all trees; opt_len and static_len are then the exact sizes. */
    method Prepare() returns (maxBlindex: nat, ghost h: Header)
      requires Shaped() && Apart() && StaticOk() && Tallied() && |tokens| < litBufsize
      requires b.optLen == 0 == b.staticLen && bl.dynTree.fc[..BL_CODES] == NoCounts()
      modifies b, b.heap, b.depth, b.blCount, l`maxCode, d`maxCode, bl`maxCode, buf.flagBuf,
               l.dynTree.fc, l.dynTree.dl, d.dynTree.fc, d.dynTree.dl, bl.dynTree.fc, bl.dynTree.dl
      ensures StaticOk() && buf.Holds(tokens) && buf.AllFlags(tokens)
      ensures TreesHold(h) && h.hclen == maxBlindex + 1 && Measured(b.optLen, b.staticLen, h, tokens)
    {
      hide LFreq, DFreq, TokensHaveCodes, DataBits, HeaderBits, HeaderOk, NoCounts;
      hide Short, FixedLens, FixedDistLens, LBuilt, DBuilt, StaticOk, Packed, AllInFormat, BlExtras, TreesHold, Apart,
          TokenBuffer.AllFlags, TokenBuffer.Holds;
      SaveFlags();
      BuildDataTrees();
      Outside();
      maxBlindex, h := PrepareHeader();
    }

    /** Saves the flags of the last, incomplete group of tokens. */
    method SaveFlags()
      requires Shaped() && Apart() && StaticOk() && Tallied() && |tokens| < litBufsize
          && bl.dynTree.fc[..BL_CODES] == NoCounts()
      modifies buf.flagBuf
      ensures StaticOk() && Tallied() && buf.AllFlags(tokens) && bl.dynTree.fc[..BL_CODES] == NoCounts()
    {
      hide LFreq, DFreq, StaticOk, Packed, AllInFormat, NoCounts;
      buf.SaveFlags(tokens);
    }

    /** The block type, then a copy of the data. */
    method SendStored(window: array<byte>, start: nat, storedLen: nat, eof: bool) returns (ghost blk: Block)
      requires w.Valid() && start + storedLen <= window.Length && storedLen < 65536 && window != w.outbuf
      modifies w, w.outbuf
      ensures blk == StoredBlock(window[start..start + storedLen])
      ensures w.Valid() && w.Sent() == old(w.Sent()) + BlockBits(blk, eof, |old(w.Sent())|)
    {
      hide Stream, BytesToBits, Zeros, Padding, ToBits;
      blk := StoredBlock(window[start..start + storedLen]);
      ghost var sent := w.Sent();
      assert Pow2(3) == 8;
      w.SendBits(if eof then 1 else 0, 3);
      w.CopyBlock(window, start, storedLen, true);
      StoredPieces(sent, blk.data, eof);
    }

    method SendFixed(eof: bool) returns (ghost blk: Block)
      requires w.Valid() && StaticOk() && buf.Holds(tokens) && buf.AllFlags(tokens)
      requires TokensHaveCodes(FixedLens(), FixedDistLens(), tokens)
      modifies w, w.outbuf
      ensures blk == FixedBlock(tokens) && BlockOk(blk)
      ensures w.Valid() && w.Sent() == old(w.Sent()) + BlockBits(blk, eof, |old(w.Sent())|)
    {
      hide Stream, ToBits, DataBits, TokensHaveCodes, Short, FixedLens, FixedDistLens, HoldsCodes, TokenBuffer.Holds,
          TokenBuffer.AllFlags;
      blk := FixedBlock(tokens);
      ghost var sent := w.Sent();
      assert Pow2(3) == 8;
      w.SendBits(if eof then 3 else 2, 3);
      FixedShort();
      CompressBlock(w, buf, tables, sl, sd, tokens, FixedLens(), FixedDistLens());
      TypedPieces(sent, blk, eof);
    }

    method SendDynamic(eof: bool, maxBlindex: nat, ghost h: Header) returns (ghost blk: Block)
      requires w.Valid() && StaticOk() && buf.Holds(tokens) && buf.AllFlags(tokens)
      requires TreesHold(h) && h.hclen == maxBlindex + 1 && Encodes(h, tokens)
      modifies w, w.outbuf
      ensures blk == DynamicBlock(h, tokens) && BlockOk(blk)
      ensures w.Valid() && w.Sent() == old(w.Sent()) + BlockBits(blk, eof, |old(w.Sent())|)
    {
      hide Stream, ToBits, DataBits, TokensHaveCodes, Short, FixedLens, FixedDistLens, HoldsCodes, TokenBuffer.Holds,
          TokenBuffer.AllFlags;
      hide HeaderOk, HeaderBits;
      blk := DynamicBlock(h, tokens);
      ghost var sent := w.Sent();
      assert Pow2(3) == 8;
      w.SendBits(if eof then 5 else 4, 3);
      HeaderShort(h);
      SendAllTrees(w, l.dynTree, d.dynTree, bl.dynTree, l.maxCode + 1, d.maxCode + 1, maxBlindex + 1, h);
      CompressBlock(w, buf, tables, l.dynTree, d.dynTree, tokens, h.ll, h.dl);
      TypedPieces(sent, blk, eof);
    }

    /** The second half of flush_block: the cheapest representation is sent. */
    method SendBlock(window: array<byte>, start: int, storedLen: nat, eof: bool, maxBlindex: nat, ghost h: Header,
                     ghost data: Option<seq<byte>>)
      returns (ghost blk: Block)
      requires w.Valid() && StaticOk() && buf.Holds(tokens) && buf.AllFlags(tokens)
      requires TreesHold(h) && h.hclen == maxBlindex + 1 && Measured(b.optLen, b.staticLen, h, tokens)
      requires start + storedLen <= window.Length && window != w.outbuf && data == Stretch(window, start, storedLen)
      requires start >= 0 ==> storedLen < 65536 || |tokens| < 0x4000
      modifies w, w.outbuf
      ensures w.Valid() && Appended(old(w.Sent()), w.Sent(), blk, eof)
      ensures Carries(blk, h, tokens, data)
      ensures Cheapest(blk, h, tokens, data)
    {
      hide Stream, TreesHold, StaticOk, TokenBuffer.Holds, TokenBuffer.AllFlags, HeaderOk, HeaderBits, TokensHaveCodes,
          DataBits, BlockBits;
      hide FixedLens, FixedDistLens, Cheapest, Carries, DynamicSize, FixedSize, BlockOk;
      var optLenb := (b.optLen + 3 + 7) / 8;
      var staticLenb := (b.staticLen + 3 + 7) / 8;
      if staticLenb <= optLenb {
        optLenb := staticLenb;
      }
      if storedLen + 4 <= optLenb && start >= 0 {
        if storedLen >= 65536 {
          StoredFits(tokens, storedLen);
        }
        StoredCheapest(h, tokens, window[start..start + storedLen]);
        blk := SendStored(window, start, storedLen, eof);
      } else if staticLenb == optLenb {
        FixedCheapest(h, tokens, data);
        blk := SendFixed(eof);
      } else {
        DynamicCheapest(h, tokens, data);
        blk := SendDynamic(eof, maxBlindex, h);
      }
    }

    /** init_block. */
    method InitBlock()
      requires Shaped() && Apart()
      modifies `tokens, b`optLen, b`staticLen, buf, l.dynTree.fc, d.dynTree.fc, bl.dynTree.fc
      ensures tokens == [] && Tallied() && b.optLen == 0 == b.staticLen && bl.dynTree.fc[..BL_CODES] == NoCounts()
    {
      hide TokenBuffer.Holds, Apart, LFreq, DFreq;
      Outside();
      Separate();
      ResetTrees(l.dynTree.fc, d.dynTree.fc, bl.dynTree.fc);
      b.optLen, b.staticLen := 0, 0;
      buf.Clear();
      tokens := [];
    }

    /** Between operations: the trees count the tokens of the current block. */
    ghost predicate Steady()
      reads `tokens, b, buf, buf.lBuf, buf.dBuf, buf.flagBuf, l.dynTree.fc, d.dynTree.fc, bl.dynTree.fc, sl.fc, sl.dl,
          sd.fc, sd.dl
    {
      && Shaped() && Apart() && StaticOk() && Tallied()
      && b.optLen == 0 == b.staticLen && bl.dynTree.fc[..BL_CODES] == NoCounts()
      && |tokens| < litBufsize
    }

    /** The bits sent are exactly those of the blocks. */
    ghost predicate Written()
      reads this, w, w.outbuf
    {
      w.Valid() && BlocksOk(blocks) && w.Sent() == OpenBits(blocks)
    }

    /** flush_block up to init_block. */
    method PrepareAndSend(window: array<byte>, start: int, storedLen: nat, eof: bool, ghost data: Option<seq<byte>>)
      returns (ghost blk: Block, ghost h: Header)
      requires Steady() && w.Valid()
      requires start + storedLen <= window.Length && window != w.outbuf && data == Stretch(window, start, storedLen)
      requires start >= 0 ==> storedLen < 65536 || |tokens| < 0x4000
      modifies w, w.outbuf, b, b.heap, b.depth, b.blCount, l`maxCode, d`maxCode, bl`maxCode, buf.flagBuf,
               l.dynTree.fc, l.dynTree.dl, d.dynTree.fc, d.dynTree.dl, bl.dynTree.fc, bl.dynTree.dl
      ensures StaticOk() && w.Valid()
      ensures BlockOk(blk) && w.Sent() == old(w.Sent()) + BlockBits(blk, eof, |old(w.Sent())|)
      ensures Carries(blk, h, tokens, data)
      ensures Cheapest(blk, h, tokens, data)
    {
      hide Stream, TreesHold, StaticOk, TokenBuffer.Holds, TokenBuffer.AllFlags, BlockBits, Cheapest, Carries, BlockOk,
          Measured,
           Tallied, NoCounts, Apart, Shaped;
      var maxBlindex;
      maxBlindex, h := Prepare();
      blk := SendBlock(window, start, storedLen, eof, maxBlindex, h, data);
    }

    ghost function Footprint(): set<object>
    {
      {this, w, w.outbuf, b, b.heap, b.depth, b.blCount, l, d, bl, buf, buf.lBuf, buf.dBuf, buf.flagBuf,
       l.dynTree.fc, l.dynTree.dl, d.dynTree.fc, d.dynTree.dl, bl.dynTree.fc, bl.dynTree.dl, sl.fc, sl.dl, sd.fc, sd.dl}
    }

    /** Sends the block and clears the statistics, on the objects that change. */
    method SendAndClear(window: array<byte>, start: int, storedLen: nat, eof: bool, ghost data: Option<seq<byte>>)
      returns (ghost blk: Block, ghost h: Header)
      requires Steady() && w.Valid()
      requires start + storedLen <= window.Length && window != w.outbuf && data == Stretch(window, start, storedLen)
      requires start >= 0 ==> storedLen < 65536 || |tokens| < 0x4000
      modifies `tokens, w, w.outbuf, b, b.heap, b.depth, b.blCount, l`maxCode, d`maxCode, bl`maxCode, buf, buf.flagBuf,
               l.dynTree.fc, l.dynTree.dl, d.dynTree.fc, d.dynTree.dl, bl.dynTree.fc, bl.dynTree.dl
      ensures blocks == old(blocks)
      ensures Steady() && tokens == [] && w.Valid()
      ensures BlockOk(blk) && w.Sent() == old(w.Sent()) + BlockBits(blk, eof, |old(w.Sent())|)
      ensures Carries(blk, h, old(tokens), data)
      ensures Cheapest(blk, h, old(tokens), data)
    {
      hide Stream, StaticOk, BlockBits, Cheapest, Carries, BlockOk, Apart, Shaped, Tallied, NoCounts, TokenBuffer.Holds;
      assert Shaped() && Apart();
      blk, h := PrepareAndSend(window, start, storedLen, eof, data);
      hide Steady;
      NewBlock();
    }

    /** All of flush_block except the final padding. */
    method EmitBlock(window: array<byte>, start: int, storedLen: nat, eof: bool, ghost data: Option<seq<byte>>)
      returns (ghost blk: Block, ghost h: Header)
      requires Steady() && w.Valid()
      requires start + storedLen <= window.Length && window != w.outbuf && data == Stretch(window, start, storedLen)
      requires start >= 0 ==> storedLen < 65536 || |tokens| < 0x4000
      modifies Footprint()
      ensures blocks == old(blocks)
      ensures Steady() && tokens == [] && w.Valid()
      ensures BlockOk(blk) && w.Sent() == old(w.Sent()) + BlockBits(blk, eof, |old(w.Sent())|)
      ensures Carries(blk, h, old(tokens), data)
      ensures Cheapest(blk, h, old(tokens), data)
    {
      hide Stream, Steady, BlockBits, Cheapest, Carries, BlockOk;
      blk, h := SendAndClear(window, start, storedLen, eof, data);
    }

    method NewBlock()
      requires Shaped() && Apart() && StaticOk() && w.Valid()
      modifies `tokens, b`optLen, b`staticLen, buf, l.dynTree.fc, d.dynTree.fc, bl.dynTree.fc
      ensures Steady() && tokens == [] && w.Valid() && w.Sent() == old(w.Sent())
    {
      hide Stream, StaticOk, Tallied, NoCounts, Apart, TokenBuffer.Holds;
      Outside();
      InitBlock();
    }

    /** The encoder's state between operations. */
    ghost predicate Standing()
      reads Footprint()
    {
      Steady() && Written()
    }

    /** flush_block: one more block, which stands for data. After the last one, the bytes written are a
        complete stream for done and data. */
    method FlushBlock(window: array<byte>, start: int, storedLen: nat, eof: bool, ghost done: seq<byte>,
        ghost data: seq<byte>)
      requires Steady() && Written()
      requires start + storedLen <= window.Length && window != w.outbuf && |data| == storedLen
      requires start >= 0 ==> data == window[start..start + storedLen] && (storedLen < 65536 || |tokens| < 0x4000)
      requires Output(blocks) == Some(done) && Expand(done, tokens) == Some(done + data)
      modifies Footprint()
      ensures !eof ==> Steady() && Written() && tokens == [] && Output(blocks) == Some(done + data)
      ensures !eof ==> AddsBlock(old(blocks), old(tokens), old(Stretch(window, start, storedLen)), blocks)
      ensures eof ==> w.Valid() && w.biValid == 0 && Decodes(w.Bytes(), done + data)
    {
      hide Steady, BlocksOk, BlockOk, OpenBits, BlockBits, Output, BlockOutput, Carries, Cheapest, Expand, Stream,
          Decodes, AddsBlock;
      ghost var ts := tokens;
      ghost var stretch := Stretch(window, start, storedLen);
      ghost var blk, h := EmitBlock(window, start, storedLen, eof, stretch);
      Carried(blk, h, ts, stretch, done, data);
      if eof {
        w.BiWindup();
        WholeStream(blocks, blk, w.Bytes(), w.biBuf, done, data);
      } else {
        OneMore(blocks, blk);
        BlockAdded(blocks, ts, stretch, blk, h);
        blocks := blocks + [blk];
      }
    }

    // ---------- tallying ----------

    /** The frequencies after one more token. */
    method CountToken(dist: nat, lc: nat, ghost t: Token)
      requires Shaped() && Apart() && StaticOk() && InFormat(t)
      requires lc < 256 && t == if dist == 0 then Literal(lc) else Match(lc + MIN_MATCH, dist)
      requires l.dynTree.fc[..L_CODES] == LFreq(tokens) && d.dynTree.fc[..D_CODES] == DFreq(tokens)
      modifies l.dynTree.fc, d.dynTree.fc
      ensures l.dynTree.fc[..L_CODES] == LFreq(tokens + [t]) && d.dynTree.fc[..D_CODES] == DFreq(tokens + [t])
    {
      hide LFreq, DFreq, StaticOk, LengthCode, DistCode;
      Separate();
      LFreqAppend(tokens, t);
      assert tables.Valid() by { TablesOk(); }
      if dist == 0 {
        Increment(l.dynTree.fc, lc, L_CODES);
      } else {
        var code, _, _ := tables.LengthCodeOf(lc);
        var dcode, _, _ := tables.DistCodeOf(dist - 1);
        Increment(l.dynTree.fc, code + LITERALS + 1, L_CODES);
        Increment(d.dynTree.fc, dcode, D_CODES);
      }
    }

    lemma TablesOk()
      requires StaticOk()
      ensures tables.Valid()
    {
    }

    /** Is it profitable to stop the current block here, after inLength bytes? */
    method StopHere(inLength: nat) returns (stop: bool)
      requires Shaped() && Tallied()
      ensures stop <==> StopsEarly(tokens, inLength)
    {
      hide LitsPacked, FlagsPacked, Products, DFreq, LFreq, AllInFormat, FixedDistLens;
      stop := false;
      if buf.lastLit % 0x1000 == 0 {
        var outLength := EstimateBits(d.dynTree.fc, buf.lastLit);
        stop := buf.lastDist < buf.lastLit / 2 && outLength / 8 < inLength / 2;
      }
    }

    method Record(dist: nat, lc: nat, inLength: nat, ghost t: Token) returns (flush: bool)
      requires Steady() && |tokens| < litBufsize - 1 && Matches(tokens) < distBufsize && InFormat(t)
      requires lc < 256 && t == if dist == 0 then Literal(lc) else Match(lc + MIN_MATCH, dist)
      modifies `tokens, buf, buf.lBuf, buf.dBuf, buf.flagBuf, l.dynTree.fc, d.dynTree.fc
      ensures Steady() && tokens == old(tokens) + [t]
      ensures flush <==> StopsEarly(tokens, inLength) || |tokens| == litBufsize - 1 || Matches(tokens) == distBufsize
      ensures Matches(tokens) <= distBufsize
    {
      hide StaticOk, NoCounts, Apart, LFreq, DFreq, LitsPacked, FlagsPacked, AllInFormat, StopsEarly, InFormat;
      Outside();
      StaticsAreNotBuffers();
      Separate();
      AppendFormat(tokens, t);
      CountToken(dist, lc, t);
      buf.Store(dist, lc, tokens, t);
      tokens := tokens + [t];
      var stop := StopHere(inLength);
      flush := stop || buf.lastLit == litBufsize - 1 || buf.lastDist == distBufsize;
    }

    /** ct_tally: one more token; tells whether the block must be flushed. */
    method Tally(dist: nat, lc: nat, inLength: nat, ghost t: Token) returns (flush: bool)
      requires Steady() && Written() && |tokens| < litBufsize - 1 && Matches(tokens) < distBufsize && InFormat(t)
      requires lc < 256 && t == if dist == 0 then Literal(lc) else Match(lc + MIN_MATCH, dist)
      modifies Footprint()
      ensures Steady() && Written() && tokens == old(tokens) + [t] && blocks == old(blocks)
      ensures flush <==> StopsEarly(tokens, inLength) || |tokens| == litBufsize - 1 || Matches(tokens) == distBufsize
      ensures Matches(tokens) <= distBufsize
    {
      hide Steady, OpenBits, BlocksOk, StopsEarly, InFormat, Stream;
      flush := Record(dist, lc, inLength, t);
    }
  }

  ghost predicate ShapedParts(b: HuffmanBuilder, buf: TokenBuffer, l: TreeDesc, d: TreeDesc, bl: TreeDesc, sl: CtData,
      sd: CtData,
                              litBufsize: nat, distBufsize: nat)
  {
    && l.elems == L_CODES && l.maxLength == 15 && l.extraBits == LENGTH_EXTRA && l.extraBase == 257
    && d.elems == D_CODES && d.maxLength == 15 && d.extraBits == DIST_EXTRA && d.extraBase == 0
    && bl.elems == BL_CODES && bl.maxLength == 7 && bl.extraBits == BlExtras() && bl.extraBase == 0
    && l.staticTree == sl && d.staticTree == sd && bl.staticTree == null
    && l.dynTree.fc.Length == 2 * L_CODES + 1 == l.dynTree.dl.Length
    && d.dynTree.fc.Length == 2 * D_CODES + 1 == d.dynTree.dl.Length
    && bl.dynTree.fc.Length == 2 * BL_CODES + 1 == bl.dynTree.dl.Length
    && sl.fc.Length == 288 == sl.dl.Length && sd.fc.Length == D_CODES == sd.dl.Length
    && b.heap.Length == 2 * L_CODES + 1 == b.depth.Length && b.blCount.Length == MAX_BITS + 1
    && buf.Sized(litBufsize, distBufsize) && litBufsize <= 32768 && distBufsize <= 32768
  }

  ghost predicate ApartParts(b: HuffmanBuilder, buf: TokenBuffer, l: TreeDesc, d: TreeDesc, bl: TreeDesc, sl: CtData,
      sd: CtData)
  {
    && l != d && l != bl && d != bl
    && b.heap != b.depth && b.heap != b.blCount && b.depth != b.blCount
    && {l.dynTree.fc} !! {l.dynTree.dl} !! {d.dynTree.fc} !! {d.dynTree.dl} !! {bl.dynTree.fc} !! {bl.dynTree.dl}
       !! {b.heap, b.depth, b.blCount} !! {sl.fc, sl.dl, sd.fc, sd.dl} !! {buf.lBuf, buf.dBuf, buf.flagBuf}
    && sl.fc != sl.dl && sd.fc != sd.dl
  }

  /** The static trees; the builder's bl_count serves for their codes. */
  method NewStatics() returns (b: HuffmanBuilder, sl: CtData, sd: CtData)
    ensures fresh(b) && fresh(sl) && fresh(sd)
    ensures fresh(b.heap) && fresh(b.depth) && fresh(b.blCount) && fresh(sl.fc) && fresh(sl.dl) && fresh(sd.fc)
        && fresh(sd.dl)
    ensures b.heap.Length == 2 * L_CODES + 1 == b.depth.Length && b.blCount.Length == MAX_BITS + 1
    ensures sl.fc.Length == 288 == sl.dl.Length && sd.fc.Length == D_CODES == sd.dl.Length
    ensures b.heap != b.depth && b.heap != b.blCount && b.depth != b.blCount
    ensures {b.heap, b.depth, b.blCount} !! {sl.fc} !! {sl.dl} !! {sd.fc} !! {sd.dl}
    ensures HoldsCodes(sl, FixedLens()) && HoldsCodes(sd, FixedDistLens())
  {
    hide HoldsCodes, FixedLens, FixedDistLens;
    b := new HuffmanBuilder(2 * L_CODES + 1);
    sl := new CtData(288);
    sd := new CtData(D_CODES);
    InitStaticL(sl, b.blCount);
    InitStaticD(sd);
  }

  method NewTrees(sl: CtData, sd: CtData) returns (l: TreeDesc, d: TreeDesc, bl: TreeDesc)
    ensures fresh(l) && fresh(d) && fresh(bl) && l != d && l != bl && d != bl
    ensures fresh(l.dynTree.fc) && fresh(l.dynTree.dl) && fresh(d.dynTree.fc) && fresh(d.dynTree.dl)
    ensures fresh(bl.dynTree.fc) && fresh(bl.dynTree.dl)
    ensures {l.dynTree.fc} !! {l.dynTree.dl} !! {d.dynTree.fc} !! {d.dynTree.dl} !! {bl.dynTree.fc} !! {bl.dynTree.dl}
    ensures l.elems == L_CODES && l.maxLength == 15 && l.extraBits == LENGTH_EXTRA && l.extraBase == 257
    ensures d.elems == D_CODES && d.maxLength == 15 && d.extraBits == DIST_EXTRA && d.extraBase == 0
    ensures bl.elems == BL_CODES && bl.maxLength == 7 && bl.extraBits == BlExtras() && bl.extraBase == 0
    ensures l.staticTree == sl && d.staticTree == sd && bl.staticTree == null
    ensures l.dynTree.fc.Length == 2 * L_CODES + 1 == l.dynTree.dl.Length
    ensures d.dynTree.fc.Length == 2 * D_CODES + 1 == d.dynTree.dl.Length
    ensures bl.dynTree.fc.Length == 2 * BL_CODES + 1 == bl.dynTree.dl.Length
  {
    var lt := new CtData(2 * L_CODES + 1);
    var dt := new CtData(2 * D_CODES + 1);
    var blt := new CtData(2 * BL_CODES + 1);
    l := new TreeDesc(lt, sl, LENGTH_EXTRA, 257, L_CODES, 15);
    d := new TreeDesc(dt, sd, DIST_EXTRA, 0, D_CODES, 15);
    bl := new TreeDesc(blt, null, BlExtras(), 0, BL_CODES, 7);
  }

  method Allocate(litSize: nat, distSize: nat)
    returns (b: HuffmanBuilder, buf: TokenBuffer, l: TreeDesc, d: TreeDesc, bl: TreeDesc, sl: CtData, sd: CtData)
    requires litSize % 8 == 0 && 0 < litSize <= 32768 && distSize <= 32768
    ensures ShapedParts(b, buf, l, d, bl, sl, sd, litSize, distSize) && ApartParts(b, buf, l, d, bl, sl, sd)
    ensures HoldsCodes(sl, FixedLens()) && HoldsCodes(sd, FixedDistLens())
    ensures fresh(Parts(b, buf, l, d, bl, sl, sd))
    ensures fresh(b) && fresh(buf) && fresh(l.dynTree.fc) && fresh(d.dynTree.fc) && fresh(bl.dynTree.fc)
  {
    hide HoldsCodes, FixedLens, FixedDistLens, TokenBuffer.Holds, BlExtras;
    b, sl, sd := NewStatics();
    l, d, bl := NewTrees(sl, sd);
    buf := new TokenBuffer(litSize, distSize);
  }

  ghost function Parts(b: HuffmanBuilder, buf: TokenBuffer, l: TreeDesc, d: TreeDesc, bl: TreeDesc, sl: CtData,
      sd: CtData): set<object>
  {
    {b, b.heap, b.depth, b.blCount, l, d, bl, buf, buf.lBuf, buf.dBuf, buf.flagBuf,
     l.dynTree.fc, l.dynTree.dl, d.dynTree.fc, d.dynTree.dl, bl.dynTree.fc, bl.dynTree.dl, sl.fc, sl.dl, sd.fc, sd.dl}
  }

  /** Fills one stretch of the static literal lengths. */
  method FillLens(tree: CtData, from: nat, to: nat, len: nat)
    requires from <= to <= tree.dl.Length
    modifies tree.dl
    ensures forall i :: from <= i < to ==> tree.dl[i] == len
    ensures forall i :: 0 <= i < tree.dl.Length && !(from <= i < to) ==> tree.dl[i] == old(tree.dl[i])
  {
    var n := from;
    while n < to
      invariant from <= n <= to
      invariant forall i :: from <= i < n ==> tree.dl[i] == len
      invariant forall i :: 0 <= i < tree.dl.Length && !(from <= i < n) ==> tree.dl[i] == old(tree.dl[i])
    {
      tree.dl[n] := len;
      n := n + 1;
    }
  }

  /** The static literal tree of ct_init. */
  method InitStaticL(tree: CtData, blCount: array<nat>)
    requires tree.fc.Length == 288 == tree.dl.Length && tree.fc != tree.dl && blCount != tree.fc && blCount != tree.dl
    requires blCount.Length == MAX_BITS + 1 && forall i :: 0 <= i < blCount.Length ==> blCount[i] == 0
    modifies tree.fc, tree.dl, blCount
    ensures HoldsCodes(tree, FixedLens())
  {
    hide SentCode;
    FillLens(tree, 0, 144, 8);
    FillLens(tree, 144, 256, 9);
    FillLens(tree, 256, 280, 7);
    FillLens(tree, 280, 288, 8);
    blCount[7] := 279 - 255;
    blCount[8] := (143 + 1) + (287 - 279);
    blCount[9] := 255 - 143;
    assert tree.dl[..288] == FixedLens();
    forall len | 1 <= len <= MAX_BITS
      ensures blCount[len] == Count(FixedLens(), len, 288)
    {
      FixedCounts(len, 288);
    }
    GenCodes(blCount, tree, 287, FixedLens());
  }

  lemma FixedDistCode(n: nat)
    requires n < D_CODES
    ensures Code(FixedDistLens(), n) == n
    ensures SentCode(FixedDistLens(), n) == FromBits(MsbBits(n, 5))
  {
    FixedDistSlots(4);
    FixedDistCounts(5, n);
  }

  /** The static distance tree of ct_init. */
  method InitStaticD(tree: CtData)
    requires tree.fc.Length == D_CODES == tree.dl.Length && tree.fc != tree.dl
    modifies tree.fc, tree.dl
    ensures HoldsCodes(tree, FixedDistLens())
  {
    hide SentCode, MsbBits, FromBits;
    var n := 0;
    while n < D_CODES
      invariant n <= D_CODES
      invariant forall s :: 0 <= s < n ==> tree.dl[s] == 5 && tree.fc[s] == SentCode(FixedDistLens(), s)
    {
      FixedDistCode(n);
      tree.dl[n] := 5;
      var code := BiReverse(n, 5);
      tree.fc[n] := code;
      n := n + 1;
    }
  }

  ghost predicate AllInFormat(ts: seq<Token>)
  {
    forall i :: 0 <= i < |ts| ==> InFormat(ts[i])
  }

  /** All three representations of the tokens are possible. */
  ghost predicate Encodes(h: Header, ts: seq<Token>)
  {
    HeaderOk(h) && TokensHaveCodes(h.ll, h.dl, ts) && TokensHaveCodes(FixedLens(), FixedDistLens(), ts)
  }

  ghost function DynamicSize(h: Header, ts: seq<Token>): nat
    requires Encodes(h, ts)
  {
    |HeaderBits(h)| + |DataBits(h.ll, h.dl, ts)|
  }

  ghost function FixedSize(ts: seq<Token>): nat
    requires TokensHaveCodes(FixedLens(), FixedDistLens(), ts)
  {
    |DataBits(FixedLens(), FixedDistLens(), ts)|
  }

  lemma StoredPieces(sent: seq<bool>, data: seq<byte>, eof: bool)
    requires |data| < 65536
    ensures var typed := sent + ToBits(if eof then 1 else 0, 3);
            typed + Zeros(Padding(|typed|)) + (ToBits(|data|, 16) + ToBits(65535 - |data|, 16)) + BytesToBits(data)
            == sent + BlockBits(StoredBlock(data), eof, |sent|)
  {
    hide *;
    StoredBlockBits(data, eof, |sent|);
    var t := ToBits(if eof then 1 else 0, 3);
    var z := Zeros(Padding(|sent| + 3));
    Regrouped(sent, t, z, ToBits(|data|, 16), ToBits(65535 - |data|, 16), BytesToBits(data));
    assert |sent + t| == |sent| + 3 by { TypeLength(eof); }
  }

  lemma TypeLength(eof: bool)
    ensures |ToBits(if eof then 1 else 0, 3)| == 3
  {
  }

  lemma StoredBlockBits(data: seq<byte>, eof: bool, n: nat)
    requires |data| < 65536
    ensures BlockOk(StoredBlock(data))
    ensures BlockBits(StoredBlock(data), eof, n)
         == ToBits(if eof then 1 else 0, 3)
          + (Zeros(Padding(n + 3)) + (ToBits(|data|, 16) + (ToBits(65535 - |data|, 16) + BytesToBits(data))))
  {
    hide ToBits, Zeros, Padding, BytesToBits, DataBits, HeaderBits, TokensHaveCodes, HeaderOk, FixedLens, FixedDistLens;
    assert BlockKind(StoredBlock(data)) == 0;
    assert BodyBits(StoredBlock(data), n + 3) == StoredBits(data, n + 3);
  }

  lemma Regrouped(a: seq<bool>, b: seq<bool>, c: seq<bool>, d: seq<bool>, e: seq<bool>, f: seq<bool>)
    ensures a + b + c + (d + e) + f == a + (b + (c + (d + (e + f))))
  {
    Regroup3(d, e, f);
    Regroup3(a + b + c, d + e, f);
    Regroup3(a + b, c, d + e + f);
    Regroup3(a, b, c + (d + e + f));
  }

  lemma TypedPieces(sent: seq<bool>, blk: Block, eof: bool)
    requires BlockOk(blk) && !blk.StoredBlock?
    ensures var typed := sent + ToBits(2 * BlockKind(blk) + (if eof then 1 else 0), 3);
            sent + BlockBits(blk, eof, |sent|) ==
            if blk.FixedBlock? then typed + DataBits(FixedLens(), FixedDistLens(), blk.tokens)
            else typed + HeaderBits(blk.header) + DataBits(blk.header.ll, blk.header.dl, blk.tokens)
  {
    hide ToBits, DataBits, HeaderBits, HeaderOk, TokensHaveCodes;
  }

  lemma FixedShort()
    ensures Short(FixedLens()) && Short(FixedDistLens())
  {
  }

  lemma HeaderShort(h: Header)
    requires HeaderOk(h)
    ensures Short(h.ll) && Short(h.dl)
  {
  }

  /** The two computed sizes are exact. */
  ghost predicate Measured(optLen: int, staticLen: int, h: Header, ts: seq<Token>)
  {
    Encodes(h, ts) && optLen == DynamicSize(h, ts) && staticLen == FixedSize(ts)
  }

  /** The bits of a block follow what was sent before. */
  ghost predicate Appended(before: seq<bool>, after: seq<bool>, blk: Block, eof: bool)
  {
    BlockOk(blk) && after == before + BlockBits(blk, eof, |before|)
  }

  /** The bytes of a block, unless they have left the window. */
  ghost function Stretch(window: array<byte>, start: int, len: nat): Option<seq<byte>>
    requires start + len <= window.Length
    reads window
  {
    if start >= 0 then Some(window[start..start + len]) else None
  }

  /** What a block takes in bytes, as flush_block measures it. */
  ghost function SizeInBytes(blk: Block): nat
    requires BlockOk(blk)
  {
    match blk
    case StoredBlock(data) => |data| + 4
    case FixedBlock(ts) => (FixedSize(ts) + 3 + 7) / 8
    case DynamicBlock(h, ts) => (|HeaderBits(h)| + |DataBits(h.ll, h.dl, ts)| + 3 + 7) / 8
  }

  /** The measure is off by less than three bytes: it counts neither the type of a stored block nor the padding before
      its length, and rounds the others up. */
  lemma SizeNear(blk: Block, final: bool, before: nat)
    requires BlockOk(blk)
    ensures |BlockBits(blk, final, before)| - 10 <= 8 * SizeInBytes(blk) <= |BlockBits(blk, final, before)| + 7
  {
    hide HeaderOk, HeaderBits, TokensHaveCodes, DataBits, FixedLens, FixedDistLens, ToBits, StoredBits;
    if blk.StoredBlock? {
      StoredLength(blk.data, before + 3);
    }
  }

  lemma StoredLength(data: seq<byte>, before: nat)
    requires |data| < 65536
    ensures 8 * |data| + 32 <= |StoredBits(data, before)| <= 8 * |data| + 39
  {
  }

  /** A block carries the tokens, or the data they stand for when that is at hand. */
  ghost predicate Carries(blk: Block, h: Header, ts: seq<Token>, data: Option<seq<byte>>)
  {
    match blk
    case StoredBlock(stored) => data == Some(stored)
    case FixedBlock(us) => us == ts
    case DynamicBlock(g, us) => g == h && us == ts
  }

  /** One more block, which carries the tokens or the data in the cheapest way. */
  ghost predicate AddsBlock(bs: seq<Block>, ts: seq<Token>, data: Option<seq<byte>>, bs': seq<Block>)
  {
    exists blk: Block, h: Header :: bs' == bs + [blk] && Carries(blk, h, ts, data) && Cheapest(blk, h, ts, data)
  }

  lemma BlockAdded(bs: seq<Block>, ts: seq<Token>, data: Option<seq<byte>>, blk: Block, h: Header)
    requires Carries(blk, h, ts, data) && Cheapest(blk, h, ts, data)
    ensures AddsBlock(bs, ts, data, bs + [blk])
  {
    hide Carries, Cheapest;
  }

  /** No representation at hand is smaller than blk. */
  ghost predicate Cheapest(blk: Block, h: Header, ts: seq<Token>, data: Option<seq<byte>>)
  {
    && BlockOk(blk) && Encodes(h, ts)
    && SizeInBytes(blk) <= SizeInBytes(FixedBlock(ts))
    && SizeInBytes(blk) <= SizeInBytes(DynamicBlock(h, ts))
    && (data.Some? ==> SizeInBytes(blk) <= |data.value| + 4)
  }

  lemma StoredCheapest(h: Header, ts: seq<Token>, data: seq<byte>)
    requires Encodes(h, ts) && |data| < 65536
    requires |data| + 4 <= (FixedSize(ts) + 3 + 7) / 8 && |data| + 4 <= (DynamicSize(h, ts) + 3 + 7) / 8
    ensures BlockOk(StoredBlock(data))
    ensures Carries(StoredBlock(data), h, ts, Some(data)) && Cheapest(StoredBlock(data), h, ts, Some(data))
  {
    hide HeaderOk, HeaderBits, TokensHaveCodes, DataBits, FixedLens, FixedDistLens;
  }

  lemma FixedCheapest(h: Header, ts: seq<Token>, data: Option<seq<byte>>)
    requires Encodes(h, ts) && (FixedSize(ts) + 3 + 7) / 8 <= (DynamicSize(h, ts) + 3 + 7) / 8
    requires data.Some? ==> |data.value| + 4 > (FixedSize(ts) + 3 + 7) / 8
    ensures BlockOk(FixedBlock(ts))
    ensures Carries(FixedBlock(ts), h, ts, data) && Cheapest(FixedBlock(ts), h, ts, data)
  {
    hide HeaderOk, HeaderBits, TokensHaveCodes, DataBits, FixedLens, FixedDistLens;
  }

  lemma DynamicCheapest(h: Header, ts: seq<Token>, data: Option<seq<byte>>)
    requires Encodes(h, ts) && (DynamicSize(h, ts) + 3 + 7) / 8 <= (FixedSize(ts) + 3 + 7) / 8
    requires data.Some? ==> |data.value| + 4 > (DynamicSize(h, ts) + 3 + 7) / 8
    ensures BlockOk(DynamicBlock(h, ts))
    ensures Carries(DynamicBlock(h, ts), h, ts, data) && Cheapest(DynamicBlock(h, ts), h, ts, data)
  {
    hide HeaderOk, HeaderBits, TokensHaveCodes, DataBits, FixedLens, FixedDistLens;
  }

  /** A token takes at most 31 bits in the fixed codes. */
  lemma {:induction false} FixedBound(ts: seq<Token>)
    requires TokensHaveCodes(FixedLens(), FixedDistLens(), ts)
    ensures |TokensBits(FixedLens(), FixedDistLens(), ts)| <= 31 * |ts|
    decreases |ts|
  {
    hide TokenBits, TokenHasCode;
    if ts != [] {
      FixedBound(ts[..|ts| - 1]);
      FixedTokenBound(ts[|ts| - 1]);
    }
  }

  lemma FixedTokenBound(t: Token)
    requires TokenHasCode(FixedLens(), FixedDistLens(), t)
    ensures |TokenBits(FixedLens(), FixedDistLens(), t)| <= 31
  {
    hide LengthCode, DistCode;
    assert forall c :: 0 <= c < 29 ==> LENGTH_EXTRA[c] <= 5;
    assert forall c :: 0 <= c < 30 ==> DIST_EXTRA[c] <= 13;
  }

  /** A block is stored only when its length fits the 16-bit LEN field. */
  lemma StoredFits(ts: seq<Token>, storedLen: nat)
    requires TokensHaveCodes(FixedLens(), FixedDistLens(), ts)
    requires storedLen + 4 <= (FixedSize(ts) + 3 + 7) / 8 && |ts| < 0x4000
    ensures storedLen < 65536
  {
    hide TokensBits;
    FixedBound(ts);
    assert |CodeBits(FixedLens(), 256)| == 7;
  }

  /** The frequencies at the start of a block. */
  method ResetTrees(lf: array<nat>, df: array<nat>, bf: array<nat>)
    requires lf.Length >= L_CODES && df.Length >= D_CODES && bf.Length >= BL_CODES && lf != df && lf != bf && df != bf
    modifies lf, df, bf
    ensures lf[..L_CODES] == LFreq([]) && df[..D_CODES] == DFreq([]) && bf[..BL_CODES] == NoCounts()
  {
    Reset(lf, L_CODES);
    Reset(df, D_CODES);
    Reset(bf, BL_CODES);
    lf[END_BLOCK] := 1;
    assert lf[..L_CODES] == LFreq([]);
    assert df[..D_CODES] == DFreq([]);
  }

  method Reset(a: array<nat>, n: nat)
    requires n <= a.Length
    modifies a
    ensures forall i :: 0 <= i < n ==> a[i] == 0
  {
    var i := 0;
    while i < n
      invariant i <= n && forall k :: 0 <= k < i ==> a[k] == 0
    {
      a[i] := 0;
      i := i + 1;
    }
  }

  /** The reference decoder gives back text, with less than a byte of padding behind the last block. */
  ghost predicate Decodes(bytes: seq<byte>, text: seq<byte>)
  {
    Inflate(bytes).Some? && Inflate(bytes).value.0 == text && |Inflate(bytes).value.1| < 8
  }

  lemma Carried(blk: Block, h: Header, ts: seq<Token>, stretch: Option<seq<byte>>, done: seq<byte>, data: seq<byte>)
    requires Carries(blk, h, ts, stretch) && (stretch.Some? ==> stretch.value == data)
    requires Expand(done, ts) == Some(done + data)
    ensures BlockOutput(done, blk) == Some(done + data)
  {
    hide Expand;
  }

  lemma OneMore(bs: seq<Block>, blk: Block)
    requires BlocksOk(bs) && BlockOk(blk)
    ensures BlocksOk(bs + [blk]) && OpenBits(bs + [blk]) == OpenBits(bs) + BlockBits(blk, false, |OpenBits(bs)|)
    ensures Output(bs).Some? ==> Output(bs + [blk]) == BlockOutput(Output(bs).value, blk)
  {
    hide BlockOk, BlockBits, BlockOutput;
    assert (bs + [blk])[..|bs|] == bs;
  }

  lemma WholeStream(bs: seq<Block>, blk: Block, bytes: seq<byte>, buf: nat, done: seq<byte>, data: seq<byte>)
    requires BlocksOk(bs) && BlockOk(blk) && Output(bs) == Some(done) && BlockOutput(done, blk) == Some(done + data)
    requires var bits := OpenBits(bs) + BlockBits(blk, true, |OpenBits(bs)|);
             Stream(bytes, buf, 0) == bits + Zeros(Padding(|bits|))
    ensures Decodes(bytes, done + data)
  {
    hide BlocksOk, BlockOk, OpenBits, BlockBits, Output, BlockOutput, Padding, Inflate;
    assert Stream(bytes, buf, 0) == BytesToBits(bytes);
    StreamDecodes(bs, blk, bytes);
    PadShort(|OpenBits(bs) + BlockBits(blk, true, |OpenBits(bs)|)|);
  }

  lemma PadShort(n: nat)
    ensures |Zeros(Padding(n))| < 8
  {
  }

  method Increment(a: array<nat>, s: nat, n: nat)
    requires s < n <= a.Length
    modifies a
    ensures a[..n] == Bump(old(a[..n]), s)
  {
    a[s] := a[s] + 1;
  }

  /** The guess that more than half of the input of a block is saved, made every 4096 tokens. */
  ghost predicate StopsEarly(ts: seq<Token>, inLength: nat)
  {
    && |ts| % 0x1000 == 0 && Matches(ts) < |ts| / 2
    && (8 * |ts| + Sum(Products(DFreq(ts), Weights(FixedDistLens(), DExtras())))) / 8 < inLength / 2
  }

  lemma NextProduct(freq: seq<nat>, dcode: nat)
    requires |freq| == D_CODES && dcode < D_CODES
    ensures var ps := Products(freq, Weights(FixedDistLens(), DExtras()));
            Sum(ps[..dcode + 1]) == Sum(ps[..dcode]) + freq[dcode] * (5 + DIST_EXTRA[dcode])
  {
    hide Sum;
    var ps := Products(freq, Weights(FixedDistLens(), DExtras()));
    SumAppend(ps[..dcode], ps[dcode]);
    assert ps[..dcode] + [ps[dcode]] == ps[..dcode + 1];
  }

  /** Eight bits a literal or length, and the fixed codes for the distances. */
  method EstimateBits(fc: array<nat>, lits: nat) returns (bits: nat)
    requires fc.Length >= D_CODES
    ensures bits == 8 * lits + Sum(Products(fc[..D_CODES], Weights(FixedDistLens(), DExtras())))
  {
    hide Products, Weights, FixedDistLens, DExtras;
    ghost var freq := fc[..D_CODES];
    ghost var ps := Products(freq, Weights(FixedDistLens(), DExtras()));
    bits := lits * 8;
    var dcode := 0;
    while dcode < D_CODES
      invariant dcode <= D_CODES && bits == 8 * lits + Sum(ps[..dcode])
    {
      NextProduct(freq, dcode);
      bits := bits + fc[dcode] * (5 + DIST_EXTRA[dcode]);
      dcode := dcode + 1;
    }
    assert ps[..D_CODES] == ps;
  }

  lemma AppendFormat(ts: seq<Token>, t: Token)
    requires AllInFormat(ts) && InFormat(t)
    ensures AllInFormat(ts + [t]) && |ts + [t]| == |ts| + 1
    ensures Matches(ts + [t]) == Matches(ts) + (if t.Match? then 1 else 0)
  {
    assert (ts + [t])[..|ts|] == ts;
  }

  // ---------- codes for all tokens ----------

  /** Lengths that cover the symbols that occur give every token a code. */
  lemma CoverTokens(ts: seq<Token>, ll: seq<nat>, dl: seq<nat>, lmax: int, dmax: int)
    requires AllInFormat(ts) && |ll| == L_CODES && |dl| == D_CODES
    requires CoversUsed(LFreq(ts), ll) && CompleteLens(ll, 15, lmax)
    requires CoversUsed(DFreq(ts), dl) && CompleteLens(dl, 15, dmax)
    ensures lmax >= 256 && TokensHaveCodes(ll[..lmax + 1], dl[..dmax + 1], ts)
    ensures Short(ll[..lmax + 1]) && Short(dl[..dmax + 1])
  {
    hide LengthCode, DistCode, Slots, Pow2;
    EndOccurs(ts);
    forall i | 0 <= i < |ts|
      ensures TokenHasCode(ll[..lmax + 1], dl[..dmax + 1], ts[i])
    {
      FreqMonotone(ts, i);
    }
  }

  lemma FixedHasCodes(ts: seq<Token>)
    requires AllInFormat(ts)
    ensures TokensHaveCodes(FixedLens(), FixedDistLens(), ts)
    ensures Short(FixedLens()) && Short(FixedDistLens())
  {
    hide LengthCode, DistCode;
  }

  lemma BigEnough()
    ensures Pow2(15) == 32768
  {
    Pow2Add(8, 7);
    assert Pow2(8) == 256 && Pow2(7) == 128;
  }
}
