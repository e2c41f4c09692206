/** The bit strings of DEFLATE blocks, and the proof that the reference decoder undoes them. */
module Blocks {
  import opened Sums
  import opened Bits
  import opened BitWriting
  import opened Options
  import opened Canonical
  import opened Rfc1951
  import opened RunLength

  const MAX_BL_BITS := 7
  const MIN_MATCH := 3
  const MAX_MATCH := 258

  /** The last index up to c whose entry is at most x. */
  function LastAtMost(table: seq<nat>, x: nat, c: nat): (r: nat)
    requires c < |table|
    ensures r <= c && (r == 0 || table[r] <= x) && (forall i :: r < i <= c ==> x < table[i])
  {
    if c == 0 || table[c] <= x then c else LastAtMost(table, x, c - 1)
  }

  function LengthCode(length: nat): (c: nat)
    ensures c < 29
  {
    LastAtMost(LENGTH_BASE, length, 28)
  }

  function DistCode(distance: nat): (c: nat)
    ensures c < 30
  {
    LastAtMost(DIST_BASE, distance, 29)
  }

  lemma LengthExtraFits(length: nat)
    requires MIN_MATCH <= length <= MAX_MATCH
    ensures var c := LengthCode(length);
            LENGTH_BASE[c] <= length < LENGTH_BASE[c] + Pow2(LENGTH_EXTRA[c])
  {
    var c := LengthCode(length);
    assert Pow2(0) == 1 && Pow2(1) == 2 && Pow2(2) == 4 && Pow2(3) == 8 && Pow2(4) == 16 && Pow2(5) == 32;
    assert c < 28 ==> length < LENGTH_BASE[c + 1];
  }

  lemma DistGaps(c: nat)
    requires c < 29
    ensures DIST_BASE[c + 1] == DIST_BASE[c] + Pow2(DIST_EXTRA[c])
  {
    hide Pow2;
    PowersTo13();
  }

  lemma PowersTo13()
    ensures Pow2(0) == 1 && Pow2(1) == 2 && Pow2(2) == 4 && Pow2(3) == 8 && Pow2(4) == 16
    ensures Pow2(5) == 32 && Pow2(6) == 64 && Pow2(7) == 128 && Pow2(8) == 256 && Pow2(9) == 512
    ensures Pow2(10) == 1024 && Pow2(11) == 2048 && Pow2(12) == 4096 && Pow2(13) == 8192
  {
  }

  lemma DistExtraFits(distance: nat)
    requires 1 <= distance <= 32768
    ensures var c := DistCode(distance);
            DIST_BASE[c] <= distance < DIST_BASE[c] + Pow2(DIST_EXTRA[c])
  {
    var c := DistCode(distance);
    if c < 29 {
      DistGaps(c);
      assert distance < DIST_BASE[c + 1];
    } else {
      PowersTo13();
    }
  }

  // ---------- tokens ----------

  function LengthBits(ll: seq<nat>, length: nat): seq<bool>
    requires 257 + LengthCode(length) < |ll| && LENGTH_BASE[LengthCode(length)] <= length
  {
    var c := LengthCode(length);
    CodeBits(ll, 257 + c) + ToBits(length - LENGTH_BASE[c], LENGTH_EXTRA[c])
  }

  function DistBits(dl: seq<nat>, distance: nat): seq<bool>
    requires DistCode(distance) < |dl| && DIST_BASE[DistCode(distance)] <= distance
  {
    var c := DistCode(distance);
    CodeBits(dl, c) + ToBits(distance - DIST_BASE[c], DIST_EXTRA[c])
  }

  predicate InFormat(t: Token)
  {
    t.Match? ==> MIN_MATCH <= t.length <= MAX_MATCH && 1 <= t.distance <= 32768
  }

  /** The symbols a token needs have codes. */
  predicate TokenHasCode(ll: seq<nat>, dl: seq<nat>, t: Token)
  {
    && InFormat(t)
    && match t
       case Literal(b) => b < |ll| && ll[b] > 0
       case Match(length, distance) =>
         && 257 + LengthCode(length) < |ll| && ll[257 + LengthCode(length)] > 0
         && DistCode(distance) < |dl| && dl[DistCode(distance)] > 0
  }

  predicate TokensHaveCodes(ll: seq<nat>, dl: seq<nat>, ts: seq<Token>)
  {
    && 256 < |ll| && ll[256] > 0
    && forall i :: 0 <= i < |ts| ==> TokenHasCode(ll, dl, ts[i])
  }

  function TokenBits(ll: seq<nat>, dl: seq<nat>, t: Token): seq<bool>
    requires TokenHasCode(ll, dl, t)
  {
    match t
    case Literal(b) => CodeBits(ll, b)
    case Match(length, distance) =>
      LengthExtraFits(length); DistExtraFits(distance);
      LengthBits(ll, length) + DistBits(dl, distance)
  }

  /** The bits of all tokens, without end-of-block. */
  function TokensBits(ll: seq<nat>, dl: seq<nat>, ts: seq<Token>): seq<bool>
    requires forall i :: 0 <= i < |ts| ==> TokenHasCode(ll, dl, ts[i])
  {
    if ts == [] then []
    else TokensBits(ll, dl, ts[..|ts| - 1]) + TokenBits(ll, dl, ts[|ts| - 1])
  }

  /** The compressed data of a block: its tokens, then end-of-block. */
  function DataBits(ll: seq<nat>, dl: seq<nat>, ts: seq<Token>): seq<bool>
    requires TokensHaveCodes(ll, dl, ts)
  {
    TokensBits(ll, dl, ts) + CodeBits(ll, 256)
  }

  lemma {:induction false} TokensBitsFront(ll: seq<nat>, dl: seq<nat>, ts: seq<Token>)
    requires forall i :: 0 <= i < |ts| ==> TokenHasCode(ll, dl, ts[i])
    requires ts != []
    ensures TokensBits(ll, dl, ts) == TokenBits(ll, dl, ts[0]) + TokensBits(ll, dl, ts[1..])
    decreases |ts|
  {
    hide TokenBits, TokenHasCode;
    var n := |ts| - 1;
    if n == 0 {
      assert ts[..0] == [] && ts[1..] == [];
    } else {
      TokensBitsFront(ll, dl, ts[..n]);
      var rest := ts[1..];
      assert ts[..n][1..] == rest[..n - 1] && rest[n - 1] == ts[n];
      assert TokensBits(ll, dl, rest) == TokensBits(ll, dl, rest[..n - 1]) + TokenBits(ll, dl, ts[n]);
      assert TokensBits(ll, dl, ts) == TokensBits(ll, dl, ts[..n]) + TokenBits(ll, dl, ts[n]);
      hide TokensBits;
    }
  }

  lemma PairDecodes(ll: seq<nat>, dl: seq<nat>, t: Token, rest: seq<bool>)
    requires t.Match? && TokenHasCode(ll, dl, t) && Prefix(dl, MAX_BITS)
    ensures var c := LengthCode(t.length);
            LENGTH_BASE[c] <= t.length &&
            DecodePair(c, dl, ToBits(t.length - LENGTH_BASE[c], LENGTH_EXTRA[c]) + (DistBits(dl, t.distance) + rest))
            == Some((Tok(t), rest))
  {
    hide DecodeDistance, DistBits, ToBits, LengthCode;
    var c := LengthCode(t.length);
    LengthExtraFits(t.length);
    ReadToBits(t.length - LENGTH_BASE[c], LENGTH_EXTRA[c], DistBits(dl, t.distance) + rest);
    DistanceDecodes(dl, t, rest);
  }

  lemma DistanceDecodes(dl: seq<nat>, t: Token, rest: seq<bool>)
    requires t.Match? && InFormat(t) && Prefix(dl, MAX_BITS)
    requires DistCode(t.distance) < |dl| && dl[DistCode(t.distance)] > 0
    ensures DecodeDistance(t.length, dl, DistBits(dl, t.distance) + rest) == Some((Tok(t), rest))
  {
    hide ToBits, CodeBits, DecodeSymbol, DistCode;
    var d := DistCode(t.distance);
    DistExtraFits(t.distance);
    var extra := ToBits(t.distance - DIST_BASE[d], DIST_EXTRA[d]);
    assert DistBits(dl, t.distance) + rest == CodeBits(dl, d) + (extra + rest);
    DecodeEncoded(dl, MAX_BITS, d, extra + rest);
    ReadToBits(t.distance - DIST_BASE[d], DIST_EXTRA[d], rest);
  }

  lemma MatchDecodes(ll: seq<nat>, dl: seq<nat>, t: Token, rest: seq<bool>)
    requires Prefix(ll, MAX_BITS) && Prefix(dl, MAX_BITS) && TokenHasCode(ll, dl, t) && t.Match?
    ensures DecodeToken(ll, dl, TokenBits(ll, dl, t) + rest) == Some((Tok(t), rest))
  {
    hide LengthCode, DistCode, ToBits, DistBits, DecodePair, CodeBits, DecodeSymbol;
    LengthExtraFits(t.length);
    DistExtraFits(t.distance);
    var c := LengthCode(t.length);
    var extra := ToBits(t.length - LENGTH_BASE[c], LENGTH_EXTRA[c]);
    var more := extra + (DistBits(dl, t.distance) + rest);
    assert TokenBits(ll, dl, t) + rest == CodeBits(ll, 257 + c) + more;
    DecodeEncoded(ll, MAX_BITS, 257 + c, more);
    PairDecodes(ll, dl, t, rest);
  }

  lemma TokenDecodes(ll: seq<nat>, dl: seq<nat>, t: Token, rest: seq<bool>)
    requires Prefix(ll, MAX_BITS) && Prefix(dl, MAX_BITS) && TokenHasCode(ll, dl, t)
    ensures DecodeToken(ll, dl, TokenBits(ll, dl, t) + rest) == Some((Tok(t), rest))
  {
    if t.Match? {
      MatchDecodes(ll, dl, t, rest);
    } else {
      DecodeEncoded(ll, MAX_BITS, t.b, rest);
    }
  }

  /** The decoder recovers exactly the tokens' output and stops after end-of-block. */
  lemma {:induction false} TokensDecode(ll: seq<nat>, dl: seq<nat>, ts: seq<Token>, rest: seq<bool>,
                                        out: seq<byte>)
    requires Prefix(ll, MAX_BITS) && Prefix(dl, MAX_BITS) && TokensHaveCodes(ll, dl, ts)
    requires Expand(out, ts).Some?
    ensures DecodeTokens(ll, dl, DataBits(ll, dl, ts) + rest, out) == Some((Expand(out, ts).value, rest))
    decreases |ts|
  {
    hide TokenBits, TokenHasCode;
    if ts == [] {
      assert DataBits(ll, dl, ts) + rest == CodeBits(ll, 256) + rest;
      DecodeEncoded(ll, MAX_BITS, 256, rest);
    } else {
      TokensBitsFront(ll, dl, ts);
      var more := DataBits(ll, dl, ts[1..]) + rest;
      assert DataBits(ll, dl, ts) + rest == TokenBits(ll, dl, ts[0]) + more;
      TokenDecodes(ll, dl, ts[0], more);
      TokensDecode(ll, dl, ts[1..], rest, ApplyToken(out, ts[0]).value);
    }
  }

  // ---------- the header of a dynamic block ----------

  datatype Header = Header(ll: seq<nat>, dl: seq<nat>, cl: seq<nat>, hclen: nat)

  ghost predicate LensOk(lens: seq<nat>, max: nat)
  {
    && Prefix(lens, max)
    && forall s :: 0 <= s < |lens| ==> lens[s] <= max
  }

  ghost predicate HeaderOk(h: Header)
  {
    && 257 <= |h.ll| <= 286 && LensOk(h.ll, MAX_BITS)
    && 1 <= |h.dl| <= 30 && LensOk(h.dl, MAX_BITS)
    && |h.cl| == 19 && LensOk(h.cl, MAX_BL_BITS)
    && 4 <= h.hclen <= 19
    && (forall i :: h.hclen <= i < 19 ==> h.cl[CL_ORDER[i]] == 0)
    && Codable(h.cl, AllItems(h.ll)) && Codable(h.cl, AllItems(h.dl))
  }

  /** The code length code lengths from position i of CL_ORDER on. */
  function ClBits(cl: seq<nat>, i: nat, n: nat): seq<bool>
    requires |cl| == 19 && i <= n <= 19
    decreases n - i
  {
    if i == n then [] else ToBits(cl[CL_ORDER[i]], 3) + ClBits(cl, i + 1, n)
  }

  function LensBits(h: Header): seq<bool>
    requires Codable(h.cl, AllItems(h.ll)) && Codable(h.cl, AllItems(h.dl))
  {
    ItemsBits(h.cl, AllItems(h.ll)) + ItemsBits(h.cl, AllItems(h.dl))
  }

  function HeaderBits(h: Header): seq<bool>
    requires HeaderOk(h)
  {
    ToBits(|h.ll| - 257, 5) + (ToBits(|h.dl| - 1, 5) + (ToBits(h.hclen - 4, 4) +
    (ClBits(h.cl, 0, h.hclen) + LensBits(h))))
  }

  /** cl is known on the positions of CL_ORDER below i, and zero on the others. */
  ghost predicate Partial(cl: seq<nat>, acc: seq<nat>, i: nat)
    requires |cl| == 19 == |acc| && i <= 19
  {
    && (forall j :: 0 <= j < i ==> acc[CL_ORDER[j]] == cl[CL_ORDER[j]])
    && (forall j :: i <= j < 19 ==> acc[CL_ORDER[j]] == 0)
  }

  lemma OrderDistinct(i: nat, j: nat)
    requires i < j < 19
    ensures CL_ORDER[i] != CL_ORDER[j]
  {
  }

  /** Every code length symbol has a place in CL_ORDER. */
  function RankOf(s: nat): (i: nat)
    requires s < 19
    ensures i < 19 && CL_ORDER[i] == s
  {
    [3, 17, 15, 13, 11, 9, 7, 5, 4, 6, 8, 10, 12, 14, 16, 18, 0, 1, 2][s]
  }

  lemma PartialDone(cl: seq<nat>, acc: seq<nat>, n: nat)
    requires |cl| == 19 == |acc| && n <= 19 && Partial(cl, acc, n)
    requires forall i :: n <= i < 19 ==> cl[CL_ORDER[i]] == 0
    ensures acc == cl
  {
    forall s | 0 <= s < 19
      ensures acc[s] == cl[s]
    {
      var i := RankOf(s);
      assert acc[CL_ORDER[i]] == cl[CL_ORDER[i]];
    }
  }

  lemma {:induction false} ClDecodes(cl: seq<nat>, acc: seq<nat>, i: nat, n: nat, rest: seq<bool>)
    requires |cl| == 19 == |acc| && i <= n <= 19 && Partial(cl, acc, i)
    requires forall j :: 0 <= j < 19 ==> cl[j] < 8
    requires forall j :: n <= j < 19 ==> cl[CL_ORDER[j]] == 0
    ensures ReadClLens(ClBits(cl, i, n) + rest, i, n, acc) == Some((cl, rest))
    decreases n - i
  {
    if i == n {
      PartialDone(cl, acc, n);
      assert ClBits(cl, i, n) + rest == rest;
    } else {
      var v := cl[CL_ORDER[i]];
      var more := ClBits(cl, i + 1, n) + rest;
      assert ClBits(cl, i, n) + rest == ToBits(v, 3) + more;
      assert Pow2(3) == 8;
      ReadToBits(v, 3, more);
      PartialStep(cl, acc, i);
      ClDecodes(cl, acc[CL_ORDER[i] := v], i + 1, n, rest);
    }
  }

  lemma PartialStep(cl: seq<nat>, acc: seq<nat>, i: nat)
    requires |cl| == 19 == |acc| && i < 19 && Partial(cl, acc, i)
    ensures Partial(cl, acc[CL_ORDER[i] := cl[CL_ORDER[i]]], i + 1)
  {
    forall j | 0 <= j < 19 && j != i
      ensures CL_ORDER[j] != CL_ORDER[i]
    {
      if j < i { OrderDistinct(j, i); } else { OrderDistinct(i, j); }
    }
  }

  lemma BothLensDecode(h: Header, rest: seq<bool>)
    requires HeaderOk(h)
    ensures ReadBothLens(h.cl, LensBits(h) + rest, |h.ll|, |h.dl|) == Some((h.ll, h.dl, rest))
  {
    hide AllItems, ApplyAll, ItemsBits;
    var a, b := AllItems(h.ll), AllItems(h.dl);
    RunLengthRoundTrip([], h.ll);
    RunLengthRoundTrip(h.ll, h.dl);
    assert [] + h.ll == h.ll;
    ApplyAllConcat([], a, b);
    ItemsBitsConcat(h.cl, a, b);
    ReadLensDecodes(h.cl, MAX_BL_BITS, a + b, rest, |h.ll| + |h.dl|, []);
    var lens := h.ll + h.dl;
    assert lens[..|h.ll|] == h.ll && lens[|h.ll|..] == h.dl;
  }

  lemma HeaderDecodes(h: Header, rest: seq<bool>)
    requires HeaderOk(h)
    ensures ReadHeader(HeaderBits(h) + rest) == Some((h.ll, h.dl, rest))
  {
    hide LensBits, ClBits, ReadClLens, ReadBothLens, ToBits, ReadBits;
    assert Pow2(5) == 32 && Pow2(4) == 16;
    var b4 := LensBits(h) + rest;
    var b3 := ClBits(h.cl, 0, h.hclen) + b4;
    var b2 := ToBits(h.hclen - 4, 4) + b3;
    var b1 := ToBits(|h.dl| - 1, 5) + b2;
    assert HeaderBits(h) + rest == ToBits(|h.ll| - 257, 5) + b1;
    ReadToBits(|h.ll| - 257, 5, b1);
    ReadToBits(|h.dl| - 1, 5, b2);
    ReadToBits(h.hclen - 4, 4, b3);
    ClDecodes(h.cl, seq(19, _ => 0), 0, h.hclen, b4);
    BothLensDecode(h, rest);
  }

  // ---------- blocks ----------

  datatype Block =
    | StoredBlock(data: seq<byte>)
    | FixedBlock(tokens: seq<Token>)
    | DynamicBlock(header: Header, tokens: seq<Token>)

  ghost predicate BlockOk(b: Block)
  {
    match b
    case StoredBlock(data) => |data| < 65536
    case FixedBlock(ts) => TokensHaveCodes(FixedLens(), FixedDistLens(), ts)
    case DynamicBlock(h, ts) => HeaderOk(h) && TokensHaveCodes(h.ll, h.dl, ts)
  }

  /** What a block adds to the output. */
  function BlockOutput(out: seq<byte>, b: Block): Option<seq<byte>>
  {
    match b
    case StoredBlock(data) => Some(out + data)
    case FixedBlock(ts) => Expand(out, ts)
    case DynamicBlock(_, ts) => Expand(out, ts)
  }

  function BlockKind(b: Block): nat
  {
    match b
    case StoredBlock(_) => 0
    case FixedBlock(_) => 1
    case DynamicBlock(_, _) => 2
  }

  function StoredBits(data: seq<byte>, before: nat): seq<bool>
    requires |data| < 65536
  {
    Zeros(Padding(before)) + (ToBits(|data|, 16) + (ToBits(65535 - |data|, 16) + BytesToBits(data)))
  }

  /** The bits of a block after its three header bits; `before` bits precede them. */
  function BodyBits(b: Block, before: nat): seq<bool>
    requires BlockOk(b)
  {
    match b
    case StoredBlock(data) => StoredBits(data, before)
    case FixedBlock(ts) => DataBits(FixedLens(), FixedDistLens(), ts)
    case DynamicBlock(h, ts) => HeaderBits(h) + DataBits(h.ll, h.dl, ts)
  }

  function BlockBits(b: Block, final: bool, before: nat): seq<bool>
    requires BlockOk(b)
  {
    ToBits(2 * BlockKind(b) + (if final then 1 else 0), 3) + BodyBits(b, before + 3)
  }

  lemma {:induction false} BytesFront(data: seq<byte>)
    requires data != []
    ensures BytesToBits(data) == ToBits(data[0], 8) + BytesToBits(data[1..])
  {
    assert data == [data[0]] + data[1..];
    BytesToBitsConcat([data[0]], data[1..]);
    BytesToBitsAppend([], data[0]);
    assert [] + [data[0]] == [data[0]];
  }

  lemma {:induction false} BytesDecode(data: seq<byte>, rest: seq<bool>, out: seq<byte>)
    ensures ReadBytes(BytesToBits(data) + rest, |data|, out) == Some((out + data, rest))
    decreases |data|
  {
    hide ToBits;
    if data == [] {
      assert BytesToBits(data) + rest == rest && out + data == out;
    } else {
      var more := BytesToBits(data[1..]) + rest;
      BytesFront(data);
      assert BytesToBits(data) + rest == ToBits(data[0], 8) + more;
      assert Pow2(8) == 256;
      ReadToBits(data[0], 8, more);
      BytesDecode(data[1..], rest, out + [data[0]]);
      assert out + [data[0]] + data[1..] == out + data;
    }
  }

  /** The padding the encoder counts from the front is what the decoder skips, counting from the end. */
  lemma Alignment(before: nat, total: nat)
    requires (before + total) % 8 == 0
    ensures total % 8 == Padding(before)
  {
  }

  lemma StoredDecodes(data: seq<byte>, before: nat, rest: seq<bool>, out: seq<byte>)
    requires |data| < 65536
    requires (before + |StoredBits(data, before) + rest|) % 8 == 0
    ensures DecodeStored(StoredBits(data, before) + rest, out) == Some((out + data, rest))
  {
    hide ToBits, ReadBits, ReadBytes, BytesToBits, Padding;
    var bs := StoredBits(data, before) + rest;
    var b2 := BytesToBits(data) + rest;
    var b1 := ToBits(65535 - |data|, 16) + b2;
    Alignment(before, |bs|);
    assert bs[Padding(before)..] == ToBits(|data|, 16) + b1;
    assert Pow2(16) == 65536 by { Pow2Add(8, 8); assert Pow2(8) == 256; }
    ReadToBits(|data|, 16, b1);
    ReadToBits(65535 - |data|, 16, b2);
    BytesDecode(data, rest, out);
  }

  lemma BodyDecodes(b: Block, before: nat, rest: seq<bool>, out: seq<byte>)
    requires BlockOk(b) && BlockOutput(out, b).Some?
    requires (before + |BodyBits(b, before) + rest|) % 8 == 0
    ensures DecodeBody(BlockKind(b), BodyBits(b, before) + rest, out)
         == Some((BlockOutput(out, b).value, rest))
  {
    hide StoredBits, HeaderBits, DataBits, DecodeStored, DecodeTokens, ReadHeader, HeaderOk,
         TokensHaveCodes;
    match b
    case StoredBlock(data) => StoredDecodes(data, before, rest, out);
    case FixedBlock(ts) =>
      FixedIsPrefix();
      TokensDecode(FixedLens(), FixedDistLens(), ts, rest, out);
    case DynamicBlock(h, ts) =>
      HeaderParts(h);
      var data := DataBits(h.ll, h.dl, ts) + rest;
      assert BodyBits(b, before) + rest == HeaderBits(h) + data;
      HeaderDecodes(h, data);
      TokensDecode(h.ll, h.dl, ts, rest, out);
  }

  /** How many of the first i fixed literal/length codes have length len. */
  function FixedCount(len: nat, i: nat): nat
  {
    if len == 7 then (if i <= 256 then 0 else if i <= 280 then i - 256 else 24)
    else if len == 8 then (if i <= 144 then i else if i <= 280 then 144 else i - 136)
    else if len == 9 then (if i <= 144 then 0 else if i <= 256 then i - 144 else 112)
    else 0
  }

  lemma {:induction false} FixedCounts(len: nat, i: nat)
    requires i <= 288
    ensures Count(FixedLens(), len, i) == FixedCount(len, i)
    decreases i
  {
    if i > 0 {
      FixedCounts(len, i - 1);
    }
  }

  lemma {:induction false} FixedSlots(len: nat)
    ensures len < 7 ==> Slots(FixedLens(), len) == 0
    ensures len == 7 ==> Slots(FixedLens(), len) == 24
    ensures len == 8 ==> Slots(FixedLens(), len) == 200
    ensures len >= 9 ==> Slots(FixedLens(), len) == Pow2(len)
  {
    if len > 0 {
      FixedSlots(len - 1);
      FixedCounts(len, 288);
      assert Pow2(9) == 512;
    }
  }

  lemma {:induction false} FixedDistCounts(len: nat, i: nat)
    requires i <= 30
    ensures Count(FixedDistLens(), len, i) == if len == 5 then i else 0
    decreases i
  {
    if i > 0 {
      FixedDistCounts(len, i - 1);
    }
  }

  lemma {:induction false} FixedDistSlots(len: nat)
    ensures len < 5 ==> Slots(FixedDistLens(), len) == 0
    ensures len == 5 ==> Slots(FixedDistLens(), len) == 30
    ensures len >= 5 ==> Slots(FixedDistLens(), len) <= Pow2(len)
  {
    if len > 0 {
      FixedDistSlots(len - 1);
      FixedDistCounts(len, 30);
      assert Pow2(5) == 32;
    }
  }

  /** The fixed codes of section 3.2.6 of RFC 1951 are prefix codes. */
  lemma FixedIsPrefix()
    ensures Prefix(FixedLens(), MAX_BITS) && Prefix(FixedDistLens(), MAX_BITS)
  {
    hide Pow2, Slots;
    FixedSlots(MAX_BITS);
    FixedDistSlots(MAX_BITS);
  }

  lemma HeaderParts(h: Header)
    requires HeaderOk(h)
    ensures Prefix(h.ll, MAX_BITS) && Prefix(h.dl, MAX_BITS)
  {
  }

  lemma KindBits(kind: nat, final: bool, rest: seq<bool>)
    requires kind < 3
    ensures var bs := ToBits(2 * kind + (if final then 1 else 0), 3) + rest;
            && |bs| == 3 + |rest| && bs[3..] == rest && bs[0] == final && FromBits(bs[1..3]) == kind
  {
    hide ToBits, FromBits;
    FirstBit(kind, final, 2);
    assert Pow2(2) == 4;
    FromToBits(kind, 2);
    FirstThree(final, ToBits(kind, 2), rest);
  }

  lemma FirstThree(a: bool, b: seq<bool>, rest: seq<bool>)
    requires |b| == 2
    ensures var bs := [a] + b + rest; |bs| == 3 + |rest| && bs[3..] == rest && bs[0] == a && bs[1..3] == b
  {
  }

  lemma FirstBit(v: nat, bit: bool, k: nat)
    ensures ToBits(2 * v + (if bit then 1 else 0), k + 1) == [bit] + ToBits(v, k)
  {
  }

  /** One block is decoded to its output; the decoder goes on after it unless it is final. */
  lemma BlockDecodes(b: Block, final: bool, before: nat, rest: seq<bool>, out: seq<byte>)
    requires BlockOk(b) && BlockOutput(out, b).Some?
    requires (before + |BlockBits(b, final, before) + rest|) % 8 == 0
    ensures InflateBlocks(BlockBits(b, final, before) + rest, out)
         == if final then Some((BlockOutput(out, b).value, rest))
            else InflateBlocks(rest, BlockOutput(out, b).value)
  {
    hide BlockOk, BodyBits, BlockOutput, DecodeBody, ToBits, FromBits;
    var body := BodyBits(b, before + 3) + rest;
    assert BlockBits(b, final, before) + rest
        == ToBits(2 * BlockKind(b) + (if final then 1 else 0), 3) + body;
    KindBits(BlockKind(b), final, body);
    BodyDecodes(b, before + 3, rest, out);
  }

  // ---------- runs of blocks ----------

  ghost predicate BlocksOk(bs: seq<Block>)
  {
    forall i :: 0 <= i < |bs| ==> BlockOk(bs[i])
  }

  /** The bits of blocks none of which is final. */
  ghost function OpenBits(bs: seq<Block>): seq<bool>
    requires BlocksOk(bs)
  {
    if bs == [] then []
    else
      var front := OpenBits(bs[..|bs| - 1]);
      front + BlockBits(bs[|bs| - 1], false, |front|)
  }

  /** The output of a run of blocks, from an empty start. */
  ghost function Output(bs: seq<Block>): Option<seq<byte>>
  {
    if bs == [] then Some([])
    else match Output(bs[..|bs| - 1])
      case None => None
      case Some(o) => BlockOutput(o, bs[|bs| - 1])
  }

  /** After any run of non-final blocks the decoder stands at what follows, with the blocks' output. */
  lemma {:induction false} OpenDecodes(bs: seq<Block>, rest: seq<bool>)
    requires BlocksOk(bs) && Output(bs).Some?
    requires |OpenBits(bs) + rest| % 8 == 0
    ensures InflateBlocks(OpenBits(bs) + rest, []) == InflateBlocks(rest, Output(bs).value)
    decreases |bs|
  {
    hide BlockOk, BlockBits, BlockOutput, InflateBlocks;
    if bs == [] {
      assert OpenBits(bs) + rest == rest;
    } else {
      var n := |bs| - 1;
      var front := OpenBits(bs[..n]);
      var last := BlockBits(bs[n], false, |front|);
      assert OpenBits(bs) + rest == front + (last + rest);
      OpenDecodes(bs[..n], last + rest);
      BlockDecodes(bs[n], false, |front|, rest, Output(bs[..n]).value);
    }
  }

  /** A complete stream: blocks, a final block, padding. */
  lemma StreamDecodes(bs: seq<Block>, b: Block, bytes: seq<byte>)
    requires BlocksOk(bs) && BlockOk(b) && Output(bs).Some? && BlockOutput(Output(bs).value, b).Some?
    requires var bits := OpenBits(bs) + BlockBits(b, true, |OpenBits(bs)|);
             BytesToBits(bytes) == bits + Zeros(Padding(|bits|))
    ensures var bits := OpenBits(bs) + BlockBits(b, true, |OpenBits(bs)|);
            Inflate(bytes) == Some((BlockOutput(Output(bs).value, b).value, Zeros(Padding(|bits|))))
  {
    hide BlocksOk, BlockOk, BlockBits, BlockOutput, InflateBlocks, OpenBits, Output;
    var front := OpenBits(bs);
    var last := BlockBits(b, true, |front|);
    var pad := Zeros(Padding(|front + last|));
    assert BytesToBits(bytes) == front + (last + pad);
    OpenDecodes(bs, last + pad);
    BlockDecodes(b, true, |front|, pad, Output(bs).value);
  }
}
