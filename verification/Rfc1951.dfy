/**
 * A reference decoder for the DEFLATE format, written from sections 3.2.3 to 3.2.7 of RFC 1951.
 * It knows nothing of how gzip produces its output.
 */
module Rfc1951 {
  import opened Sums
  import opened Bits
  import opened Options
  import opened Canonical

  datatype Token = Literal(b: byte) | Match(length: nat, distance: nat)

  const END_BLOCK := 256

  /** Section 3.2.5: the first length of each length code, and how many extra bits follow it. */
  const LENGTH_BASE: seq<nat> :=
    [3, 4, 5, 6, 7, 8, 9, 10, 11, 13, 15, 17, 19, 23, 27, 31, 35, 43, 51, 59, 67, 83, 99, 115,
     131, 163, 195, 227, 258]
  const LENGTH_EXTRA: seq<nat> :=
    [0, 0, 0, 0, 0, 0, 0, 0, 1, 1, 1, 1, 2, 2, 2, 2, 3, 3, 3, 3, 4, 4, 4, 4, 5, 5, 5, 5, 0]

  /** Section 3.2.5: the same for distances. */
  const DIST_BASE: seq<nat> :=
    [1, 2, 3, 4, 5, 7, 9, 13, 17, 25, 33, 49, 65, 97, 129, 193, 257, 385, 513, 769, 1025, 1537,
     2049, 3073, 4097, 6145, 8193, 12289, 16385, 24577]
  const DIST_EXTRA: seq<nat> :=
    [0, 0, 0, 0, 1, 1, 2, 2, 3, 3, 4, 4, 5, 5, 6, 6, 7, 7, 8, 8, 9, 9, 10, 10, 11, 11, 12, 12,
     13, 13]

  /** Section 3.2.7: the order in which the code length code lengths are sent. */
  const CL_ORDER: seq<nat> := [16, 17, 18, 0, 8, 7, 9, 6, 10, 5, 11, 4, 12, 3, 13, 2, 14, 1, 15]

  /** Section 3.2.6: the fixed code lengths. */
  function FixedLength(s: nat): nat
  {
    if s < 144 then 8 else if s < 256 then 9 else if s < 280 then 7 else 8
  }

  function FixedLens(): (lens: seq<nat>)
    ensures |lens| == 288
    ensures forall s :: 0 <= s < 288 ==> lens[s] == FixedLength(s)
  {
    seq(288, s requires 0 <= s => FixedLength(s))
  }

  function FixedDistLens(): (lens: seq<nat>)
    ensures |lens| == 30 && forall s :: 0 <= s < 30 ==> lens[s] == 5
  {
    seq(30, _ => 5)
  }

  // ---------- LZ77 copying ----------

  /** Repeats the byte `distance` back, `length` times; the copy may overlap its own output. */
  function CopyMatch(out: seq<byte>, length: nat, distance: nat): (r: seq<byte>)
    requires 1 <= distance <= |out|
    ensures |r| == |out| + length && out <= r
    decreases length
  {
    if length == 0 then out else CopyMatch(out + [out[|out| - distance]], length - 1, distance)
  }

  function ApplyToken(out: seq<byte>, t: Token): (r: Option<seq<byte>>)
    ensures r.Some? ==> out <= r.value
  {
    match t
    case Literal(b) => Some(out + [b])
    case Match(length, distance) =>
      if 1 <= distance <= |out| then Some(CopyMatch(out, length, distance)) else None
  }

  /** What a token sequence produces after `out`; None when a distance reaches before the start. */
  function Expand(out: seq<byte>, ts: seq<Token>): (r: Option<seq<byte>>)
    decreases |ts|
  {
    if ts == [] then Some(out)
    else match ApplyToken(out, ts[0])
      case None => None
      case Some(o) => Expand(o, ts[1..])
  }

  // ---------- bits ----------

  function ReadBits(bs: seq<bool>, n: nat): (r: Option<(nat, seq<bool>)>)
    ensures r.Some? ==> |r.value.1| == |bs| - n && r.value.0 < Pow2(n)
  {
    if |bs| < n then None else Some((FromBits(bs[..n]), bs[n..]))
  }

  datatype Symbol = Tok(t: Token) | EndOfBlock

  /** Sections 3.2.3 and 3.2.5: one literal, one length/distance pair, or end-of-block. */
  function DecodeToken(ll: seq<nat>, dl: seq<nat>, bs: seq<bool>): (r: Option<(Symbol, seq<bool>)>)
    ensures r.Some? ==> |r.value.1| < |bs|
  {
    match DecodeSymbol(ll, bs)
    case None => None
    case Some((s, rest)) =>
      if s < 256 then Some((Tok(Literal(s)), rest))
      else if s == END_BLOCK then Some((EndOfBlock, rest))
      else DecodePair(s - 257, dl, rest)
  }

  function DecodePair(c: nat, dl: seq<nat>, bs: seq<bool>): (r: Option<(Symbol, seq<bool>)>)
    ensures r.Some? ==> |r.value.1| <= |bs|
  {
    if c >= 29 then None
    else match ReadBits(bs, LENGTH_EXTRA[c])
      case None => None
      case Some((x, rest)) => DecodeDistance(LENGTH_BASE[c] + x, dl, rest)
  }

  function DecodeDistance(length: nat, dl: seq<nat>, bs: seq<bool>): (r: Option<(Symbol, seq<bool>)>)
    ensures r.Some? ==> |r.value.1| <= |bs|
  {
    match DecodeSymbol(dl, bs)
    case None => None
    case Some((d, rest)) =>
      if d >= 30 then None
      else match ReadBits(rest, DIST_EXTRA[d])
        case None => None
        case Some((x, rest')) => Some((Tok(Match(length, DIST_BASE[d] + x)), rest'))
  }

  /** The compressed data of one block, up to and including end-of-block. */
  function DecodeTokens(ll: seq<nat>, dl: seq<nat>, bs: seq<bool>, out: seq<byte>)
    : (r: Option<(seq<byte>, seq<bool>)>)
    ensures r.Some? ==> |r.value.1| < |bs|
    decreases |bs|
  {
    match DecodeToken(ll, dl, bs)
    case None => None
    case Some((EndOfBlock, rest)) => Some((out, rest))
    case Some((Tok(t), rest)) =>
      match ApplyToken(out, t)
      case None => None
      case Some(o) => DecodeTokens(ll, dl, rest, o)
  }

  // ---------- dynamic Huffman codes, section 3.2.7 ----------

  /** The `n` code length code lengths, in CL_ORDER; those not sent are zero. */
  function ReadClLens(bs: seq<bool>, i: nat, n: nat, cl: seq<nat>): (r: Option<(seq<nat>, seq<bool>)>)
    requires i <= n <= 19 && |cl| == 19
    ensures r.Some? ==> |r.value.0| == 19 && |r.value.1| <= |bs|
    decreases n - i
  {
    if i == n then Some((cl, bs))
    else match ReadBits(bs, 3)
      case None => None
      case Some((len, rest)) => ReadClLens(rest, i + 1, n, cl[CL_ORDER[i] := len])
  }

  /** Appends k copies of x. */
  function Repeat(acc: seq<nat>, x: nat, k: nat): (r: seq<nat>)
    ensures |r| == |acc| + k
    decreases k
  {
    if k == 0 then acc else Repeat(acc + [x], x, k - 1)
  }

  /** Code lengths up to a total of n, with the repeat codes 16, 17 and 18. */
  function ReadLens(cl: seq<nat>, bs: seq<bool>, n: nat, acc: seq<nat>): (r: Option<(seq<nat>, seq<bool>)>)
    ensures r.Some? ==> |r.value.0| == n && |r.value.1| <= |bs|
    decreases |bs|
  {
    if |acc| == n then Some((acc, bs))
    else if |acc| > n then None
    else match DecodeSymbol(cl, bs)
      case None => None
      case Some((s, rest)) =>
        if s < 16 then ReadLens(cl, rest, n, acc + [s])
        else match ReadRepeat(s, rest, acc)
          case None => None
          case Some((acc', rest')) => ReadLens(cl, rest', n, acc')
  }

  function ReadRepeat(s: nat, bs: seq<bool>, acc: seq<nat>): (r: Option<(seq<nat>, seq<bool>)>)
    ensures r.Some? ==> |r.value.1| <= |bs|
  {
    if s == 16 then
      match ReadBits(bs, 2)
      case None => None
      case Some((k, rest)) => if acc == [] then None else Some((Repeat(acc, acc[|acc| - 1], k + 3), rest))
    else if s == 17 then
      match ReadBits(bs, 3)
      case None => None
      case Some((k, rest)) => Some((Repeat(acc, 0, k + 3), rest))
    else if s == 18 then
      match ReadBits(bs, 7)
      case None => None
      case Some((k, rest)) => Some((Repeat(acc, 0, k + 11), rest))
    else None
  }

  /** HLIT, HDIST, HCLEN and the two code length sequences. */
  function ReadHeader(bs: seq<bool>): (r: Option<(seq<nat>, seq<nat>, seq<bool>)>)
    ensures r.Some? ==> |r.value.2| <= |bs|
  {
    match ReadBits(bs, 5)
    case None => None
    case Some((hlit, b1)) =>
      match ReadBits(b1, 5)
      case None => None
      case Some((hdist, b2)) =>
        match ReadBits(b2, 4)
        case None => None
        case Some((hclen, b3)) =>
          if hclen + 4 > 19 then None
          else match ReadClLens(b3, 0, hclen + 4, seq(19, _ => 0))
            case None => None
            case Some((cl, b4)) => ReadBothLens(cl, b4, hlit + 257, hdist + 1)
  }

  function ReadBothLens(cl: seq<nat>, bs: seq<bool>, nl: nat, nd: nat)
    : (r: Option<(seq<nat>, seq<nat>, seq<bool>)>)
    ensures r.Some? ==> |r.value.2| <= |bs|
  {
    match ReadLens(cl, bs, nl + nd, [])
    case None => None
    case Some((lens, rest)) => Some((lens[..nl], lens[nl..], rest))
  }

  // ---------- stored blocks, section 3.2.4 ----------

  function ReadBytes(bs: seq<bool>, n: nat, out: seq<byte>): (r: Option<(seq<byte>, seq<bool>)>)
    ensures r.Some? ==> |r.value.1| <= |bs|
    decreases n
  {
    if n == 0 then Some((out, bs))
    else match ReadBits(bs, 8)
      case None => None
      case Some((b, rest)) => if b < 256 then ReadBytes(rest, n - 1, out + [b]) else None
  }

  /** Skips to a byte boundary (the whole stream is made of bytes), then LEN, NLEN and the bytes. */
  function DecodeStored(bs: seq<bool>, out: seq<byte>): (r: Option<(seq<byte>, seq<bool>)>)
    ensures r.Some? ==> |r.value.1| <= |bs|
  {
    var aligned := bs[|bs| % 8..];
    match ReadBits(aligned, 16)
    case None => None
    case Some((len, b1)) =>
      match ReadBits(b1, 16)
      case None => None
      case Some((nlen, b2)) => if len + nlen != 65535 then None else ReadBytes(b2, len, out)
  }

  // ---------- blocks ----------

  function DecodeDynamic(bs: seq<bool>, out: seq<byte>): (r: Option<(seq<byte>, seq<bool>)>)
    ensures r.Some? ==> |r.value.1| <= |bs|
  {
    match ReadHeader(bs)
    case None => None
    case Some((ll, dl, rest)) => DecodeTokens(ll, dl, rest, out)
  }

  function DecodeBody(kind: nat, bs: seq<bool>, out: seq<byte>): (r: Option<(seq<byte>, seq<bool>)>)
    ensures r.Some? ==> |r.value.1| <= |bs|
  {
    if kind == 0 then DecodeStored(bs, out)
    else if kind == 1 then DecodeTokens(FixedLens(), FixedDistLens(), bs, out)
    else if kind == 2 then DecodeDynamic(bs, out)
    else None
  }

  /** Section 3.2.3: blocks up to and including the final one; what follows it is returned. */
  function InflateBlocks(bs: seq<bool>, out: seq<byte>): (r: Option<(seq<byte>, seq<bool>)>)
    decreases |bs|
  {
    if |bs| < 3 then None
    else match DecodeBody(FromBits(bs[1..3]), bs[3..], out)
      case None => None
      case Some((out', rest)) => if bs[0] then Some((out', rest)) else InflateBlocks(rest, out')
  }

  function Inflate(bytes: seq<byte>): Option<(seq<byte>, seq<bool>)>
  {
    InflateBlocks(BytesToBits(bytes), [])
  }

  // ---------- properties of LZ77 copying ----------

  lemma {:induction false} ExpandConcat(out: seq<byte>, ts: seq<Token>, us: seq<Token>)
    ensures Expand(out, ts + us) == match Expand(out, ts) case None => None case Some(o) => Expand(o, us)
    decreases |ts|
  {
    if ts == [] {
      assert ts + us == us;
    } else {
      assert (ts + us)[1..] == ts[1..] + us;
      match ApplyToken(out, ts[0])
      case None =>
      case Some(o) => ExpandConcat(o, ts[1..], us);
    }
  }

  lemma ExpandAppend(out: seq<byte>, ts: seq<Token>, t: Token)
    requires Expand(out, ts).Some?
    ensures Expand(out, ts + [t]) == ApplyToken(Expand(out, ts).value, t)
  {
    ExpandConcat(out, ts, [t]);
    var o := Expand(out, ts).value;
    assert [t][1..] == [];
  }

  /** Copying from a place in `all` that already holds the bytes to come produces those bytes. */
  lemma {:induction false} CopyMatchIs(all: seq<byte>, pos: nat, length: nat, distance: nat)
    requires 1 <= distance <= pos && pos + length <= |all|
    requires forall j :: pos <= j < pos + length ==> all[j] == all[j - distance]
    ensures CopyMatch(all[..pos], length, distance) == all[..pos + length]
    decreases length
  {
    if length > 0 {
      assert all[..pos] + [all[pos - distance]] == all[..pos + 1];
      CopyMatchIs(all, pos + 1, length - 1, distance);
    }
  }
}
