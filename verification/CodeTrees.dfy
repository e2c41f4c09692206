/** The records of one alphabet, and the codes assigned from lengths. */
module CodeTrees {
  import opened Bits
  import opened Canonical
  import opened HuffmanLengths

  /** One tree: fc holds a frequency, later a code; dl holds a parent, later a length. */
  class CtData {
    const fc: array<nat>
    const dl: array<nat>

    constructor (n: nat)
      ensures fresh(fc) && fresh(dl) && fc.Length == n == dl.Length && fc != dl
      ensures forall i :: 0 <= i < n ==> fc[i] == 0 == dl[i]
    {
      fc := new nat[n](_ => 0);
      dl := new nat[n](_ => 0);
    }
  }

  class TreeDesc {
    const dynTree: CtData
    const staticTree: CtData?
    const extraBits: seq<nat>
    const extraBase: nat
    const elems: nat
    const maxLength: nat
    var maxCode: int

    constructor (tree: CtData, stree: CtData?, xbits: seq<nat>, xbase: nat, n: nat, limit: nat)
      ensures dynTree == tree && staticTree == stree && extraBits == xbits && extraBase == xbase
      ensures elems == n && maxLength == limit && maxCode == 0
    {
      dynTree, staticTree, extraBits, extraBase := tree, stree, xbits, xbase;
      elems, maxLength, maxCode := n, limit, 0;
    }
  }

  /** The code of symbol s as it is stored: reversed, so that sending it low bit first sends it high bit first. */
  function SentCode(lens: seq<nat>, s: nat): nat
    requires s < |lens|
  {
    FromBits(CodeBits(lens, s))
  }

  /** The tree holds the canonical codes for lens. */
  ghost predicate HoldsCodes(tree: CtData, lens: seq<nat>)
    reads tree.fc, tree.dl
  {
    && |lens| <= tree.fc.Length && |lens| <= tree.dl.Length
    && forall s :: 0 <= s < |lens| ==> tree.dl[s] == lens[s] && (lens[s] > 0 ==> tree.fc[s] == SentCode(lens, s))
  }

  /** Reverses the low len bits of code. */
  method BiReverse(code: nat, len: nat) returns (res: nat)
    requires len > 0
    ensures res == FromBits(MsbBits(code, len))
  {
    res := 0;
    var c, left := code, len as int;
    ghost var i := 0;
    while true
      invariant 0 <= i < len && left == len - i
      invariant c == Shr(code, i) && res == 2 * FromBits(MsbBits(code, i))
      decreases left
    {
      ReverseStep(code, i);
      res := BitOr(res, c % 2);
      left := left - 1;
      if left <= 0 {
        return;
      }
      c := c / 2;
      res := 2 * res;
      i := i + 1;
    }
  }

  lemma ReverseStep(code: nat, i: nat)
    ensures BitOr(2 * FromBits(MsbBits(code, i)), Shr(code, i) % 2) == FromBits(MsbBits(code, i + 1))
    ensures Shr(code, i) / 2 == Shr(code, i + 1)
  {
    var r, b := FromBits(MsbBits(code, i)), Shr(code, i) % 2;
    ShrStep(code, i);
    BitOrCommutes(2 * r, b);
    BitOrDisjoint(b, 1, r);
    assert Shl(r, 1) == 2 * r;
    assert MsbBits(code, i + 1)[1..] == MsbBits(code, i);
  }

  /** gen_codes: gives every symbol up to maxCode that has a length its canonical code. */
  method GenCodes(blCount: array<nat>, tree: CtData, maxCode: nat, ghost lens: seq<nat>)
    requires blCount.Length == MAX_BITS + 1 && blCount[0] == 0
    requires maxCode < tree.dl.Length == tree.fc.Length && tree.fc != tree.dl && blCount != tree.fc
    requires lens == tree.dl[..maxCode + 1] && CountsOf(blCount[..], lens, MAX_BITS)
    requires forall s :: 0 <= s < |lens| ==> lens[s] <= MAX_BITS
    modifies tree.fc
    ensures HoldsCodes(tree, lens)
  {
    hide CountsOf, SentCode;
    var nextCode := FirstCodes(blCount, lens);
    var n := 0;
    while n <= maxCode
      invariant n <= maxCode + 1 && fresh(nextCode) && nextCode.Length == MAX_BITS + 1
      invariant forall len :: 1 <= len <= MAX_BITS ==> nextCode[len] == FirstCode(lens, len) + Count(lens, len, n)
      invariant forall s :: 0 <= s < n && lens[s] > 0 ==> tree.fc[s] == SentCode(lens, s)
    {
      var len := tree.dl[n];
      if len != 0 {
        var code := BiReverse(nextCode[len], len);
        CodeIs(lens, n);
        tree.fc[n] := code;
        nextCode[len] := nextCode[len] + 1;
      }
      n := n + 1;
    }
  }

  lemma CodeIs(lens: seq<nat>, n: nat)
    requires n < |lens|
    ensures FromBits(MsbBits(FirstCode(lens, lens[n]) + Count(lens, lens[n], n), lens[n])) == SentCode(lens, n)
  {
    hide FirstCode, Count, FromBits, MsbBits;
  }

  /** The first loop of gen_codes. */
  method FirstCodes(blCount: array<nat>, ghost lens: seq<nat>) returns (nextCode: array<nat>)
    requires blCount.Length == MAX_BITS + 1 && blCount[0] == 0 && CountsOf(blCount[..], lens, MAX_BITS)
    ensures fresh(nextCode) && nextCode.Length == MAX_BITS + 1
    ensures forall len :: 1 <= len <= MAX_BITS ==> nextCode[len] == FirstCode(lens, len)
  {
    nextCode := new nat[MAX_BITS + 1](_ => 0);
    var code := 0;
    var bits := 1;
    while bits <= MAX_BITS
      invariant 1 <= bits <= MAX_BITS + 1
      invariant code == FirstCode(lens, bits - 1)
      invariant forall len :: 1 <= len < bits ==> nextCode[len] == FirstCode(lens, len)
    {
      FirstCodeStep(blCount[..], lens, bits);
      code := 2 * (code + blCount[bits - 1]);
      nextCode[bits] := code;
      bits := bits + 1;
    }
  }

  lemma FirstCodeStep(counts: seq<nat>, lens: seq<nat>, bits: nat)
    requires CountsOf(counts, lens, MAX_BITS) && counts[0] == 0 && 1 <= bits <= MAX_BITS
    ensures 2 * (FirstCode(lens, bits - 1) + counts[bits - 1]) == FirstCode(lens, bits)
  {
  }
}
