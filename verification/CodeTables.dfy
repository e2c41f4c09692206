/** The tables ct_init computes: which code a match length or a distance belongs to. */
module CodeTables {
  import opened Sums
  import opened Rfc1951
  import opened Blocks
  import opened Tokens

  lemma LengthGap(c: nat)
    requires c < 28
    ensures LENGTH_BASE[c] < LENGTH_BASE[c + 1]
    ensures c < 27 ==> LENGTH_BASE[c + 1] == LENGTH_BASE[c] + Pow2(LENGTH_EXTRA[c])
  {
    PowersTo13();
  }

  lemma {:induction false} LengthSorted(c: nat, r: nat)
    requires c <= r < 29
    ensures LENGTH_BASE[c] <= LENGTH_BASE[r]
    decreases r
  {
    if c < r {
      LengthSorted(c, r - 1);
      LengthGap(r - 1);
    }
  }

  lemma LengthCodeIs(length: nat, c: nat)
    requires c < 29 && LENGTH_BASE[c] <= length && (c < 28 ==> length < LENGTH_BASE[c + 1])
    ensures LengthCode(length) == c
  {
    var r := LengthCode(length);
    if r > c {
      LengthSorted(c + 1, r);
    }
  }

  lemma {:induction false} DistSorted(c: nat, r: nat)
    requires c <= r < 30
    ensures DIST_BASE[c] <= DIST_BASE[r]
    decreases r
  {
    if c < r {
      DistSorted(c, r - 1);
      DistGaps(r - 1);
    }
  }

  lemma DistCodeIs(distance: nat, c: nat)
    requires c < 30 && DIST_BASE[c] <= distance && (c < 29 ==> distance < DIST_BASE[c + 1])
    ensures DistCode(distance) == c
  {
    var r := DistCode(distance);
    if r > c {
      DistSorted(c + 1, r);
    }
  }

  /** What the length tables promise. */
  ghost predicate LengthTables(lengthCode: seq<nat>, baseLength: seq<nat>)
  {
    && |lengthCode| == 256 && |baseLength| == 29
    && (forall lc :: 0 <= lc < 256 ==> lengthCode[lc] == LengthCode(lc + MIN_MATCH))
    && (forall c :: 0 <= c < 28 ==> baseLength[c] == LENGTH_BASE[c] - MIN_MATCH)
  }

  /** The first loop of ct_init. */
  method InitLengths() returns (lengthCode: array<nat>, baseLength: array<nat>)
    ensures fresh(lengthCode) && fresh(baseLength) && lengthCode != baseLength
    ensures LengthTables(lengthCode[..], baseLength[..])
  {
    hide LengthCode;
    lengthCode := new nat[256](_ => 0);
    baseLength := new nat[29](_ => 0);
    var length, code := 0, 0;
    while code < 28
      invariant code <= 28 && lengthCode != baseLength && lengthCode.Length == 256 && baseLength.Length == 29
      invariant length == if code == 28 then 256 else LENGTH_BASE[code] - MIN_MATCH
      invariant forall i :: 0 <= i < length && i < 255 ==> lengthCode[i] == LengthCode(i + MIN_MATCH)
      invariant forall c :: 0 <= c < code ==> baseLength[c] == LENGTH_BASE[c] - MIN_MATCH
    {
      LengthGap(code);
      LengthStep(code);
      baseLength[code] := length;
      ghost var base := length;
      var n := 0;
      while n < Pow2(LENGTH_EXTRA[code])
        invariant n <= Pow2(LENGTH_EXTRA[code]) && length == base + n && length <= 256
        invariant base == LENGTH_BASE[code] - MIN_MATCH
        invariant forall i :: 0 <= i < length && i < 255 ==> lengthCode[i] == LengthCode(i + MIN_MATCH)
        invariant forall c :: 0 <= c <= code ==> baseLength[c] == LENGTH_BASE[c] - MIN_MATCH
      {
        if length < 255 {
          LengthCodeIs(length + MIN_MATCH, code);
        }
        lengthCode[length] := code;
        length := length + 1;
        n := n + 1;
      }
      code := code + 1;
    }
    LengthCodeIs(255 + MIN_MATCH, 28);
    lengthCode[length - 1] := code;
  }

  lemma LengthStep(code: nat)
    requires code < 28
    ensures LENGTH_BASE[code] - MIN_MATCH + Pow2(LENGTH_EXTRA[code]) == if code == 27 then 256
        else LENGTH_BASE[code + 1] - MIN_MATCH
    ensures LENGTH_BASE[code] - MIN_MATCH + Pow2(LENGTH_EXTRA[code]) <= 256
    ensures LENGTH_BASE[code] >= MIN_MATCH && LENGTH_BASE[code + 1] <= 258
    ensures code == 27 ==> LENGTH_BASE[code + 1] == 258
  {
    hide Pow2;
    PowersTo13();
  }

  /** The D_CODE macro; d is the distance minus one. */
  function DCode(distCode: seq<nat>, d: nat): nat
    requires |distCode| == 512 && d < 32768
  {
    if d < 256 then distCode[d] else distCode[256 + d / 128]
  }

  /** The tables of section 3.2.5 of RFC 1951 as functions. */
  function DBase(c: nat): nat
    requires c < 30
  {
    DIST_BASE[c]
  }

  lemma NearCodeIs(dist: nat, code: nat)
    requires code < 29 && DBase(code) <= dist < DBase(code) + Pow2(DExtra(code))
    ensures DistCode(dist) == code
  {
    DistGaps(code);
    DistCodeIs(dist, code);
  }

  /** What the distance tables promise. */
  ghost predicate DistTables(distCode: seq<nat>, baseDist: seq<nat>)
  {
    && |distCode| == 512 && |baseDist| == 30
    && (forall d :: 0 <= d < 32768 ==> DCode(distCode, d) == DistCode(d + 1))
    && (forall c :: 0 <= c < 30 ==> baseDist[c] == DBase(c) - 1)
  }

  /** The distances below limit already have their codes. */
  ghost predicate DistsBelow(distCode: seq<nat>, limit: nat)
  {
    |distCode| == 512 && forall d :: 0 <= d < limit && d < 32768 ==> DCode(distCode, d) == DistCode(d + 1)
  }

  lemma DistEnds()
    ensures DBase(0) == 1 && DBase(16) == 257
  {
  }

  lemma NearStep(code: nat)
    requires code < 16
    ensures DBase(code) >= 1
    ensures DBase(code) - 1 + Pow2(DExtra(code)) == DBase(code + 1) - 1 <= 256
  {
    hide Pow2;
    PowersTo13();
  }

  /** The loop over the codes of distances up to 256. */
  method InitNear(distCode: array<nat>, baseDist: array<nat>) returns (dist: nat)
    requires distCode != baseDist && distCode.Length == 512 && baseDist.Length == 30
    modifies distCode, baseDist
    ensures dist == 256 && DistsBelow(distCode[..], 256)
    ensures forall c :: 0 <= c < 16 ==> baseDist[c] == DBase(c) - 1
  {
    hide DistCode, DBase, DExtra, Pow2;
    DistEnds();
    dist := 0;
    var code := 0;
    while code < 16
      invariant code <= 16 && dist <= 256
      invariant dist == DBase(code) - 1
      invariant forall d :: 0 <= d < dist ==> distCode[d] == DistCode(d + 1)
      invariant forall c :: 0 <= c < code ==> baseDist[c] == DBase(c) - 1
    {
      NearStep(code);
      baseDist[code] := dist;
      ghost var base := dist;
      var n := 0;
      while n < Pow2(DExtra(code))
        invariant n <= Pow2(DExtra(code)) && dist == base + n <= 256
        invariant base == DBase(code) - 1
        invariant forall d :: 0 <= d < dist ==> distCode[d] == DistCode(d + 1)
        invariant forall c :: 0 <= c <= code ==> baseDist[c] == DBase(c) - 1
      {
        NearCodeIs(dist + 1, code);
        distCode[dist] := code;
        dist := dist + 1;
        n := n + 1;
      }
      code := code + 1;
    }
  }

  lemma FarCode(code: nat)
    requires 16 <= code < 30
    ensures DExtra(code) >= 7
    ensures DBase(code) - 1 + 128 * Pow2(DExtra(code) - 7) == if code == 29 then 32768 else DBase(code + 1) - 1
    ensures DBase(code) >= 257 && DBase(code) - 1 + 128 * Pow2(DExtra(code) - 7) <= 32768
  {
    hide Pow2;
    PowersTo13();
  }

  /** All distances in one run of 128 share their code. */
  lemma FarStep(distCode: seq<nat>, q: nat, code: nat)
    requires DistsBelow(distCode, 128 * q) && 2 <= q < 256 && 16 <= code < 30
    requires DBase(code) - 1 <= 128 * q && (code < 29 ==> 128 * (q + 1) <= DBase(code + 1) - 1)
    ensures DistsBelow(distCode[256 + q := code], 128 * (q + 1))
  {
    hide DistCode;
    var t := distCode[256 + q := code];
    forall d | 0 <= d < 128 * (q + 1) && d < 32768
      ensures DCode(t, d) == DistCode(d + 1)
    {
      if d < 128 * q {
        assert DCode(distCode, d) == DistCode(d + 1);
      } else {
        assert d / 128 == q;
        DistCodeIs(d + 1, code);
      }
    }
  }

  /** The loop over the codes of distances above 256, in units of 128. */
  method InitFar(distCode: array<nat>, baseDist: array<nat>)
    requires distCode != baseDist && distCode.Length == 512 && baseDist.Length == 30
    requires DistsBelow(distCode[..], 256)
    requires forall c :: 0 <= c < 16 ==> baseDist[c] == DBase(c) - 1
    modifies distCode, baseDist
    ensures DistTables(distCode[..], baseDist[..])
  {
    hide DistCode, DCode, DistsBelow, DBase, DExtra, Pow2;
    var dist, code := 2, 16;
    DistEnds();
    while code < 30
      invariant 16 <= code <= 30 && 2 <= dist <= 256
      invariant 128 * dist == if code == 30 then 32768 else DBase(code) - 1
      invariant DistsBelow(distCode[..], 128 * dist)
      invariant forall c :: 0 <= c < code ==> baseDist[c] == DBase(c) - 1
    {
      FarCode(code);
      baseDist[code] := 128 * dist;
      ghost var base := dist;
      var n := 0;
      while n < Pow2(DExtra(code) - 7)
        invariant n <= Pow2(DExtra(code) - 7) && dist == base + n <= 256
        invariant 128 * base == DBase(code) - 1
        invariant DistsBelow(distCode[..], 128 * dist)
        invariant forall c :: 0 <= c <= code ==> baseDist[c] == DBase(c) - 1
      {
        ghost var before := distCode[..];
        FarStep(before, dist, code);
        distCode[256 + dist] := code;
        assert distCode[..] == before[256 + dist := code];
        dist := dist + 1;
        n := n + 1;
      }
      code := code + 1;
    }
    AllDists(distCode[..]);
  }

  lemma AllDists(distCode: seq<nat>)
    requires DistsBelow(distCode, 32768)
    ensures |distCode| == 512 && forall d :: 0 <= d < 32768 ==> DCode(distCode, d) == DistCode(d + 1)
  {
  }

  /** The distance half of ct_init. */
  method InitDistances() returns (distCode: array<nat>, baseDist: array<nat>)
    ensures fresh(distCode) && fresh(baseDist) && distCode != baseDist
    ensures DistTables(distCode[..], baseDist[..])
  {
    hide DistTables, DistsBelow, DBase;
    distCode := new nat[512](_ => 0);
    baseDist := new nat[30](_ => 0);
    var dist := InitNear(distCode, baseDist);
    InitFar(distCode, baseDist);
  }
}
