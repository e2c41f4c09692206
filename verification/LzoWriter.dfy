/** What the LZO1X compressor writes: every match, every run of literals and whole streams, and that the decoder reads
    them back. */
module LzoWriter {
  import opened Bits
  import opened Options
  import opened Rfc1951
  import opened Lzo1x

  const M1_MAX_OFFSET := 0x400
  const M2_MAX_OFFSET := 0x800
  const MX_MAX_OFFSET := 0xc00
  const M3_MAX_OFFSET := 0x4000
  const M4_MAX_OFFSET := 0xbfff
  const M2_MAX_LEN := 8
  const M3_MAX_LEN := 33
  const M4_MAX_LEN := 9
  const M2_MARKER := 64
  const M3_MARKER := 32
  const M4_MARKER := 16

  /** s holds b at ip. */
  ghost predicate Holds(s: seq<byte>, ip: nat, b: seq<byte>)
  {
    ip + |b| <= |s| && s[ip..ip + |b|] == b
  }

  lemma HoldsPart(s: seq<byte>, ip: nat, a: seq<byte>, b: seq<byte>)
    requires Holds(s, ip, a + b)
    ensures Holds(s, ip, a) && Holds(s, ip + |a|, b)
  {
    assert s[ip..ip + |a|] == (a + b)[..|a|];
    assert s[ip + |a|..ip + |a| + |b|] == (a + b)[|a|..];
  }

  lemma HoldsAt(s: seq<byte>, ip: nat, b: seq<byte>, i: nat)
    requires Holds(s, ip, b) && i < |b|
    ensures s[ip + i] == b[i]
  {
    assert s[ip..ip + |b|][i] == s[ip + i];
  }

  // ---------- lengths ----------

  /** A length of any size: zeros for 255 each, and the rest. */
  function Counted(n: nat): (b: seq<byte>)
    requires n > 0
    ensures |b| > 0
  {
    if n > 255 then [0] + Counted(n - 255) else [n]
  }

  lemma {:induction false} CountedReads(s: seq<byte>, ip: nat, n: nat)
    requires n > 0 && Holds(s, ip, Counted(n))
    ensures Ext(s, ip) == Some((n, ip + |Counted(n)|))
    decreases n
  {
    HoldsAt(s, ip, Counted(n), 0);
    if n > 255 {
      HoldsPart(s, ip, [0], Counted(n - 255));
      CountedReads(s, ip + 1, n - 255);
    }
  }

  // ---------- matches ----------

  /** The instruction byte of a long match, and its length if that does not fit. */
  function Headed(marker: nat, len: nat, max: nat): (b: seq<byte>)
    requires 3 <= len && 3 <= max && marker + max < 258
    ensures |b| > 0
  {
    if len <= max then [marker + (len - 2)] else [marker] + Counted(len - max)
  }

  /** What code_match can write: two bytes only behind one to three literals. */
  predicate Codable(st: State, len: nat, dist: nat)
  {
    2 <= len && 1 <= dist <= M4_MAX_OFFSET && (len == 2 ==> st.Short? && dist <= M1_MAX_OFFSET)
  }

  /** code_match, with the number of literals that follow. */
  function MatchBytes(st: State, len: nat, dist: nat, lits: nat): (b: seq<byte>)
    requires Codable(st, len, dist) && lits < 4
    ensures |b| >= 2
  {
    if len == 2 then Pair(0, 4, dist - 1, lits)
    else if len <= M2_MAX_LEN && dist <= M2_MAX_OFFSET then Pair(32 * (len - 1), 8, dist - 1, lits)
    else if len == 3 && dist <= MX_MAX_OFFSET && st.AfterRun? then Pair(0, 4, dist - 1 - M2_MAX_OFFSET, lits)
    else if dist <= M3_MAX_OFFSET then Headed(M3_MARKER, len, M3_MAX_LEN) + Pair(0, 64, dist - 1, lits)
    else
      var o := dist - M3_MAX_OFFSET;
      Headed(M4_MARKER + (if o >= 0x4000 then 8 else 0), len, M4_MAX_LEN) + Pair(0, 64, o % 0x4000, lits)
  }

  /** An offset in two bytes: its rest by n in the first, above the two bits for the literals. */
  function Pair(marker: nat, n: nat, o: nat, lits: nat): (b: seq<byte>)
    requires n > 0 && marker + 4 * (n - 1) + 3 < 256 && o < 256 * n && lits < 4
    ensures |b| == 2
  {
    QuotientFits(o, n);
    [marker + 4 * (o % n) + lits, o / n]
  }

  lemma QuotientFits(o: nat, n: nat)
    requires n > 0 && o < 256 * n
    ensures o / n < 256 && o % n <= n - 1 && o == n * (o / n) + o % n
  {
  }

  lemma PairReads(marker: nat, n: nat, o: nat, lits: nat)
    requires n in [4, 8, 64] && marker % 32 == 0 && marker + 4 * (n - 1) + 3 < 256 && o < 256 * n && lits < 4
    requires n == 64 ==> marker == 0
    ensures var b := Pair(marker, n, o, lits);
            && b[0] % 4 == lits && marker <= b[0] < marker + 4 * n
            && (n == 4 && marker == 0 ==> NearDist(b[0], b[1]) == o + 1)
            && (n == 8 ==> M2Dist(b[0], b[1]) == o + 1 && b[0] / 32 == marker / 32)
            && (n == 64 ==> FarBits(b[0], b[1]) == o)
  {
    QuotientFits(o, n);
    FirstByte(marker, o % n, n, lits);
    if n == 4 {
      assert o == 4 * (o / 4) + o % 4;
    } else if n == 8 {
      assert o == 8 * (o / 8) + o % 8;
    } else {
      assert o == 64 * (o / 64) + o % 64;
    }
  }

  lemma FirstByte(marker: nat, r: nat, n: nat, lits: nat)
    requires marker % 32 == 0 && r < n && lits < 4
    ensures var b := marker + 4 * r + lits; b % 4 == lits && b / 4 == marker / 4 + r && marker / 4 % 8 == 0
    ensures n <= 8 ==> (marker + 4 * r + lits) / 32 == marker / 32
  {
  }

  lemma {:induction false} HeadReads(s: seq<byte>, ip: nat, marker: nat, len: nat, max: nat)
    requires 3 <= len && ((marker == 32 && max == 33) || (marker in [16, 24] && max == 9))
    requires Holds(s, ip, Headed(marker, len, max))
    ensures s[ip] == (if len <= max then marker + (len - 2) else marker)
    ensures Length(s, ip + 1, if s[ip] >= 32 then s[ip] % 32 else s[ip] % 8, if s[ip] >= 32 then 31 else 7)
         == Some((len - 2, ip + |Headed(marker, len, max)|))
  {
    hide Ext, Counted;
    HoldsAt(s, ip, Headed(marker, len, max), 0);
    if len > max {
      HoldsPart(s, ip, [marker], Counted(len - max));
      hide Holds;
      CountedReads(s, ip + 1, len - max);
    }
  }

  lemma {:induction false} LongReads(s: seq<byte>, ip: nat, marker: nat, len: nat, max: nat, o: nat, lits: nat)
    requires 3 <= len && o < 0x4000 && lits < 4
    requires (marker == 32 && max == 33) || (marker in [16, 24] && max == 9)
    requires Holds(s, ip, Headed(marker, len, max) + Pair(0, 64, o, lits))
    ensures var at := ip + |Headed(marker, len, max)|;
            && s[ip] == (if len <= max then marker + (len - 2) else marker) && at + 2 <= |s|
            && Length(s, ip + 1, if s[ip] >= 32 then s[ip] % 32 else s[ip] % 8, if s[ip] >= 32 then 31 else 7)
               == Some((len - 2, at))
            && FarBits(s[at], s[at + 1]) == o && s[at] % 4 == lits
  {
    hide Headed, Length, Pair, FarBits;
    var h, p := Headed(marker, len, max), Pair(0, 64, o, lits);
    HoldsPart(s, ip, h, p);
    HeadReads(s, ip, marker, len, max);
    HoldsAt(s, ip + |h|, p, 0);
    HoldsAt(s, ip + |h|, p, 1);
    PairReads(0, 64, o, lits);
  }

  lemma {:induction false} ShortReads(s: seq<byte>, ip: nat, st: State, len: nat, dist: nat, lits: nat)
    requires Codable(st, len, dist) && lits < 4 && Holds(s, ip, MatchBytes(st, len, dist, lits))
    requires len == 2 || (len <= M2_MAX_LEN && dist <= M2_MAX_OFFSET)
        || (len == 3 && dist <= MX_MAX_OFFSET && st.AfterRun?)
    ensures |MatchBytes(st, len, dist, lits)| == 2
    ensures ParseMatch(s, ip, st) == Copy(len, dist, ip + 2) && s[ip] % 4 == lits && (st.Run? ==> s[ip] >= 16)
  {
    hide Headed, ParseLong;
    var b := MatchBytes(st, len, dist, lits);
    HoldsAt(s, ip, b, 0);
    HoldsAt(s, ip, b, 1);
    if len == 2 {
      PairReads(0, 4, dist - 1, lits);
    } else if len <= M2_MAX_LEN && dist <= M2_MAX_OFFSET {
      PairReads(32 * (len - 1), 8, dist - 1, lits);
    } else {
      PairReads(0, 4, dist - 1 - M2_MAX_OFFSET, lits);
    }
  }

  lemma {:induction false} M3Reads(s: seq<byte>, ip: nat, st: State, len: nat, dist: nat, lits: nat)
    requires 3 <= len && 1 <= dist <= M3_MAX_OFFSET && lits < 4
    requires Holds(s, ip, Headed(M3_MARKER, len, M3_MAX_LEN) + Pair(0, 64, dist - 1, lits))
    ensures var at := ip + |Headed(M3_MARKER, len, M3_MAX_LEN)|;
            ParseMatch(s, ip, st) == Copy(len, dist, at + 2) && s[at] % 4 == lits && s[ip] >= 16
  {
    hide Headed, Length, Pair, FarBits;
    LongReads(s, ip, M3_MARKER, len, M3_MAX_LEN, dist - 1, lits);
  }

  lemma {:induction false} M4Reads(s: seq<byte>, ip: nat, st: State, len: nat, o: nat, lits: nat)
    requires 3 <= len && 1 <= o < 0x8000 && lits < 4
    requires var k := if o >= 0x4000 then 8 else 0;
             Holds(s, ip, Headed(M4_MARKER + k, len, M4_MAX_LEN) + Pair(0, 64, o % 0x4000, lits))
    ensures var at := ip + |Headed(M4_MARKER + (if o >= 0x4000 then 8 else 0), len, M4_MAX_LEN)|;
            ParseMatch(s, ip, st) == Copy(len, o + M3_MAX_OFFSET, at + 2) && s[at] % 4 == lits && s[ip] >= 16
  {
    hide Headed, Length, Pair, FarBits;
    LongReads(s, ip, M4_MARKER + (if o >= 0x4000 then 8 else 0), len, M4_MAX_LEN, o % 0x4000, lits);
  }

  /** Every match that is written is read back, with the number of literals behind it. */
  lemma {:induction false} MatchReads(s: seq<byte>, ip: nat, st: State, len: nat, dist: nat, lits: nat)
    requires Codable(st, len, dist) && lits < 4 && Holds(s, ip, MatchBytes(st, len, dist, lits))
    ensures var next := ip + |MatchBytes(st, len, dist, lits)|;
            ParseMatch(s, ip, st) == Copy(len, dist, next) && s[next - 2] % 4 == lits && (st.Run? ==> s[ip] >= 16)
  {
    hide Headed, Pair, ParseMatch, Holds;
    if len == 2 || (len <= M2_MAX_LEN && dist <= M2_MAX_OFFSET)
       || (len == 3 && dist <= MX_MAX_OFFSET && st.AfterRun?) {
      ShortReads(s, ip, st, len, dist, lits);
    } else if dist <= M3_MAX_OFFSET {
      M3Reads(s, ip, st, len, dist, lits);
    } else {
      M4Reads(s, ip, st, len, dist - M3_MAX_OFFSET, lits);
    }
  }

  // ---------- runs ----------

  /** STORE_RUN, for a run that does not fit the bits of a match. */
  function RunBytes(lits: seq<byte>): (b: seq<byte>)
    requires |lits| >= 4
    ensures |b| > |lits|
  {
    (if |lits| <= 18 then [|lits| - 3] else [0] + Counted(|lits| - 18)) + lits
  }

  lemma {:induction false} RunReads(s: seq<byte>, ip: nat, lits: seq<byte>)
    requires |lits| >= 4 && Holds(s, ip, RunBytes(lits))
    ensures var start := ip + |RunBytes(lits)| - |lits|;
            s[ip] < 16 && RunLength(s, ip) == Some((|lits|, start)) && Holds(s, start, lits)
  {
    var n := |lits|;
    var h := if n <= 18 then [n - 3] else [0] + Counted(n - 18);
    HoldsPart(s, ip, h, lits);
    HoldsAt(s, ip, h, 0);
    if n > 18 {
      HoldsPart(s, ip, [0], Counted(n - 18));
      CountedReads(s, ip + 1, n - 18);
    }
  }

  // ---------- streams ----------

  /** Literals and the match behind them. */
  datatype Piece = Piece(lits: seq<byte>, len: nat, dist: nat)

  const END_MARKER: seq<byte> := [M4_MARKER + 1, 0, 0]

  /** How the decoder stands behind n literals. */
  function Behind(n: nat): State
  {
    if n == 0 then Run else if n < 4 then Short else AfterRun
  }

  /** The literals that come next. */
  function Literals(ps: seq<Piece>, last: seq<byte>): seq<byte>
  {
    if ps == [] then last else ps[0].lits
  }

  /** STORE_RUN at the start of a stream. */
  function FirstBytes(lits: seq<byte>): seq<byte>
  {
    if lits == [] then [] else if |lits| <= 238 then [17 + |lits|] + lits else RunBytes(lits)
  }

  /** STORE_RUN behind a match, which holds the number of up to three literals itself. */
  function LaterBytes(lits: seq<byte>): seq<byte>
  {
    if |lits| < 4 then lits else RunBytes(lits)
  }

  function InMatch(lits: seq<byte>): (n: nat)
    ensures n < 4
  {
    if |lits| < 4 then |lits| else 0
  }

  /** What the pieces stand for, of which the first literals are at the end of out already. */
  function Meaning(ps: seq<Piece>, last: seq<byte>, out: seq<byte>): seq<byte>
    requires Sound(ps, last, out)
  {
    if ps == [] then out
    else Meaning(ps[1..], last, CopyMatch(out, ps[0].len, ps[0].dist) + Literals(ps[1..], last))
  }

  /** Every match can be coded, and reaches back into the output. */
  predicate Sound(ps: seq<Piece>, last: seq<byte>, out: seq<byte>)
  {
    ps != [] ==>
      && Codable(Behind(|ps[0].lits|), ps[0].len, ps[0].dist) && ps[0].dist <= |out|
      && Sound(ps[1..], last, CopyMatch(out, ps[0].len, ps[0].dist) + Literals(ps[1..], last))
  }

  /** The matches, each with the literals behind it, and the end marker. */
  function Tail(ps: seq<Piece>, last: seq<byte>, out: seq<byte>): seq<byte>
    requires Sound(ps, last, out)
  {
    if ps == [] then END_MARKER
    else
      var next := Literals(ps[1..], last);
      MatchBytes(Behind(|ps[0].lits|), ps[0].len, ps[0].dist, InMatch(next)) + LaterBytes(next)
      + Tail(ps[1..], last, CopyMatch(out, ps[0].len, ps[0].dist) + next)
  }

  /** What the compressor writes for literals and matches. */
  function Stream(ps: seq<Piece>, last: seq<byte>): seq<byte>
    requires Sound(ps, last, Literals(ps, last))
  {
    FirstBytes(Literals(ps, last)) + Tail(ps, last, Literals(ps, last))
  }

  /** A run, read in one step. */
  lemma {:induction false} StepRun(s: seq<byte>, ip: nat, out: seq<byte>, lits: seq<byte>)
    requires |lits| >= 4 && Holds(s, ip, RunBytes(lits))
    ensures Step(s, Config(ip, out, Run)) == Next(Config(ip + |RunBytes(lits)|, out + lits, AfterRun))
  {
    hide RunBytes, RunLength;
    RunReads(s, ip, lits);
    var start := ip + |RunBytes(lits)| - |lits|;
    assert s[start..start + |lits|] == lits;
  }

  /** A match with the literals whose number it holds. */
  lemma {:induction false} StepMatch(s: seq<byte>, ip: nat, st: State, out: seq<byte>, len: nat, dist: nat,
                                     lits: seq<byte>)
    requires Codable(st, len, dist) && dist <= |out| && |lits| < 4
    requires Holds(s, ip, MatchBytes(st, len, dist, |lits|) + lits)
    ensures Step(s, Config(ip, out, st)) ==
              Next(Config(ip + |MatchBytes(st, len, dist, |lits|)| + |lits|, CopyMatch(out, len, dist) + lits,
                          if lits == [] then Run else Short))
  {
    hide MatchBytes, ParseMatch, CopyMatch;
    HoldsPart(s, ip, MatchBytes(st, len, dist, |lits|), lits);
    MatchReads(s, ip, st, len, dist, |lits|);
  }

  /** A match and all literals behind it. */
  lemma {:induction false} FinishPiece(s: seq<byte>, ip: nat, st: State, out: seq<byte>, len: nat, dist: nat,
                                       lits: seq<byte>)
    requires Codable(st, len, dist) && dist <= |out|
    requires Holds(s, ip, MatchBytes(st, len, dist, InMatch(lits)) + LaterBytes(lits))
    ensures var next := ip + |MatchBytes(st, len, dist, InMatch(lits))| + |LaterBytes(lits)|;
            Finish(s, Config(ip, out, st))
            == Finish(s, Config(next, CopyMatch(out, len, dist) + lits, Behind(|lits|)))
  {
    hide MatchBytes, Step, RunBytes, CopyMatch;
    var b := MatchBytes(st, len, dist, InMatch(lits));
    if |lits| < 4 {
      StepMatch(s, ip, st, out, len, dist, lits);
      FinishStep(s, Config(ip, out, st));
    } else {
      HoldsPart(s, ip, b, RunBytes(lits));
      assert b + [] == b;
      StepMatch(s, ip, st, out, len, dist, []);
      FinishStep(s, Config(ip, out, st));
      var mid := CopyMatch(out, len, dist);
      assert mid + [] == mid;
      StepRun(s, ip + |b|, mid, lits);
      FinishStep(s, Config(ip + |b|, mid, Run));
    }
  }

  lemma FinishStep(s: seq<byte>, c: Config)
    requires Step(s, c).Next?
    ensures Finish(s, c) == Finish(s, Step(s, c).c)
  {
    hide Step;
  }

  lemma {:induction false} EndReads(s: seq<byte>, ip: nat, st: State, out: seq<byte>)
    requires Holds(s, ip, END_MARKER)
    ensures Finish(s, Config(ip, out, st)) == Some((out, ip + 3))
  {
    hide CopyMatch, Finish;
    EndParses(s, ip);
    hide ParseLong;
    assert Step(s, Config(ip, out, st)) == Eof(out, ip + 3);
    FinishEnd(s, Config(ip, out, st));
  }

  lemma FinishEnd(s: seq<byte>, c: Config)
    requires Step(s, c).Eof?
    ensures Finish(s, c) == Some((Step(s, c).out, Step(s, c).ip))
  {
    hide Step;
  }

  lemma {:induction false} EndParses(s: seq<byte>, ip: nat)
    requires Holds(s, ip, END_MARKER)
    ensures s[ip] == 17 && ParseLong(s, ip, 17) == End(ip + 3)
  {
    hide Ext;
    HoldsAt(s, ip, END_MARKER, 0);
    HoldsAt(s, ip, END_MARKER, 1);
    HoldsAt(s, ip, END_MARKER, 2);
  }

  lemma {:induction false} TailReads(s: seq<byte>, ip: nat, ps: seq<Piece>, last: seq<byte>, out: seq<byte>)
    requires Sound(ps, last, out) && Holds(s, ip, Tail(ps, last, out))
    ensures Finish(s, Config(ip, out, Behind(|Literals(ps, last)|)))
         == Some((Meaning(ps, last, out), ip + |Tail(ps, last, out)|))
    decreases |ps|
  {
    hide MatchBytes, LaterBytes, Finish, CopyMatch, Behind, Holds;
    if ps == [] {
      EndReads(s, ip, Behind(|last|), out);
    } else {
      var st, next := Behind(|ps[0].lits|), Literals(ps[1..], last);
      var a := MatchBytes(st, ps[0].len, ps[0].dist, InMatch(next)) + LaterBytes(next);
      var out' := CopyMatch(out, ps[0].len, ps[0].dist) + next;
      HoldsPart(s, ip, a, Tail(ps[1..], last, out'));
      FinishPiece(s, ip, st, out, ps[0].len, ps[0].dist, next);
      TailReads(s, ip + |a|, ps[1..], last, out');
    }
  }

  lemma {:induction false} StartReads(s: seq<byte>, lits: seq<byte>, tail: seq<byte>)
    requires s == FirstBytes(lits) + tail && (lits == [] ==> tail != [] && tail[0] <= 17)
    ensures Start(s).Some? && Finish(s, Start(s).value) == Finish(s, Config(|FirstBytes(lits)|, lits, Behind(|lits|)))
  {
    hide Finish, Step, Counted;
    if 238 < |lits| {
      var b := RunBytes(lits);
      assert s[0..0 + |b|] == b;
      assert b[0] == 0;
      StepRun(s, 0, [], lits);
      assert [] + lits == lits;
      FinishStep(s, Config(0, [], Run));
    } else if lits != [] {
      assert s[1..1 + |lits|] == lits;
    }
  }

  /** Every stream that the compressor writes decodes to what its literals and matches stand for, up to its last
      byte. */
  lemma {:induction false} StreamReads(ps: seq<Piece>, last: seq<byte>)
    requires Sound(ps, last, Literals(ps, last))
    ensures Decode(Stream(ps, last)) == Some((Meaning(ps, last, Literals(ps, last)), |Stream(ps, last)|))
  {
    hide Finish, Start, FirstBytes, Tail, Meaning, Sound, Literals, Behind, Step, CopyMatch, MatchBytes, LaterBytes;
    var s, lits := Stream(ps, last), Literals(ps, last);
    var tail := Tail(ps, last, lits);
    TailStarts(ps, last, lits);
    assert s == FirstBytes(lits) + tail;
    hide Stream;
    StartReads(s, lits, tail);
    var n := |FirstBytes(lits)|;
    assert Holds(s, n, tail) by { assert s[n..n + |tail|] == tail; }
    TailReads(s, n, ps, last, lits);
  }

  /** A stream without literals has no matches either. */
  lemma {:induction false} TailStarts(ps: seq<Piece>, last: seq<byte>, out: seq<byte>)
    requires Sound(ps, last, out)
    ensures out == [] ==> Tail(ps, last, out) == END_MARKER
  {
  }
}
