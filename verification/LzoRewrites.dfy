/** Which changes to a stream the decoder cannot tell: the rewrites of lzo1x_optimize, as laws about the format. */
module LzoRewrites {
  import opened Bits
  import opened Options
  import opened Rfc1951
  import opened Lzo1x

  // ---------- what a step depends on ----------

  lemma {:induction false} ExtLocal(s: seq<byte>, s': seq<byte>, ip: nat, k: nat)
    requires Ext(s, ip).Some? && Ext(s, ip).value.1 <= k <= |s| == |s'| && forall i :: ip <= i < k ==> s'[i] == s[i]
    ensures Ext(s', ip) == Ext(s, ip)
    decreases |s| - ip
  {
    ExtAfter(s, ip);
    if s[ip] == 0 {
      ExtAfter(s, ip + 1);
      ExtLocal(s, s', ip + 1, k);
    }
  }

  lemma {:induction false} ExtSuffix(s: seq<byte>, s': seq<byte>, ip: nat)
    requires |s| == |s'| && forall i :: ip <= i < |s| ==> s'[i] == s[i]
    ensures Ext(s', ip) == Ext(s, ip)
    decreases |s| - ip
  {
    if ip < |s| && s[ip] == 0 {
      ExtSuffix(s, s', ip + 1);
    }
  }

  lemma QuarterSame(t: nat, t': nat, b: nat)
    requires t / 4 == t' / 4
    ensures NearDist(t', b) == NearDist(t, b) && M2Dist(t', b) == M2Dist(t, b) && t' / 32 == t / 32
    ensures (t' >= 16 <==> t >= 16) && (t' >= 64 <==> t >= 64)
    ensures FarBits(t', b) == FarBits(t, b)
  {
    assert t / 32 == t / 4 / 8 && t' / 32 == t' / 4 / 8;
    assert (t >= 16 <==> t / 4 >= 4) && (t >= 64 <==> t / 4 >= 16);
    assert (t' >= 16 <==> t' / 4 >= 4) && (t' >= 64 <==> t' / 4 >= 16);
  }

  lemma LongRetail(s: seq<byte>, s': seq<byte>, ip: nat, t: nat)
    requires ip < |s| == |s'| && ParseLong(s, ip, t).Copy?
    requires ip + 3 <= ParseLong(s, ip, t).next <= |s|
    requires forall i :: ip <= i < |s| && i < ParseLong(s, ip, t).next && i != ParseLong(s, ip, t).next - 2 ==>
        s'[i] == s[i]
    requires s'[ParseLong(s, ip, t).next - 2] / 4 == s[ParseLong(s, ip, t).next - 2] / 4
    ensures ParseLong(s', ip, t) == ParseLong(s, ip, t)
  {
    hide FarBits;
    var next := ParseLong(s, ip, t).next;
    QuarterSame(s[next - 2], s'[next - 2], s[next - 1]);
    assert s'[next - 1] == s[next - 1];
    if (if t >= 32 then t % 32 else t % 8) == 0 {
      ExtLocal(s, s', ip + 1, next - 2);
    }
  }

  /** A match does not depend on the two bits that count the literals behind it. */
  lemma ParseRetail(s: seq<byte>, s': seq<byte>, ip: nat, st: State, next: nat)
    requires ip < |s| == |s'| && ParseMatch(s, ip, st).Copy? && next == ParseMatch(s, ip, st).next
        && ip + 2 <= next <= |s|
    requires forall i :: ip <= i < next && i != next - 2 ==> s'[i] == s[i]
    requires s'[next - 2] / 4 == s[next - 2] / 4
    ensures ParseMatch(s', ip, st) == ParseMatch(s, ip, st)
  {
    hide NearDist, M2Dist, FarBits, M4Bits, ParseLong;
    if 16 <= s[ip] < 64 {
      LongAfter(s, ip);
      assert s'[ip] == s[ip];
      LongRetail(s, s', ip, s[ip]);
    } else {
      QuarterSame(s[ip], s'[ip], s[ip + 1]);
    }
  }

  /** A match depends only on the bytes from ip on; after 16 or more, not even on the state. */
  lemma ParseSuffix(s: seq<byte>, s': seq<byte>, ip: nat, st: State, st': State)
    requires ip < |s| == |s'| && (st' == st || s[ip] >= 16) && forall i :: ip <= i < |s| ==> s'[i] == s[i]
    ensures ParseMatch(s', ip, st') == ParseMatch(s, ip, st)
  {
    hide NearDist, M2Dist, ParseLong;
    assert s'[ip] == s[ip];
    if ip + 2 <= |s| {
      assert s'[ip + 1] == s[ip + 1];
    }
    LongSuffix(s, s', ip, s[ip]);
  }

  lemma LongSuffix(s: seq<byte>, s': seq<byte>, ip: nat, t: nat)
    requires ip < |s| == |s'| && forall i :: ip <= i < |s| ==> s'[i] == s[i]
    ensures ParseLong(s', ip, t) == ParseLong(s, ip, t)
  {
    hide FarBits, M4Bits;
    ExtSuffix(s, s', ip + 1);
    ExtAfter(s, ip + 1);
    match Length(s, ip + 1, if t >= 32 then t % 32 else t % 8, if t >= 32 then 31 else 7)
    case None =>
    case Some((_, at)) =>
      if at + 2 <= |s| {
        assert s'[at] == s[at] && s'[at + 1] == s[at + 1];
      }
  }

  lemma SliceSame(s: seq<byte>, s': seq<byte>, a: nat, b: nat)
    requires a <= b <= |s| == |s'| && forall i :: a <= i < b ==> s'[i] == s[i]
    ensures s'[a..b] == s[a..b]
  {
  }

  lemma RunSuffix(s: seq<byte>, s': seq<byte>, ip: nat)
    requires ip < |s| == |s'| && forall i :: ip <= i < |s| ==> s'[i] == s[i]
    ensures s'[ip] < 16 && s[ip] < 16 ==> RunLength(s', ip) == RunLength(s, ip)
  {
    hide Ext;
    ExtSuffix(s, s', ip + 1);
  }

  lemma StepSuffix(s: seq<byte>, s': seq<byte>, c: Config, c': Config)
    requires |s| == |s'| && c'.ip == c.ip < |s| && c'.out == c.out && (c'.st == c.st || s[c.ip] >= 16)
    requires forall i :: c.ip <= i < |s| ==> s'[i] == s[i]
    ensures Step(s', c') == Step(s, c)
  {
    hide CopyMatch, ParseMatch;
    ParseSuffix(s, s', c.ip, c.st, c'.st);
    assert s'[c.ip] == s[c.ip];
    RunSuffix(s, s', c.ip);
    hide RunLength, Ext;
    if c.st.Run? && s[c.ip] < 16 {
      RunAfter(s, c.ip);
      if Step(s, c).Next? {
        var (n, start) := RunLength(s, c.ip).value;
        SliceSame(s, s', start, start + n);
      }
    } else {
      ParseAfter(s, c.ip, c.st);
      if Step(s, c).Next? {
        var next := ParseMatch(s, c.ip, c.st).next;
        assert s'[next - 2] == s[next - 2];
        SliceSame(s, s', next, Step(s, c).c.ip);
      }
    }
  }

  lemma RunAfter(s: seq<byte>, ip: nat)
    requires ip < |s|
    ensures RunLength(s, ip).Some? ==> ip < RunLength(s, ip).value.1 <= |s| && RunLength(s, ip).value.0 > 3
    ensures RunLength(s, ip).Some? && RunLength(s, ip).value.0 < 19 ==>
        s[ip] == RunLength(s, ip).value.0 - 3 && RunLength(s, ip).value.1 == ip + 1
  {
    ExtAfter(s, ip + 1);
  }

  /** The same bytes ahead, and a state that makes no difference: the same result. */
  lemma {:induction false} FinishSuffix(s: seq<byte>, s': seq<byte>, c: Config, c': Config)
    requires |s| == |s'| && c'.ip == c.ip && c'.out == c.out && (c'.st == c.st || (c.ip < |s| && s[c.ip] >= 16))
    requires forall i :: c.ip <= i < |s| ==> s'[i] == s[i]
    ensures Finish(s', c') == Finish(s, c)
    decreases |s| - c.ip
  {
    hide CopyMatch, ParseMatch;
    if c.ip < |s| {
      StepSuffix(s, s', c, c');
      Advances(s, c);
      if Step(s, c).Next? {
        FinishSuffix(s, s', Step(s, c).c, Step(s, c).c);
      }
    }
  }

  // ---------- reaching a configuration ----------

  /** The configuration after n instructions. */
  ghost function Iter(s: seq<byte>, n: nat): Option<Config>
  {
    if n == 0 then Start(s)
    else match Iter(s, n - 1)
      case None => None
      case Some(c) => match Step(s, c)
        case Next(c') => Some(c')
        case _ => None
  }

  lemma {:induction false} IterFinish(s: seq<byte>, n: nat)
    requires Iter(s, n).Some?
    ensures Decode(s) == Finish(s, Iter(s, n).value)
  {
    if n > 0 {
      IterFinish(s, n - 1);
    }
  }

  lemma {:induction false} IterStart(s: seq<byte>, n: nat)
    requires Iter(s, n).Some?
    ensures Iter(s, n).value.ip <= |s| && s != [] && (Iter(s, n).value.ip == 0 ==> n == 0 && Iter(s, n).value.out == [])
  {
    if n > 0 {
      IterStart(s, n - 1);
      Advances(s, Iter(s, n - 1).value);
    }
  }

  /** A step reads only bytes below the position it leads to. */
  lemma StepLocal(s: seq<byte>, s': seq<byte>, c: Config)
    requires |s| == |s'| && Step(s, c).Next? && forall i :: c.ip <= i < Step(s, c).c.ip && i < |s| ==> s'[i] == s[i]
    ensures Step(s', c) == Step(s, c)
  {
    hide CopyMatch, ParseMatch, RunLength;
    Advances(s, c);
    var end := Step(s, c).c.ip;
    assert s'[c.ip] == s[c.ip];
    if c.st.Run? && s[c.ip] < 16 {
      RunAfter(s, c.ip);
      var (n, start) := RunLength(s, c.ip).value;
      RunLocal(s, s', c.ip);
      SliceSame(s, s', start, end);
    } else {
      ParseAfter(s, c.ip, c.st);
      var next := ParseMatch(s, c.ip, c.st).next;
      ParseRetail(s, s', c.ip, c.st, next);
      SliceSame(s, s', next, end);
    }
  }

  lemma RunLocal(s: seq<byte>, s': seq<byte>, ip: nat)
    requires ip < |s| == |s'| && RunLength(s, ip).Some?
    requires forall i :: ip <= i < RunLength(s, ip).value.1 && i < |s| ==> s'[i] == s[i]
    ensures RunLength(s', ip) == RunLength(s, ip)
  {
    RunAfter(s, ip);
    assert s'[ip] == s[ip];
    if s[ip] == 0 {
      ExtLocal(s, s', ip + 1, RunLength(s, ip).value.1);
    }
  }

  lemma {:induction false} IterLocal(s: seq<byte>, s': seq<byte>, n: nat)
    requires Iter(s, n).Some? && |s| == |s'| && forall i :: 0 <= i < Iter(s, n).value.ip && i < |s| ==> s'[i] == s[i]
    requires Iter(s, n).value.ip == 0 ==> |s| > 0 && s'[0] <= 17
    ensures Iter(s', n) == Iter(s, n)
  {
    hide Step;
    IterStart(s, n);
    if n > 0 {
      var c := Iter(s, n - 1).value;
      Advances(s, c);
      IterStart(s, n - 1);
      if c.ip == 0 {
        StartZero(s);
      }
      IterLocal(s, s', n - 1);
      StepLocal(s, s', c);
    } else {
      StartLocal(s, s');
    }
  }

  lemma StartZero(s: seq<byte>)
    requires Start(s).Some? && Start(s).value.ip == 0
    ensures s[0] <= 17
  {
  }

  lemma StartLocal(s: seq<byte>, s': seq<byte>)
    requires Start(s).Some? && |s| == |s'| && forall i :: 0 <= i < Start(s).value.ip && i < |s| ==> s'[i] == s[i]
    requires Start(s).value.ip == 0 ==> s'[0] <= 17
    ensures Start(s') == Start(s)
  {
    if s[0] > 17 {
      assert s'[0] == s[0];
      var n := s[0] - 17;
      SliceSame(s, s', 1, 1 + n);
    }
  }

  // ---------- the last instruction, and how it may change ----------

  /** The instruction at a is a match that ends at next, with mo as the output so far. */
  ghost predicate EndsMatch(s: seq<byte>, a: Config, next: nat, mo: seq<byte>)
  {
    && a.ip + 2 <= next <= |s| && !(a.st.Run? && s[a.ip] < 16)
    && var m := ParseMatch(s, a.ip, a.st);
       m.Copy? && m.next == next && 1 <= m.dist <= |a.out| && mo == CopyMatch(a.out, m.len, m.dist)
  }

  /** The last instruction was a match; its literal count is in the byte at litp, and lit literals follow it up to ip.
      */
  ghost predicate MatchTail(s: seq<byte>, n: nat, a: Config, mo: seq<byte>, litp: nat, lit: nat, ip: nat,
      out: seq<byte>)
  {
    && Iter(s, n) == Some(a) && EndsMatch(s, a, litp + 2, mo)
    && ip == litp + 2 + lit <= |s| && s[litp] % 4 == lit && out == mo + s[litp + 2..ip]
  }

  /** The last instruction was a literal run at litp, of lit literals, up to ip. */
  ghost predicate RunTail(s: seq<byte>, n: nat, a: Config, litp: nat, lit: nat, ip: nat, out: seq<byte>)
  {
    && Iter(s, n) == Some(a) && a.ip == litp < |s| && a.st.Run? && s[litp] < 16
    && lit <= ip <= |s| && RunLength(s, litp) == Some((lit, ip - lit)) && out == a.out + s[ip - lit..ip]
  }

  lemma MatchTailReached(s: seq<byte>, n: nat, a: Config, mo: seq<byte>, litp: nat, lit: nat, ip: nat, out: seq<byte>)
    requires MatchTail(s, n, a, mo, litp, lit, ip, out)
    ensures Iter(s, n + 1) == Some(Config(ip, out, if lit == 0 then Run else Short))
  {
    hide CopyMatch, ParseMatch;
  }

  lemma RunTailReached(s: seq<byte>, n: nat, a: Config, litp: nat, lit: nat, ip: nat, out: seq<byte>)
    requires RunTail(s, n, a, litp, lit, ip, out)
    ensures Iter(s, n + 1) == Some(Config(ip, out, AfterRun))
  {
    hide RunLength;
  }

  /** A match can be given another literal count. */
  lemma Retailed(s: seq<byte>, s': seq<byte>, n: nat, a: Config, mo: seq<byte>, litp: nat)
    requires Iter(s, n) == Some(a) && EndsMatch(s, a, litp + 2, mo) && |s'| == |s|
    requires s'[..litp] == s[..litp] && s'[litp] / 4 == s[litp] / 4 && s'[litp + 1] == s[litp + 1]
    ensures Iter(s', n) == Some(a) && EndsMatch(s', a, litp + 2, mo)
  {
    hide CopyMatch, ParseMatch, Iter;
    forall i | 0 <= i < litp + 2 && i != litp
      ensures s'[i] == s[i]
    {
      if i < litp {
        assert s'[..litp][i] == s[..litp][i];
      }
    }
    IterStart(s, n);
    IterLocal(s, s', n);
    ParseRetail(s, s', a.ip, a.st, litp + 2);
    QuarterSame(s[litp], s'[litp], 0);
  }

  lemma JoinSlices(s: seq<byte>, a: nat, b: nat, c: nat)
    requires a <= b <= c <= |s|
    ensures s[a..c] == s[a..b] + s[b..c]
  {
  }

  /** Bytes behind the literals of a match become literals too: three in all. */
  lemma ShortGrows(s: seq<byte>, s': seq<byte>, n: nat, a: Config, mo: seq<byte>, litp: nat, lit: nat, ip: nat,
      out: seq<byte>,
                   bs: seq<byte>)
    requires MatchTail(s, n, a, mo, litp, lit, ip, out) && lit + |bs| == 3 && ip + |bs| <= |s| == |s'|
    requires s'[..litp] == s[..litp] && s'[litp] / 4 == s[litp] / 4 && s'[litp] % 4 == 3 && s'[litp + 1] == s[litp + 1]
    requires s'[litp + 2..ip] == s[litp + 2..ip] && s'[ip..ip + |bs|] == bs
    ensures MatchTail(s', n, a, mo, litp, 3, ip + |bs|, out + bs)
  {
    hide Iter, EndsMatch;
    Retailed(s, s', n, a, mo, litp);
    JoinSlices(s', litp + 2, ip, ip + |bs|);
  }

  /** The literals of a match, bytes behind them and the run that follows become one run. */
  lemma MatchBecomesRun(s: seq<byte>, s': seq<byte>, n: nat, a: Config, mo: seq<byte>, litp: nat, lit: nat, ip: nat,
      out: seq<byte>,
                        bs: seq<byte>, t: nat, at: nat)
    requires MatchTail(s, n, a, mo, litp, lit, ip, out) && at == ip + |bs| + 1 && at + t + 3 <= |s| == |s'|
        && 0 < lit + |bs| + t < 16
    requires s'[..litp] == s[..litp] && s'[litp] / 4 == s[litp] / 4 && s'[litp] % 4 == 0 && s'[litp + 1] == s[litp + 1]
    requires s'[litp + 2] == lit + |bs| + t && s'[litp + 3..litp + 3 + lit] == s[litp + 2..ip]
        && s'[litp + 3 + lit..at] == bs
    ensures RunTail(s', n + 1, Config(litp + 2, mo, Run), litp + 2, lit + |bs| + t + 3, at + t + 3, out + bs
        + s'[at..at + t + 3])
  {
    hide EndsMatch, Iter;
    Retailed(s, s', n, a, mo, litp);
    assert MatchTail(s', n, a, mo, litp, 0, litp + 2, mo);
    MatchTailReached(s', n, a, mo, litp, 0, litp + 2, mo);
    OneByteRun(s', litp + 2);
    ThreePieces(s', litp + 3, litp + 3 + lit, at, at + t + 3);
    RegroupFour(mo, s[litp + 2..ip], bs, s'[at..at + t + 3]);
  }

  lemma OneByteRun(s: seq<byte>, ip: nat)
    requires ip < |s| && 0 < s[ip]
    ensures var t: nat := s[ip]; RunLength(s, ip) == Some((t + 3, ip + 1))
  {
  }

  lemma ThreePieces(s: seq<byte>, a: nat, b: nat, c: nat, d: nat)
    requires a <= b <= c <= d <= |s|
    ensures s[a..d] == s[a..b] + s[b..c] + s[c..d]
  {
  }

  lemma RegroupFour(a: seq<byte>, b: seq<byte>, c: seq<byte>, d: seq<byte>)
    ensures a + (b + c + d) == a + b + c + d
  {
  }

  /** A short run, bytes behind it and the run that follows become one run. */
  lemma RunGrows(s: seq<byte>, s': seq<byte>, n: nat, a: Config, litp: nat, lit: nat, ip: nat, out: seq<byte>,
                 bs: seq<byte>, t: nat, at: nat)
    requires RunTail(s, n, a, litp, lit, ip, out) && at == ip + |bs| && at + t + 3 <= |s| == |s'| && lit + |bs| + t < 16
    requires s'[..litp] == s[..litp] && s'[litp] == lit + |bs| + t && s'[litp + 1..ip] == s[litp + 1..ip]
        && s'[ip..at] == bs
    ensures RunTail(s', n, a, litp, lit + |bs| + t + 3, at + t + 3, out + bs + s'[at..at + t + 3])
  {
    hide Iter, RunLength;
    RunAfter(s, litp);
    IterStart(s, n);
    SameBelow(s, s', litp);
    IterLocal(s, s', n);
    OneByteRun(s', litp);
    ThreePieces(s', litp + 1, ip, at, at + t + 3);
    RegroupFour(a.out, s[litp + 1..ip], bs, s'[at..at + t + 3]);
  }

  lemma SameBelow(s: seq<byte>, s': seq<byte>, k: nat)
    requires k <= |s| == |s'| && s'[..k] == s[..k]
    ensures forall i :: 0 <= i < k ==> s'[i] == s[i]
  {
    forall i | 0 <= i < k
      ensures s'[i] == s[i]
    {
      assert s'[..k][i] == s[..k][i];
    }
  }

  // ---------- following a decoder along two streams ----------

  datatype Last = Nothing | MatchLast | RunLast

  /** In s the decoder gets to ip with output o, in a state that its next instruction cannot tell from st;
      litp and lit describe the last instruction. */
  ghost predicate Follows(s: seq<byte>, n: nat, a: Config, mo: seq<byte>, last: Last, litp: int, lit: nat,
                          ip: nat, o: seq<byte>, st: State)
  {
    match last
    case Nothing => litp == -1 && Iter(s, n) == Some(Config(ip, o, st))
    case MatchLast =>
      && litp >= 0 && MatchTail(s, n, a, mo, litp, lit, ip, o)
      && (st == (if lit == 0 then Run else Short) || (st.Run? && ip < |s| && s[ip] >= 16))
    case RunLast => litp >= 0 && RunTail(s, n, a, litp, lit, ip, o) && st.AfterRun?
  }

  /** How many instructions lead to where the decoder stands. */
  function Total(n: nat, last: Last): nat
  {
    if last.Nothing? then n else n + 1
  }

  lemma Reached(s: seq<byte>, n: nat, a: Config, mo: seq<byte>, last: Last, litp: int, lit: nat, ip: nat, o: seq<byte>,
      st: State)
    returns (m: nat, cst: State)
    requires Follows(s, n, a, mo, last, litp, lit, ip, o, st)
    ensures Iter(s, m) == Some(Config(ip, o, cst)) && (cst == st || (ip < |s| && s[ip] >= 16))
    ensures m == Total(n, last)
  {
    hide Iter, MatchTail, RunTail;
    match last
    case Nothing => m, cst := n, st;
    case MatchLast =>
      MatchTailReached(s, n, a, mo, litp, lit, ip, o);
      m, cst := n + 1, if lit == 0 then Run else Short;
    case RunLast =>
      RunTailReached(s, n, a, litp, lit, ip, o);
      m, cst := n + 1, AfterRun;
  }

  /** A stream that follows another decodes to the same bytes. */
  lemma SameDecoding(orig: seq<byte>, s: seq<byte>, n: nat, a: Config, mo: seq<byte>, last: Last, litp: int, lit: nat,
                     ip: nat, o: seq<byte>, st: State)
    requires Follows(s, n, a, mo, last, litp, lit, ip, o, st) && |s| == |orig| && ip <= |s| && s[ip..] == orig[ip..]
    ensures Decode(s) == Finish(orig, Config(ip, o, st))
  {
    hide Iter, Follows, Finish;
    var m, cst := Reached(s, n, a, mo, last, litp, lit, ip, o, st);
    IterFinish(s, m);
    forall i | ip <= i < |s|
      ensures s[i] == orig[i]
    {
      assert s[ip..][i - ip] == orig[ip..][i - ip];
    }
    FinishSuffix(orig, s, Config(ip, o, st), Config(ip, o, cst));
  }

  /** The stream has n instructions in front of its end marker. */
  ghost predicate EndsAfter(s: seq<byte>, n: nat)
  {
    Iter(s, n).Some? && Step(s, Iter(s, n).value).Eof?
  }

  lemma {:induction false} IterDown(s: seq<byte>, n: nat, m: nat)
    requires m <= n && Iter(s, n).Some?
    ensures Iter(s, m).Some? && (m < n ==> Step(s, Iter(s, m).value).Next?)
  {
    hide Step;
    if m < n {
      IterDown(s, n - 1, m);
    }
  }

  /** That number is unique. */
  lemma {:induction false} EndsOnce(s: seq<byte>, n: nat, m: nat)
    requires EndsAfter(s, n) && EndsAfter(s, m)
    ensures n == m
  {
    hide Step, Iter;
    if n < m {
      IterDown(s, m, n);
    } else if m < n {
      IterDown(s, n, m);
    }
  }

  /** The second stream takes d instructions fewer than the first. */
  ghost predicate ShorterBy(orig: seq<byte>, s: seq<byte>, d: nat)
  {
    && (exists k: nat :: EndsAfter(s, k))
    && forall k: nat, k': nat :: EndsAfter(orig, k) && EndsAfter(s, k') ==> k == k' + d
  }

  lemma ShorterFrom(orig: seq<byte>, s: seq<byte>, left: nat, d: nat)
    requires EndsAfter(s, left) && EndsAfter(orig, left + d)
    ensures ShorterBy(orig, s, d)
  {
    hide EndsAfter;
    forall k: nat, k': nat | EndsAfter(orig, k) && EndsAfter(s, k')
      ensures k == k' + d
    {
      EndsOnce(orig, k, left + d);
      EndsOnce(s, k', left);
    }
  }

  lemma {:induction false} IterNext(s: seq<byte>, n: nat, c: Config, c': Config)
    requires Iter(s, n) == Some(c) && Step(s, c) == Next(c')
    ensures Iter(s, n + 1) == Some(c')
  {
    hide Step;
  }

  /** At the end marker of the original the stream that follows it ends too. */
  lemma SameEnd(orig: seq<byte>, s: seq<byte>, n: nat, a: Config, mo: seq<byte>, last: Last, litp: int, lit: nat,
                ip: nat, o: seq<byte>, st: State)
    requires Follows(s, n, a, mo, last, litp, lit, ip, o, st) && |s| == |orig| && ip < |s| && s[ip..] == orig[ip..]
    requires Step(orig, Config(ip, o, st)).Eof?
    ensures EndsAfter(s, Total(n, last))
  {
    hide Iter, Follows, Step;
    var m, cst := Reached(s, n, a, mo, last, litp, lit, ip, o, st);
    forall i | ip <= i < |s|
      ensures s[i] == orig[i]
    {
      assert s[ip..][i - ip] == orig[ip..][i - ip];
    }
    StepSuffix(orig, s, Config(ip, o, st), Config(ip, o, cst));
  }

  /** After a match that stays as it is. */
  lemma FollowMatch(s: seq<byte>, n: nat, a: Config, mo: seq<byte>, last: Last, litp: int, lit: nat, ip: nat,
      o: seq<byte>, st: State,
                    c': Config, next: nat) returns (m: nat, b: Config, no: seq<byte>)
    requires Follows(s, n, a, mo, last, litp, lit, ip, o, st) && ip < |s| && !(st.Run? && s[ip] < 16)
    requires Step(s, Config(ip, o, st)) == Next(c') && ParseMatch(s, ip, st).Copy? && ParseMatch(s, ip, st).next == next
    ensures next >= 2 && next <= |s| && Follows(s, m, b, no, MatchLast, next - 2, s[next - 2] % 4, c'.ip, c'.out, c'.st)
    ensures m == Total(n, last)
  {
    hide Iter, Follows, ParseMatch, CopyMatch;
    var cst;
    m, cst := Reached(s, n, a, mo, last, litp, lit, ip, o, st);
    ParseSuffix(s, s, ip, st, cst);
    ParseAfter(s, ip, st);
    b := Config(ip, o, cst);
    no := CopyMatch(o, ParseMatch(s, ip, st).len, ParseMatch(s, ip, st).dist);
    FoldMatch(s, m, b, no, next - 2, s[next - 2] % 4, c'.ip, c'.out, c'.st);
  }

  lemma FoldMatch(s: seq<byte>, n: nat, a: Config, mo: seq<byte>, litp: int, lit: nat, ip: nat, o: seq<byte>, st: State)
    requires litp >= 0 && MatchTail(s, n, a, mo, litp, lit, ip, o)
    requires st == (if lit == 0 then Run else Short) || (st.Run? && ip < |s| && s[ip] >= 16)
    ensures Follows(s, n, a, mo, MatchLast, litp, lit, ip, o, st)
  {
  }

  /** After a literal run. */
  lemma FollowRun(s: seq<byte>, n: nat, a: Config, mo: seq<byte>, last: Last, litp: int, lit: nat, ip: nat,
      o: seq<byte>, k: nat, start: nat)
    returns (m: nat, b: Config)
    requires Follows(s, n, a, mo, last, litp, lit, ip, o, Run) && ip < |s| && s[ip] < 16
    requires RunLength(s, ip) == Some((k, start)) && start + k <= |s|
    ensures Follows(s, m, b, mo, RunLast, ip, k, start + k, o + s[start..start + k], AfterRun)
    ensures m == Total(n, last)
  {
    hide Iter, Follows, RunLength;
    var cst;
    m, cst := Reached(s, n, a, mo, last, litp, lit, ip, o, Run);
    b := Config(ip, o, Run);
    FoldRun(s, m, b, mo, ip, k, start + k, o + s[start..start + k]);
  }

  lemma FoldRun(s: seq<byte>, n: nat, a: Config, mo: seq<byte>, litp: int, lit: nat, ip: nat, o: seq<byte>)
    requires litp >= 0 && RunTail(s, n, a, litp, lit, ip, o)
    ensures Follows(s, n, a, mo, RunLast, litp, lit, ip, o, AfterRun)
  {
  }

  lemma {:induction false} FinishGrows(s: seq<byte>, c: Config)
    requires Finish(s, c).Some?
    ensures c.ip < |s| && |c.out| <= |Finish(s, c).value.0| && Finish(s, c).value.1 <= |s|
    decreases |s| - c.ip
  {
    hide ParseMatch, RunLength;
    Advances(s, c);
    if Step(s, c).Next? {
      FinishGrows(s, Step(s, c).c);
    } else {
      ParseAfter(s, c.ip, c.st);
    }
  }
}
