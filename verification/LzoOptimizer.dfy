/** lzo1x_optimize: decodes a stream and, on the way, turns short matches into literals, in place. */
module LzoOptimizing {
  import opened Bits
  import opened Options
  import opened Rfc1951
  import opened Lzo1x
  import opened LzoRewrites

  const LZO_E_OK := 0
  const LZO_E_INPUT_NOT_CONSUMED := -8

  /** How often each of the five rewrites was made. */
  datatype Rewrites = Rewrites(m1a: nat, m1b: nat, m2: nat, m3a: nat, m3b: nat)

  /** How many instructions the rewrites remove. */
  function Saved(r: Rewrites): nat
  {
    r.m1a + r.m1b + 2 * r.m2 + r.m3a + r.m3b
  }

  /** One rewrite of the first kind, of a match of k bytes: its bytes become literals of the match before it. */
  function MoreShort(c: Rewrites, k: nat): (r: Rewrites)
    ensures Saved(r) == Saved(c) + 1
  {
    if k == 2 then c.(m1a := c.m1a + 1) else c.(m3a := c.m3a + 1)
  }

  /** One rewrite of the second kind: its bytes become part of a run. */
  function MoreRun(c: Rewrites, k: nat): (r: Rewrites)
    ensures Saved(r) == Saved(c) + 1
  {
    if k == 2 then c.(m1b := c.m1b + 1) else c.(m3b := c.m3b + 1)
  }

  class Optimizer {
    const inp: array<byte>
    const out: array<byte>
    const outLen: nat
    var ip: nat
    var op: nat
    var litp: int   // -1 for NULL
    var lit: nat
    var st: State   // where the code stands: at the outer loop, behind a literal run, or in the inner loop
    var count: Rewrites
    ghost const orig: seq<byte>
    ghost const result: (seq<byte>, nat)
    ghost var steps: nat
    ghost var n: nat
    ghost var a: Config
    ghost var mo: seq<byte>
    ghost var last: Last

    /** The output so far is right for the original stream, and the stream as it is now leads to the same point. */
    ghost predicate Valid()
      reads `ip, `op, `litp, `lit, `st, `n, `a, `mo, `last, inp, out
    {
      && inp != out && |orig| == inp.Length && ip <= inp.Length && op <= out.Length
         && |result.0| <= outLen <= out.Length
      && inp[ip..] == orig[ip..]
      && Finish(orig, Config(ip, out[..op], st)) == Some(result)
      && Follows(inp[..], n, a, mo, last, litp, lit, ip, out[..op], st)
    }

    /** The instructions of the original so far are those of the stream as it is now and those the rewrites removed. */
    ghost predicate Counted()
      reads `ip, `op, `st, `count, `steps, `n, `last, out
    {
      op <= out.Length && Iter(orig, steps) == Some(Config(ip, out[..op], st)) && steps == Total(n, last) + Saved(count)
    }

    /** do *op++ = *ip++; k times. */
    method CopyLiterals(k: nat)
      requires ip + k <= inp.Length && op + k <= out.Length && inp != out
      modifies `ip, `op, out
      ensures ip == old(ip) + k && op == old(op) + k && out[..op] == old(out[..op]) + inp[old(ip)..ip]
    {
      ghost var before := out[..op];
      var i := 0;
      while i < k
        invariant i <= k && ip == old(ip) + i && op == old(op) + i && out[..op] == before + inp[old(ip)..ip]
      {
        out[op] := inp[ip];
        ip, op := ip + 1, op + 1;
        i := i + 1;
        assert out[..op] == out[..op - 1] + [inp[ip - 1]];
        assert inp[old(ip)..ip] == inp[old(ip)..ip - 1] + [inp[ip - 1]];
      }
    }

    /** *op++ = *m_pos++; len times. */
    method CopyBack(len: nat, dist: nat)
      requires 1 <= dist <= op && op + len <= out.Length
      modifies `op, out
      ensures op == old(op) + len && out[..op] == CopyMatch(old(out[..op]), len, dist)
    {
      ghost var whole := CopyMatch(out[..op], len, dist);
      var left := len;
      while left > 0
        invariant 0 <= left <= len && op == old(op) + len - left && CopyMatch(out[..op], left, dist) == whole
      {
        out[op] := out[op - dist];
        op := op + 1;
        left := left - 1;
        assert out[..op] == out[..op - 1] + [out[op - 1]];
      }
    }

    /** A length continued in further bytes. */
    method ReadExt(at: nat, base: nat) returns (t: nat, next: nat)
      requires Ext(inp[..], at).Some?
      ensures Some((t, next)) == Length(inp[..], at, 0, base)
    {
      t, next := base, at;
      ghost var whole := Ext(inp[..], at).value;
      ExtAfter(inp[..], next);
      while inp[next] == 0
        invariant at <= next < inp.Length && Ext(inp[..], next).Some? && t >= base
        invariant Ext(inp[..], next).value.0 + (t - base) == whole.0 && Ext(inp[..], next).value.1 == whole.1
        decreases inp.Length - next
      {
        t, next := t + 255, next + 1;
        ExtAfter(inp[..], next);
      }
      t, next := t + inp[next], next + 1;
    }
  
    constructor (stream: array<byte>, buffer: array<byte>, limit: nat)
      requires stream != buffer && limit <= buffer.Length && Decode(stream[..]).Some?
          && |Decode(stream[..]).value.0| <= limit
      ensures inp == stream && out == buffer && outLen == limit && orig == stream[..]
          && Some(result) == Decode(stream[..])
      ensures ip == 0 == op && litp == -1 && lit == 0 && count == Rewrites(0, 0, 0, 0, 0)
    {
      inp, out, outLen, orig, result := stream, buffer, limit, stream[..], Decode(stream[..]).value;
      ip, op, litp, lit, st, last, n, mo := 0, 0, -1, 0, Run, Nothing, 0, [];
      a, steps, count := Config(0, [], Run), 0, Rewrites(0, 0, 0, 0, 0);
    }

    /** The match at ip, read byte by byte. */
    method ReadMatch() returns (m: Instr)
      requires ip < inp.Length && !ParseMatch(inp[..], ip, st).Broken?
      ensures m == ParseMatch(inp[..], ip, st)
    {
      hide NearDist, M2Dist, FarBits, M4Bits, Ext;
      var t: nat := inp[ip];
      if t >= 64 {
        m := Copy(t / 32 + 1, M2Dist(t, inp[ip + 1]), ip + 2);
      } else if t >= 16 {
        var l, at := if t >= 32 then t % 32 else t % 8, ip + 1;
        if l == 0 {
          l, at := ReadExt(at, if t >= 32 then 31 else 7);
        }
        assert Some((l, at)) == Length(inp[..], ip + 1, if t >= 32 then t % 32 else t % 8, if t >= 32 then 31 else 7);
        if t >= 32 {
          m := Copy(l + 2, 1 + FarBits(inp[at], inp[at + 1]), at + 2);
        } else if M4Bits(t, inp[at], inp[at + 1]) == 0 {
          m := End(at + 2);
        } else {
          m := Copy(l + 2, M4Bits(t, inp[at], inp[at + 1]) + 0x4000, at + 2);
        }
      } else if st.Short? {
        m := Copy(2, NearDist(t, inp[ip + 1]), ip + 2);
      } else {
        m := Copy(3, NearDist(t, inp[ip + 1]) + 0x800, ip + 2);
      }
    }

    lemma Ahead()
      requires Valid()
      ensures ip < inp.Length && Leads(orig, ip, Step(inp[..], Config(ip, out[..op], st)), result)
      ensures Step(orig, Config(ip, out[..op], st)) == Step(inp[..], Config(ip, out[..op], st))
    {
      hide Follows;
      Unfold(orig, inp[..], Config(ip, out[..op], st));
    }

    lemma AheadMatch(len: nat, dist: nat, next: nat) returns (c': Config)
      requires Valid() && ip < inp.Length && !(st.Run? && inp[ip] < 16)
          && ParseMatch(inp[..], ip, st) == Copy(len, dist, next)
      ensures Step(inp[..], Config(ip, out[..op], st)) == Next(c') && ip + 2 <= next && 1 <= dist <= op
      ensures c'.ip == next + inp[next - 2] % 4 < inp.Length && op + len + inp[next - 2] % 4 <= outLen
      ensures c'.out == CopyMatch(out[..op], len, dist) + inp[next..c'.ip]
          && c'.st == (if inp[next - 2] % 4 == 0 then Run else Short)
      ensures Finish(orig, c') == Some(result) && inp[c'.ip..] == orig[c'.ip..]
      ensures Step(orig, Config(ip, out[..op], st)) == Next(c')
    {
      hide Follows, Finish, ParseMatch, CopyMatch;
      Ahead();
      c' := Step(inp[..], Config(ip, out[..op], st)).c;
      ParseAfter(inp[..], ip, st);
      assert inp[c'.ip..] == inp[ip..][c'.ip - ip..];
      assert orig[c'.ip..] == orig[ip..][c'.ip - ip..];
    }

    /** A match that stays: its bytes, then the literals behind it. */
    method KeepMatch(len: nat, dist: nat, next: nat)
      requires Valid() && Counted()
      requires ip < inp.Length && !(st.Run? && inp[ip] < 16) && ParseMatch(inp[..], ip, st) == Copy(len, dist, next)
      modifies this, out
      ensures Valid() && Counted() && ip > old(ip) && count == old(count)
    {
      hide Optimizer.Valid, ParseMatch, CopyMatch, Step, Iter, Saved;
      ghost var c' := AheadMatch(len, dist, next);
      IterNext(orig, steps, Config(ip, out[..op], st), c');
      PassMatch(len, dist, next, c');
      steps := steps + 1;
    }

    method PassMatch(len: nat, dist: nat, next: nat, ghost c': Config)
      requires Valid() && ip < inp.Length && !(st.Run? && inp[ip] < 16)
          && ParseMatch(inp[..], ip, st) == Copy(len, dist, next)
      requires op <= out.Length && Step(inp[..], Config(ip, out[..op], st)) == Next(c')
      modifies `ip, `op, `litp, `lit, `st, `n, `a, `mo, `last, out
      ensures Valid() && ip > old(ip) && op <= out.Length && c' == Config(ip, out[..op], st)
          && Total(n, last) == old(Total(n, last)) + 1
    {
      hide Follows, Finish, ParseMatch, CopyMatch, Step;
      var _ := AheadMatch(len, dist, next);
      n, a, mo := FollowMatch(inp[..], n, a, mo, last, litp, lit, ip, out[..op], st, c', next);
      CopyBack(len, dist);
      ip := next;
      MatchDone();
      last := MatchLast;
    }

    /** match_done: the literals behind a match. */
    method MatchDone()
      requires 2 <= ip <= inp.Length && ip + inp[ip - 2] % 4 <= inp.Length && op + inp[ip - 2] % 4 <= out.Length
          && inp != out
      modifies `ip, `op, `lit, `litp, `st, out
      ensures lit == inp[old(ip) - 2] % 4 && litp == old(ip) - 2 && st == if lit == 0 then Run else Short
      ensures ip == old(ip) + lit && op == old(op) + lit && out[..op] == old(out[..op]) + inp[old(ip)..ip]
    {
      lit := inp[ip - 2] % 4;
      litp := ip - 2;
      CopyLiterals(lit);
      st := if lit == 0 then Run else Short;
    }

    /** The length of the run at ip. */
    method ReadRun() returns (t: nat, at: nat)
      requires ip < inp.Length && inp[ip] < 16 && RunLength(inp[..], ip).Some?
      ensures RunLength(inp[..], ip) == Some((t + 3, at))
    {
      t, at := inp[ip], ip + 1;
      if t == 0 {
        t, at := ReadExt(at, 15);
      }
      RunIs(inp[..], ip, t, at);
    }

    /** A literal run: litp remembers where it starts. */
    method LiteralRun()
      requires Valid() && Counted() && st.Run? && ip < inp.Length && inp[ip] < 16
      modifies this, out
      ensures Valid() && Counted() && ip > old(ip) && count == old(count)
    {
      hide Follows, Finish, CopyMatch, Iter, Step, RunLength;
      ghost var k, start := AheadRun();
      IterNext(orig, steps, Config(ip, out[..op], st), Config(start + k, out[..op] + inp[start..start + k], AfterRun));
      n, a := FollowRun(inp[..], n, a, mo, last, litp, lit, ip, out[..op], k, start);
      steps := steps + 1;
      litp := ip;
      var t, at := ReadRun();
      lit := t + 3;
      ip := at;
      CopyLiterals(lit);
      st, last := AfterRun, RunLast;
    }

    lemma AheadRun() returns (k: nat, start: nat)
      requires Valid() && st.Run? && ip < inp.Length && inp[ip] < 16
      ensures RunLength(inp[..], ip) == Some((k, start)) && ip < start && start + k < inp.Length && op + k <= outLen
      ensures Finish(orig, Config(start + k, out[..op] + inp[start..start + k], AfterRun)) == Some(result)
      ensures inp[start + k..] == orig[start + k..]
      ensures Step(orig, Config(ip, out[..op], st))
          == Next(Config(start + k, out[..op] + inp[start..start + k], AfterRun))
    {
      hide Follows, Finish, CopyMatch, RunLength;
      Ahead();
      k, start := RunLength(inp[..], ip).value.0, RunLength(inp[..], ip).value.1;
      RunAfter(inp[..], ip);
      var e := start + k;
      assert inp[e..] == inp[ip..][e - ip..];
      assert orig[e..] == orig[ip..][e - ip..];
    }

    /** copy2: the two bytes of a match, written over it. */
    method Copy2(at: nat, dist: nat)
      requires inp != out && at + 2 <= inp.Length && 1 <= dist <= op <= out.Length
      modifies inp
      ensures out[..op] + inp[at..at + 2] == CopyMatch(out[..op], 2, dist)
      ensures inp[..at] == old(inp[..at]) && inp[at + 2..] == old(inp[at + 2..])
    {
      CopyTwo(out[..op], dist);
      inp[at] := out[op - dist];
      if dist == 1 {
        inp[at + 1] := out[op - dist];
      } else {
        inp[at + 1] := out[op - dist + 1];
      }
    }

    /** copy3: the three bytes of a match. */
    method Copy3(at: nat, dist: nat)
      requires inp != out && at + 3 <= inp.Length && 1 <= dist <= op <= out.Length
      modifies inp
      ensures out[..op] + inp[at..at + 3] == CopyMatch(out[..op], 3, dist)
      ensures inp[..at] == old(inp[..at]) && inp[at + 3..] == old(inp[at + 3..])
    {
      CopyThree(out[..op], dist);
      inp[at] := out[op - dist];
      if dist == 1 {
        inp[at + 1] := out[op - dist];
        inp[at + 2] := out[op - dist];
      } else if dist == 2 {
        inp[at + 1] := out[op - dist + 1];
        inp[at + 2] := out[op - dist];
      } else {
        inp[at + 1] := out[op - dist + 1];
        inp[at + 2] := out[op - dist + 2];
      }
    }

    /** The k bytes of a match, written to inp. */
    method CopyK(at: nat, k: nat, dist: nat)
      requires inp != out && (k == 2 || k == 3) && at + k <= inp.Length && 1 <= dist <= op <= out.Length
      modifies inp
      ensures out[..op] + inp[at..at + k] == CopyMatch(out[..op], k, dist)
      ensures inp[..at] == old(inp[..at]) && inp[at + k..] == old(inp[at + k..])
    {
      hide CopyMatch;
      if k == 2 {
        Copy2(at, dist);
      } else {
        Copy3(at, dist);
      }
    }

    /** What makes a match of k bytes replaceable: k bytes long itself, without literals behind it. */
    ghost predicate Replaceable(k: nat, size: nat, dist: nat)
      reads this, inp
    {
      && (k == 2 || k == 3) && ip + size < inp.Length && !(st.Run? && inp[ip] < 16)
      && ParseMatch(inp[..], ip, st) == Copy(k, dist, ip + size) && size >= 2 && inp[ip + size - 2] % 4 == 0
    }

    lemma AheadReplaced(k: nat, size: nat, dist: nat)
      requires Valid() && Replaceable(k, size, dist)
      ensures 1 <= dist <= op && op + k <= outLen
      ensures Finish(orig, Config(ip + size, CopyMatch(out[..op], k, dist), Run)) == Some(result)
      ensures inp[ip + size..] == orig[ip + size..]
      ensures Step(orig, Config(ip, out[..op], st)) == Next(Config(ip + size, CopyMatch(out[..op], k, dist), Run))
    {
      hide Follows, Finish, CopyMatch, ParseMatch, Step;
      var c' := AheadMatch(k, dist, ip + size);
      assert inp[ip + size..ip + size] == [];
      assert c'.out == CopyMatch(out[..op], k, dist);
    }

    /** Between a match with too few literals and another match: the match at ip becomes their continuation. */
    method ToShort(k: nat, dist: nat)
      requires Valid() && Counted() && last.MatchLast? && lit + k == 3 && Replaceable(k, k, dist) && inp[ip + k] >= 16
      modifies this, inp, out
      ensures Valid() && Counted() && ip > old(ip)
      ensures count == MoreShort(old(count), k)
    {
      hide Follows, Finish, CopyMatch, ParseMatch, Step, Iter, Saved, MoreShort;
      AheadReplaced(k, k, dist);
      IterNext(orig, steps, Config(ip, out[..op], st), Config(ip + k, CopyMatch(out[..op], k, dist), Run));
      steps := steps + 1;
      count := MoreShort(count, k);
      MarkShort(k, dist);
      CopyBack(k, dist);
      ip, lit, st := ip + k, 3, Run;
    }

    method MarkShort(k: nat, dist: nat)
      requires inp != out && 1 <= dist <= op <= out.Length && (k == 2 || k == 3) && lit + k == 3
      requires Follows(inp[..], n, a, mo, MatchLast, litp, lit, ip, out[..op], st) && ip + k < inp.Length
          && inp[ip + k] >= 16
      modifies inp
      ensures Follows(inp[..], n, a, mo, MatchLast, litp, 3, ip + k, CopyMatch(out[..op], k, dist), Run)
      ensures inp[ip + k..] == old(inp[ip + k..])
    {
      hide Follows, CopyMatch;
      ghost var s, o := inp[..], out[..op];
      assert litp >= 0 && litp + 2 <= ip by { UnfoldMatch(s, n, a, mo, litp, lit, ip, o, st); }
      inp[litp] := inp[litp] / 4 * 4 + 3;
      ghost var s1 := inp[..];
      CopyK(ip, k, dist);
      ShortMarked(s, s1, inp[..], n, a, mo, litp, lit, ip, o, st, k);
      assert inp[ip + k..] == s[ip + k..];
    }

    /** memmove(inp + at + 1, inp + at, count). */
    method MoveUp(at: nat, count: nat)
      requires at + count < inp.Length
      modifies inp
      ensures inp[at + 1..at + 1 + count] == old(inp[at..at + count])
      ensures inp[..at] == old(inp[..at]) && inp[at + 1 + count..] == old(inp[at + 1 + count..])
    {
      ghost var s := inp[..];
      var i := count;
      while i > 0
        invariant 0 <= i <= count
        invariant forall j :: at + 1 + i <= j < at + 1 + count ==> inp[j] == s[j - 1]
        invariant forall j :: 0 <= j < at + 1 + i || at + 1 + count <= j < inp.Length ==> inp[j] == s[j]
      {
        inp[at + i] := inp[at + i - 1];
        i := i - 1;
      }
    }

    /** The literals of a match, the k bytes of the match at ip and the run behind it become one run. */
    method MarkRun(k: nat, dist: nat, t: nat)
      requires inp != out && 1 <= dist <= op <= out.Length && (k == 2 || k == 3) && 0 < t && lit + k + t < 16
      requires Follows(inp[..], n, a, mo, MatchLast, litp, lit, ip, out[..op], st) && ip + k + 1 + t + 3 <= inp.Length
      modifies inp
      ensures litp >= 0
      ensures Follows(inp[..], n + 1, Config(litp + 2, mo, Run), mo, RunLast, litp + 2, lit + k + t + 3, ip + k + 1 + t
          + 3,
                      CopyMatch(out[..op], k, dist) + inp[ip + k + 1..ip + k + 1 + t + 3], AfterRun)
      ensures inp[ip + k + 1..] == old(inp[ip + k + 1..])
    {
      hide Follows, CopyMatch, RunWrites;
      ghost var s, o := inp[..], out[..op];
      assert litp >= 0 && litp + 2 + lit == ip by { UnfoldMatch(s, n, a, mo, litp, lit, ip, o, st); }
      ghost var s1, s2, s3 := WriteRun(k, dist, t);
      RunMarked(s, s1, s2, s3, inp[..], n, a, mo, litp, lit, ip, o, st, k, t);
      assert inp[ip + k + 1..] == s[ip + k + 1..] by { RunSlices(s, s1, s2, s3, inp[..], litp, lit, ip, k, t); }
    }

    method WriteRun(k: nat, dist: nat, t: nat) returns (ghost s1: seq<byte>, ghost s2: seq<byte>, ghost s3: seq<byte>)
      requires inp != out && 1 <= dist <= op <= out.Length && (k == 2 || k == 3) && lit + k + t < 16
      requires 0 <= litp && litp + 2 + lit == ip && ip + k + 1 < inp.Length
      modifies inp
      ensures RunWrites(old(inp[..]), s1, s2, s3, inp[..], litp, lit, ip, k, t)
      ensures out[..op] + s2[ip + 1..ip + 1 + k] == CopyMatch(out[..op], k, dist)
    {
      hide CopyMatch, RunWrites;
      ghost var s := inp[..];
      s1 := CopyBehind(k, dist);
      s2 := inp[..];
      s3 := MoveAndMark(lit + k + t);
      RunWritten(s, s1, s2, s3, inp[..], litp, lit, ip, k, t);
    }

    /** Removes the literal count of the last match, and writes the bytes of the match at ip behind its first byte. */
    method CopyBehind(k: nat, dist: nat) returns (ghost s1: seq<byte>)
      requires inp != out && 1 <= dist <= op <= out.Length && (k == 2 || k == 3) && 0 <= litp < ip
          && ip + k + 1 < inp.Length
      modifies inp
      ensures s1 == old(inp[..])[litp := old(inp[litp]) / 4 * 4]
      ensures inp[..][..ip + 1] == s1[..ip + 1] && inp[..][ip + 1 + k..] == s1[ip + 1 + k..]
      ensures out[..op] + inp[..][ip + 1..ip + 1 + k] == CopyMatch(out[..op], k, dist)
    {
      hide CopyMatch;
      inp[litp] := inp[litp] / 4 * 4;
      s1 := inp[..];
      CopyK(ip + 1, k, dist);
      assert inp[..][ip + 1..ip + 1 + k] == inp[ip + 1..ip + 1 + k];
    }

    method MoveAndMark(len: byte) returns (ghost s3: seq<byte>)
      requires 0 <= litp && litp + 2 + lit == ip < inp.Length
      modifies inp
      ensures |s3| == inp.Length && s3[litp + 3..litp + 3 + lit] == old(inp[..])[litp + 2..litp + 2 + lit]
      ensures s3[..litp + 2] == old(inp[..])[..litp + 2] && s3[ip + 1..] == old(inp[..])[ip + 1..]
      ensures inp[..] == s3[litp + 2 := len]
    {
      ghost var s := inp[..];
      MoveUp(litp + 2, lit);
      s3 := inp[..];
      assert s[litp + 2..litp + 2 + lit] == old(inp[litp + 2..litp + 2 + lit]);
      inp[litp + 2] := len;
    }

    /** What the original decoder does with a replaceable match and the short run behind it. */
    lemma AheadBoth(k: nat, size: nat, dist: nat, at: nat, t: nat)
      requires Valid() && Replaceable(k, size, dist) && at == ip + size + 1 && 0 < inp[ip + size] < 16
          && t == inp[ip + size]
      ensures 1 <= dist <= op && op + k + t + 3 <= outLen && at + t + 3 < inp.Length
      ensures Finish(orig, Config(at + t + 3, CopyMatch(out[..op], k, dist) + inp[at..at + t + 3], AfterRun))
          == Some(result)
      ensures inp[at + t + 3..] == orig[at + t + 3..]
      ensures var c := Config(ip + size, CopyMatch(out[..op], k, dist), Run);
              && Step(orig, Config(ip, out[..op], st)) == Next(c)
              && Step(orig, c) == Next(Config(at + t + 3, c.out + inp[at..at + t + 3], AfterRun))
    {
      hide Follows, Finish, CopyMatch, ParseMatch, RunLength;
      AheadReplaced(k, size, dist);
      var c := Config(ip + size, CopyMatch(out[..op], k, dist), Run);
      Unfold(orig, inp[..], c);
      OneByteRun(inp[..], ip + size);
      var e := at + t + 3;
      assert inp[e..] == inp[ip + size..][e - ip - size..];
      assert orig[e..] == orig[ip + size..][e - ip - size..];
    }

    lemma IterBoth(k: nat, size: nat, dist: nat, at: nat, t: nat) returns (o: seq<byte>)
      requires Valid() && Counted() && Replaceable(k, size, dist) && at == ip + size + 1 && 0 < inp[ip + size] < 16
          && t == inp[ip + size]
      ensures 1 <= dist <= op && at + t + 3 < inp.Length && o == CopyMatch(out[..op], k, dist) + inp[at..at + t + 3]
      ensures Iter(orig, steps + 2) == Some(Config(at + t + 3, o, AfterRun))
    {
      hide Optimizer.Valid, Iter, CopyMatch, Step, Replaceable;
      AheadBoth(k, size, dist, at, t);
      var c := Config(ip + size, CopyMatch(out[..op], k, dist), Run);
      IterNext(orig, steps, Config(ip, out[..op], st), c);
      o := c.out + inp[at..at + t + 3];
      IterNext(orig, steps + 1, c, Config(at + t + 3, o, AfterRun));
    }

    /** The bytes of a match, then count literals from at on. */
    method CopyBoth(k: nat, dist: nat, at: nat, count: nat)
      requires inp != out && 1 <= dist <= op && op + k + count <= out.Length && at + count <= inp.Length
      modifies `ip, `op, out
      ensures ip == at + count && op == old(op) + k + count
      ensures out[..op] == CopyMatch(old(out[..op]), k, dist) + inp[at..at + count]
    {
      hide CopyMatch;
      CopyBack(k, dist);
      ip := at;
      CopyLiterals(count);
    }

    /** The match at ip becomes literals of a run that also takes in the literals before it and the run behind it. */
    method ToRun(k: nat, dist: nat)
      requires Valid() && Counted()
      requires last.MatchLast? && Replaceable(k, k, dist) && 0 < inp[ip + k] < 16 && lit + k + inp[ip + k] < 16
      modifies this, inp, out
      ensures Valid() && Counted() && ip > old(ip)
      ensures count == MoreRun(old(count), k)
    {
      hide Optimizer.Valid, Optimizer.Counted, ParseMatch, CopyMatch, Saved, MoreRun, Total, Iter;
      var t: nat := inp[ip + k];
      StepsSoFar();
      ghost var o := IterBoth(k, k, dist, ip + k + 1, t);
      JoinRuns(k, dist, ip + k + 1, t, o);
      CountRun(k);
    }

    lemma StepsSoFar()
      requires Counted()
      ensures op <= out.Length && steps == Total(n, last) + Saved(count)
    {
    }

    method CountRun(k: nat)
      requires op <= out.Length && Iter(orig, steps + 2) == Some(Config(ip, out[..op], st))
          && steps + 1 == Total(n, last) + Saved(count)
      modifies `steps, `count
      ensures Counted() && count == MoreRun(old(count), k)
    {
      hide Iter, Saved, MoreRun;
      steps, count := steps + 2, MoreRun(count, k);
    }

    method JoinRuns(k: nat, dist: nat, at: nat, t: nat, ghost o: seq<byte>)
      requires Valid() && last.MatchLast? && Replaceable(k, k, dist) && 0 < inp[ip + k] < 16
          && lit + k + inp[ip + k] < 16
      requires at == ip + k + 1 && t == inp[ip + k] && at + t + 3 < inp.Length && 1 <= dist <= op <= out.Length
      requires o == CopyMatch(out[..op], k, dist) + inp[at..at + t + 3]
          && Iter(orig, steps + 2) == Some(Config(at + t + 3, o, AfterRun))
      modifies `ip, `op, `litp, `lit, `st, `n, `a, `last, inp, out
      ensures Valid() && ip > old(ip) && Total(n, last) == old(Total(n, last)) + 1
      ensures op <= out.Length && Iter(orig, steps + 2) == Some(Config(ip, out[..op], st))
    {
      hide Optimizer.Valid, ParseMatch, CopyMatch, Iter;
      TakeIn(k, dist, at, t, o);
    }

    method TakeIn(k: nat, dist: nat, at: nat, t: nat, ghost o: seq<byte>)
      requires Valid() && last.MatchLast? && Replaceable(k, k, dist) && 0 < inp[ip + k] < 16
          && lit + k + inp[ip + k] < 16
      requires at == ip + k + 1 && t == inp[ip + k] && at + t + 3 < inp.Length && 1 <= dist <= op <= out.Length
      requires o == CopyMatch(out[..op], k, dist) + inp[at..at + t + 3]
      modifies `ip, `op, `litp, `lit, `st, `n, `a, `last, inp, out
      ensures Valid() && ip == at + t + 3 && st == AfterRun && last == RunLast && n == old(n) + 1
      ensures op <= out.Length && out[..op] == o
    {
      hide Follows, Finish, CopyMatch, ParseMatch, Step, RunLength;
      AheadBoth(k, k, dist, at, t);
      ghost var s := inp[..];
      MarkRun(k, dist, t);
      SameBehind(s, inp[..], at, at + t + 3);
      CopyBoth(k, dist, at, t + 3);
      assert out[..op] == o;
      litp, lit, st := litp + 2, lit + k + t + 3, AfterRun;
      n, a, last := n + 1, Config(litp, mo, Run), RunLast;
    }

    /** A run, a three-byte match in two bytes and another run become one run. */
    method MarkGrown(dist: nat, t: nat)
      requires inp != out && 1 <= dist <= op <= out.Length && lit + 3 + t < 16
      requires Follows(inp[..], n, a, mo, RunLast, litp, lit, ip, out[..op], st) && ip + 3 + t + 3 <= inp.Length
      modifies inp
      ensures Follows(inp[..], n, a, mo, RunLast, litp, lit + 3 + t + 3, ip + 3 + t + 3,
                      CopyMatch(out[..op], 3, dist) + inp[ip + 3..ip + 3 + t + 3], AfterRun)
      ensures inp[ip + 3..] == old(inp[ip + 3..])
    {
      hide Follows, CopyMatch;
      ghost var s, o := inp[..], out[..op];
      assert 0 <= litp < ip by { UnfoldRun(s, n, a, mo, litp, lit, ip, o, st); }
      Copy3(ip, dist);
      ghost var s1 := inp[..];
      inp[litp] := lit + 3 + t;
      GrownMarked(s, s1, inp[..], n, a, mo, litp, lit, ip, o, st, t);
    }

    method GrowRun(dist: nat)
      requires Valid() && Counted() && last.RunLast? && Replaceable(3, 2, dist) && 0 < inp[ip + 2] < 16
          && lit + 3 + inp[ip + 2] < 16
      modifies this, inp, out
      ensures Valid() && Counted() && ip > old(ip)
      ensures count == old(count).(m2 := old(count).m2 + 1)
    {
      hide Follows, Finish, CopyMatch, ParseMatch, Step, RunLength, Iter;
      var t: nat := inp[ip + 2];
      AheadBoth(3, 2, dist, ip + 3, t);
      var _ := IterBoth(3, 2, dist, ip + 3, t);
      steps := steps + 2;
      count := count.(m2 := count.m2 + 1);
      ghost var s := inp[..];
      MarkGrown(dist, t);
      SameBehind(s, inp[..], ip + 3, ip + 3 + t + 3);
      CopyBoth(3, dist, ip + 3, t + 3);
      lit, st := lit + 3 + t + 3, AfterRun;
    }

    /** What lit says about the last instruction. */
    lemma LastIs()
      requires Valid() && litp >= 0
      ensures if lit <= 3 then last.MatchLast? else last.RunLast?
      ensures last.RunLast? ==> st.AfterRun?
    {
      hide Iter, EndsMatch, RunLength, Finish;
      if last.RunLast? {
        UnfoldRun(inp[..], n, a, mo, litp, lit, ip, out[..op], st);
      }
    }

    /** A two-byte match behind the literals of another match. */
    method NearStep(dist: nat, next: nat)
      requires Valid() && Counted() && ip < inp.Length && inp[ip] < 16 && st.Short?
          && ParseMatch(inp[..], ip, st) == Copy(2, dist, next)
      modifies this, inp, out
      ensures Valid() && Counted() && ip > old(ip)
      ensures 2 <= next < inp.Length
          && count == NearRewrite(old(count), old(litp), old(lit), old(inp[next - 2]), old(inp[next]))
    {
      hide Optimizer.Valid, Optimizer.Counted, ParseMatch, CopyMatch, Step;
      ghost var c' := AheadMatch(2, dist, next);
      MatchSize(inp[..], ip, st);
      if litp >= 0 && inp[next - 2] % 4 == 0 {
        LastIs();
        if lit == 1 && inp[next] >= 16 {
          ToShort(2, dist);
          return;
        } else if inp[next] < 16 && inp[next] != 0 && lit + 2 + inp[next] < 16 {
          ToRun(2, dist);
          return;
        }
      }
      KeepMatch(2, dist, next);
    }

    method M2Step(len: nat, dist: nat, next: nat)
      requires Valid() && Counted() && ip < inp.Length && inp[ip] >= 64
          && ParseMatch(inp[..], ip, st) == Copy(len, dist, next)
      modifies this, inp, out
      ensures Valid() && Counted() && ip > old(ip)
      ensures 2 <= next < inp.Length
          && count == M2Rewrite(old(count), len, old(litp), old(lit), old(inp[next - 2]), old(inp[next]))
    {
      hide Optimizer.Valid, Optimizer.Counted, ParseMatch, CopyMatch, Step;
      ghost var c' := AheadMatch(len, dist, next);
      MatchSize(inp[..], ip, st);
      if litp >= 0 {
        LastIs();
        if len == 3 && lit > 3 && inp[next - 2] % 4 == 0 && inp[next] < 16 && inp[next] != 0
            && lit + 3 + inp[next] < 16 {
          GrowRun(dist);
          return;
        }
      }
      KeepMatch(len, dist, next);
    }

    method LongStep(len: nat, dist: nat, next: nat)
      requires Valid() && Counted() && ip < inp.Length && 16 <= inp[ip] < 64
          && ParseMatch(inp[..], ip, st) == Copy(len, dist, next)
      modifies this, inp, out
      ensures Valid() && Counted() && ip > old(ip)
      ensures 2 <= next < inp.Length
          && count == LongRewrite(old(count), len, old(litp), old(lit), old(inp[next - 2]), old(inp[next]))
    {
      hide Optimizer.Valid, Optimizer.Counted, ParseMatch, CopyMatch, Step;
      ghost var c' := AheadMatch(len, dist, next);
      MatchSize(inp[..], ip, st);
      if litp >= 0 && len == 3 && inp[next - 2] % 4 == 0 {
        LastIs();
        if lit == 0 && inp[next] >= 16 {
          ToShort(3, dist);
          return;
        } else if lit <= 3 && inp[next] < 16 && inp[next] != 0 && lit + 3 + inp[next] < 16 {
          ToRun(3, dist);
          return;
        }
      }
      KeepMatch(len, dist, next);
    }

    /** One match: replaced by literals where the code can, and kept otherwise. */
    method MatchStep(len: nat, dist: nat, next: nat)
      requires Valid() && Counted()
      requires ip < inp.Length && !(st.Run? && inp[ip] < 16) && ParseMatch(inp[..], ip, st) == Copy(len, dist, next)
      modifies this, inp, out
      ensures Valid() && Counted() && ip > old(ip)
    {
      MatchSize(inp[..], ip, st);
      hide Optimizer.Valid, Optimizer.Counted, ParseMatch;
      if inp[ip] >= 64 {
        M2Step(len, dist, next);
      } else if inp[ip] >= 16 {
        LongStep(len, dist, next);
      } else if st.Short? {
        NearStep(dist, next);
      } else {
        KeepMatch(len, dist, next);
      }
    }

    /** The literal count that the first byte of a stream may hold. */
    method Begin()
      requires inp != out && |orig| == inp.Length && orig == inp[..] && |result.0| <= outLen <= out.Length
      requires Decode(orig) == Some(result) && ip == 0 == op && litp == -1 && lit == 0
          && count == Rewrites(0, 0, 0, 0, 0)
      modifies this, out
      ensures Valid() && Counted()
    {
      hide Finish, Iter;
      StartFits(orig, result);
      if inp[0] > 17 {
        var t: nat := inp[0] - 17;
        ip := 1;
        CopyLiterals(t);
        st := if t < 4 then Short else AfterRun;
      } else {
        st := Run;
      }
      n, last, steps := 0, Nothing, 0;
      assert Iter(inp[..], 0) == Start(inp[..]) by { IterZero(inp[..]); }
      assert out[..op] == Start(orig).value.out;
      assert inp[ip..] == orig[ip..];
    }

    lemma Finished(end: nat)
      requires Valid() && Counted() && ip < inp.Length && !(st.Run? && inp[ip] < 16)
          && ParseMatch(inp[..], ip, st) == End(end)
      ensures Decode(inp[..]) == Some(result) && result == (out[..op], end) && end <= inp.Length
      ensures EndsAfter(orig, Total(n, last) + Saved(count)) && EndsAfter(inp[..], Total(n, last))
    {
      hide Follows, Finish, ParseMatch, Iter;
      Ahead();
      SameEnd(orig, inp[..], n, a, mo, last, litp, lit, ip, out[..op], st);
      SameDecoding(orig, inp[..], n, a, mo, last, litp, lit, ip, out[..op], st);
    }

    /** lzo1x_optimize. */
    method Optimize() returns (code: int, newLen: nat, ghost left: nat)
      requires inp != out && |orig| == inp.Length && orig == inp[..] && |result.0| <= outLen <= out.Length
      requires Decode(orig) == Some(result) && ip == 0 == op && litp == -1 && lit == 0
          && count == Rewrites(0, 0, 0, 0, 0)
      modifies this, inp, out
      ensures EndsAfter(inp[..], left) && EndsAfter(orig, left + Saved(count))
      ensures Decode(inp[..]) == Some(result) && newLen <= out.Length && out[..newLen] == result.0
      ensures code == if result.1 == inp.Length then LZO_E_OK else LZO_E_INPUT_NOT_CONSUMED
    {
      hide Optimizer.Valid, Optimizer.Counted, ParseMatch, EndsAfter;
      Begin();
      Bounded();
      while true
        invariant Valid() && Counted() && ip <= inp.Length
        decreases inp.Length - ip
      {
        // input and output are never used up before the end marker
        InBounds();
        if st.Run? && inp[ip] < 16 {
          LiteralRun();
        } else {
          var m := ReadMatch();
          if m.End? {
            Finished(m.next);
            left := Total(n, last);
            newLen := op;
            code := if m.next == inp.Length then LZO_E_OK else LZO_E_INPUT_NOT_CONSUMED;
            return;
          }
          MatchStep(m.len, m.dist, m.next);
        }
        Bounded();
      }
    }

    lemma InBounds()
      requires Valid()
      ensures ip < inp.Length && op <= outLen
      ensures !(st.Run? && inp[ip] < 16) ==> !ParseMatch(inp[..], ip, st).Broken?
    {
      hide Follows, Finish, ParseMatch, RunLength;
      Ahead();
      FinishGrows(orig, Config(ip, out[..op], st));
    }

    lemma Bounded()
      requires Valid()
      ensures ip <= inp.Length
    {
    }
  }

  // ---------- which rewrite the code makes ----------

  /** Of a two-byte match: tail is the byte with its literal count, ahead the one behind it. */
  function NearRewrite(c: Rewrites, litp: int, lit: nat, tail: byte, ahead: byte): Rewrites
  {
    if litp < 0 || tail % 4 != 0 then c
    else if lit == 1 && ahead >= 16 then c.(m1a := c.m1a + 1)
    else if 0 < ahead < 16 && lit + 2 + ahead < 16 then c.(m1b := c.m1b + 1)
    else c
  }

  /** Of a match in two bytes with a length of its own. */
  function M2Rewrite(c: Rewrites, len: nat, litp: int, lit: nat, tail: byte, ahead: byte): Rewrites
  {
    if litp >= 0 && len == 3 && lit > 3 && tail % 4 == 0 && 0 < ahead < 16
        && lit + 3 + ahead < 16 then c.(m2 := c.m2 + 1) else c
  }

  /** Of a match in three bytes or more. */
  function LongRewrite(c: Rewrites, len: nat, litp: int, lit: nat, tail: byte, ahead: byte): Rewrites
  {
    if litp < 0 || len != 3 || tail % 4 != 0 then c
    else if lit == 0 && ahead >= 16 then c.(m3a := c.m3a + 1)
    else if lit <= 3 && 0 < ahead < 16 && lit + 3 + ahead < 16 then c.(m3b := c.m3b + 1)
    else c
  }

  lemma UnfoldMatch(s: seq<byte>, n: nat, a: Config, mo: seq<byte>, litp: int, lit: nat, ip: nat, o: seq<byte>,
      st: State)
    requires Follows(s, n, a, mo, MatchLast, litp, lit, ip, o, st)
    ensures litp >= 0 && MatchTail(s, n, a, mo, litp, lit, ip, o) && ip == litp + 2 + lit <= |s|
  {
    hide Iter, EndsMatch;
  }

  lemma ShortMarked(s: seq<byte>, s1: seq<byte>, s': seq<byte>, n: nat, a: Config, mo: seq<byte>, litp: int, lit: nat,
                    ip: nat, o: seq<byte>, st: State, k: nat)
    requires Follows(s, n, a, mo, MatchLast, litp, lit, ip, o, st) && lit + k == 3 && ip + k < |s| == |s1| == |s'|
        && s[ip + k] >= 16
    requires 0 <= litp && litp + 2 <= ip && s1 == s[litp := s[litp] / 4 * 4 + 3]
    requires s'[..ip] == s1[..ip] && s'[ip + k..] == s1[ip + k..]
    ensures Follows(s', n, a, mo, MatchLast, litp, 3, ip + k, o + s'[ip..ip + k], Run)
  {
    UnfoldMatch(s, n, a, mo, litp, lit, ip, o, st);
    hide MatchTail;
    SameBelow(s1, s', ip);
    assert s'[ip + k] == s'[ip + k..][0] == s1[ip + k..][0];
    assert s'[..litp] == s[..litp];
    assert s'[litp + 2..ip] == s[litp + 2..ip];
    ShortGrows(s, s', n, a, mo, litp, lit, ip, o, s'[ip..ip + k]);
  }

  ghost predicate RunWrites(s: seq<byte>, s1: seq<byte>, s2: seq<byte>, s3: seq<byte>, s': seq<byte>, litp: int,
      lit: nat,
                            ip: nat, k: nat, t: nat)
  {
    && litp >= 0 && ip == litp + 2 + lit && ip + k + 1 < |s| == |s1| == |s2| == |s3| == |s'|
    && s1 == s[litp := s[litp] / 4 * 4]
    && s2[..ip + 1] == s1[..ip + 1] && s2[ip + 1 + k..] == s1[ip + 1 + k..]
    && s3[litp + 3..litp + 3 + lit] == s2[litp + 2..litp + 2 + lit] && s3[..litp + 2] == s2[..litp + 2]
       && s3[ip + 1..] == s2[ip + 1..]
    && lit + k + t < 16 && s' == s3[litp + 2 := lit + k + t]
  }

  lemma RunWritten(s: seq<byte>, s1: seq<byte>, s2: seq<byte>, s3: seq<byte>, s': seq<byte>, litp: int, lit: nat,
      ip: nat, k: nat, t: nat)
    requires litp >= 0 && ip == litp + 2 + lit && ip + k + 1 < |s| == |s1| == |s2| == |s3| == |s'| && lit + k + t < 16
    requires s1 == s[litp := s[litp] / 4 * 4] && s2[..ip + 1] == s1[..ip + 1] && s2[ip + 1 + k..] == s1[ip + 1 + k..]
    requires s3[litp + 3..litp + 3 + lit] == s2[litp + 2..litp + 2 + lit]
    requires s3[..litp + 2] == s2[..litp + 2] && s3[ip + 1..] == s2[ip + 1..] && s' == s3[litp + 2 := lit + k + t]
    ensures RunWrites(s, s1, s2, s3, s', litp, lit, ip, k, t)
  {
  }

  lemma RunMarked(s: seq<byte>, s1: seq<byte>, s2: seq<byte>, s3: seq<byte>, s': seq<byte>, n: nat, a: Config,
      mo: seq<byte>,
                  litp: int, lit: nat, ip: nat, o: seq<byte>, st: State, k: nat, t: nat)
    requires Follows(s, n, a, mo, MatchLast, litp, lit, ip, o, st) && 0 < t && ip + k + 1 + t + 3 <= |s|
    requires RunWrites(s, s1, s2, s3, s', litp, lit, ip, k, t)
    ensures Follows(s', n + 1, Config(litp + 2, mo, Run), mo, RunLast, litp + 2, lit + k + t + 3, ip + k + 1 + t + 3,
                    o + s2[ip + 1..ip + 1 + k] + s'[ip + k + 1..ip + k + 1 + t + 3], AfterRun)
  {
    hide Follows, MatchTail, RunTail;
    UnfoldMatch(s, n, a, mo, litp, lit, ip, o, st);
    var at := ip + k + 1;
    RunSlices(s, s1, s2, s3, s', litp, lit, ip, k, t);
    MatchBecomesRun(s, s', n, a, mo, litp, lit, ip, o, s2[ip + 1..at], t, at);
    FoldRun(s', n + 1, Config(litp + 2, mo, Run), mo, litp + 2, lit + k + t + 3, at + t + 3,
            o + s2[ip + 1..at] + s'[at..at + t + 3]);
  }

  lemma RunSlices(s: seq<byte>, s1: seq<byte>, s2: seq<byte>, s3: seq<byte>, s': seq<byte>, litp: int, lit: nat,
      ip: nat, k: nat, t: nat)
    requires RunWrites(s, s1, s2, s3, s', litp, lit, ip, k, t)
    ensures s'[..litp] == s[..litp] && s'[litp] == s[litp] / 4 * 4 && s'[litp + 1] == s[litp + 1]
    ensures s'[litp + 3..litp + 3 + lit] == s[litp + 2..ip] && s'[litp + 3 + lit..ip + k + 1] == s2[ip + 1..ip + 1 + k]
    ensures s'[ip + k + 1..] == s[ip + k + 1..]
  {
    SameBelow(s1, s2, ip + 1);
    SameBelow(s2, s3, litp + 2);
    assert s'[litp + 3..litp + 3 + lit] == s3[litp + 3..litp + 3 + lit];
    assert s2[litp + 2..ip] == s1[litp + 2..ip] == s[litp + 2..ip];
    assert s'[ip + 1..] == s3[ip + 1..] == s2[ip + 1..];
    assert s'[ip + 1..ip + k + 1] == s'[ip + 1..][..k];
    assert s2[ip + 1..ip + k + 1] == s2[ip + 1..][..k];
    assert s'[ip + k + 1..] == s'[ip + 1..][k..];
    assert s2[ip + k + 1..] == s2[ip + 1..][k..];
    assert s1[ip + k + 1..] == s[ip + k + 1..];
  }

  lemma UnfoldRun(s: seq<byte>, n: nat, a: Config, mo: seq<byte>, litp: int, lit: nat, ip: nat, o: seq<byte>, st: State)
    requires Follows(s, n, a, mo, RunLast, litp, lit, ip, o, st)
    ensures litp >= 0 && RunTail(s, n, a, litp, lit, ip, o) && litp + 4 < ip && lit > 3
  {
    hide Iter, RunLength;
    RunAfter(s, litp);
  }

  lemma GrownMarked(s: seq<byte>, s1: seq<byte>, s': seq<byte>, n: nat, a: Config, mo: seq<byte>, litp: int, lit: nat,
                    ip: nat, o: seq<byte>, st: State, t: nat)
    requires Follows(s, n, a, mo, RunLast, litp, lit, ip, o, st) && ip + 3 + t + 3 <= |s| == |s1| == |s'|
        && lit + 3 + t < 16
    requires 0 <= litp < ip && s1[..ip] == s[..ip] && s1[ip + 3..] == s[ip + 3..] && s' == s1[litp := lit + 3 + t]
    ensures Follows(s', n, a, mo, RunLast, litp, lit + 3 + t + 3, ip + 3 + t + 3,
                    o + s1[ip..ip + 3] + s'[ip + 3..ip + 3 + t + 3], AfterRun)
    ensures s'[ip + 3..] == s[ip + 3..]
  {
    hide Follows, RunTail;
    UnfoldRun(s, n, a, mo, litp, lit, ip, o, st);
    SameBelow(s, s1, ip);
    assert s'[..litp] == s[..litp];
    assert s'[litp + 1..ip] == s[litp + 1..ip];
    assert s'[ip..ip + 3] == s1[ip..ip + 3];
    RunGrows(s, s', n, a, litp, lit, ip, o, s1[ip..ip + 3], t, ip + 3);
    FoldRun(s', n, a, mo, litp, lit + 3 + t + 3, ip + 3 + t + 3, o + s1[ip..ip + 3] + s'[ip + 3..ip + 3 + t + 3]);
  }

  lemma SameBehind(s: seq<byte>, s': seq<byte>, at: nat, e: nat)
    requires at <= e <= |s| == |s'| && s'[at..] == s[at..]
    ensures s'[at..e] == s[at..e] && s'[e..] == s[e..]
  {
    assert s'[at..e] == s'[at..][..e - at] && s[at..e] == s[at..][..e - at];
    assert s'[e..] == s'[at..][e - at..] && s[e..] == s[at..][e - at..];
  }

  /** How many bytes a short match takes. */
  lemma MatchSize(s: seq<byte>, ip: nat, st: State)
    requires ip < |s| && ParseMatch(s, ip, st).Copy?
    ensures var m := ParseMatch(s, ip, st);
            if s[ip] >= 64 then m.next == ip + 2
            else if s[ip] >= 16 then m.len == 3 ==> m.next == ip + 3
            else m.next == ip + 2 && (st.Short? ==> m.len == 2)
  {
    hide FarBits, M4Bits, NearDist, M2Dist;
    ExtAfter(s, ip + 1);
  }

  lemma IterZero(s: seq<byte>)
    ensures Iter(s, 0) == Start(s)
  {
  }

  lemma StartFits(s: seq<byte>, result: (seq<byte>, nat))
    requires Decode(s) == Some(result)
    ensures Start(s).Some? && Finish(s, Start(s).value) == Some(result)
    ensures Start(s).value.ip < |s| && |Start(s).value.out| <= |result.0|
  {
    hide Finish;
    FinishGrows(s, Start(s).value);
  }

  lemma RunIs(s: seq<byte>, ip: nat, t: nat, at: nat)
    requires ip < |s| && Some((t, at)) == Length(s, ip + 1, s[ip], 15)
    ensures RunLength(s, ip) == Some((t + 3, at))
  {
  }

  lemma CopyTwo(o: seq<byte>, dist: nat)
    requires 1 <= dist <= |o|
    ensures CopyMatch(o, 2, dist) == o + [o[|o| - dist], if dist == 1 then o[|o| - 1] else o[|o| - dist + 1]]
  {
    var o1 := o + [o[|o| - dist]];
    var o2 := o1 + [o1[|o1| - dist]];
    assert CopyMatch(o, 2, dist) == CopyMatch(o1, 1, dist) == CopyMatch(o2, 0, dist);
  }

  lemma CopyThree(o: seq<byte>, dist: nat)
    requires 1 <= dist <= |o|
    ensures var x := o[|o| - dist];
            CopyMatch(o, 3, dist) == o + (if dist == 1 then [x, x, x] else if dist == 2 then [x, o[|o| - 1], x]
                                          else [x, o[|o| - dist + 1], o[|o| - dist + 2]])
  {
    var o1 := o + [o[|o| - dist]];
    var o2 := o1 + [o1[|o1| - dist]];
    var o3 := o2 + [o2[|o2| - dist]];
    assert CopyMatch(o, 3, dist) == CopyMatch(o1, 2, dist) == CopyMatch(o2, 1, dist) == CopyMatch(o3, 0, dist);
  }

  /** An instruction on the way to the result. */
  ghost predicate Leads(orig: seq<byte>, ip: nat, step: Outcome, result: (seq<byte>, nat))
  {
    match step
    case Next(c) => ip < c.ip < |orig| && |c.out| <= |result.0| && Finish(orig, c) == Some(result)
    case Eof(o, e) => result == (o, e) && e <= |orig|
    case Bad => false
  }

  lemma Unfold(orig: seq<byte>, s: seq<byte>, c: Config)
    requires |s| == |orig| && c.ip <= |s| && s[c.ip..] == orig[c.ip..] && Finish(orig, c).Some?
    ensures c.ip < |s| && Step(s, c) == Step(orig, c) && Leads(orig, c.ip, Step(s, c), Finish(orig, c).value)
  {
    hide ParseMatch, RunLength, CopyMatch;
    FinishGrows(orig, c);
    forall i | c.ip <= i < |s|
      ensures s[i] == orig[i]
    {
      assert s[c.ip..][i - c.ip] == orig[c.ip..][i - c.ip];
    }
    StepSuffix(orig, s, c, c);
    Advances(orig, c);
    if Step(orig, c).Next? {
      FinishGrows(orig, Step(orig, c).c);
    } else {
      ParseAfter(orig, c.ip, c.st);
    }
  }

  /** lzo1x_optimize on a well-formed stream: the stream keeps its length and its meaning. */
  method OptimizeStream(stream: array<byte>, buffer: array<byte>, limit: nat)
    returns (code: int, newLen: nat, count: Rewrites)
    requires stream != buffer && limit <= buffer.Length && Decode(stream[..]).Some?
        && |Decode(stream[..]).value.0| <= limit
    modifies stream, buffer
    ensures Decode(stream[..]) == old(Decode(stream[..]))
    ensures newLen <= buffer.Length && buffer[..newLen] == old(Decode(stream[..])).value.0
    ensures code == if old(Decode(stream[..])).value.1 == stream.Length then LZO_E_OK else LZO_E_INPUT_NOT_CONSUMED
    ensures ShorterBy(old(stream[..]), stream[..], Saved(count))
  {
    hide Decode, EndsAfter, ShorterBy;
    ghost var before := stream[..];
    var o := new Optimizer(stream, buffer, limit);
    ghost var left;
    code, newLen, left := o.Optimize();
    count := o.count;
    ShorterFrom(before, stream[..], left, Saved(count));
  }
}
