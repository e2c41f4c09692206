/** The LZO1X stream format: a reference decoder, one instruction at a time. */
module Lzo1x {
  import opened Bits
  import opened Options
  import opened Rfc1951

  /** What comes before an instruction decides how a byte below 16 is read: as a literal run, as a three-byte match
      behind a run, or as a two-byte match behind the few literals of another match. */
  datatype State = Run | AfterRun | Short

  datatype Config = Config(ip: nat, out: seq<byte>, st: State)

  datatype Instr = Copy(len: nat, dist: nat, next: nat) | End(next: nat) | Broken

  datatype Outcome = Next(c: Config) | Eof(out: seq<byte>, ip: nat) | Bad

  /** A length continued in further bytes: zeros count 255 each. */
  function Ext(s: seq<byte>, ip: nat): Option<(nat, nat)>
    decreases |s| - ip
  {
    if ip >= |s| then None
    else if s[ip] != 0 then Some((s[ip], ip + 1))
    else match Ext(s, ip + 1)
      case None => None
      case Some((v, next)) => Some((v + 255, next))
  }

  /** A length of `base` and more when the bits in the instruction byte are zero. */
  function Length(s: seq<byte>, ip: nat, bits: nat, base: nat): Option<(nat, nat)>
  {
    if bits != 0 then Some((bits, ip))
    else match Ext(s, ip)
      case None => None
      case Some((v, next)) => Some((v + base, next))
  }

  /** The number of literals of the run at ip, and where they start. */
  function RunLength(s: seq<byte>, ip: nat): Option<(nat, nat)>
    requires ip < |s|
  {
    match Length(s, ip + 1, s[ip], 15)
    case None => None
    case Some((t, start)) => Some((t + 3, start))
  }

  /** The distance of a two-byte match from the instruction byte and the byte after it. */
  function NearDist(t: nat, b: nat): nat
  {
    1 + t / 4 + 4 * b
  }

  function M2Dist(t: nat, b: nat): nat
  {
    1 + t / 4 % 8 + 8 * b
  }

  /** The distance bits in the last two bytes of a long match. */
  function FarBits(b0: nat, b1: nat): nat
  {
    b0 / 4 + 64 * b1
  }

  /** What the distance of an M4 match exceeds 0x4000 by; zero marks the end of the stream. */
  function M4Bits(t: nat, b0: nat, b1: nat): nat
  {
    FarBits(b0, b1) + (if t % 16 >= 8 then 0x4000 else 0)
  }

  /** A match with a length of its own, whose instruction byte is t. */
  function ParseLong(s: seq<byte>, ip: nat, t: nat): Instr
  {
    match Length(s, ip + 1, if t >= 32 then t % 32 else t % 8, if t >= 32 then 31 else 7)
    case None => Broken
    case Some((l, at)) =>
      if at + 2 > |s| then Broken
      else if t >= 32 then Copy(l + 2, 1 + FarBits(s[at], s[at + 1]), at + 2)
      else if M4Bits(t, s[at], s[at + 1]) == 0 then End(at + 2)
      else Copy(l + 2, M4Bits(t, s[at], s[at + 1]) + 0x4000, at + 2)
  }

  /** The match at ip. */
  function ParseMatch(s: seq<byte>, ip: nat, st: State): Instr
    requires ip < |s|
  {
    if 16 <= s[ip] < 64 then ParseLong(s, ip, s[ip])
    else if ip + 2 > |s| then Broken
    else if s[ip] >= 64 then Copy(s[ip] / 32 + 1, M2Dist(s[ip], s[ip + 1]), ip + 2)
    else if st.Short? then Copy(2, NearDist(s[ip], s[ip + 1]), ip + 2)
    else Copy(3, NearDist(s[ip], s[ip + 1]) + 0x800, ip + 2)
  }

  function Step(s: seq<byte>, c: Config): Outcome
  {
    if c.ip >= |s| then Bad
    else if c.st.Run? && s[c.ip] < 16 then
      match RunLength(s, c.ip)
      case None => Bad
      case Some((n, start)) =>
        if start + n > |s| then Bad else Next(Config(start + n, c.out + s[start..start + n], AfterRun))
    else
      match ParseMatch(s, c.ip, c.st)
      case Broken => Bad
      case End(next) => Eof(c.out, next)
      case Copy(len, dist, next) =>
        var k := s[next - 2] % 4;
        if dist > |c.out| || next + k > |s| then Bad
        else Next(Config(next + k, CopyMatch(c.out, len, dist) + s[next..next + k], if k == 0 then Run else Short))
  }

  /** The first byte of a stream may hold a literal count. */
  function Start(s: seq<byte>): Option<Config>
  {
    if s == [] then None
    else if s[0] > 17 then
      var n := s[0] - 17;
      if 1 + n > |s| then None else Some(Config(1 + n, s[1..1 + n], if n < 4 then Short else AfterRun))
    else Some(Config(0, [], Run))
  }

  /** Decoding from c on: the output, and where the end marker ends. */
  function Finish(s: seq<byte>, c: Config): Option<(seq<byte>, nat)>
    decreases |s| - c.ip
  {
    match Step(s, c)
    case Bad => None
    case Eof(out, ip) => Some((out, ip))
    case Next(c') => Advances(s, c); Finish(s, c')
  }

  function Decode(s: seq<byte>): Option<(seq<byte>, nat)>
  {
    match Start(s)
    case None => None
    case Some(c) => Finish(s, c)
  }

  lemma {:induction false} ExtAfter(s: seq<byte>, ip: nat)
    ensures Ext(s, ip).Some? ==> ip < Ext(s, ip).value.1 <= |s| && Ext(s, ip).value.0 > 0
    decreases |s| - ip
  {
    if ip < |s| && s[ip] == 0 {
      ExtAfter(s, ip + 1);
    }
  }

  lemma ParseAfter(s: seq<byte>, ip: nat, st: State)
    requires ip < |s|
    ensures ParseMatch(s, ip, st).Copy? ==>
              ip + 2 <= ParseMatch(s, ip, st).next <= |s| && ParseMatch(s, ip, st).len >= 2
                  && ParseMatch(s, ip, st).dist >= 1
    ensures ParseMatch(s, ip, st).End? ==> ip + 2 <= ParseMatch(s, ip, st).next <= |s|
  {
    hide Ext;
    ExtAfter(s, ip + 1);
    if 16 <= s[ip] < 64 {
      LongAfter(s, ip);
    }
  }

  lemma LongAfter(s: seq<byte>, ip: nat)
    requires ip < |s| && 16 <= s[ip] < 64
    ensures var i := ParseLong(s, ip, s[ip]);
            && (i.Copy? ==> ip + 3 <= i.next <= |s| && i.len >= 2 && i.dist >= 1)
            && (i.End? ==> ip + 3 <= i.next <= |s|)
  {
    hide Ext;
    ExtAfter(s, ip + 1);
  }

  lemma Advances(s: seq<byte>, c: Config)
    ensures Step(s, c).Next? ==> c.ip < Step(s, c).c.ip <= |s|
  {
    ExtAfter(s, c.ip + 1);
  }
}
