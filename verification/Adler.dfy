/** lzo_adler32: the checksum with its modulo deferred over chunks. */
module Adler {
  import opened Bits

  const LZO_BASE := 65521
  const LZO_NMAX := 5552
  const WORD := 0x1_0000_0000

  /** Section 2.2 of RFC 1950, byte by byte: s1 and s2 after buf. */
  function Checksums(s1: nat, s2: nat, buf: seq<byte>): (nat, nat)
    decreases |buf|
  {
    if buf == [] then (s1, s2)
    else
      var (a, b) := Checksums(s1, s2, buf[..|buf| - 1]);
      Next(a, b, buf[|buf| - 1])
  }

  function Next(a: nat, b: nat, c: byte): (r: (nat, nat))
  {
    var a' := (a + c) % LZO_BASE;
    (a', (b + a') % LZO_BASE)
  }

  function Pack(s1: nat, s2: nat): nat
  {
    s2 * 65536 + s1
  }

  function Adler32(adler: nat, buf: seq<byte>): nat
  {
    var (a, b) := Checksums(adler % 65536, adler / 65536 % 65536, buf);
    Pack(a, b)
  }

  lemma {:induction false} ChecksumsConcat(s1: nat, s2: nat, x: seq<byte>, y: seq<byte>)
    ensures Checksums(s1, s2, x + y) == Checksums(Checksums(s1, s2, x).0, Checksums(s1, s2, x).1, y)
    decreases |y|
  {
    hide Next;
    if y == [] {
      assert x + y == x;
    } else {
      assert (x + y)[..|x + y| - 1] == x + y[..|y| - 1];
      ChecksumsConcat(s1, s2, x, y[..|y| - 1]);
    }
  }

  lemma ChecksumsFit(s1: nat, s2: nat, buf: seq<byte>)
    requires s1 < 65536 && s2 < 65536
    ensures Checksums(s1, s2, buf).0 < 65536 && Checksums(s1, s2, buf).1 < 65536
    ensures buf != [] ==> Checksums(s1, s2, buf).0 < LZO_BASE && Checksums(s1, s2, buf).1 < LZO_BASE
  {
  }

  /** Feeding two buffers in turn is feeding their concatenation. */
  lemma InTurn(adler: nat, x: seq<byte>, y: seq<byte>)
    requires adler < WORD
    ensures Adler32(Adler32(adler, x), y) == Adler32(adler, x + y)
  {
    hide Checksums;
    var a, b := adler % 65536, adler / 65536 % 65536;
    ChecksumsConcat(a, b, x, y);
    ChecksumsFit(a, b, x);
    Unpacked(Checksums(a, b, x).0, Checksums(a, b, x).1);
  }

  lemma Unpacked(s1: nat, s2: nat)
    requires s1 < 65536 && s2 < 65536
    ensures Pack(s1, s2) % 65536 == s1 && Pack(s1, s2) / 65536 % 65536 == s2
  {
  }

  /** The sum of the first n numbers. */
  function Triangle(n: nat): nat
  {
    if n == 0 then 0 else Triangle(n - 1) + n
  }

  lemma {:induction false} TriangleIs(n: nat)
    ensures 2 * Triangle(n) == n * (n + 1)
  {
    if n > 0 {
      TriangleIs(n - 1);
      assert n * (n + 1) == (n - 1) * n + 2 * n;
    }
  }

  lemma {:induction false} TriangleMonotone(n: nat, m: nat)
    requires n <= m
    ensures Triangle(n) <= Triangle(m)
    decreases m
  {
    if n < m {
      TriangleMonotone(n, m - 1);
    }
  }

  /** Within a chunk neither sum reaches 2^32, from any 16-bit sums on. */
  lemma NoOverflow(n: nat)
    requires n <= LZO_NMAX
    ensures 65535 + 255 * n < WORD && 65535 + 65535 * n + 255 * Triangle(n) < WORD
  {
    TriangleMonotone(n, LZO_NMAX);
    TriangleIs(LZO_NMAX);
  }

  /** The sums so far, before the modulo. */
  ghost predicate Deferred(a: nat, b: nat, s1: nat, s2: nat, chunk: seq<byte>)
  {
    && s1 % LZO_BASE == Checksums(a, b, chunk).0 % LZO_BASE && s2 % LZO_BASE == Checksums(a, b, chunk).1 % LZO_BASE
    && s1 <= 65535 + 255 * |chunk| && s2 <= 65535 + 65535 * |chunk| + 255 * Triangle(|chunk|)
  }

  lemma ModSum(x: nat, y: nat, z: nat)
    requires x % LZO_BASE == y % LZO_BASE
    ensures (x + z) % LZO_BASE == (y + z) % LZO_BASE
  {
    var q, r := x / LZO_BASE, y / LZO_BASE;
    assert x + z == (y + z) + (q - r) * LZO_BASE;
  }

  lemma DeferredStep(a: nat, b: nat, s1: nat, s2: nat, chunk: seq<byte>, c: byte)
    requires Deferred(a, b, s1, s2, chunk)
    ensures Deferred(a, b, s1 + c, s2 + (s1 + c), chunk + [c])
  {
    hide Checksums;
    var (x, y) := Checksums(a, b, chunk);
    assert Checksums(a, b, chunk + [c]) == Next(x, y, c) by { LastByte(a, b, chunk, c); }
    ModSum(s1, x, c);
    var s, t := s1 + c, (x + c) % LZO_BASE;
    ModSum(s, t, s2);
    ModSum(s2, y, t);
    assert Triangle(|chunk| + 1) == Triangle(|chunk|) + |chunk| + 1;
  }

  lemma LastByte(a: nat, b: nat, chunk: seq<byte>, c: byte)
    ensures Checksums(a, b, chunk + [c]) == Next(Checksums(a, b, chunk).0, Checksums(a, b, chunk).1, c)
  {
    assert (chunk + [c])[..|chunk|] == chunk;
  }

  /** One chunk of at most NMAX bytes; every addition is made in 32 bits. */
  method Chunk(buf: array<byte>, at: nat, k: nat, a: nat, b: nat) returns (s1: nat, s2: nat)
    requires at + k <= buf.Length && 0 < k <= LZO_NMAX && a < 65536 && b < 65536
    ensures (s1, s2) == Checksums(a, b, buf[at..at + k])
  {
    hide Checksums, Deferred, Triangle;
    s1, s2 := a, b;
    assert Deferred(a, b, s1, s2, []) by { NothingDeferred(a, b); }
    assert buf[at..at] == [];
    var i := 0;
    while i < k
      invariant i <= k && Deferred(a, b, s1, s2, buf[at..at + i])
    {
      ghost var chunk := buf[at..at + i];
      DeferredStep(a, b, s1, s2, chunk, buf[at + i]);
      assert buf[at..at + i + 1] == chunk + [buf[at + i]];
      DeferredFits(a, b, s1 + buf[at + i], s2 + (s1 + buf[at + i]), buf[at..at + i + 1]);
      s1 := (s1 + buf[at + i]) % WORD;
      s2 := (s2 + s1) % WORD;
      i := i + 1;
    }
    DeferredDone(a, b, s1, s2, buf[at..at + k]);
    s1, s2 := s1 % LZO_BASE, s2 % LZO_BASE;
  }

  lemma NothingDeferred(a: nat, b: nat)
    requires a < 65536 && b < 65536
    ensures Deferred(a, b, a, b, [])
  {
  }

  lemma DeferredFits(a: nat, b: nat, s1: nat, s2: nat, chunk: seq<byte>)
    requires Deferred(a, b, s1, s2, chunk) && |chunk| <= LZO_NMAX
    ensures s1 < WORD && s2 < WORD
  {
    hide Checksums, Triangle;
    NoOverflow(|chunk|);
  }

  lemma DeferredDone(a: nat, b: nat, s1: nat, s2: nat, chunk: seq<byte>)
    requires Deferred(a, b, s1, s2, chunk) && chunk != [] && a < 65536 && b < 65536
    ensures (s1 % LZO_BASE, s2 % LZO_BASE) == Checksums(a, b, chunk)
  {
    hide Checksums, Triangle;
    ChecksumsFit(a, b, chunk);
  }

  /** lzo_adler32 equals the checksum with a modulo at every byte, from every 32-bit start value. */
  method LzoAdler32(adler: nat, buf: array?<byte>) returns (r: nat)
    requires adler < WORD
    ensures r == if buf == null then 1 else Adler32(adler, buf[..])
  {
    hide Checksums;
    var s1, s2 := adler % 65536, adler / 65536 % 65536;
    if buf == null {
      return 1;
    }
    ghost var a, b := s1, s2;
    var at := 0;
    assert Checksums(a, b, []) == (a, b) by { NoBytes(a, b); }
    while at < buf.Length
      invariant at <= buf.Length && (s1, s2) == Checksums(a, b, buf[..at]) && s1 < 65536 && s2 < 65536
    {
      var k := if buf.Length - at < LZO_NMAX then buf.Length - at else LZO_NMAX;
      ChecksumsConcat(a, b, buf[..at], buf[at..at + k]);
      assert buf[..at + k] == buf[..at] + buf[at..at + k];
      ChecksumsFit(a, b, buf[..at + k]);
      s1, s2 := Chunk(buf, at, k, s1, s2);
      at := at + k;
    }
    assert buf[..at] == buf[..];
    r := Pack(s1, s2);
  }

  lemma NoBytes(a: nat, b: nat)
    ensures Checksums(a, b, []) == (a, b)
  {
  }
}
