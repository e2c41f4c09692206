/** The compressed output: an output buffer, and bits packed least significant first in front of it. */
module BitWriting {
  import opened Sums
  import opened Bits

  function Le16(w: nat): seq<byte>
  {
    [w % 256, w / 256 % 256]
  }

  function Le32(n: nat): seq<byte>
  {
    Le16(n) + Le16(n / 65536)
  }

  function LeWord(w: nat, width: nat): seq<byte>
  {
    if width == 32 then Le32(w) else Le16(w)
  }

  lemma LeWordBits(w: nat, width: nat)
    requires width == 16 || width == 32
    ensures BytesToBits(LeWord(w, width)) == ToBits(w, width)
  {
    if width == 32 {
      Le32Bits(w);
    } else {
      Le16Bits(w);
    }
  }

  lemma Le16Bits(w: nat)
    ensures BytesToBits(Le16(w)) == ToBits(w, 16)
  {
    ToBitsSplit(w, 8, 8);
    LowByte(w);
    ByteSplit(w);
    LowByte(w / 256);
    BytesToBitsAppend([], w % 256);
    BytesToBitsAppend([w % 256], w / 256 % 256);
    assert [w % 256] + [w / 256 % 256] == Le16(w);
    assert [] + [w % 256] == [w % 256];
  }

  lemma Le32Bits(n: nat)
    ensures BytesToBits(Le32(n)) == ToBits(n, 32)
  {
    Le16Bits(n);
    Le16Bits(n / 65536);
    ToBitsSplit(n, 16, 16);
    Shr16(n);
    BytesToBitsConcat(Le16(n), Le16(n / 65536));
  }

  lemma ByteSplit(w: nat)
    ensures Low(w, 8) == w % 256
    ensures Shr(w, 8) == w / 256
  {
    LowShr(w, 8);
    assert Pow2(8) == 256;
    Shl8(Shr(w, 8));
  }

  lemma Shl8(v: nat)
    ensures Shl(v, 8) == 256 * v
  {
    ShlIsMul(v, 8);
    assert Pow2(8) == 256;
  }

  lemma LowByte(w: nat)
    ensures ToBits(w % 256, 8) == ToBits(w, 8)
  {
    ByteSplit(w);
    ToBitsLow(w, 8);
  }

  lemma Shr16(n: nat)
    ensures Shr(n, 16) == n / 65536
  {
    ByteSplit(n);
    ByteSplit(n / 256);
    ShrShr(n, 8, 8);
  }

  /** The bits that fill up the last byte. */
  function Padding(bitCount: nat): (n: nat)
    ensures n < 8 && (bitCount + n) % 8 == 0
  {
    (8 - bitCount % 8) % 8
  }

  lemma PaddingMod(bytes: nat, bits: nat)
    ensures Padding(8 * bytes + bits) == Padding(bits)
  {
  }

  /** The bits of whole bytes followed by `valid` bits of buf. */
  function Stream(bytes: seq<byte>, buf: nat, valid: nat): seq<bool>
  {
    BytesToBits(bytes) + ToBits(buf, valid)
  }

  lemma StoredLengthBits(bytes: seq<byte>, len: nat, v: nat)
    requires len < 65536 && v == len + (65535 - len) * 65536
    ensures Stream(bytes + Le32(v), 0, 0) == Stream(bytes, 0, 0) + (ToBits(len, 16) + ToBits(65535 - len, 16))
  {
    hide Le32, BytesToBits, ToBits, Pow2, Shl;
    Le32Bits(v);
    assert Pow2(16) == 65536 by { Pow16(); }
    ShlIsMul(65535 - len, 16);
    ToBitsConcat(len, 16, 65535 - len, 16);
    BytesToBitsConcat(bytes, Le32(v));
    assert ToBits(0, 0) == [] by { NoBits(); }
  }

  lemma Pow16()
    ensures Pow2(16) == 65536
  {
    Pow2Add(8, 8);
    assert Pow2(8) == 256;
  }

  lemma NoBits()
    ensures ToBits(0, 0) == []
  {
  }

  lemma CopiedBits(bytes: seq<byte>, data: seq<byte>)
    ensures Stream(bytes + data, 0, 0) == Stream(bytes, 0, 0) + BytesToBits(data)
  {
    BytesToBitsConcat(bytes, data);
  }

  class BitWriter {
    const outbuf: array<byte>
    const bufSize: nat  // the width of bi_buf: 16 or 32 bits
    var outcnt: nat
    var written: seq<byte>
    var biBuf: nat
    var biValid: nat

    ghost predicate Valid()
      reads this
    {
      && 2 <= outbuf.Length && outcnt < outbuf.Length
      && (bufSize == 16 || bufSize == 32)
      && biValid < bufSize && biBuf < Pow2(biValid)
    }

    /** Every byte produced so far: those handed to write() and those still buffered. */
    ghost function Bytes(): seq<byte>
      requires outcnt <= outbuf.Length
      reads this, outbuf
    {
      written + outbuf[..outcnt]
    }

    /** Every bit sent so far. */
    ghost function Sent(): seq<bool>
      requires Valid()
      reads this, outbuf
    {
      Stream(Bytes(), biBuf, biValid)
    }

    constructor (outbufSize: nat, width: nat)
      requires 2 <= outbufSize && (width == 16 || width == 32)
      ensures Valid() && fresh(outbuf) && outbuf.Length == outbufSize
      ensures Bytes() == [] && Sent() == []
    {
      outbuf := new byte[outbufSize](_ => 0);
      bufSize, outcnt, written, biBuf, biValid := width, 0, [], 0, 0;
    }

    method FlushOutbuf()
      requires outcnt <= outbuf.Length
      modifies `outcnt, `written
      ensures outcnt == 0 && Bytes() == old(Bytes()) && written == old(Bytes())
    {
      if outcnt == 0 {
        return;
      }
      written := written + outbuf[..outcnt];
      outcnt := 0;
    }

    method Put8(c: byte)
      requires outcnt < outbuf.Length
      modifies `outcnt, `written, outbuf
      ensures outcnt < outbuf.Length
      ensures Bytes() == old(Bytes()) + [c]
    {
      outbuf[outcnt] := c;
      outcnt := outcnt + 1;
      assert outbuf[..outcnt] == old(outbuf[..outcnt]) + [c];
      if outcnt == outbuf.Length {
        FlushOutbuf();
      }
    }

    method Put16(w: nat)
      requires outcnt < outbuf.Length && 2 <= outbuf.Length
      modifies `outcnt, `written, outbuf
      ensures outcnt < outbuf.Length
      ensures Bytes() == old(Bytes()) + Le16(w)
    {
      var cnt := outcnt;
      outbuf[cnt] := w % 256;
      var hi: byte := w / 256 % 256;
      if cnt < outbuf.Length - 2 {
        outbuf[cnt + 1] := hi;
        outcnt := cnt + 2;
        assert outbuf[..outcnt] == old(outbuf[..outcnt]) + Le16(w);
        return;
      }
      outcnt := cnt + 1;
      assert outbuf[..outcnt] == old(outbuf[..outcnt]) + [w % 256];
      if outcnt == outbuf.Length {
        FlushOutbuf();
      }
      Put8(hi);
    }

    method Put32(n: nat)
      requires outcnt < outbuf.Length && 2 <= outbuf.Length
      modifies `outcnt, `written, outbuf
      ensures outcnt < outbuf.Length
      ensures Bytes() == old(Bytes()) + Le32(n)
    {
      Put16(n);
      Put16(n / 65536);
    }

    /** For up to 15 bits both shifts of send_bits are by less than the width of the buffer. */
    lemma ShiftsInRange(length: nat)
      requires Valid() && 1 <= length <= 15
      ensures biValid < bufSize
      ensures length + biValid >= bufSize ==> 0 < bufSize - biValid < bufSize
    {
    }

    /** Appends the low `length` bits of value to the bits sent. */
    method SendBits(value: nat, length: nat)
      requires Valid() && 1 <= length <= 16 && value < Pow2(length)
      modifies this, outbuf
      ensures Valid()
      ensures Sent() == old(Sent()) + ToBits(value, length)
    {
      hide Stream, BitOr, Low, Shl, Shr, Pow2, ToBits, LeWord;
      var newBuf := BitOr(biBuf, Low(Shl(value, biValid), bufSize));
      var newLength := length + biValid;
      if newLength >= bufSize {
        SendFull(Bytes(), biBuf, biValid, value, length, bufSize);
        PutWord(newBuf);
        biBuf, biValid := Shr(value, bufSize - biValid), newLength - bufSize;
      } else {
        SendPartial(Bytes(), biBuf, biValid, value, length, bufSize);
        biBuf, biValid := newBuf, newLength;
      }
    }

    method PutWord(w: nat)
      requires outcnt < outbuf.Length && 2 <= outbuf.Length && (bufSize == 16 || bufSize == 32)
      modifies `outcnt, `written, outbuf
      ensures outcnt < outbuf.Length
      ensures Bytes() == old(Bytes()) + LeWord(w, bufSize)
    {
      if bufSize == 32 {
        Put32(w);
      } else {
        Put16(w);
      }
    }

    /** The lowest byte of what is left goes out. */
    method WindupByte(bits: nat, ghost n: nat) returns (rest: nat)
      requires outcnt < outbuf.Length && n >= 8
      modifies `outcnt, `written, outbuf
      ensures outcnt < outbuf.Length
      ensures Stream(Bytes(), rest, n - 8) == old(Stream(Bytes(), bits, n))
    {
      hide Stream;
      WindupStep(Bytes(), bits, n);
      Put8(bits % 256);
      rest := bits / 256;
    }

    /** The loop of bi_windup: whole bytes, low first, until the buffered bits are gone. */
    method WindupBytes(bits: nat, count: nat, ghost n: nat, ghost pad: nat, ghost target: seq<bool>)
      returns (rest: nat)
      requires outcnt < outbuf.Length && count + pad == 8 * n && pad < 8
      requires Stream(Bytes(), bits, 8 * n) == target
      modifies `outcnt, `written, outbuf
      ensures outcnt < outbuf.Length
      ensures Stream(Bytes(), rest, 0) == target
    {
      hide Stream;
      rest := bits;
      var cnt: int := count;
      ghost var left := n;
      while cnt > 0
        invariant outcnt < outbuf.Length
        invariant 0 <= left && cnt + pad == 8 * left
        invariant Stream(Bytes(), rest, 8 * left) == target
        decreases cnt
      {
        rest := WindupByte(rest, 8 * left);
        cnt := cnt - 8;
        left := left - 1;
      }
    }

    /** Writes out the bits of an incomplete word, zero-padded to a whole byte. */
    method BiWindup()
      requires Valid()
      modifies this, outbuf
      ensures Valid() && biValid == 0
      ensures Sent() == old(Sent()) + Zeros(Padding(|old(Sent())|))
    {
      assert |Sent()| == 8 * |Bytes()| + biValid;
      hide Stream, Zeros, Pow2, Padding;
      ghost var pad := Padding(biValid);
      ghost var target := Sent() + Zeros(pad);
      PaddingMod(|Bytes()|, biValid);
      WindupStart(Bytes(), biBuf, biValid, pad);
      var bits := WindupBytes(biBuf, biValid, (biValid + pad) / 8, pad, target);
      StreamDry(Bytes(), bits);
      biBuf, biValid := 0, 0;
    }

    /** The length of a stored block and its one's complement. */
    method PutStoredLength(len: nat)
      requires Valid() && biValid == 0 && len < 65536
      modifies `outcnt, `written, outbuf
      ensures Valid() && Sent() == old(Sent()) + (ToBits(len, 16) + ToBits(65535 - len, 16))
    {
      ghost var before := Bytes();
      var v := len % 65536 + (65535 - len % 65536) * 65536;
      Put32(v);
      StoredLengthBits(before, len, v);
    }

    /** copy_block: len bytes of buf from start on, aligned and preceded by their length if header is set. */
    method CopyBlock(buf: array<byte>, start: nat, len: nat, header: bool)
      requires Valid() && start + len <= buf.Length && len < 65536 && buf != outbuf
      modifies this, outbuf
      ensures Valid()
      ensures Sent()
          == old(Sent()) + Zeros(Padding(|old(Sent())|))
              + (if header then ToBits(len, 16) + ToBits(65535 - len, 16) else [])
                      + BytesToBits(buf[start..start + len])
    {
      hide BytesToBits, Zeros, Padding, ToBits, Stream;
      BiWindup();
      if header {
        PutStoredLength(len);
      }
      ghost var before, sent := Bytes(), Sent();
      var n := 0;
      while n < len
        invariant n <= len && Valid() && biValid == 0 == biBuf && Bytes() == before + buf[start..start + n]
      {
        Put8(buf[start + n]);
        n := n + 1;
        assert buf[start..start + n] == buf[start..start + n - 1] + [buf[start + n - 1]];
      }
      CopiedBits(before, buf[start..start + len]);
      // the bytes above can misalign outbuf
      if outcnt % 4 != 0 && bufSize == 32 {
        FlushOutbuf();
      }
    }
  }

  lemma PackPartial(buf: nat, valid: nat, value: nat, length: nat, size: nat)
    requires buf < Pow2(valid) && value < Pow2(length) && valid + length < size
    ensures var w := BitOr(buf, Low(Shl(value, valid), size));
            && w < Pow2(valid + length)
            && ToBits(w, valid + length) == ToBits(buf, valid) + ToBits(value, length)
  {
    var k := size - valid;
    assert Low(value, k) == value by {
      Pow2Monotone(length, k);
      LowFits(value, k);
    }
    LowShift(value, valid, k);
    BitOrDisjoint(buf, valid, value);
    ToBitsConcat(buf, valid, value, length);
    PackedFits(buf, valid, value, length);
  }

  lemma SendPartial(before: seq<byte>, buf: nat, valid: nat, value: nat, length: nat, size: nat)
    requires buf < Pow2(valid) && value < Pow2(length) && valid + length < size
    ensures var w := BitOr(buf, Low(Shl(value, valid), size));
            && w < Pow2(valid + length)
            && Stream(before, w, valid + length) == Stream(before, buf, valid) + ToBits(value, length)
  {
    PackPartial(buf, valid, value, length, size);
  }

  lemma {:induction false} PackedFits(buf: nat, valid: nat, value: nat, length: nat)
    requires buf < Pow2(valid) && value < Pow2(length)
    ensures buf + Shl(value, valid) < Pow2(valid + length)
  {
    if valid > 0 {
      PackedFits(buf / 2, valid - 1, value, length);
    }
  }

  lemma SendFull(before: seq<byte>, buf: nat, valid: nat, value: nat, length: nat, size: nat)
    requires buf < Pow2(valid) && value < Pow2(length) && length <= 16 <= size
    requires valid < size <= valid + length
    requires size == 16 || size == 32
    ensures var k := size - valid;
            var w := BitOr(buf, Low(Shl(value, valid), size));
            && Shr(value, k) < Pow2(length - k)
            && Stream(before + LeWord(w, size), Shr(value, k), length - k)
               == Stream(before, buf, valid) + ToBits(value, length)
  {
    var k := size - valid;
    var w := BitOr(buf, Low(Shl(value, valid), size));
    PackFull(buf, valid, value, length, size);
    LeWordBits(w, size);
    BytesToBitsConcat(before, LeWord(w, size));
    Regroup(BytesToBits(before), BytesToBits(LeWord(w, size)), ToBits(Shr(value, k), length - k),
            ToBits(buf, valid), ToBits(value, length));
  }

  lemma PackFull(buf: nat, valid: nat, value: nat, length: nat, size: nat)
    requires buf < Pow2(valid) && value < Pow2(length) && length <= 16 <= size
    requires valid < size <= valid + length
    ensures var k := size - valid;
            var w := BitOr(buf, Low(Shl(value, valid), size));
            && Shr(value, k) < Pow2(length - k)
            && ToBits(w, size) + ToBits(Shr(value, k), length - k)
               == ToBits(buf, valid) + ToBits(value, length)
  {
    var k := size - valid;
    var low := Low(value, k);
    LowShift(value, valid, k);
    BitOrDisjoint(buf, valid, low);
    ToBitsConcat(buf, valid, low, k);
    ToBitsLow(value, k);
    ToBitsSplit(value, k, length - k);
    ShrFits(value, k, length - k);
  }

  lemma WindupStart(before: seq<byte>, bits: nat, valid: nat, pad: nat)
    requires bits < Pow2(valid)
    ensures Stream(before, bits, valid + pad) == Stream(before, bits, valid) + Zeros(pad)
  {
    ToBitsConcat(bits, valid, 0, pad);
    ToBitsZero(pad);
    ShlZero(valid);
  }

  lemma {:induction false} ShlZero(k: nat)
    ensures Shl(0, k) == 0
  {
    if k > 0 {
      ShlZero(k - 1);
    }
  }

  lemma StreamDry(before: seq<byte>, bits: nat)
    ensures Stream(before, bits, 0) == Stream(before, 0, 0) && Pow2(0) == 1
  {
  }

  lemma WindupStep(before: seq<byte>, bits: nat, n: nat)
    requires n >= 8
    ensures Stream(before + [bits % 256], bits / 256, n - 8) == Stream(before, bits, n)
  {
    hide ToBits, BytesToBits, Low, Shr;
    LowByte(bits);
    ByteSplit(bits);
    BytesToBitsAppend(before, bits % 256);
    ToBitsSplit(bits, 8, n - 8);
  }
}
