/** The rolling hash of three-byte strings: UPDATE_HASH and what the matcher relies on. */
module StringHash {
  import opened Sums
  import opened Bits

  /** HASH_BITS and H_SHIFT, under the conditions the code states for them. */
  datatype Hashing = Hashing(bits: nat, shift: nat)
  {
    ghost predicate Valid()
    {
      3 * shift >= bits >= 8
    }
  }

  /** UPDATE_HASH: h is shifted, the byte mixed in, and the result masked. */
  function Update(p: Hashing, h: nat, c: byte): nat
  {
    Low(BitXor(Shl(h, p.shift), c), p.bits)
  }

  function Hash3(p: Hashing, a: byte, b: byte, c: byte): nat
  {
    Update(p, Update(p, Update(p, 0, a), b), c)
  }

  lemma UpdateFits(p: Hashing, h: nat, c: byte)
    ensures Update(p, h, c) < Pow2(p.bits)
  {
    LowShr(BitXor(Shl(h, p.shift), c), p.bits);
  }

  lemma UpdateBit(p: Hashing, h: nat, c: byte, i: nat)
    ensures BitAt(Update(p, h, c), i) == (i < p.bits && ((i >= p.shift && BitAt(h, i - p.shift)) != BitAt(c, i)))
  {
    hide BitAt, Low, BitXor, Shl;
    BitAtLow(BitXor(Shl(h, p.shift), c), p.bits, i);
    BitAtXor(Shl(h, p.shift), c, i);
    BitAtShift(h, p.shift, i);
  }

  lemma TwoUpdatesBit(p: Hashing, x: nat, b: byte, c: byte, i: nat)
    requires i < p.bits
    ensures BitAt(Update(p, Update(p, x, b), c), i)
         == ((i >= p.shift
             && ((i >= 2 * p.shift && BitAt(x, i - 2 * p.shift)) != BitAt(b, i - p.shift))) != BitAt(c, i))
  {
    hide BitAt, Update;
    UpdateBit(p, Update(p, x, b), c, i);
    if i >= p.shift {
      UpdateBit(p, x, b, i - p.shift);
    }
  }

  lemma ForgetBit(p: Hashing, x: nat, y: nat, b: byte, c: byte, d: byte, i: nat)
    requires p.Valid() && i < p.bits
    ensures BitAt(Update(p, Update(p, Update(p, x, b), c), d), i)
        == BitAt(Update(p, Update(p, Update(p, y, b), c), d), i)
  {
    hide BitAt, Update;
    TwoUpdatesBit(p, Update(p, x, b), c, d, i);
    TwoUpdatesBit(p, Update(p, y, b), c, d, i);
    if i >= 2 * p.shift {
      UpdateBit(p, x, b, i - 2 * p.shift);
      UpdateBit(p, y, b, i - 2 * p.shift);
    }
  }

  /** After three updates nothing is left of what came before. */
  lemma Forget(p: Hashing, x: nat, y: nat, b: byte, c: byte, d: byte)
    requires p.Valid()
    ensures Update(p, Update(p, Update(p, x, b), c), d) == Update(p, Update(p, Update(p, y, b), c), d)
  {
    hide BitAt, Update;
    var u, v := Update(p, Update(p, Update(p, x, b), c), d), Update(p, Update(p, Update(p, y, b), c), d);
    UpdateFits(p, Update(p, Update(p, x, b), c), d);
    UpdateFits(p, Update(p, Update(p, y, b), c), d);
    forall i | 0 <= i < p.bits
      ensures BitAt(u, i) == BitAt(v, i)
    {
      ForgetBit(p, x, y, b, c, d, i);
    }
    BitsEqual(u, v, p.bits);
  }

  /** h is the running hash after the bytes a and b: any third byte completes their hash. */
  ghost predicate Rolling(p: Hashing, h: nat, a: byte, b: byte)
  {
    forall c: byte :: Update(p, h, c) == Hash3(p, a, b, c)
  }

  lemma RollingStart(p: Hashing, a: byte, b: byte)
    ensures Rolling(p, Update(p, Update(p, 0, a), b), a, b)
  {
  }

  lemma RollingStep(p: Hashing, h: nat, a: byte, b: byte, c: byte)
    requires p.Valid() && Rolling(p, h, a, b)
    ensures Update(p, h, c) == Hash3(p, a, b, c) && Rolling(p, Update(p, h, c), b, c)
  {
    hide Update;
    assert Update(p, h, c) == Hash3(p, a, b, c);
    forall d: byte
      ensures Update(p, Update(p, h, c), d) == Hash3(p, b, c, d)
    {
      Forget(p, Update(p, 0, a), 0, b, c, d);
    }
  }

  /** With equal hashes and equal first two bytes the third bytes are equal. */
  lemma ThirdEqual(p: Hashing, a: byte, b: byte, c: byte, d: byte)
    requires p.Valid() && Hash3(p, a, b, c) == Hash3(p, a, b, d)
    ensures c == d
  {
    hide BitAt, Update;
    var h := Update(p, Update(p, 0, a), b);
    assert Pow2(8) == 256;
    forall i | 0 <= i < 8
      ensures BitAt(c, i) == BitAt(d, i)
    {
      UpdateBit(p, h, c, i);
      UpdateBit(p, h, d, i);
    }
    BitsEqual(c, d, 8);
  }
}
