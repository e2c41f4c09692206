/** How two parts of a version compare, as section 5.6.12 of the Debian Policy Manual puts it: a stretch without
    digits and a stretch of digits in turn. */
module DebianPolicy {
  import opened Bits
  import opened Options

  predicate Letter(c: byte)
  {
    'A' as int <= c <= 'Z' as int || 'a' as int <= c <= 'z' as int
  }

  predicate Numeral(c: byte)
  {
    '0' as int <= c <= '9' as int
  }

  /** The tilde sorts before the end of a stretch, and letters before all other characters. */
  function Rank(c: Option<byte>): nat
  {
    match c
    case None => 1
    case Some(x) => if x == '~' as int then 0 else if Letter(x) then 2 else 3
  }

  /** By rank, then by value; None is the end. */
  predicate Earlier(c: Option<byte>, d: Option<byte>)
  {
    Rank(c) < Rank(d) || (Rank(c) == Rank(d) && c.Some? && d.Some? && c.value < d.value)
  }

  function First(s: seq<byte>): Option<byte>
  {
    if s == [] then None else Some(s[0])
  }

  function Others(s: seq<byte>): seq<byte>
  {
    if s == [] then [] else s[1..]
  }

  /** Two stretches without digits. */
  function StretchOrder(a: seq<byte>, b: seq<byte>): (r: int)
    ensures -1 <= r <= 1
    decreases |a| + |b|
  {
    if a == [] && b == [] then 0
    else if Earlier(First(a), First(b)) then -1
    else if Earlier(First(b), First(a)) then 1
    else StretchOrder(Others(a), Others(b))
  }

  /** Where the stretch without digits that s starts with ends. */
  function StretchEnd(s: seq<byte>): (n: nat)
    ensures n <= |s|
  {
    if s == [] || Numeral(s[0]) then 0 else 1 + StretchEnd(s[1..])
  }

  /** Where the digits that s starts with end. */
  function NumeralsEnd(s: seq<byte>): (n: nat)
    ensures n <= |s| && forall i :: 0 <= i < n ==> Numeral(s[i])
  {
    if s == [] || !Numeral(s[0]) then 0 else 1 + NumeralsEnd(s[1..])
  }

  function Figure(c: byte): nat
    requires Numeral(c)
  {
    c - '0' as int
  }

  /** The number that digits stand for; none stand for zero. */
  function NumberOf(ds: seq<byte>): nat
    requires forall i :: 0 <= i < |ds| ==> Numeral(ds[i])
  {
    if ds == [] then 0 else 10 * NumberOf(ds[..|ds| - 1]) + Figure(ds[|ds| - 1])
  }

  function PartOrder(a: seq<byte>, b: seq<byte>): (r: int)
    ensures -1 <= r <= 1
    decreases |a| + |b|
  {
    if a == [] && b == [] then 0
    else
      var i, j := StretchEnd(a), StretchEnd(b);
      if StretchOrder(a[..i], b[..j]) != 0 then StretchOrder(a[..i], b[..j])
      else
        var x, y := a[i..], b[j..];
        var n, k := NumberOf(x[..NumeralsEnd(x)]), NumberOf(y[..NumeralsEnd(y)]);
        if n < k then -1 else if n > k then 1 else PartOrder(x[NumeralsEnd(x)..], y[NumeralsEnd(y)..])
  }

  /** What is left of s behind its first stretch and its first digits, and the number in between. */
  function Remainder(s: seq<byte>): (r: (nat, seq<byte>))
  {
    var x := s[StretchEnd(s)..];
    (NumberOf(x[..NumeralsEnd(x)]), x[NumeralsEnd(x)..])
  }

  lemma {:induction false} PartStep(a: seq<byte>, b: seq<byte>)
    requires a != [] || b != []
    ensures var o := StretchOrder(a[..StretchEnd(a)], b[..StretchEnd(b)]);
            PartOrder(a, b) == if o != 0 then o
                               else if Remainder(a).0 < Remainder(b).0 then -1
                               else if Remainder(a).0 > Remainder(b).0 then 1
                               else PartOrder(Remainder(a).1, Remainder(b).1)
  {
    hide StretchOrder, NumberOf;
  }
}
