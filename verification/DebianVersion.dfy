/** Debian version ordering: version_compare and the key it compares by. */
module DebianVersion {
  import opened Bits
  import opened Options
  import opened DebianPolicy

  const MINUS: byte := 45
  const ZERO: byte := 48
  const COLON: byte := 58
  const TILDE: byte := 126

  predicate IsDigit(c: byte)
  {
    48 <= c <= 57
  }

  predicate IsAlpha(c: byte)
  {
    65 <= c <= 90 || 97 <= c <= 122
  }

  predicate IsSpace(c: byte)
  {
    c == 32 || 9 <= c <= 13
  }

  /** The character at i of a C string; zero at its end. */
  function At(s: seq<byte>, i: nat): byte
    requires i <= |s|
  {
    if i < |s| then s[i] else 0
  }

  /** order(). */
  function Order(c: byte): int
  {
    if c == TILDE then -1
    else if c == 0 || IsDigit(c) then 0
    else if IsAlpha(c) then c
    else c + 256
  }

  ghost predicate NoNul(s: seq<byte>)
  {
    forall i :: 0 <= i < |s| ==> s[i] != 0
  }

  // ---------- the key ----------

  /** How many digits s starts with. */
  function Digits(s: seq<byte>): (n: nat)
    ensures n <= |s| && (forall i :: 0 <= i < n ==> IsDigit(s[i])) && (n < |s| ==> !IsDigit(s[n]))
  {
    if s == [] || !IsDigit(s[0]) then 0 else 1 + Digits(s[1..])
  }

  function Digit(c: byte): nat
    requires IsDigit(c)
  {
    c - ZERO
  }

  function Number(ds: seq<byte>): nat
    requires forall i :: 0 <= i < |ds| ==> IsDigit(ds[i])
  {
    if ds == [] then 0 else 10 * Number(ds[..|ds| - 1]) + Digit(ds[|ds| - 1])
  }

  /** The non-digits by their order, and every digit run as a zero and its value. Beyond its end a key goes on with
      zeros, so that '~' sorts below the end of a part. */
  function Key(s: seq<byte>): seq<int>
  {
    if s == [] then []
    else if !IsDigit(s[0]) then [Order(s[0])] + Key(s[1..])
    else [0, Number(s[..Digits(s)])] + Key(s[Digits(s)..])
  }

  function Head(a: seq<int>): int
  {
    if a == [] then 0 else a[0]
  }

  function Tail(a: seq<int>): seq<int>
  {
    if a == [] then [] else a[1..]
  }

  /** Lexicographic comparison of zero-padded sequences. */
  function Lex(a: seq<int>, b: seq<int>): (r: int)
    ensures -1 <= r <= 1
    decreases |a| + |b|
  {
    if a == [] && b == [] then 0
    else if Head(a) < Head(b) then -1
    else if Head(a) > Head(b) then 1
    else Lex(Tail(a), Tail(b))
  }

  lemma {:induction false} LexAntisymmetric(a: seq<int>, b: seq<int>)
    ensures Lex(b, a) == -Lex(a, b)
    decreases |a| + |b|
  {
    if (a != [] || b != []) && Head(a) == Head(b) {
      LexAntisymmetric(Tail(a), Tail(b));
    }
  }

  lemma {:induction false} LexTransitive(a: seq<int>, b: seq<int>, c: seq<int>)
    requires Lex(a, b) <= 0 && Lex(b, c) <= 0
    ensures Lex(a, c) <= 0 && (Lex(a, b) < 0 || Lex(b, c) < 0 ==> Lex(a, c) < 0)
    decreases |a| + |b| + |c|
  {
    if a != [] || b != [] || c != [] {
      LexUnfold(a, b);
      LexUnfold(b, c);
      LexUnfold(a, c);
      if Head(a) == Head(b) == Head(c) {
        LexTransitive(Tail(a), Tail(b), Tail(c));
      }
    }
  }

  /** Comparing the heads is right for empty sequences too. */
  lemma LexUnfold(a: seq<int>, b: seq<int>)
    ensures Lex(a, b) == if Head(a) < Head(b) then -1 else if Head(a) > Head(b) then 1 else Lex(Tail(a), Tail(b))
  {
  }

  /** Without trailing zeros. */
  function Trim(a: seq<int>): seq<int>
  {
    if a == [] || a[|a| - 1] != 0 then a else Trim(a[..|a| - 1])
  }

  function ValueAt(a: seq<int>, i: nat): int
  {
    if i < |a| then a[i] else 0
  }

  lemma {:induction false} TrimValues(a: seq<int>, i: nat)
    ensures ValueAt(Trim(a), i) == ValueAt(a, i)
    decreases |a|
  {
    if a != [] && a[|a| - 1] == 0 {
      TrimValues(a[..|a| - 1], i);
    }
  }

  lemma {:induction false} TrimEnd(a: seq<int>)
    ensures Trim(a) == [] || Trim(a)[|Trim(a)| - 1] != 0
    decreases |a|
  {
    if a != [] && a[|a| - 1] == 0 {
      TrimEnd(a[..|a| - 1]);
    }
  }

  lemma {:induction false} LexZero(a: seq<int>, b: seq<int>, i: nat)
    requires Lex(a, b) == 0
    ensures ValueAt(a, i) == ValueAt(b, i)
    decreases i
  {
    LexUnfold(a, b);
    if i > 0 {
      LexZero(Tail(a), Tail(b), i - 1);
      assert ValueAt(Tail(a), i - 1) == ValueAt(a, i) && ValueAt(Tail(b), i - 1) == ValueAt(b, i);
    }
  }

  lemma {:induction false} LexSame(a: seq<int>, b: seq<int>)
    requires forall i: nat :: ValueAt(a, i) == ValueAt(b, i)
    ensures Lex(a, b) == 0
    decreases |a| + |b|
  {
    if a != [] || b != [] {
      assert Head(a) == ValueAt(a, 0) == ValueAt(b, 0) == Head(b);
      forall i: nat
        ensures ValueAt(Tail(a), i) == ValueAt(Tail(b), i)
      {
        assert ValueAt(Tail(a), i) == ValueAt(a, i + 1) == ValueAt(b, i + 1);
      }
      LexSame(Tail(a), Tail(b));
    }
  }

  /** Two keys are equivalent exactly when they are the same up to trailing zeros. */
  lemma LexIsEquality(a: seq<int>, b: seq<int>)
    ensures Lex(a, b) == 0 <==> Trim(a) == Trim(b)
  {
    forall i: nat
      ensures ValueAt(Trim(a), i) == ValueAt(a, i) && ValueAt(Trim(b), i) == ValueAt(b, i)
    {
      TrimValues(a, i);
      TrimValues(b, i);
    }
    if Trim(a) == Trim(b) {
      LexSame(a, b);
    }
    if Lex(a, b) == 0 {
      SameTrim(a, b);
    }
  }

  lemma SameTrim(a: seq<int>, b: seq<int>)
    requires Lex(a, b) == 0
    ensures Trim(a) == Trim(b)
  {
    var x, y := Trim(a), Trim(b);
    TrimEnd(a);
    TrimEnd(b);
    forall i: nat
      ensures ValueAt(x, i) == ValueAt(y, i)
    {
      TrimValues(a, i);
      TrimValues(b, i);
      LexZero(a, b, i);
    }
    NoLonger(x, y);
    NoLonger(y, x);
    assert forall i :: 0 <= i < |x| ==> ValueAt(x, i) == x[i] && ValueAt(y, i) == y[i];
  }

  lemma NoLonger(x: seq<int>, y: seq<int>)
    requires (x == [] || x[|x| - 1] != 0) && forall i: nat :: ValueAt(x, i) == ValueAt(y, i)
    ensures |x| <= |y|
  {
    var last: nat := if x == [] then 0 else |x| - 1;
    assert ValueAt(x, last) == ValueAt(y, last);
  }

  // ---------- comparing one part ----------

  function Sign(x: int): int
  {
    if x < 0 then -1 else if x > 0 then 1 else 0
  }

  /** Is there a character at i that is not a digit? */
  predicate OtherAt(s: seq<byte>, i: nat)
    requires i <= |s|
  {
    i < |s| && !IsDigit(s[i])
  }

  predicate DigitAt(s: seq<byte>, i: nat)
    requires i <= |s|
  {
    i < |s| && IsDigit(s[i])
  }

  /** The key at a position starts with the order of its character. */
  lemma KeyHead(s: seq<byte>, i: nat)
    requires i <= |s|
    ensures Head(Key(s[i..])) == Order(At(s, i))
    ensures OtherAt(s, i) ==> Tail(Key(s[i..])) == Key(s[i + 1..])
  {
    hide Order, Number;
    assert Order(0) == 0 by { OrderZero(); }
    if i < |s| {
      assert s[i..][0] == s[i] && s[i..][1..] == s[i + 1..];
      if IsDigit(s[i]) {
        assert Order(s[i]) == 0 by { OrderDigit(s[i]); }
      }
    }
  }

  lemma OrderZero()
    ensures Order(0) == 0
  {
  }

  lemma OrderDigit(c: byte)
    requires IsDigit(c)
    ensures Order(c) == 0
  {
  }

  /** Only the end of a string and digits have order zero, and no two other characters share an order. */
  lemma OrderInjective(s: seq<byte>, i: nat, t: seq<byte>, j: nat)
    requires NoNul(s) && NoNul(t) && i <= |s| && j <= |t| && Order(At(s, i)) == Order(At(t, j))
        && (OtherAt(s, i) || OtherAt(t, j))
    ensures OtherAt(s, i) && OtherAt(t, j) && s[i] == t[j]
  {
  }

  /** Two equal characters that are not digits do not decide. */
  lemma OtherStep(s: seq<byte>, i: nat, t: seq<byte>, j: nat)
    requires NoNul(s) && NoNul(t) && i <= |s| && j <= |t| && (OtherAt(s, i) || OtherAt(t, j))
    ensures Order(At(s, i)) != Order(At(t, j)) ==>
        Lex(Key(s[i..]), Key(t[j..])) == Sign(Order(At(s, i)) - Order(At(t, j)))
    ensures Order(At(s, i)) == Order(At(t, j)) ==>
              i < |s| && j < |t| && Lex(Key(s[i..]), Key(t[j..])) == Lex(Key(s[i + 1..]), Key(t[j + 1..]))
  {
    hide Key, Order, Lex;
    KeyHead(s, i);
    KeyHead(t, j);
    LexUnfold(Key(s[i..]), Key(t[j..]));
    if Order(At(s, i)) == Order(At(t, j)) {
      OrderInjective(s, i, t, j);
    }
  }

  predicate AllDigits(s: seq<byte>, i: nat, k: nat)
  {
    i <= k <= |s| && forall x :: i <= x < k ==> IsDigit(s[x])
  }

  /** The value of the digits from i up to k. */
  function Value(s: seq<byte>, i: nat, k: nat): nat
    requires AllDigits(s, i, k)
  {
    Number(s[i..k])
  }

  lemma ValueEmpty(s: seq<byte>, i: nat)
    requires i <= |s|
    ensures AllDigits(s, i, i) && Value(s, i, i) == 0
  {
  }

  lemma ValueMore(s: seq<byte>, i: nat, k: nat)
    requires AllDigits(s, i, k) && DigitAt(s, k)
    ensures AllDigits(s, i, k + 1) && Value(s, i, k + 1) == 10 * Value(s, i, k) + Digit(s[k])
  {
    assert s[i..k + 1][..k - i] == s[i..k];
  }

  lemma {:induction false} ValueGrows(s: seq<byte>, i: nat, k: nat, m: nat)
    requires AllDigits(s, i, m) && i <= k <= m
    ensures AllDigits(s, i, k) && Value(s, i, k) <= Value(s, i, m)
    decreases m
  {
    if k < m {
      ValueGrows(s, i, k, m - 1);
      ValueMore(s, i, m - 1);
    }
  }

  /** Where the digit run at i ends. */
  function RunEnd(s: seq<byte>, i: nat): (e: nat)
    requires i <= |s|
    ensures AllDigits(s, i, e) && !DigitAt(s, e)
  {
    i + Digits(s[i..])
  }

  lemma RunEndIs(s: seq<byte>, i: nat, k: nat)
    requires AllDigits(s, i, k)
    ensures k <= RunEnd(s, i) && (!DigitAt(s, k) ==> k == RunEnd(s, i))
  {
  }

  /** Without other characters ahead, the values of the digit runs decide, and then what follows them. */
  lemma RunStep(s: seq<byte>, i: nat, t: seq<byte>, j: nat)
    requires i <= |s| && j <= |t| && !OtherAt(s, i) && !OtherAt(t, j)
    ensures var a, b := Value(s, i, RunEnd(s, i)), Value(t, j, RunEnd(t, j));
            Lex(Key(s[i..]), Key(t[j..])) == if a < b then -1 else if a > b then 1
                                             else Lex(Key(s[RunEnd(s, i)..]), Key(t[RunEnd(t, j)..]))
  {
    hide Key, Lex, Number;
    KeyRun(s, i);
    KeyRun(t, j);
    LexUnfold(Key(s[i..]), Key(t[j..]));
    LexUnfold(Tail(Key(s[i..])), Tail(Key(t[j..])));
  }

  lemma KeyRun(s: seq<byte>, i: nat)
    requires i <= |s| && !OtherAt(s, i)
    ensures Head(Key(s[i..])) == 0 && Head(Tail(Key(s[i..]))) == Value(s, i, RunEnd(s, i))
    ensures Tail(Tail(Key(s[i..]))) == Key(s[RunEnd(s, i)..])
  {
    if i < |s| {
      KeyDigits(s[i..]);
      hide Number, Key;
      var u, d := s[i..], Digits(s[i..]);
      assert u[..d] == s[i..i + d] && u[d..] == s[i + d..];
      var k := [0, Number(u[..d])] + Key(u[d..]);
      assert k[1..][1..] == Key(u[d..]);
    } else {
      ValueEmpty(s, i);
      assert s[i..] == [];
    }
  }

  lemma KeyDigits(u: seq<byte>)
    requires u != [] && IsDigit(u[0])
    ensures Key(u) == [0, Number(u[..Digits(u)])] + Key(u[Digits(u)..])
  {
  }

  /** Digits of both runs read in step, leading zeros skipped: the difference so far, and that neither value is ten
      times the other. */
  ghost predicate InStep(s: seq<byte>, i: nat, v: nat, t: seq<byte>, j: nat, r: nat, firstDiff: int)
  {
    && AllDigits(s, i, v) && AllDigits(t, j, r)
    && var a, b := Value(s, i, v), Value(t, j, r);
       && Sign(firstDiff) == Sign(a - b)
       && if a == 0 || b == 0 then a == b == 0 && At(s, v) != ZERO && At(t, r) != ZERO
          else a < 10 * b && b < 10 * a
  }

  lemma InStepMore(s: seq<byte>, i: nat, v: nat, t: seq<byte>, j: nat, r: nat, firstDiff: int, diff: int)
    requires InStep(s, i, v, t, j, r, firstDiff) && DigitAt(s, v) && DigitAt(t, r)
    requires diff == if firstDiff == 0 then s[v] as int - t[r] as int else firstDiff
    ensures InStep(s, i, v + 1, t, j, r + 1, diff)
  {
    hide Value, AllDigits;
    ValueMore(s, i, v);
    ValueMore(t, j, r);
  }

  /** When one run is longer, its value is greater; otherwise the difference decides. */
  lemma InStepEnd(s: seq<byte>, i: nat, v: nat, t: seq<byte>, j: nat, r: nat, firstDiff: int)
    requires InStep(s, i, v, t, j, r, firstDiff) && !(DigitAt(s, v) && DigitAt(t, r))
    ensures var a, b := Value(s, i, RunEnd(s, i)), Value(t, j, RunEnd(t, j));
            && (DigitAt(s, v) ==> a > b) && (DigitAt(t, r) ==> a < b)
            && (!DigitAt(s, v) && !DigitAt(t, r) ==> Sign(a - b) == Sign(firstDiff))
    ensures !DigitAt(s, v) ==> v == RunEnd(s, i)
    ensures !DigitAt(t, r) ==> r == RunEnd(t, j)
  {
    assert v <= |s| && r <= |t|;
    hide Value, AllDigits;
    RunEndIs(s, i, v);
    RunEndIs(t, j, r);
    if DigitAt(s, v) {
      ValueMore(s, i, v);
      RunEndIs(s, i, v + 1);
      ValueGrows(s, i, v + 1, RunEnd(s, i));
    } else if DigitAt(t, r) {
      ValueMore(t, j, r);
      RunEndIs(t, j, r + 1);
      ValueGrows(t, j, r + 1, RunEnd(t, j));
    }
  }

  /** Skips leading zeros. */
  method SkipZeros(s: seq<byte>, i: nat) returns (v: nat)
    requires i <= |s|
    ensures AllDigits(s, i, v) && Value(s, i, v) == 0 && At(s, v) != ZERO
  {
    v := i;
    ValueEmpty(s, i);
    while At(s, v) == ZERO
      invariant AllDigits(s, i, v) && Value(s, i, v) == 0
      decreases |s| - v
    {
      ValueMore(s, i, v);
      v := v + 1;
    }
  }

  /** The digit runs at i and j: a decision, or the positions behind them. */
  method CompareRuns(s: seq<byte>, i: nat, t: seq<byte>, j: nat) returns (result: int, v: nat, r: nat)
    requires i <= |s| && j <= |t| && !OtherAt(s, i) && !OtherAt(t, j)
    ensures i <= v <= |s| && j <= r <= |t| && (result == 0 ==> (DigitAt(s, i) ==> v > i) && (DigitAt(t, j) ==> r > j))
    ensures if result != 0 then Lex(Key(s[i..]), Key(t[j..])) == Sign(result)
            else Lex(Key(s[i..]), Key(t[j..])) == Lex(Key(s[v..]), Key(t[r..]))
  {
    hide Key, Lex, Number;
    RunStep(s, i, t, j);
    v := SkipZeros(s, i);
    r := SkipZeros(t, j);
    var firstDiff := 0;
    while v < |s| && IsDigit(s[v]) && r < |t| && IsDigit(t[r])
      invariant InStep(s, i, v, t, j, r, firstDiff)
      decreases |s| - v
    {
      ghost var was := firstDiff;
      if firstDiff == 0 {
        firstDiff := s[v] as int - t[r] as int;
      }
      InStepMore(s, i, v, t, j, r, was, firstDiff);
      v, r := v + 1, r + 1;
    }
    InStepEnd(s, i, v, t, j, r, firstDiff);
    if v < |s| && IsDigit(s[v]) {
      RunEndIs(t, j, r);
      result := 1;
    } else if r < |t| && IsDigit(t[r]) {
      result := -1;
    } else {
      result := firstDiff;
    }
  }

  /** The characters ahead that are no digits, in step: the difference of the first two that differ. */
  method CompareOthers(s: seq<byte>, i: nat, t: seq<byte>, j: nat) returns (result: int, v: nat, r: nat)
    requires NoNul(s) && NoNul(t) && i <= |s| && j <= |t|
    ensures i <= v <= |s| && j <= r <= |t|
    ensures result != 0 ==> Sign(result) == Lex(Key(s[i..]), Key(t[j..]))
    ensures result == 0 ==>
              !OtherAt(s, v) && !OtherAt(t, r) && Lex(Key(s[i..]), Key(t[j..])) == Lex(Key(s[v..]), Key(t[r..]))
  {
    hide Key, Lex, Order, NoNul;
    v, r := i, j;
    while OtherAt(s, v) || OtherAt(t, r)
      invariant i <= v <= |s| && j <= r <= |t| && Lex(Key(s[i..]), Key(t[j..])) == Lex(Key(s[v..]), Key(t[r..]))
      decreases |s| - v
    {
      OtherStep(s, v, t, r);
      var vc, rc := Order(At(s, v)), Order(At(t, r));
      if vc != rc {
        return vc - rc, v, r;
      }
      v, r := v + 1, r + 1;
    }
    result := 0;
  }

  /** version_compare_part. */
  method ComparePart(val: seq<byte>, ref: seq<byte>) returns (result: int)
    requires NoNul(val) && NoNul(ref)
    ensures Sign(result) == Lex(Key(val), Key(ref)) == PartOrder(val, ref)
  {
    assert val[0..] == val && ref[0..] == ref;
    KeyIsPolicy(val, ref);
    hide Key, Lex, Order, PartOrder, NoNul;
    var v, r := 0, 0;
    while v < |val| || r < |ref|
      invariant v <= |val| && r <= |ref| && Lex(Key(val), Key(ref)) == Lex(Key(val[v..]), Key(ref[r..]))
      decreases |val| + |ref| - v - r
    {
      result, v, r := CompareOthers(val, v, ref, r);
      if result != 0 {
        return;
      }
      result, v, r := CompareRuns(val, v, ref, r);
      if result != 0 {
        return;
      }
    }
    assert val[v..] == [] && ref[r..] == [];
    result := 0;
    assert Lex(Key([]), Key([])) == 0 by { EmptyKeys(); }
  }

  lemma EmptyKeys()
    ensures Lex(Key([]), Key([])) == 0
  {
  }

  // ---------- whole versions ----------

  /** The first position of c at or after i, or the end. */
  function Find(s: seq<byte>, c: byte, i: nat): (k: nat)
    requires i <= |s|
    ensures i <= k <= |s| && (k < |s| ==> s[k] == c) && forall x :: i <= x < k ==> s[x] != c
    decreases |s| - i
  {
    if i == |s| || s[i] == c then i else Find(s, c, i + 1)
  }

  /** One behind the last position of c, or zero. */
  function FindLast(s: seq<byte>, c: byte): (k: nat)
    ensures k <= |s| && (k > 0 ==> s[k - 1] == c) && forall x :: k <= x < |s| ==> s[x] != c
  {
    if s == [] || s[|s| - 1] == c then |s| else FindLast(s[..|s| - 1], c)
  }

  function SkipSpace(s: seq<byte>): seq<byte>
  {
    if s == [] || !IsSpace(s[0]) then s else SkipSpace(s[1..])
  }

  /** atoi. */
  function Atoi(s: seq<byte>): int
  {
    var t := SkipSpace(s);
    if t != [] && t[0] == MINUS then 0 - Number(t[1..][..Digits(t[1..])]) as int
    else if t != [] && t[0] == 43 then Number(t[1..][..Digits(t[1..])])
    else Number(t[..Digits(t)])
  }

  /** A version: its epoch as an unsigned int, the upstream version, and the Debian revision, empty when absent. */
  datatype Version = Version(epoch: nat, upstream: seq<byte>, revision: seq<byte>)

  function Split(s: seq<byte>): Version
  {
    var colon := Find(s, COLON, 0);
    var epoch := if colon < |s| then Atoi(s) % 0x1_0000_0000 else 0;
    var rest := if colon < |s| then s[colon + 1..] else s;
    var dash := FindLast(rest, MINUS);
    if dash == 0 then Version(epoch, rest, []) else Version(epoch, rest[..dash - 1], rest[dash..])
  }

  /** The order of two versions: by epoch, upstream version and revision. */
  function VersionOrder(a: Version, b: Version): (r: int)
    ensures -1 <= r <= 1
  {
    if a.epoch != b.epoch then Sign(a.epoch - b.epoch)
    else if Lex(Key(a.upstream), Key(b.upstream)) != 0 then Lex(Key(a.upstream), Key(b.upstream))
    else Lex(Key(a.revision), Key(b.revision))
  }

  lemma {:induction false} SplitNoNul(s: seq<byte>)
    requires NoNul(s)
    ensures NoNul(Split(s).upstream) && NoNul(Split(s).revision)
  {
  }

  /** version_compare. */
  method CompareVersions(ver1: seq<byte>, ver2: seq<byte>) returns (result: int)
    requires NoNul(ver1) && NoNul(ver2)
    ensures Sign(result) == VersionOrder(Split(ver1), Split(ver2))
    ensures var v1, v2 := Split(ver1), Split(ver2);
            Sign(result) == if v1.epoch < v2.epoch then -1 else if v1.epoch > v2.epoch then 1
                            else if PartOrder(v1.upstream, v2.upstream) != 0 then PartOrder(v1.upstream, v2.upstream)
                            else PartOrder(v1.revision, v2.revision)
  {
    var v1, v2 := Split(ver1), Split(ver2);
    SplitNoNul(ver1);
    SplitNoNul(ver2);
    VersionsByPolicy(v1, v2);
    hide Key, Lex, Atoi, Split, NoNul, PartOrder;
    if v1.epoch < v2.epoch {
      return -1;
    }
    if v1.epoch > v2.epoch {
      return 1;
    }
    result := ComparePart(v1.upstream, v2.upstream);
    if result == 0 {
      result := ComparePart(v1.revision, v2.revision);
    }
  }

  /** Version ordering is a total preorder. */
  lemma VersionsAntisymmetric(a: Version, b: Version)
    ensures VersionOrder(b, a) == -VersionOrder(a, b)
  {
    hide Key, Lex;
    LexAntisymmetric(Key(a.upstream), Key(b.upstream));
    LexAntisymmetric(Key(a.revision), Key(b.revision));
  }

  lemma VersionsTransitive(a: Version, b: Version, c: Version)
    requires VersionOrder(a, b) <= 0 && VersionOrder(b, c) <= 0
    ensures VersionOrder(a, c) <= 0 && (VersionOrder(a, b) < 0 || VersionOrder(b, c) < 0 ==> VersionOrder(a, c) < 0)
  {
    hide Key, Lex;
    if a.epoch == b.epoch == c.epoch {
      LexTransitive(Key(a.upstream), Key(b.upstream), Key(c.upstream));
      if Lex(Key(a.upstream), Key(b.upstream)) == 0 == Lex(Key(b.upstream), Key(c.upstream)) {
        LexAntisymmetric(Key(a.upstream), Key(c.upstream));
        LexAntisymmetric(Key(a.upstream), Key(b.upstream));
        LexAntisymmetric(Key(b.upstream), Key(c.upstream));
        LexTransitive(Key(c.upstream), Key(b.upstream), Key(a.upstream));
        LexTransitive(Key(a.revision), Key(b.revision), Key(c.revision));
      }
    }
  }

  /** Two versions are equivalent exactly when epoch, upstream key and revision key are. */
  lemma VersionsEquivalent(a: Version, b: Version)
    ensures VersionOrder(a, b) == 0 <==>
              a.epoch == b.epoch && Trim(Key(a.upstream)) == Trim(Key(b.upstream))
                  && Trim(Key(a.revision)) == Trim(Key(b.revision))
  {
    hide Key, Lex, Trim;
    LexIsEquality(Key(a.upstream), Key(b.upstream));
    LexIsEquality(Key(a.revision), Key(b.revision));
  }

  datatype Operator = VerNull | VerEqual | VerLess | VerLessEqual | VerMore | VerMoreEqual | VerAny

  /** Whether a version stands in the relation that a clause asks for. */
  ghost predicate Satisfies(order: int, op: Operator)
  {
    match op
    case VerAny => true
    case VerEqual => order == 0
    case VerLess => order < 0
    case VerLessEqual => order <= 0
    case VerMore => order > 0
    case VerMoreEqual => order >= 0
    case VerNull => false
  }

  /** test_version. */
  method TestVersion(version1: seq<byte>, version2: seq<byte>, op: Operator) returns (ok: bool)
    requires NoNul(version1) && NoNul(version2)
    ensures ok == Satisfies(VersionOrder(Split(version1), Split(version2)), op)
  {
    hide VersionOrder, Split;
    var result := CompareVersions(version1, version2);
    match op
    case VerAny => ok := true;
    case VerEqual => ok := result == 0;
    case VerLess => ok := result < 0;
    case VerLessEqual => ok := result <= 0;
    case VerMore => ok := result > 0;
    case VerMoreEqual => ok := result >= 0;
    case VerNull => ok := false;
  }

  // ---------- splitting undoes writing ----------

  /** A version as it is written: epoch and revision are optional. */
  function Render(epoch: Option<seq<byte>>, upstream: seq<byte>, revision: Option<seq<byte>>): seq<byte>
  {
    (if epoch.Some? then epoch.value + [':' as int] else [])
        + (upstream + (if revision.Some? then ['-' as int] + revision.value else []))
  }

  lemma SplitRender(epoch: Option<seq<byte>>, upstream: seq<byte>, revision: Option<seq<byte>>)
    requires epoch.Some? ==> AllDigits(epoch.value, 0, |epoch.value|)
    requires epoch.None? ==> COLON !in Render(epoch, upstream, revision)
    requires if revision.Some? then MINUS !in revision.value else MINUS !in upstream
    ensures Split(Render(epoch, upstream, revision))
         == Version(if epoch.Some? then Number(epoch.value) % 0x1_0000_0000 else 0, upstream,
                    if revision.Some? then revision.value else [])
  {
    hide Number, Atoi, Find, FindLast;
    EpochFound(epoch, upstream + (if revision.Some? then [MINUS] + revision.value else []));
    RevisionFound(upstream, revision);
  }

  /** The first colon ends the epoch, and what follows it is left over. */
  lemma EpochFound(epoch: Option<seq<byte>>, rest: seq<byte>)
    requires epoch.Some? ==> AllDigits(epoch.value, 0, |epoch.value|)
    requires epoch.None? ==> COLON !in rest
    ensures var s := (if epoch.Some? then epoch.value + [COLON] else []) + rest;
            var colon := Find(s, COLON, 0);
            if epoch.Some? then colon < |s| && s[colon + 1..] == rest && Atoi(s) == Number(epoch.value)
            else colon == |s| && s == rest
  {
    hide Number, Atoi;
    var s := (if epoch.Some? then epoch.value + [COLON] else []) + rest;
    if epoch.Some? {
      var e := epoch.value;
      assert s[|e|] == COLON && forall i :: 0 <= i < |e| ==> s[i] == e[i];
      assert Find(s, COLON, 0) == |e|;
      assert s[|e| + 1..] == rest;
      EpochValue(e, rest);
    } else {
      assert s == rest;
    }
  }

  lemma RevisionFound(upstream: seq<byte>, revision: Option<seq<byte>>)
    requires if revision.Some? then MINUS !in revision.value else MINUS !in upstream
    ensures var rest := upstream + (if revision.Some? then [MINUS] + revision.value else []);
            var dash := FindLast(rest, MINUS);
            if revision.Some? then dash == |upstream| + 1 && rest[..dash - 1] == upstream
                && rest[dash..] == revision.value
            else dash == 0 && rest == upstream
  {
    var rest := upstream + (if revision.Some? then [MINUS] + revision.value else []);
    if revision.Some? {
      assert rest[|upstream|] == MINUS;
      assert forall i :: |upstream| < i < |rest| ==> rest[i] == revision.value[i - |upstream| - 1];
    } else {
      assert rest == upstream;
    }
  }

  lemma EpochValue(e: seq<byte>, rest: seq<byte>)
    requires AllDigits(e, 0, |e|)
    ensures Atoi(e + [COLON] + rest) == Number(e)
  {
    hide Number;
    var s := e + [COLON] + rest;
    assert s[0] == (if e == [] then COLON else e[0]);
    assert SkipSpace(s) == s;
    assert forall i :: 0 <= i < |e| ==> s[i] == e[i];
    assert s[|e|] == COLON;
    hide Digits, SkipSpace;
    assert Digits(s) == |e|;
    assert s[..|e|] == e;
  }

  // ---------- a tilde sorts before the end ----------

  lemma {:induction false} KeyConcat(s: seq<byte>, rest: seq<byte>)
    requires rest != [] && !IsDigit(rest[0])
    ensures Key(s + rest) == Key(s) + Key(rest)
    decreases |s|
  {
    hide Key, Digits, Order, Number, IsDigit;
    KeyStep(s);
    KeyStep(s + rest);
    if s == [] {
      assert s + rest == rest;
    } else if !IsDigit(s[0]) {
      assert (s + rest)[1..] == s[1..] + rest;
      KeyConcat(s[1..], rest);
    } else {
      var d := Digits(s);
      DigitsConcat(s, rest);
      assert (s + rest)[..d] == s[..d] && (s + rest)[d..] == s[d..] + rest;
      KeyConcat(s[d..], rest);
    }
  }

  lemma {:induction false} KeyStep(s: seq<byte>)
    ensures s == [] ==> Key(s) == []
    ensures s != [] && !IsDigit(s[0]) ==> Key(s) == [Order(s[0])] + Key(s[1..])
    ensures s != [] && IsDigit(s[0]) ==> Digits(s) > 0 && Key(s) == [0, Number(s[..Digits(s)])] + Key(s[Digits(s)..])
  {
  }

  lemma {:induction false} DigitsConcat(s: seq<byte>, rest: seq<byte>)
    requires rest != [] && !IsDigit(rest[0])
    ensures Digits(s + rest) == Digits(s)
  {
    if s == [] {
      assert s + rest == rest;
    } else {
      assert (s + rest)[1..] == s[1..] + rest;
      DigitsConcat(s[1..], rest);
    }
  }

  lemma {:induction false} LexBelow(a: seq<int>, b: seq<int>)
    ensures Lex(a + [-1] + b, a) == -1
  {
    LexUnfold(a + [-1] + b, a);
    if a != [] {
      assert Tail(a + [-1] + b) == Tail(a) + [-1] + b;
      LexBelow(Tail(a), b);
    }
  }

  /** Whatever follows it, a tilde makes a part sort before the part that ends there. */
  lemma TildeFirst(s: seq<byte>, t: seq<byte>)
    ensures Lex(Key(s + ([TILDE] + t)), Key(s)) == -1
  {
    hide Lex;
    var rest := [TILDE] + t;
    KeyConcat(s, rest);
    assert rest[1..] == t;
    assert Key(s) + Key(rest) == Key(s) + [-1] + Key(t);
    LexBelow(Key(s), Key(t));
  }

  // ---------- the key orders as the policy says ----------

  /** The first characters of two stretches without digits decide as the policy ranks them. */
  lemma RankIsOrder(s: seq<byte>, t: seq<byte>)
    requires NoNul(s) && NoNul(t) && (OtherAt(s, 0) || OtherAt(t, 0))
    ensures var c, d := First(s[..StretchEnd(s)]), First(t[..StretchEnd(t)]);
            && (Earlier(c, d) <==> Order(At(s, 0)) < Order(At(t, 0)))
            && (Earlier(d, c) <==> Order(At(t, 0)) < Order(At(s, 0)))
  {
    assert OtherAt(s, 0) ==> StretchEnd(s) > 0;
    assert OtherAt(t, 0) ==> StretchEnd(t) > 0;
  }

  lemma StretchStep(s: seq<byte>)
    requires OtherAt(s, 0)
    ensures StretchEnd(s) == 1 + StretchEnd(s[1..])
    ensures Others(s[..StretchEnd(s)]) == s[1..][..StretchEnd(s[1..])]
    ensures s[StretchEnd(s)..] == s[1..][StretchEnd(s[1..])..]
  {
  }

  /** The stretches without digits decide, and then what follows them. */
  lemma {:induction false} StretchDecides(s: seq<byte>, t: seq<byte>)
    requires NoNul(s) && NoNul(t)
    ensures var i, j := StretchEnd(s), StretchEnd(t);
            Lex(Key(s), Key(t)) == if StretchOrder(s[..i], t[..j]) != 0 then StretchOrder(s[..i], t[..j])
                                   else Lex(Key(s[i..]), Key(t[j..]))
    decreases |s| + |t|
  {
    hide Key, Lex, Order, Earlier;
    assert s[0..] == s && t[0..] == t;
    if OtherAt(s, 0) || OtherAt(t, 0) {
      OtherStep(s, 0, t, 0);
      RankIsOrder(s, t);
      assert s[..StretchEnd(s)] != [] || t[..StretchEnd(t)] != [];
      if Order(At(s, 0)) == Order(At(t, 0)) {
        OrderInjective(s, 0, t, 0);
        StretchStep(s);
        StretchStep(t);
        StretchDecides(s[1..], t[1..]);
      }
    } else {
      assert StretchEnd(s) == 0 == StretchEnd(t);
      assert s[..0] == [] == t[..0];
    }
  }

  lemma {:induction false} SameNumber(ds: seq<byte>)
    requires forall i :: 0 <= i < |ds| ==> IsDigit(ds[i])
    ensures Number(ds) == NumberOf(ds)
  {
    if ds != [] {
      SameNumber(ds[..|ds| - 1]);
    }
  }

  lemma {:induction false} SameRun(s: seq<byte>)
    ensures Digits(s) == NumeralsEnd(s)
  {
    if s != [] && IsDigit(s[0]) {
      SameRun(s[1..]);
    }
  }

  lemma {:induction false} NoStretch(s: seq<byte>)
    ensures !OtherAt(s[StretchEnd(s)..], 0) && (s != [] ==> StretchEnd(s) > 0 || Digits(s) > 0)
  {
    if OtherAt(s, 0) {
      StretchStep(s);
      NoStretch(s[1..]);
    } else {
      assert s[0..] == s;
    }
  }

  /** The value of the first digits, and what follows them. */
  lemma {:induction false} RunIsRemainder(s: seq<byte>)
    ensures var x := s[StretchEnd(s)..];
            Remainder(s) == (Value(x, 0, RunEnd(x, 0)), x[RunEnd(x, 0)..])
    ensures s != [] ==> |Remainder(s).1| < |s|
    ensures !OtherAt(s[StretchEnd(s)..], 0)
  {
    hide Number, NumberOf, StretchEnd;
    NoStretch(s);
    var x := s[StretchEnd(s)..];
    assert x[0..] == x && s[0..] == s;
    SameRun(x);
    assert x[0..Digits(x)] == x[..Digits(x)];
    SameNumber(x[..Digits(x)]);
  }

  /** Two parts compare as the policy says. */
  lemma {:induction false} KeyIsPolicy(s: seq<byte>, t: seq<byte>)
    requires NoNul(s) && NoNul(t)
    ensures Lex(Key(s), Key(t)) == PartOrder(s, t)
    decreases |s| + |t|
  {
    if s == [] && t == [] {
      EmptyKeys();
      return;
    }
    hide Key, Lex, PartOrder, StretchOrder, StretchEnd, Remainder, Value, RunEnd;
    StretchDecides(s, t);
    RunIsRemainder(s);
    RunIsRemainder(t);
    PartStep(s, t);
    var x, y := s[StretchEnd(s)..], t[StretchEnd(t)..];
    assert x[0..] == x && y[0..] == y;
    RunStep(x, 0, y, 0);
    KeyIsPolicy(Remainder(s).1, Remainder(t).1);
  }

  lemma {:induction false} LexPrefix(k: seq<int>, a: seq<int>, b: seq<int>)
    ensures Lex(k + a, k + b) == Lex(a, b)
  {
    if k == [] {
      assert k + a == a && k + b == b;
    } else {
      assert Tail(k + a) == Tail(k) + a && Tail(k + b) == Tail(k) + b;
      LexPrefix(Tail(k), a, b);
    }
  }

  /** The first difference between two parts, in characters that are no digits: letters come before all other
      characters but the tilde, and two of a kind go by their value. */
  lemma FirstDifference(s: seq<byte>, c: byte, t: seq<byte>, d: byte, u: seq<byte>)
    requires c != 0 && d != 0 && !Numeral(c) && !Numeral(d)
    ensures var r := Lex(Key(s + ([c] + t)), Key(s + ([d] + u)));
            && (Letter(c) && !Letter(d) && d != '~' as int ==> r == -1)
            && (Letter(c) && Letter(d) && c < d ==> r == -1)
            && (!Letter(c) && !Letter(d) && c < d && c != '~' as int && d != '~' as int ==> r == -1)
            && (c == '~' as int && d != '~' as int ==> r == -1)
  {
    hide Lex;
    var x, y := [c] + t, [d] + u;
    KeyConcat(s, x);
    KeyConcat(s, y);
    LexPrefix(Key(s), Key(x), Key(y));
    LexUnfold(Key(x), Key(y));
  }

  /** The end of a part comes before every character that is no digit, except the tilde. */
  lemma EndFirst(s: seq<byte>, d: byte, u: seq<byte>)
    requires d != 0 && !Numeral(d) && d != '~' as int
    ensures Lex(Key(s), Key(s + ([d] + u))) == -1
  {
    hide Lex;
    var y := [d] + u;
    KeyConcat(s, y);
    LexPrefix(Key(s), [], Key(y));
    assert Key(s) + [] == Key(s);
    LexUnfold([], Key(y));
  }

  /** Versions compare by epoch, then upstream version, then revision, each as the policy says. */
  lemma VersionsByPolicy(a: Version, b: Version)
    requires NoNul(a.upstream) && NoNul(b.upstream) && NoNul(a.revision) && NoNul(b.revision)
    ensures VersionOrder(a, b) ==
              if a.epoch < b.epoch then -1 else if a.epoch > b.epoch then 1
              else if PartOrder(a.upstream, b.upstream) != 0 then PartOrder(a.upstream, b.upstream)
              else PartOrder(a.revision, b.revision)
  {
    hide Key, Lex, PartOrder;
    KeyIsPolicy(a.upstream, b.upstream);
    KeyIsPolicy(a.revision, b.revision);
  }
}
