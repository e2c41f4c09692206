/** The values of expr: numbers and strings, how one becomes the other, and what the operators do to them. */
module ExprValues {
  import opened Options

  datatype Datum = Integer(i: int) | Text(s: string)

  datatype Error = TooFew | Syntax | NonNumeric | DivisionByZero | Overflow | BadPattern

  datatype Outcome<T> = Ok(value: T) | Fail(error: Error)

  // ---------- decimal text ----------

  const MIN := -0x8000000000000000
  const MAX := 0x7fffffffffffffff

  predicate InRange(i: int)
  {
    MIN <= i <= MAX
  }

  predicate IsDigit(c: char)
  {
    '0' <= c <= '9'
  }

  predicate IsSpace(c: char)
  {
    c == ' ' || '\t' <= c <= '\r'
  }

  predicate AllDigits(s: string)
  {
    forall i :: 0 <= i < |s| ==> IsDigit(s[i])
  }

  function DigitChar(d: nat): char
    requires d < 10
  {
    '0' + d as char
  }

  function DigitsValue(s: string): nat
    requires AllDigits(s)
  {
    if s == [] then 0 else 10 * DigitsValue(s[..|s| - 1]) + (s[|s| - 1] as int - '0' as int)
  }

  function Digits(n: nat): (s: string)
    ensures s != [] && AllDigits(s)
  {
    if n < 10 then [DigitChar(n)] else Digits(n / 10) + [DigitChar(n % 10)]
  }

  /** What printf writes for a number. */
  function Decimal(i: int): string
  {
    if i < 0 then "-" + Digits(-i) else Digits(i)
  }

  function Clamp(i: int): int
  {
    if i < MIN then MIN else if i > MAX then MAX else i
  }

  function SkipSpaces(s: string): string
  {
    if s == [] || !IsSpace(s[0]) then s else SkipSpaces(s[1..])
  }

  function UnsignedNumber(s: string): Option<nat>
  {
    if s != [] && AllDigits(s) then Some(DigitsValue(s)) else None
  }

  /** The number that s spells, of any size: spaces, a sign, digits to the end. None when s is no number. */
  function ExactValue(s: string): Option<int>
  {
    var t := SkipSpaces(s);
    var negative := t != [] && t[0] == '-';
    var u := if t != [] && (t[0] == '-' || t[0] == '+') then t[1..] else t;
    match UnsignedNumber(u)
    case None => None
    case Some(n) => Some(if negative then -(n as int) else n as int)
  }

  /** strtoll in base 10, of all of s: its number, saturating. */
  function Number(s: string): Option<int>
  {
    match ExactValue(s)
    case None => None
    case Some(i) => Some(Clamp(i))
  }

  lemma {:induction false} DigitsBack(n: nat)
    ensures DigitsValue(Digits(n)) == n
  {
    var s := Digits(n);
    assert (s[|s| - 1] as int - '0' as int) == n % 10;
    if n < 10 {
      assert s[..|s| - 1] == [];
    } else {
      DigitsBack(n / 10);
      assert s[..|s| - 1] == Digits(n / 10);
    }
  }

  /** A printed number is read back. */
  lemma {:induction false} NumberRoundTrip(i: int)
    ensures ExactValue(Decimal(i)) == Some(i)
    ensures InRange(i) ==> Number(Decimal(i)) == Some(i)
  {
    var n: nat := if i < 0 then -i else i;
    DigitsBack(n);
    var s := Decimal(i);
    assert IsDigit(Digits(n)[0]);
    if i < 0 {
      assert s[1..] == Digits(n);
    }
  }

  // ---------- coercions ----------

  /** What tostring leaves. */
  function AsText(v: Datum): string
  {
    match v
    case Integer(i) => Decimal(i)
    case Text(s) => s
  }

  /** What toarith leaves when it succeeds. */
  function AsNumber(v: Datum): Option<int>
  {
    match v
    case Integer(i) => Some(i)
    case Text(s) => Number(s)
  }

  /** Where a number can be read it becomes one, else nothing changes. */
  function Coerced(v: Datum): Datum
  {
    match AsNumber(v)
    case None => v
    case Some(i) => Integer(i)
  }

  predicate Null(v: Datum)
  {
    match v
    case Integer(i) => i == 0
    case Text(s) => s == [] || s == "0"
  }

  // ---------- comparison ----------

  /** The sign of strcmp. */
  function Strcmp(a: string, b: string): (r: int)
    ensures -1 <= r <= 1
  {
    if a == [] && b == [] then 0
    else if a == [] then -1
    else if b == [] then 1
    else if a[0] < b[0] then -1
    else if a[0] > b[0] then 1
    else Strcmp(a[1..], b[1..])
  }

  datatype Op = Or | And | Less | LessEqual | Equal | EqualEqual | NotEqual | MoreEqual | More
    | Plus | Minus | Times | Divide | Remainder | Colon

  predicate IsComparison(op: Op)
  {
    op.Less? || op.LessEqual? || op.Equal? || op.EqualEqual? || op.NotEqual? || op.MoreEqual? || op.More?
  }

  predicate IsArithmetic(op: Op)
  {
    op.Plus? || op.Minus? || op.Times? || op.Divide? || op.Remainder?
  }

  predicate Relates(op: Op, a: int, b: int)
  {
    match op
    case Less => a < b
    case LessEqual => a <= b
    case Equal => a == b
    case EqualEqual => a == b
    case NotEqual => a != b
    case More => a > b
    case _ => a >= b
  }

  /** Both sides are coerced on their own; unless both are numbers, they are compared as text again. */
  predicate Compares(op: Op, l: Datum, r: Datum)
  {
    var a, b := Coerced(l), Coerced(r);
    if a.Integer? && b.Integer? then Relates(op, a.i, b.i) else Relates(op, Strcmp(AsText(a), AsText(b)), 0)
  }

  // ---------- arithmetic ----------

  function Abs(i: int): nat
  {
    if i < 0 then -i else i
  }

  /** C's division, towards zero. */
  function Quotient(a: int, b: int): int
    requires b != 0
  {
    var q := Abs(a) / Abs(b);
    if (a < 0) != (b < 0) then -q else q
  }

  function Rest(a: int, b: int): int
    requires b != 0
  {
    var r := Abs(a) % Abs(b);
    if a < 0 then -r else r
  }

  /** Quotient and rest belong together, and the rest has the sign of what is divided. */
  lemma {:induction false} DivisionLaw(a: int, b: int)
    requires b != 0
    ensures a == Quotient(a, b) * b + Rest(a, b) && Abs(Rest(a, b)) < Abs(b)
    ensures Rest(a, b) != 0 ==> (Rest(a, b) < 0 <==> a < 0)
  {
    var q, r := Abs(a) / Abs(b), Abs(a) % Abs(b);
    assert Abs(a) == q * Abs(b) + r;
    assert (-q) * b == -(q * b) && q * (-b) == -(q * b);
  }

  function Checked(i: int): Outcome<Datum>
  {
    if InRange(i) then Ok(Integer(i)) else Fail(Overflow)
  }

  /** arithmetic_common. A result that 64 bits do not hold, which the code leaves undefined, is an outcome of its own.
      */
  function Arithmetic(op: Op, l: Datum, r: Datum): Outcome<Datum>
  {
    if AsNumber(l).None? || AsNumber(r).None? then Fail(NonNumeric)
    else
      var a, b := AsNumber(l).value, AsNumber(r).value;
      match op
      case Plus => Checked(a + b)
      case Minus => Checked(a - b)
      case Times => Checked(a * b)
      case _ =>
        if b == 0 then Fail(DivisionByZero)
        else if !InRange(Quotient(a, b)) then Fail(Overflow)
        else Ok(Integer(if op.Divide? then Quotient(a, b) else Rest(a, b)))
  }

  // ---------- what the documentation says of comparisons ----------

  /** Arithmetic if both are numbers, of any size, else lexicographical. */
  predicate DocumentedCompares(op: Op, l: string, r: string)
  {
    if ExactValue(l).Some? && ExactValue(r).Some? then Relates(op, ExactValue(l).value, ExactValue(r).value)
    else Relates(op, Strcmp(l, r), 0)
  }

  /** Text that is no number, or a number just as it would be printed. */
  predicate Plain(s: string)
  {
    Number(s).Some? ==> Decimal(Number(s).value) == s
  }

  ghost predicate Agrees(l: string, r: string)
  {
    forall op: Op :: IsComparison(op) ==> (Compares(op, Text(l), Text(r)) <==> DocumentedCompares(op, l, r))
  }

  /** t sorts strictly between a and b. */
  predicate LiesBetween(a: string, b: string, t: string)
  {
    (Strcmp(a, t) < 0 && Strcmp(t, b) < 0) || (Strcmp(b, t) < 0 && Strcmp(t, a) < 0)
  }

  /** One operand is a number, the other is not and sorts between the number's spelling and the way it would be printed.
      */
  predicate Straddled(l: string, r: string)
  {
    match (Number(l), Number(r))
    case (Some(i), None) => LiesBetween(l, Decimal(i), r)
    case (None, Some(j)) => LiesBetween(r, Decimal(j), l)
    case _ => false
  }

  /** Two different numbers that saturate to the same one. */
  predicate Merged(l: string, r: string)
  {
    match (ExactValue(l), ExactValue(r))
    case (Some(i), Some(j)) => i != j && Clamp(i) == Clamp(j)
    case _ => false
  }

  /** Comparisons do what is documented for exactly the operands that are neither straddled nor merged. */
  lemma {:induction false} DocumentedExactly(l: string, r: string)
    ensures Agrees(l, r) <==> !Straddled(l, r) && !Merged(l, r)
  {
    hide ExactValue, Decimal, Strcmp;
    match (ExactValue(l), ExactValue(r))
    case (Some(i), None) =>
      SignsAgree(l, Clamp(i), r);
      assert Compares(Less, Text(l), Text(r)) == (Strcmp(Decimal(Clamp(i)), r) < 0);
      assert DocumentedCompares(Less, l, r) == (Strcmp(l, r) < 0);
    case (None, Some(j)) =>
      SignsAgree(r, Clamp(j), l);
      StrcmpSwap(l, r);
      StrcmpSwap(l, Decimal(Clamp(j)));
      assert Compares(Less, Text(l), Text(r)) == (Strcmp(l, Decimal(Clamp(j))) < 0);
      assert DocumentedCompares(Less, l, r) == (Strcmp(l, r) < 0);
    case (Some(i), Some(j)) =>
      assert Compares(Equal, Text(l), Text(r)) == (Clamp(i) == Clamp(j));
      assert DocumentedCompares(Equal, l, r) == (i == j);
    case (None, None) =>
  }

  /** Text is never equal to a number's spelling, nor to the way it is printed. */
  lemma {:induction false} SignsAgree(n: string, i: int, t: string)
    requires Number(n) == Some(i) && Number(t).None?
    ensures Strcmp(n, t) != 0 && Strcmp(Decimal(i), t) != 0
    ensures Strcmp(n, t) == -Strcmp(t, n) && Strcmp(Decimal(i), t) == -Strcmp(t, Decimal(i))
  {
    hide Decimal, Strcmp;
    assert InRange(i);
    hide Number;
    NumberRoundTrip(i);
    StrcmpZero(n, t);
    StrcmpZero(Decimal(i), t);
    StrcmpSwap(n, t);
    StrcmpSwap(Decimal(i), t);
  }

  /** Between plain operands comparisons do what is documented. */
  lemma {:induction false} PlainAgree(l: string, r: string)
    requires Plain(l) && Plain(r)
    ensures Agrees(l, r)
  {
    hide ExactValue, Decimal, Strcmp, Agrees;
    DocumentedExactly(l, r);
    StrcmpSwap(l, r);
    if ExactValue(l).Some? && ExactValue(r).Some? {
      PlainFits(l);
      PlainFits(r);
    }
  }

  lemma {:induction false} PlainFits(s: string)
    requires Plain(s) && ExactValue(s).Some?
    ensures InRange(ExactValue(s).value)
  {
    hide ExactValue, Decimal;
    NumberRoundTrip(Number(s).value);
  }

  /** On the left of any text that is no number, comparing does what is documented exactly for plain operands. */
  lemma {:induction false} DocumentedWhenPlain(l: string)
    ensures (forall r: string :: Number(r).None? ==> Agrees(l, r)) <==> Plain(l)
  {
    hide Number, Decimal, Strcmp, Agrees;
    if Plain(l) {
      forall r: string | Number(r).None?
        ensures Agrees(l, r)
      {
        PlainAgree(l, r);
      }
    } else {
      var r := NotPlain(l);
      DocumentedExactly(l, r);
    }
  }

  /** And so on the right. */
  lemma {:induction false} DocumentedWhenPlainRight(r: string)
    ensures (forall l: string :: Number(l).None? ==> Agrees(l, r)) <==> Plain(r)
  {
    hide Number, Decimal, Strcmp, Agrees;
    if Plain(r) {
      forall l: string | Number(l).None?
        ensures Agrees(l, r)
      {
        PlainAgree(l, r);
      }
    } else {
      var l := NotPlain(r);
      DocumentedExactly(l, r);
    }
  }

  const PROBE := 1 as char

  /** Text between a number's spelling and the way it would be printed. */
  lemma {:induction false} NotPlain(l: string) returns (r: string)
    requires !Plain(l)
    ensures Number(r).None? && LiesBetween(l, Decimal(Number(l).value), r)
  {
    hide Number, Decimal, Strcmp;
    var d := Decimal(Number(l).value);
    StrcmpZero(l, d);
    StrcmpSwap(l, d);
    NotANumber(l);
    NotANumber(d);
    NumberHigh(l);
    DecimalHigh(Number(l).value);
    if Strcmp(l, d) < 0 {
      Between(l, d);
      r := l + [PROBE];
      StrcmpSwap(d, r);
    } else {
      Between(d, l);
      r := d + [PROBE];
      StrcmpSwap(l, r);
    }
  }

  predicate High(s: string)
  {
    forall i :: 0 <= i < |s| ==> PROBE < s[i]
  }

  lemma {:induction false} NumberHigh(s: string)
    requires Number(s).Some?
    ensures High(s)
  {
    hide Clamp, DigitsValue;
    SpacesHigh(s);
    var t := SkipSpaces(s);
    var u := if t != [] && (t[0] == '-' || t[0] == '+') then t[1..] else t;
    assert AllDigits(u);
    assert forall i :: 1 <= i < |t| ==> IsDigit(t[i]);
    assert High(t);
  }

  lemma {:induction false} SpacesHigh(s: string)
    ensures High(SkipSpaces(s)) ==> High(s)
  {
    if s != [] && IsSpace(s[0]) {
      SpacesHigh(s[1..]);
      assert High(s[1..]) ==> forall i :: 1 <= i < |s| ==> PROBE < s[i] by {
        assert forall i :: 1 <= i < |s| ==> s[i] == s[1..][i - 1];
      }
    }
  }

  lemma {:induction false} DecimalHigh(i: int)
    ensures High(Decimal(i))
  {
    hide Digits;
  }

  /** A character that no number contains, put behind text, makes it no number. */
  lemma {:induction false} NotANumber(s: string)
    ensures Number(s + [PROBE]).None?
  {
    SkipProbe(s);
    var t := SkipSpaces(s + [PROBE]);
    assert t[|t| - 1] == PROBE;
  }

  lemma {:induction false} SkipProbe(s: string)
    ensures var t := SkipSpaces(s + [PROBE]); t != [] && t[|t| - 1] == PROBE
  {
    if s != [] {
      assert (s + [PROBE])[1..] == s[1..] + [PROBE];
      SkipProbe(s[1..]);
    }
  }

  lemma {:induction false} StrcmpZero(a: string, b: string)
    ensures Strcmp(a, b) == 0 <==> a == b
  {
    if a != [] && b != [] && a[0] == b[0] {
      StrcmpZero(a[1..], b[1..]);
      assert a == [a[0]] + a[1..] && b == [b[0]] + b[1..];
    }
  }

  lemma {:induction false} StrcmpSwap(a: string, b: string)
    ensures Strcmp(a, b) == -Strcmp(b, a)
  {
    if a != [] && b != [] && a[0] == b[0] {
      StrcmpSwap(a[1..], b[1..]);
    }
  }

  /** PROBE is below every character b may have. */
  lemma {:induction false} Between(a: string, b: string)
    requires Strcmp(a, b) < 0 && High(b)
    ensures Strcmp(a, a + [PROBE]) < 0 && Strcmp(b, a + [PROBE]) > 0
  {
    if a != [] {
      assert (a + [PROBE])[1..] == a[1..] + [PROBE];
      if a[0] == b[0] {
        Between(a[1..], b[1..]);
      } else {
        StrcmpAppend(a);
      }
    }
  }

  lemma {:induction false} StrcmpAppend(a: string)
    ensures Strcmp(a, a + [PROBE]) < 0
  {
    if a != [] {
      assert (a + [PROBE])[1..] == a[1..] + [PROBE];
      StrcmpAppend(a[1..]);
    }
  }

  /** As documented, 01 is below 01x; the code compares 1 with 01x. */
  lemma {:induction false} LeadingZero()
    ensures DocumentedCompares(Less, "01", "01x") && !Compares(Less, Text("01"), Text("01x"))
  {
    var s, t := "01", "01x";
    assert !IsDigit(t[2]) && Number(t).None?;
    assert s[..1] == "0" && DigitsValue("0") == 0;
    assert Number(s) == Some(1) && Decimal(1) == "1";
    hide Number, Decimal;
    assert t[1..] == "1x" && s[1..] == "1";
  }

  /** The same on the other side: as documented, 01x is not below 01; the code compares 01x with 1. */
  lemma {:induction false} LeadingZeroRight()
    ensures !DocumentedCompares(Less, "01x", "01") && Compares(Less, Text("01x"), Text("01"))
  {
    var s, t := "01", "01x";
    assert !IsDigit(t[2]) && Number(t).None?;
    assert s[..1] == "0" && DigitsValue("0") == 0;
    assert Number(s) == Some(1) && Decimal(1) == "1";
    hide Number, Decimal;
    assert t[1..] == "1x" && s[1..] == "1";
    assert t[1..][1..] == "x" && s[1..][1..] == "";
  }

  /** Two different numbers that saturate alike are not equal as documented, but equal for the code. */
  lemma {:induction false} Saturates(n: int, k: int)
    requires n != k && Clamp(n) == Clamp(k)
    ensures !DocumentedCompares(Equal, Decimal(n), Decimal(k)) && Compares(Equal, Text(Decimal(n)), Text(Decimal(k)))
  {
    hide ExactValue, Decimal;
    NumberRoundTrip(n);
    NumberRoundTrip(k);
  }

  /** 9223372036854775808 is not 9223372036854775807; the code reads both as MAX. */
  lemma {:induction false} BeyondMax()
    ensures !DocumentedCompares(Equal, Decimal(MAX + 1), Decimal(MAX))
    ensures Compares(Equal, Text(Decimal(MAX + 1)), Text(Decimal(MAX)))
  {
    hide ExactValue, Decimal;
    Saturates(MAX + 1, MAX);
  }
}
