/** What the operators and keywords of expr give, on argument lists as they are typed. */
module ExprMeanings {
  import opened Options
  import opened ExprValues
  import opened ExprTrees
  import opened ExprPrecedence

  /** An operand that needs no quote. */
  predicate Plainly(s: string)
  {
    s !in ["(", ")", "quote", "length", "match", "index", "substr"]
  }

  lemma {:induction false} NumberPlainly(i: int)
    ensures Plainly(Decimal(i))
  {
    var s := Decimal(i);
    assert IsDigit(s[|s| - 1]) by {
      var d := Digits(if i < 0 then -i else i);
      assert IsDigit(d[|d| - 1]);
      assert s[|s| - 1] == d[|d| - 1];
    }
    assert !IsDigit('(') && !IsDigit(')') && !IsDigit('e') && !IsDigit('h') && !IsDigit('x') && !IsDigit('r');
    assert "quote"[4] == 'e' && "length"[5] == 'h' && "match"[4] == 'h' && "index"[4] == 'x' && "substr"[5] == 'r';
  }

  lemma {:induction false} BinaryRun(m: Matcher, k: nat, o: string, s: string, t: string)
    requires k < |LEVELS| && o in LEVELS[k] && Plainly(s) && Plainly(t)
    ensures OpOf(o).Some? && Run(m, [s, o, t]) == Apply(m, OpOf(o).value, Text(s), Text(t))
  {
    hide Run, Apply, OpOf, Level;
    OnLevel(k, o);
    var op := OpOf(o).value;
    var e := Binary(op, Word(s), Word(t));
    assert Fits(e, 0);
    assert Args(e) == [s, o, t];
    RunReads(m, e);
  }

  lemma {:induction false} NumbersRun(m: Matcher, k: nat, o: string, i: int, j: int)
    requires k < |LEVELS| && o in LEVELS[k] && InRange(i) && InRange(j)
    ensures OpOf(o).Some? && Run(m, [Decimal(i), o, Decimal(j)])
                             == Apply(m, OpOf(o).value, Text(Decimal(i)), Text(Decimal(j)))
    ensures Number(Decimal(i)) == Some(i) && Number(Decimal(j)) == Some(j)
  {
    hide Run, Apply, OpOf, Decimal, Number;
    NumberPlainly(i);
    NumberPlainly(j);
    NumberRoundTrip(i);
    NumberRoundTrip(j);
    BinaryRun(m, k, o, Decimal(i), Decimal(j));
  }

  /** Sums, differences and products that 64 bits hold. */
  lemma {:induction false} SumsMean(m: Matcher, i: int, j: int)
    requires InRange(i) && InRange(j)
    ensures InRange(i + j) ==> Run(m, [Decimal(i), "+", Decimal(j)]) == Ok(Integer(i + j))
    ensures InRange(i - j) ==> Run(m, [Decimal(i), "-", Decimal(j)]) == Ok(Integer(i - j))
    ensures InRange(i * j) ==> Run(m, [Decimal(i), "*", Decimal(j)]) == Ok(Integer(i * j))
  {
    hide Run, Number, Decimal;
    NumbersRun(m, 3, "+", i, j);
    NumbersRun(m, 3, "-", i, j);
    NumbersRun(m, 4, "*", i, j);
  }

  /** Quotients towards zero and their rests; nothing is divided by zero. */
  lemma {:induction false} QuotientsMean(m: Matcher, i: int, j: int)
    requires InRange(i) && InRange(j)
    ensures j == 0 ==> Run(m, [Decimal(i), "/", Decimal(j)]) == Fail(DivisionByZero)
    ensures j == 0 ==> Run(m, [Decimal(i), "%", Decimal(j)]) == Fail(DivisionByZero)
    ensures j != 0 && !(i == MIN && j == -1) ==>
              exists q, r :: IsDivision(i, j, q, r) && Run(m, [Decimal(i), "/", Decimal(j)]) == Ok(Integer(q))
                          && Run(m, [Decimal(i), "%", Decimal(j)]) == Ok(Integer(r))
  {
    hide Run, Number, Decimal, Quotient, Rest;
    NumbersRun(m, 4, "/", i, j);
    NumbersRun(m, 4, "%", i, j);
    if j != 0 {
      DivisionLaw(i, j);
      QuotientInRange(i, j);
      assert IsDivision(i, j, Quotient(i, j), Rest(i, j));
    }
  }

  ghost predicate IsDivision(i: int, j: int, q: int, r: int)
  {
    i == q * j + r && Abs(r) < Abs(j) && (r != 0 ==> (r < 0 <==> i < 0))
  }

  lemma {:induction false} QuotientInRange(i: int, j: int)
    requires InRange(i) && InRange(j) && j != 0
    ensures !(i == MIN && j == -1) ==> InRange(Quotient(i, j))
  {
    hide InRange;
    QuotientBound(Abs(i), Abs(j));
    RangeFacts(i, j, Abs(i) / Abs(j));
  }

  lemma {:induction false} QuotientBound(a: nat, d: nat)
    requires d > 0
    ensures 0 <= a / d && (d == 1 ==> a / d == a) && (d >= 2 ==> 2 * (a / d) <= a)
  {
    var q, r := a / d, a % d;
    assert a == d * q + r;
    if d >= 2 {
      AtLeastTwice(d, q);
    }
  }

  lemma {:induction false} AtLeastTwice(d: nat, q: nat)
    requires d >= 2
    ensures d * q >= 2 * q
  {
  }

  lemma {:induction false} RangeFacts(i: int, j: int, q: int)
    requires q >= 0 && InRange(i) && InRange(j) && j != 0
    requires (Abs(j) == 1 ==> q == Abs(i)) && (Abs(j) >= 2 ==> 2 * q <= Abs(i))
    ensures !(i == MIN && j == -1) ==> InRange(if (i < 0) != (j < 0) then -q else q)
  {
  }

  function Truth(b: bool): Outcome<Datum>
  {
    Ok(Integer(if b then 1 else 0))
  }

  /** Comparisons of numbers. */
  lemma {:induction false} ComparisonsMean(m: Matcher, i: int, j: int)
    requires InRange(i) && InRange(j)
    ensures Run(m, [Decimal(i), "<", Decimal(j)]) == Truth(i < j)
    ensures Run(m, [Decimal(i), "<=", Decimal(j)]) == Truth(i <= j)
    ensures Run(m, [Decimal(i), "=", Decimal(j)]) == Truth(i == j)
    ensures Run(m, [Decimal(i), "==", Decimal(j)]) == Truth(i == j)
    ensures Run(m, [Decimal(i), "!=", Decimal(j)]) == Truth(i != j)
    ensures Run(m, [Decimal(i), ">=", Decimal(j)]) == Truth(i >= j)
    ensures Run(m, [Decimal(i), ">", Decimal(j)]) == Truth(i > j)
  {
    hide Run, Decimal;
    CompareRun(m, "<", i, j);
    CompareRun(m, "<=", i, j);
    CompareRun(m, "=", i, j);
    CompareRun(m, "==", i, j);
    CompareRun(m, "!=", i, j);
    CompareRun(m, ">=", i, j);
    CompareRun(m, ">", i, j);
  }

  lemma {:induction false} CompareRun(m: Matcher, o: string, i: int, j: int)
    requires o in LEVELS[2] && InRange(i) && InRange(j)
    ensures OpOf(o).Some? && Run(m, [Decimal(i), o, Decimal(j)]) == Truth(Relates(OpOf(o).value, i, j))
  {
    hide Run, Number, Decimal, Strcmp, Relates, OpOf, Level;
    NumbersRun(m, 2, o, i, j);
    OnLevel(2, o);
    LevelTwo(OpOf(o).value);
  }

  lemma LevelTwo(op: Op)
    requires Level(op) == 2
    ensures IsComparison(op)
  {
  }

  /** s comes before t in the dictionary: where they first differ it ends, or has the smaller character. */
  ghost predicate Before(s: string, t: string)
  {
    exists n: nat :: DiffersAt(s, t, n)
  }

  ghost predicate DiffersAt(s: string, t: string, n: nat)
  {
    n <= |s| && n < |t| && s[..n] == t[..n] && (n == |s| || s[n] < t[n])
  }

  lemma {:induction false} StrcmpBefore(s: string, t: string, n: nat)
    requires DiffersAt(s, t, n)
    ensures Strcmp(s, t) < 0
    decreases n
  {
    if n > 0 {
      assert s[..n][0] == s[0] && t[..n][0] == t[0];
      assert s[1..][..n - 1] == s[..n][1..] && t[1..][..n - 1] == t[..n][1..];
      StrcmpBefore(s[1..], t[1..], n - 1);
    }
  }

  lemma {:induction false} BeforeStrcmp(s: string, t: string) returns (n: nat)
    requires Strcmp(s, t) < 0
    ensures DiffersAt(s, t, n)
  {
    if s == [] || s[0] != t[0] {
      n := 0;
    } else {
      var k := BeforeStrcmp(s[1..], t[1..]);
      n := k + 1;
      assert s[..n] == [s[0]] + s[1..][..k] && t[..n] == [t[0]] + t[1..][..k];
    }
  }

  /** Text that is no number goes by the dictionary. */
  lemma {:induction false} TextsMean(m: Matcher, s: string, t: string)
    requires Plainly(s) && Plainly(t) && ExactValue(s).None? && ExactValue(t).None?
    ensures Run(m, [s, "<", t]) == Truth(Before(s, t))
    ensures Run(m, [s, ">", t]) == Truth(Before(t, s))
    ensures Run(m, [s, "=", t]) == Truth(s == t)
  {
    hide Run, ExactValue, Strcmp;
    BinaryRun(m, 2, "<", s, t);
    BinaryRun(m, 2, ">", s, t);
    BinaryRun(m, 2, "=", s, t);
    StrcmpZero(s, t);
    StrcmpSwap(s, t);
    BeforeIs(s, t);
    BeforeIs(t, s);
  }

  lemma {:induction false} BeforeIs(s: string, t: string)
    ensures Before(s, t) <==> Strcmp(s, t) < 0
  {
    hide Strcmp;
    if n: nat :| DiffersAt(s, t, n) {
      StrcmpBefore(s, t, n);
    }
    if Strcmp(s, t) < 0 {
      var n := BeforeStrcmp(s, t);
    }
  }

  /** A number may have white space and a sign before its digits. */
  lemma {:induction false} SpelledNumber(blanks: string, n: nat)
    requires forall i :: 0 <= i < |blanks| ==> blanks[i] in [' ', '\t', '\n', '\U{0B}', '\U{0C}', '\r']
    ensures ExactValue(blanks + Digits(n)) == ExactValue(blanks + ("+" + Digits(n))) == Some(n)
    ensures ExactValue(blanks + ("-" + Digits(n))) == Some(0 - n)
  {
    hide ExactValue;
    BlanksSkipped(blanks, Digits(n));
    BlanksSkipped(blanks, "+" + Digits(n));
    BlanksSkipped(blanks, "-" + Digits(n));
    SignedDigits(n);
  }

  lemma {:induction false} SignedDigits(n: nat)
    ensures !IsSpace(Digits(n)[0])
    ensures ExactValue(Digits(n)) == ExactValue("+" + Digits(n)) == Some(n)
    ensures ExactValue("-" + Digits(n)) == Some(0 - n)
  {
    hide DigitsValue;
    var d := Digits(n);
    hide Digits;
    DigitsBack(n);
    assert IsDigit(d[0]);
    assert ("+" + d)[1..] == d && ("-" + d)[1..] == d;
  }

  lemma {:induction false} BlanksSkipped(blanks: string, s: string)
    requires forall i :: 0 <= i < |blanks| ==> blanks[i] in [' ', '\t', '\n', '\U{0B}', '\U{0C}', '\r']
    requires s != []
    ensures !IsSpace(s[0]) ==> ExactValue(blanks + s) == ExactValue(s)
  {
    hide UnsignedNumber;
    if !IsSpace(s[0]) {
      SkipBlanks(blanks, s);
      assert [] + s == s;
    }
  }

  lemma {:induction false} SkipBlanks(blanks: string, s: string)
    requires forall i :: 0 <= i < |blanks| ==> blanks[i] in [' ', '\t', '\n', '\U{0B}', '\U{0C}', '\r']
    requires s != [] && !IsSpace(s[0])
    ensures SkipSpaces(blanks + s) == s
  {
    if blanks == [] {
      assert blanks + s == s;
    } else {
      assert (blanks + s)[1..] == blanks[1..] + s;
      SkipBlanks(blanks[1..], s);
    }
  }

  predicate Empty(s: string)
  {
    s == "" || s == "0"
  }

  /** The first operand if it is neither empty nor zero, else the second; the first if neither is, else zero; and what
      the pattern matches. */
  lemma {:induction false} ChoicesMean(m: Matcher, s: string, t: string)
    requires Plainly(s) && Plainly(t)
    ensures Run(m, [s, "|", t]) == Ok(Text(if Empty(s) then t else s))
    ensures Run(m, [s, "&", t]) == Ok(if Empty(s) || Empty(t) then Integer(0) else Text(s))
    ensures m(s, t).Some? ==> Run(m, [s, ":", t]) == Ok(m(s, t).value)
    ensures m(s, t).None? ==> Run(m, [s, ":", t]) == Fail(BadPattern)
  {
    hide Run;
    BinaryRun(m, 0, "|", s, t);
    BinaryRun(m, 1, "&", s, t);
    BinaryRun(m, 5, ":", s, t);
  }

  // ---------- keywords ----------

  /** Any token at all behind quote; the number of characters. */
  lemma {:induction false} QuoteMeans(m: Matcher, s: string)
    ensures Run(m, ["quote", s]) == Ok(Text(s))
    ensures Plainly(s) ==> Run(m, ["length", s]) == Ok(Integer(|s|))
  {
    hide Run;
    RunReads(m, Quote(s));
    if Plainly(s) {
      assert Args(Length(Word(s))) == ["length", s];
      RunReads(m, Length(Word(s)));
    }
  }

  lemma WordArgs(s: string)
    ensures Args(Word(s)) == [s]
  {
  }

  /** match is the colon; index is the first place in s, from 1 on, of a character of t. */
  lemma {:induction false} IndexMeans(m: Matcher, s: string, t: string, n: nat)
    requires Plainly(s) && Plainly(t)
    ensures Run(m, ["match", s, t]) == Run(m, [s, ":", t])
    ensures n < |s| && s[n] in t && (forall i :: 0 <= i < n ==> s[i] !in t) ==>
              Run(m, ["index", s, t]) == Ok(Integer(n + 1))
    ensures (forall i :: 0 <= i < |s| ==> s[i] !in t) ==> Run(m, ["index", s, t]) == Ok(Integer(0))
  {
    hide Run;
    var e, f := Match(Word(s), Word(t)), Index(Word(s), Word(t));
    WordArgs(s);
    WordArgs(t);
    assert Args(e) == [Keyword(3)] + [s] + [t] == ["match", s, t];
    assert Args(f) == [Keyword(4)] + [s] + [t] == ["index", s, t];
    RunReads(m, e);
    RunReads(m, f);
    BinaryRun(m, 5, ":", s, t);
  }

  /** substr: up to n characters from place p on, counted from 1; none if either is out of range. */
  lemma {:induction false} SubstrMeans(m: Matcher, s: string, p: int, n: int)
    requires Plainly(s) && InRange(p) && InRange(n)
    ensures exists r: string :: Run(m, ["substr", s, Decimal(p), Decimal(n)]) == Ok(Text(r)) && Substring(s, p, n, r)
  {
    hide Run, Number, Decimal;
    NumberPlainly(p);
    NumberPlainly(n);
    NumberRoundTrip(p);
    NumberRoundTrip(n);
    var e := Substr(Word(s), Word(Decimal(p)), Word(Decimal(n)));
    WordArgs(s);
    WordArgs(Decimal(p));
    WordArgs(Decimal(n));
    assert Args(e) == [Keyword(5)] + [s] + [Decimal(p)] + [Decimal(n)] == ["substr", s, Decimal(p), Decimal(n)];
    RunReads(m, e);
    hide Fits, Args;
    var r := ApplySubstr(Text(s), Text(Decimal(p)), Text(Decimal(n))).s;
    SubstrIs(s, Decimal(p), p, Decimal(n), n);
  }

  lemma {:induction false} SubstrIs(s: string, pos: string, p: int, len: string, n: int)
    requires Number(pos) == Some(p) && Number(len) == Some(n)
    ensures var v := ApplySubstr(Text(s), Text(pos), Text(len)); v.Text? && Substring(s, p, n, v.s)
  {
    hide Number;
  }

  ghost predicate Substring(s: string, p: int, n: int, r: string)
  {
    if 1 <= p <= |s| && n >= 1
    then |r| == (if n <= |s| - p + 1 then n else |s| - p + 1)
         && forall i :: 0 <= i < |r| ==> r[i] == s[p - 1 + i]
    else r == ""
  }
}
