/** How tightly the operators of expr bind, on argument lists. */
module ExprPrecedence {
  import opened Options
  import opened ExprValues
  import opened ExprTrees

  /** The operators, those that bind loosest first. */
  const LEVELS: seq<seq<string>> := [
    ["|"],
    ["&"],
    ["<", "<=", "=", "==", "!=", ">=", ">"],
    ["+", "-"],
    ["*", "/", "%"],
    [":"]
  ]

  /** One operand: a word, quoted or not, something in parentheses, or a keyword with its operands. */
  ghost predicate Operand(a: seq<string>)
  {
    exists t: Expr :: Fits(t, 6) && Args(t) == a
  }

  function Grouped(a: seq<string>): seq<string>
  {
    ["("] + a + [")"]
  }

  function Joined(a: seq<string>, o: string, b: seq<string>): seq<string>
  {
    a + [o] + b
  }

  lemma {:induction false} OnLevel(i: nat, o: string)
    requires i < |LEVELS| && o in LEVELS[i]
    ensures OpOf(o).Some? && Level(OpOf(o).value) == i
  {
  }

  /** An operand may stand in place of anything. */
  lemma {:induction false} FitsAnywhere(t: Expr, k: nat)
    requires Fits(t, 6) && k <= 6
    ensures Fits(t, k)
  {
  }

  lemma {:induction false} GroupedOperand(t: Expr)
    requires Fits(t, 0)
    ensures Fits(Parens(t), 6) && Args(Parens(t)) == Grouped(Args(t))
  {
  }

  /** Of two operators of different levels, the tighter one goes first, on either side. */
  lemma {:induction false} Tighter(m: Matcher, i: nat, lo: string, j: nat, hi: string, a: seq<string>, b: seq<string>,
                                   c: seq<string>)
    requires i < j < |LEVELS| && lo in LEVELS[i] && hi in LEVELS[j] && Operand(a) && Operand(b) && Operand(c)
    ensures Run(m, Joined(Joined(a, lo, b), hi, c)) == Run(m, Joined(a, lo, Grouped(Joined(b, hi, c))))
    ensures Run(m, Joined(Joined(a, hi, b), lo, c)) == Run(m, Joined(Grouped(Joined(a, hi, b)), lo, c))
  {
    hide Run, Level, OpOf;
    OnLevel(i, lo);
    OnLevel(j, hi);
    var s, t, u := OperandTree(a), OperandTree(b), OperandTree(c);
    Right(m, OpOf(lo).value, OpOf(hi).value, s, t, u);
    Left(m, OpOf(hi).value, OpOf(lo).value, s, t, u);
    assert Joined(Joined(a, lo, b), hi, c) == Joined(a, lo, Joined(b, hi, c));
  }

  /** Operators of one level go from left to right. */
  lemma {:induction false} LeftToRight(m: Matcher, i: nat, o: string, p: string, a: seq<string>, b: seq<string>,
                                       c: seq<string>)
    requires i < |LEVELS| && o in LEVELS[i] && p in LEVELS[i] && Operand(a) && Operand(b) && Operand(c)
    ensures Run(m, Joined(Joined(a, o, b), p, c)) == Run(m, Joined(Grouped(Joined(a, o, b)), p, c))
  {
    hide Run, Level, OpOf;
    OnLevel(i, o);
    OnLevel(i, p);
    Left(m, OpOf(o).value, OpOf(p).value, OperandTree(a), OperandTree(b), OperandTree(c));
  }

  ghost function OperandTree(a: seq<string>): (t: Expr)
    requires Operand(a)
    ensures Fits(t, 6) && Args(t) == a
  {
    var t :| Fits(t, 6) && Args(t) == a;
    t
  }

  lemma {:induction false} Right(m: Matcher, lo: Op, hi: Op, s: Expr, t: Expr, u: Expr)
    requires Level(lo) < Level(hi) && Fits(s, 6) && Fits(t, 6) && Fits(u, 6)
    ensures var inner := Joined(Args(t), Spell(hi), Args(u));
            Run(m, Joined(Args(s), Spell(lo), inner)) == Run(m, Joined(Args(s), Spell(lo), Grouped(inner)))
  {
    hide Run, Level, Spell, Apply;
    var e := Binary(hi, t, u);
    FitsAnywhere(s, Level(lo));
    FitsAnywhere(t, Level(hi));
    FitsAnywhere(u, Level(hi) + 1);
    assert Fits(e, 0) && Fits(e, Level(lo) + 1);
    GroupedOperand(e);
    FitsAnywhere(Parens(e), Level(lo) + 1);
    SameValue(m, lo, s, e, s, Parens(e));
  }

  lemma {:induction false} Left(m: Matcher, o: Op, p: Op, s: Expr, t: Expr, u: Expr)
    requires Level(p) <= Level(o) && Fits(s, 6) && Fits(t, 6) && Fits(u, 6)
    ensures var inner := Joined(Args(s), Spell(o), Args(t));
            Run(m, Joined(inner, Spell(p), Args(u))) == Run(m, Joined(Grouped(inner), Spell(p), Args(u)))
  {
    hide Run, Level, Spell, Apply;
    var e := Binary(o, s, t);
    FitsAnywhere(s, Level(o));
    FitsAnywhere(t, Level(o) + 1);
    FitsAnywhere(u, Level(p) + 1);
    assert Fits(e, 0) && Fits(e, Level(p));
    GroupedOperand(e);
    FitsAnywhere(Parens(e), Level(p));
    SameValue(m, p, e, u, Parens(e), u);
  }

  lemma {:induction false} SameValue(m: Matcher, op: Op, l: Expr, r: Expr, l': Expr, r': Expr)
    requires Fits(Binary(op, l, r), 0) && Fits(Binary(op, l', r'), 0)
    requires Value(m, l) == Value(m, l') && Value(m, r) == Value(m, r')
    ensures Run(m, Joined(Args(l), Spell(op), Args(r))) == Run(m, Joined(Args(l'), Spell(op), Args(r')))
  {
    hide Run, Spell, Apply, Fits;
    RunReads(m, Binary(op, l, r));
    RunReads(m, Binary(op, l', r'));
  }

  /** A word that means nothing special is an operand. */
  lemma {:induction false} WordOperand(s: string)
    requires s !in ["(", ")", "quote", "length", "match", "index", "substr"]
    ensures Operand([s])
  {
    assert Fits(Word(s), 6) && Args(Word(s)) == [s];
  }

  /** 1 + 2 * 3 is 7. */
  lemma {:induction false} SumOfProduct(m: Matcher)
    ensures Run(m, ["1", "+", "2", "*", "3"]) == Ok(Integer(7))
  {
    var e := Binary(Times, Word("2"), Word("3"));
    var t := Binary(Plus, Word("1"), e);
    SumWritten(e, t);
    hide Fits, Args, Run, Value, Spell;
    RunReads(m, t);
    SumValue(m);
  }

  lemma {:induction false} SumWritten(e: Expr, t: Expr)
    requires e == Binary(Times, Word("2"), Word("3")) && t == Binary(Plus, Word("1"), e)
    ensures Fits(t, 0) && Args(t) == ["1", "+", "2", "*", "3"]
  {
    assert Args(e) == ["2", "*", "3"];
  }

  lemma {:induction false} SumValue(m: Matcher)
    ensures Value(m, Binary(Plus, Word("1"), Binary(Times, Word("2"), Word("3")))) == Ok(Integer(7))
  {
    hide Value, Number;
    OneDigit("1");
    OneDigit("2");
    OneDigit("3");
    var e := Binary(Times, Word("2"), Word("3"));
    BinaryValue(m, Plus, "3", Word("3"));
    BinaryValue(m, Times, "2", Word("3"));
    assert Value(m, e) == Ok(Integer(6));
    BinaryValue(m, Plus, "1", e);
  }

  lemma {:induction false} BinaryValue(m: Matcher, op: Op, s: string, r: Expr)
    ensures Value(m, Word(s)) == Ok(Text(s))
    ensures Value(m, r).Ok? ==> Value(m, Binary(op, Word(s), r)) == Apply(m, op, Text(s), Value(m, r).value)
  {
    hide Apply;
  }

  lemma {:induction false} OneDigit(s: string)
    requires |s| == 1 && IsDigit(s[0])
    ensures Number(s) == Some(s[0] as int - '0' as int)
  {
    assert s[..|s| - 1] == [];
    assert DigitsValue([]) == 0;
    assert DigitsValue(s) == s[0] as int - '0' as int;
  }
}
