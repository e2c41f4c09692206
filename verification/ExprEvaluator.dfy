/** expr's recursive descent over its arguments, which evaluates as it reads. */
module ExprEvaluating {
  import opened Options
  import opened ExprValues
  import opened ExprTrees

  /** A VALUE, coerced in place. */
  class Value {
    var datum: Datum

    constructor (d: Datum)
      ensures datum == d
    {
      datum := d;
    }

    /** tostring. */
    method ToText()
      modifies this
      ensures datum == Text(AsText(old(datum)))
    {
      if datum.Integer? {
        datum := Text(Decimal(datum.i));
      }
    }

    /** toarith. */
    method ToArith() returns (ok: bool)
      modifies this
      ensures ok <==> AsNumber(old(datum)).Some?
      ensures datum == Coerced(old(datum))
    {
      if datum.Text? {
        var i := Number(datum.s);
        if i == None {
          return false;
        }
        datum := Integer(i.value);
      }
      ok := true;
    }
  }

  /** The code of an operator: the sum of its characters. */
  function Code(s: string): int
    requires s != []
  {
    s[0] as int + (if |s| > 1 then s[1] as int else 0)
  }

  /** cmp_common: by number if both sides are one, else by text. */
  method CmpCommon(l: Value, r: Value, op: int, ghost o: Op) returns (b: bool)
    requires l != r && IsComparison(o) && op == Code(Spell(o))
    modifies l, r
    ensures b == if old(l.datum).Integer? && old(r.datum).Integer? then Relates(o, old(l.datum.i), old(r.datum.i))
                 else Relates(o, Strcmp(AsText(old(l.datum)), AsText(old(r.datum))), 0)
  {
    var ll, rr := 0, 0;
    if l.datum.Text? || r.datum.Text? {
      l.ToText();
      r.ToText();
      ll := Strcmp(l.datum.s, r.datum.s);
    } else {
      ll, rr := l.datum.i, r.datum.i;
    }
    hide Strcmp, AsText;
    if op == '<' as int {
      return ll < rr;
    }
    if op == '<' as int + '=' as int {
      return ll <= rr;
    }
    if op == '=' as int || op == '=' as int + '=' as int {
      return ll == rr;
    }
    if op == '!' as int + '=' as int {
      return ll != rr;
    }
    if op == '>' as int {
      return ll > rr;
    }
    b := ll >= rr;
  }

  /** arithmetic_common. */
  method ArithmeticCommon(l: Value, r: Value, op: int, ghost o: Op) returns (v: Outcome<Datum>)
    requires l != r && IsArithmetic(o) && op == Code(Spell(o))
    modifies l, r
    ensures v == Arithmetic(o, old(l.datum), old(r.datum))
  {
    hide Number, Quotient, Rest, InRange;
    var okl := l.ToArith();
    if !okl {
      return Fail(NonNumeric);
    }
    var okr := r.ToArith();
    if !okr {
      return Fail(NonNumeric);
    }
    var li, ri := l.datum.i, r.datum.i;
    if op == '+' as int {
      return Checked(li + ri);
    }
    if op == '-' as int {
      return Checked(li - ri);
    }
    if op == '*' as int {
      return Checked(li * ri);
    }
    if ri == 0 {
      return Fail(DivisionByZero);
    }
    if !InRange(Quotient(li, ri)) {
      return Fail(Overflow);
    }
    if op == '/' as int {
      return Ok(Integer(Quotient(li, ri)));
    }
    v := Ok(Integer(Rest(li, ri)));
  }

  /** docolon, around the matcher. */
  method DoColon(m: Matcher, sv: Value, pv: Value) returns (v: Outcome<Value>)
    requires sv != pv
    modifies sv, pv
    ensures v.Ok? ==> fresh(v.value)
    ensures ApplyMatch(m, old(sv.datum), old(pv.datum)) == if v.Ok? then Ok(v.value.datum) else Fail(v.error)
  {
    sv.ToText();
    pv.ToText();
    match m(sv.datum.s, pv.datum.s)
    case None => v := Fail(BadPattern);
    case Some(d) =>
      var w := new Value(d);
      v := Ok(w);
  }

  class Evaluator {
    const m: Matcher
    var args: seq<string>

    constructor (matcher: Matcher, a: seq<string>)
      ensures m == matcher && args == a
    {
      m, args := matcher, a;
    }

    /** nextarg. */
    function NextArg(str: string): int
      requires str != []
      reads this
    {
      if args == [] || args[0] != str then 0 else Code(str)
    }

    /** What reading gave: the value, and the arguments left. */
    ghost predicate Gives(r: Outcome<Read>, v: Outcome<Value>)
      reads this, if v.Ok? then {v.value} else {}
    {
      match v
      case Fail(e) => r == Fail(e)
      case Ok(x) => r == Ok(Read(x.datum, args))
    }

    method Eval7() returns (v: Outcome<Value>)
      modifies this
      ensures v.Ok? ==> fresh(v.value)
      ensures Gives(ReadPrimary(m, old(args)), v)
      decreases |args|, 0
    {
      if args == [] {
        return Fail(Syntax);
      }
      if NextArg("(") != 0 {
        args := args[1..];
        v := Eval();
        if v.Fail? {
          return;
        }
        if NextArg(")") == 0 {
          return Fail(Syntax);
        }
        args := args[1..];
        return;
      }
      if NextArg(")") != 0 {
        return Fail(Syntax);
      }
      var w := new Value(Text(args[0]));
      args := args[1..];
      v := Ok(w);
    }

    method Eval6() returns (v: Outcome<Value>)
      modifies this
      ensures v.Ok? ==> fresh(v.value)
      ensures Gives(ReadKeyword(m, old(args)), v)
      decreases |args|, 1
    {
      hide Key, ReadPrimary, ReadSecond;
      var key := if args == [] then 0 else Key(args[0]);
      if key == 0 {
        v := Eval7();
        return;
      }
      args := args[1..];
      if key == 1 {
        if args == [] {
          return Fail(Syntax);
        }
        var w := new Value(Text(args[0]));
        args := args[1..];
        return Ok(w);
      }
      if key == 2 {
        v := Eval6();
        if v.Fail? {
          return;
        }
        v.value.ToText();
        var w := new Value(Integer(|v.value.datum.s|));
        return Ok(w);
      }
      v := Eval6();
      if v.Fail? {
        return;
      }
      v := Operands(key, v.value);
    }

    /** The part of eval6 behind the first operand of match, index or substr. */
    method Operands(key: nat, l: Value) returns (v: Outcome<Value>)
      requires 3 <= key <= 5
      modifies this, l
      ensures v.Ok? ==> fresh(v.value)
      ensures Gives(ReadSecond(m, key, old(l.datum), old(args)), v)
      decreases |args|, 3
    {
      hide ReadKeyword, ApplyMatch, ReadLength;
      v := Eval6();
      if v.Fail? {
        return;
      }
      var r := v.value;
      if key == 3 {
        v := DoColon(m, l, r);
      } else if key == 4 {
        l.ToText();
        r.ToText();
        var i := Strcspn(l.datum.s, r.datum.s) + 1;
        var w := new Value(Integer(if i == |l.datum.s| + 1 then 0 else i));
        v := Ok(w);
      } else {
        v := SubstrOperand(l, r);
      }
    }

    method SubstrOperand(l: Value, i1: Value) returns (v: Outcome<Value>)
      requires l != i1
      modifies this, l, i1
      ensures v.Ok? ==> fresh(v.value)
      ensures Gives(ReadLength(m, old(l.datum), old(i1.datum), old(args)), v)
      decreases |args|, 2
    {
      hide ReadKeyword, AsText, Number;
      v := Eval6();
      if v.Fail? {
        return;
      }
      var i2 := v.value;
      l.ToText();
      var ok1 := i1.ToArith();
      var ok2 := i2.ToArith();
      var s := l.datum.s;
      var w := new Value(Text(""));
      if ok1 && ok2 {
        var p, n := i1.datum.i, i2.datum.i;
        if !(p > |s| || p <= 0 || n <= 0) {
          w.datum := Text(s[p - 1..if p - 1 + n <= |s| then p - 1 + n else |s|]);
        }
      }
      v := Ok(w);
    }

    /** The operator next in line has level k, and was found by its spelling. */
    lemma Found(o: Op, k: nat)
      requires args != [] && args[0] == Spell(o)
      ensures TakesOp(args, k) <==> Level(o) == k
      ensures OpOf(args[0]) == Some(o)
    {
      SpellBack(o);
    }

    method Eval5() returns (v: Outcome<Value>)
      modifies this
      ensures v.Ok? ==> fresh(v.value)
      ensures Gives(ReadLevel(m, old(args), 5), v)
      decreases |args|, 3
    {
      hide ReadKeyword, ApplyMatch;
      v := Eval6();
      if v.Fail? {
        return;
      }
      var l := v.value;
      while NextArg(":") != 0
        invariant fresh(l) && |args| < |old(args)|
        invariant ReadLevel(m, old(args), 5) == ReadTail(m, l.datum, args, 5)
        decreases |args|
      {
        Found(Colon, 5);
        args := args[1..];
        v := Eval6();
        if v.Fail? {
          return;
        }
        v := DoColon(m, l, v.value);
        if v.Fail? {
          return;
        }
        l := v.value;
      }
      v := Ok(l);
    }

    method NextFactor() returns (op: int)
      ensures op != 0 <==> TakesOp(args, 4)
      ensures op != 0 ==> IsArithmetic(OpOf(args[0]).value) && op == Code(Spell(OpOf(args[0]).value))
    {
      op := NextArg("*");
      if op == 0 {
        op := NextArg("/");
        if op == 0 {
          op := NextArg("%");
        }
      }
    }

    method Eval4() returns (v: Outcome<Value>)
      modifies this
      ensures v.Ok? ==> fresh(v.value)
      ensures Gives(ReadLevel(m, old(args), 4), v)
      decreases |args|, 4
    {
      hide ReadKeyword, Arithmetic, OpOf, Spell, Level;
      v := Eval5();
      if v.Fail? {
        return;
      }
      var l := v.value;
      while true
        invariant fresh(l) && |args| < |old(args)|
        invariant ReadLevel(m, old(args), 4) == ReadTail(m, l.datum, args, 4)
        decreases |args|
      {
        var op := NextFactor();
        if op == 0 {
          return Ok(l);
        }
        ghost var o := OpOf(args[0]).value;
        args := args[1..];
        v := Eval5();
        if v.Fail? {
          return;
        }
        var val := ArithmeticCommon(l, v.value, op, o);
        if val.Fail? {
          return Fail(val.error);
        }
        l := new Value(val.value);
      }
    }

    method Eval3() returns (v: Outcome<Value>)
      modifies this
      ensures v.Ok? ==> fresh(v.value)
      ensures Gives(ReadLevel(m, old(args), 3), v)
      decreases |args|, 5
    {
      hide ReadKeyword, Arithmetic;
      v := Eval4();
      if v.Fail? {
        return;
      }
      var l := v.value;
      while true
        invariant fresh(l) && |args| < |old(args)|
        invariant ReadLevel(m, old(args), 3) == ReadTail(m, l.datum, args, 3)
        decreases |args|
      {
        var op := NextArg("+");
        if op == 0 {
          op := NextArg("-");
          if op == 0 {
            return Ok(l);
          }
        }
        ghost var o := OpOf(args[0]).value;
        args := args[1..];
        v := Eval4();
        if v.Fail? {
          return;
        }
        var val := ArithmeticCommon(l, v.value, op, o);
        if val.Fail? {
          return Fail(val.error);
        }
        l := new Value(val.value);
      }
    }

    /** The operator that eval2 looks for, or 0. */
    method NextComparison() returns (op: int)
      ensures op != 0 <==> TakesOp(args, 2)
      ensures op != 0 ==> IsComparison(OpOf(args[0]).value) && op == Code(Spell(OpOf(args[0]).value))
    {
      op := NextArg("<");
      if op == 0 {
        op := NextArg("<=");
        if op == 0 {
          op := NextArg("=");
          if op == 0 {
            op := NextArg("==");
            if op == 0 {
              op := NextArg("!=");
              if op == 0 {
                op := NextArg(">=");
                if op == 0 {
                  op := NextArg(">");
                }
              }
            }
          }
        }
      }
    }

    method Eval2() returns (v: Outcome<Value>)
      modifies this
      ensures v.Ok? ==> fresh(v.value)
      ensures Gives(ReadLevel(m, old(args), 2), v)
      decreases |args|, 6
    {
      hide ReadKeyword, Strcmp, Number, AsText, OpOf, Spell, Level;
      v := Eval3();
      if v.Fail? {
        return;
      }
      var l := v.value;
      while true
        invariant fresh(l) && |args| < |old(args)|
        invariant ReadLevel(m, old(args), 2) == ReadTail(m, l.datum, args, 2)
        decreases |args|
      {
        var op := NextComparison();
        if op == 0 {
          return Ok(l);
        }
        ghost var o := OpOf(args[0]).value;
        args := args[1..];
        v := Eval3();
        if v.Fail? {
          return;
        }
        var _ := l.ToArith();
        var _ := v.value.ToArith();
        var val := CmpCommon(l, v.value, op, o);
        l := new Value(Integer(if val then 1 else 0));
      }
    }

    method Eval1() returns (v: Outcome<Value>)
      modifies this
      ensures v.Ok? ==> fresh(v.value)
      ensures Gives(ReadLevel(m, old(args), 1), v)
      decreases |args|, 7
    {
      hide ReadKeyword;
      v := Eval2();
      if v.Fail? {
        return;
      }
      var l := v.value;
      while NextArg("&") != 0
        invariant fresh(l) && |args| < |old(args)|
        invariant ReadLevel(m, old(args), 1) == ReadTail(m, l.datum, args, 1)
        decreases |args|
      {
        Found(And, 1);
        args := args[1..];
        v := Eval2();
        if v.Fail? {
          return;
        }
        if Null(l.datum) || Null(v.value.datum) {
          l := new Value(Integer(0));
        }
      }
      v := Ok(l);
    }

    method Eval() returns (v: Outcome<Value>)
      modifies this
      ensures v.Ok? ==> fresh(v.value)
      ensures Gives(ReadLevel(m, old(args), 0), v)
      decreases |args|, 8
    {
      hide ReadKeyword;
      v := Eval1();
      if v.Fail? {
        return;
      }
      var l := v.value;
      while NextArg("|") != 0
        invariant fresh(l) && |args| < |old(args)|
        invariant ReadLevel(m, old(args), 0) == ReadTail(m, l.datum, args, 0)
        decreases |args|
      {
        Found(Or, 0);
        args := args[1..];
        v := Eval1();
        if v.Fail? {
          return;
        }
        if Null(l.datum) {
          l := v.value;
        }
      }
      v := Ok(l);
    }
  }

  /** expr_main: what is printed, and the exit status. */
  method ExprMain(m: Matcher, argv: seq<string>) returns (out: Outcome<string>, status: int)
    ensures Run(m, argv).Fail? ==> out == Fail(Run(m, argv).error) && status == 2
    ensures Run(m, argv).Ok? ==>
        out == Ok(AsText(Run(m, argv).value)) && status == if Null(Run(m, argv).value) then 1 else 0
  {
    hide ReadLevel, AsText;
    if argv == [] {
      return Fail(TooFew), 2;
    }
    var e := new Evaluator(m, argv);
    var v := e.Eval();
    if v.Fail? {
      return Fail(v.error), 2;
    }
    if e.args != [] {
      return Fail(Syntax), 2;
    }
    status := if Null(v.value.datum) then 1 else 0;
    v.value.ToText();
    out := Ok(v.value.datum.s);
  }
}
