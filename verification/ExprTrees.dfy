/** Expression trees of expr, how they are written as arguments, and the grammar that reads them back. */
module ExprTrees {
  import opened Options
  import opened ExprValues

  /** What a pattern matched in a text gives, or None for a pattern that does not compile. */
  type Matcher = (string, string) -> Option<Datum>

  datatype Expr =
    | Word(s: string)
    | Quote(s: string)
    | Parens(e: Expr)
    | Binary(op: Op, l: Expr, r: Expr)
    | Length(e: Expr)
    | Match(l: Expr, r: Expr)
    | Index(l: Expr, r: Expr)
    | Substr(l: Expr, pos: Expr, len: Expr)

  // ---------- tokens ----------

  function Spell(op: Op): string
  {
    match op
    case Or => "|"
    case And => "&"
    case Less => "<"
    case LessEqual => "<="
    case Equal => "="
    case EqualEqual => "=="
    case NotEqual => "!="
    case MoreEqual => ">="
    case More => ">"
    case Plus => "+"
    case Minus => "-"
    case Times => "*"
    case Divide => "/"
    case Remainder => "%"
    case Colon => ":"
  }

  /** Which of eval, eval1 to eval5 takes the operator. */
  function Level(op: Op): (k: nat)
    ensures k <= 5
  {
    match op
    case Or => 0
    case And => 1
    case Plus => 3
    case Minus => 3
    case Times => 4
    case Divide => 4
    case Remainder => 4
    case Colon => 5
    case _ => 2
  }

  function OpOf(s: string): (r: Option<Op>)
    ensures r.Some? ==> Spell(r.value) == s
  {
    if s == "|" then Some(Or)
    else if s == "&" then Some(And)
    else if s == "<" then Some(Less)
    else if s == "<=" then Some(LessEqual)
    else if s == "=" then Some(Equal)
    else if s == "==" then Some(EqualEqual)
    else if s == "!=" then Some(NotEqual)
    else if s == ">=" then Some(MoreEqual)
    else if s == ">" then Some(More)
    else if s == "+" then Some(Plus)
    else if s == "-" then Some(Minus)
    else if s == "*" then Some(Times)
    else if s == "/" then Some(Divide)
    else if s == "%" then Some(Remainder)
    else if s == ":" then Some(Colon)
    else None
  }

  lemma {:induction false} SpellBack(op: Op)
    ensures OpOf(Spell(op)) == Some(op)
  {
  }

  /** The place of a keyword in the list that eval6 searches, from 1 on; 0 for any other token. */
  function Key(s: string): (k: nat)
    ensures k <= 5
  {
    if s == "quote" then 1
    else if s == "length" then 2
    else if s == "match" then 3
    else if s == "index" then 4
    else if s == "substr" then 5
    else 0
  }

  function Keyword(k: nat): string
  {
    match k
    case 1 => "quote"
    case 2 => "length"
    case 3 => "match"
    case 4 => "index"
    case _ => "substr"
  }

  lemma {:induction false} KeyBack(k: nat, s: string)
    requires 1 <= k <= 5
    ensures Key(s) == k <==> s == Keyword(k)
  {
  }

  /** A token that an operand can be only behind quote. */
  predicate NeedsQuote(s: string)
  {
    Key(s) != 0 || s == "(" || s == ")"
  }

  // ---------- what a tree means ----------

  function Apply(m: Matcher, op: Op, l: Datum, r: Datum): Outcome<Datum>
  {
    match op
    case Or => Ok(if Null(l) then r else l)
    case And => Ok(if Null(l) || Null(r) then Integer(0) else l)
    case Colon => ApplyMatch(m, l, r)
    case _ => if IsArithmetic(op) then Arithmetic(op, l, r) else Ok(Integer(if Compares(op, l, r) then 1 else 0))
  }

  function ApplyMatch(m: Matcher, l: Datum, r: Datum): Outcome<Datum>
  {
    match m(AsText(l), AsText(r))
    case None => Fail(BadPattern)
    case Some(v) => Ok(v)
  }

  function ApplyLength(v: Datum): Datum
  {
    Integer(|AsText(v)|)
  }

  /** How many characters of s come before one of set. */
  function Strcspn(s: string, chars: string): (n: nat)
    ensures n <= |s| && (n < |s| ==> s[n] in chars) && forall i :: 0 <= i < n ==> s[i] !in chars
  {
    if s == [] || s[0] in chars then 0 else 1 + Strcspn(s[1..], chars)
  }

  function ApplyIndex(l: Datum, r: Datum): Datum
  {
    var n := Strcspn(AsText(l), AsText(r));
    Integer(if n == |AsText(l)| then 0 else n + 1)
  }

  function ApplySubstr(l: Datum, pos: Datum, len: Datum): Datum
  {
    var s := AsText(l);
    if AsNumber(pos).None? || AsNumber(len).None? then Text("")
    else
      var p, n := AsNumber(pos).value, AsNumber(len).value;
      if p > |s| || p <= 0 || n <= 0 then Text("")
      else Text(s[p - 1..if p - 1 + n <= |s| then p - 1 + n else |s|])
  }

  /** Operands are evaluated from left to right, all of them; the first failure is the tree's. */
  function Value(m: Matcher, t: Expr): (r: Outcome<Datum>)
    ensures r.Fail? ==> r.error != Syntax && r.error != TooFew
  {
    match t
    case Word(s) => Ok(Text(s))
    case Quote(s) => Ok(Text(s))
    case Parens(e) => Value(m, e)
    case Binary(op, l, r) => (
      match Value(m, l)
      case Fail(e) => Fail(e)
      case Ok(a) => (
        match Value(m, r)
        case Fail(e) => Fail(e)
        case Ok(b) => Apply(m, op, a, b)))
    case Length(e) => (
      match Value(m, e)
      case Fail(x) => Fail(x)
      case Ok(a) => Ok(ApplyLength(a)))
    case Match(l, r) => (
      match Value(m, l)
      case Fail(e) => Fail(e)
      case Ok(a) => (
        match Value(m, r)
        case Fail(e) => Fail(e)
        case Ok(b) => ApplyMatch(m, a, b)))
    case Index(l, r) => (
      match Value(m, l)
      case Fail(e) => Fail(e)
      case Ok(a) => (
        match Value(m, r)
        case Fail(e) => Fail(e)
        case Ok(b) => Ok(ApplyIndex(a, b))))
    case Substr(l, p, n) => (
      match Value(m, l)
      case Fail(e) => Fail(e)
      case Ok(a) => (
        match Value(m, p)
        case Fail(e) => Fail(e)
        case Ok(b) => (
          match Value(m, n)
          case Fail(e) => Fail(e)
          case Ok(c) => Ok(ApplySubstr(a, b, c)))))
  }

  // ---------- how a tree is written ----------

  function Args(t: Expr): seq<string>
  {
    match t
    case Word(s) => [s]
    case Quote(s) => [Keyword(1), s]
    case Parens(e) => ["("] + Args(e) + [")"]
    case Binary(op, l, r) => Args(l) + [Spell(op)] + Args(r)
    case Length(e) => [Keyword(2)] + Args(e)
    case Match(l, r) => [Keyword(3)] + Args(l) + Args(r)
    case Index(l, r) => [Keyword(4)] + Args(l) + Args(r)
    case Substr(l, p, n) => [Keyword(5)] + Args(l) + Args(p) + Args(n)
  }

  /** t can stand where level k is read: every operand binds tighter than its operator, or as tightly on the left. */
  predicate Fits(t: Expr, k: nat)
  {
    match t
    case Word(s) => !NeedsQuote(s)
    case Quote(_) => true
    case Parens(e) => Fits(e, 0)
    case Binary(op, l, r) => k <= Level(op) && Fits(l, Level(op)) && Fits(r, Level(op) + 1)
    case Length(e) => Fits(e, 6)
    case Match(l, r) => Fits(l, 6) && Fits(r, 6)
    case Index(l, r) => Fits(l, 6) && Fits(r, 6)
    case Substr(l, p, n) => Fits(l, 6) && Fits(p, 6) && Fits(n, 6)
  }

  /** Parentheses and quote where a tree needs them to stand at level k. */
  function Render(t: Expr, k: nat): Expr
  {
    match t
    case Word(s) => if NeedsQuote(s) then Quote(s) else t
    case Quote(_) => t
    case Parens(e) => Parens(Render(e, 0))
    case Binary(op, l, r) =>
      var b := Binary(op, Render(l, Level(op)), Render(r, Level(op) + 1));
      if k <= Level(op) then b else Parens(b)
    case Length(e) => Length(Render(e, 6))
    case Match(l, r) => Match(Render(l, 6), Render(r, 6))
    case Index(l, r) => Index(Render(l, 6), Render(r, 6))
    case Substr(l, p, n) => Substr(Render(l, 6), Render(p, 6), Render(n, 6))
  }

  lemma {:induction false} RenderFits(m: Matcher, t: Expr, k: nat)
    ensures Fits(Render(t, k), k) && Value(m, Render(t, k)) == Value(m, t)
  {
    hide Apply, ApplyMatch, ApplyLength, ApplyIndex, ApplySubstr;
    match t
    case Word(s) =>
    case Quote(s) =>
    case Parens(e) => RenderFits(m, e, 0);
    case Binary(op, l, r) => RenderFits(m, l, Level(op)); RenderFits(m, r, Level(op) + 1);
    case Length(e) => RenderFits(m, e, 6);
    case Match(l, r) => RenderFits(m, l, 6); RenderFits(m, r, 6);
    case Index(l, r) => RenderFits(m, l, 6); RenderFits(m, r, 6);
    case Substr(l, p, n) => RenderFits(m, l, 6); RenderFits(m, p, 6); RenderFits(m, n, 6);
  }

  /** Nothing is added to a tree that fits. */
  lemma {:induction false} RenderNeeded(t: Expr, k: nat)
    ensures Fits(t, k) <==> Render(t, k) == t
  {
    match t
    case Word(s) =>
    case Quote(s) =>
    case Parens(e) => RenderNeeded(e, 0);
    case Binary(op, l, r) => RenderNeeded(l, Level(op)); RenderNeeded(r, Level(op) + 1);
    case Length(e) => RenderNeeded(e, 6);
    case Match(l, r) => RenderNeeded(l, 6); RenderNeeded(r, 6);
    case Index(l, r) => RenderNeeded(l, 6); RenderNeeded(r, 6);
    case Substr(l, p, n) => RenderNeeded(l, 6); RenderNeeded(p, 6); RenderNeeded(n, 6);
  }

  // ---------- reading ----------

  datatype Read = Read(value: Datum, rest: seq<string>)

  predicate TakesOp(args: seq<string>, k: nat)
  {
    args != [] && OpOf(args[0]).Some? && Level(OpOf(args[0]).value) == k
  }

  /** eval7. */
  function ReadPrimary(m: Matcher, args: seq<string>): (r: Outcome<Read>)
    ensures r.Ok? ==> |r.value.rest| < |args|
    decreases |args|, 0
  {
    if args == [] || args[0] == ")" then Fail(Syntax)
    else if args[0] == "(" then
      match ReadLevel(m, args[1..], 0)
      case Fail(e) => Fail(e)
      case Ok(a) => if a.rest == [] || a.rest[0] != ")" then Fail(Syntax) else Ok(Read(a.value, a.rest[1..]))
    else Ok(Read(Text(args[0]), args[1..]))
  }

  /** eval6. */
  function ReadKeyword(m: Matcher, args: seq<string>): (r: Outcome<Read>)
    ensures r.Ok? ==> |r.value.rest| < |args|
    decreases |args|, 1
  {
    if args == [] || Key(args[0]) == 0 then ReadPrimary(m, args)
    else if Key(args[0]) == 1 then
      if |args| == 1 then Fail(Syntax) else Ok(Read(Text(args[1]), args[2..]))
    else
      match ReadKeyword(m, args[1..])
      case Fail(e) => Fail(e)
      case Ok(a) =>
        if Key(args[0]) == 2 then Ok(Read(ApplyLength(a.value), a.rest))
            else ReadSecond(m, Key(args[0]), a.value, a.rest)
  }

  /** The operands of match, index and substr behind the first. */
  function ReadSecond(m: Matcher, key: nat, l: Datum, args: seq<string>): (r: Outcome<Read>)
    ensures r.Ok? ==> |r.value.rest| < |args|
    decreases |args|, 3
  {
    match ReadKeyword(m, args)
    case Fail(e) => Fail(e)
    case Ok(b) =>
      if key == 3 then
        match ApplyMatch(m, l, b.value)
        case Fail(e) => Fail(e)
        case Ok(v) => Ok(Read(v, b.rest))
      else if key == 4 then Ok(Read(ApplyIndex(l, b.value), b.rest))
      else ReadLength(m, l, b.value, b.rest)
  }

  /** The last operand of substr. */
  function ReadLength(m: Matcher, l: Datum, pos: Datum, args: seq<string>): (r: Outcome<Read>)
    ensures r.Ok? ==> |r.value.rest| < |args|
    decreases |args|, 2
  {
    match ReadKeyword(m, args)
    case Fail(e) => Fail(e)
    case Ok(c) => Ok(Read(ApplySubstr(l, pos, c.value), c.rest))
  }

  /** eval, eval1 to eval5, and eval6 for k = 6. */
  function ReadLevel(m: Matcher, args: seq<string>, k: nat): (r: Outcome<Read>)
    requires k <= 6
    ensures r.Ok? ==> |r.value.rest| < |args|
    decreases |args|, 8 - k
  {
    if k == 6 then ReadKeyword(m, args)
    else
      match ReadLevel(m, args, k + 1)
      case Fail(e) => Fail(e)
      case Ok(a) => ReadTail(m, a.value, a.rest, k)
  }

  /** The loop of one level: operators of that level, each applied at once. */
  function ReadTail(m: Matcher, l: Datum, args: seq<string>, k: nat): (r: Outcome<Read>)
    requires k <= 5
    ensures r.Ok? ==> |r.value.rest| <= |args|
    decreases |args|, 9
  {
    if !TakesOp(args, k) then Ok(Read(l, args))
    else
      match ReadLevel(m, args[1..], k + 1)
      case Fail(e) => Fail(e)
      case Ok(b) =>
        match Apply(m, OpOf(args[0]).value, l, b.value)
        case Fail(e) => Fail(e)
        case Ok(v) => ReadTail(m, v, b.rest, k)
  }

  // ---------- reading what was written ----------

  /** No operator of level j or above comes next. */
  predicate Quiet(rest: seq<string>, j: nat)
  {
    rest == [] || OpOf(rest[0]).None? || Level(OpOf(rest[0]).value) < j
  }

  /** How reading at level k goes on behind a tree with that outcome. */
  function After(m: Matcher, v: Outcome<Datum>, rest: seq<string>, k: nat): Outcome<Read>
    requires k <= 6
  {
    match v
    case Fail(e) => Fail(e)
    case Ok(a) => if k == 6 then Ok(Read(a, rest)) else ReadTail(m, a, rest, k)
  }

  lemma {:induction false} AfterQuiet(m: Matcher, v: Outcome<Datum>, rest: seq<string>, k: nat)
    requires k <= 6 && Quiet(rest, k)
    ensures After(m, v, rest, k) == if v.Ok? then Ok(Read(v.value, rest)) else Fail(v.error)
  {
  }

  lemma {:induction false} Climb(m: Matcher, args: seq<string>, v: Outcome<Datum>, rest: seq<string>, k: nat)
    requires k < 6 && Quiet(rest, k + 1) && ReadLevel(m, args, k + 1) == After(m, v, rest, k + 1)
    ensures ReadLevel(m, args, k) == After(m, v, rest, k)
  {
    hide ReadTail, Quiet, OpOf;
    AfterQuiet(m, v, rest, k + 1);
  }

  /** Reading a tree's arguments at level k gives its value, and goes on with that level's operators. */
  lemma {:induction false} ReadWritten(m: Matcher, t: Expr, k: nat, rest: seq<string>)
    requires k <= 6 && Fits(t, k) && Quiet(rest, k + 1)
    ensures ReadLevel(m, Args(t) + rest, k) == After(m, Value(m, t), rest, k)
    decreases t, 9 - k
  {
    if t.Binary? && Level(t.op) == k {
      ReadBinary(m, t, rest);
    } else if k < 6 {
      assert Fits(t, k + 1);
      ReadWritten(m, t, k + 1, rest);
      hide *;
      Climb(m, Args(t) + rest, Value(m, t), rest, k);
    } else {
      ReadUnit(m, t, rest);
    }
  }

  lemma {:induction false} ReadBinary(m: Matcher, t: Expr, rest: seq<string>)
    requires t.Binary? && Fits(t, Level(t.op)) && Quiet(rest, Level(t.op) + 1)
    ensures ReadLevel(m, Args(t) + rest, Level(t.op)) == After(m, Value(m, t), rest, Level(t.op))
    decreases t, 2
  {
    hide OpOf, Spell, Apply;
    var k := Level(t.op);
    SpellBack(t.op);
    var more := [Spell(t.op)] + (Args(t.r) + rest);
    assert Args(t) + rest == Args(t.l) + more;
    assert more[1..] == Args(t.r) + rest;
    ReadWritten(m, t.l, k, more);
    ReadWritten(m, t.r, k + 1, rest);
    AfterQuiet(m, Value(m, t.r), rest, k + 1);
  }

  lemma {:induction false} ReadUnit(m: Matcher, t: Expr, rest: seq<string>)
    requires Fits(t, 6) && !t.Binary?
    ensures ReadKeyword(m, Args(t) + rest) == After(m, Value(m, t), rest, 6)
    decreases t, 2
  {
    hide Key, Keyword, ApplyLength;
    match t
    case Word(s) => assert (Args(t) + rest)[1..] == rest;
    case Quote(s) =>
      KeyBack(1, Keyword(1));
      assert (Args(t) + rest)[2..] == rest;
    case Parens(e) => ReadParens(m, e, rest);
    case Length(e) =>
      KeyBack(2, Keyword(2));
      assert (Args(t) + rest)[1..] == Args(e) + rest;
      ReadOperand(m, e, rest);
    case Match(l, r) => ReadMatch(m, l, r, rest);
    case Index(l, r) => ReadIndex(m, l, r, rest);
    case Substr(l, p, n) => ReadSubstr(m, l, p, n, rest);
  }

  lemma {:induction false} ReadParens(m: Matcher, e: Expr, rest: seq<string>)
    requires Fits(e, 0)
    ensures ReadKeyword(m, Args(Parens(e)) + rest) == After(m, Value(m, e), rest, 6)
    decreases e, 10
  {
    var more := [")"] + rest;
    assert (Args(Parens(e)) + rest)[1..] == Args(e) + more;
    assert more[1..] == rest;
    ReadWritten(m, e, 0, more);
  }

  /** What is read for an operand of a keyword. */
  lemma {:induction false} ReadOperand(m: Matcher, e: Expr, rest: seq<string>)
    requires Fits(e, 6)
    ensures ReadKeyword(m, Args(e) + rest) == if Value(m, e).Ok? then Ok(Read(Value(m, e).value, rest))
        else Fail(Value(m, e).error)
    decreases e, 9
  {
    ReadWritten(m, e, 6, rest);
  }

  /** The first operand of a keyword, then the others. */
  lemma {:induction false} ReadFirst(m: Matcher, key: nat, l: Expr, more: seq<string>)
    requires 3 <= key <= 5 && Fits(l, 6)
    ensures ReadKeyword(m, [Keyword(key)] + (Args(l) + more))
         == if Value(m, l).Ok? then ReadSecond(m, key, Value(m, l).value, more) else Fail(Value(m, l).error)
    decreases l, 10
  {
    hide ReadPrimary, ReadLevel, ReadTail, ReadSecond, Key, Keyword;
    KeyBack(key, Keyword(key));
    assert ([Keyword(key)] + (Args(l) + more))[1..] == Args(l) + more;
    ReadOperand(m, l, more);
  }

  lemma {:induction false} ReadMatch(m: Matcher, l: Expr, r: Expr, rest: seq<string>)
    requires Fits(l, 6) && Fits(r, 6)
    ensures ReadKeyword(m, Args(Match(l, r)) + rest) == After(m, Value(m, Match(l, r)), rest, 6)
    decreases Match(l, r), 0
  {
    hide ApplyMatch, ReadKeyword, ReadTail, Fits, Keyword;
    assert Args(Match(l, r)) + rest == [Keyword(3)] + (Args(l) + (Args(r) + rest));
    ReadFirst(m, 3, l, Args(r) + rest);
    ReadOperand(m, r, rest);
  }

  lemma {:induction false} ReadIndex(m: Matcher, l: Expr, r: Expr, rest: seq<string>)
    requires Fits(l, 6) && Fits(r, 6)
    ensures ReadKeyword(m, Args(Index(l, r)) + rest) == After(m, Value(m, Index(l, r)), rest, 6)
    decreases Index(l, r), 0
  {
    hide ApplyIndex, ReadKeyword, ReadTail, Fits, Keyword;
    assert Args(Index(l, r)) + rest == [Keyword(4)] + (Args(l) + (Args(r) + rest));
    ReadFirst(m, 4, l, Args(r) + rest);
    ReadOperand(m, r, rest);
  }

  lemma {:induction false} ReadSubstr(m: Matcher, l: Expr, p: Expr, n: Expr, rest: seq<string>)
    requires Fits(l, 6) && Fits(p, 6) && Fits(n, 6)
    ensures ReadKeyword(m, Args(Substr(l, p, n)) + rest) == After(m, Value(m, Substr(l, p, n)), rest, 6)
    decreases Substr(l, p, n), 0
  {
    hide ApplySubstr, ReadKeyword, ReadTail, Fits, ReadLength, Keyword;
    assert Args(Substr(l, p, n)) + rest == [Keyword(5)] + (Args(l) + (Args(p) + (Args(n) + rest)));
    ReadFirst(m, 5, l, Args(p) + (Args(n) + rest));
    ReadOperand(m, p, Args(n) + rest);
    if Value(m, l).Ok? && Value(m, p).Ok? {
      ReadLast(m, Value(m, l).value, Value(m, p).value, n, rest);
    }
  }

  lemma {:induction false} ReadLast(m: Matcher, l: Datum, pos: Datum, n: Expr, rest: seq<string>)
    requires Fits(n, 6)
    ensures ReadLength(m, l, pos, Args(n) + rest)
         == if Value(m, n).Ok? then Ok(Read(ApplySubstr(l, pos, Value(m, n).value), rest)) else Fail(Value(m, n).error)
    decreases n, 10
  {
    hide ApplySubstr;
    ReadOperand(m, n, rest);
  }

  // ---------- a whole run ----------

  /** What expr makes of its arguments. */
  function Run(m: Matcher, args: seq<string>): Outcome<Datum>
  {
    if args == [] then Fail(TooFew)
    else match ReadLevel(m, args, 0)
      case Fail(e) => Fail(e)
      case Ok(a) => if a.rest != [] then Fail(Syntax) else Ok(a.value)
  }

  lemma {:induction false} ArgsSome(t: Expr)
    ensures Args(t) != []
  {
    match t
    case Binary(op, l, r) => ArgsSome(l);
    case _ =>
  }

  /** Every tree that fits is read as itself: its value, or its first failure. */
  lemma {:induction false} RunReads(m: Matcher, t: Expr)
    requires Fits(t, 0)
    ensures Run(m, Args(t)) == Value(m, t)
  {
    hide Value, ReadLevel, Fits, Args;
    ArgsSome(t);
    assert Args(t) + [] == Args(t);
    ReadWritten(m, t, 0, []);
    AfterQuiet(m, Value(m, t), [], 0);
  }

  /** Every tree at all, written with the parentheses and quotes it needs, evaluates to its value. */
  lemma {:induction false} RunRenders(m: Matcher, t: Expr)
    ensures Run(m, Args(Render(t, 0))) == Value(m, t)
  {
    hide Value, Run, Fits, Args, Render;
    RenderFits(m, t, 0);
    RunReads(m, Render(t, 0));
  }

  // ---------- nothing else is read ----------

  ghost predicate IsTree(m: Matcher, t: Expr, k: nat, text: seq<string>, v: Datum)
  {
    Fits(t, k) && Args(t) == text && Value(m, t) == Ok(v)
  }

  lemma {:induction false} SomePrimary(m: Matcher, args: seq<string>) returns (t: Expr)
    requires (args != [] ==> Key(args[0]) == 0) && ReadPrimary(m, args).Ok?
    ensures var r := ReadPrimary(m, args).value; args == Args(t) + r.rest && IsTree(m, t, 6, Args(t), r.value)
    decreases |args|, 0
  {
    if args[0] == "(" {
      var e := SomeLevel(m, args[1..], 0);
      t := Parens(e);
      var a := ReadLevel(m, args[1..], 0).value;
      assert a.rest == [")"] + a.rest[1..];
      assert args == ["("] + args[1..];
    } else {
      t := Word(args[0]);
      assert args == [args[0]] + args[1..];
    }
  }

  lemma {:induction false} SomeKeyword(m: Matcher, args: seq<string>) returns (t: Expr)
    requires ReadKeyword(m, args).Ok?
    ensures var r := ReadKeyword(m, args).value; args == Args(t) + r.rest && IsTree(m, t, 6, Args(t), r.value)
    decreases |args|, 1
  {
    hide Key, Keyword, ReadPrimary, ReadSecond, ApplyLength;
    if args == [] || Key(args[0]) == 0 {
      t := SomePrimary(m, args);
    } else if Key(args[0]) == 1 {
      KeyBack(1, args[0]);
      t := Quote(args[1]);
      assert args == [args[0], args[1]] + args[2..];
    } else {
      var l := SomeKeyword(m, args[1..]);
      var a := ReadKeyword(m, args[1..]).value;
      assert args == [args[0]] + args[1..];
      KeyBack(Key(args[0]), args[0]);
      if Key(args[0]) == 2 {
        t := Length(l);
      } else {
        t := SomePair(m, Key(args[0]), l, a.value, a.rest);
        assert args == [args[0]] + (Args(l) + a.rest);
      }
    }
  }

  lemma {:induction false} SomePair(m: Matcher, key: nat, l: Expr, v: Datum, args: seq<string>) returns (t: Expr)
    requires 3 <= key <= 5 && ReadSecond(m, key, v, args).Ok? && IsTree(m, l, 6, Args(l), v)
    ensures var r := ReadSecond(m, key, v, args).value;
      [Keyword(key)] + (Args(l) + args) == Args(t) + r.rest && IsTree(m, t, 6, Args(t), r.value)
    decreases |args|, 3
  {
    hide Keyword, ReadKeyword, ApplyMatch, ApplyIndex, ApplySubstr, ReadLength;
    var r := SomeKeyword(m, args);
    var b := ReadKeyword(m, args).value;
    Regroup(Keyword(key), Args(l), Args(r), b.rest);
    if key == 3 {
      t := Match(l, r);
    } else if key == 4 {
      t := Index(l, r);
    } else {
      t := SomeSubstr(m, l, r, v, b.value, b.rest);
    }
  }

  lemma {:induction false} Regroup(k: string, a: seq<string>, b: seq<string>, c: seq<string>)
    ensures [k] + (a + (b + c)) == [k] + a + b + c
  {
  }

  lemma {:induction false} SomeSubstr(m: Matcher, l: Expr, p: Expr, v: Datum, pos: Datum,
      args: seq<string>) returns (t: Expr)
    requires ReadLength(m, v, pos, args).Ok? && IsTree(m, l, 6, Args(l), v) && IsTree(m, p, 6, Args(p), pos)
    ensures var r := ReadLength(m, v, pos, args).value;
      [Keyword(5)] + (Args(l) + (Args(p) + args)) == Args(t) + r.rest && IsTree(m, t, 6, Args(t), r.value)
    decreases |args|, 4
  {
    hide Keyword, ApplySubstr, ReadLength;
    var n := SomeLength(m, v, pos, args);
    t := Substr(l, p, n);
    var r := ReadLength(m, v, pos, args).value;
    assert Args(t) + r.rest == [Keyword(5)] + (Args(l) + (Args(p) + args)) by {
      Behind(t, r.rest);
      assert args == Args(n) + r.rest;
    }
  }

  lemma {:induction false} SomeLength(m: Matcher, l: Datum, pos: Datum, args: seq<string>) returns (n: Expr)
    requires ReadLength(m, l, pos, args).Ok?
    ensures args == Args(n) + ReadLength(m, l, pos, args).value.rest && Fits(n, 6)
    ensures Value(m, n).Ok? && ReadLength(m, l, pos, args).value.value == ApplySubstr(l, pos, Value(m, n).value)
    decreases |args|, 2
  {
    hide ApplySubstr, ReadKeyword, Args, Value, Fits;
    n := SomeKeyword(m, args);
  }

  lemma {:induction false} SomeLevel(m: Matcher, args: seq<string>, k: nat) returns (t: Expr)
    requires k <= 6 && ReadLevel(m, args, k).Ok?
    ensures var r := ReadLevel(m, args, k).value; args == Args(t) + r.rest && IsTree(m, t, k, Args(t), r.value)
    decreases |args|, 8 - k
  {
    if k == 6 {
      t := SomeKeyword(m, args);
    } else {
      var l := SomeLevel(m, args, k + 1);
      var a := ReadLevel(m, args, k + 1).value;
      FitsBelow(l, k);
      t := SomeTail(m, l, a.value, a.rest, k);
    }
  }

  lemma {:induction false} FitsBelow(t: Expr, k: nat)
    requires Fits(t, k + 1)
    ensures Fits(t, k)
  {
  }

  lemma {:induction false} SomeTail(m: Matcher, l: Expr, v: Datum, args: seq<string>, k: nat) returns (t: Expr)
    requires k <= 5 && IsTree(m, l, k, Args(l), v) && ReadTail(m, v, args, k).Ok?
    ensures var r := ReadTail(m, v, args, k).value;
        Args(l) + args == Args(t) + r.rest && IsTree(m, t, k, Args(t), r.value)
    decreases |args|, 9
  {
    hide Apply, OpOf, Spell;
    if !TakesOp(args, k) {
      t := l;
    } else {
      var op := OpOf(args[0]).value;
      var r := SomeLevel(m, args[1..], k + 1);
      var b := ReadLevel(m, args[1..], k + 1).value;
      var w := Apply(m, op, v, b.value).value;
      var both := Binary(op, l, r);
      assert Args(l) + args == Args(both) + b.rest by {
        assert args == [Spell(op)] + (Args(r) + b.rest);
        Associate(Args(l), [Spell(op)], Args(r) + b.rest);
        Associate(Args(l) + [Spell(op)], Args(r), b.rest);
      }
      t := SomeTail(m, both, w, b.rest, k);
    }
  }

  /** The arguments expr accepts are exactly those of trees that fit and evaluate. */
  lemma {:induction false} RunAccepts(m: Matcher, args: seq<string>, v: Datum)
    ensures Run(m, args) == Ok(v) <==> exists t :: IsTree(m, t, 0, args, v)
  {
    if Run(m, args) == Ok(v) {
      var t := SomeLevel(m, args, 0);
      assert Args(t) + [] == Args(t);
      assert IsTree(m, t, 0, args, v);
    }
    if t :| IsTree(m, t, 0, args, v) {
      RunReads(m, t);
    }
  }

  /** A syntax error means that no tree is written that way. */
  lemma {:induction false} RunRejects(m: Matcher, args: seq<string>, t: Expr)
    requires Run(m, args) == Fail(Syntax) && Fits(t, 0)
    ensures Args(t) != args
  {
    RunReads(m, t);
  }

  // ---------- the same arguments are one tree ----------

  /** The leftmost operand of a chain of operators of level k. */
  function Head(t: Expr, k: nat): (h: Expr)
    ensures h == t || (h < t && t.Binary?)
  {
    if t.Binary? && Level(t.op) == k then Head(t.l, k) else t
  }

  /** The operators of level k behind it, each with its right operand. */
  function Tail(t: Expr, k: nat): (r: seq<(Op, Expr)>)
    ensures forall i :: 0 <= i < |r| ==> r[i].1 < t
  {
    if t.Binary? && Level(t.op) == k then Tail(t.l, k) + [(t.op, t.r)] else []
  }

  function Build(h: Expr, tail: seq<(Op, Expr)>): Expr
  {
    if tail == [] then h else Binary(tail[|tail| - 1].0, Build(h, tail[..|tail| - 1]), tail[|tail| - 1].1)
  }

  function TailArgs(tail: seq<(Op, Expr)>): seq<string>
  {
    if tail == [] then [] else [Spell(tail[0].0)] + Args(tail[0].1) + TailArgs(tail[1..])
  }

  lemma {:induction false} TailArgsAppend(tail: seq<(Op, Expr)>, op: Op, r: Expr)
    ensures TailArgs(tail + [(op, r)]) == TailArgs(tail) + [Spell(op)] + Args(r)
  {
    hide Args, Spell;
    var all := tail + [(op, r)];
    if tail == [] {
      assert all[1..] == [];
      assert TailArgs(all) == [Spell(op)] + Args(r) + [];
    } else {
      TailArgsAppend(tail[1..], op, r);
      assert all[1..] == tail[1..] + [(op, r)];
      assert TailArgs(all) == [Spell(tail[0].0)] + Args(tail[0].1) + TailArgs(all[1..]);
    }
  }

  /** A tree that fits level k is a chain whose operands fit level k + 1. */
  ghost predicate Chain(tail: seq<(Op, Expr)>, k: nat)
  {
    forall i :: 0 <= i < |tail| ==> Level(tail[i].0) == k && Fits(tail[i].1, k + 1)
  }

  lemma {:induction false} ChainOf(t: Expr, k: nat)
    requires Fits(t, k) && k < 6
    ensures Build(Head(t, k), Tail(t, k)) == t && Fits(Head(t, k), k + 1) && Chain(Tail(t, k), k)
  {
    if t.Binary? && Level(t.op) == k {
      ChainOf(t.l, k);
      var tail := Tail(t, k);
      assert tail[..|tail| - 1] == Tail(t.l, k);
    }
  }

  lemma {:induction false} ChainArgs(t: Expr, k: nat)
    ensures Args(t) == Args(Head(t, k)) + TailArgs(Tail(t, k))
  {
    hide Spell, TailArgs;
    if t.Binary? && Level(t.op) == k {
      ChainArgs(t.l, k);
      TailArgsAppend(Tail(t.l, k), t.op, t.r);
      Associate(Args(Head(t.l, k)), TailArgs(Tail(t.l, k)), [Spell(t.op)] + Args(t.r));
      assert Args(t) == Args(t.l) + ([Spell(t.op)] + Args(t.r));
      assert TailArgs(Tail(t, k)) == TailArgs(Tail(t.l, k)) + ([Spell(t.op)] + Args(t.r));
    } else {
      assert TailArgs([]) == [] by { NoTail(); }
    }
  }

  lemma {:induction false} NoTail()
    ensures TailArgs([]) == []
  {
  }

  /** Two trees whose arguments agree, with quiet text behind them, are the same. */
  lemma {:induction false} SameTree(t: Expr, x: seq<string>, u: Expr, y: seq<string>, k: nat)
    requires k <= 6 && Fits(t, k) && Fits(u, k) && Args(t) + x == Args(u) + y && Quiet(x, k) && Quiet(y, k)
    ensures t == u && x == y
    decreases t, 9 - k
  {
    hide Args, Spell, OpOf, Quiet, Build;
    if k == 6 {
      SameUnit(t, x, u, y);
    } else {
      var p, q := Tail(t, k), Tail(u, k);
      Split(t, x, k);
      Split(u, y, k);
      hide Fits, Head, Tail, Chain, TailArgs;
      SameTree(Head(t, k), TailArgs(p) + x, Head(u, k), TailArgs(q) + y, k + 1);
      SameTail(t, p, x, q, y, k);
    }
  }

  lemma {:induction false} Split(t: Expr, x: seq<string>, k: nat)
    requires k < 6 && Fits(t, k) && Quiet(x, k)
    ensures Build(Head(t, k), Tail(t, k)) == t && Fits(Head(t, k), k + 1) && Chain(Tail(t, k), k)
    ensures Args(t) + x == Args(Head(t, k)) + (TailArgs(Tail(t, k)) + x) && Quiet(TailArgs(Tail(t, k)) + x, k + 1)
  {
    hide Args, Spell, OpOf, Quiet, Build, Fits, Head, Tail, Chain, TailArgs;
    ChainOf(t, k);
    ChainArgs(t, k);
    TailQuiet(Tail(t, k), x, k);
    Associate(Args(Head(t, k)), TailArgs(Tail(t, k)), x);
  }

  lemma {:induction false} Associate(a: seq<string>, b: seq<string>, c: seq<string>)
    ensures a + b + c == a + (b + c)
  {
  }

  lemma {:induction false} TailQuiet(tail: seq<(Op, Expr)>, x: seq<string>, k: nat)
    requires Chain(tail, k) && Quiet(x, k)
    ensures Quiet(TailArgs(tail) + x, k + 1)
  {
    hide OpOf, Spell, Args;
    if tail != [] {
      SpellBack(tail[0].0);
    } else {
      assert TailArgs(tail) + x == x;
    }
  }

  /** t bounds the operands that are compared. */
  lemma {:induction false} SameTail(t: Expr, p: seq<(Op, Expr)>, x: seq<string>, q: seq<(Op, Expr)>, y: seq<string>,
      k: nat)
    requires k < 6 && Chain(p, k) && Chain(q, k) && Quiet(x, k) && Quiet(y, k) && TailArgs(p) + x == TailArgs(q) + y
    requires forall i :: 0 <= i < |p| ==> p[i].1 < t
    ensures p == q && x == y
    decreases t, 0, |p|
  {
    hide Spell, OpOf, Args, Fits;
    if p == [] || q == [] {
      OneEmpty(p, x, q, y, k);
    } else {
      var xs, ys := TailArgs(p[1..]) + x, TailArgs(q[1..]) + y;
      assert TailArgs(p) + x == [Spell(p[0].0)] + (Args(p[0].1) + xs);
      assert TailArgs(q) + y == [Spell(q[0].0)] + (Args(q[0].1) + ys);
      assert ([Spell(p[0].0)] + (Args(p[0].1) + xs))[1..] == Args(p[0].1) + xs;
      assert ([Spell(q[0].0)] + (Args(q[0].1) + ys))[1..] == Args(q[0].1) + ys;
      assert Spell(p[0].0) == Spell(q[0].0);
      SpellBack(p[0].0);
      SpellBack(q[0].0);
      assert Chain(p[1..], k) && Chain(q[1..], k);
      TailQuiet(p[1..], x, k);
      TailQuiet(q[1..], y, k);
      SameTree(p[0].1, xs, q[0].1, ys, k + 1);
      SameTail(t, p[1..], x, q[1..], y, k);
      assert p == [p[0]] + p[1..] && q == [q[0]] + q[1..];
    }
  }

  lemma {:induction false} OneEmpty(p: seq<(Op, Expr)>, x: seq<string>, q: seq<(Op, Expr)>, y: seq<string>, k: nat)
    requires Chain(p, k) && Chain(q, k) && Quiet(x, k) && Quiet(y, k) && TailArgs(p) + x == TailArgs(q) + y
        && (p == [] || q == [])
    ensures p == q && x == y
  {
    hide Spell, OpOf, Args, Fits;
    assert p == [] ==> TailArgs(p) + x == x;
    assert q == [] ==> TailArgs(q) + y == y;
    if p != [] {
      SpellBack(p[0].0);
    } else if q != [] {
      SpellBack(q[0].0);
    }
  }

  /** Operands of keywords are told apart by their first token. */
  lemma {:induction false} SameUnit(t: Expr, x: seq<string>, u: Expr, y: seq<string>)
    requires Fits(t, 6) && Fits(u, 6) && Args(t) + x == Args(u) + y
    ensures t == u && x == y
    decreases t, 2
  {
    SameFirst(t, x, u, y);
    hide Key, Keyword, Args, NeedsQuote;
    match t
    case Word(s) => SameWords(t, x, u, y);
    case Quote(s) => SameWords(t, x, u, y);
    case Parens(e) => SameParens(e, x, u.e, y);
    case Length(e) =>
      Behind(t, x);
      Behind(u, y);
      SameTree(e, x, u.e, y, 6);
    case Match(l, r) =>
      Behind(t, x);
      Behind(u, y);
      SameTwo(t, l, r, x, u.l, u.r, y);
    case Index(l, r) =>
      Behind(t, x);
      Behind(u, y);
      SameTwo(t, l, r, x, u.l, u.r, y);
    case Substr(l, p, n) =>
      Behind(t, x);
      Behind(u, y);
      SameTwo(t, l, p, Args(n) + x, u.l, u.pos, Args(u.len) + y);
      SameTree(n, x, u.len, y, 6);
  }

  /** The same first token means the same constructor. */
  lemma {:induction false} SameFirst(t: Expr, x: seq<string>, u: Expr, y: seq<string>)
    requires Fits(t, 6) && Fits(u, 6) && Args(t) + x == Args(u) + y
    ensures (t.Word? <==> u.Word?) && (t.Quote? <==> u.Quote?) && (t.Parens? <==> u.Parens?)
        && (t.Length? <==> u.Length?)
    ensures (t.Match? <==> u.Match?) && (t.Index? <==> u.Index?) && (t.Substr? <==> u.Substr?) && !t.Binary?
        && !u.Binary?
  {
    hide Key, Keyword, Args, Fits;
    FirstToken(t);
    FirstToken(u);
    assert (Args(t) + x)[0] == Args(t)[0] && (Args(u) + y)[0] == Args(u)[0];
  }

  lemma {:induction false} SameWords(t: Expr, x: seq<string>, u: Expr, y: seq<string>)
    requires ((t.Word? && u.Word?) || (t.Quote? && u.Quote?)) && Args(t) + x == Args(u) + y
    ensures t == u && x == y
  {
    hide Keyword;
    var n := if t.Word? then 1 else 2;
    assert (Args(t) + x)[n - 1] == t.s && (Args(u) + y)[n - 1] == u.s;
    assert (Args(t) + x)[n..] == x && (Args(u) + y)[n..] == y;
  }

  /** What stands behind a keyword. */
  lemma {:induction false} Behind(t: Expr, x: seq<string>)
    requires t.Length? || t.Match? || t.Index? || t.Substr?
    ensures t.Length? ==> (Args(t) + x)[1..] == Args(t.e) + x
    ensures t.Match? ==> (Args(t) + x)[1..] == Args(t.l) + (Args(t.r) + x)
    ensures t.Index? ==> (Args(t) + x)[1..] == Args(t.l) + (Args(t.r) + x)
    ensures t.Substr? ==> (Args(t) + x)[1..] == Args(t.l) + (Args(t.pos) + (Args(t.len) + x))
  {
    hide Keyword;
    match t
    case Length(e) => assert Args(t) == [Keyword(2)] + Args(e);
    case Match(l, r) => assert Args(t) == [Keyword(3)] + Args(l) + Args(r);
    case Index(l, r) => assert Args(t) == [Keyword(4)] + Args(l) + Args(r);
    case Substr(l, p, n) => assert Args(t) == [Keyword(5)] + Args(l) + Args(p) + Args(n);
  }

  lemma {:induction false} SameParens(e: Expr, x: seq<string>, f: Expr, y: seq<string>)
    requires Fits(e, 0) && Fits(f, 0) && Args(Parens(e)) + x == Args(Parens(f)) + y
    ensures e == f && x == y
    decreases e, 10
  {
    assert (Args(Parens(e)) + x)[1..] == Args(e) + ([")"] + x);
    assert (Args(Parens(f)) + y)[1..] == Args(f) + ([")"] + y);
    SameTree(e, [")"] + x, f, [")"] + y, 0);
    assert ([")"] + x)[1..] == x && ([")"] + y)[1..] == y;
  }

  /** t bounds the operands that are compared. */
  lemma {:induction false} SameTwo(t: Expr, l: Expr, r: Expr, x: seq<string>, m: Expr, s: Expr, y: seq<string>)
    requires l < t && r < t && Fits(l, 6) && Fits(r, 6) && Fits(m, 6) && Fits(s, 6)
        && Args(l) + (Args(r) + x) == Args(m) + (Args(s) + y)
    ensures l == m && r == s && x == y
    decreases t, 1
  {
    SameTree(l, Args(r) + x, m, Args(s) + y, 6);
    SameTree(r, x, s, y, 6);
  }

  /** What a unit starts with tells which constructor made it. */
  lemma {:induction false} FirstToken(t: Expr)
    requires Fits(t, 6)
    ensures !t.Binary? && Args(t) != []
    ensures var w := Args(t)[0];
      && (t.Word? <==> Key(w) == 0 && w != "(")
      && (t.Parens? <==> w == "(")
      && (t.Quote? <==> Key(w) == 1) && (t.Length? <==> Key(w) == 2) && (t.Match? <==> Key(w) == 3)
      && (t.Index? <==> Key(w) == 4) && (t.Substr? <==> Key(w) == 5)
  {
    hide Key, Keyword;
    KeyBack(1, Keyword(1));
    KeyBack(2, Keyword(2));
    KeyBack(3, Keyword(3));
    KeyBack(4, Keyword(4));
    KeyBack(5, Keyword(5));
    assert Key("(") == 0 by { NoKey(); }
  }

  lemma {:induction false} NoKey()
    ensures Key("(") == 0
  {
  }

  /** The same arguments never stand for two trees. */
  lemma {:induction false} Unambiguous(t: Expr, u: Expr)
    requires Fits(t, 0) && Fits(u, 0) && Args(t) == Args(u)
    ensures t == u
  {
    hide Fits, Args;
    assert Args(t) + [] == Args(t) && Args(u) + [] == Args(u);
    SameTree(t, [], u, [], 0);
  }
}
