/** add_split_dependencies: the text of a dependency field, and the edges it becomes. */
module DpkgParse {
  import opened Bits
  import opened Options
  import opened DebianVersion
  import opened DpkgTables
  import opened DpkgDeps

  const COMMA: byte := 44
  const BAR: byte := 124
  const OPEN: byte := 40
  const CLOSE: byte := 41
  const LESS: byte := 60
  const EQUAL: byte := 61
  const MORE: byte := 62

  /** strtok with one delimiter: the maximal stretches without it. */
  function Tokens(s: seq<byte>, d: byte): seq<seq<byte>>
    decreases |s|
  {
    if s == [] then []
    else if s[0] == d then Tokens(s[1..], d)
    else
      var n := Find(s, d, 0);
      [s[..n]] + Tokens(s[n..], d)
  }

  /** field += strspn(field, " "). */
  function Strip(s: seq<byte>): seq<byte>
  {
    s[Spaces(s)..]
  }

  /** How many leading characters of s are in set. */
  function Span(s: seq<byte>, accepted: set<byte>): (n: nat)
    ensures n <= |s| && (forall i :: 0 <= i < n ==> s[i] in accepted) && (n < |s| ==> s[n] !in accepted)
  {
    if s == [] || s[0] !in accepted then 0 else 1 + Span(s[1..], accepted)
  }

  /** How many leading characters of s are not in set. */
  function SpanNot(s: seq<byte>, rejected: set<byte>): (n: nat)
    ensures n <= |s| && (forall i :: 0 <= i < n ==> s[i] !in rejected) && (n < |s| ==> s[n] in rejected)
  {
    if s == [] || s[0] in rejected then 0 else 1 + SpanNot(s[1..], rejected)
  }

  /** The operator that n operator characters spell, compared as strncmp does: a single '<' or '>' counts as a double
      one. */
  function ParseOperator(op: seq<byte>): Option<Operator>
  {
    if op == [EQUAL] then Some(VerEqual)
    else if op == [LESS] || op == [LESS, LESS] then Some(VerLess)
    else if op == [LESS, EQUAL] then Some(VerLessEqual)
    else if op == [MORE] || op == [MORE, MORE] then Some(VerMore)
    else if op == [MORE, EQUAL] then Some(VerMoreEqual)
    else None
  }

  function Any(): seq<byte>
  {
    [65, 78, 89]
  }

  /** The version behind an operator: up to a space or a closing parenthesis. */
  function VersionWord(s: seq<byte>): seq<byte>
  {
    var t := Strip(s);
    t[..SpanNot(t, {SPACE, CLOSE})]
  }

  /** Operator and version, from the operator on. None stands for an illegal operator, and for a version clause without
      one, whose operator the code leaves undefined. */
  function ParseConstraint(v: seq<byte>): Option<(Operator, seq<byte>)>
  {
    var k := Span(v, {LESS, EQUAL, MORE});
    match ParseOperator(v[..k])
    case None => None
    case Some(op) => Some((op, VersionWord(v[k..])))
  }

  /** What stands behind the first opening parenthesis of f. */
  function ConstraintText(f: seq<byte>): seq<byte>
  {
    var v := f[Find(f, OPEN, 0)..];
    v[Span(v, {SPACE, OPEN})..]
  }

  function NameWord(f: seq<byte>): seq<byte>
  {
    f[..SpanNot(f, {SPACE, OPEN})]
  }

  /** One alternative, from its first character that is not a space on. */
  function ParseAlternative(f: seq<byte>, kind: EdgeType): Option<Edge>
  {
    if OPEN !in f then Some(Edge(kind, VerAny, NameWord(f), Any(), 0))
    else match ParseConstraint(ConstraintText(f))
      case None => None
      case Some(c) => Some(Edge(kind, c.0, NameWord(f), c.1, 0))
  }

  function ParseAlternatives(toks: seq<seq<byte>>, kind: EdgeType): Option<seq<Edge>>
  {
    if toks == [] then Some([])
    else match ParseAlternative(Strip(toks[0]), kind)
      case None => None
      case Some(e) => match ParseAlternatives(toks[1..], kind)
        case None => None
        case Some(es) => Some([e] + es)
  }

  function OrKind(kind: EdgeType): EdgeType
  {
    if kind.PreDepends? then OrPreDepends else OrDepends
  }

  /** One comma-separated field. A blank one has no alternatives; the code does not survive it. */
  function ParseField(tok: seq<byte>, kind: EdgeType): Option<seq<Edge>>
  {
    var field := Strip(tok);
    var toks := Tokens(field, BAR);
    if toks == [] then None
    else match ParseAlternatives(toks, kind)
      case None => None
      case Some(es) =>
        if (kind.Depends? || kind.PreDepends?) && field != toks[0]
        then Some([Edge(OrKind(kind), VerNull, field, [], |toks|)] + es)
        else Some(es)
  }

  function ParseFields(toks: seq<seq<byte>>, kind: EdgeType): Option<seq<Edge>>
  {
    if toks == [] then Some([])
    else match ParseField(toks[0], kind)
      case None => None
      case Some(es) => match ParseFields(toks[1..], kind)
        case None => None
        case Some(fs) => Some(es + fs)
  }

  /** add_split_dependencies: the edges of a whole line. */
  function ParseLine(line: seq<byte>, kind: EdgeType): Option<seq<Edge>>
  {
    var toks := Tokens(line, COMMA);
    if toks == [] then None else ParseFields(toks, kind)
  }

  // ---------- what the parser makes is well formed ----------

  lemma {:induction false} AlternativesKind(toks: seq<seq<byte>>, kind: EdgeType)
    requires ParseAlternatives(toks, kind).Some?
    ensures var es := ParseAlternatives(toks, kind).value;
        |es| == |toks| && forall i :: 0 <= i < |es| ==> es[i].kind == kind
  {
    hide ParseAlternative;
    if toks != [] {
      AlternativeKindIs(Strip(toks[0]), kind);
      AlternativesKind(toks[1..], kind);
    }
  }

  lemma {:induction false} AlternativeKindIs(f: seq<byte>, kind: EdgeType)
    requires ParseAlternative(f, kind).Some?
    ensures ParseAlternative(f, kind).value.kind == kind
  {
  }

  lemma {:induction false} PlainFormed(es: seq<Edge>, rest: seq<Edge>)
    requires (forall i :: 0 <= i < |es| ==> !IsOr(es[i])) && Formed(rest)
    ensures Formed(es + rest)
  {
    if es == [] {
      assert es + rest == rest;
    } else {
      assert (es + rest)[1..] == es[1..] + rest;
      PlainFormed(es[1..], rest);
    }
  }

  /** A field's edges in front of well-formed ones. */
  lemma {:induction false} FieldFormed(tok: seq<byte>, kind: EdgeType, rest: seq<Edge>)
    requires ParseField(tok, kind).Some? && !kind.OrDepends? && !kind.OrPreDepends? && Formed(rest)
    ensures Formed(ParseField(tok, kind).value + rest)
  {
    hide ParseAlternatives, Tokens;
    var toks := Tokens(Strip(tok), BAR);
    AlternativesKind(toks, kind);
    var es := ParseAlternatives(toks, kind).value;
    var all := ParseField(tok, kind).value;
    if all == es {
      PlainFormed(es, rest);
    } else {
      var whole := all + rest;
      assert whole[|toks| + 1..] == rest;
      assert forall i :: 1 <= i <= |toks| ==> whole[i] == es[i - 1];
    }
  }

  lemma {:induction false} FieldsFormed(toks: seq<seq<byte>>, kind: EdgeType)
    requires ParseFields(toks, kind).Some? && !kind.OrDepends? && !kind.OrPreDepends?
    ensures Formed(ParseFields(toks, kind).value)
  {
    hide ParseField;
    if toks != [] {
      FieldsFormed(toks[1..], kind);
      FieldFormed(toks[0], kind, ParseFields(toks[1..], kind).value);
    }
  }

  ghost predicate VersionsOk(es: seq<Edge>)
  {
    forall i :: 0 <= i < |es| ==> NoNul(es[i].version)
  }

  lemma {:induction false} TokensNoNul(s: seq<byte>, d: byte)
    requires NoNul(s)
    ensures forall i :: 0 <= i < |Tokens(s, d)| ==> NoNul(Tokens(s, d)[i])
    decreases |s|
  {
    if s != [] {
      if s[0] == d {
        TokensNoNul(s[1..], d);
      } else {
        TokensNoNul(s[Find(s, d, 0)..], d);
      }
    }
  }

  lemma {:induction false} AlternativesNoNul(toks: seq<seq<byte>>, kind: EdgeType)
    requires ParseAlternatives(toks, kind).Some? && forall i :: 0 <= i < |toks| ==> NoNul(toks[i])
    ensures VersionsOk(ParseAlternatives(toks, kind).value)
  {
    hide ParseAlternative;
    if toks != [] {
      assert NoNul(Strip(toks[0]));
      AlternativeNoNul(Strip(toks[0]), kind);
      AlternativesNoNul(toks[1..], kind);
    }
  }

  lemma {:induction false} SliceNoNul(s: seq<byte>, n: nat)
    requires NoNul(s) && n <= |s|
    ensures NoNul(s[..n]) && NoNul(s[n..])
  {
  }

  lemma {:induction false} AlternativeNoNul(f: seq<byte>, kind: EdgeType)
    requires ParseAlternative(f, kind).Some? && NoNul(f)
    ensures NoNul(ParseAlternative(f, kind).value.version)
  {
    assert NoNul(Any());
    hide Any, ParseConstraint, ConstraintText, NameWord;
    if OPEN in f {
      ConstraintNoNul(f);
    }
  }

  lemma {:induction false} ConstraintNoNul(f: seq<byte>)
    requires NoNul(f)
    ensures NoNul(ConstraintText(f))
    ensures var c := ParseConstraint(ConstraintText(f)); c.Some? ==> NoNul(c.value.1)
  {
    hide NoNul, ParseOperator, VersionWord;
    var p := Find(f, OPEN, 0);
    SliceNoNul(f, p);
    SliceNoNul(f[p..], Span(f[p..], {SPACE, OPEN}));
    var v := ConstraintText(f);
    hide ConstraintText;
    SliceNoNul(v, Span(v, {LESS, EQUAL, MORE}));
    VersionNoNul(v[Span(v, {LESS, EQUAL, MORE})..]);
  }

  lemma {:induction false} VersionNoNul(s: seq<byte>)
    requires NoNul(s)
    ensures NoNul(VersionWord(s))
  {
  }

  lemma {:induction false} FieldsNoNul(toks: seq<seq<byte>>, kind: EdgeType)
    requires ParseFields(toks, kind).Some? && forall i :: 0 <= i < |toks| ==> NoNul(toks[i])
    ensures VersionsOk(ParseFields(toks, kind).value)
  {
    hide ParseAlternatives, Tokens;
    if toks != [] {
      TokensNoNul(Strip(toks[0]), BAR);
      AlternativesNoNul(Tokens(Strip(toks[0]), BAR), kind);
      FieldsNoNul(toks[1..], kind);
    }
  }

  /** What a line is parsed into, the dependency check can take. */
  lemma {:induction false} LineFormed(line: seq<byte>, kind: EdgeType)
    requires ParseLine(line, kind).Some? && NoNul(line) && !kind.OrDepends? && !kind.OrPreDepends?
    ensures EdgesFormed(ParseLine(line, kind).value)
  {
    hide ParseFields, Tokens, NoNul;
    TokensNoNul(line, COMMA);
    FieldsFormed(Tokens(line, COMMA), kind);
    FieldsNoNul(Tokens(line, COMMA), kind);
  }

  lemma {:induction false} FormedAppend(es: seq<Edge>, fs: seq<Edge>)
    requires EdgesFormed(es) && EdgesFormed(fs)
    ensures EdgesFormed(es + fs)
  {
    JoinFormed(es, fs);
  }

  lemma {:induction false} JoinFormed(es: seq<Edge>, fs: seq<Edge>)
    requires Formed(es) && Formed(fs)
    ensures Formed(es + fs)
    decreases |es|
  {
    hide AlternativeKind;
    var all := es + fs;
    if es == [] {
      assert all == fs;
    } else if IsOr(es[0]) {
      var n := es[0].count + 1;
      JoinFormed(es[n..], fs);
      assert all[n..] == es[n..] + fs;
      assert forall i :: 1 <= i < n ==> all[i] == es[i];
      hide IsOr;
      assert all[0] == es[0];
    } else {
      JoinFormed(es[1..], fs);
      assert all[1..] == es[1..] + fs;
    }
  }

  /** Edges of several lines are accepted when each line's are. */
  lemma {:induction false} AcceptsJoin(pe: seq<Option<Package>>, se: seq<Option<Status>>, es: seq<Edge>, fs: seq<Edge>)
    requires Formed(es) && Formed(fs)
    ensures Formed(es + fs) && (Accepts(pe, se, es + fs) <==> Accepts(pe, se, es) && Accepts(pe, se, fs))
    decreases |es|
  {
    hide Met;
    JoinFormed(es, fs);
    var all := es + fs;
    if es == [] {
      assert all == fs;
    } else {
      var n := if IsOr(es[0]) then es[0].count + 1 else 1;
      AcceptsJoin(pe, se, es[n..], fs);
      assert all[n..] == es[n..] + fs;
      assert forall i :: 0 <= i < n ==> all[i] == es[i];
    }
  }

  /** add_split_dependencies appends the edges of a line to those of a node, field by field and alternative by
      alternative. */
  method AddSplitDependencies(edges: seq<Edge>, line: seq<byte>, kind: EdgeType) returns (r: Option<seq<Edge>>)
    ensures ParseLine(line, kind).None? ==> r.None?
    ensures ParseLine(line, kind).Some? ==> r == Some(edges + ParseLine(line, kind).value)
    ensures r.Some? && EdgesFormed(edges) && NoNul(line) && !kind.OrDepends? && !kind.OrPreDepends? ==>
        EdgesFormed(r.value)
  {
    hide ParseField, Tokens, EdgesFormed, NoNul;
    if EdgesFormed(edges) && NoNul(line) && !kind.OrDepends? && !kind.OrPreDepends? && ParseLine(line, kind).Some? {
      LineFormed(line, kind);
      FormedAppend(edges, ParseLine(line, kind).value);
    }
    var fields := Tokens(line, COMMA);
    if fields == [] {
      return None;
    }
    var es, i := edges, 0;
    assert fields[0..] == fields;
    while i < |fields|
      invariant i <= |fields| && edges <= es
      invariant ParseFields(fields, kind).None? <==> ParseFields(fields[i..], kind).None?
      invariant ParseFields(fields, kind).Some? ==>
          edges + ParseFields(fields, kind).value == es + ParseFields(fields[i..], kind).value
    {
      assert fields[i..][0] == fields[i] && fields[i..][1..] == fields[i + 1..];
      var field := AddField(fields[i], kind);
      if field == None {
        return None;
      }
      es := es + field.value;
      i := i + 1;
    }
    assert fields[i..] == [] && es + [] == es;
    r := Some(es);
  }

  method AddField(tok: seq<byte>, kind: EdgeType) returns (r: Option<seq<Edge>>)
    ensures r == ParseField(tok, kind)
  {
    hide ParseAlternative, Tokens;
    var field := Strip(tok);
    var toks := Tokens(field, BAR);
    if toks == [] {
      return None;
    }
    var es, j := [], 0;
    assert toks[0..] == toks;
    while j < |toks|
      invariant j <= |toks|
      invariant ParseAlternatives(toks, kind).None? <==> ParseAlternatives(toks[j..], kind).None?
      invariant ParseAlternatives(toks, kind).Some? ==>
          ParseAlternatives(toks, kind).value == es + ParseAlternatives(toks[j..], kind).value
    {
      assert toks[j..][0] == toks[j] && toks[j..][1..] == toks[j + 1..];
      var e := ParseAlternative(Strip(toks[j]), kind);
      if e == None {
        return None;
      }
      es := es + [e.value];
      j := j + 1;
    }
    assert toks[j..] == [] && es + [] == es;
    if (kind.Depends? || kind.PreDepends?) && field != toks[0] {
      r := Some([Edge(OrKind(kind), VerNull, field, [], j)] + es);
    } else {
      r := Some(es);
    }
  }

  // ---------- parsing undoes writing ----------

  /** An alternative as a control file states it. */
  datatype Alternative = Alternative(name: seq<byte>, clause: Option<(Operator, seq<byte>)>)

  predicate Free(s: seq<byte>, rejected: set<byte>)
  {
    forall i :: 0 <= i < |s| ==> s[i] !in rejected
  }

  predicate AlternativeOk(a: Alternative)
  {
    && a.name != [] && Free(a.name, {COMMA, BAR, SPACE, OPEN})
    && (a.clause.Some? ==>
       !a.clause.value.0.VerNull? && !a.clause.value.0.VerAny? && Free(a.clause.value.1, {COMMA, BAR, SPACE, CLOSE}))
  }

  function WriteOperator(op: Operator): seq<byte>
  {
    match op
    case VerEqual => ['=' as int]
    case VerLess => ['<' as int, '<' as int]
    case VerLessEqual => ['<' as int, '=' as int]
    case VerMore => ['>' as int, '>' as int]
    case VerMoreEqual => ['>' as int, '=' as int]
    case _ => []
  }

  function Write(a: Alternative): seq<byte>
  {
    if a.clause.None? then a.name
    else
      var clause := WriteOperator(a.clause.value.0) + ([' ' as int] + (a.clause.value.1 + [')' as int]));
      a.name + ([' ' as int, '(' as int] + clause)
  }

  function EdgeOf(a: Alternative, kind: EdgeType): Edge
  {
    if a.clause.None? then Edge(kind, VerAny, a.name, Any(), 0)
    else Edge(kind, a.clause.value.0, a.name, a.clause.value.1, 0)
  }

  /** Pieces joined by a delimiter. */
  function Glue(ps: seq<seq<byte>>, d: byte): seq<byte>
  {
    if |ps| <= 1 then (if ps == [] then [] else ps[0]) else ps[0] + ([d] + Glue(ps[1..], d))
  }

  lemma {:induction false} TokensGlue(ps: seq<seq<byte>>, d: byte)
    requires forall i :: 0 <= i < |ps| ==> ps[i] != [] && d !in ps[i]
    ensures Tokens(Glue(ps, d), d) == ps
  {
    if |ps| == 1 {
      OneToken(ps[0], [], d);
      assert ps[0] + [] == ps[0] && [ps[0]] + [] == ps;
    } else if |ps| > 1 {
      TokensGlue(ps[1..], d);
      OneToken(ps[0], [d] + Glue(ps[1..], d), d);
      assert ([d] + Glue(ps[1..], d))[1..] == Glue(ps[1..], d);
    }
  }

  lemma {:induction false} OneToken(p: seq<byte>, rest: seq<byte>, d: byte)
    requires p != [] && d !in p && (rest == [] || rest[0] == d)
    ensures Tokens(p + rest, d) == [p] + Tokens(rest, d)
  {
    var s := p + rest;
    assert s[0] == p[0];
    assert forall i :: 0 <= i < |p| ==> s[i] == p[i];
    assert rest != [] ==> s[|p|] == d;
    assert Find(s, d, 0) == |p|;
    assert s[..|p|] == p && s[|p|..] == rest;
  }

  /** The pieces of a list of alternatives between bars: a space on each side of every bar. */
  function Padded(alts: seq<Alternative>, first: bool): seq<seq<byte>>
  {
    if alts == [] then []
    else
      var back := if |alts| > 1 then [SPACE] else [];
      [(if first then [] else [SPACE]) + (Write(alts[0]) + back)] + Padded(alts[1..], false)
  }

  function WriteField(alts: seq<Alternative>): seq<byte>
  {
    Glue(Padded(alts, true), '|' as int)
  }

  /** The pieces of a line between commas: a space behind every comma. */
  function Fields(cs: seq<seq<Alternative>>, first: bool): seq<seq<byte>>
  {
    if cs == [] then [] else [(if first then [] else [SPACE]) + WriteField(cs[0])] + Fields(cs[1..], false)
  }

  function WriteLine(cs: seq<seq<Alternative>>): seq<byte>
  {
    Glue(Fields(cs, true), ',' as int)
  }

  function EdgesOf(alts: seq<Alternative>, kind: EdgeType): seq<Edge>
  {
    if alts == [] then [] else [EdgeOf(alts[0], kind)] + EdgesOf(alts[1..], kind)
  }

  /** A field as edges: an OR edge in front of several alternatives of a dependency. */
  function FieldEdges(alts: seq<Alternative>, kind: EdgeType): seq<Edge>
  {
    if |alts| > 1 && (kind.Depends? || kind.PreDepends?)
    then [Edge(OrKind(kind), VerNull, WriteField(alts), [], |alts|)] + EdgesOf(alts, kind)
    else EdgesOf(alts, kind)
  }

  function LineEdges(cs: seq<seq<Alternative>>, kind: EdgeType): seq<Edge>
  {
    if cs == [] then [] else FieldEdges(cs[0], kind) + LineEdges(cs[1..], kind)
  }

  ghost predicate FieldOk(alts: seq<Alternative>)
  {
    alts != [] && forall i :: 0 <= i < |alts| ==> AlternativeOk(alts[i])
  }

  lemma {:induction false} OperatorRoundTrip(op: Operator)
    requires !op.VerNull? && !op.VerAny?
    ensures ParseOperator(WriteOperator(op)) == Some(op) && WriteOperator(op) != []
    ensures Free(WriteOperator(op), {COMMA, BAR, SPACE, OPEN, CLOSE}) && forall i :: 0 <= i < |WriteOperator(op)| ==>
        WriteOperator(op)[i] in {LESS, EQUAL, MORE}
  {
  }

  lemma {:induction false} SpanIs(s: seq<byte>, accepted: set<byte>, n: nat)
    requires n <= |s| && (forall i :: 0 <= i < n ==> s[i] in accepted) && (n < |s| ==> s[n] !in accepted)
    ensures Span(s, accepted) == n
  {
  }

  lemma {:induction false} SpanNotIs(s: seq<byte>, rejected: set<byte>, n: nat)
    requires n <= |s| && (forall i :: 0 <= i < n ==> s[i] !in rejected) && (n < |s| ==> s[n] in rejected)
    ensures SpanNot(s, rejected) == n
  {
  }

  lemma {:induction false} FindIs(s: seq<byte>, c: byte, n: nat)
    requires n <= |s| && (forall i :: 0 <= i < n ==> s[i] != c) && (n < |s| ==> s[n] == c)
    ensures Find(s, c, 0) == n
  {
  }

  /** The tail behind an alternative is the space in front of a bar, or nothing. */
  predicate Tail(tail: seq<byte>)
  {
    tail == [] || tail == [SPACE]
  }

  lemma {:induction false} NameWritten(name: seq<byte>, rest: seq<byte>)
    requires Free(name, {COMMA, BAR, SPACE, OPEN}) && (rest != [] ==> rest[0] in {SPACE, OPEN})
    ensures NameWord(name + rest) == name
  {
    SpanNotIs(name + rest, {SPACE, OPEN}, |name|);
    assert (name + rest)[..|name|] == name;
  }

  lemma {:induction false} ParsePlain(name: seq<byte>, tail: seq<byte>, kind: EdgeType)
    requires name != [] && Free(name, {COMMA, BAR, SPACE, OPEN}) && Tail(tail)
    ensures ParseAlternative(name + tail, kind) == Some(Edge(kind, VerAny, name, Any(), 0))
  {
    hide NameWord;
    NameWritten(name, tail);
  }

  lemma {:induction false} ConstraintWritten(op: Operator, version: seq<byte>, tail: seq<byte>)
    requires !op.VerNull? && !op.VerAny? && Free(version, {COMMA, BAR, SPACE, CLOSE})
    ensures ParseConstraint(WriteOperator(op) + ([SPACE] + (version + ([CLOSE] + tail)))) == Some((op, version))
  {
    hide ParseOperator, WriteOperator, Strip;
    OperatorRoundTrip(op);
    var o := WriteOperator(op);
    var v2 := version + ([CLOSE] + tail);
    var v1 := o + ([SPACE] + v2);
    SpanIs(v1, {LESS, EQUAL, MORE}, |o|);
    assert v1[..|o|] == o && v1[|o|..] == [SPACE] + v2;
    StripSpace(v2);
    SpanNotIs(v2, {SPACE, CLOSE}, |version|);
    assert v2[..|version|] == version;
  }

  lemma {:induction false} ConstraintFound(name: seq<byte>, v: seq<byte>)
    requires Free(name, {COMMA, BAR, SPACE, OPEN}) && v != [] && v[0] !in {SPACE, OPEN}
    ensures ConstraintText(name + ([SPACE, OPEN] + v)) == v && OPEN in name + ([SPACE, OPEN] + v)
  {
    var f := name + ([SPACE, OPEN] + v);
    assert f[|name| + 1] == OPEN;
    FindIs(f, OPEN, |name| + 1);
    assert f[|name| + 1..] == [OPEN] + v;
    SpanIs([OPEN] + v, {SPACE, OPEN}, 1);
  }

  lemma {:induction false} ParseClause(name: seq<byte>, op: Operator, version: seq<byte>, tail: seq<byte>,
      kind: EdgeType)
    requires name != [] && Free(name, {COMMA, BAR, SPACE, OPEN}) && Tail(tail)
    requires !op.VerNull? && !op.VerAny? && Free(version, {COMMA, BAR, SPACE, CLOSE})
    ensures ParseAlternative(name
        + ([SPACE, OPEN] + (WriteOperator(op) + ([SPACE] + (version + ([CLOSE] + tail))))), kind)
         == Some(Edge(kind, op, name, version, 0))
  {
    hide ParseConstraint, ConstraintText, NameWord, WriteOperator;
    OperatorRoundTrip(op);
    var v := WriteOperator(op) + ([SPACE] + (version + ([CLOSE] + tail)));
    assert v[0] == WriteOperator(op)[0];
    NameWritten(name, [SPACE, OPEN] + v);
    ConstraintFound(name, v);
    ConstraintWritten(op, version, tail);
  }

  lemma {:induction false} StripSpace(s: seq<byte>)
    requires s != [] && s[0] != SPACE
    ensures Strip([SPACE] + s) == s && Strip(s) == s
  {
    assert ([SPACE] + s)[1..] == s;
  }

  lemma {:induction false} ParseWritten(a: Alternative, first: bool, tail: seq<byte>, kind: EdgeType)
    requires AlternativeOk(a) && Tail(tail)
    ensures ParseAlternative(Strip((if first then [] else [SPACE]) + (Write(a) + tail)), kind) == Some(EdgeOf(a, kind))
  {
    hide ParseAlternative;
    var s := Write(a) + tail;
    assert s[0] == a.name[0];
    StripSpace(s);
    assert [] + s == s;
    if a.clause.None? {
      ParsePlain(a.name, tail, kind);
    } else {
      ParseClause(a.name, a.clause.value.0, a.clause.value.1, tail, kind);
      assert s == a.name
          + ([SPACE, OPEN] + (WriteOperator(a.clause.value.0) + ([SPACE] + (a.clause.value.1 + ([CLOSE] + tail)))));
    }
  }

  lemma {:induction false} ParsePadded(alts: seq<Alternative>, first: bool, kind: EdgeType)
    requires forall i :: 0 <= i < |alts| ==> AlternativeOk(alts[i])
    ensures ParseAlternatives(Padded(alts, first), kind) == Some(EdgesOf(alts, kind))
  {
    hide ParseAlternative, Strip, Write, AlternativeOk;
    if alts != [] {
      ParseWritten(alts[0], first, if |alts| > 1 then [SPACE] else [], kind);
      ParsePadded(alts[1..], false, kind);
      assert Padded(alts, first)[1..] == Padded(alts[1..], false);
    }
  }

  lemma {:induction false} WriteFree(a: Alternative)
    requires AlternativeOk(a)
    ensures Free(Write(a), {COMMA, BAR}) && Write(a) != [] && Write(a)[0] != SPACE
  {
    if a.clause.Some? {
      OperatorRoundTrip(a.clause.value.0);
    }
  }

  /** Every piece of a field is a name in front, and neither a bar nor a comma anywhere. */
  lemma {:induction false} PaddedPieces(alts: seq<Alternative>, first: bool)
    requires forall i :: 0 <= i < |alts| ==> AlternativeOk(alts[i])
    ensures |Padded(alts, first)| == |alts|
    ensures forall i :: 0 <= i < |alts| ==> Padded(alts, first)[i] != [] && Free(Padded(alts, first)[i], {COMMA, BAR})
    ensures alts != [] && first ==> Padded(alts, first)[0][0] != SPACE
  {
    hide Write, AlternativeOk;
    if alts != [] {
      WriteFree(alts[0]);
      PaddedPieces(alts[1..], false);
    }
  }

  lemma {:induction false} GlueFree(ps: seq<seq<byte>>, d: byte, c: byte)
    requires (forall i :: 0 <= i < |ps| ==> c !in ps[i]) && c != d
    ensures c !in Glue(ps, d)
  {
    if |ps| > 1 {
      GlueFree(ps[1..], d, c);
    }
  }

  lemma {:induction false} FieldText(alts: seq<Alternative>)
    requires FieldOk(alts)
    ensures WriteField(alts) != [] && WriteField(alts)[0] != SPACE && COMMA !in WriteField(alts)
    ensures Tokens(WriteField(alts), BAR) == Padded(alts, true)
    ensures |alts| > 1 <==> WriteField(alts) != Padded(alts, true)[0]
  {
    hide Padded, AlternativeOk;
    PaddedPieces(alts, true);
    TokensGlue(Padded(alts, true), BAR);
    GlueFree(Padded(alts, true), BAR, COMMA);
  }

  lemma {:induction false} ParseFieldWritten(alts: seq<Alternative>, first: bool, kind: EdgeType)
    requires FieldOk(alts)
    ensures ParseField((if first then [] else [SPACE]) + WriteField(alts), kind) == Some(FieldEdges(alts, kind))
  {
    hide ParseAlternatives, Padded, AlternativeOk, Tokens, WriteField;
    FieldText(alts);
    var s := WriteField(alts);
    StripSpace(s);
    assert [] + s == s;
    ParsePadded(alts, true, kind);
    PaddedPieces(alts, true);
  }

  lemma {:induction false} FieldPieces(cs: seq<seq<Alternative>>, first: bool)
    requires forall i :: 0 <= i < |cs| ==> FieldOk(cs[i])
    ensures |Fields(cs, first)| == |cs|
    ensures forall i :: 0 <= i < |cs| ==> Fields(cs, first)[i] != [] && COMMA !in Fields(cs, first)[i]
  {
    hide FieldOk, WriteField;
    if cs != [] {
      FieldText(cs[0]);
      FieldPieces(cs[1..], false);
    }
  }

  lemma {:induction false} ParseFieldsWritten(cs: seq<seq<Alternative>>, first: bool, kind: EdgeType)
    requires forall i :: 0 <= i < |cs| ==> FieldOk(cs[i])
    ensures ParseFields(Fields(cs, first), kind) == Some(LineEdges(cs, kind))
  {
    hide FieldOk, WriteField, ParseField, FieldEdges;
    if cs != [] {
      ParseFieldWritten(cs[0], first, kind);
      ParseFieldsWritten(cs[1..], false, kind);
      assert Fields(cs, first)[1..] == Fields(cs[1..], false);
    }
  }

  /** A dependency written as clauses of alternatives is read back as exactly their edges. */
  lemma {:induction false} LineRoundTrip(cs: seq<seq<Alternative>>, kind: EdgeType)
    requires cs != [] && forall i :: 0 <= i < |cs| ==> FieldOk(cs[i])
    ensures ParseLine(WriteLine(cs), kind) == Some(LineEdges(cs, kind))
  {
    hide FieldOk, Fields, ParseFields, LineEdges, Tokens;
    FieldPieces(cs, true);
    TokensGlue(Fields(cs, true), COMMA);
    ParseFieldsWritten(cs, true, kind);
  }

  // ---------- what the edges of a line mean ----------

  /** Some alternative of a clause is met. */
  ghost predicate ClauseMet(pe: seq<Option<Package>>, se: seq<Option<Status>>, alts: seq<Alternative>, kind: EdgeType)
  {
    exists i :: 0 <= i < |alts| && Met(pe, se, EdgeOf(alts[i], kind))
  }

  lemma {:induction false} EdgesAt(alts: seq<Alternative>, kind: EdgeType)
    ensures |EdgesOf(alts, kind)| == |alts| && forall i :: 0 <= i < |alts| ==>
        EdgesOf(alts, kind)[i] == EdgeOf(alts[i], kind)
  {
    if alts != [] {
      EdgesAt(alts[1..], kind);
    }
  }

  lemma {:induction false} FieldAccepts(pe: seq<Option<Package>>, se: seq<Option<Status>>, alts: seq<Alternative>,
      kind: EdgeType)
    requires alts != [] && (kind.Depends? || kind.PreDepends?)
    ensures Formed(FieldEdges(alts, kind))
        && (Accepts(pe, se, FieldEdges(alts, kind)) <==> ClauseMet(pe, se, alts, kind))
  {
    hide Met, EdgesOf, WriteField;
    EdgesAt(alts, kind);
    var es := FieldEdges(alts, kind);
    if |alts| == 1 {
      assert es[1..] == [];
      assert es[0] == EdgeOf(alts[0], kind);
    } else {
      assert es[1..] == EdgesOf(alts, kind);
      ListAccepts(pe, se, es);
      hide Accepts, EdgeOf;
      assert forall i :: 0 <= i < |alts| ==> es[i + 1] == EdgeOf(alts[i], kind);
      if i :| 1 <= i <= |alts| && Met(pe, se, es[i]) {
        assert Met(pe, se, EdgeOf(alts[i - 1], kind));
      }
    }
  }

  /** An OR edge and its alternatives, nothing behind them. */
  lemma {:induction false} ListAccepts(pe: seq<Option<Package>>, se: seq<Option<Status>>, es: seq<Edge>)
    requires es != [] && IsOr(es[0]) && 1 <= es[0].count == |es| - 1
    requires forall i :: 1 <= i < |es| ==> es[i].kind == AlternativeKind(es[0].kind)
    ensures Formed(es) && (Accepts(pe, se, es) <==> exists i :: 1 <= i < |es| && Met(pe, se, es[i]))
  {
    hide Met, IsOr, AlternativeKind;
    assert es[es[0].count + 1..] == [];
  }

  /** A line's edges are accepted exactly when every clause has an alternative that is met. */
  lemma {:induction false} LineAccepts(pe: seq<Option<Package>>, se: seq<Option<Status>>, cs: seq<seq<Alternative>>,
      kind: EdgeType)
    requires (forall i :: 0 <= i < |cs| ==> cs[i] != []) && (kind.Depends? || kind.PreDepends?)
    ensures Formed(LineEdges(cs, kind))
    ensures Accepts(pe, se, LineEdges(cs, kind)) <==> forall i :: 0 <= i < |cs| ==> ClauseMet(pe, se, cs[i], kind)
  {
    hide FieldEdges, ClauseMet;
    if cs != [] {
      FieldAccepts(pe, se, cs[0], kind);
      LineAccepts(pe, se, cs[1..], kind);
      AcceptsJoin(pe, se, FieldEdges(cs[0], kind), LineEdges(cs[1..], kind));
      assert forall i :: 0 < i < |cs| ==> cs[i] == cs[1..][i - 1];
    }
  }

  // ---------- what any line means ----------

  /** Some alternative of a comma-separated field is met. */
  ghost predicate FieldMet(pe: seq<Option<Package>>, se: seq<Option<Status>>, tok: seq<byte>, kind: EdgeType)
  {
    exists i :: 0 <= i < |Tokens(Strip(tok), BAR)| && PieceMet(pe, se, Tokens(Strip(tok), BAR)[i], kind)
  }

  /** One piece between bars, read as an alternative, is met. */
  ghost predicate PieceMet(pe: seq<Option<Package>>, se: seq<Option<Status>>, piece: seq<byte>, kind: EdgeType)
  {
    var e := ParseAlternative(Strip(piece), kind);
    e.Some? && Met(pe, se, e.value)
  }

  /** A line asks for nothing unless it lists dependencies; then every field needs an alternative that is met. */
  ghost predicate LineMet(pe: seq<Option<Package>>, se: seq<Option<Status>>, line: seq<byte>, kind: EdgeType)
  {
    kind.Depends? || kind.PreDepends? ==> forall i :: 0 <= i < |Tokens(line, COMMA)| ==>
        FieldMet(pe, se, Tokens(line, COMMA)[i], kind)
  }

  lemma {:induction false} AlternativesAre(toks: seq<seq<byte>>, kind: EdgeType)
    requires ParseAlternatives(toks, kind).Some?
    ensures var es := ParseAlternatives(toks, kind).value;
            |es| == |toks| && forall i :: 0 <= i < |toks| ==> ParseAlternative(Strip(toks[i]), kind) == Some(es[i])
  {
    hide ParseAlternative, Strip;
    if toks != [] {
      AlternativesAre(toks[1..], kind);
      assert forall i :: 0 < i < |toks| ==> toks[1..][i - 1] == toks[i];
    }
  }

  /** Edges that are no dependencies ask for nothing. */
  lemma {:induction false} OthersAccepted(pe: seq<Option<Package>>, se: seq<Option<Status>>, es: seq<Edge>)
    requires forall i :: 0 <= i < |es| ==> !IsOr(es[i]) && !IsDependency(es[i])
    ensures Formed(es) && Accepts(pe, se, es)
  {
    hide Met;
    if es != [] {
      OthersAccepted(pe, se, es[1..]);
    }
  }

  lemma {:induction false} OneAccepts(pe: seq<Option<Package>>, se: seq<Option<Status>>, e: Edge)
    requires IsDependency(e)
    ensures Formed([e]) && (Accepts(pe, se, [e]) <==> Met(pe, se, e))
  {
    hide Met;
    assert [e][1..] == [];
  }

  lemma {:induction false} AnyFieldAccepts(pe: seq<Option<Package>>, se: seq<Option<Status>>, tok: seq<byte>,
      kind: EdgeType)
    requires ParseField(tok, kind).Some? && !kind.OrDepends? && !kind.OrPreDepends?
    ensures var es := ParseField(tok, kind).value;
            Formed(es) && (Accepts(pe, se, es) <==> (kind.Depends? || kind.PreDepends? ==> FieldMet(pe, se, tok, kind)))
  {
    hide ParseAlternatives, ParseAlternative, Tokens, Met, Formed, Accepts, Strip;
    var toks := Tokens(Strip(tok), BAR);
    AlternativesAre(toks, kind);
    AlternativesKind(toks, kind);
    var alts := ParseAlternatives(toks, kind).value;
    var es := ParseField(tok, kind).value;
    if !kind.Depends? && !kind.PreDepends? {
      OthersAccepted(pe, se, es);
    } else if es == alts {
      FieldIsToken(tok);
      assert es == [es[0]];
      OneAccepts(pe, se, es[0]);
      assert PieceMet(pe, se, toks[0], kind) <==> Met(pe, se, es[0]);
    } else {
      assert es[1..] == alts;
      ListAccepts(pe, se, es);
      assert forall i :: 0 <= i < |toks| ==>
          es[i + 1] == alts[i] && (PieceMet(pe, se, toks[i], kind) <==> Met(pe, se, alts[i]));
      if i :| 1 <= i < |es| && Met(pe, se, es[i]) {
        assert PieceMet(pe, se, toks[i - 1], kind);
      }
    }
  }

  /** A field that is its own first token has no other. */
  lemma {:induction false} FieldIsToken(tok: seq<byte>)
    requires Tokens(Strip(tok), BAR) != [] && Tokens(Strip(tok), BAR)[0] == Strip(tok)
    ensures |Tokens(Strip(tok), BAR)| == 1
  {
    FirstTokenAll(Strip(tok), BAR);
  }

  lemma {:induction false} FirstTokenAll(s: seq<byte>, d: byte)
    requires Tokens(s, d) != [] && Tokens(s, d)[0] == s
    ensures |Tokens(s, d)| == 1
  {
    if s[0] == d {
      TokenShort(s[1..], d);
      assert false;
    }
    assert s[Find(s, d, 0)..] == [];
  }

  lemma {:induction false} TokenShort(s: seq<byte>, d: byte)
    ensures forall i :: 0 <= i < |Tokens(s, d)| ==> |Tokens(s, d)[i]| <= |s|
    decreases |s|
  {
    if s != [] {
      TokenShort(if s[0] == d then s[1..] else s[Find(s, d, 0)..], d);
    }
  }

  lemma {:induction false} AnyFieldsAccept(pe: seq<Option<Package>>, se: seq<Option<Status>>, toks: seq<seq<byte>>,
      kind: EdgeType)
    requires ParseFields(toks, kind).Some? && !kind.OrDepends? && !kind.OrPreDepends?
    ensures var es := ParseFields(toks, kind).value;
            Formed(es) && (Accepts(pe, se, es) <==>
              (kind.Depends? || kind.PreDepends? ==> forall i :: 0 <= i < |toks| ==> FieldMet(pe, se, toks[i], kind)))
  {
    hide ParseField, FieldMet;
    if toks != [] {
      AnyFieldAccepts(pe, se, toks[0], kind);
      AnyFieldsAccept(pe, se, toks[1..], kind);
      AcceptsJoin(pe, se, ParseField(toks[0], kind).value, ParseFields(toks[1..], kind).value);
      assert forall i :: 0 < i < |toks| ==> toks[i] == toks[1..][i - 1];
    }
  }

  /** Of every line that is read at all, the edges are accepted if and only if each comma-separated field of a
      dependency has, between bars, an alternative that is met. */
  lemma {:induction false} AnyLineAccepts(pe: seq<Option<Package>>, se: seq<Option<Status>>, line: seq<byte>,
      kind: EdgeType)
    requires ParseLine(line, kind).Some? && !kind.OrDepends? && !kind.OrPreDepends?
    ensures var es := ParseLine(line, kind).value; Formed(es) && (Accepts(pe, se, es) <==> LineMet(pe, se, line, kind))
  {
    hide ParseFields, FieldMet, Tokens;
    AnyFieldsAccept(pe, se, Tokens(line, COMMA), kind);
  }

  // ---------- the lines of a package ----------

  /** A field of a control file: what it is called and what it says. */
  datatype Line = Line(kind: EdgeType, text: seq<byte>)

  ghost predicate LineOk(l: Line)
  {
    NoNul(l.text) && !l.kind.OrDepends? && !l.kind.OrPreDepends?
  }

  /** The edges that add_split_dependencies makes of several lines, one after the other. */
  function ParseLines(ls: seq<Line>): Option<seq<Edge>>
  {
    if ls == [] then Some([])
    else match ParseLines(ls[..|ls| - 1])
      case None => None
      case Some(es) => match ParseLine(ls[|ls| - 1].text, ls[|ls| - 1].kind)
        case None => None
        case Some(fs) => Some(es + fs)
  }

  lemma {:induction false} LinesAccept(pe: seq<Option<Package>>, se: seq<Option<Status>>, ls: seq<Line>)
    requires ParseLines(ls).Some? && forall i :: 0 <= i < |ls| ==> LineOk(ls[i])
    ensures EdgesFormed(ParseLines(ls).value)
    ensures Accepts(pe, se, ParseLines(ls).value) <==>
        forall i :: 0 <= i < |ls| ==> LineMet(pe, se, ls[i].text, ls[i].kind)
  {
    hide ParseLine, LineMet, NoNul;
    if ls != [] {
      var n := |ls| - 1;
      LinesAccept(pe, se, ls[..n]);
      var es, fs := ParseLines(ls[..n]).value, ParseLine(ls[n].text, ls[n].kind).value;
      LineFormed(ls[n].text, ls[n].kind);
      FormedAppend(es, fs);
      AnyLineAccepts(pe, se, ls[n].text, ls[n].kind);
      AcceptsJoin(pe, se, es, fs);
      assert forall i :: 0 <= i < n ==> ls[..n][i] == ls[i];
    }
  }

  /** A package that is wanted has every line of its control file met. */
  ghost predicate TextSatisfied(pe: seq<Option<Package>>, se: seq<Option<Status>>, p: Package, ls: seq<Line>)
  {
    NameAllowed(se, p.name, Depends) ==> forall i :: 0 <= i < |ls| ==> LineMet(pe, se, ls[i].text, ls[i].kind)
  }

  /** The packages in the table were made of these lines. */
  ghost predicate MadeOf(pe: seq<Option<Package>>, texts: seq<seq<Line>>)
  {
    |texts| == |pe| && forall x :: 0 <= x < |pe| && pe[x].Some? ==> MadeOfLines(pe[x].value, texts[x])
  }

  ghost predicate MadeOfLines(p: Package, ls: seq<Line>)
  {
    ParseLines(ls) == Some(p.edges) && forall i :: 0 <= i < |ls| ==> LineOk(ls[i])
  }

  // ---------- packages made of lines ----------

  /** The version of a package whose control file names none. */
  function Unknown(): seq<byte>
  {
    [117, 110, 107, 110, 111, 119, 110]
  }

  /** What becomes of a control file: it is refused, has no version, or takes a slot of the table. */
  datatype Filling = Refused | NoVersion | Filled(slot: nat)

  lemma {:induction false} LinesRefused(ls: seq<Line>, i: nat)
    requires i <= |ls| && ParseLines(ls[..i]).None?
    ensures ParseLines(ls).None?
    decreases |ls|
  {
    hide ParseLine;
    if i == |ls| {
      assert ls[..i] == ls;
    } else {
      assert ls[..|ls| - 1][..i] == ls[..i];
      LinesRefused(ls[..|ls| - 1], i);
    }
  }

  /** add_split_dependencies on one line after the other. */
  method AddLines(ls: seq<Line>) returns (r: Option<seq<Edge>>)
    ensures r == ParseLines(ls)
  {
    hide ParseLine, EdgesFormed;
    var edges, i := [], 0;
    while i < |ls|
      invariant i <= |ls| && ParseLines(ls[..i]) == Some(edges)
    {
      assert ls[..i + 1][..i] == ls[..i];
      r := AddSplitDependencies(edges, ls[i].text, ls[i].kind);
      if r == None {
        LinesRefused(ls, i + 1);
        return;
      }
      edges := r.value;
      i := i + 1;
    }
    assert ls[..i] == ls;
    r := Some(edges);
  }

  lemma MadeOfOneMore(pe: seq<Option<Package>>, texts: seq<seq<Line>>, a: nat, p: Package, ls: seq<Line>)
    requires MadeOf(pe, texts) && a < |pe| && MadeOfLines(p, ls)
    ensures MadeOf(pe[a := Some(p)], texts[a := ls])
  {
    hide MadeOfLines;
  }

  /** fill_package_struct, once it has told the fields apart: the package made of the lines takes its slot, and the
      table is made of the texts with these lines in that place. */
  method FillPackage(table: PackageTable, name: seq<byte>, version: seq<byte>, ls: seq<Line>,
                     ghost texts: seq<seq<Line>>) returns (r: Filling)
    requires table.Valid() && OnePerVersion(table.Entries()) && MadeOf(table.Entries(), texts)
    requires NoNul(version) && (forall i :: 0 <= i < |ls| ==> LineOk(ls[i]))
    requires version != Unknown() && ParseLines(ls).Some? ==> PackageEnds(table.Entries(), name, version, VerEqual)
    modifies table.slots
    ensures table.Valid() && OnePerVersion(table.Entries())
    ensures r.Refused? <==> ParseLines(ls).None?
    ensures r.NoVersion? <==> ParseLines(ls).Some? && version == Unknown()
    ensures !r.Filled? ==> table.Entries() == old(table.Entries())
    ensures r.Filled? ==>
              && r.slot < PACKAGE_HASH_PRIME && MadeOf(table.Entries(), texts[r.slot := ls])
              && table.Entries() == old(table.Entries())[r.slot := Some(Package(name, version, ParseLines(ls).value))]
              && (old(table.Entries())[r.slot].Some? ==>
                    Matches(old(table.Entries())[r.slot].value, name, version, VerEqual))
  {
    hide ParseLines, NoNul, OnePerVersion, PackageEnds, Matches, PackagesOk;
    var edges := AddLines(ls);
    if edges == None {
      return Refused;
    }
    if version == Unknown() {
      return NoVersion;
    }
    var p := Package(name, version, edges.value);
    ghost var pe := table.Entries();
    var a := table.Insert(p);
    MadeOfOneMore(pe, texts, a, p, ls);
    r := Filled(a);
  }

  lemma {:induction false} SatisfiedByText(pe: seq<Option<Package>>, se: seq<Option<Status>>, p: Package, ls: seq<Line>)
    requires MadeOfLines(p, ls)
    ensures EdgesFormed(p.edges) && (Satisfied(pe, se, p) <==> TextSatisfied(pe, se, p, ls))
  {
    hide ParseLines, NameAllowed, Accepts, LineMet;
    LinesAccept(pe, se, ls);
  }

  /** check_deps on packages read from control files: it accepts if and only if every package that is wanted has, in
      each of its dependency lines, for each group between commas an alternative that is met. */
  method CheckTexts(db: Database, ghost texts: seq<seq<Line>>) returns (ok: bool)
    requires db.Valid() && MadeOf(db.Packages(), texts) && SearchesEnd(db.Packages(), db.Statuses())
    ensures ok <==> forall x :: 0 <= x < |db.Packages()| && db.Packages()[x].Some? ==>
                      TextSatisfied(db.Packages(), db.Statuses(), db.Packages()[x].value, texts[x])
  {
    hide Database.Valid, MadeOfLines, Satisfied, TextSatisfied, EdgesFormed, SearchesEnd;
    ghost var pe, se := db.Packages(), db.Statuses();
    forall x | 0 <= x < |pe| && pe[x].Some?
      ensures EdgesFormed(pe[x].value.edges)
          && (Satisfied(pe, se, pe[x].value) <==> TextSatisfied(pe, se, pe[x].value, texts[x]))
    {
      SatisfiedByText(pe, se, pe[x].value, texts[x]);
    }
    ok := db.CheckDeps();
  }
}
