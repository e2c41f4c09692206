/** The column that fold counts, by what a terminal does, and the lines of the output measured with it. */
module FoldColumns {
  import opened Bits
  import opened FoldText

  /** Printing c takes the cursor from one column to another. */
  ghost predicate Moves(cfg: Config, before: nat, c: byte, after: nat)
  {
    if cfg.countBytes then after == before + 1
    else if c == '\t' as int then after % 8 == 0 && before < after <= before + 8
    else if c == 8 then after + 1 == before || (before == 0 && after == 0)
    else if c == '\r' as int then after == 0
    else if cfg.unicode && 0x80 <= c <= 0xbf then after == before
    else after == before + 1
  }

  /** w gives the column behind every text. */
  ghost predicate Measures(cfg: Config, w: seq<byte> -> nat)
  {
    w([]) == 0 && forall s: seq<byte>, c: byte :: Moves(cfg, w(s), c, w(s + [c]))
  }

  lemma {:induction false} ColumnMore(cfg: Config, s: seq<byte>, c: byte)
    ensures Column(cfg, s + [c]) == AdjustColumn(cfg, Column(cfg, s), c)
  {
    assert (s + [c])[..|s|] == s;
  }

  lemma AdjustMoves(cfg: Config, column: nat, c: byte)
    ensures Moves(cfg, column, c, AdjustColumn(cfg, column, c))
  {
  }

  /** There is no other such measure. */
  lemma {:induction false} MeasureIsColumn(cfg: Config, w: seq<byte> -> nat, s: seq<byte>)
    requires Measures(cfg, w)
    ensures w(s) == Column(cfg, s)
  {
    if s != [] {
      var n := |s| - 1;
      MeasureIsColumn(cfg, w, s[..n]);
      assert s == s[..n] + [s[n]];
      assert Moves(cfg, w(s[..n]), s[n], w(s[..n] + [s[n]]));
      ColumnMore(cfg, s[..n], s[n]);
      AdjustMoves(cfg, Column(cfg, s[..n]), s[n]);
      MovesOnce(cfg, w(s[..n]), s[n], w(s), Column(cfg, s));
    }
  }

  lemma MovesOnce(cfg: Config, before: nat, c: byte, a: nat, b: nat)
    requires Moves(cfg, before, c, a) && Moves(cfg, before, c, b)
    ensures a == b
  {
  }

  lemma {:induction false} ColumnMeasures(cfg: Config)
    ensures Measures(cfg, s => Column(cfg, s))
  {
    forall s: seq<byte>, c: byte
      ensures Moves(cfg, Column(cfg, s), c, Column(cfg, s + [c]))
    {
      ColumnMore(cfg, s, c);
      AdjustMoves(cfg, Column(cfg, s), c);
    }
  }

  // ---------- the column in closed form ----------

  predicate IsControl(c: byte)
  {
    c == '\t' as int || c == 8 || c == '\r' as int
  }

  /** How many of the bytes take a column of their own. */
  function Printed(cfg: Config, s: seq<byte>): nat
  {
    |s| - if cfg.unicode && !cfg.countBytes then Continuing(s) else 0
  }

  /** The bytes that continue a character of UTF-8. */
  function Continuing(s: seq<byte>): (n: nat)
    ensures n <= |s|
  {
    if s == [] then 0 else Continuing(s[..|s| - 1]) + (if 0x80 <= s[|s| - 1] <= 0xbf then 1 else 0)
  }

  /** Text without control characters moves on by its characters; with -b all text does, by its bytes. */
  lemma {:induction false} PlainColumn(cfg: Config, s: seq<byte>, t: seq<byte>)
    requires cfg.countBytes || forall i :: 0 <= i < |t| ==> !IsControl(t[i])
    ensures Column(cfg, s + t) == Column(cfg, s) + Printed(cfg, t)
  {
    if t == [] {
      assert s + t == s;
    } else {
      var n := |t| - 1;
      PlainColumn(cfg, s, t[..n]);
      ColumnMore(cfg, s + t[..n], t[n]);
      assert s + t == s + t[..n] + [t[n]];
    }
  }

  /** Behind a tab the column is the next multiple of eight. */
  lemma {:induction false} TabStop(cfg: Config, s: seq<byte>)
    requires !cfg.countBytes
    ensures var a, b := Column(cfg, s), Column(cfg, s + ['\t' as int]); b % 8 == 0 && a < b <= a + 8
  {
    ColumnMore(cfg, s, '\t' as int);
  }

  /** Behind a return only what follows counts. */
  lemma {:induction false} BehindReturn(cfg: Config, s: seq<byte>, t: seq<byte>)
    requires !cfg.countBytes
    ensures Column(cfg, s + ['\r' as int] + t) == Column(cfg, t)
  {
    var r := s + ['\r' as int];
    if t == [] {
      assert r + t == r;
      ColumnMore(cfg, s, '\r' as int);
    } else {
      var n := |t| - 1;
      BehindReturn(cfg, s, t[..n]);
      ColumnMore(cfg, r + t[..n], t[n]);
      assert r + t == r + t[..n] + [t[n]];
    }
  }

  /** A backspace takes back a printed character, and stays at the start of a line. */
  lemma {:induction false} BackspaceBack(cfg: Config, s: seq<byte>, c: byte)
    requires !cfg.countBytes && !IsControl(c) && !(cfg.unicode && 0x80 <= c <= 0xbf)
    ensures Column(cfg, s + [c] + [8]) == Column(cfg, s)
    ensures Column(cfg, s) == 0 ==> Column(cfg, s + [8]) == 0
  {
    ColumnMore(cfg, s, c);
    ColumnMore(cfg, s + [c], 8);
    ColumnMore(cfg, s, 8);
  }

  // ---------- the lines of the output ----------

  /** The output of fold by any measure of the column: no line of two or more characters is wider than asked for. */
  lemma {:induction false} LinesMeasured(cfg: Config, w: seq<byte> -> nat, s: seq<byte>, i: nat, j: nat)
    requires Measures(cfg, w)
    requires var out := Written(Folded(cfg, s));
             i + 2 <= j <= |out| && LineStart(out, i) && '\n' as int !in out[i..j]
    ensures w(Written(Folded(cfg, s))[i..j]) <= cfg.width
  {
    FoldedFits(cfg, s);
    hide Folded, Written, Column;
    var line := Written(Folded(cfg, s))[i..j];
    MeasureIsColumn(cfg, w, line);
    assert Fits(cfg, line);
    assert line[..|line|] == line;
  }

  predicate HasBlank(s: seq<byte>)
  {
    ' ' as int in s || '\t' as int in s
  }

  /** By any measure, n bytes of the rest make the line too wide; with -s and a blank in the line the break is behind
      its last one and no other blank comes before those bytes end, else the first byte does not fit any more. */
  ghost predicate WideWith(cfg: Config, w: seq<byte> -> nat, line: seq<byte>, rest: seq<byte>, n: nat)
  {
    && 1 <= n <= |rest| && w(line + rest[..n]) > cfg.width
    && if cfg.breakSpaces && HasBlank(line) then HasBlank(line[|line| - 1..]) && !HasBlank(rest[..n - 1]) else n == 1
  }

  ghost predicate TooWide(cfg: Config, w: seq<byte> -> nat, line: seq<byte>, rest: seq<byte>)
  {
    exists n: nat :: WideWith(cfg, w, line, rest, n)
  }

  lemma {:induction false} BlankInside(s: seq<byte>)
    ensures HasBlank(s) <==> LastBlank(s) > 0
  {
    if HasBlank(s) {
      var i :| 0 <= i < |s| && (s[i] == ' ' as int || s[i] == '\t' as int);
      assert IsBlank(s[i]);
    }
  }

  /** Every newline that fold puts in is needed. */
  lemma {:induction false} BreaksMeasured(cfg: Config, w: seq<byte> -> nat, s: seq<byte>, i: nat, k: nat)
    requires Measures(cfg, w)
    requires var ms := Folded(cfg, s); var out := Written(ms);
             i <= k < |ms| && LineStart(out, i) && '\n' as int !in out[i..k] && ms[k].Break?
    ensures var ms := Folded(cfg, s); var line := Written(ms)[i..k];
            line != [] && TooWide(cfg, w, line, Undone(ms[k + 1..]))
  {
    FoldedBreaks(cfg, s);
    hide Folded, Written, Undone;
    var ms := Folded(cfg, s);
    var line, rest := Written(ms)[i..k], Undone(ms[k + 1..]);
    assert Broken(cfg, line, rest);
    var n: nat :| TooWideAt(cfg, line, rest, n);
    MeasureIsColumn(cfg, w, line + rest[..n]);
    assert line + rest[..n - 1] + [rest[n - 1]] == line + rest[..n];
    assert rest[..n][n - 1] == rest[n - 1];
    NotFitting(cfg, line + rest[..n - 1], rest[n - 1]);
    BlankInside(line);
    BlankInside(line[|line| - 1..]);
    BlankInside(rest[..n - 1]);
    assert WideWith(cfg, w, line, rest, n);
  }

  lemma {:induction false} NotFitting(cfg: Config, s: seq<byte>, c: byte)
    requires Fits(cfg, s) && !Fits(cfg, s + [c]) && c != NEWLINE
    ensures Column(cfg, s + [c]) > cfg.width
  {
    FitsExtend(cfg, s, c);
    ColumnMore(cfg, s, c);
  }
}
