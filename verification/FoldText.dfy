/** What fold makes of a text: a greedy reference, and what holds of its output. */
module FoldText {
  import opened Bits

  const NEWLINE: byte := 10
  const TAB: byte := 9
  const BACKSPACE: byte := 8
  const RETURN: byte := 13
  const SPACE: byte := 32

  datatype Config = Config(countBytes: bool, breakSpaces: bool, unicode: bool, width: nat)

  predicate IsBlank(c: byte)
  {
    c == SPACE || c == TAB
  }

  /** adjust_column: where printing c moves the cursor. */
  function AdjustColumn(cfg: Config, column: nat, c: byte): (r: nat)
    ensures r <= column + 8
  {
    if cfg.countBytes then column + 1
    else if c == TAB then column + 8 - column % 8
    else if c == BACKSPACE then (if column == 0 then 0 else column - 1)
    else if c == RETURN then 0
    else if !cfg.unicode || !(0x80 <= c < 0xc0) then column + 1
    else column
  }

  lemma {:induction false} AdjustMonotone(cfg: Config, a: nat, b: nat, c: byte)
    requires a <= b
    ensures AdjustColumn(cfg, a, c) <= AdjustColumn(cfg, b, c)
  {
    if c == TAB && !cfg.countBytes {
      assert a / 8 <= b / 8;
      assert a + 8 - a % 8 == 8 * (a / 8) + 8 && b + 8 - b % 8 == 8 * (b / 8) + 8;
    }
  }

  /** Where the cursor is behind s. */
  function Column(cfg: Config, s: seq<byte>): nat
  {
    if s == [] then 0 else AdjustColumn(cfg, Column(cfg, s[..|s| - 1]), s[|s| - 1])
  }

  /** What is printed behind something else does not end further left than on its own. */
  lemma {:induction false} ColumnBehind(cfg: Config, a: seq<byte>, b: seq<byte>)
    ensures Column(cfg, b) <= Column(cfg, a + b)
  {
    if b != [] {
      var ab := a + b;
      assert ab[..|ab| - 1] == a + b[..|b| - 1];
      ColumnBehind(cfg, a, b[..|b| - 1]);
      AdjustMonotone(cfg, Column(cfg, b[..|b| - 1]), Column(cfg, ab[..|ab| - 1]), b[|b| - 1]);
    }
  }

  /** A line that keeps to the width; a first character always may stay. */
  ghost predicate Fits(cfg: Config, s: seq<byte>)
  {
    NEWLINE !in s && forall j :: 2 <= j <= |s| ==> Column(cfg, s[..j]) <= cfg.width
  }

  lemma {:induction false} FitsPrefix(cfg: Config, s: seq<byte>, n: nat)
    requires Fits(cfg, s) && n <= |s|
    ensures Fits(cfg, s[..n])
  {
    assert forall j :: 0 <= j <= n ==> s[..n][..j] == s[..j];
  }

  /** What is left of a line behind a break fits as well. */
  lemma {:induction false} FitsSuffix(cfg: Config, s: seq<byte>, n: nat)
    requires Fits(cfg, s) && n <= |s|
    ensures Fits(cfg, s[n..])
  {
    forall j | 2 <= j <= |s[n..]|
      ensures Column(cfg, s[n..][..j]) <= cfg.width
    {
      assert s[..n + j] == s[..n] + s[n..][..j];
      ColumnBehind(cfg, s[..n], s[n..][..j]);
    }
  }

  lemma {:induction false} FitsExtend(cfg: Config, s: seq<byte>, c: byte)
    requires Fits(cfg, s)
    ensures Fits(cfg, s + [c]) <==> c != NEWLINE && (s == [] || AdjustColumn(cfg, Column(cfg, s), c) <= cfg.width)
  {
    var t := s + [c];
    assert t[..|t| - 1] == s && t[..|t|] == t;
    assert forall j :: 0 <= j <= |s| ==> t[..j] == s[..j];
    assert Column(cfg, t) == AdjustColumn(cfg, Column(cfg, s), c);
    if Fits(cfg, t) {
      assert t[|s|] == c;
      assert |s| >= 1 ==> Column(cfg, t[..|t|]) <= cfg.width;
    }
  }

  /** How much of s fits on one line. */
  ghost function Longest(cfg: Config, s: seq<byte>, from: nat): (n: nat)
    requires from <= |s| && Fits(cfg, s[..from])
    ensures from <= n <= |s| && Fits(cfg, s[..n]) && (n < |s| ==> !Fits(cfg, s[..n + 1]))
    decreases |s| - from
  {
    if from < |s| && Fits(cfg, s[..from + 1]) then Longest(cfg, s, from + 1) else from
  }

  lemma {:induction false} LongestIs(cfg: Config, s: seq<byte>, from: nat, n: nat)
    requires from <= n <= |s| && Fits(cfg, s[..n]) && (n < |s| ==> !Fits(cfg, s[..n + 1]))
    ensures Fits(cfg, s[..from]) && Longest(cfg, s, from) == n
    decreases n - from
  {
    FitsPrefix(cfg, s[..n], from);
    assert s[..n][..from] == s[..from];
    if from < n {
      FitsPrefix(cfg, s[..n], from + 1);
      assert s[..n][..from + 1] == s[..from + 1];
      LongestIs(cfg, s, from + 1, n);
    }
  }

  /** Behind the last blank of s, or 0. */
  function LastBlank(s: seq<byte>): (n: nat)
    ensures n <= |s| && (n > 0 ==> IsBlank(s[n - 1])) && forall i :: n <= i < |s| ==> !IsBlank(s[i])
  {
    if s == [] then 0 else if IsBlank(s[|s| - 1]) then |s| else LastBlank(s[..|s| - 1])
  }

  /** How much of an overlong line, of which s fits, goes on the first line. */
  function Cut(cfg: Config, s: seq<byte>): (n: nat)
    ensures n <= |s| && (s != [] ==> n > 0)
  {
    if cfg.breakSpaces && LastBlank(s) > 0 then LastBlank(s) else |s|
  }

  // ---------- the reference ----------

  /** A byte of the input, or a newline of fold's own. */
  datatype Mark = Kept(b: byte) | Break

  function Keep(s: seq<byte>): (r: seq<Mark>)
    ensures |r| == |s|
  {
    seq(|s|, i requires 0 <= i < |s| => Kept(s[i]))
  }

  /** As much as fits on a line, then the next line, and so on. */
  ghost function Folded(cfg: Config, s: seq<byte>): seq<Mark>
    decreases |s|
  {
    var n := Longest(cfg, s, 0);
    if n == |s| then Keep(s)
    else if s[n] == NEWLINE then Keep(s[..n + 1]) + Folded(cfg, s[n + 1..])
    else
      var cut := Cut(cfg, s[..n]);
      FirstStays(cfg, s);
      Keep(s[..cut]) + [Break] + Folded(cfg, s[cut..])
  }

  lemma {:induction false} FirstStays(cfg: Config, s: seq<byte>)
    requires s != [] && s[0] != NEWLINE
    ensures Longest(cfg, s, 0) > 0
  {
    assert s[..1] == [s[0]];
    assert Fits(cfg, s[..1]);
    assert s[..0 + 1] == s[..1];
  }

  /** What fold writes. */
  function Written(ms: seq<Mark>): (s: seq<byte>)
    ensures |s| == |ms|
  {
    seq(|ms|, i requires 0 <= i < |ms| => if ms[i].Break? then NEWLINE else ms[i].b)
  }

  /** The output without the newlines that were put in. */
  function Undone(ms: seq<Mark>): seq<byte>
  {
    if ms == [] then [] else (if ms[0].Break? then [] else [ms[0].b]) + Undone(ms[1..])
  }

  lemma {:induction false} UndoneJoin(a: seq<Mark>, b: seq<Mark>)
    ensures Undone(a + b) == Undone(a) + Undone(b)
  {
    if a == [] {
      assert a + b == b;
    } else {
      assert (a + b)[1..] == a[1..] + b;
      UndoneJoin(a[1..], b);
    }
  }

  lemma {:induction false} UndoneKeep(s: seq<byte>)
    ensures Undone(Keep(s)) == s
  {
    if s != [] {
      assert Keep(s)[1..] == Keep(s[1..]);
      UndoneKeep(s[1..]);
    }
  }

  /** Deleting the inserted newlines gives back the input. */
  lemma {:induction false} FoldedUndone(cfg: Config, s: seq<byte>)
    ensures Undone(Folded(cfg, s)) == s
    decreases |s|
  {
    hide Cut;
    var n := Longest(cfg, s, 0);
    if n == |s| {
      UndoneKeep(s);
    } else if s[n] == NEWLINE {
      UndoneKeep(s[..n + 1]);
      FoldedUndone(cfg, s[n + 1..]);
      UndoneJoin(Keep(s[..n + 1]), Folded(cfg, s[n + 1..]));
    } else {
      FirstStays(cfg, s);
      var cut := Cut(cfg, s[..n]);
      UndoneKeep(s[..cut]);
      FoldedUndone(cfg, s[cut..]);
      var tail := [Break] + Folded(cfg, s[cut..]);
      assert tail[1..] == Folded(cfg, s[cut..]);
      UndoneJoin(Keep(s[..cut]), tail);
      assert Keep(s[..cut]) + [Break] + Folded(cfg, s[cut..]) == Keep(s[..cut]) + tail;
    }
  }

  // ---------- every line keeps to the width ----------

  predicate LineStart(out: seq<byte>, i: nat)
    requires i <= |out|
  {
    i == 0 || out[i - 1] == NEWLINE
  }

  /** Every stretch of a line, from its start. */
  ghost predicate LinesFit(cfg: Config, out: seq<byte>)
  {
    forall i, j :: 0 <= i <= j <= |out| && LineStart(out, i) && NEWLINE !in out[i..j] ==> Fits(cfg, out[i..j])
  }

  lemma {:induction false} NewlineInside(out: seq<byte>, i: nat, j: nat, k: nat)
    requires i <= j <= |out|
    ensures i <= k < j && out[k] == NEWLINE ==> NEWLINE in out[i..j]
  {
    if i <= k < j {
      assert out[i..j][k - i] == out[k];
    }
  }

  lemma {:induction false} LinesJoin(cfg: Config, line: seq<byte>, more: seq<byte>)
    requires Fits(cfg, line) && LinesFit(cfg, more)
    ensures LinesFit(cfg, line + [NEWLINE] + more)
  {
    var out := line + [NEWLINE] + more;
    var k := |line| + 1;
    forall i, j | 0 <= i <= j <= |out| && LineStart(out, i) && NEWLINE !in out[i..j]
      ensures Fits(cfg, out[i..j])
    {
      NewlineInside(out, i, j, |line|);
      if i == 0 {
        assert out[i..j] == line[..j];
        FitsPrefix(cfg, line, j);
      } else if i < k {
        assert false;
      } else {
        assert out[i..j] == more[i - k..j - k];
        assert i > k ==> out[i - 1] == more[i - k - 1];
        assert LineStart(more, i - k);
      }
    }
  }

  lemma {:induction false} LinesLast(cfg: Config, line: seq<byte>)
    requires Fits(cfg, line)
    ensures LinesFit(cfg, line)
  {
    forall i, j | 0 <= i <= j <= |line| && LineStart(line, i) && NEWLINE !in line[i..j]
      ensures Fits(cfg, line[i..j])
    {
      if i > 0 {
        assert false;
      }
      assert line[i..j] == line[..j];
      FitsPrefix(cfg, line, j);
    }
  }

  lemma {:induction false} WrittenKeep(s: seq<byte>)
    ensures Written(Keep(s)) == s
  {
  }

  lemma {:induction false} WrittenJoin(a: seq<Mark>, b: seq<Mark>)
    ensures Written(a + b) == Written(a) + Written(b)
  {
  }

  /** One step of folding, as bytes. */
  lemma {:induction false} WrittenStep(cfg: Config, s: seq<byte>)
    ensures var n := Longest(cfg, s, 0);
      && (n == |s| ==> Written(Folded(cfg, s)) == s)
      && (n < |s| && s[n] == NEWLINE ==>
         Written(Folded(cfg, s)) == s[..n] + [NEWLINE] + Written(Folded(cfg, s[n + 1..])))
      && (n < |s| && s[n] != NEWLINE ==>
            var cut := Cut(cfg, s[..n]);
            && 0 < cut
            && Written(Folded(cfg, s)) == s[..cut] + [NEWLINE] + Written(Folded(cfg, s[cut..])))
  {
    hide Cut;
    var n := Longest(cfg, s, 0);
    if n == |s| {
      WrittenKeep(s);
    } else if s[n] == NEWLINE {
      WrittenKeep(s[..n + 1]);
      WrittenJoin(Keep(s[..n + 1]), Folded(cfg, s[n + 1..]));
      assert s[..n + 1] == s[..n] + [NEWLINE];
    } else {
      FirstStays(cfg, s);
      var cut := Cut(cfg, s[..n]);
      WrittenKeep(s[..cut]);
      WrittenJoin(Keep(s[..cut]) + [Break], Folded(cfg, s[cut..]));
      WrittenJoin(Keep(s[..cut]), [Break]);
      assert Written([Break]) == [NEWLINE];
    }
  }

  /** In every line of the output, each prefix of two or more characters keeps to the width. */
  lemma {:induction false} FoldedFits(cfg: Config, s: seq<byte>)
    ensures LinesFit(cfg, Written(Folded(cfg, s)))
    decreases |s|
  {
    hide Cut, Folded, Written, LinesFit;
    WrittenStep(cfg, s);
    var n := Longest(cfg, s, 0);
    if n == |s| {
      assert s[..n] == s;
      LinesLast(cfg, s);
    } else if s[n] == NEWLINE {
      FoldedFits(cfg, s[n + 1..]);
      LinesJoin(cfg, s[..n], Written(Folded(cfg, s[n + 1..])));
    } else {
      var cut := Cut(cfg, s[..n]);
      FitsPrefix(cfg, s[..n], cut);
      assert s[..n][..cut] == s[..cut];
      FoldedFits(cfg, s[cut..]);
      LinesJoin(cfg, s[..cut], Written(Folded(cfg, s[cut..])));
    }
  }

  // ---------- every break is where it has to be ----------

  /** With n bytes of the rest, but not with fewer, the line is too wide; with -s the break is behind the last blank
      before that, if there is one. */
  ghost predicate TooWideAt(cfg: Config, line: seq<byte>, rest: seq<byte>, n: nat)
  {
    && 1 <= n <= |rest| && NEWLINE !in rest[..n]
    && Fits(cfg, line + rest[..n - 1]) && !Fits(cfg, line + rest[..n])
    && if cfg.breakSpaces && LastBlank(line) > 0 then IsBlank(line[|line| - 1]) && LastBlank(rest[..n - 1]) == 0
       else n == 1
  }

  /** A line is broken off where the rest of the input behind it makes that necessary. */
  ghost predicate Broken(cfg: Config, line: seq<byte>, rest: seq<byte>)
  {
    line != [] && exists n: nat :: TooWideAt(cfg, line, rest, n)
  }

  ghost predicate BreaksNeeded(cfg: Config, ms: seq<Mark>)
  {
    var out := Written(ms);
    forall i, k :: 0 <= i <= k < |ms| && LineStart(out, i) && NEWLINE !in out[i..k] && ms[k].Break? ==>
      Broken(cfg, out[i..k], Undone(ms[k + 1..]))
  }

  lemma {:induction false} BreaksJoin(cfg: Config, line: seq<byte>, end: Mark, more: seq<Mark>)
    requires NEWLINE !in line && BreaksNeeded(cfg, more) && Written([end]) == [NEWLINE]
    requires end.Break? ==> Broken(cfg, line, Undone(more))
    ensures BreaksNeeded(cfg, Keep(line) + [end] + more)
  {
    hide Broken, Undone;
    var ms := Keep(line) + [end] + more;
    var out := Written(ms);
    var k0 := |line| + 1;
    assert out == line + [NEWLINE] + Written(more);
    forall i, k | 0 <= i <= k < |ms| && LineStart(out, i) && NEWLINE !in out[i..k] && ms[k].Break?
      ensures Broken(cfg, out[i..k], Undone(ms[k + 1..]))
    {
      NewlineInside(out, i, k, |line|);
      if k < k0 {
        assert i == 0 && k == |line|;
        assert out[i..k] == line && ms[k + 1..] == more;
      } else {
        assert out[i..k] == Written(more)[i - k0..k - k0] && ms[k + 1..] == more[k - k0 + 1..];
        assert i > k0 ==> out[i - 1] == Written(more)[i - k0 - 1];
        assert LineStart(Written(more), i - k0);
        assert ms[k] == more[k - k0];
      }
    }
  }

  /** fold breaks a line only where it must, and with -s behind the last blank before that place. */
  lemma {:induction false} FoldedBreaks(cfg: Config, s: seq<byte>)
    ensures BreaksNeeded(cfg, Folded(cfg, s))
    decreases |s|
  {
    hide BreaksNeeded, Column;
    var n := Longest(cfg, s, 0);
    if n == |s| {
      NoBreaks(cfg, s);
    } else if s[n] == NEWLINE {
      FoldedBreaks(cfg, s[n + 1..]);
      assert Keep(s[..n + 1]) == Keep(s[..n]) + [Kept(NEWLINE)];
      BreaksJoin(cfg, s[..n], Kept(NEWLINE), Folded(cfg, s[n + 1..]));
    } else {
      FirstStays(cfg, s);
      FoldedBreaks(cfg, s[Cut(cfg, s[..n])..]);
      BreakThere(cfg, s, n);
    }
  }

  lemma {:induction false} BreakThere(cfg: Config, s: seq<byte>, n: nat)
    requires 0 < n < |s| && Fits(cfg, s[..n]) && !Fits(cfg, s[..n + 1]) && NEWLINE !in s[..n] && s[n] != NEWLINE
    requires BreaksNeeded(cfg, Folded(cfg, s[Cut(cfg, s[..n])..]))
    ensures BreaksNeeded(cfg, Keep(s[..Cut(cfg, s[..n])]) + [Break] + Folded(cfg, s[Cut(cfg, s[..n])..]))
  {
    hide BreaksNeeded, Folded, Fits;
    var cut := Cut(cfg, s[..n]);
    CutBroken(cfg, s, n);
    FoldedUndone(cfg, s[cut..]);
    assert Written([Break]) == [NEWLINE];
    hide Written, Broken, Cut;
    BreaksJoin(cfg, s[..cut], Break, Folded(cfg, s[cut..]));
  }

  lemma {:induction false} CutBroken(cfg: Config, s: seq<byte>, n: nat)
    requires 0 < n < |s| && Fits(cfg, s[..n]) && !Fits(cfg, s[..n + 1]) && NEWLINE !in s[..n] && s[n] != NEWLINE
    ensures Broken(cfg, s[..Cut(cfg, s[..n])], s[Cut(cfg, s[..n])..])
  {
    hide Fits, LastBlank;
    var cut := Cut(cfg, s[..n]);
    var line, rest := s[..cut], s[cut..];
    var m := n - cut + 1;
    assert rest[..m] == s[cut..n + 1] && rest[..m - 1] == s[cut..n];
    assert line + rest[..m] == s[..n + 1] && line + rest[..m - 1] == s[..n];
    assert NEWLINE !in rest[..m] by {
      forall i | 0 <= i < m
        ensures rest[i] != NEWLINE
      {
        assert rest[i] == s[cut + i];
        if cut + i < n {
          assert s[..n][cut + i] == s[cut + i];
        }
      }
    }
    assert cut < n ==>
        LastBlank(rest[..m - 1]) == 0 && IsBlank(line[|line| - 1]) by { NoBlankBehind(s[..n], cut, rest[..m - 1]); }
    if cut == n {
      assert line == s[..n] && rest[..m - 1] == s[..n][cut..];
      NoBlankBehind(s[..n], cut, rest[..m - 1]);
    }
    assert TooWideAt(cfg, line, rest, m);
  }

  lemma {:induction false} NoBlankBehind(s: seq<byte>, cut: nat, tail: seq<byte>)
    requires cut <= |s| && tail == s[cut..]
    ensures 0 < cut == LastBlank(s) ==> LastBlank(tail) == 0 && IsBlank(s[cut - 1])
  {
    assert forall i :: 0 <= i < |tail| ==> tail[i] == s[cut + i];
  }

  lemma {:induction false} NoBreaks(cfg: Config, s: seq<byte>)
    ensures BreaksNeeded(cfg, Keep(s))
  {
  }
}
