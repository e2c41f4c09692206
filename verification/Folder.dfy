/** fold's line wrapper: a growing buffer, wrapped back to its last blank. */
module Folding {
  import opened Options
  import opened Bits
  import opened FoldText

  const CHUNK := 0x1000

  /** memmove of the end of a line to its beginning. */
  method Shift(a: array<byte>, end: nat, size: nat)
    requires end <= size <= a.Length
    modifies a
    ensures a[..size - end] == old(a[end..size])
  {
    var i := 0;
    while i < size - end
      invariant i <= size - end
      invariant forall k :: 0 <= k < i ==> a[k] == old(a[end + k])
      invariant forall k :: i <= k < size ==> a[k] == old(a[k])
    {
      a[i] := a[i + end];
      i := i + 1;
    }
  }

  class Folder {
    const cfg: Config
    var lineOut: array<byte>
    var offset: nat
    var column: nat
    var out: seq<byte>

    constructor (c: Config)
      ensures cfg == c && out == [] && fresh(lineOut) && Sized()
    {
      cfg := c;
      lineOut := new byte[0];
      offset, column, out := 0, 0, [];
    }

    /** The buffer has whole chunks, and room for the line in it. */
    ghost predicate Sized()
      reads this
    {
      lineOut.Length % CHUNK == 0 && offset <= lineOut.Length
    }

    ghost function Pending(): seq<byte>
      requires Sized()
      reads this, lineOut
    {
      lineOut[..offset]
    }

    /** The line in the buffer fits, and ends where column says. */
    ghost predicate Valid()
      reads this, lineOut
    {
      Sized() && Fits(cfg, Pending()) && column == Column(cfg, Pending())
    }

    method Write(n: nat)
      requires n <= lineOut.Length
      modifies `out
      ensures out == old(out) + lineOut[..n]
    {
      out := out + lineOut[..n];
    }

    /** Makes room for one character more. */
    method Grow()
      requires Valid()
      modifies this
      ensures Valid() && offset < lineOut.Length && Pending() == old(Pending()) && out == old(out)
          && offset == old(offset)
      ensures lineOut == old(lineOut) || fresh(lineOut)
    {
      if offset % CHUNK == 0 {
        var bigger := new byte[offset + CHUNK];
        var i := 0;
        while i < offset
          modifies bigger
          invariant i <= offset && bigger[..i] == lineOut[..i]
        {
          bigger[i] := lineOut[i];
          i := i + 1;
        }
        lineOut := bigger;
      }
    }

    /** Looks for the last blank. */
    method FindBlank() returns (end: int)
      requires Sized()
      ensures end == LastBlank(Pending())
    {
      end := offset;
      ghost var line := Pending();
      while end > 0
        invariant 0 <= end <= offset && LastBlank(line[..end]) == LastBlank(line)
        invariant line == Pending()
      {
        assert line[..end][..end - 1] == line[..end - 1];
        if IsBlank(lineOut[end - 1]) {
          return;
        }
        end := end - 1;
      }
    }

    /** Moves what is behind the blank to the front, and counts its columns again. */
    method MoveUp(end: nat)
      requires Valid() && end <= offset
      modifies this, lineOut
      ensures Valid() && Pending() == old(Pending())[end..] && out == old(out) && lineOut == old(lineOut)
    {
      ghost var line := Pending();
      Shift(lineOut, end, offset);
      offset := offset - end;
      assert Pending() == line[end..];
      FitsSuffix(cfg, line, end);
      column := 0;
      var i := 0;
      while i < offset
        modifies `column
        invariant i <= offset && Sized() && Pending() == line[end..] && out == old(out) && lineOut == old(lineOut)
        invariant column == Column(cfg, Pending()[..i])
      {
        assert Pending()[..i + 1][..i] == Pending()[..i];
        column := AdjustColumn(cfg, column, lineOut[i]);
        i := i + 1;
      }
      assert Pending()[..i] == Pending();
    }

    /** One character: it ends the line, goes on it, or is put on the next after a break. */
    method Accept(c: byte, ghost rest: seq<byte>)
      requires Valid() && offset < lineOut.Length
      modifies this, lineOut
      ensures Valid() && lineOut == old(lineOut)
      ensures out + Written(Folded(cfg, Pending() + rest))
          == old(out) + Written(Folded(cfg, old(Pending()) + ([c] + rest)))
    {
      hide Fits, Folded, Written, Column;
      ghost var was := Pending();
      var again := true;
      while again
        invariant Valid() && lineOut == old(lineOut) && (again ==> offset < lineOut.Length)
        invariant out + Written(Folded(cfg, Pending() + (if again then [c] + rest else rest)))
               == old(out) + Written(Folded(cfg, was + ([c] + rest)))
        decreases again, offset
      {
        again := Rescan(c, rest);
      }
    }

    /** The code from rescan on, up to the next jump. */
    method Rescan(c: byte, ghost rest: seq<byte>) returns (again: bool)
      requires Valid() && offset < lineOut.Length
      modifies this, lineOut
      ensures Valid() && lineOut == old(lineOut) && (again ==> offset < old(offset))
      ensures out + Written(Folded(cfg, Pending() + (if again then [c] + rest else rest)))
           == old(out) + Written(Folded(cfg, old(Pending()) + ([c] + rest)))
    {
      hide Fits, Folded, Written, Column;
      ghost var line := Pending();
      lineOut[offset] := c;
      assert lineOut[..offset] == line && lineOut[..offset + 1] == line + [c];
      if c == NEWLINE {
        LineEnds(cfg, line, rest);
        Write(offset + 1);
        column, offset := 0, 0;
        assert Pending() == [];
        EmptyFits(cfg);
        return false;
      }
      FitsExtend(cfg, line, c);
      ColumnExtend(cfg, line, c);
      var next := AdjustColumn(cfg, column, c);
      if next <= cfg.width || offset == 0 {
        column := next;
        offset := offset + 1;
        assert Pending() + rest == line + ([c] + rest);
        return false;
      }
      LineBreaks(cfg, line, c, rest);
      Wrap(line);
      again := true;
    }

    /** Writes the overlong line up to where it is cut, and a newline. The character that was too much is behind it. */
    method Wrap(ghost line: seq<byte>)
      requires Valid() && offset < lineOut.Length && line == Pending() && offset > 0
      modifies this, lineOut
      ensures Valid() && lineOut == old(lineOut)
      ensures out == old(out) + (line[..Cut(cfg, line)] + [NEWLINE]) && Pending() == line[Cut(cfg, line)..]
    {
      if cfg.breakSpaces {
        var end := FindBlank();
        if end > 0 {
          assert lineOut[..end] == line[..end];
          Write(end);
          out := out + [NEWLINE];
          MoveUp(end);
          return;
        }
      }
      lineOut[offset] := NEWLINE;
      assert lineOut[..offset + 1] == line + [NEWLINE];
      Write(offset + 1);
      column, offset := 0, 0;
      assert Pending() == [] && line[..|line|] == line && line[|line|..] == [];
      EmptyFits(cfg);
    }

    /** One input: its folded text is written. */
    method FoldStream(input: seq<byte>)
      requires Sized()
      modifies this, lineOut
      ensures Sized() && out == old(out) + Written(Folded(cfg, input))
      ensures lineOut == old(lineOut) || fresh(lineOut)
    {
      hide Fits, Folded, Written, Column;
      column, offset := 0, 0;
      assert Pending() == [] && [] + input == input && input[0..] == input;
      EmptyFits(cfg);
      var i := 0;
      while i < |input|
        invariant i <= |input| && Valid() && (lineOut == old(lineOut) || fresh(lineOut))
        invariant out + Written(Folded(cfg, Pending() + input[i..])) == old(out) + Written(Folded(cfg, input))
      {
        Grow();
        assert input[i..] == [input[i]] + input[i + 1..];
        Accept(input[i], input[i + 1..]);
        i := i + 1;
      }
      assert Pending() + input[i..] == Pending();
      LineStays(cfg, Pending());
      if offset != 0 {
        Write(offset);
      }
    }
  }

  lemma {:induction false} EmptyFits(cfg: Config)
    ensures Fits(cfg, []) && Column(cfg, []) == 0
  {
  }

  lemma {:induction false} ColumnExtend(cfg: Config, line: seq<byte>, c: byte)
    ensures Column(cfg, line + [c]) == AdjustColumn(cfg, Column(cfg, line), c)
  {
    assert (line + [c])[..|line|] == line;
  }

  /** A line that fits and ends the text is written as it is. */
  lemma {:induction false} LineStays(cfg: Config, line: seq<byte>)
    requires Fits(cfg, line)
    ensures Written(Folded(cfg, line)) == line
  {
    hide Folded, Written, Fits;
    assert line[..|line|] == line;
    LongestIs(cfg, line, 0, |line|);
    WrittenStep(cfg, line);
  }

  lemma {:induction false} LineEnds(cfg: Config, line: seq<byte>, rest: seq<byte>)
    requires Fits(cfg, line)
    ensures Written(Folded(cfg, line + ([NEWLINE] + rest))) == line + [NEWLINE] + Written(Folded(cfg, [] + rest))
  {
    hide Folded, Written;
    var s := line + ([NEWLINE] + rest);
    assert s[..|line|] == line && s[..|line| + 1] == line + [NEWLINE] && s[|line| + 1..] == rest && [] + rest == rest;
    FitsExtend(cfg, line, NEWLINE);
    hide Fits;
    LongestIs(cfg, s, 0, |line|);
    WrittenStep(cfg, s);
  }

  lemma {:induction false} LineBreaks(cfg: Config, line: seq<byte>, c: byte, rest: seq<byte>)
    requires Fits(cfg, line) && !Fits(cfg, line + [c]) && c != NEWLINE && line != []
    ensures var cut := Cut(cfg, line);
      Written(Folded(cfg, line + ([c] + rest)))
          == line[..cut] + [NEWLINE] + Written(Folded(cfg, line[cut..] + ([c] + rest)))
  {
    hide Folded, Written;
    var s := line + ([c] + rest);
    assert s[..|line|] == line && s[..|line| + 1] == line + [c];
    LongestIs(cfg, s, 0, |line|);
    hide Fits;
    WrittenStep(cfg, s);
    var cut := Cut(cfg, line);
    assert s[..cut] == line[..cut] && s[cut..] == line[cut..] + ([c] + rest);
  }

  /** The folded texts of those inputs that could be opened, one behind the other. */
  ghost function AllFolded(cfg: Config, inputs: seq<Option<seq<byte>>>): seq<byte>
  {
    if inputs == [] then []
    else
      var last := inputs[|inputs| - 1];
      AllFolded(cfg, inputs[..|inputs| - 1]) + (if last.Some? then Written(Folded(cfg, last.value)) else [])
  }

  /** fold_main, behind its options. */
  method FoldAll(cfg: Config, inputs: seq<Option<seq<byte>>>) returns (out: seq<byte>, ok: bool)
    ensures out == AllFolded(cfg, inputs)
    ensures ok <==> None !in inputs
  {
    hide Folded, Written;
    var f := new Folder(cfg);
    var i := 0;
    ok := true;
    while i < |inputs|
      invariant i <= |inputs| && f.cfg == cfg && f.Sized() && fresh(f) && fresh(f.lineOut)
      invariant f.out == AllFolded(cfg, inputs[..i]) && (ok <==> None !in inputs[..i])
    {
      assert inputs[..i + 1][..i] == inputs[..i] && inputs[..i + 1] == inputs[..i] + [inputs[i]];
      if inputs[i] == None {
        ok := false;
      } else {
        f.FoldStream(inputs[i].value);
      }
      i := i + 1;
    }
    assert inputs[..i] == inputs;
    out := f.out;
  }
}
