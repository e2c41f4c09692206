/** Which status lines let a package satisfy a dependency, in their own words. */
module DpkgStatus {
  import opened Bits
  import opened DpkgTables
  import opened DpkgDeps

  predicate Ascii(s: string)
  {
    forall i :: 0 <= i < |s| ==> s[i] < 128 as char
  }

  function Bytes(s: string): (b: seq<byte>)
    requires Ascii(s)
    ensures |b| == |s| && forall i :: 0 <= i < |s| ==> b[i] == s[i] as int
  {
    seq(|s|, i requires 0 <= i < |s| => s[i] as int)
  }

  predicate Word(w: string)
  {
    Ascii(w) && w != "" && ' ' !in w && '\n' !in w
  }

  lemma {:induction false} SameBytes(v: string, w: string)
    requires Ascii(v) && Ascii(w)
    ensures Bytes(v) == Bytes(w) <==> v == w
  {
    if Bytes(v) == Bytes(w) {
      forall i | 0 <= i < |v|
        ensures v[i] == w[i]
      {
        assert Bytes(v)[i] == Bytes(w)[i];
      }
    }
  }

  /** A dependency is satisfied by a package that is to be installed, which the first word says; a pre-dependency by one
      that is installed, which the third says; nothing else asks for a status. */
  lemma {:induction false} StatusAllows(name: seq<byte>, want: string, flag: string, state: string, kind: EdgeType)
    requires Word(want) && Word(flag) && Word(state)
    ensures var line := want + " " + flag + " " + state;
            Ascii(line) &&
            (Allows(Status(name, Bytes(line)), kind) <==>
              (kind.Depends? && want == "install") || (kind.PreDepends? && state == "installed"))
  {
    hide StatusWord;
    var line := want + " " + flag + " " + state;
    var a, b, c := Bytes(want), Bytes(flag), Bytes(state);
    assert Ascii(line);
    assert Bytes(line) == StatusLine(a, b, c);
    StatusWords(a, b, c);
    SameBytes(want, "install");
    SameBytes(state, "installed");
    assert Bytes("install") == Install() && Bytes("installed") == Installed();
  }
}
