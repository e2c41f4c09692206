/** The dependency half of check_deps: one pass over flattened edges decides an AND of ORs. */
module DpkgDeps {
  import opened Bits
  import opened Options
  import opened Probing
  import opened DebianVersion
  import opened DpkgTables

  // ---------- what satisfies an edge ----------

  const SPACE: byte := 32
  const NEWLINE: byte := 10

  function Install(): seq<byte>
  {
    [105, 110, 115, 116, 97, 108, 108]
  }

  function Installed(): seq<byte>
  {
    Install() + [101, 100]
  }

  /** strcspn(s, " "): how many characters come before a space. */
  function BeforeSpace(s: seq<byte>): (n: nat)
    ensures n <= |s| && (n < |s| ==> s[n] == SPACE) && forall i :: 0 <= i < n ==> s[i] != SPACE
  {
    Find(s, SPACE, 0)
  }

  /** strspn(s, " "). */
  function Spaces(s: seq<byte>): (n: nat)
    ensures n <= |s| && (n < |s| ==> s[n] != SPACE) && forall i :: 0 <= i < n ==> s[i] == SPACE
  {
    if s == [] || s[0] != SPACE then 0 else 1 + Spaces(s[1..])
  }

  /** Behind the first word and the spaces after it. */
  function NextWord(s: seq<byte>): seq<byte>
  {
    var t := s[BeforeSpace(s)..];
    t[Spaces(t)..]
  }

  /** get_status: word num of a status line. */
  function StatusWord(s: seq<byte>, num: nat): seq<byte>
    requires num >= 1
  {
    if num == 1 then FirstWord(s) else StatusWord(NextWord(s), num - 1)
  }

  function FirstWord(s: seq<byte>): seq<byte>
  {
    var w := s[..BeforeSpace(s)];
    w[..Find(w, NEWLINE, 0)]
  }

  method GetStatus(text: seq<byte>, num: nat) returns (word: seq<byte>)
    requires num >= 1
    ensures word == StatusWord(text, num)
  {
    hide NextWord, FirstWord;
    var s := text;
    var i := 1;
    while i < num
      invariant 1 <= i <= num && StatusWord(s, num - i + 1) == StatusWord(text, num)
    {
      s := NextWord(s);
      i := i + 1;
    }
    word := FirstWord(s);
  }

  /** A word of a status line. */
  predicate IsWord(w: seq<byte>)
  {
    w != [] && forall i :: 0 <= i < |w| ==> w[i] != SPACE && w[i] != NEWLINE
  }

  /** A status line of three words. */
  function StatusLine(w1: seq<byte>, w2: seq<byte>, w3: seq<byte>): seq<byte>
  {
    w1 + ([SPACE] + (w2 + ([SPACE] + w3)))
  }

  /** Word k of a status line is the k-th of its three words. */
  lemma {:induction false} StatusWords(w1: seq<byte>, w2: seq<byte>, w3: seq<byte>)
    requires IsWord(w1) && IsWord(w2) && IsWord(w3)
    ensures var s := StatusLine(w1, w2, w3); StatusWord(s, 1) == w1 && StatusWord(s, 2) == w2 && StatusWord(s, 3) == w3
  {
    hide FirstWord, NextWord;
    var s, s2 := StatusLine(w1, w2, w3), w2 + ([SPACE] + w3);
    WordRead(w1, [SPACE] + s2);
    WordRead(w2, [SPACE] + w3);
    WordRead(w3, []);
    assert w3 + [] == w3;
    assert s2[0] == w2[0];
    WordSkipped(w1, s2);
    WordSkipped(w2, w3);
    assert StatusWord(s, 3) == StatusWord(s2, 2) == StatusWord(w3, 1);
  }

  lemma {:induction false} WordRead(w: seq<byte>, rest: seq<byte>)
    requires IsWord(w) && (rest != [] ==> rest[0] == SPACE)
    ensures FirstWord(w + rest) == w
  {
    var s := w + rest;
    assert BeforeSpace(s) == |w|;
    assert s[..|w|] == w;
    assert Find(w, NEWLINE, 0) == |w|;
  }

  lemma {:induction false} WordSkipped(w: seq<byte>, rest: seq<byte>)
    requires IsWord(w) && rest != [] && rest[0] != SPACE
    ensures NextWord(w + ([SPACE] + rest)) == rest
  {
    var s := w + ([SPACE] + rest);
    assert s[|w|] == SPACE;
    assert BeforeSpace(s) == |w|;
    assert s[|w|..] == [SPACE] + rest;
    assert Spaces([SPACE] + rest) == 1;
  }

  /** A status that lets its package satisfy an edge of the given kind. */
  predicate Allows(st: Status, kind: EdgeType)
  {
    match kind
    case PreDepends => StatusWord(st.text, 3) == Installed()
    case Depends => StatusWord(st.text, 1) == Install()
    case _ => false
  }

  ghost predicate NameAllowed(se: seq<Option<Status>>, name: seq<byte>, kind: EdgeType)
  {
    exists x :: 0 <= x < |se| && se[x].Some? && se[x].value.name == name && Allows(se[x].value, kind)
  }

  predicate ProvidesName(p: Package, name: seq<byte>)
  {
    exists j :: 0 <= j < |p.edges| && p.edges[j].kind.Provides? && p.edges[j].name == name
  }

  /** Some package of the right name and version satisfies e itself. */
  ghost predicate Direct(pe: seq<Option<Package>>, se: seq<Option<Status>>, e: Edge)
  {
    exists x :: 0 <= x < |pe| && pe[x].Some? && Matches(pe[x].value, e.name, e.version, e.op)
                && NameAllowed(se, pe[x].value.name, e.kind)
  }

  /** Some package provides what e names, and satisfies it. */
  ghost predicate Provided(pe: seq<Option<Package>>, se: seq<Option<Status>>, e: Edge)
  {
    exists x :: 0 <= x < |pe| && ProviderAt(pe, se, e, x)
  }

  ghost predicate ProviderAt(pe: seq<Option<Package>>, se: seq<Option<Status>>, e: Edge, x: nat)
    requires x < |pe|
  {
    pe[x].Some? && ProvidesName(pe[x].value, e.name) && NameAllowed(se, pe[x].value.name, e.kind)
  }

  ghost predicate Met(pe: seq<Option<Package>>, se: seq<Option<Status>>, e: Edge)
  {
    Direct(pe, se, e) || Provided(pe, se, e)
  }

  // ---------- the reference: an AND of ORs ----------

  predicate IsOr(e: Edge)
  {
    e.kind.OrDepends? || e.kind.OrPreDepends?
  }

  predicate IsDependency(e: Edge)
  {
    e.kind.Depends? || e.kind.PreDepends?
  }

  /** The kind of the alternatives behind an OR edge. */
  function AlternativeKind(kind: EdgeType): EdgeType
  {
    if kind.OrDepends? then Depends else if kind.OrPreDepends? then PreDepends else kind
  }

  /** Every OR edge is followed by its alternatives. */
  ghost predicate Formed(es: seq<Edge>)
    decreases |es|
  {
    if es == [] then true
    else if IsOr(es[0]) then
      && 1 <= es[0].count < |es|
      && (forall i :: 1 <= i <= es[0].count ==> es[i].kind == AlternativeKind(es[0].kind))
      && Formed(es[es[0].count + 1..])
    else Formed(es[1..])
  }

  /** Every dependency is met, and of every list of alternatives at least one. */
  ghost predicate Accepts(pe: seq<Option<Package>>, se: seq<Option<Status>>, es: seq<Edge>)
    requires Formed(es)
    decreases |es|
  {
    if es == [] then true
    else if IsOr(es[0]) then
      (exists i :: 1 <= i <= es[0].count && Met(pe, se, es[i])) && Accepts(pe, se, es[es[0].count + 1..])
    else (IsDependency(es[0]) ==> Met(pe, se, es[0])) && Accepts(pe, se, es[1..])
  }

  // ---------- which searches are made ----------

  /** The status of every package can be looked for. */
  ghost predicate NamesEnd(pe: seq<Option<Package>>, se: seq<Option<Status>>)
  {
    forall x :: 0 <= x < |pe| && pe[x].Some? ==> StatusEnds(se, pe[x].value.name)
  }

  /** What every dependency among the edges names can be looked for. */
  ghost predicate EdgesEnd(pe: seq<Option<Package>>, es: seq<Edge>)
  {
    forall i :: 0 <= i < |es| && IsDependency(es[i]) ==> PackageEnds(pe, es[i].name, es[i].version, es[i].op)
  }

  /** The searches that check_deps can make end. */
  ghost predicate SearchesEnd(pe: seq<Option<Package>>, se: seq<Option<Status>>)
  {
    && NamesEnd(pe, se)
    && forall x :: 0 <= x < |pe| && pe[x].Some? && NameAllowed(se, pe[x].value.name, Depends) ==>
         EdgesEnd(pe, pe[x].value.edges)
  }

  /** A free slot in either table is enough. */
  lemma RoomIsEnough(pe: seq<Option<Package>>, se: seq<Option<Status>>)
    requires (exists x :: 0 <= x < |pe| && pe[x].None?) && exists y :: 0 <= y < |se| && se[y].None?
    ensures SearchesEnd(pe, se)
  {
    hide NameAllowed, Matches;
    var x, y :| 0 <= x < |pe| && pe[x].None? && 0 <= y < |se| && se[y].None?;
    assert forall name: seq<byte> :: StatusEnds(se, name);
    assert forall e: Edge :: PackageEnds(pe, e.name, e.version, e.op);
  }

  // ---------- asking the tables ----------

  class Database {
    const packages: PackageTable
    const status: StatusTable

    constructor (p: PackageTable, s: StatusTable)
      ensures packages == p && status == s
    {
      packages, status := p, s;
    }

    ghost predicate Valid()
      reads packages.slots, status.slots
    {
      packages.Valid() && status.Valid()
    }

    ghost function Packages(): seq<Option<Package>>
      requires Valid()
      reads packages.slots, status.slots
    {
      packages.Entries()
    }

    ghost function Statuses(): seq<Option<Status>>
      requires Valid()
      reads packages.slots, status.slots
    {
      status.Entries()
    }

    /** package_satisfies_dependency. */
    method SatisfiesDependency(name: seq<byte>, kind: EdgeType) returns (ok: bool)
      requires Valid() && StatusEnds(Statuses(), name)
      ensures ok == NameAllowed(Statuses(), name, kind)
    {
      hide StatusHashes, AllRooted, HasRoom, PackagesOk, PackageHashes, Passed, Probe, HashOf, Unnamed, StatusWord,
          StatusEnds;
      var a, _ := status.Search(name);
      ghost var se := Statuses();
      assert status.slots[a] == se[a];
      if status.slots[a] == None {
        return false;
      }
      var st := status.slots[a].value;
      match kind
      case PreDepends =>
        var w := GetStatus(st.text, 3);
        ok := w == Installed();
      case Depends =>
        var w := GetStatus(st.text, 1);
        ok := w == Install();
      case _ => ok := false;
      OneStatus(se, a, name, kind);
    }

    /** search_for_provides: the next package after startAt that provides needle, or -1. */
    method SearchForProvides(needle: seq<byte>, startAt: int) returns (i: int)
      requires Valid() && -1 <= startAt < PACKAGE_HASH_PRIME
      ensures i == -1 || startAt < i < PACKAGE_HASH_PRIME
      ensures i >= 0 ==> Packages()[i].Some? && ProvidesName(Packages()[i].value, needle)
      ensures forall x :: startAt < x < (if i < 0 then PACKAGE_HASH_PRIME else i) && Packages()[x].Some? ==>
          !ProvidesName(Packages()[x].value, needle)
    {
      hide StatusHashes, AllRooted, HasRoom, PackagesOk, StatusOk, PackageHashes;
      ghost var pe := Packages();
      i := startAt + 1;
      while i < PACKAGE_HASH_PRIME
        invariant startAt < i <= PACKAGE_HASH_PRIME
        invariant forall x :: startAt < x < i && pe[x].Some? ==> !ProvidesName(pe[x].value, needle)
      {
        assert packages.slots[i] == pe[i];
        if packages.slots[i] != None {
          var p, j := packages.slots[i].value, 0;
          while j < |p.edges|
            invariant j <= |p.edges| && forall k :: 0 <= k < j ==>
                !(p.edges[k].kind.Provides? && p.edges[k].name == needle)
          {
            if p.edges[j].kind.Provides? && p.edges[j].name == needle {
              return;
            }
            j := j + 1;
          }
        }
        i := i + 1;
      }
      i := -1;
    }

    /** Is there a provider of e, after all, that satisfies it? */
    method SomeProvider(e: Edge) returns (ok: bool)
      requires Valid() && NamesEnd(Packages(), Statuses())
      ensures ok == Provided(Packages(), Statuses(), e)
    {
      hide StatusHashes, AllRooted, HasRoom, PackageHashes, NameAllowed, ProvidesName;
      var provider := -1;
      ok := false;
      ghost var pe, se := Packages(), Statuses();
      while true
        invariant -1 <= provider < PACKAGE_HASH_PRIME
        invariant forall x :: 0 <= x <= provider && x < |pe| ==> !ProviderAt(pe, se, e, x)
        decreases PACKAGE_HASH_PRIME - provider
      {
        provider := SearchForProvides(e.name, provider);
        if provider < 0 {
          return false;
        }
        ok := SatisfiesDependency(packages.slots[provider].value.name, e.kind);
        if ok {
          assert ProviderAt(pe, se, e, provider);
          return;
        }
      }
    }

    /** Is the edge met, by a package it names or by a provider? */
    method EdgeMet(e: Edge) returns (ok: bool)
      requires Valid() && NoNul(e.version) && NamesEnd(Packages(), Statuses())
      requires PackageEnds(Packages(), e.name, e.version, e.op)
      ensures ok == Met(Packages(), Statuses(), e)
    {
      hide StatusHashes, AllRooted, HasRoom, PackageHashes, NameAllowed, ProvidesName, Provided, Probe, HashOf, Passed,
          Unmatched;
      hide PackageEnds;
      hide VersionOrder, Split, Satisfies;
      var a, _ := packages.Search(e.name, e.version, e.op);
      ghost var pe := Packages();
      assert packages.slots[a] == pe[a];
      ok := false;
      if packages.slots[a] != None {
        ok := SatisfiesDependency(packages.slots[a].value.name, e.kind);
      }
      if !ok {
        ok := SomeProvider(e);
      }
    }

    /** The pass over one package's edges, with its counter of open alternatives. */
    method CheckEdges(edges: seq<Edge>) returns (ok: bool)
      requires Valid() && Formed(edges) && forall i :: 0 <= i < |edges| ==> NoNul(edges[i].version)
      requires NamesEnd(Packages(), Statuses()) && EdgesEnd(Packages(), edges)
      ensures ok == Accepts(Packages(), Statuses(), edges)
    {
      hide Database.Valid, Met, Formed, Accepts, NoNul;
      ghost var pe, se := Packages(), Statuses();
      var j, alternatives := 0, 0;
      var root: Option<Edge> := None;
      ghost var tried := 0;
      assert edges[0..] == edges;
      while j < |edges|
        invariant Pending(pe, se, edges, j, alternatives, root, tried)
        decreases |edges| - j
      {
        var e := edges[j];
        if root.None? || alternatives == 0 {
          AtEntry(pe, se, edges, j);
        } else {
          InList(pe, se, edges, j, alternatives, root, tried);
        }
        if IsOr(e) {
          alternatives, root, tried := e.count, Some(e), 0;
        } else {
          if alternatives == 0 {
            alternatives, root := 1, None;
          }
          if IsDependency(e) {
            // the kind of an alternative is that of its list
            assert root.Some? ==> e.kind == AlternativeKind(root.value.kind);
            var met := EdgeMet(e);
            alternatives := alternatives - 1;
            if !met && alternatives == 0 {
              return false;
            }
            if met && alternatives != 0 {
              j := j + alternatives;
              alternatives := 0;
            }
            tried := tried + 1;
          }
        }
        j := j + 1;
      }
      assert edges[j..] == [];
      NoEdges(pe, se);
      ok := true;
    }

    /** Every package's edges are as add_split_dependencies makes them. */
    ghost predicate AllFormed()
      requires Valid()
      reads packages.slots, status.slots
    {
      forall x :: 0 <= x < |Packages()| && Packages()[x].Some? ==> EdgesFormed(Packages()[x].value.edges)
    }

    /** The dependency half of check_deps: every package that is wanted has its dependencies met. */
    method CheckDeps() returns (ok: bool)
      requires Valid() && AllFormed() && SearchesEnd(Packages(), Statuses())
      ensures ok <==>
          forall x :: 0 <= x < |Packages()| && Packages()[x].Some? ==>
              Satisfied(Packages(), Statuses(), Packages()[x].value)
    {
      hide StatusHashes, AllRooted, HasRoom, PackageHashes, NameAllowed, Accepts, Formed, NoNul;
      ghost var pe, se := Packages(), Statuses();
      var i := 0;
      while i < PACKAGE_HASH_PRIME
        invariant i <= PACKAGE_HASH_PRIME
        invariant forall x :: 0 <= x < i && pe[x].Some? ==> Satisfied(pe, se, pe[x].value)
      {
        assert packages.slots[i] == pe[i];
        if packages.slots[i] != None {
          var p := packages.slots[i].value;
          // wanted: there is a status, and its first word is "install"
          var wanted := SatisfiesDependency(p.name, Depends);
          if wanted {
            var met := CheckEdges(p.edges);
            if !met {
              return false;
            }
          }
        }
        i := i + 1;
      }
      ok := true;
    }
  }

  /** Names occur once in the status table. */
  lemma {:induction false} OneStatus(se: seq<Option<Status>>, a: nat, name: seq<byte>, kind: EdgeType)
    requires StatusOk(se) && a < |se| && se[a].Some? && se[a].value.name == name
    ensures NameAllowed(se, name, kind) == Allows(se[a].value, kind)
  {
    hide AllRooted, StatusHashes, StatusWord;
  }

  ghost predicate EdgesFormed(es: seq<Edge>)
  {
    Formed(es) && forall i :: 0 <= i < |es| ==> NoNul(es[i].version)
  }

  /** A package that is wanted has its dependencies met. */
  ghost predicate Satisfied(pe: seq<Option<Package>>, se: seq<Option<Status>>, p: Package)
    requires EdgesFormed(p.edges)
  {
    NameAllowed(se, p.name, Depends) ==> Accepts(pe, se, p.edges)
  }

  // ---------- the pass, step by step ----------

  /** At edge j everything before is met; either a new entry starts here, or `tried` alternatives of the list of root
      were not met. */
  ghost predicate Pending(pe: seq<Option<Package>>, se: seq<Option<Status>>, edges: seq<Edge>, j: nat,
      alternatives: int,
                          root: Option<Edge>, tried: nat)
  {
    && Formed(edges)
    && if root.None? || alternatives == 0 then
         && j <= |edges| && 0 <= alternatives <= 1 && Formed(edges[j..])
         && Accepts(pe, se, edges) == Accepts(pe, se, edges[j..])
       else
         var from := j - tried - 1;
         && 0 <= from < |edges| && IsOr(edges[from]) && root.value == edges[from]
            && alternatives == root.value.count - tried > 0
         && from + root.value.count < |edges| && Formed(edges[from..])
         && (forall i :: from < i <= from + root.value.count ==> edges[i].kind == AlternativeKind(root.value.kind))
         && (forall i :: from < i < j ==> !Met(pe, se, edges[i]))
         && Accepts(pe, se, edges) == Accepts(pe, se, edges[from..])
  }

  lemma {:induction false} NoEdges(pe: seq<Option<Package>>, se: seq<Option<Status>>)
    ensures Formed([]) && Accepts(pe, se, [])
  {
  }

  /** A new entry starts at j. */
  lemma {:induction false} AtEntry(pe: seq<Option<Package>>, se: seq<Option<Status>>, edges: seq<Edge>, j: nat)
    requires j < |edges| && Formed(edges[j..])
    ensures IsOr(edges[j]) ==> 1 <= edges[j].count < |edges| - j
    ensures IsOr(edges[j]) ==> forall i :: j < i <= j + edges[j].count ==>
        edges[i].kind == AlternativeKind(edges[j].kind)
    ensures !IsOr(edges[j]) ==> Formed(edges[j + 1..])
    ensures !IsOr(edges[j]) ==>
      Accepts(pe, se, edges[j..])
          == ((IsDependency(edges[j]) ==> Met(pe, se, edges[j])) && Accepts(pe, se, edges[j + 1..]))
  {
    hide Met;
    var es := edges[j..];
    assert es[0] == edges[j] && es[1..] == edges[j + 1..];
    if IsOr(edges[j]) {
      forall i | j < i <= j + edges[j].count
        ensures edges[i].kind == AlternativeKind(edges[j].kind)
      {
        assert es[i - j] == edges[i];
      }
    }
  }

  /** An alternative at j, all before it in its list not met. */
  lemma {:induction false} InList(pe: seq<Option<Package>>, se: seq<Option<Status>>, edges: seq<Edge>, j: nat,
      alternatives: int,
                                  root: Option<Edge>, tried: nat)
    requires Pending(pe, se, edges, j, alternatives, root, tried) && root.Some? && alternatives != 0
    ensures j + alternatives <= |edges| && j < |edges| && IsDependency(edges[j])
        && edges[j].kind == AlternativeKind(root.value.kind)
    ensures Met(pe, se, edges[j]) ==>
        Formed(edges[j + alternatives..]) && Accepts(pe, se, edges) == Accepts(pe, se, edges[j + alternatives..])
    ensures !Met(pe, se, edges[j]) && alternatives == 1 ==> !Accepts(pe, se, edges)
  {
    hide Met;
    var from := j - tried - 1;
    var es, n := edges[from..], root.value.count;
    assert es[0] == edges[from] && es[n + 1..] == edges[from + n + 1..];
    assert forall i :: 1 <= i <= n ==> es[i] == edges[from + i];
    assert es[j - from] == edges[j];
  }
}
