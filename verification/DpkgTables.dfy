/** dpkg's hash tables: open addressing with double hashing, against finite maps. */
module DpkgTables {
  import opened Bits
  import opened Sums
  import opened Options
  import opened Primes
  import opened Probing
  import opened DebianVersion

  const NAME_HASH_PRIME := 16381
  const PACKAGE_HASH_PRIME := 10007
  const STATUS_HASH_PRIME := 8191
  const LONG := 0x1_0000_0000_0000_0000

  /** What the hash of a key has added up to at character i. */
  function HashNum(key: seq<byte>, i: nat): nat
    requires i <= |key|
  {
    if i == 0 then 0
    else if i == 1 then key[0]
    else (HashNum(key, i - 1) + Mix(key[i - 1], key[i - 2], i - 1)) % LONG
  }

  /** The share of the character c at i, after the character b. */
  function Mix(c: nat, b: nat, i: nat): nat
  {
    Shl(c + b, c * i % 24)
  }

  /** For characters below 128 the shift stays within the code's 32-bit int. */
  lemma {:induction false} MixFits(c: nat, b: nat, i: nat)
    requires c < 128 && b < 128
    ensures Mix(c, b, i) < 0x8000_0000
  {
    var k := c * i % 24;
    ShlIsMul(c + b, k);
    Pow2Monotone(k, 23);
    assert Pow2(23) == 0x80_0000 by {
      assert Pow2(8) == 0x100;
      assert Pow2(16) == 0x1_0000;
    }
    TimesBound(Pow2(k), 0x80_0000, c + b);
  }

  lemma TimesBound(p: nat, q: nat, v: nat)
    requires p <= q && v < 256
    ensures p * v <= q * 255
  {
  }

  /** Start and decrement of a key's probe sequence. */
  function HashOf(key: seq<byte>, p: nat): (h: Hash)
    requires p >= 2
    ensures HashOk(h, p)
  {
    var num := HashNum(key, |key|);
    Hash(num % 0x1_0000_0000 % p, 1 + num % (p - 1))
  }

  /** make_hash. */
  method MakeHash(key: seq<byte>, p: nat) returns (h: Hash)
    requires p >= 2
    ensures h == HashOf(key, p)
  {
    hide Mix;
    var hashNum: nat := if key == [] then 0 else key[0];
    var i := 1;
    while i < |key|
      invariant 1 <= i && (if key == [] then i == 1 && hashNum == 0 else i <= |key| && hashNum == HashNum(key, i))
    {
      hashNum := (hashNum + Mix(key[i], key[i - 1], i)) % LONG;
      i := i + 1;
    }
    h := Hash(hashNum % 0x1_0000_0000 % p, 1 + hashNum % (p - 1));
  }

  // ---------- tables of hashes ----------

  /** Which slots are taken. */
  ghost function Taken(hs: seq<Option<Hash>>): (t: seq<bool>)
    ensures |t| == |hs| && forall x :: 0 <= x < |hs| ==> t[x] == hs[x].Some?
  {
    seq(|hs|, x requires 0 <= x < |hs| => hs[x].Some?)
  }

  /** Before every entry the slots of its probe sequence are taken. */
  ghost predicate AllRooted(hs: seq<Option<Hash>>)
  {
    forall x :: 0 <= x < |hs| && hs[x].Some? ==> HashOk(hs[x].value, |hs|) && Rooted(Taken(hs), hs[x].value, x)
  }

  ghost predicate HasRoom(hs: seq<Option<Hash>>)
  {
    exists x :: 0 <= x < |hs| && hs[x].None?
  }

  /** Taking the first free slot of a probe sequence, or one that the same sequence owns, keeps the table rooted. */
  lemma RootedInsert(hs: seq<Option<Hash>>, h: Hash, x: nat, i: nat)
    requires AllRooted(hs) && HashOk(h, |hs|) && i < |hs| && OnWay(Taken(hs), h, x, i) && x < |hs|
    ensures AllRooted(hs[x := Some(h)])
  {
    var hs' := hs[x := Some(h)];
    forall y | 0 <= y < |hs'| && hs'[y].Some?
      ensures HashOk(hs'[y].value, |hs'|) && Rooted(Taken(hs'), hs'[y].value, y)
    {
      if y == x {
        assert OnWay(Taken(hs'), h, x, i);
      } else {
        RootedKept(Taken(hs), Taken(hs'), hs[y].value, y);
      }
    }
  }

  /** An entry of a probe sequence lies before the first free slot of the sequence. */
  lemma BeforeFree(hs: seq<Option<Hash>>, h: Hash, x: nat, i: nat) returns (j: nat)
    requires AllRooted(hs) && x < |hs| && hs[x] == Some(h) && i < |hs| && HashOk(h, |hs|) && hs[Probe(h, |hs|, i)].None?
    ensures j < i && Probe(h, |hs|, j) == x
  {
    j :| 0 <= j < |hs| && OnWay(Taken(hs), h, x, j);
    assert !Taken(hs)[Probe(h, |hs|, i)];
  }

  /** The slots passed so far are taken by other keys. */
  ghost predicate Passed(hs: seq<Option<Hash>>, other: seq<bool>, h: Hash, i: nat)
    requires HashOk(h, |hs|) && |other| == |hs|
  {
    forall j :: 0 <= j < i ==> hs[Probe(h, |hs|, j)].Some? && other[Probe(h, |hs|, j)]
  }

  /** Some slot is free, or holds what is looked for. */
  ghost predicate Ends(hs: seq<Option<Hash>>, other: seq<bool>)
    requires |other| == |hs|
  {
    exists x :: 0 <= x < |hs| && (hs[x].None? || !other[x])
  }

  /** A search ends at step i. */
  ghost predicate StopsAt(hs: seq<Option<Hash>>, other: seq<bool>, h: Hash, i: nat)
    requires HashOk(h, |hs|) && |other| == |hs|
  {
    hs[Probe(h, |hs|, i)].None? || !other[Probe(h, |hs|, i)]
  }

  /** A probe sequence that ends at all ends within the first pass. */
  lemma EndsInTime(hs: seq<Option<Hash>>, other: seq<bool>, h: Hash, i: nat)
    requires HashOk(h, |hs|) && |other| == |hs| && Prime(|hs|) && Ends(hs, other) && Passed(hs, other, h, i)
    ensures i < |hs|
  {
    var x :| 0 <= x < |hs| && (hs[x].None? || !other[x]);
    var f := Reaches(h, |hs|, x);
    assert StopsAt(hs, other, h, f);
  }

  /** A probe sequence ends if and only if a slot is free or holds what is looked for. */
  lemma ProbeEnds(hs: seq<Option<Hash>>, other: seq<bool>, h: Hash)
    requires HashOk(h, |hs|) && |other| == |hs| && Prime(|hs|)
    ensures (exists i: nat :: StopsAt(hs, other, h, i)) <==> Ends(hs, other)
  {
    hide Prime;
    if x :| 0 <= x < |hs| && (hs[x].None? || !other[x]) {
      var f := Reaches(h, |hs|, x);
      assert StopsAt(hs, other, h, f);
    }
  }

  /** A free slot at the end of a search: every entry of the sequence was passed. */
  lemma AllPassed(hs: seq<Option<Hash>>, other: seq<bool>, h: Hash, i: nat)
    requires AllRooted(hs) && HashOk(h, |hs|) && |other| == |hs| && i < |hs| && Passed(hs, other, h, i)
    requires hs[Probe(h, |hs|, i)].None?
    ensures forall y :: 0 <= y < |hs| && hs[y] == Some(h) ==> other[y]
    ensures AllRooted(hs[Probe(h, |hs|, i) := Some(h)])
  {
    forall y | 0 <= y < |hs| && hs[y] == Some(h)
      ensures other[y]
    {
      var j := BeforeFree(hs, h, y, i);
    }
    assert OnWay(Taken(hs), h, Probe(h, |hs|, i), i);
    RootedInsert(hs, h, Probe(h, |hs|, i), i);
  }

  // ---------- names ----------

  ghost function NameHashes(s: seq<Option<seq<byte>>>): (hs: seq<Option<Hash>>)
    requires |s| >= 2
    ensures |hs| == |s| && forall x :: 0 <= x < |s| ==>
        hs[x] == if s[x].None? then None else Some(HashOf(s[x].value, |s|))
  {
    seq(|s|, x requires 0 <= x < |s| => if s[x].None? then None else Some(HashOf(s[x].value, |s|)))
  }

  ghost predicate NamesOk(s: seq<Option<seq<byte>>>)
  {
    && |s| == NAME_HASH_PRIME && AllRooted(NameHashes(s))
    && forall x, y :: 0 <= x < y < |s| && s[x].Some? && s[y].Some? ==> s[x].value != s[y].value
  }

  /** The table as a map from strings to their indices. */
  ghost function IndexOf(s: seq<Option<seq<byte>>>): map<seq<byte>, nat>
    requires NamesOk(s)
  {
    map x | 0 <= x < |s| && s[x].Some? :: s[x].value := x
  }

  ghost function Differs(s: seq<Option<seq<byte>>>, key: seq<byte>): (o: seq<bool>)
    ensures |o| == |s| && forall x :: 0 <= x < |s| ==> o[x] == (s[x] != Some(key))
  {
    seq(|s|, x requires 0 <= x < |s| => s[x] != Some(key))
  }

  /** A free slot at the end of the search: the key is new, and may go there. */
  lemma NameInsert(s: seq<Option<seq<byte>>>, key: seq<byte>, i: nat)
    requires NamesOk(s) && i < |s|
    requires var h := HashOf(key, |s|); Passed(NameHashes(s), Differs(s, key), h, i) && s[Probe(h, |s|, i)].None?
    ensures var x := Probe(HashOf(key, |s|), |s|, i);
            key !in IndexOf(s) && NamesOk(s[x := Some(key)]) && IndexOf(s[x := Some(key)]) == IndexOf(s)[key := x]
  {
    hide AllRooted, Passed, Probe, IndexOf, HashOf;
    var h := HashOf(key, |s|);
    var hs, x := NameHashes(s), Probe(h, |s|, i);
    var s' := s[x := Some(key)];
    AllPassed(hs, Differs(s, key), h, i);
    forall y | 0 <= y < |s|
      ensures s[y] != Some(key)
    {
      assert hs[y] == Some(h) ==> Differs(s, key)[y];
    }
    assert NameHashes(s') == hs[x := Some(h)];
    IndexGrows(s, s', key, x);
  }

  lemma IndexGrows(s: seq<Option<seq<byte>>>, s': seq<Option<seq<byte>>>, key: seq<byte>, x: nat)
    requires NamesOk(s) && NamesOk(s') && x < |s| && s[x].None? && s' == s[x := Some(key)]
        && forall y :: 0 <= y < |s| ==> s[y] != Some(key)
    ensures key !in IndexOf(s) && IndexOf(s') == IndexOf(s)[key := x]
  {
    hide AllRooted, NameHashes;
    var m, m' := IndexOf(s)[key := x], IndexOf(s');
    forall k | k in m'
      ensures k in m && m[k] == m'[k]
    {
      var y :| 0 <= y < |s'| && s'[y].Some? && s'[y].value == k;
      assert y != x ==> s[y].value == k;
    }
    forall k | k in m
      ensures k in m'
    {
      if k == key {
        assert s'[x].value == k;
      } else {
        var y :| 0 <= y < |s| && s[y].Some? && s[y].value == k;
        assert s'[y].value == k;
      }
    }
    assert m.Keys == m'.Keys;
  }

  class NameTable {
    const slots: array<Option<seq<byte>>>

    ghost predicate Valid()
      reads slots
    {
      slots.Length == NAME_HASH_PRIME + 1 && NamesOk(slots[..NAME_HASH_PRIME])
    }

    ghost function Index(): map<seq<byte>, nat>
      requires Valid()
      reads slots
    {
      IndexOf(slots[..NAME_HASH_PRIME])
    }

    constructor ()
      ensures Valid() && fresh(slots) && Index() == map[]
    {
      slots := new Option<seq<byte>>[NAME_HASH_PRIME + 1](_ => None);
    }

    /** search_name_hashtable: the index of a string, which is added when it is new. */
    method Search(key: seq<byte>) returns (a: nat)
      requires Valid() && (|Index()| < NAME_HASH_PRIME || key in Index())
      modifies slots
      ensures Valid() && a < NAME_HASH_PRIME && Index() == old(Index())[key := a]
      ensures key in old(Index()) ==> old(Index())[key] == a
      ensures forall x :: 0 <= x < slots.Length && x != a ==> slots[x] == old(slots[x])
    {
      hide NamesOk, IndexOf, Ends, Prime, HashOf, Passed, Differs, NameHashes, NextProbe;
      ghost var s := slots[..NAME_HASH_PRIME];
      assert |s| == NAME_HASH_PRIME;
      NameEnds(s, key);
      var h := MakeHash(key, NAME_HASH_PRIME);
      a := h.start;
      ghost var i := 0;
      NonePassed(NameHashes(s), Differs(s, key), h);
      while slots[a] != None
        invariant i < NAME_HASH_PRIME && a == Probe(h, NAME_HASH_PRIME, i)
            && Passed(NameHashes(s), Differs(s, key), h, i)
        decreases NAME_HASH_PRIME - i
        modifies {}
      {
        assert slots[a] == s[a];
        if slots[a] == Some(key) {
          NameFound(s, key, a);
          return;
        }
        SearchGoesOn(s, key, h, i);
        a := NextProbe(a, h.dec, NAME_HASH_PRIME);
        i := i + 1;
      }
      assert slots[a] == s[a];
      NameInsert(s, key, i);
      slots[a] := Some(key);
      assert slots[..NAME_HASH_PRIME] == s[a := Some(key)];
    }
  }

  /** Equal strings get one index and different strings different ones, over any run of searches, as long as the table
      has slots for all the different strings. */
  method SearchAll(table: NameTable, keys: seq<seq<byte>>) returns (indices: seq<nat>)
    requires table.Valid() && |table.Index().Keys + Strings(keys)| <= NAME_HASH_PRIME
    modifies table.slots
    ensures table.Valid() && |indices| == |keys|
    ensures forall i, j :: 0 <= i < |keys| && 0 <= j < |keys| ==> (indices[i] == indices[j] <==> keys[i] == keys[j])
    ensures forall k :: k in old(table.Index()) ==> k in table.Index() && table.Index()[k] == old(table.Index())[k]
    ensures table.Index().Keys == old(table.Index().Keys) + Strings(keys)
  {
    hide NamesOk, IndexOf, Strings;
    assert Strings(keys[..0]) == {} by { StringsSome(keys, 0); }
    indices := [];
    ghost var all := table.Index().Keys + Strings(keys);
    while |indices| < |keys|
      invariant table.Valid() && |indices| <= |keys|
          && table.Index().Keys == old(table.Index().Keys) + Strings(keys[..|indices|])
      invariant forall i :: 0 <= i < |indices| ==> keys[i] in table.Index() && indices[i] == table.Index()[keys[i]]
      invariant forall k :: k in old(table.Index()) ==> k in table.Index() && table.Index()[k] == old(table.Index())[k]
    {
      var key := keys[|indices|];
      StringsSome(keys, |indices|);
      RoomForNew(table.Index(), all, key);
      var a := table.Search(key);
      indices := indices + [a];
    }
    assert keys[..|indices|] == keys;
    forall i, j | 0 <= i < |keys| && 0 <= j < |keys|
      ensures indices[i] == indices[j] <==> keys[i] == keys[j]
    {
      OneToOne(table.slots[..NAME_HASH_PRIME], keys[i], keys[j]);
    }
  }

  function Strings(keys: seq<seq<byte>>): set<seq<byte>>
  {
    set k | k in keys
  }

  lemma StringsSome(keys: seq<seq<byte>>, n: nat)
    requires n <= |keys|
    ensures Strings(keys[..n]) <= Strings(keys) && Strings(keys[..0]) == {}
    ensures n < |keys| ==> keys[n] in Strings(keys) && Strings(keys[..n + 1]) == Strings(keys[..n]) + {keys[n]}
  {
    if n < |keys| {
      assert keys[..n + 1] == keys[..n] + [keys[n]];
    }
  }

  lemma RoomForNew(m: map<seq<byte>, nat>, all: set<seq<byte>>, key: seq<byte>)
    requires m.Keys <= all && key in all
    ensures |m| < |all| || key in m
  {
    if key !in m {
      assert m.Keys <= all - {key};
      SubsetSize(m.Keys, all - {key});
      assert |m.Keys| == |m|;
    }
  }

  lemma {:induction false} SubsetSize<T>(a: set<T>, b: set<T>)
    requires a <= b
    ensures |a| <= |b|
    decreases |a|
  {
    if a != {} {
      var x :| x in a;
      SubsetSize(a - {x}, b - {x});
    }
  }

  lemma OneToOne(s: seq<Option<seq<byte>>>, k: seq<byte>, l: seq<byte>)
    requires NamesOk(s) && k in IndexOf(s) && l in IndexOf(s)
    ensures IndexOf(s)[k] == IndexOf(s)[l] <==> k == l
  {
    hide AllRooted, NameHashes;
  }

  /** Fewer strings than slots leave a slot free. */
  lemma RoomLeft(s: seq<Option<seq<byte>>>)
    requires NamesOk(s) && |IndexOf(s)| < |s|
    ensures HasRoom(NameHashes(s))
  {
    hide AllRooted;
    var m := IndexOf(s);
    if !HasRoom(NameHashes(s)) {
      forall x | x in AllSlots(|s|)
        ensures x in m.Values
      {
        assert NameHashes(s)[x].Some?;
        assert s[x].value in m && m[s[x].value] == x;
      }
      assert AllSlots(|s|) <= m.Values;
      SubsetCount(AllSlots(|s|), m.Values);
      SlotsCount(|s|);
      FewValues(m);
    }
  }

  lemma {:induction false} FewValues(m: map<seq<byte>, nat>)
    ensures |m.Values| <= |m|
    decreases |m|
  {
    if m != map[] {
      var k :| k in m;
      var m' := map j | j in m && j != k :: m[j];
      assert m'.Keys == m.Keys - {k};
      assert |m'| == |m| - 1;
      FewValues(m');
      forall v | v in m.Values
        ensures v in m'.Values + {m[k]}
      {
        var j :| j in m && m[j] == v;
        if j != k {
          assert j in m' && m'[j] == v;
        }
      }
      SubsetCount(m.Values, m'.Values + {m[k]});
    }
  }

  lemma {:induction false} ManyValues(m: map<seq<byte>, nat>)
    requires forall j, k :: j in m && k in m && m[j] == m[k] ==> j == k
    ensures |m.Values| >= |m|
    decreases |m|
  {
    if m != map[] {
      var k :| k in m;
      var m' := map j | j in m && j != k :: m[j];
      assert m'.Keys == m.Keys - {k};
      assert |m'| == |m| - 1;
      ManyValues(m');
      assert m[k] !in m'.Values;
      assert m'.Values + {m[k]} <= m.Values;
      SubsetCount(m'.Values + {m[k]}, m.Values);
    }
  }

  /** A free slot means fewer strings than slots. */
  lemma FreeMeansFewer(s: seq<Option<seq<byte>>>, x: nat)
    requires NamesOk(s) && x < |s| && s[x].None?
    ensures |IndexOf(s)| < |s|
  {
    hide AllRooted;
    var m := IndexOf(s);
    ManyValues(m);
    assert m.Values <= AllSlots(|s|) - {x};
    SubsetCount(m.Values, AllSlots(|s|) - {x});
    SlotsCount(|s|);
  }

  lemma NameEnds(s: seq<Option<seq<byte>>>, key: seq<byte>)
    requires NamesOk(s)
    ensures Ends(NameHashes(s), Differs(s, key)) <==> |IndexOf(s)| < |s| || key in IndexOf(s)
  {
    hide AllRooted, HashOf;
    var hs, other := NameHashes(s), Differs(s, key);
    if |IndexOf(s)| < |s| {
      RoomLeft(s);
      var x :| 0 <= x < |hs| && hs[x].None?;
    }
    if key in IndexOf(s) {
      assert !other[IndexOf(s)[key]];
    }
    if x :| 0 <= x < |hs| && (hs[x].None? || !other[x]) {
      if s[x].None? {
        FreeMeansFewer(s, x);
      } else {
        assert s[x].value == key;
      }
    }
  }

  /** The search for a name ends if and only if the table has a free slot or the name. */
  lemma NameSearchEnds(s: seq<Option<seq<byte>>>, key: seq<byte>)
    requires NamesOk(s)
    ensures (exists i: nat :: StopsAt(NameHashes(s), Differs(s, key), HashOf(key, |s|), i)) <==>
        |IndexOf(s)| < |s| || key in IndexOf(s)
  {
    hide AllRooted, HashOf, StopsAt, Ends, IndexOf, NameHashes, Differs, Prime;
    Prime16381();
    ProbeEnds(NameHashes(s), Differs(s, key), HashOf(key, |s|));
    NameEnds(s, key);
  }

  lemma SearchGoesOn(s: seq<Option<seq<byte>>>, key: seq<byte>, h: Hash, i: nat)
    requires |s| == NAME_HASH_PRIME && HashOk(h, |s|) && Ends(NameHashes(s), Differs(s, key))
    requires Passed(NameHashes(s), Differs(s, key), h, i)
    requires s[Probe(h, |s|, i)].Some? && s[Probe(h, |s|, i)] != Some(key)
    ensures i + 1 < |s| && Passed(NameHashes(s), Differs(s, key), h, i + 1)
  {
    hide Prime, Ends, HashOf, Probe;
    Prime16381();
    EndsInTime(NameHashes(s), Differs(s, key), h, i + 1);
  }

  lemma NameFound(s: seq<Option<seq<byte>>>, key: seq<byte>, a: nat)
    requires NamesOk(s) && a < |s| && s[a] == Some(key)
    ensures key in IndexOf(s) && IndexOf(s)[key] == a && IndexOf(s)[key := a] == IndexOf(s)
  {
    assert s[a].value == key;
  }

  // ---------- packages and their status ----------

  datatype EdgeType = PreDepends | OrPreDepends | Depends | OrDepends | Replaces | Provides | Conflicts | Suggests
      | Recommends | Enhances

  /** An edge; `count` is the number of alternatives behind an OR edge. Indices into the name table are written as the
      strings they stand for. */
  datatype Edge = Edge(kind: EdgeType, op: Operator, name: seq<byte>, version: seq<byte>, count: nat)

  datatype Package = Package(name: seq<byte>, version: seq<byte>, edges: seq<Edge>)

  ghost function PackageHashes(s: seq<Option<Package>>): (hs: seq<Option<Hash>>)
    requires |s| >= 2
    ensures |hs| == |s| && forall x :: 0 <= x < |s| ==>
        hs[x] == if s[x].None? then None else Some(HashOf(s[x].value.name, |s|))
  {
    seq(|s|, x requires 0 <= x < |s| => if s[x].None? then None else Some(HashOf(s[x].value.name, |s|)))
  }

  /** A package that a search for a name and a version clause accepts. */
  ghost predicate Matches(p: Package, name: seq<byte>, version: seq<byte>, op: Operator)
  {
    p.name == name && (op.VerAny? || Satisfies(VersionOrder(Split(p.version), Split(version)), op))
  }

  ghost function Unmatched(s: seq<Option<Package>>, name: seq<byte>, version: seq<byte>, op: Operator): (o: seq<bool>)
    ensures |o| == |s| && forall x :: 0 <= x < |s| ==> o[x] == (s[x].None? || !Matches(s[x].value, name, version, op))
  {
    seq(|s|, x requires 0 <= x < |s| => s[x].None? || !Matches(s[x].value, name, version, op))
  }

  ghost predicate PackagesOk(s: seq<Option<Package>>)
  {
    && |s| == PACKAGE_HASH_PRIME && AllRooted(PackageHashes(s))
    && forall x :: 0 <= x < |s| && s[x].Some? ==> NoNul(s[x].value.version)
  }

  /** No two entries have the same name and equivalent versions. */
  ghost predicate OnePerVersion(s: seq<Option<Package>>)
  {
    forall x, y :: 0 <= x < |s| && 0 <= y < |s| && x != y && s[x].Some? && s[y].Some? ==>
                     !Matches(s[y].value, s[x].value.name, s[x].value.version, VerEqual)
  }

  /** A free slot at the end of the search: no package matches. */
  lemma NoPackage(s: seq<Option<Package>>, name: seq<byte>, version: seq<byte>, op: Operator, i: nat)
    requires PackagesOk(s) && i < |s|
    requires var h := HashOf(name, |s|);
        Passed(PackageHashes(s), Unmatched(s, name, version, op), h, i) && s[Probe(h, |s|, i)].None?
    ensures forall x :: 0 <= x < |s| && s[x].Some? ==> !Matches(s[x].value, name, version, op)
    ensures AllRooted(PackageHashes(s)[Probe(HashOf(name, |s|), |s|, i) := Some(HashOf(name, |s|))])
  {
    hide AllRooted, Passed, Probe, HashOf, Satisfies, VersionOrder, Split;
    var h := HashOf(name, |s|);
    var hs := PackageHashes(s);
    AllPassed(hs, Unmatched(s, name, version, op), h, i);
    forall x | 0 <= x < |s| && s[x].Some?
      ensures !Matches(s[x].value, name, version, op)
    {
      assert hs[x] == Some(h) ==> Unmatched(s, name, version, op)[x];
    }
  }

  /** Some slot is free, or holds a package that is looked for. */
  ghost predicate PackageEnds(s: seq<Option<Package>>, name: seq<byte>, version: seq<byte>, op: Operator)
  {
    exists x :: 0 <= x < |s| && (s[x].None? || Matches(s[x].value, name, version, op))
  }

  lemma PackageEndsIs(s: seq<Option<Package>>, name: seq<byte>, version: seq<byte>, op: Operator)
    requires |s| >= 2
    ensures PackageEnds(s, name, version, op) <==> Ends(PackageHashes(s), Unmatched(s, name, version, op))
  {
    hide Matches, HashOf;
    var hs, other := PackageHashes(s), Unmatched(s, name, version, op);
    if x :| 0 <= x < |s| && (s[x].None? || Matches(s[x].value, name, version, op)) {
      assert hs[x].None? || !other[x];
    }
    if x :| 0 <= x < |hs| && (hs[x].None? || !other[x]) {
      assert s[x].None? || Matches(s[x].value, name, version, op);
    }
  }

  /** The search for a package ends if and only if the table has a free slot or a package that matches. */
  lemma PackageSearchEnds(s: seq<Option<Package>>, name: seq<byte>, version: seq<byte>, op: Operator)
    requires PackagesOk(s)
    ensures (exists i: nat :: StopsAt(PackageHashes(s), Unmatched(s, name, version, op), HashOf(name, |s|), i))
       <==> PackageEnds(s, name, version, op)
  {
    hide AllRooted, HashOf, StopsAt, Ends, PackageHashes, Unmatched, Prime, PackageEnds;
    Prime10007();
    ProbeEnds(PackageHashes(s), Unmatched(s, name, version, op), HashOf(name, |s|));
    PackageEndsIs(s, name, version, op);
  }

  lemma PackageGoesOn(s: seq<Option<Package>>, name: seq<byte>, version: seq<byte>, op: Operator, h: Hash, i: nat)
    requires |s| == PACKAGE_HASH_PRIME && HashOk(h, |s|) && PackageEnds(s, name, version, op)
    requires Passed(PackageHashes(s), Unmatched(s, name, version, op), h, i)
    requires s[Probe(h, |s|, i)].Some? && !Matches(s[Probe(h, |s|, i)].value, name, version, op)
    ensures i + 1 < |s| && Passed(PackageHashes(s), Unmatched(s, name, version, op), h, i + 1)
  {
    hide Prime, HashOf, Probe, Matches;
    Prime10007();
    PackageEndsIs(s, name, version, op);
    hide Ends, PackageEnds;
    EndsInTime(PackageHashes(s), Unmatched(s, name, version, op), h, i + 1);
  }

  class PackageTable {
    const slots: array<Option<Package>>

    ghost predicate Valid()
      reads slots
    {
      slots.Length == PACKAGE_HASH_PRIME + 1 && PackagesOk(Entries())
    }

    ghost function Entries(): seq<Option<Package>>
      requires slots.Length == PACKAGE_HASH_PRIME + 1
      reads slots
    {
      slots[..PACKAGE_HASH_PRIME]
    }

    constructor ()
      ensures Valid() && fresh(slots) && OnePerVersion(Entries()) && forall x :: 0 <= x < PACKAGE_HASH_PRIME ==>
          Entries()[x].None?
    {
      slots := new Option<Package>[PACKAGE_HASH_PRIME + 1](_ => None);
    }

    /** search_package_hashtable: a matching package, or the free slot where one would go; i is the step of the
        sequence. */
    method Search(name: seq<byte>, version: seq<byte>, op: Operator) returns (a: nat, ghost i: nat)
      requires Valid() && PackageEnds(Entries(), name, version, op) && NoNul(version)
      ensures a < PACKAGE_HASH_PRIME && i < PACKAGE_HASH_PRIME
          && a == Probe(HashOf(name, PACKAGE_HASH_PRIME), PACKAGE_HASH_PRIME, i)
      ensures Passed(PackageHashes(Entries()), Unmatched(Entries(), name, version, op),
          HashOf(name, PACKAGE_HASH_PRIME), i)
      ensures if slots[a].Some? then Matches(slots[a].value, name, version, op)
              else forall x :: 0 <= x < PACKAGE_HASH_PRIME && Entries()[x].Some? ==>
                  !Matches(Entries()[x].value, name, version, op)
    {
      hide AllRooted, PackageEnds, Prime, HashOf, Passed, Unmatched, PackageHashes, NextProbe, VersionOrder, Split,
          Satisfies;
      ghost var s := Entries();
      var h := MakeHash(name, PACKAGE_HASH_PRIME);
      a, i := h.start, 0;
      assert Passed(PackageHashes(s), Unmatched(s, name, version, op), h,
          0) by { NonePassed(PackageHashes(s), Unmatched(s, name, version, op), h); }
      while slots[a] != None
        invariant i < PACKAGE_HASH_PRIME && a == Probe(h, PACKAGE_HASH_PRIME, i)
        invariant Passed(PackageHashes(s), Unmatched(s, name, version, op), h, i)
        decreases PACKAGE_HASH_PRIME - i
      {
        assert slots[a] == s[a];
        if slots[a].value.name == name {
          if op == VerAny {
            return;
          }
          var ok := TestVersion(slots[a].value.version, version, op);
          if ok {
            return;
          }
        }
        PackageGoesOn(s, name, version, op, h, i);
        a := NextProbe(a, h.dec, PACKAGE_HASH_PRIME);
        i := i + 1;
      }
      assert slots[a] == s[a];
      NoPackage(s, name, version, op, i);
    }

    /** The end of fill_package_struct: the package takes the place of one with an equivalent version, or a free slot.
        */
    method Insert(p: Package) returns (a: nat)
      requires Valid() && PackageEnds(Entries(), p.name, p.version, VerEqual) && NoNul(p.version)
          && OnePerVersion(Entries())
      modifies slots
      ensures Valid() && OnePerVersion(Entries()) && a < PACKAGE_HASH_PRIME && Entries() == old(Entries())[a := Some(p)]
      ensures old(Entries())[a].Some? ==> Matches(old(Entries())[a].value, p.name, p.version, VerEqual)
      ensures forall x :: 0 <= x < PACKAGE_HASH_PRIME && old(Entries())[x].Some? ==>
                Entries()[x].Some? && Entries()[x].value.name == old(Entries())[x].value.name
    {
      hide AllRooted, PackageEnds, Passed, Unmatched, PackageHashes, Matches, Probe, HashOf;
      ghost var s := Entries();
      ghost var i;
      a, i := Search(p.name, p.version, VerEqual);
      assert slots[a] == s[a];
      if s[a].None? {
        PackageAdded(s, p, i);
      } else {
        PackageReplaced(s, p, a);
      }
      assert s[a].Some? ==> s[a].value.name == p.name by { NameKept(s, p, a); }
      slots[a] := Some(p);
      assert Entries() == s[a := Some(p)];
    }
  }

  lemma NonePassed(hs: seq<Option<Hash>>, other: seq<bool>, h: Hash)
    requires HashOk(h, |hs|) && |other| == |hs|
    ensures Passed(hs, other, h, 0)
  {
  }

  lemma MatchSymmetric(p: Package, q: Package)
    ensures Matches(p, q.name, q.version, VerEqual) == Matches(q, p.name, p.version, VerEqual)
  {
    hide VersionOrder, Split;
    VersionsAntisymmetric(Split(p.version), Split(q.version));
  }

  lemma MatchTransitive(p: Package, q: Package, r: Package)
    requires Matches(p, q.name, q.version, VerEqual) && Matches(q, r.name, r.version, VerEqual)
    ensures Matches(p, r.name, r.version, VerEqual)
  {
    hide VersionOrder, Split;
    var a, b, c := Split(p.version), Split(q.version), Split(r.version);
    VersionsTransitive(a, b, c);
    VersionsAntisymmetric(a, b);
    VersionsAntisymmetric(b, c);
    VersionsAntisymmetric(a, c);
    VersionsTransitive(c, b, a);
  }

  /** A package that no entry matches. */
  lemma StillOnePerVersion(s: seq<Option<Package>>, p: Package, a: nat)
    requires OnePerVersion(s) && a < |s|
    requires forall x :: 0 <= x < |s| && x != a && s[x].Some? ==> !Matches(s[x].value, p.name, p.version, VerEqual)
    ensures OnePerVersion(s[a := Some(p)])
  {
    hide Matches;
    var s' := s[a := Some(p)];
    forall x, y | 0 <= x < |s'| && 0 <= y < |s'| && x != y && s'[x].Some? && s'[y].Some?
      ensures !Matches(s'[y].value, s'[x].value.name, s'[x].value.version, VerEqual)
    {
      if y == a {
        MatchSymmetric(p, s[x].value);
      }
    }
  }

  lemma PackageAdded(s: seq<Option<Package>>, p: Package, i: nat)
    requires PackagesOk(s) && OnePerVersion(s) && NoNul(p.version) && i < |s|
    requires var h := HashOf(p.name, |s|);
        Passed(PackageHashes(s), Unmatched(s, p.name, p.version, VerEqual), h, i) && s[Probe(h, |s|, i)].None?
    ensures var a := Probe(HashOf(p.name, |s|), |s|, i); PackagesOk(s[a := Some(p)]) && OnePerVersion(s[a := Some(p)])
  {
    hide AllRooted, Passed, Probe, HashOf, Matches, OnePerVersion;
    NoPackage(s, p.name, p.version, VerEqual, i);
    var a := Probe(HashOf(p.name, |s|), |s|, i);
    StillOnePerVersion(s, p, a);
    assert PackageHashes(s[a := Some(p)]) == PackageHashes(s)[a := Some(HashOf(p.name, |s|))];
  }

  lemma NameKept(s: seq<Option<Package>>, p: Package, a: nat)
    requires a < |s| && (s[a].Some? ==> Matches(s[a].value, p.name, p.version, VerEqual))
    ensures s[a].Some? ==> s[a].value.name == p.name
  {
  }

  lemma PackageReplaced(s: seq<Option<Package>>, p: Package, a: nat)
    requires PackagesOk(s) && OnePerVersion(s) && NoNul(p.version) && a < |s| && s[a].Some?
    requires Matches(s[a].value, p.name, p.version, VerEqual)
    ensures PackagesOk(s[a := Some(p)]) && OnePerVersion(s[a := Some(p)])
  {
    var q := s[a].value;
    assert q.name == p.name;
    assert PackageHashes(s[a := Some(p)]) == PackageHashes(s);
    hide AllRooted, PackageHashes, HashOf, Matches;
    forall x | 0 <= x < |s| && x != a && s[x].Some?
      ensures !Matches(s[x].value, p.name, p.version, VerEqual)
    {
      if Matches(s[x].value, p.name, p.version, VerEqual) {
        MatchSymmetric(q, p);
        MatchTransitive(s[x].value, p, q);
        assert false;
      }
    }
    StillOnePerVersion(s, p, a);
  }

  // ---------- status ----------

  /** A package's status line: what is wanted, a flag, and the state. */
  datatype Status = Status(name: seq<byte>, text: seq<byte>)

  ghost function StatusHashes(s: seq<Option<Status>>): (hs: seq<Option<Hash>>)
    requires |s| >= 2
    ensures |hs| == |s| && forall x :: 0 <= x < |s| ==>
        hs[x] == if s[x].None? then None else Some(HashOf(s[x].value.name, |s|))
  {
    seq(|s|, x requires 0 <= x < |s| => if s[x].None? then None else Some(HashOf(s[x].value.name, |s|)))
  }

  ghost function Unnamed(s: seq<Option<Status>>, name: seq<byte>): (o: seq<bool>)
    ensures |o| == |s| && forall x :: 0 <= x < |s| ==> o[x] == (s[x].None? || s[x].value.name != name)
  {
    seq(|s|, x requires 0 <= x < |s| => s[x].None? || s[x].value.name != name)
  }

  ghost predicate StatusOk(s: seq<Option<Status>>)
  {
    && |s| == STATUS_HASH_PRIME && AllRooted(StatusHashes(s))
    && forall x, y :: 0 <= x < y < |s| && s[x].Some? && s[y].Some? ==> s[x].value.name != s[y].value.name
  }

  lemma NoStatus(s: seq<Option<Status>>, name: seq<byte>, i: nat)
    requires StatusOk(s) && i < |s|
    requires var h := HashOf(name, |s|); Passed(StatusHashes(s), Unnamed(s, name), h, i) && s[Probe(h, |s|, i)].None?
    ensures forall x :: 0 <= x < |s| && s[x].Some? ==> s[x].value.name != name
    ensures AllRooted(StatusHashes(s)[Probe(HashOf(name, |s|), |s|, i) := Some(HashOf(name, |s|))])
  {
    hide AllRooted, Passed, Probe, HashOf;
    var h := HashOf(name, |s|);
    var hs := StatusHashes(s);
    AllPassed(hs, Unnamed(s, name), h, i);
    forall x | 0 <= x < |s| && s[x].Some?
      ensures s[x].value.name != name
    {
      assert hs[x] == Some(h) ==> Unnamed(s, name)[x];
    }
  }

  /** Some slot is free, or holds the name. */
  ghost predicate StatusEnds(s: seq<Option<Status>>, name: seq<byte>)
  {
    exists x :: 0 <= x < |s| && (s[x].None? || s[x].value.name == name)
  }

  lemma StatusEndsIs(s: seq<Option<Status>>, name: seq<byte>)
    requires |s| >= 2
    ensures StatusEnds(s, name) <==> Ends(StatusHashes(s), Unnamed(s, name))
  {
    hide HashOf;
    var hs, other := StatusHashes(s), Unnamed(s, name);
    if x :| 0 <= x < |s| && (s[x].None? || s[x].value.name == name) {
      assert hs[x].None? || !other[x];
    }
    if x :| 0 <= x < |hs| && (hs[x].None? || !other[x]) {
      assert s[x].None? || s[x].value.name == name;
    }
  }

  /** The search for a status ends if and only if the table has a free slot or the name. */
  lemma StatusSearchEnds(s: seq<Option<Status>>, name: seq<byte>)
    requires StatusOk(s)
    ensures (exists i: nat :: StopsAt(StatusHashes(s), Unnamed(s, name), HashOf(name, |s|), i)) <==> StatusEnds(s, name)
  {
    hide AllRooted, HashOf, StopsAt, Ends, StatusHashes, Unnamed, Prime, StatusEnds;
    Prime8191();
    ProbeEnds(StatusHashes(s), Unnamed(s, name), HashOf(name, |s|));
    StatusEndsIs(s, name);
  }

  lemma StatusGoesOn(s: seq<Option<Status>>, name: seq<byte>, h: Hash, i: nat)
    requires |s| == STATUS_HASH_PRIME && HashOk(h, |s|) && StatusEnds(s, name)
        && Passed(StatusHashes(s), Unnamed(s, name), h, i)
    requires s[Probe(h, |s|, i)].Some? && s[Probe(h, |s|, i)].value.name != name
    ensures i + 1 < |s| && Passed(StatusHashes(s), Unnamed(s, name), h, i + 1)
  {
    hide Prime, HashOf, Probe;
    Prime8191();
    StatusEndsIs(s, name);
    hide Ends, StatusEnds;
    EndsInTime(StatusHashes(s), Unnamed(s, name), h, i + 1);
  }

  lemma {:induction false} StatusPut(s: seq<Option<Status>>, st: Status, i: nat)
    requires StatusOk(s) && i < |s|
    requires var h := HashOf(st.name, |s|);
             Passed(StatusHashes(s), Unnamed(s, st.name), h, i) &&
             (s[Probe(h, |s|, i)].Some? ==> s[Probe(h, |s|, i)].value.name == st.name)
    ensures StatusOk(s[Probe(HashOf(st.name, |s|), |s|, i) := Some(st)])
  {
    hide AllRooted, Passed, Probe, HashOf;
    var a := Probe(HashOf(st.name, |s|), |s|, i);
    if s[a].None? {
      NoStatus(s, st.name, i);
      assert StatusHashes(s[a := Some(st)]) == StatusHashes(s)[a := Some(HashOf(st.name, |s|))];
    } else {
      assert StatusHashes(s[a := Some(st)]) == StatusHashes(s);
    }
  }

  class StatusTable {
    const slots: array<Option<Status>>

    ghost predicate Valid()
      reads slots
    {
      slots.Length == STATUS_HASH_PRIME + 1 && StatusOk(Entries())
    }

    ghost function Entries(): seq<Option<Status>>
      requires slots.Length == STATUS_HASH_PRIME + 1
      reads slots
    {
      slots[..STATUS_HASH_PRIME]
    }

    constructor ()
      ensures Valid() && fresh(slots) && forall x :: 0 <= x < STATUS_HASH_PRIME ==> Entries()[x].None?
    {
      slots := new Option<Status>[STATUS_HASH_PRIME + 1](_ => None);
    }

    /** search_status_hashtable: the entry of a name, or the free slot where it would go. */
    method Search(name: seq<byte>) returns (a: nat, ghost i: nat)
      requires Valid() && StatusEnds(Entries(), name)
      ensures a < STATUS_HASH_PRIME && i < STATUS_HASH_PRIME
          && a == Probe(HashOf(name, STATUS_HASH_PRIME), STATUS_HASH_PRIME, i)
      ensures Passed(StatusHashes(Entries()), Unnamed(Entries(), name), HashOf(name, STATUS_HASH_PRIME), i)
      ensures if slots[a].Some? then slots[a].value.name == name
              else forall x :: 0 <= x < STATUS_HASH_PRIME && Entries()[x].Some? ==> Entries()[x].value.name != name
    {
      hide AllRooted, StatusEnds, Prime, HashOf, Passed, Unnamed, StatusHashes, NextProbe;
      ghost var s := Entries();
      var h := MakeHash(name, STATUS_HASH_PRIME);
      a, i := h.start, 0;
      assert Passed(StatusHashes(s), Unnamed(s, name), h, 0) by { NonePassed(StatusHashes(s), Unnamed(s, name), h); }
      while slots[a] != None
        invariant i < STATUS_HASH_PRIME && a == Probe(h, STATUS_HASH_PRIME, i)
            && Passed(StatusHashes(s), Unnamed(s, name), h, i)
        decreases STATUS_HASH_PRIME - i
      {
        assert slots[a] == s[a];
        if slots[a].value.name == name {
          return;
        }
        StatusGoesOn(s, name, h, i);
        a := NextProbe(a, h.dec, STATUS_HASH_PRIME);
        i := i + 1;
      }
      assert slots[a] == s[a];
      NoStatus(s, name, i);
    }

    /** Sets the status of a package, whether it has one or not. */
    method Put(st: Status) returns (a: nat)
      requires Valid() && StatusEnds(Entries(), st.name)
      modifies slots
      ensures Valid() && a < STATUS_HASH_PRIME && Entries() == old(Entries())[a := Some(st)]
      ensures old(Entries())[a].Some? ==> old(Entries())[a].value.name == st.name
    {
      hide AllRooted, StatusEnds, Passed, Unnamed, StatusHashes, Probe, HashOf;
      ghost var s := Entries();
      ghost var i;
      a, i := Search(st.name);
      assert slots[a] == s[a];
      StatusPut(s, st, i);
      slots[a] := Some(st);
      assert Entries() == s[a := Some(st)];
    }
  }
}
