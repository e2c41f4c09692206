/** Every prefix code satisfies Kraft's inequality, so Huffman's theorem speaks about all prefix codes. */
module KraftInequality {
  import opened Sums
  import opened HuffmanShape
  import opened HuffmanForest
  import opened HuffmanOptimal
  import opened HuffmanPass
  import opened HuffmanBuilding

  /** No word of a symbol is a prefix of another symbol's word. */
  ghost predicate IsPrefixCode(syms: set<nat>, words: seq<seq<bool>>)
  {
    && (forall s :: s in syms ==> s < |words|)
    && forall s, t :: s in syms && t in syms && s != t ==> !(words[s] <= words[t])
  }

  /** The Kraft terms of the words that start with p. */
  ghost function Under(syms: set<nat>, words: seq<seq<bool>>, base: nat, p: seq<bool>): (ts: seq<int>)
    ensures |ts| == |words|
    ensures forall s :: 0 <= s < |words| ==> ts[s] == UnderTerm(syms, words, base, p, s)
  {
    seq(|words|, s requires 0 <= s < |words| => UnderTerm(syms, words, base, p, s))
  }

  ghost function UnderTerm(syms: set<nat>, words: seq<seq<bool>>, base: nat, p: seq<bool>, s: nat): int
    requires s < |words|
  {
    if s in syms && p <= words[s] && |words[s]| <= base then Pow2(base - |words[s]|) else 0
  }

  lemma OnlyWord(syms: set<nat>, words: seq<seq<bool>>, base: nat, p: seq<bool>, w: nat)
    requires IsPrefixCode(syms, words) && w in syms && words[w] == p && |p| <= base
    ensures Sum(Under(syms, words, base, p)) == Pow2(base - |p|)
  {
    var ts := Under(syms, words, base, p);
    SumUpdate(ts, w, 0);
    SumZero(ts[w := 0]);
  }

  lemma SplitTerm(syms: set<nat>, words: seq<seq<bool>>, base: nat, p: seq<bool>, s: nat)
    requires s < |words| && (s in syms ==> words[s] != p)
    ensures UnderTerm(syms, words, base, p, s)
         == UnderTerm(syms, words, base, p + [false], s) + UnderTerm(syms, words, base, p + [true], s)
  {
    var w := words[s];
    if p <= w && w != p {
      assert w[..|p| + 1] == p + [w[|p|]];
      assert p + [w[|p|]] <= w;
      assert !(p + [!w[|p|]] <= w) by {
        assert (p + [!w[|p|]])[|p|] != w[|p|];
      }
    } else {
      forall b: bool
        ensures p + [b] <= w ==> p <= w
      {
      }
    }
  }

  /** The words below p use up at most the strings below p. */
  lemma {:induction false} KraftUnder(syms: set<nat>, words: seq<seq<bool>>, base: nat, p: seq<bool>)
    requires IsPrefixCode(syms, words) && |p| <= base
    requires forall s :: s in syms ==> |words[s]| <= base
    ensures Sum(Under(syms, words, base, p)) <= Pow2(base - |p|)
    decreases base - |p|
  {
    hide UnderTerm, IsPrefixCode;
    if w :| w in syms && w < |words| && words[w] == p {
      OnlyWord(syms, words, base, p, w);
    } else if |p| == base {
      NothingUnder(syms, words, base, p);
    } else {
      KraftUnder(syms, words, base, p + [false]);
      KraftUnder(syms, words, base, p + [true]);
      forall s | 0 <= s < |words|
        ensures UnderTerm(syms, words, base, p, s)
             == UnderTerm(syms, words, base, p + [false], s) + UnderTerm(syms, words, base, p + [true], s)
      {
        SplitTerm(syms, words, base, p, s);
      }
      SumAdd(Under(syms, words, base, p + [false]), Under(syms, words, base, p + [true]), Under(syms, words, base, p));
    }
  }

  lemma NothingUnder(syms: set<nat>, words: seq<seq<bool>>, base: nat, p: seq<bool>)
    requires |p| == base && forall s :: s in syms && s < |words| ==> words[s] != p && |words[s]| <= base
    ensures Sum(Under(syms, words, base, p)) == 0
  {
    forall s | 0 <= s < |words|
      ensures UnderTerm(syms, words, base, p, s) == 0
    {
    }
    SumZero(Under(syms, words, base, p));
  }

  function Lengths(words: seq<seq<bool>>): (ls: seq<nat>)
    ensures |ls| == |words| && forall s :: 0 <= s < |words| ==> ls[s] == |words[s]|
  {
    seq(|words|, s requires 0 <= s < |words| => |words[s]|)
  }

  lemma {:induction false} LongestWord(words: seq<seq<bool>>, n: nat) returns (base: nat)
    requires n <= |words|
    ensures forall s :: 0 <= s < n ==> |words[s]| <= base
  {
    if n == 0 {
      base := 0;
    } else {
      base := LongestWord(words, n - 1);
      base := if |words[n - 1]| > base then |words[n - 1]| else base;
    }
  }

  /** The lengths of a prefix code satisfy Kraft's inequality. */
  lemma CodeIsKraft(syms: set<nat>, words: seq<seq<bool>>) returns (base: nat)
    requires IsPrefixCode(syms, words)
    ensures KraftOk(syms, Lengths(words), base)
  {
    hide Sum, Pow2;
    base := LongestWord(words, |words|);
    KraftUnder(syms, words, base, []);
    assert Under(syms, words, base, []) == KraftSymbols(syms, Lengths(words), base);
  }

  /** Among all prefix codes for the symbols, the tree's code lengths have the least weighted length. */
  lemma BestPrefixCode(sh: Shape, f: seq<nat>, max: nat, words: seq<seq<bool>>)
    requires Full(sh) && Weighed(sh, f) && GreedyShape(sh, f) && max > 0 && DeepNodes(sh, max, sh.elems) == 0
    requires |words| == sh.elems && IsPrefixCode(sh.syms, words)
    ensures sh.elems <= |f|
    ensures Sum(WeightedTerms(sh.syms, f, ClampedLens(sh, max))) <= Sum(WeightedTerms(sh.syms, f, Lengths(words)))
  {
    hide Full, Weighed, GreedyShape, DeepNodes, Sum, WeightedTerms, KraftOk;
    WeighedSize(sh, f);
    ShapeSizes(sh);
    var base := CodeIsKraft(sh.syms, words);
    LengthsOptimal(sh, f, max, Lengths(words), base);
  }

  /** What build_tree stores, when no code had to be shortened, is optimal among all prefix codes. */
  lemma BuiltIsBest(sh: Shape, f: seq<nat>, c: Costs, n: nat, syms: set<nat>, max: nat, lens: seq<nat>,
      words: seq<seq<bool>>)
    requires BuiltOn(sh, f, c, n, syms, max, lens) && max > 0 && sh.elems == n && Full(sh) && DeepNodes(sh, max, n) == 0
    requires |words| == n && IsPrefixCode(syms, words)
    ensures |lens| == n <= |f| && Sum(WeightedTerms(syms, f, lens)) <= Sum(WeightedTerms(syms, f, Lengths(words)))
  {
    hide Full, Weighed, GreedyShape, DeepNodes, Sum, WeightedTerms, Prepared;
    BestPrefixCode(sh, f, max, words);
  }
}
