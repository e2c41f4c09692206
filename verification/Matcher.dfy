/** The sliding window and the search for matches. */
module Matching {
  import opened Sums
  import opened Bits
  import opened Blocks
  import opened StringHash
  import opened HashChains

  const MIN_LOOKAHEAD := MAX_MATCH + MIN_MATCH + 1

  /** The input: each read delivers some of the bytes that are left, or fails. */
  class Source {
    var rest: seq<byte>
    var failed: bool
    ghost var given: seq<byte>

    constructor (input: seq<byte>)
      ensures rest == input && given == [] && !failed
    {
      rest, given, failed := input, [], false;
    }

    /** safe_read: at least one byte unless the input is used up; -1 when the read fails. */
    method Read(window: array<byte>, at: nat, size: nat) returns (n: int)
      requires 0 < size && at + size <= window.Length
      modifies this, window
      ensures -1 <= n <= size && |given| == |old(given)| + (if n > 0 then n else 0)
      ensures given + rest == old(given + rest) && old(given) <= given
      ensures n == 0 ==> rest == []
      ensures n < 0 ==> failed
      ensures n >= 0 ==> failed == old(failed)
      ensures window[..at] == old(window[..at])
      ensures n <= 0 ==> window[..] == old(window[..]) && given == old(given)
      ensures n > 0 ==> window[at..at + n] == given[|old(given)|..]
    {
      var fails := *;
      if fails {
        failed := true;
        return -1;
      }
      var count: nat :| count <= size && count <= |rest| && (count == 0 ==> rest == []);
      n := count;
      forall i | at <= i < at + count {
        window[i] := rest[i - at];
      }
      given := given + rest[..count];
      rest := rest[count..];
    }
  }

  class Matcher {
    const p: Hashing
    const wsize: nat  // a power of two
    const maxChain: nat
    const maxLazy: nat
    const goodMatch: nat
    const niceMatch: nat
    const window: array<byte>  // 2 * wsize bytes, and the memory behind them that longest_match may look at
    const prev: array<nat>
    const head: array<nat>
    const src: Source
    var insH: nat
    var prevLength: nat
    var strstart: nat
    var matchStart: int  // negative when the match has left the window
    var blockStart: int  // negative when the block's start has left the window
    var lookahead: nat
    var eofile: bool
    ghost var base: nat  // how far the window has moved over the input

    /** The buffers; the window and prev start with arbitrary contents, head with zeros. */
    constructor (hashing: Hashing, windowSize: nat, source: Source, chain: nat, lazy: nat, good: nat, nice: nat)
      requires hashing.Valid() && 2 * MIN_LOOKAHEAD <= windowSize <= 32768
      ensures Sized() && src == source && maxChain == chain && fresh(window) && fresh(prev) && fresh(head)
      ensures strstart == 0 && lookahead == 0 && blockStart == 0 && base == 0 && insH == 0 && !eofile && Chained()
    {
      p, wsize, src := hashing, windowSize, source;
      maxChain, maxLazy, goodMatch, niceMatch := chain, lazy, good, nice;
      window := new byte[2 * windowSize + MAX_MATCH + 1];
      prev := new nat[windowSize];
      head := new nat[Pow2(hashing.bits)](_ => 0);
      insH, prevLength, strstart, matchStart, blockStart, lookahead, eofile, base := 0, 0, 0, 0, 0, 0, false, 0;
      new;
      ChainsEmpty(p, window[..], prev[..], head[..]);
    }

    ghost predicate Sized()
    {
      && p.Valid() && 2 * MIN_LOOKAHEAD <= wsize <= 32768
      && window.Length == 2 * wsize + MAX_MATCH + 1 && prev.Length == wsize && head.Length == Pow2(p.bits)
         && prev != head
    }

    function MaxDist(): int
    {
      wsize - MIN_LOOKAHEAD
    }

    /** The window holds the last bytes read, and lookahead of them are still to be processed. */
    ghost predicate Loaded()
      requires Sized()
      reads `strstart, `lookahead, `eofile, `base, window, src
    {
      && strstart + lookahead <= 2 * wsize && (eofile ==> strstart + lookahead + 2 <= 2 * wsize)
      && (if eofile then src.rest == [] || src.failed else !src.failed)
      && |src.given| == base + strstart + lookahead && window[..strstart + lookahead] == src.given[base..]
    }

    ghost predicate Chained()
      reads `strstart, window, prev, head
    {
      Chains(p, window[..], prev[..], head[..], strstart)
    }

    /** ins_h is the hash of the first two bytes of the next string. */
    ghost predicate Primed()
      requires Sized()
      reads `strstart, `insH, window
    {
      strstart + 1 < window.Length && Rolling(p, insH, window[strstart], window[strstart + 1])
    }

    /** Moves the upper half of the window down. */
    method Slide()
      requires Sized() && Loaded() && Chained() && strstart >= wsize + MaxDist() && lookahead >= 2
      modifies `strstart, `matchStart, `blockStart, `base, window, prev, head
      ensures Loaded() && Chained() && strstart == old(strstart) - wsize && base == old(base) + wsize
      ensures matchStart == old(matchStart) - wsize && blockStart == old(blockStart) - wsize
      ensures window[strstart] == old(window[strstart]) && window[strstart + 1] == old(window[strstart + 1])
    {
      hide Chains;
      ghost var win, pr, hd := window[..], prev[..], head[..];
      MoveBytes(window, wsize);
      matchStart := matchStart - wsize;
      strstart := strstart - wsize;
      blockStart := blockStart - wsize;
      MoveIndices(head, wsize);
      MoveIndices(prev, wsize);
      ChainsSlide(p, win, window[..], pr, prev[..], hd, head[..], strstart + wsize);
      base := base + wsize;
      LoadedSlides(win, window[..], src.given, base - wsize, wsize, strstart + lookahead + wsize);
      LowerHalf(win, window[..], wsize, strstart);
      LowerHalf(win, window[..], wsize, strstart + 1);
    }

    /** Appends what the next read delivers. */
    method ReadMore(more: nat)
      requires Sized() && Loaded() && Chained() && (strstart == 0 || lookahead >= 2) && !eofile
      requires 2 <= more && strstart + lookahead + more <= 2 * wsize
      modifies `lookahead, `eofile, window, src
      ensures Loaded() && Chained() && window[..strstart + old(lookahead)] == old(window[..strstart + lookahead])
      ensures old(src.given) <= src.given && src.given + src.rest == old(src.given + src.rest)
      ensures if eofile then lookahead == old(lookahead) else lookahead > old(lookahead)
    {
      hide Chains;
      ghost var win, given := window[..], src.given;
      var end := strstart + lookahead;
      var n := src.Read(window, end, more);
      assert window[..end] == win[..end];
      PrefixSame(win, window[..], strstart, end);
      ChainsSameBytes(p, win, window[..], prev[..], head[..], strstart);
      if n == 0 || n == -1 {
        eofile := true;
      } else {
        LoadedGrows(win, window[..], given, src.given, base, end, n);
        lookahead := lookahead + n;
      }
    }

    /** fill_window: slides the window when its end is near, then reads. */
    method FillWindow()
      requires Sized() && Loaded() && Chained() && lookahead < MIN_LOOKAHEAD && (strstart == 0 || lookahead >= 2)
          && !eofile
      modifies `strstart, `matchStart, `blockStart, `base, `lookahead, `eofile, window, prev, head, src
      ensures Loaded() && Chained() && base >= old(base) && base + strstart == old(base + strstart)
      ensures base == old(base) + (if old(strstart) >= wsize + MaxDist() then wsize else 0)
      ensures base + matchStart == old(base + matchStart) && base + blockStart == old(base + blockStart)
      ensures old(strstart) > 0 ==> strstart > 0
      ensures old(lookahead) >= 2 && old(Primed()) ==> Primed()
      ensures old(src.given) <= src.given && src.given + src.rest == old(src.given + src.rest)
      ensures if eofile then lookahead == old(lookahead) else lookahead > old(lookahead)
    {
      hide Matcher.Chained, Matcher.Loaded, Rolling;
      var more := MakeRoom();
      // at this point more >= 2
      ghost var win := window[..];
      ReadMore(more);
      if old(lookahead) >= 2 {
        TwoSame(win, window[..], strstart, strstart + old(lookahead));
      }
    }

    /** Slides the window if its end is near; how many bytes are free behind the lookahead. */
    method MakeRoom() returns (more: nat)
      requires Sized() && Loaded() && Chained() && lookahead < MIN_LOOKAHEAD && (strstart == 0 || lookahead >= 2)
          && !eofile
      modifies `strstart, `matchStart, `blockStart, `base, window, prev, head
      ensures Loaded() && Chained() && base >= old(base) && base + strstart == old(base + strstart)
      ensures base == old(base) + (if old(strstart) >= wsize + MaxDist() then wsize else 0)
      ensures base + matchStart == old(base + matchStart) && base + blockStart == old(base + blockStart)
      ensures old(strstart) > 0 ==> strstart > 0
      ensures old(lookahead) >= 2 && old(Primed()) ==> Primed()
      ensures 2 <= more && strstart + lookahead + more == 2 * wsize
    {
      hide Matcher.Chained, Rolling;
      more := 2 * wsize - lookahead - strstart;
      if strstart >= wsize + MaxDist() {
        Slide();
        more := more + wsize;
      }
    }

    /** fill_window_if_needed: a full lookahead, or the end of the input. */
    method FillWindowIfNeeded()
      requires Sized() && Loaded() && Chained() && (strstart == 0 || lookahead >= 2 || eofile)
      modifies `strstart, `matchStart, `blockStart, `base, `lookahead, `eofile, window, prev, head, src
      ensures Loaded() && Chained() && base >= old(base) && base + strstart == old(base + strstart)
      ensures base + matchStart == old(base + matchStart) && base + blockStart == old(base + blockStart)
      ensures old(strstart) > 0 ==> strstart > 0
      ensures (old(eofile) || old(lookahead) >= 2) && old(Primed()) ==> Primed()
      ensures old(src.given) <= src.given && src.given + src.rest == old(src.given + src.rest)
      ensures lookahead >= old(lookahead) && (eofile || lookahead >= MIN_LOOKAHEAD)
      ensures old(eofile) ==> eofile && src.given == old(src.given)
    {
      hide Chains, Rolling;
      while lookahead < MIN_LOOKAHEAD && !eofile
        invariant Loaded() && Chained() && base >= old(base) && base + strstart == old(base + strstart)
        invariant strstart == 0 || lookahead >= 2 || eofile
        invariant base + matchStart == old(base + matchStart) && base + blockStart == old(base + blockStart)
        invariant old(strstart) > 0 ==> strstart > 0
        invariant (old(eofile) || old(lookahead) >= 2) && old(Primed()) ==> Primed()
        invariant old(src.given) <= src.given && src.given + src.rest == old(src.given + src.rest)
        invariant lookahead >= old(lookahead)
        invariant old(eofile) ==> eofile && src.given == old(src.given)
        decreases !eofile, MIN_LOOKAHEAD - lookahead
      {
        FillWindow();
      }
    }

    /** The string at strstart has been inserted as well. */
    ghost predicate Inserted()
      requires Sized()
      reads `strstart, `insH, window, prev, head
    {
      && strstart < 2 * wsize && Chains(p, window[..], prev[..], head[..], strstart + 1)
      && Rolling(p, insH, window[strstart + 1], window[strstart + 2])
    }

    /** m is on the chain of the string at strstart, and near enough for a match. */
    ghost predicate Candidate(m: nat)
      requires Sized()
      reads `strstart, window
    {
      && 0 < m < strstart < 2 * wsize && strstart - m <= MaxDist()
      && HashAt(p, window[..], m) == HashAt(p, window[..], strstart)
    }

    /** INSERT_STRING: the head of the chain that the string at strstart now continues. */
    method InsertString() returns (hashHead: nat)
      requires Sized() && Chained() && Primed() && strstart + MIN_MATCH - 1 < 2 * wsize
      modifies `insH, prev, head
      ensures Inserted()
      ensures hashHead == Latest(p, window[..], HashAt(p, window[..], strstart), strstart)
      ensures hashHead != 0 && strstart - hashHead <= MaxDist() ==> Candidate(hashHead)
    {
      hide Chains, Rolling, Update, Hash3, Latest;
      ghost var pr, hd := prev[..], head[..];
      RollingStep(p, insH, window[strstart], window[strstart + 1], window[strstart + 2]);
      UpdateFits(p, insH, window[strstart + MIN_MATCH - 1]);
      insH := Update(p, insH, window[strstart + MIN_MATCH - 1]);
      ChainsInsert(p, window[..], pr, hd, strstart, insH);
      hashHead := head[insH];
      prev[Slot(strstart, wsize)] := hashHead;
      head[insH] := strstart;
      assert prev[..] == pr[Slot(strstart, wsize) := hashHead];
      assert head[..] == hd[insH := strstart];
    }

    /** How far the strings at strstart and cur agree; their first three bytes are known to be equal. The last byte of
        the window looked at is at index touched. */
    method MatchLength(cur: nat) returns (len: nat, ghost touched: nat)
      requires Sized() && cur < strstart < 2 * wsize && SameStretch(window[..], cur, strstart, 3)
      ensures 3 <= len <= MAX_MATCH && SameStretch(window[..], cur, strstart, len)
      ensures len == MAX_MATCH || window[strstart + len] != window[cur + len]
      ensures touched == strstart + len
    {
      hide SameStretch;
      var scan := 2;
      touched := strstart + 2;
      ghost var rounds := 0;
      // lookahead is only checked after every eighth comparison
      while true
        invariant scan == 2 + 8 * rounds && scan < MAX_MATCH && touched == strstart + scan
        invariant SameStretch(window[..], cur, strstart, scan + 1)
        decreases MAX_MATCH - scan
      {
        var k := 0;
        while k < 8
          invariant k <= 8 && scan == 2 + 8 * rounds + k && touched == strstart + scan
          invariant SameStretch(window[..], cur, strstart, scan + 1)
        {
          scan := scan + 1;
          touched := strstart + scan;
          if window[strstart + scan] != window[cur + scan] {
            len := scan;
            return;
          }
          SameOneMore(window[..], cur, strstart, scan);
          k := k + 1;
        }
        rounds := rounds + 1;
        if scan >= MAX_MATCH {
          break;
        }
      }
      SameShorter(window[..], cur, strstart, scan + 1, MAX_MATCH);
      len := MAX_MATCH;
    }

    /** Can the string at m agree with the one at strstart in more than best bytes? */
    ghost predicate NotLonger(m: nat, best: nat)
      requires Sized() && m < strstart < 2 * wsize
      reads `strstart, window
    {
      best >= MAX_MATCH || !SameStretch(window[..], m, strstart, best + 1)
    }

    /** The match found is real and within reach. */
    ghost predicate Found(len: nat)
      requires Sized()
      reads `strstart, `matchStart, window
    {
      && 3 <= len <= MAX_MATCH && 0 < matchStart < strstart < 2 * wsize && strstart - matchStart <= MaxDist()
      && SameStretch(window[..], matchStart, strstart, len)
    }

    /** The four bytes looked at first: can the candidate agree further than bestLen? Then it agrees in three bytes. */
    method Promising(cur: nat, bestLen: nat) returns (yes: bool)
      requires Sized() && Inserted() && Candidate(cur) && 1 <= bestLen <= MAX_MATCH
      ensures if yes then SameStretch(window[..], cur, strstart, 3) else NotLonger(cur, bestLen)
    {
      hide Chains, Rolling, HashAt, SameStretch;
      if window[cur + bestLen] != window[strstart + bestLen]
          || window[cur + bestLen - 1] != window[strstart + bestLen - 1]
         || window[cur] != window[strstart] || window[cur + 1] != window[strstart + 1] {
        Rejected(window[..], cur, strstart, bestLen);
        return false;
      }
      ThreeEqual(p, window[..], cur, strstart);
      ThreeSame(window[..], cur, strstart);
      yes := true;
    }

    /** One step of the search: tries the candidate cur. */
    method TryMatch(cur: nat, bestLen: nat) returns (len: nat, ghost touched: nat)
      requires Sized() && Inserted() && Candidate(cur) && 1 <= bestLen <= MAX_MATCH
      modifies `matchStart
      ensures len >= bestLen && NotLonger(cur, len) && touched == strstart + len
      ensures if len > bestLen then matchStart == cur && Found(len) else matchStart == old(matchStart)
    {
      hide Chains, Rolling, HashAt, SameStretch, Matcher.Inserted;
      len := bestLen;
      touched := strstart + bestLen;
      var yes := Promising(cur, bestLen);
      if yes {
        var l: nat;
        ghost var seen: nat;
        l, seen := MatchLength(cur);
        touched := if seen > touched then seen else touched;
        Differs(window[..], cur, strstart, l, bestLen);
        if l > bestLen {
          matchStart := cur;
          len := l;
        }
      }
    }

    lemma NextCandidate(cur: nat, seen: seq<nat>)
      requires Sized() && Inserted() && Candidate(cur) && seen != [] && seen[|seen| - 1] == cur
      ensures var n := prev[Slot(cur, wsize)];
              && n == NextOn(p, window[..], strstart, seen)
              && (n > 0 && strstart - n <= MaxDist() ==> n < cur && Candidate(n))
    {
      hide Rolling, HashAt;
      assert LinkOk(p, window[..], prev[..], cur);
    }

    /** How many candidates are tried at most. */
    function Budget(prevLen: nat): nat
    {
      if prevLen >= goodMatch then maxChain / 4 else maxChain
    }

    /** What a search at index `at` of the window gives: the candidates are the last strings with the same hash, one
        after the other; none of them agrees in more than best bytes; and it stopped for a reason. */
    ghost predicate Searched(win: seq<byte>, at: nat, prevLen: nat, seen: seq<nat>, best: nat)
      requires at + MAX_MATCH < |win|
    {
      && seen != [] && Below(seen, at) && Linked(p, win, at, seen) && NoneLonger(win, at, seen, best)
      && prevLen <= best <= MAX_MATCH
      && var next := NextOn(p, win, at, seen);
         best >= niceMatch || |seen| == Budget(prevLen) || at - next >= MaxDist() || next == 0
    }

    /** Tries cur, which comes next on the chain behind the candidates seen. */
    method TryNext(cur: nat, bestLen: nat, ghost seen: seq<nat>) returns (len: nat, ghost seen': seq<nat>,
        ghost touched: nat)
      requires Sized() && Inserted() && Candidate(cur) && 1 <= bestLen <= MAX_MATCH
      requires Below(seen, strstart)
      requires Linked(p, window[..], strstart, seen) && NoneLonger(window[..], strstart, seen, bestLen)
      requires cur == NextOn(p, window[..], strstart, seen)
      modifies `matchStart
      ensures bestLen <= len <= MAX_MATCH && touched == strstart + len && seen' == seen + [cur]
      ensures Below(seen', strstart)
      ensures Linked(p, window[..], strstart, seen') && NoneLonger(window[..], strstart, seen', len)
      ensures if len > bestLen then matchStart == cur && Found(len) else matchStart == old(matchStart)
    {
      hide Chains, Rolling, HashAt, SameStretch, Latest, Linked, NoneLonger;
      len, touched := TryMatch(cur, bestLen);
      LinkedMore(p, window[..], strstart, seen, cur);
      NoneLongerMore(window[..], strstart, seen, bestLen, cur, len);
      seen' := seen + [cur];
    }

    /** longest_match: the best match on the chain, unless the search is cut short; a length of prevLength
        means that none is better. The last byte of the window looked at is at index touched. */
    method LongestMatch(curMatch: nat) returns (bestLen: nat, ghost seen: seq<nat>, ghost touched: nat)
      requires Sized() && Inserted() && Candidate(curMatch) && 1 <= prevLength <= MAX_MATCH && 4 <= maxChain
      requires curMatch == NextOn(p, window[..], strstart, [])
      modifies `matchStart
      ensures prevLength <= bestLen <= MAX_MATCH && touched == strstart + bestLen
      ensures if bestLen > prevLength then Found(bestLen) else matchStart == old(matchStart)
      ensures Searched(window[..], strstart, prevLength, seen, bestLen)
    {
      hide Chains, Rolling, HashAt, SameStretch, Matcher.NotLonger, Matcher.Inserted, Matcher.Found, NextOn, Linked,
          NoneLonger;
      var chainLength := maxChain;
      bestLen := prevLength;
      var limit := if strstart > MaxDist() then strstart - MaxDist() else 0;
      if prevLength >= goodMatch {
        chainLength := chainLength / 4;
      }
      seen, touched := [], strstart + bestLen;
      NothingSeen(p, window[..], strstart, bestLen);
      var cur: nat := curMatch;
      while true
        invariant Candidate(cur) && prevLength <= bestLen <= MAX_MATCH && 0 < chainLength
            && |seen| + chainLength == Budget(prevLength)
        invariant touched == strstart + bestLen
        invariant if bestLen > prevLength then Found(bestLen) else matchStart == old(matchStart)
        invariant Below(seen, strstart)
        invariant Linked(p, window[..], strstart, seen) && NoneLonger(window[..], strstart, seen, bestLen)
        invariant cur == NextOn(p, window[..], strstart, seen)
        decreases chainLength
      {
        var len: nat;
        len, seen, touched := TryNext(cur, bestLen, seen);
        if len > bestLen {
          bestLen := len;
          if len >= niceMatch {
            break;
          }
        }
        NextCandidate(cur, seen);
        cur := prev[Slot(cur, wsize)];
        if cur <= limit {
          break;
        }
        chainLength := chainLength - 1;
        if chainLength == 0 {
          break;
        }
      }
    }

    /** A search that was not cut short has found the best match there is: no earlier string in reach agrees with the
        one at `at` in three bytes and in more than best bytes. */
    lemma BestFound(win: seq<byte>, at: nat, prevLen: nat, seen: seq<nat>, best: nat, k: nat)
      requires Sized() && at < 2 * wsize && |win| == window.Length && Searched(win, at, prevLen, seen, best)
      requires best < niceMatch && best < MAX_MATCH && |seen| != Budget(prevLen)
      requires 0 < k < at && at - k < MaxDist() && SameStretch(win, k, at, MIN_MATCH)
      ensures !SameStretch(win, k, at, best + 1)
    {
      hide Latest;
      SameHashes(p, win, k, at);
      AllLinked(p, win, at, seen, k);
    }

    /** With a full lookahead longest_match stays in the window, and strstart where its assertion wants it. */
    lemma RoomToLook()
      requires Sized() && Loaded() && lookahead >= MIN_LOOKAHEAD
      ensures strstart <= 2 * wsize - MIN_LOOKAHEAD && strstart + MAX_MATCH < 2 * wsize
    {
    }

    /** All 2 * wsize bytes of the window are equal. */
    ghost predicate Uniform()
      requires Sized()
      reads window
    {
      AllEqual(window[..2 * wsize])
    }

    /** The furthest that any search at strstart can look is inside the window exactly where MAX_MATCH more bytes are:
        in a uniform window every search goes that far, or past the end. */
    lemma LooksPast(seen: seq<nat>, best: nat)
      requires Sized() && strstart < 2 * wsize && Uniform() && Searched(window[..], strstart, prevLength, seen, best)
      ensures strstart + best < 2 * wsize <==> strstart + MAX_MATCH < 2 * wsize
      ensures strstart + MAX_MATCH < 2 * wsize ==> best == MAX_MATCH
    {
      hide Latest, HashAt;
      assert best >= MAX_MATCH || !SameStretch(window[..], seen[0], strstart, best + 1);
      if best < MAX_MATCH && strstart + best < 2 * wsize {
        EqualSame(window[..], 2 * wsize, seen[0], strstart, best + 1);
      }
    }

    /** Three bytes before the end of an input of 4 * WSIZE - 3 equal bytes (EqualBytes.ReachesEnd): the assertion
        fails, and the search looks past the window. */
    lemma LooksPastAtEnd(seen: seq<nat>, best: nat)
      requires Sized() && Loaded() && eofile && wsize == 0x8000 && strstart == 2 * wsize - 6 && lookahead == 3
      requires Uniform() && Searched(window[..], strstart, prevLength, seen, best)
      ensures strstart > 2 * wsize - MIN_LOOKAHEAD && strstart + best >= 2 * wsize
    {
      hide Latest, HashAt;
      LooksPast(seen, best);
    }

    /** lm_init: the first read, and the hash of the first two bytes. */
    method LmInit()
      requires Sized() && Chained() && strstart == 0 == lookahead && base == 0 == blockStart && insH == 0 && !eofile
      requires src.given == [] && !src.failed
      modifies `strstart, `matchStart, `blockStart, `base, `lookahead, `eofile, `insH, window, prev, head, src
      ensures Loaded() && Chained() && strstart == 0 && base == 0 == blockStart && (Primed() || lookahead == 0)
      ensures eofile || lookahead >= MIN_LOOKAHEAD
      ensures src.given + src.rest == old(src.rest)
    {
      hide Chains, Rolling, Update;
      ghost var win := window[..];
      var n := src.Read(window, 0, 2 * wsize);
      ChainsSameBytes(p, win, window[..], prev[..], head[..], 0);
      if n == 0 || n == -1 {
        eofile := true;
        lookahead := 0;
        return;
      }
      lookahead := n;
      FillWindowIfNeeded();
      insH := Update(p, insH, window[0]);
      insH := Update(p, insH, window[1]);
      RollingStart(p, window[0], window[1]);
    }

    method InsertNext()
      requires Sized() && Inserted() && strstart + MIN_MATCH < 2 * wsize
      modifies `insH, `strstart, prev, head
      ensures Inserted() && strstart == old(strstart) + 1
    {
      hide Chains, Rolling;
      strstart := strstart + 1;
      var _ := InsertString();
    }

    /** Inserts the next n strings. */
    method InsertStrings(n: nat)
      requires Sized() && Inserted() && 0 < n && strstart + n + MIN_MATCH - 1 < 2 * wsize
      modifies `insH, `strstart, `prevLength, prev, head
      ensures Inserted() && strstart == old(strstart) + n && prevLength == 0
    {
      hide Chains, Rolling, Matcher.Inserted;
      prevLength := n;
      while true
        invariant 0 < prevLength && strstart + prevLength == old(strstart) + n && Inserted()
        decreases prevLength
      {
        InsertNext();
        prevLength := prevLength - 1;
        if prevLength == 0 {
          break;
        }
      }
    }

    /** After a match of len bytes from strstart - 1 on: inserts its other strings and moves behind it. */
    method SkipMatch(len: nat)
      requires Sized() && Loaded() && Inserted() && MIN_MATCH <= len <= lookahead + 1
      requires len <= MAX_MATCH && (eofile || lookahead >= MIN_LOOKAHEAD)
      modifies `insH, `strstart, `lookahead, `prevLength, prev, head
      ensures Loaded() && Chained() && Primed()
      ensures strstart == old(strstart) + len - 1 && lookahead == old(lookahead) - (len - 1)
    {
      hide Chains, Rolling;
      assert strstart + len < 2 * wsize;
      lookahead := lookahead - (len - 1);
      InsertStrings(len - 2);
      strstart := strstart + 1;
    }
  }

  /** memcpy of the upper half over the lower one. */
  method MoveBytes(window: array<byte>, wsize: nat)
    requires 2 * wsize <= window.Length
    modifies window
    ensures window[..wsize] == old(window[wsize..2 * wsize])
    ensures window[wsize..] == old(window[wsize..])
  {
    var n := 0;
    while n < wsize
      invariant n <= wsize
      invariant forall i :: 0 <= i < n ==> window[i] == old(window[wsize + i])
      invariant forall i :: wsize <= i < window.Length ==> window[i] == old(window[i])
    {
      window[n] := window[wsize + n];
      n := n + 1;
    }
  }

  /** Every index in a table moves down with the window. */
  method MoveIndices(a: array<nat>, wsize: nat)
    modifies a
    ensures MovedDown(old(a[..]), a[..], wsize)
  {
    var n := 0;
    while n < a.Length
      invariant n <= a.Length
      invariant forall i :: 0 <= i < n ==> a[i] == Down(old(a[i]), wsize)
      invariant forall i :: n <= i < a.Length ==> a[i] == old(a[i])
    {
      var m := a[n];
      a[n] := if m >= wsize then m - wsize else 0;
      n := n + 1;
    }
  }

  lemma LoadedSlides(win: seq<byte>, win': seq<byte>, given: seq<byte>, base: nat, wsize: nat, end: nat)
    requires |win| == |win'| && wsize <= end <= 2 * wsize <= |win| && win'[..wsize] == win[wsize..2 * wsize]
    requires |given| == base + end && win[..end] == given[base..]
    ensures win'[..end - wsize] == given[base + wsize..]
  {
    assert win'[..end - wsize] == win'[..wsize][..end - wsize] == win[wsize..end] == win[..end][wsize..];
    assert given[base + wsize..] == given[base..][wsize..];
  }

  lemma LoadedGrows(win: seq<byte>, win': seq<byte>, given: seq<byte>, given': seq<byte>, base: nat, end: nat, n: nat)
    requires |win| == |win'| && end + n <= |win| && win'[..end] == win[..end]
    requires |given| == base + end && win[..end] == given[base..]
    requires given <= given' && |given'| == |given| + n && win'[end..end + n] == given'[|given|..]
    ensures win'[..end + n] == given'[base..]
  {
    assert win'[..end + n] == win'[..end] + win'[end..end + n];
    assert given'[base..] == given'[base..|given|] + given'[|given|..];
    assert given'[base..|given|] == given[base..];
  }

  lemma PrefixSame(win: seq<byte>, win': seq<byte>, at: nat, end: nat)
    requires |win| == |win'| && end <= |win| && win'[..end] == win[..end] && (at == 0 || at + 2 <= end)
    ensures at == 0 || win'[..at + 2] == win[..at + 2]
  {
    if at > 0 {
      assert win'[..at + 2] == win'[..end][..at + 2];
    }
  }

  lemma TwoSame(win: seq<byte>, win': seq<byte>, at: nat, end: nat)
    requires |win| == |win'| && at + 2 <= end <= |win| && win'[..end] == win[..end]
    ensures win'[at] == win[at] && win'[at + 1] == win[at + 1]
  {
    assert win'[..end][at] == win[..end][at] && win'[..end][at + 1] == win[..end][at + 1];
  }

  /** A string that differs in one of the bytes looked at first cannot agree further. */
  lemma Rejected(win: seq<byte>, a: nat, b: nat, best: nat)
    requires a + best < |win| && b + best < |win| && 1 <= best
    requires win[a + best] != win[b + best] || win[a + best - 1] != win[b + best - 1] || win[a] != win[b]
        || win[a + 1] != win[b + 1]
    ensures !SameStretch(win, a, b, best + 1)
  {
    var x, y := win[a..a + best + 1], win[b..b + best + 1];
    assert x[best] == win[a + best] && y[best] == win[b + best];
    assert x[best - 1] == win[a + best - 1] && y[best - 1] == win[b + best - 1];
    assert x[0] == win[a] && y[0] == win[b] && x[1] == win[a + 1] && y[1] == win[b + 1];
  }

  ghost predicate AllEqual(bytes: seq<byte>)
  {
    forall i, j :: 0 <= i < |bytes| && 0 <= j < |bytes| ==> bytes[i] == bytes[j]
  }

  lemma EqualSame(win: seq<byte>, end: nat, a: nat, b: nat, len: nat)
    requires end <= |win| && AllEqual(win[..end]) && a + len <= end && b + len <= end
    ensures SameStretch(win, a, b, len)
  {
    var x, y := win[a..a + len], win[b..b + len];
    forall i | 0 <= i < len
      ensures x[i] == y[i]
    {
      assert x[i] == win[..end][a + i] && y[i] == win[..end][b + i];
    }
  }

  /** The string that comes next on the chain of the one at `at`, behind those seen. */
  ghost function NextOn(p: Hashing, win: seq<byte>, at: nat, seen: seq<nat>): nat
    requires at + 2 < |win| && (seen != [] ==> seen[|seen| - 1] + 1 < |win|)
  {
    Latest(p, win, HashAt(p, win, at), if seen == [] then at else seen[|seen| - 1])
  }

  ghost predicate Below(seen: seq<nat>, at: nat)
  {
    forall i :: 0 <= i < |seen| ==> 0 < seen[i] < at
  }

  /** The strings before `at` with the same hash, from the last one back, without a gap. */
  ghost predicate Linked(p: Hashing, win: seq<byte>, at: nat, seen: seq<nat>)
    requires at + 2 < |win| && Below(seen, at)
  {
    forall i :: 0 <= i < |seen| ==> seen[i] == NextOn(p, win, at, seen[..i])
  }

  ghost predicate NoneLonger(win: seq<byte>, at: nat, seen: seq<nat>, best: nat)
    requires at + MAX_MATCH < |win| && Below(seen, at)
  {
    best >= MAX_MATCH || forall i :: 0 <= i < |seen| ==> !SameStretch(win, seen[i], at, best + 1)
  }

  lemma NothingSeen(p: Hashing, win: seq<byte>, at: nat, best: nat)
    requires at + MAX_MATCH < |win|
    ensures Linked(p, win, at, []) && NoneLonger(win, at, [], best)
  {
  }

  lemma LinkedMore(p: Hashing, win: seq<byte>, at: nat, seen: seq<nat>, cur: nat)
    requires at + 2 < |win| && Below(seen, at) && Linked(p, win, at, seen)
    requires 0 < cur < at && cur == NextOn(p, win, at, seen)
    ensures Below(seen + [cur], at) && Linked(p, win, at, seen + [cur])
  {
    hide NextOn;
    var more := seen + [cur];
    assert more[..|seen|] == seen;
    assert forall i :: 0 <= i < |seen| ==> more[..i] == seen[..i];
  }

  lemma NoneLongerMore(win: seq<byte>, at: nat, seen: seq<nat>, best: nat, cur: nat, len: nat)
    requires at + MAX_MATCH < |win| && Below(seen, at) && 0 < cur < at && best <= len
    requires NoneLonger(win, at, seen, best) && (len >= MAX_MATCH || !SameStretch(win, cur, at, len + 1))
    ensures Below(seen + [cur], at) && NoneLonger(win, at, seen + [cur], len)
  {
    hide SameStretch;
    if len < MAX_MATCH {
      forall i | 0 <= i < |seen|
        ensures !SameStretch(win, seen[i], at, len + 1)
      {
        if SameStretch(win, seen[i], at, len + 1) {
          SameShorter(win, seen[i], at, len + 1, best + 1);
          assert false;
        }
      }
    }
  }

  lemma SameHashes(p: Hashing, win: seq<byte>, a: nat, b: nat)
    requires a + 2 < |win| && b + 2 < |win| && SameStretch(win, a, b, 3)
    ensures HashAt(p, win, a) == HashAt(p, win, b)
  {
    hide Hash3;
    var x, y := win[a..a + 3], win[b..b + 3];
    assert x[0] == y[0] && x[1] == y[1] && x[2] == y[2];
  }

  /** Every string with the same hash behind the end of the chain is among those seen. */
  lemma {:induction false} AllLinked(p: Hashing, win: seq<byte>, at: nat, seen: seq<nat>, k: nat)
    requires at + 2 < |win| && Below(seen, at) && Linked(p, win, at, seen)
    requires NextOn(p, win, at, seen) < k < at && HashAt(p, win, k) == HashAt(p, win, at)
    ensures k in seen
    decreases |seen|
  {
    hide HashAt, Latest;
    if seen != [] {
      var n := |seen| - 1;
      var front := seen[..n];
      assert seen[n] == NextOn(p, win, at, front);
      if k > seen[n] {
        LinkedFront(p, win, at, seen);
        AllLinked(p, win, at, front, k);
      }
    }
  }

  lemma LinkedFront(p: Hashing, win: seq<byte>, at: nat, seen: seq<nat>)
    requires at + 2 < |win| && seen != [] && Below(seen, at) && Linked(p, win, at, seen)
    ensures var front := seen[..|seen| - 1]; Below(front, at) && Linked(p, win, at, front)
  {
    hide NextOn;
    var front := seen[..|seen| - 1];
    assert forall i :: 0 <= i < |front| ==> front[..i] == seen[..i];
  }

  lemma ThreeSame(win: seq<byte>, a: nat, b: nat)
    requires a + 3 <= |win| && b + 3 <= |win| && win[a] == win[b] && win[a + 1] == win[b + 1]
        && win[a + 2] == win[b + 2]
    ensures SameStretch(win, a, b, 3)
  {
  }

  /** Strings that differ in byte len agree in no more than len bytes. */
  lemma Differs(win: seq<byte>, a: nat, b: nat, len: nat, best: nat)
    requires a + MAX_MATCH < |win| && b + MAX_MATCH < |win| && len <= MAX_MATCH && best <= MAX_MATCH
    requires len == MAX_MATCH || win[b + len] != win[a + len]
    ensures var k := if len > best then len else best; k >= MAX_MATCH || !SameStretch(win, a, b, k + 1)
  {
    var k := if len > best then len else best;
    if k < MAX_MATCH {
      var x, y := win[a..a + k + 1], win[b..b + k + 1];
      assert x[len] == win[a + len] && y[len] == win[b + len];
    }
  }

  lemma LowerHalf(win: seq<byte>, win': seq<byte>, wsize: nat, k: nat)
    requires |win| == |win'| && 2 * wsize <= |win| && win'[..wsize] == win[wsize..2 * wsize] && k < wsize
    ensures win'[k] == win[wsize + k]
  {
    assert win'[..wsize][k] == win[wsize..2 * wsize][k];
  }
}
