/** deflate(): lazy matching over the window, feeding the block encoder. */
module Deflating {
  import opened Bits
  import opened BitWriting
  import opened Options
  import opened Rfc1951
  import opened Blocks
  import opened Tokens
  import opened StringHash
  import opened HashChains
  import opened Matching
  import opened BlockEncoding

  const TOO_FAR := 4096

  /** The len bytes of text at pos repeat those dist bytes before. */
  ghost predicate Repeats(text: seq<byte>, pos: int, dist: int, len: nat)
  {
    1 <= dist <= pos && pos + len <= |text| && text[pos..pos + len] == text[pos - dist..pos - dist + len]
  }

  /** The blocks stand for text[..from], and the tokens after them for text[from..to]. */
  ghost predicate Covers(blocks: seq<Block>, tokens: seq<Token>, text: seq<byte>, from: int, to: int)
  {
    && 0 <= from <= to <= |text|
    && Output(blocks) == Some(text[..from]) && Expand(text[..from], tokens) == Some(text[..to])
  }

  lemma CoversLiteral(blocks: seq<Block>, tokens: seq<Token>, text: seq<byte>, from: int, to: int)
    requires Covers(blocks, tokens, text, from, to) && to < |text|
    ensures Covers(blocks, tokens + [Literal(text[to])], text, from, to + 1)
  {
    hide Expand, Output;
    ExpandAppend(text[..from], tokens, Literal(text[to]));
    assert text[..to] + [text[to]] == text[..to + 1];
  }

  lemma CoversMatch(blocks: seq<Block>, tokens: seq<Token>, text: seq<byte>, from: int, to: int, dist: int, len: nat)
    requires Covers(blocks, tokens, text, from, to) && Repeats(text, to, dist, len) && MIN_MATCH <= len <= MAX_MATCH
        && dist <= 32768
    ensures Covers(blocks, tokens + [Match(len, dist)], text, from, to + len)
  {
    hide Expand, Output, CopyMatch;
    ExpandAppend(text[..from], tokens, Match(len, dist));
    forall j | to <= j < to + len
      ensures text[j] == text[j - dist]
    {
      assert text[to..to + len][j - to] == text[to - dist..to - dist + len][j - to];
    }
    CopyMatchIs(text, to, len, dist);
  }

  /** Reading more input changes nothing about what is covered. */
  lemma CoversMore(blocks: seq<Block>, tokens: seq<Token>, text: seq<byte>, more: seq<byte>, from: int, to: int)
    requires Covers(blocks, tokens, text, from, to) && text <= more
    ensures Covers(blocks, tokens, more, from, to)
  {
    hide Expand, Output;
    assert more[..from] == text[..from] && more[..to] == text[..to];
  }

  lemma RepeatsMore(text: seq<byte>, more: seq<byte>, pos: int, dist: int, len: nat)
    requires Repeats(text, pos, dist, len) && text <= more
    ensures Repeats(more, pos, dist, len)
  {
    assert more[pos..pos + len] == text[pos..pos + len];
    assert more[pos - dist..pos - dist + len] == text[pos - dist..pos - dist + len];
  }

  /** A match found in the window, cut to the lookahead, is a repetition in the input. */
  lemma WindowRepeats(win: seq<byte>, text: seq<byte>, base: nat, at: nat, look: nat, m: nat, found: nat, len: nat)
    requires at + look <= |win| && |text| == base + at + look && win[..at + look] == text[base..]
    requires 0 < m < at && at + found <= |win| && SameStretch(win, m, at, found) && len <= found && len <= look
    ensures Repeats(text, base + at, at - m, len)
  {
    SameShorter(win, m, at, found, len);
    var end := at + look;
    assert win[at..at + len] == win[..end][at..at + len] == text[base..][at..at + len]
        == text[base + at..base + at + len];
    assert win[m..m + len] == win[..end][m..m + len] == text[base..][m..m + len] == text[base + m..base + m + len];
  }

  /** The bytes from start on, as the window holds them. */
  lemma WindowData(win: seq<byte>, text: seq<byte>, base: nat, end: nat, start: nat, stop: nat)
    requires end <= |win| && |text| == base + end && win[..end] == text[base..] && start <= stop <= end
    ensures text[base + start..base + stop] == win[start..stop]
  {
    assert win[start..stop] == win[..end][start..stop] == text[base..][start..stop];
  }

  ghost predicate SomeBlock(bs: seq<Block>, ts: seq<Token>, bs': seq<Block>)
  {
    exists data: Option<seq<byte>> :: AddsBlock(bs, ts, data, bs')
  }

  /** The length that counts: no longer than what is ahead, and no three bytes from too far. */
  function Counting(found: nat, ahead: nat, dist: int): nat
  {
    var length := if found > ahead then ahead else found;
    if length == MIN_MATCH && dist > TOO_FAR then length - 1 else length
  }

  /** Where the main loop stands: positions in the input, the match that is pending, and what has been tallied. */
  datatype Stand = Stand(pos: int, available: bool, length: nat, start: int, tokens: seq<Token>, blocks: seq<Block>)

  /** A round of the main loop: the window it looked at, which started at position base of the input, and the length
      that the search gave. */
  datatype Round = Round(from: Stand, to: Stand, win: seq<byte>, base: nat, ahead: nat, inLength: int, found: nat)

  class Deflater {
    const m: Matcher
    const enc: BlockEncoder

    /** The window and the encoder share nothing. */
    ghost predicate Separate()
    {
      m !in enc.Footprint() && m.window !in enc.Footprint() && m.prev !in enc.Footprint() && m.head !in enc.Footprint()
      && m.src !in enc.Footprint() && m.window != enc.w.outbuf
    }

    /** Everything before position `to` of the input has been tallied or sent. */
    ghost predicate Progress(to: int)
      reads m`base, m`blockStart, m.src, enc, enc.Footprint()
    {
      && enc.Standing() && Room()
      && Covers(enc.blocks, enc.tokens, m.src.given, m.base + m.blockStart, to)
    }

    /** The token buffers have room for one more token, besides the last. */
    ghost predicate Room()
      reads enc`tokens
    {
      |enc.tokens| < enc.litBufsize - 1 && Matches(enc.tokens) < enc.distBufsize
    }

    /** The tokens of a block fill it, or are worth sending. */
    ghost predicate Due(ts: seq<Token>, inLength: int)
    {
      inLength >= 0
      && (StopsEarly(ts, inLength) || |ts| == enc.litBufsize - 1 || Matches(ts) == enc.distBufsize)
    }

    /** The token t joined the tokens ts of a block; if the block was due then, it was sent. */
    ghost predicate Joins(ts: seq<Token>, bs: seq<Block>, t: Token, inLength: int, ts': seq<Token>, bs': seq<Block>)
    {
      if Due(ts + [t], inLength) then ts' == [] && SomeBlock(bs, ts + [t], bs') else ts' == ts + [t] && bs' == bs
    }

    /** What the search at index `at` of the window decides: if the last string with the same hash is in reach, and the
        match before is short enough, the best candidate seen gives the length, cut to the bytes there are; a match of
        three bytes too far away does not count. */
    ghost predicate Looked(win: seq<byte>, at: nat, ahead: nat, prevLen: nat, start: int, length: nat)
      requires at + MAX_MATCH < |win|
    {
      var first := NextOn(m.p, win, at, []);
      if first != 0 && prevLen < m.maxLazy && at - first <= m.MaxDist()
      then exists seen: seq<nat>, found: nat :: Best(win, at, prevLen, start, seen, found)
               && length == Counting(found, ahead, at - start)
      else length == MIN_MATCH - 1
    }

    ghost predicate Best(win: seq<byte>, at: nat, prevLen: nat, start: int, seen: seq<nat>, found: nat)
      requires at + MAX_MATCH < |win|
    {
      && m.Searched(win, at, prevLen, seen, found)
      && (found > prevLen ==> 0 < start < at && at - start <= m.MaxDist() && SameStretch(win, start, at, found))
    }

    /** All buffers, bi_init, ct_init and lm_init. */
    constructor (input: seq<byte>, p: Hashing, wsize: nat, chain: nat, lazy: nat, good: nat, nice: nat,
                 litSize: nat, distSize: nat, outSize: nat, width: nat)
      requires p.Valid() && 2 * MIN_LOOKAHEAD <= wsize <= 32768 && 4 <= chain && 2 <= outSize
          && (width == 16 || width == 32)
      requires litSize % 8 == 0 && 0 < litSize <= 32768 && 0 < distSize <= 32768
      ensures fresh(m) && fresh(m.window) && fresh(m.prev) && fresh(m.head) && fresh(m.src) && fresh(enc.w)
          && fresh(enc.Footprint())
      ensures Separate() && m.Sized() && m.maxChain == chain && Running(false, MIN_MATCH - 1)
      ensures m.src.given + m.src.rest == input
    {
      hide Chains, Rolling, BlockEncoder.Standing, BlockEncoder.Footprint, Covers;
      var matcher := OpenMatcher(input, p, wsize, chain, lazy, good, nice);
      CoversNothing(matcher.src.given);
      var encoder := OpenEncoder(litSize, distSize, outSize, width);
      m, enc := matcher, encoder;
    }

    /** FLUSH_BLOCK(0): what was tallied since the last block becomes a block, up to strstart. */
    method Flush()
      requires Separate() && m.Sized() && m.Loaded() && (m.eofile || m.lookahead > 0)
      requires enc.Standing() && enc.litBufsize >= 2 && enc.distBufsize > 0
      requires Covers(enc.blocks, enc.tokens, m.src.given, m.base + m.blockStart, m.base + m.strstart)
      modifies m`blockStart, enc.Footprint()
      ensures Progress(m.base + m.strstart) && m.blockStart == m.strstart
      ensures enc.tokens == [] && SomeBlock(old(enc.blocks), old(enc.tokens), enc.blocks)
    {
      hide AddsBlock, Expand, Output, BlockEncoder.Steady, BlockEncoder.Written, BlockEncoder.Footprint;
      ghost var text, from, to := m.src.given, m.base + m.blockStart, m.base + m.strstart;
      FlushData(text, from, to);
      enc.FlushBlock(m.window, m.blockStart, m.strstart - m.blockStart, false, text[..from], text[from..to]);
      m.blockStart := m.strstart;
      assert Matches([]) == 0;
      assert Expand(text[..to], []) == Some(text[..to]) by { ExpandNothing(text[..to]); }
    }

    /** The bytes from block_start to strstart are in the window, unless its start has left it. */
    lemma FlushData(text: seq<byte>, from: int, to: int)
      requires m.Sized() && m.Loaded() && text == m.src.given
      requires from == m.base + m.blockStart && to == m.base + m.strstart
      requires 0 <= from <= to
      ensures to <= |text| && text[..to] == text[..from] + text[from..to]
      ensures m.blockStart >= 0 ==> text[from..to] == m.window[m.blockStart..m.strstart]
    {
      if m.blockStart >= 0 {
        WindowData(m.window[..], text, m.base, m.strstart + m.lookahead, m.blockStart, m.strstart);
      }
    }

    /** The search for a match at strstart, given the head of its chain. */
    method FindMatch(hashHead: nat) returns (matchLength: nat, ghost touched: nat)
      requires m.Sized() && m.Loaded() && m.Inserted() && 1 <= m.prevLength <= MAX_MATCH && 4 <= m.maxChain
          && m.lookahead > 0
      requires hashHead == NextOn(m.p, m.window[..], m.strstart, [])
      requires hashHead != 0 && m.strstart - hashHead <= m.MaxDist() ==> m.Candidate(hashHead)
      modifies m`matchStart
      ensures 1 <= matchLength <= MAX_MATCH
      ensures touched <= m.strstart + MAX_MATCH && (m.lookahead >= MIN_LOOKAHEAD ==> touched < 2 * m.wsize)
      ensures Looked(m.window[..], m.strstart, m.lookahead, m.prevLength, m.matchStart, matchLength)
      ensures matchLength > m.prevLength && matchLength >= MIN_MATCH ==>
                m.strstart - m.matchStart <= m.MaxDist()
                && Repeats(m.src.given, m.base + m.strstart, m.strstart - m.matchStart, matchLength)
    {
      hide Repeats, Chains, Rolling, HashAt, SameStretch, Matcher.Searched, NextOn;
      matchLength, touched := MIN_MATCH - 1, 0;
      if hashHead != 0 && m.prevLength < m.maxLazy && m.strstart - hashHead <= m.MaxDist() {
        var found, seen, last := m.LongestMatch(hashHead);
        touched := last;
        matchLength := found;
        if matchLength > m.lookahead {
          matchLength := m.lookahead;
        }
        if found > m.prevLength {
          WindowRepeats(m.window[..], m.src.given, m.base, m.strstart, m.lookahead, m.matchStart, found, matchLength);
        }
        if matchLength == MIN_MATCH && m.strstart - m.matchStart > TOO_FAR {
          matchLength := matchLength - 1;
        }
        assert Best(m.window[..], m.strstart, m.prevLength, m.matchStart, seen, found);
      }
    }

    method Skip(len: nat)
      requires Separate() && m.Sized() && m.Loaded() && m.Inserted() && MIN_MATCH <= len <= m.lookahead + 1
          && enc.Standing()
      requires len <= MAX_MATCH && (m.eofile || m.lookahead >= MIN_LOOKAHEAD)
      modifies m`insH, m`strstart, m`lookahead, m`prevLength, m.prev, m.head
      ensures m.Loaded() && m.Chained() && m.Primed() && enc.Standing()
      ensures m.strstart == old(m.strstart) + len - 1 && m.lookahead == old(m.lookahead) - (len - 1)
    {
      hide Chains, Rolling, BlockEncoder.Standing;
      m.SkipMatch(len);
    }

    /** The match that starts at strstart - 1 is tallied. */
    method TallyMatch(dist: nat, len: nat) returns (flush: bool)
      requires Separate() && m.Sized() && m.Loaded() && Progress(m.base + m.strstart - 1)
      requires MIN_MATCH <= len <= MAX_MATCH && dist <= m.MaxDist()
      requires Repeats(m.src.given, m.base + m.strstart - 1, dist, len)
      modifies enc.Footprint()
      ensures enc.Standing() && enc.litBufsize >= 2 && enc.distBufsize > 0 && (flush || Room())
      ensures enc.tokens == old(enc.tokens) + [Match(len, dist)] && enc.blocks == old(enc.blocks)
      ensures flush <==> Due(enc.tokens, m.strstart - m.blockStart)
      ensures Covers(enc.blocks, enc.tokens, m.src.given, m.base + m.blockStart, m.base + m.strstart - 1 + len)
    {
      hide Expand, Output, BlockEncoder.Steady, BlockEncoder.Written, BlockEncoder.Footprint, StopsEarly, InFormat;
      ghost var text, from, to := m.src.given, m.base + m.blockStart, m.base + m.strstart - 1;
      CoversMatch(enc.blocks, enc.tokens, text, from, to, dist, len);
      assert InFormat(Match(len, dist)) by { MatchInFormat(len, dist); }
      flush := enc.Tally(dist, len - MIN_MATCH, m.strstart - m.blockStart, Match(len, dist));
    }

    /** The strings of a tallied match are inserted, and the block is sent if it is due. */
    method PassMatch(len: nat, flush: bool)
      requires Separate() && m.Sized() && m.Loaded() && m.Inserted() && MIN_MATCH <= len <= MAX_MATCH
      requires len <= m.lookahead + 1 && (m.eofile || m.lookahead >= MIN_LOOKAHEAD)
      requires enc.Standing() && enc.litBufsize >= 2 && enc.distBufsize > 0 && (flush || Room())
      requires Covers(enc.blocks, enc.tokens, m.src.given, m.base + m.blockStart, m.base + m.strstart - 1 + len)
      modifies m`insH, m`strstart, m`lookahead, m`prevLength, m`blockStart, m.prev, m.head, enc.Footprint()
      ensures m.Loaded() && m.Chained() && m.Primed() && Progress(m.base + m.strstart)
      ensures m.strstart == old(m.strstart) + len - 1 && m.lookahead == old(m.lookahead) - (len - 1)
      ensures if flush then enc.tokens == [] && SomeBlock(old(enc.blocks), old(enc.tokens), enc.blocks)
              else enc.tokens == old(enc.tokens) && enc.blocks == old(enc.blocks)
    {
      hide Chains, Rolling, BlockEncoder.Standing, BlockEncoder.Footprint, Covers, SomeBlock, Matcher.Inserted;
      Skip(len);
      if flush {
        Flush();
      }
    }

    /** The match that starts at strstart - 1 is tallied, and its strings are inserted. */
    method EmitMatch(prevMatch: int)
      requires Separate() && m.Sized() && m.Loaded() && m.Inserted() && Progress(m.base + m.strstart - 1)
      requires MIN_MATCH <= m.prevLength <= MAX_MATCH && (m.eofile || m.lookahead >= MIN_LOOKAHEAD)
      requires m.strstart - 1 - prevMatch <= m.MaxDist()
      requires Repeats(m.src.given, m.base + m.strstart - 1, m.strstart - 1 - prevMatch, m.prevLength)
      modifies m`insH, m`strstart, m`lookahead, m`prevLength, m`blockStart, m.prev, m.head, enc.Footprint()
      ensures m.Loaded() && m.Chained() && m.Primed() && Progress(m.base + m.strstart)
      ensures Joins(old(enc.tokens), old(enc.blocks), Match(old(m.prevLength), old(m.strstart) - 1 - prevMatch),
                    old(m.strstart - m.blockStart), enc.tokens, enc.blocks)
      ensures m.strstart == old(m.strstart + m.prevLength) - 1 && m.lookahead == old(m.lookahead - m.prevLength) + 1
      ensures m.strstart > old(m.strstart) && (m.eofile || m.lookahead >= 2)
    {
      hide Chains, Rolling, BlockEncoder.Standing, BlockEncoder.Footprint, Covers, SomeBlock, Deflater.Due,
          Deflater.Joins;
      ghost var ts, bs, n := enc.tokens, enc.blocks, m.strstart - m.blockStart;
      var len, dist := m.prevLength, m.strstart - 1 - prevMatch;
      var flush := TallyMatch(dist, len);
      PassMatch(len, flush);
      JoinsIs(ts, bs, Match(len, dist), n, enc.tokens, enc.blocks);
    }

    lemma JoinsIs(ts: seq<Token>, bs: seq<Block>, t: Token, inLength: int, ts': seq<Token>, bs': seq<Block>)
      requires if Due(ts + [t], inLength) then ts' == [] && SomeBlock(bs, ts + [t], bs')
               else ts' == ts + [t] && bs' == bs
      ensures Joins(ts, bs, t, inLength, ts', bs')
    {
    }

    /** The byte before strstart is tallied. */
    method TallyLiteral() returns (flush: bool)
      requires Separate() && m.Sized() && m.Loaded() && Progress(m.base + m.strstart - 1) && m.strstart > 0
      modifies enc.Footprint()
      ensures enc.Standing() && enc.litBufsize >= 2 && enc.distBufsize > 0 && (flush || Room())
      ensures enc.tokens == old(enc.tokens) + [Literal(m.window[m.strstart - 1])] && enc.blocks == old(enc.blocks)
      ensures flush <==> Due(enc.tokens, m.strstart - m.blockStart)
      ensures Covers(enc.blocks, enc.tokens, m.src.given, m.base + m.blockStart, m.base + m.strstart)
    {
      hide Expand, Output, BlockEncoder.Steady, BlockEncoder.Written, BlockEncoder.Footprint, StopsEarly, InFormat;
      ghost var text, from, to := m.src.given, m.base + m.blockStart, m.base + m.strstart - 1;
      assert text[to] == m.window[m.strstart - 1];
      CoversLiteral(enc.blocks, enc.tokens, text, from, to);
      assert InFormat(Literal(text[to])) by { LiteralInFormat(text[to]); }
      flush := enc.Tally(0, m.window[m.strstart - 1], m.strstart - m.blockStart, Literal(text[to]));
    }

    /** The byte before strstart is tallied as a literal. */
    method EmitLiteral()
      requires Separate() && m.Sized() && m.Loaded() && Progress(m.base + m.strstart - 1)
      requires m.strstart > 0 && m.lookahead > 0
      modifies m`blockStart, enc.Footprint()
      ensures Joins(old(enc.tokens), old(enc.blocks), Literal(m.window[m.strstart - 1]),
                    old(m.strstart - m.blockStart), enc.tokens, enc.blocks)
      ensures Progress(m.base + m.strstart)
    {
      hide BlockEncoder.Standing, BlockEncoder.Footprint, Covers, SomeBlock, Deflater.Due;
      var flush := TallyLiteral();
      if flush {
        Flush();
      }
    }

    /** The len bytes at index `at` repeat those at start, within reach. */
    ghost predicate Real(at: int, start: int, len: nat)
      reads m`base, m.src
    {
      at - start <= m.MaxDist() && Repeats(m.src.given, m.base + at, at - start, len)
    }

    /** A match of len bytes is pending, one byte before strstart. */
    ghost predicate Pending(len: nat)
      reads m, m.src
    {
      Real(m.strstart - 1, m.matchStart, len)
    }

    /** fill_window_if_needed; everything else stands. */
    method Refill(ghost to: int, ghost len: nat)
      requires Separate() && m.Sized() && m.Loaded() && m.Chained() && m.Primed() && (m.lookahead >= 2 || m.eofile)
      requires Progress(to) && (len >= MIN_MATCH ==> Pending(len))
      modifies m`strstart, m`matchStart, m`blockStart, m`base, m`lookahead, m`eofile, m.window, m.prev, m.head, m.src
      ensures m.Loaded() && m.Chained() && m.Primed() && (m.eofile || m.lookahead >= MIN_LOOKAHEAD)
      ensures Progress(to) && (len >= MIN_MATCH ==> Pending(len)) && m.base + m.strstart == old(m.base + m.strstart)
      ensures old(m.strstart) > 0 ==> m.strstart > 0
      ensures m.base + m.matchStart == old(m.base + m.matchStart)
      ensures old(m.src.given) <= m.src.given && (old(m.eofile) ==> m.eofile && m.src.given == old(m.src.given))
      ensures m.src.given + m.src.rest == old(m.src.given + m.src.rest)
    {
      hide Chains, Rolling, BlockEncoder.Standing, Covers, Repeats, Matcher.Loaded,
          Matcher.Chained, Matcher.Primed;
      ghost var text := m.src.given;
      m.FillWindowIfNeeded();
      CoversMore(enc.blocks, enc.tokens, text, m.src.given, m.base + m.blockStart, to);
      if len >= MIN_MATCH {
        RepeatsMore(text, m.src.given, m.base + m.strstart - 1, m.strstart - 1 - m.matchStart, len);
      }
    }

    /** The state at the top of the main loop. A match of at least MIN_MATCH bytes is real, and starts at the
        byte that has not been tallied yet; a shorter one leaves matchStart unused. */
    ghost predicate Running(matchAvailable: bool, matchLength: nat)
      requires m.Sized()
      reads m, m.window, m.prev, m.head, m.src, enc, enc.Footprint()
    {
      && m.Loaded() && m.Chained() && (m.eofile || m.lookahead >= MIN_LOOKAHEAD) && (m.lookahead > 0 ==> m.Primed())
      && (matchAvailable ==> m.strstart > 0) && 1 <= matchLength <= MAX_MATCH
      && Progress(m.base + m.strstart - (if matchAvailable then 1 else 0))
      && (matchLength >= MIN_MATCH ==> matchAvailable && Pending(matchLength))
    }

    /** The state behind the search: a match before strstart that was found earlier is real, and so is the new one if it
        is longer. */
    ghost predicate Ready(matchAvailable: bool, prevMatch: int, found: nat)
      requires m.Sized()
      reads m, m.window, m.prev, m.head, m.src, enc, enc.Footprint()
    {
      && m.Loaded() && m.Inserted() && m.lookahead > 0 && (m.eofile || m.lookahead >= MIN_LOOKAHEAD)
      && (matchAvailable ==> m.strstart > 0) && 1 <= found <= MAX_MATCH && 1 <= m.prevLength <= MAX_MATCH
      && Progress(m.base + m.strstart - (if matchAvailable then 1 else 0))
      && (m.prevLength >= MIN_MATCH ==> matchAvailable && Real(m.strstart - 1, prevMatch, m.prevLength))
      && (found > m.prevLength && found >= MIN_MATCH ==> Real(m.strstart, m.matchStart, found))
    }

    /** The string at strstart is inserted and a match for it is looked for. */
    method Search(matchAvailable: bool, matchLength: nat) returns (newLength: nat)
      requires Separate() && m.Sized() && 4 <= m.maxChain && m.lookahead > 0 && Running(matchAvailable, matchLength)
      modifies m`insH, m`prevLength, m`matchStart, m.prev, m.head
      ensures Ready(matchAvailable, old(m.matchStart), newLength) && m.prevLength == matchLength
      ensures Looked(m.window[..], m.strstart, m.lookahead, matchLength, m.matchStart, newLength)
    {
      hide Chains, Rolling, HashAt, BlockEncoder.Standing, Covers, Repeats, Deflater.Looked,
          Matcher.Loaded, Matcher.Chained, Matcher.Primed, Matcher.Inserted;
      newLength := Look(matchLength);
    }

    method Look(matchLength: nat) returns (newLength: nat)
      requires m.Sized() && m.Loaded() && m.Chained() && m.Primed() && m.lookahead > 0 && 4 <= m.maxChain
      requires 1 <= matchLength <= MAX_MATCH && (m.eofile || m.lookahead >= MIN_LOOKAHEAD)
      modifies m`insH, m`prevLength, m`matchStart, m.prev, m.head
      ensures m.Loaded() && m.Inserted() && m.prevLength == matchLength && 1 <= newLength <= MAX_MATCH
      ensures Looked(m.window[..], m.strstart, m.lookahead, matchLength, m.matchStart, newLength)
      ensures newLength > matchLength && newLength >= MIN_MATCH ==>
                m.strstart - m.matchStart <= m.MaxDist()
                && Repeats(m.src.given, m.base + m.strstart, m.strstart - m.matchStart, newLength)
    {
      hide Chains, Rolling, HashAt, Repeats, Deflater.Looked, Latest;
      var hashHead := m.InsertString();
      m.prevLength := matchLength;
      var found, _ := FindMatch(hashHead);
      newLength := found;
    }

    /** Moves on by one byte; the one before, if it is still waiting, becomes a literal. */
    method Advance(matchAvailable: bool, ghost length: nat)
      requires Separate() && m.Sized() && m.Loaded() && m.Inserted() && m.lookahead > 0
          && (matchAvailable ==> m.strstart > 0)
      requires m.eofile || m.lookahead >= MIN_LOOKAHEAD
      requires Progress(m.base + m.strstart - (if matchAvailable then 1 else 0))
      requires length >= MIN_MATCH ==> m.strstart - m.matchStart <= m.MaxDist()
      requires length >= MIN_MATCH ==> Repeats(m.src.given, m.base + m.strstart, m.strstart - m.matchStart, length)
      modifies m`strstart, m`lookahead, m`blockStart, enc.Footprint()
      ensures m.Loaded() && m.Chained() && m.Primed() && (m.lookahead >= 2 || m.eofile)
          && m.strstart == old(m.strstart) + 1 && m.lookahead == old(m.lookahead) - 1
      ensures if matchAvailable
              then Joins(old(enc.tokens), old(enc.blocks), Literal(old(m.window[m.strstart - 1])),
                         old(m.strstart - m.blockStart), enc.tokens, enc.blocks)
              else enc.tokens == old(enc.tokens) && enc.blocks == old(enc.blocks)
      ensures Progress(m.base + m.strstart - 1) && (length >= MIN_MATCH ==> Pending(length))
    {
      hide Chains, Rolling, BlockEncoder.Standing, BlockEncoder.Footprint, Covers, Repeats, Deflater.Joins;
      if matchAvailable {
        EmitLiteral();
      }
      m.strstart := m.strstart + 1;
      m.lookahead := m.lookahead - 1;
    }

    /** What a round of the main loop does, found being the length that the search at strstart gave: the match before is
        tallied exactly if it is one and the new one is not longer; else the byte before, if it is still waiting. */
    ghost predicate Decided(matchAvailable: bool, matchLength: nat, dist: int, before: byte, inLength: int, found: nat,
                            ts: seq<Token>, bs: seq<Block>, available: bool, length: nat, ts': seq<Token>,
                            bs': seq<Block>)
    {
      && (available <==> !(matchLength >= MIN_MATCH && found <= matchLength))
      && length == (if available then found else MIN_MATCH - 1)
      && if !available then dist >= 0 && Joins(ts, bs, Match(matchLength, dist), inLength, ts', bs')
         else if matchAvailable then Joins(ts, bs, Literal(before), inLength, ts', bs')
         else ts' == ts && bs' == bs
    }

    lemma ReadyFacts(matchAvailable: bool, prevMatch: int, found: nat)
      requires m.Sized() && Ready(matchAvailable, prevMatch, found)
      ensures 1 <= found <= MAX_MATCH && 1 <= m.prevLength <= MAX_MATCH && (matchAvailable ==> m.strstart > 0)
      ensures m.prevLength >= MIN_MATCH ==> matchAvailable && 1 <= m.strstart - 1 - prevMatch
    {
    }

    /** The match before strstart is as good as the new one. */
    method TakeMatch(matchAvailable: bool, prevMatch: int, ghost found: nat)
      requires Separate() && m.Sized() && Ready(matchAvailable, prevMatch, found)
      requires m.prevLength >= MIN_MATCH && found <= m.prevLength
      modifies m`insH, m`prevLength, m`strstart, m`lookahead, m`blockStart, m.prev, m.head, enc.Footprint()
      ensures m.Loaded() && m.Chained() && m.Primed() && (m.lookahead >= 2 || m.eofile)
      ensures m.strstart == old(m.strstart + m.prevLength) - 1 && m.lookahead == old(m.lookahead - m.prevLength) + 1
      ensures Decided(matchAvailable, old(m.prevLength), old(m.strstart) - 1 - prevMatch,
                      if matchAvailable then old(m.window[m.strstart - 1]) else 0, old(m.strstart - m.blockStart),
                      found, old(enc.tokens), old(enc.blocks), false, MIN_MATCH - 1, enc.tokens, enc.blocks)
      ensures Progress(m.base + m.strstart)
    {
      hide Chains, Rolling, HashAt, BlockEncoder.Standing, BlockEncoder.Footprint, Covers, Repeats, Deflater.Joins,
          Matcher.Loaded, Matcher.Inserted, Matcher.Chained, Matcher.Primed;
      ReadyFacts(matchAvailable, prevMatch, found);
      EmitMatch(prevMatch);
    }

    /** The match before strstart, if there is one, is not as good as the new one. */
    method GoOn(matchAvailable: bool, ghost prevMatch: int, ghost found: nat)
      requires Separate() && m.Sized() && Ready(matchAvailable, prevMatch, found)
      requires m.prevLength < MIN_MATCH || found > m.prevLength
      modifies m`strstart, m`lookahead, m`blockStart, enc.Footprint()
      ensures m.Loaded() && m.Chained() && m.Primed() && (m.lookahead >= 2 || m.eofile)
      ensures m.strstart == old(m.strstart) + 1 && m.lookahead == old(m.lookahead) - 1
      ensures Decided(matchAvailable, old(m.prevLength), old(m.strstart) - 1 - prevMatch,
                      if matchAvailable then old(m.window[m.strstart - 1]) else 0, old(m.strstart - m.blockStart),
                      found, old(enc.tokens), old(enc.blocks), true, found, enc.tokens, enc.blocks)
      ensures Progress(m.base + m.strstart - 1) && (found >= MIN_MATCH ==> Pending(found))
    {
      hide Chains, Rolling, HashAt, BlockEncoder.Standing, BlockEncoder.Footprint, Covers, Repeats, Deflater.Joins;
      Advance(matchAvailable, found);
    }

    /** Acts on the length that the search gave. */
    method Act(matchAvailable: bool, prevMatch: int, found: nat) returns (available: bool, length: nat)
      requires Separate() && m.Sized() && Ready(matchAvailable, prevMatch, found)
      modifies m`insH, m`prevLength, m`strstart, m`lookahead, m`blockStart, m.prev, m.head, enc.Footprint()
      ensures m.Loaded() && m.Chained() && m.Primed() && (m.lookahead >= 2 || m.eofile)
      ensures m.strstart > old(m.strstart) && 1 <= length <= MAX_MATCH
      ensures var n := old(m.prevLength);
              if available then m.strstart == old(m.strstart) + 1 && m.lookahead == old(m.lookahead) - 1
              else m.strstart == old(m.strstart) + n - 1 && m.lookahead == old(m.lookahead) - n + 1
      ensures Decided(matchAvailable, old(m.prevLength), old(m.strstart) - 1 - prevMatch,
                      if matchAvailable then old(m.window[m.strstart - 1]) else 0, old(m.strstart - m.blockStart),
                      found, old(enc.tokens), old(enc.blocks), available, length, enc.tokens, enc.blocks)
      ensures Progress(m.base + m.strstart - (if available then 1 else 0))
          && (length >= MIN_MATCH ==> available && Pending(length))
    {
      hide Deflater.Ready, Deflater.Progress, Deflater.Pending, Deflater.Decided, Matcher.Loaded, Matcher.Inserted,
          Matcher.Chained, Matcher.Primed, BlockEncoder.Footprint;
      ReadyFacts(matchAvailable, prevMatch, found);
      if m.prevLength >= MIN_MATCH && found <= m.prevLength {
        TakeMatch(matchAvailable, prevMatch, found);
        available, length := false, MIN_MATCH - 1;
      } else {
        GoOn(matchAvailable, prevMatch, found);
        available, length := true, found;
      }
    }

    /** One round of the main loop up to the refill: match, literal, or wait. */
    method Decide(matchAvailable: bool, matchLength: nat) returns (available: bool, length: nat, ghost found: nat)
      requires Separate() && m.Sized() && 4 <= m.maxChain && m.lookahead > 0 && Running(matchAvailable, matchLength)
      modifies m`insH, m`prevLength, m`matchStart, m`strstart, m`lookahead, m`blockStart, m.prev, m.head,
          enc.Footprint()
      ensures m.Loaded() && m.Chained() && m.Primed() && (m.lookahead >= 2 || m.eofile)
      ensures m.strstart > old(m.strstart) && 1 <= length <= MAX_MATCH
      ensures if available then m.strstart == old(m.strstart) + 1 && m.lookahead == old(m.lookahead) - 1
              else m.strstart == old(m.strstart) + matchLength - 1 && m.lookahead == old(m.lookahead) - matchLength + 1
      ensures Looked(m.window[..], old(m.strstart), old(m.lookahead), matchLength, m.matchStart, found)
      ensures Decided(matchAvailable, matchLength, old(m.strstart - 1 - m.matchStart),
                      if matchAvailable then old(m.window[m.strstart - 1]) else 0, old(m.strstart - m.blockStart),
                      found, old(enc.tokens), old(enc.blocks), available, length, enc.tokens, enc.blocks)
      ensures Progress(m.base + m.strstart - (if available then 1 else 0))
          && (length >= MIN_MATCH ==> available && Pending(length))
    {
      hide Chains, Rolling, HashAt, BlockEncoder.Standing, BlockEncoder.Footprint, Covers, Repeats, Deflater.Looked,
          Deflater.Decided, Deflater.Ready;
      ghost var win := m.window[..];
      var prevMatch := m.matchStart;
      var newLength := Search(matchAvailable, matchLength);
      found := newLength;
      available, length := Act(matchAvailable, prevMatch, newLength);
      assert m.window[..] == win;
    }

    ghost function Standing(available: bool, length: nat): Stand
      reads m, enc
    {
      Stand(m.base + m.strstart, available, length, m.base + m.matchStart, enc.tokens, enc.blocks)
    }

    /** A round as it should be: the window holds the input, with all of it or a full lookahead in reach; the search
        is as it should be, and so is what follows from it. */
    ghost predicate Regular(r: Round, text: seq<byte>)
    {
      var at := r.from.pos - r.base;
      && 0 <= at && at + MAX_MATCH < |r.win| && 0 < r.ahead && r.from.pos + r.ahead <= |text|
      && at + r.ahead <= |r.win| && r.win[..at + r.ahead] == text[r.base..r.from.pos + r.ahead]
      && (r.ahead >= MIN_LOOKAHEAD || r.from.pos + r.ahead == |text|)
      && (r.from.available ==> at > 0)
      && Looked(r.win, at, r.ahead, r.from.length, r.to.start - r.base, r.found)
      && Decided(r.from.available, r.from.length, r.from.pos - 1 - r.from.start,
                 if r.from.available then r.win[at - 1] else 0, r.inLength, r.found, r.from.tokens, r.from.blocks,
                 r.to.available, r.to.length, r.to.tokens, r.to.blocks)
      && r.to.pos == if r.to.available then r.from.pos + 1 else r.from.pos + r.from.length - 1
    }

    /** One round of the main loop. */
    method Step(matchAvailable: bool, matchLength: nat) returns (available: bool, length: nat, ghost r: Round)
      requires Separate() && m.Sized() && 4 <= m.maxChain && m.lookahead > 0 && Running(matchAvailable, matchLength)
      modifies m, m.window, m.prev, m.head, m.src, enc.Footprint()
      ensures Running(available, length) && m.base + m.strstart > old(m.base + m.strstart)
      ensures m.src.given + m.src.rest == old(m.src.given + m.src.rest)
      ensures old(m.src.given) <= m.src.given && (old(m.eofile) ==> m.eofile && m.src.given == old(m.src.given))
      ensures Regular(r, old(m.src.given))
      ensures r.ahead == old(m.lookahead) && r.inLength == old(m.strstart - m.blockStart)
      ensures r.from == old(Standing(matchAvailable, matchLength)) && r.to == Standing(available, length)
    {
      hide Chains, Rolling, BlockEncoder.Standing, BlockEncoder.Footprint, Covers, Repeats, Deflater.Looked,
          Deflater.Decided, Deflater.Running, Deflater.Pending, Deflater.Regular, Matcher.Loaded, Matcher.Chained,
          Matcher.Primed;
      ghost var found;
      ghost var from, win, base := Standing(matchAvailable, matchLength), m.window[..], m.base;
      ghost var text, at, ahead, inLength := m.src.given, m.strstart, m.lookahead, m.strstart - m.blockStart;
      RoundStart(matchAvailable, matchLength);
      available, length, found := Decide(matchAvailable, matchLength);
      r := Round(from, Standing(available, length), win, base, ahead, inLength, found);
      RoundRegular(r, text, at);
      Refill(m.base + m.strstart - (if available then 1 else 0), length);
      StillRunning(available, length);
    }

    /** What the state at the top of the loop says about the window. */
    lemma RoundStart(matchAvailable: bool, matchLength: nat)
      requires m.Sized() && m.lookahead > 0 && Running(matchAvailable, matchLength)
      ensures m.strstart + MAX_MATCH < m.window.Length && m.strstart + m.lookahead <= m.window.Length
      ensures m.base + m.strstart + m.lookahead == |m.src.given|
      ensures m.window[..m.strstart + m.lookahead] == m.src.given[m.base..]
      ensures (m.eofile || m.lookahead >= MIN_LOOKAHEAD) && (matchAvailable ==> m.strstart > 0)
    {
    }

    lemma StillRunning(available: bool, length: nat)
      requires m.Sized() && m.Loaded() && m.Chained() && m.Primed() && (m.eofile || m.lookahead >= MIN_LOOKAHEAD)
      requires (available ==> m.strstart > 0) && 1 <= length <= MAX_MATCH
      requires Progress(m.base + m.strstart - (if available then 1 else 0))
      requires length >= MIN_MATCH ==> available && Pending(length)
      ensures Running(available, length)
    {
    }

    lemma RoundRegular(r: Round, text: seq<byte>, at: nat)
      requires r.from.pos == r.base + at && at + MAX_MATCH < |r.win| && 0 < r.ahead && at + r.ahead <= |r.win|
      requires r.from.pos + r.ahead == |text| && r.win[..at + r.ahead] == text[r.base..]
      requires r.from.available ==> at > 0
      requires Looked(r.win, at, r.ahead, r.from.length, r.to.start - r.base, r.found)
      requires Decided(r.from.available, r.from.length, r.from.pos - 1 - r.from.start,
                       if r.from.available then r.win[at - 1] else 0, r.inLength, r.found, r.from.tokens, r.from.blocks,
                       r.to.available, r.to.length, r.to.tokens, r.to.blocks)
      requires r.to.pos == if r.to.available then r.from.pos + 1 else r.from.pos + r.from.length - 1
      ensures Regular(r, text)
    {
      hide Deflater.Looked, Deflater.Decided;
      assert text[r.base..|text|] == text[r.base..];
    }

    lemma RegularMore(r: Round, text: seq<byte>, more: seq<byte>)
      requires Regular(r, text) && text <= more && (text == more || r.ahead >= MIN_LOOKAHEAD)
      ensures Regular(r, more)
    {
      hide Deflater.Looked, Deflater.Decided;
      var end := r.from.pos + r.ahead;
      assert more[r.base..end] == text[r.base..end];
    }

    /** Regular rounds, each of which goes on where the one before ended. */
    ghost predicate AllRegular(rs: seq<Round>, text: seq<byte>, first: Stand, last: Stand)
    {
      && (forall i :: 0 <= i < |rs| ==> Regular(rs[i], text))
      && (forall i, j :: 0 <= i < j < |rs| && j == i + 1 ==> rs[j].from == rs[i].to)
      && if rs == [] then first == last else rs[0].from == first && rs[|rs| - 1].to == last
    }

    lemma OneMoreRound(rs: seq<Round>, text: seq<byte>, more: seq<byte>, first: Stand, r: Round)
      requires AllRegular(rs, text, first, r.from) && Regular(r, text) && text <= more
      requires text == more || (r.ahead >= MIN_LOOKAHEAD && forall i :: 0 <= i < |rs| ==> rs[i].ahead >= MIN_LOOKAHEAD)
      ensures AllRegular(rs + [r], more, first, r.to)
    {
      hide Deflater.Regular;
      RegularMore(r, text, more);
      forall i | 0 <= i < |rs|
        ensures Regular(rs[i], more)
      {
        RegularMore(rs[i], text, more);
      }
    }

    /** deflate(), after lm_init: the bytes written decode to the bytes read, and every round on the way to their end
        searched and tallied as it should. */
    method Deflate() returns (ghost rounds: seq<Round>)
      requires Separate() && m.Sized() && 4 <= m.maxChain && Running(false, MIN_MATCH - 1)
      modifies m, m.window, m.prev, m.head, m.src, enc.Footprint()
      ensures enc.w.Valid() && enc.w.biValid == 0 && Decodes(enc.w.Bytes(), m.src.given)
      ensures m.src.given + m.src.rest == old(m.src.given + m.src.rest) && (m.src.rest == [] || m.src.failed)
      ensures exists last: Stand ::
                last.pos == |m.src.given|
                && AllRegular(rounds, m.src.given, old(Standing(false, MIN_MATCH - 1)), last)
    {
      hide Chains, Rolling, BlockEncoder.Standing, BlockEncoder.Footprint, Covers, Repeats, Decodes, Deflater.Regular,
          Deflater.AllRegular;
      var matchAvailable := false;
      var matchLength: nat := MIN_MATCH - 1;
      ghost var first := Standing(matchAvailable, matchLength);
      rounds := [];
      assert AllRegular(rounds, m.src.given, first, first) by { NoRounds(m.src.given, first); }
      while m.lookahead != 0
        invariant Running(matchAvailable, matchLength)
        invariant m.src.given + m.src.rest == old(m.src.given + m.src.rest)
        invariant AllRegular(rounds, m.src.given, first, Standing(matchAvailable, matchLength))
        invariant m.eofile || forall i :: 0 <= i < |rounds| ==> rounds[i].ahead >= MIN_LOOKAHEAD
        decreases |m.src.given + m.src.rest| - (m.base + m.strstart)
      {
        ghost var text := m.src.given;
        ghost var r;
        matchAvailable, matchLength, r := Step(matchAvailable, matchLength);
        OneMoreRound(rounds, text, m.src.given, first, r);
        rounds := rounds + [r];
      }
      ghost var last := Standing(matchAvailable, matchLength);
      assert last.pos == |m.src.given|;
      Finish(matchAvailable);
    }

    lemma NoRounds(text: seq<byte>, first: Stand)
      ensures AllRegular([], text, first, first)
    {
    }

    /** The last literal, and the last block. */
    method Finish(matchAvailable: bool)
      requires Separate() && m.Sized() && m.Loaded() && m.eofile && m.lookahead == 0
          && (matchAvailable ==> m.strstart > 0)
      requires Progress(m.base + m.strstart - (if matchAvailable then 1 else 0))
      modifies enc.Footprint()
      ensures enc.w.Valid() && enc.w.biValid == 0 && Decodes(enc.w.Bytes(), m.src.given)
    {
      hide BlockEncoder.Standing, BlockEncoder.Footprint, Decodes, Covers;
      if matchAvailable {
        LastLiteral();
      }
      LastBlock();
    }

    method LastLiteral()
      requires Separate() && m.Sized() && m.Loaded() && m.strstart > 0 && m.lookahead == 0
      requires Progress(m.base + m.strstart - 1)
      modifies enc.Footprint()
      ensures enc.Standing() && Covers(enc.blocks, enc.tokens, m.src.given, m.base + m.blockStart, m.base + m.strstart)
    {
      hide Expand, Output, BlockEncoder.Steady, BlockEncoder.Written, BlockEncoder.Footprint, StopsEarly, InFormat;
      ghost var text, from, to := m.src.given, m.base + m.blockStart, m.base + m.strstart - 1;
      assert text[to] == m.window[m.strstart - 1];
      CoversLiteral(enc.blocks, enc.tokens, text, from, to);
      assert InFormat(Literal(text[to])) by { LiteralInFormat(text[to]); }
      var _ := enc.Tally(0, m.window[m.strstart - 1], m.strstart - m.blockStart, Literal(text[to]));
    }

    /** FLUSH_BLOCK(1). */
    method LastBlock()
      requires Separate() && m.Sized() && m.Loaded() && m.eofile && m.lookahead == 0 && enc.Standing()
      requires Covers(enc.blocks, enc.tokens, m.src.given, m.base + m.blockStart, m.base + m.strstart)
      modifies enc.Footprint()
      ensures enc.w.Valid() && enc.w.biValid == 0 && Decodes(enc.w.Bytes(), m.src.given)
    {
      hide Expand, Output, BlockEncoder.Steady, BlockEncoder.Written, BlockEncoder.Footprint, Decodes;
      ghost var text, from, to := m.src.given, m.base + m.blockStart, m.base + m.strstart;
      ghost var win := m.window[..];
      if m.blockStart >= 0 {
        WindowData(win, text, m.base, m.strstart + m.lookahead, m.blockStart, m.strstart);
      }
      assert text[..to] == text[..from] + text[from..to];
      assert text[..to] == text;
      enc.FlushBlock(m.window, m.blockStart, m.strstart - m.blockStart, true, text[..from], text[from..to]);
    }
  }

  method OpenEncoder(litSize: nat, distSize: nat, outSize: nat, width: nat) returns (enc: BlockEncoder)
    requires 2 <= outSize && (width == 16 || width == 32)
    requires litSize % 8 == 0 && 0 < litSize <= 32768 && 0 < distSize <= 32768
    ensures fresh(enc) && fresh(enc.w) && fresh(enc.w.outbuf) && fresh(enc.Footprint()) && enc.Standing()
        && enc.tokens == [] && enc.blocks == []
    ensures enc.litBufsize == litSize && enc.distBufsize == distSize
    ensures forall o :: o in enc.Footprint() ==> !(o is Deflater)
  {
    hide BlockEncoder.Steady, BlockEncoder.Written, Stream;
    var w := new BitWriter(outSize, width);
    enc := new BlockEncoder(w, litSize, distSize);
  }

  /** The window, full as far as the first reads allow. */
  method OpenMatcher(input: seq<byte>, p: Hashing, wsize: nat, chain: nat, lazy: nat, good: nat,
      nice: nat) returns (m: Matcher)
    requires p.Valid() && 2 * MIN_LOOKAHEAD <= wsize <= 32768
    ensures fresh(m) && fresh(m.window) && fresh(m.prev) && fresh(m.head) && fresh(m.src)
    ensures m.Sized() && m.maxChain == chain && m.Loaded() && m.Chained() && (m.lookahead > 0 ==> m.Primed())
    ensures m.eofile || m.lookahead >= MIN_LOOKAHEAD
    ensures m.strstart == 0 && m.base == 0 == m.blockStart && m.src.given + m.src.rest == input
  {
    hide Chains, Rolling;
    var src := new Source(input);
    m := new Matcher(p, wsize, src, chain, lazy, good, nice);
    m.LmInit();
  }

  /** The compressed data of zip(): for every input and every pattern of short reads, the reference decoder
      gives back the bytes that were read, which is all of the input unless a read failed. */
  method Compress(input: seq<byte>, p: Hashing, wsize: nat, chain: nat, lazy: nat, good: nat, nice: nat,
                  litSize: nat, distSize: nat, outSize: nat, width: nat) returns (bytes: seq<byte>, read: nat,
                      failed: bool)
    requires p.Valid() && 2 * MIN_LOOKAHEAD <= wsize <= 32768 && 4 <= chain && 2 <= outSize
        && (width == 16 || width == 32)
    requires litSize % 8 == 0 && 0 < litSize <= 32768 && 0 < distSize <= 32768
    ensures read <= |input| && Decodes(bytes, input[..read])
    ensures !failed ==> read == |input|
  {
    hide Chains, Rolling, BlockEncoder.Standing, BlockEncoder.Footprint, Covers, Decodes;
    var z := new Deflater(input, p, wsize, chain, lazy, good, nice, litSize, distSize, outSize, width);
    ghost var _ := z.Deflate();
    z.enc.w.FlushOutbuf();
    bytes := z.enc.w.written;
    failed := z.m.src.failed;
    read := |input| - |z.m.src.rest|;
    assert z.m.src.given == input[..read];
  }

  lemma CoversNothing(text: seq<byte>)
    ensures Covers([], [], text, 0, 0)
  {
  }

  lemma MatchInFormat(len: nat, dist: nat)
    requires MIN_MATCH <= len <= MAX_MATCH && 1 <= dist <= 32768
    ensures InFormat(Match(len, dist))
  {
  }

  lemma LiteralInFormat(b: byte)
    ensures InFormat(Literal(b))
  {
  }

  lemma ExpandNothing(out: seq<byte>)
    ensures Expand(out, []) == Some(out)
  {
  }
}
