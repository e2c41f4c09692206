/** The main loop of deflate on equal bytes, where every search finds the byte before: how far an input of n such bytes
    takes it, when every read delivers all that it is asked for. */
module EqualBytes {
  import opened Blocks
  import opened Matching

  const WSIZE := 0x8000

  /** Where the loop stands. The first `filled` bytes of the window are the input's byte, and `left` bytes have not been
      read. */
  datatype Place = Place(strstart: nat, lookahead: nat, left: nat, eofile: bool, filled: nat, length: nat,
                         available: bool)

  /** A match of at least MIN_MATCH bytes is pending only inside the lookahead. */
  predicate Sound(s: Place)
  {
    s.strstart + s.lookahead <= 2 * WSIZE && 1 <= s.length <= MAX_MATCH
    && (s.length >= MIN_MATCH ==> s.length - 1 <= s.lookahead)
  }

  /** The upper half moves down, and with it what it does not hold. */
  function Slid(s: Place): Place
    requires s.strstart >= WSIZE
  {
    s.(strstart := s.strstart - WSIZE,
       filled := if s.filled >= 2 * WSIZE then s.filled else if s.filled >= WSIZE then s.filled - WSIZE else 0)
  }

  /** fill_window. */
  function Fill(s: Place): (r: Place)
    requires Sound(s) && s.lookahead < MIN_LOOKAHEAD
    ensures Sound(r) && r.length == s.length && r.lookahead >= s.lookahead
    ensures r.eofile || r.left < s.left
  {
    var t := if s.strstart >= 2 * WSIZE - MIN_LOOKAHEAD then Slid(s) else s;
    var end := t.strstart + t.lookahead;
    var more := 2 * WSIZE - end;
    var n := if t.left < more then t.left else more;
    if n == 0 then t.(eofile := true)
    else t.(lookahead := t.lookahead + n, left := t.left - n,
            filled := if t.filled < end + n then end + n else t.filled)
  }

  /** fill_window_if_needed. */
  function Refill(s: Place): (r: Place)
    requires Sound(s)
    ensures Sound(r) && r.length == s.length && (r.eofile || r.lookahead >= MIN_LOOKAHEAD)
    decreases if s.eofile then 0 else s.left + 1
  {
    if s.lookahead < MIN_LOOKAHEAD && !s.eofile then Refill(Fill(s)) else s
  }

  /** lm_init on n bytes. */
  function Start(n: nat): Place
  {
    var k := if n < 2 * WSIZE then n else 2 * WSIZE;
    Refill(Place(0, k, n - k, k == 0, k, MIN_MATCH - 1, false))
  }

  /** Does this round search? The head of the chain is the string before, unless that is at index 0 or missing. */
  predicate Searches(s: Place, lazy: nat)
  {
    s.strstart >= 2 && s.length < lazy
  }

  /** One round of the main loop, with maxLazy == lazy. */
  function Round(s: Place, lazy: nat): (r: Place)
    requires Sound(s) && s.lookahead > 0
    ensures Sound(r)
  {
    var length := if !Searches(s, lazy) then MIN_MATCH - 1
                  else if s.lookahead < MAX_MATCH then s.lookahead else MAX_MATCH;
    if s.length >= MIN_MATCH && length <= s.length
    then Refill(Passed(s, s.length - 1, MIN_MATCH - 1, false))
    else Refill(Passed(s, 1, length, true))
  }

  function Passed(s: Place, n: nat, length: nat, available: bool): Place
    requires n <= s.lookahead
  {
    s.(strstart := s.strstart + n, lookahead := s.lookahead - n, length := length, available := available)
  }

  function Run(s: Place, k: nat, lazy: nat): Place
    requires Sound(s)
    decreases k
  {
    if k == 0 || s.lookahead == 0 then s else Run(Round(s, lazy), k - 1, lazy)
  }

  lemma {:induction false} RunOn(s: Place, j: nat, k: nat, lazy: nat)
    requires Sound(s)
    ensures Sound(Run(s, j, lazy)) && Run(s, j + k, lazy) == Run(Run(s, j, lazy), k, lazy)
    decreases j
  {
    hide Round, Sound;
    if j > 0 && s.lookahead > 0 {
      RunOn(Round(s, lazy), j - 1, k, lazy);
    }
  }

  /** Without a pending match the next two rounds find and emit one of MAX_MATCH bytes. */
  lemma {:induction false} Pair(s: Place, lazy: nat)
    requires Sound(s) && s.strstart >= 2 && s.length == MIN_MATCH - 1 && MIN_MATCH <= lazy <= MAX_MATCH
    requires s.lookahead > MIN_LOOKAHEAD || (s.eofile && s.lookahead >= MAX_MATCH)
    ensures Run(s, 2, lazy) == Refill(Passed(s, MAX_MATCH, MIN_MATCH - 1, false))
  {
    var t := Round(s, lazy);
    assert t == Passed(s, 1, MAX_MATCH, true);
    assert Round(t, lazy) == Refill(Passed(s, MAX_MATCH, MIN_MATCH - 1, false));
    hide Round, Refill, Passed;
    assert Run(t, 1, lazy) == Run(Round(t, lazy), 0, lazy);
    assert Run(s, 2, lazy) == Run(t, 1, lazy);
  }

  /** And so on, as long as the lookahead stays full. */
  lemma {:induction false} Pairs(s: Place, k: nat, lazy: nat)
    requires Sound(s) && s.strstart >= 2 && s.length == MIN_MATCH - 1 && MIN_MATCH <= lazy <= MAX_MATCH
    requires s.lookahead >= MIN_LOOKAHEAD + MAX_MATCH * k && (s.available ==> k > 0)
    ensures Run(s, 2 * k, lazy) == Passed(s, MAX_MATCH * k, MIN_MATCH - 1, false)
    decreases k
  {
    if k == 0 {
      return;
    }
    var t := Passed(s, MAX_MATCH, MIN_MATCH - 1, false);
    assert Refill(t) == t;
    Pair(s, lazy);
    RunOn(s, 2, 2 * (k - 1), lazy);
    Pairs(t, k - 1, lazy);
  }

  const INPUT := 4 * WSIZE - 3

  /** After the first slide, and after the round that follows the second. */
  const ONCE_SLID := Place(WSIZE - 260, WSIZE + 260, WSIZE - 3, false, 2 * WSIZE, MIN_MATCH - 1, false)
  const TWICE_SLID := Place(WSIZE - 4, WSIZE + 1, 0, false, 2 * WSIZE, MIN_MATCH - 1, false)
  const AT_END := Place(2 * WSIZE - 6, 3, 0, true, 2 * WSIZE, MIN_MATCH - 1, false)

  lemma {:induction false} FirstTurn(lazy: nat)
    requires MIN_MATCH <= lazy <= MAX_MATCH
    ensures Run(Start(INPUT), 508, lazy) == ONCE_SLID
  {
    var s := Start(INPUT);
    assert s == Place(0, 2 * WSIZE, 2 * WSIZE - 3, false, 2 * WSIZE, MIN_MATCH - 1, false);
    var t := Passed(s, 1, MIN_MATCH - 1, true);
    var u := Passed(s, 2, MIN_MATCH - 1, true);
    assert Round(s, lazy) == t && Round(t, lazy) == u;
    var v := Passed(u, MAX_MATCH * 252, MIN_MATCH - 1, false);
    assert Refill(Passed(v, MAX_MATCH, MIN_MATCH - 1, false)) == ONCE_SLID;
    Pairs(u, 252, lazy);
    Pair(v, lazy);
    hide Round, Refill, Passed;
    assert Run(s, 508, lazy) == Run(t, 507, lazy) == Run(u, 506, lazy);
    RunOn(u, 504, 2, lazy);
  }

  lemma {:induction false} SecondTurn(lazy: nat)
    requires MIN_MATCH <= lazy <= MAX_MATCH
    ensures Run(ONCE_SLID, 256, lazy) == TWICE_SLID
  {
    var s := Passed(ONCE_SLID, MAX_MATCH * 127, MIN_MATCH - 1, false);
    var u := Passed(s, 1, MAX_MATCH, true);
    var t := Refill(u);
    assert t == Refill(Fill(u)) && Fill(u).lookahead >= MIN_LOOKAHEAD;
    assert t == Place(WSIZE - 261, WSIZE + 258, 0, false, 2 * WSIZE, MAX_MATCH, true);
    assert Round(s, lazy) == t && Round(t, lazy) == TWICE_SLID;
    Pairs(ONCE_SLID, 127, lazy);
    hide Round, Refill, Passed;
    RunOn(ONCE_SLID, 254, 2, lazy);
    assert Run(s, 2, lazy) == Run(t, 1, lazy) == Run(TWICE_SLID, 0, lazy);
  }

  lemma {:induction false} ThirdTurn(lazy: nat)
    requires MIN_MATCH <= lazy <= MAX_MATCH
    ensures Run(TWICE_SLID, 254, lazy) == AT_END
  {
    var s := Passed(TWICE_SLID, MAX_MATCH * 125, MIN_MATCH - 1, false);
    var t := Passed(s, MAX_MATCH, MIN_MATCH - 1, false);
    assert Refill(t) == t.(eofile := true);
    Pairs(TWICE_SLID, 125, lazy);
    Pair(s, lazy);
    Pair(t.(eofile := true), lazy);
    hide Round, Refill;
    RunOn(TWICE_SLID, 250, 4, lazy);
    RunOn(s, 2, 2, lazy);
  }

  /** On 4 * WSIZE - 3 equal bytes, the loop comes to search six bytes before the end of the window, with three bytes of
      lookahead and all of the window equal. */
  lemma {:induction false} ReachesEnd(lazy: nat)
    requires MIN_MATCH <= lazy <= MAX_MATCH
    ensures Run(Start(4 * WSIZE - 3), 1018, lazy) == AT_END && Searches(AT_END, lazy)
  {
    FirstTurn(lazy);
    SecondTurn(lazy);
    ThirdTurn(lazy);
    hide Run, Start;
    RunOn(Start(INPUT), 508, 510, lazy);
    RunOn(ONCE_SLID, 256, 254, lazy);
  }
}
