/**
 * Code lengths of a complex prefix code (section 3.5 of RFC 7932): run lengths that multiply, symbol chains
 * threaded through one array, and the Kraft sum kept in wrapping 32-bit arithmetic.
 */
module CodeLengths {
  import opened Bytes

  const SLOTS := 16            // one chain head per length, before the symbols
  const MAX_SYMBOLS := 704
  const DEFAULT_LENGTH := 8
  const NO_SPACE := 0xFFFFF    // what an overlong repeat leaves

  /** A symbol of the code length alphabet, with its extra bits; Repeat(false, _) is 16, Repeat(true, _) is 17. */
  datatype Token = Single(len: nat) | Repeat(zero: bool, extra: nat) {
    predicate Valid() {
      match this
      case Single(len) => len <= MAX_LENGTH
      case Repeat(zero, extra) => extra < if zero then 8 else 4
    }
  }

  // ---------- Section 3.5, run by run ----------

  /** How many of the last tokens are repeats of one kind. */
  function RunStart(tokens: seq<Token>): (k: nat)
    ensures k <= |tokens|
    ensures forall j | k <= j < |tokens| :: tokens[j].Repeat?
    ensures tokens != [] && tokens[|tokens| - 1].Repeat? ==> k < |tokens|
  {
    var n := |tokens|;
    if n == 0 || tokens[n - 1].Single? then n
    else if n >= 2 && tokens[n - 2].Repeat? && tokens[n - 2].zero == tokens[n - 1].zero then RunStart(tokens[..n - 1])
    else n - 1
  }

  /** The length a run of repeats stands for: each further one scales what is already there. */
  function RunTotal(run: seq<Token>): (r: nat)
    requires forall t | t in run :: t.Repeat?
    ensures run != [] ==> r >= 3
  {
    if run == [] then 0
    else
      var r := RunTotal(run[..|run| - 1]);
      var t := run[|run| - 1];
      (if r == 0 then 0 else (if t.zero then 8 else 4) * (r - 2)) + 3 + t.extra
  }

  /** Repeats of one kind that stand for a run of length n: digits to base 4, or 8 for zeros, from 3 on. */
  function RunTokens(zero: bool, n: nat): (run: seq<Token>)
    requires n >= 3
    ensures run != [] && forall t | t in run :: t.Repeat? && t.zero == zero && t.Valid()
  {
    var (q, e) := DivMod(n - 3, if zero then 8 else 4);
    if q == 0 then [Repeat(zero, e)] else RunTokens(zero, q + 2) + [Repeat(zero, e)]
  }

  lemma LastDigit(zero: bool, n: nat, q: nat, e: nat)
    requires n >= 3 && e < (if zero then 8 else 4) && n - 3 == q * (if zero then 8 else 4) + e
    ensures RunTokens(zero, n) == if q == 0 then [Repeat(zero, e)] else RunTokens(zero, q + 2) + [Repeat(zero, e)]
  {
    DivModUnique(n - 3, if zero then 8 else 4, q, e);
  }

  lemma RunTotalOn(run: seq<Token>, t: Token)
    requires t.Repeat? && forall u | u in run :: u.Repeat?
    ensures var r := RunTotal(run);
            RunTotal(run + [t]) == (if r == 0 then 0 else (if t.zero then 8 else 4) * (r - 2)) + 3 + t.extra
  {
    assert (run + [t])[..|run|] == run;
  }

  lemma OneRepeat(t: Token)
    requires t.Repeat?
    ensures RunTotal([t]) == 3 + t.extra
  {
    RunTotalOn([], t);
    assert [] + [t] == [t];
  }

  /** Every run of at least 3 can be written. */
  lemma {:induction false} RunIsWritten(zero: bool, n: nat)
    requires n >= 3
    ensures RunTotal(RunTokens(zero, n)) == n
    decreases n
  {
    hide RunTokens, RunTotal;
    var (q, e) := DivMod(n - 3, if zero then 8 else 4);
    LastDigit(zero, n, q, e);
    if q == 0 {
      OneRepeat(Repeat(zero, e));
    } else {
      RunIsWritten(zero, q + 2);
      RunTotalOn(RunTokens(zero, q + 2), Repeat(zero, e));
    }
  }

  /** And in one way only. */
  lemma {:induction false} RunIsUnique(zero: bool, run: seq<Token>)
    requires run != [] && forall t | t in run :: t.Repeat? && t.zero == zero && t.Valid()
    ensures RunTokens(zero, RunTotal(run)) == run
    decreases |run|
  {
    hide RunTokens, RunTotal;
    var init, t := run[..|run| - 1], run[|run| - 1];
    assert run == init + [t] && t in run;
    if init == [] {
      OneRepeat(t);
      LastDigit(zero, 3 + t.extra, 0, t.extra);
    } else {
      RunIsUnique(zero, init);
      RunTotalOn(init, t);
      LastDigit(zero, RunTotal(run), RunTotal(init) - 2, t.extra);
    }
  }

  /** The last code length that was not 0, initially 8. */
  function PreviousLength(tokens: seq<Token>): (len: nat)
    ensures len != 0
  {
    if tokens == [] then DEFAULT_LENGTH
    else
      var t := tokens[|tokens| - 1];
      if t.Single? && t.len != 0 then t.len else PreviousLength(tokens[..|tokens| - 1])
  }

  function Copies(n: nat, len: nat): (s: seq<nat>)
    ensures |s| == n && forall k | 0 <= k < n :: s[k] == len
  {
    seq(n, _ => len)
  }

  /** The code lengths a sequence of tokens describes. */
  function Expand(tokens: seq<Token>): seq<nat>
    decreases |tokens|
  {
    if tokens == [] then []
    else
      var n := |tokens|;
      var t := tokens[n - 1];
      if t.Single? then Expand(tokens[..n - 1]) + [t.len]
      else
        var k := RunStart(tokens);
        Expand(tokens[..k]) + Copies(RunTotal(tokens[k..]), if t.zero then 0 else PreviousLength(tokens[..k]))
  }

  /** Lengths one by one stand for themselves. */
  function Singles(lens: seq<nat>): (tokens: seq<Token>) {
    if lens == [] then [] else Singles(lens[..|lens| - 1]) + [Single(lens[|lens| - 1])]
  }

  lemma {:induction false} SinglesExpand(lens: seq<nat>)
    ensures Expand(Singles(lens)) == lens
  {
    if lens != [] {
      var n := |lens| - 1;
      SinglesExpand(lens[..n]);
      assert Singles(lens)[..|Singles(lens)| - 1] == Singles(lens[..n]);
      assert lens[..n] + [lens[n]] == lens;
    }
  }

  /** The length of the run that the next repeat would extend. */
  function Pending(tokens: seq<Token>): (r: nat)
    ensures r == 0 || r >= 3
  {
    RunTotal(tokens[RunStart(tokens)..])
  }

  /** Whether a repeat extends the run that is already there. */
  predicate Extends(tokens: seq<Token>, zero: bool) {
    tokens != [] && tokens[|tokens| - 1].Repeat? && tokens[|tokens| - 1].zero == zero
  }

  lemma {:induction false} PreviousOverRun(tokens: seq<Token>, k: nat)
    requires k <= |tokens| && forall j | k <= j < |tokens| :: tokens[j].Repeat?
    ensures PreviousLength(tokens) == PreviousLength(tokens[..k])
  {
    if k < |tokens| {
      PreviousOverRun(tokens[..|tokens| - 1], k);
      assert tokens[..|tokens| - 1][..k] == tokens[..k];
    } else {
      assert tokens[..k] == tokens;
    }
  }

  lemma ExpandSingle(tokens: seq<Token>, len: nat)
    ensures Expand(tokens + [Single(len)]) == Expand(tokens) + [len] && Pending(tokens + [Single(len)]) == 0
    ensures PreviousLength(tokens + [Single(len)]) == if len != 0 then len else PreviousLength(tokens)
  {
    assert (tokens + [Single(len)])[..|tokens|] == tokens;
  }

  /** The incremental reading of section 3.5: a repeat adds what it lengthens the run by, at least 3. */
  lemma RunStartNext(tokens: seq<Token>, t: Token)
    requires t.Repeat?
    ensures RunStart(tokens + [t]) == if Extends(tokens, t.zero) then RunStart(tokens) else |tokens|
  {
    assert (tokens + [t])[..|tokens|] == tokens;
  }

  lemma ExpandRun(tokens: seq<Token>)
    requires tokens != [] && tokens[|tokens| - 1].Repeat?
    ensures var k := RunStart(tokens);
            Expand(tokens) == Expand(tokens[..k])
              + Copies(Pending(tokens), if tokens[|tokens| - 1].zero then 0 else PreviousLength(tokens[..k]))
  {
  }

  lemma ExpandRepeat(tokens: seq<Token>, zero: bool, extra: nat)
    ensures var all := tokens + [Repeat(zero, extra)];
            var before := if Extends(tokens, zero) then Pending(tokens) else 0;
            && Pending(all) == (if before == 0 then 0 else (if zero then 8 else 4) * (before - 2)) + 3 + extra
            && Pending(all) >= before + 3
            && PreviousLength(all) == PreviousLength(tokens)
            && Expand(all) == Expand(tokens) + Copies(Pending(all) - before, if zero then 0 else PreviousLength(tokens))
  {
    hide Expand, RunStart, RunTotal, PreviousLength, Copies;
    var t := Repeat(zero, extra);
    var all, n, k := tokens + [t], |tokens|, RunStart(tokens);
    var len := if zero then 0 else PreviousLength(tokens);
    assert all[..n] == tokens;
    RunStartNext(tokens, t);
    PreviousOverRun(all, n);
    ExpandRun(all);
    if Extends(tokens, zero) {
      assert all[k..] == tokens[k..] + [t] && all[..k] == tokens[..k];
      RunTotalOn(tokens[k..], t);
      PreviousOverRun(tokens, k);
      ExpandRun(tokens);
      var before := Pending(tokens);
      assert Copies(Pending(all), len) == Copies(before, len) + Copies(Pending(all) - before, len);
    } else {
      assert all[n..] == [] + [t];
      RunTotalOn([], t);
      NoRun();
    }
  }

  /** With no length before it, a repeat stands for eights. */
  lemma FirstRepeat(extra: nat)
    ensures Expand([Repeat(false, extra)]) == Copies(3 + extra, 8)
  {
    hide Expand, Copies;
    ExpandRepeat([], false, extra);
    assert [] + [Repeat(false, extra)] == [Repeat(false, extra)];
    NoTokens();
    assert [] + Copies(3 + extra, 8) == Copies(3 + extra, 8);
  }

  lemma NoTokens()
    ensures Expand([]) == [] && PreviousLength([]) == 8
  {
  }

  lemma NoRun()
    ensures RunTotal([]) == 0
  {
  }

  // ---------- Symbol chains ----------

  /** The symbols of a length, in increasing order. */
  function SymbolsOf(lens: seq<nat>, len: nat): (s: seq<nat>)
    ensures forall k | 0 <= k < |s| :: s[k] < |lens| && lens[s[k]] == len
    ensures forall j, k | 0 <= j < k < |s| :: s[j] < s[k]
    ensures |s| <= |lens|
  {
    if lens == [] then []
    else
      var n := |lens| - 1;
      SymbolsOf(lens[..n], len) + if lens[n] == len then [n] else []
  }

  /** Every symbol of the length is listed. */
  lemma {:induction false} SymbolsOfComplete(lens: seq<nat>, len: nat, x: nat)
    requires x < |lens| && lens[x] == len
    ensures x in SymbolsOf(lens, len)
  {
    var n := |lens| - 1;
    if x < n {
      SymbolsOfComplete(lens[..n], len, x);
    }
  }

  /** Follows n links of the chain that starts at a slot. */
  function Chain(lists: seq<int>, slot: int, n: nat): seq<int>
    decreases n
  {
    if n == 0 || slot < 0 || slot >= |lists| then []
    else [lists[slot]] + Chain(lists, SLOTS + lists[slot], n - 1)
  }

  /** The slot that names element k of a chain: the head for the first, else the slot of the one before. */
  function Slot(s: seq<nat>, len: nat, k: nat): nat
    requires k <= |s|
  {
    if k == 0 then len else SLOTS + s[k - 1]
  }

  /** The chain of a length holds its symbols, and next points at the tail. */
  ghost predicate Linked(lists: seq<int>, count: int, next: int, s: seq<nat>, len: nat) {
    && count == |s| && next == Slot(s, len, |s|) - SLOTS
    && forall k | 0 <= k < |s| :: Slot(s, len, k) < |lists| && lists[Slot(s, len, k)] == s[k]
  }

  /** Walking the array gives back exactly the symbols of the length. */
  lemma ChainListsSymbols(lists: seq<int>, count: int, next: int, lens: seq<nat>, len: nat)
    requires Linked(lists, count, next, SymbolsOf(lens, len), len)
    ensures Chain(lists, len, count) == SymbolsOf(lens, len)
  {
    var s := SymbolsOf(lens, len);
    WalkFrom(lists, count, next, s, len, 0);
    assert s[0..] == s;
  }

  lemma {:induction false} WalkFrom(lists: seq<int>, count: int, next: int, s: seq<nat>, len: nat, k: nat)
    requires Linked(lists, count, next, s, len) && k <= |s|
    ensures Chain(lists, Slot(s, len, k), |s| - k) == s[k..]
    decreases |s| - k
  {
    hide Chain, Slot, Linked;
    WalkEnd(lists, Slot(s, len, k));
    if k < |s| {
      WalkFrom(lists, count, next, s, len, k + 1);
      WalkStep(lists, count, next, s, len, k);
      assert s[k..] == [s[k]] + s[k + 1..];
    }
  }

  lemma WalkEnd(lists: seq<int>, slot: int)
    ensures Chain(lists, slot, 0) == []
  {
  }

  lemma WalkStep(lists: seq<int>, count: int, next: int, s: seq<nat>, len: nat, k: nat)
    requires Linked(lists, count, next, s, len) && k < |s|
    ensures Chain(lists, Slot(s, len, k), |s| - k) == [s[k]] + Chain(lists, Slot(s, len, k + 1), |s| - k - 1)
  {
  }

  /** All chains at once. */
  ghost predicate AllLinked(lists: seq<int>, histo: seq<int>, next: seq<int>, lens: seq<nat>) {
    && |lists| == SLOTS + MAX_SYMBOLS && |histo| == SLOTS && |next| >= SLOTS && |lens| <= MAX_SYMBOLS
    && forall len | 1 <= len <= MAX_LENGTH :: Linked(lists, histo[len], next[len], SymbolsOf(lens, len), len)
  }

  lemma SymbolsOfNext(lens: seq<nat>, len: nat, l: nat)
    ensures SymbolsOf(lens + [len], l) == SymbolsOf(lens, l) + if l == len then [|lens|] else []
  {
    assert (lens + [len])[..|lens|] == lens;
  }

  lemma SlotInRange(lens: seq<nat>, len: nat)
    requires |lens| <= MAX_SYMBOLS && len <= MAX_LENGTH
    ensures Slot(SymbolsOf(lens, len), len, |SymbolsOf(lens, len)|) < SLOTS + MAX_SYMBOLS
  {
  }

  /** Symbol |lens| gets length len: one slot, one tail and one count change, and no other chain notices. */
  lemma LinkNext(lists: seq<int>, histo: seq<int>, next: seq<int>, lens: seq<nat>, len: nat)
    requires AllLinked(lists, histo, next, lens) && 1 <= len <= MAX_LENGTH && |lens| < MAX_SYMBOLS
    ensures 0 <= SLOTS + next[len] < |lists|
    ensures AllLinked(lists[SLOTS + next[len] := |lens|], histo[len := histo[len] + 1], next[len := |lens|],
                      lens + [len])
  {
    hide SymbolsOf, Linked, Slot;
    var n, lens' := |lens|, lens + [len];
    SlotInRange(lens, len);
    assert SLOTS + next[len] == Slot(SymbolsOf(lens, len), len, |SymbolsOf(lens, len)|) by {
      TailSlot(lists, histo[len], next[len], SymbolsOf(lens, len), len);
    }
    var lists', histo', next' :=
      lists[SLOTS + next[len] := n], histo[len := histo[len] + 1], next[len := n];
    forall l | 1 <= l <= MAX_LENGTH
      ensures Linked(lists', histo'[l], next'[l], SymbolsOf(lens', l), l)
    {
      var s, t := SymbolsOf(lens, l), SymbolsOf(lens, len);
      SymbolsOfNext(lens, len, l);
      if l == len {
        ExtendChain(lists, histo[l], next[l], s, l, n);
      } else {
        OtherChain(lists, histo[l], next[l], s, l, t, len, n);
        assert s + [] == s;
      }
    }
  }

  lemma TailSlot(lists: seq<int>, count: int, next: int, s: seq<nat>, len: nat)
    requires Linked(lists, count, next, s, len)
    ensures SLOTS + next == Slot(s, len, |s|)
  {
  }

  lemma ExtendChain(lists: seq<int>, count: int, next: int, s: seq<nat>, l: nat, n: nat)
    requires Linked(lists, count, next, s, l) && l < SLOTS && forall j, k | 0 <= j < k < |s| :: s[j] < s[k]
    requires Slot(s, l, |s|) < |lists|
    ensures Linked(lists[Slot(s, l, |s|) := n], count + 1, n, s + [n], l)
  {
    hide Slot;
    forall k | 0 <= k < |s|
      ensures Slot(s + [n], l, k) == Slot(s, l, k) != Slot(s, l, |s|)
    {
      SlotsDiffer(s, l, k);
      SlotKept(s, n, l, k);
    }
    SlotKept(s, n, l, |s|);
  }

  lemma SlotsDiffer(s: seq<nat>, l: nat, k: nat)
    requires l < SLOTS && k < |s| && forall i, j | 0 <= i < j < |s| :: s[i] < s[j]
    ensures Slot(s, l, k) != Slot(s, l, |s|)
  {
  }

  lemma SlotKept(s: seq<nat>, n: nat, l: nat, k: nat)
    requires k <= |s|
    ensures Slot(s + [n], l, k) == Slot(s, l, k) && Slot(s + [n], l, |s| + 1) == SLOTS + n
  {
  }

  lemma OtherChain(lists: seq<int>, count: int, next: int, s: seq<nat>, l: nat, t: seq<nat>, len: nat, n: nat)
    requires Linked(lists, count, next, s, l) && l != len && l < SLOTS && len < SLOTS
    requires Slot(t, len, |t|) < |lists| && forall j, k | 0 <= j < |s| && 0 <= k < |t| :: s[j] != t[k]
    ensures Linked(lists[Slot(t, len, |t|) := n], count, next, s, l)
  {
    forall k | 0 <= k < |s|
      ensures Slot(s, l, k) != Slot(t, len, |t|)
    {
    }
  }

  /** A symbol of length 0 is not chained. */
  lemma LinkNone(lists: seq<int>, histo: seq<int>, next: seq<int>, lens: seq<nat>)
    requires AllLinked(lists, histo, next, lens) && |lens| < MAX_SYMBOLS
    ensures AllLinked(lists, histo, next, lens + [0])
  {
    assert (lens + [0])[..|lens|] == lens;
  }

  lemma {:induction false} LinkNones(lists: seq<int>, histo: seq<int>, next: seq<int>, lens: seq<nat>, n: nat)
    requires AllLinked(lists, histo, next, lens) && |lens| + n <= MAX_SYMBOLS
    ensures AllLinked(lists, histo, next, lens + Copies(n, 0))
  {
    if n > 0 {
      LinkNones(lists, histo, next, lens, n - 1);
      LinkNone(lists, histo, next, lens + Copies(n - 1, 0));
      assert lens + Copies(n, 0) == lens + Copies(n - 1, 0) + [0];
    } else {
      assert lens + Copies(0, 0) == lens;
    }
  }

  // ---------- Kraft accounting ----------

  predicate Lengths(lens: seq<nat>) {
    |lens| <= MAX_SYMBOLS && forall k | 0 <= k < |lens| :: lens[k] <= MAX_LENGTH
  }

  function Weight(len: nat): nat
    requires len <= MAX_LENGTH
  {
    if len == 0 then 0 else Pow2(MAX_LENGTH - len)
  }

  /** The sum of 2^(15 - length) over all symbols that have a code. */
  function Kraft(lens: seq<nat>): nat
    requires forall k | 0 <= k < |lens| :: lens[k] <= MAX_LENGTH
  {
    if lens == [] then 0 else Kraft(lens[..|lens| - 1]) + Weight(lens[|lens| - 1])
  }

  /** What is left of the code space, as the decoder sees it: modulo 2^32. */
  ghost function Space(lens: seq<nat>): (r: nat)
    requires Lengths(lens)
    ensures r < WORD
  {
    (32768 - Kraft(lens)) % WORD
  }

  lemma WeightBound(len: nat)
    requires len <= MAX_LENGTH
    ensures Weight(len) <= 16384
  {
    assert Pow2(14) == 16384;
    if 1 <= len {
      Monotone(MAX_LENGTH - len, 14);
    }
  }

  lemma Monotone(m: nat, n: nat)
    requires m <= n
    ensures Pow2(m) <= Pow2(n)
  {
    if m < n {
      Monotone(m, n - 1);
    }
  }

  lemma {:induction false} KraftBound(lens: seq<nat>)
    requires forall k | 0 <= k < |lens| :: lens[k] <= MAX_LENGTH
    ensures Kraft(lens) <= |lens| * 16384
  {
    if lens != [] {
      KraftBound(lens[..|lens| - 1]);
      WeightBound(lens[|lens| - 1]);
    }
  }

  /** The wrapped counter is 0 exactly when the code is complete: it cannot come round again. */
  lemma SpaceIsExact(lens: seq<nat>)
    requires Lengths(lens)
    ensures Space(lens) == 0 <==> Kraft(lens) == 32768
  {
    KraftBound(lens);
  }

  lemma SpaceNext(lens: seq<nat>, len: nat)
    requires Lengths(lens) && |lens| < MAX_SYMBOLS && len <= MAX_LENGTH
    ensures Lengths(lens + [len]) && Space(lens + [len]) == (Space(lens) - Weight(len)) % WORD
    ensures Kraft(lens) <= Kraft(lens + [len])
  {
    hide Weight;
    assert (lens + [len])[..|lens|] == lens;
    ModShift(32768 - Kraft(lens), Weight(len));
  }

  lemma ModShift(a: int, w: int)
    ensures (a - w) % WORD == (a % WORD - w) % WORD
  {
    var k := a / WORD;
    assert a == k * WORD + a % WORD;
  }

  lemma {:induction false} KraftCopies(lens: seq<nat>, n: nat, len: nat)
    requires Lengths(lens) && |lens| + n <= MAX_SYMBOLS && len <= MAX_LENGTH
    ensures Lengths(lens + Copies(n, len)) && Kraft(lens + Copies(n, len)) == Kraft(lens) + Mul(n, Weight(len))
  {
    hide Weight;
    if n > 0 {
      KraftCopies(lens, n - 1, len);
      var front := lens + Copies(n - 1, len);
      assert lens + Copies(n, len) == front + [len];
      assert (front + [len])[..|front|] == front;
      MulNext(n - 1, Weight(len));
    } else {
      assert lens + Copies(0, len) == lens;
    }
  }

  lemma MulNext(n: nat, w: nat)
    ensures Mul(n + 1, w) == Mul(n, w) + w
  {
  }

  lemma SpaceCopies(lens: seq<nat>, n: nat, len: nat)
    requires Lengths(lens) && |lens| + n <= MAX_SYMBOLS && len <= MAX_LENGTH
    ensures Lengths(lens + Copies(n, len))
    ensures Space(lens + Copies(n, len)) == (Space(lens) - Mul(n, Weight(len))) % WORD
  {
    hide Mul, Weight, Kraft;
    KraftCopies(lens, n, len);
    ModShift(32768 - Kraft(lens), Mul(n, Weight(len)));
  }

  // ---------- The reader ----------

  class CodeLengthReader {
    const alphabet: nat
    const lists: array<int>    // symbols_lists_array
    const histo: array<int>    // code_length_histo
    const next: array<int>     // next_symbol
    var symbol: nat
    var repeat: nat
    var space: nat
    var prevLen: nat
    var repeatLen: nat

    ghost var lens: seq<nat>
    ghost var tokens: seq<Token>
    ghost var overlong: bool

    ghost predicate Valid()
      reads this, lists, histo, next
    {
      && symbol <= alphabet <= MAX_SYMBOLS && Lengths(lens) && Chained(lens)
      && if overlong then symbol == alphabet && space == NO_SPACE && |Expand(tokens)| > alphabet
         else Tracks()
    }

    ghost predicate Chained(lens: seq<nat>)
      reads lists, histo, next
    {
      && lists != histo && lists != next && histo != next
      && lists.Length == SLOTS + MAX_SYMBOLS && histo.Length == SLOTS && next.Length == 32
      && AllLinked(lists[..], histo[..], next[..], lens)
    }

    /** The fields are those of the tokens read so far. */
    ghost predicate Tracks()
      reads this
    {
      && symbol == |lens| && lens == Expand(tokens) && Lengths(lens) && space == Space(lens)
      && repeat == Pending(tokens) && prevLen == PreviousLength(tokens) && prevLen <= MAX_LENGTH
      && (repeat > 0 ==> tokens != [] && tokens[|tokens| - 1].Repeat? &&
                         repeatLen == if tokens[|tokens| - 1].zero then 0 else prevLen)
    }

    /** What HUFFMAN_COMPLEX sets up before the first symbol. */
    constructor (alphabet: nat)
      requires alphabet <= MAX_SYMBOLS
      ensures Valid() && fresh(lists) && fresh(histo) && fresh(next)
      ensures this.alphabet == alphabet && tokens == [] && !overlong
    {
      this.alphabet := alphabet;
      lists := new int[SLOTS + MAX_SYMBOLS](_ => 0xFFFF);
      histo := new int[SLOTS](_ => 0);
      next := new int[32](i => i - SLOTS);
      symbol, repeat, repeatLen, prevLen, space := 0, 0, 0, DEFAULT_LENGTH, 32768;
      lens, tokens, overlong := [], [], false;
    }

    /** One code length, chained, counted and taken off the space. */
    method ProcessSingleCodeLength(len: nat)
      requires Valid() && !overlong && symbol < alphabet && len <= MAX_LENGTH
      modifies this`symbol, this`repeat, this`prevLen, this`space, this`lens, this`tokens, lists, histo, next
      ensures Valid() && tokens == old(tokens) + [Single(len)] && lens == old(lens) + [len]
      ensures symbol > old(symbol)
    {
      hide Expand, Pending, PreviousLength, AllLinked, Space;
      ExpandSingle(tokens, len);
      SpaceNext(lens, len);
      repeat := 0;
      if len != 0 {
        LinkSymbol(len);
        prevLen := len;
        space := (space - Pow2(MAX_LENGTH - len)) % WORD;
      } else {
        LinkNone(lists[..], histo[..], next[..], lens);
      }
      symbol := symbol + 1;
      lens, tokens := lens + [len], tokens + [Single(len)];
    }

    /** Appends the next symbol to the chain of a length. */
    method LinkSymbol(len: nat)
      requires Chained(lens) && 1 <= len <= MAX_LENGTH && |lens| < MAX_SYMBOLS && symbol == |lens|
      modifies lists, histo, next
      ensures Chained(lens + [len])
    {
      hide AllLinked;
      ghost var l, h, n := lists[..], histo[..], next[..];
      LinkNext(l, h, n, lens, len);
      lists[SLOTS + next[len]] := symbol;
      next[len] := symbol;
      histo[len] := histo[len] + 1;
      assert lists[..] == l[SLOTS + n[len] := |lens|] && next[..] == n[len := |lens|];
      assert histo[..] == h[len := h[len] + 1];
    }

    /**
     * A repeat: lengthens the run that is already there, or starts one. A run that does not fit leaves a
     * space that no code can have.
     */
    method ProcessRepeatedCodeLength(zero: bool, extra: nat)
      requires Valid() && !overlong && symbol < alphabet
      modifies this`symbol, this`repeat, this`repeatLen, this`space, this`lens, this`tokens, this`overlong
      modifies lists, histo, next
      ensures Valid() && tokens == old(tokens) + [Repeat(zero, extra)] && old(lens) <= lens
      ensures overlong <==> |Expand(tokens)| > alphabet
      ensures symbol > old(symbol)
    {
      hide Expand, Pending, PreviousLength, Chained, Space, Copies;
      ExpandRepeat(tokens, zero, extra);
      var newLen := if zero then 0 else prevLen;
      if repeatLen != newLen {
        repeat := 0;
        repeatLen := newLen;
      }
      var oldRepeat := repeat;
      assert oldRepeat == if Extends(tokens, zero) then Pending(tokens) else 0;
      if repeat > 0 {
        repeat := (repeat - 2) * (if zero then 8 else 4);
      }
      repeat := repeat + extra + 3;
      var delta := repeat - oldRepeat;
      tokens := tokens + [Repeat(zero, extra)];
      if symbol + delta > alphabet {
        symbol, space, overlong := alphabet, NO_SPACE, true;
        return;
      }
      AppendRun(delta, newLen);
    }

    /** A run of symbols of one length, chained, counted and taken off the space. */
    method AppendRun(n: nat, len: nat)
      requires Chained(lens) && Lengths(lens) && space == Space(lens) && symbol == |lens|
      requires n > 0 && |lens| + n <= MAX_SYMBOLS && len <= MAX_LENGTH
      modifies this`symbol, this`space, this`lens, lists, histo, next
      ensures lens == old(lens) + Copies(n, len) && Chained(lens) && Lengths(lens)
      ensures space == Space(lens) && symbol == |lens| == old(symbol) + n
    {
      hide Chained, Space, Copies, AllLinked;
      SpaceCopies(lens, n, len);
      if len != 0 {
        LinkRun(len, n);
        space := (space - Mul(n, Pow2(MAX_LENGTH - len))) % WORD;
      } else {
        ChainNones(n);
        symbol := symbol + n;
      }
      lens := lens + Copies(n, len);
    }

    lemma ChainNones(n: nat)
      requires Chained(lens) && |lens| + n <= MAX_SYMBOLS
      ensures Chained(lens + Copies(n, 0))
    {
      LinkNones(lists[..], histo[..], next[..], lens, n);
    }

    /** Appends n symbols to one chain; tail and count are written back once, at the end. */
    method LinkRun(len: nat, n: nat)
      requires Chained(lens) && 1 <= len <= MAX_LENGTH && n > 0 && |lens| + n <= MAX_SYMBOLS && symbol == |lens|
      modifies this`symbol, lists, histo, next
      ensures Chained(lens + Copies(n, len)) && symbol == old(symbol) + n
    {
      hide AllLinked, Copies;
      ghost var h, x := histo[..], next[..];
      var last := symbol + n;
      var tail := next[len];
      StartRun(len, h, x);
      while symbol != last
        invariant |lens| <= symbol <= last && histo[..] == h && next[..] == x
        invariant InRun(len, symbol - |lens|, tail, h, x)
        decreases last - symbol
      {
        tail := LinkOne(len, tail, symbol - |lens|, h, x);
        symbol := symbol + 1;
      }
      next[len] := tail;
      histo[len] := histo[len] + n;
      assert histo[..] == h[len := h[len] + n] && next[..] == x[len := tail];
    }

    /** k symbols of a run are linked; h and x are still the counts and tails from before it. */
    ghost predicate InRun(len: nat, k: nat, tail: int, h: seq<int>, x: seq<int>)
      reads this`lens, lists
    {
      len < |h| && len < |x| && AllLinked(lists[..], h[len := h[len] + k], x[len := tail], lens + Copies(k, len))
    }

    lemma StartRun(len: nat, h: seq<int>, x: seq<int>)
      requires len < |h| && len < |x| && AllLinked(lists[..], h, x, lens)
      ensures InRun(len, 0, x[len], h, x)
    {
      assert h[len := h[len] + 0] == h && x[len := x[len]] == x && lens + Copies(0, len) == lens;
    }

    method LinkOne(len: nat, tail: int, ghost k: nat, ghost h: seq<int>, ghost x: seq<int>) returns (tail': int)
      requires 1 <= len <= MAX_LENGTH && InRun(len, k, tail, h, x)
      requires lists.Length == SLOTS + MAX_SYMBOLS && |lens| + k < MAX_SYMBOLS && symbol == |lens| + k
      modifies lists
      ensures tail' == symbol && InRun(len, k + 1, tail', h, x)
    {
      hide AllLinked;
      ghost var before, h', x', l' := lists[..], h[len := h[len] + k], x[len := tail], lens + Copies(k, len);
      LinkNext(before, h', x', l', len);
      lists[SLOTS + tail] := symbol;
      tail' := symbol;
      assert lists[..] == before[SLOTS + tail := symbol];
      assert h'[len := h'[len] + 1] == h[len := h[len] + k + 1] && x'[len := tail'] == x[len := tail'];
      assert l' + [len] == lens + Copies(k + 1, len);
    }
  }
}
