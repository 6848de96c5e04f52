/**
 * The two loops that read code lengths (src/decode.rs:661-797): a fast one that needs input to spare, and a safe
 * one that resumes wherever the other, or an earlier chunk, left off.
 */
module CodeLengthLoops {
  import opened Bytes
  import opened Results
  import opened BitReader
  import opened SymbolDecoding
  import opened CodeLengths

  const ROOT_CL := 5

  /** The 32-entry table of the code length alphabet represents a prefix code. */
  ghost predicate RepresentsLengths(table: seq<HuffmanCode>) {
    && |table| == 32 && (forall i | 0 <= i < 32 :: table[i].bits <= ROOT_CL && table[i].value <= 17)
    && forall w: Bits, w': Bits | |w| == |w'| == ROOT_CL && w[..Entry(table, w).bits] == w'[..Entry(table, w).bits] ::
         Entry(table, w') == Entry(table, w)
  }

  function Entry(table: seq<HuffmanCode>, w: Bits): HuffmanCode
    requires |table| == 32 && |w| == ROOT_CL
    requires forall i | 0 <= i < 32 :: table[i].bits <= ROOT_CL && table[i].value <= 17
    ensures Entry(table, w).bits <= ROOT_CL && Entry(table, w).value <= 17
  {
    ValueBound(w);
    assert Pow2(5) == 32;
    table[Value(w)]
  }

  function PadLength(s: Bits): (w: Bits)
    ensures |w| == ROOT_CL
  {
    if |s| >= ROOT_CL then s[..ROOT_CL] else s + Zeros(ROOT_CL - |s|)
  }

  function ExtraOf(value: nat): nat {
    if value < 16 then 0 else value - 14
  }

  /** The next symbol with its extra bits, if all of it has arrived. */
  function NextToken(table: seq<HuffmanCode>, s: Bits): (r: Option<(nat, Token)>)
    requires RepresentsLengths(table)
    ensures r.Some? ==> r.value.0 <= |s| && r.value.1.Valid()
  {
    var e := Entry(table, PadLength(s));
    var n := e.bits + ExtraOf(e.value);
    if n > |s| then None
    else if e.value < 16 then Some((n, Single(e.value)))
    else
      ValueBound(s[e.bits..n]);
      assert Pow2(2) == 4 && Pow2(3) == 8;
      Some((n, Repeat(e.value == 17, Value(s[e.bits..n]))))
  }

  lemma NextTokenIsStable(table: seq<HuffmanCode>, s: Bits, more: Bits)
    requires RepresentsLengths(table) && NextToken(table, s).Some?
    ensures NextToken(table, s + more) == NextToken(table, s)
  {
    hide Value, Pow2, ExtraOf;
    var e := Entry(table, PadLength(s));
    assert PadLength(s)[..e.bits] == PadLength(s + more)[..e.bits];
    var n := e.bits + ExtraOf(e.value);
    assert (s + more)[e.bits..n] == s[e.bits..n];
  }

  /** Section 3.2: the lengths use up the code space. */
  predicate Complete(lens: seq<nat>) {
    Lengths(lens) && Kraft(lens) == 32768
  }

  datatype Outcome = Incomplete | Invalid | Done(tokens: seq<Token>, rest: Bits)

  lemma Grows(tokens: seq<Token>, t: Token)
    ensures |Expand(tokens + [t])| > |Expand(tokens)|
  {
    hide Expand, Pending, PreviousLength;
    if t.Single? {
      ExpandSingle(tokens, t.len);
    } else {
      ExpandRepeat(tokens, t.zero, t.extra);
    }
  }

  /**
   * Section 3.5 in one piece, from the tokens read so far: the reading ends at the first token that completes the
   * code, and is invalid if the alphabet is exhausted or overrun before that.
   */
  function ReadLengths(table: seq<HuffmanCode>, alphabet: nat, tokens: seq<Token>, b: Bits): (r: Outcome)
    requires RepresentsLengths(table)
    decreases alphabet - |Expand(tokens)|
  {
    if |Expand(tokens)| > alphabet then Invalid
    else if Complete(Expand(tokens)) then Done(tokens, b)
    else if |Expand(tokens)| == alphabet then Invalid
    else
      match NextToken(table, b)
      case None => Incomplete
      case Some((n, t)) =>
        Grows(tokens, t);
        ReadLengths(table, alphabet, tokens + [t], b[n..])
  }

  /** No further symbol is read after these tokens. */
  ghost predicate Over(tokens: seq<Token>, alphabet: nat) {
    |Expand(tokens)| >= alphabet || Complete(Expand(tokens))
  }

  lemma ReadStep(table: seq<HuffmanCode>, alphabet: nat, tokens: seq<Token>, b: Bits, more: Bits)
    requires RepresentsLengths(table) && !Over(tokens, alphabet) && NextToken(table, b).Some?
    ensures var (n, t) := NextToken(table, b).value;
            ReadLengths(table, alphabet, tokens, b + more) == ReadLengths(table, alphabet, tokens + [t], b[n..] + more)
  {
    hide NextToken, RepresentsLengths, Expand, Complete;
    NextTokenIsStable(table, b, more);
    var n := NextToken(table, b).value.0;
    assert (b + more)[n..] == b[n..] + more;
  }

  lemma ReadEnd(table: seq<HuffmanCode>, alphabet: nat, tokens: seq<Token>, b: Bits)
    requires RepresentsLengths(table)
    ensures Over(tokens, alphabet) ==>
              ReadLengths(table, alphabet, tokens, b)
              == if |Expand(tokens)| <= alphabet && Complete(Expand(tokens)) then Done(tokens, b) else Invalid
    ensures !Over(tokens, alphabet) && NextToken(table, b).None? ==>
              ReadLengths(table, alphabet, tokens, b) == Incomplete
  {
    hide NextToken, RepresentsLengths, Expand, Complete;
  }

  /** Whoever reads the same bits, and then more, reads the same lengths. */
  lemma {:induction false} ReadingIsStable(table: seq<HuffmanCode>, alphabet: nat, tokens: seq<Token>, b: Bits,
                                           more: Bits)
    requires RepresentsLengths(table)
    ensures match ReadLengths(table, alphabet, tokens, b)
            case Incomplete => true
            case Invalid => ReadLengths(table, alphabet, tokens, b + more) == Invalid
            case Done(all, rest) => ReadLengths(table, alphabet, tokens, b + more) == Done(all, rest + more)
    decreases alphabet - |Expand(tokens)|
  {
    hide NextToken, RepresentsLengths, Expand, Complete;
    if Over(tokens, alphabet) || NextToken(table, b).None? {
      ReadEnd(table, alphabet, tokens, b);
      ReadEnd(table, alphabet, tokens, b + more);
    } else {
      var (n, t) := NextToken(table, b).value;
      ReadStep(table, alphabet, tokens, b, []);
      ReadStep(table, alphabet, tokens, b, more);
      assert b + [] == b && b[n..] + [] == b[n..];
      Grows(tokens, t);
      ReadingIsStable(table, alphabet, tokens + [t], b[n..], more);
    }
  }

  lemma NextTokenAgrees(table: seq<HuffmanCode>, b: Bits, c: Bits)
    requires RepresentsLengths(table) && NextToken(table, b).Some? && b[..NextToken(table, b).value.0] <= c
    ensures NextToken(table, c) == NextToken(table, b)
  {
    hide Value, Pow2, ExtraOf;
    EntryAgrees(table, b, c);
    var n := NextToken(table, b).value.0;
    var e := Entry(table, PadLength(b));
    assert c[e.bits..n] == c[..n][e.bits..] == b[..n][e.bits..] == b[e.bits..n];
  }

  lemma EntryAgrees(table: seq<HuffmanCode>, b: Bits, c: Bits)
    requires RepresentsLengths(table) && Entry(table, PadLength(b)).bits <= |b|
    requires b[..Entry(table, PadLength(b)).bits] <= c
    ensures Entry(table, PadLength(c)) == Entry(table, PadLength(b))
  {
    hide Entry;
    var n := Entry(table, PadLength(b)).bits;
    assert c[..n] == b[..n];
    assert PadLength(c)[..n] == PadLength(b)[..n];
  }

  /** Whatever starts with the bits of the code lengths reads as the same. */
  lemma {:induction false} ReadingAgrees(table: seq<HuffmanCode>, alphabet: nat, tokens: seq<Token>, b: Bits, c: Bits)
    requires RepresentsLengths(table) && ReadLengths(table, alphabet, tokens, b).Done?
    ensures var r := ReadLengths(table, alphabet, tokens, b);
            var n := |b| - |r.rest|;
            && 0 <= n && r.rest == b[n..] && |Expand(r.tokens)| <= alphabet && Complete(Expand(r.tokens))
            && (b[..n] <= c ==> ReadLengths(table, alphabet, tokens, c) == Done(r.tokens, c[n..]))
    decreases alphabet - |Expand(tokens)|
  {
    hide NextToken, RepresentsLengths, Expand, Complete;
    if !Over(tokens, alphabet) {
      var (k, t) := NextToken(table, b).value;
      Grows(tokens, t);
      var r := ReadLengths(table, alphabet, tokens, b);
      var n := |b| - |r.rest|;
      ReadingAgrees(table, alphabet, tokens + [t], b[k..], if k <= |c| then c[k..] else []);
      if b[..n] <= c {
        SplitPrefix(b, c, k, n);
        NextTokenAgrees(table, b, c);
      }
    }
  }

  /** Both loops go on while this holds. */
  predicate Unfinished(c: CodeLengthReader)
    reads c
  {
    c.symbol < c.alphabet && c.space > 0
  }

  /** The counters know exactly when the reading is over. */
  lemma CountersKnow(c: CodeLengthReader)
    requires c.Valid()
    ensures Unfinished(c) == !Over(c.tokens, c.alphabet)
    ensures !Unfinished(c) ==> (c.space == 0 <==> |Expand(c.tokens)| <= c.alphabet && Complete(Expand(c.tokens)))
    ensures c.space == 0 ==> c.lens == Expand(c.tokens)
    ensures c.histo.Length == SLOTS
  {
    hide Expand, AllLinked, Kraft;
    if !c.overlong {
      SpaceIsExact(c.lens);
    }
  }

  /** One symbol that is known to have arrived. */
  method Process(c: CodeLengthReader, value: nat, extra: nat, ghost t: Token)
    requires c.Valid() && Unfinished(c) && t.Valid()
    requires t == if value < 16 then Single(value) else Repeat(value == 17, extra)
    modifies c, c.lists, c.histo, c.next
    ensures c.Valid() && c.tokens == old(c.tokens) + [t] && c.symbol > old(c.symbol)
  {
    if value < 16 {
      c.ProcessSingleCodeLength(value);
    } else {
      c.ProcessRepeatedCodeLength(value == 17, extra);
    }
  }

  /** One turn of either loop: drops a symbol that is known to be in the accumulator, and nothing is lost. */
  method TakeToken(c: CodeLengthReader, table: seq<HuffmanCode>, br: Reader, ghost input: seq<Byte>,
                   ghost future: Bits)
    requires RepresentsLengths(table) && br.Valid(input) && c.Valid() && Unfinished(c)
    requires NextToken(table, br.acc).Some?
    modifies c, c.lists, c.histo, c.next, br
    ensures c.Valid() && br.Valid(input) && NextToken(table, old(br.Stream(input))).Some?
    ensures var (n, t) := NextToken(table, old(br.Stream(input))).value;
            c.tokens == old(c.tokens) + [t] && br.Stream(input) == old(br.Stream(input))[n..]
    ensures Future(c, table, br.Stream(input) + future) == old(Future(c, table, br.Stream(input) + future))
    ensures br.availIn == old(br.availIn) && c.symbol > old(c.symbol)
  {
    hide NextToken, ByteBits, RepresentsLengths, CodeLengthReader.Valid, Over, ReadLengths;
    NextTokenIsStable(table, br.acc, ByteBits(input[br.nextIn..br.nextIn + br.availIn]));
    CountersKnow(c);
    ReadStep(table, c.alphabet, c.tokens, br.Stream(input), future);
    ghost var (n, t) := NextToken(table, br.acc).value;
    var value, extra := DropToken(table, br, input);
    Process(c, value, extra, t);
  }

  /** The token read with masks and shifts. */
  lemma TokenParts(table: seq<HuffmanCode>, a: Bits)
    requires RepresentsLengths(table) && NextToken(table, a).Some?
    ensures |table| == 32 && table[Value(a) % 32].value <= 17
    ensures var e := table[Value(a) % 32];
            var x := ExtraOf(e.value);
            && e.bits + x <= |a|
            && NextToken(table, a).value
               == (e.bits + x,
                   if e.value < 16 then Single(e.value) else Repeat(e.value == 17, Value(a[e.bits..e.bits + x])))
  {
    hide Value, Zeros, Pow2, NextToken, RepresentsLengths, PadLength, Entry;
    LowBits(a, PadLength(a));
    EntryAt(table, PadLength(a));
    TokenOfEntry(table, a);
  }

  lemma TokenOfEntry(table: seq<HuffmanCode>, a: Bits)
    requires RepresentsLengths(table) && NextToken(table, a).Some?
    ensures |table| == 32 && forall i | 0 <= i < 32 :: table[i].bits <= ROOT_CL && table[i].value <= 17
    ensures var e := Entry(table, PadLength(a));
            var x := ExtraOf(e.value);
            && e.bits + x <= |a|
            && NextToken(table, a).value
               == (e.bits + x,
                   if e.value < 16 then Single(e.value) else Repeat(e.value == 17, Value(a[e.bits..e.bits + x])))
  {
    hide Value, Entry, PadLength;
  }

  lemma EntryAt(table: seq<HuffmanCode>, w: Bits)
    requires RepresentsLengths(table) && |w| == ROOT_CL
    ensures |table| == 32 && forall i | 0 <= i < 32 :: table[i].bits <= ROOT_CL && table[i].value <= 17
    ensures Value(w) < 32 && Entry(table, w) == table[Value(w)]
  {
    FiveBits(w);
  }

  method DropToken(table: seq<HuffmanCode>, br: Reader, ghost input: seq<Byte>) returns (value: nat, extra: nat)
    requires RepresentsLengths(table) && br.Valid(input) && NextToken(table, br.acc).Some?
    modifies br
    ensures br.Valid(input) && br.availIn == old(br.availIn)
    ensures var (n, t) := NextToken(table, old(br.acc)).value;
            && br.Stream(input) == old(br.Stream(input))[n..]
            && t == if value < 16 then Single(value) else Repeat(value == 17, extra)
  {
    hide Value, Zeros, ByteBits, Pow2, NextToken, RepresentsLengths;
    TokenParts(table, br.acc);
    var val := Value(br.acc);
    var e := table[val % 32];
    value, extra := e.value, 0;
    if e.value < 16 {
      br.DropBits(e.bits, input);
    } else {
      var extraBits := e.value - 14;
      MiddleBits(br.acc, e.bits, extraBits);
      extra := (val / Pow2(e.bits)) % Pow2(extraBits);
      br.DropBits(e.bits + extraBits, input);
    }
  }

  lemma LowBits(a: Bits, w: Bits)
    requires w == PadLength(a)
    ensures Value(a) % 32 == Value(w)
  {
    if |a| >= ROOT_CL {
      LowFive(a);
    } else {
      ShortValue(a);
    }
  }

  lemma LowFive(a: Bits)
    requires |a| >= ROOT_CL
    ensures Value(a) % 32 == Value(a[..ROOT_CL])
  {
    assert Pow2(5) == 32;
    ValueSplit(a, ROOT_CL);
  }

  lemma ShortValue(a: Bits)
    requires |a| < ROOT_CL
    ensures Value(a) % 32 == Value(a) == Value(PadLength(a))
  {
    hide Value, Zeros;
    ValueZeros(a, ROOT_CL - |a|);
    FiveBits(PadLength(a));
  }

  lemma FiveBits(w: Bits)
    requires |w| == ROOT_CL
    ensures Value(w) < 32 && Value(w) % 32 == Value(w)
  {
    hide Value;
    assert Pow2(5) == 32;
    ValueBound(w);
  }

  lemma MiddleBits(a: Bits, k: nat, n: nat)
    requires k + n <= |a|
    ensures (Value(a) / Pow2(k)) % Pow2(n) == Value(a[k..k + n])
  {
    hide Value, Pow2;
    ValueSplit(a, k);
    ValueSplit(a[k..], n);
    assert a[k..][..n] == a[k..k + n];
  }

  lemma NextTokenIsTotal(table: seq<HuffmanCode>, s: Bits)
    requires RepresentsLengths(table) && |s| >= 8
    ensures NextToken(table, s).Some?
  {
  }

  /** What will have come of the reading when the input goes on like this. */
  ghost function Future(c: CodeLengthReader, table: seq<HuffmanCode>, b: Bits): Outcome
    requires RepresentsLengths(table)
    reads c`tokens
  {
    ReadLengths(table, c.alphabet, c.tokens, b)
  }

  /** The fast loop: four bytes are enough for any symbol, and without them it stops where it is. */
  method ReadSymbolCodeLengths(c: CodeLengthReader, table: seq<HuffmanCode>, br: Reader, input: seq<Byte>,
                               ghost future: Bits) returns (code: Code)
    requires RepresentsLengths(table) && br.Valid(input) && c.Valid()
    modifies c, c.lists, c.histo, c.next, br
    ensures c.Valid() && br.Valid(input)
    ensures Future(c, table, br.Stream(input) + future) == old(Future(c, table, br.Stream(input) + future))
    ensures if code == Success then !Unfinished(c) else code == NeedsMoreInput && br.availIn < 4
  {
    hide NextToken, Value, ByteBits, RepresentsLengths, ReadLengths, CodeLengthReader.Valid, Over;
    if br.acc == [] {
      var ok := br.PullByte(input);
      if !ok {
        return NeedsMoreInput;
      }
    }
    while Unfinished(c)
      invariant c.Valid() && br.Valid(input)
      invariant Future(c, table, br.Stream(input) + future) == old(Future(c, table, br.Stream(input) + future))
      decreases br.availIn, c.alphabet - c.symbol
    {
      if br.availIn < 4 {
        return NeedsMoreInput;
      }
      br.FillBitWindow16(input);
      NextTokenIsTotal(table, br.acc);
      TakeToken(c, table, br, input, future);
    }
    return Success;
  }

  /** The safe loop: byte by byte, and a stop only when the next symbol has not arrived. */
  method SafeReadSymbolCodeLengths(c: CodeLengthReader, table: seq<HuffmanCode>, br: Reader, input: seq<Byte>,
                                   ghost future: Bits) returns (code: Code)
    requires RepresentsLengths(table) && br.Valid(input) && c.Valid()
    modifies c, c.lists, c.histo, c.next, br
    ensures c.Valid() && br.Valid(input)
    ensures Future(c, table, br.Stream(input) + future) == old(Future(c, table, br.Stream(input) + future))
    ensures if code == Success then !Unfinished(c)
            else code == NeedsMoreInput && Unfinished(c) && NextToken(table, br.Stream(input)).None? && br.availIn == 0
  {
    hide NextToken, Value, ByteBits, RepresentsLengths, ReadLengths, CodeLengthReader.Valid, Over;
    while Unfinished(c)
      invariant c.Valid() && br.Valid(input)
      invariant Future(c, table, br.Stream(input) + future) == old(Future(c, table, br.Stream(input) + future))
      decreases c.alphabet - c.symbol, br.availIn
    {
      var arrived := Arrived(table, br);
      if !arrived {
        var ok := br.PullByte(input);
        if !ok {
          NothingUnread(br, input);
          return NeedsMoreInput;
        }
      } else {
        TakeToken(c, table, br, input, future);
      }
    }
    return Success;
  }

  lemma NothingUnread(br: Reader, input: seq<Byte>)
    requires br.Valid(input) && br.availIn == 0
    ensures br.Stream(input) == br.acc
  {
  }

  /** Whether the bits in the accumulator are enough for the next symbol and its extra bits. */
  method Arrived(table: seq<HuffmanCode>, br: Reader) returns (yes: bool)
    requires RepresentsLengths(table)
    ensures yes == NextToken(table, br.acc).Some?
    ensures !yes ==> |br.acc| < 8
  {
    LowBits(br.acc, PadLength(br.acc));
    var e := table[Value(br.acc) % 32];
    if e.bits > |br.acc| {
      return false;
    }
    return e.value < 16 || |br.acc| >= e.bits + (e.value - 14);
  }

  /**
   * HUFFMAN_LENGTH_SYMBOLS: the fast loop, then the safe one. Interrupted anywhere, the reading ends where the
   * format says, as the format says; every chain then lists the symbols of its length.
   */
  method ReadCodeLengths(c: CodeLengthReader, table: seq<HuffmanCode>, br: Reader, input: seq<Byte>, ghost future: Bits)
    returns (code: Code)
    requires RepresentsLengths(table) && br.Valid(input) && c.Valid()
    modifies c, c.lists, c.histo, c.next, br
    ensures c.Valid() && br.Valid(input) && code != NeedsMoreOutput
    ensures code == NeedsMoreInput ==>
              && br.availIn == 0 && Future(c, table, br.Stream(input)) == Incomplete
              && Future(c, table, br.Stream(input) + future) == old(Future(c, table, br.Stream(input) + future))
    ensures code == Success ==>
              && old(Future(c, table, br.Stream(input) + future)) == Done(c.tokens, br.Stream(input) + future)
              && c.lens == Expand(c.tokens) && Complete(c.lens)
              && forall len | 1 <= len <= 15 :: Chain(c.lists[..], len, c.histo[len]) == SymbolsOf(c.lens, len)
    ensures code == Failure ==> old(Future(c, table, br.Stream(input) + future)) == Invalid
  {
    hide NextToken, ByteBits, RepresentsLengths, Complete, Chain, SymbolsOf, ReadLengths, Over,
         CodeLengthReader.Valid;
    code := ReadSymbolCodeLengths(c, table, br, input, future);
    if code == NeedsMoreInput {
      code := SafeReadSymbolCodeLengths(c, table, br, input, future);
      if code == NeedsMoreInput {
        CountersKnow(c);
        ReadEnd(table, c.alphabet, c.tokens, br.Stream(input));
        return;
      }
    }
    CountersKnow(c);
    ReadEnd(table, c.alphabet, c.tokens, br.Stream(input) + future);
    if c.space != 0 {
      return Failure;
    }
    ChainsAreRight(c);
  }

  lemma ChainsAreRight(c: CodeLengthReader)
    requires c.Valid()
    ensures c.histo.Length == SLOTS
    ensures forall len | 1 <= len <= 15 :: Chain(c.lists[..], len, c.histo[len]) == SymbolsOf(c.lens, len)
  {
    hide Chain, SymbolsOf, Expand;
    forall len | 1 <= len <= 15
      ensures Chain(c.lists[..], len, c.histo[len]) == SymbolsOf(c.lens, len)
    {
      ChainListsSymbols(c.lists[..], c.histo[len], c.next[len], c.lens, len);
    }
  }
}
