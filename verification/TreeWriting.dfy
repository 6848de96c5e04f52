/**
 * Writing the prefix codes of a meta-block, and that what has been written is what is read: codes with their symbols,
 * block types with their counts, distance parameters, context modes, context maps and trees.
 */
module TreeWriting {
  import opened Bytes
  import opened Results
  import opened BitReader
  import opened SymbolDecoding
  import opened Distances
  import opened BitDecoder
  import opened CommandPrefixes
  import opened Parsers
  import opened TreeReading
  import opened CodeLengths
  import Blocks = BlockTypes
  import Lengths = CodeLengthLoops
  import LengthCode = CodeLengthCode
  import Maps = ContextMap
  import MoveToFront

  // ---------- The code length code ----------

  const PLACE: seq<nat> := [4, 0, 1, 2, 3, 5, 7, 9, 10, 11, 12, 13, 14, 15, 16, 17, 8, 6]

  lemma PlacesAreOrder(i: nat)
    requires i < LengthCode.CODE_LENGTH_CODES
    ensures PLACE[i] < LengthCode.CODE_LENGTH_CODES && LengthCode.ORDER[PLACE[i]] == i
    ensures LengthCode.ORDER[i] < LengthCode.CODE_LENGTH_CODES && PLACE[LengthCode.ORDER[i]] == i
  {
  }

  /** The fixed code of section 3.5 of RFC 7932, in the order of the stream. */
  function FixedWord(v: nat): (w: Bits)
    requires v <= 5
  {
    if v == 0 then [false, false] else if v == 1 then [true, true, true, false]
    else if v == 2 then [true, true, false] else if v == 3 then [false, true]
    else if v == 4 then [true, false] else [true, true, true, true]
  }

  lemma FixedWordRead(v: nat, more: Bits)
    requires v <= 5
    ensures LengthCode.Codeword(FixedWord(v) + more) == Some((|FixedWord(v)|, v))
  {
  }

  /** The lengths whose place is before k, and zeros. */
  function Partial(lengths: seq<nat>, k: nat): (p: seq<nat>)
    requires |lengths| == LengthCode.CODE_LENGTH_CODES
  {
    seq(LengthCode.CODE_LENGTH_CODES, i requires 0 <= i < LengthCode.CODE_LENGTH_CODES =>
      if PLACE[i] < k then lengths[i] else 0)
  }

  /** The lengths from place skip on, written up to the place where they use up the code space, or the last one. */
  ghost predicate Writable(lengths: seq<nat>, skip: nat, upto: nat) {
    && |lengths| == LengthCode.CODE_LENGTH_CODES && (forall i | 0 <= i < |lengths| :: lengths[i] <= 5)
    && skip <= upto <= LengthCode.CODE_LENGTH_CODES
    && Partial(lengths, skip) == Partial(lengths, 0) && Partial(lengths, upto) == lengths
    && (forall k | skip <= k < upto :: LengthCode.Sum(Partial(lengths, k)) < LengthCode.CODE_SPACE)
    && (upto < LengthCode.CODE_LENGTH_CODES ==> LengthCode.Sum(lengths) >= LengthCode.CODE_SPACE)
  }

  function LengthLengthBits(lengths: seq<nat>, k: nat, upto: nat): (b: Bits)
    requires |lengths| == LengthCode.CODE_LENGTH_CODES && (forall i | 0 <= i < |lengths| :: lengths[i] <= 5)
    requires k <= upto <= LengthCode.CODE_LENGTH_CODES
    decreases upto - k
  {
    if k == upto then []
    else
      PlacesAreOrder(k);
      FixedWord(lengths[LengthCode.ORDER[k]]) + LengthLengthBits(lengths, k + 1, upto)
  }

  lemma NextLength(lengths: seq<nat>, k: nat, upto: nat, more: Bits)
    requires |lengths| == LengthCode.CODE_LENGTH_CODES && (forall i | 0 <= i < |lengths| :: lengths[i] <= 5)
    requires k < upto <= LengthCode.CODE_LENGTH_CODES
    ensures LengthCode.ORDER[k] < |lengths|
    ensures var w := FixedWord(lengths[LengthCode.ORDER[k]]); var tail := LengthLengthBits(lengths, k + 1, upto) + more;
            LengthLengthBits(lengths, k, upto) + more == w + tail && (w + tail)[|w|..] == tail
  {
    hide FixedWord;
    PlacesAreOrder(k);
    BitsAssociate(FixedWord(lengths[LengthCode.ORDER[k]]), LengthLengthBits(lengths, k + 1, upto), more);
  }

  lemma {:induction false} LengthLengthsRead(lengths: seq<nat>, skip: nat, upto: nat, k: nat, more: Bits)
    requires Writable(lengths, skip, upto) && skip <= k <= upto
    ensures LengthCode.Sound(LengthCode.Progress(k, Partial(lengths, k)))
    ensures LengthCode.Read(LengthCode.Progress(k, Partial(lengths, k)), LengthLengthBits(lengths, k, upto) + more)
            == LengthCode.Done(lengths, more)
    decreases upto - k
  {
    hide LengthCode.Read, LengthCode.Codeword, LengthCode.Over, LengthCode.Sound, LengthCode.Take, FixedWord, Partial,
         Writable, LengthLengthBits;
    AtPlace(lengths, skip, upto, k);
    LengthCode.Unfolded(LengthCode.Progress(k, Partial(lengths, k)), LengthLengthBits(lengths, k, upto) + more);
    if k < upto {
      NextLength(lengths, k, upto, more);
      FixedWordRead(lengths[LengthCode.ORDER[k]], LengthLengthBits(lengths, k + 1, upto) + more);
      LengthLengthsRead(lengths, skip, upto, k + 1, more);
    } else {
      NoMoreLengths(lengths, k, more);
    }
  }

  lemma NoMoreLengths(lengths: seq<nat>, upto: nat, more: Bits)
    requires |lengths| == LengthCode.CODE_LENGTH_CODES && (forall i | 0 <= i < |lengths| :: lengths[i] <= 5)
    requires upto <= LengthCode.CODE_LENGTH_CODES
    ensures LengthLengthBits(lengths, upto, upto) + more == more
  {
  }

  lemma AtPlace(lengths: seq<nat>, skip: nat, upto: nat, k: nat)
    requires Writable(lengths, skip, upto) && skip <= k <= upto
    ensures upto <= |lengths| == LengthCode.CODE_LENGTH_CODES && forall i | 0 <= i < |lengths| :: lengths[i] <= 5
    ensures var p := LengthCode.Progress(k, Partial(lengths, k));
            LengthCode.Sound(p) && (LengthCode.Over(p) <==> k == upto) && (k == upto ==> p.lengths == lengths)
    ensures k < upto ==> LengthCode.ORDER[k] < |lengths|
    ensures k < upto ==> LengthCode.Take(LengthCode.Progress(k, Partial(lengths, k)), lengths[LengthCode.ORDER[k]])
                         == LengthCode.Progress(k + 1, Partial(lengths, k + 1))
  {
    hide LengthCode.Sum;
    if k < upto {
      OneMoreKnown(lengths, k);
    }
  }

  lemma OneMoreKnown(lengths: seq<nat>, k: nat)
    requires |lengths| == LengthCode.CODE_LENGTH_CODES && k < LengthCode.CODE_LENGTH_CODES
    ensures LengthCode.ORDER[k] < LengthCode.CODE_LENGTH_CODES
    ensures Partial(lengths, k + 1) == Partial(lengths, k)[LengthCode.ORDER[k] := lengths[LengthCode.ORDER[k]]]
  {
    PlacesAreOrder(k);
    forall i | 0 <= i < LengthCode.CODE_LENGTH_CODES
      ensures PLACE[i] == k ==> i == LengthCode.ORDER[k]
    {
      PlacesAreOrder(i);
    }
  }

  // ---------- Code lengths ----------

  /** A token with a codeword for its symbol. */
  datatype Spelled = Spelled(word: Bits, token: Token)

  function TokenSymbol(t: Token): (v: nat) {
    match t
    case Single(len) => len
    case Repeat(zero, _) => if zero then 17 else 16
  }

  ghost predicate SpellsToken(table: Table, s: Spelled) {
    && Lengths.RepresentsLengths(table) && s.token.Valid() && |s.word| <= Lengths.ROOT_CL
    && Lengths.Entry(table, Lengths.PadLength(s.word)) == HuffmanCode(|s.word|, TokenSymbol(s.token))
  }

  function TokenBits(s: Spelled): (b: Bits) {
    s.word + if s.token.Single? then [] else BitsOf(s.token.extra, if s.token.zero then 3 else 2)
  }

  lemma TokenRead(table: Table, s: Spelled, more: Bits)
    requires SpellsToken(table, s)
    ensures Lengths.NextToken(table, TokenBits(s) + more) == Some((|TokenBits(s)|, s.token))
  {
    hide Value, BitsOf, Lengths.RepresentsLengths;
    EightPowers();
    Lengths.EntryAgrees(table, s.word, TokenBits(s) + more);
    var b, n := TokenBits(s) + more, |s.word|;
    if s.token.Repeat? {
      var k := if s.token.zero then 3 else 2;
      ValueOfBits(s.token.extra, k);
      assert b[n..n + k] == BitsOf(s.token.extra, k);
    }
  }

  function AllTokenBits(ss: seq<Spelled>): (b: Bits) {
    if ss == [] then [] else TokenBits(ss[0]) + AllTokenBits(ss[1..])
  }

  function TokensOf(ss: seq<Spelled>): (tokens: seq<Token>)
    ensures |tokens| == |ss|
  {
    if ss == [] then [] else [ss[0].token] + TokensOf(ss[1..])
  }

  /** Tokens that complete the code, and not before the last of them. */
  ghost predicate Completes(alphabet: nat, done: seq<Token>, tokens: seq<Token>) {
    && Lengths.Complete(Expand(done + tokens)) && |Expand(done + tokens)| <= alphabet
    && forall k | 0 <= k < |tokens| :: !Lengths.Over(done + tokens[..k], alphabet)
  }

  lemma {:induction false} LengthsRead(table: Table, alphabet: nat, done: seq<Token>, ss: seq<Spelled>, more: Bits)
    requires Lengths.RepresentsLengths(table) && Completes(alphabet, done, TokensOf(ss))
    requires forall s | s in ss :: SpellsToken(table, s)
    ensures Lengths.ReadLengths(table, alphabet, done, AllTokenBits(ss) + more)
            == Lengths.Done(done + TokensOf(ss), more)
    decreases |ss|
  {
    hide Lengths.NextToken, Lengths.RepresentsLengths, Expand, Lengths.Complete, SpellsToken, TokenBits, Lengths.Over;
    var b := AllTokenBits(ss) + more;
    if ss == [] {
      assert done + [] == done && b == more;
      LengthsEnd(table, alphabet, done, b);
    } else {
      var t := ss[0].token;
      var tail := AllTokenBits(ss[1..]) + more;
      assert b == TokenBits(ss[0]) + tail;
      TokenRead(table, ss[0], tail);
      assert b[|TokenBits(ss[0])|..] == tail && b + [] == b && tail + [] == tail;
      assert TokensOf(ss)[..0] == [] && done + [] == done;
      Lengths.ReadStep(table, alphabet, done, b, []);
      CompletesOn(alphabet, done, t, TokensOf(ss[1..]));
      LengthsRead(table, alphabet, done + [t], ss[1..], more);
      assert done + [t] + TokensOf(ss[1..]) == done + TokensOf(ss);
    }
  }

  lemma LengthsEnd(table: Table, alphabet: nat, done: seq<Token>, b: Bits)
    requires Lengths.RepresentsLengths(table) && Lengths.Complete(Expand(done)) && |Expand(done)| <= alphabet
    ensures Lengths.ReadLengths(table, alphabet, done, b) == Lengths.Done(done, b)
  {
    hide Lengths.RepresentsLengths, Expand, Lengths.Complete;
    Lengths.ReadEnd(table, alphabet, done, b);
  }

  lemma CompletesOn(alphabet: nat, done: seq<Token>, t: Token, tokens: seq<Token>)
    requires Completes(alphabet, done, [t] + tokens)
    ensures Completes(alphabet, done + [t], tokens)
  {
    hide Expand, Lengths.Complete, Lengths.Over;
    assert done + [t] + tokens == done + ([t] + tokens);
    forall k | 0 <= k < |tokens|
      ensures !Lengths.Over(done + [t] + tokens[..k], alphabet)
    {
      assert ([t] + tokens)[..k + 1] == [t] + tokens[..k];
      assert done + ([t] + tokens)[..k + 1] == done + [t] + tokens[..k];
    }
  }

  // ---------- Prefix codes ----------

  /** A simple code by its symbols, or a complex one by the code of its lengths and these lengths. */
  datatype CodePlan =
    | SimplePlan(symbols: seq<nat>, deep: bool)
    | ComplexPlan(lengths: seq<nat>, skip: nat, upto: nat, tokens: seq<Spelled>)

  ghost predicate FitsAlphabet(f: Builder, p: CodePlan, alphabet: nat, max: nat) {
    match p
    case SimplePlan(symbols, deep) =>
      && 1 <= |symbols| <= 4 && Distinct(symbols) && AllBelow(symbols, max) && (|symbols| < 4 ==> !deep)
      && forall k | 0 <= k < |symbols| :: symbols[k] < Pow2(BitLength(Max(0, alphabet - 1)))
    case ComplexPlan(lengths, skip, upto, tokens) =>
      && Writable(lengths, skip, upto) && LengthCode.Acceptable(lengths) && skip in {0, 2, 3}
      && Completes(max, [], TokensOf(tokens)) && forall s | s in tokens :: SpellsToken(f.lengthTable(lengths), s)
  }

  /** The table it is read as. */
  function TableOf(f: Builder, p: CodePlan): (t: Table) {
    match p
    case SimplePlan(symbols, deep) => f.simpleTable(symbols, deep)
    case ComplexPlan(_, _, _, tokens) => f.table(Expand(TokensOf(tokens)))
  }

  function SymbolBits(symbols: seq<nat>, width: nat): (b: Bits) {
    if symbols == [] then [] else BitsOf(symbols[0], width) + SymbolBits(symbols[1..], width)
  }

  function ShapeBits(symbols: seq<nat>, deep: bool): (b: Bits) {
    if |symbols| == 4 then [deep] else []
  }

  /** The first two bits of a code. */
  function Kind(p: CodePlan): (kind: nat) {
    if p.SimplePlan? then 1 else p.skip
  }

  /** What follows them. */
  ghost function RestOfCode(f: Builder, p: CodePlan, alphabet: nat, max: nat): (b: Bits)
    requires FitsAlphabet(f, p, alphabet, max)
  {
    match p
    case SimplePlan(symbols, deep) =>
      BitsOf(|symbols| - 1, 2) + SymbolsFrom(symbols, 0, BitLength(Max(0, alphabet - 1)), deep)
    case ComplexPlan(lengths, skip, upto, tokens) => LengthLengthBits(lengths, skip, upto) + AllTokenBits(tokens)
  }

  ghost function CodeBits(f: Builder, p: CodePlan, alphabet: nat, max: nat): (b: Bits)
    requires FitsAlphabet(f, p, alphabet, max)
  {
    BitsOf(Kind(p), 2) + RestOfCode(f, p, alphabet, max)
  }

  lemma PlainBitsRead(v: nat, n: nat, more: Bits)
    requires v < Pow2(n)
    ensures PlainBits(n)(BitsOf(v, n) + more) == Got(n, v) && Tail(BitsOf(v, n) + more, n) == more
  {
    hide Value, BitsOf, Pow2;
    ValueOfBits(v, n);
    assert (BitsOf(v, n) + more)[..n] == BitsOf(v, n);
    assert (BitsOf(v, n) + more)[n..] == more;
  }

  lemma OneBitRead(v: bool, more: Bits)
    ensures PlainBits(1)([v] + more) == Got(1, if v then 1 else 0) && Tail([v] + more, 1) == more
  {
    hide PlainBits;
    EightPowers();
    var x := if v then 1 else 0;
    assert BitsOf(x, 1) == [v];
    PlainBitsRead(x, 1, more);
  }

  lemma ShapeRead(f: Builder, max: nat, symbols: seq<nat>, deep: bool, more: Bits)
    requires f.Valid() && 1 <= |symbols| <= 4 && AllBelow(symbols, max) && (|symbols| < 4 ==> !deep)
    ensures SimpleShape(f, max, symbols)(ShapeBits(symbols, deep) + more)
            == Got(|ShapeBits(symbols, deep)|, f.simpleTable(symbols, deep))
  {
    hide Builder.Valid, PlainBits, SymbolsBelow;
    assert [] + more == more;
    OneBitRead(deep, more);
  }

  lemma SymbolStep(f: Builder, width: nat, max: nat, count: nat, done: seq<nat>, v: nat, rest: Bits)
    requires f.Valid() && |done| < count <= 4 && AllBelow(done + [v], max) && v < Pow2(width)
    ensures AllBelow(done, max)
    ensures SimpleSymbols(f, width, max, count, done)(BitsOf(v, width) + rest)
            == After(width, SimpleSymbols(f, width, max, count, done + [v])(rest))
  {
    hide Builder.Valid, PlainBits, SymbolsBelow, SimpleShape, BitsOf, Pow2;
    assert (done + [v])[|done|] == v;
    assert forall k | 0 <= k < |done| :: done[k] == (done + [v])[k];
    PlainBitsRead(v, width, rest);
  }

  lemma SymbolsEnd(f: Builder, width: nat, max: nat, symbols: seq<nat>, deep: bool, more: Bits)
    requires f.Valid() && 1 <= |symbols| <= 4 && AllBelow(symbols, max) && Distinct(symbols)
    requires |symbols| < 4 ==> !deep
    ensures SimpleSymbols(f, width, max, |symbols|, symbols)(ShapeBits(symbols, deep) + more)
            == Got(|ShapeBits(symbols, deep)|, f.simpleTable(symbols, deep))
  {
    hide Builder.Valid, SymbolsBelow, SimpleShape, Distinct;
    ShapeRead(f, max, symbols, deep, more);
  }

  lemma BelowPart(all: seq<nat>, max: nat, k: nat)
    requires AllBelow(all, max) && k <= |all|
    ensures AllBelow(all[..k], max)
  {
  }

  /** The symbols from the k-th on, and what follows them. */
  function SymbolsFrom(all: seq<nat>, k: nat, width: nat, deep: bool): (b: Bits)
    requires k <= |all|
  {
    SymbolBits(all[k..], width) + ShapeBits(all, deep)
  }

  lemma SymbolsFromStep(all: seq<nat>, k: nat, width: nat, deep: bool, more: Bits)
    requires k < |all|
    ensures |SymbolsFrom(all, k, width, deep)| == width + |SymbolsFrom(all, k + 1, width, deep)|
    ensures SymbolsFrom(all, k, width, deep) + more
            == BitsOf(all[k], width) + (SymbolsFrom(all, k + 1, width, deep) + more)
  {
    hide BitsOf, ShapeBits;
    assert all[k..][1..] == all[k + 1..];
    var x, y, z := BitsOf(all[k], width), SymbolBits(all[k + 1..], width), ShapeBits(all, deep);
    assert x + y + z + more == x + (y + z + more);
  }

  lemma {:induction false} SymbolsRead(f: Builder, width: nat, max: nat, all: seq<nat>, k: nat, deep: bool, more: Bits)
    requires f.Valid() && 1 <= |all| <= 4 && AllBelow(all, max) && Distinct(all) && (|all| < 4 ==> !deep) && k <= |all|
    requires forall i | 0 <= i < |all| :: all[i] < Pow2(width)
    ensures AllBelow(all[..k], max)
    ensures SimpleSymbols(f, width, max, |all|, all[..k])(SymbolsFrom(all, k, width, deep) + more)
            == Got(|SymbolsFrom(all, k, width, deep)|, f.simpleTable(all, deep))
    decreases |all| - k
  {
    hide Builder.Valid, SimpleSymbols, BitsOf, Pow2, ShapeBits, Distinct, SymbolsFrom, AllBelow;
    BelowPart(all, max, k);
    if k == |all| {
      assert all[..k] == all;
      LastSymbols(all, width, deep);
      SymbolsEnd(f, width, max, all, deep, more);
    } else {
      assert all[..k] + [all[k]] == all[..k + 1];
      SymbolsRead(f, width, max, all, k + 1, deep, more);
      SymbolsFromStep(all, k, width, deep, more);
      SymbolStep(f, width, max, |all|, all[..k], all[k], SymbolsFrom(all, k + 1, width, deep) + more);
    }
  }

  lemma LastSymbols(all: seq<nat>, width: nat, deep: bool)
    ensures SymbolsFrom(all, |all|, width, deep) == ShapeBits(all, deep)
  {
    assert [] + ShapeBits(all, deep) == ShapeBits(all, deep);
  }

  lemma CountStep(f: Builder, alphabet: nat, max: nat, count: nat, rest: Bits)
    requires f.Valid() && 1 <= count <= 4
    ensures SimpleCode(f, alphabet, max)(BitsOf(count - 1, 2) + rest)
            == After(2, SimpleSymbols(f, BitLength(Max(0, alphabet - 1)), max, count, [])(rest))
  {
    hide Builder.Valid, PlainBits, SymbolsBelow, SimpleSymbols, BitsOf, Pow2, BitLength;
    EightPowers();
    PlainBitsRead(count - 1, 2, rest);
  }

  lemma AllSymbolsRead(f: Builder, width: nat, max: nat, all: seq<nat>, deep: bool, more: Bits)
    requires f.Valid() && 1 <= |all| <= 4 && AllBelow(all, max) && Distinct(all) && (|all| < 4 ==> !deep)
    requires forall i | 0 <= i < |all| :: all[i] < Pow2(width)
    ensures SimpleSymbols(f, width, max, |all|, [])(SymbolsFrom(all, 0, width, deep) + more)
            == Got(|SymbolsFrom(all, 0, width, deep)|, f.simpleTable(all, deep))
  {
    hide Builder.Valid, SimpleSymbols, BitsOf, Pow2, ShapeBits, Distinct, SymbolsFrom, AllBelow;
    assert all[..0] == [];
    SymbolsRead(f, width, max, all, 0, deep, more);
  }

  lemma SimpleCodeRead(f: Builder, p: CodePlan, alphabet: nat, max: nat, more: Bits)
    requires f.Valid() && FitsAlphabet(f, p, alphabet, max) && p.SimplePlan?
    ensures var w := RestOfCode(f, p, alphabet, max);
            SimpleCode(f, alphabet, max)(w + more) == Got(|w|, TableOf(f, p))
  {
    hide Builder.Valid, SimpleCode, SimpleSymbols, BitsOf, Pow2, BitLength, Distinct, AllBelow, SymbolsFrom, Writable,
         Completes, SpellsToken, LengthLengthBits, AllTokenBits, Expand, SymbolsBelow, LengthCode.Acceptable, Value;
    var width := BitLength(Max(0, alphabet - 1));
    var rest := SymbolsFrom(p.symbols, 0, width, p.deep);
    BitsAssociate(BitsOf(|p.symbols| - 1, 2), rest, more);
    AllSymbolsRead(f, width, max, p.symbols, p.deep, more);
    CountStep(f, alphabet, max, |p.symbols|, rest + more);
  }

  lemma ComplexCodeRead(f: Builder, p: CodePlan, alphabet: nat, max: nat, more: Bits)
    requires f.Valid() && FitsAlphabet(f, p, alphabet, max) && p.ComplexPlan?
    ensures var w := RestOfCode(f, p, alphabet, max);
            ComplexCode(f, p.skip, max)(w + more) == Got(|w|, TableOf(f, p))
  {
    hide Builder.Valid, SymbolsBelow, BitsOf, Lengths.RepresentsLengths, LengthCode.Acceptable, SpellsToken,
         ComplexCode, Completes, Expand, LengthCode.Read, Lengths.ReadLengths, LengthCode.Sum, Partial,
         LengthLengthBits, AllTokenBits, TokensOf;
    var a, c := LengthLengthBits(p.lengths, p.skip, p.upto), AllTokenBits(p.tokens);
    BitsAssociate(a, c, more);
    LengthTableFits(f, p.lengths);
    SymbolLengthsGot(f, f.lengthTable(p.lengths), max, p.tokens, more);
    LengthsStep(f, max, p.lengths, p.skip, p.upto, c + more);
  }

  lemma LengthsStep(f: Builder, max: nat, lengths: seq<nat>, skip: nat, upto: nat, rest: Bits)
    requires f.Valid() && Writable(lengths, skip, upto) && skip < 4 && LengthCode.Acceptable(lengths)
    requires Lengths.RepresentsLengths(f.lengthTable(lengths))
    ensures var a := LengthLengthBits(lengths, skip, upto);
            ComplexCode(f, skip, max)(a + rest) == After(|a|, SymbolLengths(f, f.lengthTable(lengths), max)(rest))
  {
    hide Builder.Valid, SymbolsBelow, Lengths.RepresentsLengths, LengthCode.Acceptable, LengthLengths, SymbolLengths,
         LengthCode.Sum, Partial;
    var a := LengthLengthBits(lengths, skip, upto);
    LengthLengthsGot(lengths, skip, upto, rest);
    assert Tail(a + rest, |a|) == rest;
  }

  lemma LengthTableFits(f: Builder, lengths: seq<nat>)
    requires f.Valid() && |lengths| == LengthCode.CODE_LENGTH_CODES && LengthCode.Acceptable(lengths)
    ensures Lengths.RepresentsLengths(f.lengthTable(lengths))
  {
    hide Lengths.RepresentsLengths, LengthCode.Acceptable;
  }

  lemma LengthLengthsGot(lengths: seq<nat>, skip: nat, upto: nat, more: Bits)
    requires Writable(lengths, skip, upto) && skip < 4 && LengthCode.Acceptable(lengths)
    ensures var a := LengthLengthBits(lengths, skip, upto);
            LengthLengths(skip)(a + more) == Got(|a|, lengths)
  {
    hide LengthCode.Acceptable, LengthCode.Read, LengthCode.Sum;
    LengthLengthsRead(lengths, skip, upto, skip, more);
    assert Partial(lengths, skip) == NoLengths(skip).lengths;
  }

  lemma SymbolLengthsGot(f: Builder, table: Table, max: nat, tokens: seq<Spelled>, more: Bits)
    requires f.Valid() && Lengths.RepresentsLengths(table) && Completes(max, [], TokensOf(tokens))
    requires forall s | s in tokens :: SpellsToken(table, s)
    ensures var c := AllTokenBits(tokens);
            SymbolLengths(f, table, max)(c + more) == Got(|c|, f.table(Expand(TokensOf(tokens))))
  {
    hide Builder.Valid, Lengths.RepresentsLengths, SpellsToken, Completes, Expand, Lengths.ReadLengths, SymbolsBelow;
    LengthsRead(table, max, [], tokens, more);
    assert [] + TokensOf(tokens) == TokensOf(tokens);
  }

  /** A code that has been written is read back. */
  lemma CodeRead(f: Builder, p: CodePlan, alphabet: nat, max: nat, more: Bits)
    requires f.Valid() && FitsAlphabet(f, p, alphabet, max)
    ensures var w := CodeBits(f, p, alphabet, max);
            PrefixCode(f, alphabet, max)(w + more) == Got(|w|, TableOf(f, p))
  {
    hide Builder.Valid, SymbolsBelow, SimpleCode, ComplexCode, BitsOf, FitsAlphabet, TableOf, RestOfCode, PrefixCode;
    var u := RestOfCode(f, p, alphabet, max);
    KindFits(f, p, alphabet, max);
    BitsAssociate(BitsOf(Kind(p), 2), u, more);
    KindStep(f, alphabet, max, Kind(p), u + more);
    if p.SimplePlan? {
      SimpleCodeRead(f, p, alphabet, max, more);
    } else {
      ComplexCodeRead(f, p, alphabet, max, more);
    }
  }

  lemma KindFits(f: Builder, p: CodePlan, alphabet: nat, max: nat)
    requires FitsAlphabet(f, p, alphabet, max)
    ensures p.ComplexPlan? ==> Kind(p) in {0, 2, 3}
  {
    hide Writable, Completes;
  }

  lemma KindStep(f: Builder, alphabet: nat, max: nat, kind: nat, rest: Bits)
    requires f.Valid() && kind < 4
    ensures PrefixCode(f, alphabet, max)(BitsOf(kind, 2) + rest) == After(2, CodeOf(f, alphabet, max, kind)(rest))
  {
    hide Builder.Valid, PlainBits, SymbolsBelow, CodeOf, BitsOf, Pow2;
    EightPowers();
    PlainBitsRead(kind, 2, rest);
  }

  // ---------- Prefix codes that are refused ----------

  lemma LargeSymbolRefused(f: Builder, width: nat, max: nat, count: nat, done: seq<nat>, v: nat, rest: Bits)
    requires f.Valid() && |done| < count <= 4 && AllBelow(done, max) && max <= v < Pow2(width)
    ensures SimpleSymbols(f, width, max, count, done)(BitsOf(v, width) + rest).Invalid?
  {
    hide Builder.Valid, PlainBits, SymbolsBelow, SimpleShape, BitsOf, Pow2;
    PlainBitsRead(v, width, rest);
  }

  lemma SameSymbolsRefused(f: Builder, width: nat, max: nat, all: seq<nat>, rest: Bits)
    requires f.Valid() && 1 <= |all| <= 4 && AllBelow(all, max) && !Distinct(all)
    ensures SimpleSymbols(f, width, max, |all|, all)(rest).Invalid?
  {
    hide Builder.Valid, SymbolsBelow, Distinct;
  }

  lemma {:induction false} SymbolsRefused(f: Builder, width: nat, max: nat, all: seq<nat>, k: nat, rest: Bits)
    requires f.Valid() && 1 <= |all| <= 4 && k <= |all| && AllBelow(all[..k], max)
    requires (forall i | 0 <= i < |all| :: all[i] < Pow2(width)) && !(AllBelow(all, max) && Distinct(all))
    ensures SimpleSymbols(f, width, max, |all|, all[..k])(SymbolBits(all[k..], width) + rest).Invalid?
    decreases |all| - k
  {
    hide Builder.Valid, SimpleSymbols, BitsOf, Pow2, Distinct;
    if k == |all| {
      assert all[..k] == all;
      SameSymbolsRefused(f, width, max, all, SymbolBits(all[k..], width) + rest);
    } else {
      var tail := SymbolBits(all[k + 1..], width) + rest;
      assert all[k..][1..] == all[k + 1..];
      BitsAssociate(BitsOf(all[k], width), SymbolBits(all[k + 1..], width), rest);
      assert all[..k] + [all[k]] == all[..k + 1];
      if all[k] < max {
        SymbolStep(f, width, max, |all|, all[..k], all[k], tail);
        SymbolsRefused(f, width, max, all, k + 1, rest);
      } else {
        LargeSymbolRefused(f, width, max, |all|, all[..k], all[k], tail);
      }
    }
  }

  lemma AllSymbolsRefused(f: Builder, width: nat, max: nat, all: seq<nat>, rest: Bits)
    requires f.Valid() && 1 <= |all| <= 4 && !(AllBelow(all, max) && Distinct(all))
    requires forall i | 0 <= i < |all| :: all[i] < Pow2(width)
    ensures SimpleSymbols(f, width, max, |all|, [])(SymbolBits(all, width) + rest).Invalid?
  {
    hide Builder.Valid, SimpleSymbols, BitsOf, Pow2, Distinct, SymbolBits;
    assert all[..0] == [] && all[0..] == all;
    SymbolsRefused(f, width, max, all, 0, rest);
  }

  /** A simple code makes no sense if a symbol is outside of the alphabet, or named twice. */
  lemma SimpleCodeRefused(f: Builder, alphabet: nat, width: nat, max: nat, all: seq<nat>, rest: Bits)
    requires f.Valid() && 1 <= |all| <= 4 && !(AllBelow(all, max) && Distinct(all))
    requires width == BitLength(Max(0, alphabet - 1)) && forall i | 0 <= i < |all| :: all[i] < Pow2(width)
    ensures SimpleCode(f, alphabet, max)(BitsOf(|all| - 1, 2) + (SymbolBits(all, width) + rest)).Invalid?
  {
    hide Builder.Valid, SimpleCode, SimpleSymbols, BitsOf, Pow2, BitLength, Distinct, AllBelow, SymbolBits,
         SymbolsBelow, Value;
    var b := SymbolBits(all, width) + rest;
    AllSymbolsRefused(f, width, max, all, rest);
    CountStep(f, alphabet, max, |all|, b);
  }

  /** A complex one, if the lengths of its code length code do not make a code. */
  lemma ComplexCodeRefused(f: Builder, max: nat, lengths: seq<nat>, skip: nat, upto: nat, rest: Bits)
    requires f.Valid() && Writable(lengths, skip, upto) && skip < 4 && !LengthCode.Acceptable(lengths)
    ensures ComplexCode(f, skip, max)(LengthLengthBits(lengths, skip, upto) + rest).Invalid?
  {
    hide Builder.Valid, SymbolsBelow, Lengths.RepresentsLengths, LengthCode.Acceptable, LengthCode.Read, SymbolLengths,
         LengthCode.Sum;
    LengthLengthsRead(lengths, skip, upto, skip, rest);
    assert Partial(lengths, skip) == NoLengths(skip).lengths;
  }

  /** Tokens that overrun the alphabet, or leave code space when they have filled it. */
  ghost predicate Fails(alphabet: nat, done: seq<Token>, tokens: seq<Token>) {
    && Lengths.Over(done + tokens, alphabet)
    && !(Lengths.Complete(Expand(done + tokens)) && |Expand(done + tokens)| <= alphabet)
    && forall k | 0 <= k < |tokens| :: !Lengths.Over(done + tokens[..k], alphabet)
  }

  lemma {:induction false} LengthsRefused(table: Table, alphabet: nat, done: seq<Token>, ss: seq<Spelled>, more: Bits)
    requires Lengths.RepresentsLengths(table) && Fails(alphabet, done, TokensOf(ss))
    requires forall s | s in ss :: SpellsToken(table, s)
    ensures Lengths.ReadLengths(table, alphabet, done, AllTokenBits(ss) + more).Invalid?
    decreases |ss|
  {
    hide Lengths.NextToken, Lengths.RepresentsLengths, Expand, Lengths.Complete, SpellsToken, TokenBits, Lengths.Over,
         Lengths.ReadLengths;
    var b := AllTokenBits(ss) + more;
    if ss == [] {
      assert done + [] == done;
      Lengths.ReadEnd(table, alphabet, done, b);
    } else {
      var t := ss[0].token;
      var tail := AllTokenBits(ss[1..]) + more;
      assert b == TokenBits(ss[0]) + tail;
      TokenRead(table, ss[0], tail);
      assert b[|TokenBits(ss[0])|..] == tail && b + [] == b && tail + [] == tail;
      assert TokensOf(ss)[..0] == [] && done + [] == done;
      Lengths.ReadStep(table, alphabet, done, b, []);
      FailsOn(alphabet, done, t, TokensOf(ss[1..]));
      LengthsRefused(table, alphabet, done + [t], ss[1..], more);
    }
  }

  lemma FailsOn(alphabet: nat, done: seq<Token>, t: Token, tokens: seq<Token>)
    requires Fails(alphabet, done, [t] + tokens)
    ensures Fails(alphabet, done + [t], tokens)
  {
    hide Expand, Lengths.Complete, Lengths.Over;
    assert done + [t] + tokens == done + ([t] + tokens);
    forall k | 0 <= k < |tokens|
      ensures !Lengths.Over(done + [t] + tokens[..k], alphabet)
    {
      assert ([t] + tokens)[..k + 1] == [t] + tokens[..k];
      assert done + ([t] + tokens)[..k + 1] == done + [t] + tokens[..k];
    }
  }

  // ---------- Small numbers ----------

  function VarLenBits(v: nat): (b: Bits)
    requires v < 256
  {
    if v == 0 then [false] else [true] + (BitsOf(Log2(v), 3) + BitsOf(v - Pow2(Log2(v)), Log2(v)))
  }

  lemma SmallLog(v: nat)
    requires 0 < v < 256
    ensures Log2(v) < 8
  {
    if Log2(v) >= 8 {
      assert Pow2(8) == 256;
      Pow2Below(8, Log2(v));
    }
  }

  lemma VarLenStep(more: bool, rest: Bits)
    ensures VarLen8()([more] + rest) == After(1, VarLenRest(if more then 1 else 0)(rest))
  {
    hide PlainBits, Pow2, VarLenRest;
    OneBitRead(more, rest);
  }

  lemma VarLenRead(v: nat, more: Bits)
    requires v < 256
    ensures VarLen8()(VarLenBits(v) + more) == Got(|VarLenBits(v)|, v)
  {
    hide PlainBits, Pow2, BitsOf, Log2, VarLenRest, VarLen8;
    if v == 0 {
      VarLenStep(false, more);
      NoMoreThanZero(more);
    } else {
      var u := BitsOf(Log2(v), 3) + BitsOf(v - Pow2(Log2(v)), Log2(v));
      SmallLog(v);
      BitsAssociate([true], u, more);
      VarLenStep(true, u + more);
      VarLenRestRead(v, more);
    }
  }

  lemma NoMoreThanZero(more: Bits)
    ensures VarLenRest(0)(more) == Got(0, 0)
  {
  }

  lemma TopBitRead(n: nat, x: nat, more: Bits)
    requires n < 8 && x < Pow2(n)
    ensures TopBit(n)(BitsOf(x, n) + more) == Got(n, Pow2(n) + x)
  {
    hide PlainBits, Pow2, BitsOf;
    PlainBitsRead(x, n, more);
  }

  lemma VarLenRestRead(v: nat, more: Bits)
    requires 0 < v < 256
    ensures var n := Log2(v);
            VarLenRest(1)(BitsOf(n, 3) + BitsOf(v - Pow2(n), n) + more) == Got(3 + n, v)
  {
    hide PlainBits, Pow2, BitsOf, Log2, TopBit;
    var n := Log2(v);
    SmallLog(v);
    EightPowers();
    BitsAssociate(BitsOf(n, 3), BitsOf(v - Pow2(n), n), more);
    PlainBitsRead(n, 3, BitsOf(v - Pow2(n), n) + more);
    TopBitRead(n, v - Pow2(n), more);
  }

  // ---------- Block types ----------

  /** A codeword for a symbol. */
  ghost predicate Spells(table: Table, word: Bits, symbol: nat) {
    RepresentsCode(table) && Decode(table, word) == Some((|word|, symbol))
  }

  /** One block type, or several with their codes and the first count, for which there is a codeword. */
  datatype CategoryPlan =
    | OneType
    | SeveralTypes(num: nat, types: CodePlan, counts: CodePlan, word: Bits, countCode: nat, count: nat)

  ghost predicate CategoryFits(f: Builder, p: CategoryPlan)
    requires f.Valid()
  {
    match p
    case OneType => true
    case SeveralTypes(num, types, counts, word, countCode, count) =>
      && 2 <= num <= 256 && FitsAlphabet(f, types, num + 2, num + 2)
      && FitsAlphabet(f, counts, COUNT_SYMBOLS, COUNT_SYMBOLS)
      && CountFits(TableOf(f, counts), word, countCode, count)
  }

  /** A count of the range of a code that there is a codeword for. */
  ghost predicate CountFits(table: Table, word: Bits, countCode: nat, count: nat) {
    && Spells(table, word, countCode) && countCode < COUNT_SYMBOLS
    && Blocks.LENGTH_OFFSETS[countCode] <= count
    && count < Blocks.LENGTH_OFFSETS[countCode] + Pow2(Blocks.LENGTH_BITS[countCode])
  }

  function CountBits(word: Bits, countCode: nat, count: nat): (b: Bits)
    requires countCode < COUNT_SYMBOLS && Blocks.LENGTH_OFFSETS[countCode] <= count
  {
    word + BitsOf(count - Blocks.LENGTH_OFFSETS[countCode], Blocks.LENGTH_BITS[countCode])
  }

  /** A block count that has been written is read back. */
  lemma CountRead(table: Table, word: Bits, countCode: nat, count: nat, more: Bits)
    requires CountFits(table, word, countCode, count)
    ensures Blocks.CountAt(table, CountBits(word, countCode, count) + more) == Some((count, more))
  {
    hide RepresentsCode, Decode, Value, Pow2, BitsOf;
    var x := BitsOf(count - Blocks.LENGTH_OFFSETS[countCode], Blocks.LENGTH_BITS[countCode]);
    var b := CountBits(word, countCode, count) + more;
    assert b == word + (x + more);
    DecodeIsStable(table, word, x + more);
    assert b[|word|..] == x + more;
    assert b[|word|..][..|x|] == x && b[|word|..][|x|..] == more;
    ValueOfBits(count - Blocks.LENGTH_OFFSETS[countCode], Blocks.LENGTH_BITS[countCode]);
  }

  /** A block switch likewise. */
  lemma SwitchRead(types: Table, counts: Table, word: Bits, code: nat, countPart: Bits, count: nat, more: Bits)
    requires Spells(types, word, code) && RepresentsCode(counts)
    requires Blocks.CountAt(counts, countPart + more) == Some((count, more))
    ensures Blocks.SwitchBits(types, counts, word + countPart + more)
            == Some((|word + countPart|, Blocks.Switch(code, count)))
  {
    hide RepresentsCode, Decode, Blocks.CountAt;
    BitsAssociate(word, countPart, more);
    DecodeIsStable(types, word, countPart + more);
    assert (word + (countPart + more))[|word|..] == countPart + more;
  }

  function SwitchingOf(f: Builder, p: CategoryPlan): (c: Switching) {
    match p
    case OneType => Switching(1, [], [], FULL_COUNT)
    case SeveralTypes(num, types, counts, _, _, count) => Switching(num, TableOf(f, types), TableOf(f, counts), count)
  }

  ghost function CategoryBits(f: Builder, p: CategoryPlan): (b: Bits)
    requires f.Valid() && CategoryFits(f, p)
  {
    match p
    case OneType => VarLenBits(0)
    case SeveralTypes(num, types, counts, word, countCode, count) =>
      VarLenBits(num - 1) + (CodeBits(f, types, num + 2, num + 2)
                             + (CodeBits(f, counts, COUNT_SYMBOLS, COUNT_SYMBOLS) + CountBits(word, countCode, count)))
  }

  lemma CategoryNumber(f: Builder, more: nat, rest: Bits)
    requires f.Valid() && more < 256
    ensures Category(f)(VarLenBits(more) + rest) == After(|VarLenBits(more)|, CategoryOf(f, more)(rest))
  {
    hide Builder.Valid, VarLen8, VarLenBits, CategoryOf;
    VarLenRead(more, rest);
    assert Tail(VarLenBits(more) + rest, |VarLenBits(more)|) == rest;
  }

  lemma OneTypeRead(f: Builder, rest: Bits)
    requires f.Valid()
    ensures CategoryOf(f, 0)(rest) == Got(0, Switching(1, [], [], FULL_COUNT))
  {
    hide Builder.Valid;
  }

  lemma CategoryTypes(f: Builder, num: nat, w: Bits, t: Table, rest: Bits)
    requires f.Valid() && 2 <= num <= 256 && PrefixCode(f, num + 2, num + 2)(w + rest) == Got(|w|, t)
    ensures SymbolsBelow(t, num + 2)
    ensures CategoryOf(f, num - 1)(w + rest) == After(|w|, CategoryCounts(f, num, t)(rest))
  {
    hide Builder.Valid, PrefixCode, SymbolsBelow, CategoryCounts;
    assert Tail(w + rest, |w|) == rest;
  }

  lemma CategoryCounted(f: Builder, num: nat, types: Table, w: Bits, t: Table, rest: Bits)
    requires f.Valid() && 2 <= num <= 256 && SymbolsBelow(types, num + 2)
    requires PrefixCode(f, COUNT_SYMBOLS, COUNT_SYMBOLS)(w + rest) == Got(|w|, t)
    ensures SymbolsBelow(t, COUNT_SYMBOLS)
    ensures CategoryCounts(f, num, types)(w + rest) == After(|w|, CategoryFirst(num, types, t)(rest))
  {
    hide Builder.Valid, PrefixCode, SymbolsBelow, CategoryFirst;
    assert Tail(w + rest, |w|) == rest;
  }

  lemma CategoryFirstRead(num: nat, types: Table, counts: Table, word: Bits, countCode: nat, count: nat, rest: Bits)
    requires 2 <= num <= 256 && SymbolsBelow(types, num + 2) && SymbolsBelow(counts, COUNT_SYMBOLS)
    requires CountFits(counts, word, countCode, count)
    ensures var w := CountBits(word, countCode, count);
            CategoryFirst(num, types, counts)(w + rest) == Got(|w|, Switching(num, types, counts, count))
  {
    hide SymbolsBelow, RepresentsCode, Decode, CountBits, Blocks.CountAt;
    ByCode(counts, COUNT_SYMBOLS);
    CountRead(counts, word, countCode, count, rest);
  }

  /** The block types of a category that have been written are read back. */
  lemma CategoryRead(f: Builder, p: CategoryPlan, more: Bits)
    requires f.Valid() && CategoryFits(f, p)
    ensures var w := CategoryBits(f, p);
            Category(f)(w + more) == Got(|w|, SwitchingOf(f, p))
  {
    hide Builder.Valid, VarLenBits, CodeBits, CountBits, Category, CategoryOf, CategoryCounts, CategoryFirst,
         CountFits, PrefixCode, FitsAlphabet, TableOf, SymbolsBelow;
    match p
    case OneType =>
      CategoryNumber(f, 0, more);
      OneTypeRead(f, more);
    case SeveralTypes(num, types, counts, word, countCode, count) =>
      CountsOfFit(f, p);
      var u, v, x, y := VarLenBits(num - 1), CodeBits(f, types, num + 2, num + 2),
        CodeBits(f, counts, COUNT_SYMBOLS, COUNT_SYMBOLS), CountBits(word, countCode, count);
      FourParts(u, v, x, y, more);
      CategoryNumber(f, num - 1, v + (x + (y + more)));
      CodeRead(f, types, num + 2, num + 2, x + (y + more));
      CategoryTypes(f, num, v, TableOf(f, types), x + (y + more));
      CodeRead(f, counts, COUNT_SYMBOLS, COUNT_SYMBOLS, y + more);
      CategoryCounted(f, num, TableOf(f, types), x, TableOf(f, counts), y + more);
      CategoryFirstRead(num, TableOf(f, types), TableOf(f, counts), word, countCode, count, more);
  }

  lemma CountsOfFit(f: Builder, p: CategoryPlan)
    requires f.Valid() && CategoryFits(f, p) && p.SeveralTypes?
    ensures p.countCode < COUNT_SYMBOLS && Blocks.LENGTH_OFFSETS[p.countCode] <= p.count
  {
  }

  lemma FourParts(u: Bits, v: Bits, x: Bits, y: Bits, more: Bits)
    ensures u + (v + (x + y)) + more == u + (v + (x + (y + more)))
  {
  }

  // ---------- Context maps ----------

  /** An entry, or a run of zeros, with the codeword of its symbol. */
  datatype MapItem = Entry(word: Bits, value: Byte) | Run(word: Bits, code: nat, extra: nat)

  /** 0 for a zero, the codes of the runs, and then the other entries. */
  function ItemSymbol(i: MapItem, maxRun: nat): (v: nat) {
    match i
    case Entry(_, value) => if value == 0 then 0 else value + maxRun
    case Run(_, code, _) => code
  }

  ghost predicate ItemFits(table: Table, maxRun: nat, i: MapItem) {
    && Spells(table, i.word, ItemSymbol(i, maxRun))
    && (i.Run? ==> 1 <= i.code <= maxRun && i.extra < Pow2(i.code))
  }

  function ItemBits(i: MapItem): (b: Bits) {
    i.word + if i.Entry? then [] else BitsOf(i.extra, i.code)
  }

  function ItemEntries(i: MapItem): (e: seq<Byte>) {
    if i.Entry? then [i.value] else Maps.ZeroRun(Pow2(i.code) + i.extra)
  }

  function AllItemBits(items: seq<MapItem>): (b: Bits) {
    if items == [] then [] else ItemBits(items[0]) + AllItemBits(items[1..])
  }

  function AllEntries(items: seq<MapItem>): (e: seq<Byte>) {
    if items == [] then [] else ItemEntries(items[0]) + AllEntries(items[1..])
  }

  lemma ItemRead(p: Maps.MapParams, done: seq<Byte>, i: MapItem, rest: Bits)
    requires p.Valid() && ItemFits(p.table, p.maxRun, i) && |done + ItemEntries(i)| <= p.size
    ensures Maps.MapRun(p, done, None, ItemBits(i) + rest) == Maps.MapRun(p, done + ItemEntries(i), None, rest)
  {
    hide Decode, RepresentsCode, Pow2, Value, BitsOf, Maps.ZeroRun;
    var b := ItemBits(i) + rest;
    if i.Entry? {
      assert b == i.word + rest;
      DecodeIsStable(p.table, i.word, rest);
      assert b[|i.word|..] == rest;
    } else {
      var x := BitsOf(i.extra, i.code);
      assert b == i.word + (x + rest);
      DecodeIsStable(p.table, i.word, x + rest);
      assert b[|i.word|..] == x + rest;
      ValueOfBits(i.extra, i.code);
      assert (x + rest)[..i.code] == x && (x + rest)[i.code..] == rest;
    }
  }

  lemma {:induction false} ItemsRead(p: Maps.MapParams, done: seq<Byte>, items: seq<MapItem>, rest: Bits)
    requires p.Valid() && (forall i | i in items :: ItemFits(p.table, p.maxRun, i))
    requires |done + AllEntries(items)| <= p.size
    ensures Maps.MapRun(p, done, None, AllItemBits(items) + rest)
            == Maps.MapRun(p, done + AllEntries(items), None, rest)
    decreases |items|
  {
    hide Maps.MapParams.Valid, ItemFits, ItemBits, ItemEntries, Maps.MapRun;
    if items == [] {
      assert done + [] == done && [] + rest == rest;
    } else {
      var i, tail := items[0], items[1..];
      assert done + ItemEntries(i) + AllEntries(tail) == done + AllEntries(items);
      BitsAssociate(ItemBits(i), AllItemBits(tail), rest);
      ItemRead(p, done, i, AllItemBits(tail) + rest);
      ItemsRead(p, done + ItemEntries(i), tail, rest);
    }
  }

  lemma MapIsFull(p: Maps.MapParams, done: seq<Byte>, rest: Bits)
    requires p.Valid() && |done| == p.size
    ensures Maps.MapRun(p, done, None, rest) == Maps.Complete(done, rest)
  {
  }

  /** A run that is longer than what is left of the map makes no sense, wherever in the map it is. */
  lemma LongRunRefused(p: Maps.MapParams, items: seq<MapItem>, run: MapItem, rest: Bits)
    requires p.Valid() && (forall i | i in items :: ItemFits(p.table, p.maxRun, i))
    requires ItemFits(p.table, p.maxRun, run) && run.Run?
    requires |AllEntries(items)| < p.size < |AllEntries(items)| + |ItemEntries(run)|
    ensures Maps.MapRun(p, [], None, AllItemBits(items) + (ItemBits(run) + rest)).Invalid?
  {
    hide Maps.MapParams.Valid, AllItemBits, AllEntries, Maps.MapRun, ItemFits, ItemBits, ItemEntries;
    assert [] + AllEntries(items) == AllEntries(items);
    ItemsRead(p, [], items, ItemBits(run) + rest);
    RunRefused(p, AllEntries(items), run, rest);
  }

  lemma RunRefused(p: Maps.MapParams, done: seq<Byte>, i: MapItem, rest: Bits)
    requires p.Valid() && ItemFits(p.table, p.maxRun, i) && i.Run? && |done| < p.size < |done| + |ItemEntries(i)|
    ensures Maps.MapRun(p, done, None, ItemBits(i) + rest).Invalid?
  {
    hide Decode, RepresentsCode, Pow2, Value, BitsOf, Maps.ZeroRun;
    var x := BitsOf(i.extra, i.code);
    BitsAssociate(i.word, x, rest);
    DecodeIsStable(p.table, i.word, x + rest);
    assert (i.word + (x + rest))[|i.word|..] == x + rest;
    ValueOfBits(i.extra, i.code);
    assert (x + rest)[..i.code] == x;
  }

  /** One tree for all, or a map for several, written as it is or as what an inverse move to front will turn into it. */
  datatype MapPlan =
    | OneTree
    | SeveralTrees(trees: nat, maxRun: nat, code: CodePlan, items: seq<MapItem>, entries: seq<Byte>, moved: bool)

  ghost function Moved(entries: seq<Byte>): (e: seq<Byte>) {
    MoveToFront.IdentityIsAll();
    MoveToFront.Forward(MoveToFront.Identity(), entries)
  }

  ghost predicate MapFits(f: Builder, p: MapPlan, size: nat)
    requires f.Valid()
  {
    match p
    case OneTree => true
    case SeveralTrees(trees, maxRun, code, items, entries, moved) =>
      && 2 <= trees <= 256 && maxRun <= 16 && FitsAlphabet(f, code, trees + maxRun, trees + maxRun)
      && (forall i | i in items :: ItemFits(TableOf(f, code), maxRun, i))
      && |entries| == size && Maps.Below(entries, trees)
      && AllEntries(items) == if moved then Moved(entries) else entries
  }

  function MapOfPlan(p: MapPlan, size: nat): (m: TreeMap) {
    if p.OneTree? then TreeMap(1, Maps.ZeroRun(size)) else TreeMap(p.trees, p.entries)
  }

  function RunBits(maxRun: nat): (b: Bits) {
    if maxRun == 0 then [false] else [true] + BitsOf(maxRun - 1, 4)
  }

  ghost function MapBits(f: Builder, p: MapPlan, size: nat): (b: Bits)
    requires f.Valid() && MapFits(f, p, size)
  {
    match p
    case OneTree => VarLenBits(0)
    case SeveralTrees(trees, maxRun, code, items, entries, moved) =>
      VarLenBits(trees - 1)
      + (RunBits(maxRun) + (CodeBits(f, code, trees + maxRun, trees + maxRun) + (AllItemBits(items) + [moved])))
  }

  lemma MapNumber(f: Builder, size: nat, more: nat, rest: Bits)
    requires f.Valid() && more < 256
    ensures ContextMap(f, size)(VarLenBits(more) + rest) == After(|VarLenBits(more)|, MapOf(f, size, more)(rest))
  {
    hide Builder.Valid, VarLen8, VarLenBits, MapOf, TreeMap.Valid;
    VarLenRead(more, rest);
    assert Tail(VarLenBits(more) + rest, |VarLenBits(more)|) == rest;
  }

  lemma OneTreeRead(f: Builder, size: nat, rest: Bits)
    requires f.Valid()
    ensures MapOf(f, size, 0)(rest) == Got(0, TreeMap(1, Maps.ZeroRun(size)))
  {
    hide Builder.Valid;
  }

  lemma MapRunsRead(f: Builder, size: nat, trees: nat, maxRun: nat, rest: Bits)
    requires f.Valid() && 2 <= trees <= 256 && maxRun <= 16
    ensures MapOf(f, size, trees - 1)(RunBits(maxRun) + rest)
            == After(|RunBits(maxRun)|, MapCode(f, size, trees, maxRun)(rest))
  {
    hide Builder.Valid, PlainBits, MapCode, TreeMap.Valid, BitsOf, Pow2;
    EightPowers();
    if maxRun == 0 {
      OneBitRead(false, rest);
    } else {
      assert RunBits(maxRun) + rest == [true] + (BitsOf(maxRun - 1, 4) + rest);
      OneBitRead(true, BitsOf(maxRun - 1, 4) + rest);
      PlainBitsRead(maxRun - 1, 4, rest);
    }
  }

  lemma MapCodeRead(f: Builder, size: nat, trees: nat, maxRun: nat, w: Bits, t: Table, rest: Bits)
    requires f.Valid() && 2 <= trees <= 256 && maxRun <= 16
    requires PrefixCode(f, trees + maxRun, trees + maxRun)(w + rest) == Got(|w|, t)
    ensures SymbolsBelow(t, trees + maxRun)
    ensures MapCode(f, size, trees, maxRun)(w + rest) == After(|w|, MapEntries(t, size, trees, maxRun)(rest))
  {
    hide Builder.Valid, PrefixCode, SymbolsBelow, MapEntries, TreeMap.Valid;
    assert Tail(w + rest, |w|) == rest;
  }

  lemma MapEntriesRead(table: Table, size: nat, trees: nat, maxRun: nat, items: seq<MapItem>, rest: Bits)
    requires 2 <= trees <= 256 && maxRun <= 16 && SymbolsBelow(table, trees + maxRun)
    requires (forall i | i in items :: ItemFits(table, maxRun, i)) && |AllEntries(items)| == size
    ensures Maps.Below(AllEntries(items), trees)
    ensures MapEntries(table, size, trees, maxRun)(AllItemBits(items) + rest)
            == After(|AllItemBits(items)|, MapFlag(size, trees, AllEntries(items))(rest))
  {
    hide SymbolsBelow, MapFlag, TreeMap.Valid, ItemFits, AllItemBits, AllEntries, Maps.MapRun, Maps.Below,
         Maps.MapParams.Valid;
    CodeFits(table, maxRun, trees, size);
    var p := Maps.MapParams(table, maxRun, trees, size);
    assert [] + AllEntries(items) == AllEntries(items);
    ItemsRead(p, [], items, rest);
    MapIsFull(p, AllEntries(items), rest);
    assert Tail(AllItemBits(items) + rest, |AllItemBits(items)|) == rest;
    NothingBelow(trees);
    Maps.CompleteMapIsSound(p, [], None, AllItemBits(items) + rest);
  }

  lemma NothingBelow(n: nat)
    ensures Maps.Below([], n)
  {
  }

  lemma MapFlagRead(size: nat, trees: nat, written: seq<Byte>, moved: bool, rest: Bits)
    requires 2 <= trees <= 256 && |written| == size && Maps.Below(written, trees)
    ensures MapFlag(size, trees, written)([moved] + rest)
            == Got(1, TreeMap(trees, if moved then MoveToFront.Inverse(MoveToFront.Identity(), written) else written))
  {
    hide PlainBits, TreeMap.Valid, MoveToFront.Inverse, Maps.Below;
    OneBitRead(moved, rest);
  }

  /** A context map that has been written is read back, moved to front or not. */
  lemma MapRead(f: Builder, p: MapPlan, size: nat, more: Bits)
    requires f.Valid() && MapFits(f, p, size)
    ensures var w := MapBits(f, p, size);
            ContextMap(f, size)(w + more) == Got(|w|, MapOfPlan(p, size))
  {
    hide Builder.Valid, VarLenBits, RunBits, CodeBits, AllItemBits, AllEntries, ContextMap, MapCode, MapEntries,
         MapFlag, ItemFits, FitsAlphabet, TableOf, SymbolsBelow, MoveToFront.Inverse, MoveToFront.Forward, Maps.Below,
         TreeMap.Valid, PrefixCode, MapOf;
    match p
    case OneTree =>
      MapNumber(f, size, 0, more);
      OneTreeRead(f, size, more);
    case SeveralTrees(trees, maxRun, code, items, entries, moved) =>
      var u, v, x, y := VarLenBits(trees - 1), RunBits(maxRun), CodeBits(f, code, trees + maxRun, trees + maxRun),
        AllItemBits(items);
      assert u + (v + (x + (y + [moved]))) + more == u + (v + (x + (y + ([moved] + more))));
      MapNumber(f, size, trees - 1, v + (x + (y + ([moved] + more))));
      MapRunsRead(f, size, trees, maxRun, x + (y + ([moved] + more)));
      CodeRead(f, code, trees + maxRun, trees + maxRun, y + ([moved] + more));
      MapCodeRead(f, size, trees, maxRun, x, TableOf(f, code), y + ([moved] + more));
      MovedBack(entries);
      MapEntriesRead(TableOf(f, code), size, trees, maxRun, items, [moved] + more);
      MapFlagRead(size, trees, AllEntries(items), moved, more);
  }

  lemma MovedBack(entries: seq<Byte>)
    ensures |Moved(entries)| == |entries| && MoveToFront.Inverse(MoveToFront.Identity(), Moved(entries)) == entries
  {
    hide MoveToFront.Inverse, MoveToFront.Forward, MoveToFront.Identity, MoveToFront.AllBytes;
    MoveToFront.RoundTrip(entries);
  }

  // ---------- All of it ----------

  lemma OneByOne<T>(done: seq<T>, x: T, rest: seq<T>)
    ensures done + [x] + rest == done + ([x] + rest)
  {
  }

  ghost predicate CategoriesFit(f: Builder, ps: seq<CategoryPlan>)
    requires f.Valid()
  {
    forall p | p in ps :: CategoryFits(f, p)
  }

  ghost function CategoriesBits(f: Builder, ps: seq<CategoryPlan>): (b: Bits)
    requires f.Valid() && CategoriesFit(f, ps)
  {
    if ps == [] then [] else CategoryBits(f, ps[0]) + CategoriesBits(f, ps[1..])
  }

  function SwitchingsOf(f: Builder, ps: seq<CategoryPlan>): (types: seq<Switching>)
    ensures |types| == |ps|
  {
    if ps == [] then [] else [SwitchingOf(f, ps[0])] + SwitchingsOf(f, ps[1..])
  }

  lemma CategoriesStep(f: Builder, done: seq<Switching>, w: Bits, c: Switching, rest: Bits)
    requires f.Valid() && |done| < 3 && AllValid(done) && Category(f)(w + rest) == Got(|w|, c)
    ensures AllValid(done + [c])
    ensures Categories(f, done)(w + rest) == After(|w|, Categories(f, done + [c])(rest))
  {
    hide Builder.Valid, Category, Switching.Valid;
    assert Tail(w + rest, |w|) == rest;
  }

  lemma CategoriesEnd(f: Builder, done: seq<Switching>, rest: Bits)
    requires f.Valid() && |done| == 3 && AllValid(done)
    ensures Categories(f, done)(rest) == Got(0, done)
  {
    hide Builder.Valid, Category, Switching.Valid;
  }

  lemma {:induction false} CategoriesRead(f: Builder, done: seq<Switching>, ps: seq<CategoryPlan>, rest: Bits)
    requires f.Valid() && CategoriesFit(f, ps) && |done| + |ps| == 3 && AllValid(done)
    ensures Categories(f, done)(CategoriesBits(f, ps) + rest)
            == Got(|CategoriesBits(f, ps)|, done + SwitchingsOf(f, ps))
    decreases |ps|
  {
    hide Builder.Valid, Category, Switching.Valid, CategoryBits, SwitchingOf, CategoryFits, Categories, AllValid;
    if ps == [] {
      assert done + [] == done && [] + rest == rest;
      CategoriesEnd(f, done, rest);
    } else {
      var w, c, tail := CategoryBits(f, ps[0]), SwitchingOf(f, ps[0]), ps[1..];
      BitsAssociate(w, CategoriesBits(f, tail), rest);
      CategoryRead(f, ps[0], CategoriesBits(f, tail) + rest);
      CategoriesStep(f, done, w, c, CategoriesBits(f, tail) + rest);
      CategoriesRead(f, done + [c], tail, rest);
      OneByOne(done, c, SwitchingsOf(f, tail));
    }
  }

  function ModeBits(modes: seq<nat>): (b: Bits) {
    if modes == [] then [] else BitsOf(modes[0], 2) + ModeBits(modes[1..])
  }

  lemma ModesStep(count: nat, done: seq<nat>, mode: nat, rest: Bits)
    requires |done| < count && AllBelow(done, 4) && mode < 4
    ensures AllBelow(done + [mode], 4)
    ensures ContextModes(count, done)(BitsOf(mode, 2) + rest) == After(2, ContextModes(count, done + [mode])(rest))
  {
    hide PlainBits, BitsOf, Pow2;
    EightPowers();
    PlainBitsRead(mode, 2, rest);
  }

  lemma ModesEnd(done: seq<nat>, rest: Bits)
    requires AllBelow(done, 4)
    ensures ContextModes(|done|, done)(rest) == Got(0, done)
  {
  }

  lemma {:induction false} ModesRead(count: nat, done: seq<nat>, modes: seq<nat>, rest: Bits)
    requires AllBelow(done, 4) && AllBelow(modes, 4) && |done| + |modes| == count
    ensures ContextModes(count, done)(ModeBits(modes) + rest) == Got(|ModeBits(modes)|, done + modes)
    decreases |modes|
  {
    hide PlainBits, BitsOf, Pow2, ContextModes;
    if modes == [] {
      assert done + [] == done && [] + rest == rest;
      ModesEnd(done, rest);
    } else {
      var mode, tail := modes[0], modes[1..];
      assert AllBelow(tail, 4);
      BitsAssociate(BitsOf(mode, 2), ModeBits(tail), rest);
      ModesStep(count, done, mode, ModeBits(tail) + rest);
      ModesRead(count, done + [mode], tail, rest);
      OneByOne(done, mode, tail);
      assert [mode] + tail == modes;
    }
  }

  ghost predicate CodesFit(f: Builder, ps: seq<CodePlan>, alphabet: nat, max: nat) {
    forall p | p in ps :: FitsAlphabet(f, p, alphabet, max)
  }

  ghost function GroupBits(f: Builder, ps: seq<CodePlan>, alphabet: nat, max: nat): (b: Bits)
    requires CodesFit(f, ps, alphabet, max)
  {
    if ps == [] then [] else CodeBits(f, ps[0], alphabet, max) + GroupBits(f, ps[1..], alphabet, max)
  }

  function TablesOf(f: Builder, ps: seq<CodePlan>): (tables: seq<Table>)
    ensures |tables| == |ps|
  {
    if ps == [] then [] else [TableOf(f, ps[0])] + TablesOf(f, ps[1..])
  }

  lemma GroupStep(f: Builder, alphabet: nat, max: nat, count: nat, done: seq<Table>, w: Bits, t: Table, rest: Bits)
    requires f.Valid() && |done| < count && AllCodes(done, max)
    requires PrefixCode(f, alphabet, max)(w + rest) == Got(|w|, t)
    ensures AllCodes(done + [t], max)
    ensures TreeGroup(f, alphabet, max, count, done)(w + rest)
            == After(|w|, TreeGroup(f, alphabet, max, count, done + [t])(rest))
  {
    hide Builder.Valid, PrefixCode, SymbolsBelow;
    assert Tail(w + rest, |w|) == rest;
  }

  lemma GroupEnd(f: Builder, alphabet: nat, max: nat, done: seq<Table>, rest: Bits)
    requires f.Valid() && AllCodes(done, max)
    ensures TreeGroup(f, alphabet, max, |done|, done)(rest) == Got(0, done)
  {
    hide Builder.Valid, PrefixCode, SymbolsBelow;
  }

  lemma {:induction false} GroupRead(
    f: Builder, alphabet: nat, max: nat, count: nat, done: seq<Table>, ps: seq<CodePlan>, rest: Bits)
    requires f.Valid() && CodesFit(f, ps, alphabet, max) && AllCodes(done, max) && |done| + |ps| == count
    ensures TreeGroup(f, alphabet, max, count, done)(GroupBits(f, ps, alphabet, max) + rest)
            == Got(|GroupBits(f, ps, alphabet, max)|, done + TablesOf(f, ps))
    decreases |ps|
  {
    hide Builder.Valid, PrefixCode, AllCodes, CodeBits, TableOf, FitsAlphabet, TreeGroup;
    if ps == [] {
      assert done + [] == done && [] + rest == rest;
      GroupEnd(f, alphabet, max, done, rest);
    } else {
      var tail := ps[1..];
      var t, w, u := TableOf(f, ps[0]), CodeBits(f, ps[0], alphabet, max), GroupBits(f, tail, alphabet, max);
      BitsAssociate(w, u, rest);
      CodeRead(f, ps[0], alphabet, max, u + rest);
      GroupStep(f, alphabet, max, count, done, w, t, u + rest);
      GroupRead(f, alphabet, max, count, done + [t], tail, rest);
      OneByOne(done, t, TablesOf(f, tail));
    }
  }

  /** Everything in front of the commands of a meta-block. */
  datatype TreesPlan = TreesPlan(
    categories: seq<CategoryPlan>, params: Params, modes: seq<nat>, literalMap: MapPlan, distanceMap: MapPlan,
    literals: seq<CodePlan>, commands: seq<CodePlan>, distances: seq<CodePlan>)

  function DistanceSymbols(f: Builder, q: Params): (n: nat) {
    DistanceAlphabet(q, if f.large then LARGE_MAX_DISTANCE_BITS else MAX_DISTANCE_BITS)
  }

  function MapTrees(m: MapPlan): (n: nat) {
    if m.OneTree? then 1 else m.trees
  }

  ghost predicate HeadFits(f: Builder, p: TreesPlan)
    requires f.Valid()
  {
    && |p.categories| == 3 && CategoriesFit(f, p.categories) && p.params.Valid()
    && |p.modes| == Types(f, p)[0].num && AllBelow(p.modes, 4)
    && MapFits(f, p.literalMap, Blocks.LITERAL_CONTEXTS * Types(f, p)[0].num)
    && MapFits(f, p.distanceMap, Blocks.DISTANCE_CONTEXTS * Types(f, p)[2].num)
  }

  function Types(f: Builder, p: TreesPlan): (types: seq<Switching>)
    ensures |types| == |p.categories|
  {
    SwitchingsOf(f, p.categories)
  }

  ghost predicate PlanFits(f: Builder, p: TreesPlan)
    requires f.Valid()
  {
    && HeadFits(f, p)
    && |p.literals| == MapTrees(p.literalMap) && CodesFit(f, p.literals, LITERAL_SYMBOLS, LITERAL_SYMBOLS)
    && |p.commands| == Types(f, p)[1].num && CodesFit(f, p.commands, NUM_COMMAND_SYMBOLS, NUM_COMMAND_SYMBOLS)
    && |p.distances| == MapTrees(p.distanceMap)
    && CodesFit(f, p.distances, DistanceSymbols(f, p.params), DistanceMax(p.params, f.large))
  }

  function LiteralMapOf(f: Builder, p: TreesPlan): (m: TreeMap)
    requires |p.categories| == 3
  {
    MapOfPlan(p.literalMap, Blocks.LITERAL_CONTEXTS * Types(f, p)[0].num)
  }

  function DistanceMapOf(f: Builder, p: TreesPlan): (m: TreeMap)
    requires |p.categories| == 3
  {
    MapOfPlan(p.distanceMap, Blocks.DISTANCE_CONTEXTS * Types(f, p)[2].num)
  }

  /** What is to be read. */
  function GroupsOfPlan(f: Builder, p: TreesPlan): (g: Groups)
    requires |p.categories| == 3
  {
    var types := Types(f, p);
    Groups.Groups(types[0], types[1], types[2], p.params, p.modes, LiteralMapOf(f, p).entries,
                  TablesOf(f, p.literals), TablesOf(f, p.commands), DistanceMapOf(f, p).entries,
                  TablesOf(f, p.distances))
  }

  // The parts in the order of the stream.

  /** The postfix bits, and the number of direct codes in units of a whole postfix. */
  function ParamsBits(q: Params): (b: Bits) {
    BitsOf(q.npostfix, 2) + BitsOf(q.ndirect / Pow2(q.npostfix), 4)
  }

  ghost function LiteralMapBits(f: Builder, p: TreesPlan): (b: Bits)
    requires f.Valid() && HeadFits(f, p)
  {
    hide Builder.Valid, MapFits, CategoriesFit;
    MapBits(f, p.literalMap, Blocks.LITERAL_CONTEXTS * Types(f, p)[0].num)
  }

  ghost function DistanceMapBits(f: Builder, p: TreesPlan): (b: Bits)
    requires f.Valid() && HeadFits(f, p)
  {
    hide Builder.Valid, MapFits, CategoriesFit;
    MapBits(f, p.distanceMap, Blocks.DISTANCE_CONTEXTS * Types(f, p)[2].num)
  }

  ghost function HeadBits(f: Builder, p: TreesPlan): (b: Bits)
    requires f.Valid() && HeadFits(f, p)
  {
    hide Builder.Valid, MapFits, Params.Valid;
    CategoriesBits(f, p.categories)
    + (ParamsBits(p.params) + (ModeBits(p.modes) + (LiteralMapBits(f, p) + DistanceMapBits(f, p))))
  }

  ghost function LiteralTreeBits(f: Builder, p: TreesPlan): (b: Bits)
    requires f.Valid() && PlanFits(f, p)
  {
    hide Builder.Valid, HeadFits, DistanceMax;
    GroupBits(f, p.literals, LITERAL_SYMBOLS, LITERAL_SYMBOLS)
  }

  ghost function CommandTreeBits(f: Builder, p: TreesPlan): (b: Bits)
    requires f.Valid() && PlanFits(f, p)
  {
    hide Builder.Valid, HeadFits, DistanceMax;
    GroupBits(f, p.commands, NUM_COMMAND_SYMBOLS, NUM_COMMAND_SYMBOLS)
  }

  ghost function DistanceTreeBits(f: Builder, p: TreesPlan): (b: Bits)
    requires f.Valid() && PlanFits(f, p)
  {
    hide Builder.Valid, HeadFits;
    GroupBits(f, p.distances, DistanceSymbols(f, p.params), DistanceMax(p.params, f.large))
  }

  ghost function TreesBits(f: Builder, p: TreesPlan): (b: Bits)
    requires f.Valid() && PlanFits(f, p)
  {
    hide Builder.Valid, HeadFits, CodesFit, DistanceMax;
    HeadBits(f, p) + (LiteralTreeBits(f, p) + (CommandTreeBits(f, p) + DistanceTreeBits(f, p)))
  }

  // One part after the other.

  lemma ParamsRead(q: Params, rest: Bits)
    requires q.Valid()
    ensures var r := PlainBits(6)(ParamsBits(q) + rest);
            r.Got? && r.n == 6 && r.value < 64 && ParamsOf(r.value) == q
    ensures Tail(ParamsBits(q) + rest, 6) == rest
  {
    hide BitsOf, Value;
    var x :| 0 <= x <= 15 && q.ndirect == x * Pow2(q.npostfix);
    DivModUnique(q.ndirect, Pow2(q.npostfix), x, 0);
    EightPowers();
    ValueOfBits(q.npostfix, 2);
    ValueOfBits(x, 4);
    ValueConcat(BitsOf(q.npostfix, 2), BitsOf(x, 4));
    assert (ParamsBits(q) + rest)[..6] == ParamsBits(q);
  }

  lemma TypesStage(f: Builder, w: Bits, types: seq<Switching>, rest: Bits)
    requires f.Valid() && Categories(f, [])(w + rest) == Got(|w|, types)
    ensures |types| == 3 && AllValid(types)
    ensures MetablockTrees(f)(w + rest) == After(|w|, AfterTypes(f, types)(rest))
  {
    hide Builder.Valid, Categories, Groups.Valid, Switching.Valid, AfterTypes;
    assert Tail(w + rest, |w|) == rest;
  }

  lemma ParamsStage(f: Builder, types: seq<Switching>, q: Params, v: nat, rest: Bits)
    requires f.Valid() && |types| == 3 && AllValid(types) && q.Valid() && v < 64
    requires PlainBits(6)(ParamsBits(q) + rest) == Got(6, v) && Tail(ParamsBits(q) + rest, 6) == rest
    ensures AfterTypes(f, types)(ParamsBits(q) + rest) == After(6, AfterSizes(f, types, v)(rest))
  {
    hide Builder.Valid, PlainBits, Pow2, Groups.Valid, AllValid, AfterSizes, ParamsBits, Params.Valid;
  }

  lemma ModesStage(f: Builder, types: seq<Switching>, v: nat, w: Bits, modes: seq<nat>, h: Head, rest: Bits)
    requires f.Valid() && |types| == 3 && AllValid(types) && v < 64
    requires ContextModes(types[0].num, [])(w + rest) == Got(|w|, modes)
    requires h == Head(types, ParamsOf(v), modes, TreeMap(1, []), TreeMap(1, []))
    ensures h.Moded() && AfterSizes(f, types, v)(w + rest) == After(|w|, AfterModes(f, h)(rest))
  {
    hide Builder.Valid, ContextModes, Groups.Valid, AllValid, ParamsOf, Params.Valid, AfterModes;
    assert Tail(w + rest, |w|) == rest;
  }

  lemma LiteralMapStage(f: Builder, h: Head, w: Bits, m: TreeMap, rest: Bits)
    requires f.Valid() && h.Moded() && ContextMap(f, Blocks.LITERAL_CONTEXTS * FirstNum(h))(w + rest) == Got(|w|, m)
    ensures h.(literalMap := m).Mapped()
    ensures AfterModes(f, h)(w + rest) == After(|w|, AfterLiteralMap(f, h.(literalMap := m))(rest))
  {
    hide Builder.Valid, ContextMap, Groups.Valid, TreeMap.Valid, AllValid, Params.Valid, AfterLiteralMap;
    assert Tail(w + rest, |w|) == rest;
  }

  lemma DistanceMapStage(f: Builder, h: Head, w: Bits, m: TreeMap, rest: Bits)
    requires f.Valid() && h.Mapped()
    requires ContextMap(f, Blocks.DISTANCE_CONTEXTS * h.types[2].num)(w + rest) == Got(|w|, m)
    ensures h.(distanceMap := m).Valid()
    ensures AfterLiteralMap(f, h)(w + rest) == After(|w|, LiteralTrees(f, h.(distanceMap := m))(rest))
  {
    hide Builder.Valid, ContextMap, Groups.Valid, TreeMap.Valid, AllValid, Params.Valid, LiteralTrees;
    assert Tail(w + rest, |w|) == rest;
  }

  lemma LiteralTreesStage(f: Builder, h: Head, w: Bits, ts: seq<Table>, rest: Bits)
    requires f.Valid() && h.Valid() && AllCodes([], LITERAL_SYMBOLS)
    requires TreeGroup(f, LITERAL_SYMBOLS, LITERAL_SYMBOLS, h.literalMap.trees, [])(w + rest) == Got(|w|, ts)
    ensures |ts| == h.literalMap.trees && AllCodes(ts, LITERAL_SYMBOLS)
    ensures LiteralTrees(f, h)(w + rest) == After(|w|, CommandTrees(f, h, ts)(rest))
  {
    hide Builder.Valid, TreeGroup, Groups.Valid, Head.Valid, CommandTrees, SymbolsBelow;
    assert Tail(w + rest, |w|) == rest;
  }

  /** Groups of trees that fit the numbers in front of them. */
  ghost predicate GroupsFit(h: Head, literals: seq<Table>, commands: seq<Table>) {
    && h.Valid() && |literals| == h.literalMap.trees && AllCodes(literals, LITERAL_SYMBOLS)
    && |commands| == h.types[1].num && AllCodes(commands, NUM_COMMAND_SYMBOLS)
  }

  lemma CommandTreesStage(f: Builder, h: Head, literals: seq<Table>, num: nat, w: Bits, ts: seq<Table>, rest: Bits)
    requires f.Valid() && h.Valid() && |literals| == h.literalMap.trees && AllCodes(literals, LITERAL_SYMBOLS)
    requires AllCodes([], NUM_COMMAND_SYMBOLS) && |h.types| == 3 && num == h.types[1].num
    requires TreeGroup(f, NUM_COMMAND_SYMBOLS, NUM_COMMAND_SYMBOLS, num, [])(w + rest) == Got(|w|, ts)
    ensures GroupsFit(h, literals, ts)
    ensures CommandTrees(f, h, literals)(w + rest) == After(|w|, DistanceTrees(f, h, literals, ts)(rest))
  {
    hide Builder.Valid, TreeGroup, Groups.Valid, Head.Valid, AllCodes, DistanceTrees;
    assert Tail(w + rest, |w|) == rest;
  }

  lemma DistanceTreesStage(f: Builder, h: Head, literals: seq<Table>, commands: seq<Table>, alphabet: nat, max: nat,
                           w: Bits, ts: seq<Table>, rest: Bits)
    requires f.Valid() && GroupsFit(h, literals, commands) && h.params.Valid() && |h.types| == 3
    requires alphabet == DistanceSymbols(f, h.params) && max == DistanceMax(h.params, f.large) && AllCodes([], max)
    requires TreeGroup(f, alphabet, max, h.distanceMap.trees, [])(w + rest) == Got(|w|, ts)
    ensures DistanceTrees(f, h, literals, commands)(w + rest) == Got(|w|, GroupsOf(h, literals, commands, ts))
  {
    hide Builder.Valid, TreeGroup, Groups.Valid, Head.Valid, AllCodes, DistanceMax, DistanceAlphabet, Params.Valid,
         BrotliMaxDistanceSymbol;
    assert Tail(w + rest, |w|) == rest;
  }

  // The whole.

  function HeadOf(f: Builder, p: TreesPlan): (h: Head)
    requires |p.categories| == 3
  {
    Head(Types(f, p), p.params, p.modes, LiteralMapOf(f, p), DistanceMapOf(f, p))
  }

  /** Block types, distance parameters and context modes. */
  lemma ModesOfPlan(f: Builder, p: TreesPlan, h: Head, w: Bits, rest: Bits)
    requires f.Valid() && HeadFits(f, p)
    requires h == Head(Types(f, p), p.params, p.modes, TreeMap(1, []), TreeMap(1, []))
    requires w == CategoriesBits(f, p.categories) + (ParamsBits(p.params) + ModeBits(p.modes))
    ensures h.Moded() && MetablockTrees(f)(w + rest) == After(|w|, AfterModes(f, h)(rest))
  {
    hide Builder.Valid, CategoriesFit, CategoriesBits, MapFits, Params.Valid, ParamsBits, ModeBits, MetablockTrees,
         Categories, ContextModes, AfterTypes, AfterSizes, AfterModes, AllBelow, PlainBits, ParamsOf, AllValid;
    var u, v, x, types := CategoriesBits(f, p.categories), ParamsBits(p.params), ModeBits(p.modes), Types(f, p);
    assert u + (v + x) + rest == u + (v + (x + rest));
    NoneYet();
    CategoriesRead(f, [], p.categories, v + (x + rest));
    assert [] + types == types && [] + p.modes == p.modes;
    TypesStage(f, u, types, v + (x + rest));
    ParamsRead(p.params, x + rest);
    var n := PlainBits(6)(v + (x + rest)).value;
    ParamsStage(f, types, p.params, n, x + rest);
    ModesRead(|p.modes|, [], p.modes, rest);
    ModesStage(f, types, n, x, p.modes, h, rest);
  }

  lemma NoneYet()
    ensures AllValid([]) && AllBelow([], 4)
  {
  }

  lemma LiteralMapRead(f: Builder, p: TreesPlan, rest: Bits)
    requires f.Valid() && HeadFits(f, p)
    ensures ContextMap(f, Blocks.LITERAL_CONTEXTS * Types(f, p)[0].num)(LiteralMapBits(f, p) + rest)
            == Got(|LiteralMapBits(f, p)|, LiteralMapOf(f, p))
  {
    hide Builder.Valid, CategoriesFit, MapFits, Params.Valid, ContextMap, MapBits, MapOfPlan, AllBelow, Types;
    MapRead(f, p.literalMap, Blocks.LITERAL_CONTEXTS * Types(f, p)[0].num, rest);
  }

  lemma DistanceMapRead(f: Builder, p: TreesPlan, rest: Bits)
    requires f.Valid() && HeadFits(f, p)
    ensures ContextMap(f, Blocks.DISTANCE_CONTEXTS * Types(f, p)[2].num)(DistanceMapBits(f, p) + rest)
            == Got(|DistanceMapBits(f, p)|, DistanceMapOf(f, p))
  {
    hide Builder.Valid, CategoriesFit, MapFits, Params.Valid, ContextMap, MapBits, MapOfPlan, AllBelow, Types;
    MapRead(f, p.distanceMap, Blocks.DISTANCE_CONTEXTS * Types(f, p)[2].num, rest);
  }

  lemma HeadParts(u: Bits, v: Bits, x: Bits, y: Bits, z: Bits, rest: Bits)
    ensures u + (v + (x + (y + z))) + rest == u + (v + x) + (y + (z + rest))
  {
  }

  /** And the context maps. */
  lemma HeadRead(f: Builder, p: TreesPlan, rest: Bits)
    requires f.Valid() && HeadFits(f, p)
    ensures |p.categories| == 3 && HeadOf(f, p).Valid()
    ensures MetablockTrees(f)(HeadBits(f, p) + rest) == After(|HeadBits(f, p)|, LiteralTrees(f, HeadOf(f, p))(rest))
  {
    hide Builder.Valid, CategoriesFit, CategoriesBits, MapFits, Params.Valid, ParamsBits, ModeBits, MetablockTrees,
         AfterModes, AfterLiteralMap, LiteralTrees, AllBelow, LiteralMapBits, DistanceMapBits, Head.Moded, Head.Mapped,
         Head.Valid, ContextMap, LiteralMapOf, DistanceMapOf, Types;
    var u, v, x := CategoriesBits(f, p.categories), ParamsBits(p.params), ModeBits(p.modes);
    var y, z := LiteralMapBits(f, p), DistanceMapBits(f, p);
    var h := Head(Types(f, p), p.params, p.modes, TreeMap(1, []), TreeMap(1, []));
    var m, w := LiteralMapOf(f, p), u + (v + x);
    HeadParts(u, v, x, y, z, rest);
    ModesOfPlan(f, p, h, w, y + (z + rest));
    LiteralMapRead(f, p, z + rest);
    LiteralMapStage(f, h, y, m, z + rest);
    DistanceMapRead(f, p, rest);
    DistanceMapStage(f, h.(literalMap := m), z, DistanceMapOf(f, p), rest);
  }

  lemma GroupsRead(f: Builder, p: TreesPlan, h: Head, rest: Bits)
    requires f.Valid() && PlanFits(f, p) && h == HeadOf(f, p) && h.Valid()
    ensures var w := LiteralTreeBits(f, p) + (CommandTreeBits(f, p) + DistanceTreeBits(f, p));
            LiteralTrees(f, h)(w + rest) == Got(|w|, GroupsOfPlan(f, p))
  {
    hide Builder.Valid, Head.Valid, TreeGroup, GroupBits, CodesFit, TablesOf, LiteralTrees, CommandTrees, DistanceTrees,
         AllCodes, Params.Valid, DistanceSymbols, DistanceMax, Types, CategoriesFit, MapFits, MapOfPlan;
    var x, y, z := LiteralTreeBits(f, p), CommandTreeBits(f, p), DistanceTreeBits(f, p);
    var alphabet, max := DistanceSymbols(f, p.params), DistanceMax(p.params, f.large);
    ThreeParts(x, y, z, rest);
    var literals, commands, distances := TablesOf(f, p.literals), TablesOf(f, p.commands), TablesOf(f, p.distances);
    LiteralGroupRead(f, p, h, y + (z + rest));
    LiteralTreesStage(f, h, x, literals, y + (z + rest));
    NoCodes(NUM_COMMAND_SYMBOLS);
    GroupRead(f, NUM_COMMAND_SYMBOLS, NUM_COMMAND_SYMBOLS, |p.commands|, [], p.commands, z + rest);
    assert [] + commands == commands;
    CommandTreesStage(f, h, literals, |p.commands|, y, commands, z + rest);
    DistanceGroupRead(f, p, h, alphabet, max, rest);
    DistanceTreesStage(f, h, literals, commands, alphabet, max, z, distances, rest);
  }

  lemma ThreeParts(x: Bits, y: Bits, z: Bits, rest: Bits)
    ensures x + (y + z) + rest == x + (y + (z + rest))
  {
  }

  lemma LiteralGroupRead(f: Builder, p: TreesPlan, h: Head, rest: Bits)
    requires f.Valid() && PlanFits(f, p) && h == HeadOf(f, p)
    ensures AllCodes([], LITERAL_SYMBOLS)
    ensures TreeGroup(f, LITERAL_SYMBOLS, LITERAL_SYMBOLS, h.literalMap.trees, [])(LiteralTreeBits(f, p) + rest)
            == Got(|LiteralTreeBits(f, p)|, TablesOf(f, p.literals))
  {
    hide Builder.Valid, TreeGroup, GroupBits, CodesFit, TablesOf, AllCodes, Params.Valid, DistanceMax, Types, HeadFits;
    NoCodes(LITERAL_SYMBOLS);
    GroupRead(f, LITERAL_SYMBOLS, LITERAL_SYMBOLS, |p.literals|, [], p.literals, rest);
    assert [] + TablesOf(f, p.literals) == TablesOf(f, p.literals);
  }

  lemma DistanceGroupRead(f: Builder, p: TreesPlan, h: Head, alphabet: nat, max: nat, rest: Bits)
    requires f.Valid() && PlanFits(f, p) && h == HeadOf(f, p)
    requires alphabet == DistanceSymbols(f, p.params) && max == DistanceMax(p.params, f.large)
    ensures AllCodes([], max)
    ensures TreeGroup(f, alphabet, max, h.distanceMap.trees, [])(DistanceTreeBits(f, p) + rest)
            == Got(|DistanceTreeBits(f, p)|, TablesOf(f, p.distances))
  {
    hide Builder.Valid, TreeGroup, GroupBits, CodesFit, TablesOf, AllCodes, Params.Valid, DistanceMax, DistanceSymbols,
         Types, HeadFits;
    NoCodes(max);
    GroupRead(f, alphabet, max, |p.distances|, [], p.distances, rest);
    assert [] + TablesOf(f, p.distances) == TablesOf(f, p.distances);
  }

  /**
   * What has been written in front of the commands of a meta-block is what is read, whatever follows: the block types
   * with their codes and first counts, the distance parameters, the context modes, both context maps and all trees.
   */
  lemma TreesRoundTrip(f: Builder, p: TreesPlan, more: Bits)
    requires f.Valid() && PlanFits(f, p)
    ensures var w := TreesBits(f, p);
            MetablockTrees(f)(w + more) == Got(|w|, GroupsOfPlan(f, p))
  {
    hide Builder.Valid, HeadFits, CodesFit, MetablockTrees, HeadBits, LiteralTreeBits, CommandTreeBits,
         DistanceTreeBits, LiteralTrees, GroupsOfPlan, Head.Valid, HeadOf;
    var w := LiteralTreeBits(f, p) + (CommandTreeBits(f, p) + DistanceTreeBits(f, p));
    BitsAssociate(HeadBits(f, p), w, more);
    HeadRead(f, p, w + more);
    GroupsRead(f, p, HeadOf(f, p), more);
  }

  /** So the reader that the decoder is given finds them, and nothing else. */
  lemma TreesFound(f: Builder, p: TreesPlan, more: Bits)
    requires f.Valid() && PlanFits(f, p)
    ensures |p.categories| == 3 && GroupsOfPlan(f, p).Valid()
    ensures TreesReader(f)(TreesBits(f, p) + more) == Some((|TreesBits(f, p)|, Some(GroupsOfPlan(f, p))))
  {
    hide Builder.Valid, PlanFits, CodesFit, MetablockTrees, TreesBits, GroupsOfPlan, Groups.Valid, SoonestInvalid;
    PlanParts(f, p);
    TreesRoundTrip(f, p, more);
  }

  lemma PlanParts(f: Builder, p: TreesPlan)
    requires f.Valid() && PlanFits(f, p)
    ensures |p.categories| == 3
  {
  }

  /** There always is something to write: one symbol for everything. */
  function PlainPlan(): (p: TreesPlan) {
    var code := SimplePlan([0], false);
    TreesPlan([OneType, OneType, OneType], Params(0, 0), [0], OneTree, OneTree, [code], [code], [code])
  }

  lemma PlainPlanFits(f: Builder)
    requires f.Valid()
    ensures PlanFits(f, PlainPlan())
  {
    hide Builder.Valid, Pow2, BitLength;
    var p := PlainPlan();
    assert SwitchingsOf(f, p.categories[2..])[0].num == 1;
    assert SwitchingsOf(f, p.categories[1..])[0].num == 1;
    assert 0 == 0 * Pow2(0);
  }
}
