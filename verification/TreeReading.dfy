/**
 * The prefix codes of a meta-block, from the numbers of block types to the last tree (section 9.2 of RFC 7932): simple
 * and complex codes, block counts, context modes and context maps, and the three groups of trees. All of it together
 * depends on the bits it takes and on no others, so that it may be read in any portions.
 */
module TreeReading {
  import opened Bytes
  import opened Results
  import opened BitReader
  import opened SymbolDecoding
  import opened Distances
  import opened BitDecoder
  import opened CommandPrefixes
  import opened CommandSpec
  import opened Parsers
  import Blocks = BlockTypes
  import CodeLengths
  import DistanceReading
  import Lengths = CodeLengthLoops
  import LengthCode = CodeLengthCode
  import Maps = ContextMap
  import MoveToFront

  type Table = seq<HuffmanCode>

  const LITERAL_SYMBOLS := 256
  const COUNT_SYMBOLS := 26
  const MAX_DISTANCE_BITS := 24
  const LARGE_MAX_DISTANCE_BITS := 62

  // ---------- Prefix codes ----------

  /** Who builds the tables, and for what kind of window. */
  datatype Builder = Builder(
    lengthTable: seq<nat> -> Table, table: seq<nat> -> Table, simpleTable: (seq<nat>, bool) -> Table, large: bool) {

    /** For lengths that use up the code space, and for the few symbols of a simple code, the tables represent codes. */
    ghost predicate Valid() {
      && (forall lengths: seq<nat> | |lengths| == LengthCode.CODE_LENGTH_CODES && LengthCode.Acceptable(lengths) ::
            Lengths.RepresentsLengths(lengthTable(lengths)))
      && (forall lengths: seq<nat>, n: nat | |lengths| <= n && Lengths.Complete(lengths) ::
            SymbolsBelow(table(lengths), n))
      && (forall symbols: seq<nat>, deep: bool, n: nat | 1 <= |symbols| <= 4 && AllBelow(symbols, n) ::
            SymbolsBelow(simpleTable(symbols, deep), n))
    }
  }

  predicate AllBelow(symbols: seq<nat>, n: nat) {
    forall k | 0 <= k < |symbols| :: symbols[k] < n
  }

  predicate Distinct(symbols: seq<nat>) {
    forall i, j | 0 <= i < j < |symbols| :: symbols[i] != symbols[j]
  }

  /** How many bits a number takes. */
  function BitLength(x: nat): (n: nat) {
    if x == 0 then 0 else 1 + BitLength(x / 2)
  }

  /** As many as are needed for it, and no more. */
  lemma {:induction false} BitLengthIsLeast(x: nat, n: nat)
    ensures BitLength(x) <= n <==> x < Pow2(n)
  {
    if x > 0 {
      if n > 0 {
        BitLengthIsLeast(x / 2, n - 1);
      }
    }
  }

  /** The first two bits are 1 for a simple code, or how many lengths of the code length code are left out. */
  function PrefixCode(f: Builder, alphabet: nat, max: nat): (r: Parser<Table>)
    requires f.Valid()
    ensures forall b | r(b).Got? :: SymbolsBelow(r(b).value, max)
  {
    hide Builder.Valid, SymbolsBelow, Pow2, PlainBits;
    EightPowers();
    Bind<nat, Table>(PlainBits(2), (v: nat) requires v < 4 => CodeOf(f, alphabet, max, v))
  }

  function CodeOf(f: Builder, alphabet: nat, max: nat, kind: nat): (r: Parser<Table>)
    requires f.Valid() && kind < 4
    ensures forall b | r(b).Got? :: SymbolsBelow(r(b).value, max)
  {
    hide Builder.Valid, SymbolsBelow;
    if kind == 1 then SimpleCode(f, alphabet, max) else ComplexCode(f, kind, max)
  }

  /** A simple code: how many symbols, and then the symbols themselves. */
  function SimpleCode(f: Builder, alphabet: nat, max: nat): (r: Parser<Table>)
    requires f.Valid()
    ensures forall b | r(b).Got? :: SymbolsBelow(r(b).value, max)
  {
    hide Builder.Valid, SymbolsBelow, Pow2, PlainBits;
    EightPowers();
    var width := BitLength(Max(0, alphabet - 1));
    Bind<nat, Table>(PlainBits(2), (v: nat) requires v < 4 => SimpleSymbols(f, width, max, v + 1, []))
  }

  function SimpleSymbols(f: Builder, width: nat, max: nat, count: nat, symbols: seq<nat>): (r: Parser<Table>)
    requires f.Valid() && 1 <= count <= 4 && |symbols| <= count && AllBelow(symbols, max)
    ensures forall b | r(b).Got? :: SymbolsBelow(r(b).value, max)
    decreases count - |symbols|, 1
  {
    hide Builder.Valid, SymbolsBelow, PlainBits;
    if |symbols| < count then Bind<nat, Table>(PlainBits(width), (v: nat) => OneMore(f, width, max, count, symbols, v))
    else if Distinct(symbols) then SimpleShape(f, max, symbols)
    else Refuse<Table>()
  }

  function OneMore(f: Builder, width: nat, max: nat, count: nat, symbols: seq<nat>, v: nat): (r: Parser<Table>)
    requires f.Valid() && 1 <= count <= 4 && |symbols| < count && AllBelow(symbols, max)
    ensures forall b | r(b).Got? :: SymbolsBelow(r(b).value, max)
    decreases count - |symbols|, 0
  {
    hide Builder.Valid, SymbolsBelow;
    if v >= max then Refuse<Table>() else SimpleSymbols(f, width, max, count, symbols + [v])
  }

  /** Four symbols may have lengths that are all the same or all different. */
  function SimpleShape(f: Builder, max: nat, symbols: seq<nat>): (r: Parser<Table>)
    requires f.Valid() && 1 <= |symbols| <= 4 && AllBelow(symbols, max)
    ensures forall b | r(b).Got? :: SymbolsBelow(r(b).value, max)
  {
    hide Builder.Valid, SymbolsBelow, PlainBits;
    if |symbols| < 4 then SimpleTable(f, max, symbols, 0)
    else Bind<nat, Table>(PlainBits(1), (v: nat) => SimpleTable(f, max, symbols, v))
  }

  function SimpleTable(f: Builder, max: nat, symbols: seq<nat>, flag: nat): (r: Parser<Table>)
    requires f.Valid() && 1 <= |symbols| <= 4 && AllBelow(symbols, max)
    ensures forall b | r(b).Got? :: SymbolsBelow(r(b).value, max)
  {
    hide SymbolsBelow;
    Return<Table>(f.simpleTable(symbols, flag != 0))
  }

  /** A complex code: the lengths of the code length code, and then the lengths themselves. */
  function ComplexCode(f: Builder, skip: nat, max: nat): (r: Parser<Table>)
    requires f.Valid() && skip < 4
    ensures forall b | r(b).Got? :: SymbolsBelow(r(b).value, max)
  {
    hide SymbolsBelow, Lengths.RepresentsLengths, LengthCode.Acceptable;
    Bind<seq<nat>, Table>(
      LengthLengths(skip),
      (lengths: seq<nat>) requires |lengths| == LengthCode.CODE_LENGTH_CODES && LengthCode.Acceptable(lengths) =>
        SymbolLengths(f, f.lengthTable(lengths), max))
  }

  function NoLengths(skip: nat): (p: LengthCode.Progress) {
    LengthCode.Progress(skip, seq(LengthCode.CODE_LENGTH_CODES, _ => 0))
  }

  function LengthLengthsAt(skip: nat, b: Bits): (r: Got<seq<nat>>)
    requires skip < 4
    ensures r.Got? ==> |r.value| == LengthCode.CODE_LENGTH_CODES && LengthCode.Acceptable(r.value)
  {
    hide LengthCode.Acceptable;
    match LengthCode.Read(NoLengths(skip), b)
    case Incomplete => Lacking
    case Done(lengths, rest) =>
      LengthCode.ReadingAgrees(NoLengths(skip), b, b);
      if LengthCode.Acceptable(lengths) then Got(|b| - |rest|, lengths) else Invalid
  }

  lemma LengthLengthsAgree(skip: nat, b: Bits, c: Bits)
    requires skip < 4
    ensures Agrees(LengthLengthsAt(skip, b), LengthLengthsAt(skip, c), b, c)
  {
    hide LengthCode.Acceptable, LengthCode.Read;
    if LengthCode.Read(NoLengths(skip), b).Done? {
      LengthCode.ReadingAgrees(NoLengths(skip), b, c);
      var n := |b| - |LengthCode.Read(NoLengths(skip), b).rest|;
      if b <= c {
        SplitPrefix(b, c, n, |b|);
      }
      if b[..n] <= c {
        LengthCode.ReadingAgrees(NoLengths(skip), c, c);
      }
    }
  }

  function LengthLengths(skip: nat): (r: Parser<seq<nat>>)
    requires skip < 4
    ensures forall b | r(b).Got? ::
              |r(b).value| == LengthCode.CODE_LENGTH_CODES && LengthCode.Acceptable(r(b).value)
  {
    hide LengthLengthsAt, LengthCode.Acceptable;
    LengthLengthsSteady(skip);
    b => LengthLengthsAt(skip, b)
  }

  lemma LengthLengthsSteady(skip: nat)
    requires skip < 4
    ensures Steady((b: Bits) => LengthLengthsAt(skip, b))
  {
    hide LengthLengthsAt;
    forall b, c
      ensures Agrees(LengthLengthsAt(skip, b), LengthLengthsAt(skip, c), b, c)
    {
      LengthLengthsAgree(skip, b, c);
    }
  }

  function SymbolLengthsAt(f: Builder, table: Table, max: nat, b: Bits): (r: Got<Table>)
    requires f.Valid() && Lengths.RepresentsLengths(table)
    ensures r.Got? ==> SymbolsBelow(r.value, max)
  {
    hide Lengths.RepresentsLengths, SymbolsBelow, Lengths.Complete, CodeLengths.Expand;
    match Lengths.ReadLengths(table, max, [], b)
    case Incomplete => Lacking
    case Invalid => Invalid
    case Done(tokens, rest) =>
      Lengths.ReadingAgrees(table, max, [], b, b);
      Got(|b| - |rest|, f.table(CodeLengths.Expand(tokens)))
  }

  lemma SymbolLengthsAgree(f: Builder, table: Table, max: nat, b: Bits, c: Bits)
    requires f.Valid() && Lengths.RepresentsLengths(table)
    ensures Agrees(SymbolLengthsAt(f, table, max, b), SymbolLengthsAt(f, table, max, c), b, c)
  {
    hide Lengths.RepresentsLengths, SymbolsBelow, Lengths.Complete, CodeLengths.Expand, Lengths.ReadLengths,
         Builder.Valid;
    var r := Lengths.ReadLengths(table, max, [], b);
    if r.Done? {
      Lengths.ReadingAgrees(table, max, [], b, c);
    } else if r.Invalid? && b <= c {
      Lengths.ReadingIsStable(table, max, [], b, c[|b|..]);
      assert b + c[|b|..] == c;
    }
  }

  function SymbolLengths(f: Builder, table: Table, max: nat): (r: Parser<Table>)
    requires f.Valid() && Lengths.RepresentsLengths(table)
    ensures forall b | r(b).Got? :: SymbolsBelow(r(b).value, max)
  {
    hide Builder.Valid, SymbolLengthsAt, SymbolsBelow, Lengths.RepresentsLengths;
    SymbolLengthsSteady(f, table, max);
    b => SymbolLengthsAt(f, table, max, b)
  }

  lemma SymbolLengthsSteady(f: Builder, table: Table, max: nat)
    requires f.Valid() && Lengths.RepresentsLengths(table)
    ensures Steady((b: Bits) => SymbolLengthsAt(f, table, max, b))
  {
    hide Builder.Valid, SymbolLengthsAt, Lengths.RepresentsLengths;
    forall b, c
      ensures Agrees(SymbolLengthsAt(f, table, max, b), SymbolLengthsAt(f, table, max, c), b, c)
    {
      SymbolLengthsAgree(f, table, max, b, c);
    }
  }

  // ---------- Block types ----------

  /** How many block types, and if there are several, the codes of the switches and the first count. */
  function Category(f: Builder): (r: Parser<Switching>)
    requires f.Valid()
    ensures forall b | r(b).Got? :: r(b).value.Valid()
  {
    hide Builder.Valid, Switching.Valid, VarLen8;
    Bind<nat, Switching>(VarLen8(), (v: nat) requires v < 256 => CategoryOf(f, v))
  }

  function CategoryOf(f: Builder, more: nat): (r: Parser<Switching>)
    requires f.Valid() && more < 256
    ensures forall b | r(b).Got? :: r(b).value.Valid()
  {
    hide Builder.Valid, SymbolsBelow, PrefixCode;
    var num := more + 1;
    if num < 2 then Return<Switching>(Switching(1, [], [], FULL_COUNT))
    else
      Bind<Table, Switching>(
        PrefixCode(f, num + 2, num + 2),
        (types: Table) requires SymbolsBelow(types, num + 2) => CategoryCounts(f, num, types))
  }

  function CategoryCounts(f: Builder, num: nat, types: Table): (r: Parser<Switching>)
    requires f.Valid() && 2 <= num <= 256 && SymbolsBelow(types, num + 2)
    ensures forall b | r(b).Got? :: r(b).value.Valid()
  {
    hide Builder.Valid, SymbolsBelow, PrefixCode, Switching.Valid;
    Bind<Table, Switching>(
      PrefixCode(f, COUNT_SYMBOLS, COUNT_SYMBOLS),
      (counts: Table) requires SymbolsBelow(counts, COUNT_SYMBOLS) => CategoryFirst(num, types, counts))
  }

  function CategoryFirst(num: nat, types: Table, counts: Table): (r: Parser<Switching>)
    requires 2 <= num <= 256 && SymbolsBelow(types, num + 2) && SymbolsBelow(counts, COUNT_SYMBOLS)
    ensures forall b | r(b).Got? :: r(b).value.Valid()
  {
    hide SymbolsBelow, RepresentsCode;
    ByCode(counts, COUNT_SYMBOLS);
    Bind<nat, Switching>(Count(counts), (n: nat) => WithCount(num, types, counts, n))
  }

  function WithCount(num: nat, types: Table, counts: Table, n: nat): (r: Parser<Switching>)
    requires 2 <= num <= 256 && SymbolsBelow(types, num + 2) && SymbolsBelow(counts, COUNT_SYMBOLS)
    ensures forall b | r(b).Got? :: r(b).value.Valid()
  {
    hide SymbolsBelow;
    Return<Switching>(Switching(num, types, counts, n))
  }

  function CountAt(counts: Table, b: Bits): (r: Got<nat>)
    requires RepresentsCode(counts)
  {
    hide RepresentsCode, Blocks.CountAt;
    match Blocks.CountAt(counts, b)
    case None => Lacking
    case Some((count, rest)) =>
      Blocks.CountAgrees(counts, b, b);
      Got(|b| - |rest|, count)
  }

  function Count(counts: Table): (r: Parser<nat>)
    requires RepresentsCode(counts)
  {
    hide RepresentsCode, CountAt;
    CountSteady(counts);
    b => CountAt(counts, b)
  }

  lemma CountSteady(counts: Table)
    requires RepresentsCode(counts)
    ensures Steady((b: Bits) => CountAt(counts, b))
  {
    hide RepresentsCode, Blocks.CountAt;
    forall b, c
      ensures Agrees(CountAt(counts, b), CountAt(counts, c), b, c)
    {
      if Blocks.CountAt(counts, b).Some? {
        Blocks.CountAgrees(counts, b, c);
      }
    }
  }

  // ---------- Context maps ----------

  datatype TreeMap = TreeMap(trees: nat, entries: seq<Byte>) {
    ghost predicate Valid(size: nat) {
      trees >= 1 && |entries| == size && forall k | 0 <= k < size :: entries[k] < trees
    }
  }

  /** How many trees; with one there is nothing more to read. */
  function ContextMap(f: Builder, size: nat): (r: Parser<TreeMap>)
    requires f.Valid()
    ensures forall b | r(b).Got? :: r(b).value.Valid(size)
  {
    hide Builder.Valid, TreeMap.Valid, VarLen8;
    Bind<nat, TreeMap>(VarLen8(), (v: nat) requires v < 256 => MapOf(f, size, v))
  }

  function MapOf(f: Builder, size: nat, more: nat): (r: Parser<TreeMap>)
    requires f.Valid() && more < 256
    ensures forall b | r(b).Got? :: r(b).value.Valid(size)
  {
    hide Builder.Valid, PlainBits;
    if more == 0 then Return<TreeMap>(TreeMap(1, Maps.ZeroRun(size)))
    else Bind<nat, TreeMap>(PlainBits(1), (v: nat) => MapRuns(f, size, more + 1, v))
  }

  /** Whether runs of zeros are used, and how long they may be. */
  function MapRuns(f: Builder, size: nat, num: nat, flag: nat): (r: Parser<TreeMap>)
    requires f.Valid() && 2 <= num <= 256
    ensures forall b | r(b).Got? :: r(b).value.Valid(size)
  {
    hide Builder.Valid, PlainBits, Pow2, TreeMap.Valid;
    EightPowers();
    if flag == 0 then MapCode(f, size, num, 0)
    else Bind<nat, TreeMap>(PlainBits(4), (v: nat) requires v < 16 => MapCode(f, size, num, v + 1))
  }

  function MapCode(f: Builder, size: nat, num: nat, maxRun: nat): (r: Parser<TreeMap>)
    requires f.Valid() && 2 <= num <= 256 && maxRun <= 16
    ensures forall b | r(b).Got? :: r(b).value.Valid(size)
  {
    hide Builder.Valid, PrefixCode, SymbolsBelow, TreeMap.Valid;
    Bind<Table, TreeMap>(
      PrefixCode(f, num + maxRun, num + maxRun),
      (table: Table) requires SymbolsBelow(table, num + maxRun) => MapEntries(table, size, num, maxRun))
  }

  function MapEntries(table: Table, size: nat, num: nat, maxRun: nat): (r: Parser<TreeMap>)
    requires 2 <= num <= 256 && maxRun <= 16 && SymbolsBelow(table, num + maxRun)
    ensures forall b | r(b).Got? :: r(b).value.Valid(size)
  {
    hide SymbolsBelow, Maps.MapParams.Valid, TreeMap.Valid, Maps.Below;
    CodeFits(table, maxRun, num, size);
    Bind<seq<Byte>, TreeMap>(
      Entries(Maps.MapParams(table, maxRun, num, size)),
      (entries: seq<Byte>) requires |entries| == size && Maps.Below(entries, num) => MapFlag(size, num, entries))
  }

  lemma CodeFits(table: Table, maxRun: nat, num: nat, size: nat)
    requires SymbolsBelow(table, num + maxRun) && 2 <= num <= 256 && maxRun <= 16
    ensures Maps.MapParams(table, maxRun, num, size).Valid()
  {
    hide RepresentsCode, Decode;
  }

  function EntriesAt(p: Maps.MapParams, b: Bits): (r: Got<seq<Byte>>)
    requires p.Valid()
    ensures r.Got? ==> |r.value| == p.size && Maps.Below(r.value, p.numHtrees)
  {
    hide Maps.MapParams.Valid;
    match Maps.MapRun(p, [], None, b)
    case Incomplete => Lacking
    case Invalid => Invalid
    case Complete(entries, rest) =>
      Maps.MapAgrees(p, [], None, b, b);
      Maps.CompleteMapIsSound(p, [], None, b);
      Got(|b| - |rest|, entries)
  }

  function Entries(p: Maps.MapParams): (r: Parser<seq<Byte>>)
    requires p.Valid()
    ensures forall b | r(b).Got? :: |r(b).value| == p.size && Maps.Below(r(b).value, p.numHtrees)
  {
    hide Maps.MapParams.Valid, EntriesAt, Maps.Below;
    EntriesSteady(p);
    b => EntriesAt(p, b)
  }

  lemma EntriesSteady(p: Maps.MapParams)
    requires p.Valid()
    ensures Steady((b: Bits) => EntriesAt(p, b))
  {
    hide Maps.MapParams.Valid, Maps.MapRun, Maps.Below;
    forall b, c
      ensures Agrees(EntriesAt(p, b), EntriesAt(p, c), b, c)
    {
      Maps.MapAgrees(p, [], None, b, c);
    }
  }

  /** Whether the entries are to be transformed. */
  function MapFlag(size: nat, num: nat, entries: seq<Byte>): (r: Parser<TreeMap>)
    requires 2 <= num <= 256 && |entries| == size && Maps.Below(entries, num)
    ensures forall b | r(b).Got? :: r(b).value.Valid(size)
  {
    hide PlainBits, TreeMap.Valid, Maps.Below;
    Bind<nat, TreeMap>(PlainBits(1), (v: nat) => MapWith(size, num, entries, v))
  }

  function MapWith(size: nat, num: nat, entries: seq<Byte>, flag: nat): (r: Parser<TreeMap>)
    requires 2 <= num <= 256 && |entries| == size && Maps.Below(entries, num)
    ensures forall b | r(b).Got? :: r(b).value.Valid(size)
  {
    hide MoveToFront.Inverse;
    MoveToFront.InverseBound(MoveToFront.Identity(), entries, num);
    Return<TreeMap>(
      TreeMap(num, if flag == 0 then entries else MoveToFront.Inverse(MoveToFront.Identity(), entries)))
  }

  // ---------- All of it ----------

  /** The three categories, one after the other. */
  function Categories(f: Builder, done: seq<Switching>): (r: Parser<seq<Switching>>)
    requires f.Valid() && |done| <= 3 && AllValid(done)
    ensures forall b | r(b).Got? :: |r(b).value| == 3 && AllValid(r(b).value)
    decreases 3 - |done|
  {
    hide Builder.Valid, Category, Switching.Valid;
    if |done| == 3 then Return<seq<Switching>>(done)
    else Bind<Switching, seq<Switching>>(Category(f), (c: Switching) requires c.Valid() => Categories(f, done + [c]))
  }

  ghost predicate AllValid(types: seq<Switching>) {
    forall k | 0 <= k < |types| :: types[k].Valid()
  }

  /** The context mode of every block type of literals. */
  function ContextModes(count: nat, done: seq<nat>): (r: Parser<seq<nat>>)
    requires |done| <= count && AllBelow(done, 4)
    ensures forall b | r(b).Got? :: |r(b).value| == count && AllBelow(r(b).value, 4)
    decreases count - |done|
  {
    hide PlainBits, Pow2;
    EightPowers();
    if |done| == count then Return<seq<nat>>(done)
    else Bind<nat, seq<nat>>(PlainBits(2), (v: nat) requires v < 4 => ContextModes(count, done + [v]))
  }

  ghost predicate AllCodes(tables: seq<Table>, max: nat) {
    forall k | 0 <= k < |tables| :: SymbolsBelow(tables[k], max)
  }

  /** A group of trees. */
  function TreeGroup(f: Builder, alphabet: nat, max: nat, count: nat, done: seq<Table>): (r: Parser<seq<Table>>)
    requires f.Valid() && |done| <= count && AllCodes(done, max)
    ensures forall b | r(b).Got? :: |r(b).value| == count && AllCodes(r(b).value, max)
    decreases count - |done|
  {
    hide Builder.Valid, PrefixCode, SymbolsBelow;
    if |done| == count then Return<seq<Table>>(done)
    else
      Bind<Table, seq<Table>>(
        PrefixCode(f, alphabet, max),
        (t: Table) requires SymbolsBelow(t, max) => TreeGroup(f, alphabet, max, count, done + [t]))
  }

  /** What has been read before the trees. */
  datatype Head = Head(
    types: seq<Switching>, params: Params, modes: seq<nat>, literalMap: TreeMap, distanceMap: TreeMap) {

    ghost predicate Typed() {
      |types| == 3 && AllValid(types) && params.Valid()
    }

    ghost predicate Moded() {
      Typed() && |modes| == types[0].num && AllBelow(modes, 4)
    }

    ghost predicate Mapped() {
      Moded() && literalMap.Valid(Blocks.LITERAL_CONTEXTS * types[0].num)
    }

    ghost predicate Valid() {
      Mapped() && distanceMap.Valid(Blocks.DISTANCE_CONTEXTS * types[2].num)
    }
  }

  function MetablockTrees(f: Builder): (r: Parser<Groups>)
    requires f.Valid()
    ensures forall b | r(b).Got? :: r(b).value.Valid()
  {
    hide Builder.Valid, Categories, Groups.Valid, AllValid;
    Bind<seq<Switching>, Groups>(
      Categories(f, []), (types: seq<Switching>) requires |types| == 3 && AllValid(types) => AfterTypes(f, types))
  }

  function AfterTypes(f: Builder, types: seq<Switching>): (r: Parser<Groups>)
    requires f.Valid() && |types| == 3 && AllValid(types)
    ensures forall b | r(b).Got? :: r(b).value.Valid()
  {
    hide Builder.Valid, PlainBits, Pow2, Groups.Valid, AllValid;
    EightPowers();
    Bind<nat, Groups>(PlainBits(6), (v: nat) requires v < 64 => AfterSizes(f, types, v))
  }

  /** Postfix bits and direct distance codes. */
  function ParamsOf(v: nat): (p: Params)
    requires v < 64
    ensures p.Valid()
  {
    Scaled(v / 4, v % 4);
    Params(v % 4, (v / 4) * Pow2(v % 4))
  }

  lemma Scaled(x: nat, n: nat)
    requires x <= 15 && n <= 3
    ensures Params(n, x * Pow2(n)).Valid()
  {
  }

  function AfterSizes(f: Builder, types: seq<Switching>, v: nat): (r: Parser<Groups>)
    requires f.Valid() && |types| == 3 && AllValid(types) && v < 64
    ensures forall b | r(b).Got? :: r(b).value.Valid()
  {
    hide Builder.Valid, ContextModes, Groups.Valid, AllValid, ParamsOf, Params.Valid;
    var h := Head(types, ParamsOf(v), [], TreeMap(1, []), TreeMap(1, []));
    Bind<seq<nat>, Groups>(
      ContextModes(types[0].num, []),
      (modes: seq<nat>) requires |modes| == types[0].num && AllBelow(modes, 4) => AfterModes(f, h.(modes := modes)))
  }

  function AfterModes(f: Builder, h: Head): (r: Parser<Groups>)
    requires f.Valid() && h.Moded()
    ensures forall b | r(b).Got? :: r(b).value.Valid()
  {
    hide Builder.Valid, ContextMap, Groups.Valid, TreeMap.Valid, Head.Typed;
    var size := Blocks.LITERAL_CONTEXTS * FirstNum(h);
    Bind<TreeMap, Groups>(
      ContextMap(f, size), (m: TreeMap) requires m.Valid(size) => AfterLiteralMap(f, h.(literalMap := m)))
  }

  function FirstNum(h: Head): (n: nat)
    requires h.Moded()
    ensures n == h.types[0].num
  {
    h.types[0].num
  }

  function AfterLiteralMap(f: Builder, h: Head): (r: Parser<Groups>)
    requires f.Valid() && h.Mapped()
    ensures forall b | r(b).Got? :: r(b).value.Valid()
  {
    hide Builder.Valid, ContextMap, Groups.Valid, TreeMap.Valid, AllValid, Params.Valid;
    var size := Blocks.DISTANCE_CONTEXTS * h.types[2].num;
    Bind<TreeMap, Groups>(
      ContextMap(f, size), (m: TreeMap) requires m.Valid(size) => LiteralTrees(f, h.(distanceMap := m)))
  }

  function LiteralTrees(f: Builder, h: Head): (r: Parser<Groups>)
    requires f.Valid() && h.Valid()
    ensures forall b | r(b).Got? :: r(b).value.Valid()
  {
    hide Builder.Valid, TreeGroup, Groups.Valid, Head.Valid;
    Bind<seq<Table>, Groups>(
      TreeGroup(f, LITERAL_SYMBOLS, LITERAL_SYMBOLS, h.literalMap.trees, []),
      (literals: seq<Table>) requires |literals| == h.literalMap.trees && AllCodes(literals, LITERAL_SYMBOLS) =>
        CommandTrees(f, h, literals))
  }

  function CommandTrees(f: Builder, h: Head, literals: seq<Table>): (r: Parser<Groups>)
    requires f.Valid() && h.Valid() && |literals| == h.literalMap.trees && AllCodes(literals, LITERAL_SYMBOLS)
    ensures forall b | r(b).Got? :: r(b).value.Valid()
  {
    hide Builder.Valid, TreeGroup, Groups.Valid, Head.Mapped, AllCodes;
    ThreeTypes(h);
    NoCodes(NUM_COMMAND_SYMBOLS);
    Bind<seq<Table>, Groups>(
      TreeGroup(f, NUM_COMMAND_SYMBOLS, NUM_COMMAND_SYMBOLS, h.types[1].num, []),
      (commands: seq<Table>) requires |commands| == h.types[1].num && AllCodes(commands, NUM_COMMAND_SYMBOLS) =>
        DistanceTrees(f, h, literals, commands))
  }

  lemma ThreeTypes(h: Head)
    requires h.Valid()
    ensures |h.types| == 3 && h.params.Valid()
  {
  }

  lemma NoCodes(max: nat)
    ensures AllCodes([], max)
  {
  }

  /** The number of distance symbols, by the largest number of extra bits. */
  function DistanceAlphabet(p: Params, maxBits: nat): (n: nat) {
    SHORT_CODES + p.ndirect + maxBits * Pow2(p.npostfix + 1)
  }

  /** They are all symbols with so many extra bits, and no others. */
  lemma AlphabetIsExact(p: Params, maxBits: nat, symbol: nat)
    requires p.Valid() && maxBits > 0
    ensures symbol < DistanceAlphabet(p, maxBits) <==> ExtraBits(p, symbol) <= maxBits
  {
    var m := Pow2(p.npostfix);
    if symbol >= SHORT_CODES + p.ndirect {
      var (q, r) := DivMod(symbol - SHORT_CODES - p.ndirect, m);
      if q < 2 * maxBits {
        MulGap(m, 2 * maxBits - 1 - q);
      } else {
        MulGap(m, q - 2 * maxBits);
      }
      assert maxBits * (2 * m) == 2 * maxBits * m;
    }
  }

  /** As section 4 of RFC 7932 has it, and the largest numbers that a symbol of the other alphabets can have. */
  lemma AlphabetSizes(p: Params)
    ensures DistanceAlphabet(p, MAX_DISTANCE_BITS) == 16 + p.ndirect + 48 * Pow2(p.npostfix)
    ensures DistanceAlphabet(p, LARGE_MAX_DISTANCE_BITS) == 16 + p.ndirect + 124 * Pow2(p.npostfix)
    ensures p.Valid() ==> DistanceMax(p, false) == 16 + p.ndirect + 48 * Pow2(p.npostfix)
    ensures COUNT_SYMBOLS == |Blocks.LENGTH_OFFSETS| == |Blocks.LENGTH_BITS| && Pow2(8) == LITERAL_SYMBOLS
  {
  }

  /** In a large window some of them could stand for distances that are not allowed, and may not be used. */
  function DistanceMax(p: Params, large: bool): (n: nat)
    requires p.Valid()
    ensures n <= BrotliMaxDistanceSymbol(p.ndirect, p.npostfix)
  {
    EightPowers();
    assert p.ndirect <= 15 * Pow2(p.npostfix);
    if large then BrotliMaxDistanceSymbol(p.ndirect, p.npostfix) else DistanceAlphabet(p, MAX_DISTANCE_BITS)
  }

  /** All alphabets have room in the array that code lengths are chained in; that of the commands fills it. */
  lemma SymbolsHaveRoom(p: Params, large: bool)
    requires p.Valid()
    ensures DistanceMax(p, large) <= CodeLengths.MAX_SYMBOLS == NUM_COMMAND_SYMBOLS
    ensures LITERAL_SYMBOLS <= CodeLengths.MAX_SYMBOLS && COUNT_SYMBOLS <= CodeLengths.MAX_SYMBOLS
  {
    hide BrotliMaxDistanceSymbol, ExtraBits, DistanceAlphabet;
    EightPowers();
    AlphabetSizes(p);
    assert p.ndirect <= 120 && Pow2(p.npostfix) <= 8;
    var max := BrotliMaxDistanceSymbol(p.ndirect, p.npostfix);
    if max > 0 {
      DistanceReading.ExtraIsShort(p, max - 1);
      AlphabetIsExact(p, DistanceReading.MAX_EXTRA, max - 1);
      LargeAlphabet(p);
    }
  }

  lemma LargeAlphabet(p: Params)
    ensures DistanceAlphabet(p, DistanceReading.MAX_EXTRA) == 16 + p.ndirect + 60 * Pow2(p.npostfix)
  {
  }

  function DistanceTrees(f: Builder, h: Head, literals: seq<Table>, commands: seq<Table>): (r: Parser<Groups>)
    requires f.Valid() && h.Valid() && |literals| == h.literalMap.trees && AllCodes(literals, LITERAL_SYMBOLS)
    requires |commands| == h.types[1].num && AllCodes(commands, NUM_COMMAND_SYMBOLS)
    ensures forall b | r(b).Got? :: r(b).value.Valid()
  {
    hide Builder.Valid, Groups.Valid, TreeGroup, AllCodes, DistanceMax, DistanceAlphabet, Head.Mapped;
    ThreeTypes(h);
    var alphabet := DistanceAlphabet(h.params, if f.large then LARGE_MAX_DISTANCE_BITS else MAX_DISTANCE_BITS);
    var max := DistanceMax(h.params, f.large);
    NoCodes(max);
    Bind<seq<Table>, Groups>(
      TreeGroup(f, alphabet, max, h.distanceMap.trees, []),
      (distances: seq<Table>) requires |distances| == h.distanceMap.trees && AllCodes(distances, max) =>
        AllTrees(h, literals, commands, distances, max))
  }

  function AllTrees(h: Head, literals: seq<Table>, commands: seq<Table>, distances: seq<Table>, max: nat)
    : (r: Parser<Groups>)
    requires h.Valid() && |literals| == h.literalMap.trees && AllCodes(literals, LITERAL_SYMBOLS)
    requires |commands| == h.types[1].num && AllCodes(commands, NUM_COMMAND_SYMBOLS)
    requires |distances| == h.distanceMap.trees && AllCodes(distances, max)
    requires max <= BrotliMaxDistanceSymbol(h.params.ndirect, h.params.npostfix)
    ensures forall b | r(b).Got? :: r(b).value.Valid()
  {
    hide Groups.Valid, AllCodes, BrotliMaxDistanceSymbol, Head.Mapped;
    ThreeTypes(h);
    TreesFit(h, literals, commands, distances, max);
    Return<Groups>(GroupsOf(h, literals, commands, distances))
  }

  function GroupsOf(h: Head, literals: seq<Table>, commands: seq<Table>, distances: seq<Table>): (g: Groups)
    requires |h.types| == 3
  {
    Groups.Groups(h.types[0], h.types[1], h.types[2], h.params, h.modes, h.literalMap.entries, literals, commands,
                  h.distanceMap.entries, distances)
  }

  lemma TreesFit(h: Head, literals: seq<Table>, commands: seq<Table>, distances: seq<Table>, max: nat)
    requires h.Valid() && |literals| == h.literalMap.trees && AllCodes(literals, LITERAL_SYMBOLS)
    requires |commands| == h.types[1].num && AllCodes(commands, NUM_COMMAND_SYMBOLS)
    requires |distances| == h.distanceMap.trees && AllCodes(distances, max)
    requires max <= BrotliMaxDistanceSymbol(h.params.ndirect, h.params.npostfix)
    ensures GroupsOf(h, literals, commands, distances).Valid()
  {
    hide SymbolsBelow, RepresentsCode, Switching.Valid, Params.Valid, BrotliMaxDistanceSymbol;
    ThreeTypes(h);
    forall k | 0 <= k < |literals|
      ensures RepresentsCode(literals[k])
    {
      ByCode(literals[k], LITERAL_SYMBOLS);
    }
    forall k | 0 <= k < |distances|
      ensures DistanceReading.Codes(h.params, distances[k])
    {
      DistanceCodeFits(h.params, distances[k], max);
    }
  }

  lemma DistanceCodeFits(p: Params, table: Table, max: nat)
    requires p.Valid() && SymbolsBelow(table, max) && max <= BrotliMaxDistanceSymbol(p.ndirect, p.npostfix)
    ensures DistanceReading.Codes(p, table)
  {
    hide RepresentsCode, Decode, BrotliMaxDistanceSymbol;
  }

  // ---------- The reader of the decoder ----------

  /** Bits that make no sense are found out as soon as they are there. */
  function SoonestInvalid(p: Parser<Groups>, b: Bits, k: nat): (n: nat)
    requires p(b).Invalid? && k <= |b|
    ensures k <= n <= |b| && p(b[..n]).Invalid? && forall j | k <= j < n :: !p(b[..j]).Invalid?
    decreases |b| - k
  {
    assert b[..|b|] == b;
    if p(b[..k]).Invalid? then k else SoonestInvalid(p, b, k + 1)
  }

  lemma SoonestAgrees(p: Parser<Groups>, b: Bits, c: Bits)
    requires p(b).Invalid? && b[..SoonestInvalid(p, b, 0)] <= c
    ensures p(c).Invalid? && SoonestInvalid(p, c, 0) == SoonestInvalid(p, b, 0)
  {
    var n := SoonestInvalid(p, b, 0);
    assert Agrees(p(b[..n]), p(c), b[..n], c);
    var m := SoonestInvalid(p, c, 0);
    assert c[..n] == b[..n];
    PrefixOfPrefix(b, c, m, n);
  }

  lemma PrefixOfPrefix(b: Bits, c: Bits, m: nat, n: nat)
    requires n <= |b| && b[..n] <= c
    ensures m <= n ==> c[..m] == b[..m]
  {
    assert c[..n] == b[..n];
    if m <= n {
      assert c[..m] == c[..n][..m] == b[..n][..m] == b[..m];
    }
  }

  function TreesAt(f: Builder, b: Bits): (r: Option<(nat, Option<Trees>)>)
    requires f.Valid()
  {
    hide Builder.Valid, MetablockTrees, Groups.Valid;
    var p := MetablockTrees(f);
    match p(b)
    case Lacking => None
    case Invalid => Some((SoonestInvalid(p, b, 0), None))
    case Got(n, g) => Some((n, Some(g)))
  }

  /** What is read of the trees depends on the bits it takes, and on no others. */
  lemma TreesAgree(f: Builder, b: Bits, c: Bits)
    requires f.Valid() && TreesAt(f, b).Some?
    ensures TreesAt(f, b).value.0 <= |b|
    ensures b[..TreesAt(f, b).value.0] <= c ==> TreesAt(f, c) == TreesAt(f, b)
  {
    hide Builder.Valid, MetablockTrees, Groups.Valid, SoonestInvalid;
    var p := MetablockTrees(f);
    assert Agrees(p(b), p(c), b, c);
    if p(b).Invalid? && b[..SoonestInvalid(p, b, 0)] <= c {
      SoonestAgrees(p, b, c);
    }
  }

  function TreesReader(f: Builder): (r: Bits -> Option<(nat, Option<Trees>)>)
    requires f.Valid()
    ensures forall b :: r(b) == TreesAt(f, b)
  {
    b => TreesAt(f, b)
  }

  /** So the decoder may be given this reader. */
  function WithTrees(env: Env, lut: seq<CmdLutElement>, lookup: seq<seq<nat>>, f: Builder): (r: Format)
    requires env.Valid() && TablesFit(lut, lookup) && f.Valid()
    ensures r.Valid()
  {
    hide Builder.Valid, TreesAt, TablesFit, Env.Valid, TreesReader, OwnBitsOnly;
    ReaderIsSteady(f);
    Format(env, lut, lookup, TreesReader(f))
  }

  lemma ReaderIsSteady(f: Builder)
    requires f.Valid()
    ensures OwnBitsOnly(TreesReader(f))
  {
    hide Builder.Valid, TreesAt;
    var p := TreesReader(f);
    forall b | p(b).Some?
      ensures p(b).value.0 <= |b|
    {
      TreesAgree(f, b, b);
    }
    forall b, c | p(b).Some? && b[..p(b).value.0] <= c
      ensures p(c) == p(b)
    {
      TreesAgree(f, b, c);
    }
  }

  /** Tables that meet the requirements exist: here always for the first symbol alone. */
  function PlainBuilder(large: bool): (f: Builder)
    ensures f.Valid()
  {
    hide SymbolsBelow, OneSymbol;
    FirstSymbolWillDo();
    Builder(
      (lengths: seq<nat>) => seq(32, i => HuffmanCode(0, 0)),
      (lengths: seq<nat>) => OneSymbol(0),
      (symbols: seq<nat>, deep: bool) => OneSymbol(if symbols == [] then 0 else symbols[0]), large)
  }

  lemma NoBitsIsCode(table: Table)
    requires |table| == 32 && forall i | 0 <= i < 32 :: table[i] == HuffmanCode(0, 0)
    ensures Lengths.RepresentsLengths(table)
  {
    hide Value;
    forall w: Bits | |w| == Lengths.ROOT_CL
      ensures Lengths.Entry(table, w) == HuffmanCode(0, 0)
    {
      ValueBound(w);
      assert Pow2(5) == 32;
    }
  }

  lemma FirstSymbolWillDo()
    ensures Lengths.RepresentsLengths(seq(32, i => HuffmanCode(0, 0)))
    ensures forall lengths: seq<nat>, n: nat | |lengths| <= n && Lengths.Complete(lengths) ::
              SymbolsBelow(OneSymbol(0), n)
    ensures forall symbols: seq<nat>, n: nat | 1 <= |symbols| && AllBelow(symbols, n) ::
              SymbolsBelow(OneSymbol(symbols[0]), n)
  {
    hide SymbolsBelow, OneSymbol;
    NoBitsIsCode(seq(32, i => HuffmanCode(0, 0)));
    forall lengths: seq<nat>, n: nat | |lengths| <= n && Lengths.Complete(lengths)
      ensures SymbolsBelow(OneSymbol(0), n)
    {
      OneSymbolIsCode(0, n);
    }
    forall symbols: seq<nat>, n: nat | 1 <= |symbols| && AllBelow(symbols, n)
      ensures SymbolsBelow(OneSymbol(symbols[0]), n)
    {
      OneSymbolIsCode(symbols[0], n);
    }
  }
}
