/**
 * Everything between the driver and the window, as one machine over bits: meta-block headers, stored bytes, commands,
 * literals and distances with their block switches and context-dependent trees, and the stops for a full ring. It is
 * shown to be a machine of the kind the driver relies on.
 */
module BitDecoder {
  import opened Bytes
  import opened Results
  import opened BitReader
  import opened SymbolDecoding
  import opened Transform
  import opened SlidingWindow
  import opened Distances
  import opened CommandSpec
  import opened CommandPrefixes
  import opened Streaming
  import Headers = MetablockHeaders
  import Blocks = BlockTypes
  import DistanceReading

  const FULL_COUNT := 0x100_0000 // block_length where there is only one block type
  const MAX_OFFSET := 0x1_0000  // what the offsets in the command table stay below

  // ---------- The prefix codes of a meta-block ----------

  /** One category of block types: how many there are, and the prefix codes that tell of a switch. */
  datatype Switching = Switching(num: nat, types: seq<HuffmanCode>, counts: seq<HuffmanCode>, first: nat) {
    ghost predicate Valid() {
      && 1 <= num <= 256 && (num == 1 ==> first == FULL_COUNT)
      && (num >= 2 ==> SymbolsBelow(types, num + 2) && SymbolsBelow(counts, 26))
    }
  }

  datatype Groups = Groups(
    literalTypes: Switching, commandTypes: Switching, distanceTypes: Switching, params: Params,
    modes: seq<nat>, contextMap: seq<Byte>, literals: seq<seq<HuffmanCode>>,
    commands: seq<seq<HuffmanCode>>, distanceMap: seq<Byte>, distances: seq<seq<HuffmanCode>>) {

    ghost predicate Valid() {
      && literalTypes.Valid() && commandTypes.Valid() && distanceTypes.Valid() && params.Valid()
      && LiteralsFit() && DistancesFit()
      && |commands| == commandTypes.num
      && (forall k | 0 <= k < |commands| :: SymbolsBelow(commands[k], NUM_COMMAND_SYMBOLS))
    }

    ghost predicate LiteralsFit() {
      && |modes| == literalTypes.num && (forall k | 0 <= k < |modes| :: modes[k] < 4)
      && |contextMap| == Blocks.LITERAL_CONTEXTS * literalTypes.num
      && (forall k | 0 <= k < |contextMap| :: contextMap[k] < |literals|)
      && (forall k | 0 <= k < |literals| :: RepresentsCode(literals[k]))
    }

    ghost predicate DistancesFit() {
      && |distanceMap| == Blocks.DISTANCE_CONTEXTS * distanceTypes.num
      && (forall k | 0 <= k < |distanceMap| :: distanceMap[k] < |distances|)
      && (forall k | 0 <= k < |distances| :: DistanceReading.Codes(params, distances[k]))
    }
  }

  /** A code with a single symbol, which takes no bits. */
  function OneSymbol(symbol: nat): (table: seq<HuffmanCode>) {
    seq(256, i => HuffmanCode(0, symbol))
  }

  lemma OneSymbolIsCode(symbol: nat, n: nat)
    requires symbol < n
    ensures SymbolsBelow(OneSymbol(symbol), n)
  {
    hide Pad, Index;
    assert Shaped(OneSymbol(symbol));
  }

  /** Before the first meta-block. */
  function NoGroups(): (g: Groups)
    ensures g.Valid()
  {
    hide SymbolsBelow, RepresentsCode;
    var table := OneSymbol(0);
    var one := Switching(1, table, table, FULL_COUNT);
    OneSymbolIsCode(0, NUM_COMMAND_SYMBOLS);
    OneSymbolIsCode(0, BrotliMaxDistanceSymbol(0, 0));
    ByCode(table, NUM_COMMAND_SYMBOLS);
    assert 0 == 0 * Pow2(0);
    Groups.Groups(one, one, one, Params(0, 0), [0], seq(64, i => 0), [table], [table], seq(4, i => 0), [table])
  }

  lemma ByCode(table: seq<HuffmanCode>, n: nat)
    requires SymbolsBelow(table, n)
    ensures RepresentsCode(table)
  {
  }

  type Trees = g: Groups | g.Valid() witness NoGroups()

  // ---------- Parameters ----------

  /**
   * The dictionary and the window, the tables of commands and of contexts, and what reads the prefix codes of a
   * meta-block: any reader whose result depends on the bits it takes only.
   */
  datatype Format = Format(
    env: Env, lut: seq<CmdLutElement>, lookup: seq<seq<nat>>, readTrees: Bits -> Option<(nat, Option<Trees>)>) {

    ghost predicate Valid()
      ensures Valid() ==> env.Valid()
    {
      env.Valid() && TablesFit(lut, lookup) && OwnBitsOnly(readTrees)
    }

    function Reach(hist: seq<Byte>): int {
      Min(env.Reach(), |hist|)
    }
  }

  /** What is read depends on the bits it takes, and on no others. */
  ghost predicate OwnBitsOnly(p: Bits -> Option<(nat, Option<Trees>)>) {
    && (forall b :: p(b).Some? ==> p(b).value.0 <= |b|)
    && (forall b, c :: p(b).Some? && b[..p(b).value.0] <= c ==> p(c) == p(b))
  }

  ghost predicate TablesFit(lut: seq<CmdLutElement>, lookup: seq<seq<nat>>) {
    && CommandTable(lut) && (forall k | 0 <= k < |lut| :: Usable(lut[k]))
    && |lookup| == 4 && (forall k | 0 <= k < 4 :: |lookup[k]| == 512 && Small(lookup[k]))
  }

  predicate Usable(v: CmdLutElement) {
    -1 <= v.distanceCode <= 0 && v.context < 4 && v.insertOffset < MAX_OFFSET && 0 < v.copyOffset < MAX_OFFSET
  }

  ghost predicate Small(contexts: seq<nat>) {
    forall k | 0 <= k < |contexts| :: contexts[k] < 64
  }

  /** The requirements can be met, for any dictionary and window: here by commands that are all the same. */
  function PlainFormat(env: Env, copyLength: nat, trees: Trees): (f: Format)
    requires env.Valid() && 0 < copyLength < MAX_OFFSET
    ensures f.Valid() && f.env == env
  {
    Format(env, seq(NUM_COMMAND_SYMBOLS, i => CmdLutElement(0, 0, -1, 0, 0, copyLength)),
           seq(4, i => seq(512, j => 0)), (b: Bits) => Some((0, Some(trees))))
  }

  // ---------- The state ----------

  datatype Stage =
    | InPrelude(bits: nat)  // the window bits, which say what window the rest is for
    | InHeader(fields: Headers.Fields)
    | InPadding(stored: bool)
    | InSkip
    | InStored
    | InTrees
    | InCommand
    | InLiterals
    | InDistance
    | InCopy
    | StoredFull | LiteralsFull | WordFull | CopyFull  // the ring has to be written before it goes on
    | Closing
    | Delivering                                       // everything is decoded but not yet written
    | Ended
    | Malformed | Overrun | Unusable

  /** Where a category stands. */
  datatype Turn = Turn(last: nat, before: nat, count: nat) {
    predicate InRange(c: Switching) {
      last < c.num && (c.num >= 2 ==> before < c.num)
    }

    predicate Due(c: Switching) {
      c.num >= 2 && count == 0
    }

    /** With one block type there is nothing to switch to when the count has run out. */
    predicate Spent(c: Switching) {
      c.num == 1 && count == 0
    }

    function Used(): Turn {
      this.(count := if count == 0 then 0 else count - 1)
    }

    function Switched(c: Switching, w: Blocks.Switch): Turn
      requires c.num > 0
    {
      Turn(Blocks.NextType(w.typeCode, last, before, c.num), last, w.count)
    }
  }

  datatype Snapshot = Snapshot(
    stage: Stage, bit: nat, last: bool, trees: Trees,
    literalTurn: Turn, commandTurn: Turn, distanceTurn: Turn,
    st: State, pos: nat, counter: nat, prefix: Prefix, distance: nat)

  function FreshHeader(): Headers.Fields {
    Headers.Fields(Headers.HeaderNone, false, false, false, 0, 0, 0)
  }

  /** A new stream, with a dictionary in reach, that begins with this many window bits. */
  function Start(dict: seq<Byte>, bits: nat): (s: Snapshot) {
    Snapshot(InPrelude(bits), 0, false, NoGroups(), Turn(0, 1, FULL_COUNT), Turn(0, 1, FULL_COUNT),
             Turn(0, 1, FULL_COUNT), State(dict, 0, [4, 11, 15, 16]), 0, 0, Prefix(0, 2, 0, 0), 0)
  }

  predicate Reads(stage: Stage) {
    !stage.StoredFull? && !stage.LiteralsFull? && !stage.WordFull? && !stage.CopyFull? && !stage.Delivering? &&
    !stage.Ended? && !stage.Malformed? && !stage.Overrun? && !stage.Unusable?
  }

  predicate Stopped(stage: Stage) {
    stage.StoredFull? || stage.LiteralsFull? || stage.WordFull? || stage.CopyFull?
  }

  predicate StageGood(s: Snapshot) {
    match s.stage
    case InHeader(h) => Headers.StatusOf(h).Reading? && (h.isUncompressed ==> !h.isLast)
    case InPadding(stored) => s.st.remaining >= 0 && (stored ==> !s.last && s.st.remaining > 0)
    case InSkip => s.st.remaining > 0
    case InStored => s.st.remaining > 0 && !s.last
    case StoredFull => s.st.remaining >= 0 && !s.last
    case InTrees => s.st.remaining > 0
    case InCommand => s.st.remaining > 0
    case InLiterals => s.counter > 0
    case InDistance => s.st.remaining > 0
    case InCopy | CopyFull => 1 <= s.distance <= |s.st.hist|
    case _ => true
  }

  /** Every distance remembered is small or has been in reach. */
  predicate RecentGood(f: Format, hist: seq<Byte>, recent: seq<int>) {
    |recent| == 4 && forall k | 0 <= k < 4 :: 0 < recent[k] <= Max(16, f.Reach(hist))
  }

  predicate TurnsGood(trees: Trees, literal: Turn, command: Turn, distance: Turn) {
    && literal.InRange(trees.literalTypes) && command.InRange(trees.commandTypes)
    && distance.InRange(trees.distanceTypes)
  }

  /** Only in front of a write is pos past the end of the ring, and not by a whole round. */
  predicate PosGood(f: Format, s: Snapshot) {
    if Stopped(s.stage) then f.env.Full() <= s.pos < 2 * f.env.Full() else s.pos < f.env.Full() || !Reads(s.stage)
  }

  predicate Good(f: Format, s: Snapshot) {
    && RecentGood(f, s.st.hist, s.st.recent) && StageGood(s) && PosGood(f, s) && PrefixGood(s.prefix)
    && TurnsGood(s.trees, s.literalTurn, s.commandTurn, s.distanceTurn)
  }

  predicate Live(f: Format, s: Snapshot) {
    Good(f, s) && Reads(s.stage)
  }

  // ---------- What the next read yields ----------

  datatype Item =
    | Number(v: nat)
    | TreesRead(trees: Option<Trees>)
    | Switched(to: Blocks.Switch)
    | Prefixed(prefix: Prefix)
    | Literal(symbol: Byte)
    | Code(distance: DistanceCode)

  function ReadNumber(n: nat, b: Bits): (r: Option<(nat, Item)>) {
    if n <= |b| then Some((n, Number(Value(b[..n])))) else None
  }

  function ReadSwitch(c: Switching, b: Bits): (r: Option<(nat, Item)>)
    requires c.Valid() && c.num >= 2
  {
    match Blocks.SwitchBits(c.types, c.counts, b)
    case None => None
    case Some((n, w)) => Some((n, Switched(w)))
  }

  function ReadPrefix(f: Format, s: Snapshot, b: Bits): (r: Option<(nat, Item)>)
    requires f.Valid() && Live(f, s)
  {
    match CommandAt(f.lut, CommandTree(f, s), b)
    case None => None
    case Some((n, p)) => Some((n, Prefixed(p)))
  }

  function ReadLiteral(f: Format, s: Snapshot, b: Bits): (r: Option<(nat, Item)>)
    requires f.Valid() && Live(f, s)
  {
    match Decode(LiteralTree(f, s), b)
    case None => None
    case Some((n, v)) => Some((n, Literal(v % 256)))
  }

  function ReadDistance(f: Format, s: Snapshot, b: Bits): (r: Option<(nat, Item)>)
    requires f.Valid() && Live(f, s)
  {
    match DistanceReading.DistanceAt(s.trees.params, DistanceTree(f, s), b)
    case None => None
    case Some((n, d)) => Some((n, Code(d)))
  }

  function CommandTree(f: Format, s: Snapshot): (table: seq<HuffmanCode>)
    requires f.Valid() && Live(f, s)
    ensures Codes(f.lut, table)
  {
    hide SymbolsBelow, RepresentsCode;
    ByCode(s.trees.commands[s.commandTurn.last], NUM_COMMAND_SYMBOLS);
    s.trees.commands[s.commandTurn.last]
  }

  /** The tree for a literal depends on the block type and on the two bytes before it. */
  function LiteralTree(f: Format, s: Snapshot): (table: seq<HuffmanCode>)
    requires f.Valid() && Live(f, s)
    ensures RepresentsCode(table)
  {
    hide SymbolsBelow, RepresentsCode;
    var lookup := f.lookup[s.trees.modes[s.literalTurn.last]];
    var context := ContextOf(lookup, Before(s.st.hist, 1), Before(s.st.hist, 2));
    var slice := Blocks.LITERAL_CONTEXTS * s.literalTurn.last;
    assert slice + Blocks.LITERAL_CONTEXTS <= |s.trees.contextMap|;
    s.trees.literals[s.trees.contextMap[slice + context]]
  }

  function Before(hist: seq<Byte>, n: nat): Byte
    requires n > 0
  {
    if n <= |hist| then hist[|hist| - n] else 0
  }

  function ContextOf(lookup: seq<nat>, p1: Byte, p2: Byte): (c: nat)
    requires |lookup| == 512 && Small(lookup)
    ensures c < Blocks.LITERAL_CONTEXTS
  {
    assert Pow2(6) == 64;
    BitOrBound(lookup[p1], lookup[256 + p2], 6);
    BitOr(lookup[p1], lookup[256 + p2])
  }

  function DistanceTree(f: Format, s: Snapshot): (table: seq<HuffmanCode>)
    requires f.Valid() && Live(f, s)
    ensures DistanceReading.Codes(s.trees.params, table) && RepresentsCode(table)
  {
    hide SymbolsBelow, RepresentsCode;
    var slice := Blocks.DISTANCE_CONTEXTS * s.distanceTurn.last;
    assert slice + Blocks.DISTANCE_CONTEXTS <= |s.trees.distanceMap|;
    s.trees.distances[s.trees.distanceMap[slice + s.prefix.context]]
  }

  /** A category is called upon that has only one block type and no count left. */
  predicate Spent(s: Snapshot) {
    match s.stage
    case InCommand => s.commandTurn.Spent(s.trees.commandTypes)
    case InLiterals => s.literalTurn.Spent(s.trees.literalTypes)
    case InDistance => s.prefix.distanceCode < 0 && s.distanceTurn.Spent(s.trees.distanceTypes)
    case _ => false
  }

  /** Bits up to the next byte boundary. */
  function ToBoundary(bit: nat): (n: nat)
    ensures n < 8
  {
    (8 - bit % 8) % 8
  }

  /** How many plain bits are read. */
  function Wanted(s: Snapshot): (n: nat) {
    match s.stage
    case InPrelude(bits) => bits
    case InHeader(h) => Headers.Width(h)
    case InPadding(_) => ToBoundary(s.bit)
    case InSkip | InStored => 8
    case Closing => if s.st.remaining >= 0 && s.last then ToBoundary(s.bit) else 0
    case _ => 0
  }

  /** The next indivisible read. */
  function Read(f: Format, s: Snapshot, b: Bits): (r: Option<(nat, Item)>)
    requires f.Valid() && Live(f, s)
  {
    match s.stage
    case InTrees => (match f.readTrees(b)
                     case None => None
                     case Some((n, t)) => Some((n, TreesRead(t))))
    case InCommand =>
      if s.commandTurn.Due(s.trees.commandTypes) then ReadSwitch(s.trees.commandTypes, b) else ReadPrefix(f, s, b)
    case InLiterals =>
      if s.literalTurn.Due(s.trees.literalTypes) then ReadSwitch(s.trees.literalTypes, b) else ReadLiteral(f, s, b)
    case InDistance =>
      if s.prefix.distanceCode >= 0 then Some((0, Code(Implied)))
      else if s.distanceTurn.Due(s.trees.distanceTypes) then ReadSwitch(s.trees.distanceTypes, b)
      else ReadDistance(f, s, b)
    case _ => ReadNumber(Wanted(s), b)
  }

  // ---------- What is done with it ----------

  /** What every item is known to be. */
  ghost predicate Fits(s: Snapshot, item: Item) {
    match s.stage
    case InTrees => item.TreesRead?
    case InCommand => FitsSwitch(s.trees.commandTypes, item) || (item.Prefixed? && PrefixGood(item.prefix))
    case InLiterals => FitsSwitch(s.trees.literalTypes, item) || item.Literal?
    case InDistance => FitsSwitch(s.trees.distanceTypes, item) || (item.Code? && item.distance.Valid())
    case _ => item.Number? && item.v < Pow2(Wanted(s))
  }

  ghost predicate FitsSwitch(c: Switching, item: Item) {
    item.Switched? && c.num >= 2 && item.to.typeCode < c.num + 2 && item.to.count > 0
  }

  predicate PrefixGood(p: Prefix) {
    0 < p.copyLength && p.context < 4
  }

  /** The block a header announces is entered. */
  function Enter(s: Snapshot, h: Headers.Header): (r: Snapshot) {
    match h
    case LastEmpty => s.(stage := Closing, last := true, st := s.st.(remaining := 0))
    case Metadata(last, length) => s.(stage := InPadding(false), last := last, st := s.st.(remaining := length))
    case Data(last, stored, length) =>
      s.(stage := if stored then InPadding(true) else InTrees, last := last, st := s.st.(remaining := length))
  }

  function TakeField(s: Snapshot, h: Headers.Fields, v: nat): (r: Snapshot) {
    var next := Headers.After(h, v);
    if next.substate.Rejected? then s.(stage := Malformed)
    else if next.substate.Accepted? then Enter(s, Headers.HeaderOf(next))
    else s.(stage := InHeader(next))
  }

  function TakePadding(s: Snapshot, stored: bool, v: nat): (r: Snapshot) {
    s.(stage := if v != 0 then Malformed else if stored then InStored
                else if s.st.remaining == 0 then Closing else InSkip)
  }

  function SkipByte(s: Snapshot): (r: Snapshot) {
    s.(stage := if s.st.remaining == 1 then Closing else InSkip, st := s.st.(remaining := s.st.remaining - 1))
  }

  /** One more byte in the ring and in the history. */
  function Put(s: Snapshot, x: Byte): (r: Snapshot) {
    s.(st := s.st.(hist := s.st.hist + [x]), pos := s.pos + 1)
  }

  function TakeStored(f: Format, s: Snapshot, x: Byte): (r: Snapshot) {
    var remaining := s.st.remaining - 1;
    var next := Put(s, x);
    next.(stage := if next.pos == f.env.Full() then StoredFull else if remaining == 0 then Closing else InStored,
          st := next.st.(remaining := remaining))
  }

  function TakeTrees(s: Snapshot, trees: Option<Trees>): (r: Snapshot) {
    match trees
    case None => s.(stage := Malformed)
    case Some(t) => s.(stage := InCommand, trees := t, literalTurn := Turn(0, 1, t.literalTypes.first),
                       commandTurn := Turn(0, 1, t.commandTypes.first),
                       distanceTurn := Turn(0, 1, t.distanceTypes.first))
  }

  function TakePrefix(s: Snapshot, p: Prefix): (r: Snapshot) {
    s.(stage := if p.insertLength == 0 then InDistance else InLiterals, prefix := p, counter := p.insertLength,
       st := s.st.(remaining := s.st.remaining - p.insertLength), commandTurn := s.commandTurn.Used())
  }

  /** Where literals lead that are all in. */
  function AfterInsert(st: State): Stage {
    if st.remaining <= 0 then Closing else InDistance
  }

  function AfterCommand(st: State): Stage {
    if st.remaining <= 0 then Closing else InCommand
  }

  function TakeLiteral(f: Format, s: Snapshot, x: Byte): (r: Snapshot)
    requires s.counter > 0
  {
    var next := Put(s, x);
    next.(stage := if next.pos == f.env.Full() then LiteralsFull
                   else if s.counter == 1 then AfterInsert(s.st) else InLiterals,
          counter := s.counter - 1, literalTurn := s.literalTurn.Used())
  }

  function TakeDistance(f: Format, s: Snapshot, code: DistanceCode): (r: Snapshot)
    requires f.Valid() && RecentGood(f, s.st.hist, s.st.recent) && code.Valid()
  {
    var turn := if code.Implied? then s.distanceTurn else s.distanceTurn.Used();
    var d := code.Resolve(s.st.recent);
    var next := s.(distanceTurn := turn);
    if d <= f.Reach(s.st.hist) then StartCopy(next, code, d)
    else if d > MAX_ALLOWED then next.(stage := Unusable)
    else
      match Reference(f.env, s.prefix.copyLength, d - f.Reach(s.st.hist) - 1)
      case None => next.(stage := Unusable)
      case Some((word, t)) => PutWord(f, next, Transformed(f.env.tables, word, t))
  }

  function StartCopy(s: Snapshot, code: DistanceCode, d: int): (r: Snapshot)
    requires code.Valid() && |s.st.recent| == 4
  {
    s.(stage := InCopy, counter := s.prefix.copyLength, distance := Max(0, d),
       st := State(s.st.hist, s.st.remaining - s.prefix.copyLength, Push(code.Symbol(), d, s.st.recent)))
  }

  function PutWord(f: Format, s: Snapshot, w: seq<Byte>): (r: Snapshot) {
    var st := s.st.(hist := s.st.hist + w, remaining := s.st.remaining - |w|);
    s.(stage := if s.pos + |w| >= f.env.Full() then WordFull else AfterCommand(st), st := st, pos := s.pos + |w|)
  }

  /** The copy, as far as the ring reaches. */
  function Copy(f: Format, s: Snapshot): (r: Snapshot)
    requires 1 <= s.distance <= |s.st.hist| && s.pos < f.env.Full()
  {
    var n := Min(s.counter, f.env.Full() - s.pos);
    s.(stage := if s.pos + n == f.env.Full() then CopyFull else AfterCommand(s.st), counter := s.counter - n,
       st := s.st.(hist := CopyNaive(s.st.hist, s.distance, n)), pos := s.pos + n)
  }

  /** The end of a meta-block; at the end of the stream, what is left of the byte has to be zeros. */
  function Close(s: Snapshot, v: nat): (r: Snapshot) {
    s.(stage := if s.st.remaining < 0 then Overrun else if !s.last then InHeader(FreshHeader())
                else if v == 0 then Delivering else Malformed)
  }

  lemma EightBits()
    ensures Pow2(8) == 256
  {
  }

  lemma GoodTypes(s: Snapshot)
    ensures s.trees.literalTypes.num > 0 && s.trees.commandTypes.num > 0 && s.trees.distanceTypes.num > 0
  {
    hide SymbolsBelow, Groups.LiteralsFit, Groups.DistancesFit;
  }

  function Act(f: Format, s: Snapshot, item: Item): (r: Snapshot)
    requires f.Valid() && Live(f, s) && Fits(s, item)
  {
    hide Format.Valid, Pow2, RecentGood, TurnsGood, PrefixGood, Groups.Valid;
    EightBits();
    GoodTypes(s);
    match s.stage
    case InPrelude(_) => s.(stage := InHeader(FreshHeader()))
    case InHeader(h) => TakeField(s, h, item.v)
    case InPadding(stored) => TakePadding(s, stored, item.v)
    case InSkip => SkipByte(s)
    case InStored => TakeStored(f, s, item.v)
    case InTrees => TakeTrees(s, item.trees)
    case InCommand =>
      if item.Switched? then s.(commandTurn := s.commandTurn.Switched(s.trees.commandTypes, item.to))
      else TakePrefix(s, item.prefix)
    case InLiterals =>
      if item.Switched? then s.(literalTurn := s.literalTurn.Switched(s.trees.literalTypes, item.to))
      else TakeLiteral(f, s, item.symbol)
    case InDistance =>
      if item.Switched? then s.(distanceTurn := s.distanceTurn.Switched(s.trees.distanceTypes, item.to))
      else TakeDistance(f, s, item.distance)
    case InCopy => Copy(f, s)
    case Closing => Close(s, item.v)
  }

  lemma ReadFits(f: Format, s: Snapshot, b: Bits)
    requires f.Valid() && Live(f, s) && Read(f, s, b).Some?
    ensures Fits(s, Read(f, s, b).value.1) && Read(f, s, b).value.0 <= |b|
  {
    hide SymbolsBelow, RepresentsCode, CommandAt, DistanceReading.DistanceAt, Blocks.SwitchBits, LiteralTree,
         CommandTree, DistanceTree, Value, Decode, Pow2;
    if s.stage.InCommand? {
      if s.commandTurn.Due(s.trees.commandTypes) {
        SwitchFits(s.trees.commandTypes, b);
      } else {
        PrefixFits(f, s, b);
      }
    } else if s.stage.InLiterals? {
      if s.literalTurn.Due(s.trees.literalTypes) {
        SwitchFits(s.trees.literalTypes, b);
      }
    } else if s.stage.InDistance? {
      if s.prefix.distanceCode < 0 {
        if s.distanceTurn.Due(s.trees.distanceTypes) {
          SwitchFits(s.trees.distanceTypes, b);
        } else {
          DistanceFits(f, s, b);
        }
      }
    } else if !s.stage.InTrees? {
      NumberAgrees(Wanted(s), b, b);
    }
  }

  lemma SwitchFits(c: Switching, b: Bits)
    requires c.Valid() && c.num >= 2 && ReadSwitch(c, b).Some?
    ensures FitsSwitch(c, ReadSwitch(c, b).value.1) && ReadSwitch(c, b).value.0 <= |b|
  {
    hide SymbolsBelow, RepresentsCode, Blocks.SwitchBits;
    Blocks.SwitchIsSound(c.types, c.counts, c.num + 2, b);
  }

  lemma PrefixFits(f: Format, s: Snapshot, b: Bits)
    requires f.Valid() && Live(f, s) && ReadPrefix(f, s, b).Some?
    ensures var (n, item) := ReadPrefix(f, s, b).value;
            && n <= |b| && item.Prefixed? && PrefixGood(item.prefix)
            && (n == 0 ==> item.prefix.insertLength < MAX_OFFSET && item.prefix.copyLength < MAX_OFFSET)
  {
    hide SymbolsBelow, RepresentsCode, CommandTree, Good, Decode;
    var table := CommandTree(f, s);
    CodesParts(f.lut, table);
    SymbolBound(table, NUM_COMMAND_SYMBOLS, b);
    assert Usable(f.lut[Decode(table, b).value.1]);
  }

  lemma DistanceFits(f: Format, s: Snapshot, b: Bits)
    requires f.Valid() && Live(f, s) && ReadDistance(f, s, b).Some?
    ensures var (n, item) := ReadDistance(f, s, b).value;
            n <= |b| && item.Code? && item.distance.Valid()
  {
    hide SymbolsBelow, RepresentsCode, DistanceTree, Good, DistanceReading.DistanceAt;
    DistanceReading.DistanceAgrees(s.trees.params, DistanceTree(f, s), b, b);
    DistanceReading.DistanceIsValid(s.trees.params, DistanceTree(f, s), b);
  }

  function Stepped(f: Format, s: Snapshot, n: nat, item: Item): (r: Snapshot)
    requires f.Valid() && Live(f, s) && Fits(s, item)
  {
    hide Act, Fits, Live, Format.Valid;
    Act(f, s, item).(bit := (s.bit + n) % 8)
  }

  /** One read, and what comes of it. */
  function Next(f: Format, s: Snapshot, b: Bits): (r: Option<(nat, Snapshot)>)
    requires f.Valid() && Live(f, s)
  {
    match Read(f, s, b)
    case None => None
    case Some((n, item)) =>
      ReadFits(f, s, b);
      Some((n, Stepped(f, s, n, item)))
  }

  /** The ring, or the last of the output, has been written. */
  function Resume(f: Format, s: Snapshot): (r: Snapshot) {
    if s.stage.Delivering? then s.(stage := Ended)
    else
      s.(pos := Max(0, s.pos - f.env.Full()),
         stage := match s.stage
                  case StoredFull => if s.st.remaining == 0 then Closing else InStored
                  case LiteralsFull => if s.counter == 0 then AfterInsert(s.st) else InLiterals
                  case WordFull => AfterCommand(s.st)
                  case _ => InCopy)
  }

  function StatusOf(f: Format, s: Snapshot): Status {
    if !Good(f, s) then Failed
    else if Reads(s.stage) then Reading
    else if Stopped(s.stage) then if s.st.remaining < 0 then Failed else Blocked
    else if s.stage.Delivering? then Blocked
    else if s.stage.Ended? then Finished
    else Failed
  }

  /** Reads that put back what they have pulled: their symbol has been decoded, and more bits belong to them. */
  function Restores(f: Format, s: Snapshot, b: Bits): bool
    requires f.Valid()
  {
    Live(f, s) &&
    match s.stage
    case InCommand =>
      if s.commandTurn.Due(s.trees.commandTypes) then Decode(s.trees.commandTypes.types, b).Some?
      else Decode(CommandTree(f, s), b).Some?
    case InLiterals =>
      s.literalTurn.Due(s.trees.literalTypes) && Decode(s.trees.literalTypes.types, b).Some?
    case InDistance =>
      s.prefix.distanceCode < 0 &&
      if s.distanceTurn.Due(s.trees.distanceTypes) then Decode(s.trees.distanceTypes.types, b).Some?
      else Decode(DistanceTree(f, s), b).Some?
    case _ => false
  }

  // ---------- Reads depend on their own bits ----------

  lemma NumberAgrees(n: nat, b: Bits, c: Bits)
    requires ReadNumber(n, b).Some? && b[..n] <= c
    ensures ReadNumber(n, c) == ReadNumber(n, b) && Value(b[..n]) < Pow2(n)
  {
    hide Value;
    ValueBound(b[..n]);
    assert c[..n] == b[..n];
  }

  lemma SwitchReadAgrees(c: Switching, b: Bits, d: Bits)
    requires c.Valid() && c.num >= 2 && ReadSwitch(c, b).Some?
    requires ReadSwitch(c, b).value.0 <= |b| && b[..ReadSwitch(c, b).value.0] <= d
    ensures ReadSwitch(c, d) == ReadSwitch(c, b)
  {
    hide SymbolsBelow, RepresentsCode, Blocks.SwitchBits;
    ByCode(c.types, c.num + 2);
    ByCode(c.counts, 26);
    Blocks.SwitchAgrees(c.types, c.counts, b, d);
  }

  /** Whatever starts with the bits of a read reads as the same. */
  lemma ReadAgrees(f: Format, s: Snapshot, b: Bits, c: Bits)
    requires f.Valid() && Live(f, s) && Read(f, s, b).Some?
    requires Read(f, s, b).value.0 <= |b| && b[..Read(f, s, b).value.0] <= c
    ensures Read(f, s, c) == Read(f, s, b)
  {
    hide SymbolsBelow, RepresentsCode, CommandAt, DistanceReading.DistanceAt, ReadSwitch, LiteralTree, CommandTree,
         DistanceTree, Value, Decode, Pow2, Good, Wanted, Switching.Valid;
    match s.stage
    case InTrees =>
    case InCommand =>
      if s.commandTurn.Due(s.trees.commandTypes) {
        SwitchReadAgrees(s.trees.commandTypes, b, c);
      } else {
        CommandAgrees(f.lut, CommandTree(f, s), b, c);
      }
    case InLiterals =>
      if s.literalTurn.Due(s.trees.literalTypes) {
        SwitchReadAgrees(s.trees.literalTypes, b, c);
      } else {
        DecodeAgrees(LiteralTree(f, s), b, c);
      }
    case InDistance =>
      if s.prefix.distanceCode < 0 {
        if s.distanceTurn.Due(s.trees.distanceTypes) {
          SwitchReadAgrees(s.trees.distanceTypes, b, c);
        } else {
          DistanceReading.DistanceAgrees(s.trees.params, DistanceTree(f, s), b, c);
        }
      }
    case _ => NumberAgrees(Wanted(s), b, c);
  }

  /** A step is a read and what it leads to. */
  lemma NextParts(f: Format, s: Snapshot, b: Bits)
    requires f.Valid() && Live(f, s)
    ensures Next(f, s, b).Some? <==> Read(f, s, b).Some?
    ensures Next(f, s, b).Some? ==>
              var (n, item) := Read(f, s, b).value;
              n <= |b| && Fits(s, item) && Next(f, s, b).value == (n, Stepped(f, s, n, item))
  {
    hide Read, Act, Fits, Live, Format.Valid, Stepped;
    if Read(f, s, b).Some? {
      ReadFits(f, s, b);
    }
  }

  lemma NextAgrees(f: Format, s: Snapshot, b: Bits, c: Bits)
    requires f.Valid() && Live(f, s) && Next(f, s, b).Some?
    ensures Next(f, s, b).value.0 <= |b|
    ensures b[..Next(f, s, b).value.0] <= c ==> Next(f, s, c) == Next(f, s, b)
  {
    hide Next, Read, Act, Fits, Live, Format.Valid;
    NextParts(f, s, b);
    if b[..Next(f, s, b).value.0] <= c {
      ReadAgrees(f, s, b, c);
      NextParts(f, s, c);
    }
  }

  /** Reads that may have to be undone are short. */
  lemma RestoredIsShort(f: Format, s: Snapshot, b: Bits)
    requires f.Valid() && Restores(f, s, b) && Read(f, s, b).None?
    ensures |b| < LONGEST_READ
  {
    hide SymbolsBelow, RepresentsCode, CommandAt, DistanceReading.DistanceAt, Blocks.SwitchAt, LiteralTree,
         CommandTree, DistanceTree, Value, Decode, Pow2, Good;
    match s.stage
    case InCommand =>
      if s.commandTurn.Due(s.trees.commandTypes) {
        ShortSwitch(s.trees.commandTypes, b);
      } else {
        CommandIsShort(f.lut, CommandTree(f, s), b);
      }
    case InLiterals =>
      ShortSwitch(s.trees.literalTypes, b);
    case InDistance =>
      if s.distanceTurn.Due(s.trees.distanceTypes) {
        ShortSwitch(s.trees.distanceTypes, b);
      } else {
        DistanceReading.DistanceIsShort(s.trees.params, DistanceTree(f, s), b);
      }
  }

  /** And what is kept of a symbol that has not arrived, instead of being put back, is less than a codeword. */
  lemma KeptIsShort(f: Format, s: Snapshot, b: Bits)
    requires f.Valid() && Live(f, s) && Read(f, s, b).None? && !Restores(f, s, b)
    requires s.stage.InCommand? || s.stage.InLiterals? || s.stage.InDistance?
    ensures |b| < MAX_LENGTH
  {
    hide SymbolsBelow, RepresentsCode, CommandAt, DistanceReading.DistanceAt, Blocks.SwitchBits, LiteralTree,
         CommandTree, DistanceTree, Decode, Good, Pow2;
    if |b| >= MAX_LENGTH {
      match s.stage
      case InCommand =>
        if s.commandTurn.Due(s.trees.commandTypes) {
          ByCode(s.trees.commandTypes.types, s.trees.commandTypes.num + 2);
          DecodeIsTotal(s.trees.commandTypes.types, b);
        } else {
          CodesParts(f.lut, CommandTree(f, s));
          DecodeIsTotal(CommandTree(f, s), b);
        }
      case InLiterals =>
        if s.literalTurn.Due(s.trees.literalTypes) {
          ByCode(s.trees.literalTypes.types, s.trees.literalTypes.num + 2);
          DecodeIsTotal(s.trees.literalTypes.types, b);
        } else {
          DecodeIsTotal(LiteralTree(f, s), b);
        }
      case InDistance =>
        if s.distanceTurn.Due(s.trees.distanceTypes) {
          ByCode(s.trees.distanceTypes.types, s.trees.distanceTypes.num + 2);
          DecodeIsTotal(s.trees.distanceTypes.types, b);
        } else {
          DecodeIsTotal(DistanceTree(f, s), b);
        }
    }
  }

  lemma ShortSwitch(c: Switching, b: Bits)
    requires c.Valid() && c.num >= 2 && ReadSwitch(c, b).None?
    ensures |b| < LONGEST_READ
  {
    hide SymbolsBelow, RepresentsCode, Blocks.SwitchAt;
    ByCode(c.types, c.num + 2);
    ByCode(c.counts, 26);
    Blocks.SwitchIsShort(c.types, c.counts, b);
  }

  // ---------- Progress ----------

  const BYTE_RANK := 1_200_000 // a byte that is still owed outweighs
  const LONG_RANK := 600_000   // the longest command that can be read without taking a bit

  function DueRank(c: Switching, t: Turn): (n: nat)
    ensures n <= 1
  {
    if t.Due(c) then 1 else 0
  }

  /** Falls with every read that takes no bits. */
  function StageRank(s: Snapshot): (n: nat) {
    var owed := BYTE_RANK * Max(0, s.st.remaining);
    var copy, rest := 4 * s.prefix.copyLength, 4 * s.counter;
    match s.stage
    case InPrelude(_) => 1
    case InHeader(h) =>
      if h.substate.HeaderUncompressed? then BYTE_RANK * (h.remainingLen + 1) + LONG_RANK + 3 else 0
    case InPadding(_) => 3
    case InTrees => owed + LONG_RANK + 2
    case InCommand => owed + LONG_RANK + DueRank(s.trees.commandTypes, s.commandTurn)
    case InLiterals => owed + copy + rest + 16 + DueRank(s.trees.literalTypes, s.literalTurn)
    case LiteralsFull => owed + copy + rest + 18
    case InDistance => owed + copy + 10 + DueRank(s.trees.distanceTypes, s.distanceTurn)
    case InCopy => owed + LONG_RANK + rest + 8
    case CopyFull => owed + LONG_RANK + rest + 10
    case WordFull => owed + LONG_RANK + 2
    case StoredFull => 3
    case Closing => 2
    case Delivering => 1
    case _ => 0
  }

  lemma ResumeProgresses(f: Format, s: Snapshot)
    requires StatusOf(f, s).Blocked?
    ensures StageRank(Resume(f, s)) < StageRank(s)
  {
    hide Good;
  }

  /** A read without bits, in a state that makes sense, brings the end nearer. */
  lemma ReadProgresses(f: Format, s: Snapshot, b: Bits)
    requires f.Valid() && Live(f, s) && Next(f, s, b).Some? && Next(f, s, b).value.0 == 0
    ensures StageRank(Next(f, s, b).value.1) < StageRank(s)
  {
    hide Next, Read, Act, Fits, StageRank, Live, Format.Valid;
    NextParts(f, s, b);
    var item := Read(f, s, b).value.1;
    ActProgresses(f, s, b, item);
    RankIgnoresBit(Act(f, s, item), s.bit % 8);
  }

  lemma RankIgnoresBit(s: Snapshot, bit: nat)
    ensures StageRank(s.(bit := bit)) == StageRank(s)
  {
  }

  lemma ActProgresses(f: Format, s: Snapshot, b: Bits, item: Item)
    requires f.Valid() && Live(f, s) && Fits(s, item) && Read(f, s, b) == Some((0, item))
    ensures StageRank(Act(f, s, item)) < StageRank(s)
  {
    hide Act, Fits, StageRank, Read, Format.Valid, Good;
    match s.stage {
      case InHeader(_) => HeaderProgresses(f, s, b, item);
      case InCommand => CommandProgresses(f, s, b, item);
      case InLiterals => LiteralProgresses(f, s, b, item);
      case InDistance => CodeProgresses(f, s, b, item);
      case _ => PlainProgresses(f, s, b, item);
    }
  }

  lemma HeaderProgresses(f: Format, s: Snapshot, b: Bits, item: Item)
    requires f.Valid() && Live(f, s) && Fits(s, item) && Read(f, s, b) == Some((0, item))
    requires s.stage.InHeader?
    ensures StageRank(Act(f, s, item)) < StageRank(s)
  {
    hide TakeField, StageRank, Format.Valid, RecentGood, TurnsGood, PosGood, Pow2, Value;
    FieldProgresses(s, s.stage.fields, item.v);
  }

  lemma CommandProgresses(f: Format, s: Snapshot, b: Bits, item: Item)
    requires f.Valid() && Live(f, s) && Fits(s, item) && Read(f, s, b) == Some((0, item))
    requires s.stage.InCommand?
    ensures StageRank(Act(f, s, item)) < StageRank(s)
  {
    hide Pow2, Value, CopyNaive, Groups.Valid, SymbolsBelow, RepresentsCode, CommandAt, Decode,
         DistanceReading.DistanceAt, Blocks.SwitchBits, Format.Valid, LiteralTree, CommandTree, DistanceTree,
         RecentGood, TurnsGood, PosGood;
    if item.Prefixed? {
      PrefixFits(f, s, b);
    }
  }

  lemma LiteralProgresses(f: Format, s: Snapshot, b: Bits, item: Item)
    requires f.Valid() && Live(f, s) && Fits(s, item) && Read(f, s, b) == Some((0, item))
    requires s.stage.InLiterals?
    ensures StageRank(Act(f, s, item)) < StageRank(s)
  {
    hide Pow2, Value, CopyNaive, Groups.Valid, SymbolsBelow, RepresentsCode, CommandAt, Decode,
         DistanceReading.DistanceAt, Blocks.SwitchBits, Format.Valid, LiteralTree, CommandTree, DistanceTree,
         RecentGood, TurnsGood, PosGood;
  }

  lemma CodeProgresses(f: Format, s: Snapshot, b: Bits, item: Item)
    requires f.Valid() && Live(f, s) && Fits(s, item) && Read(f, s, b) == Some((0, item))
    requires s.stage.InDistance?
    ensures StageRank(Act(f, s, item)) < StageRank(s)
  {
    hide Pow2, Value, Groups.Valid, SymbolsBelow, RepresentsCode, DistanceReading.DistanceAt, Blocks.SwitchBits,
         Format.Valid, DistanceTree, TakeDistance, TurnsGood, PosGood;
    if item.Code? {
      WordProgresses(f, s, b, item.distance);
    }
  }

  lemma PlainProgresses(f: Format, s: Snapshot, b: Bits, item: Item)
    requires f.Valid() && Live(f, s) && Fits(s, item) && Read(f, s, b) == Some((0, item))
    requires !s.stage.InHeader? && !s.stage.InCommand? && !s.stage.InLiterals? && !s.stage.InDistance?
    ensures StageRank(Act(f, s, item)) < StageRank(s)
  {
    hide Pow2, Value, CopyNaive, Groups.Valid, Format.Valid, RecentGood, TurnsGood;
  }

  lemma FieldProgresses(s: Snapshot, h: Headers.Fields, v: nat)
    requires s.stage == InHeader(h) && StageGood(s) && Headers.Width(h) == 0
    ensures StageRank(TakeField(s, h, v)) < StageRank(s)
  {
  }

  lemma WordProgresses(f: Format, s: Snapshot, b: Bits, code: DistanceCode)
    requires f.Valid() && Live(f, s) && s.stage.InDistance? && Read(f, s, b) == Some((0, Code(code))) && code.Valid()
    ensures StageRank(TakeDistance(f, s, code)) < StageRank(s)
  {
    hide Pow2, Value, Reference, Transformed, Read, Format.Valid, Groups.Valid, DistanceCode.Resolve, Push;
    NearDistance(f, s, b, code);
    var d, reach := code.Resolve(s.st.recent), f.Reach(s.st.hist);
    if reach < d <= MAX_ALLOWED {
      var r := Reference(f.env, s.prefix.copyLength, d - reach - 1);
      if r.Some? {
        WordIsNotEmpty(f.env, s.prefix.copyLength, d - reach - 1);
      }
    }
  }

  /** A distance read without bits is one of the recent ones, give or take 3, or a small direct one. */
  lemma NearDistance(f: Format, s: Snapshot, b: Bits, code: DistanceCode)
    requires f.Valid() && Live(f, s) && s.stage.InDistance? && Read(f, s, b) == Some((0, Code(code))) && code.Valid()
    ensures var d := code.Resolve(s.st.recent);
            d <= Max(16, f.Reach(s.st.hist)) + 120 || d > MAX_ALLOWED
  {
    hide SymbolsBelow, RepresentsCode, DistanceTree, Groups.Valid, Format.Valid, DistanceReading.DistanceAt,
         Blocks.SwitchBits, Params.Valid;
    if s.prefix.distanceCode < 0 {
      DistanceReading.DistanceWithoutBits(s.trees.params, DistanceTree(f, s), b);
    }
  }

  /** A dictionary word that is referred to from so near keeps at least a byte. */
  lemma WordIsNotEmpty(env: Env, len: nat, wordId: nat)
    requires env.Valid() && wordId < 256 && Reference(env, len, wordId).Some?
    ensures var (word, t) := Reference(env, len, wordId).value;
            Transformed(env.tables, word, t) != []
  {
    hide Reference;
    var (word, t) := Reference(env, len, wordId).value;
    if len <= 9 {
      FirstOfNear(env, len, wordId);
      FirstTransform(env.tables, word);
    } else {
      RowIsSane(env, t);
      KeepsSome(env.tables, word, t);
    }
  }

  lemma FirstOfNear(env: Env, len: nat, wordId: nat)
    requires env.Valid() && wordId < 256 && len <= 9 && Reference(env, len, wordId).Some?
    ensures Reference(env, len, wordId).value.1 == 0
  {
    Pow2AtLeast(SIZE_BITS[len], 10);
    DivModUnique(wordId, Pow2(SIZE_BITS[len]), 0, wordId);
  }

  lemma RowIsSane(env: Env, t: nat)
    requires env.Valid() && t < |env.tables.rows|
    ensures env.tables.rows[t].kind <= OMIT_FIRST_9
  {
    assert env.tables.rows[t] in env.tables.rows;
  }

  lemma KeepsSome(tables: Tables, word: seq<Byte>, t: nat)
    requires tables.Valid() && t < |tables.rows| && tables.rows[t].kind <= OMIT_FIRST_9 && |word| > 9
    ensures Transformed(tables, word, t) != []
  {
    hide Tables.Valid, Tables.Text, UpperFirst, UpperFrom;
    assert |Kept(word, tables.rows[t].kind)| > 0;
    assert |Middle(word, tables.rows[t].kind)| > 0;
  }

  function Rank(f: Format, s: Snapshot): (n: nat)
    requires f.Valid()
  {
    if Good(f, s) then StageRank(s) else 0
  }

  // ---------- The machine ----------

  /**
   * The decoder over bits. Counted, it stops when a count has run out that cannot be renewed; otherwise it goes on, as
   * if meta-blocks never needed so much.
   */
  function BitMachine(f: Format, counted: bool): (m: Machine<Snapshot>)
    requires f.Valid()
  {
    hide Next, Live, StageRank, Format.Valid, Restores, Resume, StatusOf, Rank;
    Machine(
      s => if counted && Spent(s) then Failed else StatusOf(f, s),
      (s, b) => if Live(f, s) && !(counted && Spent(s)) then Next(f, s, b) else None,
      s => Resume(f, s),
      (s, b) => Restores(f, s, b) && !(counted && Spent(s)),
      (s: Snapshot) => if s.stage.InCommand? || s.stage.InLiterals? || s.stage.InDistance? then 7 else 0,
      s => Rank(f, s))
  }

  lemma ReadsArePrefixed(f: Format, counted: bool)
    requires f.Valid()
    ensures Streaming.Prefixed(BitMachine(f, counted))
  {
    hide Next, Live, Format.Valid, Restores, Resume, StatusOf, Rank, Spent;
    var m := BitMachine(f, counted);
    forall s, b, more | m.decode(s, b).Some?
      ensures m.decode(s, b + more) == m.decode(s, b)
    {
      NextAgrees(f, s, b, b + more);
    }
    forall s, b | m.decode(s, b).Some?
      ensures m.decode(s, b).value.0 <= |b|
      ensures |b| >= PEEK ==> m.decode(s, b[..Max(m.decode(s, b).value.0, PEEK)]) == m.decode(s, b)
    {
      NextAgrees(f, s, b, b);
      var n := m.decode(s, b).value.0;
      if |b| >= PEEK {
        NextAgrees(f, s, b, b[..Max(n, PEEK)]);
      }
    }
  }

  lemma StepsTerminate(f: Format, counted: bool)
    requires f.Valid()
    ensures Terminating(BitMachine(f, counted))
  {
    hide Next, Live, StageRank, Format.Valid, Restores, Resume, Good, Spent;
    var m := BitMachine(f, counted);
    forall s, b | m.decode(s, b).Some? && m.decode(s, b).value.0 == 0
      ensures m.rank(m.decode(s, b).value.1) < m.rank(s)
    {
      ReadProgresses(f, s, b);
      LiveIsGood(f, s);
    }
    forall s | m.status(s).Blocked?
      ensures m.rank(m.resume(s)) < m.rank(s)
    {
      ResumeProgresses(f, s);
    }
  }

  /** It is of the kind that the driver relies on, output included. */
  lemma BitMachineIsLawful(f: Format, counted: bool)
    requires f.Valid()
    ensures Lawful(BitMachine(f, counted))
  {
    hide Next, Live, Format.Valid, Restores, Resume, StatusOf, Rank, Streaming.Prefixed, Terminating;
    ReadsArePrefixed(f, counted);
    StepsTerminate(f, counted);
    var m := BitMachine(f, counted);
    forall s, b | m.restores(s, b) && m.decode(s, b).None?
      ensures |b| < LONGEST_READ
    {
      NothingNext(f, s, b);
      RestoredIsShort(f, s, b);
    }
  }

  lemma LiveIsGood(f: Format, s: Snapshot)
    requires f.Valid() && Live(f, s)
    ensures Good(f, s)
  {
  }

  lemma NothingNext(f: Format, s: Snapshot, b: Bits)
    requires f.Valid() && Restores(f, s, b)
    ensures Live(f, s) && (Next(f, s, b).None? ==> Read(f, s, b).None?)
  {
  }
}
