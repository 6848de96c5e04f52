/**
 * Writing whole streams, meta-block after meta-block and symbol after symbol, and that a decoder which is given what
 * has been written produces what the commands stand for. The writer keeps its own account of block types, contexts and
 * the position in the stream.
 */
module StreamWriting {
  import opened Bytes
  import opened Results
  import opened BitReader
  import opened SymbolDecoding
  import opened Transform
  import opened SlidingWindow
  import opened Distances
  import opened CommandSpec
  import opened CommandPrefixes
  import opened BitDecoder
  import opened BitMeaning
  import opened BitPositions
  import opened SpentCounts
  import opened EndToEnd
  import Streaming
  import Blocks = BlockTypes
  import DistanceReading
  import Headers = MetablockHeaders
  import TreeReading
  import TreeWriting

  // ---------- Block types ----------

  /** The block types gone through, the two that every meta-block starts from included, and what is left of the last. */
  datatype Track = Track(types: seq<nat>, left: nat)

  /** A switch to another block type: by which code, and for how many symbols. */
  datatype SwitchPlan = SwitchPlan(to: nat, code: nat, word: Bits, count: nat, countCode: nat, countWord: Bits)

  function FirstTrack(first: nat): (t: Track) {
    Track([1, 0], first)
  }

  function Latest(t: Track, k: nat): (n: nat) {
    if 1 <= k <= |t.types| then t.types[|t.types| - k] else 0
  }

  /** 0 is the type before the last one, 1 the next one in turn, and any other code names a type. */
  predicate Names(code: nat, t: Track, to: nat, num: nat) {
    to < num &&
    if code == 0 then to == Latest(t, 2)
    else if code == 1 then to == if Latest(t, 1) + 1 < num then Latest(t, 1) + 1 else 0
    else code == to + 2
  }

  /** A switch is written exactly where the last block has been used up; a single block type has to suffice. */
  ghost predicate SwitchFits(c: Switching, t: Track, p: Option<SwitchPlan>) {
    if c.num >= 2 && t.left == 0 then
      && p.Some? && TreeWriting.Spells(c.types, p.value.word, p.value.code) && Names(p.value.code, t, p.value.to, c.num)
      && TreeWriting.CountFits(c.counts, p.value.countWord, p.value.countCode, p.value.count)
    else p.None? && t.left > 0
  }

  function SwitchText(p: Option<SwitchPlan>): (b: Bits) {
    if p.None? || p.value.countCode >= TreeReading.COUNT_SYMBOLS
       || p.value.count < Blocks.LENGTH_OFFSETS[p.value.countCode] then []
    else p.value.word + TreeWriting.CountBits(p.value.countWord, p.value.countCode, p.value.count)
  }

  function Entered(t: Track, p: Option<SwitchPlan>): (r: Track) {
    if p.None? then t else Track(t.types + [p.value.to], p.value.count)
  }

  function OneLess(t: Track): (r: Track) {
    if t.left == 0 then t else t.(left := t.left - 1)
  }

  /** The decoder stands where the writer does. */
  predicate Tracks(turn: Turn, t: Track) {
    |t.types| >= 2 && turn == Turn(Latest(t, 1), Latest(t, 2), t.left)
  }

  lemma SwitchIsRead(c: Switching, turn: Turn, t: Track, p: SwitchPlan, rest: Bits)
    requires c.Valid() && turn.InRange(c) && Tracks(turn, t) && c.num >= 2 && t.left == 0
    requires SwitchFits(c, t, Some(p))
    ensures var w := Blocks.Switch(p.code, p.count);
            && ReadSwitch(c, SwitchText(Some(p)) + rest) == Some((|SwitchText(Some(p))|, Switched(w)))
            && Tracks(turn.Switched(c, w), Entered(t, Some(p)))
    ensures p.count > 0
  {
    hide SymbolsBelow, RepresentsCode, Decode, Blocks.CountAt, Blocks.SwitchBits, TreeWriting.CountBits, Names, Tracks;
    ByCode(c.counts, 26);
    var x := TreeWriting.CountBits(p.countWord, p.countCode, p.count);
    TreeWriting.CountRead(c.counts, p.countWord, p.countCode, p.count, rest);
    TreeWriting.SwitchRead(c.types, c.counts, p.word, p.code, x, p.count, rest);
    SwitchTracked(c, turn, t, p);
  }

  lemma SwitchTracked(c: Switching, turn: Turn, t: Track, p: SwitchPlan)
    requires c.num >= 2 && turn.InRange(c) && Tracks(turn, t) && Names(p.code, t, p.to, c.num)
    ensures Tracks(turn.Switched(c, Blocks.Switch(p.code, p.count)), Entered(t, Some(p)))
  {
    hide Blocks.NextType;
    NamedIsNext(c.num, turn, t, p);
  }

  lemma NamedIsNext(num: nat, turn: Turn, t: Track, p: SwitchPlan)
    requires turn.last < num && turn.before < num && Tracks(turn, t) && Names(p.code, t, p.to, num)
    ensures Blocks.NextType(p.code, turn.last, turn.before, num) == p.to
  {
    var wraps := turn.last + 1 >= num;
    DivModUnique(turn.last + 1, num, if wraps then 1 else 0, if wraps then 0 else turn.last + 1);
  }

  // ---------- Commands ----------

  datatype LiteralPlan = LiteralPlan(block: Option<SwitchPlan>, word: Bits, value: Byte)

  datatype DistancePlan =
    | Omitted  // where the literals complete the meta-block
    | Same     // where the command implies the last distance
    | Explicit(block: Option<SwitchPlan>, word: Bits, code: DistanceCode)

  datatype CommandPlan = CommandPlan(
    block: Option<SwitchPlan>, word: Bits, symbol: nat, literals: seq<LiteralPlan>, copyLength: nat,
    distance: DistancePlan)

  /** Where the writer stands within a meta-block. */
  datatype Place = Place(st: State, literal: Track, command: Track, distance: Track)

  /** By the block type and the last two bytes. */
  ghost function TreeOfLiteral(f: Format, g: Trees, type_: nat, hist: seq<Byte>): (n: nat)
    requires f.Valid() && type_ < g.literalTypes.num
    ensures n < |g.literals|
  {
    hide SymbolsBelow, RepresentsCode;
    var table := f.lookup[g.modes[type_]];
    var context := BitOr(table[FromEnd(hist, 1)], table[256 + FromEnd(hist, 2)]);
    ContextIsSmall(table, FromEnd(hist, 1), FromEnd(hist, 2));
    assert 64 * type_ + context < 64 * g.literalTypes.num;
    g.contextMap[64 * type_ + context]
  }

  lemma ContextIsSmall(table: seq<nat>, p1: Byte, p2: Byte)
    requires |table| == 512 && Small(table)
    ensures BitOr(table[p1], table[256 + p2]) < 64
  {
    assert Pow2(6) == 64;
    BitOrBound(table[p1], table[256 + p2], 6);
  }

  /** By the block type and the context of the command. */
  ghost function TreeOfDistance(g: Trees, type_: nat, context: nat): (n: nat)
    requires type_ < g.distanceTypes.num && context < 4
    ensures n < |g.distances|
  {
    hide SymbolsBelow, RepresentsCode;
    assert 4 * type_ + context < 4 * g.distanceTypes.num;
    g.distanceMap[4 * type_ + context]
  }

  ghost predicate LiteralFits(f: Format, g: Trees, t: Track, hist: seq<Byte>, p: LiteralPlan)
    requires f.Valid()
  {
    hide SymbolsBelow, RepresentsCode;
    var type_ := Latest(Entered(t, p.block), 1);
    && SwitchFits(g.literalTypes, t, p.block) && type_ < g.literalTypes.num
    && TreeWriting.Spells(g.literals[TreeOfLiteral(f, g, type_, hist)], p.word, p.value)
  }

  function AfterSymbol(t: Track, block: Option<SwitchPlan>): (r: Track) {
    OneLess(Entered(t, block))
  }

  ghost predicate LiteralsFit(f: Format, g: Trees, t: Track, hist: seq<Byte>, ps: seq<LiteralPlan>)
    requires f.Valid()
    decreases |ps|
  {
    hide Format.Valid, LiteralFits;
    ps != [] ==>
      && LiteralFits(f, g, t, hist, ps[0])
      && LiteralsFit(f, g, AfterSymbol(t, ps[0].block), hist + [ps[0].value], ps[1..])
  }

  function LiteralText(p: LiteralPlan): (b: Bits) {
    SwitchText(p.block) + p.word
  }

  function LiteralsText(ps: seq<LiteralPlan>): (b: Bits) {
    if ps == [] then [] else LiteralText(ps[0]) + LiteralsText(ps[1..])
  }

  function AfterSymbols(t: Track, ps: seq<LiteralPlan>): (r: Track)
    decreases |ps|
  {
    if ps == [] then t else AfterSymbols(AfterSymbol(t, ps[0].block), ps[1..])
  }

  function Values(ps: seq<LiteralPlan>): (bytes: seq<Byte>)
    ensures |bytes| == |ps|
  {
    if ps == [] then [] else [ps[0].value] + Values(ps[1..])
  }

  /** The symbol and the extra bits of a distance. */
  function SymbolOf(q: Params, code: DistanceCode): (r: (nat, nat)) {
    match code
    case Implied => (0, 0)
    case Short(c) => (c, 0)
    case Direct(d) => if d == 0 then (0, 0) else Encode(q, d)
  }

  ghost predicate DistanceFits(g: Trees, t: Track, context: nat, p: DistancePlan)
    requires p.Explicit?
  {
    hide SymbolsBelow, RepresentsCode;
    var type_ := Latest(Entered(t, p.block), 1);
    && SwitchFits(g.distanceTypes, t, p.block) && type_ < g.distanceTypes.num && context < 4
    && p.code.Valid() && !p.code.Implied?
    && TreeWriting.Spells(g.distances[TreeOfDistance(g, type_, context)], p.word, SymbolOf(g.params, p.code).0)
  }

  function DistanceWord(q: Params, word: Bits, code: DistanceCode): (b: Bits) {
    var (symbol, extra) := SymbolOf(q, code);
    word + BitsOf(extra, ExtraBits(q, symbol))
  }

  function DistanceText(q: Params, p: DistancePlan): (b: Bits) {
    match p
    case Omitted => []
    case Same => []
    case Explicit(block, word, code) => SwitchText(block) + DistanceWord(q, word, code)
  }

  function DistanceCodeOf(p: DistancePlan): (code: DistanceCode) {
    if p.Explicit? then p.code else Implied
  }

  function CommandOf(p: CommandPlan): (c: Command) {
    Command(Values(p.literals), p.copyLength, DistanceCodeOf(p.distance))
  }

  /** The row that the symbol names allows these lengths. */
  predicate LengthsFit(v: CmdLutElement, insertLength: nat, copyLength: nat) {
    && v.insertOffset <= insertLength < v.insertOffset + Pow2(v.insertExtraBits)
    && v.copyOffset <= copyLength < v.copyOffset + Pow2(v.copyExtraBits)
  }

  ghost predicate PrefixFits(f: Format, g: Trees, t: Track, p: CommandPlan)
    requires f.Valid()
  {
    hide SymbolsBelow, RepresentsCode;
    var type_ := Latest(Entered(t, p.block), 1);
    && SwitchFits(g.commandTypes, t, p.block) && type_ < g.commandTypes.num && p.symbol < |f.lut|
    && TreeWriting.Spells(g.commands[type_], p.word, p.symbol)
    && LengthsFit(f.lut[p.symbol], |p.literals|, p.copyLength)
  }

  function PrefixText(f: Format, p: CommandPlan): (b: Bits) {
    SwitchText(p.block) +
    if p.symbol < |f.lut| && LengthsFit(f.lut[p.symbol], |p.literals|, p.copyLength) then
      Written(f.lut[p.symbol], p.word, |p.literals|, p.copyLength)
    else []
  }

  /** A distance is written unless the command implies it or nothing is left to be copied. */
  ghost predicate TailFits(f: Format, g: Trees, w: Place, p: CommandPlan)
    requires f.Valid() && p.symbol < |f.lut|
  {
    var v := f.lut[p.symbol];
    if p.literals != [] && w.st.remaining <= |p.literals| then p.distance.Omitted?
    else if v.distanceCode >= 0 then p.distance.Same?
    else p.distance.Explicit? && DistanceFits(g, w.distance, v.context, p.distance)
  }

  ghost predicate CommandFits(f: Format, g: Trees, w: Place, p: CommandPlan)
    requires f.Valid()
  {
    PrefixFits(f, g, w.command, p) && LiteralsFit(f, g, w.literal, w.st.hist, p.literals) && TailFits(f, g, w, p)
  }

  function CommandText(f: Format, q: Params, p: CommandPlan): (b: Bits) {
    PrefixText(f, p) + (LiteralsText(p.literals) + DistanceText(q, p.distance))
  }

  /** The counts go down, and the bytes are those of the command. */
  function AfterCommandPlan(w: Place, p: CommandPlan, st: State): (r: Place) {
    Place(st, AfterSymbols(w.literal, p.literals), AfterSymbol(w.command, p.block),
          if p.distance.Explicit? then AfterSymbol(w.distance, p.distance.block) else w.distance)
  }

  /** Commands that complete the meta-block, and not before the last of them. */
  ghost predicate CommandsFit(f: Format, g: Trees, w: Place, ps: seq<CommandPlan>)
    requires f.Valid() && WellFormed(w.st.recent)
    decreases |ps|
  {
    hide Format.Valid, CommandFits, ExecCommand, WellFormed;
    ps != [] && CommandFits(f, g, w, ps[0]) && CommandOf(ps[0]).distance.Valid() &&
    var e := ExecCommand(f.env, w.st, CommandOf(ps[0]));
    && !e.Rejected? && e.st.remaining >= 0
    && if e.Running? then CommandsFit(f, g, AfterCommandPlan(w, ps[0], e.st), ps[1..]) else |ps| == 1
  }

  function CommandsText(f: Format, q: Params, ps: seq<CommandPlan>): (b: Bits) {
    if ps == [] then [] else CommandText(f, q, ps[0]) + CommandsText(f, q, ps[1..])
  }

  function CommandsOf(ps: seq<CommandPlan>): (cmds: seq<Command>) {
    if ps == [] then [] else [CommandOf(ps[0])] + CommandsOf(ps[1..])
  }

  // ---------- Steps of the decoder ----------

  // Only a category has moved on, and the place in the byte.

  predicate CommandTurned(s: Snapshot, at: nat, u: Snapshot) {
    u == s.(commandTurn := u.commandTurn, bit := InByte(at))
  }

  predicate LiteralTurned(s: Snapshot, at: nat, u: Snapshot) {
    u == s.(literalTurn := u.literalTurn, bit := InByte(at))
  }

  predicate DistanceTurned(s: Snapshot, at: nat, u: Snapshot) {
    u == s.(distanceTurn := u.distanceTurn, bit := InByte(at))
  }

  lemma LiteralTurnedParts(s: Snapshot, at: nat, u: Snapshot)
    requires LiteralTurned(s, at, u)
    ensures u.stage == s.stage && u.trees == s.trees && u.st == s.st
  {
  }

  lemma DistanceTurnedParts(s: Snapshot, at: nat, u: Snapshot)
    requires DistanceTurned(s, at, u)
    ensures u.stage == s.stage && u.trees == s.trees && u.st == s.st && u.prefix == s.prefix
  {
  }

  /** At a command, the switch that may be in front of it. */
  lemma CommandBlockRead(f: Format, s: Snapshot, at: nat, t: Track, p: Option<SwitchPlan>, next: nat, rest: Bits)
    returns (u: Snapshot)
    requires f.Valid() && Live(f, s) && s.stage.InCommand? && s.bit == InByte(at)
    requires Tracks(s.commandTurn, t) && SwitchFits(s.trees.commandTypes, t, p) && next == at + |SwitchText(p)|
    ensures Live(f, u) && CommandTurned(s, next, u)
    ensures Tracks(u.commandTurn, Entered(t, p)) && Entered(t, p).left > 0
    ensures RunOf(f, s, SwitchText(p) + rest) == RunOf(f, u, rest)
  {
    hide Format.Valid, Good, ReadSwitch, Switching.Valid, RunOf, Tracks, SwitchText, Read, Stepped, Fits, Spent, Live,
         SwitchFits, InByte;
    if p.Some? {
      var w, n := Blocks.Switch(p.value.code, p.value.count), |SwitchText(p)|;
      CommandSwitchRead(f, s, t, p.value, rest);
      ItemIsTaken(f, s, SwitchText(p) + rest, n, Switched(w));
      u := Stepped(f, s, n, Switched(w));
      CommandSwitched(f, s, n, w);
      assert (SwitchText(p) + rest)[n..] == rest;
      BitAfter(at, n);
    } else {
      u := s;
      NoSwitch(s.trees.commandTypes, t, rest);
    }
  }

  lemma CommandSwitchRead(f: Format, s: Snapshot, t: Track, p: SwitchPlan, rest: Bits)
    requires f.Valid() && Live(f, s) && s.stage.InCommand?
    requires Tracks(s.commandTurn, t) && SwitchFits(s.trees.commandTypes, t, Some(p))
    ensures !Spent(s) && p.count > 0
    ensures var w := Blocks.Switch(p.code, p.count);
            && Read(f, s, SwitchText(Some(p)) + rest) == Some((|SwitchText(Some(p))|, Switched(w)))
            && s.trees.commandTypes.num > 0
            && Tracks(s.commandTurn.Switched(s.trees.commandTypes, w), Entered(t, Some(p)))
  {
    hide Format.Valid, Good, ReadSwitch, Switching.Valid, SwitchText, Turn.Switched, Entered, TreeWriting.Spells,
         TreeWriting.CountFits;
    CategoriesValid(f, s);
    SwitchIsRead(s.trees.commandTypes, s.commandTurn, t, p, rest);
  }

  lemma CommandSwitched(f: Format, s: Snapshot, n: nat, w: Blocks.Switch)
    requires f.Valid() && Live(f, s) && s.stage.InCommand? && Fits(s, Switched(w))
    requires Good(f, Stepped(f, s, n, Switched(w))) && s.trees.commandTypes.num > 0
    ensures Live(f, Stepped(f, s, n, Switched(w)))
    ensures Stepped(f, s, n, Switched(w))
            == s.(commandTurn := s.commandTurn.Switched(s.trees.commandTypes, w), bit := InByte(s.bit + n))
  {
    hide Format.Valid, Good, Turn.Switched, Groups.Valid, TakeField, TakePadding, SkipByte, TakeStored, TakeTrees,
         TakePrefix, TakeLiteral, TakeDistance, Copy, Close, Pow2, Wanted, PrefixGood, FitsSwitch;
  }

  /** At a literal likewise. */
  lemma LiteralBlockRead(f: Format, s: Snapshot, at: nat, t: Track, p: Option<SwitchPlan>, next: nat, rest: Bits)
    returns (u: Snapshot)
    requires f.Valid() && Live(f, s) && s.stage.InLiterals? && s.bit == InByte(at)
    requires Tracks(s.literalTurn, t) && SwitchFits(s.trees.literalTypes, t, p) && next == at + |SwitchText(p)|
    ensures Live(f, u) && LiteralTurned(s, next, u)
    ensures Tracks(u.literalTurn, Entered(t, p)) && Entered(t, p).left > 0
    ensures RunOf(f, s, SwitchText(p) + rest) == RunOf(f, u, rest)
  {
    hide Format.Valid, Good, ReadSwitch, Switching.Valid, RunOf, Tracks, SwitchText, Read, Stepped, Fits, Spent, Live,
         SwitchFits, InByte;
    if p.Some? {
      var w, n := Blocks.Switch(p.value.code, p.value.count), |SwitchText(p)|;
      LiteralSwitchRead(f, s, t, p.value, rest);
      ItemIsTaken(f, s, SwitchText(p) + rest, n, Switched(w));
      u := Stepped(f, s, n, Switched(w));
      LiteralSwitched(f, s, n, w);
      assert (SwitchText(p) + rest)[n..] == rest;
      BitAfter(at, n);
    } else {
      u := s;
      NoSwitch(s.trees.literalTypes, t, rest);
    }
  }

  lemma LiteralSwitchRead(f: Format, s: Snapshot, t: Track, p: SwitchPlan, rest: Bits)
    requires f.Valid() && Live(f, s) && s.stage.InLiterals?
    requires Tracks(s.literalTurn, t) && SwitchFits(s.trees.literalTypes, t, Some(p))
    ensures !Spent(s) && p.count > 0
    ensures var w := Blocks.Switch(p.code, p.count);
            && Read(f, s, SwitchText(Some(p)) + rest) == Some((|SwitchText(Some(p))|, Switched(w)))
            && s.trees.literalTypes.num > 0
            && Tracks(s.literalTurn.Switched(s.trees.literalTypes, w), Entered(t, Some(p)))
  {
    hide Format.Valid, Good, ReadSwitch, Switching.Valid, SwitchText, Turn.Switched, Entered, TreeWriting.Spells,
         TreeWriting.CountFits;
    CategoriesValid(f, s);
    SwitchIsRead(s.trees.literalTypes, s.literalTurn, t, p, rest);
  }

  lemma LiteralSwitched(f: Format, s: Snapshot, n: nat, w: Blocks.Switch)
    requires f.Valid() && Live(f, s) && s.stage.InLiterals? && Fits(s, Switched(w))
    requires Good(f, Stepped(f, s, n, Switched(w))) && s.trees.literalTypes.num > 0
    ensures Live(f, Stepped(f, s, n, Switched(w)))
    ensures Stepped(f, s, n, Switched(w))
            == s.(literalTurn := s.literalTurn.Switched(s.trees.literalTypes, w), bit := InByte(s.bit + n))
  {
    hide Format.Valid, Good, Turn.Switched, Groups.Valid, TakeField, TakePadding, SkipByte, TakeStored, TakeTrees,
         TakePrefix, TakeLiteral, TakeDistance, Copy, Close, Pow2, Wanted, PrefixGood, FitsSwitch;
  }

  /** And at a distance that is not implied. */
  lemma DistanceBlockRead(f: Format, s: Snapshot, at: nat, t: Track, p: Option<SwitchPlan>, next: nat, rest: Bits)
    returns (u: Snapshot)
    requires f.Valid() && Live(f, s) && s.stage.InDistance? && s.prefix.distanceCode < 0 && s.bit == InByte(at)
    requires Tracks(s.distanceTurn, t) && SwitchFits(s.trees.distanceTypes, t, p) && next == at + |SwitchText(p)|
    ensures Live(f, u) && DistanceTurned(s, next, u)
    ensures Tracks(u.distanceTurn, Entered(t, p)) && Entered(t, p).left > 0
    ensures RunOf(f, s, SwitchText(p) + rest) == RunOf(f, u, rest)
  {
    hide Format.Valid, Good, ReadSwitch, Switching.Valid, RunOf, Tracks, SwitchText, Read, Stepped, Fits, Spent, Live,
         SwitchFits, InByte;
    if p.Some? {
      var w, n := Blocks.Switch(p.value.code, p.value.count), |SwitchText(p)|;
      DistanceSwitchRead(f, s, t, p.value, rest);
      ItemIsTaken(f, s, SwitchText(p) + rest, n, Switched(w));
      u := Stepped(f, s, n, Switched(w));
      DistanceSwitched(f, s, n, w);
      assert (SwitchText(p) + rest)[n..] == rest;
      BitAfter(at, n);
    } else {
      u := s;
      NoSwitch(s.trees.distanceTypes, t, rest);
    }
  }

  lemma DistanceSwitchRead(f: Format, s: Snapshot, t: Track, p: SwitchPlan, rest: Bits)
    requires f.Valid() && Live(f, s) && s.stage.InDistance? && s.prefix.distanceCode < 0
    requires Tracks(s.distanceTurn, t) && SwitchFits(s.trees.distanceTypes, t, Some(p))
    ensures !Spent(s) && p.count > 0
    ensures var w := Blocks.Switch(p.code, p.count);
            && Read(f, s, SwitchText(Some(p)) + rest) == Some((|SwitchText(Some(p))|, Switched(w)))
            && s.trees.distanceTypes.num > 0
            && Tracks(s.distanceTurn.Switched(s.trees.distanceTypes, w), Entered(t, Some(p)))
  {
    hide Format.Valid, Good, ReadSwitch, Switching.Valid, SwitchText, Turn.Switched, Entered, TreeWriting.Spells,
         TreeWriting.CountFits;
    CategoriesValid(f, s);
    SwitchIsRead(s.trees.distanceTypes, s.distanceTurn, t, p, rest);
  }

  lemma DistanceSwitched(f: Format, s: Snapshot, n: nat, w: Blocks.Switch)
    requires f.Valid() && Live(f, s) && s.stage.InDistance? && Fits(s, Switched(w))
    requires Good(f, Stepped(f, s, n, Switched(w))) && s.trees.distanceTypes.num > 0
    ensures Live(f, Stepped(f, s, n, Switched(w)))
    ensures Stepped(f, s, n, Switched(w))
            == s.(distanceTurn := s.distanceTurn.Switched(s.trees.distanceTypes, w), bit := InByte(s.bit + n))
  {
    hide Format.Valid, Good, Turn.Switched, Groups.Valid, TakeField, TakePadding, SkipByte, TakeStored, TakeTrees,
         TakePrefix, TakeLiteral, TakeDistance, Copy, Close, Pow2, Wanted, PrefixGood, FitsSwitch;
  }

  lemma CategoriesValid(f: Format, s: Snapshot)
    requires f.Valid() && Live(f, s)
    ensures s.trees.literalTypes.Valid() && s.trees.commandTypes.Valid() && s.trees.distanceTypes.Valid()
    ensures s.literalTurn.InRange(s.trees.literalTypes) && s.commandTurn.InRange(s.trees.commandTypes)
    ensures s.distanceTurn.InRange(s.trees.distanceTypes)
  {
    hide Format.Valid, RecentGood, PosGood, PrefixGood, Switching.Valid, Groups.LiteralsFit, Groups.DistancesFit;
  }

  lemma NoSwitch(c: Switching, t: Track, rest: Bits)
    requires SwitchFits(c, t, None)
    ensures SwitchText(None) + rest == rest && SwitchText(None) == [] && t.left > 0
  {
  }

  /** Where in its byte a bit of the stream is. */
  function InByte(at: nat): (n: nat)
    ensures n < 8
  {
    at % 8
  }

  lemma BitAfter(at: nat, n: nat)
    ensures InByte(InByte(at) + n) == InByte(at + n)
  {
  }

  lemma OneSymbolLess(turn: Turn, t: Track)
    requires Tracks(turn, t)
    ensures Tracks(turn.Used(), OneLess(t))
  {
  }

  /** What the prefix of a command leads to. */
  predicate PrefixKnown(s: Snapshot, p: Prefix, at: nat, u: Snapshot) {
    u == s.(stage := if p.insertLength == 0 then InDistance else InLiterals, prefix := p, counter := p.insertLength,
            st := s.st.(remaining := s.st.remaining - p.insertLength), commandTurn := u.commandTurn, bit := InByte(at))
  }

  function PrefixOf(f: Format, p: CommandPlan): (r: Prefix)
    requires p.symbol < |f.lut|
  {
    Prefix(|p.literals|, p.copyLength, f.lut[p.symbol].distanceCode, f.lut[p.symbol].context)
  }

  lemma PrefixSymbolRead(f: Format, s: Snapshot, p: CommandPlan, rest: Bits)
    requires f.Valid() && Live(f, s) && s.stage.InCommand? && s.commandTurn.count > 0 && p.symbol < |f.lut|
    requires TreeWriting.Spells(s.trees.commands[s.commandTurn.last], p.word, p.symbol)
    requires LengthsFit(f.lut[p.symbol], |p.literals|, p.copyLength)
    ensures !Spent(s)
    ensures var b := Written(f.lut[p.symbol], p.word, |p.literals|, p.copyLength);
            Read(f, s, b + rest) == Some((|b|, Prefixed(PrefixOf(f, p))))
  {
    hide Format.Valid, Good, Pow2, Written, CommandAt, Decode, RepresentsCode, SymbolsBelow, Codes;
    CommandPrefixes.RoundTrip(f.lut, CommandTree(f, s), p.word, p.symbol, |p.literals|, p.copyLength, rest);
  }

  lemma PrefixTaken(f: Format, s: Snapshot, n: nat, p: Prefix)
    requires f.Valid() && Live(f, s) && s.stage.InCommand? && Fits(s, Prefixed(p))
    ensures var u := Stepped(f, s, n, Prefixed(p));
            PrefixKnown(s, p, s.bit + n, u) && u.commandTurn == s.commandTurn.Used()
  {
    hide Format.Valid, Good, Turn.Switched, Groups.Valid, TakeField, TakePadding, SkipByte, TakeStored, TakeTrees,
         TakeLiteral, TakeDistance, Copy, Close, Pow2, Wanted, PrefixGood, FitsSwitch, Turn.Used;
  }

  lemma PrefixAlone(f: Format, s: Snapshot, b: Bits, p: Prefix, rest: Bits) returns (u: Snapshot)
    requires f.Valid() && Live(f, s) && s.stage.InCommand? && !Spent(s)
    requires Read(f, s, b + rest) == Some((|b|, Prefixed(p)))
    ensures Good(f, u) && PrefixKnown(s, p, s.bit + |b|, u) && u.commandTurn == s.commandTurn.Used()
    ensures RunOf(f, s, b + rest) == RunOf(f, u, rest)
  {
    hide Format.Valid, Good, RunOf, Read, Stepped, Fits, Spent, PrefixKnown, Turn.Used, Live, InByte;
    ItemIsTaken(f, s, b + rest, |b|, Prefixed(p));
    PrefixTaken(f, s, |b|, p);
    assert (b + rest)[|b|..] == rest;
    u := Stepped(f, s, |b|, Prefixed(p));
  }

  lemma PrefixRead(f: Format, s: Snapshot, at: nat, t: Track, p: CommandPlan, all: nat, rest: Bits)
    returns (u: Snapshot)
    requires f.Valid() && Live(f, s) && s.stage.InCommand? && s.bit == InByte(at)
    requires Tracks(s.commandTurn, t) && PrefixFits(f, s.trees, t, p) && all == at + |PrefixText(f, p)|
    ensures Good(f, u) && PrefixKnown(s, PrefixOf(f, p), all, u)
    ensures Tracks(u.commandTurn, AfterSymbol(t, p.block))
    ensures RunOf(f, s, PrefixText(f, p) + rest) == RunOf(f, u, rest)
  {
    hide Format.Valid, Good, RunOf, SwitchText, Read, Fits, Spent, SwitchFits, Written, TreeWriting.Spells,
         Pow2, PrefixKnown, Turn.Used, Entered, OneLess, PrefixOf, Groups.Valid, InByte;
    var b, pr := Written(f.lut[p.symbol], p.word, |p.literals|, p.copyLength), PrefixOf(f, p);
    BitsAssociate(SwitchText(p.block), b, rest);
    var m := at + |SwitchText(p.block)|;
    var v := CommandBlockRead(f, s, at, t, p.block, m, b + rest);
    PrefixSymbolRead(f, v, p, rest);
    OneSymbolLess(v.commandTurn, Entered(t, p.block));
    u := PrefixAlone(f, v, b, pr, rest);
    PrefixParts(s, v, u, pr, m, |b|, all);
  }

  lemma PrefixParts(s: Snapshot, v: Snapshot, u: Snapshot, p: Prefix, at: nat, n: nat, all: nat)
    requires CommandTurned(s, at, v) && all == at + n && PrefixKnown(v, p, v.bit + n, u)
    ensures PrefixKnown(s, p, all, u)
  {
    hide Turn.Used, InByte;
    BitAfter(at, n);
  }

  // ---------- Literals ----------

  /** What a literal leads to; where the ring then stands does not matter. */
  predicate LiteralAdded(s: Snapshot, x: Byte, at: nat, u: Snapshot) {
    s.counter > 0 &&
    u == s.(stage := if s.counter == 1 then AfterInsert(s.st) else InLiterals, counter := s.counter - 1,
            st := s.st.(hist := s.st.hist + [x]), literalTurn := u.literalTurn, pos := u.pos, bit := InByte(at))
  }

  lemma LiteralTreeChosen(f: Format, s: Snapshot)
    requires f.Valid() && Live(f, s) && s.stage.InLiterals?
    ensures s.literalTurn.last < s.trees.literalTypes.num
    ensures LiteralTree(f, s) == s.trees.literals[TreeOfLiteral(f, s.trees, s.literalTurn.last, s.st.hist)]
  {
    hide SymbolsBelow, RepresentsCode, BitOr, RecentGood, PosGood, PrefixGood;
  }

  lemma LiteralSymbolRead(f: Format, s: Snapshot, p: LiteralPlan, rest: Bits)
    requires f.Valid() && Live(f, s) && s.stage.InLiterals? && s.literalTurn.count > 0
    requires TreeWriting.Spells(LiteralTree(f, s), p.word, p.value)
    ensures !Spent(s) && Read(f, s, p.word + rest) == Some((|p.word|, Literal(p.value)))
  {
    hide Format.Valid, Good, Decode, RepresentsCode, Groups.Valid, LiteralTree;
    DecodeIsStable(LiteralTree(f, s), p.word, rest);
  }

  lemma LiteralTaken(f: Format, s: Snapshot, n: nat, x: Byte)
    requires f.Valid() && Live(f, s) && s.stage.InLiterals? && Fits(s, Literal(x))
    requires Good(f, Stepped(f, s, n, Literal(x)))
    ensures var v := Stepped(f, s, n, Literal(x)); var turn := s.literalTurn.Used();
            var u := if Stopped(v.stage) then Resume(f, v) else v;
            v.st.remaining == s.st.remaining && LiteralAdded(s, x, s.bit + n, u) && u.literalTurn == turn
  {
    hide Format.Valid, RecentGood, TurnsGood, PosGood, Turn.Switched, Groups.Valid, TakeField, TakePadding, SkipByte,
         TakeStored, TakeTrees, TakePrefix, TakeDistance, Copy, Close, Pow2, Wanted, PrefixGood, FitsSwitch, Turn.Used;
  }

  lemma LiteralAlone(f: Format, s: Snapshot, b: Bits, x: Byte, rest: Bits) returns (u: Snapshot)
    requires f.Valid() && Live(f, s) && s.stage.InLiterals? && !Spent(s) && s.st.remaining >= 0
    requires Read(f, s, b + rest) == Some((|b|, Literal(x)))
    ensures Good(f, u) && LiteralAdded(s, x, s.bit + |b|, u) && u.literalTurn == s.literalTurn.Used()
    ensures RunOf(f, s, b + rest) == RunOf(f, u, rest)
  {
    hide Format.Valid, Good, RunOf, Read, Stepped, Fits, Spent, LiteralAdded, Turn.Used, Live, Groups.Valid, Resume,
         InByte;
    ItemIsTaken(f, s, b + rest, |b|, Literal(x));
    LiteralTaken(f, s, |b|, x);
    assert (b + rest)[|b|..] == rest;
    u := Stepped(f, s, |b|, Literal(x));
    if Stopped(u.stage) {
      RunResumes(f, u, rest);
      u := Resume(f, u);
    }
  }

  lemma LiteralParts(s: Snapshot, v: Snapshot, u: Snapshot, x: Byte, at: nat, n: nat, all: nat)
    requires LiteralTurned(s, at, v) && all == at + n && LiteralAdded(v, x, v.bit + n, u)
    ensures LiteralAdded(s, x, all, u)
  {
    hide Turn.Used, InByte;
    BitAfter(at, n);
  }

  /** The codeword is one of the tree that the decoder chooses. */
  lemma LiteralSpelled(f: Format, s: Snapshot, g: Trees, t: Track, hist: seq<Byte>, p: LiteralPlan)
    requires f.Valid() && Live(f, s) && s.stage.InLiterals? && s.trees == g && s.st.hist == hist
    requires LiteralFits(f, g, t, hist, p) && Tracks(s.literalTurn, Entered(t, p.block))
    ensures TreeWriting.Spells(LiteralTree(f, s), p.word, p.value)
  {
    hide Format.Valid, Good, Groups.Valid, TreeOfLiteral, LiteralTree, TreeWriting.Spells, SwitchFits, Entered;
    LiteralTreeChosen(f, s);
  }

  lemma LiteralBlockFits(f: Format, g: Trees, t: Track, hist: seq<Byte>, p: LiteralPlan)
    requires f.Valid() && LiteralFits(f, g, t, hist, p)
    ensures SwitchFits(g.literalTypes, t, p.block)
  {
  }

  /** At a literal, past the switch that may be in front of it. */
  lemma LiteralReached(f: Format, s: Snapshot, at: nat, t: Track, p: LiteralPlan, next: nat, rest: Bits)
    returns (v: Snapshot)
    requires f.Valid() && Live(f, s) && s.stage.InLiterals? && s.bit == InByte(at)
    requires Tracks(s.literalTurn, t) && LiteralFits(f, s.trees, t, s.st.hist, p)
    requires next == at + |SwitchText(p.block)|
    ensures Live(f, v) && LiteralTurned(s, next, v)
    ensures v.stage.InLiterals? && v.st == s.st && Tracks(v.literalTurn, Entered(t, p.block))
    ensures !Spent(v) && Read(f, v, p.word + rest) == Some((|p.word|, Literal(p.value)))
    ensures RunOf(f, s, LiteralText(p) + rest) == RunOf(f, v, p.word + rest)
  {
    hide Format.Valid, Good, RunOf, SwitchText, Read, Spent, SwitchFits, TreeWriting.Spells, Entered, Groups.Valid,
         LiteralTree, LiteralFits, Live, Tracks, LiteralText, InByte, LiteralTurned;
    LiteralTextParts(p, rest);
    LiteralBlockFits(f, s.trees, t, s.st.hist, p);
    v := LiteralBlockRead(f, s, at, t, p.block, next, p.word + rest);
    LiteralTurnedParts(s, next, v);
    LiteralSpelled(f, v, s.trees, t, s.st.hist, p);
    LeftOfTrack(v.literalTurn, Entered(t, p.block));
    LiteralSymbolRead(f, v, p, rest);
  }

  /** A literal, with the switch that may be in front of it. */
  lemma LiteralRead(f: Format, s: Snapshot, at: nat, t: Track, p: LiteralPlan, all: nat, rest: Bits)
    returns (u: Snapshot)
    requires f.Valid() && Live(f, s) && s.stage.InLiterals? && s.bit == InByte(at) && s.st.remaining >= 0
    requires Tracks(s.literalTurn, t) && LiteralFits(f, s.trees, t, s.st.hist, p)
    requires all == at + |LiteralText(p)|
    ensures Good(f, u) && LiteralAdded(s, p.value, all, u)
    ensures Tracks(u.literalTurn, AfterSymbol(t, p.block))
    ensures RunOf(f, s, LiteralText(p) + rest) == RunOf(f, u, rest)
  {
    hide Format.Valid, Good, RunOf, SwitchText, Read, Spent, LiteralAdded, Turn.Used, Entered, Groups.Valid,
         LiteralFits, Live, Tracks, LiteralText, AfterSymbol, InByte, LiteralTurned;
    LiteralTextParts(p, rest);
    var m := at + |SwitchText(p.block)|;
    var v := LiteralReached(f, s, at, t, p, m, rest);
    SymbolUsed(v.literalTurn, t, p.block);
    u := LiteralAlone(f, v, p.word, p.value, rest);
    LiteralParts(s, v, u, p.value, m, |p.word|, all);
  }

  lemma LiteralTextParts(p: LiteralPlan, rest: Bits)
    ensures LiteralText(p) + rest == SwitchText(p.block) + (p.word + rest)
    ensures |LiteralText(p)| == |SwitchText(p.block)| + |p.word|
  {
    hide SwitchText;
    BitsAssociate(SwitchText(p.block), p.word, rest);
  }

  lemma SymbolUsed(turn: Turn, t: Track, block: Option<SwitchPlan>)
    requires Tracks(turn, Entered(t, block))
    ensures Tracks(turn.Used(), AfterSymbol(t, block))
  {
    OneSymbolLess(turn, Entered(t, block));
  }

  lemma LeftOfTrack(turn: Turn, t: Track)
    requires Tracks(turn, t)
    ensures turn.count == t.left
  {
  }

  /** What a number of literals leads to that complete the insertion. */
  predicate Inserted(s: Snapshot, bytes: seq<Byte>, at: nat, u: Snapshot) {
    u == s.(stage := AfterInsert(s.st), counter := 0, st := s.st.(hist := s.st.hist + bytes),
            literalTurn := u.literalTurn, pos := u.pos, bit := InByte(at))
  }

  lemma InsertsStep(s: Snapshot, x: Byte, k: nat, v: Snapshot, bytes: seq<Byte>, at: nat, u: Snapshot)
    requires s.counter > 1 && LiteralAdded(s, x, k, v)
    requires Inserted(v, bytes, at, u)
    ensures Inserted(s, [x] + bytes, at, u)
  {
    hide InByte;
    assert s.st.hist + ([x] + bytes) == s.st.hist + [x] + bytes;
  }

  lemma LastInsert(s: Snapshot, x: Byte, at: nat, u: Snapshot)
    requires s.counter == 1 && LiteralAdded(s, x, at, u)
    ensures Inserted(s, [x], at, u)
  {
    hide InByte;
  }

  lemma LiteralGoesOn(f: Format, s: Snapshot, x: Byte, at: nat, u: Snapshot)
    requires s.counter > 1 && LiteralAdded(s, x, at, u) && Good(f, u)
    ensures Live(f, u) && u.stage.InLiterals? && u.bit == InByte(at) && u.st.remaining == s.st.remaining
    ensures u.counter == s.counter - 1 && u.trees == s.trees && u.st.hist == s.st.hist + [x]
  {
    hide Good;
  }

  lemma {:induction false} LiteralsRead(
    f: Format, s: Snapshot, at: nat, t: Track, ps: seq<LiteralPlan>, end: nat, rest: Bits) returns (u: Snapshot)
    requires f.Valid() && Live(f, s) && s.stage.InLiterals? && s.bit == InByte(at) && s.st.remaining >= 0
    requires s.counter == |ps| > 0 && Tracks(s.literalTurn, t) && LiteralsFit(f, s.trees, t, s.st.hist, ps)
    requires end == at + |LiteralsText(ps)|
    ensures Good(f, u) && Inserted(s, Values(ps), end, u)
    ensures Tracks(u.literalTurn, AfterSymbols(t, ps))
    ensures RunOf(f, s, LiteralsText(ps) + rest) == RunOf(f, u, rest)
    decreases |ps|
  {
    hide Format.Valid, Good, RunOf, LiteralText, LiteralFits, LiteralAdded, Inserted, Live, Groups.Valid, Tracks,
         AfterSymbol, InByte;
    var p, tail, k := ps[0], ps[1..], at + |LiteralText(ps[0])|;
    BitsAssociate(LiteralText(p), LiteralsText(tail), rest);
    var v := LiteralRead(f, s, at, t, p, k, LiteralsText(tail) + rest);
    if tail == [] {
      assert [] + rest == rest && [p.value] + [] == [p.value];
      LastInsert(s, p.value, k, v);
      u := v;
    } else {
      LiteralGoesOn(f, s, p.value, k, v);
      u := LiteralsRead(f, v, k, AfterSymbol(t, p.block), tail, end, rest);
      InsertsStep(s, p.value, k, v, Values(tail), end, u);
    }
  }

  // ---------- Distances ----------

  /** Where a command has been executed. */
  predicate CommandDone(s: Snapshot, st: State, at: nat, u: Snapshot) {
    u == s.(stage := AfterCommand(st), st := st, distanceTurn := u.distanceTurn, bit := InByte(at), pos := u.pos,
            counter := u.counter, distance := u.distance)
  }

  /** A copy, past the writes of the ring on the way. */
  lemma {:induction false} CopyRuns(f: Format, s: Snapshot, at: nat, b: Bits) returns (u: Snapshot)
    requires f.Valid() && Good(f, s) && s.stage.InCopy? && s.st.remaining >= 0 && s.bit == InByte(at)
    ensures 1 <= s.distance <= |s.st.hist| && Good(f, u)
    ensures CommandDone(s, s.st.(hist := CopyNaive(s.st.hist, s.distance, s.counter)), at, u)
    ensures u.distanceTurn == s.distanceTurn
    ensures RunOf(f, s, b) == RunOf(f, u, b)
    decreases s.counter
  {
    hide Format.Valid, Good, RunOf, Fits, CopyNaive, Groups.Valid, Stepped, Resume, CommandDone, Copy, InByte;
    var n := CopyParts(f, s, b);
    ItemIsTaken(f, s, b, 0, Number(0));
    assert b[0..] == b;
    u := Stepped(f, s, 0, Number(0));
    CopyStep(f, s, at, n, u);
    if u.stage.CopyFull? {
      RunResumes(f, u, b);
      var v := Resume(f, u);
      CopySplits(s.st.hist, s.distance, n, s.counter - n);
      u := CopyRuns(f, v, at, b);
      CopyJoined(s, v, u, at, n);
    }
  }

  lemma CopyParts(f: Format, s: Snapshot, b: Bits) returns (n: nat)
    requires f.Valid() && Good(f, s) && s.stage.InCopy?
    ensures Live(f, s) && !Spent(s) && Read(f, s, b) == Some((0, Number(0))) && 1 <= s.distance <= |s.st.hist|
    ensures n == Min(s.counter, f.env.Full() - s.pos) && (s.counter > 0 ==> n > 0)
  {
    hide Format.Valid, RecentGood, TurnsGood, Groups.Valid;
    n := Min(s.counter, f.env.Full() - s.pos);
  }

  lemma CopyStep(f: Format, s: Snapshot, at: nat, n: nat, u: Snapshot)
    requires f.Valid() && Live(f, s) && s.stage.InCopy? && Fits(s, Number(0)) && s.bit == InByte(at)
    requires u == Stepped(f, s, 0, Number(0)) && n == Min(s.counter, f.env.Full() - s.pos)
    requires 1 <= s.distance <= |s.st.hist|
    ensures u.stage.CopyFull? ==>
              && s.counter > 0
              && Resume(f, u) == s.(counter := s.counter - n, pos := Resume(f, u).pos, bit := InByte(at),
                                    st := s.st.(hist := CopyNaive(s.st.hist, s.distance, n)))
    ensures !u.stage.CopyFull? ==>
              && CommandDone(s, s.st.(hist := CopyNaive(s.st.hist, s.distance, s.counter)), at, u)
              && u.distanceTurn == s.distanceTurn
    ensures u.st.remaining == s.st.remaining
  {
    hide Format.Valid, RecentGood, TurnsGood, Groups.Valid, CopyNaive, TakeField, TakePadding, SkipByte, TakeStored,
         TakeTrees, TakePrefix, TakeLiteral, TakeDistance, Close, Pow2, Wanted, PrefixGood, FitsSwitch;
  }

  lemma CopyJoined(s: Snapshot, v: Snapshot, u: Snapshot, at: nat, n: nat)
    requires 1 <= s.distance <= |s.st.hist| && n <= s.counter
    requires v == s.(counter := s.counter - n, pos := v.pos, bit := InByte(at),
                     st := s.st.(hist := CopyNaive(s.st.hist, s.distance, n)))
    requires CommandDone(v, v.st.(hist := CopyNaive(v.st.hist, v.distance, v.counter)), at, u)
    requires u.distanceTurn == v.distanceTurn
    requires CopyNaive(s.st.hist, s.distance, n + (s.counter - n))
             == CopyNaive(CopyNaive(s.st.hist, s.distance, n), s.distance, s.counter - n)
    ensures CommandDone(s, s.st.(hist := CopyNaive(s.st.hist, s.distance, s.counter)), at, u)
    ensures u.distanceTurn == s.distanceTurn
  {
    hide CopyNaive;
  }

  lemma DistanceTreeChosen(f: Format, s: Snapshot)
    requires f.Valid() && Live(f, s) && s.stage.InDistance?
    ensures s.distanceTurn.last < s.trees.distanceTypes.num && s.prefix.context < 4
    ensures DistanceTree(f, s) == s.trees.distances[TreeOfDistance(s.trees, s.distanceTurn.last, s.prefix.context)]
  {
    hide SymbolsBelow, RepresentsCode, RecentGood, PosGood, Format.Valid;
  }

  /** A symbol and its extra bits, and the distance that they stand for. */
  lemma DistanceIsRead(q: Params, table: seq<HuffmanCode>, word: Bits, code: DistanceCode, rest: Bits)
    requires code.Valid() && !code.Implied? && TreeWriting.Spells(table, word, SymbolOf(q, code).0)
    ensures var (symbol, extra) := SymbolOf(q, code); var x := BitsOf(extra, ExtraBits(q, symbol));
            DistanceReading.DistanceAt(q, table, word + x + rest) == Some((|word + x|, code))
  {
    hide Decode, RepresentsCode, ExtraBits, DistanceOf, Encode, BitsOf, Value, Pow2;
    var (symbol, extra) := SymbolOf(q, code);
    var x := BitsOf(extra, ExtraBits(q, symbol));
    BitsAssociate(word, x, rest);
    DecodeIsStable(table, word, x + rest);
    assert (word + (x + rest))[|word|..] == x + rest && (x + rest)[..|x|] == x;
    SymbolStands(q, code);
    ValueOfBits(extra, ExtraBits(q, symbol));
  }

  lemma SymbolStands(q: Params, code: DistanceCode)
    requires code.Valid() && !code.Implied?
    ensures var (symbol, extra) := SymbolOf(q, code);
            extra < Pow2(ExtraBits(q, symbol)) && DistanceReading.CodeOf(q, symbol, extra) == code
  {
    hide DistanceOf, Encode;
    match code
    case Short(c) =>
      DistanceReading.ShortCode(q, c, []);
    case Direct(d) =>
      DecodeEncode(q, d);
  }

  lemma DistanceSymbolRead(f: Format, s: Snapshot, b: Bits, code: DistanceCode, rest: Bits)
    requires f.Valid() && Live(f, s) && s.stage.InDistance? && s.prefix.distanceCode < 0 && s.distanceTurn.count > 0
    requires DistanceReading.DistanceAt(s.trees.params, DistanceTree(f, s), b + rest) == Some((|b|, code))
    ensures !Spent(s) && Read(f, s, b + rest) == Some((|b|, Code(code)))
  {
    hide Format.Valid, Good, DistanceReading.DistanceAt, RepresentsCode, Groups.Valid, DistanceTree;
  }

  lemma ImpliedRead(f: Format, s: Snapshot, rest: Bits)
    requires f.Valid() && Live(f, s) && s.stage.InDistance? && s.prefix.distanceCode >= 0
    ensures !Spent(s) && Read(f, s, rest) == Some((0, Code(Implied)))
  {
    hide Format.Valid, Good, Groups.Valid;
  }

  /** Where a copy is about to begin that leads to st. */
  ghost predicate Copying(s: Snapshot, v: Snapshot, at: nat, turn: Turn, st: State) {
    && v.stage.InCopy? && 1 <= v.distance <= |v.st.hist|
    && v == s.(stage := InCopy, counter := v.counter, distance := v.distance, st := v.st, distanceTurn := turn,
               bit := InByte(at))
    && v.st.(hist := CopyNaive(v.st.hist, v.distance, v.counter)) == st
  }

  ghost function Executed(f: Format, s: Snapshot, code: DistanceCode): (e: Exec)
    requires f.Valid() && WellFormed(s.st.recent) && code.Valid()
  {
    hide Format.Valid, WellFormed;
    ExecCopy(f.env, s.st, Command([], s.prefix.copyLength, code))
  }

  /** The meta-block does not owe less than nothing then. */
  ghost predicate CarriedOut(f: Format, s: Snapshot, code: DistanceCode, e: Exec)
    requires f.Valid() && WellFormed(s.st.recent) && code.Valid()
    ensures CarriedOut(f, s, code, e) ==> !e.Rejected?
  {
    hide Format.Valid, WellFormed, Executed;
    e == Executed(f, s, code) && !e.Rejected? && e.st.remaining >= 0
  }

  lemma DistanceTaken(f: Format, s: Snapshot, n: nat, code: DistanceCode, e: Exec)
    requires f.Valid() && Live(f, s) && s.stage.InDistance? && code.Valid() && Fits(s, Code(code))
    requires Good(f, Stepped(f, s, n, Code(code))) && WellFormed(s.st.recent)
    requires e == Executed(f, s, code) && !e.Rejected?
    ensures var v := Stepped(f, s, n, Code(code));
            var turn := if code.Implied? then s.distanceTurn else s.distanceTurn.Used();
            && (v.st.remaining == e.st.remaining || v.stage.InCopy?)
            && if v.stage.InCopy? then Copying(s, v, s.bit + n, turn, e.st)
               else
                 var u := if Stopped(v.stage) then Resume(f, v) else v;
                 CommandDone(s, e.st, s.bit + n, u) && u.distanceTurn == turn
  {
    hide Format.Valid, RecentGood, TurnsGood, PosGood, Turn.Switched, Groups.Valid, TakeField, TakePadding, SkipByte,
         TakeStored, TakeTrees, TakePrefix, TakeLiteral, Copy, Close, Pow2, Wanted, PrefixGood, FitsSwitch, Turn.Used,
         CopyNaive, Reference, Transformed, DistanceCode.Resolve, Push;
  }

  lemma CopyOfDistance(s: Snapshot, v: Snapshot, u: Snapshot, at: nat, turn: Turn, st: State)
    requires Copying(s, v, at, turn, st)
    requires CommandDone(v, v.st.(hist := CopyNaive(v.st.hist, v.distance, v.counter)), at, u)
    requires u.distanceTurn == v.distanceTurn
    ensures CommandDone(s, st, at, u) && u.distanceTurn == turn
  {
    hide CopyNaive, InByte;
  }

  lemma CopyingRemains(s: Snapshot, v: Snapshot, at: nat, turn: Turn, st: State)
    requires Copying(s, v, at, turn, st)
    ensures v.stage.InCopy? && v.st.remaining == st.remaining && v.bit == InByte(at)
  {
    hide CopyNaive;
  }

  lemma DistanceAlone(f: Format, s: Snapshot, b: Bits, code: DistanceCode, e: Exec, turn: Turn, rest: Bits)
    returns (u: Snapshot)
    requires f.Valid() && Live(f, s) && s.stage.InDistance? && !Spent(s) && code.Valid() && WellFormed(s.st.recent)
    requires Read(f, s, b + rest) == Some((|b|, Code(code)))
    requires CarriedOut(f, s, code, e)
    requires turn == if code.Implied? then s.distanceTurn else s.distanceTurn.Used()
    ensures Good(f, u) && CommandDone(s, e.st, s.bit + |b|, u) && u.distanceTurn == turn
    ensures RunOf(f, s, b + rest) == RunOf(f, u, rest)
  {
    hide Format.Valid, Good, RunOf, Read, Stepped, Fits, Spent, CommandDone, Turn.Used, Live, Groups.Valid, Resume,
         Copying, Executed, WellFormed, InByte;
    ItemIsTaken(f, s, b + rest, |b|, Code(code));
    DistanceTaken(f, s, |b|, code, e);
    assert (b + rest)[|b|..] == rest;
    var v := Stepped(f, s, |b|, Code(code));
    if v.stage.InCopy? {
      CopyingRemains(s, v, s.bit + |b|, turn, e.st);
      u := CopyRuns(f, v, s.bit + |b|, rest);
      CopyOfDistance(s, v, u, s.bit + |b|, turn, e.st);
    } else if Stopped(v.stage) {
      RunResumes(f, v, rest);
      u := Resume(f, v);
    } else {
      u := v;
    }
  }

  lemma ExecutionParts(s: Snapshot, v: Snapshot, u: Snapshot, st: State, at: nat, n: nat, all: nat)
    requires DistanceTurned(s, at, v) && all == at + n && CommandDone(v, st, v.bit + n, u)
    ensures CommandDone(s, st, all, u)
  {
    hide InByte;
    BitAfter(at, n);
  }

  lemma SameState(f: Format, s: Snapshot, at: nat, v: Snapshot, code: DistanceCode, e: Exec)
    requires f.Valid() && WellFormed(s.st.recent) && code.Valid() && CarriedOut(f, s, code, e)
    requires DistanceTurned(s, at, v)
    ensures WellFormed(v.st.recent) && CarriedOut(f, v, code, e)
  {
  }

  /** The codeword is one of the tree that the decoder chooses, and with its extra bits it stands for the distance. */
  lemma DistanceSpelled(f: Format, s: Snapshot, g: Trees, t: Track, context: nat, p: DistancePlan, rest: Bits)
    requires f.Valid() && Live(f, s) && s.stage.InDistance? && s.trees == g && s.prefix.context == context
    requires p.Explicit? && DistanceFits(g, t, context, p) && Tracks(s.distanceTurn, Entered(t, p.block))
    ensures var b := DistanceWord(g.params, p.word, p.code);
            DistanceReading.DistanceAt(g.params, DistanceTree(f, s), b + rest) == Some((|b|, p.code))
  {
    hide Format.Valid, Good, Groups.Valid, TreeOfDistance, DistanceTree, TreeWriting.Spells, SwitchFits, Entered,
         SymbolOf, BitsOf, ExtraBits, DistanceReading.DistanceAt;
    DistanceTreeChosen(f, s);
    DistanceIsRead(g.params, DistanceTree(f, s), p.word, p.code, rest);
  }

  lemma DistanceBlockFits(g: Trees, t: Track, context: nat, p: DistancePlan)
    requires p.Explicit? && DistanceFits(g, t, context, p)
    ensures SwitchFits(g.distanceTypes, t, p.block) && p.code.Valid() && !p.code.Implied?
  {
  }

  lemma DistanceFollowed(f: Format, s: Snapshot, at: nat, v: Snapshot, b: Bits, code: DistanceCode, e: Exec, all: nat,
                         rest: Bits) returns (u: Snapshot)
    requires f.Valid() && WellFormed(s.st.recent) && code.Valid() && !code.Implied? && CarriedOut(f, s, code, e)
    requires DistanceTurned(s, at, v) && all == at + |b|
    requires Live(f, v) && v.stage.InDistance? && !Spent(v) && Read(f, v, b + rest) == Some((|b|, Code(code)))
    ensures Good(f, u) && CommandDone(s, e.st, all, u) && u.distanceTurn == v.distanceTurn.Used()
    ensures RunOf(f, v, b + rest) == RunOf(f, u, rest)
  {
    hide Format.Valid, Good, RunOf, Read, Spent, CommandDone, Turn.Used, Groups.Valid, CarriedOut, WellFormed, Live,
         DistanceTurned, InByte;
    SameState(f, s, at, v, code, e);
    u := DistanceAlone(f, v, b, code, e, v.distanceTurn.Used(), rest);
    ExecutionParts(s, v, u, e.st, at, |b|, all);
  }

  /** At a distance, past the switch that may be in front of it. */
  lemma DistanceReached(f: Format, s: Snapshot, at: nat, t: Track, p: DistancePlan, b: Bits, next: nat, rest: Bits)
    returns (v: Snapshot)
    requires f.Valid() && Live(f, s) && s.stage.InDistance? && s.prefix.distanceCode < 0 && s.bit == InByte(at)
    requires p.Explicit? && Tracks(s.distanceTurn, t) && DistanceFits(s.trees, t, s.prefix.context, p)
    requires b == DistanceWord(s.trees.params, p.word, p.code) && next == at + |SwitchText(p.block)|
    ensures Live(f, v) && DistanceTurned(s, next, v)
    ensures v.stage.InDistance? && Tracks(v.distanceTurn, Entered(t, p.block))
    ensures !Spent(v) && Read(f, v, b + rest) == Some((|b|, Code(p.code)))
    ensures RunOf(f, s, DistanceText(s.trees.params, p) + rest) == RunOf(f, v, b + rest)
  {
    hide Format.Valid, Good, RunOf, SwitchText, Read, Spent, SwitchFits, Entered, Groups.Valid, DistanceTree,
         DistanceWord, Live, Tracks, DistanceReading.DistanceAt, DistanceFits, InByte, DistanceTurned, DistanceText;
    DistanceTextParts(s.trees.params, p, b, rest);
    DistanceBlockFits(s.trees, t, s.prefix.context, p);
    v := DistanceBlockRead(f, s, at, t, p.block, next, b + rest);
    DistanceTurnedParts(s, next, v);
    DistanceSpelled(f, v, s.trees, t, s.prefix.context, p, rest);
    LeftOfTrack(v.distanceTurn, Entered(t, p.block));
    DistanceSymbolRead(f, v, b, p.code, rest);
  }

  /** An explicit distance, with the switch that may be in front of it, and what it makes the decoder do. */
  lemma ExplicitRead(f: Format, s: Snapshot, at: nat, t: Track, p: DistancePlan, e: Exec, all: nat, rest: Bits)
    returns (u: Snapshot)
    requires f.Valid() && Live(f, s) && s.stage.InDistance? && s.prefix.distanceCode < 0 && s.bit == InByte(at)
    requires p.Explicit? && p.code.Valid() && Tracks(s.distanceTurn, t)
    requires DistanceFits(s.trees, t, s.prefix.context, p)
    requires WellFormed(s.st.recent) && CarriedOut(f, s, p.code, e) && all == at + |DistanceText(s.trees.params, p)|
    ensures Good(f, u) && Tracks(u.distanceTurn, AfterSymbol(t, p.block)) && CommandDone(s, e.st, all, u)
    ensures RunOf(f, s, DistanceText(s.trees.params, p) + rest) == RunOf(f, u, rest)
  {
    hide Format.Valid, Good, RunOf, SwitchText, Read, Spent, CommandDone, Turn.Used, Entered, Groups.Valid, CarriedOut,
         WellFormed, DistanceWord, Live, Tracks, DistanceFits, InByte, DistanceTurned, DistanceText, AfterSymbol;
    var b := DistanceWord(s.trees.params, p.word, p.code);
    var m := at + |SwitchText(p.block)|;
    DistanceTextParts(s.trees.params, p, b, rest);
    DistanceBlockFits(s.trees, t, s.prefix.context, p);
    var v := DistanceReached(f, s, at, t, p, b, m, rest);
    SymbolUsed(v.distanceTurn, t, p.block);
    u := DistanceFollowed(f, s, m, v, b, p.code, e, all, rest);
  }

  lemma DistanceTextParts(q: Params, p: DistancePlan, b: Bits, rest: Bits)
    requires p.Explicit? && b == DistanceWord(q, p.word, p.code)
    ensures DistanceText(q, p) + rest == SwitchText(p.block) + (b + rest)
    ensures |DistanceText(q, p)| == |SwitchText(p.block)| + |b|
  {
    hide SwitchText, DistanceWord;
    BitsAssociate(SwitchText(p.block), b, rest);
  }

  // ---------- Whole commands ----------

  /** The decoder stands where the writer does. */
  ghost predicate AtPlace(f: Format, s: Snapshot, g: Trees, last: bool, w: Place, at: nat) {
    && Good(f, s) && s.trees == g && s.last == last && s.bit == InByte(at) && s.st == w.st
    && Tracks(s.literalTurn, w.literal) && Tracks(s.commandTurn, w.command) && Tracks(s.distanceTurn, w.distance)
  }

  /** The prefix and the literals of a command. */
  lemma InsertionRead(f: Format, s: Snapshot, g: Trees, last: bool, w: Place, at: nat, p: CommandPlan, rest: Bits)
    returns (u: Snapshot)
    requires f.Valid() && AtPlace(f, s, g, last, w, at) && s.stage.InCommand? && CommandFits(f, g, w, p)
    requires w.st.remaining >= |p.literals|
    ensures var st := State(w.st.hist + Values(p.literals), w.st.remaining - |p.literals|, w.st.recent);
            AtPlace(f, u, g, last, Place(st, AfterSymbols(w.literal, p.literals), AfterSymbol(w.command, p.block),
                                         w.distance), at + |PrefixText(f, p)| + |LiteralsText(p.literals)|)
    ensures u.stage == if p.literals != [] && w.st.remaining == |p.literals| then Closing else InDistance
    ensures u.prefix == PrefixOf(f, p)
    ensures RunOf(f, s, PrefixText(f, p) + (LiteralsText(p.literals) + rest)) == RunOf(f, u, rest)
  {
    hide Format.Valid, Good, RunOf, Groups.Valid, PrefixText, LiteralsText, PrefixKnown, Inserted, PrefixFits,
         LiteralsFit, TailFits, Tracks, WellFormed, AfterSymbol, AfterSymbols, PrefixOf, LengthsFit, InByte;
    PlaceIsLive(f, s);
    PrefixHas(f, g, w.command, p);
    var k := at + |PrefixText(f, p)|;
    var v := PrefixRead(f, s, at, w.command, p, k, LiteralsText(p.literals) + rest);
    PrefixLeads(f, s, p, v, k);
    if p.literals == [] {
      NoLiterals(w.literal, rest);
      assert w.st.hist + [] == w.st.hist;
      u := v;
    } else {
      var end := k + |LiteralsText(p.literals)|;
      u := LiteralsRead(f, v, k, w.literal, p.literals, end, rest);
      InsertsLead(v, Values(p.literals), end, u);
    }
  }

  lemma PrefixHas(f: Format, g: Trees, t: Track, p: CommandPlan)
    requires f.Valid() && PrefixFits(f, g, t, p)
    ensures p.symbol < |f.lut| && LengthsFit(f.lut[p.symbol], |p.literals|, p.copyLength)
  {
  }

  lemma PlaceIsLive(f: Format, s: Snapshot)
    requires Good(f, s) && (s.stage.InCommand? || s.stage.InLiterals? || s.stage.InDistance?)
    ensures Live(f, s)
  {
    hide Good;
  }

  lemma NoLiterals(t: Track, rest: Bits)
    ensures LiteralsText([]) + rest == rest && LiteralsText([]) == [] && Values([]) == [] && AfterSymbols(t, []) == t
  {
  }

  lemma PrefixLeads(f: Format, s: Snapshot, p: CommandPlan, u: Snapshot, at: nat)
    requires p.symbol < |f.lut| && PrefixKnown(s, PrefixOf(f, p), at, u) && Good(f, u)
    ensures Live(f, u) && u.prefix == PrefixOf(f, p) && u.counter == |p.literals| && u.trees == s.trees
    ensures u.st == s.st.(remaining := s.st.remaining - |p.literals|) && u.last == s.last && u.bit == InByte(at)
    ensures u.literalTurn == s.literalTurn && u.distanceTurn == s.distanceTurn
    ensures u.stage == if p.literals == [] then InDistance else InLiterals
  {
    hide Good, InByte;
  }

  lemma InsertsLead(s: Snapshot, bytes: seq<Byte>, at: nat, u: Snapshot)
    requires Inserted(s, bytes, at, u)
    ensures u.prefix == s.prefix && u.trees == s.trees && u.st == s.st.(hist := s.st.hist + bytes) && u.last == s.last
    ensures u.bit == InByte(at) && u.commandTurn == s.commandTurn && u.distanceTurn == s.distanceTurn
    ensures u.stage == AfterInsert(s.st)
  {
    hide InByte;
  }

  /** What a command comes down to once its literals are in. */
  lemma RestOfCommand(f: Format, w: Place, p: CommandPlan, s: Snapshot, e: Exec)
    requires f.Valid() && WellFormed(w.st.recent) && CommandOf(p).distance.Valid()
    requires e == ExecCommand(f.env, w.st, CommandOf(p)) && s.prefix.copyLength == p.copyLength
    requires s.st == State(w.st.hist + Values(p.literals), w.st.remaining - |p.literals|, w.st.recent)
    ensures if p.literals != [] && w.st.remaining <= |p.literals| then e == BlockEnd(s.st)
            else e == Executed(f, s, DistanceCodeOf(p.distance))
  {
    hide Format.Valid, WellFormed, ExecCopy;
    CommandIsExec(f.env, w.st, CommandOf(p), Command([], p.copyLength, DistanceCodeOf(p.distance)));
    assert w.st.hist + [] == w.st.hist;
  }

  /** The distance, if there is one, and what it makes the decoder do. */
  lemma TailRead(f: Format, s: Snapshot, g: Trees, last: bool, w: Place, at: nat, p: DistancePlan, e: Exec, rest: Bits)
    returns (u: Snapshot)
    requires f.Valid() && AtPlace(f, s, g, last, w, at) && s.stage.InDistance? && WellFormed(w.st.recent)
    requires if s.prefix.distanceCode >= 0 then p.Same?
             else p.Explicit? && DistanceFits(g, w.distance, s.prefix.context, p)
    requires DistanceCodeOf(p).Valid() && CarriedOut(f, s, DistanceCodeOf(p), e)
    ensures AtPlace(f, u, g, last, w.(st := e.st, distance := if p.Explicit? then AfterSymbol(w.distance, p.block)
                                                              else w.distance), at + |DistanceText(g.params, p)|)
    ensures u.stage == AfterCommand(e.st)
    ensures RunOf(f, s, DistanceText(g.params, p) + rest) == RunOf(f, u, rest)
  {
    hide Format.Valid, Good, RunOf, Groups.Valid, DistanceText, CommandDone, DistanceFits, Tracks, WellFormed,
         AfterSymbol, CarriedOut, AfterCommand, Live, InByte;
    PlaceIsLive(f, s);
    if p.Explicit? {
      u := ExplicitRead(f, s, at, w.distance, p, e, at + |DistanceText(g.params, p)|, rest);
    } else {
      ImpliedRead(f, s, rest);
      NothingWritten(g.params, p, rest);
      u := DistanceAlone(f, s, [], Implied, e, s.distanceTurn, rest);
      ExecutionParts(s, s, u, e.st, at, 0, at);
    }
    ExecutionLeads(s, e.st, at + |DistanceText(g.params, p)|, u);
  }

  lemma NothingWritten(q: Params, p: DistancePlan, rest: Bits)
    requires !p.Explicit?
    ensures DistanceText(q, p) == [] && [] + rest == rest
  {
  }

  lemma ExecutionLeads(s: Snapshot, st: State, at: nat, u: Snapshot)
    requires CommandDone(s, st, at, u)
    ensures u.trees == s.trees && u.st == st && u.last == s.last && u.bit == InByte(at)
    ensures u.literalTurn == s.literalTurn && u.commandTurn == s.commandTurn && u.stage == AfterCommand(st)
  {
    hide InByte;
  }

  /** A command has been written: the decoder reads it, and does what it stands for. */
  lemma CommandIsRead(f: Format, s: Snapshot, g: Trees, last: bool, w: Place, at: nat, p: CommandPlan, e: Exec,
                      next: nat, rest: Bits) returns (u: Snapshot)
    requires f.Valid() && AtPlace(f, s, g, last, w, at) && s.stage.InCommand? && CommandFits(f, g, w, p)
    requires WellFormed(w.st.recent) && CommandOf(p).distance.Valid()
    requires e == ExecCommand(f.env, w.st, CommandOf(p)) && !e.Rejected? && e.st.remaining >= 0
    requires next == at + |CommandText(f, g.params, p)|
    ensures AtPlace(f, u, g, last, AfterCommandPlan(w, p, e.st), next)
    ensures u.stage == if e.Running? then InCommand else Closing
    ensures RunOf(f, s, CommandText(f, g.params, p) + rest) == RunOf(f, u, rest)
  {
    hide Format.Valid, RunOf, PrefixText, LiteralsText, DistanceText, PrefixFits, LiteralsFit, DistanceFits, AtPlace,
         WellFormed, AfterSymbol, AfterSymbols, ExecCommand, Executed, AfterCommand, Groups.Valid, InByte;
    var x, y, z := PrefixText(f, p), LiteralsText(p.literals), DistanceText(g.params, p.distance);
    assert x + (y + z) + rest == x + (y + (z + rest));
    PlaceHas(f, s, g, last, w, at);
    EnoughLeft(f, w.st, CommandOf(p), e);
    PrefixHas(f, g, w.command, p);
    u := InsertionRead(f, s, g, last, w, at, p, z + rest);
    PlaceHas(f, u, g, last, Place(State(w.st.hist + Values(p.literals), w.st.remaining - |p.literals|, w.st.recent),
                                  AfterSymbols(w.literal, p.literals), AfterSymbol(w.command, p.block), w.distance),
             at + |x| + |y|);
    RestOfCommand(f, w, p, u, e);
    if u.stage.Closing? {
      NothingWritten(g.params, p.distance, rest);
    } else {
      u := TailRead(f, u, g, last, Place(u.st, AfterSymbols(w.literal, p.literals), AfterSymbol(w.command, p.block),
                                         w.distance), at + |x| + |y|, p.distance, e, rest);
      SettledStage(f, w.st, CommandOf(p), e);
    }
  }

  lemma EnoughLeft(f: Format, st: State, c: Command, e: Exec)
    requires f.Valid() && WellFormed(st.recent) && c.distance.Valid() && e == ExecCommand(f.env, st, c)
    requires !e.Rejected? && e.st.remaining >= 0 && st.remaining >= 0
    ensures st.remaining >= |c.insert|
  {
    hide Format.Valid, WellFormed, Reference, Transformed, CopyNaive;
  }

  lemma SettledStage(f: Format, st: State, c: Command, e: Exec)
    requires f.Valid() && WellFormed(st.recent) && c.distance.Valid() && e == ExecCommand(f.env, st, c) && !e.Rejected?
    ensures AfterCommand(e.st) == if e.Running? then InCommand else Closing
  {
    hide Format.Valid, WellFormed, Reference, Transformed, CopyNaive;
  }

  lemma PlaceHas(f: Format, s: Snapshot, g: Trees, last: bool, w: Place, at: nat)
    requires AtPlace(f, s, g, last, w, at)
    ensures s.trees == g && s.st == w.st && s.last == last && (s.stage.InCommand? ==> w.st.remaining > 0)
  {
    hide Groups.Valid, RecentGood, TurnsGood, PosGood;
  }

  /** What commands lead to that complete a meta-block. */
  ghost function Completed(f: Format, st: State, cmds: seq<Command>): (r: State)
    requires f.Valid() && WellFormed(st.recent) && ValidCommands(cmds)
    ensures WellFormed(r.recent)
    decreases |cmds|
  {
    hide Format.Valid, WellFormed, ExecCommand;
    if cmds == [] then st
    else
      match ExecCommand(f.env, st, cmds[0])
      case Running(next) => Completed(f, next, cmds[1..])
      case BlockEnd(next) => next
      case Rejected(_) => st
  }

  lemma {:induction false} CommandsAreRead(
    f: Format, s: Snapshot, g: Trees, last: bool, w: Place, at: nat, ps: seq<CommandPlan>, end: nat, blocks: seq<Block>,
    rest: Bits) returns (u: Snapshot)
    requires f.Valid() && WellFormed(w.st.recent) && AtPlace(f, s, g, last, w, at) && s.stage.InCommand?
    requires CommandsFit(f, g, w, ps) && blocks != [] && ValidBlocks(blocks)
    requires end == at + |CommandsText(f, g.params, ps)|
    ensures ValidCommands(CommandsOf(ps)) && Good(f, u) && u.stage.Closing? && u.last == last && u.bit == InByte(end)
    ensures u.st == Completed(f, w.st, CommandsOf(ps)) && u.st.remaining == 0
    ensures RunCommands(f.env, blocks, w.st, CommandsOf(ps)) == RunEnd(f.env, blocks, u.st)
    ensures RunOf(f, s, CommandsText(f, g.params, ps) + rest) == RunOf(f, u, rest)
    decreases |ps|
  {
    hide Format.Valid, RunOf, CommandText, CommandFits, AtPlace, WellFormed, ExecCommand, Groups.Valid, RunEnd, Good,
         ValidBlocks, CommandOf, AfterCommandPlan, InByte;
    var p, tail, k := ps[0], ps[1..], at + |CommandText(f, g.params, ps[0])|;
    var e := ExecCommand(f.env, w.st, CommandOf(p));
    BitsAssociate(CommandText(f, g.params, p), CommandsText(f, g.params, tail), rest);
    u := CommandIsRead(f, s, g, last, w, at, p, e, k, CommandsText(f, g.params, tail) + rest);
    PlaceAfter(w, p, e.st);
    if e.Running? {
      var v := AfterCommandPlan(w, p, e.st);
      u := CommandsAreRead(f, u, g, last, v, k, tail, end, blocks, rest);
      PrependedValid(CommandOf(p), CommandsOf(tail));
    } else {
      assert [] + rest == rest;
      BlockIsOver(f, w.st, CommandOf(p), e);
      PlaceIs(f, u, g, last, AfterCommandPlan(w, p, e.st), k);
      NoCommands(f, CommandOf(p), tail);
    }
  }

  lemma PlaceAfter(w: Place, p: CommandPlan, st: State)
    ensures AfterCommandPlan(w, p, st).st == st
  {
  }

  lemma PlaceIs(f: Format, s: Snapshot, g: Trees, last: bool, w: Place, at: nat)
    requires AtPlace(f, s, g, last, w, at)
    ensures Good(f, s) && s.st == w.st && s.last == last && s.bit == InByte(at)
  {
    hide Good;
  }

  lemma BlockIsOver(f: Format, st: State, c: Command, e: Exec)
    requires f.Valid() && WellFormed(st.recent) && c.distance.Valid() && e == ExecCommand(f.env, st, c)
    requires e.BlockEnd? && e.st.remaining >= 0
    ensures e.st.remaining == 0
  {
    hide Format.Valid, WellFormed, Reference, Transformed, CopyNaive;
  }

  lemma NoCommands(f: Format, c: Command, tail: seq<CommandPlan>)
    requires tail == [] && c.distance.Valid()
    ensures ValidCommands([c] + CommandsOf(tail)) && CommandsText(f, Params(0, 0), tail) == []
  {
  }

  // ---------- Meta-blocks ----------

  datatype BlockPlan =
    | EmptyPlan
    | MetadataPlan(last: bool, bytes: seq<Byte>)
    | StoredPlan(data: seq<Byte>)
    | CodedPlan(last: bool, length: nat, treeBits: Bits, trees: Trees, commands: seq<CommandPlan>)

  function HeaderOf(p: BlockPlan): (h: Headers.Header) {
    match p
    case EmptyPlan => Headers.LastEmpty
    case MetadataPlan(last, bytes) => Headers.Metadata(last, |bytes|)
    case StoredPlan(data) => Headers.Data(false, true, |data|)
    case CodedPlan(last, length, _, _, _) => Headers.Data(last, false, length)
  }

  function IsLast(p: BlockPlan): (last: bool) {
    p.EmptyPlan? || (p.MetadataPlan? && p.last) || (p.CodedPlan? && p.last)
  }

  /** The meta-block that is to be read. */
  function BlockFrom(p: BlockPlan): (b: Block) {
    Block(IsLast(p),
          match p
          case EmptyPlan => Empty
          case MetadataPlan(_, _) => Metadata
          case StoredPlan(data) => Stored(data)
          case CodedPlan(_, length, _, _, commands) => Coded(length, CommandsOf(commands)))
  }

  function FirstPlace(st: State, g: Trees): (w: Place) {
    Place(st, FirstTrack(g.literalTypes.first), FirstTrack(g.commandTypes.first), FirstTrack(g.distanceTypes.first))
  }

  ghost predicate BlockFits(f: Format, p: BlockPlan, hist: seq<Byte>, recent: seq<int>)
    requires f.Valid() && WellFormed(recent)
  {
    hide Format.Valid, WellFormed;
    && Headers.Representable(HeaderOf(p))
    && (p.CodedPlan? ==>
          && f.readTrees(p.treeBits) == Some((|p.treeBits|, Some(p.trees)))
          && CommandsFit(f, p.trees, FirstPlace(State(hist, p.length, recent), p.trees), p.commands))
  }

  /** Zeros up to the next byte. */
  function Padding(at: nat): (b: Bits)
    ensures (at + |b|) % 8 == 0 && |b| < 8
  {
    Zeros((at + 7) / 8 * 8 - at)
  }

  /** What follows the header. */
  function BodyText(f: Format, p: BlockPlan, at: nat): (b: Bits) {
    match p
    case EmptyPlan => []
    case MetadataPlan(_, bytes) => Padding(at) + ByteBits(bytes)
    case StoredPlan(data) => Padding(at) + ByteBits(data)
    case CodedPlan(_, _, treeBits, trees, commands) => treeBits + CommandsText(f, trees.params, commands)
  }

  function HeaderText(p: BlockPlan): (b: Bits)
    requires Headers.Representable(HeaderOf(p))
  {
    Headers.Encode(HeaderOf(p))
  }

  lemma FrontBits(p: BlockPlan)
    requires Headers.Representable(HeaderOf(p))
    ensures |HeaderText(p)| >= 2 && HeaderText(p)[0] == IsLast(p)
    ensures IsLast(p) ==> HeaderText(p)[1] == p.EmptyPlan?
  {
    hide Pow2, Headers.Nibbles, Headers.SkipDigits, Headers.Flag, BitsOf;
  }

  lemma ByteFront(x: Byte)
    ensures OneByte(x)[0] == (x % 2 == 1) && OneByte(x)[1] == (x / 2 % 2 == 1)
    ensures x % 4 == 3 <==> OneByte(x)[0] && OneByte(x)[1]
  {
    assert OneByte(x) == [x % 2 == 1] + BitsOf(x / 2, 7) && BitsOf(x / 2, 7) == [x / 2 % 2 == 1] + BitsOf(x / 2 / 2, 6);
  }

  /** The byte behind a stored meta-block tells whether nothing but the end of the stream follows. */
  lemma PeekTells(p: BlockPlan, x: Byte)
    requires Headers.Representable(HeaderOf(p)) && |HeaderText(p)| >= 2
    requires OneByte(x)[0] == HeaderText(p)[0] && OneByte(x)[1] == HeaderText(p)[1]
    ensures IsFinal(false, x) <==> p.EmptyPlan?
    ensures IsFinal(false, BlockFrom(p).HeaderBits()) <==> p.EmptyPlan?
  {
    hide Headers.Encode, OneByte, Headers.Representable;
    FrontBits(p);
    ByteFront(x);
  }

  // ---------- Steps outside of commands ----------

  /** A plain number is read. */
  lemma NumberIsTaken(f: Format, s: Snapshot, w: Bits, v: nat, rest: Bits) returns (u: Snapshot)
    requires f.Valid() && Live(f, s) && ReadsNumber(s.stage) && !Spent(s) && |w| == Wanted(s) && v == Value(w)
    ensures Fits(s, Number(v)) && u == Stepped(f, s, |w|, Number(v)) && Good(f, u)
    ensures RunOf(f, s, w + rest) == RunOf(f, u, rest)
  {
    hide Format.Valid, Good, RunOf, Stepped, Value, Fits, Wanted, Groups.Valid;
    assert (w + rest)[..|w|] == w && (w + rest)[|w|..] == rest;
    NumberItem(f, s, w + rest, |w|, v);
    ItemIsTaken(f, s, w + rest, |w|, Number(v));
    u := Stepped(f, s, |w|, Number(v));
  }

  lemma NumberItem(f: Format, s: Snapshot, b: Bits, n: nat, v: nat)
    requires f.Valid() && Live(f, s) && ReadsNumber(s.stage) && n == Wanted(s) <= |b| && v == Value(b[..n])
    ensures Read(f, s, b) == Some((n, Number(v)))
  {
    hide Format.Valid, Good, Value, Wanted, Groups.Valid;
  }

  /** In front of whole bytes, where the writer is at that bit. */
  lemma PaddingIsRead(f: Format, s: Snapshot, at: nat, rest: Bits) returns (u: Snapshot)
    requires f.Valid() && Good(f, s) && s.stage.InPadding? && s.bit == InByte(at)
    ensures Good(f, u)
    ensures u == s.(bit := 0, stage := if s.stage.stored then InStored
                                       else if s.st.remaining == 0 then Closing else InSkip)
    ensures RunOf(f, s, Padding(at) + rest) == RunOf(f, u, rest)
  {
    hide Format.Valid, Good, RunOf, Value, Stepped, Groups.Valid, Padding, Zeros, Fits, InByte;
    PaddingIsLive(f, s);
    PaddingIsWanted(s, at);
    u := NumberIsTaken(f, s, Padding(at), 0, rest);
    PaddingTaken(f, s, |Padding(at)|);
  }

  lemma PaddingIsWanted(s: Snapshot, at: nat)
    requires s.bit == InByte(at) && (s.stage.InPadding? || (s.stage.Closing? && s.last && s.st.remaining >= 0))
    ensures |Padding(at)| == Wanted(s) && Value(Padding(at)) == 0 && InByte(s.bit + |Padding(at)|) == 0 && !Spent(s)
  {
    hide Value, ToBoundary;
    Boundary(at);
    BitAfter(at, |Padding(at)|);
  }

  /** The writer and the decoder find the next byte in different ways. */
  lemma Boundary(at: nat)
    ensures ToBoundary(at % 8) == (at + 7) / 8 * 8 - at
  {
    var q, r := at / 8, at % 8;
    assert at == 8 * q + r;
    if r == 0 {
      assert (at + 7) / 8 == q;
    } else {
      assert (at + 7) / 8 == q + 1;
    }
  }

  lemma PaddingTaken(f: Format, s: Snapshot, n: nat)
    requires f.Valid() && Live(f, s) && s.stage.InPadding? && Fits(s, Number(0)) && InByte(s.bit + n) == 0
    ensures Stepped(f, s, n, Number(0)) == s.(bit := 0, stage := if s.stage.stored then InStored
                                                                else if s.st.remaining == 0 then Closing else InSkip)
  {
    hide Format.Valid, Good, Groups.Valid, Pow2, Wanted;
  }

  lemma ByteText(x: Byte)
    ensures |OneByte(x)| == 8 && Value(OneByte(x)) == x
  {
    hide Value, BitsOf;
    EightBits();
    ValueOfBits(x, 8);
  }

  /** A stored byte, past the write of the ring that it may bring about. */
  lemma StoredIsRead(f: Format, s: Snapshot, x: Byte, rest: Bits) returns (u: Snapshot)
    requires f.Valid() && Good(f, s) && s.stage.InStored? && s.bit == 0
    ensures s.st.remaining > 0 && Good(f, u)
    ensures u == s.(pos := u.pos, stage := if s.st.remaining == 1 then Closing else InStored,
                    st := s.st.(hist := s.st.hist + [x], remaining := s.st.remaining - 1))
    ensures RunOf(f, s, OneByte(x) + rest) == RunOf(f, u, rest)
  {
    hide Format.Valid, Good, RunOf, Value, Stepped, Groups.Valid, OneByte, Fits, Resume;
    StoredIsLive(f, s);
    ByteText(x);
    u := NumberIsTaken(f, s, OneByte(x), x, rest);
    StoredTaken(f, s, x);
    if u.stage.StoredFull? {
      RunResumes(f, u, rest);
      u := Resume(f, u);
    }
  }

  lemma StoredTaken(f: Format, s: Snapshot, x: Byte)
    requires f.Valid() && Live(f, s) && s.stage.InStored? && Fits(s, Number(x)) && s.bit == 0
    ensures var v := Stepped(f, s, 8, Number(x));
            var u := if v.stage.StoredFull? then Resume(f, v) else v;
            && v.st.remaining >= 0
            && u == s.(pos := u.pos, stage := if s.st.remaining == 1 then Closing else InStored,
                       st := s.st.(hist := s.st.hist + [x], remaining := s.st.remaining - 1))
  {
    hide Format.Valid, RecentGood, TurnsGood, PosGood, PrefixGood, Groups.Valid, Pow2, Wanted;
  }

  /** A skipped byte. */
  lemma SkippedIsRead(f: Format, s: Snapshot, x: Byte, rest: Bits) returns (u: Snapshot)
    requires f.Valid() && Good(f, s) && s.stage.InSkip? && s.bit == 0
    ensures s.st.remaining > 0 && Good(f, u)
    ensures u == s.(stage := if s.st.remaining == 1 then Closing else InSkip,
                    st := s.st.(remaining := s.st.remaining - 1))
    ensures RunOf(f, s, OneByte(x) + rest) == RunOf(f, u, rest)
  {
    hide Format.Valid, Good, RunOf, Value, Stepped, Groups.Valid, OneByte, Fits;
    SkipIsLive(f, s);
    ByteText(x);
    u := NumberIsTaken(f, s, OneByte(x), x, rest);
    SkippedTaken(f, s, x);
  }

  lemma SkipIsLive(f: Format, s: Snapshot)
    requires Good(f, s) && s.stage.InSkip?
    ensures Live(f, s) && s.st.remaining > 0 && !Spent(s)
  {
    hide RecentGood, TurnsGood, Groups.Valid;
  }

  lemma SkippedTaken(f: Format, s: Snapshot, x: Byte)
    requires f.Valid() && Live(f, s) && s.stage.InSkip? && Fits(s, Number(x)) && s.bit == 0
    ensures Stepped(f, s, 8, Number(x)) == s.(stage := if s.st.remaining == 1 then Closing else InSkip,
                                             st := s.st.(remaining := s.st.remaining - 1))
  {
    hide Format.Valid, Good, Groups.Valid, Pow2, Wanted;
  }

  lemma {:induction false} StoredBytesRead(f: Format, s: Snapshot, bytes: seq<Byte>, rest: Bits) returns (u: Snapshot)
    requires f.Valid() && Good(f, s) && s.stage.InStored? && s.bit == 0 && s.st.remaining == |bytes| > 0
    ensures Good(f, u)
    ensures u == s.(pos := u.pos, stage := Closing, st := s.st.(hist := s.st.hist + bytes, remaining := 0))
    ensures RunOf(f, s, ByteBits(bytes) + rest) == RunOf(f, u, rest)
    decreases |bytes|
  {
    hide Format.Valid, Good, RunOf, Groups.Valid, OneByte, ByteBits;
    FirstByte(bytes);
    BitsAssociate(OneByte(bytes[0]), ByteBits(bytes[1..]), rest);
    u := StoredIsRead(f, s, bytes[0], ByteBits(bytes[1..]) + rest);
    if |bytes| == 1 {
      NoBytes(rest);
      assert bytes == [bytes[0]];
    } else {
      assert s.st.hist + [bytes[0]] + bytes[1..] == s.st.hist + bytes;
      u := StoredBytesRead(f, u, bytes[1..], rest);
    }
  }

  lemma NoBytes(rest: Bits)
    ensures ByteBits([]) + rest == rest && ByteBits([]) == []
  {
  }

  lemma {:induction false} SkippedBytesRead(f: Format, s: Snapshot, bytes: seq<Byte>, rest: Bits) returns (u: Snapshot)
    requires f.Valid() && Good(f, s) && s.stage.InSkip? && s.bit == 0 && s.st.remaining == |bytes| > 0
    ensures Good(f, u) && u == s.(stage := Closing, st := s.st.(remaining := 0))
    ensures RunOf(f, s, ByteBits(bytes) + rest) == RunOf(f, u, rest)
    decreases |bytes|
  {
    hide Format.Valid, Good, RunOf, Groups.Valid, OneByte, ByteBits;
    FirstByte(bytes);
    BitsAssociate(OneByte(bytes[0]), ByteBits(bytes[1..]), rest);
    u := SkippedIsRead(f, s, bytes[0], ByteBits(bytes[1..]) + rest);
    if |bytes| == 1 {
      NoBytes(rest);
    } else {
      u := SkippedBytesRead(f, u, bytes[1..], rest);
    }
  }

  /** The prefix codes of a meta-block: from there on every category is at its first block. */
  lemma TreesAreRead(f: Format, s: Snapshot, at: nat, b: Bits, g: Trees, rest: Bits) returns (u: Snapshot)
    requires f.Valid() && Good(f, s) && s.stage.InTrees? && s.bit == InByte(at)
    requires f.readTrees(b) == Some((|b|, Some(g)))
    ensures AtPlace(f, u, g, s.last, FirstPlace(s.st, g), at + |b|) && u.stage.InCommand?
    ensures RunOf(f, s, b + rest) == RunOf(f, u, rest)
  {
    hide Format.Valid, Good, RunOf, Stepped, Groups.Valid, Fits, InByte;
    TreesItem(f, s, b, g, rest);
    ItemIsTaken(f, s, b + rest, |b|, TreesRead(Some(g)));
    assert (b + rest)[|b|..] == rest;
    u := Stepped(f, s, |b|, TreesRead(Some(g)));
    TreesTaken(f, s, |b|, g);
    BitAfter(at, |b|);
  }

  lemma TreesItem(f: Format, s: Snapshot, b: Bits, g: Trees, rest: Bits)
    requires f.Valid() && Good(f, s) && s.stage.InTrees? && f.readTrees(b) == Some((|b|, Some(g)))
    ensures Live(f, s) && !Spent(s) && Read(f, s, b + rest) == Some((|b|, TreesRead(Some(g))))
  {
    hide Good, Groups.Valid, Env.Valid, TablesFit;
    assert b[..|b|] <= b + rest;
  }

  lemma TreesTaken(f: Format, s: Snapshot, n: nat, g: Trees)
    requires f.Valid() && Live(f, s) && s.stage.InTrees? && Fits(s, TreesRead(Some(g)))
    ensures var u := Stepped(f, s, n, TreesRead(Some(g))); var w := FirstPlace(s.st, g);
            && u.stage.InCommand? && u.trees == g && u.last == s.last && u.bit == InByte(s.bit + n) && u.st == s.st
            && Tracks(u.literalTurn, w.literal) && Tracks(u.commandTurn, w.command)
            && Tracks(u.distanceTurn, w.distance)
  {
    hide Format.Valid, Good, Groups.Valid, Pow2, Wanted;
  }

  /** The header of a meta-block, and the meta-block is entered. */
  lemma HeaderIsRead(f: Format, s: Snapshot, at: nat, h: Headers.Header, next: nat, rest: Bits) returns (u: Snapshot)
    requires f.Valid() && Good(f, s) && s.stage == InHeader(FreshHeader()) && s.bit == InByte(at)
    requires Headers.Representable(h) && next == at + |Headers.Encode(h)|
    ensures Good(f, u) && u == Enter(s, h).(bit := InByte(next))
    ensures RunOf(f, s, Headers.Encode(h) + rest) == RunOf(f, u, rest)
  {
    hide Format.Valid, Good, RunOf, Groups.Valid, Enter, Headers.Encode, Headers.RunHeader, Headers.HeaderOf,
         FreshHeader, Headers.Representable;
    HeaderParses(h, rest);
    HeaderIsLive(f, s);
    var bit := HeaderRead(f, s, Headers.Encode(h) + rest);
    BitAfter(at, |Headers.Encode(h)|);
    u := Enter(s, h).(bit := bit);
  }

  // ---------- Whole streams ----------

  /** History, nothing owed, and recent distances once a meta-block is complete. */
  ghost function AfterBlock(f: Format, p: BlockPlan, hist: seq<Byte>, recent: seq<int>): (st: State)
    requires f.Valid() && WellFormed(recent)
    ensures WellFormed(st.recent)
  {
    hide Format.Valid, WellFormed;
    match p
    case EmptyPlan => State(hist, 0, recent)
    case MetadataPlan(_, _) => State(hist, 0, recent)
    case StoredPlan(data) => State(hist + data, 0, recent)
    case CodedPlan(_, length, _, _, commands) =>
      if ValidCommands(CommandsOf(commands)) then Completed(f, State(hist, length, recent), CommandsOf(commands))
      else State(hist, 0, recent)
  }

  /** In front of a meta-block. */
  predicate AtHeader(s: Snapshot, at: nat, hist: seq<Byte>, recent: seq<int>) {
    s.stage == InHeader(FreshHeader()) && s.bit == InByte(at) && s.st.hist == hist && s.st.recent == recent
  }

  /** At the end of one. */
  predicate AtEnd(s: Snapshot, last: bool, at: nat, st: State) {
    s.stage.Closing? && s.last == last && s.bit == InByte(at) && s.st == st && st.remaining == 0
  }

  lemma CodedIsRead(f: Format, s: Snapshot, at: nat, p: BlockPlan, end: nat, blocks: seq<Block>, rest: Bits)
    returns (u: Snapshot)
    requires f.Valid() && Good(f, s) && s.stage.InTrees? && s.bit == InByte(at) && p.CodedPlan?
    requires WellFormed(s.st.recent)
    requires BlockFits(f, p, s.st.hist, s.st.recent) && s.st.remaining == p.length && s.last == p.last
    requires blocks != [] && ValidBlocks(blocks) && end == at + |BodyText(f, p, at)|
    ensures Good(f, u) && ValidCommands(CommandsOf(p.commands))
    ensures AtEnd(u, p.last, end, AfterBlock(f, p, s.st.hist, s.st.recent))
    ensures RunCommands(f.env, blocks, s.st, CommandsOf(p.commands)) == RunEnd(f.env, blocks, u.st)
    ensures RunOf(f, s, BodyText(f, p, at) + rest) == RunOf(f, u, rest)
  {
    hide Format.Valid, Good, RunOf, Groups.Valid, CommandsText, WellFormed, Completed, RunCommands, RunEnd, CommandsFit,
         AtPlace, Headers.Representable, ValidBlocks, InByte;
    var x, y := p.treeBits, CommandsText(f, p.trees.params, p.commands);
    BitsAssociate(x, y, rest);
    var v := TreesAreRead(f, s, at, x, p.trees, y + rest);
    u := CommandsAreRead(f, v, p.trees, p.last, FirstPlace(s.st, p.trees), at + |x|, p.commands, end, blocks, rest);
  }

  lemma BytesAreRead(f: Format, s: Snapshot, at: nat, p: BlockPlan, end: nat, rest: Bits) returns (u: Snapshot)
    requires f.Valid() && Good(f, s) && s.stage == InPadding(p.StoredPlan?) && s.bit == InByte(at)
    requires WellFormed(s.st.recent)
    requires p.StoredPlan? || p.MetadataPlan?
    requires s.st.remaining == |if p.StoredPlan? then p.data else p.bytes| && (p.StoredPlan? ==> p.data != [])
    requires end == at + |BodyText(f, p, at)|
    ensures Good(f, u) && AtEnd(u, s.last, end, AfterBlock(f, p, s.st.hist, s.st.recent))
    ensures RunOf(f, s, BodyText(f, p, at) + rest) == RunOf(f, u, rest)
  {
    hide Format.Valid, Good, RunOf, Groups.Valid, WellFormed, Padding, ByteBits, InByte;
    var bytes := if p.StoredPlan? then p.data else p.bytes;
    BitsAssociate(Padding(at), ByteBits(bytes), rest);
    u := PaddingIsRead(f, s, at, ByteBits(bytes) + rest);
    PaddingIsWhole(at);
    WholeBytesAt(at, |Padding(at)|, |bytes|);
    if p.StoredPlan? {
      u := StoredBytesRead(f, u, bytes, rest);
    } else if bytes == [] {
      NoBytes(rest);
    } else {
      u := SkippedBytesRead(f, u, bytes, rest);
    }
  }

  lemma PaddingIsWhole(at: nat)
    ensures InByte(at + |Padding(at)|) == 0
  {
  }

  lemma WholeBytesAt(at: nat, m: nat, n: nat)
    requires InByte(at + m) == 0
    ensures InByte(at + (m + 8 * n)) == 0
  {
  }

  ghost function BlockText(f: Format, p: BlockPlan, at: nat): (b: Bits) {
    if Headers.Representable(HeaderOf(p)) then HeaderText(p) + BodyText(f, p, at + |HeaderText(p)|) else []
  }

  /** What commands mean is what they lead to. */
  ghost predicate CommandsMean(f: Format, p: BlockPlan, blocks: seq<Block>, hist: seq<Byte>, recent: seq<int>,
                               st: State)
    requires f.Valid() && WellFormed(recent) && WellFormed(st.recent) && blocks != [] && ValidBlocks(blocks)
  {
    hide Format.Valid, WellFormed, ValidBlocks, RunCommands, RunEnd;
    p.CodedPlan? ==>
      && ValidCommands(CommandsOf(p.commands))
      && RunCommands(f.env, blocks, State(hist, p.length, recent), CommandsOf(p.commands)) == RunEnd(f.env, blocks, st)
  }

  lemma BlockEntered(s: Snapshot, p: BlockPlan, hist: seq<Byte>, recent: seq<int>, at: nat, next: nat, u: Snapshot)
    requires AtHeader(s, at, hist, recent) && u == Enter(s, HeaderOf(p)).(bit := InByte(next))
    ensures u.st.hist == hist && u.st.recent == recent && u.last == IsLast(p) && u.bit == InByte(next)
    ensures match p
            case EmptyPlan => u.stage.Closing? && u.st.remaining == 0
            case MetadataPlan(_, bytes) => u.stage == InPadding(false) && u.st.remaining == |bytes|
            case StoredPlan(data) => u.stage == InPadding(true) && u.st.remaining == |data|
            case CodedPlan(_, length, _, _, _) => u.stage.InTrees? && u.st.remaining == length
  {
    hide InByte, Groups.Valid;
  }

  /** A meta-block has been written: the decoder reads it, and does what it stands for. */
  lemma BlockIsRead(f: Format, s: Snapshot, at: nat, p: BlockPlan, end: nat, blocks: seq<Block>, hist: seq<Byte>,
                    recent: seq<int>, rest: Bits) returns (u: Snapshot)
    requires f.Valid() && Good(f, s) && WellFormed(recent) && AtHeader(s, at, hist, recent)
    requires BlockFits(f, p, hist, recent) && blocks != [] && ValidBlocks(blocks) && end == at + |BlockText(f, p, at)|
    ensures Good(f, u) && AtEnd(u, IsLast(p), end, AfterBlock(f, p, hist, recent))
    ensures RunOf(f, s, BlockText(f, p, at) + rest) == RunOf(f, u, rest)
    ensures CommandsMean(f, p, blocks, hist, recent, AfterBlock(f, p, hist, recent))
  {
    hide Format.Valid, Good, RunOf, Groups.Valid, BodyText, WellFormed, Headers.Encode, RunCommands, RunEnd, AfterBlock,
         ValidBlocks, CommandsFit, InByte, Enter;
    var x, k := HeaderText(p), at + |HeaderText(p)|;
    var y := BodyText(f, p, k);
    BitsAssociate(x, y, rest);
    u := HeaderIsRead(f, s, at, HeaderOf(p), k, y + rest);
    BlockEntered(s, p, hist, recent, at, k, u);
    match p {
      case EmptyPlan => EmptyBody(f, k, hist, recent, rest);
      case MetadataPlan(_, _) => u := BytesAreRead(f, u, k, p, end, rest);
      case StoredPlan(_) => u := BytesAreRead(f, u, k, p, end, rest);
      case CodedPlan(_, _, _, _, _) => u := CodedIsRead(f, u, k, p, end, blocks, rest);
    }
  }

  lemma EmptyBody(f: Format, at: nat, hist: seq<Byte>, recent: seq<int>, rest: Bits)
    requires f.Valid() && WellFormed(recent)
    ensures BodyText(f, EmptyPlan, at) == [] && [] + rest == rest
    ensures AfterBlock(f, EmptyPlan, hist, recent) == State(hist, 0, recent)
  {
  }

  /** Meta-blocks up to the last one. */
  ghost predicate StreamFits(f: Format, ps: seq<BlockPlan>, hist: seq<Byte>, recent: seq<int>)
    requires f.Valid() && WellFormed(recent)
    decreases |ps|
  {
    hide Format.Valid, WellFormed, BlockFits, AfterBlock;
    ps != [] && BlockFits(f, ps[0], hist, recent) &&
    if IsLast(ps[0]) then |ps| == 1
    else
      var st := AfterBlock(f, ps[0], hist, recent);
      StreamFits(f, ps[1..], st.hist, st.recent)
  }

  function BlocksFrom(ps: seq<BlockPlan>): (blocks: seq<Block>) {
    if ps == [] then [] else [BlockFrom(ps[0])] + BlocksFrom(ps[1..])
  }

  /** And zeros up to the end of the last byte. */
  ghost function StreamText(f: Format, ps: seq<BlockPlan>, at: nat): (b: Bits)
    decreases |ps|
  {
    if ps == [] then Padding(at)
    else BlockText(f, ps[0], at) + StreamText(f, ps[1..], at + |BlockText(f, ps[0], at)|)
  }

  /** What is between two meta-blocks. */
  lemma NextBlock(f: Format, s: Snapshot, at: nat, st: State, rest: Bits) returns (u: Snapshot)
    requires f.Valid() && Good(f, s) && AtEnd(s, false, at, st)
    ensures Good(f, u) && AtHeader(u, at, st.hist, st.recent) && RunOf(f, s, rest) == RunOf(f, u, rest)
  {
    hide Format.Valid, Good, RunOf, Stepped, Groups.Valid, Fits;
    PaddingIsLive(f, s);
    CloseWants(s);
    u := NumberIsTaken(f, s, [], 0, rest);
    assert [] + rest == rest;
    CloseTaken(f, s, 0);
  }

  lemma CloseWants(s: Snapshot)
    requires s.stage.Closing? && !s.last
    ensures Wanted(s) == 0 && Value([]) == 0 && !Spent(s)
  {
  }

  lemma CloseTaken(f: Format, s: Snapshot, n: nat)
    requires f.Valid() && Live(f, s) && s.stage.Closing? && Fits(s, Number(0)) && s.st.remaining >= 0
    ensures Stepped(f, s, n, Number(0))
            == s.(bit := InByte(s.bit + n), stage := if s.last then Delivering else InHeader(FreshHeader()))
  {
    hide Format.Valid, Good, Groups.Valid, Pow2, Wanted;
  }

  /** The end of the stream, and the rest of the output is written. */
  lemma StreamEnds(f: Format, s: Snapshot, at: nat, st: State, rest: Bits) returns (u: Snapshot)
    requires f.Valid() && Good(f, s) && AtEnd(s, true, at, st)
    ensures u.stage.Ended? && u.st == st && RunOf(f, s, Padding(at) + rest) == (u, rest)
  {
    hide Format.Valid, Good, Stepped, Groups.Valid, Fits, Padding, RunOf, InByte;
    PaddingIsLive(f, s);
    PaddingIsWanted(s, at);
    var v := NumberIsTaken(f, s, Padding(at), 0, rest);
    CloseTaken(f, s, |Padding(at)|);
    u := Resume(f, v);
    Delivered(f, v, rest);
  }

  lemma Delivered(f: Format, s: Snapshot, b: Bits)
    requires f.Valid() && Good(f, s) && s.stage.Delivering?
    ensures Resume(f, s) == s.(stage := Ended) && RunOf(f, s, b) == (Resume(f, s), b)
  {
    hide Format.Valid, BitMachine, Streaming.Lawful, Streaming.Run, Next, Groups.Valid, RecentGood, TurnsGood;
    RunUnfolds(f, s, b, true);
    RunUnfolds(f, Resume(f, s), b, true);
  }

  lemma {:induction false} CommandsAreValid(f: Format, g: Trees, w: Place, ps: seq<CommandPlan>)
    requires f.Valid() && WellFormed(w.st.recent) && CommandsFit(f, g, w, ps)
    ensures ValidCommands(CommandsOf(ps))
    decreases |ps|
  {
    hide Format.Valid, CommandFits, ExecCommand, WellFormed, Groups.Valid, CommandOf, AfterCommandPlan;
    var e := ExecCommand(f.env, w.st, CommandOf(ps[0]));
    PlaceAfter(w, ps[0], e.st);
    if e.Running? {
      CommandsAreValid(f, g, AfterCommandPlan(w, ps[0], e.st), ps[1..]);
    }
    PrependedValid(CommandOf(ps[0]), CommandsOf(ps[1..]));
  }

  lemma BlockIsValid(f: Format, p: BlockPlan, hist: seq<Byte>, recent: seq<int>)
    requires f.Valid() && WellFormed(recent) && BlockFits(f, p, hist, recent)
    ensures BlockFrom(p).Valid()
  {
    hide Format.Valid, CommandsFit, WellFormed, Groups.Valid;
    if p.CodedPlan? {
      CommandsAreValid(f, p.trees, FirstPlace(State(hist, p.length, recent), p.trees), p.commands);
    }
  }

  lemma {:induction false} BlocksAreValid(f: Format, ps: seq<BlockPlan>, hist: seq<Byte>, recent: seq<int>)
    requires f.Valid() && WellFormed(recent) && StreamFits(f, ps, hist, recent)
    ensures BlocksFrom(ps) != [] && ValidBlocks(BlocksFrom(ps)) && BlocksFrom(ps)[0] == BlockFrom(ps[0])
    ensures BlocksFrom(ps)[1..] == BlocksFrom(ps[1..])
    decreases |ps|
  {
    hide Format.Valid, BlockFits, WellFormed, AfterBlock, BlockFrom, Groups.Valid, Block.Valid;
    BlockIsValid(f, ps[0], hist, recent);
    if IsLast(ps[0]) {
      assert ps[1..] == [];
    } else {
      var st := AfterBlock(f, ps[0], hist, recent);
      BlocksAreValid(f, ps[1..], st.hist, st.recent);
    }
  }

  lemma BlockMeans(f: Format, p: BlockPlan, blocks: seq<Block>, hist: seq<Byte>, recent: seq<int>, st: State)
    requires f.Valid() && WellFormed(recent) && WellFormed(st.recent) && blocks != [] && ValidBlocks(blocks)
    requires blocks[0] == BlockFrom(p) && st == AfterBlock(f, p, hist, recent) && st.remaining == 0
    requires CommandsMean(f, p, blocks, hist, recent, st)
    ensures CommandSpec.Run(f.env, blocks, hist, recent)
            == if IsLast(p) then Outcome(st.hist, Accept)
               else CommandSpec.Run(f.env, blocks[1..], st.hist, st.recent)
  {
    hide Format.Valid, WellFormed, RunCommands, Completed, Groups.Valid;
  }

  /** Everything that has been written is read, and comes to what the meta-blocks mean. */
  lemma {:induction false} BlocksAreRead(f: Format, s: Snapshot, at: nat, ps: seq<BlockPlan>, hist: seq<Byte>,
                                         recent: seq<int>, more: Bits) returns (t: Snapshot)
    requires f.Valid() && Good(f, s) && WellFormed(recent) && AtHeader(s, at, hist, recent)
    requires StreamFits(f, ps, hist, recent)
    ensures t.stage.Ended? && RunOf(f, s, StreamText(f, ps, at) + more) == (t, more)
    ensures ValidBlocks(BlocksFrom(ps))
    ensures CommandSpec.Run(f.env, BlocksFrom(ps), hist, recent) == Outcome(t.st.hist, Accept)
    decreases |ps|
  {
    hide Format.Valid, Good, RunOf, Groups.Valid, BlockText, WellFormed, AfterBlock, ValidBlocks, BlockFits, BlockFrom,
         CommandSpec.Run, CommandsMean, AtHeader, BlocksFrom, Padding, InByte;
    var p, tail, blocks := ps[0], ps[1..], BlocksFrom(ps);
    var st, k := AfterBlock(f, p, hist, recent), at + |BlockText(f, p, at)|;
    BlocksAreValid(f, ps, hist, recent);
    BitsAssociate(BlockText(f, p, at), StreamText(f, tail, k), more);
    var u := BlockIsRead(f, s, at, p, k, blocks, hist, recent, StreamText(f, tail, k) + more);
    BlockMeans(f, p, blocks, hist, recent, st);
    if IsLast(p) {
      t := StreamEnds(f, u, k, st, more);
    } else {
      var v := NextBlock(f, u, k, st, StreamText(f, tail, k) + more);
      t := BlocksAreRead(f, v, k, tail, st.hist, st.recent, more);
    }
  }

  // ---------- From bytes in any portions ----------

  /** The window bits, which are somebody else's to write, and then the meta-blocks. */
  ghost function WholeText(f: Format, front: Bits, ps: seq<BlockPlan>): (b: Bits) {
    front + StreamText(f, ps, |front|)
  }

  lemma PreludeIsRead(f: Format, customDict: seq<Byte>, front: Bits, rest: Bits) returns (u: Snapshot)
    requires f.Valid()
    ensures f.env.Full() >= GAP && Good(f, u)
    ensures AtHeader(u, |front|, Reachable(customDict, f.env.Full()), [4, 11, 15, 16])
    ensures RunOf(f, Fresh(f, customDict, |front|), front + rest) == RunOf(f, u, rest)
  {
    hide Format.Valid, Good, RunOf, Stepped, Groups.Valid, Fits, Value, Reachable, NoGroups, InByte;
    var s := Fresh(f, customDict, |front|);
    WindowHoldsGap(f);
    FreshIsGood(f, customDict, |front|);
    FreshIsLive(f, s);
    u := NumberIsTaken(f, s, front, Value(front), rest);
    PreludeTaken(f, s, |front|, Value(front));
  }

  lemma FreshIsLive(f: Format, s: Snapshot)
    requires Good(f, s) && s.stage.InPrelude?
    ensures Live(f, s) && !Spent(s) && Wanted(s) == s.stage.bits
  {
  }

  lemma PreludeTaken(f: Format, s: Snapshot, n: nat, v: nat)
    requires f.Valid() && Live(f, s) && s.stage.InPrelude? && Fits(s, Number(v))
    ensures Stepped(f, s, n, Number(v)) == s.(bit := InByte(s.bit + n), stage := InHeader(FreshHeader()))
  {
    hide Format.Valid, Good, Groups.Valid, Pow2, Wanted;
  }

  /** What meta-blocks mean to a decoder with this dictionary. */
  ghost function MeaningOf(f: Format, customDict: seq<Byte>, ps: seq<BlockPlan>): (o: Outcome)
    requires f.Valid() && ValidBlocks(BlocksFrom(ps))
  {
    hide Format.Valid, ValidBlocks, CommandSpec.Run, Reachable, WellFormed;
    WindowHoldsGap(f);
    FirstDistances();
    CommandSpec.Run(f.env, BlocksFrom(ps), Reachable(customDict, f.env.Full()), [4, 11, 15, 16])
  }

  ghost predicate CanBeWritten(f: Format, customDict: seq<Byte>, ps: seq<BlockPlan>)
    requires f.Valid()
  {
    hide Format.Valid, StreamFits, Reachable, WellFormed;
    WindowHoldsGap(f);
    FirstDistances();
    StreamFits(f, ps, Reachable(customDict, f.env.Full()), [4, 11, 15, 16])
  }

  /**
   * Reading what has been written, whatever follows it, ends at the end of the stream and with the bytes that the
   * meta-blocks mean; no count runs out on the way.
   */
  lemma StreamRoundTrip(f: Format, customDict: seq<Byte>, front: Bits, ps: seq<BlockPlan>, stream: seq<Byte>)
    requires f.Valid() && CanBeWritten(f, customDict, ps) && WholeText(f, front, ps) <= ByteBits(stream)
    ensures ValidBlocks(BlocksFrom(ps)) && ValidBlocks(BlocksOf(f, customDict, |front|, stream))
    ensures var last, o := LastOf(f, customDict, |front|, stream), MeaningOf(f, customDict, ps);
            && last.stage.Ended? && last.st.hist == o.hist && o.verdict == Accept
            && !Overused(f, customDict, |front|, stream) && OutcomeOf(f, customDict, |front|, stream) == o
  {
    hide Format.Valid, Good, ByteBits, Reachable, StreamFits, StreamText, WellFormed, CommandSpec.Run, AtHeader, Fresh,
         BlocksOf, BlocksFrom, OutcomeOf, Overused, Groups.Valid, BitMachine, Streaming.Run, Streaming.Lawful,
         ValidBlocks, InByte;
    WindowHoldsGap(f);
    FirstDistances();
    var b, dict := StreamText(f, ps, |front|), Reachable(customDict, f.env.Full());
    var more := ByteBits(stream)[|front + b|..];
    assert ByteBits(stream) == front + (b + more);
    var u := PreludeIsRead(f, customDict, front, b + more);
    var t := BlocksAreRead(f, u, |front|, ps, dict, [4, 11, 15, 16], more);
    ReadAtOnce(f, customDict, |front|, stream);
    EndedTells(t, OutcomeOf(f, customDict, |front|, stream));
  }

  lemma EndedTells(t: Snapshot, o: Outcome)
    requires t.stage.Ended?
    ensures !Spent(t) && (Tells(t, o) ==> o == Outcome(t.st.hist, Accept))
  {
  }

  /**
   * Bytes in any portions, and output let go in any portions: of a stream that has been written nothing but the
   * beginning of its bytes is produced, it is never found invalid, and given all of it and enough room for the output,
   * exactly its bytes are produced.
   */
  method DecodeWritten(f: Format, customDict: seq<Byte>, ghost front: Bits, ghost ps: seq<BlockPlan>, prelude: nat,
                       offers: seq<Streaming.Offer>) returns (result: Code, state: Snapshot)
    requires f.Valid() && offers != [] && CanBeWritten(f, customDict, ps) && prelude == |front|
    requires WholeText(f, front, ps) <= ByteBits(Streaming.Joined(offers))
    ensures ValidBlocks(BlocksFrom(ps))
    ensures var o := MeaningOf(f, customDict, ps);
            && o.verdict == Accept && state.st.hist <= o.hist && result != Failure
            && (result == Success ==> state.st.hist == o.hist)
            && (Suffices(f, customDict, prelude, Streaming.Joined(offers), offers[|offers| - 1].grants) ==>
                  result == Success)
  {
    hide Format.Valid, Streaming.Joined, BlocksOf, Suffices, LastOf, Overused, OutcomeOf, CanBeWritten, WholeText,
         MeaningOf, BlocksFrom, ValidBlocks;
    StreamRoundTrip(f, customDict, front, ps, Streaming.Joined(offers));
    var rest;
    result, state, rest := DecodeStream(f, customDict, prelude, offers);
  }

  /** Trees that have been written are trees that the format reads. */
  lemma WrittenTreesAreRead(env: Env, lut: seq<CmdLutElement>, lookup: seq<seq<nat>>, b: TreeReading.Builder,
                            p: TreeWriting.TreesPlan)
    requires env.Valid() && TablesFit(lut, lookup) && b.Valid() && TreeWriting.PlanFits(b, p)
    ensures |p.categories| == 3 && TreeWriting.GroupsOfPlan(b, p).Valid()
    ensures var w := TreeWriting.TreesBits(b, p);
            TreeReading.WithTrees(env, lut, lookup, b).readTrees(w)
            == Some((|w|, Some(TreeWriting.GroupsOfPlan(b, p))))
  {
    hide TreeReading.Builder.Valid, TreeWriting.PlanFits, TreeWriting.TreesBits, Groups.Valid, TablesFit, Env.Valid,
         TreeReading.TreesAt;
    TreeWriting.TreesFound(b, p, []);
    assert TreeWriting.TreesBits(b, p) + [] == TreeWriting.TreesBits(b, p);
  }

  // ---------- Whatever the bytes ----------

  /** Bytes as they are, in as many meta-blocks as it takes. */
  function StoredPlans(data: seq<Byte>): (ps: seq<BlockPlan>) {
    if data == [] then [EmptyPlan]
    else [StoredPlan(data[..Min(|data|, FULL_COUNT)])] + StoredPlans(data[Min(|data|, FULL_COUNT)..])
  }

  lemma {:induction false} StoredStreamFits(f: Format, data: seq<Byte>, hist: seq<Byte>, recent: seq<int>)
    requires f.Valid() && WellFormed(recent)
    ensures StreamFits(f, StoredPlans(data), hist, recent)
    decreases |data|
  {
    hide Format.Valid, WellFormed, Pow2;
    LongestIsHeld();
    if data != [] {
      var n := Min(|data|, FULL_COUNT);
      StoredStreamFits(f, data[n..], hist + data[..n], recent);
      assert StoredPlans(data)[1..] == StoredPlans(data[n..]);
    }
  }

  /** A single block type lasts for the longest meta-block there can be. */
  lemma LongestIsHeld()
    ensures FULL_COUNT == Pow2(24)
    ensures Headers.Representable(Headers.Data(false, true, FULL_COUNT))
    ensures !Headers.Representable(Headers.Data(false, true, FULL_COUNT + 1))
  {
    Headers.Pow2Add(8, 8);
    Headers.Pow2Add(16, 8);
    EightBits();
  }

  lemma {:induction false} StoredStreamMeans(f: Format, data: seq<Byte>, hist: seq<Byte>, recent: seq<int>)
    requires f.Valid() && WellFormed(recent)
    ensures ValidBlocks(BlocksFrom(StoredPlans(data)))
    ensures CommandSpec.Run(f.env, BlocksFrom(StoredPlans(data)), hist, recent) == Outcome(hist + data, Accept)
    decreases |data|
  {
    hide Format.Valid, WellFormed, ValidBlocks;
    if data == [] {
      assert hist + [] == hist;
      NothingStored(f, hist, recent);
    } else {
      hide CommandSpec.Run;
      var n := Min(|data|, FULL_COUNT);
      StoredStreamMeans(f, data[n..], hist + data[..n], recent);
      assert StoredPlans(data)[1..] == StoredPlans(data[n..]);
      assert hist + data[..n] + data[n..] == hist + data;
      var b := Block(false, Stored(data[..n]));
      assert BlocksFrom(StoredPlans(data)) == [b] + BlocksFrom(StoredPlans(data[n..]));
      StoredFirst(f.env, data[..n], BlocksFrom(StoredPlans(data[n..])), hist, recent);
    }
  }

  lemma NothingStored(f: Format, hist: seq<Byte>, recent: seq<int>)
    requires f.Valid() && WellFormed(recent)
    ensures ValidBlocks(BlocksFrom(StoredPlans([])))
    ensures CommandSpec.Run(f.env, BlocksFrom(StoredPlans([])), hist, recent) == Outcome(hist, Accept)
  {
    hide Format.Valid, WellFormed;
  }

  lemma StoredFirst(env: Env, data: seq<Byte>, blocks: seq<Block>, hist: seq<Byte>, recent: seq<int>)
    requires env.Valid() && WellFormed(recent) && ValidBlocks(blocks) && data != []
    ensures var all := [Block(false, Stored(data))] + blocks;
            && ValidBlocks(all)
            && CommandSpec.Run(env, all, hist, recent) == CommandSpec.Run(env, blocks, hist + data, recent)
  {
    hide Env.Valid, WellFormed;
    assert ([Block(false, Stored(data))] + blocks)[1..] == blocks;
  }

  lemma {:induction false} TextIsWhole(f: Format, ps: seq<BlockPlan>, at: nat)
    ensures (at + |StreamText(f, ps, at)|) % 8 == 0
    decreases |ps|
  {
    hide BlockText;
    if ps != [] {
      TextIsWhole(f, ps[1..], at + |BlockText(f, ps[0], at)|);
    }
  }

  /** As bytes. */
  ghost function StreamFrom(f: Format, front: Bits, ps: seq<BlockPlan>): (stream: seq<Byte>)
    ensures ByteBits(stream) == WholeText(f, front, ps)
  {
    hide StreamText, ByteBits, BytesOf;
    TextIsWhole(f, ps, |front|);
    BitsOfBytes(WholeText(f, front, ps));
    BytesOf(WholeText(f, front, ps))
  }

  lemma StoredIsMeant(f: Format, customDict: seq<Byte>, data: seq<Byte>)
    requires f.Valid()
    ensures f.env.Full() >= GAP && ValidBlocks(BlocksFrom(StoredPlans(data)))
    ensures CanBeWritten(f, customDict, StoredPlans(data))
    ensures MeaningOf(f, customDict, StoredPlans(data)) == Outcome(Reachable(customDict, f.env.Full()) + data, Accept)
  {
    hide Format.Valid, StreamFits, Reachable, WellFormed, StoredPlans, BlocksFrom, ValidBlocks, CommandSpec.Run;
    WindowHoldsGap(f);
    FirstDistances();
    StoredStreamFits(f, data, Reachable(customDict, f.env.Full()), [4, 11, 15, 16]);
    StoredStreamMeans(f, data, Reachable(customDict, f.env.Full()), [4, 11, 15, 16]);
  }

  /** Every sequence of bytes is what some stream decodes to, for every format and behind any window bits. */
  lemma EveryOutputHasAStream(f: Format, customDict: seq<Byte>, front: Bits, data: seq<Byte>)
    requires f.Valid()
    ensures var stream := StreamFrom(f, front, StoredPlans(data));
            && f.env.Full() >= GAP && ValidBlocks(BlocksOf(f, customDict, |front|, stream))
            && OutcomeOf(f, customDict, |front|, stream) == Outcome(Reachable(customDict, f.env.Full()) + data, Accept)
            && !Overused(f, customDict, |front|, stream)
  {
    hide Format.Valid, Reachable, StoredPlans, BlocksFrom, ValidBlocks, BlocksOf, OutcomeOf, Overused, MeaningOf,
         CanBeWritten, WholeText, ByteBits, StreamFrom, LastOf;
    StoredIsMeant(f, customDict, data);
    StreamRoundTrip(f, customDict, front, StoredPlans(data), StreamFrom(f, front, StoredPlans(data)));
  }

  // ---------- Commands that can be written ----------

  /** One command that copies n bytes from the last distance, with codes that take no bits. */
  function CopyPlan(n: nat): (p: BlockPlan) {
    CodedPlan(true, n, [], NoGroups(), [CommandPlan(None, [], 0, [], n, Explicit(None, [], Short(0)))])
  }

  lemma OneSymbolSpells(symbol: nat)
    ensures TreeWriting.Spells(OneSymbol(symbol), [], symbol)
  {
    hide OneSymbol, RepresentsCode, Decode;
    NoBitsDecode(symbol, []);
  }

  lemma PlainParts()
    ensures var g := NoGroups();
            && g.literalTypes.num == g.commandTypes.num == g.distanceTypes.num == 1
            && g.literalTypes.first == g.commandTypes.first == g.distanceTypes.first == FULL_COUNT
            && g.commands == [OneSymbol(0)] && g.distances == [OneSymbol(0)] && g.distanceMap == seq(4, i => 0)
  {
    hide OneSymbol;
  }

  lemma CopyIsExecuted(env: Env, hist: seq<Byte>, n: nat)
    requires env.Valid() && |hist| >= 4 && n > 0
    ensures WellFormed([4, 11, 15, 16])
    ensures ExecCommand(env, State(hist, n, [4, 11, 15, 16]), Command([], n, Short(0)))
            == BlockEnd(State(CopyNaive(hist, 4, n), 0, [4, 11, 15, 16]))
  {
    hide Env.Valid, CopyNaive, Reference, Transformed;
    ReachIsAllowed(env);
    assert ShortDistance(0, [4, 11, 15, 16]) == 4;
  }

  lemma CopyPlanFits(env: Env, w: Place, n: nat, p: CommandPlan)
    requires env.Valid() && 0 < n < MAX_OFFSET && w.command.left > 0 && w.distance.left > 0
    requires Latest(w.command, 1) == Latest(w.distance, 1) == 0
    requires p == CommandPlan(None, [], 0, [], n, Explicit(None, [], Short(0)))
    ensures CommandFits(PlainFormat(env, n, NoGroups()), NoGroups(), w, p)
  {
    hide Env.Valid, NoGroups, OneSymbol, TreeWriting.Spells, Groups.Valid, SymbolsBelow, RepresentsCode, Format.Valid,
         LengthsFit, Pow2, TreeWriting.CountFits, Names;
    PlainParts();
    OneSymbolSpells(0);
    NoExtraLengths(n);
  }

  lemma NoExtraLengths(n: nat)
    ensures LengthsFit(CmdLutElement(0, 0, -1, 0, 0, n), 0, n)
  {
  }

  /** So with four bytes in the dictionary there are commands to be written. */
  lemma CopyCanBeWritten(env: Env, customDict: seq<Byte>, n: nat)
    requires env.Valid() && 0 < n < MAX_OFFSET && |customDict| >= 4
    ensures CanBeWritten(PlainFormat(env, n, NoGroups()), customDict, [CopyPlan(n)])
  {
    hide Env.Valid, CopyNaive, ExecCommand, NoGroups, OneSymbol, Groups.Valid, SymbolsBelow, RepresentsCode,
         CommandFits, Format.Valid, WellFormed, Pow2;
    var f := PlainFormat(env, n, NoGroups());
    WindowHoldsGap(f);
    ReachIsAllowed(env);
    var hist := Reachable(customDict, f.env.Full());
    var g: Trees := NoGroups();
    PlainParts();
    LongestIsHeld();
    CopyIsExecuted(env, hist, n);
    CopyPlanFits(env, FirstPlace(State(hist, n, [4, 11, 15, 16]), g), n, CopyPlan(n).commands[0]);
    assert f.readTrees([]) == Some((0, Some(g)));
  }
}
