/**
 * What the decoder does where a block count has run out that it cannot renew, and a stream that leads there. The fast
 * path and the safe path then part, so that neither the size of the stash nor independence of how the input is cut
 * holds any longer.
 */
module SpentCounts {
  import opened Bytes
  import opened Results
  import opened BitReader
  import opened SymbolDecoding
  import opened Transform
  import opened SlidingWindow
  import opened Distances
  import opened CommandSpec
  import opened CommandPrefixes
  import opened BitDecoder
  import opened BitMeaning
  import opened BitPositions
  import opened BlockCounts
  import opened EndToEnd
  import DistanceReading
  import Headers = MetablockHeaders
  import Streaming

  // ---------- What the decoder does ----------

  /**
   * With enough bits at hand for the fast path, a failed switch only holds up commands. A literal is read before it is
   * found that its count is 0, which is an error; a distance is read, and its count goes down from 0. With fewer bits
   * the reader waits for more input, whatever the category.
   */
  function AtSpent(f: Format, enough: nat, s: Snapshot, b: Bits): (r: Option<(nat, Snapshot)>)
    requires f.Valid() && Live(f, s) && Spent(s)
  {
    hide Format.Valid, DistanceTree, LiteralTree, TakeDistance, DistanceReading.DistanceAt, Decode, RepresentsCode,
         Groups.Valid;
    if |b| < enough || s.stage.InCommand? then None
    else if s.stage.InLiterals? then
      match ReadLiteral(f, s, b)
      case None => None
      case Some((n, _)) => Some((n, s.(stage := Malformed, bit := (s.bit + n) % 8)))
    else
      match ReadDistance(f, s, b)
      case None => None
      case Some((n, item)) =>
        DistanceFits(f, s, b);
        var wrapping := s.distanceTurn.(count := WORD);
        Some((n, TakeDistance(f, s.(distanceTurn := wrapping), item.distance).(bit := (s.bit + n) % 8)))
  }

  /** The decoder as it is, with that many bits enough for the fast path. */
  function CodeMachine(f: Format, enough: nat): (m: Streaming.Machine<Snapshot>)
    requires f.Valid()
  {
    hide Next, Live, StageRank, Format.Valid, Restores, Resume, StatusOf, Rank, AtSpent;
    var m := BitMachine(f, false);
    m.(decode := (s, b) => if !Live(f, s) then None else if Spent(s) then AtSpent(f, enough, s, b) else Next(f, s, b),
       restores := (s, b) => if Live(f, s) && Spent(s) then AtSpent(f, enough, s, b).None? else Restores(f, s, b))
  }

  /** As long as no count has run out, it is the machine that counts. */
  lemma CodeAgrees(f: Format, enough: nat, s: Snapshot, b: Bits)
    requires f.Valid() && !Spent(s)
    ensures var c, m := CodeMachine(f, enough), BitMachine(f, true);
            && c.status(s) == m.status(s) && c.decode(s, b) == m.decode(s, b) && c.resume(s) == m.resume(s)
            && c.restores(s, b) == m.restores(s, b)
  {
    hide Next, Live, Format.Valid, Restores, Resume, StatusOf, Rank, AtSpent;
  }

  /**
   * Where one has run out, it asks for input and puts all of it back, however much of it: commands always, the others
   * until the fast path can take them.
   */
  lemma AlwaysPutBack(f: Format, enough: nat, s: Snapshot, b: Bits)
    requires f.Valid() && Live(f, s) && Spent(s) && (s.stage.InCommand? || |b| < enough)
    ensures Streaming.Starved(CodeMachine(f, enough), s, b) && CodeMachine(f, enough).restores(s, b)
  {
    hide Next, Format.Valid, Restores, Resume, Rank, Groups.Valid;
  }

  /**
   * In one shot a distance is read as if there were no count, which then stands at 2^32 - 1, and a literal is an error;
   * bit by bit, or byte by byte, neither happens.
   */
  lemma InOneShot(f: Format, enough: nat, s: Snapshot, b: Bits)
    requires f.Valid() && Live(f, s) && Spent(s) && !s.stage.InCommand?
    requires |b| >= enough >= MAX_LENGTH + DistanceReading.MAX_EXTRA
    ensures var m := CodeMachine(f, enough);
            && m.decode(s, b).Some? && Next(f, s, b).Some?
            && m.decode(s, b).value.0 == Next(f, s, b).value.0 <= MAX_LENGTH + DistanceReading.MAX_EXTRA
            && (s.stage.InDistance? ==>
                  m.decode(s, b).value.1 == Next(f, s, b).value.1.(distanceTurn := s.distanceTurn.(count := WORD - 1)))
            && (s.stage.InLiterals? ==> m.decode(s, b).value.1.stage.Malformed? && m.decode(s, b).value.1.st == s.st)
            && (forall k | 0 <= k < enough :: m.decode(s, b[..k]).None? && m.restores(s, b[..k]))
  {
    hide Format.Valid, Restores, Resume, Rank, StatusOf, Next, Good, AtSpent, Groups.Valid, Act, Fits, Stepped;
    NextParts(f, s, b);
    if s.stage.InLiterals? {
      LiteralInOneShot(f, enough, s, b);
    } else {
      DistanceInOneShot(f, enough, s, b);
    }
    forall k | 0 <= k < enough
      ensures AtSpent(f, enough, s, b[..k]).None?
    {
      TooFew(f, enough, s, b[..k]);
    }
  }

  lemma TooFew(f: Format, enough: nat, s: Snapshot, b: Bits)
    requires f.Valid() && Live(f, s) && Spent(s) && |b| < enough
    ensures AtSpent(f, enough, s, b).None?
  {
    hide Format.Valid, Good, Groups.Valid;
  }

  lemma LiteralInOneShot(f: Format, enough: nat, s: Snapshot, b: Bits)
    requires f.Valid() && Live(f, s) && Spent(s) && s.stage.InLiterals? && |b| >= enough >= MAX_LENGTH
    ensures Read(f, s, b).Some? && AtSpent(f, enough, s, b).Some?
    ensures var (n, next) := AtSpent(f, enough, s, b).value;
            n == Read(f, s, b).value.0 <= MAX_LENGTH && next.stage.Malformed? && next.st == s.st
  {
    hide Format.Valid, Good, Groups.Valid, Decode, LiteralTree, RepresentsCode;
    DecodeIsTotal(LiteralTree(f, s), b);
  }

  lemma DistanceInOneShot(f: Format, enough: nat, s: Snapshot, b: Bits)
    requires f.Valid() && Live(f, s) && Spent(s) && s.stage.InDistance?
    requires |b| >= enough >= MAX_LENGTH + DistanceReading.MAX_EXTRA
    ensures Read(f, s, b).Some? && AtSpent(f, enough, s, b).Some? && Fits(s, Read(f, s, b).value.1)
    ensures Read(f, s, b).value.0 <= MAX_LENGTH + DistanceReading.MAX_EXTRA
    ensures var (n, item) := Read(f, s, b).value;
            AtSpent(f, enough, s, b).value ==
            (n, Stepped(f, s, n, item).(distanceTurn := s.distanceTurn.(count := WORD - 1)))
  {
    hide Format.Valid, Good, Groups.Valid, DistanceTree, RepresentsCode, DistanceReading.DistanceAt, TakeDistance;
    DistanceReading.DistanceIsShort(s.trees.params, DistanceTree(f, s), b);
    DistanceReading.DistanceIsValid(s.trees.params, DistanceTree(f, s), b);
    ReadFits(f, s, b);
    TurnOnly(f, s, Read(f, s, b).value.1.distance);
  }

  /** The count is all that differs. */
  lemma TurnOnly(f: Format, s: Snapshot, code: DistanceCode)
    requires f.Valid() && Live(f, s) && s.stage.InDistance? && code.Valid() && !code.Implied?
    ensures TakeDistance(f, s.(distanceTurn := s.distanceTurn.(count := WORD)), code) ==
            TakeDistance(f, s, code).(distanceTurn := s.distanceTurn.(count := WORD - 1))
  {
    hide Format.Valid, Groups.Valid, Reference, Transformed, DistanceCode.Resolve, Push, PosGood, TurnsGood,
         PrefixGood;
  }

  /** Nothing is left to read with but what has no bits, and a count has run out. */
  function Exhausted(stage: Stage): (s: Snapshot)
    ensures s.stage == stage
  {
    var start := Start([], 0);
    start.(stage := stage, st := start.st.(remaining := 1), commandTurn := Turn(0, 1, 0),
           distanceTurn := Turn(0, 1, 0), prefix := Prefix(0, 4, -1, 0))
  }

  lemma ExhaustedIsLive(f: Format, stage: Stage)
    requires f.Valid() && (stage.InCommand? || stage.InDistance?)
    ensures Live(f, Exhausted(stage)) && Spent(Exhausted(stage))
  {
    hide Format.Valid, Groups.Valid;
    ReachIsAllowed(f.env);
  }

  /** So what the driver relies on does not hold: reads that are put back are not short, and depend on later bits. */
  lemma CodeIsUnlawful(f: Format, enough: nat)
    requires f.Valid() && enough > MAX_LENGTH + DistanceReading.MAX_EXTRA
    ensures !Streaming.Bounded(CodeMachine(f, enough)) && !Streaming.Prefixed(CodeMachine(f, enough))
  {
    hide Format.Valid, CodeMachine, Exhausted, Live, Spent, Next;
    var m, s, t := CodeMachine(f, enough), Exhausted(InCommand), Exhausted(InDistance);
    ExhaustedIsLive(f, InCommand);
    ExhaustedIsLive(f, InDistance);
    var b := Zeros(Max(enough, Streaming.LONGEST_READ));
    AlwaysPutBack(f, enough, s, b);
    assert m.restores(s, b) && m.decode(s, b).None? && |b| >= Streaming.LONGEST_READ;
    InOneShot(f, enough, t, b);
    var n := Max(m.decode(t, b).value.0, Streaming.PEEK);
    assert m.decode(t, b[..n]).None?;
  }

  // ---------- A stream that leads there ----------

  const OMIT_FIRST_4 := OMIT_FIRST_1 + 3
  const FAR := 34     // the transform that leaves nothing of a word of four letters
  const FAR_SYMBOL := 42
  const FAR_EXTRA := 2052
  const FAR_BITS := 14

  /** As in the table of section 8 of RFC 7932. */
  predicate Vanishes(env: Env)
    requires env.Valid()
  {
    var row := env.tables.rows[FAR];
    row.kind == OMIT_FIRST_4 && env.tables.Text(row.prefixId) == env.tables.Text(row.suffixId) == []
  }

  /** The first word of four letters, by way of that transform, from an empty window. */
  lemma FarDistance()
    ensures var p := Params(0, 0);
            && ExtraBits(p, FAR_SYMBOL) == FAR_BITS && FAR_EXTRA < Pow2(FAR_BITS)
            && DistanceOf(p, FAR_SYMBOL, FAR_EXTRA) == 1 + FAR * 1024
  {
    assert Pow2(0) == 1;
    assert Pow2(7) == 128;
    Headers.Pow2Add(7, 7);
    DivModUnique(26, 1, 26, 0);
  }

  lemma NothingLeft(env: Env)
    requires env.Valid() && Vanishes(env)
    ensures var r := Reference(env, 4, FAR * 1024);
            r.Some? && r.value.1 < |env.tables.rows| && Transformed(env.tables, r.value.0, r.value.1) == []
  {
    assert Pow2(5) == 32;
    Headers.Pow2Add(5, 5);
    DivModUnique(FAR * 1024, Pow2(SIZE_BITS[4]), FAR, 0);
    assert SIZE_BITS[4] == 10;
  }

  function FarTrees(): (t: Trees) {
    hide SymbolsBelow, RepresentsCode;
    OneSymbolIsCode(FAR_SYMBOL, BrotliMaxDistanceSymbol(0, 0));
    ByCode(OneSymbol(FAR_SYMBOL), BrotliMaxDistanceSymbol(0, 0));
    NoGroups().(distances := [OneSymbol(FAR_SYMBOL)])
  }

  /** Every command refers to that word. */
  function FarFormat(env: Env): (f: Format)
    requires env.Valid()
    ensures f.Valid()
  {
    PlainFormat(env, 4, FarTrees())
  }

  ghost predicate Far(f: Format) {
    && f.Valid() && Vanishes(f.env) && (forall b :: f.readTrees(b) == Some((0, Some(FarTrees()))))
    && f.lut == seq(NUM_COMMAND_SYMBOLS, i => CmdLutElement(0, 0, -1, 0, 0, 4))
  }

  lemma FarFormatIsFar(env: Env)
    requires env.Valid() && Vanishes(env)
    ensures Far(FarFormat(env)) && FarFormat(env).env == env
  {
    hide Env.Valid, FarTrees, Vanishes;
  }

  function Repeated(n: nat, unit: Bits): (b: Bits) {
    if n == 0 then [] else unit + Repeated(n - 1, unit)
  }

  /** In front of a command that will change nothing but counts. */
  ghost predicate AtCommand(f: Format, s: Snapshot) {
    Live(f, s) && s.stage.InCommand? && s.trees == FarTrees() && s.st == State([], 1, [4, 11, 15, 16]) && s.pos == 0
  }

  ghost predicate AtDistance(f: Format, s: Snapshot) {
    && Live(f, s) && s.stage.InDistance? && s.trees == FarTrees() && s.st == State([], 1, [4, 11, 15, 16])
    && s.pos == 0 && s.prefix == Prefix(0, 4, -1, 0)
  }

  lemma NoBitsDecode(symbol: nat, b: Bits)
    ensures RepresentsCode(OneSymbol(symbol)) && Decode(OneSymbol(symbol), b) == Some((0, symbol))
  {
    hide Pad, Index;
    OneSymbolIsCode(symbol, symbol + 1);
  }

  lemma FarParts(t: Trees)
    requires t == FarTrees()
    ensures t.commands == [OneSymbol(0)] && t.distances == [OneSymbol(FAR_SYMBOL)] && t.distanceMap == seq(4, i => 0)
    ensures t.literalTypes.num == t.commandTypes.num == t.distanceTypes.num == 1 && t.params == Params(0, 0)
  {
    hide OneSymbol;
  }

  lemma FarCommand(f: Format, s: Snapshot, b: Bits)
    requires Far(f) && AtCommand(f, s)
    ensures Read(f, s, b) == Some((0, Prefixed(Prefix(0, 4, -1, 0))))
  {
    hide Decode, RepresentsCode, SymbolsBelow, Env.Valid, OneSymbol, FarTrees, Groups.Valid, Format.Valid;
    FarParts(s.trees);
    NoBitsDecode(0, b);
    assert CommandTree(f, s) == OneSymbol(0);
    assert Value([]) == 0;
    assert b[0..][..0] == [] && b[0..][0..][..0] == [];
  }

  lemma CommandLeads(f: Format, s: Snapshot, b: Bits)
    requires Far(f) && AtCommand(f, s)
    ensures Next(f, s, b).Some? && Next(f, s, b).value.0 == 0 && AtDistance(f, Next(f, s, b).value.1)
  {
    hide Read, Good, Env.Valid, FarTrees, Groups.Valid, Format.Valid, Next;
    NextParts(f, s, b);
    FarCommand(f, s, b);
    NextGood(f, s, b);
  }

  lemma FarDistanceRead(f: Format, s: Snapshot, b: Bits)
    requires Far(f) && AtDistance(f, s) && BitsOf(FAR_EXTRA, FAR_BITS) <= b
    ensures Read(f, s, b) == Some((FAR_BITS, Code(Direct(1 + FAR * 1024))))
  {
    hide Decode, RepresentsCode, SymbolsBelow, Env.Valid, OneSymbol, FarTrees, Groups.Valid, Format.Valid, DistanceOf,
         ExtraBits, BitsOf, Value;
    FarParts(s.trees);
    NoBitsDecode(FAR_SYMBOL, b);
    assert DistanceTree(f, s) == OneSymbol(FAR_SYMBOL);
    FarDistance();
    ValueOfBits(FAR_EXTRA, FAR_BITS);
    assert b[0..][..FAR_BITS] == BitsOf(FAR_EXTRA, FAR_BITS);
  }

  lemma DistanceLeads(f: Format, s: Snapshot, b: Bits)
    requires Far(f) && AtDistance(f, s) && BitsOf(FAR_EXTRA, FAR_BITS) <= b
    ensures && Next(f, s, b).Some? && Next(f, s, b).value.0 == FAR_BITS && AtCommand(f, Next(f, s, b).value.1)
  {
    hide Read, Good, Env.Valid, FarTrees, Groups.Valid, Format.Valid, Next, TakeDistance, BitsOf, Vanishes;
    NextParts(f, s, b);
    FarDistanceRead(f, s, b);
    WordVanishes(f, s);
    NextGood(f, s, b);
  }

  lemma WordVanishes(f: Format, s: Snapshot)
    requires Far(f) && AtDistance(f, s)
    ensures var next := TakeDistance(f, s, Direct(1 + FAR * 1024));
            next.stage.InCommand? && next.trees == s.trees && next.st == s.st && next.pos == 0
  {
    hide Env.Valid, Reference, Transformed, Vanishes, FarTrees, Groups.Valid, Format.Valid, TurnsGood,
         PosGood, PrefixGood;
    NothingLeft(f.env);
    ReachIsAllowed(f.env);
    FarIsAllowed();
    assert Direct(1 + FAR * 1024).Resolve(s.st.recent) == 1 + FAR * 1024;
    assert s.st.hist + [] == s.st.hist;
  }

  lemma FarIsAllowed()
    ensures MAX_ALLOWED > 1 + FAR * 1024
  {
    BigPowers();
  }

  /** Each time round, a command is called for. */
  lemma OneRound(f: Format, s: Snapshot, b: Bits) returns (u: Snapshot)
    requires Far(f) && AtCommand(f, s) && BitsOf(FAR_EXTRA, FAR_BITS) <= b
    ensures AtCommand(f, u) && Demanded(f, s, b).commands == 1 + Demanded(f, u, b[FAR_BITS..]).commands
  {
    hide Vanishes, BitsOf, Format.Valid, Env.Valid, Good, FarTrees, Demanded, Next;
    CommandLeads(f, s, b);
    var t := Next(f, s, b).value.1;
    DistanceLeads(f, t, b);
    u := Next(f, t, b).value.1;
    FarParts(s.trees);
    assert b[0..] == b;
    DemandedNext(f, s, b);
    DemandedNext(f, t, b);
  }

  lemma DemandedNext(f: Format, s: Snapshot, b: Bits)
    requires f.Valid() && Live(f, s) && Next(f, s, b).Some?
    ensures var (n, next) := Next(f, s, b).value;
            n <= |b| && Demanded(f, s, b) == Added(s, next, Demanded(f, next, b[n..]))
  {
    hide Next, Format.Valid, Good, Rank, Added;
    Progress(f, s, b);
  }

  lemma FirstUnit(n: nat, unit: Bits, more: Bits)
    requires n > 0
    ensures var b := Repeated(n, unit) + more;
            unit <= b && b[|unit|..] == Repeated(n - 1, unit) + more
  {
  }

  lemma {:induction false} Rounds(f: Format, s: Snapshot, n: nat, more: Bits)
    requires Far(f) && AtCommand(f, s)
    ensures Demanded(f, s, Repeated(n, BitsOf(FAR_EXTRA, FAR_BITS)) + more).commands >= n
    decreases n
  {
    hide Vanishes, AtCommand, Demanded, BitsOf, Env.Valid, Format.Valid, FarTrees, Live;
    if n > 0 {
      var unit := BitsOf(FAR_EXTRA, FAR_BITS);
      var b := Repeated(n, unit) + more;
      FirstUnit(n, unit, more);
      var u := OneRound(f, s, b);
      Rounds(f, u, n - 1, more);
    }
  }

  /** The header of a meta-block is read, and the meta-block entered. */
  lemma {:induction false} HeaderRead(f: Format, s: Snapshot, b: Bits) returns (bit: nat)
    requires f.Valid() && Live(f, s) && s.stage.InHeader?
    requires Headers.RunHeader(s.stage.fields, b).0.substate.Accepted?
    ensures var (g, rest) := Headers.RunHeader(s.stage.fields, b);
            var next := Enter(s, Headers.HeaderOf(g)).(bit := bit);
            && Good(f, next) && Demanded(f, s, b) == Demanded(f, next, rest) && RunOf(f, s, b) == RunOf(f, next, rest)
            && |rest| <= |b| && bit == (s.bit + (|b| - |rest|)) % 8
    decreases |b|
  {
    hide Format.Valid, Good, Headers.After, Headers.HeaderOf, Headers.RunHeader, Next, Demanded, Enter, Value,
         Headers.Width, RunOf, Groups.Valid;
    var h := s.stage.fields;
    FieldIsRead(f, s);
    if Headers.Width(h) > |b| {
      Headers.Stuck(h, b);
      assert false;
    } else {
      var w := Headers.Width(h);
      var g, rest := Headers.After(h, Value(b[..w])), b[w..];
      Headers.Step(h, b);
      FieldRead(f, s, b);
      var next := Next(f, s, b).value.1;
      if Headers.StatusOf(g).Reading? {
        if w == 0 {
          Headers.NoBitsLast(h);
        }
        bit := HeaderRead(f, next, rest);
        BitsTaken(s.bit, w, |rest| - |Headers.RunHeader(g, rest).1|);
        EnterForgets(s, next, bit, Headers.HeaderOf(Headers.RunHeader(g, rest).0));
      } else {
        Headers.Stuck(g, rest);
        bit := next.bit;
      }
    }
  }

  lemma FieldIsRead(f: Format, s: Snapshot)
    requires Live(f, s) && s.stage.InHeader?
    ensures Headers.StatusOf(s.stage.fields).Reading?
  {
  }

  lemma BitsTaken(bit: nat, m: nat, n: int)
    ensures ((bit + m) % 8 + n) % 8 == (bit + (m + n)) % 8
  {
  }

  /** Of the state before it, entering a meta-block keeps neither stage nor the place in the byte. */
  lemma EnterForgets(s: Snapshot, t: Snapshot, bit: nat, h: Headers.Header)
    requires t == s.(stage := t.stage, bit := t.bit)
    ensures Enter(t, h).(bit := bit) == Enter(s, h).(bit := bit)
  {
  }

  lemma FieldRead(f: Format, s: Snapshot, b: Bits)
    requires f.Valid() && Live(f, s) && s.stage.InHeader? && Headers.Width(s.stage.fields) <= |b|
    ensures Next(f, s, b).Some?
    ensures var w := Headers.Width(s.stage.fields);
            var (n, next) := Next(f, s, b).value;
            var g := Headers.After(s.stage.fields, Value(b[..w]));
            && Good(f, next) && Demanded(f, s, b) == Demanded(f, next, b[w..]) && next.bit == (s.bit + w) % 8
            && RunOf(f, s, b) == RunOf(f, next, b[w..])
            && (Headers.StatusOf(g).Reading? ==> next == s.(stage := InHeader(g), bit := next.bit) && Live(f, next))
            && (g.substate.Accepted? ==> next == Enter(s, Headers.HeaderOf(g)).(bit := next.bit))
  {
    hide Format.Valid, RecentGood, Headers.After, Headers.HeaderOf, Enter, Demanded, TurnsGood, PrefixGood, Next, Value,
         Good, StageGood, RunOf;
    NextParts(f, s, b);
    DemandedNext(f, s, b);
    var w := Headers.Width(s.stage.fields);
    ItemIsTaken(f, s, b, w, Number(Value(b[..w])));
  }

  lemma PreludeLeads(f: Format, b: Bits)
    requires f.Valid()
    ensures var s := Start([], 0);
            && Live(f, s) && Next(f, s, b) == Some((0, s.(stage := InHeader(FreshHeader()))))
            && Good(f, Next(f, s, b).value.1)
  {
    hide Format.Valid, Groups.Valid, NoGroups, RecentGood;
    StartIsLive(f);
    NextParts(f, Start([], 0), b);
    NextGood(f, Start([], 0), b);
  }

  lemma StartIsLive(f: Format)
    requires f.Valid()
    ensures Live(f, Start([], 0))
  {
    hide Format.Valid, Groups.Valid;
    ReachIsAllowed(f.env);
  }

  lemma TreesLead(f: Format, s: Snapshot, b: Bits)
    requires Far(f) && Good(f, s) && s.stage.InTrees? && s.st == State([], 1, [4, 11, 15, 16])
    requires s.pos == 0
    ensures Live(f, s) && Next(f, s, b).Some? && Next(f, s, b).value.0 == 0 && AtCommand(f, Next(f, s, b).value.1)
  {
    hide Good, Env.Valid, FarTrees, Groups.Valid, Format.Valid;
    NextParts(f, s, b);
    NextGood(f, s, b);
  }

  /** A meta-block of one byte, and then more commands than the count of its one block type allows. */
  function FarBits(): (b: Bits) {
    Headers.Encode(Headers.Data(false, false, 1)) + Repeated(FULL_COUNT + 1, BitsOf(FAR_EXTRA, FAR_BITS))
  }

  lemma HeaderParses(h: Headers.Header, more: Bits)
    requires Headers.Representable(h)
    ensures var (g, rest) := Headers.RunHeader(FreshHeader(), Headers.Encode(h) + more);
            g.substate.Accepted? && Headers.HeaderOf(g) == h && rest == more
  {
    hide Headers.Encode, Headers.RunHeader, Headers.Parse;
    Headers.RoundTrip(h, more);
    Headers.MachineParses(FreshHeader(), Headers.Encode(h) + more);
  }

  lemma BlockOverused(f: Format, s: Snapshot, b: Bits, more: Bits)
    requires Far(f) && Good(f, s) && s.stage.InTrees?
    requires s.st == State([], 1, [4, 11, 15, 16]) && s.pos == 0
    requires b == Repeated(FULL_COUNT + 1, BitsOf(FAR_EXTRA, FAR_BITS)) + more
    ensures Demanded(f, s, b).later
  {
    hide Vanishes, Demanded, BitsOf, Env.Valid, Format.Valid, Good, FarTrees, Next, Repeated;
    TreesLead(f, s, b);
    DemandedNext(f, s, b);
    var next := Next(f, s, b).value.1;
    assert b[0..] == b;
    Rounds(f, next, FULL_COUNT + 1, more);
    FarParts(next.trees);
  }

  /** Whatever such a stream goes on with, it calls for too much. */
  lemma CommandsRunOut(f: Format, more: Bits)
    requires Far(f)
    ensures Demanded(f, Start([], 0), FarBits() + more).later
  {
    hide Vanishes, Demanded, BitsOf, Env.Valid, Format.Valid, Good, Next, Repeated, Headers.Encode,
         Headers.RunHeader, Headers.HeaderOf, NoGroups, RecentGood;
    var b := FarBits() + more;
    var tail := Repeated(FULL_COUNT + 1, BitsOf(FAR_EXTRA, FAR_BITS)) + more;
    assert b == Headers.Encode(Headers.Data(false, false, 1)) + tail;
    PreludeLeads(f, b);
    DemandedNext(f, Start([], 0), b);
    assert b[0..] == b;
    var s := Next(f, Start([], 0), b).value.1;
    HeaderParses(Headers.Data(false, false, 1), tail);
    HeaderIsLive(f, s);
    var bit := HeaderRead(f, s, b);
    BlockOverused(f, Enter(s, Headers.Data(false, false, 1)).(bit := bit), tail, more);
  }

  lemma HeaderIsLive(f: Format, s: Snapshot)
    requires Good(f, s) && s.stage.InHeader?
    ensures Live(f, s)
  {
  }

  function BytesOf(b: Bits): (bytes: seq<Byte>)
    requires |b| % 8 == 0
  {
    if b == [] then []
    else
      ValueBound(b[..8]);
      EightBits();
      [Value(b[..8])] + BytesOf(b[8..])
  }

  lemma {:induction false} BitsOfBytes(b: Bits)
    requires |b| % 8 == 0
    ensures ByteBits(BytesOf(b)) == b
  {
    hide Value, BitsOf;
    if b != [] {
      BitsOfValue(b[..8]);
      BitsOfBytes(b[8..]);
      assert BytesOf(b)[1..] == BytesOf(b[8..]);
      assert b[..8] + b[8..] == b;
    }
  }

  /** There are streams that call for more than the decoder counts. */
  lemma SomeStreamIsOverused(f: Format)
    requires Far(f)
    ensures exists stream :: Overused(f, [], 0, stream)
  {
    hide Vanishes, Demanded, Env.Valid, Format.Valid, FarBits, ByteBits, BytesOf, Start;
    var b := FarBits();
    var bits := b + Zeros((8 - |b| % 8) % 8);
    BitsOfBytes(bits);
    CommandsRunOut(f, Zeros((8 - |b| % 8) % 8));
    WindowHoldsGap(f);
    assert Reachable([], f.env.Full()) == [];
    assert Overused(f, [], 0, BytesOf(bits));
  }
}
