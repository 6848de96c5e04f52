/**
 * Block counts that run out. Where a meta-block has one block type for a category, the count of 2^24 cannot be renewed;
 * a stream that needs more is one that the decoder does not decode as the format says. This is exactly the condition.
 */
module BlockCounts {
  import opened Bytes
  import opened Results
  import opened BitReader
  import opened SymbolDecoding
  import opened CommandSpec
  import opened CommandPrefixes
  import opened BitDecoder
  import opened BitMeaning
  import opened SlidingWindow
  import opened Distances
  import opened Transform
  import BlockTypes
  import Streaming
  import DistanceReading
  import Headers = MetablockHeaders

  // ---------- What a stream demands ----------

  /**
   * How many literals, commands and explicit distances are called for from here to the end of the current meta-block,
   * the last of them perhaps in vain, and whether a later meta-block calls for more than the counts allow.
   */
  datatype Demand = Demand(literals: nat, commands: nat, distances: nat, later: bool)

  const NO_DEMAND := Demand(0, 0, 0, false)

  predicate CallsLiteral(s: Snapshot) {
    s.stage.InLiterals? && !s.literalTurn.Due(s.trees.literalTypes)
  }

  predicate CallsCommand(s: Snapshot) {
    s.stage.InCommand? && !s.commandTurn.Due(s.trees.commandTypes)
  }

  predicate CallsDistance(s: Snapshot) {
    s.stage.InDistance? && s.prefix.distanceCode < 0 && !s.distanceTurn.Due(s.trees.distanceTypes)
  }

  function One(b: bool): nat {
    if b then 1 else 0
  }

  function Called(s: Snapshot, d: Demand): Demand {
    Demand(d.literals + One(CallsLiteral(s)), d.commands + One(CallsCommand(s)), d.distances + One(CallsDistance(s)),
           d.later)
  }

  /** A meta-block with these trees cannot serve this. */
  predicate TooMuch(t: Trees, d: Demand) {
    || (t.literalTypes.num == 1 && d.literals > FULL_COUNT)
    || (t.commandTypes.num == 1 && d.commands > FULL_COUNT)
    || (t.distanceTypes.num == 1 && d.distances > FULL_COUNT)
  }

  /** What a read adds; reading the trees of a meta-block closes the account of it. */
  function Added(s: Snapshot, next: Snapshot, d: Demand): Demand {
    if s.stage.InTrees? then Demand(0, 0, 0, d.later || TooMuch(next.trees, d)) else Called(s, d)
  }

  /** What is demanded from s on, if the stream is read without regard to counts that cannot be renewed. */
  function Demanded(f: Format, s: Snapshot, b: Bits): (d: Demand)
    requires f.Valid()
    decreases |b|, Rank(f, s)
  {
    hide Next, Live, Rank, StatusOf, Format.Valid, Resume;
    Progress(f, s, b);
    match StatusOf(f, s)
    case Blocked => Demanded(f, Resume(f, s), b)
    case Reading =>
      (match Next(f, s, b)
       case None => Called(s, NO_DEMAND)
       case Some((n, next)) => Added(s, next, Demanded(f, next, b[n..])))
    case _ => NO_DEMAND
  }

  // ---------- When the counts run out ----------

  /** More is demanded than is left. */
  predicate Exceeds(s: Snapshot, d: Demand) {
    || d.later
    || (s.trees.literalTypes.num == 1 && d.literals > s.literalTurn.count)
    || (s.trees.commandTypes.num == 1 && d.commands > s.commandTurn.count)
    || (s.trees.distanceTypes.num == 1 && d.distances > s.distanceTurn.count)
  }

  /** Where a count has run out, at least one more is demanded. */
  lemma SpentExceeds(s: Snapshot, d: Demand)
    requires Spent(s)
    ensures Exceeds(s, Called(s, d))
  {
  }

  lemma NotSpentSuffices(s: Snapshot)
    requires !Spent(s)
    ensures !Exceeds(s, Called(s, NO_DEMAND)) && !Exceeds(s, NO_DEMAND)
  {
  }

  lemma TreesTaken(s: Snapshot, trees: Option<Trees>, d: Demand)
    requires s.stage.InTrees? && (trees.None? ==> d == NO_DEMAND)
    ensures Exceeds(TakeTrees(s, trees), d) <==> Exceeds(s, Added(s, TakeTrees(s, trees), d))
  {
    hide SymbolsBelow, Groups.LiteralsFit, Groups.DistancesFit;
  }

  lemma CommandTaken(f: Format, s: Snapshot, b: Bits, d: Demand)
    requires f.Valid() && Live(f, s) && s.stage.InCommand? && !Spent(s) && Read(f, s, b).Some?
    requires Fits(s, Read(f, s, b).value.1)
    ensures var next := Act(f, s, Read(f, s, b).value.1);
            Exceeds(next, d) <==> Exceeds(s, Added(s, next, d))
  {
    hide Format.Valid, CommandAt, CommandTree, Good, Pow2, BlockTypes.SwitchBits;
  }

  lemma LiteralTaken(f: Format, s: Snapshot, b: Bits, d: Demand)
    requires f.Valid() && Live(f, s) && s.stage.InLiterals? && !Spent(s) && Read(f, s, b).Some?
    requires Fits(s, Read(f, s, b).value.1)
    ensures var next := Act(f, s, Read(f, s, b).value.1);
            Exceeds(next, d) <==> Exceeds(s, Added(s, next, d))
  {
    hide Format.Valid, Decode, LiteralTree, Good, Pow2, BlockTypes.SwitchBits;
  }

  lemma DistanceTaken(f: Format, s: Snapshot, b: Bits, d: Demand)
    requires f.Valid() && Live(f, s) && s.stage.InDistance? && !Spent(s) && Read(f, s, b).Some?
    requires Fits(s, Read(f, s, b).value.1)
    ensures var next := Act(f, s, Read(f, s, b).value.1);
            Exceeds(next, d) <==> Exceeds(s, Added(s, next, d))
  {
    hide Format.Valid, DistanceReading.DistanceAt, DistanceTree, Good, Pow2, BlockTypes.SwitchBits, TakeDistance,
         Groups.Valid, Turn.Switched;
    if s.prefix.distanceCode < 0 && !s.distanceTurn.Due(s.trees.distanceTypes) {
      DistanceReading.DistanceIsValid(s.trees.params, DistanceTree(f, s), b);
    }
    if Read(f, s, b).value.1.Code? {
      DistanceTurns(f, s, Read(f, s, b).value.1.distance);
    }
  }

  lemma DistanceTurns(f: Format, s: Snapshot, code: DistanceCode)
    requires f.Valid() && Live(f, s) && code.Valid()
    ensures TakeDistance(f, s, code).trees == s.trees
    ensures TakeDistance(f, s, code).literalTurn == s.literalTurn
    ensures TakeDistance(f, s, code).commandTurn == s.commandTurn
    ensures TakeDistance(f, s, code).distanceTurn == if code.Implied? then s.distanceTurn else s.distanceTurn.Used()
  {
    hide Format.Valid, Groups.Valid, Reference, Transformed, DistanceCode.Resolve, Push, Turn.Used, PosGood, TurnsGood,
         PrefixGood;
  }

  lemma PlainTaken(f: Format, s: Snapshot, item: Item, d: Demand)
    requires f.Valid() && Live(f, s) && Fits(s, item)
    requires !s.stage.InTrees? && !s.stage.InCommand? && !s.stage.InLiterals? && !s.stage.InDistance?
    ensures Exceeds(Act(f, s, item), d) <==> Exceeds(s, Added(s, Act(f, s, item), d))
  {
    hide Format.Valid, Good, Act, Fits;
    PlainTurns(f, s, item);
  }

  lemma PlainTurns(f: Format, s: Snapshot, item: Item)
    requires f.Valid() && Live(f, s) && Fits(s, item)
    requires !s.stage.InTrees? && !s.stage.InCommand? && !s.stage.InLiterals? && !s.stage.InDistance?
    ensures var next := Act(f, s, item);
            && next.trees == s.trees && next.literalTurn == s.literalTurn && next.commandTurn == s.commandTurn
            && next.distanceTurn == s.distanceTurn
  {
    hide Format.Valid, Good, Pow2, CopyNaive, Headers.After, Headers.HeaderOf, Turn.Switched, Turn.Used;
  }

  /** Every read takes off the counts what it takes off the demand. */
  lemma StepCounts(f: Format, s: Snapshot, b: Bits, d: Demand)
    requires f.Valid() && Live(f, s) && !Spent(s) && Next(f, s, b).Some?
    requires Next(f, s, b).value.1.stage.Malformed? ==> d == NO_DEMAND
    ensures var next := Next(f, s, b).value.1;
            Exceeds(next, d) <==> Exceeds(s, Added(s, next, d))
  {
    hide Next, Read, Act, Fits, Good, Format.Valid, Exceeds, Added, Spent;
    NextParts(f, s, b);
    var (n, item) := Read(f, s, b).value;
    IgnoresBit(s, Act(f, s, item), (s.bit + n) % 8, d);
    match s.stage {
      case InTrees => TreesRead(f, s, b, d);
      case InCommand => CommandTaken(f, s, b, d);
      case InLiterals => LiteralTaken(f, s, b, d);
      case InDistance => DistanceTaken(f, s, b, d);
      case _ => PlainTaken(f, s, item, d);
    }
  }

  lemma TreesRead(f: Format, s: Snapshot, b: Bits, d: Demand)
    requires f.Valid() && Live(f, s) && s.stage.InTrees? && Read(f, s, b).Some? && Fits(s, Read(f, s, b).value.1)
    requires Act(f, s, Read(f, s, b).value.1).stage.Malformed? ==> d == NO_DEMAND
    ensures var next := Act(f, s, Read(f, s, b).value.1);
            Exceeds(next, d) <==> Exceeds(s, Added(s, next, d))
  {
    hide Format.Valid, Good, Exceeds, Added;
    TreesTaken(s, Read(f, s, b).value.1.trees, d);
  }

  lemma IgnoresBit(s: Snapshot, next: Snapshot, bit: nat, d: Demand)
    ensures Exceeds(next.(bit := bit), d) == Exceeds(next, d)
    ensures Added(s, next.(bit := bit), d) == Added(s, next, d)
  {
  }

  lemma ResumeCounts(f: Format, s: Snapshot, d: Demand)
    ensures Exceeds(Resume(f, s), d) == Exceeds(s, d)
  {
  }

  /**
   * The decoder stops for a count that has run out exactly if the stream calls for more than the counts allow, and
   * otherwise reads as if there were no such counts. Either way it has been on the same path.
   */
  lemma {:induction false} CountsRunOut(f: Format, s: Snapshot, b: Bits)
    requires f.Valid() && Good(f, s)
    ensures Streaming.Lawful(BitMachine(f, true)) && Streaming.Lawful(BitMachine(f, false))
    ensures var (t, rest) := Streaming.Run(BitMachine(f, true), s, b);
            && (Spent(t) <==> Exceeds(s, Demanded(f, s, b)))
            && (!Spent(t) ==> (t, rest) == Streaming.Run(BitMachine(f, false), s, b))
            && Good(f, t) && Streaming.Run(BitMachine(f, false), s, b) == Streaming.Run(BitMachine(f, false), t, rest)
    decreases |b|, Rank(f, s)
  {
    hide Next, Live, Format.Valid, Streaming.Lawful, Streaming.Run, Resume, StatusOf, Good, Rank, BitMachine, Exceeds,
         Added, Spent, Called;
    Progress(f, s, b);
    RunUnfolds(f, s, b, false);
    RunUnfolds(f, s, b, true);
    if Spent(s) {
      SpentDemands(f, s, b);
    } else {
      NotSpentSuffices(s);
      match StatusOf(f, s) {
        case Blocked =>
          ResumeGood(f, s);
          CountsRunOut(f, Resume(f, s), b);
          ResumeCounts(f, s, Demanded(f, Resume(f, s), b));
        case Reading =>
          if Next(f, s, b).Some? {
            var (n, next) := Next(f, s, b).value;
            NextGood(f, s, b);
            CountsRunOut(f, next, b[n..]);
            MalformedDemands(f, next, b[n..]);
            StepCounts(f, s, b, Demanded(f, next, b[n..]));
          }
        case _ =>
      }
    }
  }

  lemma MalformedDemands(f: Format, s: Snapshot, b: Bits)
    requires f.Valid()
    ensures s.stage.Malformed? ==> Demanded(f, s, b) == NO_DEMAND
  {
    hide Good, Next;
  }

  lemma SpentDemands(f: Format, s: Snapshot, b: Bits)
    requires f.Valid() && Good(f, s) && Spent(s)
    ensures Exceeds(s, Demanded(f, s, b))
  {
    hide Next, Good, Format.Valid, Exceeds;
    Progress(f, s, b);
    var d := if Next(f, s, b).None? then NO_DEMAND
             else Demanded(f, Next(f, s, b).value.1, b[Next(f, s, b).value.0..]);
    SpentExceeds(s, d);
  }

  /** Not within a meta-block of commands, or in front of its prefix codes. */
  predicate Outside(stage: Stage) {
    !stage.InCommand? && !WithinCommand(stage)
  }

  lemma FieldOutside(s: Snapshot, h: Headers.Fields, v: nat)
    requires Outside(s.stage)
    ensures Outside(TakeField(s, h, v).stage)
  {
    hide Headers.After, Headers.HeaderOf;
  }

  lemma OutsideStays(f: Format, s: Snapshot, b: Bits)
    requires f.Valid() && Live(f, s) && Outside(s.stage) && Next(f, s, b).Some? && !s.stage.InTrees?
    ensures Outside(Next(f, s, b).value.1.stage)
  {
    hide Read, Format.Valid, Good, TakeField, TakePrefix, TakeLiteral, TakeDistance, Copy, TakeTrees, Turn.Switched,
         Pow2;
    NextParts(f, s, b);
    if s.stage.InHeader? {
      FieldOutside(s, s.stage.fields, Read(f, s, b).value.1.v);
    }
  }

  /** Outside of it nothing is called for that could run out. */
  lemma {:induction false} NothingCalledOutside(f: Format, s: Snapshot, b: Bits)
    requires f.Valid() && Outside(s.stage)
    ensures var d := Demanded(f, s, b); d.literals == d.commands == d.distances == 0
    decreases |b|, Rank(f, s)
  {
    hide Next, Live, Format.Valid, Rank, Resume, StatusOf;
    Progress(f, s, b);
    match StatusOf(f, s) {
      case Blocked =>
        ResumeOutside(f, s);
        NothingCalledOutside(f, Resume(f, s), b);
      case Reading =>
        if Next(f, s, b).Some? && !s.stage.InTrees? {
          OutsideStays(f, s, b);
          NothingCalledOutside(f, Next(f, s, b).value.1, b[Next(f, s, b).value.0..]);
        }
      case _ =>
    }
  }

  lemma ResumeOutside(f: Format, s: Snapshot)
    requires StatusOf(f, s).Blocked? && Outside(s.stage)
    ensures Outside(Resume(f, s).stage)
  {
    hide Good;
  }
}
