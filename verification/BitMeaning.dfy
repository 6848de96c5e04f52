/**
 * What the bits of a stream say, as the list of meta-blocks with their commands, and that the machine which reads them
 * produces what this list stands for.
 */
module BitMeaning {
  import opened Bytes
  import opened Results
  import opened BitReader
  import opened Transform
  import opened SlidingWindow
  import opened Distances
  import opened CommandSpec
  import opened BitDecoder
  import Streaming
  import Resumption
  import Headers = MetablockHeaders

  // ---------- What is read ----------

  /**
   * What is still to come: literals, then the distance, of the current command; further commands, or stored bytes, of
   * the current meta-block; and further meta-blocks. If the bits end before the current command or the current stored
   * bytes do, it is not finished; what such a command or meta-block at the end has produced is the tail. The current
   * meta-block is closed unless the bits end, or make no sense, before its own end.
   */
  datatype Script = Script(
    insert: seq<Byte>, finished: bool, distance: DistanceCode, cmds: seq<Command>, data: seq<Byte>,
    blocks: seq<Block>, closed: bool, tail: seq<Byte>)

  predicate InsertsBytes(stage: Stage) {
    stage.InLiterals? || stage.LiteralsFull?
  }

  predicate StoresBytes(stage: Stage) {
    stage == InPadding(true) || stage.InStored? || stage.StoredFull?
  }

  function ZeroBytes(n: int): (z: seq<Byte>)
    ensures |z| == Max(0, n)
  {
    seq(Max(0, n), i => 0)
  }

  /**
   * Where the reading stops. In front of a write that will find an overrun the rest of the command is made up: whatever
   * it is, the stream is invalid.
   */
  function AtStop(s: Snapshot): (r: Script) {
    Script(if s.stage.LiteralsFull? then ZeroBytes(s.counter) else [],
           !s.stage.InLiterals? && !s.stage.InDistance? && s.stage != InPadding(true) && !s.stage.InStored?,
           Implied, [], if s.stage.StoredFull? then ZeroBytes(s.st.remaining) else [], [],
           !s.stage.InPadding? && !s.stage.InSkip? && !s.stage.Closing?, [])
  }

  /** A command, or stored bytes, that the bits do not finish. */
  function CutOff(tail: seq<Byte>): (r: Script) {
    Script([], true, Implied, [], [], [], true, tail)
  }

  /** The meta-block that has just been entered, given what follows. */
  function BlockOf(s: Snapshot, r: Script): Block {
    Block(s.last && r.closed,
          match s.stage
          case InPadding(stored) => if stored then Stored(r.data) else Metadata
          case InTrees => Coded(Max(0, s.st.remaining), r.cmds)
          case _ => if r.closed then Empty else Metadata)
  }

  /** What has been read with item, in front of what is read from next on. */
  function Prepended(s: Snapshot, item: Item, next: Snapshot, r: Script): Script {
    if next.stage.Malformed? then AtStop(s)
    else
      match s.stage
      case InHeader(_) =>
        if next.stage.InHeader? then r
        else if !r.finished then CutOff(r.data)
        else Script([], true, Implied, [], [], [BlockOf(next, r)] + r.blocks, true, r.tail)
      case InStored => if item.Number? && item.v < 256 then r.(data := [item.v] + r.data) else r
      case InCommand =>
        if !item.Prefixed? then r
        else if !r.finished then CutOff(r.insert)
        else
          var c := Command(r.insert, item.prefix.copyLength, r.distance);
          Script([], true, Implied, [c] + r.cmds, r.data, r.blocks, r.closed, r.tail)
      case InLiterals => if item.Literal? then r.(insert := [item.symbol] + r.insert) else r
      case InDistance => if item.Code? then r.(distance := item.distance) else r
      case _ => r
  }

  lemma Progress(f: Format, s: Snapshot, b: Bits)
    requires f.Valid()
    ensures StatusOf(f, s).Reading? <==> Live(f, s)
    ensures StatusOf(f, s).Blocked? ==> Rank(f, Resume(f, s)) < Rank(f, s)
    ensures Live(f, s) && Next(f, s, b).Some? ==>
              && Next(f, s, b).value.0 <= |b|
              && (Next(f, s, b).value.0 == 0 ==> Rank(f, Next(f, s, b).value.1) < Rank(f, s))
  {
    hide StageRank, Next, Format.Valid;
    if Live(f, s) && Next(f, s, b).Some? {
      NextAgrees(f, s, b, b);
      if Next(f, s, b).value.0 == 0 {
        ReadProgresses(f, s, b);
      }
    }
    if StatusOf(f, s).Blocked? {
      ResumeProgresses(f, s);
    }
  }

  /** All that is read from s on. */
  function Scripted(f: Format, s: Snapshot, b: Bits): (r: Script)
    requires f.Valid()
    decreases |b|, Rank(f, s)
  {
    hide Next, Live, Rank, StatusOf, Format.Valid, Resume;
    Progress(f, s, b);
    match StatusOf(f, s)
    case Blocked => Scripted(f, Resume(f, s), b)
    case Reading =>
      (match Next(f, s, b)
       case None => AtStop(s)
       case Some((n, next)) => Prepended(s, ItemAt(f, s, b), next, Scripted(f, next, b[n..])))
    case _ => AtStop(s)
  }

  function ItemAt(f: Format, s: Snapshot, b: Bits): Item
    requires f.Valid() && Live(f, s) && Next(f, s, b).Some?
  {
    hide Read, Act, Fits, Live, Format.Valid;
    NextParts(f, s, b);
    Read(f, s, b).value.1
  }

  // ---------- The state makes sense ----------

  lemma RecentIsWellFormed(f: Format, st: State)
    requires f.Valid() && RecentGood(f, st.hist, st.recent)
    ensures WellFormed(st.recent) && |st.recent| == 4 && f.Reach(st.hist) <= MAX_ALLOWED && f.env.Full() >= 1024
  {
    hide Format.Valid;
    ReachIsAllowed(f.env);
  }

  lemma ReachGrows(f: Format, st: State, st': State)
    requires RecentGood(f, st.hist, st.recent) && |st.hist| <= |st'.hist|
    ensures RecentGood(f, st'.hist, st.recent)
  {
  }

  lemma WordIsShort(f: Format, len: nat, wordId: nat)
    requires f.Valid() && Reference(f.env, len, wordId).Some?
    ensures var (word, t) := Reference(f.env, len, wordId).value;
            |Transformed(f.env.tables, word, t)| <= 37
  {
    hide Transformed, Format.Valid;
  }

  lemma ResolvesToDistance(code: DistanceCode, recent: seq<int>)
    requires code.Valid() && WellFormed(recent)
    ensures code.Resolve(recent) > 0
  {
  }

  lemma StartCopyGood(f: Format, s: Snapshot, code: DistanceCode, d: int)
    requires f.Valid() && Good(f, s) && s.stage.InDistance? && code.Valid() && 0 < d <= f.Reach(s.st.hist)
    ensures Good(f, StartCopy(s, code, d)) && StartCopy(s, code, d).st.hist == s.st.hist
  {
    hide Format.Valid, TurnsGood, PrefixGood;
  }

  lemma PutWordGood(f: Format, s: Snapshot, w: seq<Byte>)
    requires f.Valid() && Good(f, s) && s.stage.InDistance? && |w| <= 37 && f.env.Full() >= 1024
    ensures Good(f, PutWord(f, s, w)) && s.st.hist <= PutWord(f, s, w).st.hist
  {
    hide Format.Valid, TurnsGood, PrefixGood, RecentGood;
    ReachGrows(f, s.st, PutWord(f, s, w).st);
  }

  /** The distance has been read, and the block count has gone down. */
  lemma TurnGood(f: Format, s: Snapshot, turn: Turn)
    requires Good(f, s) && s.stage.InDistance? && (turn == s.distanceTurn || turn == s.distanceTurn.Used())
    ensures Good(f, s.(distanceTurn := turn)) && Good(f, s.(distanceTurn := turn, stage := Unusable))
  {
    hide RecentGood, PrefixGood;
  }

  lemma RecentOfGood(f: Format, s: Snapshot)
    requires f.Valid() && Good(f, s)
    ensures WellFormed(s.st.recent) && |s.st.recent| == 4 && f.env.Full() >= 1024
    ensures RecentGood(f, s.st.hist, s.st.recent)
  {
    hide Format.Valid, TurnsGood, PosGood, PrefixGood;
    RecentIsWellFormed(f, s.st);
  }

  lemma DistanceGood(f: Format, s: Snapshot, code: DistanceCode)
    requires f.Valid() && Live(f, s) && s.stage.InDistance? && code.Valid()
    ensures Good(f, TakeDistance(f, s, code)) && s.st.hist <= TakeDistance(f, s, code).st.hist
  {
    hide Transformed, Reference, Format.Valid, PutWord, StartCopy, DistanceCode.Resolve, Good, WellFormed, Turn.Used,
         RecentGood, StageGood, Live, Min, Groups.Valid;
    LiveIsGood(f, s);
    RecentOfGood(f, s);
    ResolvesToDistance(code, s.st.recent);
    var turn := if code.Implied? then s.distanceTurn else s.distanceTurn.Used();
    TurnGood(f, s, turn);
    var next, d, reach := s.(distanceTurn := turn), code.Resolve(s.st.recent), f.Reach(s.st.hist);
    if d <= reach {
      StartCopyGood(f, next, code, d);
    } else if d <= MAX_ALLOWED {
      var r := Reference(f.env, s.prefix.copyLength, d - reach - 1);
      if r.Some? {
        WordIsShort(f, s.prefix.copyLength, d - reach - 1);
        PutWordGood(f, next, Transformed(f.env.tables, r.value.0, r.value.1));
      }
    }
  }

  lemma FieldGood(s: Snapshot, h: Headers.Fields, v: nat)
    requires s.stage == InHeader(h) && StageGood(s)
    ensures StageGood(TakeField(s, h, v))
  {
    hide Groups.LiteralsFit;
  }

  /** No step leads out of the states that make sense, or takes back what has been produced. */
  lemma ActGood(f: Format, s: Snapshot, item: Item)
    requires f.Valid() && Live(f, s) && Fits(s, item)
    ensures Good(f, Act(f, s, item)) && s.st.hist <= Act(f, s, item).st.hist
  {
    hide Act, Good, Fits, Format.Valid;
    match s.stage {
      case InHeader(_) => HeaderGood(f, s, item);
      case InCommand => CommandGood(f, s, item);
      case InLiterals => LiteralGood(f, s, item);
      case InDistance => CodeGood(f, s, item);
      case InCopy => CopyGood(f, s, item);
      case InStored => StoredGood(f, s, item);
      case InTrees => TreesGood(f, s, item);
      case _ => PlainGood(f, s, item);
    }
  }

  lemma HeaderGood(f: Format, s: Snapshot, item: Item)
    requires f.Valid() && Live(f, s) && Fits(s, item) && s.stage.InHeader?
    ensures Good(f, Act(f, s, item)) && s.st.hist <= Act(f, s, item).st.hist
  {
    hide TakeField, Headers.StatusOf, Wanted, Pow2, PrefixGood, TurnsGood, RecentGood, PosGood, Format.Valid,
         StageGood;
    FieldGood(s, s.stage.fields, item.v);
    FieldKeeps(f, s, s.stage.fields, item.v);
  }

  lemma CodeGood(f: Format, s: Snapshot, item: Item)
    requires f.Valid() && Live(f, s) && Fits(s, item) && s.stage.InDistance?
    ensures Good(f, Act(f, s, item)) && s.st.hist <= Act(f, s, item).st.hist
  {
    hide TakeDistance, Format.Valid, RecentGood;
    if item.Code? {
      hide Good;
      DistanceGood(f, s, item.distance);
    }
  }

  lemma PlainGood(f: Format, s: Snapshot, item: Item)
    requires f.Valid() && Live(f, s) && Fits(s, item)
    requires s.stage.InPrelude? || s.stage.InPadding? || s.stage.InSkip? || s.stage.Closing?
    ensures Good(f, Act(f, s, item)) && s.st.hist <= Act(f, s, item).st.hist
  {
    hide Params.Valid, Env.Full, Groups.Valid, Turn.Switched, Reads, Fits, TakeField, TakePrefix, TakeLiteral,
         TakeDistance, Copy, TakeTrees, TakeStored, TurnsGood;
    hide RecentGood, PrefixGood, Pow2, Format.Valid;
  }

  lemma TreesGood(f: Format, s: Snapshot, item: Item)
    requires f.Valid() && Live(f, s) && Fits(s, item) && s.stage.InTrees?
    ensures Good(f, Act(f, s, item)) && s.st.hist <= Act(f, s, item).st.hist
  {
    hide Groups.LiteralsFit, Groups.DistancesFit, RecentGood, PrefixGood, Pow2, Format.Valid;
  }

  lemma FieldKeeps(f: Format, s: Snapshot, h: Headers.Fields, v: nat)
    requires Live(f, s) && s.stage.InHeader?
    ensures var r := TakeField(s, h, v);
            && RecentGood(f, r.st.hist, r.st.recent) && PosGood(f, r) && PrefixGood(r.prefix) && r.st.hist == s.st.hist
            && TurnsGood(r.trees, r.literalTurn, r.commandTurn, r.distanceTurn)
  {
    hide Headers.After, Headers.HeaderOf, Headers.StatusOf, TurnsGood, PrefixGood, RecentGood;
  }

  lemma CommandGood(f: Format, s: Snapshot, item: Item)
    requires f.Valid() && Live(f, s) && Fits(s, item) && s.stage.InCommand?
    ensures Good(f, Act(f, s, item)) && s.st.hist <= Act(f, s, item).st.hist
  {
    hide Format.Valid, RecentGood, Wanted, Pow2;
  }

  lemma LiteralGood(f: Format, s: Snapshot, item: Item)
    requires f.Valid() && Live(f, s) && Fits(s, item) && s.stage.InLiterals?
    ensures Good(f, Act(f, s, item)) && s.st.hist <= Act(f, s, item).st.hist
  {
    hide Format.Valid, RecentGood, Wanted, Pow2;
    ReachGrows(f, s.st, Act(f, s, item).st);
  }

  lemma StoredGood(f: Format, s: Snapshot, item: Item)
    requires f.Valid() && Live(f, s) && Fits(s, item) && s.stage.InStored?
    ensures Good(f, Act(f, s, item)) && s.st.hist <= Act(f, s, item).st.hist
  {
    hide Format.Valid, RecentGood, TurnsGood;
    ReachGrows(f, s.st, Act(f, s, item).st);
  }

  lemma CopyGood(f: Format, s: Snapshot, item: Item)
    requires f.Valid() && Live(f, s) && Fits(s, item) && s.stage.InCopy?
    ensures Good(f, Act(f, s, item)) && s.st.hist <= Act(f, s, item).st.hist
  {
    hide Format.Valid, RecentGood, CopyNaive, TurnsGood, Pow2;
    ReachGrows(f, s.st, Copy(f, s).st);
  }

  lemma NextGood(f: Format, s: Snapshot, b: Bits)
    requires f.Valid() && Live(f, s) && Next(f, s, b).Some?
    ensures Good(f, Next(f, s, b).value.1) && s.st.hist <= Next(f, s, b).value.1.st.hist
  {
    hide Next, Read, Act, Fits, Format.Valid;
    NextParts(f, s, b);
    ActGood(f, s, Read(f, s, b).value.1);
  }

  lemma ResumeGood(f: Format, s: Snapshot)
    requires StatusOf(f, s).Blocked?
    ensures Good(f, Resume(f, s)) && Resume(f, s).st == s.st
  {
    hide RecentGood, TurnsGood, PrefixGood;
  }

  // ---------- What it stands for ----------

  /** A script for state s: as many literals or stored bytes as have been announced. */
  ghost predicate Suits(s: Snapshot, r: Script) {
    && r.finished && (s.stage.Delivering? || s.stage.Ended? ==> r.closed)
    && r.distance.Valid() && ValidCommands(r.cmds) && ValidBlocks(r.blocks)
    && |r.insert| == (if InsertsBytes(s.stage) then s.counter else 0)
    && |r.data| == (if StoresBytes(s.stage) then Max(0, s.st.remaining) else 0)
  }

  /** The current meta-block and those to come; of the current one only matters whether it is the last. */
  ghost function From(s: Snapshot, r: Script): (blocks: seq<Block>)
    requires ValidBlocks(r.blocks)
    ensures ValidBlocks(blocks) && blocks != []
  {
    [Block(s.last && r.closed, Coded(1, []))] + r.blocks
  }

  /** What is left of the current command. */
  function Current(s: Snapshot, r: Script): Command {
    Command([], s.prefix.copyLength, r.distance)
  }

  /** What a decoder with an unbounded history makes of the rest, given what has been produced. */
  ghost function Meaning(f: Format, s: Snapshot, r: Script): (o: Outcome)
    requires f.Valid() && Good(f, s) && Suits(s, r)
  {
    RecentIsWellFormed(f, s.st);
    var (hist, recent, left) := (s.st.hist, s.st.recent, s.st.remaining);
    match s.stage
    case InPrelude(_) | InHeader(_) => Run(f.env, r.blocks, hist, recent)
    case InPadding(_) | InSkip | InStored | StoredFull => RunEnd(f.env, From(s, r), State(hist + r.data, 0, recent))
    case InTrees | InCommand => RunCommands(f.env, From(s, r), s.st, r.cmds)
    case InLiterals | LiteralsFull | InDistance | InCopy | CopyFull | WordFull => RunCurrent(f, s, r, Pending(f, s, r))
    case Closing => RunEnd(f.env, From(s, r), s.st)
    case Delivering | Ended => Outcome(hist, Accept)
    case Overrun | Unusable => Outcome(hist, Reject)
    case Malformed => Outcome(hist, Incomplete)
  }

  predicate WithinCommand(stage: Stage) {
    stage.InLiterals? || stage.LiteralsFull? || stage.InDistance? || stage.InCopy? || stage.CopyFull? || stage.WordFull?
  }

  lemma PendingParts(f: Format, s: Snapshot, r: Script)
    requires f.Valid() && Good(f, s) && Suits(s, r)
    ensures WellFormed(s.st.recent) && r.distance.Valid()
    ensures s.stage.InCopy? || s.stage.CopyFull? ==> 1 <= s.distance <= |s.st.hist|
  {
    hide Format.Valid, RecentGood, TurnsGood, PosGood, PrefixGood, ValidBlocks, ValidCommands;
    RecentIsWellFormed(f, s.st);
  }

  /** What the current command leads to. */
  ghost function Pending(f: Format, s: Snapshot, r: Script): (e: Exec)
    requires f.Valid() && Good(f, s) && Suits(s, r) && WithinCommand(s.stage)
    ensures e.Rejected? || WellFormed(e.st.recent)
  {
    hide Good, Suits, CopyNaive, Format.Valid, ExecCopy, AfterLiterals, WellFormed, Settle;
    PendingParts(f, s, r);
    match s.stage
    case InLiterals | LiteralsFull =>
      AfterLiterals(f.env, s.st.(hist := s.st.hist + r.insert), Current(s, r))
    case InDistance => ExecCopy(f.env, s.st, Current(s, r))
    case InCopy | CopyFull => Settle(s.st.(hist := CopyNaive(s.st.hist, s.distance, s.counter)))
    case WordFull => Settle(s.st)
  }

  lemma PendingGrows(f: Format, s: Snapshot, r: Script)
    requires f.Valid() && Good(f, s) && Suits(s, r) && WithinCommand(s.stage)
    ensures var e := Pending(f, s, r);
            && s.st.hist <= (if e.Rejected? then e.hist else e.st.hist)
            && (s.st.remaining < 0 ==> e.BlockEnd? && e.st.remaining < 0)
  {
    hide CopyNaive, Transformed, Reference, Format.Valid, WellFormed, RecentGood, TurnsGood, PosGood;
  }

  ghost function RunCurrent(f: Format, s: Snapshot, r: Script, e: Exec): (o: Outcome)
    requires f.Valid() && Suits(s, r) && (e.Rejected? || WellFormed(e.st.recent))
  {
    RunExec(f.env, From(s, r), e, [Current(s, r)] + r.cmds)
  }

  lemma CurrentRuns(f: Format, s: Snapshot, r: Script, e: Exec)
    requires f.Valid() && Suits(s, r) && (e.Rejected? || WellFormed(e.st.recent))
    ensures RunCurrent(f, s, r, e) == match e
                                      case Running(st) => RunCommands(f.env, From(s, r), st, r.cmds)
                                      case BlockEnd(st) => RunEnd(f.env, From(s, r), st)
                                      case Rejected(hist) => Outcome(hist, Reject)
  {
    hide RunCommands, RunEnd, Format.Valid, From;
    assert ([Current(s, r)] + r.cmds)[1..] == r.cmds;
  }

  /** What has been produced stays. */
  lemma MeaningGrows(f: Format, s: Snapshot, r: Script)
    requires f.Valid() && Good(f, s) && Suits(s, r)
    ensures s.st.hist <= Meaning(f, s, r).hist
  {
    hide Pending, Run, RunCommands, RunEnd, RunExec, Format.Valid, From, Suits, Good, Env.Valid, Groups.Valid;
    GoodParts(f, s, r);
    match s.stage
    case InPrelude(_) | InHeader(_) => HistoryGrows(f.env, r.blocks, s.st.hist, s.st.recent);
    case InPadding(_) | InSkip | InStored | StoredFull =>
      EndGrows(f.env, From(s, r), State(s.st.hist + r.data, 0, s.st.recent));
    case InTrees | InCommand => CommandsGrow(f.env, From(s, r), s.st, r.cmds);
    case InLiterals | LiteralsFull | InDistance | InCopy | CopyFull | WordFull =>
      PendingGrows(f, s, r);
      Resumption.ExecGrows(f.env, From(s, r), Pending(f, s, r), [Current(s, r)] + r.cmds);
    case Closing => EndGrows(f.env, From(s, r), s.st);
    case _ =>
  }

  lemma GoodParts(f: Format, s: Snapshot, r: Script)
    requires f.Valid() && Good(f, s) && Suits(s, r)
    ensures WellFormed(s.st.recent) && ValidBlocks(r.blocks) && ValidCommands(r.cmds) && r.distance.Valid()
    ensures ValidCommands([Current(s, r)] + r.cmds)
  {
    hide Format.Valid, WellFormed, RecentGood, TurnsGood, PosGood, ValidBlocks;
    RecentIsWellFormed(f, s.st);
  }

  /** A meta-block that has been overrun is rejected at the latest when the ring is written. */
  lemma OverrunMeansReject(f: Format, s: Snapshot, r: Script)
    requires f.Valid() && Good(f, s) && Suits(s, r) && Stopped(s.stage) && s.st.remaining < 0
    ensures Meaning(f, s, r).verdict == Reject
  {
    hide Pending, RunExec, Format.Valid, From;
    GoodParts(f, s, r);
    if !s.stage.StoredFull? {
      PendingGrows(f, s, r);
      CurrentRuns(f, s, r, Pending(f, s, r));
    }
  }

  // ---------- Steps keep the meaning ----------

  lemma ResumeKeeps(f: Format, s: Snapshot, r: Script)
    requires f.Valid() && StatusOf(f, s).Blocked? && Suits(Resume(f, s), r)
    ensures Good(f, s) && Suits(s, r) && Good(f, Resume(f, s))
    ensures Meaning(f, s, r) == Meaning(f, Resume(f, s), r)
  {
    hide RunCommands, RunEnd, RunExec, Format.Valid, Run, ExecCopy, Env.Valid, ValidBlocks, Groups.Valid, Reads;
    ResumeGood(f, s);
    assert r.insert == [] ==> s.st.hist + r.insert == s.st.hist;
    assert r.data == [] ==> s.st.hist + r.data == s.st.hist;
    if WithinCommand(s.stage) {
      CurrentRuns(f, s, r, Pending(f, s, r));
    }
  }

  /** Of the current meta-block only matters whether it is the last. */
  lemma SameEnd(env: Env, a: Block, b: Block, rest: seq<Block>, st: State)
    requires env.Valid() && ValidBlocks([a] + rest) && ValidBlocks([b] + rest) && WellFormed(st.recent)
    requires a.isLast == b.isLast
    ensures RunEnd(env, [a] + rest, st) == RunEnd(env, [b] + rest, st)
  {
    hide Run, WellFormed, Env.Valid, ValidBlocks;
    assert ([a] + rest)[1..] == ([b] + rest)[1..];
  }

  lemma {:induction false} SameCommands(env: Env, a: Block, b: Block, rest: seq<Block>, st: State, cmds: seq<Command>)
    requires env.Valid() && ValidBlocks([a] + rest) && ValidBlocks([b] + rest) && WellFormed(st.recent)
    requires a.isLast == b.isLast && ValidCommands(cmds)
    ensures RunCommands(env, [a] + rest, st, cmds) == RunCommands(env, [b] + rest, st, cmds)
    decreases cmds
  {
    hide ExecCommand, RunEnd, WellFormed, Env.Valid, ValidBlocks;
    if cmds != [] {
      var e := ExecCommand(env, st, cmds[0]);
      match e
      case Running(st') => SameCommands(env, a, b, rest, st', cmds[1..]);
      case BlockEnd(st') => SameEnd(env, a, b, rest, st');
      case Rejected(_) =>
    }
  }

  /** Entering a meta-block. */
  lemma HeaderKeeps(f: Format, s: Snapshot, item: Item, r: Script)
    requires f.Valid() && Live(f, s) && Fits(s, item) && s.stage.InHeader?
    requires Good(f, Act(f, s, item)) && Suits(Act(f, s, item), r) && !Act(f, s, item).stage.Malformed?
    ensures var before := Prepended(s, item, Act(f, s, item), r);
            Suits(s, before) && Meaning(f, s, before) == Meaning(f, Act(f, s, item), r)
  {
    hide Headers.After, Headers.HeaderOf, Format.Valid, Meaning, Suits, Good, Enter;
    var h := Headers.After(s.stage.fields, item.v);
    if h.substate.Accepted? {
      EnterKeeps(f, s, Headers.HeaderOf(h), r);
      EntersBlock(s, Headers.HeaderOf(h), r);
    } else {
      FieldMeans(f, s, h, r);
    }
  }

  lemma EntersBlock(s: Snapshot, h: Headers.Header, r: Script)
    requires Suits(Enter(s, h), r)
    ensures r.finished && !Enter(s, h).stage.InHeader? && !Enter(s, h).stage.Malformed?
  {
  }

  lemma FieldMeans(f: Format, s: Snapshot, h: Headers.Fields, r: Script)
    requires f.Valid() && Good(f, s) && s.stage.InHeader?
    requires var next := s.(stage := InHeader(h)); Good(f, next) && Suits(next, r)
    ensures Suits(s, r) && Meaning(f, s, r) == Meaning(f, s.(stage := InHeader(h)), r)
  {
    hide Format.Valid, Run, WellFormed, Good;
  }

  lemma EnterKeeps(f: Format, s: Snapshot, h: Headers.Header, r: Script)
    requires f.Valid() && Live(f, s) && s.stage.InHeader?
    requires Good(f, Enter(s, h)) && Suits(Enter(s, h), r)
    ensures var before := Script([], true, Implied, [], [], [BlockOf(Enter(s, h), r)] + r.blocks, true, r.tail);
            Suits(s, before) && Meaning(f, s, before) == Meaning(f, Enter(s, h), r)
  {
    hide Format.Valid, RunEnd, RunCommands, WellFormed, PosGood, TurnsGood, RecentGood;
    var next := Enter(s, h);
    RecentIsWellFormed(f, s.st);
    var a, b := BlockOf(next, r), Block(next.last && r.closed, Coded(1, []));
    assert ([a] + r.blocks)[0] == a;
    if next.stage.InTrees? {
      SameCommands(f.env, a, b, r.blocks, next.st, r.cmds);
    } else {
      assert r.data == [] ==> s.st.hist + r.data == s.st.hist;
      SameEnd(f.env, a, b, r.blocks, State(s.st.hist + r.data, 0, s.st.recent));
    }
  }

  lemma CommandKeeps(f: Format, s: Snapshot, item: Item, r: Script)
    requires f.Valid() && Live(f, s) && Fits(s, item) && s.stage.InCommand?
    requires Good(f, Act(f, s, item)) && Suits(Act(f, s, item), r)
    ensures var before := Prepended(s, item, Act(f, s, item), r);
            Suits(s, before) && Meaning(f, s, before) == Meaning(f, Act(f, s, item), r)
  {
    hide Format.Valid, RunEnd, RunCommands, WellFormed, PosGood, TurnsGood, RecentGood, ExecCopy, AfterLiterals,
         ValidBlocks, RunExec, ExecCommand;
    RecentIsWellFormed(f, s.st);
    var next := Act(f, s, item);
    if item.Prefixed? {
      var c := Command(r.insert, item.prefix.copyLength, r.distance);
      PrependedValid(c, r.cmds);
      PrependedValid(Current(next, r), r.cmds);
      FirstCommand(f.env, From(s, r), s.st, c, Current(next, r), r.cmds);
      CommandIsExec(f.env, s.st, c, Current(next, r));
    }
  }

  lemma PrependedValid(c: Command, cmds: seq<Command>)
    requires c.distance.Valid() && ValidCommands(cmds)
    ensures ValidCommands([c] + cmds) && ([c] + cmds)[0] == c && ([c] + cmds)[1..] == cmds
  {
  }

  /** Which command is in front does not matter once it is known what it leads to. */
  lemma FirstCommand(env: Env, blocks: seq<Block>, st: State, c: Command, d: Command, cmds: seq<Command>)
    requires env.Valid() && blocks != [] && ValidBlocks(blocks) && WellFormed(st.recent)
    requires ValidCommands([c] + cmds) && ValidCommands([d] + cmds) && c.distance.Valid()
    ensures RunCommands(env, blocks, st, [c] + cmds) == RunExec(env, blocks, ExecCommand(env, st, c), [d] + cmds)
  {
    hide ExecCommand, RunEnd, WellFormed, ValidBlocks, Env.Valid;
    assert ([c] + cmds)[0] == c && ([c] + cmds)[1..] == cmds == ([d] + cmds)[1..];
  }

  /** A command is its literals and then the rest of it. */
  lemma CommandIsExec(env: Env, st: State, c: Command, rest: Command)
    requires env.Valid() && c.distance.Valid() && WellFormed(st.recent)
    requires rest == Command([], c.copyLength, c.distance)
    ensures ExecCommand(env, st, c) ==
              if c.insert == [] then ExecCopy(env, st, rest)
              else AfterLiterals(env, State(st.hist + c.insert, st.remaining - |c.insert|, st.recent), rest)
  {
    hide Reference, Transformed, CopyNaive;
  }

  lemma LiteralKeeps(f: Format, s: Snapshot, item: Item, r: Script)
    requires f.Valid() && Live(f, s) && Fits(s, item) && s.stage.InLiterals?
    requires Good(f, Act(f, s, item)) && Suits(Act(f, s, item), r)
    ensures var before := Prepended(s, item, Act(f, s, item), r);
            Suits(s, before) && Meaning(f, s, before) == Meaning(f, Act(f, s, item), r)
  {
    hide Format.Valid, RunEnd, RunCommands, WellFormed, PosGood, TurnsGood, RecentGood, ExecCopy, ValidBlocks,
         Env.Valid, Format.Reach, Turn.Used, Turn.Switched, FreshHeader, Reads, StageGood, Wanted, PrefixGood,
         TakeField, TakePadding, SkipByte, TakeStored, TakeTrees, TakePrefix, TakeDistance, Copy, Close;
    RecentIsWellFormed(f, s.st);
    var next, before := Act(f, s, item), Prepended(s, item, Act(f, s, item), r);
    if item.Literal? {
      assert s.st.hist + before.insert == next.st.hist + r.insert;
      assert r.insert == [] ==> next.st.hist + r.insert == next.st.hist;
    }
    CurrentRuns(f, s, before, Pending(f, s, before));
    if WithinCommand(next.stage) {
      CurrentRuns(f, next, r, Pending(f, next, r));
    }
  }

  lemma StoredKeeps(f: Format, s: Snapshot, item: Item, r: Script)
    requires f.Valid() && Live(f, s) && Fits(s, item) && s.stage.InStored?
    requires Good(f, Act(f, s, item)) && Suits(Act(f, s, item), r)
    ensures var before := Prepended(s, item, Act(f, s, item), r);
            Suits(s, before) && Meaning(f, s, before) == Meaning(f, Act(f, s, item), r)
  {
    hide Format.Valid, RunEnd, WellFormed, PosGood, TurnsGood, RecentGood, ValidBlocks;
    RecentIsWellFormed(f, s.st);
    assert Pow2(8) == 256;
    hide Pow2;
    var next, before := Act(f, s, item), Prepended(s, item, Act(f, s, item), r);
    assert s.st.hist + before.data == next.st.hist + r.data;
    assert r.data == [] ==> next.st.hist + r.data == next.st.hist;
  }

  lemma CopyKeeps(f: Format, s: Snapshot, item: Item, r: Script)
    requires f.Valid() && Live(f, s) && Fits(s, item) && s.stage.InCopy?
    requires Good(f, Act(f, s, item)) && Suits(Act(f, s, item), r)
    ensures Suits(s, r) && Meaning(f, s, r) == Meaning(f, Act(f, s, item), r)
  {
    hide Format.Valid, RunEnd, RunCommands, WellFormed, PosGood, TurnsGood, RecentGood, CopyNaive, ValidBlocks, Pow2;
    RecentIsWellFormed(f, s.st);
    var next := Act(f, s, item);
    CopySplits(s.st.hist, s.distance, s.counter - next.counter, next.counter);
    CurrentRuns(f, s, r, Pending(f, s, r));
    if WithinCommand(next.stage) {
      CurrentRuns(f, next, r, Pending(f, next, r));
    } else {
      NothingToCopy(next.st.hist, s.distance);
    }
  }

  lemma NothingToCopy(h: seq<Byte>, d: nat)
    requires 1 <= d <= |h|
    ensures CopyNaive(h, d, 0) == h
  {
  }

  lemma DistanceKeeps(f: Format, s: Snapshot, item: Item, r: Script)
    requires f.Valid() && Live(f, s) && Fits(s, item) && s.stage.InDistance?
    requires Good(f, Act(f, s, item)) && Suits(Act(f, s, item), r)
    ensures var before := Prepended(s, item, Act(f, s, item), r);
            Suits(s, before) && Meaning(f, s, before) == Meaning(f, Act(f, s, item), r)
  {
    hide Meaning, Good, Suits, Act, TakeDistance, Format.Valid, Prepended;
    DistanceStep(f, s, item, r);
    if item.Switched? {
      SwitchKeeps(f, s, item, r);
    } else {
      CodeKeeps(f, s, item.distance, r);
    }
  }

  lemma DistanceStep(f: Format, s: Snapshot, item: Item, r: Script)
    requires f.Valid() && Live(f, s) && Fits(s, item) && s.stage.InDistance?
    ensures item.Switched? ==> Prepended(s, item, Act(f, s, item), r) == r
    ensures !item.Switched? ==>
              && item.Code? && item.distance.Valid() && Act(f, s, item) == TakeDistance(f, s, item.distance)
              && Prepended(s, item, Act(f, s, item), r) == r.(distance := item.distance)
  {
    hide Format.Valid, CopyNaive, Transformed, Reference, DistanceCode.Resolve, Push, RecentGood, TurnsGood, PosGood;
  }

  lemma SwitchKeeps(f: Format, s: Snapshot, item: Item, r: Script)
    requires f.Valid() && Live(f, s) && Fits(s, item) && s.stage.InDistance? && item.Switched?
    requires Good(f, Act(f, s, item)) && Suits(Act(f, s, item), r)
    ensures Suits(s, r) && Good(f, s) && Meaning(f, s, r) == Meaning(f, Act(f, s, item), r)
  {
    hide Format.Valid, RunExec, WellFormed, RecentGood, ExecCopy, ValidBlocks, PosGood, ValidCommands;
  }

  /** A distance in reach, a dictionary word, or neither. */
  lemma CodeLeads(f: Format, s: Snapshot, code: DistanceCode)
    requires f.Valid() && Live(f, s) && code.Valid() && s.stage.InDistance? && WellFormed(s.st.recent)
    ensures var next := TakeDistance(f, s, code);
            var e := ExecCopy(f.env, s.st, Command([], s.prefix.copyLength, code));
            match next.stage
            case InCopy =>
              && 1 <= next.distance <= |next.st.hist|
              && e == Settle(next.st.(hist := CopyNaive(next.st.hist, next.distance, next.counter)))
            case WordFull => e == Settle(next.st)
            case Unusable => e == Rejected(s.st.hist) && next.st.hist == s.st.hist
            case _ => e == Settle(next.st) && next.stage == AfterCommand(next.st)
  {
    hide Format.Valid, CopyNaive, Transformed, Reference, DistanceCode.Resolve, Push, TurnsGood, PosGood, Settle,
         Groups.Valid, PrefixGood;
    ResolvesToDistance(code, s.st.recent);
  }

  lemma CodeKeeps(f: Format, s: Snapshot, code: DistanceCode, r: Script)
    requires f.Valid() && Live(f, s) && code.Valid() && s.stage.InDistance?
    requires Good(f, TakeDistance(f, s, code)) && Suits(TakeDistance(f, s, code), r)
    ensures var before := r.(distance := code);
            && Suits(s, before) && Good(f, s) && Meaning(f, s, before) == Meaning(f, TakeDistance(f, s, code), r)
  {
    hide Format.Valid, RunEnd, RunCommands, WellFormed, PosGood, TurnsGood, RecentGood, CopyNaive, ValidBlocks,
         ValidCommands, ExecCopy, RunCurrent, TakeDistance;
    RecentIsWellFormed(f, s.st);
    var next, before := TakeDistance(f, s, code), r.(distance := code);
    TakeDistanceKeeps(f, s, code);
    CodeLeads(f, s, code);
    CurrentRuns(f, s, before, Pending(f, s, before));
    if WithinCommand(next.stage) {
      CurrentRuns(f, next, r, Pending(f, next, r));
    }
  }

  lemma TakeDistanceKeeps(f: Format, s: Snapshot, code: DistanceCode)
    requires f.Valid() && Live(f, s) && code.Valid() && s.stage.InDistance?
    ensures var next := TakeDistance(f, s, code);
            && next.last == s.last && next.prefix == s.prefix
            && (next.stage.InCopy? || next.stage.WordFull? || next.stage.Unusable? ||
                next.stage == AfterCommand(next.st))
  {
    hide Format.Valid, CopyNaive, Transformed, Reference, DistanceCode.Resolve, Push, TurnsGood, PosGood;
  }

  lemma PlainKeeps(f: Format, s: Snapshot, item: Item, r: Script)
    requires f.Valid() && Live(f, s) && Fits(s, item)
    requires s.stage.InPrelude? || s.stage.InSkip? || s.stage.InTrees? || s.stage.Closing?
    requires Good(f, Act(f, s, item)) && Suits(Act(f, s, item), r) && !Act(f, s, item).stage.Malformed?
    ensures Suits(s, r) && Meaning(f, s, r) == Meaning(f, Act(f, s, item), r)
  {
    hide Format.Valid, RunCommands, WellFormed, PosGood, TurnsGood, RecentGood, ValidBlocks, Pow2, Run;
    RecentIsWellFormed(f, s.st);
    assert r.data == [] ==> s.st.hist + r.data == s.st.hist;
    assert From(s, r)[1..] == r.blocks;
  }

  lemma PaddingKeeps(f: Format, s: Snapshot, item: Item, r: Script)
    requires f.Valid() && Live(f, s) && Fits(s, item) && s.stage.InPadding?
    requires Good(f, Act(f, s, item)) && Suits(Act(f, s, item), r) && !Act(f, s, item).stage.Malformed?
    ensures Suits(s, r) && Meaning(f, s, r) == Meaning(f, Act(f, s, item), r)
  {
    hide Format.Valid, RunEnd, WellFormed, PosGood, TurnsGood, RecentGood, ValidBlocks, ToBoundary, Pow2, PrefixGood;
    RecentIsWellFormed(f, s.st);
    assert r.data == [] ==> s.st.hist + r.data == s.st.hist;
  }

  /** What a step leads to means what the state before it means. */
  lemma ActKeeps(f: Format, s: Snapshot, item: Item, r: Script)
    requires f.Valid() && Live(f, s) && Fits(s, item)
    requires Good(f, Act(f, s, item)) && Suits(Act(f, s, item), r) && !Act(f, s, item).stage.Malformed?
    ensures var before := Prepended(s, item, Act(f, s, item), r);
            && Suits(s, before) && Good(f, s) && Meaning(f, s, before) == Meaning(f, Act(f, s, item), r)
  {
    hide Act, Good, Fits, Format.Valid, Meaning, Suits;
    LiveIsGood(f, s);
    match s.stage {
      case InHeader(_) => HeaderKeeps(f, s, item, r);
      case InCommand => CommandKeeps(f, s, item, r);
      case InLiterals => LiteralKeeps(f, s, item, r);
      case InDistance => DistanceKeeps(f, s, item, r);
      case InCopy => CopyKeeps(f, s, item, r);
      case InStored => StoredKeeps(f, s, item, r);
      case InPadding(_) => PaddingKeeps(f, s, item, r);
      case _ => PlainKeeps(f, s, item, r);
    }
  }

  // ---------- Where the bits end ----------

  /** Nothing can follow what is not finished. */
  ghost predicate SuitsCut(s: Snapshot, r: Script) {
    && !r.finished && r.distance.Valid() && r.cmds == [] && r.blocks == [] && r.tail == []
    && (InsertsBytes(s.stage) || s.stage.InDistance? || StoresBytes(s.stage))
    && (!InsertsBytes(s.stage) ==> r.insert == []) && (!StoresBytes(s.stage) ==> r.data == [])
  }

  /** The outcome of an incomplete stream goes on to the end of its bits. */
  function Extended(o: Outcome, tail: seq<Byte>): (e: Outcome)
    ensures e.verdict == o.verdict && o.hist <= e.hist && (!o.verdict.Incomplete? ==> e == o)
  {
    if o.verdict.Incomplete? then Outcome(o.hist + tail, Incomplete) else o
  }

  ghost predicate Tolerates(s: Snapshot, r: Script) {
    if r.finished then Suits(s, r) else SuitsCut(s, r)
  }

  /** What the script stands for, to the last bit. */
  ghost function Sense(f: Format, s: Snapshot, r: Script): (o: Outcome)
    requires f.Valid() && Good(f, s) && Tolerates(s, r)
  {
    if r.finished then Extended(Meaning(f, s, r), r.tail)
    else Outcome(s.st.hist + r.insert + r.data, Incomplete)
  }

  lemma SenseGrows(f: Format, s: Snapshot, r: Script)
    requires f.Valid() && Good(f, s) && Tolerates(s, r)
    ensures s.st.hist <= Sense(f, s, r).hist
  {
    hide Meaning, Good, Suits, Format.Valid;
    if r.finished {
      MeaningGrows(f, s, r);
    }
  }

  lemma PrependedFinished(s: Snapshot, item: Item, next: Snapshot, r: Script)
    requires r.finished && !next.stage.Malformed?
    ensures Prepended(s, item, next, r).finished && Prepended(s, item, next, r).tail == r.tail
  {
  }

  /** Nothing but a cut-off end is left of a meta-block, or of the stream. */
  lemma CutOffSuits(f: Format, s: Snapshot, tail: seq<Byte>)
    requires f.Valid() && Good(f, s) && (s.stage.InHeader? || s.stage.InCommand?)
    ensures Suits(s, CutOff(tail)) && Sense(f, s, CutOff(tail)) == Outcome(s.st.hist + tail, Incomplete)
  {
    hide Good, Format.Valid, WellFormed;
    GoodIsWellFormed(f, s);
  }

  lemma GoodIsWellFormed(f: Format, s: Snapshot)
    requires f.Valid() && Good(f, s)
    ensures WellFormed(s.st.recent)
  {
    hide Format.Valid, TurnsGood, PosGood, PrefixGood;
    RecentIsWellFormed(f, s.st);
  }

  /** A step in front of something that is cut off. */
  lemma CutKeeps(f: Format, s: Snapshot, item: Item, r: Script)
    requires f.Valid() && Live(f, s) && Fits(s, item)
    requires Good(f, Act(f, s, item)) && SuitsCut(Act(f, s, item), r) && !Act(f, s, item).stage.Malformed?
    ensures var before := Prepended(s, item, Act(f, s, item), r);
            && Tolerates(s, before) && Good(f, s) && Sense(f, s, before) == Sense(f, Act(f, s, item), r)
  {
    hide Act, Good, Fits, Format.Valid, Prepended, Sense, Tolerates, SuitsCut;
    LiveIsGood(f, s);
    match s.stage {
      case InHeader(_) => CutHeader(f, s, item, r);
      case InCommand => CutCommand(f, s, item, r);
      case InLiterals => CutLiteral(f, s, item, r);
      case InDistance => CutDistance(f, s, item, r);
      case InPadding(_) => CutPadding(f, s, item, r);
      case InStored => CutStored(f, s, item, r);
      case _ => NotCut(f, s, item, r);
    }
  }

  lemma CutHeader(f: Format, s: Snapshot, item: Item, r: Script)
    requires f.Valid() && Live(f, s) && Fits(s, item)
    requires Good(f, Act(f, s, item)) && SuitsCut(Act(f, s, item), r) && !Act(f, s, item).stage.Malformed?
    requires s.stage.InHeader?
    ensures var before := Prepended(s, item, Act(f, s, item), r);
            && Tolerates(s, before) && Good(f, s) && Sense(f, s, before) == Sense(f, Act(f, s, item), r)
  {
    hide Format.Valid, Good, Headers.After, Headers.HeaderOf, Meaning, Suits;
    CutOffSuits(f, s, r.data);
    assert s.st.hist + [] + r.data == s.st.hist + r.data;
  }

  lemma CutCommand(f: Format, s: Snapshot, item: Item, r: Script)
    requires f.Valid() && Live(f, s) && Fits(s, item)
    requires Good(f, Act(f, s, item)) && SuitsCut(Act(f, s, item), r) && !Act(f, s, item).stage.Malformed?
    requires s.stage.InCommand?
    ensures var before := Prepended(s, item, Act(f, s, item), r);
            && Tolerates(s, before) && Good(f, s) && Sense(f, s, before) == Sense(f, Act(f, s, item), r)
  {
    hide Format.Valid, Good, Meaning, Suits;
    CutOffSuits(f, s, r.insert);
    assert s.st.hist + r.insert + [] == s.st.hist + r.insert;
  }

  lemma CutLiteral(f: Format, s: Snapshot, item: Item, r: Script)
    requires f.Valid() && Live(f, s) && Fits(s, item)
    requires Good(f, Act(f, s, item)) && SuitsCut(Act(f, s, item), r) && !Act(f, s, item).stage.Malformed?
    requires s.stage.InLiterals?
    ensures var before := Prepended(s, item, Act(f, s, item), r);
            && Tolerates(s, before) && Good(f, s) && Sense(f, s, before) == Sense(f, Act(f, s, item), r)
  {
    hide Format.Valid, Good, Meaning, Suits;
    if item.Literal? {
      assert s.st.hist + ([item.symbol] + r.insert) == s.st.hist + [item.symbol] + r.insert;
    }
  }

  lemma CutDistance(f: Format, s: Snapshot, item: Item, r: Script)
    requires f.Valid() && Live(f, s) && Fits(s, item)
    requires Good(f, Act(f, s, item)) && SuitsCut(Act(f, s, item), r) && !Act(f, s, item).stage.Malformed?
    requires s.stage.InDistance?
    ensures var before := Prepended(s, item, Act(f, s, item), r);
            && Tolerates(s, before) && Good(f, s) && Sense(f, s, before) == Sense(f, Act(f, s, item), r)
  {
    hide Format.Valid, Good, Meaning, Suits, TakeDistance;
    if item.Code? {
      TakeDistanceKeeps(f, s, item.distance);
    }
  }

  lemma CutPadding(f: Format, s: Snapshot, item: Item, r: Script)
    requires f.Valid() && Live(f, s) && Fits(s, item)
    requires Good(f, Act(f, s, item)) && SuitsCut(Act(f, s, item), r) && !Act(f, s, item).stage.Malformed?
    requires s.stage.InPadding?
    ensures var before := Prepended(s, item, Act(f, s, item), r);
            && Tolerates(s, before) && Good(f, s) && Sense(f, s, before) == Sense(f, Act(f, s, item), r)
  {
    hide Format.Valid, Good, Meaning, Suits, Pow2, ToBoundary;
  }

  lemma CutStored(f: Format, s: Snapshot, item: Item, r: Script)
    requires f.Valid() && Live(f, s) && Fits(s, item)
    requires Good(f, Act(f, s, item)) && SuitsCut(Act(f, s, item), r) && !Act(f, s, item).stage.Malformed?
    requires s.stage.InStored?
    ensures var before := Prepended(s, item, Act(f, s, item), r);
            && Tolerates(s, before) && Good(f, s) && Sense(f, s, before) == Sense(f, Act(f, s, item), r)
  {
    hide Format.Valid, Good, Meaning, Suits, Pow2;
    EightBits();
    assert s.st.hist + [] + ([item.v] + r.data) == s.st.hist + [item.v] + [] + r.data;
  }

  /** From the other stages no read leads to a command, or to stored bytes. */
  lemma NotCut(f: Format, s: Snapshot, item: Item, r: Script)
    requires f.Valid() && Live(f, s) && Fits(s, item)
    requires s.stage.InPrelude? || s.stage.InSkip? || s.stage.InTrees? || s.stage.InCopy? || s.stage.Closing?
    ensures !SuitsCut(Act(f, s, item), r)
  {
    hide Format.Valid, Good, CopyNaive, Pow2;
  }

  lemma ActMakesSense(f: Format, s: Snapshot, item: Item, r: Script)
    requires f.Valid() && Live(f, s) && Fits(s, item)
    requires Good(f, Act(f, s, item)) && Tolerates(Act(f, s, item), r) && !Act(f, s, item).stage.Malformed?
    ensures var before := Prepended(s, item, Act(f, s, item), r);
            && Tolerates(s, before) && Good(f, s) && Sense(f, s, before) == Sense(f, Act(f, s, item), r)
  {
    hide Act, Good, Fits, Format.Valid, Meaning, Suits, Prepended;
    if r.finished {
      PrependedFinished(s, item, Act(f, s, item), r);
      ActKeeps(f, s, item, r);
    } else {
      CutKeeps(f, s, item, r);
    }
  }

  lemma ResumeMakesSense(f: Format, s: Snapshot, r: Script)
    requires f.Valid() && StatusOf(f, s).Blocked? && Tolerates(Resume(f, s), r)
    ensures Good(f, s) && Tolerates(s, r) && Good(f, Resume(f, s)) && Sense(f, s, r) == Sense(f, Resume(f, s), r)
  {
    hide Meaning, Good, Suits, Format.Valid;
    ResumeGood(f, s);
    BlockedIsGood(f, s);
    if r.finished {
      ResumeKeeps(f, s, r);
    }
  }

  lemma BlockedIsGood(f: Format, s: Snapshot)
    requires StatusOf(f, s).Blocked?
    ensures Good(f, s)
  {
  }

  lemma BitIgnored(f: Format, s: Snapshot, bit: nat, r: Script)
    requires f.Valid() && Good(f, s.(bit := bit)) && Suits(s.(bit := bit), r)
    ensures Good(f, s) && Suits(s, r) && Meaning(f, s.(bit := bit), r) == Meaning(f, s, r)
  {
    hide Format.Valid, RecentGood, TurnsGood, RunExec, Run, RunEnd, RunCommands, WellFormed, ValidBlocks, CopyNaive,
         ExecCopy, AfterLiterals;
  }

  lemma SenseIgnoresBit(f: Format, s: Snapshot, bit: nat, r: Script)
    requires f.Valid() && Good(f, s.(bit := bit)) && Tolerates(s.(bit := bit), r)
    ensures Good(f, s) && Tolerates(s, r) && Sense(f, s.(bit := bit), r) == Sense(f, s, r)
  {
    hide Format.Valid, Meaning, Suits, RecentGood, TurnsGood;
    if r.finished {
      BitIgnored(f, s, bit, r);
    }
  }

  lemma PrependedIgnoresBit(s: Snapshot, item: Item, next: Snapshot, bit: nat, r: Script)
    ensures Prepended(s, item, next.(bit := bit), r) == Prepended(s, item, next, r)
  {
  }

  lemma NextKeeps(f: Format, s: Snapshot, b: Bits, r: Script)
    requires f.Valid() && Live(f, s) && Next(f, s, b).Some?
    requires var next := Next(f, s, b).value.1; Good(f, next) && Tolerates(next, r) && !next.stage.Malformed?
    ensures var next := Next(f, s, b).value.1; var before := Prepended(s, ItemAt(f, s, b), next, r);
            && Good(f, s) && Tolerates(s, before) && Sense(f, s, before) == Sense(f, next, r)
  {
    hide Act, Good, Fits, Live, Format.Valid, Sense, Tolerates, Next, Read, Prepended;
    NextParts(f, s, b);
    var (n, item) := Read(f, s, b).value;
    var next, bit := Act(f, s, item), (s.bit + n) % 8;
    SenseIgnoresBit(f, next, bit, r);
    PrependedIgnoresBit(s, item, next, bit, r);
    ActMakesSense(f, s, item, r);
  }

  // ---------- Whole runs ----------

  /** The bits have told that the stream is invalid. */
  predicate Refused(t: Snapshot) {
    t.stage.Overrun? || t.stage.Unusable? || (Stopped(t.stage) && t.st.remaining < 0)
  }

  /**
   * What a final state says about the outcome: whether the stream is accepted, rejected or neither, and what it stands
   * for, unless it is rejected before the command that overruns has been copied out.
   */
  ghost predicate Tells(t: Snapshot, o: Outcome) {
    && (t.stage.Ended? <==> o.verdict.Accept?) && (Refused(t) <==> o.verdict.Reject?)
    && t.st.hist <= o.hist && (!o.verdict.Reject? ==> o.hist == t.st.hist)
  }

  /** One step of a run. */
  lemma RunUnfolds(f: Format, s: Snapshot, b: Bits, counted: bool)
    requires f.Valid()
    ensures var m := BitMachine(f, counted);
            && Streaming.Lawful(m)
            && (Live(f, s) && Next(f, s, b).Some? ==> Next(f, s, b).value.0 <= |b|)
            && Streaming.Run(m, s, b)
               == if counted && Spent(s) then (s, b)
                  else match StatusOf(f, s)
                       case Blocked => Streaming.Run(m, Resume(f, s), b)
                       case Reading =>
                         if Live(f, s) && Next(f, s, b).Some? then
                           Streaming.Run(m, Next(f, s, b).value.1, b[Next(f, s, b).value.0..])
                         else (s, b)
                       case _ => (s, b)
  {
    hide Next, Live, Format.Valid, Streaming.Lawful, Resume, StatusOf, Spent;
    BitMachineIsLawful(f, counted);
    Progress(f, s, b);
  }

  // ---------- Where a run stops ----------

  lemma AtStopTolerates(s: Snapshot)
    ensures Tolerates(s, AtStop(s))
  {
  }

  /** Reading stops in the middle of the stream. */
  predicate MidStream(s: Snapshot) {
    Reads(s.stage) && !s.stage.InCopy? && (s.stage.Closing? ==> s.last && s.st.remaining >= 0)
  }

  lemma StoppedMidStream(f: Format, s: Snapshot)
    requires f.Valid() && Good(f, s) && MidStream(s)
    ensures Tolerates(s, AtStop(s)) && Sense(f, s, AtStop(s)) == Outcome(s.st.hist, Incomplete)
  {
    hide Good, Format.Valid, Meaning;
    AtStopTolerates(s);
    assert s.st.hist + [] == s.st.hist;
    if AtStop(s).finished {
      NothingMoreMeans(f, s);
    }
  }

  lemma NothingMoreMeans(f: Format, s: Snapshot)
    requires f.Valid() && Good(f, s) && MidStream(s) && Suits(s, AtStop(s))
    ensures Meaning(f, s, AtStop(s)) == Outcome(s.st.hist, Incomplete)
  {
    hide Good, Format.Valid, WellFormed;
    GoodIsWellFormed(f, s);
    assert s.st.hist + [] == s.st.hist;
    assert From(s, AtStop(s))[1..] == [];
    NoBlocksRun(f.env, s.st.hist, s.st.recent);
  }

  lemma NoBlocksRun(env: Env, hist: seq<Byte>, recent: seq<int>)
    requires env.Valid() && WellFormed(recent)
    ensures Run(env, [], hist, recent) == Outcome(hist, Incomplete)
  {
  }

  lemma StarvedMidStream(f: Format, s: Snapshot, b: Bits)
    requires f.Valid() && Live(f, s) && Next(f, s, b).None?
    ensures MidStream(s)
  {
    hide Next, Format.Valid, Good, Value;
    NextParts(f, s, b);
  }

  lemma MalformedMidStream(f: Format, s: Snapshot, item: Item)
    requires f.Valid() && Live(f, s) && Fits(s, item) && Act(f, s, item).stage.Malformed?
    ensures Act(f, s, item).st.hist == s.st.hist && MidStream(s)
  {
    hide Format.Valid, Good, Headers.After, Headers.HeaderOf, TakePrefix, TakeLiteral, TakeDistance, Copy,
         TakeStored, SkipByte, Pow2, Turn.Switched;
    if !s.stage.InHeader? && !s.stage.InPadding? && !s.stage.InTrees? && !s.stage.Closing? {
      NotMalformed(f, s, item);
      assert false;
    }
  }

  /** Symbols always make sense. */
  lemma NotMalformed(f: Format, s: Snapshot, item: Item)
    requires f.Valid() && Live(f, s) && Fits(s, item)
    requires !s.stage.InHeader? && !s.stage.InPadding? && !s.stage.InTrees? && !s.stage.Closing?
    ensures !Act(f, s, item).stage.Malformed?
  {
    hide Format.Valid, Good, TakeDistance, TakeField, TakePadding, TakeTrees, Close, CopyNaive, Pow2;
    if s.stage.InDistance? && item.Code? {
      TakeDistanceKeeps(f, s, item.distance);
    }
  }

  /** Where the machine stops of its own accord. */
  lemma StoppedForGood(f: Format, s: Snapshot)
    requires f.Valid() && Good(f, s) && !Reads(s.stage) && !StatusOf(f, s).Blocked?
    ensures Tolerates(s, AtStop(s)) && Tells(s, Sense(f, s, AtStop(s)))
  {
    hide Good, Format.Valid, Suits, Meaning;
    AtStopTolerates(s);
    SenseGrows(f, s, AtStop(s));
    StatusOfGood(f, s);
    if Stopped(s.stage) {
      OverrunMeansReject(f, s, AtStop(s));
    } else {
      FinalMeaning(f, s, AtStop(s));
      assert s.st.hist + [] == s.st.hist;
    }
  }

  lemma StatusOfGood(f: Format, s: Snapshot)
    requires Good(f, s) && !Reads(s.stage) && !StatusOf(f, s).Blocked?
    ensures if Stopped(s.stage) then s.st.remaining < 0
            else s.stage.Ended? || s.stage.Malformed? || s.stage.Overrun? || s.stage.Unusable?
  {
  }

  lemma FinalMeaning(f: Format, s: Snapshot, r: Script)
    requires f.Valid() && Good(f, s) && Suits(s, r)
    ensures s.stage.Ended? ==> Meaning(f, s, r) == Outcome(s.st.hist, Accept)
    ensures s.stage.Overrun? || s.stage.Unusable? ==> Meaning(f, s, r) == Outcome(s.st.hist, Reject)
    ensures s.stage.Malformed? ==> Meaning(f, s, r) == Outcome(s.st.hist, Incomplete)
  {
    hide Good, Suits, Format.Valid, Pending, RunCurrent, Run, RunEnd, RunCommands, From;
  }

  lemma LastState(f: Format, s: Snapshot, b: Bits)
    requires f.Valid() && Good(f, s) && !StatusOf(f, s).Blocked?
    requires Live(f, s) ==> Next(f, s, b).None?
    ensures Tolerates(s, AtStop(s)) && Tells(s, Sense(f, s, AtStop(s)))
  {
    hide Sense, Good, Format.Valid, Tolerates, Next, AtStop;
    if Reads(s.stage) {
      StarvedMidStream(f, s, b);
      StoppedMidStream(f, s);
    } else {
      StoppedForGood(f, s);
    }
  }

  /** Reading on from s ends as the script read from there says. */
  lemma {:induction false} RunMeans(f: Format, s: Snapshot, b: Bits)
    requires f.Valid() && Good(f, s)
    ensures Streaming.Lawful(BitMachine(f, false)) && Tolerates(s, Scripted(f, s, b))
    ensures Tells(Streaming.Run(BitMachine(f, false), s, b).0, Sense(f, s, Scripted(f, s, b)))
    ensures Good(f, Streaming.Run(BitMachine(f, false), s, b).0)
    ensures s.st.hist <= Streaming.Run(BitMachine(f, false), s, b).0.st.hist
    decreases |b|, Rank(f, s)
  {
    hide Next, Live, Format.Valid, Streaming.Lawful, Streaming.Run, Resume, StatusOf, Good, Tolerates, Sense, Rank,
         AtStop, BitMachine, Prepended, Tells;
    Progress(f, s, b);
    RunUnfolds(f, s, b, false);
    match StatusOf(f, s) {
      case Blocked =>
        ResumeGood(f, s);
        RunMeans(f, Resume(f, s), b);
        ResumeMakesSense(f, s, Scripted(f, s, b));
      case Reading =>
        if Next(f, s, b).None? {
          LastState(f, s, b);
        } else {
          var (n, next) := Next(f, s, b).value;
          NextGood(f, s, b);
          RunMeans(f, next, b[n..]);
          StepMeans(f, s, b, Scripted(f, next, b[n..]));
        }
      case _ => LastState(f, s, b);
    }
  }

  /** One step, as part of a run. */
  lemma StepMeans(f: Format, s: Snapshot, b: Bits, r: Script)
    requires f.Valid() && Live(f, s) && Good(f, s) && Next(f, s, b).Some? && Next(f, s, b).value.0 <= |b|
    requires var (n, next) := Next(f, s, b).value;
             && Good(f, next) && Tolerates(next, r) && Streaming.Lawful(BitMachine(f, false))
             && Tells(Streaming.Run(BitMachine(f, false), next, b[n..]).0, Sense(f, next, r))
    ensures var (n, next) := Next(f, s, b).value; var before := Prepended(s, ItemAt(f, s, b), next, r);
            && Tolerates(s, before)
            && Tells(Streaming.Run(BitMachine(f, false), next, b[n..]).0, Sense(f, s, before))
  {
    hide Next, Live, Format.Valid, Streaming.Lawful, Streaming.Run, Good, Tolerates, Sense, Prepended, BitMachine,
         AtStop;
    var (n, next) := Next(f, s, b).value;
    if next.stage.Malformed? {
      StoppedAtMalformed(f, s, b, r);
    } else {
      NextKeeps(f, s, b, r);
    }
  }

  /** Bits that make no sense end the run where it stands. */
  lemma StoppedAtMalformed(f: Format, s: Snapshot, b: Bits, r: Script)
    requires f.Valid() && Live(f, s) && Good(f, s) && Next(f, s, b).Some? && Next(f, s, b).value.1.stage.Malformed?
    ensures var (n, next) := Next(f, s, b).value; var before := Prepended(s, ItemAt(f, s, b), next, r);
            && n <= |b| && Streaming.Lawful(BitMachine(f, false)) && Tolerates(s, before)
            && Tells(Streaming.Run(BitMachine(f, false), next, b[n..]).0, Sense(f, s, before))
  {
    hide Next, Live, Format.Valid, Streaming.Lawful, Streaming.Run, BitMachine, Good, Read, Act, Fits, Sense, Tolerates,
         AtStop;
    NextParts(f, s, b);
    RunUnfolds(f, Next(f, s, b).value.1, b[Next(f, s, b).value.0..], false);
    MalformedMidStream(f, s, Read(f, s, b).value.1);
    StoppedMidStream(f, s);
  }
}
