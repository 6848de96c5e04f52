/**
 * Where a decoder can be suspended, what its future is from there, and the steps that leave that future alone.
 */
module Resumption {
  import opened Bytes
  import opened Results
  import opened Transform
  import opened SlidingWindow
  import opened Distances
  import opened CommandSpec

  datatype Phase =
    | MetablockBegin
    | Uncompressed
    | UncompressedWrite
    | CommandBegin
    | CommandInner
    | CommandPostDecodeLiterals
    | CommandPostWrapCopy
    | CommandInnerWrite
    | CommandPostWrite1
    | CommandPostWrite2
    | MetablockDone
    | Done

  /** Everything the rest of the decoding depends on; how the window is stored is not part of it. */
  datatype View = View(phase: Phase, blocks: seq<Block>, cmds: seq<Command>, st: State, counter: int, distance: int)

  ghost predicate ViewOk(env: Env, v: View) {
    && env.Valid() && ValidBlocks(v.blocks) && ValidCommands(v.cmds) && WellFormed(v.st.recent)
    && (v.phase.MetablockBegin? || v.phase.Done? || v.blocks != [])
    && match v.phase
       case Uncompressed | UncompressedWrite =>
         v.blocks[0].body.Stored? && 0 <= v.st.remaining <= |v.blocks[0].body.data|
       case CommandBegin => v.st.remaining > 0
       case CommandInner | CommandInnerWrite =>
         v.cmds != [] && 0 <= v.counter <= |v.cmds[0].insert| && (v.phase.CommandInner? ==> v.counter > 0)
       case CommandPostDecodeLiterals => v.cmds != [] && v.st.remaining > 0
       case CommandPostWrapCopy | CommandPostWrite2 =>
         v.cmds != [] && v.counter >= 0 && 1 <= v.distance <= |v.st.hist|
       case CommandPostWrite1 => v.cmds != []
       case MetablockBegin | Done => v.st.remaining >= 0
       case MetablockDone => true
  }

  /** The whole future of a suspended decoder, given enough input and output space. */
  ghost function Future(env: Env, v: View): Outcome
    requires ViewOk(env, v)
  {
    match v.phase
    case MetablockBegin => Run(env, v.blocks, v.st.hist, v.st.recent)
    case Uncompressed | UncompressedWrite =>
      var data := v.blocks[0].body.data;
      RunEnd(env, v.blocks, State(v.st.hist + data[|data| - v.st.remaining..], 0, v.st.recent))
    case CommandBegin => RunCommands(env, v.blocks, v.st, v.cmds)
    case CommandInner | CommandInnerWrite | CommandPostDecodeLiterals | CommandPostWrapCopy
       | CommandPostWrite1 | CommandPostWrite2 => RunExec(env, v.blocks, Pending(env, v), v.cmds)
    case MetablockDone => RunEnd(env, v.blocks, v.st)
    case Done => Outcome(v.st.hist, Accept)
  }

  predicate InCommand(v: View) {
    v.phase.CommandInner? || v.phase.CommandInnerWrite? || v.phase.CommandPostDecodeLiterals? ||
    v.phase.CommandPostWrapCopy? || v.phase.CommandPostWrite1? || v.phase.CommandPostWrite2?
  }

  /** What the current command still leads to. */
  ghost function Pending(env: Env, v: View): (e: Exec)
    requires ViewOk(env, v) && InCommand(v)
    ensures e.Rejected? || WellFormed(e.st.recent)
  {
    hide CopyNaive, ExecCopy, AfterLiterals;
    match v.phase
    case CommandInner | CommandInnerWrite => AfterLiterals(env, WithLiterals(v), v.cmds[0])
    case CommandPostDecodeLiterals => ExecCopy(env, v.st, v.cmds[0])
    case CommandPostWrapCopy | CommandPostWrite2 => Settle(WithCopy(v))
    case CommandPostWrite1 => Settle(v.st)
  }

  lemma PendingGrows(env: Env, v: View)
    requires ViewOk(env, v) && InCommand(v)
    ensures var e := Pending(env, v);
            && v.st.hist <= (if e.Rejected? then e.hist else e.st.hist)
            && (v.st.remaining < 0 ==> e.BlockEnd? && e.st.remaining < 0)
  {
    hide CopyNaive, Transformed, Reference;
  }

  function WithLiterals(v: View): State
    requires v.cmds != [] && 0 <= v.counter <= |v.cmds[0].insert|
  {
    var insert := v.cmds[0].insert;
    State(v.st.hist + insert[|insert| - v.counter..], v.st.remaining, v.st.recent)
  }

  function WithCopy(v: View): State
    requires v.counter >= 0 && 1 <= v.distance <= |v.st.hist|
  {
    State(CopyNaive(v.st.hist, v.distance, v.counter), v.st.remaining, v.st.recent)
  }

  /** What has been produced is never taken back. */
  lemma FutureGrows(env: Env, v: View)
    requires ViewOk(env, v)
    ensures v.st.hist <= Future(env, v).hist
  {
    hide Pending, Run, RunCommands, RunEnd, RunExec;
    match v.phase
    case MetablockBegin => HistoryGrows(env, v.blocks, v.st.hist, v.st.recent);
    case Uncompressed | UncompressedWrite =>
      var data := v.blocks[0].body.data;
      EndGrows(env, v.blocks, State(v.st.hist + data[|data| - v.st.remaining..], 0, v.st.recent));
    case CommandBegin => CommandsGrow(env, v.blocks, v.st, v.cmds);
    case CommandInner | CommandInnerWrite | CommandPostDecodeLiterals | CommandPostWrapCopy
       | CommandPostWrite1 | CommandPostWrite2 =>
      PendingGrows(env, v);
      ExecGrows(env, v.blocks, Pending(env, v), v.cmds);
    case MetablockDone => EndGrows(env, v.blocks, v.st);
    case Done =>
  }

  lemma ExecGrows(env: Env, blocks: seq<Block>, e: Exec, cmds: seq<Command>)
    requires env.Valid() && blocks != [] && ValidBlocks(blocks) && cmds != [] && ValidCommands(cmds)
    requires e.Rejected? || WellFormed(e.st.recent)
    ensures (if e.Rejected? then e.hist else e.st.hist) <= RunExec(env, blocks, e, cmds).hist
  {
    match e
    case Running(s) => CommandsGrow(env, blocks, s, cmds[1..]);
    case BlockEnd(s) => EndGrows(env, blocks, s);
    case Rejected(_) =>
  }

  /** The stream ends in the middle of a meta-block, or between two. */
  lemma OutOfCommands(env: Env, v: View)
    requires ViewOk(env, v) && v.phase.CommandBegin? && v.cmds == []
    ensures Future(env, v) == Outcome(v.st.hist, Incomplete)
  {
  }

  lemma OutOfBlocks(env: Env, v: View)
    requires ViewOk(env, v) && v.phase.MetablockBegin? && v.blocks == []
    ensures Future(env, v) == Outcome(v.st.hist, Incomplete)
  {
  }

  /** A meta-block that has been overrun is rejected in the end, whatever follows. */
  lemma OverrunIsRejected(env: Env, v: View)
    requires ViewOk(env, v) && v.st.remaining < 0 && !v.phase.MetablockBegin? && !v.phase.Done?
    ensures Future(env, v).verdict == Reject
  {
    hide Pending, RunCommands;
    if InCommand(v) {
      PendingGrows(env, v);
      assert Future(env, v) == RunEnd(env, v.blocks, Pending(env, v).st);
    }
  }

  /** Nothing after blocks[0] produces output. */
  predicate IsFinalBlock(blocks: seq<Block>) {
    blocks != [] && (blocks[0].isLast || (|blocks| > 1 && blocks[1].body.Empty?))
  }

  // ---------- Input that has not been taken, output that is owed ----------

  function Explicit(d: DistanceCode): (n: nat) {
    if d.Implied? then 0 else 1
  }

  /** Symbols of the commands: the command itself, its literals, and its distance unless that is implied. */
  function CommandUnits(cmds: seq<Command>): (n: nat) {
    if cmds == [] then 0 else 1 + |cmds[0].insert| + Explicit(cmds[0].distance) + CommandUnits(cmds[1..])
  }

  function BodyUnits(body: Body): (n: nat) {
    match body
    case Empty => 0
    case Metadata => 0
    case Stored(data) => |data|
    case Coded(_, cmds) => CommandUnits(cmds)
  }

  /** Everything there is to read of a stream: headers, symbols and stored bytes. */
  function Units(blocks: seq<Block>): (n: nat) {
    if blocks == [] then 0 else 1 + BodyUnits(blocks[0].body) + Units(blocks[1..])
  }

  function Rest<T>(s: seq<T>): (r: seq<T>) {
    if s == [] then [] else s[1..]
  }

  /** What a suspended decoder has not taken yet. */
  function UnitsLeft(v: View): (n: nat) {
    var here := if v.cmds == [] then 0 else Explicit(v.cmds[0].distance);
    match v.phase
    case MetablockBegin => Units(v.blocks)
    case Uncompressed | UncompressedWrite => Max(v.st.remaining, 0) + Units(Rest(v.blocks))
    case CommandBegin => CommandUnits(v.cmds) + Units(Rest(v.blocks))
    case CommandInner | CommandInnerWrite =>
      Max(v.counter, 0) + here + CommandUnits(Rest(v.cmds)) + Units(Rest(v.blocks))
    case CommandPostDecodeLiterals => here + CommandUnits(Rest(v.cmds)) + Units(Rest(v.blocks))
    case CommandPostWrapCopy | CommandPostWrite1 | CommandPostWrite2 =>
      CommandUnits(Rest(v.cmds)) + Units(Rest(v.blocks))
    case MetablockDone => Units(Rest(v.blocks))
    case Done => 0
  }

  /** Bytes that have been charged to the meta-block but not produced yet. */
  function Charged(v: View): (n: int) {
    if v.phase.CommandInner? || v.phase.CommandInnerWrite? || v.phase.CommandPostWrapCopy? ||
       v.phase.CommandPostWrite2? then v.counter else 0
  }

  predicate InBlock(v: View) {
    !v.phase.MetablockBegin? && !v.phase.Done? && v.blocks != []
  }

  /** Produced plus charged plus remaining, less what was announced: where the history stood when the block began. */
  function BlockStart(v: View): (n: int)
    requires InBlock(v)
  {
    |v.st.hist| + Charged(v) + v.st.remaining - Owed(v.blocks[0])
  }

  /** From v, having taken n units of input: the same future, and the same account. */
  ghost predicate Follows(env: Env, v: View, v': View, n: int)
    requires ViewOk(env, v)
  {
    && ViewOk(env, v') && Future(env, v') == Future(env, v) && UnitsLeft(v') + n <= UnitsLeft(v)
    && (InBlock(v) && InBlock(v') ==> BlockStart(v') == BlockStart(v))
  }

  /** A decoder that waits for input which is not there waits for good. */
  lemma NothingLeft(env: Env, v: View)
    requires ViewOk(env, v) && UnitsLeft(v) == 0
    requires v.phase.MetablockBegin? || v.phase.CommandBegin? || v.phase.CommandInner?
             || (v.phase.CommandPostDecodeLiterals? && !v.cmds[0].distance.Implied?)
             || (v.phase.Uncompressed? && v.st.remaining > 0)
    ensures Future(env, v) == Outcome(v.st.hist, Incomplete)
  {
  }

  // ---------- Steps that do not change the future ----------

  /** Where a command starts, by the number of its literals. */
  function AfterRead(n: nat): Phase {
    if n == 0 then CommandPostDecodeLiterals else CommandInner
  }

  lemma CommandRead(env: Env, v: View, v': View)
    requires ViewOk(env, v) && v.phase.CommandBegin? && v.cmds != []
    requires var c := v.cmds[0];
             v' == v.(phase := AfterRead(|c.insert|), counter := |c.insert|, distance := v'.distance,
                      st := v.st.(remaining := v.st.remaining - |c.insert|))
    ensures Follows(env, v, v', 1)
  {
    hide ExecCopy, RunExec, AfterLiterals;
    var insert := v.cmds[0].insert;
    assert insert[|insert| - |insert|..] == insert;
  }

  /** One literal is in, and the decoder goes on with the next or has to write. */
  ghost predicate OneLiteralIn(env: Env, v: View, v': View) {
    && ViewOk(env, v) && v.phase.CommandInner? && (v'.phase.CommandInner? ==> v.counter > 1)
    && (v'.phase.CommandInner? || v'.phase.CommandInnerWrite?)
    && var insert := v.cmds[0].insert;
       v' == v.(phase := v'.phase, counter := v.counter - 1,
                st := v.st.(hist := v.st.hist + [insert[|insert| - v.counter]]))
  }

  lemma LiteralInserted(env: Env, v: View, v': View)
    requires OneLiteralIn(env, v, v')
    ensures Follows(env, v, v', 1)
  {
    hide Future, UnitsLeft, BlockStart, InBlock, OneLiteralIn, ViewOk;
    LiteralInView(env, v, v');
    LiteralInFuture(env, v, v');
    LiteralInAccount(env, v, v');
  }

  lemma LiteralInView(env: Env, v: View, v': View)
    requires OneLiteralIn(env, v, v')
    ensures ViewOk(env, v) && ViewOk(env, v')
  {
    hide Env.Valid, ValidBlocks, ValidCommands, WellFormed;
  }

  lemma LiteralInFuture(env: Env, v: View, v': View)
    requires OneLiteralIn(env, v, v') && ViewOk(env, v) && ViewOk(env, v')
    ensures Future(env, v') == Future(env, v)
  {
    hide ExecCopy, RunExec, AfterLiterals, Env.Valid, ValidBlocks, ValidCommands, WellFormed;
    assert WithLiterals(v').hist == WithLiterals(v).hist;
  }

  lemma LiteralInAccount(env: Env, v: View, v': View)
    requires OneLiteralIn(env, v, v')
    ensures UnitsLeft(v') + 1 <= UnitsLeft(v) && InBlock(v) && InBlock(v') && BlockStart(v') == BlockStart(v)
  {
    hide Env.Valid, ValidBlocks, ValidCommands, WellFormed, Units, CommandUnits, Rest, Explicit, Owed;
  }

  lemma LiteralsDone(env: Env, v: View, v': View)
    requires ViewOk(env, v) && (v.phase.CommandInner? || v.phase.CommandInnerWrite?) && v.counter == 0
    requires v' == v.(phase := AfterInsert(v.st.remaining))
    ensures Follows(env, v, v', 0)
  {
    hide ExecCopy;
    assert WithLiterals(v).hist == v.st.hist;
  }

  /** Where a literal leads: to a write, to the end of the literals, or to the next one. */
  function AfterLiteral(full: bool, counter: int, remaining: int): Phase {
    if full then CommandInnerWrite
    else if counter > 0 then CommandInner
    else AfterInsert(remaining)
  }

  function AfterInsert(remaining: int): Phase {
    if remaining <= 0 then MetablockDone else CommandPostDecodeLiterals
  }

  lemma LiteralTaken(env: Env, v: View, v': View, full: bool)
    requires ViewOk(env, v) && v.phase.CommandInner?
    requires var insert := v.cmds[0].insert;
             v' == v.(phase := AfterLiteral(full, v.counter - 1, v.st.remaining), counter := v.counter - 1,
                      st := v.st.(hist := v.st.hist + [insert[|insert| - v.counter]]))
    ensures Follows(env, v, v', 1)
  {
    hide Future, ViewOk;
    CountsDown(env, v);
    if full || v.counter > 1 {
      LiteralInserted(env, v, v');
    } else {
      var mid := v'.(phase := CommandInnerWrite);
      LiteralInserted(env, v, mid);
      LiteralsDone(env, mid, v');
    }
  }

  lemma CountsDown(env: Env, v: View)
    requires ViewOk(env, v) && v.phase.CommandInner?
    ensures v.counter > 0
  {
  }

  lemma CounterIsNat(env: Env, v: View)
    requires ViewOk(env, v)
    ensures v.phase.CommandInnerWrite? || v.phase.CommandPostWrite2? ==> v.counter >= 0
  {
  }

  lemma LiteralsResumed(env: Env, v: View, v': View)
    requires ViewOk(env, v) && v.phase.CommandInnerWrite? && v.counter > 0
    requires v' == v.(phase := CommandInner)
    ensures Follows(env, v, v', 0)
  {
    hide RunExec, AfterLiterals;
  }

  lemma CopyResumed(env: Env, v: View, v': View)
    requires ViewOk(env, v) && v.phase.CommandPostWrite2?
    requires v' == v.(phase := CommandPostWrapCopy)
    ensures Follows(env, v, v', 0)
  {
  }

  /** Where a command goes on after a write: with its copy, its literals, its distance, or not at all. */
  function AfterWrite(phase: Phase, counter: int, remaining: int): Phase {
    if phase.CommandPostWrite2? then CommandPostWrapCopy
    else if counter != 0 then CommandInner
    else AfterInsert(remaining)
  }

  lemma WriteResumed(env: Env, v: View, v': View)
    requires ViewOk(env, v) && (v.phase.CommandInnerWrite? || v.phase.CommandPostWrite2?)
    requires v' == v.(phase := AfterWrite(v.phase, v.counter, v.st.remaining))
    ensures Follows(env, v, v', 0)
  {
    hide Future, ViewOk;
    CounterIsNat(env, v);
    if v.phase.CommandPostWrite2? {
      CopyResumed(env, v, v');
    } else if v.counter == 0 {
      LiteralsDone(env, v, v');
    } else {
      LiteralsResumed(env, v, v');
    }
  }

  lemma StoredResumed(env: Env, v: View, v': View)
    requires ViewOk(env, v) && v.phase.UncompressedWrite?
    requires v' == v.(phase := Uncompressed)
    ensures Follows(env, v, v', 0)
  {
  }

  lemma RemainsToDo(env: Env, v: View)
    requires ViewOk(env, v) && v.phase.CommandPostDecodeLiterals?
    ensures v.st.remaining > 0
  {
  }

  /** A distance within reach: the copy starts. */
  lemma CopyStarted(env: Env, v: View, v': View)
    requires ViewOk(env, v) && v.phase.CommandPostDecodeLiterals?
    requires var c := v.cmds[0]; var d := c.distance.Resolve(v.st.recent);
             d <= Min(env.Reach(), |v.st.hist|) &&
             v' == v.(phase := CommandPostWrapCopy, counter := c.copyLength, distance := d,
                      st := State(v.st.hist, v.st.remaining - c.copyLength, Push(c.distance.Symbol(), d, v.st.recent)))
    ensures Follows(env, v, v', Explicit(v.cmds[0].distance))
  {
    hide RunExec, CopyNaive;
    ReachIsAllowed(env);
  }

  /** Where one byte of a wrap-copy leads. */
  function AfterByte(full: bool): Phase {
    if full then CommandPostWrite2 else CommandPostWrapCopy
  }

  lemma CopyContinues(env: Env, v: View)
    requires ViewOk(env, v) && v.phase.CommandPostWrapCopy?
    ensures 1 <= v.distance <= |v.st.hist|
    ensures CopyNaive(v.st.hist, v.distance, 1) == v.st.hist + [v.st.hist[|v.st.hist| - v.distance]]
  {
    assert CopyNaive(v.st.hist, v.distance, 0) == v.st.hist;
  }

  lemma Copied(env: Env, v: View, v': View, n: nat)
    requires ViewOk(env, v) && v.phase.CommandPostWrapCopy? && n <= v.counter
    requires v'.phase.CommandPostWrapCopy? || v'.phase.CommandPostWrite2?
    requires v' == v.(phase := v'.phase, counter := v.counter - n,
                      st := v.st.(hist := CopyNaive(v.st.hist, v.distance, n)))
    ensures Follows(env, v, v', 0)
  {
    hide RunExec, CopyNaive;
    CopySplits(v.st.hist, v.distance, n, v.counter - n);
  }

  /** A dictionary word has been put. */
  lemma WordPut(env: Env, v: View, v': View)
    requires ViewOk(env, v) && v.phase.CommandPostDecodeLiterals?
    requires var c := v.cmds[0]; var d := c.distance.Resolve(v.st.recent); var reach := Min(env.Reach(), |v.st.hist|);
             && reach < d <= MAX_ALLOWED && Reference(env, c.copyLength, d - reach - 1).Some?
             && var (word, t) := Reference(env, c.copyLength, d - reach - 1).value;
                var w := Transformed(env.tables, word, t);
                v' == v.(phase := CommandPostWrite1, counter := v'.counter, distance := v'.distance,
                         st := v.st.(hist := v.st.hist + w, remaining := v.st.remaining - |w|))
    ensures Follows(env, v, v', Explicit(v.cmds[0].distance))
  {
    hide Settle;
    hide RunExec, Transformed, Reference;
  }

  /** A distance that is neither in reach nor a word: the stream is invalid. */
  lemma BadDistance(env: Env, v: View)
    requires ViewOk(env, v) && v.phase.CommandPostDecodeLiterals?
    requires var c := v.cmds[0]; var d := c.distance.Resolve(v.st.recent); var reach := Min(env.Reach(), |v.st.hist|);
             reach < d && (d > MAX_ALLOWED || Reference(env, c.copyLength, d - reach - 1).None?)
    ensures Future(env, v).verdict == Reject
  {
    hide Reference;
  }

  /** Next metablock, if any, or the next command. */
  function AfterCommand(remaining: int): Phase {
    if remaining <= 0 then MetablockDone else CommandBegin
  }

  /** Nothing of the command is left to do. */
  predicate CanFinish(v: View) {
    v.phase.CommandPostWrite1? || ((v.phase.CommandPostWrapCopy? || v.phase.CommandPostWrite2?) && v.counter == 0)
  }

  lemma HasCommand(env: Env, v: View)
    requires ViewOk(env, v) && CanFinish(v)
    ensures v.cmds != []
  {
  }

  /** The command is over. */
  lemma CommandDone(env: Env, v: View, v': View)
    requires ViewOk(env, v)
    requires CanFinish(v)
    requires v' == v.(phase := AfterCommand(v.st.remaining), cmds := v.cmds[1..],
                      counter := v'.counter, distance := v'.distance)
    ensures Follows(env, v, v', 0)
  {
    hide RunCommands, RunEnd;
  }

  lemma StoredCopied(env: Env, v: View, v': View, n: nat)
    requires ViewOk(env, v) && v.phase.Uncompressed? && n <= v.st.remaining
    requires v'.phase.Uncompressed? || v'.phase.UncompressedWrite?
    requires var data := v.blocks[0].body.data; var from := |data| - v.st.remaining;
             v' == v.(phase := v'.phase, st := v.st.(hist := v.st.hist + data[from..from + n],
                                                     remaining := v.st.remaining - n))
    ensures Follows(env, v, v', n)
  {
    hide RunEnd;
    var data := v.blocks[0].body.data;
    var from := |data| - v.st.remaining;
    assert v'.st.hist + data[from + n..] == v.st.hist + data[from..];
  }

  lemma StoredDone(env: Env, v: View, v': View)
    requires ViewOk(env, v) && v.phase.Uncompressed? && v.st.remaining == 0
    requires v' == v.(phase := MetablockDone)
    ensures Follows(env, v, v', 0)
  {
    hide RunEnd;
    var data := v.blocks[0].body.data;
    assert v.st.hist + data[|data|..] == v.st.hist;
  }

  /** Where a meta-block starts, by its kind. */
  function EntryPhase(body: Body): Phase {
    match body
    case Empty => MetablockDone
    case Metadata => MetablockDone
    case Stored(_) => Uncompressed
    case Coded(_, _) => CommandBegin
  }

  function EntryCommands(body: Body): seq<Command> {
    if body.Coded? then body.commands else []
  }

  lemma BlockBegun(env: Env, v: View, v': View)
    requires ViewOk(env, v) && v.phase.MetablockBegin? && v.blocks != []
    requires var b := v.blocks[0];
             v' == v.(phase := EntryPhase(b.body), cmds := EntryCommands(b.body),
                      st := v.st.(remaining := Owed(b)), counter := v'.counter, distance := v'.distance)
    ensures Follows(env, v, v', 1) && InBlock(v') && BlockStart(v') == |v.st.hist|
    ensures v'.phase.MetablockDone? || v'.phase.Uncompressed? || v'.phase.CommandBegin?
    ensures Owed(v.blocks[0]) == 0 ==> v'.phase.MetablockDone?
  {
    hide RunEnd, RunCommands;
    assert v.blocks[0].Valid();
    if v.blocks[0].body.Stored? {
      var data := v.blocks[0].body.data;
      assert data[|data| - |data|..] == data;
    }
  }

  lemma BlockDone(env: Env, v: View, v': View)
    requires ViewOk(env, v) && v.phase.MetablockDone? && v.st.remaining >= 0
    requires v' == if v.blocks[0].isLast then v.(phase := Done)
                   else v.(phase := MetablockBegin, blocks := v.blocks[1..])
    ensures Follows(env, v, v', 0)
  {
    hide Run;
  }
}
