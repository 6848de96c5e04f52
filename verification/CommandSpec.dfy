/**
 * What a stream means once its symbols are known (sections 4, 8 and 10 of RFC 7932): an unbounded history,
 * a list of recent distances, and a count of the bytes a meta-block still owes.
 */
module CommandSpec {
  import opened Bytes
  import opened Results
  import opened Transform
  import opened SlidingWindow
  import opened Distances

  const MIN_WORD := 4
  const NUM_TRANSFORMS := 121
  const DICTIONARY_SIZE := 122784
  const SIZE_BITS: seq<nat> :=
    [0, 0, 0, 0, 10, 10, 11, 11, 10, 10, 10, 10, 10, 9, 9, 8, 7, 7, 8, 7, 7, 6, 6, 5, 5]
  const OFFSETS: seq<nat> :=
    [0, 0, 0, 0, 0, 4096, 9216, 21504, 35840, 44032, 53248, 63488, 74752, 87040, 93696, 100864,
     104704, 106752, 108928, 113536, 115968, 118528, 119872, 121280, 122016]

  /** The static dictionary, and the reach of the window (1 << window_bits). */
  datatype Env = Env(windowBits: nat, words: seq<Byte>, tables: Tables) {
    ghost predicate Valid() {
      10 <= windowBits <= 30 && |words| == DICTIONARY_SIZE && tables.Valid() && |tables.rows| == NUM_TRANSFORMS
    }

    function Full(): nat {
      Pow2(windowBits)
    }

    function Reach(): int {
      Full() - GAP
    }
  }

  datatype DistanceCode = Implied | Short(code: nat) | Direct(distance: nat) {
    predicate Valid() {
      match this
      case Implied => true
      case Short(c) => c < SHORT_CODES
      case Direct(d) => d > 0
    }

    function Symbol(): nat {
      match this
      case Implied => 0
      case Short(c) => c
      case Direct(_) => SHORT_CODES
    }

    function Resolve(recent: seq<int>): int
      requires Valid() && |recent| == 4
    {
      match this
      case Implied => recent[0]
      case Short(c) => ShortDistance(c, recent)
      case Direct(d) => d
    }
  }

  /** One command: literals to insert, then a copy. */
  datatype Command = Command(insert: seq<Byte>, copyLength: nat, distance: DistanceCode)

  datatype Body = Empty | Metadata | Stored(data: seq<Byte>) | Coded(mlen: nat, commands: seq<Command>)

  datatype Block = Block(isLast: bool, body: Body) {
    predicate Valid() {
      match body
      case Empty => isLast
      case Metadata => true
      case Stored(data) => !isLast && data != []
      case Coded(mlen, commands) => mlen > 0 && forall c | c in commands :: c.distance.Valid()
    }

    /** The two lowest bits of the header: ISLAST, and then ISLASTEMPTY (or the start of MNIBBLES). */
    function HeaderBits(): int {
      if !isLast then 0 else if body.Empty? then 3 else 1
    }
  }

  datatype State = State(hist: seq<Byte>, remaining: int, recent: seq<int>)

  datatype Exec = Running(st: State) | BlockEnd(st: State) | Rejected(hist: seq<Byte>)

  datatype Verdict = Accept | Reject | Incomplete

  datatype Outcome = Outcome(hist: seq<Byte>, verdict: Verdict)

  /** Where the words of a length are, and that all of them are there. */
  lemma WordInBounds(len: nat, index: nat)
    requires MIN_WORD <= len <= MAX_WORD && index < Pow2(SIZE_BITS[len])
    ensures OFFSETS[len] + index * len + len <= DICTIONARY_SIZE
  {
    assert Pow2(5) == 32 && Pow2(6) == 64 && Pow2(7) == 128 && Pow2(8) == 256;
    assert Pow2(9) == 512 && Pow2(10) == 1024 && Pow2(11) == 2048;
    MulGap(len, Pow2(SIZE_BITS[len]) - 1 - index);
  }

  /** The dictionary entry and the transform a dictionary reference stands for, if any. */
  function Reference(env: Env, len: nat, wordId: nat): (r: Option<(seq<Byte>, nat)>)
    requires env.Valid()
    ensures r.Some? ==> |r.value.0| == len && MIN_WORD <= len <= MAX_WORD && r.value.1 < |env.tables.rows|
  {
    if MIN_WORD <= len <= MAX_WORD then
      var (transform, index) := DivMod(wordId, Pow2(SIZE_BITS[len]));
      if transform < NUM_TRANSFORMS then
        WordInBounds(len, index);
        var offset := OFFSETS[len] + Mul(index, len);
        Some((env.words[offset..offset + len], transform))
      else None
    else None
  }

  /** The lists of words of one length meet without gap or overlap, from the start of the dictionary to its end. */
  lemma WordListsTile(len: nat)
    requires MIN_WORD <= len <= MAX_WORD
    ensures OFFSETS[MIN_WORD] == 0
    ensures OFFSETS[len] + len * Pow2(SIZE_BITS[len]) == if len < MAX_WORD then OFFSETS[len + 1] else DICTIONARY_SIZE
  {
    hide Pow2;
    PowersOfSizes();
  }

  lemma PowersOfSizes()
    ensures Pow2(5) == 32 && Pow2(6) == 64 && Pow2(7) == 128 && Pow2(8) == 256
    ensures Pow2(9) == 512 && Pow2(10) == 1024 && Pow2(11) == 2048
  {
  }

  /** Where a word is. */
  function WordStart(len: nat, index: nat): (start: nat)
    requires MIN_WORD <= len <= MAX_WORD
  {
    OFFSETS[len] + index * len
  }

  /** Every word with each of the 121 transforms has a number, and that is what it refers to; there are no others. */
  lemma ReferenceIsNumbered(env: Env, len: nat, transform: nat, index: nat)
    requires env.Valid() && MIN_WORD <= len <= MAX_WORD && index < Pow2(SIZE_BITS[len])
    ensures WordStart(len, index) + len <= |env.words|
    ensures var wordId := Mul(transform, Pow2(SIZE_BITS[len])) + index;
            Reference(env, len, wordId)
            == if transform < 121 then Some((env.words[WordStart(len, index)..][..len], transform)) else None
  {
    WordInBounds(len, index);
    hide Pow2, Tables.Valid;
    var wordId := Mul(transform, Pow2(SIZE_BITS[len])) + index;
    DivModUnique(wordId, Pow2(SIZE_BITS[len]), transform, index);
    var start := WordStart(len, index);
    assert env.words[start..][..len] == env.words[start..start + len];
  }

  ghost predicate WellFormed(recent: seq<int>) {
    |recent| == 4 && forall k | 0 <= k < 4 :: 0 < recent[k] <= MAX_ALLOWED
  }

  lemma ReachIsAllowed(env: Env)
    requires env.Valid()
    ensures 1008 <= env.Reach() <= MAX_ALLOWED
  {
    Pow2AtLeast(env.windowBits, 10);
    Pow2AtLeast(30, env.windowBits);
    BigPowers();
  }

  function Settle(st: State): Exec {
    if st.remaining <= 0 then BlockEnd(st) else Running(st)
  }

  /** The copy part of a command: a back-reference, or a dictionary word if the distance is out of reach. */
  ghost function ExecCopy(env: Env, st: State, c: Command): (e: Exec)
    requires env.Valid() && c.distance.Valid() && WellFormed(st.recent)
    ensures e.Rejected? || WellFormed(e.st.recent)
  {
    ReachIsAllowed(env);
    var d := c.distance.Resolve(st.recent);
    var reach := Min(env.Reach(), |st.hist|);
    if d <= reach then
      Settle(State(CopyNaive(st.hist, d, c.copyLength), st.remaining - c.copyLength,
                   Push(c.distance.Symbol(), d, st.recent)))
    else if d > MAX_ALLOWED then Rejected(st.hist)
    else
      match Reference(env, c.copyLength, d - reach - 1)
      case None => Rejected(st.hist)
      case Some((word, t)) =>
        var w := Transformed(env.tables, word, t);
        Settle(State(st.hist + w, st.remaining - |w|, st.recent))
  }

  /** What remains of a command once its literals are in. */
  ghost function AfterLiterals(env: Env, st: State, c: Command): (e: Exec)
    requires env.Valid() && c.distance.Valid() && WellFormed(st.recent)
    ensures e.Rejected? || WellFormed(e.st.recent)
  {
    if st.remaining <= 0 then BlockEnd(st) else ExecCopy(env, st, c)
  }

  ghost function ExecCommand(env: Env, st: State, c: Command): (e: Exec)
    requires env.Valid() && c.distance.Valid() && WellFormed(st.recent)
    ensures e.Rejected? || WellFormed(e.st.recent)
  {
    if c.insert == [] then ExecCopy(env, st, c)
    else AfterLiterals(env, State(st.hist + c.insert, st.remaining - |c.insert|, st.recent), c)
  }

  ghost predicate ValidCommands(cmds: seq<Command>) {
    forall c | c in cmds :: c.distance.Valid()
  }

  ghost predicate ValidBlocks(blocks: seq<Block>) {
    forall b | b in blocks :: b.Valid()
  }

  /** The rest of the stream from inside blocks[0], before the next command. */
  ghost function RunCommands(env: Env, blocks: seq<Block>, st: State, cmds: seq<Command>): Outcome
    requires env.Valid() && blocks != [] && ValidBlocks(blocks) && ValidCommands(cmds) && WellFormed(st.recent)
    decreases |blocks|, 2, |cmds|, 1
  {
    if cmds == [] then Outcome(st.hist, Incomplete)
    else RunExec(env, blocks, ExecCommand(env, st, cmds[0]), cmds)
  }

  /** The rest of the stream, given what the command cmds[0] leads to. */
  ghost function RunExec(env: Env, blocks: seq<Block>, e: Exec, cmds: seq<Command>): Outcome
    requires env.Valid() && blocks != [] && ValidBlocks(blocks) && cmds != [] && ValidCommands(cmds)
    requires e.Rejected? || WellFormed(e.st.recent)
    decreases |blocks|, 2, |cmds|, 0
  {
    match e
    case Running(st) => RunCommands(env, blocks, st, cmds[1..])
    case BlockEnd(st) => RunEnd(env, blocks, st)
    case Rejected(hist) => Outcome(hist, Reject)
  }

  /** The rest of the stream once blocks[0] owes nothing, or less than nothing. */
  ghost function RunEnd(env: Env, blocks: seq<Block>, st: State): Outcome
    requires env.Valid() && blocks != [] && ValidBlocks(blocks) && WellFormed(st.recent)
    decreases |blocks|, 1
  {
    if st.remaining < 0 then Outcome(st.hist, Reject)
    else if blocks[0].isLast then Outcome(st.hist, Accept)
    else Run(env, blocks[1..], st.hist, st.recent)
  }

  /** The meaning of a stream of meta-blocks. */
  ghost function Run(env: Env, blocks: seq<Block>, hist: seq<Byte>, recent: seq<int>): Outcome
    requires env.Valid() && ValidBlocks(blocks) && WellFormed(recent)
    decreases |blocks|, 3
  {
    if blocks == [] then Outcome(hist, Incomplete)
    else
      assert blocks[0].Valid();
      match blocks[0].body
      case Empty => RunEnd(env, blocks, State(hist, 0, recent))
      case Metadata => RunEnd(env, blocks, State(hist, 0, recent))
      case Stored(data) => RunEnd(env, blocks, State(hist + data, 0, recent))
      case Coded(mlen, cmds) => RunCommands(env, blocks, State(hist, mlen, recent), cmds)
  }

  /** The output only grows. */
  lemma {:induction false} HistoryGrows(env: Env, blocks: seq<Block>, hist: seq<Byte>, recent: seq<int>)
    requires env.Valid() && ValidBlocks(blocks) && WellFormed(recent)
    ensures hist <= Run(env, blocks, hist, recent).hist
    decreases |blocks|, 2, 0
  {
    if blocks != [] {
      assert blocks[0].Valid();
      match blocks[0].body
      case Empty => EndGrows(env, blocks, State(hist, 0, recent));
      case Metadata => EndGrows(env, blocks, State(hist, 0, recent));
      case Stored(data) => EndGrows(env, blocks, State(hist + data, 0, recent));
      case Coded(mlen, cmds) => CommandsGrow(env, blocks, State(hist, mlen, recent), cmds);
    }
  }

  lemma {:induction false} EndGrows(env: Env, blocks: seq<Block>, st: State)
    requires env.Valid() && blocks != [] && ValidBlocks(blocks) && WellFormed(st.recent)
    ensures st.hist <= RunEnd(env, blocks, st).hist
    decreases |blocks|, 0, 0
  {
    if st.remaining >= 0 && !blocks[0].isLast {
      HistoryGrows(env, blocks[1..], st.hist, st.recent);
    }
  }

  lemma {:induction false} CommandsGrow(env: Env, blocks: seq<Block>, st: State, cmds: seq<Command>)
    requires env.Valid() && blocks != [] && ValidBlocks(blocks) && ValidCommands(cmds) && WellFormed(st.recent)
    ensures st.hist <= RunCommands(env, blocks, st, cmds).hist
    decreases |blocks|, 1, |cmds|
  {
    hide Pow2, DivMod, Mul, Tables.Valid, Transformed, CopyNaive, ShortDistance;
    if cmds != [] {
      var e := ExecCommand(env, st, cmds[0]);
      match e
      case Running(s) => CommandsGrow(env, blocks, s, cmds[1..]);
      case BlockEnd(s) => EndGrows(env, blocks, s);
      case Rejected(hist) =>
    }
  }

  // ---------- What a meta-block announces is what it produces ----------

  /** MLEN. */
  function Owed(b: Block): nat {
    match b.body
    case Stored(data) => |data|
    case Coded(mlen, _) => mlen
    case _ => 0
  }

  /** The lengths announced up to the last meta-block. */
  function Announced(blocks: seq<Block>): (n: nat) {
    if blocks == [] then 0 else Owed(blocks[0]) + if blocks[0].isLast then 0 else Announced(blocks[1..])
  }

  /** Bytes produced and bytes owed always add up to the same, whatever a command does. */
  lemma CommandConserves(env: Env, st: State, c: Command)
    requires env.Valid() && c.distance.Valid() && WellFormed(st.recent)
    ensures var e := ExecCommand(env, st, c);
            !e.Rejected? ==> |e.st.hist| + e.st.remaining == |st.hist| + st.remaining && st.hist <= e.st.hist
    ensures var e := ExecCommand(env, st, c);
            (e.BlockEnd? ==> e.st.remaining <= 0) && (e.Running? ==> e.st.remaining > 0)
  {
    hide Reference, Transformed, CopyNaive;
  }

  /** An accepted stream has produced exactly what its meta-blocks announced. */
  lemma {:induction false} AcceptedLength(env: Env, blocks: seq<Block>, hist: seq<Byte>, recent: seq<int>)
    requires env.Valid() && ValidBlocks(blocks) && WellFormed(recent)
    ensures var r := Run(env, blocks, hist, recent);
            r.verdict == Accept ==> |r.hist| == |hist| + Announced(blocks)
    decreases |blocks|, 2, 0
  {
    if blocks != [] {
      assert blocks[0].Valid();
      match blocks[0].body
      case Empty => EndLength(env, blocks, State(hist, 0, recent));
      case Metadata => EndLength(env, blocks, State(hist, 0, recent));
      case Stored(data) => EndLength(env, blocks, State(hist + data, 0, recent));
      case Coded(mlen, cmds) => CommandsLength(env, blocks, State(hist, mlen, recent), cmds);
    }
  }

  lemma {:induction false} EndLength(env: Env, blocks: seq<Block>, st: State)
    requires env.Valid() && blocks != [] && ValidBlocks(blocks) && WellFormed(st.recent) && st.remaining <= 0
    ensures var r := RunEnd(env, blocks, st);
            r.verdict == Accept ==> |r.hist| + Owed(blocks[0]) == |st.hist| + st.remaining + Announced(blocks)
    decreases |blocks|, 0, 0
  {
    if st.remaining == 0 && !blocks[0].isLast {
      AcceptedLength(env, blocks[1..], st.hist, st.recent);
    }
  }

  lemma {:induction false} CommandsLength(env: Env, blocks: seq<Block>, st: State, cmds: seq<Command>)
    requires env.Valid() && blocks != [] && ValidBlocks(blocks) && ValidCommands(cmds) && WellFormed(st.recent)
    ensures var r := RunCommands(env, blocks, st, cmds);
            r.verdict == Accept ==> |r.hist| + Owed(blocks[0]) == |st.hist| + st.remaining + Announced(blocks)
    decreases |blocks|, 1, |cmds|
  {
    hide ExecCommand;
    if cmds != [] {
      CommandConserves(env, st, cmds[0]);
      var e := ExecCommand(env, st, cmds[0]);
      match e
      case Running(s) => CommandsLength(env, blocks, s, cmds[1..]);
      case BlockEnd(s) => EndLength(env, blocks, s);
      case Rejected(_) =>
    }
  }
}
