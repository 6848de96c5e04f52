/**
 * From bytes in any portions to output in any portions: the driver over the machine that reads bits, and the decoder
 * with its ring over the meta-blocks that these bits say.
 */
module EndToEnd {
  import opened Bytes
  import opened Results
  import opened BitReader
  import opened SlidingWindow
  import opened CommandSpec
  import opened BitDecoder
  import opened BitMeaning
  import opened BlockCounts
  import opened Streaming
  import D = Decoder

  /** The decoder in front of a stream with this many window bits. */
  function Fresh(f: Format, customDict: seq<Byte>, prelude: nat): (s: Snapshot)
    requires f.Valid()
  {
    WindowHoldsGap(f);
    Start(Reachable(customDict, f.env.Full()), prelude)
  }

  lemma WindowHoldsGap(f: Format)
    requires f.Valid()
    ensures f.env.Full() >= GAP
  {
    ReachIsAllowed(f.env);
  }

  lemma FirstDistances()
    ensures WellFormed([4, 11, 15, 16])
  {
  }

  /** The meta-blocks of a stream. */
  function BlocksOf(f: Format, customDict: seq<Byte>, prelude: nat, stream: seq<Byte>): (blocks: seq<Block>)
    requires f.Valid()
  {
    Scripted(f, Fresh(f, customDict, prelude), ByteBits(stream)).blocks
  }

  /** What a decoder with an unbounded history makes of them. */
  ghost function Meant(f: Format, customDict: seq<Byte>, prelude: nat, stream: seq<Byte>): (o: Outcome)
    requires f.Valid() && ValidBlocks(BlocksOf(f, customDict, prelude, stream))
  {
    hide Format.Valid, BlocksOf, ValidBlocks, CommandSpec.Run, Reachable, WellFormed;
    WindowHoldsGap(f);
    FirstDistances();
    CommandSpec.Run(f.env, BlocksOf(f, customDict, prelude, stream), Reachable(customDict, f.env.Full()),
                    [4, 11, 15, 16])
  }

  /** The same, with what a command or stored bytes have produced that the stream breaks off. */
  ghost function OutcomeOf(f: Format, customDict: seq<Byte>, prelude: nat, stream: seq<Byte>): (o: Outcome)
    requires f.Valid() && ValidBlocks(BlocksOf(f, customDict, prelude, stream))
  {
    Extended(Meant(f, customDict, prelude, stream),
             Scripted(f, Fresh(f, customDict, prelude), ByteBits(stream)).tail)
  }

  /** A meta-block with a single block type calls for more of a category than its count allows. */
  ghost predicate Overused(f: Format, customDict: seq<Byte>, prelude: nat, stream: seq<Byte>)
    requires f.Valid()
  {
    Demanded(f, Fresh(f, customDict, prelude), ByteBits(stream)).later
  }

  /** Where reading the whole stream at once, with unlimited output, ends. */
  ghost function LastOf(f: Format, customDict: seq<Byte>, prelude: nat, stream: seq<Byte>): (t: Snapshot)
    requires f.Valid()
  {
    BitMachineIsLawful(f, true);
    Streaming.Run(BitMachine(f, true), Fresh(f, customDict, prelude), ByteBits(stream)).0
  }

  lemma FreshIsGood(f: Format, customDict: seq<Byte>, prelude: nat)
    requires f.Valid()
    ensures Good(f, Fresh(f, customDict, prelude))
  {
    hide Format.Valid;
    WindowHoldsGap(f);
  }

  /**
   * Reading everything at once ends with what the stream stands for, unless a count runs out; and exactly if more is
   * called for than the counts allow, it ends there.
   */
  lemma ReadAtOnce(f: Format, customDict: seq<Byte>, prelude: nat, stream: seq<Byte>)
    requires f.Valid()
    ensures ValidBlocks(BlocksOf(f, customDict, prelude, stream)) && Good(f, LastOf(f, customDict, prelude, stream))
    ensures Spent(LastOf(f, customDict, prelude, stream)) <==> Overused(f, customDict, prelude, stream)
    ensures !Overused(f, customDict, prelude, stream) ==>
              Tells(LastOf(f, customDict, prelude, stream), OutcomeOf(f, customDict, prelude, stream))
    ensures LastOf(f, customDict, prelude, stream).st.hist <= OutcomeOf(f, customDict, prelude, stream).hist
  {
    hide Good, Tells, Scripted, Format.Valid, CommandSpec.Run, Streaming.Run, ByteBits, Reachable, Demanded, Exceeds,
         Spent, BitMachine, Streaming.Lawful, Extended;
    var s, b := Fresh(f, customDict, prelude), ByteBits(stream);
    FreshIsGood(f, customDict, prelude);
    RunMeans(f, s, b);
    CountsRunOut(f, s, b);
    var (t, rest) := Streaming.Run(BitMachine(f, true), s, b);
    RunMeans(f, t, rest);
    TellsGrows(Streaming.Run(BitMachine(f, false), s, b).0, OutcomeOf(f, customDict, prelude, stream));
    NothingCalledOutside(f, s, b);
    FreshCounts(f, customDict, prelude, Demanded(f, s, b));
  }

  lemma TellsGrows(t: Snapshot, o: Outcome)
    requires Tells(t, o)
    ensures t.st.hist <= o.hist
  {
  }

  lemma FreshCounts(f: Format, customDict: seq<Byte>, prelude: nat, d: Demand)
    requires f.Valid() && d.literals == d.commands == d.distances == 0
    ensures Exceeds(Fresh(f, customDict, prelude), d) <==> d.later
  {
    hide Format.Valid, NoGroups, Reachable;
  }

  /** Wherever the driver stands, what it has produced is the beginning of the outcome. */
  lemma ReadInPart(f: Format, s: Snapshot, b: Bits)
    requires f.Valid()
    ensures Lawful(BitMachine(f, true)) && s.st.hist <= Streaming.Run(BitMachine(f, true), s, b).0.st.hist
    decreases |b|, Rank(f, s)
  {
    hide Good, Format.Valid, Streaming.Run, Next, Live, Streaming.Lawful, BitMachine, Resume, Rank, Spent, StatusOf;
    RunUnfolds(f, s, b, true);
    Progress(f, s, b);
    if StatusOf(f, s).Blocked? {
      ResumeGood(f, s);
      ReadInPart(f, Resume(f, s), b);
    } else if Live(f, s) && Next(f, s, b).Some? {
      NextGood(f, s, b);
      ReadInPart(f, Next(f, s, b).value.1, b[Next(f, s, b).value.0..]);
    }
  }

  /** The states in which the decoder gives up. */
  predicate Failing(t: Snapshot) {
    t.stage.Malformed? || Refused(t) || Spent(t)
  }

  lemma StatusTells(f: Format, s: Snapshot)
    requires f.Valid() && Good(f, s)
    ensures match BitMachine(f, true).status(s)
            case Reading => !s.stage.Ended? && !Failing(s)
            case Finished => s.stage.Ended? && !Failing(s)
            case Failed => !s.stage.Ended? && Failing(s)
            case Blocked => true
  {
    hide Good, Format.Valid;
  }

  /** The whole stream fits into a call, and as much output as it has is let go. */
  ghost predicate Suffices(f: Format, customDict: seq<Byte>, prelude: nat, stream: seq<Byte>, grants: nat)
    requires f.Valid()
  {
    BitMachineIsLawful(f, true);
    |stream| < WORD && Stops(BitMachine(f, true), Fresh(f, customDict, prelude), ByteBits(stream)) <= grants
  }

  /**
   * Bytes in any portions, and output let go in any portions: what has been produced is always the beginning of what
   * the stream stands for. With all of the stream taken and enough output let go, the state is that of a decoder which
   * read it at once, and the result tells which: the stream is accepted, or it is invalid, its bits make no sense or a
   * count has run out, or it is incomplete.
   */
  method DecodeStream(f: Format, customDict: seq<Byte>, prelude: nat, offers: seq<Offer>)
    returns (result: Code, state: Snapshot, rest: seq<Byte>)
    requires f.Valid() && offers != []
    ensures var stream := Joined(offers);
            && ValidBlocks(BlocksOf(f, customDict, prelude, stream))
            && var spec := OutcomeOf(f, customDict, prelude, stream);
               var last := LastOf(f, customDict, prelude, stream);
               var overused := Overused(f, customDict, prelude, stream);
               && state.st.hist <= spec.hist
               && (result == Success ==> !overused && spec == Outcome(state.st.hist, Accept))
               && (result == Failure ==> overused || spec.verdict == Reject || state.stage.Malformed?)
               && (result == Success || result == Failure || (result == NeedsMoreInput && rest == []) ==> state == last)
               && (|stream| < WORD && result == NeedsMoreInput ==> rest == [])
               && (Suffices(f, customDict, prelude, stream, offers[|offers| - 1].grants) ==>
                     && state == last && result != NeedsMoreOutput
                     && (result == Success <==> last.stage.Ended?) && (result == Failure <==> Failing(last))
                     && (!overused ==>
                           && (result == Success <==> spec.verdict == Accept)
                           && (result == Failure <==> spec.verdict == Reject || last.stage.Malformed?)
                           && (last.stage.Malformed? ==> spec.verdict == Incomplete)
                           && (spec.verdict != Reject ==> state.st.hist == spec.hist)))
  {
    hide Good, Tells, Scripted, Format.Valid, CommandSpec.Run, Streaming.Run, Stops, ByteBits, Reachable, Joined,
         BitMachine, Driver.Valid, Driver.Pending, Fresh, BlocksOf, OutcomeOf, Overused, Failing, Spent;
    ghost var stream := Joined(offers);
    BitMachineIsLawful(f, true);
    ReadAtOnce(f, customDict, prelude, stream);
    var driver, taken;
    result, driver, rest, taken := Session(BitMachine(f, true), Fresh(f, customDict, prelude), offers);
    state := driver.state;
    ReadInPart(f, state, driver.Pending() + ByteBits(rest));
    if state == LastOf(f, customDict, prelude, stream) {
      StatusTells(f, state);
    }
    LastTells(LastOf(f, customDict, prelude, stream), OutcomeOf(f, customDict, prelude, stream),
              Overused(f, customDict, prelude, stream));
  }

  /** What the last state tells about the outcome. */
  lemma LastTells(t: Snapshot, o: Outcome, overused: bool)
    requires (Spent(t) <==> overused) && (!overused ==> Tells(t, o))
    ensures t.stage.Ended? ==> !overused && o == Outcome(t.st.hist, Accept)
    ensures Failing(t) ==> overused || o.verdict == Reject || t.stage.Malformed?
    ensures !overused ==>
              && (t.stage.Ended? <==> o.verdict == Accept)
              && (Failing(t) <==> o.verdict == Reject || t.stage.Malformed?)
              && (t.stage.Malformed? ==> o.verdict == Incomplete)
              && (o.verdict != Reject ==> t.st.hist == o.hist)
  {
  }

  /** The same bytes cut in two ways, with output let go in two ways: the same result and the same state. */
  method DecodeTwice(f: Format, customDict: seq<Byte>, prelude: nat, offers: seq<Offer>, offers': seq<Offer>)
    returns (result: Code, state: Snapshot, result': Code, state': Snapshot)
    requires f.Valid() && offers != [] && offers' != [] && Joined(offers) == Joined(offers')
    ensures state.st.hist <= state'.st.hist || state'.st.hist <= state.st.hist
    ensures var stream := Joined(offers);
            && Suffices(f, customDict, prelude, stream, offers[|offers| - 1].grants)
            && Suffices(f, customDict, prelude, stream, offers'[|offers'| - 1].grants) ==>
              result == result' && state == state'
  {
    hide Format.Valid, Joined, OutcomeOf, LastOf, Overused, Failing, Suffices, BlocksOf;
    var rest, rest';
    result, state, rest := DecodeStream(f, customDict, prelude, offers);
    result', state', rest' := DecodeStream(f, customDict, prelude, offers');
    Comparable(state.st.hist, state'.st.hist, OutcomeOf(f, customDict, prelude, Joined(offers)).hist);
  }

  lemma Comparable(a: seq<Byte>, b: seq<Byte>, whole: seq<Byte>)
    requires a <= whole && b <= whole
    ensures a <= b || b <= a
  {
    assert a == whole[..|a|] && b == whole[..|b|];
  }

  /** What the machine tells of the outcome. */
  ghost predicate MachineTells(result: Code, state: Snapshot, overused: bool, all: bool, spec: Outcome) {
    && state.st.hist <= spec.hist && (result == Success ==> !overused && spec == Outcome(state.st.hist, Accept))
    && (result == Failure ==> overused || spec.verdict == Reject || state.stage.Malformed?)
    && (all && !overused ==>
          && (result == Success <==> spec.verdict == Accept)
          && (result == Failure <==> spec.verdict == Reject || state.stage.Malformed?)
          && (state.stage.Malformed? ==> spec.verdict == Incomplete)
          && (spec.verdict != Reject ==> state.st.hist == spec.hist))
  }

  /** The same outcome, if incomplete with more output. */
  ghost predicate Extends(meant: Outcome, spec: Outcome) {
    spec.verdict == meant.verdict && meant.hist <= spec.hist && (!spec.verdict.Incomplete? ==> spec == meant)
  }

  /** What the decoder tells of the outcome. */
  ghost predicate DecoderTells(code: Code, dict: seq<Byte>, out: seq<Byte>, ample: bool, meant: Outcome) {
    && dict <= meant.hist && out <= meant.hist[|dict|..]
    && (code == Success ==> meant.verdict == Accept && out == meant.hist[|dict|..])
    && (code == Failure ==> meant.verdict == Reject)
    && (ample ==>
          && (code == Success <==> meant.verdict == Accept) && (code == Failure <==> meant.verdict == Reject)
          && (code != Failure ==> out == meant.hist[|dict|..]))
  }

  /** What the one tells of the other. */
  ghost predicate Agree(result: Code, state: Snapshot, overused: bool, all: bool, code: Code, dict: seq<Byte>,
                        out: seq<Byte>, ample: bool, spec: Outcome) {
    && (dict + out <= state.st.hist || state.st.hist <= dict + out)
    && (result == Success ==> code != Failure && dict + out <= state.st.hist)
    && (result == Success && code == Success ==> dict + out == state.st.hist)
    && (result == Failure && code == Success ==> state.stage.Malformed? || overused)
    && (all && !overused && ample ==>
          && (result == Success <==> code == Success)
          && (result == Failure && !state.stage.Malformed? <==> code == Failure)
          && (code != Failure ==> dict + out <= state.st.hist == spec.hist))
  }

  /** The machine, in short. */
  method DecodeBits(f: Format, customDict: seq<Byte>, prelude: nat, offers: seq<Offer>)
    returns (result: Code, state: Snapshot)
    requires f.Valid() && offers != []
    ensures var stream := Joined(offers);
            && ValidBlocks(BlocksOf(f, customDict, prelude, stream))
            && MachineTells(result, state, Overused(f, customDict, prelude, stream),
                            Suffices(f, customDict, prelude, stream, offers[|offers| - 1].grants),
                            OutcomeOf(f, customDict, prelude, stream))
  {
    hide Format.Valid, Joined, BlocksOf, Suffices, LastOf, Overused, Failing, OutcomeOf, ValidBlocks;
    var rest;
    result, state, rest := DecodeStream(f, customDict, prelude, offers);
  }

  /** The decoder over meta-blocks, in short. */
  method DecodeBlocks(env: Env, customDict: seq<Byte>, canny: bool, blocks: seq<Block>, calls: seq<D.Call>,
                      ghost meant: Outcome)
    returns (code: Code, out: seq<Byte>, last: seq<Byte>)
    requires env.Valid() && ValidBlocks(blocks) && env.Full() >= GAP && WellFormed([4, 11, 15, 16])
    requires meant == CommandSpec.Run(env, blocks, Reachable(customDict, env.Full()), [4, 11, 15, 16])
    ensures var dict := Reachable(customDict, env.Full());
            && |last| <= |out|
            && DecoderTells(code, dict, out, D.Ample(blocks, calls, |out| - |last|, |meant.hist| - |dict|), meant)
  {
    hide Env.Valid, CommandSpec.Run, Reachable, D.Ample, Announced, ValidBlocks, WellFormed;
    code, out, last := D.Session(env, customDict, canny, blocks, calls);
  }

  /**
   * The machine over bits and the decoder with its ring agree: with however many calls, with or without a shrunken
   * ring, the decoder hands out the bytes that the machine produces from the stream; and with all of it taken and
   * enough room, both accept the same streams and reject the same, but for bits that make no sense.
   */
  method DecodeBoth(f: Format, customDict: seq<Byte>, prelude: nat, offers: seq<Offer>, canny: bool, calls: seq<D.Call>)
    returns (result: Code, state: Snapshot, code: Code, out: seq<Byte>, last: seq<Byte>)
    requires f.Valid() && offers != []
    ensures f.env.Full() >= GAP && |last| <= |out|
    ensures var stream := Joined(offers);
            var dict := Reachable(customDict, f.env.Full());
            && ValidBlocks(BlocksOf(f, customDict, prelude, stream))
            && var spec := OutcomeOf(f, customDict, prelude, stream);
               var all := Suffices(f, customDict, prelude, stream, offers[|offers| - 1].grants);
               var ample := D.Ample(BlocksOf(f, customDict, prelude, stream), calls, |out| - |last|,
                                    |spec.hist| - |dict|);
               Agree(result, state, Overused(f, customDict, prelude, stream), all, code, dict, out, ample, spec)
  {
    hide Good, Format.Valid, CommandSpec.Run, Streaming.Run, Stops, ByteBits, Reachable, Joined, BlocksOf, Suffices,
         D.Ample, Announced, LastOf, Overused, Failing, OutcomeOf, Meant, ValidBlocks, WellFormed, Fresh, Agree,
         DecoderTells, MachineTells, Extends;
    WindowHoldsGap(f);
    FirstDistances();
    result, state := DecodeBits(f, customDict, prelude, offers);
    var stream := Joined(offers);
    ghost var dict := Reachable(customDict, f.env.Full());
    var blocks := BlocksOf(f, customDict, prelude, stream);
    ghost var meant, spec := Meant(f, customDict, prelude, stream), OutcomeOf(f, customDict, prelude, stream);
    ghost var all := Suffices(f, customDict, prelude, stream, offers[|offers| - 1].grants);
    MeantParts(f, customDict, prelude, stream);
    code, out, last := DecodeBlocks(f.env, customDict, canny, blocks, calls, meant);
    ghost var ample := D.Ample(blocks, calls, |out| - |last|, |spec.hist| - |dict|);
    LessTold(code, dict, out, blocks, calls, |out| - |last|, meant, spec);
    BothAgree(result, state, Overused(f, customDict, prelude, stream), all, code, dict, out, ample, meant, spec);
  }

  lemma BothAgree(result: Code, state: Snapshot, overused: bool, all: bool, code: Code, dict: seq<Byte>,
                  out: seq<Byte>, ample: bool, meant: Outcome, spec: Outcome)
    requires Extends(meant, spec)
    requires MachineTells(result, state, overused, all, spec) && DecoderTells(code, dict, out, ample, meant)
    ensures Agree(result, state, overused, all, code, dict, out, ample, spec)
  {
    Prefixes(dict, out, meant.hist);
    Comparable(dict + out, state.st.hist, spec.hist);
  }

  lemma MeantParts(f: Format, customDict: seq<Byte>, prelude: nat, stream: seq<Byte>)
    requires f.Valid() && ValidBlocks(BlocksOf(f, customDict, prelude, stream)) && f.env.Full() >= GAP
    requires WellFormed([4, 11, 15, 16])
    ensures var meant, spec := Meant(f, customDict, prelude, stream), OutcomeOf(f, customDict, prelude, stream);
            && meant == CommandSpec.Run(f.env, BlocksOf(f, customDict, prelude, stream),
                                        Reachable(customDict, f.env.Full()), [4, 11, 15, 16])
            && Extends(meant, spec)
  {
    hide Format.Valid, CommandSpec.Run, ByteBits, Reachable, BlocksOf, Scripted, ValidBlocks, WellFormed, Fresh;
  }

  lemma LessTold(code: Code, dict: seq<Byte>, out: seq<Byte>, blocks: seq<Block>, calls: seq<D.Call>, before: int,
                 meant: Outcome, spec: Outcome)
    requires Extends(meant, spec)
    requires DecoderTells(code, dict, out, D.Ample(blocks, calls, before, |meant.hist| - |dict|), meant)
    ensures DecoderTells(code, dict, out, D.Ample(blocks, calls, before, |spec.hist| - |dict|), meant)
  {
  }

  lemma Prefixes(dict: seq<Byte>, out: seq<Byte>, hist: seq<Byte>)
    requires dict <= hist && out <= hist[|dict|..]
    ensures dict + out <= hist && (out == hist[|dict|..] ==> dict + out == hist)
  {
  }
}
