/**
 * Where in the stream the machine over bits reads: it keeps count of the bits, goes to the next byte where the format
 * says so, and finds there nothing but zeros before it; stored bytes are bytes of the stream.
 */
module BitPositions {
  import opened Bytes
  import opened Results
  import opened BitReader
  import opened SymbolDecoding
  import opened Transform
  import opened SlidingWindow
  import opened Distances
  import opened CommandSpec
  import opened BitDecoder
  import opened BitMeaning
  import opened EndToEnd
  import Streaming
  import Headers = MetablockHeaders

  /** Where a run stands after so many steps, reads and writes of the ring alike, and what is left of the bits. */
  ghost function After(f: Format, s: Snapshot, b: Bits, steps: nat): (r: (Snapshot, Bits))
    requires f.Valid()
  {
    if steps == 0 then (s, b)
    else
      var (t, c) := After(f, s, b, steps - 1);
      OneStep(f, t, c)
  }

  ghost function OneStep(f: Format, t: Snapshot, c: Bits): (r: (Snapshot, Bits))
    requires f.Valid()
  {
    hide Next, Live, Format.Valid, StatusOf, Resume, Rank;
    Progress(f, t, c);
    if StatusOf(f, t).Blocked? then (Resume(f, t), c)
    else if Live(f, t) && Next(f, t, c).Some? then (Next(f, t, c).value.1, c[Next(f, t, c).value.0..])
    else (t, c)
  }

  /** A stored or skipped byte is a whole byte, and the stream ends with a whole byte. */
  predicate Aligned(s: Snapshot) {
    s.stage.InStored? || s.stage.StoredFull? || s.stage.InSkip? || s.stage.Delivering? || s.stage.Ended? ==> s.bit == 0
  }

  /** What is left is the end of the stream, and the place in the current byte is what the bits taken leave over. */
  predicate Counted(all: Bits, b: Bits, bit: nat) {
    |b| <= |all| && b == all[|all| - |b|..] && bit == (|all| - |b|) % 8
  }

  lemma CountedOn(all: Bits, b: Bits, bit: nat, n: nat)
    requires Counted(all, b, bit) && n <= |b|
    ensures Counted(all, b[n..], (bit + n) % 8)
  {
    assert all[|all| - |b|..][n..] == all[|all| - (|b| - n)..];
  }

  ghost predicate InStep(f: Format, all: Bits, s: Snapshot, b: Bits) {
    Good(f, s) && Counted(all, b, s.bit) && Aligned(s)
  }

  predicate ByBytes(stage: Stage) {
    stage.InPadding? || stage.InSkip? || stage.InStored? || stage.Closing?
  }

  lemma ActAligned(f: Format, s: Snapshot, item: Item, n: nat)
    requires f.Valid() && Live(f, s) && Fits(s, item) && Aligned(s) && (ByBytes(s.stage) ==> n == Wanted(s))
    ensures Aligned(Act(f, s, item).(bit := (s.bit + n) % 8))
  {
    hide Format.Valid, Good, Act, Fits, Live, Wanted, Groups.Valid;
    if ByBytes(s.stage) {
      BytesAligned(f, s, item);
    } else {
      OthersElsewhere(f, s, item);
    }
  }

  lemma BytesAligned(f: Format, s: Snapshot, item: Item)
    requires f.Valid() && Live(f, s) && Fits(s, item) && Aligned(s) && ByBytes(s.stage)
    ensures Aligned(Act(f, s, item).(bit := (s.bit + Wanted(s)) % 8))
  {
    hide Format.Valid, Good, Pow2, Groups.Valid;
  }

  lemma OthersElsewhere(f: Format, s: Snapshot, item: Item)
    requires f.Valid() && Live(f, s) && Fits(s, item) && !ByBytes(s.stage)
    ensures var next := Act(f, s, item).stage;
            !next.InStored? && !next.StoredFull? && !next.InSkip? && !next.Delivering? && !next.Ended?
  {
    hide Format.Valid, Good, TakeDistance, CopyNaive, Pow2, Headers.After, Headers.HeaderOf, Groups.Valid;
    if s.stage.InDistance? && item.Code? {
      TakeDistanceKeeps(f, s, item.distance);
    }
  }

  lemma PlainBitsTaken(f: Format, s: Snapshot, b: Bits)
    requires f.Valid() && Live(f, s) && Read(f, s, b).Some?
    ensures ByBytes(s.stage) ==> Read(f, s, b).value.0 == Wanted(s)
  {
    hide Format.Valid, Good, Wanted;
  }

  lemma StepInStep(f: Format, all: Bits, s: Snapshot, b: Bits)
    requires f.Valid() && InStep(f, all, s, b)
    ensures var (t, c) := OneStep(f, s, b); InStep(f, all, t, c)
  {
    hide Next, Format.Valid, Good, Aligned, StatusOf, Live, Resume, Counted, Groups.Valid;
    Progress(f, s, b);
    if StatusOf(f, s).Blocked? {
      ResumeGood(f, s);
      ResumeAligned(f, s);
    } else if Live(f, s) && Next(f, s, b).Some? {
      var (n, next) := Next(f, s, b).value;
      NextGood(f, s, b);
      ReadAligned(f, s, b);
      CountedOn(all, b, s.bit, n);
    }
  }

  lemma ReadAligned(f: Format, s: Snapshot, b: Bits)
    requires f.Valid() && Live(f, s) && Aligned(s) && Next(f, s, b).Some?
    ensures var (n, next) := Next(f, s, b).value; Aligned(next) && next.bit == (s.bit + n) % 8
  {
    hide Next, Format.Valid, Good, Read, Act, Fits, Aligned, Live, Wanted, ByBytes, Groups.Valid;
    NextParts(f, s, b);
    var (n, item) := Read(f, s, b).value;
    PlainBitsTaken(f, s, b);
    ActAligned(f, s, item, n);
  }

  lemma ResumeAligned(f: Format, s: Snapshot)
    requires StatusOf(f, s).Blocked? && Aligned(s)
    ensures Aligned(Resume(f, s)) && Resume(f, s).bit == s.bit
  {
    hide Good;
  }

  lemma CountedFirst(all: Bits)
    ensures Counted(all, all, 0)
  {
  }

  lemma FreshBit(f: Format, customDict: seq<Byte>, prelude: nat)
    requires f.Valid()
    ensures Fresh(f, customDict, prelude).bit == 0 && Aligned(Fresh(f, customDict, prelude))
  {
    hide Format.Valid, Reachable, NoGroups;
  }

  /**
   * However far a run has come: what is left is the end of the stream, the place in the current byte is what the bits
   * taken leave over, and stored bytes, skipped bytes and the end of the stream are at the beginning of a byte.
   */
  lemma {:induction false} RunInStep(f: Format, customDict: seq<Byte>, prelude: nat, stream: seq<Byte>, steps: nat)
    requires f.Valid()
    ensures var (t, c) := After(f, Fresh(f, customDict, prelude), ByteBits(stream), steps);
            InStep(f, ByteBits(stream), t, c)
    decreases steps
  {
    hide Next, Format.Valid, Good, Live, OneStep, ByteBits, Fresh, Aligned, Counted;
    if steps == 0 {
      FreshIsGood(f, customDict, prelude);
      FreshBit(f, customDict, prelude);
      CountedFirst(ByteBits(stream));
    } else {
      RunInStep(f, customDict, prelude, stream, steps - 1);
      var (t, c) := After(f, Fresh(f, customDict, prelude), ByteBits(stream), steps - 1);
      StepInStep(f, ByteBits(stream), t, c);
    }
  }

  // ---------- The ring ----------

  /** What has been produced, dictionary included, before the current round of the ring. */
  function BeforeRound(s: Snapshot): (n: int) {
    |s.st.hist| - s.pos
  }

  lemma ActFillsRing(f: Format, s: Snapshot, item: Item)
    requires f.Valid() && Live(f, s) && Fits(s, item)
    ensures BeforeRound(Act(f, s, item)) == BeforeRound(s)
  {
    hide Format.Valid, Good, Groups.Valid, TakeDistance, CopyNaive, Pow2, Headers.After, Headers.HeaderOf,
         Turn.Switched, Turn.Used, Wanted;
    if s.stage.InDistance? && item.Code? {
      DistanceFillsRing(f, s, item.distance);
    }
  }

  lemma DistanceFillsRing(f: Format, s: Snapshot, code: DistanceCode)
    requires f.Valid() && Live(f, s) && code.Valid()
    ensures BeforeRound(TakeDistance(f, s, code)) == BeforeRound(s)
  {
    hide Format.Valid, Groups.Valid, Reference, Transformed, DistanceCode.Resolve, Push, Turn.Used, PosGood, TurnsGood,
         PrefixGood;
  }

  lemma ResumeEmptiesRing(f: Format, s: Snapshot)
    requires StatusOf(f, s).Blocked?
    ensures BeforeRound(Resume(f, s)) == BeforeRound(s) + if Stopped(s.stage) then f.env.Full() else 0
  {
    hide Groups.Valid, RecentGood, TurnsGood, PrefixGood;
  }

  /** The current round began after whole rounds: the ring is written exactly each time it is full. */
  ghost predicate InRound(f: Format, start: nat, s: Snapshot) {
    exists rounds: nat :: BeforeRound(s) == start + Mul(rounds, f.env.Full())
  }

  lemma NextRound(f: Format, start: nat, s: Snapshot, t: Snapshot)
    requires InRound(f, start, s)
    requires BeforeRound(t) == BeforeRound(s) || BeforeRound(t) == BeforeRound(s) + f.env.Full()
    ensures InRound(f, start, t)
  {
    hide BeforeRound, Env.Full;
    var rounds: nat :| BeforeRound(s) == start + Mul(rounds, f.env.Full());
    assert Mul(rounds + 1, f.env.Full()) == Mul(rounds, f.env.Full()) + f.env.Full();
  }

  lemma StepInRound(f: Format, start: nat, s: Snapshot, b: Bits)
    requires f.Valid() && Good(f, s) && InRound(f, start, s)
    ensures InRound(f, start, OneStep(f, s, b).0)
  {
    hide Next, Format.Valid, Good, StatusOf, Live, Resume, InRound, BeforeRound, Groups.Valid, Read, Act, Fits, Stepped;
    Progress(f, s, b);
    var t := OneStep(f, s, b).0;
    if StatusOf(f, s).Blocked? {
      ResumeEmptiesRing(f, s);
      NextRound(f, start, s, t);
    } else if Live(f, s) && Next(f, s, b).Some? {
      NextParts(f, s, b);
      var (n, item) := Read(f, s, b).value;
      ActFillsRing(f, s, item);
      BitOnly(f, s, n, item);
      NextRound(f, start, s, t);
    }
  }

  lemma BitOnly(f: Format, s: Snapshot, n: nat, item: Item)
    requires f.Valid() && Live(f, s) && Fits(s, item)
    ensures BeforeRound(Stepped(f, s, n, item)) == BeforeRound(Act(f, s, item))
  {
    hide Format.Valid, Live, Fits, Act, Groups.Valid;
  }

  /** However far a run has come. */
  lemma {:induction false} RunInRound(f: Format, customDict: seq<Byte>, prelude: nat, stream: seq<Byte>, steps: nat)
    requires f.Valid() && f.env.Full() >= GAP
    ensures var start := |Reachable(customDict, f.env.Full())|;
            InRound(f, start, After(f, Fresh(f, customDict, prelude), ByteBits(stream), steps).0)
    decreases steps
  {
    hide Next, Format.Valid, Good, Live, OneStep, ByteBits, Fresh, InRound, Reachable, InStep, Groups.Valid;
    if steps == 0 {
      FreshInRound(f, customDict, prelude);
    } else {
      RunInRound(f, customDict, prelude, stream, steps - 1);
      RunInStep(f, customDict, prelude, stream, steps - 1);
      var (t, c) := After(f, Fresh(f, customDict, prelude), ByteBits(stream), steps - 1);
      StepIsGood(f, ByteBits(stream), t, c);
      StepInRound(f, |Reachable(customDict, f.env.Full())|, t, c);
    }
  }

  lemma StepIsGood(f: Format, all: Bits, s: Snapshot, b: Bits)
    requires f.Valid() && InStep(f, all, s, b)
    ensures Good(f, s)
  {
  }

  lemma FreshInRound(f: Format, customDict: seq<Byte>, prelude: nat)
    requires f.Valid() && f.env.Full() >= GAP
    ensures InRound(f, |Reachable(customDict, f.env.Full())|, Fresh(f, customDict, prelude))
  {
    hide Format.Valid, Reachable, NoGroups, Groups.Valid, Env.Full;
    assert Mul(0, f.env.Full()) == 0;
  }

  // ---------- Runs ----------

  /** Where reading all of b ends. */
  ghost function RunOf(f: Format, s: Snapshot, b: Bits): (r: (Snapshot, Bits))
    requires f.Valid()
  {
    hide Format.Valid, BitMachine, Streaming.Lawful;
    BitMachineIsLawful(f, true);
    Streaming.Run(BitMachine(f, true), s, b)
  }

  lemma ItemIsTaken(f: Format, s: Snapshot, b: Bits, n: nat, item: Item)
    requires f.Valid() && Live(f, s) && !Spent(s) && Read(f, s, b) == Some((n, item))
    ensures Fits(s, item) && n <= |b| && Good(f, Stepped(f, s, n, item))
    ensures RunOf(f, s, b) == RunOf(f, Stepped(f, s, n, item), b[n..])
  {
    hide Format.Valid, BitMachine, Streaming.Lawful, Streaming.Run, Live, Next, Read, Stepped, Good, Spent, StatusOf,
         Fits;
    NextParts(f, s, b);
    NextGood(f, s, b);
    RunUnfolds(f, s, b, true);
    Progress(f, s, b);
  }

  lemma RunResumes(f: Format, s: Snapshot, b: Bits)
    requires f.Valid() && Good(f, s) && Stopped(s.stage) && s.st.remaining >= 0
    ensures Good(f, Resume(f, s)) && RunOf(f, s, b) == RunOf(f, Resume(f, s), b)
  {
    hide Format.Valid, BitMachine, Streaming.Lawful, Streaming.Run, Good, Resume, Next;
    ResumeGood(f, s);
    RunUnfolds(f, s, b, true);
  }

  // ---------- Padding ----------

  predicate AllZero(b: Bits) {
    forall k | 0 <= k < |b| :: !b[k]
  }

  lemma {:induction false} ZeroValue(b: Bits)
    ensures Value(b) == 0 <==> AllZero(b)
  {
    if b != [] {
      ZeroValue(b[1..]);
      assert b == [b[0]] + b[1..];
    }
  }

  predicate ReadsNumber(stage: Stage) {
    Reads(stage) && !stage.InTrees? && !stage.InCommand? && !stage.InLiterals? && !stage.InDistance?
  }

  /** A number is read, and done with it what is to be done. */
  lemma NumberRead(f: Format, s: Snapshot, b: Bits, n: nat, v: nat)
    requires f.Valid() && Live(f, s) && ReadsNumber(s.stage) && n == Wanted(s) <= |b| && v == Value(b[..n])
    ensures Fits(s, Number(v)) && Next(f, s, b) == Some((n, Stepped(f, s, n, Number(v))))
    ensures ItemAt(f, s, b) == Number(v)
  {
    hide Format.Valid, Good, Value, Pow2, Wanted, Act, Stepped, Groups.Valid;
    ValueBound(b[..n]);
    NextParts(f, s, b);
  }

  lemma PaddingIsLive(f: Format, s: Snapshot)
    requires Good(f, s) && (s.stage.InPadding? || s.stage.Closing?)
    ensures Live(f, s)
  {
  }

  /** What is left over of the current byte. */
  function Leftover(b: Bits): (n: nat)
    ensures n <= |b| && n < 8
  {
    |b| % 8
  }

  /** In front of whole bytes, what is left over of the current one is skipped, and has to be zeros. */
  lemma PaddingSkipped(f: Format, all: Bits, s: Snapshot, b: Bits, n: nat)
    requires f.Valid() && InStep(f, all, s, b) && |all| % 8 == 0 && s.stage.InPadding? && n == Leftover(b)
    ensures Live(f, s) && Next(f, s, b).Some? && Next(f, s, b).value.0 == n
    ensures var next := Next(f, s, b).value.1;
            && next.bit == 0 && next.st == s.st && next.last == s.last
            && next.stage == if !AllZero(b[..n]) then Malformed else if s.stage.stored then InStored
                             else if s.st.remaining == 0 then Closing else InSkip
  {
    hide Format.Valid, Good, Value, Read, Next, Pow2, Groups.Valid;
    PaddingIsLive(f, s);
    NumberRead(f, s, b, n, Value(b[..n]));
    ZeroValue(b[..n]);
  }

  /** At the end of the last meta-block likewise; any other goes on with the next bit. */
  lemma EndSkipped(f: Format, all: Bits, s: Snapshot, b: Bits, n: nat)
    requires f.Valid() && InStep(f, all, s, b) && |all| % 8 == 0 && s.stage.Closing?
    requires n == if s.last && s.st.remaining >= 0 then Leftover(b) else 0
    ensures Live(f, s) && Next(f, s, b).Some? && Next(f, s, b).value.0 == n
    ensures var next := Next(f, s, b).value.1;
            && next.st == s.st
            && next.stage == if s.st.remaining < 0 then Overrun else if !s.last then InHeader(FreshHeader())
                             else if AllZero(b[..n]) then Delivering else Malformed
  {
    hide Format.Valid, Good, Value, Read, Next, Pow2, Groups.Valid;
    PaddingIsLive(f, s);
    NumberRead(f, s, b, n, Value(b[..n]));
    ZeroValue(b[..n]);
  }

  // ---------- Stored bytes ----------

  /** One more stored byte, past a write of the ring if it is full. */
  ghost function AfterByte(f: Format, s: Snapshot, x: Byte): (t: Snapshot)
    requires f.Valid() && s.stage.InStored?
  {
    hide Format.Valid;
    var next := TakeStored(f, s, x).(bit := s.bit % 8);
    if next.stage.StoredFull? then Resume(f, next) else next
  }

  lemma AfterByteParts(f: Format, s: Snapshot, x: Byte)
    requires f.Valid() && s.stage.InStored? && s.st.remaining > 0
    ensures var t := AfterByte(f, s, x);
            && t.stage == (if s.st.remaining == 1 then Closing else InStored) && t.last == s.last && t.bit == s.bit % 8
            && t.st == s.st.(hist := s.st.hist + [x], remaining := s.st.remaining - 1)
  {
    hide Format.Valid;
  }

  lemma FirstByteRead(bytes: seq<Byte>)
    requires bytes != []
    ensures var b := ByteBits(bytes);
            |b| >= 8 && Value(b[..8]) == bytes[0] && b[8..] == ByteBits(bytes[1..])
  {
    hide Value, BitsOf;
    EightBits();
    ValueOfBits(bytes[0], 8);
    FirstByte(bytes);
    assert ByteBits(bytes)[..8] == OneByte(bytes[0]);
  }

  lemma StoredIsLive(f: Format, s: Snapshot)
    requires Good(f, s) && s.stage.InStored?
    ensures Live(f, s) && StatusOf(f, s).Reading? && s.st.remaining > 0
  {
  }

  lemma StoredRead(f: Format, s: Snapshot, bytes: seq<Byte>)
    requires f.Valid() && Good(f, s) && s.stage.InStored? && bytes != []
    ensures Live(f, s) && Next(f, s, ByteBits(bytes)).Some?
    ensures ItemAt(f, s, ByteBits(bytes)) == Number(bytes[0])
    ensures var (n, next) := Next(f, s, ByteBits(bytes)).value;
            n == 8 && next == TakeStored(f, s, bytes[0]).(bit := s.bit % 8) && Good(f, next)
  {
    hide Format.Valid, Good, Value, ByteBits, Pow2, Next, TakeStored;
    FirstByteRead(bytes);
    StoredIsLive(f, s);
    NumberRead(f, s, ByteBits(bytes), 8, bytes[0]);
    NextGood(f, s, ByteBits(bytes));
  }

  lemma StoredGoesOn(f: Format, s: Snapshot, bytes: seq<Byte>)
    requires f.Valid() && Good(f, s) && s.stage.InStored? && bytes != []
    ensures var t := AfterByte(f, s, bytes[0]);
            && Good(f, t)
            && Scripted(f, s, ByteBits(bytes)).data == [bytes[0]] + Scripted(f, t, ByteBits(bytes[1..])).data
  {
    hide Format.Valid, Good, ByteBits, Next, TakeStored, Value, Rank, Groups.Valid;
    StoredRead(f, s, bytes);
    StoredIsLive(f, s);
    FirstByteRead(bytes);
    var next := Next(f, s, ByteBits(bytes)).value.1;
    StoredByteStage(f, s, bytes[0]);
    if next.stage.StoredFull? {
      FullIsBlocked(f, next);
      ResumeGood(f, next);
    }
  }

  lemma StoredByteStage(f: Format, s: Snapshot, x: Byte)
    requires s.stage.InStored? && s.st.remaining > 0
    ensures !TakeStored(f, s, x).stage.Malformed? && TakeStored(f, s, x).st.remaining >= 0
  {
  }

  lemma FullIsBlocked(f: Format, s: Snapshot)
    requires Good(f, s) && s.stage.StoredFull? && s.st.remaining >= 0
    ensures StatusOf(f, s).Blocked?
  {
  }

  lemma NothingStored(f: Format, s: Snapshot, b: Bits)
    requires f.Valid() && Good(f, s) && (s.stage.Closing? || (s.stage.InStored? && b == []))
    ensures Scripted(f, s, b).data == []
  {
    hide Format.Valid, Good, Next, Meaning, Sense, Scripted, Tells, Streaming.Run, Streaming.Lawful, BitMachine;
    RunMeans(f, s, b);
    if s.stage.InStored? {
      NoByteRead(f, s);
    }
  }

  lemma NoByteRead(f: Format, s: Snapshot)
    requires f.Valid() && Good(f, s) && s.stage.InStored?
    ensures Scripted(f, s, []) == AtStop(s)
  {
    hide Format.Valid, Good, Next;
    StoredIsLive(f, s);
    NextParts(f, s, []);
  }

  /** Stored bytes, from the beginning of a byte: what the script has is what the stream has there. */
  lemma {:induction false} StoredAreBytes(f: Format, s: Snapshot, bytes: seq<Byte>)
    requires f.Valid() && Good(f, s) && s.stage.InStored?
    ensures Scripted(f, s, ByteBits(bytes)).data == bytes[..Min(s.st.remaining, |bytes|)]
    decreases |bytes|
  {
    hide Format.Valid, Good, Next, Live, Scripted, ByteBits, AfterByte, StatusOf, Groups.Valid;
    StoredIsLive(f, s);
    if bytes == [] {
      NothingStored(f, s, []);
      assert ByteBits(bytes) == [];
    } else {
      var t := AfterByte(f, s, bytes[0]);
      AfterByteParts(f, s, bytes[0]);
      StoredGoesOn(f, s, bytes);
      if t.stage.InStored? {
        StoredAreBytes(f, t, bytes[1..]);
      } else {
        NothingStored(f, t, ByteBits(bytes[1..]));
      }
    }
  }

  /** A byte at a time. */
  lemma {:induction false} BytesFrom(stream: seq<Byte>, k: nat)
    requires k <= |stream|
    ensures ByteBits(stream)[8 * k..] == ByteBits(stream[k..])
  {
    hide OneByte;
    assert stream == stream[..k] + stream[k..];
    ByteBitsConcat(stream[..k], stream[k..]);
  }

  /** What is left of the stream after the current byte. */
  function WholeBytes(stream: seq<Byte>, c: Bits): (rest: seq<Byte>) {
    if |c| / 8 <= |stream| then stream[|stream| - |c| / 8..] else []
  }

  /**
   * A stored meta-block of a stream holds the bytes of the stream that begin where the current byte ends, as many as
   * have been announced and are there.
   */
  lemma StoredIsSlice(f: Format, customDict: seq<Byte>, prelude: nat, stream: seq<Byte>, steps: nat)
    requires f.Valid()
    ensures var (t, c) := After(f, Fresh(f, customDict, prelude), ByteBits(stream), steps);
            var rest := WholeBytes(stream, c);
            t.stage == InPadding(true) && AllZero(c[..Leftover(c)]) ==>
              Scripted(f, t, c).data == rest[..Max(0, Min(t.st.remaining, |rest|))]
  {
    hide Format.Valid, Good, Next, Live, Scripted, ByteBits, StatusOf, After, Fresh, AllZero, Aligned, Groups.Valid;
    RunInStep(f, customDict, prelude, stream, steps);
    var (t, c) := After(f, Fresh(f, customDict, prelude), ByteBits(stream), steps);
    if t.stage == InPadding(true) && AllZero(c[..Leftover(c)]) {
      WholeBytesLeft(stream, c);
      PaddingGoesOn(f, ByteBits(stream), t, c);
      StoredIsLive(f, Next(f, t, c).value.1);
      StoredAreBytes(f, Next(f, t, c).value.1, WholeBytes(stream, c));
    }
  }

  lemma WholeBytesLeft(stream: seq<Byte>, c: Bits)
    requires |c| <= 8 * |stream| && c == ByteBits(stream)[8 * |stream| - |c|..]
    ensures c[Leftover(c)..] == ByteBits(WholeBytes(stream, c))
  {
    hide ByteBits;
    var k := |stream| - |c| / 8;
    BytesFrom(stream, k);
    assert ByteBits(stream)[8 * |stream| - |c|..][Leftover(c)..] == ByteBits(stream)[8 * k..];
  }

  lemma PaddingGoesOn(f: Format, all: Bits, s: Snapshot, b: Bits)
    requires f.Valid() && InStep(f, all, s, b) && |all| % 8 == 0
    requires s.stage == InPadding(true) && AllZero(b[..Leftover(b)])
    ensures Live(f, s) && Next(f, s, b).Some?
    ensures var next := Next(f, s, b).value.1;
            && Good(f, next) && next.stage.InStored? && next.st == s.st
            && Scripted(f, s, b).data == Scripted(f, next, b[Leftover(b)..]).data
  {
    hide Format.Valid, Good, Next, Rank, AllZero, Aligned;
    PaddingSkipped(f, all, s, b, Leftover(b));
    NextGood(f, s, b);
  }

  // ---------- Contexts of literals ----------

  /** The byte before the last n - 1, or 0 if there is none. */
  function FromEnd(hist: seq<Byte>, n: nat): (x: Byte)
    requires n > 0
  {
    if n > |hist| then 0 else hist[|hist| - n]
  }

  /** The half of the context table for the current literals that the n-th byte from the end is looked up in. */
  predicate HalfIsConstant(f: Format, s: Snapshot, n: nat)
    requires f.Valid() && Live(f, s) && s.stage.InLiterals?
  {
    hide SymbolsBelow, RepresentsCode;
    var lookup := f.lookup[s.trees.modes[s.literalTurn.last]];
    |lookup| == 512 &&
    if n == 1 then forall i, j | 0 <= i < j < 256 :: lookup[i] == lookup[j]
    else forall i, j | 256 <= i < j < 512 :: lookup[i] == lookup[j]
  }

  /** Then only the other byte decides about the tree: the last one in the first half, the one before in the second. */
  lemma OneByteChooses(f: Format, s: Snapshot, hist: seq<Byte>)
    requires f.Valid() && Live(f, s) && s.stage.InLiterals? && Live(f, s.(st := s.st.(hist := hist)))
    ensures HalfIsConstant(f, s, 2) && FromEnd(hist, 1) == FromEnd(s.st.hist, 1) ==>
              LiteralTree(f, s.(st := s.st.(hist := hist))) == LiteralTree(f, s)
    ensures HalfIsConstant(f, s, 1) && FromEnd(hist, 2) == FromEnd(s.st.hist, 2) ==>
              LiteralTree(f, s.(st := s.st.(hist := hist))) == LiteralTree(f, s)
  {
    hide Good, Groups.Valid, SymbolsBelow, RepresentsCode, BitOr;
  }

  lemma SameTreeReads(f: Format, s: Snapshot, hist: seq<Byte>, b: Bits)
    requires f.Valid() && Live(f, s) && s.stage.InLiterals? && Live(f, s.(st := s.st.(hist := hist)))
    requires LiteralTree(f, s.(st := s.st.(hist := hist))) == LiteralTree(f, s)
    ensures Read(f, s.(st := s.st.(hist := hist)), b) == Read(f, s, b)
  {
    hide Good, Groups.Valid, SymbolsBelow, RepresentsCode, Decode, ReadSwitch, LiteralTree, Format.Valid;
  }

  /**
   * Where one half of the table is constant, what is read as a literal depends on the history through the other byte
   * only: the last one is looked up in the first half, the one before it in the second.
   */
  lemma OneByteDecides(f: Format, s: Snapshot, hist: seq<Byte>, b: Bits)
    requires f.Valid() && Live(f, s) && s.stage.InLiterals? && Live(f, s.(st := s.st.(hist := hist)))
    ensures HalfIsConstant(f, s, 2) && FromEnd(hist, 1) == FromEnd(s.st.hist, 1) ==>
              Read(f, s.(st := s.st.(hist := hist)), b) == Read(f, s, b)
    ensures HalfIsConstant(f, s, 1) && FromEnd(hist, 2) == FromEnd(s.st.hist, 2) ==>
              Read(f, s.(st := s.st.(hist := hist)), b) == Read(f, s, b)
  {
    hide Good, Groups.Valid, SymbolsBelow, RepresentsCode, Decode, ReadSwitch, LiteralTree, Format.Valid, Read, Live,
         HalfIsConstant;
    OneByteChooses(f, s, hist);
    if LiteralTree(f, s.(st := s.st.(hist := hist))) == LiteralTree(f, s) {
      SameTreeReads(f, s, hist, b);
    }
  }
}
