/**
 * The streaming driver (BrotliDecompressStream): a stash of 8 bytes, reads that either happen completely or
 * not at all, and a bit reader that must hand unused bytes back. What is decoded does not depend on where the
 * input was cut, nor on how much room for output each call had.
 */
module Streaming {
  import opened Bytes
  import opened Results
  import opened BitReader
  import opened SymbolDecoding

  const STASH := 8
  const LONGEST_READ := 63  // command prefix and its two lots of extra bits: 15 + 24 + 24
  const PEEK := 8           // a read may look at this many bits and take fewer

  datatype Status = Reading | Blocked | Finished | Failed

  /** The decoder as its driver sees it: a state, and what the next indivisible read does to it. */
  datatype Machine<!S> = Machine(
    status: S -> Status,
    decode: (S, Bits) -> Option<(nat, S)>,  // how many bits the next read takes, and the state after it
    resume: S -> S,                         // after output has been delivered
    restores: (S, Bits) -> bool,            // such a read, if it fails, puts back what it has pulled
    ahead: S -> nat,                        // bytes that the fast path loads before it looks
    rank: S -> nat)

  /** A read depends on the bits it takes, or on the next few that it looks at, and on no others. */
  ghost predicate Prefixed<S(!new)>(m: Machine<S>) {
    && (forall s, b :: m.decode(s, b).Some? ==>
          && m.decode(s, b).value.0 <= |b|
          && (|b| >= PEEK ==> m.decode(s, b[..Max(m.decode(s, b).value.0, PEEK)]) == m.decode(s, b)))
    && (forall s, b, more :: m.decode(s, b).Some? ==> m.decode(s, b + more) == m.decode(s, b))
  }

  ghost predicate Terminating<S(!new)>(m: Machine<S>) {
    && (forall s, b :: m.decode(s, b).Some? && m.decode(s, b).value.0 == 0 ==>
          m.rank(m.decode(s, b).value.1) < m.rank(s))
    && (forall s :: m.status(s).Blocked? ==> m.rank(m.resume(s)) < m.rank(s))
  }

  /** Reads that are undone when they fail are short. */
  ghost predicate Bounded<S(!new)>(m: Machine<S>) {
    && (forall s, b :: m.restores(s, b) && m.decode(s, b).None? ==> |b| < LONGEST_READ)
    && (forall s :: m.ahead(s) <= 8)
  }

  ghost predicate Lawful<S(!new)>(m: Machine<S>) {
    Prefixed(m) && Terminating(m) && Bounded(m)
  }

  ghost predicate Starved<S>(m: Machine<S>, s: S, b: Bits) {
    m.status(s).Reading? && m.decode(s, b).None?
  }

  lemma DecodeLaw<S(!new)>(m: Machine<S>, s: S, b: Bits)
    requires Lawful(m) && m.decode(s, b).Some?
    ensures m.decode(s, b).value.0 <= |b|
    ensures m.decode(s, b).value.0 == 0 ==> m.rank(m.decode(s, b).value.1) < m.rank(s)
  {
  }

  lemma Stable<S(!new)>(m: Machine<S>, s: S, b: Bits, more: Bits)
    requires Lawful(m) && m.decode(s, b).Some?
    ensures m.decode(s, b + more) == m.decode(s, b)
  {
  }

  /** Beyond what it may look at, a read that could not be made before takes at least one of the new bits. */
  lemma TakesNewBits<S(!new)>(m: Machine<S>, s: S, b: Bits, more: Bits)
    requires Lawful(m) && m.decode(s, b + more).Some?
    ensures |b| >= PEEK ==> (m.decode(s, b).Some? <==> m.decode(s, b + more).value.0 <= |b|)
    ensures m.decode(s, b + more).value.0 <= |b| + |more|
  {
    var n := Max(m.decode(s, b + more).value.0, PEEK);
    if n <= |b| {
      assert (b + more)[..n] == b[..n];
      assert b[..n] + b[n..] == b;
      Stable(m, s, b[..n], b[n..]);
    } else if m.decode(s, b).Some? {
      Stable(m, s, b, more);
    }
  }

  /** What a decoder with all its input and unlimited output does: the state it ends in and what is left. */
  ghost function Run<S(!new)>(m: Machine<S>, s: S, b: Bits): (r: (S, Bits))
    requires Lawful(m)
    decreases |b|, m.rank(s)
  {
    match m.status(s)
    case Finished => (s, b)
    case Failed => (s, b)
    case Blocked => Run(m, m.resume(s), b)
    case Reading =>
      if m.decode(s, b).None? then (s, b) else
        DecodeLaw(m, s, b);
        Run(m, m.decode(s, b).value.1, b[m.decode(s, b).value.0..])
  }

  /** How often output has to be taken off the decoder's hands on the way there. */
  ghost function Stops<S(!new)>(m: Machine<S>, s: S, b: Bits): (n: nat)
    requires Lawful(m)
    ensures m.status(s).Blocked? ==> n > 0
    decreases |b|, m.rank(s)
  {
    match m.status(s)
    case Finished => 0
    case Failed => 0
    case Blocked => 1 + Stops(m, m.resume(s), b)
    case Reading =>
      if m.decode(s, b).None? then 0 else
        DecodeLaw(m, s, b);
        Stops(m, m.decode(s, b).value.1, b[m.decode(s, b).value.0..])
  }

  /** From s with b to t with c, output being taken n times: they come to the same in the end. */
  ghost predicate Leads<S(!new)>(m: Machine<S>, s: S, b: Bits, t: S, c: Bits, n: int)
    requires Lawful(m)
  {
    Run(m, s, b) == Run(m, t, c) && Stops(m, s, b) == n + Stops(m, t, c)
  }

  lemma LeadsNowhere<S(!new)>(m: Machine<S>, s: S, b: Bits)
    requires Lawful(m)
    ensures Leads(m, s, b, s, b, 0)
  {
  }

  lemma LeadsOn<S(!new)>(m: Machine<S>, s: S, b: Bits, t: S, c: Bits, n: int, u: S, d: Bits, k: int)
    requires Lawful(m) && Leads(m, s, b, t, c, n) && Leads(m, t, c, u, d, k)
    ensures Leads(m, s, b, u, d, n + k)
  {
    hide Run, Stops, Lawful;
  }

  /** Stopping for lack of input and going on later is no different from having had the input at once. */
  lemma {:induction false} RunContinues<S(!new)>(m: Machine<S>, s: S, a: Bits, b: Bits)
    requires Lawful(m)
    ensures Leads(m, s, a + b, Run(m, s, a).0, Run(m, s, a).1 + b, Stops(m, s, a))
    decreases |a|, m.rank(s)
  {
    hide Lawful;
    if m.status(s).Blocked? {
      RankLaw(m, s);
      RunContinues(m, m.resume(s), a, b);
    } else if m.status(s).Reading? && m.decode(s, a).Some? {
      DecodeLaw(m, s, a);
      Stable(m, s, a, b);
      var n := m.decode(s, a).value.0;
      assert (a + b)[n..] == a[n..] + b;
      RunContinues(m, m.decode(s, a).value.1, a[n..], b);
    }
  }

  lemma RankLaw<S(!new)>(m: Machine<S>, s: S)
    requires Lawful(m) && m.status(s).Blocked?
    ensures m.rank(m.resume(s)) < m.rank(s)
  {
  }

  /** One step of a run. */
  lemma RunReads<S(!new)>(m: Machine<S>, s: S, b: Bits, more: Bits)
    requires Lawful(m) && m.status(s).Reading? && m.decode(s, b).Some?
    ensures m.decode(s, b).value.0 <= |b|
    ensures Leads(m, s, b + more, m.decode(s, b).value.1, b[m.decode(s, b).value.0..] + more, 0)
  {
    hide Lawful;
    DecodeLaw(m, s, b);
    Stable(m, s, b, more);
    var n := m.decode(s, b).value.0;
    assert (b + more)[n..] == b[n..] + more;
  }

  ghost predicate EndsIn(whole: Bits, end: Bits) {
    |end| <= |whole| && whole[|whole| - |end|..] == end
  }

  /** What the caller's input holds. */
  ghost function Input(xinput: seq<Byte>, offset: nat, available: nat): Bits
    requires offset + available <= |xinput|
  {
    ByteBits(xinput[offset..][..available])
  }

  ghost predicate ArgumentsFit(xinput: seq<Byte>, available: nat, offset: nat) {
    available < WORD && offset < WORD && offset + available <= |xinput|
  }

  class Driver<S(!new)> {
    const m: Machine<S>
    var state: S
    var fatal: bool
    var pulled: Bits        // in the accumulator
    var nextIn: nat
    var availIn: nat
    const buffer: array<Byte>
    var bufferLength: nat

    ghost predicate Fits()
      reads this`availIn, this`bufferLength
    {
      buffer.Length == STASH && (bufferLength > 0 ==> availIn <= bufferLength <= STASH)
    }

    /** What has been taken from the input and not been decoded. */
    ghost function Pending(): Bits
      requires Fits()
      reads this`pulled, this`availIn, this`bufferLength, buffer
    {
      pulled + ByteBits(buffer[..if bufferLength == 0 then 0 else availIn])
    }

    /** Between calls: while bytes are stashed, what is unread of them is all or nothing. */
    ghost predicate Valid()
      reads this`state, this`pulled, this`availIn, this`bufferLength, buffer
      ensures Valid() ==> Fits() && Lawful(m) && buffer.Length == STASH
      ensures Valid() && bufferLength == 0 ==> |pulled| < 8 || Starved(m, state, pulled)
    {
      && Lawful(m) && buffer.Length == STASH
      && (bufferLength == 0 ==> |pulled| < 8 || Starved(m, state, pulled))
      && (bufferLength > 0 ==> if availIn == 0 then Drained() else Stashed())
    }

    ghost predicate Stashed()
      requires buffer.Length == STASH
      reads this`state, this`pulled, this`availIn, this`bufferLength, buffer
    {
      && 0 < bufferLength == availIn < STASH
      && Starved(m, state, pulled + ByteBits(buffer[..bufferLength]))
    }

    ghost predicate Drained()
      reads this`state, this`pulled, this`bufferLength
    {
      bufferLength <= STASH && (|pulled| < 8 || Starved(m, state, pulled))
    }

    constructor (m: Machine<S>, start: S)
      requires Lawful(m)
      ensures Valid() && this.m == m && state == start && !fatal && Pending() == [] && fresh(buffer)
    {
      this.m, state, fatal := m, start, false;
      pulled, nextIn, availIn := [], 0, 0;
      buffer, bufferLength := new Byte[STASH](_ => 0), 0;
    }

    // ---------- Reading ----------

    /** What can be read from the local input. */
    ghost function Left(local: seq<Byte>): (left: Bits)
      requires nextIn + availIn <= |local|
      reads this`pulled, this`nextIn, this`availIn
      ensures |left| == |pulled| + 8 * availIn
    {
      pulled + ByteBits(local[nextIn..][..availIn])
    }

    /** n bytes from the local input to the accumulator. */
    method Pull(n: nat, local: seq<Byte>)
      requires nextIn + availIn <= |local| && n <= availIn
      modifies this`pulled, this`nextIn, this`availIn
      ensures nextIn == old(nextIn) + n && availIn == old(availIn) - n
      ensures pulled == old(pulled) + ByteBits(local[old(nextIn)..nextIn]) && Left(local) == old(Left(local))
    {
      hide ByteBits;
      ghost var unread := local[nextIn..][..availIn];
      assert unread == local[nextIn..nextIn + n] + local[nextIn + n..][..availIn - n];
      ByteBitsConcat(local[nextIn..nextIn + n], local[nextIn + n..][..availIn - n]);
      pulled := pulled + ByteBits(local[nextIn..nextIn + n]);
      nextIn, availIn := nextIn + n, availIn - n;
    }

    /** Pulls byte after byte until the read can be made or nothing is left. */
    method PullUntilDecoded(local: seq<Byte>)
      requires nextIn + availIn <= |local|
      modifies this`pulled, this`nextIn, this`availIn
      ensures old(nextIn) <= nextIn && nextIn + availIn == old(nextIn + availIn)
      ensures Left(local) == old(Left(local)) && pulled == old(pulled) + ByteBits(local[old(nextIn)..nextIn])
      ensures m.decode(state, pulled).Some? || availIn == 0
    {
      hide ByteBits;
      ghost var first := nextIn;
      NoBytes(local, nextIn);
      assert pulled + [] == pulled;
      while m.decode(state, pulled).None? && availIn > 0
        invariant first <= nextIn && nextIn + availIn == old(nextIn + availIn)
        invariant Left(local) == old(Left(local)) && pulled == old(pulled) + ByteBits(local[first..nextIn])
        decreases availIn
      {
        ghost var k := nextIn;
        Pull(1, local);
        PulledMore(old(pulled), local, first, k, nextIn);
      }
    }

    lemma NoBytes(local: seq<Byte>, i: nat)
      requires i <= |local|
      ensures ByteBits(local[i..i]) == []
    {
    }

    lemma PulledMore(p: Bits, local: seq<Byte>, i: nat, j: nat, k: nat)
      requires i <= j <= k <= |local|
      ensures p + ByteBits(local[i..j]) + ByteBits(local[j..k]) == p + ByteBits(local[i..k])
    {
      hide ByteBits;
      ByteBitsConcat(local[i..j], local[j..k]);
      assert local[i..j] + local[j..k] == local[i..k];
    }

    /** One indivisible read, on the fast path with bytes loaded ahead. */
    method ReadUnit(local: seq<Byte>) returns (ok: bool)
      requires Lawful(m) && nextIn + availIn <= |local| && m.status(state).Reading?
      modifies this`state, this`pulled, this`nextIn, this`availIn
      ensures old(nextIn) <= nextIn && nextIn + availIn == old(nextIn + availIn)
      ensures ok == m.decode(old(state), old(Left(local))).Some?
      ensures ok ==> m.decode(old(state), old(Left(local))).value.0 <= |old(Left(local))|
      ensures if ok then
                var (n, next) := m.decode(old(state), old(Left(local))).value;
                state == next && Left(local) == old(Left(local))[n..]
              else
                && state == old(state) && Left(local) == old(Left(local))
                && (if m.restores(state, Left(local)) then Mark() == old(Mark()) else availIn == 0)
      ensures EndsIn(old(pulled) + ByteBits(local[old(nextIn)..nextIn]), pulled)
    {
      hide ByteBits, Lawful;
      var mark := Mark();
      ghost var whole, first := Left(local), nextIn;
      NoBytes(local, first);
      assert pulled + [] == pulled;
      if availIn >= FAST_INPUT {
        AheadLaw(m, state);
        Pull(m.ahead(state), local);
      }
      ghost var middle := nextIn;
      PullUntilDecoded(local);
      PulledMore(old(pulled), local, first, middle, nextIn);
      ghost var rest := local[nextIn..][..availIn];
      match m.decode(state, pulled) {
        case None =>
          assert ByteBits(rest) == [] by { NoBytes(rest, 0); }
          assert Left(local) == pulled;
          if m.restores(state, pulled) {
            pulled, nextIn, availIn := mark.0, mark.1, mark.2;
            NoBytes(local, nextIn);
          }
          ok := false;
        case Some((n, next)) =>
          DecodeLaw(m, state, pulled);
          Stable(m, state, pulled, ByteBits(rest));
          assert (pulled + ByteBits(rest))[n..] == pulled[n..] + ByteBits(rest);
          state, pulled := next, pulled[n..];
          ok := true;
      }
    }

    function Mark(): (Bits, nat, nat)
      reads this
    {
      (pulled, nextIn, availIn)
    }

    lemma AheadLaw(m: Machine<S>, s: S)
      requires Lawful(m)
      ensures m.ahead(s) <= 8
    {
    }

    /** Nothing has been decoded since the start, or the first read has been made. */
    ghost predicate Progressed(start: S, left: Bits, now: Bits) {
      m.status(start).Reading? && m.decode(start, left).Some? ==> |now| + m.decode(start, left).value.0 <= |left|
    }

    /**
     * Runs the decoder until it is done, needs input, or needs room for output more often than granted. However
     * the input goes on, what comes of it is the same before and after.
     */
    method DecodeUnits(local: seq<Byte>, grants: nat, ghost future: Bits) returns (result: Code, remaining: nat)
      requires Lawful(m) && nextIn + availIn <= |local|
      modifies this`state, this`pulled, this`nextIn, this`availIn
      ensures old(nextIn) <= nextIn && nextIn + availIn == old(nextIn + availIn)
      ensures Leads(m, old(state), old(Left(local)) + future, state, Left(local) + future, grants - remaining)
      ensures match result
              case Success => m.status(state).Finished?
              case Failure => m.status(state).Failed?
              case NeedsMoreInput => Starved(m, state, Left(local)) && (m.restores(state, Left(local)) || availIn == 0)
              case NeedsMoreOutput => m.status(state).Blocked? && remaining == 0
      ensures EndsIn(old(pulled) + ByteBits(local[old(nextIn)..nextIn]), pulled)
      ensures old(Starved(m, state, Left(local))) ==>
                && result == NeedsMoreInput && state == old(state) && Left(local) == old(Left(local))
                && (if m.restores(state, Left(local)) then Mark() == old(Mark()) else availIn == 0)
      ensures Progressed(old(state), old(Left(local)), Left(local))
      ensures remaining <= grants
    {
      hide ByteBits, Lawful, Leads, Left, EndsIn, Progressed, Starved;
      ghost var s0, left0, first := state, Left(local), nextIn;
      remaining := grants;
      EndsInItself(pulled, local, nextIn);
      LeadsNowhere(m, state, left0 + future);
      while true
        invariant first <= nextIn && nextIn + availIn == old(nextIn + availIn) && remaining <= grants
        invariant Leads(m, s0, left0 + future, state, Left(local) + future, grants - remaining)
        invariant EndsIn(old(pulled) + ByteBits(local[first..nextIn]), pulled)
        invariant (state == s0 && Left(local) == left0 && Mark() == old(Mark()))
                  || (!Starved(m, s0, left0) && Progressed(s0, left0, Left(local)))
        decreases |Left(local)|, m.rank(state)
      {
        match m.status(state) {
          case Finished =>
            NotYetRead(s0, left0, state);
            return Success, remaining;
          case Failed =>
            NotYetRead(s0, left0, state);
            return Failure, remaining;
          case Blocked =>
            NotYetRead(s0, left0, state);
            if remaining == 0 {
              return NeedsMoreOutput, remaining;
            }
            ghost var before := state;
            Unblocked(m, before, Left(local) + future);
            state := m.resume(state);
            LeadsOn(m, s0, left0 + future, before, Left(local) + future, grants - remaining,
                    state, Left(local) + future, 1);
            remaining := remaining - 1;
          case Reading =>
            ghost var k, s, left, p := nextIn, state, Left(local), pulled;
            var ok := ReadUnit(local);
            EndsInStep(old(pulled), local, first, k, nextIn, p, pulled);
            if !ok {
              StarvedOrRead(s0, left0, s, left, left);
              return NeedsMoreInput, remaining;
            }
            DecodeLaw(m, s, left);
            RunReads(m, s, left, future);
            LeadsOn(m, s0, left0 + future, s, left + future, grants - remaining, state, Left(local) + future, 0);
            StarvedOrRead(s0, left0, s, left, Left(local));
        }
      }
    }

    lemma NotYetRead(s0: S, left0: Bits, s: S)
      requires !m.status(s).Reading?
      ensures s == s0 ==> !Starved(m, s0, left0) && forall now :: Progressed(s0, left0, now)
    {
    }

    /** How one more read from s bears on what has happened since s0. */
    lemma StarvedOrRead(s0: S, left0: Bits, s: S, left: Bits, now: Bits)
      requires m.status(s).Reading?
      ensures m.decode(s, left).None? ==> Starved(m, s, left) && Progressed(s, left, now)
      ensures m.decode(s, left).Some? && |now| + m.decode(s, left).value.0 <= |left| ==>
                !Starved(m, s, left) && Progressed(s, left, now)
      ensures |now| <= |left| && Progressed(s0, left0, left) ==> Progressed(s0, left0, now)
    {
    }

    // ---------- Giving bytes back ----------

    /** BrotliBitReaderUnload: whole bytes that were pulled and not used go back to the input. */
    method Unload(local: seq<Byte>, ghost origin: Bits, ghost base: nat)
      requires base <= nextIn && nextIn + availIn <= |local| && |pulled| < 8 + 8 * (nextIn - base)
      requires EndsIn(origin + ByteBits(local[base..nextIn]), pulled)
      modifies this`pulled, this`nextIn, this`availIn
      ensures base <= nextIn && nextIn + availIn == old(nextIn + availIn)
      ensures |pulled| < 8 && Left(local) == old(Left(local))
    {
      hide ByteBits;
      var unused := |pulled| / 8;
      ghost var at := nextIn - unused;
      ByteBitsConcat(local[base..at], local[at..nextIn]);
      assert local[base..at] + local[at..nextIn] == local[base..nextIn];
      ghost var low := pulled[..|pulled| - 8 * unused];
      assert pulled == low + ByteBits(local[at..nextIn]);
      ByteBitsConcat(local[at..nextIn], local[nextIn..][..availIn]);
      assert local[at..nextIn] + local[nextIn..][..availIn] == local[at..][..availIn + unused];
      pulled := pulled[..|pulled| - 8 * unused];
      availIn, nextIn := availIn + unused, nextIn - unused;
    }

    /** The unread tail, at most 7 bytes, waits in the stash for the next call. */
    method StashTail(local: seq<Byte>)
      requires Lawful(m) && nextIn + availIn <= |local| && buffer.Length == STASH && bufferLength == 0
      requires Starved(m, state, Left(local)) && (m.restores(state, Left(local)) || availIn == 0)
      modifies this`bufferLength, buffer
      ensures Valid() && Pending() == Left(local)
    {
      hide ByteBits, Lawful;
      StashIsEnough(m, state, Left(local));
      for k := 0 to availIn
        invariant bufferLength == k && buffer[..k] == local[nextIn..][..k]
      {
        buffer[bufferLength] := local[nextIn + k];
        bufferLength := bufferLength + 1;
      }
      assert buffer[..availIn] == local[nextIn..][..availIn];
      if availIn == 0 {
        NoBytes(local, nextIn);
        assert local[nextIn..][..0] == local[nextIn..nextIn];
        assert Left(local) == pulled;
      }
    }

    lemma StashIsEnough(m: Machine<S>, s: S, left: Bits)
      requires Lawful(m) && Starved(m, s, left)
      ensures m.restores(s, left) ==> |left| < LONGEST_READ
    {
    }

    // ---------- One call ----------

    /** What a result says about the state it is returned in. */
    ghost predicate Explains(result: Code)
      requires Fits()
      reads this`state, this`pulled, this`availIn, this`bufferLength, buffer
    {
      match result
      case Success => m.status(state).Finished?
      case Failure => m.status(state).Failed?
      case NeedsMoreInput => Starved(m, state, Pending())
      case NeedsMoreOutput => m.status(state).Blocked?
    }

    /** Decoding straight from the caller's input, with nothing stashed. */
    method UseInput(xinput: seq<Byte>, available: nat, offset: nat, grants: nat, ghost future: Bits)
      returns (result: Code, availableIn: nat, inputOffset: nat, remaining: nat)
      requires Lawful(m) && buffer.Length == STASH && offset + available <= |xinput|
      requires bufferLength == 0 && (|pulled| < 8 || Starved(m, state, pulled))
      modifies this`state, this`pulled, this`nextIn, this`availIn, this`bufferLength, buffer
      ensures Valid() && offset <= inputOffset && inputOffset + availableIn == offset + available
      ensures Leads(m, old(state), old(pulled) + Input(xinput, offset, available) + future,
                    state, Pending() + Input(xinput, inputOffset, availableIn) + future, grants - remaining)
      ensures remaining <= grants && (result == NeedsMoreOutput ==> remaining == 0)
      ensures Explains(result) && (result == NeedsMoreInput ==> availableIn == 0)
      ensures result != NeedsMoreInput ==> bufferLength == 0 && |pulled| < 8
    {
      hide ByteBits, Lawful, Leads, EndsIn, Left, Pending, Progressed;
      availIn, nextIn := available, offset;
      ghost var origin, s0, left0 := pulled, state, Left(xinput);
      LeftIsInput(xinput);
      result, remaining := DecodeUnits(xinput, grants, future);
      if result == NeedsMoreInput {
        StashTail(xinput);
        inputOffset, availableIn := nextIn + availIn, 0;
        EmptyInput(xinput, inputOffset);
        assert Pending() + [] == Pending();
      } else {
        StillBacked(s0, origin, left0, Left(xinput));
        FetchedFits(origin, xinput, offset);
        Unload(xinput, origin, offset);
        availableIn, inputOffset := availIn, nextIn;
        LeftIsInput(xinput);
        NothingStashed();
      }
    }

    lemma LeftIsInput(local: seq<Byte>)
      requires nextIn + availIn <= |local|
      ensures Left(local) == pulled + Input(local, nextIn, availIn)
      ensures pulled <= Left(local)
    {
    }

    lemma FetchedFits(origin: Bits, local: seq<Byte>, base: nat)
      requires base <= nextIn && nextIn + availIn <= |local| && EndsIn(origin + ByteBits(local[base..nextIn]), pulled)
      requires |origin| < 8 || |Left(local)| < 8 * (nextIn - base) + 8 * availIn
      ensures |pulled| < 8 + 8 * (nextIn - base)
    {
      hide ByteBits;
    }

    /** Whatever is still in the accumulator came from the current input, except for less than a byte. */
    lemma StillBacked(s0: S, origin: Bits, left0: Bits, left: Bits)
      requires Lawful(m) && Progressed(s0, left0, left) && !Starved(m, s0, left0)
      requires origin <= left0 && (|origin| < 8 || Starved(m, s0, origin))
      ensures |origin| < 8 || |left| + |origin| < |left0|
    {
      hide Lawful;
      if |origin| >= 8 {
        assert left0 == origin + left0[|origin|..];
        TakesNewBits(m, s0, origin, left0[|origin|..]);
      }
    }

    lemma EmptyInput(xinput: seq<Byte>, i: nat)
      requires i <= |xinput|
      ensures Input(xinput, i, 0) == []
    {
    }

    lemma NothingStashed()
      requires bufferLength == 0 && buffer.Length == STASH
      ensures Pending() == pulled
    {
    }

    /** As much of the input as fits behind the stashed bytes; it only counts once bufferLength says so. */
    method CopyUpFront(xinput: seq<Byte>, available: nat, offset: nat) returns (saved: seq<Byte>)
      requires Valid() && 0 < bufferLength && offset + available <= |xinput|
      modifies buffer
      ensures Valid() && Pending() == old(Pending()) && buffer[..bufferLength] == old(buffer[..bufferLength])
      ensures saved == buffer[..] && Continues(saved, bufferLength, xinput, offset, available)
    {
      hide Lawful, Starved, ByteBits;
      ghost var before := buffer[..];
      var n := Min(STASH - bufferLength, available);
      for k := 0 to n
        invariant buffer[..bufferLength] == old(buffer[..bufferLength])
        invariant buffer[bufferLength..bufferLength + k] == xinput[offset..offset + k]
      {
        buffer[bufferLength + k] := xinput[offset + k];
      }
      saved := buffer[..];
      assert saved[bufferLength..][..n] == buffer[bufferLength..bufferLength + n];
      assert xinput[offset..][..n] == xinput[offset..offset + n];
      assert buffer[..availIn] == before[..bufferLength][..availIn] == before[..availIn];
    }

    /** After the first n bytes of saved comes what comes next in the input. */
    ghost predicate Continues(saved: seq<Byte>, n: nat, xinput: seq<Byte>, offset: nat, available: nat)
      requires offset + available <= |xinput| && n <= STASH
    {
      |saved| == STASH && saved[n..][..Min(STASH - n, available)] == xinput[offset..][..Min(STASH - n, available)]
    }

    lemma ContinuesNext(saved: seq<Byte>, n: nat, xinput: seq<Byte>, offset: nat, available: nat)
      requires offset + available <= |xinput| && n < STASH && available > 0
      requires Continues(saved, n, xinput, offset, available)
      ensures saved[n] == xinput[offset] && Continues(saved, n + 1, xinput, offset + 1, available - 1)
    {
      var k := Min(STASH - n, available);
      assert saved[n] == saved[n..][..k][0] == xinput[offset..][..k][0];
      assert saved[n + 1..][..k - 1] == saved[n..][..k][1..];
      assert xinput[offset + 1..][..k - 1] == xinput[offset..][..k][1..];
    }

    /** One more byte in the stash, and another try. The read uses it up or leaves the whole stash unread. */
    method TakeByte(saved: seq<Byte>, newByte: Byte, grants: nat, ghost future: Bits)
      returns (result: Code, remaining: nat)
      requires Lawful(m) && buffer.Length == STASH && bufferLength < STASH && Stashed() && nextIn == 0
      requires |saved| == STASH && saved[..bufferLength] == buffer[..bufferLength] && saved[bufferLength] == newByte
      modifies this`state, this`pulled, this`nextIn, this`availIn, this`bufferLength, buffer
      ensures bufferLength == old(bufferLength) + 1 && buffer[..bufferLength] == saved[..bufferLength]
      ensures (result == NeedsMoreInput && Stashed() && nextIn == 0) || (availIn == 0 && Drained())
      ensures Leads(m, old(state), old(Pending()) + OneByte(newByte) + future, state, Pending() + future,
                    grants - remaining)
      ensures remaining <= grants && (result == NeedsMoreOutput ==> remaining == 0)
      ensures result != NeedsMoreInput ==> Explains(result) && Pending() == pulled
    {
      hide ByteBits, Lawful, Leads, OneByte, Left, Pending, EndsIn;
      ghost var s0, old0 := state, Pending();
      PendingOfStash();
      PushByte(saved, newByte);
      ghost var left0 := Left(saved);
      result, remaining := DecodeUnits(saved, grants, future);
      if Starved(m, s0, left0) {
        StashIsEnough(m, s0, left0);
      } else {
        TakesNewBits(m, s0, old0, OneByte(newByte));
      }
      LeftIsPending(saved);
      if availIn > 0 {
        PendingOfStash();
      }
    }

    method PushByte(saved: seq<Byte>, newByte: Byte)
      requires Fits() && bufferLength < STASH && 0 < bufferLength == availIn && nextIn == 0
      requires |saved| == STASH && saved[..bufferLength] == buffer[..bufferLength] && saved[bufferLength] == newByte
      modifies this`availIn, this`bufferLength, buffer
      ensures bufferLength == availIn == old(bufferLength) + 1 && buffer[..bufferLength] == saved[..bufferLength]
      ensures Left(saved) == old(Pending()) + OneByte(newByte)
    {
      hide ByteBits, OneByte;
      OneMore(pulled, saved, bufferLength, newByte);
      buffer[bufferLength] := newByte;
      bufferLength := bufferLength + 1;
      availIn := bufferLength;
    }

    lemma LeftIsPending(saved: seq<Byte>)
      requires Fits() && bufferLength > 0 && |saved| == STASH && nextIn + availIn <= STASH
      requires availIn > 0 ==> nextIn == 0 && saved[..availIn] == buffer[..availIn]
      ensures Left(saved) == Pending() && (availIn == 0 ==> Pending() == pulled)
    {
      hide ByteBits;
      assert saved[nextIn..][..availIn] == buffer[..availIn];
      if availIn == 0 {
        NoBytes(saved, 0);
        assert buffer[..0] == saved[0..0];
      }
    }

    lemma PendingOfStash()
      requires Fits() && 0 < bufferLength == availIn
      ensures Pending() == pulled + ByteBits(buffer[..bufferLength])
    {
    }

    lemma OneMore(p: Bits, saved: seq<Byte>, n: nat, newByte: Byte)
      requires n < |saved| && saved[n] == newByte
      ensures p + ByteBits(saved[0..][..n + 1]) == p + ByteBits(saved[..n]) + OneByte(newByte)
    {
      hide OneByte;
      ByteBitsConcat(saved[..n], [newByte]);
      assert saved[0..][..n + 1] == saved[..n] + [newByte];
      assert ByteBits([newByte]) == OneByte(newByte) + ByteBits([]);
      assert OneByte(newByte) + [] == OneByte(newByte);
    }

    /** The next byte of the input goes to the stash, and the decoder tries again. */
    method FeedByte(saved: seq<Byte>, xinput: seq<Byte>, available: nat, offset: nat, grants: nat, ghost future: Bits)
      returns (result: Code, remaining: nat)
      requires Valid() && 0 < bufferLength == availIn && nextIn == 0 && offset + available <= |xinput| && available > 0
      requires Continues(saved, bufferLength, xinput, offset, available)
      requires saved[..bufferLength] == buffer[..bufferLength]
      modifies this`state, this`pulled, this`nextIn, this`availIn, this`bufferLength, buffer
      ensures Valid() && bufferLength == old(bufferLength) + 1 && (availIn > 0 ==> nextIn == 0)
      ensures Continues(saved, bufferLength, xinput, offset + 1, available - 1)
      ensures saved[..bufferLength] == buffer[..bufferLength]
      ensures Leads(m, old(state), old(Pending()) + Input(xinput, offset, available) + future,
                    state, Pending() + Input(xinput, offset + 1, available - 1) + future, grants - remaining)
      ensures remaining <= grants && (result == NeedsMoreOutput ==> remaining == 0)
      ensures result != NeedsMoreInput ==> Explains(result) && Pending() == pulled && Drained() && availIn == 0
    {
      hide ByteBits, Lawful, Leads, Continues, OneByte, Input, Pending, Explains, Starved;
      ContinuesNext(saved, bufferLength, xinput, offset, available);
      FirstOfInput(xinput, offset, available);
      var newByte := xinput[offset];
      ghost var rest := Input(xinput, offset + 1, available - 1);
      Regroup(Pending(), OneByte(newByte), rest, future);
      result, remaining := TakeByte(saved, newByte, grants, rest + future);
      Regroup(Pending(), [], rest, future);
    }

    /** Lets the decoder have the stash, byte by byte from the input, until one read has used it up. */
    method UseStash(xinput: seq<Byte>, available: nat, offset: nat, grants: nat, ghost future: Bits)
      returns (usedUp: bool, result: Code, availableIn: nat, inputOffset: nat, remaining: nat)
      requires Valid() && bufferLength > 0 && offset + available <= |xinput|
      modifies this`state, this`pulled, this`nextIn, this`availIn, this`bufferLength, buffer
      ensures Valid() && offset <= inputOffset && inputOffset + availableIn == offset + available
      ensures Leads(m, old(state), old(Pending()) + Input(xinput, offset, available) + future,
                    state, Pending() + Input(xinput, inputOffset, availableIn) + future, grants - remaining)
      ensures remaining <= grants && (!usedUp && result == NeedsMoreOutput ==> remaining == 0)
      ensures usedUp ==> bufferLength == 0 && (|pulled| < 8 || Starved(m, state, pulled)) && Pending() == pulled
      ensures !usedUp ==> Explains(result) && (result == NeedsMoreInput ==> availableIn == 0)
      ensures !usedUp && result != NeedsMoreInput ==> |Pending()| < 8
    {
      hide ByteBits, Lawful, Leads, Continues, OneByte, Input, Valid, Pending, Explains, Starved, Drained;
      ghost var s0, b0 := state, Pending() + Input(xinput, offset, available) + future;
      LeadsNowhere(m, s0, b0);
      var saved := CopyUpFront(xinput, available, offset);
      nextIn, result, availableIn, inputOffset, remaining := 0, NeedsMoreInput, available, offset, grants;
      while availIn > 0 && availableIn > 0 && result == NeedsMoreInput
        invariant bufferLength > 0 && Valid() && (availIn > 0 ==> nextIn == 0)
        invariant offset <= inputOffset && inputOffset + availableIn == offset + available
        invariant saved[..bufferLength] == buffer[..bufferLength]
        invariant Continues(saved, bufferLength, xinput, inputOffset, availableIn)
        invariant remaining <= grants && (result == NeedsMoreOutput ==> remaining == 0)
        invariant result != NeedsMoreInput ==> Explains(result) && Pending() == pulled && Drained() && availIn == 0
        invariant Leads(m, s0, b0, state, Pending() + Input(xinput, inputOffset, availableIn) + future,
                        grants - remaining)
        decreases availableIn
      {
        ghost var s, b, had := state, Pending() + Input(xinput, inputOffset, availableIn) + future, remaining;
        StashIsAll();
        result, remaining := FeedByte(saved, xinput, availableIn, inputOffset, remaining, future);
        inputOffset, availableIn := inputOffset + 1, availableIn - 1;
        LeadsOn(m, s0, b0, s, b, grants - had, state, Pending() + Input(xinput, inputOffset, availableIn) + future,
                had - remaining);
      }
      usedUp := result == NeedsMoreInput && availIn == 0;
      if result == NeedsMoreInput && availIn > 0 {
        StillStarved();
      } else if result != NeedsMoreInput {
        LittleIsLeft(result);
      }
      if usedUp || result == Failure || result == NeedsMoreOutput {
        DropStash(result);
      }
    }

    /** The stash has been used up. */
    method DropStash(ghost result: Code)
      requires Valid() && bufferLength > 0 && availIn == 0
      modifies this`bufferLength
      ensures Valid() && bufferLength == 0 && Pending() == old(Pending()) == pulled
      ensures result != NeedsMoreInput && old(Explains(result)) ==> Explains(result)
    {
      PendingIsPulled();
      bufferLength := 0;
      NothingStashed();
    }

    lemma StillStarved()
      requires Valid() && bufferLength > 0 && availIn > 0
      ensures Explains(NeedsMoreInput)
    {
      PendingOfStash();
    }

    lemma LittleIsLeft(result: Code)
      requires Valid() && Explains(result) && result != NeedsMoreInput && Pending() == pulled && Drained()
      ensures |Pending()| < 8
    {
    }

    /** While bytes are stashed and unread, that is all of them. */
    lemma StashIsAll()
      requires Valid() && bufferLength > 0 && availIn > 0
      ensures bufferLength == availIn
    {
    }

    lemma PendingIsPulled()
      requires buffer.Length == STASH && bufferLength <= STASH && availIn == 0
      ensures Pending() == pulled
    {
    }

    lemma FirstOfInput(xinput: seq<Byte>, offset: nat, available: nat)
      requires offset + available <= |xinput| && available > 0
      ensures Input(xinput, offset, available) == OneByte(xinput[offset]) + Input(xinput, offset + 1, available - 1)
    {
      hide OneByte;
      assert xinput[offset..][..available][1..] == xinput[offset + 1..][..available - 1];
    }

    /**
     * One call. No bit is lost, repeated or reordered: whatever input follows, decoding the bits pending before
     * and the bits offered now comes to the same as decoding what is pending and unread afterwards. A call that
     * asks for more input has taken all there was; any other leaves less than a byte behind in the decoder.
     */
    method BrotliDecompressStream(xinput: seq<Byte>, available: nat, offset: nat, grants: nat, ghost future: Bits)
      returns (result: Code, availableIn: nat, inputOffset: nat, remaining: nat)
      requires Valid()
      modifies this`state, this`fatal, this`pulled, this`nextIn, this`availIn, this`bufferLength, buffer
      ensures Valid() && fatal == (result == Failure)
      ensures old(fatal) || !ArgumentsFit(xinput, available, offset) ==>
                && result == Failure && state == old(state) && Pending() == old(Pending())
                && availableIn == available && inputOffset == offset
      ensures !old(fatal) && ArgumentsFit(xinput, available, offset) ==>
                && offset <= inputOffset && inputOffset + availableIn == offset + available
                && Leads(m, old(state), old(Pending()) + Input(xinput, offset, available) + future,
                         state, Pending() + Input(xinput, inputOffset, availableIn) + future, grants - remaining)
                && Explains(result) && remaining <= grants && (result == NeedsMoreOutput ==> remaining == 0)
                && (if result == NeedsMoreInput then availableIn == 0 else |Pending()| < 8)
    {
      hide ByteBits, Lawful, Leads, Input, Pending, Explains, Starved, Drained, Stashed, Max, Valid;
      inputOffset, availableIn, remaining := offset, available, grants;
      if fatal {
        return Failure, availableIn, inputOffset, remaining;
      }
      if available >= WORD || offset >= WORD || offset + available > |xinput| {
        fatal := true;
        return Failure, availableIn, inputOffset, remaining;
      }
      ghost var s0, b0 := state, Pending() + Input(xinput, offset, available) + future;
      LeadsNowhere(m, s0, b0);
      var usedUp := true;
      if bufferLength != 0 {
        usedUp, result, availableIn, inputOffset, remaining := UseStash(xinput, available, offset, grants, future);
      } else {
        NothingStashed();
      }
      if usedUp {
        ghost var s, b, had := state, Pending() + Input(xinput, inputOffset, availableIn) + future, remaining;
        result, availableIn, inputOffset, remaining := UseInput(xinput, availableIn, inputOffset, remaining, future);
        LeadsOn(m, s0, b0, s, b, grants - had, state, Pending() + Input(xinput, inputOffset, availableIn) + future,
                had - remaining);
        if result != NeedsMoreInput {
          NothingStashed();
        }
      }
      fatal := result == Failure;
    }
  }

  lemma Unblocked<S(!new)>(m: Machine<S>, s: S, b: Bits)
    requires Lawful(m) && m.status(s).Blocked?
    ensures Leads(m, s, b, m.resume(s), b, 1) && m.rank(m.resume(s)) < m.rank(s)
  {
  }

  lemma EndsInItself(p: Bits, local: seq<Byte>, i: nat)
    requires i <= |local|
    ensures EndsIn(p + ByteBits(local[i..i]), p)
  {
    assert p + [] == p;
  }

  lemma EndsInStep(origin: Bits, local: seq<Byte>, i: nat, j: nat, k: nat, p: Bits, q: Bits)
    requires i <= j <= k <= |local|
    requires EndsIn(origin + ByteBits(local[i..j]), p) && EndsIn(p + ByteBits(local[j..k]), q)
    ensures EndsIn(origin + ByteBits(local[i..k]), q)
  {
    hide ByteBits;
    var a, b := origin + ByteBits(local[i..j]), ByteBits(local[j..k]);
    ByteBitsConcat(local[i..j], local[j..k]);
    assert local[i..j] + local[j..k] == local[i..k];
    assert a + b == origin + ByteBits(local[i..k]);
    assert p + b == (a + b)[|a| - |p|..];
  }

  // ---------- Whole sessions ----------

  /** What a caller brings to a call: more input, and how often it takes output off the decoder's hands. */
  datatype Offer = Offer(input: seq<Byte>, grants: nat)

  function Joined(offers: seq<Offer>): (all: seq<Byte>) {
    if offers == [] then [] else offers[0].input + Joined(offers[1..])
  }

  /**
   * Input cut anywhere, output taken in any portions: the driver is on the way to where a decoder with the whole
   * input and unlimited output ends up, and whatever output was let go on the way was let go there too. It asks
   * for room only when all that was granted is used up, so enough of it decides the run. What a call leaves is
   * offered again, 2^32 - 1 bytes at most.
   */
  method Session<S(!new)>(m: Machine<S>, start: S, offers: seq<Offer>)
    returns (result: Code, driver: Driver<S>, rest: seq<Byte>, taken: nat)
    requires Lawful(m)
    ensures driver.m == m && driver.Valid()
    ensures Leads(m, start, ByteBits(Joined(offers)), driver.state, driver.Pending() + ByteBits(rest), taken)
    ensures offers != [] ==> driver.Explains(result)
    ensures |Joined(offers)| < WORD && result == NeedsMoreInput ==> rest == []
    ensures offers != [] && result != NeedsMoreOutput && (result == NeedsMoreInput ==> rest == []) ==>
              Run(m, start, ByteBits(Joined(offers))) == (driver.state, driver.Pending() + ByteBits(rest))
    ensures offers != [] && Stops(m, start, ByteBits(Joined(offers))) <= offers[|offers| - 1].grants ==>
              result != NeedsMoreOutput
  {
    hide ByteBits, Lawful, Leads, Joined, Driver.Valid, Driver.Pending;
    driver := new Driver(m, start);
    result, rest, taken := NeedsMoreInput, [], 0;
    SessionStart(offers);
    ghost var all := ByteBits(Joined(offers));
    LeadsNowhere(m, start, all);
    for i := 0 to |offers|
      invariant driver.m == m && driver.Valid() && fresh(driver) && fresh(driver.buffer)
      invariant driver.fatal ==> i > 0 && m.status(driver.state).Failed?
      invariant i > 0 ==> driver.Explains(result)
      invariant |Joined(offers)| < WORD && result == NeedsMoreInput ==> rest == []
      invariant |rest| + |Joined(offers[i..])| <= |Joined(offers)|
      invariant result == NeedsMoreOutput ==> i > 0 && offers[i - 1].grants <= taken
      invariant Leads(m, start, all, driver.state, driver.Pending() + ByteBits(rest) + ByteBits(Joined(offers[i..])),
                      taken)
    {
      ghost var future := ByteBits(Joined(offers[i + 1..]));
      OfferTaken(driver.Pending(), rest, offers, i);
      var xinput := rest + offers[i].input;
      var n := Min(|xinput|, WORD - 1);
      var wasFatal := driver.fatal;
      ghost var held, s := ByteBits(xinput[n..]), driver.state;
      ghost var b := driver.Pending() + ByteBits(xinput) + future;
      CutInput(xinput, 0, n);
      Regroup(driver.Pending(), Input(xinput, 0, n), held, future);
      var available, offset, room;
      result, available, offset, room := driver.BrotliDecompressStream(xinput, n, 0, offers[i].grants, held + future);
      CutInput(xinput, offset, n);
      Regroup(driver.Pending(), Input(xinput, offset, available), held, future);
      rest := xinput[offset..];
      if !wasFatal {
        LeadsOn(m, start, all, s, b, taken, driver.state, driver.Pending() + ByteBits(rest) + future,
                offers[i].grants - room);
        taken := taken + (offers[i].grants - room);
      }
    }
    SessionEnd(m, driver.state, driver.Pending(), rest, offers[|offers|..]);
    LeadsCount(m, start, all, driver.state, driver.Pending() + ByteBits(rest), taken);
  }

  lemma LeadsCount<S(!new)>(m: Machine<S>, s: S, b: Bits, t: S, c: Bits, n: nat)
    requires Lawful(m) && Leads(m, s, b, t, c, n)
    ensures Run(m, s, b) == Run(m, t, c) && (m.status(t).Blocked? ==> n < Stops(m, s, b))
  {
    hide Run, Stops, Lawful;
  }

  lemma Regroup(a: Bits, b: Bits, c: Bits, d: Bits)
    ensures a + (b + c) + d == a + b + (c + d) && a + c + d == a + (c + d)
  {
  }

  lemma SessionStart(offers: seq<Offer>)
    ensures offers[0..] == offers && [] + ByteBits([]) + ByteBits(Joined(offers)) == ByteBits(Joined(offers))
  {
  }

  lemma OfferTaken(pending: Bits, rest: seq<Byte>, offers: seq<Offer>, i: nat)
    requires i < |offers|
    ensures |Joined(offers[i..])| == |offers[i].input| + |Joined(offers[i + 1..])|
    ensures pending + ByteBits(rest) + ByteBits(Joined(offers[i..]))
            == pending + ByteBits(rest + offers[i].input) + ByteBits(Joined(offers[i + 1..]))
  {
    hide ByteBits;
    assert offers[i..][1..] == offers[i + 1..];
    ByteBitsConcat(rest, offers[i].input);
    ByteBitsConcat(offers[i].input, Joined(offers[i + 1..]));
  }

  lemma CutInput(xinput: seq<Byte>, offset: nat, n: nat)
    requires offset <= n <= |xinput|
    ensures ByteBits(xinput[offset..]) == Input(xinput, offset, n - offset) + ByteBits(xinput[n..])
    ensures offset == 0 ==> xinput[offset..] == xinput
  {
    hide ByteBits;
    ByteBitsConcat(xinput[offset..][..n - offset], xinput[n..]);
    assert xinput[offset..] == xinput[offset..][..n - offset] + xinput[n..];
  }

  lemma SessionEnd<S(!new)>(m: Machine<S>, s: S, pending: Bits, rest: seq<Byte>, none: seq<Offer>)
    requires Lawful(m) && none == []
    ensures pending + ByteBits(rest) + ByteBits(Joined(none)) == pending + ByteBits(rest)
    ensures (rest == [] && Starved(m, s, pending)) || m.status(s).Finished? || m.status(s).Failed? ==>
              Run(m, s, pending + ByteBits(rest)) == (s, pending + ByteBits(rest))
  {
    assert ByteBits(Joined(none)) == [];
    assert pending + [] == pending;
  }
}
