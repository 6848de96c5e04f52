/**
 * The command loop, the meta-block loop and the output side of BrotliDecompressStream: a machine that can be
 * suspended wherever input or output space runs out, over a ring that may be shrunk.
 */
module Decoder {
  import opened Bytes
  import opened Results
  import opened Transform
  import opened SlidingWindow
  import opened Distances
  import opened CommandSpec
  import opened Resumption

  /** Where pos is in the ring, and why nothing runs over the end of a ring that was shrunk. */
  predicate Geometry(phase: Phase, blocks: seq<Block>, pos: nat, size: nat, full: nat, dictLen: nat,
                     remaining: int, counter: int) {
    && (match phase
        case CommandInnerWrite | CommandPostWrite2 | UncompressedWrite => pos == size
        case CommandPostWrite1 => pos >= size
        case _ => pos < size)
    && (size < full ==>
          match phase
          case Done => dictLen + pos + GAP <= size
          case MetablockBegin => dictLen + pos + GAP <= size && (blocks == [] || blocks[0].body.Empty?)
          case CommandInner | CommandInnerWrite | CommandPostWrapCopy | CommandPostWrite2 =>
            IsFinalBlock(blocks) && dictLen + pos + counter + remaining + GAP <= size
          case _ => IsFinalBlock(blocks) && dictLen + pos + remaining + GAP <= size)
  }

  lemma PlainGeometry(phase: Phase, blocks: seq<Block>, pos: nat, size: nat, full: nat, dictLen: nat,
                      remaining: int, counter: int)
    requires phase.MetablockDone? || phase.CommandBegin? || phase.Uncompressed? || phase.CommandPostDecodeLiterals?
    requires pos < size && (size < full ==> IsFinalBlock(blocks) && dictLen + pos + remaining + GAP <= size)
    ensures Geometry(phase, blocks, pos, size, full, dictLen, remaining, counter)
  {
  }

  lemma FinishGeometry(blocks: seq<Block>, pos: nat, size: nat, full: nat, dictLen: nat, remaining: int, counter: int)
    requires pos < size && (size < full ==> IsFinalBlock(blocks) && dictLen + pos + remaining + GAP <= size)
    ensures Geometry(AfterCommand(remaining), blocks, pos, size, full, dictLen, remaining, counter)
    ensures AfterCommand(remaining).MetablockDone? || AfterCommand(remaining).CommandBegin?
  {
  }

  lemma CommandGeometry(blocks: seq<Block>, pos: nat, size: nat, full: nat, dictLen: nat,
                        remaining: int, counter: int, n: nat)
    requires Geometry(CommandBegin, blocks, pos, size, full, dictLen, remaining, counter)
    ensures Geometry(AfterRead(n), blocks, pos, size, full, dictLen, remaining - n, n)
    ensures AfterRead(n).CommandInner? || AfterRead(n).CommandPostDecodeLiterals?
  {
  }

  /** A literal moves pos and the counter by one, and may fill the ring. */
  lemma LiteralGeometry(blocks: seq<Block>, pos: nat, size: nat, full: nat, dictLen: nat, remaining: int, counter: int)
    requires Geometry(CommandInner, blocks, pos, size, full, dictLen, remaining, counter) && counter > 0
    ensures pos < size
    ensures var next := AfterLiteral(pos + 1 == size, counter - 1, remaining);
            && Geometry(next, blocks, pos + 1, size, full, dictLen, remaining, counter - 1)
            && (next.CommandInnerWrite? || next.MetablockDone? || next.CommandPostDecodeLiterals? || next.CommandInner?)
  {
  }

  /** So does a byte of the wrap-copy. */
  lemma CopyGeometry(blocks: seq<Block>, pos: nat, size: nat, full: nat, dictLen: nat, remaining: int, counter: int)
    requires Geometry(CommandPostWrapCopy, blocks, pos, size, full, dictLen, remaining, counter)
    ensures pos < size
    ensures var next := AfterByte(pos + 1 == size);
            && Geometry(next, blocks, pos + 1, size, full, dictLen, remaining, counter - 1)
            && (if pos + 1 == size then next.CommandPostWrite2? else next.CommandPostWrapCopy?)
  {
  }

  /** A write is due only when the ring is full; in a shrunken ring, only after an overrun. */
  lemma WriteGeometry(phase: Phase, blocks: seq<Block>, pos: nat, size: nat, full: nat, dictLen: nat, remaining: int,
                      counter: int)
    requires Geometry(phase, blocks, pos, size, full, dictLen, remaining, counter) && size <= full
    requires phase.CommandInnerWrite? || phase.CommandPostWrite1? || phase.CommandPostWrite2? ||
             phase.UncompressedWrite?
    requires phase.CommandInnerWrite? || phase.CommandPostWrite2? ==> counter >= 0
    ensures pos >= size && (remaining >= 0 ==> size == full)
  {
  }

  /** In a full-size ring that has been written, nothing is in the way. */
  lemma ResumeGeometry(phase: Phase, blocks: seq<Block>, pos: nat, size: nat, full: nat, dictLen: nat, remaining: int,
                       counter: int)
    requires pos < size == full && (phase.CommandInnerWrite? || phase.CommandPostWrite2?)
    ensures var next := AfterWrite(phase, counter, remaining);
            && Geometry(next, blocks, pos, size, full, dictLen, remaining, counter)
            && (next.CommandPostWrapCopy? || next.CommandInner? || next.MetablockDone? ||
                next.CommandPostDecodeLiterals?)
            && (next.CommandPostWrapCopy? <==> phase.CommandPostWrite2?)
  {
  }

  lemma OverEndGeometry(blocks: seq<Block>, pos: nat, size: nat, full: nat, dictLen: nat, remaining: int, counter: int)
    requires pos >= size && (size < full ==> IsFinalBlock(blocks) && dictLen + pos + remaining + GAP <= size)
    ensures Geometry(CommandPostWrite1, blocks, pos, size, full, dictLen, remaining, counter)
  {
  }

  lemma TakenGeometry(blocks: seq<Block>, pos: nat, size: nat, full: nat, dictLen: nat, remaining: int, counter: int,
                      n: nat)
    requires Geometry(CommandPostDecodeLiterals, blocks, pos, size, full, dictLen, remaining, counter)
    ensures pos < size && (size < full ==> IsFinalBlock(blocks) && dictLen + pos + remaining + GAP <= size)
    ensures Geometry(CommandPostWrapCopy, blocks, pos, size, full, dictLen, remaining - n, n)
  {
  }

  class Decoder {
    const env: Env
    const customDict: seq<Byte>
    const canny: bool
    const maxBackward: int          // max_backward_distance
    const maxBackwardMinusDict: int // computed before the dictionary is cut to what is in reach
    const cache: DistanceCache

    var win: Window?
    var phase: Phase
    var blocks: seq<Block>     // what is left of the stream; blocks[0] is the current meta-block
    var cmds: seq<Command>     // what is left of it; cmds[0] is the current command once it has been read
    var remaining: int         // meta_block_remaining_len
    var counter: int           // loop_counter
    var copyLength: nat
    var maxDistance: int
    ghost var blockStart: int  // where the history stood when the meta-block began

    ghost function Hist(): seq<Byte>
      requires env.Valid()
      reads this, win
    {
      ReachIsAllowed(env);
      if win == null then Reachable(customDict, env.Full()) else win.hist
    }

    ghost function Delivered(): seq<Byte>
      reads this, win
    {
      if win == null then [] else win.delivered
    }

    ghost function Now(): View
      requires env.Valid() && cache.Valid()
      reads this, cache, win
    {
      View(phase, blocks, cmds, State(Hist(), remaining, cache.Recent()), counter, cache.code)
    }

    ghost predicate RingOk(w: Window)
      requires env.Valid()
      reads this, w, w.ring
    {
      ReachIsAllowed(env);
      && w.Valid() && !w.shouldWrap && w.full == env.Full() && w.dict == Reachable(customDict, env.Full())
      && Geometry(phase, blocks, w.pos, w.size, w.full, w.dictLen, remaining, counter)
      && (maxDistance != maxBackward ==> w.base == 0)
    }

    /** As RingOk, after a round may have ended: phase no longer says where pos is. */
    ghost predicate RingWrapped(w: Window)
      requires env.Valid()
      reads this, w, w.ring
    {
      ReachIsAllowed(env);
      && w.Valid() && !w.shouldWrap && w.full == env.Full() && w.dict == Reachable(customDict, env.Full())
      && (w.size < w.full ==> IsFinalBlock(blocks) && w.dictLen + w.pos + remaining + GAP <= w.size)
      && (maxDistance != maxBackward ==> w.base == 0)
    }

    ghost predicate Valid()
      reads this, cache, win, if win == null then {} else {win.ring}
      ensures Valid() ==> env.Valid() && cache.Valid() && ViewOk(env, Now())
      ensures Valid() && win != null ==> RingOk(win)
      ensures Valid() && win == null ==> phase.MetablockBegin? || phase.MetablockDone? || phase.Done?
    {
      && env.Valid() && cache.Valid() && ViewOk(env, Now())
      && maxBackward == env.Reach() && maxBackwardMinusDict == maxBackward - |customDict|
      && (maxDistance == maxBackward ==> |Hist()| >= maxBackward)
      && (if win == null then phase.MetablockBegin? || phase.MetablockDone? || phase.Done?
          else RingOk(win))
      && (phase.CommandPostWrapCopy? || phase.CommandPostWrite2? ==> cache.code + GAP <= win.size)
      && (phase.CommandInner? || phase.CommandInnerWrite? || phase.CommandPostDecodeLiterals? ==>
            copyLength == cmds[0].copyLength && cache.code == (if cmds[0].distance.Implied? then 0 else -1))
      && Conserved(Now())
    }

    /** In a meta-block, produced plus charged plus remaining is what was announced. */
    ghost predicate Conserved(v: View)
      reads this`blockStart
    {
      InBlock(v) ==> BlockStart(v) == blockStart
    }

    /** What will have become of the stream in the end. */
    ghost function Outlook(): Outcome
      requires Valid()
      reads this, cache, win, if win == null then {} else {win.ring}
    {
      Future(env, Now())
    }

    /** Input that has not been taken yet. */
    ghost function Unread(): (n: nat)
      requires Valid()
      reads this, cache, win, if win == null then {} else {win.ring}
    {
      UnitsLeft(Now())
    }

    /** The decoder goes on towards the same outcome, with at most this much input still to take. */
    ghost predicate Kept(target: Outcome, units: int)
      reads this, cache, win, if win == null then {} else {win.ring}
      ensures Kept(target, units) ==> Valid()
    {
      Valid() && Outlook() == target && Unread() <= units
    }

    /** Nothing can be done without more input. */
    ghost predicate Starving()
      reads this, cache
    {
      phase.MetablockBegin? || phase.CommandBegin? || phase.CommandInner? ||
      (phase.CommandPostDecodeLiterals? && cache.code < 0) || (phase.Uncompressed? && remaining > 0)
    }

    /** The stream ends here, without its last meta-block. */
    ghost predicate Exhausted()
      requires Valid()
      reads this, cache, win, if win == null then {} else {win.ring}
    {
      Outlook() == Outcome(Hist(), Incomplete)
    }

    /** Something that has been produced has not been handed out. */
    ghost predicate Unwritten()
      reads this, win
    {
      win != null && win.dictLen + |win.delivered| < |win.hist|
    }

    constructor (env: Env, customDict: seq<Byte>, canny: bool, blocks: seq<Block>)
      requires env.Valid() && ValidBlocks(blocks)
      ensures Valid() && fresh(cache) && win == null && this.env == env && this.customDict == customDict
      ensures Delivered() == []
      ensures Kept(Run(env, blocks, Reachable(customDict, env.Full()), [4, 11, 15, 16]), Units(blocks))
    {
      ReachIsAllowed(env);
      this.env, this.customDict, this.canny, this.blocks := env, customDict, canny, blocks;
      maxBackward := env.Full() - GAP;
      maxBackwardMinusDict := env.Full() - GAP - |customDict|;
      cache := new DistanceCache();
      win, phase, cmds, remaining, counter, copyLength, maxDistance := null, MetablockBegin, [], 0, 0, 0, 0;
      blockStart := 0;
    }

    // ---------- The command loop ----------

    /** ReadCommandInternal, and the branch that follows it. */
    method ReadCommand()
      requires Valid() && phase.CommandBegin? && cmds != []
      modifies this`phase, this`counter, this`remaining, this`copyLength, cache`code
      ensures phase.CommandInner? || phase.CommandPostDecodeLiterals?
      ensures Kept(old(Outlook()), old(Unread()) - 1)
    {
      hide Future, ViewOk, Window.Valid, Reachable, Geometry, UnitsLeft, BlockStart, RecentAt, DistanceCache.Valid,
           AfterRead, WellFormed, Env.Valid, Env.Reach;
      ghost var v := Now();
      var c := cmds[0];
      CommandGeometry(blocks, win.pos, win.size, win.full, win.dictLen, remaining, counter, |c.insert|);
      cache.code := if c.distance.Implied? then 0 else -1;
      copyLength := c.copyLength;
      counter := |c.insert|;
      remaining := remaining - counter;
      phase := AfterRead(counter);
      CommandRead(env, v, Now());
    }

    /** One turn of the literal loop; stop when the ring is full or the literals are in. */
    method InsertLiteral() returns (stop: bool)
      requires win != null && Valid() && phase.CommandInner?
      modifies this`counter, this`phase, win`pos, win`hist, win.ring
      ensures Kept(old(Outlook()), old(Unread()) - 1)
      ensures if stop then phase.CommandInnerWrite? || phase.MetablockDone? || phase.CommandPostDecodeLiterals?
              else phase.CommandInner?
      ensures win.pos >= old(win.pos)
    {
      hide Future, Window.Valid, Reachable, UnitsLeft, BlockStart, RecentAt, DistanceCache.Valid, Geometry,
           WellFormed, AfterLiteral, Env.Valid, IsFinalBlock;
      ghost var v := Now();
      LiteralGeometry(blocks, win.pos, win.size, win.full, win.dictLen, remaining, counter);
      var insert := cmds[0].insert;
      win.PutLiteral(insert[|insert| - counter]);
      counter := counter - 1;
      phase := AfterLiteral(win.pos == win.size, counter, remaining);
      LiteralTaken(env, v, Now(), win.pos == win.size);
      return !phase.CommandInner?;
    }

    /** COMMAND_INNER: literals until the ring is full, the input runs out, or all of them are in. */
    method InsertLiterals(budget: nat) returns (code: Code, left: nat)
      requires win != null && Valid() && phase.CommandInner?
      modifies this`counter, this`phase, win`pos, win`hist, win.ring
      ensures left <= budget && Kept(old(Outlook()), old(Unread()) - (budget - left))
      ensures if code == NeedsMoreInput then left == 0 && phase.CommandInner?
              else code == Success && left < budget &&
                   (phase.CommandInnerWrite? || phase.MetablockDone? || phase.CommandPostDecodeLiterals?)
      ensures win.pos >= old(win.pos)
    {
      left := budget;
      var stop := false;
      while !stop
        invariant left <= budget && Kept(old(Outlook()), old(Unread()) - (budget - left))
        invariant win.pos >= old(win.pos)
        invariant if stop then left < budget &&
                    (phase.CommandInnerWrite? || phase.MetablockDone? || phase.CommandPostDecodeLiterals?)
                  else phase.CommandInner?
        decreases !stop, left
      {
        hide Outlook, Unread, Valid, RecentAt, DistanceCache.Valid;
        if left == 0 {
          return NeedsMoreInput, left;
        }
        stop := InsertLiteral();
        left := left - 1;
      }
      return Success, left;
    }

    /** v is the state before the distance was taken; only the distance cache has moved on since. */
    ghost predicate Taken(v: View)
      reads this, cache, win, if win == null then {} else {win.ring}
    {
      && env.Valid() && ViewOk(env, v) && v.phase == phase == CommandPostDecodeLiterals
      && maxBackward == env.Reach() && maxBackwardMinusDict == maxBackward - |customDict|
      && win != null && RingOk(win) && (maxDistance == maxBackward ==> |win.hist| >= maxBackward)
      && v.blocks == blocks && v.cmds == cmds && v.st.remaining == remaining && v.st.hist == win.hist
      && copyLength == cmds[0].copyLength && cache.code == cmds[0].distance.Resolve(v.st.recent)
      && cache.Pending(v.st.recent, cmds[0].distance.Symbol()) && Conserved(v)
    }

    /** The distance of the command: implied, a short code, or read as it is. */
    method TakeDistance()
      requires win != null && Valid() && phase.CommandPostDecodeLiterals?
      modifies cache
      ensures Taken(old(Now()))
    {
      hide Geometry, Window.Valid, RecentAt, DistanceCache.Valid;
      if cache.code >= 0 {
        cache.TakeLast();
      } else {
        cache.context := 0;
        match cmds[0].distance
        case Short(c) =>
          cache.code := c;
          cache.TakeDistanceFromRingBuffer();
        case Direct(d) =>
          cache.code := d;
      }
    }

    /** Recomputes max_distance while it can still grow; afterwards it is the true reach. */
    method UpdateMaxDistance(ghost v: View)
      requires Taken(v)
      modifies this`maxDistance
      ensures Taken(v) && maxDistance == Min(env.Reach(), |win.hist|)
    {
      hide ViewOk, Geometry, RecentAt, DistanceCache.Valid;
      if maxDistance != maxBackward {
        if win.pos < maxBackwardMinusDict {
          maxDistance := win.pos + win.dictLen;
        } else {
          maxDistance := maxBackward;
        }
      }
    }

    /** A distance out of reach: a word of the static dictionary, or an error. */
    method PutWord(ghost v: View) returns (code: Code)
      requires Taken(v) && cache.code > maxDistance == Min(env.Reach(), |win.hist|)
      modifies this`phase, this`remaining, this`cmds, cache`idx, win`pos, win`hist, win.ring
      ensures code == Success || code == Failure
      ensures code == Failure ==> Future(env, v).verdict == Reject && win.hist == old(win.hist)
      ensures code == Success ==> Kept(Future(env, v), UnitsLeft(v) - Explicit(v.cmds[0].distance))
      ensures code == Success ==> phase.CommandPostWrite1? || phase.MetablockDone? || phase.CommandBegin?
      ensures win.pos >= old(win.pos)
    {
      hide Future, ViewOk, Reference, UnitsLeft, BlockStart, RecentAt, DistanceCache.Valid, Geometry, Window.Valid,
           Reachable, WellFormed;
      if cache.code > MAX_ALLOWED {
        BadDistance(env, v);
        return Failure;
      }
      var r := Reference(env, copyLength, cache.code - maxDistance - 1);
      if r.None? {
        BadDistance(env, v);
        return Failure;
      }
      ghost var mid := AppendWord(v, r.value.0, r.value.1);
      if win.pos >= win.size {
        phase := CommandPostWrite1;
        OverEndGeometry(blocks, win.pos, win.size, win.full, win.dictLen, remaining, counter);
      } else {
        FinishCommand(mid);
      }
      return Success;
    }

    /** The word goes into the ring, and the recent distances are as before. */
    method AppendWord(ghost v: View, word: seq<Byte>, transform: nat) returns (ghost mid: View)
      requires Taken(v) && cache.code > maxDistance == Min(env.Reach(), |win.hist|) && cache.code <= MAX_ALLOWED
      requires Reference(env, copyLength, cache.code - maxDistance - 1) == Some((word, transform))
      modifies this`remaining, cache`idx, win`pos, win`hist, win.ring
      ensures cache.Valid() && RingWrapped(win) && win.pos >= old(win.pos)
      ensures mid == Now().(phase := CommandPostWrite1) && Follows(env, v, mid, Explicit(v.cmds[0].distance))
      ensures Conserved(mid) && (maxDistance == maxBackward ==> |win.hist| >= maxBackward)
    {
      hide Future, Transformed, Reference, Reachable, Window.Valid, UnitsLeft, BlockStart, RecentAt,
           DistanceCache.Valid, WellFormed;
      cache.Forget(v.st.recent, cmds[0].distance.Symbol());
      var before := win.pos;
      win.PutDictionaryWord(env.tables, word, transform);
      remaining := remaining - (win.pos - before);
      mid := Now().(phase := CommandPostWrite1);
      WordPut(env, v, mid);
    }

    /** The distance joins the recent ones, and the copy is charged to the meta-block. */
    method RecordDistance(ghost v: View) returns (ghost started: View)
      requires Taken(v) && cache.code <= maxDistance == Min(env.Reach(), |win.hist|)
      modifies this`remaining, cache`rb, cache`idx
      ensures cache.Valid() && started == Now().(phase := CommandPostWrapCopy, counter := copyLength)
      ensures Follows(env, v, started, Explicit(v.cmds[0].distance))
      ensures remaining == old(remaining) - copyLength
    {
      hide Future, CopyNaive, Window.Valid, Geometry, UnitsLeft, BlockStart, RecentAt, DistanceCache.Valid;
      ReachIsAllowed(env);
      cache.Remember(v.st.recent, cmds[0].distance.Symbol());
      remaining := remaining - copyLength;
      started := Now().(phase := CommandPostWrapCopy, counter := copyLength);
      CopyStarted(env, v, started);
    }

    /** A distance in reach: the fast copy, or the start of the wrap-copy. */
    method StartCopy(ghost v: View)
      requires Taken(v) && cache.code <= maxDistance == Min(env.Reach(), |win.hist|)
      modifies this`phase, this`remaining, this`cmds, this`counter, cache`rb, cache`idx, win`pos, win`hist, win.ring
      ensures Kept(Future(env, v), UnitsLeft(v) - Explicit(v.cmds[0].distance))
      ensures phase.CommandPostWrapCopy? || phase.MetablockDone? || phase.CommandBegin?
      ensures win.pos >= old(win.pos)
    {
      hide Future, ViewOk, CopyNaive, UnitsLeft, BlockStart, RecentAt, DistanceCache.Valid, Geometry, Window.Valid,
           Reachable, WellFormed, Env.Valid, Env.Full;
      ReachIsAllowed(env);
      TakenGeometry(blocks, win.pos, win.size, win.full, win.dictLen, remaining, counter, copyLength);
      RemainsToDo(env, v);
      win.GapIsKept(cache.code);
      ghost var started := RecordDistance(v);
      var wrap := win.CopyBackReference(cache.code, copyLength);
      if wrap {
        phase := CommandPostWrapCopy;
        counter := copyLength;
      } else {
        ghost var copied := Now().(phase := CommandPostWrapCopy, counter := 0);
        Copied(env, started, copied, copyLength);
        FinishCommand(copied);
      }
    }

    /** COMMAND_POST_DECODE_LITERALS. */
    method ApplyDistance(budget: nat) returns (code: Code, left: nat)
      requires win != null && Valid() && phase.CommandPostDecodeLiterals?
      modifies this`phase, this`remaining, this`cmds, this`counter, this`maxDistance, cache, win`pos, win`hist, win.ring
      ensures left <= budget
      ensures code != Failure ==> Kept(old(Outlook()), old(Unread()) - (budget - left))
      ensures code == Failure ==> old(Outlook()).verdict == Reject && win.hist == old(win.hist)
      ensures code == Success ==> phase.CommandPostWrapCopy? || phase.CommandPostWrite1? || phase.MetablockDone? ||
                                  phase.CommandBegin?
      ensures code != NeedsMoreOutput
      ensures code == NeedsMoreInput ==> left == 0 && Starving() && phase.CommandPostDecodeLiterals?
      ensures win.pos >= old(win.pos)
    {
      hide Future, ViewOk, Geometry, UnitsLeft, BlockStart, RecentAt, DistanceCache.Valid;
      ghost var v := Now();
      left := budget;
      if cache.code < 0 {
        if left == 0 {
          return NeedsMoreInput, left;
        }
        left := left - 1;
      }
      TakeDistance();
      UpdateMaxDistance(v);
      if cache.code > maxDistance {
        code := PutWord(v);
      } else {
        StartCopy(v);
        code := Success;
      }
    }

    /** One turn of the wrap-copy loop. */
    method WrapCopyByte() returns (stop: bool)
      requires win != null && Valid() && phase.CommandPostWrapCopy? && counter > 0
      modifies this`phase, this`counter, win`pos, win`hist, win.ring
      ensures Kept(old(Outlook()), old(Unread())) && counter == old(counter) - 1
      ensures if stop then phase.CommandPostWrite2? else phase.CommandPostWrapCopy?
      ensures win.pos >= old(win.pos)
    {
      hide Future, ViewOk, Window.Valid, Geometry, UnitsLeft, BlockStart, RecentAt, DistanceCache.Valid, CopyNaive,
           AfterByte, Reachable, WellFormed, Env.Valid, Env.Reach, IsFinalBlock;
      ghost var v := Now();
      CopyGeometry(blocks, win.pos, win.size, win.full, win.dictLen, remaining, counter);
      CopyContinues(env, v);
      win.CopyByte(cache.code);
      counter := counter - 1;
      stop := win.pos == win.size;
      phase := AfterByte(stop);
      Copied(env, v, Now(), 1);
    }

    /** Next metablock, if any, or the next command. */
    method FinishCommand(ghost v: View)
      requires env.Valid() && cache.Valid() && win != null && RingWrapped(win) && win.pos < win.size
      requires ViewOk(env, v) && CanFinish(v) && Conserved(v) && v == Now().(phase := v.phase, counter := v.counter)
      requires phase.CommandPostDecodeLiterals? || phase.CommandPostWrapCopy? || phase.CommandPostWrite1?
      requires maxBackward == env.Reach() && maxBackwardMinusDict == maxBackward - |customDict|
      requires maxDistance == maxBackward ==> |win.hist| >= maxBackward
      requires phase.CommandPostWrapCopy? ==> counter == 0
      modifies this`phase, this`cmds
      ensures Kept(Future(env, v), UnitsLeft(v))
      ensures phase.MetablockDone? || phase.CommandBegin?
    {
      hide Future, ViewOk, Window.Valid, Geometry, UnitsLeft, BlockStart, RecentAt, DistanceCache.Valid, AfterCommand,
           Reachable, WellFormed;
      HasCommand(env, v);
      FinishGeometry(blocks, win.pos, win.size, win.full, win.dictLen, remaining, counter);
      phase := AfterCommand(remaining);
      cmds := cmds[1..];
      CommandDone(env, v, Now());
    }

    /** COMMAND_POST_WRAP_COPY: byte by byte, until the ring is full or the copy is complete. */
    method WrapCopy()
      requires win != null && Valid() && phase.CommandPostWrapCopy?
      modifies this`phase, this`counter, this`cmds, win`pos, win`hist, win.ring
      ensures Kept(old(Outlook()), old(Unread()))
      ensures phase.CommandPostWrite2? || phase.MetablockDone? || phase.CommandBegin?
      ensures win.pos >= old(win.pos)
    {
      hide Outlook, Unread, Valid, RecentAt, DistanceCache.Valid;
      while counter > 0
        invariant Kept(old(Outlook()), old(Unread())) && phase.CommandPostWrapCopy?
        invariant cmds == old(cmds) && win.pos >= old(win.pos)
      {
        var stop := WrapCopyByte();
        if stop {
          return;
        }
      }
      EndWrapCopy();
    }

    method EndWrapCopy()
      requires win != null && Valid() && phase.CommandPostWrapCopy? && counter <= 0
      modifies this`phase, this`cmds
      ensures Kept(old(Outlook()), old(Unread()))
      ensures phase.MetablockDone? || phase.CommandBegin?
    {
      hide Future, UnitsLeft, BlockStart, RecentAt, DistanceCache.Valid;
      FinishCommand(Now());
    }

    predicate InLoop()
      reads this
    {
      phase.CommandBegin? || phase.CommandInner? || phase.CommandPostDecodeLiterals? || phase.CommandPostWrapCopy?
    }

    predicate InWrite()
      reads this
    {
      phase.CommandInnerWrite? || phase.CommandPostWrite1? || phase.CommandPostWrite2?
    }

    /** ProcessCommandsInternal, as far as budget symbols reach. */
    method ProcessCommands(budget: nat) returns (code: Code, left: nat)
      requires win != null && Valid() && InLoop()
      modifies this`phase, this`counter, this`remaining, this`copyLength, this`cmds, this`maxDistance
      modifies cache, win`pos, win`hist, win.ring
      ensures left <= budget && (code == Success || code == NeedsMoreInput || code == Failure)
      ensures code == Failure ==> old(Outlook()).verdict == Reject
      ensures code != Failure ==> Kept(old(Outlook()), old(Unread()) - (budget - left))
      ensures code == NeedsMoreInput ==>
                InLoop() && Starving() && (left == 0 || (phase.CommandBegin? && cmds == []))
      ensures code == Success ==> phase.MetablockDone? || InWrite()
      ensures win.pos >= old(win.pos)
    {
      left := budget;
      code := Success;
      while InLoop()
        invariant left <= budget && code == Success && win.pos >= old(win.pos)
        invariant Kept(old(Outlook()), old(Unread()) - (budget - left))
        invariant InLoop() || phase.MetablockDone? || InWrite()
        decreases left, LoopRank()
      {
        hide Outlook, Unread, Valid, RecentAt, DistanceCache.Valid;
        code, left := LoopStep(left);
        if code != Success {
          return;
        }
      }
    }

    /** One turn of the state loop. */
    method LoopStep(budget: nat) returns (code: Code, left: nat)
      requires win != null && Valid() && InLoop()
      modifies this`phase, this`counter, this`remaining, this`copyLength, this`cmds, this`maxDistance
      modifies cache, win`pos, win`hist, win.ring
      ensures left <= budget && (code == Success || code == NeedsMoreInput || code == Failure)
      ensures code == Failure ==> old(Outlook()).verdict == Reject
      ensures code != Failure ==> Kept(old(Outlook()), old(Unread()) - (budget - left))
      ensures code == NeedsMoreInput ==>
                InLoop() && Starving() && (left == 0 || (phase.CommandBegin? && cmds == []))
      ensures code == Success ==> InLoop() || phase.MetablockDone? || InWrite()
      ensures code == Success ==> left < budget || LoopRank() < old(LoopRank())
      ensures win.pos >= old(win.pos)
    {
      hide Valid, RingOk, Window.Valid, Outlook, Unread, RecentAt, DistanceCache.Valid;
      left := budget;
      code := Success;
      match phase
      case CommandBegin =>
        if left == 0 || cmds == [] {
          return NeedsMoreInput, left;
        }
        ReadCommand();
        left := left - 1;
      case CommandInner =>
        code, left := InsertLiterals(left);
      case CommandPostDecodeLiterals =>
        code, left := ApplyDistance(left);
      case CommandPostWrapCopy =>
        WrapCopy();
    }

    function LoopRank(): nat
      reads this
    {
      match phase
      case CommandPostDecodeLiterals => 3
      case CommandPostWrapCopy => 2
      case CommandBegin | CommandInner => 1
      case _ => 0
    }

    // ---------- Output ----------

    /** A write that is not forced, from a state that waits for one; remaining decides whether it may fail. */
    method Flush(available: nat) returns (code: Code, chunk: seq<Byte>)
      requires win != null && Valid() && (InWrite() || phase.UncompressedWrite?)
      modifies this`maxDistance
      modifies win`pos, win`partialOut, win`roundtrips, win`base, win`shouldWrap, win`delivered, win.ring
      ensures |chunk| <= available && win.delivered == old(win.delivered) + chunk
      ensures code == Success || code == NeedsMoreOutput || code == Failure
      ensures code == Failure ==> remaining < 0
      ensures code == NeedsMoreOutput ==> Valid() && |chunk| == available && Unwritten()
      ensures code == Success ==> RingWrapped(win) && win.size == win.full && win.pos < win.size
      ensures code == Success ==> maxDistance == maxBackward && |win.hist| >= maxBackward
      ensures code == Failure ==> chunk == []
    {
      hide ViewOk, Window.Valid, Window.UnwrittenBytes, Geometry, RecentAt, DistanceCache.Valid, Reachable,
           WellFormed, BlockStart;
      ReachIsAllowed(env);
      win.Bounds();
      CounterIsNat(env, Now());
      WriteGeometry(phase, blocks, win.pos, win.size, win.full, win.dictLen, remaining, counter);
      code, chunk := win.WriteRingBuffer(available, remaining, false);
      if code == Success {
        win.WrapRingBuffer();
        if win.size == win.full {
          maxDistance := maxBackward;
        }
      }
    }

    /** COMMAND_INNER_WRITE, COMMAND_POST_WRITE_1 and COMMAND_POST_WRITE_2. */
    method FinishWrite(available: nat) returns (code: Code, chunk: seq<Byte>)
      requires win != null && Valid() && InWrite()
      modifies this`maxDistance, this`phase, this`cmds
      modifies win`pos, win`partialOut, win`roundtrips, win`base, win`shouldWrap, win`delivered, win.ring
      ensures |chunk| <= available && win.delivered == old(win.delivered) + chunk
      ensures code == Success || code == NeedsMoreOutput || code == Failure
      ensures code == Failure ==> old(Outlook()).verdict == Reject
      ensures code != Failure ==> Kept(old(Outlook()), old(Unread()))
      ensures code == NeedsMoreOutput ==> |chunk| == available && Unwritten()
      ensures code == Success ==> InLoop() || phase.MetablockDone?
      ensures code == Failure ==> chunk == []
    {
      hide Future, ViewOk, Geometry, UnitsLeft, BlockStart, RecentAt, DistanceCache.Valid, Env.Valid;
      ghost var v := Now();
      code, chunk := Flush(available);
      if code == Success {
        Resume(v);
      } else if code == Failure {
        OverrunIsRejected(env, v);
      }
    }

    method Resume(ghost v: View)
      requires env.Valid() && cache.Valid() && win != null && RingWrapped(win) && win.pos < win.size == win.full
      requires ViewOk(env, v) && v == Now() && InWrite() && Conserved(v)
      requires maxBackward == env.Reach() && maxBackwardMinusDict == maxBackward - |customDict|
      requires maxDistance == maxBackward && |win.hist| >= maxBackward
      requires phase.CommandInnerWrite? ==>
                 copyLength == cmds[0].copyLength && cache.code == (if cmds[0].distance.Implied? then 0 else -1)
      requires phase.CommandPostWrite2? ==> cache.code + GAP <= win.size
      modifies this`phase, this`cmds
      ensures Kept(Future(env, v), UnitsLeft(v))
      ensures InLoop() || phase.MetablockDone?
    {
      hide Future, ViewOk, UnitsLeft, BlockStart, RecentAt, DistanceCache.Valid, AfterWrite, Geometry, Window.Valid,
           Reachable, WellFormed;
      if phase.CommandPostWrite1? {
        FinishCommand(v);
      } else {
        ResumeGeometry(phase, blocks, win.pos, win.size, win.full, win.dictLen, remaining, counter);
        phase := AfterWrite(phase, counter, remaining);
        WriteResumed(env, v, Now());
      }
    }

    /** CopyUncompressedBlockToOutput, with as many input bytes as budget. */
    method CopyUncompressed(budget: nat, available: nat) returns (code: Code, left: nat, chunk: seq<Byte>)
      requires win != null && Valid() && (phase.Uncompressed? || phase.UncompressedWrite?)
      modifies this`maxDistance, this`phase, this`remaining
      modifies win`pos, win`hist, win`partialOut, win`roundtrips, win`base, win`shouldWrap, win`delivered, win.ring
      ensures left <= budget && |chunk| <= available && win.delivered == old(win.delivered) + chunk
      ensures code == Success || code == NeedsMoreOutput || code == NeedsMoreInput
      ensures Kept(old(Outlook()), old(Unread()) - (budget - left))
      ensures code == NeedsMoreInput ==> left == 0 && Starving()
      ensures code == NeedsMoreOutput ==> |chunk| == available && Unwritten()
      ensures code == Success ==> phase.MetablockDone?
      ensures |win.hist| >= old(|win.hist|)
    {
      hide Outlook, Unread, Valid, RingOk, RecentAt, DistanceCache.Valid;
      left, chunk, code := budget, [], Success;
      var again := true;
      while again
        invariant again ==> phase.Uncompressed? || phase.UncompressedWrite?
        invariant left <= budget && Kept(old(Outlook()), old(Unread()) - (budget - left))
        invariant |chunk| <= available && win.delivered == old(win.delivered) + chunk
        invariant |win.hist| >= old(|win.hist|)
        invariant again || Stopped(code, left, |chunk| == available)
        decreases again, remaining, if phase.UncompressedWrite? then 1 else 0
      {
        var more;
        again, code, left, more := UncompressedTurn(left, available - |chunk|);
        chunk := chunk + more;
      }
    }

    ghost predicate Stopped(code: Code, left: nat, full: bool)
      reads this, cache, win
    {
      match code
      case NeedsMoreInput => left == 0 && Starving()
      case NeedsMoreOutput => full && Unwritten()
      case Success => phase.MetablockDone?
      case Failure => false
    }

    /** One turn: copy what is there, or write the full ring. */
    method UncompressedTurn(budget: nat, available: nat) returns (again: bool, code: Code, left: nat, chunk: seq<Byte>)
      requires win != null && Valid() && (phase.Uncompressed? || phase.UncompressedWrite?)
      modifies this`maxDistance, this`phase, this`remaining
      modifies win`pos, win`hist, win`partialOut, win`roundtrips, win`base, win`shouldWrap, win`delivered, win.ring
      ensures left <= budget && |chunk| <= available && win.delivered == old(win.delivered) + chunk
      ensures Kept(old(Outlook()), old(Unread()) - (budget - left))
      ensures |win.hist| >= old(|win.hist|)
      ensures if again then
                if old(phase).Uncompressed? then phase.UncompressedWrite? && 0 <= remaining < old(remaining)
                else phase.Uncompressed? && remaining == old(remaining)
              else Stopped(code, left, |chunk| == available)
    {
      hide Outlook, Unread, Valid, RingOk, RecentAt, DistanceCache.Valid;
      left, chunk := budget, [];
      if phase.Uncompressed? {
        code, left := CopyStored(left);
        again := code == NeedsMoreOutput;
      } else {
        code, chunk := FlushStored(available);
        again := code == Success;
      }
    }

    /** Moves what is there; NeedsMoreOutput means that the ring is full and has to be written. */
    method CopyStored(budget: nat) returns (code: Code, left: nat)
      requires win != null && Valid() && phase.Uncompressed?
      modifies this`phase, this`remaining, win`pos, win`hist, win.ring
      ensures left <= budget && 0 <= remaining <= old(remaining)
      ensures Kept(old(Outlook()), old(Unread()) - (budget - left))
      ensures match code
              case NeedsMoreInput => left == 0 && Starving()
              case NeedsMoreOutput => phase.UncompressedWrite? && remaining < old(remaining)
              case Success => phase.MetablockDone?
              case Failure => false
      ensures |win.hist| >= old(|win.hist|)
    {
      hide Future, Window.Content, Window.Accounted, Window.Rounds, UnitsLeft, BlockStart, RecentAt,
           DistanceCache.Valid;
      var n := Min(Min(budget, remaining), win.size - win.pos);
      PutStored(n);
      left := budget - n;
      if phase.UncompressedWrite? {
        return NeedsMoreOutput, left;
      }
      if remaining == 0 {
        ghost var v := Now();
        phase := MetablockDone;
        StoredDone(env, v, Now());
        return Success, left;
      }
      return NeedsMoreInput, left;
    }

    method PutStored(n: nat)
      requires win != null && Valid() && phase.Uncompressed? && n <= remaining && win.pos + n <= win.size
      modifies this`phase, this`remaining, win`pos, win`hist, win.ring
      ensures Kept(old(Outlook()), old(Unread()) - n) && remaining == old(remaining) - n
      ensures win.pos == old(win.pos) + n && |win.hist| == old(|win.hist|) + n
      ensures phase == if win.pos < env.Full() then Uncompressed else UncompressedWrite
    {
      hide Future, Window.Content, Window.Accounted, Window.Rounds, UnitsLeft, BlockStart, RecentAt,
           DistanceCache.Valid, Reachable, Env.Valid;
      ghost var v := Now();
      var data := blocks[0].body.data;
      var from := |data| - remaining;
      win.PutBytes(data[from..from + n]);
      remaining := remaining - n;
      if win.pos >= env.Full() {
        phase := UncompressedWrite;
      }
      StoredCopied(env, v, Now(), n);
    }

    method FlushStored(available: nat) returns (code: Code, chunk: seq<Byte>)
      requires win != null && Valid() && phase.UncompressedWrite?
      modifies this`maxDistance, this`phase
      modifies win`pos, win`partialOut, win`roundtrips, win`base, win`shouldWrap, win`delivered, win.ring
      ensures |chunk| <= available && win.delivered == old(win.delivered) + chunk
      ensures Kept(old(Outlook()), old(Unread()))
      ensures if code == Success then phase.Uncompressed?
              else code == NeedsMoreOutput && |chunk| == available && Unwritten() && phase.UncompressedWrite?
    {
      hide Future, UnitsLeft, BlockStart, RecentAt, DistanceCache.Valid;
      ghost var v := Now();
      code, chunk := Flush(available);
      if code == Success {
        phase := Uncompressed;
        StoredResumed(env, v, Now());
      }
    }

    // ---------- Meta-blocks ----------

    /** The byte after an uncompressed meta-block, if it is already there to be peeked at. */
    function NextHeader(peek: bool): int
      reads this
    {
      if peek && |blocks| > 1 && blocks[0].body.Stored? then blocks[1].HeaderBits() else -1
    }

    /** BrotliAllocateRingBuffer: the size depends on how much input happens to be available. */
    method AllocateRingBuffer(peek: bool)
      requires Valid() && win == null && phase.MetablockBegin? && blocks != []
      requires !blocks[0].body.Empty? && !blocks[0].body.Metadata?
      modifies this`win
      ensures win != null && fresh(win) && fresh(win.ring) && win.Ready() && win.full == env.Full()
      ensures win.hist == win.dict == Reachable(customDict, env.Full()) && win.dictLen == |win.hist|
      ensures win.base == 0 && win.delivered == []
      ensures win.size < win.full ==> IsFinalBlock(blocks) && win.dictLen + win.pos + Owed(blocks[0]) + GAP <= win.size
    {
      hide Future, Geometry, Reachable, Pow2, Window.Content, Window.Accounted, Window.Rounds, RecentAt,
           DistanceCache.Valid;
      ReachIsAllowed(env);
      assert blocks[0].Valid() && (|blocks| > 1 ==> blocks[1].Valid());
      win := new Window(env.windowBits, customDict, blocks[0].isLast, NextHeader(peek), Owed(blocks[0]), canny);
    }

    /** The ring is either full-size, or shrunk because of this meta-block, or shrunk and done with. */
    ghost predicate EnterOk(w: Window)
      requires env.Valid() && blocks != []
      reads this, w, w.ring
    {
      ReachIsAllowed(env);
      && w.Valid() && !w.shouldWrap && w.full == env.Full() && w.dict == Reachable(customDict, env.Full())
      && w.pos < w.size && (maxDistance != maxBackward ==> w.base == 0)
      && (w.size < w.full ==> IsFinalBlock(blocks) && w.dictLen + w.pos + Owed(blocks[0]) + GAP <= w.size)
    }

    /** A meta-block header has been read. */
    method BeginMetablock(peek: bool)
      requires Valid() && phase.MetablockBegin? && blocks != []
      modifies this`win, this`phase, this`remaining, this`cmds, this`blockStart
      ensures Kept(old(Outlook()), old(Unread()) - 1)
      ensures win == old(win) || (old(win) == null && fresh(win) && fresh(win.ring))
      ensures Delivered() == old(Delivered()) && blocks == old(blocks) && Hist() == old(Hist())
      ensures phase.MetablockDone? || phase.Uncompressed? || phase.CommandBegin?
    {
      hide Future, Reachable, UnitsLeft, BlockStart, RecentAt, DistanceCache.Valid;
      ghost var v := Now();
      var body := blocks[0].body;
      assert blocks[0].Valid();
      if win == null && (body.Stored? || body.Coded?) {
        AllocateRingBuffer(peek);
      }
      EnterMetablock(v);
    }

    method EnterMetablock(ghost v: View)
      requires env.Valid() && cache.Valid() && ViewOk(env, v) && v == Now() && phase.MetablockBegin? && blocks != []
      requires maxBackward == env.Reach() && maxBackwardMinusDict == maxBackward - |customDict|
      requires maxDistance == maxBackward ==> |Hist()| >= maxBackward
      requires win == null ==> Owed(blocks[0]) == 0
      requires win != null ==> EnterOk(win)
      modifies this`phase, this`remaining, this`cmds, this`blockStart
      ensures Kept(Future(env, v), UnitsLeft(v) - 1)
      ensures phase.MetablockDone? || phase.Uncompressed? || phase.CommandBegin?
    {
      hide Future, UnitsLeft, RecentAt, DistanceCache.Valid, ViewOk, Geometry, Window.Valid, BlockStart, Reachable,
           Owed, EntryPhase, EntryCommands, WellFormed;
      var body := blocks[0].body;
      phase, cmds, remaining, blockStart := EntryPhase(body), EntryCommands(body), Owed(blocks[0]), |Hist()|;
      BlockBegun(env, v, Now());
      if win != null {
        PlainGeometry(phase, blocks, win.pos, win.size, win.full, win.dictLen, remaining, counter);
      }
    }

    /** METABLOCK_DONE: a meta-block that produced more than it announced is rejected here. */
    method EndMetablock() returns (code: Code)
      requires Valid() && phase.MetablockDone?
      modifies this`phase, this`blocks
      ensures code == Success || code == Failure
      ensures code == Failure ==> old(Outlook()).verdict == Reject
      ensures code == Success ==> Kept(old(Outlook()), old(Unread()))
      ensures code == Success ==> phase.Done? || (phase.MetablockBegin? && |blocks| < old(|blocks|))
      ensures |blocks| <= old(|blocks|)
    {
      hide Future, UnitsLeft, BlockStart, RecentAt, DistanceCache.Valid, Window.Valid, Env.Valid, Env.Full, Env.Reach;
      ghost var v := Now();
      if remaining < 0 {
        OverrunIsRejected(env, v);
        return Failure;
      }
      if blocks[0].isLast {
        phase := Done;
      } else {
        phase := MetablockBegin;
        blocks := blocks[1..];
      }
      BlockDone(env, v, Now());
      return Success;
    }

    // ---------- The stream ----------

    /** What the caller gets of a history. */
    ghost function Output(hist: seq<Byte>): seq<Byte>
      requires env.Full() >= GAP && Reachable(customDict, env.Full()) <= hist
    {
      hist[|Reachable(customDict, env.Full())|..]
    }

    function Rank(): nat
      reads this
    {
      if phase.MetablockBegin? then 4 else if InWrite() then 3 else if phase.MetablockDone? then 1
      else if phase.Done? then 0 else 2
    }

    /** ProcessCommands, and that it stops for a write only after it has produced something. */
    method Produce(budget: nat) returns (code: Code, left: nat)
      requires win != null && Valid() && InLoop()
      modifies this`phase, this`counter, this`remaining, this`copyLength, this`cmds, this`maxDistance
      modifies cache, win`pos, win`hist, win.ring
      ensures left <= budget && (code == Success || code == NeedsMoreInput || code == Failure)
      ensures code == Failure ==> old(Outlook()).verdict == Reject
      ensures code != Failure ==> Kept(old(Outlook()), old(Unread()) - (budget - left))
      ensures code == NeedsMoreInput ==> Starving() && (left == 0 || Exhausted())
      ensures code == Success ==> phase.MetablockDone? || (InWrite() && |win.hist| > old(|win.hist|))
      ensures code != Failure ==> |win.hist| >= old(|win.hist|)
    {
      hide Future, ViewOk, Valid, UnitsLeft, RecentAt, DistanceCache.Valid;
      assert win.pos < win.size;
      code, left := ProcessCommands(budget);
      if code == NeedsMoreInput && left != 0 {
        OutOfCommands(env, Now());
      }
    }

    /** One turn of the outer state loop. */
    method Step(budget: nat, available: nat, peek: bool) returns (code: Code, left: nat, chunk: seq<Byte>)
      requires Valid() && !phase.Done?
      modifies this, cache, win, if win == null then {} else {win.ring}
      ensures win == old(win) || (old(win) == null && fresh(win) && fresh(win.ring))
      ensures left <= budget && |chunk| <= available && Delivered() == old(Delivered()) + chunk
      ensures code == Failure ==> old(Outlook()).verdict == Reject && chunk == []
      ensures code != Failure ==> Kept(old(Outlook()), old(Unread()) - (budget - left))
      ensures code == NeedsMoreInput ==> MayWait(left)
      ensures code == NeedsMoreOutput ==> |chunk| == available && Unwritten()
      ensures code != Failure ==> |Hist()| >= old(|Hist()|) && |blocks| <= old(|blocks|)
      ensures code == Success ==> |Hist()| > old(|Hist()|) || |blocks| < old(|blocks|) || Rank() < old(Rank())
    {
      hide Valid, RingOk, Window.Valid, Unread, RecentAt, DistanceCache.Valid;
      left, chunk, code := budget, [], Success;
      if phase.MetablockBegin? {
        if left == 0 || blocks == [] {
          if blocks == [] {
            OutOfBlocks(env, Now());
          }
          return NeedsMoreInput, left, chunk;
        }
        BeginMetablock(peek);
        left := left - 1;
      } else if phase.MetablockDone? {
        code := EndMetablock();
      } else {
        code, left, chunk := StepInside(budget, available);
      }
    }

    /** A good reason to ask for input: the units are used up, or there are no more. */
    ghost predicate MayWait(left: nat)
      reads this, cache, win, if win == null then {} else {win.ring}
    {
      Valid() && Starving() && (left == 0 || Exhausted())
    }

    /** One turn inside a meta-block. */
    method StepInside(budget: nat, available: nat) returns (code: Code, left: nat, chunk: seq<Byte>)
      requires win != null && Valid() && Rank() in {2, 3}
      modifies this`phase, this`counter, this`remaining, this`copyLength, this`cmds, this`maxDistance, cache
      modifies win, win.ring
      ensures left <= budget && |chunk| <= available && win.delivered == old(win.delivered) + chunk
      ensures code == Failure ==> old(Outlook()).verdict == Reject && chunk == []
      ensures code != Failure ==> Kept(old(Outlook()), old(Unread()) - (budget - left))
      ensures code == NeedsMoreInput ==> MayWait(left)
      ensures code == NeedsMoreOutput ==> |chunk| == available && Unwritten()
      ensures code != Failure ==> |win.hist| >= old(|win.hist|)
      ensures code == Success ==> |win.hist| > old(|win.hist|) || Rank() < old(Rank())
    {
      hide Valid, RingOk, Window.Valid, Outlook, Unread, RecentAt, DistanceCache.Valid, Env.Full, ViewOk;
      left, chunk := budget, [];
      if phase.Uncompressed? || phase.UncompressedWrite? {
        code, left, chunk := CopyUncompressed(left, available);
      } else if InWrite() {
        code, chunk := FinishWrite(available);
      } else {
        code, left := Produce(left);
      }
    }

    /** A forced write: what has been produced is handed out although the ring is not full. */
    method ForcedWrite(available: nat) returns (code: Code, chunk: seq<Byte>)
      requires win != null && Valid() && !InWrite() && !phase.UncompressedWrite?
      modifies win`pos, win`partialOut, win`roundtrips, win`base, win`shouldWrap, win`delivered
      ensures |chunk| <= available && win.delivered == old(win.delivered) + chunk
      ensures if code == Failure then remaining < 0 && chunk == []
              else Kept(old(Outlook()), old(Unread())) && Hist() == old(Hist())
      ensures code == NeedsMoreOutput ==> |chunk| == available && Unwritten()
      ensures code == Success ==> win.dictLen + |win.delivered| == |win.hist|
      ensures code != NeedsMoreInput
    {
      hide Future, UnitsLeft, BlockStart, RecentAt, DistanceCache.Valid;
      code, chunk := win.WriteRingBuffer(available, remaining, true);
    }

    /** Whatever has been handed out is the beginning of what the stream stands for. */
    lemma DeliveredIsPrefix()
      requires Valid()
      ensures Reachable(customDict, env.Full()) <= Hist() <= Outlook().hist
      ensures Delivered() <= Output(Outlook().hist)
      ensures win == null || win.dictLen + |win.delivered| == |win.hist| ==> Delivered() == Output(Hist())
      ensures Unwritten() ==> |Delivered()| < |Output(Hist())|
    {
      hide Future, ViewOk, Geometry, UnitsLeft, BlockStart, RecentAt, DistanceCache.Valid;
      ReachIsAllowed(env);
      FutureGrows(env, Now());
    }

    /** What a call that stops with code promises, target being the outcome of the whole stream. */
    ghost predicate Consistent(target: Outcome, units: int, code: Code)
      reads this, cache, win, if win == null then {} else {win.ring}
      ensures Consistent(target, units, code) && code != Failure ==> Kept(target, units)
      ensures Consistent(target, units, code) && code == Failure ==> target.verdict == Reject
    {
      && env.Full() >= GAP && Reachable(customDict, env.Full()) <= target.hist
      && Delivered() <= Output(target.hist)
      && (if code == Failure then target.verdict == Reject else Kept(target, units))
    }

    lemma ConsistentNow(target: Outcome, units: int, code: Code)
      requires Kept(target, units) && code != Failure
      ensures Consistent(target, units, code)
    {
      hide Valid, Future, RingOk, Unread, RecentAt, DistanceCache.Valid;
      DeliveredIsPrefix();
    }

    /** What has been handed out, in terms of the whole stream. */
    lemma Handed(target: Outcome, units: int, code: Code)
      requires Consistent(target, units, code)
      ensures env.Full() >= GAP && Reachable(customDict, env.Full()) <= target.hist
      ensures Delivered() <= Output(target.hist)
      ensures code != Failure ==> Hist() <= target.hist && (Unwritten() ==> |Delivered()| < |Output(target.hist)|)
    {
      hide Valid, Outlook, Unread, Reachable, RecentAt, DistanceCache.Valid;
      if code != Failure {
        DeliveredIsPrefix();
      }
    }

    /** Waiting for more than there is: the stream is incomplete, and everything there is has been produced. */
    lemma WaitsForGood(left: nat)
      requires MayWait(left) && Unread() <= left
      ensures Exhausted()
    {
      hide Future, RecentAt, DistanceCache.Valid;
      if left == 0 {
        NothingLeft(env, Now());
      }
    }

    /** What is certain in any case, and when only an incomplete stream is left undecided. */
    lemma Settled(target: Outcome, units: int, code: Code, left: nat, last: nat, available: nat)
      requires Stands(target, units, code, left, last == available) && last <= |Delivered()|
      ensures env.Full() >= GAP && Reachable(customDict, env.Full()) <= target.hist
      ensures Delivered() <= Output(target.hist) && (code == Failure ==> target.verdict == Reject)
      ensures code == Success ==> target.verdict == Accept && Delivered() == Output(target.hist)
      ensures units <= left && |Output(target.hist)| <= |Delivered()| - last + available ==>
                code != NeedsMoreOutput &&
                (code == NeedsMoreInput ==> target.verdict == Incomplete && Delivered() == Output(target.hist))
    {
      hide Valid, Outlook, Unread, Reachable, MayWait, RecentAt, DistanceCache.Valid;
      Handed(target, units, code);
      if units <= left && code == NeedsMoreInput {
        WaitsForGood(left);
      }
    }

    /** How much of the outcome has still to be produced. */
    ghost function Owing(target: Outcome): nat
      requires env.Valid()
      reads this, win
    {
      Max(0, |target.hist| - |Hist()|)
    }

    /** The outer state loop, without the forced writes around it. */
    method Advance(budget: nat, available: nat, peek: bool, ghost target: Outcome, ghost units: int)
      returns (code: Code, left: nat, chunk: seq<Byte>)
      requires Kept(target, units)
      modifies this, cache, win, if win == null then {} else {win.ring}
      ensures win == old(win) || (old(win) == null && fresh(win) && fresh(win.ring))
      ensures left <= budget && |chunk| <= available && Delivered() == old(Delivered()) + chunk
      ensures Consistent(target, units - (budget - left), code)
      ensures code == NeedsMoreInput ==> MayWait(left)
      ensures code == NeedsMoreOutput ==> |chunk| == available && Unwritten()
      ensures code == Success ==> phase.Done?
    {
      hide Valid, RingOk, Output, Reachable, Rank, Owing, MayWait, Outlook, Unread, Kept, Consistent, Delivered, Now,
           RecentAt, DistanceCache.Valid;
      ConsistentNow(target, units, Success);
      left, chunk, code := budget, [], Success;
      while code == Success && !phase.Done?
        invariant win == old(win) || (old(win) == null && fresh(win) && fresh(win.ring))
        invariant left <= budget && |chunk| <= available && Delivered() == old(Delivered()) + chunk
        invariant Consistent(target, units - (budget - left), code)
        invariant code == NeedsMoreInput ==> MayWait(left)
        invariant code == NeedsMoreOutput ==> |chunk| == available && Unwritten()
        decreases code == Success, if code == Success then Owing(target) else 0, |blocks|, Rank()
      {
        var more;
        code, left, more := Turn(left, available - |chunk|, peek, target, units - (budget - left));
        chunk := chunk + more;
      }
    }

    /** One turn, seen from the whole stream: closer to its end, or stopped. */
    method Turn(budget: nat, available: nat, peek: bool, ghost target: Outcome, ghost units: int)
      returns (code: Code, left: nat, chunk: seq<Byte>)
      requires Kept(target, units) && !phase.Done?
      modifies this, cache, win, if win == null then {} else {win.ring}
      ensures win == old(win) || (old(win) == null && fresh(win) && fresh(win.ring))
      ensures left <= budget && |chunk| <= available && Delivered() == old(Delivered()) + chunk
      ensures Consistent(target, units - (budget - left), code)
      ensures code == NeedsMoreInput ==> MayWait(left)
      ensures code == NeedsMoreOutput ==> |chunk| == available && Unwritten()
      ensures code == Success ==> Owing(target) <= old(Owing(target))
      ensures code == Success && Owing(target) == old(Owing(target)) ==>
                |blocks| < old(|blocks|) || (|blocks| == old(|blocks|) && Rank() < old(Rank()))
    {
      hide Valid, RingOk, Output, Reachable, Rank, MayWait, Outlook, Unread, RecentAt, DistanceCache.Valid;
      DeliveredIsPrefix();
      code, left, chunk := Step(budget, available, peek);
      if code != Failure {
        DeliveredIsPrefix();
      }
    }

    /**
     * BrotliDecompressStream: decodes as far as budget input units and available output bytes reach, and asks for
     * more only when they are used up. Whether the header after an uncompressed meta-block could be peeked at
     * makes no difference.
     */
    method Decompress(budget: nat, available: nat, peek: bool, ghost target: Outcome, ghost units: int)
      returns (code: Code, left: nat, chunk: seq<Byte>)
      requires Kept(target, units)
      modifies this, cache, win, if win == null then {} else {win.ring}
      ensures win == old(win) || (old(win) == null && fresh(win) && fresh(win.ring))
      ensures left <= budget && |chunk| <= available && Delivered() == old(Delivered()) + chunk
      ensures Stands(target, units - (budget - left), code, left, |chunk| == available)
    {
      hide Valid, RingOk, Output, Reachable, MayWait, AllHanded, Unread, Kept, Consistent, Delivered, RecentAt,
           DistanceCache.Valid;
      code, left, chunk := Advance(budget, available, peek, target, units);
      if code == NeedsMoreInput || code == Success {
        var more;
        code, more := Conclude(code, left, available - |chunk|, target, units - (budget - left));
        chunk := chunk + more;
      }
    }

    /**
     * What a call has come to. It asks for input only if that is used up or at an end, and then has handed out all
     * it could; for room only if that is used up and something is left to hand out.
     */
    ghost predicate Stands(target: Outcome, units: int, code: Code, left: nat, full: bool)
      reads this, cache, win, if win == null then {} else {win.ring}
      ensures Stands(target, units, code, left, full) && code != Failure ==> Kept(target, units)
    {
      && Consistent(target, units, code)
      && match code
         case NeedsMoreInput => MayWait(left) && (full || AllHanded())
         case NeedsMoreOutput => full && Unwritten()
         case Success => target.verdict == Accept && Delivered() == Output(target.hist)
         case Failure => true
    }

    /** Everything that has been produced has been handed out. */
    ghost predicate AllHanded()
      reads this, win
    {
      env.Valid() && env.Full() >= GAP && Reachable(customDict, env.Full()) <= Hist() && Delivered() == Output(Hist())
    }

    /** The forced write before a call returns for lack of input, or because the stream is over. */
    method Conclude(stop: Code, ghost left: nat, available: nat, ghost target: Outcome, ghost units: int)
      returns (code: Code, chunk: seq<Byte>)
      requires Kept(target, units)
      requires if stop == Success then phase.Done? else stop == NeedsMoreInput && MayWait(left)
      modifies win
      ensures |chunk| <= available && Delivered() == old(Delivered()) + chunk
      ensures Consistent(target, units, code)
      ensures code == Failure || code == stop || (code == NeedsMoreOutput && stop == Success)
      ensures code == NeedsMoreInput ==> MayWait(left) && (|chunk| == available || AllHanded())
      ensures code == NeedsMoreOutput ==> |chunk| == available && Unwritten()
      ensures code == Success ==> target.verdict == Accept && Delivered() == Output(target.hist)
    {
      hide Future, Valid, RingOk, Output, Reachable, Unread, RecentAt, DistanceCache.Valid;
      DeliveredIsPrefix();
      code, chunk := stop, [];
      if win != null {
        ghost var v := Now();
        var forced, more := ForcedWrite(available);
        chunk := more;
        if forced == Failure {
          code := Failure;
          OverrunIsRejected(env, v);
        } else {
          if stop == Success {
            code := forced;
          }
          DeliveredIsPrefix();
        }
      }
      if code == Success {
        DoneIsAccepted();
      }
    }

    lemma DoneIsAccepted()
      requires Valid() && phase.Done?
      ensures Outlook() == Outcome(Hist(), Accept)
    {
    }
  }

  /** One call: input units, output space, and whether a header could be peeked at. */
  datatype Call = Call(budget: nat, available: nat, peek: bool)

  /** All the input that the calls bring. */
  function Offered(calls: seq<Call>): (n: nat) {
    if calls == [] then 0 else Offered(calls[..|calls| - 1]) + calls[|calls| - 1].budget
  }

  /** Calls until the stream is done with, or there are no more. */
  method Drive(d: Decoder, calls: seq<Call>, ghost spec: Outcome, ghost units: int)
    returns (code: Code, out: seq<Byte>, left: nat, last: seq<Byte>, ghost k: nat)
    requires d.Kept(spec, units) && d.win == null && d.Delivered() == [] && calls != []
    modifies d, d.cache
    ensures 0 < k <= |calls| && out == d.Delivered() && |last| <= |out|
    ensures d.Stands(spec, units - (Offered(calls[..k]) - left), code, left, |last| == calls[k - 1].available)
    ensures code == NeedsMoreInput || code == NeedsMoreOutput ==> k == |calls|
  {
    hide Offered, Decoder.Valid, Decoder.Kept, Decoder.Stands, Decoder.Now, Decoder.RingOk, ViewOk, Decoder.AllHanded,
         Decoder.Unwritten, Decoder.Consistent, Decoder.MayWait, Decoder.Output, Decoder.Outlook, Decoder.Unread,
         Future, Decoder.Delivered, Decoder.Hist, Decoder.Starving, WellFormed, Env.Valid;
    code, out, left, last := NeedsMoreInput, [], 0, [];
    var i := 0;
    OfferedAll(calls);
    while i < |calls| && (code == NeedsMoreInput || code == NeedsMoreOutput)
      invariant 0 <= i <= |calls| && out == d.Delivered() && |last| <= |out|
      invariant d.win == null || (fresh(d.win) && fresh(d.win.ring))
      invariant i == 0 ==> code == NeedsMoreInput && left == 0 && d.Kept(spec, units)
      invariant i > 0 ==>
                  d.Stands(spec, units - (Offered(calls[..i]) - left), code, left, |last| == calls[i - 1].available)
    {
      OfferedNext(calls, i);
      var budget := left + calls[i].budget;
      ghost var had := units - (Offered(calls[..i]) - left);
      assert d.Kept(spec, had);
      code, left, last := d.Decompress(budget, calls[i].available, calls[i].peek, spec, had);
      out := out + last;
      i := i + 1;
      assert had - (budget - left) == units - (Offered(calls[..i]) - left);
    }
    k := i;
  }

  /**
   * Any sequence of calls; input that a call leaves is offered to the next. The bytes handed out are always the
   * beginning of the stream's output. With all of the input, and room for the rest of the output in the last call,
   * the stream is accepted if and only if it deserves it, rejected likewise, and all of its output has been handed
   * out unless it is rejected. Neither the schedule, nor what could be peeked at, nor the ring size matters. An
   * accepted stream has produced exactly what its meta-blocks announced.
   */
  method Session(env: Env, customDict: seq<Byte>, canny: bool, blocks: seq<Block>, calls: seq<Call>)
    returns (code: Code, out: seq<Byte>, last: seq<Byte>)
    requires env.Valid() && ValidBlocks(blocks)
    ensures env.Full() >= GAP
    ensures var dict := Reachable(customDict, env.Full());
            var spec := Run(env, blocks, dict, [4, 11, 15, 16]);
            && dict <= spec.hist && out <= spec.hist[|dict|..] && |last| <= |out|
            && (code == Success ==> spec.verdict == Accept && out == spec.hist[|dict|..] && |out| == Announced(blocks))
            && (code == Failure ==> spec.verdict == Reject)
            && (Ample(blocks, calls, |out| - |last|, |spec.hist| - |dict|) ==>
                  && (code == Success <==> spec.verdict == Accept)
                  && (code == Failure <==> spec.verdict == Reject)
                  && code != NeedsMoreOutput && (code != Failure ==> out == spec.hist[|dict|..]))
  {
    hide Future, Run, Announced, ViewOk, Reachable, Units, Offered, WellFormed, ValidBlocks, Decoder.Valid,
         Decoder.Kept, Decoder.Stands, Decoder.Now, Decoder.RingOk;
    WholeStream(env, customDict, blocks);
    if calls == [] {
      return NeedsMoreInput, [], [];
    }
    ghost var spec, units := Run(env, blocks, Reachable(customDict, env.Full()), [4, 11, 15, 16]), Units(blocks);
    var d := new Decoder(env, customDict, canny, blocks);
    var left;
    ghost var k;
    code, out, left, last, k := Drive(d, calls, spec, units);
    OfferedAll(calls);
    d.Settled(spec, units - (Offered(calls[..k]) - left), code, left, |last|, calls[k - 1].available);
  }

  /** What a whole stream stands for begins with the dictionary, and has the announced length if it is accepted. */
  lemma WholeStream(env: Env, customDict: seq<Byte>, blocks: seq<Block>)
    requires env.Valid() && ValidBlocks(blocks)
    ensures env.Full() >= GAP && WellFormed([4, 11, 15, 16])
    ensures var dict := Reachable(customDict, env.Full());
            var spec := Run(env, blocks, dict, [4, 11, 15, 16]);
            && dict <= spec.hist
            && (spec.verdict == Accept ==> |spec.hist| == |dict| + Announced(blocks))
  {
    hide Run, Announced, Reachable, ValidBlocks;
    ReachIsAllowed(env);
    var dict := Reachable(customDict, env.Full());
    AcceptedLength(env, blocks, dict, [4, 11, 15, 16]);
    HistoryGrows(env, blocks, dict, [4, 11, 15, 16]);
  }

  lemma OfferedNext(calls: seq<Call>, k: nat)
    requires k < |calls|
    ensures Offered(calls[..k + 1]) == Offered(calls[..k]) + calls[k].budget
  {
    assert calls[..k + 1][..k] == calls[..k];
  }

  lemma OfferedAll(calls: seq<Call>)
    ensures calls[..|calls|] == calls && Offered(calls[..0]) == 0
  {
  }

  /** All of the input, and in the last call room for what was missing before it. */
  predicate Ample(blocks: seq<Block>, calls: seq<Call>, before: int, total: int) {
    Units(blocks) <= Offered(calls) && calls != [] && total <= before + calls[|calls| - 1].available
  }

  /** Two ways to decode a stream, with all of the input and enough room in the end: they come to the same. */
  method TwoSchedules(env: Env, customDict: seq<Byte>, blocks: seq<Block>, canny: bool, calls: seq<Call>,
                      canny': bool, calls': seq<Call>)
    returns (code: Code, out: seq<Byte>, last: seq<Byte>, code': Code, out': seq<Byte>, last': seq<Byte>)
    requires env.Valid() && ValidBlocks(blocks)
    ensures |last| <= |out| && |last'| <= |out'| && (out <= out' || out' <= out)
    ensures env.Full() >= GAP &&
            var dict := Reachable(customDict, env.Full());
            var total := |Run(env, blocks, dict, [4, 11, 15, 16]).hist| - |dict|;
            Ample(blocks, calls, |out| - |last|, total) && Ample(blocks, calls', |out'| - |last'|, total) ==>
              code == code' && (code != Failure ==> out == out')
  {
    hide Run, Announced, Reachable, Units, Offered, Ample;
    code, out, last := Session(env, customDict, canny, blocks, calls);
    code', out', last' := Session(env, customDict, canny', blocks, calls');
  }
}
