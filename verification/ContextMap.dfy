/**
 * Context maps (section 7.3 of RFC 7932): zero runs, and a decoder that may be interrupted anywhere, even
 * between the symbol of a run and its extra bits.
 */
module ContextMap {
  import opened Bytes
  import opened Results
  import opened BitReader
  import opened SymbolDecoding
  import opened MoveToFront

  const NO_CODE := 0xFFFF

  datatype Result = Complete(map_: seq<Byte>, rest: Bits) | Invalid | Incomplete

  /** What is fixed while one map is read. */
  datatype MapParams = MapParams(table: seq<HuffmanCode>, maxRun: nat, numHtrees: nat, size: nat) {
    ghost predicate Valid() {
      && RepresentsCode(table) && 2 <= numHtrees <= 256 && maxRun <= 16
      && forall s: Bits :: Decode(table, s).Some? ==> Decode(table, s).value.1 < numHtrees + maxRun
    }
  }

  function ZeroRun(n: nat): (z: seq<Byte>)
    ensures |z| == n && forall k | 0 <= k < n :: z[k] == 0
  {
    seq(n, _ => 0)
  }

  /** The items from s on, when done has been read; with pending, the extra bits of a run come first. */
  function MapRun(p: MapParams, done: seq<Byte>, pending: Option<nat>, s: Bits): Result
    requires p.Valid() && |done| <= p.size
    decreases p.size - |done|, if pending.Some? then 0 else 1
  {
    match pending
    case Some(code) =>
      if |s| < code then Incomplete
      else
        var reps := Pow2(code) + Value(s[..code]);
        if |done| + reps > p.size then Invalid else MapRun(p, done + ZeroRun(reps), None, s[code..])
    case None =>
      if |done| == p.size then Complete(done, s)
      else
        match Decode(p.table, s)
        case None => Incomplete
        case Some((n, code)) =>
          if code == 0 then MapRun(p, done + [0], None, s[n..])
          else if code > p.maxRun then MapRun(p, done + [code - p.maxRun], None, s[n..])
          else MapRun(p, done, Some(code), s[n..])
  }

  ghost predicate Below(map_: seq<Byte>, n: nat) {
    forall k | 0 <= k < |map_| :: map_[k] < n
  }

  /** A complete map has as many entries as announced, all of them naming a tree that exists. */
  lemma {:induction false} CompleteMapIsSound(p: MapParams, done: seq<Byte>, pending: Option<nat>, s: Bits)
    requires p.Valid() && |done| <= p.size && Below(done, p.numHtrees)
    ensures var r := MapRun(p, done, pending, s);
            r.Complete? ==> |r.map_| == p.size && Below(r.map_, p.numHtrees)
    decreases p.size - |done|, if pending.Some? then 0 else 1
  {
    hide Decode, RepresentsCode, Pow2, Value;
    match pending
    case Some(code) =>
      if |s| >= code {
        var reps := Pow2(code) + Value(s[..code]);
        if |done| + reps <= p.size {
          CompleteMapIsSound(p, done + ZeroRun(reps), None, s[code..]);
        }
      }
    case None =>
      if |done| < p.size {
        match Decode(p.table, s)
        case None =>
        case Some((n, code)) =>
          if code == 0 {
            CompleteMapIsSound(p, done + [0], None, s[n..]);
          } else if code > p.maxRun {
            CompleteMapIsSound(p, done + [code - p.maxRun], None, s[n..]);
          } else {
            CompleteMapIsSound(p, done, Some(code), s[n..]);
          }
      }
  }

  /** What is read from b is also read from c, if that starts with the bits taken; nonsense stays nonsense. */
  ghost predicate SameRun(r: Result, r': Result, b: Bits, c: Bits) {
    && (r.Complete? ==>
          && |r.rest| <= |b| && r.rest == b[|b| - |r.rest|..]
          && (b[..|b| - |r.rest|] <= c ==> r' == Complete(r.map_, c[|b| - |r.rest|..])))
    && (r.Invalid? && b <= c ==> r'.Invalid?)
  }

  lemma {:induction false} MapAgrees(p: MapParams, done: seq<Byte>, pending: Option<nat>, b: Bits, c: Bits)
    requires p.Valid() && |done| <= p.size
    ensures SameRun(MapRun(p, done, pending, b), MapRun(p, done, pending, c), b, c)
    decreases p.size - |done|, if pending.Some? then 0 else 1, 0
  {
    hide Decode, RepresentsCode, Pow2, Value;
    match pending
    case Some(code) =>
      if |b| >= code {
        var reps := Pow2(code) + Value(b[..code]);
        if b[..code] <= c {
          assert c[..code] == b[..code];
        }
        if |done| + reps <= p.size {
          MapGoesOn(p, done + ZeroRun(reps), None, b, c, code);
        } else if b <= c {
          SplitPrefix(b, c, code, |b|);
        }
      }
    case None =>
      if |done| < p.size && Decode(p.table, b).Some? {
        var (k, code) := Decode(p.table, b).value;
        if b[..k] <= c {
          DecodeAgrees(p.table, b, c);
        }
        if code == 0 {
          MapGoesOn(p, done + [0], None, b, c, k);
        } else if code > p.maxRun {
          MapGoesOn(p, done + [code - p.maxRun], None, b, c, k);
        } else {
          MapGoesOn(p, done, Some(code), b, c, k);
        }
      }
  }

  /** After the first k bits. */
  lemma {:induction false} MapGoesOn(p: MapParams, done: seq<Byte>, pending: Option<nat>, b: Bits, c: Bits, k: nat)
    requires p.Valid() && |done| <= p.size && k <= |b|
    ensures b[..k] <= c ==> SameRun(MapRun(p, done, pending, b[k..]), MapRun(p, done, pending, c[k..]), b, c)
    ensures !(b[..k] <= c) ==> forall r' :: SameRun(MapRun(p, done, pending, b[k..]), r', b, c)
    decreases p.size - |done|, if pending.Some? then 0 else 1, 1
  {
    hide MapRun, RepresentsCode;
    var r := MapRun(p, done, pending, b[k..]);
    MapAgrees(p, done, pending, b[k..], if k <= |c| then c[k..] else []);
    if r.Complete? && b[..|b| - |r.rest|] <= c {
      SplitPrefix(b, c, k, |b| - |r.rest|);
    }
    if r.Invalid? && b <= c {
      SplitPrefix(b, c, k, |b|);
    }
  }

  /** One step of MapRun at a time, whatever input is still to come. */
  lemma SymbolStep(p: MapParams, done: seq<Byte>, s: Bits, future: Bits)
    requires p.Valid() && |done| < p.size && Decode(p.table, s).Some?
    ensures var (n, code) := Decode(p.table, s).value;
            MapRun(p, done, None, s + future) ==
            if code == 0 then MapRun(p, done + [0], None, s[n..] + future)
            else if code > p.maxRun then MapRun(p, done + [code - p.maxRun], None, s[n..] + future)
            else MapRun(p, done, Some(code), s[n..] + future)
  {
    hide Decode, RepresentsCode, Pow2, Value;
    DecodeIsStable(p.table, s, future);
    var n := Decode(p.table, s).value.0;
    assert (s + future)[n..] == s[n..] + future;
  }

  lemma RunStep(p: MapParams, done: seq<Byte>, code: nat, s: Bits, future: Bits)
    requires p.Valid() && |done| <= p.size && code <= |s|
    ensures var reps := Pow2(code) + Value(s[..code]);
            MapRun(p, done, Some(code), s + future) ==
            if |done| + reps > p.size then Invalid else MapRun(p, done + ZeroRun(reps), None, s[code..] + future)
  {
    hide Decode, RepresentsCode, Pow2, Value;
    assert (s + future)[..code] == s[..code] && (s + future)[code..] == s[code..] + future;
  }

  class ContextMapDecoder {
    const p: MapParams
    const entries: array<Byte>
    var index: nat    // context_index
    var code: nat     // a run whose extra bits have not been read yet, or NO_CODE

    ghost predicate Valid()
      reads this
    {
      && p.Valid() && entries.Length == p.size && index <= p.size
      && (code == NO_CODE || (1 <= code <= p.maxRun && index < p.size))
    }

    ghost function Pending(): Option<nat>
      reads this
    {
      if code == NO_CODE then None else Some(code)
    }

    /** What the rest of the input will make of the map. */
    ghost function Future(s: Bits): Result
      requires Valid()
      reads this, entries
    {
      MapRun(p, entries[..index], Pending(), s)
    }

    constructor (p: MapParams)
      requires p.Valid()
      ensures Valid() && fresh(entries) && this.p == p && index == 0
      ensures forall s :: Future(s) == MapRun(p, [], None, s)
    {
      this.p := p;
      entries := new Byte[p.size];
      index, code := 0, NO_CODE;
      new;
      assert entries[..0] == [];
    }

    method Put(b: Byte)
      requires Valid() && index < p.size
      modifies this`index, entries
      ensures index == old(index) + 1 && entries[..index] == old(entries[..index]) + [b]
    {
      entries[index] := b;
      index := index + 1;
    }

    method PutZeros(n: nat)
      requires Valid() && 1 <= n && index + n <= p.size
      modifies this`index, entries
      ensures index == old(index) + n && entries[..index] == old(entries[..index]) + ZeroRun(n)
    {
      var reps := n;
      while reps > 0
        invariant reps <= n && index == old(index) + (n - reps) && entries.Length == p.size
        invariant entries[..index] == old(entries[..index]) + ZeroRun(n - reps)
      {
        entries[index] := 0;
        index := index + 1;
        reps := reps - 1;
      }
    }

    /** The next symbol: an entry, or the start of a run. */
    method TakeSymbol(br: Reader, input: seq<Byte>, ghost future: Bits) returns (ok: bool)
      requires Valid() && br.Valid(input) && code == NO_CODE && index < p.size
      modifies this`index, this`code, entries, br
      ensures Valid() && br.Valid(input)
      ensures Future(br.Stream(input) + future) == old(Future(br.Stream(input) + future))
      ensures ok ==> index > old(index) || (code != NO_CODE && index == old(index))
      ensures !ok ==> br.availIn == 0 && Future(br.Stream(input)).Incomplete? && code == NO_CODE
    {
      hide MapRun, Decode, RepresentsCode, Pow2, Value, Index;
      ghost var s, done := br.Stream(input), entries[..index];
      var symbol;
      ok, symbol := SafeReadSymbol(p.table, br, input);
      if !ok {
        NoSymbol(p, done, s);
        return;
      }
      SymbolStep(p, done, s, future);
      if symbol == 0 {
        Put(0);
      } else if symbol > p.maxRun {
        Put(symbol - p.maxRun);
      } else {
        code := symbol;
      }
    }

    lemma NoSymbol(p: MapParams, done: seq<Byte>, s: Bits)
      requires p.Valid() && |done| < p.size && Decode(p.table, s).None?
      ensures MapRun(p, done, None, s) == Incomplete
    {
    }

    /** The extra bits of a run, and its zeros. */
    method TakeRun(br: Reader, input: seq<Byte>, ghost future: Bits) returns (result: Code)
      requires Valid() && br.Valid(input) && code != NO_CODE
      modifies this`index, this`code, entries, br
      ensures Valid() && br.Valid(input)
      ensures result == Failure ==> old(Future(br.Stream(input) + future)) == Invalid
      ensures result != Failure ==> Future(br.Stream(input) + future) == old(Future(br.Stream(input) + future))
      ensures result == Success ==> index > old(index)
      ensures result == NeedsMoreInput ==> br.availIn == 0 && Future(br.Stream(input)).Incomplete?
    {
      hide Decode, RepresentsCode, Pow2, Value, Reader.Stream;
      ghost var s, done := br.Stream(input), entries[..index];
      var ok, extra := br.SafeReadBits(code, input);
      if !ok {
        return NeedsMoreInput;
      }
      RunStep(p, done, code, s, future);
      var reps := extra + Pow2(code);
      if index + reps > p.size {
        return Failure;
      }
      hide MapRun;
      PutZeros(reps);
      code := NO_CODE;
      return Success;
    }

    /** CONTEXT_MAP_DECODE, from wherever it was interrupted. */
    method DecodeEntries(br: Reader, input: seq<Byte>, ghost future: Bits) returns (result: Code)
      requires Valid() && br.Valid(input)
      modifies this`index, this`code, entries, br
      ensures Valid() && br.Valid(input)
      ensures result == NeedsMoreInput ==>
                && Future(br.Stream(input) + future) == old(Future(br.Stream(input) + future))
                && Future(br.Stream(input)).Incomplete? && br.availIn == 0
      ensures result == Success ==>
                old(Future(br.Stream(input) + future)) == Complete(entries[..], br.Stream(input) + future)
      ensures result == Failure ==> old(Future(br.Stream(input) + future)) == Invalid
    {
      while code != NO_CODE || index < p.size
        invariant Valid() && br.Valid(input)
        invariant Future(br.Stream(input) + future) == old(Future(br.Stream(input) + future))
        decreases p.size - index, if code == NO_CODE then 1 else 0
      {
        hide MapRun, Decode, RepresentsCode, Pow2, Value;
        if code == NO_CODE {
          var ok := TakeSymbol(br, input, future);
          if !ok {
            return NeedsMoreInput;
          }
        } else {
          result := TakeRun(br, input, future);
          if result != Success {
            return;
          }
        }
      }
      assert entries[..index] == entries[..];
      return Success;
    }

    /** CONTEXT_MAP_TRANSFORM: the complete map, transformed if its last bit says so. */
    method TransformEntries(br: Reader, input: seq<Byte>, table: Table) returns (result: Code)
      requires Valid() && br.Valid(input) && table.Valid() && table.mtf != entries && index == p.size
      requires Below(entries[..], p.numHtrees)
      modifies br, entries, table`upperBound, table.mtf
      ensures br.Valid(input) && table.Valid() && Below(entries[..], p.numHtrees)
      ensures result == (if old(br.Stream(input)) == [] then NeedsMoreInput else Success)
      ensures result == Success ==>
                && entries[..] == (if old(br.Stream(input))[0] then Inverse(Identity(), old(entries[..]))
                                   else old(entries[..]))
                && br.Stream(input) == old(br.Stream(input))[1..]
      ensures result == NeedsMoreInput ==> entries[..] == old(entries[..]) && br.Stream(input) == []
    {
      ghost var s := br.Stream(input);
      var ok, bit := br.SafeReadBits(1, input);
      if !ok {
        return NeedsMoreInput;
      }
      assert s[..1] == [s[0]] && s[..1][1..] == [];
      if bit != 0 {
        InverseBound(Identity(), entries[..], p.numHtrees);
        assert entries[..p.size] == entries[..];
        table.InverseMoveToFrontTransform(entries, p.size);
        assert entries[..p.size] == entries[..];
      }
      return Success;
    }
  }
}
