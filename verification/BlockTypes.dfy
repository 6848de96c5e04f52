/** Block types and counts (section 6 of RFC 7932), and the shortcut for literals whose context does not matter. */
module BlockTypes {
  import opened Bytes
  import opened Results
  import opened BitReader
  import opened SymbolDecoding

  const LITERAL_CONTEXTS := 64 // 1 << kLiteralContextBits
  const DISTANCE_CONTEXTS := 4 // 1 << kDistanceContextBits

  // ---------- Block switches ----------

  const LENGTH_OFFSETS: seq<nat> :=
    [1, 5, 9, 13, 17, 25, 33, 41, 49, 65, 81, 97, 113, 145, 177, 209, 241, 305, 369, 497, 753, 1265, 2289,
     4337, 8433, 16625]
  const LENGTH_BITS: seq<nat> :=
    [2, 2, 2, 2, 3, 3, 3, 3, 4, 4, 4, 4, 5, 5, 5, 5, 6, 6, 7, 8, 9, 10, 11, 12, 13, 24]

  /** The ranges of the block count codes meet without gap or overlap. */
  lemma LengthRangesTile(k: nat)
    requires k + 1 < 26
    ensures LENGTH_OFFSETS[k] + Pow2(LENGTH_BITS[k]) == LENGTH_OFFSETS[k + 1]
  {
    PowersTo13();
    hide Pow2;
    var bits := LENGTH_BITS[k];
    if k < 12 {
      assert bits == 2 + k / 4;
    } else if k < 18 {
      assert bits == 2 + k / 4;
    } else {
      assert bits == k - 11;
    }
  }

  lemma PowersTo13()
    ensures Pow2(2) == 4 && Pow2(3) == 8 && Pow2(4) == 16 && Pow2(5) == 32 && Pow2(6) == 64 && Pow2(7) == 128
    ensures Pow2(8) == 256 && Pow2(9) == 512 && Pow2(10) == 1024 && Pow2(11) == 2048
    ensures Pow2(12) == 4096 && Pow2(13) == 8192
  {
  }

  lemma LongestCount()
    ensures Pow2(24) == 0x100_0000
  {
    PowersTo13();
    assert Pow2(15) == 4 * Pow2(13) && Pow2(17) == 4 * Pow2(15) && Pow2(19) == 4 * Pow2(17);
    assert Pow2(21) == 4 * Pow2(19) && Pow2(23) == 4 * Pow2(21);
  }

  predicate InRangeOf(n: nat, c: nat) {
    c < 26 && LENGTH_OFFSETS[c] <= n < LENGTH_OFFSETS[c] + Pow2(LENGTH_BITS[c])
  }

  lemma {:induction false} CodeFrom(n: nat, k: nat) returns (c: nat)
    requires k < 26 && LENGTH_OFFSETS[k] <= n <= 0x100_0000
    ensures InRangeOf(n, c)
    decreases 26 - k
  {
    if k == 25 {
      LongestCount();
      c := k;
    } else {
      hide Pow2;
      LengthRangesTile(k);
      if n < LENGTH_OFFSETS[k + 1] {
        c := k;
      } else {
        c := CodeFrom(n, k + 1);
      }
    }
  }

  /** And they cover everything from 1 to the largest meta-block. */
  lemma EveryCountHasACode(n: nat)
    requires 1 <= n <= 0x100_0000
    ensures exists c :: InRangeOf(n, c)
  {
    var c := CodeFrom(n, 0);
  }

  /** First count and number of extra bits of a block count code. */
  function RangeOf(c: nat): (r: (nat, nat))
    ensures r.1 <= 24
  {
    if c < 26 then (LENGTH_OFFSETS[c], LENGTH_BITS[c]) else (0, 0)
  }

  datatype Switch = Switch(typeCode: nat, count: nat)

  /** A block count: its code and the extra bits. */
  function CountAt(counts: seq<HuffmanCode>, s: Bits): (r: Option<(nat, Bits)>)
    requires RepresentsCode(counts)
  {
    match Decode(counts, s)
    case None => None
    case Some((m, c)) =>
      var (offset, extra) := RangeOf(c);
      var rest := s[m..];
      if extra > |rest| then None else Some((offset + Value(rest[..extra]), rest[extra..]))
  }

  /** A block switch command, a type code and a count, and what follows it. */
  function SwitchAt(types: seq<HuffmanCode>, counts: seq<HuffmanCode>, s: Bits): (r: Option<(Switch, Bits)>)
    requires RepresentsCode(types) && RepresentsCode(counts)
  {
    match Decode(types, s)
    case None => None
    case Some((n, t)) =>
      match CountAt(counts, s[n..])
      case None => None
      case Some((count, rest)) => Some((Switch(t, count), rest))
  }

  /** The same with the number of bits it takes. */
  function SwitchBits(types: seq<HuffmanCode>, counts: seq<HuffmanCode>, s: Bits): (r: Option<(nat, Switch)>)
    requires RepresentsCode(types) && RepresentsCode(counts)
    ensures r.Some? ==> r.value.0 <= |s|
  {
    match SwitchAt(types, counts, s)
    case None => None
    case Some((w, rest)) =>
      SwitchTail(types, counts, s);
      Some((|s| - |rest|, w))
  }

  /** What is left is the end of what was there. */
  lemma SwitchTail(types: seq<HuffmanCode>, counts: seq<HuffmanCode>, s: Bits)
    requires RepresentsCode(types) && RepresentsCode(counts)
    ensures SwitchAt(types, counts, s).Some? ==>
              var rest := SwitchAt(types, counts, s).value.1;
              |rest| <= |s| && rest == s[|s| - |rest|..]
  {
    hide RepresentsCode, Decode, RangeOf, Value;
  }

  /** Whatever starts with the block count reads as the same. */
  lemma CountAgrees(counts: seq<HuffmanCode>, s: Bits, t: Bits)
    requires RepresentsCode(counts) && CountAt(counts, s).Some?
    ensures var rest := CountAt(counts, s).value.1;
            var k := |s| - |rest|;
            && k >= 0
            && (s[..k] <= t ==>
                  CountAt(counts, t).Some? && CountAt(counts, t).value == (CountAt(counts, s).value.0, t[k..]))
  {
    hide RepresentsCode, Decode, RangeOf, Value;
    var (n, c) := Decode(counts, s).value;
    var x := RangeOf(c).1;
    var k := n + x;
    if s[..k] <= t {
      assert s[..k][..n] == s[..n] == t[..n];
      DecodeAgrees(counts, s, t);
      assert t[n..][..x] == t[..k][n..] == s[n..][..x];
    }
  }

  /** Whatever starts with the block switch reads as the same. */
  lemma SwitchAgrees(types: seq<HuffmanCode>, counts: seq<HuffmanCode>, s: Bits, t: Bits)
    requires RepresentsCode(types) && RepresentsCode(counts) && SwitchBits(types, counts, s).Some?
    requires s[..SwitchBits(types, counts, s).value.0] <= t
    ensures SwitchBits(types, counts, t) == SwitchBits(types, counts, s)
  {
    hide RepresentsCode, Decode, CountAt;
    var n := Decode(types, s).value.0;
    var k := SwitchBits(types, counts, s).value.0;
    SwitchTail(types, counts, s);
    CountAgrees(counts, s[n..], s[n..]);
    assert t[..k] == s[..k];
    assert s[..k][..n] == s[..n] && s[..k][n..] == s[n..][..k - n];
    DecodeAgrees(types, s, t);
    assert t[..k][n..] == t[n..][..k - n];
    CountAgrees(counts, s[n..], t[n..]);
  }

  /** The type code is one of the alphabet, and no block is empty. */
  lemma SwitchIsSound(types: seq<HuffmanCode>, counts: seq<HuffmanCode>, n: nat, s: Bits)
    requires SymbolsBelow(types, n) && SymbolsBelow(counts, 26) && SwitchBits(types, counts, s).Some?
    ensures SwitchBits(types, counts, s).value.0 <= |s|
    ensures SwitchBits(types, counts, s).value.1.typeCode < n && SwitchBits(types, counts, s).value.1.count > 0
  {
    hide RepresentsCode, Decode, SymbolsBelow, Value;
    SymbolBound(types, n, s);
    SymbolBound(counts, 26, s[Decode(types, s).value.0..]);
  }

  /** A block switch needs at most 15 + 15 + 24 bits. */
  lemma SwitchIsShort(types: seq<HuffmanCode>, counts: seq<HuffmanCode>, s: Bits)
    requires RepresentsCode(types) && RepresentsCode(counts) && SwitchAt(types, counts, s).None?
    ensures |s| < 2 * MAX_LENGTH + 24
  {
    hide RangeOf, Value;
  }

  /** The block type a code stands for, given the last one, the one before it and how many there are. */
  function NextType(code: nat, last: nat, before: nat, num: nat): nat
    requires num > 0
  {
    if code == 0 then before else if code == 1 then (last + 1) % num else code - 2
  }

  /** The same without a division. */
  function Advance(code: nat, last: nat, before: nat, num: nat): (next: nat)
    requires last < num && before < num && code < num + 2
    ensures next < num && next == NextType(code, last, before, num)
  {
    var t := if code == 1 then last + 1 else if code == 0 then before else code - 2;
    if t >= num then t - num else t
  }

  /** Two switches back: both of the last types are as they were. */
  lemma BackAndForth(last: nat, before: nat, num: nat)
    requires last < num && before < num
    ensures var t := NextType(0, last, before, num); t == before && NextType(0, t, last, num) == last
  {
  }

  /** The types that n switches to the following one lead to. */
  function Following(n: nat, last: nat, before: nat, num: nat): (types: seq<nat>)
    requires num > 0
    ensures |types| == n
    decreases n
  {
    if n == 0 then []
    else [NextType(1, last, before, num)] + Following(n - 1, NextType(1, last, before, num), last, num)
  }

  lemma {:induction false} FollowingAt(n: nat, last: nat, before: nat, num: nat, k: nat)
    requires last < num && k < n <= num
    ensures Following(n, last, before, num)[k] == if last + 1 + k < num then last + 1 + k else last + 1 + k - num
    decreases n
  {
    var next := if last + 1 < num then last + 1 else 0;
    DivModUnique(last + 1, num, if last + 1 < num then 0 else 1, next);
    if k > 0 {
      FollowingAt(n - 1, next, last, num, k - 1);
    }
  }

  /** As many of them as there are types visit every type once, the present one last. */
  lemma FollowingVisitsAll(last: nat, before: nat, num: nat)
    requires last < num && before < num
    ensures var types := Following(num, last, before, num);
            && types[num - 1] == last
            && (forall t | 0 <= t < num :: t in types)
            && (forall i, j | 0 <= i < j < num :: types[i] != types[j])
  {
    var types := Following(num, last, before, num);
    forall k | 0 <= k < num
      ensures types[k] == if last + 1 + k < num then last + 1 + k else last + 1 + k - num
    {
      FollowingAt(num, last, before, num, k);
    }
    forall t | 0 <= t < num
      ensures t in types
    {
      assert types[if t > last then t - last - 1 else t + num - last - 1] == t;
    }
  }

  /** Every type can be named. */
  lemma NamedType(type_: nat, last: nat, before: nat, num: nat)
    requires type_ < num
    ensures NextType(type_ + 2, last, before, num) == type_
  {
  }

  /** One of the three categories: its number of types, its trees, and where it stands. */
  class Category {
    const num: nat
    const types: seq<HuffmanCode>
    const counts: seq<HuffmanCode>
    var before: nat   // block_type_rb[2 * t]
    var last: nat     // block_type_rb[2 * t + 1]
    var count: nat    // block_length[t]

    ghost predicate Valid()
      reads this
    {
      1 <= num <= 256 && (num >= 2 ==> Active())
    }

    ghost predicate Active()
      reads this
    {
      && SymbolsBelow(types, num + 2) && RepresentsCode(types) && SymbolsBelow(counts, 26) && RepresentsCode(counts)
      && before < num && last < num
    }

    /** As BrotliStateMetablockBegin leaves it. */
    constructor (num: nat, types: seq<HuffmanCode>, counts: seq<HuffmanCode>)
      requires 1 <= num <= 256 && (num >= 2 ==> SymbolsBelow(types, num + 2) && SymbolsBelow(counts, 26))
      ensures Valid() && last == 0 && before == 1 && count == 0x100_0000 && this.num == num
    {
      this.num, this.types, this.counts := num, types, counts;
      before, last, count := 1, 0, 0x100_0000;
    }

    /** Either reads a whole block switch, or leaves the unread bits and the block types as they were. */
    method DecodeBlockTypeAndLength(safe: bool, br: Reader, input: seq<Byte>) returns (ok: bool)
      requires Valid() && br.Valid(input) && (safe || FAST_INPUT <= br.availIn)
      modifies this`before, this`last, this`count, br
      ensures Valid() && br.Valid(input)
      ensures num <= 1 ==> !ok
      ensures !ok ==> br.Stream(input) == old(br.Stream(input))
      ensures !ok ==> last == old(last) && before == old(before) && count == old(count)
      ensures num > 1 ==> ok == SwitchAt(types, counts, old(br.Stream(input))).Some?
      ensures ok ==>
                var (sw, rest) := SwitchAt(types, counts, old(br.Stream(input))).value;
                && br.Stream(input) == rest && count == sw.count
                && last == NextType(sw.typeCode, old(last), old(before), num) && before == old(last)
    {
      hide SwitchAt, SymbolsBelow, RepresentsCode, NextType;
      if num <= 1 {
        return false;
      }
      var code;
      if safe {
        ok, code, count := SafeReadSwitch(br, input);
        if !ok {
          return;
        }
      } else {
        code, count := ReadSwitch(br, input);
      }
      TypeCodeBound(old(br.Stream(input)), num + 2);
      before, last := last, Advance(code, last, before, num);
      return true;
    }

    lemma TypeCodeBound(s: Bits, n: nat)
      requires SymbolsBelow(types, n) && SymbolsBelow(counts, 26) && SwitchAt(types, counts, s).Some?
      ensures SwitchAt(types, counts, s).value.0.typeCode < n
    {
    }

    method ReadSwitch(br: Reader, input: seq<Byte>) returns (code: nat, n: nat)
      requires Active() && br.Valid(input) && FAST_INPUT <= br.availIn
      modifies br
      ensures br.Valid(input) && SwitchAt(types, counts, old(br.Stream(input))).Some?
      ensures SwitchAt(types, counts, old(br.Stream(input))).value == (Switch(code, n), br.Stream(input))
    {
      hide Decode, CountAt, RepresentsCode, SymbolsBelow;
      code := ReadSymbol(types, br, input);
      n := ReadBlockLength(counts, br, input);
    }

    method SafeReadSwitch(br: Reader, input: seq<Byte>) returns (ok: bool, code: nat, n: nat)
      requires Active() && br.Valid(input)
      modifies br
      ensures br.Valid(input) && ok == SwitchAt(types, counts, old(br.Stream(input))).Some?
      ensures !ok ==> br.Stream(input) == old(br.Stream(input)) && n == count
      ensures ok ==> SwitchAt(types, counts, old(br.Stream(input))).value == (Switch(code, n), br.Stream(input))
    {
      hide Decode, CountAt, RepresentsCode, SymbolsBelow;
      var memento := br.Save();
      n := count;
      ok, code := SafeReadSymbol(types, br, input);
      if !ok {
        return;
      }
      var m;
      ok, m := SafeReadBlockLength(counts, br, input);
      if ok {
        n := m;
      } else {
        br.Restore(memento);
      }
    }
  }

  /** With at least 21 bytes of input at hand. */
  method ReadBlockLength(counts: seq<HuffmanCode>, br: Reader, input: seq<Byte>) returns (n: nat)
    requires RepresentsCode(counts) && br.Valid(input) && 21 <= br.availIn
    modifies br
    ensures br.Valid(input) && CountAt(counts, old(br.Stream(input))).Some?
    ensures CountAt(counts, old(br.Stream(input))).value == (n, br.Stream(input))
  {
    hide Decode, Value, RepresentsCode, RangeOf, Reader.Valid, Reader.Stream;
    var c := ReadSymbol(counts, br, input);
    var (offset, extra) := RangeOf(c);
    n := br.ReadBits(extra, input);
    n := offset + n;
  }

  method SafeReadBlockLength(counts: seq<HuffmanCode>, br: Reader, input: seq<Byte>) returns (ok: bool, n: nat)
    requires RepresentsCode(counts) && br.Valid(input)
    modifies br
    ensures br.Valid(input) && ok == CountAt(counts, old(br.Stream(input))).Some?
    ensures ok ==> CountAt(counts, old(br.Stream(input))).value == (n, br.Stream(input))
  {
    hide Decode, Value, RepresentsCode, RangeOf, Reader.Valid, Reader.Stream;
    var c;
    n := 0;
    ok, c := SafeReadSymbol(counts, br, input);
    if ok {
      var (offset, extra) := RangeOf(c);
      ok, n := br.SafeReadBits(extra, input);
      n := offset + n;
    }
  }

  /**
   * DecodeDistanceBlockSwitchInternal: the part of the context map for the new block type, and the tree that the
   * pending command's distance context picks there.
   */
  method DecodeDistanceBlockSwitch(safe: bool, category: Category, contextMap: seq<Byte>, context: nat,
                                   br: Reader, input: seq<Byte>)
    returns (ok: bool, slice: nat, htree: Byte)
    requires category.Valid() && br.Valid(input) && (safe || FAST_INPUT <= br.availIn)
    requires |contextMap| == DISTANCE_CONTEXTS * category.num && context < DISTANCE_CONTEXTS
    modifies category`before, category`last, category`count, br
    ensures category.Valid() && br.Valid(input) && (category.num <= 1 ==> !ok)
    ensures !ok ==> br.Stream(input) == old(br.Stream(input)) && category.last == old(category.last)
    ensures ok ==> slice == DISTANCE_CONTEXTS * category.last && slice + DISTANCE_CONTEXTS <= |contextMap|
    ensures ok ==> htree == contextMap[slice..][context]
  {
    hide SwitchAt, NextType, SymbolsBelow, RepresentsCode;
    ok := category.DecodeBlockTypeAndLength(safe, br, input);
    slice, htree := 0, 0;
    if ok {
      slice := DISTANCE_CONTEXTS * category.last;
      htree := contextMap[slice + context];
    }
  }

  // ---------- Literals whose context does not matter ----------

  /** Bit k of v, as a shift and a mask. */
  predicate Bit(v: nat, k: nat) {
    (v / Pow2(k)) % 2 == 1
  }

  lemma {:induction false} BitStep(v: nat, k: nat)
    ensures Bit(v, k + 1) == Bit(v / 2, k) && Bit(v, 0) == (v % 2 == 1)
  {
    HalveFirst(v, Pow2(k));
  }

  lemma HalveFirst(v: nat, m: nat)
    requires m > 0
    ensures v / (2 * m) == (v / 2) / m
  {
    DivModUnique(v, 2 * m, (v / 2) / m, 2 * ((v / 2) % m) + v % 2);
  }

  lemma {:induction false} NoBits(k: nat)
    ensures !Bit(0, k)
  {
    DivModUnique(0, Pow2(k), 0, 0);
  }

  lemma {:induction false} OneBit(k: nat, j: nat)
    ensures Bit(Pow2(k), j) == (j == k)
  {
    hide Bit;
    if j > 0 {
      BitStep(Pow2(k), j - 1);
      if k > 0 {
        OneBit(k - 1, j - 1);
      } else {
        NoBits(j - 1);
      }
    } else {
      BitStep(Pow2(k), 0);
    }
  }

  lemma OrHalves(v: nat, w: nat)
    ensures BitOr(v, w) / 2 == BitOr(v / 2, w / 2)
    ensures BitOr(v, w) % 2 == if v % 2 == 0 && w % 2 == 0 then 0 else 1
  {
  }

  /** Or-ing a power of two sets that bit and no other. */
  lemma {:induction false} SetBit(v: nat, k: nat, j: nat)
    ensures Bit(BitOr(v, Pow2(k)), j) == (Bit(v, j) || j == k)
  {
    hide Bit, BitOr, Pow2;
    var p := Pow2(k);
    OrHalves(v, p);
    OneBit(k, j);
    if j == 0 {
      BitStep(v, 0);
      BitStep(p, 0);
      BitStep(BitOr(v, p), 0);
    } else {
      BitStep(v, j - 1);
      BitStep(BitOr(v, p), j - 1);
      HalfPow2(k);
      if k > 0 {
        SetBit(v / 2, k - 1, j - 1);
      } else {
        OrNothing(v / 2);
      }
    }
  }

  lemma HalfPow2(k: nat)
    ensures Pow2(k) / 2 == if k == 0 then 0 else Pow2(k - 1)
  {
  }

  lemma OrNothing(v: nat)
    ensures BitOr(v, 0) == v
  {
  }

  lemma {:induction false} XorIsZero(a: nat, b: nat)
    ensures BitXor(a, b) == 0 <==> a == b
  {
    if a != 0 && b != 0 {
      XorIsZero(a / 2, b / 2);
    }
  }

  lemma OrIsZero(a: nat, b: nat)
    ensures BitOr(a, b) == 0 <==> a == 0 && b == 0
  {
  }

  /** The context map of the literals and what was found out about it. */
  class LiteralTables {
    var contextMap: seq<Byte>
    const trivialLiteralContexts: array<nat>

    constructor (contextMap: seq<Byte>)
      ensures this.contextMap == contextMap && trivialLiteralContexts.Length == 8 && fresh(trivialLiteralContexts)
    {
      this.contextMap := contextMap;
      trivialLiteralContexts := new nat[8](_ => 0);
    }

    /** The tree that the context lookup picks for a literal of block type t in context c. */
    function Tree(t: nat, c: nat): (index: Byte)
      requires c < LITERAL_CONTEXTS && LITERAL_CONTEXTS * (t + 1) <= |contextMap|
      reads this
    {
      contextMap[LITERAL_CONTEXTS * t + c]
    }

    /** In every context, literals of block type t have the same tree. */
    ghost predicate Uniform(t: nat)
      requires LITERAL_CONTEXTS * (t + 1) <= |contextMap|
      reads this
    {
      forall c | 0 <= c < LITERAL_CONTEXTS :: Tree(t, c) == Tree(t, 0)
    }

    /** One bit per block type: set exactly when its literals do not depend on the context. */
    ghost predicate Detected(n: nat)
      requires n <= 256 && LITERAL_CONTEXTS * n <= |contextMap|
      reads this, trivialLiteralContexts
    {
      && trivialLiteralContexts.Length == 8
      && (forall t | 0 <= t < n :: Bit(trivialLiteralContexts[t / 32], t % 32) == Uniform(t))
      && (forall t | n <= t < 256 :: !Bit(trivialLiteralContexts[t / 32], t % 32))
    }

    method DetectTrivialLiteralBlockTypes(num: nat)
      requires trivialLiteralContexts.Length == 8 && num <= 256 && |contextMap| == LITERAL_CONTEXTS * num
      modifies trivialLiteralContexts
      ensures Detected(num)
    {
      hide Bit;
      for k := 0 to 8
        invariant forall m | 0 <= m < k :: trivialLiteralContexts[m] == 0
      {
        trivialLiteralContexts[k] := 0;
      }
      forall t | 0 <= t < 256
        ensures !Bit(trivialLiteralContexts[t / 32], t % 32)
      {
        NoBits(t % 32);
      }
      for i := 0 to num
        invariant Detected(i)
      {
        var same := SameTree(i);
        if same {
          MarkTrivial(i);
        }
      }
    }

    /** The exclusive ors with the first entry, or-ed together. */
    method SameTree(t: nat) returns (same: bool)
      requires LITERAL_CONTEXTS * (t + 1) <= |contextMap|
      ensures same == Uniform(t)
    {
      var offset := LITERAL_CONTEXTS * t;
      var error, sample := 0, contextMap[offset];
      for j := 0 to LITERAL_CONTEXTS
        invariant error == 0 <==> forall c | 0 <= c < j :: Tree(t, c) == sample
      {
        XorIsZero(contextMap[offset + j], sample);
        OrIsZero(error, BitXor(contextMap[offset + j], sample));
        assert Tree(t, j) == contextMap[offset + j];
        error := BitOr(error, BitXor(contextMap[offset + j], sample));
      }
      same := error == 0;
    }

    method MarkTrivial(i: nat)
      requires i < 256 && LITERAL_CONTEXTS * (i + 1) <= |contextMap| && Detected(i) && Uniform(i)
      modifies trivialLiteralContexts
      ensures Detected(i + 1)
    {
      hide Bit;
      ghost var was := trivialLiteralContexts[i / 32];
      trivialLiteralContexts[i / 32] := BitOr(trivialLiteralContexts[i / 32], Pow2(i % 32));
      forall t | 0 <= t < 256 && t / 32 == i / 32
        ensures Bit(trivialLiteralContexts[t / 32], t % 32) == (Bit(was, t % 32) || t == i)
      {
        SetBit(was, i % 32, t % 32);
      }
    }

    /**
     * Where the context map of a block type starts, whether its literals are read without looking at the
     * context, the tree they are then read with, and which of the context lookups applies otherwise.
     */
    method PrepareLiteralDecoding(blockType: nat, num: nat, contextModes: seq<Byte>)
      returns (slice: nat, trivial: bool, htree: Byte, lookup: nat)
      requires blockType < num <= 256 && |contextMap| == LITERAL_CONTEXTS * num && Detected(num)
      requires |contextModes| == num
      ensures slice + LITERAL_CONTEXTS <= |contextMap| && trivial == Uniform(blockType)
      ensures forall c | 0 <= c < LITERAL_CONTEXTS :: contextMap[slice..][c] == Tree(blockType, c)
      ensures trivial ==> forall c | 0 <= c < LITERAL_CONTEXTS :: Tree(blockType, c) == htree
      ensures lookup < 4 && (contextModes[blockType] < 4 ==> lookup == contextModes[blockType])
    {
      slice := LITERAL_CONTEXTS * blockType;
      trivial := Bit(trivialLiteralContexts[blockType / 32], blockType % 32);
      htree := contextMap[slice];
      lookup := contextModes[blockType] % 4;
    }
  }
}
