/**
 * Two-level prefix code tables (src/decode.rs:360-500): reading with plenty of input, reading the last bits of
 * a chunk, and reading ahead all agree with one prefix-stable decoding function.
 */
module SymbolDecoding {
  import opened Bytes
  import opened Results
  import opened BitReader

  const ROOT := 8

  datatype HuffmanCode = HuffmanCode(bits: nat, value: nat)

  /** Entries stay inside the table, and code lengths inside 15 bits. */
  ghost predicate Shaped(table: seq<HuffmanCode>)
    ensures Shaped(table) ==> |table| >= 256
  {
    && |table| >= 256
    && forall i | 0 <= i < 256 ::
         var e := table[i];
         e.bits > ROOT ==>
           && e.bits <= MAX_LENGTH && i + e.value + Pow2(e.bits - ROOT) <= |table|
           && forall j | i + e.value <= j < i + e.value + Pow2(e.bits - ROOT) :: 1 <= table[j].bits <= e.bits - ROOT
  }

  /** Length and symbol of the codeword that a window of 15 bits starts with. */
  function Lookup(table: seq<HuffmanCode>, w: Bits): (r: (nat, nat))
    requires Shaped(table) && |w| == MAX_LENGTH
    ensures r.0 <= MAX_LENGTH
  {
    var i := Index(w[..ROOT], ROOT);
    var e := table[i];
    if e.bits <= ROOT then (e.bits, e.value)
    else
      var sub := table[i + e.value + Index(w[ROOT..e.bits], e.bits - ROOT)];
      (ROOT + sub.bits, sub.value)
  }

  function Index(b: Bits, n: nat): (i: nat)
    requires |b| == n
    ensures i == Value(b) < Pow2(n)
    ensures n == ROOT ==> i < 256
  {
    ValueBound(b);
    assert Pow2(8) == 256;
    Value(b)
  }

  /** The table represents a prefix code: only the bits of the codeword decide. */
  ghost predicate RepresentsCode(table: seq<HuffmanCode>) {
    Shaped(table) &&
    forall w: Bits, w': Bits | |w| == |w'| == MAX_LENGTH && w[..Lookup(table, w).0] == w'[..Lookup(table, w).0] ::
      Lookup(table, w') == Lookup(table, w)
  }

  function Pad(s: Bits): (w: Bits)
    ensures |w| == MAX_LENGTH
  {
    if |s| >= MAX_LENGTH then s[..MAX_LENGTH] else s + Zeros(MAX_LENGTH - |s|)
  }

  /** The first codeword of s, if s holds all of it. */
  function Decode(table: seq<HuffmanCode>, s: Bits): (r: Option<(nat, nat)>)
    requires RepresentsCode(table)
    ensures r.Some? ==> r.value.0 <= |s| && r.value.0 <= MAX_LENGTH
  {
    var (len, symbol) := Lookup(table, Pad(s));
    if len <= |s| then Some((len, symbol)) else None
  }

  /** All symbols belong to an alphabet of n. */
  ghost predicate SymbolsBelow(table: seq<HuffmanCode>, n: nat) {
    RepresentsCode(table) && forall s: Bits :: Decode(table, s).Some? ==> Decode(table, s).value.1 < n
  }

  lemma SymbolBound(table: seq<HuffmanCode>, n: nat, s: Bits)
    requires SymbolsBelow(table, n)
    ensures RepresentsCode(table) && (Decode(table, s).Some? ==> Decode(table, s).value.1 < n)
  {
  }

  /** Further input never changes a symbol that has been read. */
  lemma DecodeIsStable(table: seq<HuffmanCode>, s: Bits, more: Bits)
    requires RepresentsCode(table) && Decode(table, s).Some?
    ensures Decode(table, s + more) == Decode(table, s)
  {
    var n := Decode(table, s).value.0;
    assert Pad(s)[..n] == Pad(s + more)[..n];
  }

  /** And only the bits of the codeword are needed. */
  lemma DecodeIsMinimal(table: seq<HuffmanCode>, s: Bits)
    requires RepresentsCode(table) && Decode(table, s).Some?
    ensures Decode(table, s[..Decode(table, s).value.0]) == Decode(table, s)
  {
    var n := Decode(table, s).value.0;
    assert Pad(s)[..n] == Pad(s[..n])[..n];
  }

  /** Whatever starts with the codeword decodes to the same symbol. */
  lemma DecodeAgrees(table: seq<HuffmanCode>, s: Bits, t: Bits)
    requires RepresentsCode(table) && Decode(table, s).Some? && s[..Decode(table, s).value.0] <= t
    ensures Decode(table, t) == Decode(table, s)
  {
    hide RepresentsCode, Decode;
    var n := Decode(table, s).value.0;
    DecodeIsMinimal(table, s);
    DecodeIsStable(table, s[..n], t[n..]);
    assert s[..n] + t[n..] == t;
  }

  lemma DecodeIsTotal(table: seq<HuffmanCode>, s: Bits)
    requires RepresentsCode(table) && |s| >= MAX_LENGTH
    ensures Decode(table, s).Some?
  {
  }

  /** The table indices computed from a number are those of the window. */
  lemma Indices(b: Bits, n: nat)
    requires ROOT + n <= |b|
    ensures Value(b) % 256 == Value(b[..ROOT])
    ensures (Value(b) / 256) % Pow2(n) == Value(b[ROOT..ROOT + n])
  {
    assert Pow2(8) == 256;
    ValueSplit(b, ROOT);
    ValueSplit(b[ROOT..], n);
    assert b[ROOT..][..n] == b[ROOT..ROOT + n];
  }

  /** Length and symbol found by masking and shifting the number that the accumulator shows. */
  ghost function Walk(table: seq<HuffmanCode>, val: nat): (r: (nat, nat))
    requires Shaped(table)
  {
    var e := table[val % 256];
    if e.bits <= ROOT then (e.bits, e.value)
    else
      var sub := table[val % 256 + e.value + (val / 256) % Pow2(e.bits - ROOT)];
      (ROOT + sub.bits, sub.value)
  }

  /** With at least 15 bits shown, this is the first codeword. */
  lemma WalkDecodes(table: seq<HuffmanCode>, s: Bits, shown: nat)
    requires RepresentsCode(table) && MAX_LENGTH <= shown <= |s|
    ensures s != [] && Decode(table, s) == Some(Walk(table, Value(s[..shown])))
  {
    hide Value, Pow2, Zeros, RepresentsCode;
    ShapedByCode(table);
    var a, w := s[..shown], Pad(s);
    assert w == s[..MAX_LENGTH];
    Indices(a, 0);
    assert a[..ROOT] == w[..ROOT];
    var e := table[Index(w[..ROOT], ROOT)];
    if e.bits > ROOT {
      SubIndex(table, a, w);
    }
  }

  lemma ShapedByCode(table: seq<HuffmanCode>)
    requires RepresentsCode(table)
    ensures Shaped(table)
  {
  }

  lemma EntryIsShort(table: seq<HuffmanCode>, i: nat)
    requires Shaped(table) && i < 256
    ensures table[i].bits <= MAX_LENGTH
  {
  }

  lemma SubIndex(table: seq<HuffmanCode>, a: Bits, w: Bits)
    requires Shaped(table) && |w| == MAX_LENGTH <= |a| && w == a[..MAX_LENGTH]
    requires table[Index(w[..ROOT], ROOT)].bits > ROOT
    ensures var n := table[Index(w[..ROOT], ROOT)].bits;
            n <= MAX_LENGTH && (Value(a) / 256) % Pow2(n - ROOT) == Index(w[ROOT..n], n - ROOT)
  {
    hide Value, Pow2, Index, Shaped;
    var n := table[Index(w[..ROOT], ROOT)].bits;
    EntryIsShort(table, Index(w[..ROOT], ROOT));
    Indices(a, n - ROOT);
    assert a[..MAX_LENGTH][ROOT..n] == a[ROOT..n];
  }

  /** With at least 15 bits at hand; val is what the accumulator shows of them. */
  method DecodeSymbol(val: nat, table: seq<HuffmanCode>, br: Reader, ghost shown: nat, ghost input: seq<Byte>)
    returns (symbol: nat)
    requires RepresentsCode(table) && br.Valid(input)
    requires MAX_LENGTH <= shown <= |br.acc| && val == Value(br.acc[..shown])
    modifies br
    ensures br.Valid(input) && old(br.Stream(input)) != [] && Decode(table, old(br.Stream(input))).Some?
    ensures var (n, v) := Decode(table, old(br.Stream(input))).value;
            symbol == v && br.Stream(input) == old(br.Stream(input))[n..] && br.acc == old(br.acc)[n..]
    ensures br.availIn == old(br.availIn)
  {
    hide Value, Pow2, Zeros, ByteBits, Decode, RepresentsCode;
    ghost var s := br.Stream(input);
    assert s[..shown] == br.acc[..shown];
    WalkDecodes(table, s, shown);
    ShapedByCode(table);
    var index := val % 256;
    var e := table[index];
    if e.bits > ROOT {
      var nbits := e.bits - ROOT;
      br.DropBits(ROOT, input);
      index := index + e.value;
      e := table[index + (val / 256) % Pow2(nbits)];
      br.DropBits(e.bits, input);
      assert s[ROOT..][e.bits..] == s[ROOT + e.bits..];
    } else {
      br.DropBits(e.bits, input);
    }
    symbol := e.value;
  }

  /** With fewer than 15 bits at hand, and nothing more to pull: only what is there may decide. */
  method SafeDecodeSymbol(table: seq<HuffmanCode>, br: Reader, ghost input: seq<Byte>) returns (ok: bool, symbol: nat)
    requires RepresentsCode(table) && br.Valid(input) && br.availIn == 0 && |br.acc| < MAX_LENGTH
    modifies br
    ensures br.Valid(input) && ok == Decode(table, old(br.Stream(input))).Some?
    ensures if ok then
              var (n, v) := Decode(table, old(br.Stream(input))).value;
              symbol == v && br.Stream(input) == old(br.Stream(input))[n..]
            else br.Save() == old(br.Save())
  {
    hide Value, Pow2, Zeros, ByteBits, Pad;
    ghost var s := br.Stream(input);
    assert s == br.acc;
    ghost var w := Pad(s);
    PaddedValue(s);
    Indices(w, 0);
    var available := |br.acc|;
    if available == 0 {
      assert s == [] && Value(w) == 0;
      if table[0].bits == 0 {
        assert s[0..] == s;
        return true, table[0].value;
      }
      NoEmptySub(table, w);
      return false, 0;
    }
    var val := Value(br.acc);
    var index := val % 256;
    var e := table[index];
    if e.bits <= ROOT {
      if e.bits <= available {
        br.DropBits(e.bits, input);
        return true, e.value;
      }
      return false, 0;
    }
    NoEmptySub(table, w);
    if available <= ROOT {
      return false, 0;
    }
    Indices(w, e.bits - ROOT);
    var sub := table[index + e.value + (val / 256) % Pow2(e.bits - ROOT)];
    if available - ROOT < sub.bits {
      return false, 0;
    }
    br.DropBits(ROOT + sub.bits, input);
    return true, sub.value;
  }

  /** Missing bits read as zeros. */
  lemma PaddedValue(s: Bits)
    requires |s| <= MAX_LENGTH
    ensures Value(Pad(s)) == Value(s) && Value([]) == 0
  {
    hide Value, Zeros;
    ValueZeros(s, MAX_LENGTH - |s|);
    if |s| == MAX_LENGTH {
      assert s[..MAX_LENGTH] == s;
    }
  }

  /** A codeword of the second level is longer than the first. */
  lemma NoEmptySub(table: seq<HuffmanCode>, w: Bits)
    requires Shaped(table) && |w| == MAX_LENGTH
    ensures table[Index(w[..ROOT], ROOT)].bits > ROOT ==> Lookup(table, w).0 > ROOT
  {
  }

  /** Either way: a symbol is read exactly when its codeword has arrived. */
  method SafeReadSymbol(table: seq<HuffmanCode>, br: Reader, input: seq<Byte>) returns (ok: bool, symbol: nat)
    requires RepresentsCode(table) && br.Valid(input)
    modifies br
    ensures br.Valid(input) && ok == Decode(table, old(br.Stream(input))).Some?
    ensures if ok then
              var (n, v) := Decode(table, old(br.Stream(input))).value;
              symbol == v && br.Stream(input) == old(br.Stream(input))[n..]
            else br.Stream(input) == old(br.Stream(input)) && br.availIn == 0
  {
    var val;
    ok, val := br.SafeGetBits(MAX_LENGTH, input);
    if ok {
      assert br.acc[..MAX_LENGTH] == br.Stream(input)[..MAX_LENGTH];
      symbol := DecodeSymbol(val, table, br, MAX_LENGTH, input);
    } else {
      ok, symbol := SafeDecodeSymbol(table, br, input);
    }
  }

  /** With plenty of input: at least 16 bits are made available first. */
  method ReadSymbol(table: seq<HuffmanCode>, br: Reader, input: seq<Byte>) returns (symbol: nat)
    requires RepresentsCode(table) && br.Valid(input) && 8 <= br.availIn
    modifies br
    ensures br.Valid(input) && Decode(table, old(br.Stream(input))).Some?
    ensures var (n, v) := Decode(table, old(br.Stream(input))).value;
            symbol == v && br.Stream(input) == old(br.Stream(input))[n..]
    ensures br.availIn >= old(br.availIn) - 7
  {
    br.FillBitWindow(16, input);
    var shown := Min(|br.acc|, 32);
    symbol := DecodeSymbol(Value(br.acc[..shown]), table, br, shown, input);
  }

  /** What a look-ahead has found: the first-level entry for the next 8 bits. */
  ghost predicate Preloaded(table: seq<HuffmanCode>, br: Reader, input: seq<Byte>, e: HuffmanCode)
    requires Shaped(table) && br.Valid(input)
    reads br
  {
    ROOT <= |br.acc| && e == table[Index(br.acc[..ROOT], ROOT)]
  }

  method PreloadSymbol(table: seq<HuffmanCode>, br: Reader, input: seq<Byte>) returns (e: HuffmanCode)
    requires Shaped(table) && br.Valid(input) && 8 <= br.availIn
    modifies br
    ensures br.Valid(input) && br.Stream(input) == old(br.Stream(input)) && Preloaded(table, br, input, e)
    ensures br.availIn >= old(br.availIn) - 7
  {
    br.FillBitWindow(ROOT, input);
    Indices(br.acc, 0);
    e := table[Value(br.acc) % 256];
  }

  /** The literal loop: decodes with the entry loaded before, then loads the next one. */
  method ReadPreloadedSymbol(table: seq<HuffmanCode>, br: Reader, e: HuffmanCode, input: seq<Byte>)
    returns (symbol: nat, next: HuffmanCode)
    requires RepresentsCode(table) && br.Valid(input) && FAST_INPUT <= br.availIn && Preloaded(table, br, input, e)
    modifies br
    ensures br.Valid(input) && Decode(table, old(br.Stream(input))).Some?
    ensures var (n, v) := Decode(table, old(br.Stream(input))).value;
            symbol == v && br.Stream(input) == old(br.Stream(input))[n..]
    ensures Preloaded(table, br, input, next)
  {
    hide Value, Pow2, Zeros, ByteBits, Decode;
    ghost var s := br.Stream(input);
    assert Pad(s)[..ROOT] == br.acc[..ROOT];
    DecodeIsTotal(table, s);
    if e.bits > ROOT {
      symbol := ReadExtended(table, br, e, input);
    } else {
      DecodeShort(table, s);
      br.DropBits(e.bits, input);
      symbol := e.value;
    }
    next := PreloadSymbol(table, br, input);
  }

  lemma DecodeShort(table: seq<HuffmanCode>, s: Bits)
    requires RepresentsCode(table) && |s| >= MAX_LENGTH
    ensures var e := table[Index(Pad(s)[..ROOT], ROOT)];
            e.bits <= ROOT ==> Decode(table, s) == Some((e.bits, e.value))
  {
  }

  method ReadExtended(table: seq<HuffmanCode>, br: Reader, e: HuffmanCode, input: seq<Byte>) returns (symbol: nat)
    requires RepresentsCode(table) && br.Valid(input) && FAST_INPUT <= br.availIn && Preloaded(table, br, input, e)
    requires e.bits > ROOT
    modifies br
    ensures br.Valid(input) && Decode(table, old(br.Stream(input))).Some?
    ensures var (n, v) := Decode(table, old(br.Stream(input))).value;
            symbol == v && br.Stream(input) == old(br.Stream(input))[n..]
    ensures 16 <= br.availIn
  {
    hide Value, Pow2, Zeros, ByteBits, Decode, RepresentsCode, Index;
    ghost var s := br.Stream(input);
    br.FillBitWindow(16, input);
    ghost var shown := Min(|br.acc|, 32);
    var val := Value(br.acc[..Min(|br.acc|, 32)]);
    assert s[..shown] == br.acc[..shown];
    WalkDecodes(table, s, shown);
    ShapedByCode(table);
    FirstEntry(table, old(br.acc), s, br.acc[..shown]);
    var index := val % 256 + e.value;
    br.DropBits(ROOT, input);
    index := index + (val / 256) % Pow2(e.bits - ROOT);
    var ext := table[index];
    br.DropBits(ext.bits, input);
    assert s[ROOT..][ext.bits..] == s[ROOT + ext.bits..];
    symbol := ext.value;
  }

  /** The entry loaded before is the one that the next 8 bits lead to. */
  lemma FirstEntry(table: seq<HuffmanCode>, before: Bits, s: Bits, a: Bits)
    requires |table| >= 256 && ROOT <= |before| && ROOT <= |a| && before <= s && a <= s
    ensures table[Index(before[..ROOT], ROOT)] == table[Value(a) % 256]
  {
    hide Value;
    Indices(a, 0);
    assert a[..ROOT] == before[..ROOT];
  }
}
