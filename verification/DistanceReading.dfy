/**
 * ReadDistanceInternal: a distance symbol and its extra bits, all or nothing, turned into a distance by the
 * recent-distance ring, by the shortcut for no postfix bits, or by the general formula.
 */
module DistanceReading {
  import opened Bytes
  import opened Results
  import opened BitReader
  import opened SymbolDecoding
  import opened Distances
  import CommandSpec

  const MAX_EXTRA := 30

  /** The alphabet leaves out the symbols that could stand for distances that are not allowed. */
  ghost predicate Codes(p: Params, table: seq<HuffmanCode>) {
    && p.Valid() && RepresentsCode(table)
    && SymbolsBelow(table, BrotliMaxDistanceSymbol(p.ndirect, p.npostfix))
  }

  /** What a symbol with its extra bits stands for. */
  function CodeOf(p: Params, symbol: nat, extra: nat): CommandSpec.DistanceCode {
    if symbol < SHORT_CODES then CommandSpec.Short(symbol)
    else
      var d := DistanceOf(p, symbol, extra);
      CommandSpec.Direct(if d > 0 then d else 0)
  }

  /** The first distance code of s, if s holds all of it. */
  function DistanceAt(p: Params, table: seq<HuffmanCode>, s: Bits): (r: Option<(nat, CommandSpec.DistanceCode)>)
    requires RepresentsCode(table)
  {
    match Decode(table, s)
    case None => None
    case Some((n, symbol)) =>
      var x := ExtraBits(p, symbol);
      if n + x <= |s| then Some((n + x, CodeOf(p, symbol, Value(s[n..][..x])))) else None
  }

  /** Whatever starts with the distance code reads as the same. */
  lemma DistanceAgrees(p: Params, table: seq<HuffmanCode>, s: Bits, t: Bits)
    requires RepresentsCode(table) && DistanceAt(p, table, s).Some?
    ensures var n := DistanceAt(p, table, s).value.0;
            n <= |s| && (s[..n] <= t ==> DistanceAt(p, table, t) == DistanceAt(p, table, s))
  {
    hide RepresentsCode, Decode, ExtraBits, CodeOf, Value;
    var k := DistanceAt(p, table, s).value.0;
    var (n, symbol) := Decode(table, s).value;
    if s[..k] <= t {
      assert s[..k][..n] == s[..n] == t[..n];
      DecodeAgrees(table, s, t);
      assert t[n..][..k - n] == t[..k][n..] == s[n..][..k - n];
    }
  }

  /** Whatever symbol and extra bits say, it is a distance, and not the implied one. */
  lemma DistanceIsValid(p: Params, table: seq<HuffmanCode>, s: Bits)
    requires RepresentsCode(table) && DistanceAt(p, table, s).Some?
    ensures DistanceAt(p, table, s).value.1.Valid() && !DistanceAt(p, table, s).value.1.Implied?
  {
    hide RepresentsCode, Decode, ExtraBits, Value, DistanceOf, Pow2;
    var (n, symbol) := Decode(table, s).value;
    var x := ExtraBits(p, symbol);
    ValueBound(s[n..][..x]);
    if symbol >= SHORT_CODES {
      ExplicitCode(p, symbol, Value(s[n..][..x]));
    }
  }

  /** Without a bit there are only short codes and direct ones. */
  lemma DistanceWithoutBits(p: Params, table: seq<HuffmanCode>, s: Bits)
    requires p.Valid() && RepresentsCode(table) && DistanceAt(p, table, s).Some? && DistanceAt(p, table, s).value.0 == 0
    ensures var d := DistanceAt(p, table, s).value.1;
            d.Short? || (d.Direct? && d.distance <= 120)
  {
    hide RepresentsCode, Decode, Value;
    assert Pow2(0) == 1 && Pow2(1) == 2 && Pow2(2) == 4 && Pow2(3) == 8;
    assert p.ndirect <= 120;
  }

  /** A distance code is short, too. */
  lemma DistanceIsShort(p: Params, table: seq<HuffmanCode>, s: Bits)
    requires Codes(p, table)
    ensures DistanceAt(p, table, s).None? ==> |s| < MAX_LENGTH + MAX_EXTRA
    ensures DistanceAt(p, table, s).Some? ==> DistanceAt(p, table, s).value.0 <= Min(|s|, MAX_LENGTH + MAX_EXTRA)
  {
    hide Codes, ExtraBits, Decode, RepresentsCode, DistanceAt;
    Parts(p, table, s);
    if |s| >= MAX_LENGTH {
      DecodeIsTotal(table, s);
    }
  }

  /** No usable symbol has more extra bits than can be read at once. */
  lemma ExtraIsShort(p: Params, symbol: nat)
    requires p.Valid() && symbol < BrotliMaxDistanceSymbol(p.ndirect, p.npostfix)
    ensures ExtraBits(p, symbol) <= MAX_EXTRA
  {
    hide Pow2, BrotliMaxDistanceSymbol, DistanceOf, Params.Valid;
    var x := ExtraBits(p, symbol);
    if x > MAX_EXTRA {
      MaxDistanceSymbolIsExact(p, symbol);
      assert DistanceOf(p, symbol, 0) <= MAX_ALLOWED;
      ManyExtraBits(p, symbol);
    }
  }

  lemma ManyExtraBits(p: Params, symbol: nat)
    requires symbol >= SHORT_CODES && ExtraBits(p, symbol) > MAX_EXTRA
    ensures DistanceOf(p, symbol, 0) > MAX_ALLOWED
  {
    hide Pow2, Compose;
    BigPowers();
    Pow2Monotone(MAX_EXTRA, ExtraBits(p, symbol));
    var (h, l) := DivMod(symbol - SHORT_CODES - p.ndirect, Pow2(p.npostfix));
    AtLeast(h, Pow2(p.npostfix));
  }

  lemma AtLeast(h: nat, m: nat)
    requires m >= 1 && Pow2(h / 2 + 1) >= 4
    ensures (Compose(h, 0) - 4) * m >= 2 * Pow2(h / 2 + 1) - 4
  {
    hide Pow2;
    var c := Compose(h, 0) - 4;
    assert c >= 2 * Pow2(h / 2 + 1) - 4 >= 0;
    assert c * m >= c;
  }

  /**
   * With the implied or an explicit short code the distance comes from the ring, otherwise from the extra bits.
   * A failure in the extra bits restores the reader, a failure in the symbol has pulled all input; either way the
   * recent distances are as before, and the distance code asks to be read again.
   */
  method ReadDistanceInternal(safe: bool, p: Params, table: seq<HuffmanCode>, cache: DistanceCache, br: Reader,
                              input: seq<Byte>) returns (ok: bool)
    requires Codes(p, table) && cache.Valid() && cache.code < 0 && br.Valid(input) && (safe || FAST_INPUT <= br.availIn)
    modifies cache`idx, cache`code, cache`context, br
    ensures br.Valid(input) && cache.Valid() && (!safe ==> ok)
    ensures ok == DistanceAt(p, table, old(br.Stream(input))).Some?
    ensures ok ==>
              var (n, d) := DistanceAt(p, table, old(br.Stream(input))).value;
              && n <= |old(br.Stream(input))| && br.Stream(input) == old(br.Stream(input))[n..] && d.Valid()
              && cache.code == d.Resolve(old(cache.Recent())) && cache.Pending(old(cache.Recent()), d.Symbol())
    ensures !ok ==>
              && br.Stream(input) == old(br.Stream(input)) && cache.Recent() == old(cache.Recent()) && cache.code < 0
              && (if Decode(table, old(br.Stream(input))).Some? then br.Save() == old(br.Save()) else br.availIn == 0)
  {
    hide Decode, Value, RepresentsCode, Codes, DistanceAt, CodeOf, ExtraBits, RecentAt, ShortDistance, DistanceOf,
         Pow2, Shaped, ByteBits;
    Parts(p, table, br.Stream(input));
    var memento := br.Save();
    var symbol;
    ok, symbol := ReadDistanceSymbol(safe, table, br, input);
    if !ok {
      return;
    }
    cache.code, cache.context := symbol, 0;
    if symbol < SHORT_CODES {
      ShortCode(p, symbol, br.Stream(input));
      cache.TakeDistanceFromRingBuffer();
      return;
    }
    ghost var rest := br.Stream(input);
    var distance;
    ok, distance := ReadExplicit(safe, p, symbol, br, input);
    if ok {
      ExplicitCode(p, symbol, Value(rest[..ExtraBits(p, symbol)]));
      SetDistance(cache, distance);
    } else {
      cache.code := -1;
      br.Restore(memento);
    }
  }

  method SetDistance(cache: DistanceCache, distance: nat)
    requires cache.Valid() && cache.context == 0 && distance > 0
    modifies cache`code
    ensures cache.code == distance && cache.Pending(cache.Recent(), SHORT_CODES)
  {
    cache.code := distance;
  }

  method ReadDistanceSymbol(safe: bool, table: seq<HuffmanCode>, br: Reader, input: seq<Byte>)
    returns (ok: bool, symbol: nat)
    requires RepresentsCode(table) && br.Valid(input) && (safe || FAST_INPUT <= br.availIn)
    modifies br
    ensures br.Valid(input) && ok == Decode(table, old(br.Stream(input))).Some? && (!safe ==> ok && 8 <= br.availIn)
    ensures if ok then
              var (n, v) := Decode(table, old(br.Stream(input))).value;
              symbol == v && br.Stream(input) == old(br.Stream(input))[n..]
            else br.Stream(input) == old(br.Stream(input)) && br.availIn == 0
  {
    hide Decode, RepresentsCode;
    if safe {
      ok, symbol := SafeReadSymbol(table, br, input);
    } else {
      symbol := ReadSymbol(table, br, input);
      ok := true;
    }
  }

  /** What a distance code at the front of s consists of. */
  lemma Parts(p: Params, table: seq<HuffmanCode>, s: Bits)
    requires Codes(p, table)
    ensures RepresentsCode(table) && p.npostfix <= 3 && (Decode(table, s).None? ==> DistanceAt(p, table, s).None?)
    ensures Decode(table, s).Some? ==>
              var (n, symbol) := Decode(table, s).value;
              var x := ExtraBits(p, symbol);
              && n <= |s| && x <= MAX_EXTRA && DistanceAt(p, table, s).Some? == (x <= |s[n..]|)
              && (x <= |s[n..]| ==>
                    && s[n + x..] == s[n..][x..]
                    && DistanceAt(p, table, s).value == (n + x, CodeOf(p, symbol, Value(s[n..][..x]))))
  {
    hide Decode, Value, CodeOf, BrotliMaxDistanceSymbol, ExtraBits;
    SymbolBound(table, BrotliMaxDistanceSymbol(p.ndirect, p.npostfix), s);
    if Decode(table, s).Some? {
      ExtraIsShort(p, Decode(table, s).value.1);
    }
  }

  lemma ShortCode(p: Params, symbol: nat, rest: Bits)
    requires symbol < SHORT_CODES
    ensures ExtraBits(p, symbol) == 0 && rest[0..] == rest
    ensures forall e :: CodeOf(p, symbol, e) == CommandSpec.Short(symbol)
  {
  }

  lemma ExplicitCode(p: Params, symbol: nat, e: nat)
    requires symbol >= SHORT_CODES && e < Pow2(ExtraBits(p, symbol))
    ensures DistanceOf(p, symbol, e) > 0 && CodeOf(p, symbol, e) == CommandSpec.Direct(DistanceOf(p, symbol, e))
  {
    hide Pow2, DistanceOf, ExtraBits;
    EncodeDecode(p, symbol, e);
  }

  /** The extra bits and the arithmetic on them. */
  method ReadExplicit(safe: bool, p: Params, symbol: nat, br: Reader, input: seq<Byte>)
    returns (ok: bool, distance: int)
    requires symbol >= SHORT_CODES && p.npostfix <= 3 && ExtraBits(p, symbol) <= MAX_EXTRA
    requires br.Valid(input) && (safe || 8 <= br.availIn)
    modifies br
    ensures br.Valid(input) && ok == (ExtraBits(p, symbol) <= |old(br.Stream(input))|) && (!safe ==> ok)
    ensures ok ==>
              var x := ExtraBits(p, symbol);
              && distance == DistanceOf(p, symbol, Value(old(br.Stream(input))[..x]))
              && Value(old(br.Stream(input))[..x]) < Pow2(x)
              && br.Stream(input) == old(br.Stream(input))[x..]
  {
    hide Value, Pow2, ExtraBits, DistanceOf, FastDistance;
    ghost var s := br.Stream(input);
    var bits, nbits := 0, ExtraBits(p, symbol);
    if symbol < SHORT_CODES + p.ndirect {
      NoExtraBits(p, symbol, s);
      return true, symbol - SHORT_CODES + 1;
    }
    if !safe {
      bits := br.ReadBits(nbits, input);
    } else {
      ok, bits := br.SafeReadBits(nbits, input);
      if !ok {
        return false, 0;
      }
    }
    ValueBound(s[..nbits]);
    ok := true;
    if !safe && p.npostfix == 0 {
      FastAgrees(p, symbol, bits);
      distance := FastDistance(p.ndirect, symbol, bits);
    } else {
      distance := DistanceOf(p, symbol, bits);
    }
  }

  lemma NoExtraBits(p: Params, symbol: nat, s: Bits)
    requires SHORT_CODES <= symbol < SHORT_CODES + p.ndirect
    ensures ExtraBits(p, symbol) == 0 && Value(s[..0]) == 0 < Pow2(0) && s[0..] == s
    ensures DistanceOf(p, symbol, 0) == symbol - SHORT_CODES + 1
  {
  }
}
