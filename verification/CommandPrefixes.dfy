/**
 * Insert-and-copy length codes (section 5 of RFC 7932) as ReadCommandInternal reads them: one symbol and two lots
 * of extra bits, all or nothing. This read is the reason for the size of the driver's stash.
 */
module CommandPrefixes {
  import opened Bytes
  import opened Results
  import opened BitReader
  import opened SymbolDecoding
  import opened Streaming

  const NUM_COMMAND_SYMBOLS := 704

  datatype CmdLutElement = CmdLutElement(
    insertExtraBits: nat, copyExtraBits: nat, distanceCode: int, context: nat, insertOffset: nat, copyOffset: nat)

  /** What is used of the contents of kCmdLut. */
  ghost predicate CommandTable(lut: seq<CmdLutElement>) {
    && |lut| == NUM_COMMAND_SYMBOLS
    && forall k | 0 <= k < |lut| :: lut[k].insertExtraBits <= 24 && lut[k].copyExtraBits <= 24
  }

  ghost predicate Codes(lut: seq<CmdLutElement>, table: seq<HuffmanCode>) {
    CommandTable(lut) && RepresentsCode(table) && SymbolsBelow(table, NUM_COMMAND_SYMBOLS)
  }

  datatype Prefix = Prefix(insertLength: nat, copyLength: nat, distanceCode: int, context: nat)

  function WithExtra(v: CmdLutElement, insertExtra: nat, copyExtra: nat): Prefix {
    Prefix(v.insertOffset + insertExtra, v.copyOffset + copyExtra, v.distanceCode, v.context)
  }

  /** The first command prefix of s, if s holds all of it. */
  function CommandAt(lut: seq<CmdLutElement>, table: seq<HuffmanCode>, s: Bits): (r: Option<(nat, Prefix)>)
    requires Codes(lut, table)
  {
    match Decode(table, s)
    case None => None
    case Some((n, code)) =>
      SymbolBound(table, NUM_COMMAND_SYMBOLS, s);
      var v := lut[code];
      var i, c := v.insertExtraBits, v.copyExtraBits;
      if n + i + c <= |s| then Some((n + i + c, WithExtra(v, Value(s[n..][..i]), Value(s[n..][i..][..c])))) else None
  }

  /** A command prefix never needs more than 15 + 24 + 24 bits. */
  lemma CommandIsShort(lut: seq<CmdLutElement>, table: seq<HuffmanCode>, s: Bits)
    requires Codes(lut, table)
    ensures CommandAt(lut, table, s).None? ==> |s| < LONGEST_READ
    ensures CommandAt(lut, table, s).Some? ==> CommandAt(lut, table, s).value.0 <= |s|
  {
    if |s| >= MAX_LENGTH {
      DecodeIsTotal(table, s);
    }
    if Decode(table, s).Some? {
      SymbolBound(table, NUM_COMMAND_SYMBOLS, s);
    }
  }

  /** Bits after the command prefix do not matter. */
  lemma CommandIsStable(lut: seq<CmdLutElement>, table: seq<HuffmanCode>, s: Bits, more: Bits)
    requires Codes(lut, table) && CommandAt(lut, table, s).Some?
    ensures CommandAt(lut, table, s + more) == CommandAt(lut, table, s)
  {
    hide Decode, Value, RepresentsCode;
    CodesParts(lut, table);
    DecodeIsStable(table, s, more);
    SymbolBound(table, NUM_COMMAND_SYMBOLS, s);
    var (n, code) := Decode(table, s).value;
    var i, c := lut[code].insertExtraBits, lut[code].copyExtraBits;
    assert (s + more)[n..] == s[n..] + more;
    assert (s[n..] + more)[..i] == s[n..][..i];
    assert (s[n..] + more)[i..][..c] == s[n..][i..][..c];
  }

  lemma CodesParts(lut: seq<CmdLutElement>, table: seq<HuffmanCode>)
    requires Codes(lut, table)
    ensures RepresentsCode(table) && CommandTable(lut) && SymbolsBelow(table, NUM_COMMAND_SYMBOLS)
  {
  }

  lemma CommandIsMinimal(lut: seq<CmdLutElement>, table: seq<HuffmanCode>, s: Bits)
    requires Codes(lut, table) && CommandAt(lut, table, s).Some?
    ensures CommandAt(lut, table, s).value.0 <= |s|
    ensures CommandAt(lut, table, s[..CommandAt(lut, table, s).value.0]) == CommandAt(lut, table, s)
  {
    hide Decode, Value, RepresentsCode;
    CodesParts(lut, table);
    SymbolBound(table, NUM_COMMAND_SYMBOLS, s);
    var (n, code) := Decode(table, s).value;
    var i, c := lut[code].insertExtraBits, lut[code].copyExtraBits;
    var t := s[..n + i + c];
    DecodeIsMinimal(table, s);
    DecodeIsStable(table, s[..n], t[n..]);
    assert s[..n] + t[n..] == t;
    assert t[n..] == s[n..][..i + c];
    TwoParts(s[n..], i, c);
  }

  lemma TwoParts(b: Bits, i: nat, c: nat)
    requires i + c <= |b|
    ensures b[..i + c][..i] == b[..i] && b[..i + c][i..][..c] == b[i..][..c]
  {
  }

  /** The lengths lie in the ranges of the row that the symbol names, and the rest is as in that row. */
  lemma LengthsInRange(lut: seq<CmdLutElement>, table: seq<HuffmanCode>, s: Bits)
    requires Codes(lut, table) && CommandAt(lut, table, s).Some?
    ensures Decode(table, s).Some? && Decode(table, s).value.1 < |lut|
    ensures var v, p := lut[Decode(table, s).value.1], CommandAt(lut, table, s).value.1;
            && v.insertOffset <= p.insertLength < v.insertOffset + Pow2(v.insertExtraBits)
            && v.copyOffset <= p.copyLength < v.copyOffset + Pow2(v.copyExtraBits)
            && p.distanceCode == v.distanceCode && p.context == v.context
  {
    hide Decode, Value, RepresentsCode, Pow2;
    CodesParts(lut, table);
    SymbolBound(table, NUM_COMMAND_SYMBOLS, s);
    var (n, code) := Decode(table, s).value;
    var i, c := lut[code].insertExtraBits, lut[code].copyExtraBits;
    ValueBound(s[n..][..i]);
    ValueBound(s[n..][i..][..c]);
  }

  /** The codeword of a symbol, and then what the two lengths exceed the offsets of its row by. */
  function Written(v: CmdLutElement, codeword: Bits, insertLength: nat, copyLength: nat): (b: Bits)
    requires v.insertOffset <= insertLength && v.copyOffset <= copyLength
  {
    codeword + (BitsOf(insertLength - v.insertOffset, v.insertExtraBits)
                + BitsOf(copyLength - v.copyOffset, v.copyExtraBits))
  }

  /** The longest there is fills the stash but for a bit, and no smaller stash would do. */
  lemma LongestPrefix(v: CmdLutElement, codeword: Bits, insertLength: nat, copyLength: nat)
    requires v.insertExtraBits == v.copyExtraBits == 24 && |codeword| == MAX_LENGTH
    requires v.insertOffset <= insertLength && v.copyOffset <= copyLength
    ensures 8 * (STASH - 1) < |Written(v, codeword, insertLength, copyLength)| == LONGEST_READ == 8 * STASH - 1
  {
  }

  /** A command prefix that has been written is read back. */
  lemma RoundTrip(lut: seq<CmdLutElement>, table: seq<HuffmanCode>, codeword: Bits, symbol: nat, insertLength: nat,
                  copyLength: nat, more: Bits)
    requires Codes(lut, table) && Decode(table, codeword) == Some((|codeword|, symbol)) && symbol < |lut|
    requires lut[symbol].insertOffset <= insertLength < lut[symbol].insertOffset + Pow2(lut[symbol].insertExtraBits)
    requires lut[symbol].copyOffset <= copyLength < lut[symbol].copyOffset + Pow2(lut[symbol].copyExtraBits)
    ensures var v := lut[symbol];
            var b := Written(v, codeword, insertLength, copyLength);
            CommandAt(lut, table, b + more)
            == Some((|b|, Prefix(insertLength, copyLength, v.distanceCode, v.context)))
  {
    hide Decode, Value, RepresentsCode, Pow2, BitsOf, CommandAt, Codes;
    CodesParts(lut, table);
    var v := lut[symbol];
    var x := BitsOf(insertLength - v.insertOffset, v.insertExtraBits);
    var y := BitsOf(copyLength - v.copyOffset, v.copyExtraBits);
    var s := codeword + (x + (y + more));
    DecodeIsStable(table, codeword, x + (y + more));
    ThreeParts(codeword, x, y, more);
    ValueOfBits(insertLength - v.insertOffset, v.insertExtraBits);
    ValueOfBits(copyLength - v.copyOffset, v.copyExtraBits);
    CommandFromParts(lut, table, s);
  }

  lemma ThreeParts(w: Bits, x: Bits, y: Bits, more: Bits)
    ensures w + (x + y) + more == w + (x + (y + more))
    ensures var s := w + (x + (y + more));
            s[|w|..][..|x|] == x && s[|w|..][|x|..][..|y|] == y && |s[|w|..]| >= |x| + |y|
  {
    assert (w + (x + (y + more)))[|w|..] == x + (y + more);
    assert (x + (y + more))[|x|..] == y + more;
  }

  /** Whatever starts with the command prefix reads as the same. */
  lemma CommandAgrees(lut: seq<CmdLutElement>, table: seq<HuffmanCode>, s: Bits, t: Bits)
    requires Codes(lut, table) && CommandAt(lut, table, s).Some?
    requires CommandAt(lut, table, s).value.0 <= |s| && s[..CommandAt(lut, table, s).value.0] <= t
    ensures CommandAt(lut, table, t) == CommandAt(lut, table, s)
  {
    hide CommandAt, Codes;
    var n := CommandAt(lut, table, s).value.0;
    CommandIsMinimal(lut, table, s);
    CommandIsStable(lut, table, s[..n], t[n..]);
    assert s[..n] + t[n..] == t;
  }

  /** Where a failed attempt stops: without even a symbol, all input has been pulled; later, all is put back. */
  method ReadCommandInternal(safe: bool, lut: seq<CmdLutElement>, table: seq<HuffmanCode>, br: Reader, input: seq<Byte>)
    returns (ok: bool, prefix: Prefix)
    requires Codes(lut, table) && br.Valid(input) && (safe || FAST_INPUT <= br.availIn)
    modifies br
    ensures br.Valid(input) && ok == CommandAt(lut, table, old(br.Stream(input))).Some? && (!safe ==> ok)
    ensures ok ==> var (n, p) := CommandAt(lut, table, old(br.Stream(input))).value;
                   n <= |old(br.Stream(input))| && prefix == p && br.Stream(input) == old(br.Stream(input))[n..]
    ensures !ok ==> br.Stream(input) == old(br.Stream(input))
    ensures !ok ==> if Decode(table, old(br.Stream(input))).Some? then br.Save() == old(br.Save()) else br.availIn == 0
  {
    hide Decode, Value, RepresentsCode, SymbolsBelow, CommandAt, Codes, WithExtra;
    if !safe {
      prefix := FastRead(lut, table, br, input);
      return true, prefix;
    }
    CommandFromParts(lut, table, br.Stream(input));
    prefix := Prefix(0, 0, 0, 0);
    var memento := br.Save();
    var code;
    ok, code := SafeReadSymbol(table, br, input);
    if !ok {
      return;
    }
    ok, prefix := SafeReadExtra(lut[code], br, input);
    if !ok {
      br.Restore(memento);
    }
  }

  method SafeReadExtra(v: CmdLutElement, br: Reader, input: seq<Byte>) returns (ok: bool, prefix: Prefix)
    requires br.Valid(input) && v.insertExtraBits <= 24 && v.copyExtraBits <= 24
    modifies br
    ensures br.Valid(input) && ok == (v.insertExtraBits + v.copyExtraBits <= |old(br.Stream(input))|)
    ensures ok ==> var (i, c) := (v.insertExtraBits, v.copyExtraBits); var rest := old(br.Stream(input));
                   && prefix == WithExtra(v, Value(rest[..i]), Value(rest[i..][..c]))
                   && br.Stream(input) == rest[i..][c..] == rest[i + c..]
  {
    hide Value;
    prefix := Prefix(0, 0, 0, 0);
    var insertExtra, copyExtra;
    ok, insertExtra := br.SafeReadBits(v.insertExtraBits, input);
    if ok {
      ok, copyExtra := br.SafeReadBits(v.copyExtraBits, input);
      prefix := WithExtra(v, insertExtra, copyExtra);
    }
  }

  method FastRead(lut: seq<CmdLutElement>, table: seq<HuffmanCode>, br: Reader, input: seq<Byte>)
    returns (prefix: Prefix)
    requires Codes(lut, table) && br.Valid(input) && FAST_INPUT <= br.availIn
    modifies br
    ensures br.Valid(input) && CommandAt(lut, table, old(br.Stream(input))).Some?
    ensures var (n, p) := CommandAt(lut, table, old(br.Stream(input))).value;
            n <= |old(br.Stream(input))| && prefix == p && br.Stream(input) == old(br.Stream(input))[n..]
  {
    hide Decode, Value, RepresentsCode, SymbolsBelow, CommandAt, Codes, WithExtra, ByteBits, Reader.Valid;
    ghost var s := br.Stream(input);
    CommandIsShort(lut, table, s);
    CommandFromParts(lut, table, s);
    ManyBits(br, input);
    var code := ReadSymbol(table, br, input);
    prefix := ReadExtra(lut[code], br, input);
  }

  lemma ManyBits(br: Reader, input: seq<Byte>)
    requires br.Valid(input) && FAST_INPUT <= br.availIn
    ensures |br.Stream(input)| >= LONGEST_READ
  {
  }

  /** The extra bits of both lengths, without checks. */
  method ReadExtra(v: CmdLutElement, br: Reader, input: seq<Byte>) returns (prefix: Prefix)
    requires br.Valid(input) && v.insertExtraBits <= 24 && v.copyExtraBits <= 24 && 16 <= br.availIn
    modifies br
    ensures br.Valid(input) && v.insertExtraBits + v.copyExtraBits <= |old(br.Stream(input))|
    ensures var (i, c) := (v.insertExtraBits, v.copyExtraBits); var rest := old(br.Stream(input));
            && prefix == WithExtra(v, Value(rest[..i]), Value(rest[i..][..c]))
            && br.Stream(input) == rest[i..][c..]
  {
    hide Value, ByteBits;
    var insertExtra := 0;
    if v.insertExtraBits != 0 {
      insertExtra := br.ReadBits(v.insertExtraBits, input);
    } else {
      NoExtra(br.Stream(input));
    }
    var copyExtra := br.ReadBits(v.copyExtraBits, input);
    prefix := WithExtra(v, insertExtra, copyExtra);
  }

  lemma NoExtra(s: Bits)
    ensures s[..0] == [] && Value(s[..0]) == 0 && s[0..] == s
  {
  }

  lemma CommandFromParts(lut: seq<CmdLutElement>, table: seq<HuffmanCode>, s: Bits)
    requires Codes(lut, table)
    ensures RepresentsCode(table) && CommandTable(lut) && (Decode(table, s).None? ==> CommandAt(lut, table, s).None?)
    ensures Decode(table, s).Some? ==>
              var (n, code) := Decode(table, s).value;
              && code < |lut| && n <= |s|
              && var (i, c) := (lut[code].insertExtraBits, lut[code].copyExtraBits);
                 && CommandAt(lut, table, s).Some? == (i + c <= |s[n..]|)
                 && (i + c <= |s[n..]| ==>
                       && s[n + i + c..] == s[n..][i..][c..]
                       && CommandAt(lut, table, s).value
                          == (n + i + c, WithExtra(lut[code], Value(s[n..][..i]), Value(s[n..][i..][..c]))))
  {
    hide Decode, Value, RepresentsCode, SymbolsBelow;
    CodesParts(lut, table);
    SymbolBound(table, NUM_COMMAND_SYMBOLS, s);
  }
}
