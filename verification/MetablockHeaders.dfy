/**
 * The start of a meta-block (section 9.2 of RFC 7932), read a few bits at a time by a state machine that can be
 * left and entered again at every read.
 */
module MetablockHeaders {
  import opened Bytes
  import opened Results
  import opened BitReader
  import opened SymbolDecoding
  import opened Streaming

  // ---------- What a header says ----------

  datatype Header =
    | LastEmpty
    | Data(isLast: bool, isUncompressed: bool, length: nat)
    | Metadata(isLast: bool, length: nat)

  datatype Parsed = Incomplete | Invalid | Parsed(header: Header, rest: Bits)

  /** The header at the front of b, all at once. */
  function Parse(b: Bits): (r: Parsed) {
    if |b| < 1 then Incomplete
    else if b[0] then
      if |b| < 2 then Incomplete
      else if b[1] then Parsed(LastEmpty, b[2..]) else ParseDigits(true, b[2..])
    else ParseDigits(false, b[1..])
  }

  function ParseDigits(last: bool, b: Bits): (r: Parsed) {
    if |b| < 2 then Incomplete
    else if b[..2] == [true, true] then ParseMetadata(last, b[2..]) else ParseData(last, Value(b[..2]) + 4, b[2..])
  }

  /** A number of n digits of w bits: no leading zero digit if it is longer than it has to be. */
  predicate Exuberant(w: nat, least: nat, n: nat, v: nat)
    requires n > 0
  {
    n > least && v < Pow2(w * (n - 1))
  }

  function ParseData(last: bool, n: nat, b: Bits): (r: Parsed)
    requires n > 0
  {
    if |b| < 4 * n then Incomplete
    else if Exuberant(4, 4, n, Value(b[..4 * n])) then Invalid
    else if last then Parsed(Data(true, false, Value(b[..4 * n]) + 1), b[4 * n..])
    else if |b| == 4 * n then Incomplete
    else Parsed(Data(false, b[4 * n], Value(b[..4 * n]) + 1), b[4 * n..][1..])
  }

  function ParseMetadata(last: bool, b: Bits): (r: Parsed) {
    if |b| < 1 then Incomplete
    else if b[0] then Invalid
    else if |b| < 3 then Incomplete
    else
      var n, rest := Value(b[1..][..2]), b[1..][2..];
      if n == 0 then Parsed(Metadata(last, 0), rest)
      else if |rest| < 8 * n then Incomplete
      else if Exuberant(8, 1, n, Value(rest[..8 * n])) then Invalid
      else Parsed(Metadata(last, Value(rest[..8 * n]) + 1), rest[8 * n..])
  }

  // ---------- The state machine ----------

  datatype Substate =
    | HeaderNone | HeaderEmpty | HeaderNibbles | HeaderSize | HeaderUncompressed
    | HeaderReserved | HeaderBytes | HeaderMetadata
    | Accepted | Rejected

  datatype Fields = Fields(
    substate: Substate, isLast: bool, isUncompressed: bool, isMetadata: bool,
    remainingLen: nat, sizeNibbles: nat, loopCounter: nat)

  /** Number of bits that the next read takes. */
  function Width(f: Fields): (w: nat)
    ensures w <= 8
  {
    match f.substate
    case HeaderNone => 1
    case HeaderEmpty => 1
    case HeaderNibbles => 2
    case HeaderSize => 4
    case HeaderUncompressed => if !f.isLast && !f.isMetadata then 1 else 0
    case HeaderReserved => 1
    case HeaderBytes => 2
    case HeaderMetadata => 8
    case Accepted => 0
    case Rejected => 0
  }

  /** One more digit of the length. */
  function AfterDigit(f: Fields, w: nat, least: nat, v: nat): Fields {
    if f.loopCounter + 1 == f.sizeNibbles && f.sizeNibbles > least && v == 0 then f.(substate := Rejected)
    else
      f.(remainingLen := f.remainingLen + Pow2(w * f.loopCounter) * v, loopCounter := f.loopCounter + 1,
         substate := if f.loopCounter + 1 >= f.sizeNibbles then HeaderUncompressed else f.substate)
  }

  function After(f: Fields, v: nat): Fields {
    match f.substate
    case HeaderNone =>
      f.(isLast := v == 1, remainingLen := 0, isUncompressed := false, isMetadata := false,
         substate := if v == 1 then HeaderEmpty else HeaderNibbles)
    case HeaderEmpty => f.(substate := if v != 0 then Accepted else HeaderNibbles)
    case HeaderNibbles =>
      f.(sizeNibbles := v + 4, loopCounter := 0, isMetadata := f.isMetadata || v == 3,
         substate := if v == 3 then HeaderReserved else HeaderSize)
    case HeaderSize => AfterDigit(f, 4, 4, v)
    case HeaderUncompressed =>
      f.(isUncompressed := if Width(f) == 1 then v == 1 else f.isUncompressed,
         remainingLen := f.remainingLen + 1, substate := Accepted)
    case HeaderReserved => f.(substate := if v != 0 then Rejected else HeaderBytes)
    case HeaderBytes =>
      if v == 0 then f.(substate := Accepted) else f.(sizeNibbles := v, substate := HeaderMetadata)
    case HeaderMetadata => AfterDigit(f, 8, 1, v)
    case Accepted => f
    case Rejected => f
  }

  function Take(f: Fields, b: Bits): Option<(nat, Fields)> {
    if Width(f) <= |b| then Some((Width(f), After(f, Value(b[..Width(f)])))) else None
  }

  function StatusOf(f: Fields): Status {
    if f.substate.Accepted? then Finished else if f.substate.Rejected? then Failed else Reading
  }

  function HeaderMachine(): (m: Machine<Fields>) {
    Machine(
      f => StatusOf(f),
      (f: Fields, b: Bits) => if StatusOf(f).Reading? then Take(f, b) else None,
      (f: Fields) => f,
      (f: Fields, b: Bits) => false,
      (f: Fields) => 0,
      (f: Fields) => if StatusOf(f).Reading? then 1 else 0)
  }

  lemma HeaderMachineIsLawful()
    ensures Lawful(HeaderMachine())
  {
    hide After;
    var m := HeaderMachine();
    forall f, b | m.decode(f, b).Some?
      ensures m.decode(f, b).value.0 <= |b|
      ensures |b| >= PEEK ==> m.decode(f, b[..Max(m.decode(f, b).value.0, PEEK)]) == m.decode(f, b)
    {
      if |b| >= PEEK {
        assert b[..PEEK][..Width(f)] == b[..Width(f)];
      }
    }
    forall f, b, more | m.decode(f, b).Some?
      ensures m.decode(f, b + more) == m.decode(f, b)
    {
      assert (b + more)[..Width(f)] == b[..Width(f)];
    }
    forall f, b | m.decode(f, b).Some? && m.decode(f, b).value.0 == 0
      ensures m.rank(m.decode(f, b).value.1) < m.rank(f)
    {
      NoBitsLast(f);
    }
  }

  lemma NoBitsLast(f: Fields)
    requires StatusOf(f).Reading? && Width(f) == 0
    ensures forall v :: After(f, v).substate.Accepted?
  {
  }

  // ---------- The machine reads what the header says ----------

  ghost function RunHeader(f: Fields, b: Bits): (r: (Fields, Bits)) {
    HeaderMachineIsLawful();
    Run(HeaderMachine(), f, b)
  }

  lemma Step(f: Fields, b: Bits)
    requires StatusOf(f).Reading? && Width(f) <= |b|
    ensures RunHeader(f, b) == RunHeader(After(f, Value(b[..Width(f)])), b[Width(f)..])
  {
    hide After, Value;
    HeaderMachineIsLawful();
  }

  lemma Stuck(f: Fields, b: Bits)
    requires StatusOf(f).Reading? ==> Width(f) > |b|
    ensures RunHeader(f, b) == (f, b)
  {
    HeaderMachineIsLawful();
  }

  /** What the fields of a state say once a header has been accepted. */
  function HeaderOf(f: Fields): Header {
    if f.isMetadata then Metadata(f.isLast, f.remainingLen)
    else if f.remainingLen == 0 then LastEmpty
    else Data(f.isLast, f.isUncompressed, f.remainingLen)
  }

  ghost predicate Agrees(p: Parsed, r: (Fields, Bits)) {
    match p
    case Parsed(h, rest) => r.0.substate.Accepted? && HeaderOf(r.0) == h && r.1 == rest
    case Invalid => r.0.substate.Rejected?
    case Incomplete => StatusOf(r.0).Reading? && Width(r.0) > |r.1|
  }

  lemma {:induction false} Pow2Add(a: nat, b: nat)
    ensures Pow2(a + b) == Pow2(a) * Pow2(b)
  {
    if a > 0 {
      Pow2Add(a - 1, b);
      assert 2 * (Pow2(a - 1) * Pow2(b)) == (2 * Pow2(a - 1)) * Pow2(b);
    }
  }

  /** Which digits a substate reads. */
  predicate ReadsDigits(f: Fields, w: nat, least: nat) {
    && (if w == 4 then f.substate.HeaderSize? && least == 4 else w == 8 && f.substate.HeaderMetadata? && least == 1)
    && f.loopCounter < f.sizeNibbles
  }

  lemma ReadsDigit(f: Fields, w: nat, least: nat)
    requires ReadsDigits(f, w, least)
    ensures Width(f) == w && StatusOf(f).Reading? && forall v :: After(f, v) == AfterDigit(f, w, least, v)
  {
  }

  function WithLength(f: Fields, v: nat): Fields {
    f.(remainingLen := f.remainingLen + v, loopCounter := f.sizeNibbles, substate := HeaderUncompressed)
  }

  /** All the digits that are left to read, whether or not the reading is interrupted between them. */
  lemma {:induction false} Digits(f: Fields, w: nat, least: nat, b: Bits)
    requires ReadsDigits(f, w, least)
    ensures var k := f.sizeNibbles - f.loopCounter;
            if |b| < w * k then Agrees(Incomplete, RunHeader(f, b))
            else if f.sizeNibbles > least && Value(b[w * (k - 1)..w * k]) == 0 then Agrees(Invalid, RunHeader(f, b))
            else RunHeader(f, b)
                 == RunHeader(WithLength(f, Pow2(w * f.loopCounter) * Value(b[..w * k])), b[w * k..])
    decreases f.sizeNibbles - f.loopCounter
  {
    hide Value, Pow2, RunHeader, After, Width, HeaderOf;
    var k, i := f.sizeNibbles - f.loopCounter, f.loopCounter;
    ReadsDigit(f, w, least);
    if |b| < w {
      Stuck(f, b);
    } else {
      Step(f, b);
      var v, g := Value(b[..w]), After(f, Value(b[..w]));
      if k == 1 {
        if g.substate.Rejected? {
          Stuck(g, b[w..]);
        }
      } else {
        Digits(g, w, least, b[w..]);
        if |b| >= w * k {
          LaterDigits(b, w, k);
          DigitsValue(b, w, k, i);
        }
      }
    }
  }

  lemma LaterDigits(b: Bits, w: nat, k: nat)
    requires k >= 2 && w * k <= |b|
    ensures w * (k - 1) == w * (k - 2) + w && w * k == w * (k - 1) + w
    ensures b[w..][w * (k - 2)..w * (k - 1)] == b[w * (k - 1)..w * k] && b[w..][w * (k - 1)..] == b[w * k..]
  {
    OneMore(w, k - 2);
    OneMore(w, k - 1);
    assert w * k == w * (k - 1) + w && w * (k - 1) == w * (k - 2) + w;
  }

  lemma DigitsValue(b: Bits, w: nat, k: nat, i: nat)
    requires k > 0 && w <= w * k <= |b| && w * (k - 1) <= |b[w..]|
    ensures Pow2(w * i) * Value(b[..w * k])
            == Pow2(w * i) * Value(b[..w]) + Pow2(w * (i + 1)) * Value(b[w..][..w * (k - 1)])
  {
    hide Value, Pow2;
    OneMore(w, k - 1);
    OneMore(w, i);
    var low, high := b[..w], b[w..][..w * (k - 1)];
    assert b[..w * k] == low + high;
    ValueConcat(low, high);
    Pow2Add(w * i, w);
    Distribute(Pow2(w * i), Value(low), Value(high), Pow2(w));
  }

  lemma OneMore(w: nat, k: nat)
    ensures w * (k + 1) == w * k + w
  {
  }

  lemma Distribute(p: nat, a: nat, b: nat, q: nat)
    ensures p * (a + b * q) == p * a + (p * q) * b
  {
  }

  /** The last digit is zero exactly when fewer digits would have done. */
  lemma TopDigit(b: Bits, low: nat, all: nat)
    requires low <= all <= |b|
    ensures Value(b[low..all]) == 0 <==> Value(b[..all]) < Pow2(low)
  {
    hide Value, Pow2;
    assert b[..all] == b[..low] + b[low..all];
    ValueConcat(b[..low], b[low..all]);
    ValueBound(b[..low]);
    Multiple(Value(b[low..all]), Pow2(low));
  }

  lemma Multiple(a: nat, m: nat)
    ensures a > 0 ==> a * m >= m
  {
  }

  /** After the digits: whether the data is compressed, unless that is clear. */
  lemma TailParses(f: Fields, b: Bits)
    requires f.substate.HeaderUncompressed? && !f.isUncompressed
    ensures var done := f.(remainingLen := f.remainingLen + 1, substate := Accepted);
            if f.isLast || f.isMetadata then RunHeader(f, b) == (done, b)
            else if b == [] then Agrees(Incomplete, RunHeader(f, b))
            else RunHeader(f, b) == (done.(isUncompressed := b[0]), b[1..])
  {
    hide RunHeader;
    if Width(f) > |b| {
      Stuck(f, b);
    } else {
      Step(f, b);
      if Width(f) == 1 {
        OneBitValue(b);
        Stuck(After(f, Value(b[..1])), b[1..]);
      } else {
        assert b[0..] == b;
        Stuck(After(f, Value(b[..0])), b);
      }
    }
  }

  lemma OneBitValue(b: Bits)
    requires b != []
    ensures Value(b[..1]) == if b[0] then 1 else 0
  {
    assert b[..1][1..] == [];
  }

  lemma TwoBitValue(b: Bits)
    requires 2 <= |b|
    ensures Value(b[..2]) < 4 && (Value(b[..2]) == 3 <==> b[..2] == [true, true])
  {
    OneBitValue(b[1..2]);
    assert b[..2][1..] == b[1..2] == b[1..2][..1];
  }

  lemma DataParses(f: Fields, b: Bits)
    requires f.substate.HeaderSize? && f.loopCounter == 0 < f.sizeNibbles && f.remainingLen == 0
    requires !f.isMetadata && !f.isUncompressed
    ensures Agrees(ParseData(f.isLast, f.sizeNibbles, b), RunHeader(f, b))
  {
    hide RunHeader, Value;
    var n := f.sizeNibbles;
    Digits(f, 4, 4, b);
    if |b| >= 4 * n {
      TopDigit(b, 4 * (n - 1), 4 * n);
      assert Pow2(0) == 1;
      if !Exuberant(4, 4, n, Value(b[..4 * n])) {
        TailParses(WithLength(f, Value(b[..4 * n])), b[4 * n..]);
      }
    }
  }

  lemma MetadataParses(f: Fields, b: Bits)
    requires f.substate.HeaderReserved? && f.loopCounter == 0 == f.remainingLen && f.isMetadata && !f.isUncompressed
    ensures Agrees(ParseMetadata(f.isLast, b), RunHeader(f, b))
  {
    hide RunHeader, Value;
    if |b| < 1 {
      Stuck(f, b);
    } else {
      Step(f, b);
      OneBitValue(b);
      var g := After(f, Value(b[..1]));
      if b[0] || |b| < 3 {
        Stuck(g, b[1..]);
      } else {
        Step(g, b[1..]);
        var n, rest, h := Value(b[1..][..2]), b[1..][2..], After(g, Value(b[1..][..2]));
        if n == 0 {
          Stuck(h, rest);
        } else {
          MetadataDigits(h, rest);
        }
      }
    }
  }

  lemma MetadataDigits(f: Fields, b: Bits)
    requires f.substate.HeaderMetadata? && f.loopCounter == 0 < f.sizeNibbles && f.remainingLen == 0
    requires f.isMetadata && !f.isUncompressed
    ensures var n := f.sizeNibbles;
            Agrees(if |b| < 8 * n then Incomplete else if Exuberant(8, 1, n, Value(b[..8 * n])) then Invalid
                   else Parsed(Metadata(f.isLast, Value(b[..8 * n]) + 1), b[8 * n..]), RunHeader(f, b))
  {
    hide RunHeader, Value;
    var n := f.sizeNibbles;
    Digits(f, 8, 1, b);
    if |b| >= 8 * n {
      TopDigit(b, 8 * (n - 1), 8 * n);
      assert Pow2(0) == 1;
      if !Exuberant(8, 1, n, Value(b[..8 * n])) {
        TailParses(WithLength(f, Value(b[..8 * n])), b[8 * n..]);
      }
    }
  }

  lemma DigitsParse(f: Fields, b: Bits)
    requires f.substate.HeaderNibbles? && f.remainingLen == 0 && !f.isMetadata && !f.isUncompressed
    ensures Agrees(ParseDigits(f.isLast, b), RunHeader(f, b))
  {
    hide RunHeader, Value, ParseData, ParseMetadata;
    if |b| < 2 {
      Stuck(f, b);
    } else {
      Step(f, b);
      TwoBitValue(b);
      var g := After(f, Value(b[..2]));
      if Value(b[..2]) == 3 {
        MetadataParses(g, b[2..]);
      } else {
        DataParses(g, b[2..]);
      }
    }
  }

  /** From a fresh start, the machine accepts, rejects or waits for more exactly as the header demands. */
  lemma MachineParses(f: Fields, b: Bits)
    requires f.substate.HeaderNone?
    ensures Agrees(Parse(b), RunHeader(f, b))
  {
    hide RunHeader, Value, ParseDigits;
    if |b| < 1 {
      Stuck(f, b);
    } else {
      Step(f, b);
      OneBitValue(b);
      var g := After(f, Value(b[..1]));
      if !b[0] {
        DigitsParse(g, b[1..]);
      } else if |b| < 2 {
        Stuck(g, b[1..]);
      } else {
        Step(g, b[1..]);
        OneBitValue(b[1..]);
        assert b[1..][1..] == b[2..];
        var h := After(g, Value(b[1..][..1]));
        if b[1] {
          Stuck(h, b[2..]);
        } else {
          DigitsParse(h, b[2..]);
        }
      }
    }
  }

  // ---------- Writing a header, and reading it back ----------

  ghost predicate Representable(h: Header) {
    match h
    case LastEmpty => true
    case Data(last, uncompressed, length) => 1 <= length <= Pow2(24) && (last ==> !uncompressed)
    case Metadata(_, length) => length <= Pow2(24)
  }

  function Nibbles(v: nat): (n: nat)
    ensures 4 <= n <= 6 && (n < 6 ==> v < Pow2(4 * n)) && (n > 4 ==> v >= Pow2(4 * (n - 1)))
  {
    if v < Pow2(16) then 4 else if v < Pow2(20) then 5 else 6
  }

  function SkipBytes(v: nat): (n: nat)
    ensures 1 <= n <= 3 && (n < 3 ==> v < Pow2(8 * n)) && (n > 1 ==> v >= Pow2(8 * (n - 1)))
  {
    if v < Pow2(8) then 1 else if v < Pow2(16) then 2 else 3
  }

  function Front(last: bool): (b: Bits) {
    if last then [true, false] else [false]
  }

  /** Length and digits of the number of bytes to skip. */
  function SkipDigits(length: nat): (b: Bits) {
    if length == 0 then BitsOf(0, 2)
    else BitsOf(SkipBytes(length - 1), 2) + BitsOf(length - 1, 8 * SkipBytes(length - 1))
  }

  function Flag(last: bool, uncompressed: bool): (b: Bits) {
    if last then [] else [uncompressed]
  }

  function Encode(h: Header): (b: Bits)
    requires Representable(h)
  {
    match h
    case LastEmpty => [true, true]
    case Data(last, uncompressed, length) =>
      var n := Nibbles(length - 1);
      Front(last)
      + (BitsOf(n - 4, 2) + (BitsOf(length - 1, 4 * n) + Flag(last, uncompressed)))
    case Metadata(last, length) => Front(last) + ([true, true] + ([false] + SkipDigits(length)))
  }

  lemma FrontParses(last: bool, b: Bits)
    ensures Parse(Front(last) + b) == ParseDigits(last, b)
  {
    hide ParseDigits;
    assert ([true, false] + b)[2..] == b && ([false] + b)[1..] == b;
  }

  /** Two bits and what follows. */
  lemma TwoBits(v: nat, b: Bits)
    requires v < 4
    ensures (BitsOf(v, 2) + b)[..2] == BitsOf(v, 2) && (BitsOf(v, 2) + b)[2..] == b
    ensures Value(BitsOf(v, 2)) == v && (BitsOf(v, 2) == [true, true] <==> v == 3)
  {
    assert Pow2(2) == 4;
    ValueOfBits(v, 2);
    TwoBitValue(BitsOf(v, 2));
    assert BitsOf(v, 2)[..2] == BitsOf(v, 2);
  }

  lemma DataRoundTrip(last: bool, uncompressed: bool, v: nat, n: nat, more: Bits)
    requires n > 0 && v < Pow2(4 * n) && (n > 4 ==> v >= Pow2(4 * (n - 1))) && (last ==> !uncompressed)
    ensures ParseData(last, n, BitsOf(v, 4 * n) + (Flag(last, uncompressed) + more))
            == Parsed(Data(last, uncompressed, v + 1), more)
  {
    hide Value, BitsOf, Pow2;
    ValueOfBits(v, 4 * n);
    var tail := Flag(last, uncompressed) + more;
    var b := BitsOf(v, 4 * n) + tail;
    assert b[..4 * n] == BitsOf(v, 4 * n) && b[4 * n..] == tail;
    assert if last then tail == more else b[4 * n] == uncompressed && tail[1..] == more;
  }

  lemma SkipRoundTrip(last: bool, length: nat, more: Bits)
    requires length <= Pow2(24)
    ensures ParseMetadata(last, [false] + (SkipDigits(length) + more)) == Parsed(Metadata(last, length), more)
  {
    hide Value, BitsOf, Pow2;
    if length == 0 {
      TwoBits(0, more);
      assert ([false] + (BitsOf(0, 2) + more))[1..] == BitsOf(0, 2) + more;
    } else {
      var n, v := SkipBytes(length - 1), length - 1;
      var tail := BitsOf(v, 8 * n) + more;
      TwoBits(n, tail);
      ValueOfBits(v, 8 * n);
      var b := [false] + ((BitsOf(n, 2) + BitsOf(v, 8 * n)) + more);
      assert b[1..] == BitsOf(n, 2) + tail;
      assert tail[..8 * n] == BitsOf(v, 8 * n) && tail[8 * n..] == more;
    }
  }

  lemma Reassociate(a: Bits, b: Bits, c: Bits, d: Bits)
    ensures a + (b + (c + d)) == a + (b + c) + d == (a + b) + (c + d)
  {
  }

  /** Every header that can be written is read back, and exactly its bits are taken. */
  lemma RoundTrip(h: Header, more: Bits)
    requires Representable(h)
    ensures Parse(Encode(h) + more) == Parsed(h, more)
  {
    hide Value, BitsOf, Pow2, Parse, ParseDigits, ParseData, ParseMetadata, Front, Flag, SkipDigits, Nibbles;
    match h {
      case LastEmpty =>
        EmptyParses(more);
      case Data(last, uncompressed, length) =>
        var n, v, flag := Nibbles(length - 1), length - 1, Flag(last, uncompressed);
        DataRoundTrip(last, uncompressed, v, n, more);
        var tail := BitsOf(v, 4 * n) + (flag + more);
        CodeParses(last, n, tail);
        FrontParses(last, BitsOf(n - 4, 2) + tail);
        assert BitsOf(v, 4 * n) + flag + more == tail;
        Reassociate(Front(last), BitsOf(n - 4, 2), BitsOf(v, 4 * n) + flag, more);
        assert Encode(h) == Front(last) + (BitsOf(n - 4, 2) + (BitsOf(v, 4 * n) + flag));
      case Metadata(last, length) =>
        SkipRoundTrip(last, length, more);
        var tail := [false] + (SkipDigits(length) + more);
        CodeParses(last, 7, tail);
        FrontParses(last, [true, true] + tail);
        Reassociate(Front(last), [true, true], [false] + SkipDigits(length), more);
        assert [false] + SkipDigits(length) + more == tail;
    }
  }

  lemma EmptyParses(more: Bits)
    ensures Parse([true, true] + more) == Parsed(LastEmpty, more)
  {
    assert ([true, true] + more)[2..] == more;
  }

  lemma CodeParses(last: bool, n: nat, tail: Bits)
    requires 4 <= n <= 7
    ensures n < 7 ==> ParseDigits(last, BitsOf(n - 4, 2) + tail) == ParseData(last, n, tail)
    ensures n == 7 ==> ParseDigits(last, [true, true] + tail) == ParseMetadata(last, tail)
  {
    hide Value, BitsOf, ParseData, ParseMetadata;
    TwoBits(n - 4, tail);
  }

  // ---------- Reading it ----------

  /** Bits shifted beyond those of a are or-ed in without touching them. */
  lemma {:induction false} OrIsPlus(a: nat, v: nat, k: nat)
    requires a < Pow2(k)
    ensures BitOr(a, v * Pow2(k)) == a + v * Pow2(k)
  {
    if k > 0 && a != 0 && v * Pow2(k) != 0 {
      var half := v * Pow2(k - 1);
      assert v * Pow2(k) == 2 * half;
      OrIsPlus(a / 2, v, k - 1);
    }
  }

  lemma Scale(a: nat, b: nat, m: nat)
    requires a <= b
    ensures a * m <= b * m
  {
  }

  /** The header part of the decoder state. */
  class HeaderReader {
    var substate: Substate
    var isLast: bool
    var isUncompressed: bool
    var isMetadata: bool
    var remainingLen: nat
    var sizeNibbles: nat
    var loopCounter: nat

    constructor ()
      ensures substate == HeaderNone && Valid()
    {
      substate, isLast, isUncompressed, isMetadata := HeaderNone, false, false, false;
      remainingLen, sizeNibbles, loopCounter := 0, 0, 0;
    }

    function View(): Fields
      reads this
    {
      Fields(substate, isLast, isUncompressed, isMetadata, remainingLen, sizeNibbles, loopCounter)
    }

    ghost predicate Valid()
      reads this
    {
      && (substate.HeaderSize? ==> loopCounter < sizeNibbles && remainingLen < Pow2(4 * loopCounter))
      && (substate.HeaderMetadata? ==> loopCounter < sizeNibbles && remainingLen < Pow2(8 * loopCounter))
      && (substate.HeaderEmpty? || substate.HeaderNibbles? || substate.HeaderReserved? || substate.HeaderBytes? ==>
            remainingLen == 0)
      && (substate.HeaderReserved? || substate.HeaderBytes? ==> loopCounter == 0)
    }

    /** One more digit of the length, or an error if it is a leading zero. */
    method AddDigit(w: nat, least: nat, v: nat) returns (ok: bool)
      requires ReadsDigits(View(), w, least) && Valid() && v < Pow2(w)
      modifies this
      ensures ok ==> View() == AfterDigit(old(View()), w, least, v) && Valid() && StatusOf(View()).Reading?
      ensures !ok ==> AfterDigit(old(View()), w, least, v).substate.Rejected? && View() == old(View())
    {
      hide Pow2, BitOr;
      var i := loopCounter;
      if i + 1 == sizeNibbles && sizeNibbles > least && v == 0 {
        return false;
      }
      OrIsPlus(remainingLen, v, w * i);
      DigitFits(remainingLen, v, w, i);
      remainingLen := BitOr(remainingLen, v * Pow2(w * i));
      loopCounter := i + 1;
      if loopCounter == sizeNibbles {
        substate := HeaderUncompressed;
      }
      return true;
    }

    lemma DigitFits(a: nat, v: nat, w: nat, i: nat)
      requires a < Pow2(w * i) && v < Pow2(w)
      ensures a + v * Pow2(w * i) < Pow2(w * (i + 1)) && v * Pow2(w * i) == Pow2(w * i) * v
    {
      hide Pow2;
      assert w * (i + 1) == w + w * i;
      Pow2Add(w, w * i);
      Scale(v + 1, Pow2(w), Pow2(w * i));
    }

    /**
     * Goes on where it stopped. A header is accepted or refused as the bits demand, whatever state an earlier
     * call has left; if there are not enough bits, nothing that was learned from those read is lost.
     */
    method DecodeMetaBlockLength(br: Reader, input: seq<Byte>, ghost future: Bits) returns (result: Code)
      requires Valid() && StatusOf(View()).Reading? && br.Valid(input)
      modifies this, br
      ensures Valid() && br.Valid(input) && result != NeedsMoreOutput
      ensures result == Success ==>
                && substate.HeaderNone?
                && RunHeader(old(View()), old(br.Stream(input)) + future)
                   == (View().(substate := Accepted), br.Stream(input) + future)
      ensures result == Failure ==>
                RunHeader(old(View()), old(br.Stream(input)) + future).0.substate.Rejected?
      ensures result == NeedsMoreInput ==>
                && br.availIn == 0 && StatusOf(View()).Reading? && Width(View()) > |br.Stream(input)|
                && RunHeader(View(), br.Stream(input) + future)
                   == RunHeader(old(View()), old(br.Stream(input)) + future)
    {
      hide RunHeader, Value, After, Width, Pow2;
      ghost var whole := RunHeader(View(), br.Stream(input) + future);
      while true
        invariant Valid() && StatusOf(View()).Reading? && br.Valid(input)
        invariant RunHeader(View(), br.Stream(input) + future) == whole
        decreases |br.Stream(input)|, if Width(View()) > 0 then 1 else 0
      {
        ghost var before, f := br.Stream(input), View();
        var ok, v := br.SafeReadBits(Width(View()), input);
        if !ok {
          return NeedsMoreInput;
        }
        ValueBound(before[..Width(f)]);
        if Width(f) == 0 {
          NoBitsLast(f);
        }
        assert (before + future)[..Width(f)] == before[..Width(f)];
        assert (before + future)[Width(f)..] == before[Width(f)..] + future;
        Step(f, before + future);
        result := Interpret(v);
        if result != NeedsMoreInput {
          Stuck(After(f, v), br.Stream(input) + future);
          return;
        }
      }
    }

    lemma SmallPowers()
      ensures Pow2(0) == 1 && Pow2(1) == 2
    {
    }

    /** What the bits just read mean; asks for more unless the header is complete or wrong. */
    method Interpret(v: nat) returns (result: Code)
      requires Valid() && StatusOf(View()).Reading? && v < Pow2(Width(View()))
      modifies this
      ensures Valid() && result != NeedsMoreOutput
      ensures result == Success ==> substate.HeaderNone? && After(old(View()), v) == View().(substate := Accepted)
      ensures result == Failure ==> After(old(View()), v).substate.Rejected?
      ensures result == NeedsMoreInput ==> View() == After(old(View()), v) && StatusOf(View()).Reading?
    {
      hide Pow2, AfterDigit;
      SmallPowers();
      result := NeedsMoreInput;
      match substate {
        case HeaderNone =>
          isLast, remainingLen, isUncompressed, isMetadata := v != 0, 0, false, false;
          substate := if isLast then HeaderEmpty else HeaderNibbles;
        case HeaderEmpty =>
          if v != 0 {
            substate := HeaderNone;
            return Success;
          }
          substate := HeaderNibbles;
        case HeaderNibbles =>
          sizeNibbles, loopCounter := v + 4, 0;
          if v == 3 {
            isMetadata, substate := true, HeaderReserved;
          } else {
            substate := HeaderSize;
          }
        case HeaderSize =>
          var ok := AddDigit(4, 4, v);
          if !ok {
            return Failure;
          }
        case HeaderUncompressed =>
          if !isLast && !isMetadata {
            isUncompressed := v != 0;
          }
          remainingLen, substate := remainingLen + 1, HeaderNone;
          return Success;
        case HeaderReserved =>
          if v != 0 {
            return Failure;
          }
          substate := HeaderBytes;
        case HeaderBytes =>
          if v == 0 {
            substate := HeaderNone;
            return Success;
          }
          sizeNibbles, substate := v, HeaderMetadata;
        case HeaderMetadata =>
          var ok := AddDigit(8, 1, v);
          if !ok {
            return Failure;
          }
      }
    }
  }
}
