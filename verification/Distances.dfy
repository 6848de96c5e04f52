/** Distance codes (section 4 of RFC 7932): the recent-distance ring and the arithmetic of explicit codes. */
module Distances {
  import opened Bytes

  const MAX_ALLOWED := 0x7FFFFFFC
  const HUGE := 0x7fffffff         // what a non-positive short-code distance becomes
  const SHORT_CODES := 16

  // ---------- Recent distances ----------

  /** The four most recent distances, newest first, of a ring whose next free slot is idx. */
  function RecentAt(rb: seq<int>, idx: int): (r: seq<int>)
    requires |rb| == 4
    ensures |r| == 4
  {
    [rb[(idx - 1) % 4], rb[(idx - 2) % 4], rb[(idx - 3) % 4], rb[(idx - 4) % 4]]
  }

  /** Which of the recent distances a short code starts from. */
  function ShortBase(code: nat): (k: nat)
    requires code < SHORT_CODES
    ensures k < 4
  {
    if code < 4 then code else if code < 10 then 0 else 1
  }

  /** What a short code adds: -1, +1, -2, +2, -3, +3 for codes 4..9 and again for 10..15. */
  function ShortDelta(code: nat): int
    requires code < SHORT_CODES
  {
    if code < 4 then 0
    else
      var m := (code - 4) % 6;
      if m % 2 == 0 then -(m / 2 + 1) else m / 2 + 1
  }

  function ShortDistance(code: nat, recent: seq<int>): int
    requires code < SHORT_CODES && |recent| == 4
  {
    var d := recent[ShortBase(code)] + ShortDelta(code);
    if d <= 0 then HUGE else d
  }

  /** Code 0 repeats the last distance and is not recorded again. */
  function Push(code: nat, d: int, recent: seq<int>): (r: seq<int>)
    requires |recent| == 4
    ensures |r| == 4
  {
    if code == 0 then recent else [d] + recent[..3]
  }

  const INDEX_OFFSET := 0xaaafff1b - 0x1_0000_0000 // as a signed 32-bit number
  const VALUE_OFFSET := 0xfa5fa500

  /** Arithmetic shift to the right. */
  function Shr(x: int, n: nat): int
    decreases n
  {
    if n == 0 then x else Shr(x, n - 1) / 2
  }

  lemma ShrTwice(x: int, n: nat)
    ensures Shr(x, n + 2) == Shr(x, n) / 4
  {
  }

  lemma NoShr(x: int)
    ensures Shr(x, 0) == x
  {
  }

  lemma IndexOffsets()
    ensures Shr(INDEX_OFFSET, 2) == -357826618 && Shr(INDEX_OFFSET, 4) == -89456655 && Shr(INDEX_OFFSET, 6) == -22364164
    ensures Shr(INDEX_OFFSET, 8) == -5591041 && Shr(INDEX_OFFSET, 10) == -1397761 && Shr(INDEX_OFFSET, 12) == -349441
    ensures Shr(INDEX_OFFSET, 14) == -87361 && Shr(INDEX_OFFSET, 16) == -21841 && Shr(INDEX_OFFSET, 18) == -5461
    ensures Shr(INDEX_OFFSET, 20) == -1366 && Shr(INDEX_OFFSET, 22) == -342 && Shr(INDEX_OFFSET, 24) == -86
    ensures Shr(INDEX_OFFSET, 26) == -22 && Shr(INDEX_OFFSET, 28) == -6 && Shr(INDEX_OFFSET, 30) == -2
  {
    hide Shr;
    NoShr(INDEX_OFFSET);
    ShrTwice(INDEX_OFFSET, 0); ShrTwice(INDEX_OFFSET, 2); ShrTwice(INDEX_OFFSET, 4); ShrTwice(INDEX_OFFSET, 6);
    ShrTwice(INDEX_OFFSET, 8); ShrTwice(INDEX_OFFSET, 10); ShrTwice(INDEX_OFFSET, 12); ShrTwice(INDEX_OFFSET, 14);
    ShrTwice(INDEX_OFFSET, 16); ShrTwice(INDEX_OFFSET, 18); ShrTwice(INDEX_OFFSET, 20); ShrTwice(INDEX_OFFSET, 22);
    ShrTwice(INDEX_OFFSET, 24); ShrTwice(INDEX_OFFSET, 26); ShrTwice(INDEX_OFFSET, 28);
  }

  lemma ValueOffsets()
    ensures Shr(VALUE_OFFSET, 2) == 1050143040 && Shr(VALUE_OFFSET, 4) == 262535760 && Shr(VALUE_OFFSET, 6) == 65633940
    ensures Shr(VALUE_OFFSET, 8) == 16408485 && Shr(VALUE_OFFSET, 10) == 4102121 && Shr(VALUE_OFFSET, 12) == 1025530
    ensures Shr(VALUE_OFFSET, 14) == 256382 && Shr(VALUE_OFFSET, 16) == 64095 && Shr(VALUE_OFFSET, 18) == 16023
    ensures Shr(VALUE_OFFSET, 20) == 4005 && Shr(VALUE_OFFSET, 22) == 1001 && Shr(VALUE_OFFSET, 24) == 250
    ensures Shr(VALUE_OFFSET, 26) == 62 && Shr(VALUE_OFFSET, 28) == 15 && Shr(VALUE_OFFSET, 30) == 3
  {
    hide Shr;
    NoShr(VALUE_OFFSET);
    ShrTwice(VALUE_OFFSET, 0); ShrTwice(VALUE_OFFSET, 2); ShrTwice(VALUE_OFFSET, 4); ShrTwice(VALUE_OFFSET, 6);
    ShrTwice(VALUE_OFFSET, 8); ShrTwice(VALUE_OFFSET, 10); ShrTwice(VALUE_OFFSET, 12); ShrTwice(VALUE_OFFSET, 14);
    ShrTwice(VALUE_OFFSET, 16); ShrTwice(VALUE_OFFSET, 18); ShrTwice(VALUE_OFFSET, 20); ShrTwice(VALUE_OFFSET, 22);
    ShrTwice(VALUE_OFFSET, 24); ShrTwice(VALUE_OFFSET, 26); ShrTwice(VALUE_OFFSET, 28);
  }

  lemma PackedSlot(code: nat)
    requires 0 < code < SHORT_CODES
    ensures Shr(INDEX_OFFSET, 2 * code) % 4 == 3 - ShortBase(code)
  {
    hide Shr;
    IndexOffsets();
  }

  lemma PackedDelta(code: nat)
    requires 0 < code < SHORT_CODES
    ensures Shr(VALUE_OFFSET, 2 * code) % 4 == if ShortDelta(code) < 0 then -ShortDelta(code) else ShortDelta(code)
  {
    hide Shr;
    ValueOffsets();
  }

  /** The packed constants hold, two bits per code, slot and offset of every short code. */
  lemma PackedConstants(code: nat)
    requires 0 < code < SHORT_CODES
    ensures Shr(INDEX_OFFSET, 2 * code) % 4 == 3 - ShortBase(code)
    ensures Shr(VALUE_OFFSET, 2 * code) % 4 == if ShortDelta(code) < 0 then -ShortDelta(code) else ShortDelta(code)
  {
    hide Shr, ShortBase, ShortDelta;
    PackedSlot(code);
    PackedDelta(code);
  }

  lemma SameSlot(idx: int, offset: int, k: nat)
    requires k < 4 && offset % 4 == 3 - k
    ensures (idx + offset) % 4 == (idx - 1 - k) % 4
  {
  }

  /** The fields dist_rb, dist_rb_idx, distance_code and distance_context. */
  class DistanceCache {
    var rb: seq<int>
    var idx: int
    var code: int
    var context: int

    ghost predicate Valid()
      reads this`rb
    {
      |rb| == 4 && forall k | 0 <= k < 4 :: 0 < rb[k] <= MAX_ALLOWED
    }

    function Recent(): (r: seq<int>)
      requires Valid()
      reads this`rb, this`idx
      ensures |r| == 4 && forall k | 0 <= k < 4 :: 0 < r[k] <= MAX_ALLOWED
    {
      RecentAt(rb, idx)
    }

    /** A distance has been taken but neither recorded nor given up yet; recent is the list before it. */
    ghost predicate Pending(recent: seq<int>, symbol: nat)
      reads this
    {
      && Valid() && 0 < code
      && context == (if symbol == 0 then 1 else 0)
      && recent == RecentAt(rb, idx + context)
      && (symbol == 0 ==> code == recent[0])
    }

    constructor ()
      ensures Valid() && Recent() == [4, 11, 15, 16]
    {
      rb, idx, code, context := [16, 15, 11, 4], 0, 0, 0;
    }

    /** The command implies distance code 0. */
    method TakeLast()
      requires Valid()
      modifies this`idx, this`code, this`context
      ensures Pending(old(Recent()), 0) && code == old(Recent())[0]
    {
      context := 1;
      idx := idx - 1;
      code := rb[idx % 4];
    }

    /** An explicit short code, with distance_context already 0. */
    method TakeDistanceFromRingBuffer()
      requires Valid() && 0 <= code < SHORT_CODES && context == 0
      modifies this`idx, this`code, this`context
      ensures Pending(old(Recent()), old(code)) && code == ShortDistance(old(code), old(Recent()))
    {
      if code == 0 {
        idx := idx - 1;
        code := rb[idx % 4];
        context := 1;
      } else {
        TakeNear();
      }
    }

    /** Codes 1 to 15: a recent distance, possibly with a small offset. */
    method TakeNear()
      requires Valid() && 0 < code < SHORT_CODES && context == 0
      modifies this`code
      ensures code == ShortDistance(old(code), Recent())
    {
      hide Shr, RecentAt, ShortBase;
      var distanceCode := code * 2;
      PackedConstants(code);
      var v := (idx + Shr(INDEX_OFFSET, distanceCode)) % 4;
      var base := rb[v];
      NearBase(rb, idx, code);
      v := Shr(VALUE_OFFSET, distanceCode) % 4;
      if distanceCode % 4 != 0 {
        code := base + v;
      } else {
        code := base - v;
        if code <= 0 {
          code := HUGE;
        }
      }
    }

    lemma NearBase(rb: seq<int>, idx: int, code: int)
      requires |rb| == 4 && 0 < code < SHORT_CODES
      ensures rb[(idx + Shr(INDEX_OFFSET, code * 2)) % 4] == RecentAt(rb, idx)[ShortBase(code)]
    {
      hide Shr, ShortBase, ShortDelta;
      PackedConstants(code);
      SameSlot(idx, Shr(INDEX_OFFSET, code * 2), ShortBase(code));
    }

    /** A back-reference records its distance. */
    method Remember(ghost recent: seq<int>, ghost symbol: nat)
      requires Pending(recent, symbol) && code <= MAX_ALLOWED
      modifies this`rb, this`idx
      ensures Valid() && Recent() == Push(symbol, code, recent)
    {
      rb := rb[idx % 4 := code];
      idx := idx + 1;
    }

    /** A dictionary reference leaves the recent distances as they were. */
    method Forget(ghost recent: seq<int>, ghost symbol: nat)
      requires Pending(recent, symbol)
      modifies this`idx
      ensures Valid() && Recent() == recent
    {
      idx := idx + context;
    }
  }

  // ---------- Explicit codes ----------

  /** NPOSTFIX and NDIRECT of a meta-block header. */
  datatype Params = Params(npostfix: nat, ndirect: nat) {
    predicate Valid() {
      npostfix <= 3 && exists x | 0 <= x <= 15 :: ndirect == x * Pow2(npostfix)
    }
  }

  /** The number of extra bits that follow a distance symbol. */
  function ExtraBits(p: Params, symbol: nat): (n: nat) {
    if symbol < SHORT_CODES + p.ndirect then 0
    else DivMod(symbol - SHORT_CODES - p.ndirect, Pow2(p.npostfix)).0 / 2 + 1
  }

  /** Section 4 of RFC 7932, for symbols that are not short codes. */
  function DistanceOf(p: Params, symbol: nat, extra: nat): (d: int)
    requires symbol >= SHORT_CODES
  {
    if symbol < SHORT_CODES + p.ndirect then symbol - SHORT_CODES + 1
    else
      var (h, l) := DivMod(symbol - SHORT_CODES - p.ndirect, Pow2(p.npostfix));
      (Compose(h, extra) - 4) * Pow2(p.npostfix) + l + p.ndirect + 1
  }

  /** The largest n with Pow2(n) <= x. */
  function Log2(x: nat): (n: nat)
    requires x > 0
    ensures Pow2(n) <= x < 2 * Pow2(n)
  {
    if x == 1 then 0 else 1 + Log2(x / 2)
  }

  /** Two leading bits and the rest: the numbers from 4 on. */
  function Compose(h: nat, e: nat): nat {
    (2 + h % 2) * Pow2(h / 2 + 1) + e
  }

  function Split(q: nat): (r: (nat, nat))
    requires q >= 4
  {
    var n := Log2(q) - 1;
    if q < 3 * Pow2(n) then (2 * (n - 1), q - 2 * Pow2(n)) else (2 * (n - 1) + 1, q - 3 * Pow2(n))
  }

  /** The symbol and extra bits of a distance. */
  function Encode(p: Params, d: nat): (r: (nat, nat))
    requires d > 0
  {
    if d <= p.ndirect then (d + SHORT_CODES - 1, 0)
    else
      var (q, l) := DivMod(d - p.ndirect - 1, Pow2(p.npostfix));
      var (h, e) := Split(q + 4);
      (SHORT_CODES + p.ndirect + Mul(h, Pow2(p.npostfix)) + l, e)
  }

  lemma Pow2Monotone(m: nat, n: nat)
    requires m < n
    ensures 2 * Pow2(m) <= Pow2(n)
  {
    if m + 1 < n {
      Pow2Monotone(m, n - 1);
    }
  }

  lemma Log2Unique(x: nat, n: nat)
    requires Pow2(n) <= x < 2 * Pow2(n)
    ensures Log2(x) == n
  {
    var l := Log2(x);
    if l < n {
      Pow2Monotone(l, n);
    } else if n < l {
      Pow2Monotone(n, l);
    }
  }

  lemma TwoLeadingBits(h: nat, e: nat)
    ensures var n := h / 2 + 1;
            && Pow2(n) >= 2 && Pow2(n + 1) == 2 * Pow2(n)
            && Compose(h, e) == if h % 2 == 0 then 2 * Pow2(n) + e else 3 * Pow2(n) + e
  {
  }

  lemma SplitCompose(h: nat, e: nat)
    requires e < Pow2(h / 2 + 1)
    ensures Compose(h, e) >= 4 && Split(Compose(h, e)) == (h, e)
  {
    hide Pow2, Log2, Compose, Split;
    var n := h / 2 + 1;
    TwoLeadingBits(h, e);
    Log2Unique(Compose(h, e), n + 1);
    SplitAt(Compose(h, e), n);
    assert h == 2 * (n - 1) + h % 2;
  }

  lemma SplitAt(q: nat, n: nat)
    requires q >= 4 && Log2(q) == n + 1
    ensures Split(q) == if q < 3 * Pow2(n) then (2 * (n - 1), q - 2 * Pow2(n)) else (2 * (n - 1) + 1, q - 3 * Pow2(n))
  {
    hide Log2;
  }

  lemma ComposeSplit(q: nat)
    requires q >= 4
    ensures Split(q).1 < Pow2(Split(q).0 / 2 + 1) && Compose(Split(q).0, Split(q).1) == q
  {
    Log2Unique(4, 2);
    if Log2(q) < 2 {
      Pow2Monotone(Log2(q), 2);
    }
  }

  /** Every distance is some symbol with some extra bits. */
  lemma DecodeEncode(p: Params, d: nat)
    requires d > 0
    ensures var (s, e) := Encode(p, d);
            s >= SHORT_CODES && e < Pow2(ExtraBits(p, s)) && DistanceOf(p, s, e) == d
  {
    hide Pow2, Compose, Split;
    if d > p.ndirect {
      var (q, l) := DivMod(d - p.ndirect - 1, Pow2(p.npostfix));
      var (h, e) := Split(q + 4);
      ComposeSplit(q + 4);
      DivModUnique(h * Pow2(p.npostfix) + l, Pow2(p.npostfix), h, l);
    }
  }

  lemma ExtraBitsOf(p: Params, s: nat)
    ensures s >= SHORT_CODES + p.ndirect ==>
              ExtraBits(p, s) == DivMod(s - SHORT_CODES - p.ndirect, Pow2(p.npostfix)).0 / 2 + 1
  {
  }

  /** No two of them are the same distance. */
  lemma EncodeDecode(p: Params, s: nat, e: nat)
    requires s >= SHORT_CODES && e < Pow2(ExtraBits(p, s))
    ensures DistanceOf(p, s, e) > 0 && Encode(p, DistanceOf(p, s, e)) == (s, e)
  {
    if s >= SHORT_CODES + p.ndirect {
      hide Pow2, Compose, Split, Log2, ExtraBits, DistanceOf, Encode;
      ExtraBitsOf(p, s);
      var (h, l) := DivMod(s - SHORT_CODES - p.ndirect, Pow2(p.npostfix));
      EncodeAt(p, h, l, e);
    }
  }

  lemma EncodeAt(p: Params, h: nat, l: nat, e: nat)
    requires l < Pow2(p.npostfix) && e < Pow2(h / 2 + 1)
    ensures var s := SHORT_CODES + p.ndirect + Mul(h, Pow2(p.npostfix)) + l;
            DistanceOf(p, s, e) > 0 && Encode(p, DistanceOf(p, s, e)) == (s, e)
  {
    hide Pow2, Compose, Split, Log2;
    var m := Pow2(p.npostfix);
    DivModUnique(Mul(h, m) + l, m, h, l);
    SplitCompose(h, e);
    var q: nat := Compose(h, e) - 4;
    DivModUnique(Mul(q, m) + l, m, q, l);
    assert DistanceOf(p, SHORT_CODES + p.ndirect + Mul(h, m) + l, e) == Mul(q, m) + l + p.ndirect + 1;
  }

  /** The shortcut for NPOSTFIX = 0: offset and extra bits on top of the number of direct codes. */
  function FastDistance(ndirect: nat, symbol: nat, extra: nat): int
    requires symbol >= SHORT_CODES + ndirect
  {
    var v := symbol - (SHORT_CODES + ndirect);
    SHORT_CODES + ndirect + (2 + v % 2) * Pow2(v / 2 + 1) - 4 + extra - SHORT_CODES + 1
  }

  lemma FastAgrees(p: Params, symbol: nat, extra: nat)
    requires p.npostfix == 0 && symbol >= SHORT_CODES + p.ndirect
    ensures FastDistance(p.ndirect, symbol, extra) == DistanceOf(p, symbol, extra)
  {
    assert Pow2(0) == 1;
  }

  // ---------- The largest usable alphabet ----------

  /** How many symbols can only stand for distances that are still allowed. */
  function BrotliMaxDistanceSymbol(ndirect: nat, npostfix: nat): (n: nat)
    requires npostfix <= 3
  {
    var bound := [0, 4, 12, 28][npostfix];
    var diff := [73, 126, 228, 424][npostfix];
    var postfix := Pow2(npostfix);
    if ndirect < bound then ndirect + diff + postfix
    else if ndirect > bound + postfix then ndirect + diff
    else bound + diff + postfix
  }

  /** The largest distance a symbol can stand for. */
  function Largest(p: Params, symbol: nat): int
    requires symbol >= SHORT_CODES
  {
    DistanceOf(p, symbol, Pow2(ExtraBits(p, symbol)) - 1)
  }

  lemma LargestCompose(h: nat)
    ensures Compose(h, Pow2(h / 2 + 1) - 1) < Compose(h + 1, Pow2((h + 1) / 2 + 1) - 1)
  {
    assert h % 2 == 1 ==> Pow2((h + 1) / 2 + 1) == 2 * Pow2(h / 2 + 1);
  }

  lemma LargestAt(p: Params, h: nat, l: nat, m: nat)
    requires m == Pow2(p.npostfix) && l < m
    ensures Largest(p, SHORT_CODES + p.ndirect + Mul(h, m) + l) ==
            (Compose(h, Pow2(h / 2 + 1) - 1) - 4) * m + l + p.ndirect + 1
  {
    DivModUnique(Mul(h, m) + l, m, h, l);
  }

  lemma StepWithin(p: Params, h: nat, l: nat, m: nat)
    requires m == Pow2(p.npostfix) && l + 1 < m
    ensures Largest(p, SHORT_CODES + p.ndirect + Mul(h, m) + l)
            < Largest(p, SHORT_CODES + p.ndirect + Mul(h, m) + l + 1)
  {
    hide Pow2, Largest, Compose;
    LargestAt(p, h, l, m);
    LargestAt(p, h, l + 1, m);
  }

  lemma StepOver(p: Params, h: nat, m: nat)
    requires m == Pow2(p.npostfix)
    ensures Largest(p, SHORT_CODES + p.ndirect + Mul(h, m) + (m - 1))
            < Largest(p, SHORT_CODES + p.ndirect + Mul(h + 1, m) + 0)
  {
    hide Pow2, Largest, Compose;
    LargestAt(p, h, m - 1, m);
    LargestAt(p, h + 1, 0, m);
    LargestCompose(h);
    var c, d := Compose(h, Pow2(h / 2 + 1) - 1), Compose(h + 1, Pow2((h + 1) / 2 + 1) - 1);
    MulGap(m, d - c);
    assert (d - 4) * m == (c - 4) * m + (d - c) * m;
  }

  lemma LargestStep(p: Params, s: nat)
    requires s >= SHORT_CODES
    ensures Largest(p, s) < Largest(p, s + 1)
  {
    if s >= SHORT_CODES + p.ndirect {
      hide Pow2, Compose, Largest;
      var m := Pow2(p.npostfix);
      var (h, l) := DivMod(s - SHORT_CODES - p.ndirect, m);
      assert s == SHORT_CODES + p.ndirect + Mul(h, m) + l;
      if l + 1 < m {
        StepWithin(p, h, l, m);
      } else {
        StepOver(p, h, m);
        assert Mul(h + 1, m) == Mul(h, m) + m;
      }
    } else if s + 1 == SHORT_CODES + p.ndirect {
      DivModUnique(0, Pow2(p.npostfix), 0, 0);
    }
  }

  lemma LargestMonotone(p: Params, s: nat, t: nat)
    requires SHORT_CODES <= s < t
    ensures Largest(p, s) < Largest(p, t)
  {
    LargestStep(p, t - 1);
    if s < t - 1 {
      LargestMonotone(p, s, t - 1);
    }
  }

  lemma BigPowers()
    ensures Pow2(0) == 1 && Pow2(1) == 2 && Pow2(2) == 4 && Pow2(3) == 8
    ensures Pow2(26) == 0x400_0000 && Pow2(27) == 0x800_0000 && Pow2(28) == 0x1000_0000
    ensures Pow2(29) == 0x2000_0000 && Pow2(30) == 0x4000_0000
  {
    assert Pow2(10) == 1024 && Pow2(20) == 0x10_0000 && Pow2(25) == 0x200_0000;
  }

  lemma LargestOfAlphabet(p: Params)
    requires p.Valid()
    ensures var m := BrotliMaxDistanceSymbol(p.ndirect, p.npostfix);
            m > SHORT_CODES && Largest(p, m - 1) <= MAX_ALLOWED < Largest(p, m)
  {
    hide Largest, BrotliMaxDistanceSymbol;
    if p.npostfix == 0 {
      NoPostfix(p);
    } else if p.npostfix == 1 {
      OnePostfix(p);
    } else if p.npostfix == 2 {
      TwoPostfix(p);
    } else {
      ThreePostfix(p);
    }
  }

  lemma NoPostfix(p: Params)
    requires p.npostfix == 0 && p.Valid()
    ensures var m := BrotliMaxDistanceSymbol(p.ndirect, p.npostfix);
            m > SHORT_CODES && Largest(p, m - 1) <= MAX_ALLOWED < Largest(p, m)
  {
    BigPowers();
    hide Pow2, Largest;
    LargestAt(p, 56, 0, 1); LargestAt(p, 57, 0, 1); LargestAt(p, 58, 0, 1);
  }

  lemma OnePostfix(p: Params)
    requires p.npostfix == 1 && p.Valid()
    ensures var m := BrotliMaxDistanceSymbol(p.ndirect, p.npostfix);
            m > SHORT_CODES && Largest(p, m - 1) <= MAX_ALLOWED < Largest(p, m)
  {
    BigPowers();
    hide Pow2, Largest;
    LargestAt(p, 54, 1, 2); LargestAt(p, 55, 0, 2); LargestAt(p, 55, 1, 2); LargestAt(p, 56, 0, 2);
  }

  lemma TwoPostfix(p: Params)
    requires p.npostfix == 2 && p.Valid()
    ensures var m := BrotliMaxDistanceSymbol(p.ndirect, p.npostfix);
            m > SHORT_CODES && Largest(p, m - 1) <= MAX_ALLOWED < Largest(p, m)
  {
    BigPowers();
    hide Pow2, Largest;
    LargestAt(p, 52, 3, 4); LargestAt(p, 53, 0, 4); LargestAt(p, 53, 3, 4); LargestAt(p, 54, 0, 4);
  }

  lemma ThreePostfix(p: Params)
    requires p.npostfix == 3 && p.Valid()
    ensures var m := BrotliMaxDistanceSymbol(p.ndirect, p.npostfix);
            m > SHORT_CODES && Largest(p, m - 1) <= MAX_ALLOWED < Largest(p, m)
  {
    BigPowers();
    hide Pow2, Largest;
    LargestAt(p, 50, 7, 8); LargestAt(p, 51, 0, 8); LargestAt(p, 51, 3, 8);
    LargestAt(p, 51, 4, 8); LargestAt(p, 51, 7, 8); LargestAt(p, 52, 0, 8);
  }

  /** Exactly the symbols below the bound stand only for allowed distances. */
  lemma MaxDistanceSymbolIsExact(p: Params, s: nat)
    requires p.Valid() && s >= SHORT_CODES
    ensures s < BrotliMaxDistanceSymbol(p.ndirect, p.npostfix) <==>
            forall e | 0 <= e < Pow2(ExtraBits(p, s)) :: DistanceOf(p, s, e) <= MAX_ALLOWED
  {
    var m := BrotliMaxDistanceSymbol(p.ndirect, p.npostfix);
    LargestOfAlphabet(p);
    hide Pow2, DistanceOf, BrotliMaxDistanceSymbol, ExtraBits;
    if s < m - 1 {
      LargestMonotone(p, s, m - 1);
    } else if s > m {
      LargestMonotone(p, m, s);
    }
    var top := Pow2(ExtraBits(p, s)) - 1;
    assert Largest(p, s) == DistanceOf(p, s, top);
    forall e | 0 <= e < Pow2(ExtraBits(p, s))
      ensures DistanceOf(p, s, e) <= Largest(p, s)
    {
      ExtraMonotone(p, s, e, top);
    }
  }

  lemma ExtraMonotone(p: Params, s: nat, e: nat, f: nat)
    requires s >= SHORT_CODES && e <= f
    ensures DistanceOf(p, s, e) <= DistanceOf(p, s, f)
  {
    hide Pow2, Compose;
    if s >= SHORT_CODES + p.ndirect {
      var (h, l) := DivMod(s - SHORT_CODES - p.ndirect, Pow2(p.npostfix));
      ComposeMonotone(h, e, f);
      MulMonotone(Compose(h, e) - 4, Compose(h, f) - 4, Pow2(p.npostfix));
    }
  }

  lemma ComposeMonotone(h: nat, e: nat, f: nat)
    requires e <= f
    ensures Compose(h, e) <= Compose(h, f)
  {
  }

  lemma MulMonotone(a: int, b: int, m: nat)
    requires a <= b
    ensures a * m <= b * m
  {
    assert b * m - a * m == (b - a) * m;
  }
}
