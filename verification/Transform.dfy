/** Dictionary word transforms (src/transform.rs), against section 8 of RFC 7932. */
module Transform {
  import opened Bytes

  const OMIT_LAST_9 := 9
  const UPPERCASE_FIRST := 10
  const UPPERCASE_ALL := 11
  const OMIT_FIRST_1 := 12
  const OMIT_FIRST_9 := 20

  /** A row of the transform table: offsets of NUL-terminated strings, and the kind of change. */
  datatype Row = Row(prefixId: nat, kind: nat, suffixId: nat)

  datatype Tables = Tables(prefixSuffix: seq<Byte>, rows: seq<Row>) {

    /** The string that starts at offset id and ends before the next NUL. */
    function Text(id: nat): (s: seq<Byte>)
      ensures id < |prefixSuffix| ==> id + |s| <= |prefixSuffix| && s == prefixSuffix[id..id + |s|]
      ensures forall k | 0 <= k < |s| :: s[k] != 0
      ensures id + |s| < |prefixSuffix| ==> prefixSuffix[id + |s|] == 0
      decreases |prefixSuffix| - id
    {
      if id < |prefixSuffix| && prefixSuffix[id] != 0 then [prefixSuffix[id]] + Text(id + 1) else []
    }

    predicate Terminated(id: nat, bound: nat) {
      id + |Text(id)| < |prefixSuffix| && |Text(id)| <= bound
    }

    /** What the decoder relies on: short texts, and a first row that changes nothing. */
    predicate Valid() {
      && (rows != [] ==> rows[0].kind == 0 && Text(rows[0].prefixId) == Text(rows[0].suffixId) == [])
      && forall r | r in rows :: Terminated(r.prefixId, 5) && Terminated(r.suffixId, 8) && r.kind <= OMIT_FIRST_9
    }
  }

  /** The number of bytes a character takes in the simplified UTF-8 model. */
  function Step(b: Byte): (n: nat)
    ensures 1 <= n <= 3
  {
    if b < 0xc0 then 1 else if b < 0xe0 then 2 else 3
  }

  /** Section 8 of RFC 7932: the change at position p never reaches past the end of the word. */
  function UpperAt(w: seq<Byte>, p: nat): (r: seq<Byte>)
    requires p < |w|
    ensures |r| == |w|
  {
    if w[p] < 0xc0 then
      if 'a' as int <= w[p] <= 'z' as int then w[p := XorByte(w[p], 32)] else w
    else if w[p] < 0xe0 then
      if p + 1 < |w| then w[p + 1 := XorByte(w[p + 1], 32)] else w
    else
      if p + 2 < |w| then w[p + 2 := XorByte(w[p + 2], 5)] else w
  }

  function UpperFirst(w: seq<Byte>): (r: seq<Byte>)
    ensures |r| == |w|
  {
    if w == [] then w else UpperAt(w, 0)
  }

  function UpperFrom(w: seq<Byte>, p: nat): (r: seq<Byte>)
    ensures |r| == |w|
    decreases |w| - p
  {
    if p < |w| then UpperFrom(UpperAt(w, p), p + Step(w[p])) else w
  }

  /** The part of the word that a kind of transform keeps. */
  function Kept(w: seq<Byte>, kind: nat): (r: seq<Byte>)
    ensures |r| <= |w|
  {
    if kind <= OMIT_LAST_9 then w[..Max(0, |w| - kind)]
    else if kind < OMIT_FIRST_1 then w
    else w[Min(kind - OMIT_FIRST_1 + 1, |w|)..]
  }

  function Middle(w: seq<Byte>, kind: nat): (r: seq<Byte>)
    ensures |r| <= |w|
  {
    if kind == UPPERCASE_FIRST then UpperFirst(Kept(w, kind))
    else if kind == UPPERCASE_ALL then UpperFrom(Kept(w, kind), 0)
    else Kept(w, kind)
  }

  /** Prefix, transformed word, suffix. */
  function Transformed(tables: Tables, w: seq<Byte>, t: nat): (r: seq<Byte>)
    requires tables.Valid() && t < |tables.rows|
    ensures |r| <= |w| + 13
  {
    var row := tables.rows[t];
    tables.Text(row.prefixId) + Middle(w, row.kind) + tables.Text(row.suffixId)
  }

  /** The first row changes nothing, so the decoder may copy the word as it is. */
  lemma FirstTransform(tables: Tables, w: seq<Byte>)
    requires tables.Valid() && tables.rows != []
    ensures Transformed(tables, w, 0) == w
  {
    assert w[..|w|] == w;
  }

  predicate Bit(v: nat, k: nat) {
    if k == 0 then v % 2 == 1 else Bit(v / 2, k - 1)
  }

  lemma {:induction false} XorBit(a: nat, b: nat, k: nat)
    ensures Bit(BitXor(a, b), k) <==> Bit(a, k) != Bit(b, k)
    decreases k
  {
    ZeroBit(k);
    if a != 0 && b != 0 && k > 0 {
      XorBit(a / 2, b / 2, k - 1);
    }
  }

  lemma {:induction false} ZeroBit(k: nat)
    ensures !Bit(0, k)
  {
    if k > 0 {
      ZeroBit(k - 1);
    }
  }

  lemma LeadBits(b: Byte)
    ensures Bit(b, 7) && Bit(b, 6) <==> b >= 0xc0
    ensures Bit(b, 7) && Bit(b, 6) && Bit(b, 5) <==> b >= 0xe0
  {
    HigherBits(b);
    hide Bit;
    FifthBit(b);
    FifthBit(b / 2);
    FifthBit(b / 2 / 2);
    LeadDigits(b);
  }

  lemma HigherBits(b: nat)
    ensures Bit(b, 7) == Bit(b / 2 / 2, 5) && Bit(b, 6) == Bit(b / 2, 5)
  {
    assert Bit(b, 7) == Bit(b / 2, 6);
  }

  lemma LeadDigits(b: Byte)
    ensures b / 2 / 2 / 32 % 2 == 1 && b / 2 / 32 % 2 == 1 <==> b >= 0xc0
    ensures b / 2 / 2 / 32 % 2 == 1 && b / 2 / 32 % 2 == 1 && b / 32 % 2 == 1 <==> b >= 0xe0
  {
  }

  lemma FifthBit(v: nat)
    ensures Bit(v, 5) <==> v / 32 % 2 == 1
  {
    var a := v / 2;
    var b := a / 2;
    var c := b / 2;
    var d := c / 2;
    assert Bit(v, 5) == Bit(a, 4) == Bit(b, 3) == Bit(c, 2) == Bit(d, 1) == Bit(d / 2, 0);
    assert d / 2 == v / 32;
  }

  lemma FlippedBits(k: nat)
    requires k < 8
    ensures Bit(32, k) <==> k == 5
    ensures Bit(5, k) <==> k == 0 || k == 2
  {
    assert Bit(32, 0) == Bit(32, 1) == Bit(32, 2) == Bit(32, 3) == Bit(32, 4) == false && Bit(32, 5);
    assert !Bit(32, 6) && !Bit(32, 7);
    assert Bit(5, 0) && !Bit(5, 1) && Bit(5, 2) && !Bit(5, 3) && !Bit(5, 4) && !Bit(5, 5) && !Bit(5, 6) && !Bit(5, 7);
  }

  /**
   * Which bits of the word change: by the leading ones of the byte at p, bit 5 of a small letter, bit 5 of the second
   * byte of a character, or bits 0 and 2 of the third.
   */
  lemma UpperFlips(w: seq<Byte>, p: nat, j: nat, k: nat)
    requires p < |w| && j < |w| && k < 8
    ensures var two := Bit(w[p], 7) && Bit(w[p], 6);
            var three := two && Bit(w[p], 5);
            Bit(UpperAt(w, p)[j], k) != Bit(w[j], k) <==>
              if three then j == p + 2 && (k == 0 || k == 2)
              else if two then j == p + 1 && k == 5
              else j == p && 'a' as int <= w[p] <= 'z' as int && k == 5
  {
    hide Bit, BitXor;
    LeadBits(w[p]);
    FlippedBits(k);
    XorBit(w[j], 32, k);
    XorBit(w[j], 5, k);
  }

  /** How far it is to the next character: by the leading ones again. */
  lemma StepIsLead(b: Byte)
    ensures Step(b) == 1 + (if Bit(b, 7) && Bit(b, 6) then 1 + (if Bit(b, 5) then 1 else 0) else 0)
  {
    LeadBits(b);
  }

  /** Kinds 1 to 9 leave out as many bytes at the end, kinds 12 to 20 one to nine at the beginning. */
  lemma Omitted(a: seq<Byte>, b: seq<Byte>)
    ensures |b| <= 9 ==> Middle(a + b, |b|) == a
    ensures 1 <= |a| <= 9 ==> Middle(a + b, 11 + |a|) == b
  {
    assert (a + b)[..|a|] == a && (a + b)[|a|..] == b;
  }

  /** Kind 10 changes the first character only, kind 11 all of them. */
  lemma Uppercased(w: seq<Byte>)
    ensures w != [] ==> Middle(w, 10) == UpperAt(w, 0)
    ensures Middle(w, 11) == UpperFrom(w, 0)
  {
  }

  /** Nothing changed outside lo..hi. */
  predicate Untouched(s: seq<Byte>, r: seq<Byte>, lo: nat, hi: nat) {
    |s| == |r| && forall j | 0 <= j < |s| && !(lo <= j < hi) :: r[j] == s[j]
  }

  /** Where the change at position p lands does not depend on what lies before p. */
  lemma UpperAtShift(w: seq<Byte>, p: nat)
    requires p < |w|
    ensures UpperAt(w, p) == w[..p] + UpperAt(w[p..], 0)
  {
  }

  /** In-place uppercasing of the character at a[at], without any length guard. */
  method ToUpperCase(a: array<Byte>, at: nat, ghost end: nat) returns (step: nat)
    requires at < end && at + 3 <= a.Length && end <= a.Length
    modifies a
    ensures step == Step(old(a[at]))
    ensures a[at..end] == UpperAt(old(a[at..end]), 0)
    ensures forall j | 0 <= j < at || at + 3 <= j < a.Length :: a[j] == old(a[j])
  {
    if a[at] < 0xc0 {
      if a[at] >= 'a' as int && a[at] <= 'z' as int {
        a[at] := XorByte(a[at], 32);
      }
      return 1;
    }
    if a[at] < 0xe0 {
      a[at + 1] := XorByte(a[at + 1], 32);
      return 2;
    }
    a[at + 2] := XorByte(a[at + 2], 5);
    return 3;
  }

  /**
   * The word goes to dst[off..]. Uppercasing may touch up to two bytes past what is counted, but the
   * counted bytes are exactly those of the guarded transform.
   */
  method TransformDictionaryWord(tables: Tables, dst: array<Byte>, off: nat, word: seq<Byte>, transform: nat)
    returns (idx: nat)
    requires tables.Valid() && transform < |tables.rows|
    requires off + |word| + 13 <= dst.Length
    modifies dst
    ensures idx <= |word| + 13 && dst[..][off..off + idx] == Transformed(tables, word, transform)
    ensures Untouched(old(dst[..]), dst[..], off, off + idx + (if word == [] then 3 else 2))
  {
    var row := tables.rows[transform];
    assert row in tables.rows;
    ghost var before := dst[..];
    var p := WriteText(tables, row.prefixId, 5, dst, off);
    ghost var s0 := dst[..];
    assert s0[off..off + p] == tables.Text(row.prefixId) && Untouched(before, s0, off, off + p);
    idx := WriteRest(tables, dst, off, p, word, transform, before);
  }

  /** What follows the prefix: the changed word, then the suffix. */
  method WriteRest(tables: Tables, dst: array<Byte>, off: nat, p: nat, word: seq<Byte>, transform: nat,
                   ghost before: seq<Byte>)
    returns (idx: nat)
    requires tables.Valid() && transform < |tables.rows| && p <= 5
    requires off + |word| + 13 <= dst.Length
    requires dst[..][off..off + p] == tables.Text(tables.rows[transform].prefixId)
    requires Untouched(before, dst[..], off, off + p)
    modifies dst
    ensures idx <= |word| + 13 && dst[..][off..off + idx] == Transformed(tables, word, transform)
    ensures Untouched(before, dst[..], off, off + idx + (if word == [] then 3 else 2))
  {
    hide Transformed, Middle, Untouched, Tables.Text;
    var row := tables.rows[transform];
    assert row in tables.rows;
    ghost var s0 := dst[..];
    var n := WriteMiddle(dst, off + p, word, row.kind);
    ghost var s1 := dst[..];
    var m := WriteText(tables, row.suffixId, 8, dst, off + p + n);
    idx := p + n + m;
    Glue(before, s0, s1, dst[..], off, p, n, m, tables, word, transform);
  }

  /** Three writes in a row, none touching what the earlier ones count. */
  lemma Glue(before: seq<Byte>, s0: seq<Byte>, s1: seq<Byte>, s2: seq<Byte>, off: nat, p: nat, n: nat, m: nat,
             tables: Tables, word: seq<Byte>, t: nat)
    requires tables.Valid() && t < |tables.rows|
    requires off + p + n + m <= |s0| && Untouched(before, s0, off, off + p)
    requires Untouched(s0, s1, off + p, off + p + n + (if word == [] then 3 else 2))
    requires Untouched(s1, s2, off + p + n, off + p + n + m)
    requires s0[off..off + p] == tables.Text(tables.rows[t].prefixId)
    requires s1[off + p..off + p + n] == Middle(word, tables.rows[t].kind)
    requires s2[off + p + n..off + p + n + m] == tables.Text(tables.rows[t].suffixId)
    ensures s2[off..off + p + n + m] == Transformed(tables, word, t)
    ensures Untouched(before, s2, off, off + p + n + m + (if word == [] then 3 else 2))
  {
    hide Middle, Tables.Text, Tables.Valid;
    var row := tables.rows[t];
    var a, b, c := tables.Text(row.prefixId), Middle(word, row.kind), tables.Text(row.suffixId);
    SameSlice(s0, s1, off, off + p);
    SameSlice(s1, s2, off, off + p);
    SameSlice(s1, s2, off + p, off + p + n);
    Join(s2, off, a, b, c);
  }

  lemma SameSlice(s: seq<Byte>, r: seq<Byte>, lo: nat, hi: nat)
    requires lo <= hi <= |s| == |r| && forall j | 0 <= j < hi :: r[j] == s[j]
    ensures r[lo..hi] == s[lo..hi]
  {
  }

  lemma Join(s: seq<Byte>, off: nat, a: seq<Byte>, b: seq<Byte>, c: seq<Byte>)
    requires off + |a| + |b| + |c| <= |s|
    requires s[off..off + |a|] == a && s[off + |a|..off + |a| + |b|] == b
    requires s[off + |a| + |b|..off + |a| + |b| + |c|] == c
    ensures s[off..off + |a| + |b| + |c|] == a + b + c
  {
  }

  /** One in-place step is the guarded change of the counted bytes. */
  lemma StepIsUpperAt(s0: seq<Byte>, s1: seq<Byte>, start: nat, n: nat, offset: nat)
    requires |s0| == |s1| && offset < n && start + n <= |s0|
    requires s1[start + offset..start + n] == UpperAt(s0[start + offset..start + n], 0)
    requires forall j | 0 <= j < start + offset :: s1[j] == s0[j]
    ensures s1[start..start + n] == UpperAt(s0[start..start + n], offset)
  {
    var w := s0[start..start + n];
    UpperAtShift(w, offset);
    assert w[offset..] == s0[start + offset..start + n];
    assert s1[start..start + n] == w[..offset] + s1[start + offset..start + n];
  }

  /** Copies a NUL-terminated string to dst[off..]. */
  method WriteText(tables: Tables, id: nat, ghost bound: nat, dst: array<Byte>, off: nat) returns (i: nat)
    requires tables.Terminated(id, bound) && off + bound <= dst.Length
    modifies dst
    ensures i <= bound && dst[..][off..off + i] == tables.Text(id)
    ensures Untouched(old(dst[..]), dst[..], off, off + i)
  {
    hide Mul;
    ghost var text := tables.Text(id);
    i := 0;
    while tables.prefixSuffix[id + i] != 0
      invariant i <= |text| && (i < |text| ==> text[i] == tables.prefixSuffix[id + i])
      invariant dst[off..off + i] == text[..i]
      invariant forall j | 0 <= j < off || off + i <= j < dst.Length :: dst[j] == old(dst[j])
      decreases |text| - i
    {
      dst[off + i] := tables.prefixSuffix[id + i];
      i := i + 1;
    }
  }

  /** Copies the kept part of the word to dst[start..] and uppercases it there. */
  method WriteMiddle(dst: array<Byte>, start: nat, word: seq<Byte>, kind: nat) returns (i: nat)
    requires start + |word| + 3 <= dst.Length && kind <= OMIT_FIRST_9
    modifies dst
    ensures i <= |word| && dst[..][start..start + i] == Middle(word, kind)
    ensures Untouched(old(dst[..]), dst[..], start, start + i + (if word == [] then 3 else 2))
  {
    var skip: int := if kind < OMIT_FIRST_1 then 0 else kind - (OMIT_FIRST_1 - 1);
    if skip > |word| {
      skip := |word|;
    }
    var w := word[skip..];
    var len: int := |word| - skip;
    if kind <= OMIT_LAST_9 {
      len := len - kind;
    }
    i := WritePrefix(dst, start, w, len);
    ghost var kept := Kept(word, kind);
    assert dst[start..start + i] == kept;
    if kind == UPPERCASE_FIRST {
      var _ := ToUpperCase(dst, start, start + Max(i, 1));
    } else if kind == UPPERCASE_ALL {
      UppercaseAll(dst, start, i);
    }
  }

  /** Copies the first len bytes of w, none when len is negative. */
  method WritePrefix(dst: array<Byte>, start: nat, w: seq<Byte>, len: int) returns (i: nat)
    requires len <= |w| && start + |w| <= dst.Length
    modifies dst
    ensures i == Max(len, 0) && dst[start..start + i] == w[..i]
    ensures forall j | 0 <= j < start || start + i <= j < dst.Length :: dst[j] == old(dst[j])
  {
    i := 0;
    while i < len
      invariant i <= Max(len, 0)
      invariant dst[start..start + i] == w[..i]
      invariant forall j | 0 <= j < start || start + i <= j < dst.Length :: dst[j] == old(dst[j])
    {
      dst[start + i] := w[i];
      i := i + 1;
    }
  }

  /** The uppercasing loop: a step may reach past the end, but never changes what is counted after it. */
  method UppercaseAll(dst: array<Byte>, start: nat, n: nat)
    requires start + n + 2 <= dst.Length
    modifies dst
    ensures dst[start..start + n] == UpperFrom(old(dst[start..start + n]), 0)
    ensures forall j | 0 <= j < start || start + n + 2 <= j < dst.Length :: dst[j] == old(dst[j])
  {
    hide UpperFrom, UpperAt, Step;
    var len: int := n;
    var offset := 0;
    ghost var w := dst[start..start + n];
    while len > 0
      invariant offset + len == n
      invariant UpperFrom(w, 0) == UpperFrom(dst[start..start + n], offset)
      invariant forall j | 0 <= j < start || start + n + 2 <= j < dst.Length :: dst[j] == old(dst[j])
    {
      ghost var before := dst[..];
      UpperFromStep(dst[start..start + n], offset);
      var step := ToUpperCase(dst, start + offset, start + n);
      StepIsUpperAt(before, dst[..], start, n, offset);
      offset := offset + step;
      len := len - step;
    }
    UpperFromStep(dst[start..start + n], offset);
  }

  lemma UpperFromStep(w: seq<Byte>, p: nat)
    ensures UpperFrom(w, p) == if p >= |w| then w else UpperFrom(UpperAt(w, p), p + Step(w[p]))
    ensures p < |w| ==> Step(w[p]) > 0
  {
  }
}
