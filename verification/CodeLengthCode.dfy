/**
 * The code lengths of the code length alphabet (section 3.5 of RFC 7932): up to 18 lengths in a fixed order and
 * a fixed prefix code, with an early stop as soon as the code space is used up.
 */
module CodeLengthCode {
  import opened Bytes
  import opened Results
  import opened BitReader
  import opened SymbolDecoding

  const CODE_LENGTH_CODES := 18
  const CODE_SPACE := 32

  const ORDER: seq<nat> := [1, 2, 3, 4, 0, 5, 17, 6, 16, 7, 8, 9, 10, 11, 12, 13, 14, 15]
  const PREFIX_LENGTH: seq<nat> := [2, 2, 2, 3, 2, 2, 2, 4, 2, 2, 2, 3, 2, 2, 2, 4]
  const PREFIX_VALUE: seq<nat> := [0, 4, 3, 2, 0, 4, 3, 1, 0, 4, 3, 2, 0, 4, 3, 5]

  // ---------- The format ----------

  /** The fixed code: 00, 10, 01, 110, 1110 and 1111 stand for 0, 4, 3, 2, 1 and 5. */
  function Codeword(b: Bits): (r: Option<(nat, nat)>)
    ensures r.Some? ==> r.value.0 <= |b| && r.value.1 <= 5
  {
    if |b| < 2 then None
    else if !b[0] then Some((2, if b[1] then 3 else 0))
    else if !b[1] then Some((2, 4))
    else if |b| < 3 then None
    else if !b[2] then Some((3, 2))
    else if |b| < 4 then None
    else Some((4, if b[3] then 5 else 1))
  }

  /** Where the reading stands: the next place in the order, and what has been read. */
  datatype Progress = Progress(next: nat, lengths: seq<nat>)

  ghost predicate Sound(p: Progress) {
    && p.next <= CODE_LENGTH_CODES && |p.lengths| == CODE_LENGTH_CODES
    && forall k | 0 <= k < |p.lengths| :: p.lengths[k] <= 5
  }

  function Share(len: nat): (w: nat)
    ensures w <= 16
  {
    if len == 0 || len > 5 then 0 else if len == 1 then 16 else if len == 2 then 8 else if len == 3 then 4
    else if len == 4 then 2 else 1
  }

  function Sum(lengths: seq<nat>): (n: nat) {
    if lengths == [] then 0 else Sum(lengths[..|lengths| - 1]) + Share(lengths[|lengths| - 1])
  }

  /** How many code length codes there are. */
  function Used(lengths: seq<nat>): (n: nat) {
    if lengths == [] then 0 else Used(lengths[..|lengths| - 1]) + if lengths[|lengths| - 1] != 0 then 1 else 0
  }

  predicate Over(p: Progress) {
    p.next >= CODE_LENGTH_CODES || Sum(p.lengths) >= CODE_SPACE
  }

  function Take(p: Progress, v: nat): Progress
    requires p.next < CODE_LENGTH_CODES && |p.lengths| == CODE_LENGTH_CODES
  {
    Progress(p.next + 1, p.lengths[ORDER[p.next] := v])
  }

  datatype Outcome = Incomplete | Done(lengths: seq<nat>, rest: Bits)

  /** The whole reading, from wherever it stands. */
  function Read(p: Progress, b: Bits): (r: Outcome)
    requires Sound(p)
    decreases CODE_LENGTH_CODES - p.next
  {
    if Over(p) then Done(p.lengths, b)
    else
      match Codeword(b)
      case None => Incomplete
      case Some((n, v)) => Read(Take(p, v), b[n..])
  }

  /** Section 3.5: a single code, or the code space used up exactly. */
  predicate Acceptable(lengths: seq<nat>) {
    Used(lengths) == 1 || Sum(lengths) == CODE_SPACE
  }

  lemma CodewordAgrees(b: Bits, c: Bits)
    requires Codeword(b).Some? && b[..Codeword(b).value.0] <= c
    ensures Codeword(c) == Codeword(b)
  {
    var n := Codeword(b).value.0;
    assert c[..n] == b[..n];
    assert forall k | 0 <= k < n :: c[k] == c[..n][k] == b[..n][k] == b[k];
  }

  /** Whatever starts with the bits of the code length code reads as the same. */
  lemma {:induction false} ReadingAgrees(p: Progress, b: Bits, c: Bits)
    requires Sound(p) && Read(p, b).Done?
    ensures var r := Read(p, b);
            var n := |b| - |r.rest|;
            && 0 <= n && r.rest == b[n..] && |r.lengths| == CODE_LENGTH_CODES
            && (b[..n] <= c ==> Read(p, c) == Done(r.lengths, c[n..]))
    decreases CODE_LENGTH_CODES - p.next
  {
    hide Codeword, Sum, Read, Take;
    Unfolded(p, b);
    Unfolded(p, c);
    if !Over(p) {
      var (k, v) := Codeword(b).value;
      var q, r := Take(p, v), Read(p, b);
      var n := |b| - |r.rest|;
      ReadingAgrees(q, b[k..], if k <= |c| then c[k..] else []);
      if b[..n] <= c {
        SplitPrefix(b, c, k, n);
        CodewordAgrees(b, c);
      }
    }
  }

  lemma Unfolded(p: Progress, b: Bits)
    requires Sound(p)
    ensures !Over(p) && Codeword(b).Some? ==>
              var q := Take(p, Codeword(b).value.1);
              Sound(q) && q.next == p.next + 1 && Read(p, b) == Read(q, b[Codeword(b).value.0..])
    ensures !Over(p) && Codeword(b).None? ==> Read(p, b) == Incomplete
    ensures Over(p) ==> Read(p, b) == Done(p.lengths, b)
  {
    hide Codeword, Sum;
  }

  // ---------- Tables and counters ----------

  lemma CodewordIsStable(b: Bits, more: Bits)
    requires Codeword(b).Some?
    ensures Codeword(b + more) == Codeword(b)
  {
  }

  function Digit(b: bool): (d: nat) {
    if b then 1 else 0
  }

  lemma FourBits(w: Bits)
    requires |w| == 4
    ensures Value(w) == Digit(w[0]) + 2 * Digit(w[1]) + 4 * Digit(w[2]) + 8 * Digit(w[3])
  {
    hide Value;
    FirstBit(w);
    FirstBit(w[1..]);
    FirstBit(w[1..][1..]);
    FirstBit(w[1..][1..][1..]);
    assert w[1..][1..][1..][1..] == [];
    EmptyValue();
  }

  lemma FirstBit(w: Bits)
    requires w != []
    ensures Value(w) == Digit(w[0]) + 2 * Value(w[1..])
  {
  }

  lemma EmptyValue()
    ensures Value([]) == 0
  {
  }

  /** The two 16-entry tables are the code, seen through four bits. */
  lemma TableIsCode(w: Bits)
    requires |w| == 4
    ensures Value(w) < 16 && Codeword(w) == Some((PREFIX_LENGTH[Value(w)], PREFIX_VALUE[Value(w)]))
  {
    hide Value;
    FourBits(w);
  }

  /** With fewer than four bits at hand, the missing ones count as zeros; a codeword that fits is still right. */
  lemma ShortTable(a: Bits)
    requires |a| < 4
    ensures Value(a) < 16 && (PREFIX_LENGTH[Value(a)] <= |a| <==> Codeword(a).Some?)
    ensures Codeword(a).Some? ==> Codeword(a).value == (PREFIX_LENGTH[Value(a)], PREFIX_VALUE[Value(a)])
  {
    hide Value;
    var w := a + Zeros(4 - |a|);
    ValueZeros(a, 4 - |a|);
    TableIsCode(w);
    if Codeword(a).Some? {
      CodewordIsStable(a, Zeros(4 - |a|));
    } else {
      NotThere(a, Zeros(4 - |a|));
    }
  }

  lemma NotThere(a: Bits, more: Bits)
    requires Codeword(a).None? && Codeword(a + more).Some?
    ensures Codeword(a + more).value.0 > |a|
  {
  }

  /** Setting one length that was zero. */
  lemma {:induction false} SetOne(lengths: seq<nat>, k: nat, v: nat)
    requires k < |lengths| && lengths[k] == 0
    ensures Sum(lengths[k := v]) == Sum(lengths) + Share(v)
    ensures Used(lengths[k := v]) == Used(lengths) + if v != 0 then 1 else 0
  {
    var n := |lengths| - 1;
    if k < n {
      SetOne(lengths[..n], k, v);
      assert lengths[k := v][..n] == lengths[..n][k := v];
    } else {
      assert lengths[k := v][..n] == lengths[..n];
    }
  }

  /** The order visits every code once. */
  lemma OrderIsAPermutation(i: nat, j: nat)
    requires i < j < CODE_LENGTH_CODES
    ensures ORDER[i] != ORDER[j] && ORDER[i] < CODE_LENGTH_CODES && ORDER[j] < CODE_LENGTH_CODES
  {
  }

  /** The codes for repetitions and for 0 come early, the others by size. */
  lemma OrderIsBySize(i: nat, j: nat)
    requires i < j < CODE_LENGTH_CODES
    ensures ORDER[4] == 0 && ORDER[6] == 17 && ORDER[8] == 16
    ensures i !in {4, 6, 8} && j !in {4, 6, 8} ==> 0 < ORDER[i] < ORDER[j] < 16
  {
  }

  lemma {:induction false} NothingYet(n: nat)
    ensures Sum(seq(n, _ => 0)) == 0 && Used(seq(n, _ => 0)) == 0
  {
    if n > 0 {
      NothingYet(n - 1);
      assert seq(n, _ => 0)[..n - 1] == seq(n - 1, _ => 0);
    }
  }

  /** What is left of the code space in 32 bits. */
  function Charged(sum: nat): (space: nat) {
    (CODE_SPACE - sum) % WORD
  }

  /** One more length: the space falls by its share, and is 0 or has wrapped around exactly when it is used up. */
  lemma ChargedOne(sum: nat, v: nat)
    requires sum < CODE_SPACE && v <= 5
    ensures (Charged(sum) - Share(v)) % WORD == Charged(sum + Share(v)) && sum + Share(v) < CODE_SPACE + 16
    ensures (Charged(sum + Share(v)) - 1) % WORD >= CODE_SPACE <==> sum + Share(v) >= CODE_SPACE
  {
    hide Share;
  }

  /** The later places in the order are other codes. */
  lemma OthersStay(i: nat)
    requires i < CODE_LENGTH_CODES
    ensures ORDER[i] < CODE_LENGTH_CODES
    ensures forall j | i < j < CODE_LENGTH_CODES :: ORDER[j] != ORDER[i] && ORDER[j] < CODE_LENGTH_CODES
  {
    forall j | i < j < CODE_LENGTH_CODES
      ensures ORDER[j] != ORDER[i] && ORDER[j] < CODE_LENGTH_CODES
    {
      OrderIsAPermutation(i, j);
    }
    if i == CODE_LENGTH_CODES - 1 {
      OrderIsAPermutation(0, i);
    } else {
      OrderIsAPermutation(i, i + 1);
    }
  }

  // ---------- The reader ----------

  /** The fields sub_loop_counter, code_length_code_lengths, repeat and space while a complex code is read. */
  class Reading {
    var next: nat
    const lengths: array<nat>
    var numCodes: nat
    var space: nat

    ghost function At(): Progress
      reads this, lengths
    {
      Progress(next, lengths[..])
    }

    ghost predicate Valid()
      reads this, lengths
      ensures Valid() ==> Sound(At()) && lengths.Length == CODE_LENGTH_CODES
    {
      && Sound(At()) && numCodes == Used(lengths[..]) && Counted()
      && forall j | next <= j < CODE_LENGTH_CODES :: ORDER[j] < lengths.Length && lengths[ORDER[j]] == 0
    }

    ghost predicate Stopped(stop: bool)
      reads this, lengths
    {
      stop || next == CODE_LENGTH_CODES <==> Over(At())
    }

    /** No length can take more than half of the code space. */
    ghost predicate Counted()
      reads this, lengths
    {
      space == Charged(Sum(lengths[..])) && Sum(lengths[..]) < CODE_SPACE + 16
    }

    /** HUFFMAN_NONE: the two bits read there skip none, two or three of the lengths; 1 means a simple code. */
    constructor (skip: nat)
      requires skip in {0, 2, 3}
      ensures Valid() && At() == Progress(skip, seq(CODE_LENGTH_CODES, _ => 0)) && !Over(At()) && fresh(lengths)
    {
      next, lengths, numCodes, space := skip, new nat[CODE_LENGTH_CODES](_ => 0), 0, CODE_SPACE;
      new;
      assert lengths[..] == seq(CODE_LENGTH_CODES, _ => 0);
      NothingYet(CODE_LENGTH_CODES);
    }

    lemma SpaceIsSum()
      requires Valid()
      ensures Acceptable(lengths[..]) <==> numCodes == 1 || space == 0
    {
      hide Sum, Used;
    }

    /** One length; stop when the space is 0 or has wrapped around. */
    method Store(v: nat) returns (stop: bool)
      requires Valid() && !Over(At()) && v <= 5
      modifies this`next, this`numCodes, this`space, lengths
      ensures Valid() && At() == Take(old(At()), v) && Stopped(stop) && next > old(next)
    {
      hide Sum, Used, Share, Pow2, Charged;
      ghost var was := lengths[..];
      SetOne(was, ORDER[next], v);
      ShareIsShift(v);
      ChargedOne(Sum(was), v);
      OthersStay(next);
      lengths[ORDER[next]] := v;
      assert lengths[..] == was[ORDER[next] := v];
      stop := false;
      if v != 0 {
        space := (space - CODE_SPACE / Pow2(v)) % WORD;
        numCodes := numCodes + 1;
        stop := (space - 1) % WORD >= CODE_SPACE;
      }
      next := next + 1;
      assert Counted();
    }

    /**
     * Reads on from where an earlier call ran out of input. Whatever follows in the stream, the lengths are those
     * of the format, and they are accepted exactly when the format allows them.
     */
    method ReadCodeLengthCodeLengths(br: Reader, input: seq<Byte>, ghost future: Bits) returns (code: Code)
      requires Valid() && !Over(At()) && br.Valid(input)
      modifies this`next, this`numCodes, this`space, lengths, br
      ensures Valid() && br.Valid(input)
      ensures code == NeedsMoreInput ==>
                && br.availIn == 0 && !Over(At()) && Codeword(br.Stream(input)).None?
                && Read(At(), br.Stream(input) + future) == Read(old(At()), old(br.Stream(input)) + future)
      ensures code != NeedsMoreInput ==>
                Read(old(At()), old(br.Stream(input)) + future) == Done(lengths[..], br.Stream(input) + future)
      ensures code != NeedsMoreInput ==> (code == Success <==> Acceptable(lengths[..]))
    {
      hide Sum, Used, Codeword, Value, Read, Over, Take, Sound, Counted, Acceptable;
      var stop := false;
      NotOver(At());
      while next < CODE_LENGTH_CODES && !stop
        invariant Valid() && br.Valid(input) && Stopped(stop)
        invariant Read(At(), br.Stream(input) + future) == Read(old(At()), old(br.Stream(input)) + future)
        decreases CODE_LENGTH_CODES - next, !stop
      {
        ghost var b := br.Stream(input);
        var ok, v := ReadCodeword(br, input);
        if !ok {
          return NeedsMoreInput;
        }
        ReadStep(At(), b, future);
        stop := Store(v);
      }
      ReadOver(At(), br.Stream(input) + future);
      SpaceIsSum();
      if !(numCodes == 1 || space == 0) {
        return Failure;
      }
      return Success;
    }
  }

  lemma ReadStep(p: Progress, b: Bits, more: Bits)
    requires Sound(p) && !Over(p) && Codeword(b).Some?
    ensures var (n, v) := Codeword(b).value;
            Sound(Take(p, v)) && Read(p, b + more) == Read(Take(p, v), b[n..] + more)
  {
    hide Codeword, Sum;
    CodewordIsStable(b, more);
    var n := Codeword(b).value.0;
    assert (b + more)[n..] == b[n..] + more;
  }

  lemma NotOver(p: Progress)
    requires !Over(p)
    ensures p.next < CODE_LENGTH_CODES
  {
  }

  lemma ReadOver(p: Progress, b: Bits)
    requires Sound(p) && Over(p)
    ensures Read(p, b) == Done(p.lengths, b)
  {
  }

  lemma ShareIsShift(v: nat)
    requires v <= 5
    ensures v != 0 ==> Share(v) == CODE_SPACE / Pow2(v) > 0
    ensures v == 0 ==> Share(v) == 0
  {
    assert Pow2(1) == 2 && Pow2(2) == 4 && Pow2(3) == 8 && Pow2(4) == 16 && Pow2(5) == 32;
  }

  /** One codeword, through the tables; short input is enough if the codeword is. */
  method ReadCodeword(br: Reader, input: seq<Byte>) returns (ok: bool, v: nat)
    requires br.Valid(input)
    modifies br
    ensures br.Valid(input) && ok == Codeword(old(br.Stream(input))).Some?
    ensures if ok then Codeword(old(br.Stream(input))) == Some((|old(br.Stream(input))| - |br.Stream(input)|, v))
                       && |br.Stream(input)| <= |old(br.Stream(input))|
                       && br.Stream(input) == old(br.Stream(input))[|old(br.Stream(input))| - |br.Stream(input)|..]
            else br.Stream(input) == old(br.Stream(input)) && br.availIn == 0
  {
    hide Codeword, Value, ByteBits;
    ghost var b := br.Stream(input);
    var ix;
    ok, ix := br.SafeGetBits(4, input);
    if !ok {
      assert br.Stream(input) == br.acc;
      ShortTable(br.acc);
      ix := Value(br.acc);
      if PREFIX_LENGTH[ix] > |br.acc| {
        return false, 0;
      }
    } else {
      TableIsCode(b[..4]);
      CodewordIsStable(b[..4], b[4..]);
      assert b == b[..4] + b[4..];
    }
    v := PREFIX_VALUE[ix];
    br.DropBits(PREFIX_LENGTH[ix], input);
    ok := true;
  }
}
