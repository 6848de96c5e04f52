/**
 * The sliding window: a ring with slack past its end, filled by speculative 16-byte writes, against an
 * unbounded history that is only ever appended to (section 10 of RFC 7932).
 */
module SlidingWindow {
  import opened Bytes
  import opened Results
  import opened Transform

  const GAP := 16        // distances never reach the last 16 bytes of the window
  const SLACK := 42 + 24 // bytes allocated past the end of the ring
  const MAX_WORD := 24

  /** LZ77 copy, one byte at a time: the source may overlap what is being produced. */
  function CopyNaive(h: seq<Byte>, d: nat, n: nat): (r: seq<Byte>)
    requires 1 <= d <= |h|
    ensures |r| == |h| + n && h <= r
  {
    if n == 0 then h
    else
      var p := CopyNaive(h, d, n - 1);
      p + [p[|p| - d]]
  }

  /** A copy that does not overlap itself is a block copy. */
  lemma {:induction false} CopyWithoutOverlap(h: seq<Byte>, d: nat, n: nat)
    requires 1 <= d <= |h| && n <= d
    ensures CopyNaive(h, d, n) == h + h[|h| - d..|h| - d + n]
  {
    if n > 0 {
      CopyWithoutOverlap(h, d, n - 1);
      var p, k := CopyNaive(h, d, n - 1), |h| - d + n - 1;
      assert p[k] == h[k];
      SliceNext(h, |h| - d, k);
    }
  }

  lemma SliceNext(h: seq<Byte>, i: nat, j: nat)
    requires i <= j < |h|
    ensures h[i..j + 1] == h[i..j] + [h[j]]
  {
  }

  /** Copies compose, so a copy can be suspended and resumed. */
  lemma {:induction false} CopySplits(h: seq<Byte>, d: nat, m: nat, n: nat)
    requires 1 <= d <= |h|
    ensures CopyNaive(h, d, m + n) == CopyNaive(CopyNaive(h, d, m), d, n)
  {
    if n > 0 {
      CopySplits(h, d, m, n - 1);
    }
  }

  /** The part of the ring already written in this round holds the newest history. */
  ghost predicate Front(r: seq<Byte>, pos: nat, h: seq<Byte>) {
    pos <= |r| && pos <= |h| && forall j | 0 <= j < pos :: r[j] == h[|h| - pos + j]
  }

  /** From lo on, the ring still holds what the previous round (or the dictionary) left there. */
  ghost predicate Back(r: seq<Byte>, size: nat, lo: nat, pos: nat, h: seq<Byte>) {
    size <= |r| && pos <= |h| &&
    forall j | lo <= j < size && size - j <= |h| - pos :: r[j] == h[|h| - pos - (size - j)]
  }

  /** A wrapped write: the bytes at the front of the round still sit in the slack. */
  ghost predicate InSlack(r: seq<Byte>, size: nat, pos: nat, h: seq<Byte>) {
    size + pos <= |r| && pos <= |h| && forall j | size <= j < size + pos :: r[j] == h[|h| - pos + (j - size)]
  }

  /** Where in the ring the byte at distance d before pos lives. */
  function Source(pos: nat, d: nat, size: nat): (j: int) {
    if d <= pos then pos - d else pos - d + size
  }

  lemma SourceIsMasked(pos: nat, d: nat, size: nat)
    requires pos < size && 1 <= d <= size
    ensures (pos - d) % size == Source(pos, d, size) && 0 <= Source(pos, d, size) < size
  {
    if d > pos {
      NegativeMod(pos - d, size);
    }
  }

  lemma NegativeMod(x: int, m: nat)
    requires 0 <= x + m < m
    ensures x % m == x + m
  {
  }

  /** Every distance the format allows addresses a genuine history byte, never a clobbered one. */
  lemma DistanceIsGenuine(r: seq<Byte>, size: nat, pos: nat, h: seq<Byte>, d: nat)
    requires Front(r, pos, h) && Back(r, size, pos + GAP, pos, h)
    requires pos < size && 1 <= d <= |h| && d + GAP <= size
    ensures 0 <= Source(pos, d, size) < |r| && r[Source(pos, d, size)] == h[|h| - d]
  {
  }

  /** The block copy of the fast path, seen from the ring before and after. */
  lemma FastCopyContent(r: seq<Byte>, r': seq<Byte>, size: nat, pos: nat, h: seq<Byte>, d: nat, n: nat)
    requires Front(r, pos, h) && Back(r, size, pos + GAP, pos, h)
    requires |r| == |r'| && pos + n < size && 1 <= d <= |h| && d + GAP <= size
    requires var src := Source(pos, d, size); 0 <= src && src + n < size && (src + n <= pos || pos + n <= src)
    requires Moved(r, r', pos, Source(pos, d, size), n, n + GAP)
    ensures Front(r', pos + n, CopyNaive(h, d, n)) && Back(r', size, pos + n + GAP, pos + n, CopyNaive(h, d, n))
  {
    hide CopyNaive;
    CopyWithoutOverlap(h, d, n);
    var h', src := CopyNaive(h, d, n), Source(pos, d, size);
    hide CopyNaive;
    forall j | pos <= j < pos + n
      ensures r'[j] == h'[|h'| - (pos + n) + j]
    {
      assert r[src + (j - pos)] == h[|h| - d + (j - pos)];
    }
  }

  /** n bytes went from src to dst; at most the first m bytes from dst on are disturbed. */
  ghost predicate Moved(r: seq<Byte>, r': seq<Byte>, dst: nat, src: nat, n: nat, m: nat) {
    && |r| == |r'| && src + n <= |r| && dst + n <= |r|
    && (forall j | dst <= j < dst + n :: r'[j] == r[src + (j - dst)])
    && (forall j | 0 <= j < dst || dst + m <= j < |r| :: 0 <= j < |r| ==> r'[j] == r[j])
  }

  /** A short copy is covered by the guess. */
  lemma MovedLess(r: seq<Byte>, r': seq<Byte>, dst: nat, src: nat, n: nat)
    requires if n > 16 then Moved(r, r', dst, src, n, n + 15) else Moved(r, r', dst, src, 16, 16)
    ensures Moved(r, r', dst, src, n, if n == 0 then 16 else n + 15) && Moved(r, r', dst, src, n, n + GAP)
    ensures |r| == |r'|
  {
  }

  /** The first guess only disturbs bytes that no allowed distance can reach. */
  lemma GuessIsHarmless(r: seq<Byte>, r': seq<Byte>, size: nat, pos: nat, h: seq<Byte>, src: nat)
    requires Front(r, pos, h) && Back(r, size, pos + GAP, pos, h) && Moved(r, r', pos, src, 16, 16)
    ensures Front(r', pos, h) && Back(r', size, pos + GAP, pos, h)
  {
  }

  lemma PrefixSlice(h: seq<Byte>, h': seq<Byte>, lo: nat, hi: nat)
    requires h <= h' && lo <= hi <= |h|
    ensures h'[lo..hi] == h[lo..hi]
  {
  }

  /** A dictionary word, and the two bytes uppercasing may disturb after it. */
  lemma WordContent(r: seq<Byte>, r': seq<Byte>, size: nat, pos: nat, h: seq<Byte>, w: seq<Byte>)
    requires Front(r, pos, h) && Back(r, size, pos + GAP, pos, h)
    requires pos + |w| <= |r| && Untouched(r, r', pos, pos + |w| + 2) && r'[pos..pos + |w|] == w
    ensures Front(r', pos + |w|, h + w) && Back(r', size, pos + |w| + GAP, pos + |w|, h + w)
  {
    forall j | pos <= j < pos + |w|
      ensures r'[j] == (h + w)[|h| + (j - pos)]
    {
      assert r'[j] == r'[pos..pos + |w|][j - pos];
    }
  }

  /** Moving the slack to the front makes the ring look as if the write had wrapped. */
  lemma SlackMoved(r: seq<Byte>, r': seq<Byte>, size: nat, pos: nat, h: seq<Byte>)
    requires InSlack(r, size, pos, h) && Back(r, size, 0, pos, h) && |r'| == |r|
    requires r'[..pos] == r[size..size + pos] && forall k | pos <= k < |r| :: r'[k] == r[k]
    ensures Front(r', pos, h) && Back(r', size, pos + GAP, pos, h)
  {
    forall j | 0 <= j < pos
      ensures r'[j] == h[|h| - pos + j]
    {
      assert r'[..pos][j] == r[size..size + pos][j] == r[size + j];
    }
  }

  lemma MaskOfRound(rounds: nat, size: nat, k: nat)
    requires k < size
    ensures (rounds * size + k) % size == k
  {
    DivModUnique(rounds * size + k, size, rounds, k);
  }

  /** The last bytes of a custom dictionary: what lies further back can never be addressed. */
  function Reachable(dict: seq<Byte>, full: nat): (d: seq<Byte>)
    requires full >= GAP
    ensures |d| == Min(|dict|, full - GAP)
  {
    dict[Max(0, |dict| - (full - GAP))..]
  }

  /** As seen from its end it is the dictionary, as far back as a distance may lead. */
  lemma ReachableFromEnd(dict: seq<Byte>, full: nat, d: nat)
    requires full >= GAP && 1 <= d <= |dict|
    ensures var r := Reachable(dict, full);
            (d <= |r| <==> d + GAP <= full) && (d <= |r| ==> r[|r| - d] == dict[|dict| - d])
  {
  }

  /** Nothing can follow: the meta-block is the last, or the peeked header says "last and empty". */
  predicate IsFinal(isLast: bool, nextHeader: int) {
    isLast || (nextHeader != -1 && nextHeader % 4 == 3)
  }

  lemma Pow2AtLeast(n: nat, m: nat)
    requires m <= n
    ensures Pow2(m) <= Pow2(n)
    ensures Pow2(10) == 1024
  {
    if m < n {
      Pow2AtLeast(n - 1, m);
    }
  }

  /** Halves the ring while half of it would still be enough. */
  method RingSize(windowBits: nat, needed: nat, shrink: bool) returns (n: nat)
    requires 10 <= windowBits
    ensures 32 <= n <= Pow2(windowBits) && exists k: nat :: n == Pow2(k)
    ensures n == Pow2(windowBits) || (shrink && needed <= n)
    ensures shrink ==> n < 2 * needed || n <= 32
  {
    ghost var k := windowBits;
    Pow2AtLeast(windowBits, 10);
    n := Pow2(windowBits);
    if shrink {
      while n >= needed * 2 && n > 32
        invariant n == Pow2(k) && 32 <= n <= Pow2(windowBits)
        invariant n < Pow2(windowBits) ==> needed <= n
        decreases n
      {
        Pow2AtLeast(Max(5, k), Min(5, k));
        assert Pow2(5) == 32;
        Pow2AtLeast(k - 1, 5);
        n, k := n / 2, k - 1;
      }
    }
  }

  class Window {
    const full: nat              // 1 << window_bits
    const dictLen: nat           // bytes of the custom dictionary that are in reach
    const ring: array<Byte>
    const size: nat              // ringbuffer_size; the mask is size - 1
    var pos: nat
    var roundtrips: nat
    var partialOut: nat          // total number of bytes handed to the caller
    var shouldWrap: bool

    ghost const dict: seq<Byte>    // those bytes
    ghost var base: nat            // where in the output this round began
    ghost var hist: seq<Byte>      // dictionary and everything produced
    ghost var delivered: seq<Byte> // everything handed to the caller

    ghost predicate Shape()
      reads this
    {
      && 32 <= size <= full && ring.Length == size + SLACK
      && dictLen == |dict| && dict <= hist
      && dictLen + GAP <= size && (size < full ==> base == 0)
      && pos <= size + MAX_WORD + 13 && |hist| == dictLen + base + pos
    }

    ghost predicate Accounted()
      reads this`base, this`partialOut, this`pos, this`hist, this`delivered
    {
      && base <= partialOut <= base + Min(pos, size)
      && dictLen + partialOut <= |hist| && delivered == hist[dictLen..dictLen + partialOut]
    }

    ghost predicate Rounds()
      reads this`base, this`roundtrips
    {
      base == Mul(roundtrips, size)
    }

    ghost predicate Content()
      reads this`pos, this`hist, this`shouldWrap, ring
    {
      if shouldWrap then
        pos <= MAX_WORD + 13 && InSlack(ring[..], size, pos, hist) && Back(ring[..], size, 0, pos, hist)
      else
        Front(ring[..], pos, hist) && Back(ring[..], size, pos + GAP, pos, hist)
    }

    ghost predicate Valid()
      reads this, ring
    {
      Shape() && Accounted() && Rounds() && Content()
    }

    /** The window can take another byte or command. */
    ghost predicate Ready()
      reads this, ring
    {
      Valid() && !shouldWrap && pos < size
    }

    /** No distance in reach leads into the gap, not even in a shrunken ring. */
    lemma GapIsKept(d: nat)
      requires Valid() && d <= |hist| && d + GAP <= full && (size < full ==> dictLen + pos + GAP <= size)
      ensures d + GAP <= size
    {
      hide Content, Accounted, Rounds;
    }

    lemma Bounds()
      requires Valid()
      ensures size <= full && pos <= size + MAX_WORD + 13 && |hist| >= pos
    {
    }

    /**
     * The ring is as large as the window, unless this meta-block is known to be the last with output:
     * then it may shrink, but still holds the dictionary, the whole meta-block and the gap.
     */
    constructor (windowBits: nat, customDict: seq<Byte>, isLast: bool, nextHeader: int, remaining: nat, canny: bool)
      requires 10 <= windowBits
      ensures Ready() && fresh(ring) && full == Pow2(windowBits)
      ensures hist == dict == Reachable(customDict, full) && dictLen == |hist|
      ensures delivered == [] && pos == partialOut == 0
      ensures size == full || (canny && IsFinal(isLast, nextHeader) && dictLen + remaining + GAP <= size)
      ensures exists k: nat :: size == Pow2(k)
    {
      hide Pow2;
      Pow2AtLeast(windowBits, 10);
      var reachable := Reachable(customDict, Pow2(windowBits));
      var n := RingSize(windowBits, |reachable| + remaining + GAP, IsFinal(isLast, nextHeader) && canny);
      full, size, dictLen, dict := Pow2(windowBits), n, |reachable|, reachable;
      pos, roundtrips, partialOut, shouldWrap, base := 0, 0, 0, false, 0;
      hist, delivered := reachable, [];
      ring := new Byte[n + SLACK];
      new;
      ring[size - 1], ring[size - 2] := 0, 0;
      PlaceDictionary(reachable);
    }

    /** The dictionary goes to the end of the ring, as if it had been written in an earlier round. */
    method PlaceDictionary(dict: seq<Byte>)
      requires |dict| < size <= ring.Length
      modifies ring
      ensures Back(ring[..], size, 0, 0, dict)
    {
      if |dict| != 0 {
        SourceIsMasked(0, |dict|, size);
        var offset := (0 - |dict|) % size;
        forall j | 0 <= j < |dict| {
          ring[offset + j] := dict[j];
        }
      }
    }

    method PutLiteral(b: Byte)
      requires Ready()
      modifies this`pos, this`hist, ring
      ensures Valid() && hist == old(hist) + [b] && pos == old(pos) + 1
    {
      hide Untouched;
      ring[pos] := b;
      pos := pos + 1;
      hist := hist + [b];
    }

    /** Sixteen bytes at once, through a local copy. */
    method Memmove16(dst: nat, src: nat)
      requires dst + 16 <= ring.Length && src + 16 <= ring.Length
      modifies ring
      ensures Moved(old(ring[..]), ring[..], dst, src, 16, 16)
    {
      var local := ring[src..src + 16];
      forall k | 0 <= k < 16 {
        ring[dst + k] := local[k];
      }
    }

    /** A block copy; the two ranges must not overlap. */
    method MemcpyWithinSlice(dst: nat, src: nat, n: nat)
      requires dst + n <= ring.Length && src + n <= ring.Length
      requires if dst > src then src + n <= dst else dst + n <= src
      modifies ring
      ensures Moved(old(ring[..]), ring[..], dst, src, n, n)
    {
      forall k | 0 <= k < n {
        ring[dst + k] := ring[src + k];
      }
    }

    /**
     * The fast path of a back-reference: a speculative 16-byte move, then, unless the copy wraps or
     * overlaps itself, the rest. With wrap the speculative bytes are all that changed.
     */
    method CopyBackReference(distance: nat, length: nat) returns (wrap: bool)
      requires Ready() && 1 <= distance <= |hist| && distance + GAP <= size
      modifies this`pos, this`hist, ring
      ensures Valid() && !shouldWrap && pos < size
      ensures wrap ==> pos == old(pos) && hist == old(hist)
      ensures !wrap ==> pos == old(pos) + length && hist == CopyNaive(old(hist), distance, length)
      ensures Moved(old(ring[..]), ring[..], old(pos), Source(old(pos), distance, size),
                    if wrap then 0 else length, if wrap || length == 0 then 16 else length + 15)
    {
      hide Front, Back, CopyNaive;
      SourceIsMasked(pos, distance, size);
      var srcStart := (pos - distance) % size;
      var dstEnd, srcEnd := pos + length, srcStart + length;
      ghost var before := ring[..];
      Memmove16(pos, srcStart);
      if (srcEnd > pos && dstEnd > srcStart) || dstEnd >= size || srcEnd >= size {
        GuessIsHarmless(before, ring[..], size, pos, hist, srcStart);
        return true;
      }
      FinishFastCopy(distance, length, srcStart, before);
      return false;
    }

    method FinishFastCopy(distance: nat, length: nat, srcStart: nat, ghost before: seq<Byte>)
      requires Shape() && Accounted() && Rounds() && !shouldWrap
      requires pos + length < size && srcStart == Source(pos, distance, size)
      requires 1 <= distance <= |hist| && distance + GAP <= size
      requires srcStart + length < size && (srcStart + length <= pos || pos + length <= srcStart)
      requires Front(before, pos, hist) && Back(before, size, pos + GAP, pos, hist)
      requires Moved(before, ring[..], pos, srcStart, 16, 16)
      modifies this`pos, this`hist, ring
      ensures Valid() && pos == old(pos) + length && hist == CopyNaive(old(hist), distance, length)
      ensures Moved(before, ring[..], old(pos), srcStart, length, if length == 0 then 16 else length + 15)
    {
      hide Front, Back, CopyNaive, Rounds, Moved, Source;
      if length > 16 {
        CopyTail(pos, srcStart, length, before);
      }
      MovedLess(before, ring[..], pos, srcStart, length);
      FastCopyContent(before, ring[..], size, pos, hist, distance, length);
      PrefixSlice(hist, CopyNaive(hist, distance, length), dictLen, dictLen + partialOut);
      pos, hist := pos + length, CopyNaive(hist, distance, length);
    }

    /** What the fast path moves beyond the first sixteen bytes. */
    method CopyTail(dst: nat, src: nat, length: nat, ghost before: seq<Byte>)
      requires 16 < length && dst + length < size && src + length < size && ring.Length == size + SLACK
      requires src + length <= dst || (dst + length <= src)
      requires Moved(before, ring[..], dst, src, 16, 16)
      modifies ring
      ensures Moved(before, ring[..], dst, src, length, length + 15)
    {
      if length > 32 {
        MemcpyWithinSlice(dst + 16, src + 16, length - 16);
      } else {
        Memmove16(dst + 16, src + 16);
      }
    }

    /** One turn of the wrap-copy loop: source and destination may overlap and wrap. */
    method CopyByte(distance: nat)
      requires Ready() && 1 <= distance <= |hist| && distance + GAP <= size
      modifies this`pos, this`hist, ring
      ensures Valid() && pos == old(pos) + 1 && hist == old(hist) + [old(hist)[|old(hist)| - distance]]
    {
      SourceIsMasked(pos, distance, size);
      DistanceIsGenuine(ring[..], size, pos, hist, distance);
      PutLiteral(ring[(pos - distance) % size]);
    }

    /** A static dictionary word; it may run past the end of the ring into the slack. */
    method PutDictionaryWord(tables: Tables, word: seq<Byte>, transform: nat)
      requires Ready() && tables.Valid() && transform < |tables.rows| && 0 < |word| <= MAX_WORD
      modifies this`pos, this`hist, ring
      ensures Valid() && hist == old(hist) + Transformed(tables, word, transform)
      ensures pos == old(pos) + |Transformed(tables, word, transform)|
    {
      hide Front, Back, Transformed, Rounds;
      ghost var before, w := ring[..], Transformed(tables, word, transform);
      var len := |word|;
      if transform == 0 {
        FirstTransform(tables, word);
        CopyWord(word);
      } else {
        len := TransformDictionaryWord(tables, ring, pos, word, transform);
      }
      WordContent(before, ring[..], size, pos, hist, w);
      Grow(w, len);
    }

    /** The bytes of w, already in the ring, now count. */
    method Grow(ghost w: seq<Byte>, n: nat)
      requires Shape() && Accounted() && Rounds() && !shouldWrap && pos + |w| <= size + MAX_WORD + 13 && n == |w|
      requires Front(ring[..], pos + |w|, hist + w) && Back(ring[..], size, pos + |w| + GAP, pos + |w|, hist + w)
      modifies this`pos, this`hist
      ensures Valid() && hist == old(hist) + w && pos == old(pos) + |w|
    {
      hide Front, Back;
      PrefixSlice(hist, hist + w, dictLen, dictLen + partialOut);
      pos, hist := pos + n, hist + w;
    }

    method CopyWord(word: seq<Byte>)
      requires pos + |word| <= ring.Length
      modifies ring
      ensures ring[..][pos..pos + |word|] == word && Untouched(old(ring[..]), ring[..], pos, pos + |word|)
    {
      forall k | 0 <= k < |word| {
        ring[pos + k] := word[k];
      }
    }

    /** Bytes of an uncompressed meta-block. */
    method PutBytes(bytes: seq<Byte>)
      requires Valid() && !shouldWrap && pos + |bytes| <= size
      modifies this`pos, this`hist, ring
      ensures Valid() && hist == old(hist) + bytes && pos == old(pos) + |bytes|
    {
      hide Front, Back;
      ghost var before := ring[..];
      CopyWord(bytes);
      WordContent(before, ring[..], size, pos, hist, bytes);
      Grow(bytes, |bytes|);
    }

    /** The number of bytes that could be handed out now. */
    function UnwrittenBytes(wrap: bool): (n: int)
      reads this
    {
      var p := if wrap && pos > size then size else pos;
      Mul(roundtrips, size) + p - partialOut
    }

    /**
     * Hands out as much as fits. When a full-size ring has been emptied past its end, a new round
     * begins; bytes that ran into the slack then wait to be moved to the front.
     */
    method WriteRingBuffer(available: nat, remaining: int, force: bool) returns (code: Code, chunk: seq<Byte>)
      requires Valid() && !shouldWrap
      modifies this`pos, this`partialOut, this`roundtrips, this`base, this`shouldWrap, this`delivered
      ensures Valid() && delivered == old(delivered) + chunk
      ensures (code == Failure <==> remaining < 0) && (remaining < 0 ==> chunk == [])
      ensures remaining >= 0 ==> |chunk| == Min(available, old(UnwrittenBytes(true)))
      ensures code == NeedsMoreOutput <==>
              remaining >= 0 && available < old(UnwrittenBytes(true)) && (size == full || force)
      ensures code == NeedsMoreOutput ==> dictLen + |delivered| < |hist|
      ensures code == Success || code == NeedsMoreOutput || code == Failure
      ensures if code == Success && available >= old(UnwrittenBytes(true)) && size == full && old(pos) >= size
              then pos == old(pos) - size && roundtrips == old(roundtrips) + 1 && shouldWrap == (pos != 0)
              else pos == old(pos) && roundtrips == old(roundtrips) && base == old(base) && !shouldWrap
    {
      hide Content, Rounds, Min;
      Unwritten();
      var toWrite := UnwrittenBytes(true);
      var n := Min(available, toWrite);
      if remaining < 0 {
        return Failure, [];
      }
      chunk := Slice(n);
      partialOut := partialOut + n;
      delivered := delivered + chunk;
      if n < toWrite {
        return if size == full || force then NeedsMoreOutput else Success, chunk;
      }
      if size == full && pos >= size {
        NextRound();
      }
      return Success, chunk;
    }

    lemma Unwritten()
      requires Valid()
      ensures UnwrittenBytes(true) == base + Min(pos, size) - partialOut
    {
    }

    /** The slice of the ring that starts at the masked output position. */
    method Slice(n: nat) returns (chunk: seq<Byte>)
      requires Valid() && !shouldWrap && n <= UnwrittenBytes(true)
      ensures |hist| >= dictLen + partialOut + n && chunk == hist[dictLen + partialOut..dictLen + partialOut + n]
    {
      var start := partialOut % size;
      ghost var k := partialOut - base;
      if k < size {
        MaskOfRound(roundtrips, size, k);
      } else {
        MaskOfRound(roundtrips + 1, size, 0);
      }
      chunk := ring[start..start + n];
    }

    method NextRound()
      requires Valid() && !shouldWrap && size == full && size <= pos && partialOut == base + size
      modifies this`pos, this`roundtrips, this`base, this`shouldWrap
      ensures Valid() && pos == old(pos) - size && roundtrips == old(roundtrips) + 1 && shouldWrap == (pos != 0)
    {
      hide Untouched;
      pos := pos - size;
      roundtrips, base := roundtrips + 1, base + size;
      shouldWrap := pos != 0;
    }

    /** Moves what ran into the slack to the front of the ring, once. */
    method WrapRingBuffer()
      requires Valid()
      modifies this`shouldWrap, ring
      ensures Valid() && !shouldWrap
    {
      hide Rounds, Accounted, Front, Back, InSlack;
      if shouldWrap {
        ghost var before := ring[..];
        forall k | 0 <= k < pos {
          ring[k] := ring[size + k];
        }
        shouldWrap := false;
        assert ring[..][..pos] == before[size..size + pos];
        SlackMoved(before, ring[..], size, pos, hist);
      }
    }
  }
}
