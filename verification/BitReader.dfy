/**
 * The bit reader (src/bit_reader): an accumulator of at most 64 bits in front of the unread bytes. Bits are
 * taken least significant first; what matters is that no operation loses, repeats or reorders any.
 */
module BitReader {
  import opened Bytes

  const WORD_BITS := 64
  const FAST_INPUT := 28 // bytes that must be there for reading without checks

  type Bits = seq<bool>

  /** The number whose binary digits are b, least significant first. */
  function Value(b: Bits): (v: nat) {
    if b == [] then 0 else (if b[0] then 1 else 0) + 2 * Value(b[1..])
  }

  /** The n low bits of v. */
  function BitsOf(v: nat, n: nat): (b: Bits)
    ensures |b| == n
    decreases n
  {
    if n == 0 then [] else [v % 2 == 1] + BitsOf(v / 2, n - 1)
  }

  function OneByte(b: Byte): (r: Bits)
    ensures |r| == 8
  {
    BitsOf(b, 8)
  }

  function ByteBits(bytes: seq<Byte>): (b: Bits)
    ensures |b| == 8 * |bytes|
  {
    if bytes == [] then [] else OneByte(bytes[0]) + ByteBits(bytes[1..])
  }

  lemma {:induction false} ByteBitsConcat(a: seq<Byte>, b: seq<Byte>)
    ensures ByteBits(a + b) == ByteBits(a) + ByteBits(b)
  {
    hide OneByte;
    if a == [] {
      assert a + b == b;
      assert ByteBits(a) == [];
    } else {
      hide ByteBits;
      ByteBitsConcat(a[1..], b);
      assert (a + b)[0] == a[0] && (a + b)[1..] == a[1..] + b;
      FirstByte(a);
      FirstByte(a + b);
      BitsAssociate(OneByte(a[0]), ByteBits(a[1..]), ByteBits(b));
    }
  }

  lemma FirstByte(a: seq<Byte>)
    requires a != []
    ensures ByteBits(a) == OneByte(a[0]) + ByteBits(a[1..])
  {
    hide OneByte;
  }

  lemma BitsAssociate(a: Bits, b: Bits, c: Bits)
    ensures a + b + c == a + (b + c)
  {
  }

  lemma {:induction false} ValueBound(b: Bits)
    ensures Value(b) < Pow2(|b|)
  {
    if b != [] {
      ValueBound(b[1..]);
    }
  }

  /** What agrees in the first n bits agrees in the first k of them, and in those after that. */
  lemma SplitPrefix(b: Bits, c: Bits, k: nat, n: nat)
    requires k <= n <= |b| && b[..n] <= c
    ensures k <= |c| && b[..k] <= c && b[k..][..n - k] <= c[k..]
    ensures b[n..] == b[k..][n - k..] && c[n..] == c[k..][n - k..]
  {
    assert c[..n] == b[..n];
    assert b[..k] == b[..n][..k] == c[..n][..k] == c[..k];
    assert b[k..][..n - k] == b[..n][k..] == c[..n][k..] == c[k..][..n - k];
  }

  /** Reading back what was written. */
  lemma {:induction false} ValueOfBits(v: nat, n: nat)
    requires v < Pow2(n)
    ensures Value(BitsOf(v, n)) == v
  {
    if n > 0 {
      ValueOfBits(v / 2, n - 1);
      assert BitsOf(v, n)[1..] == BitsOf(v / 2, n - 1);
    }
  }

  lemma {:induction false} BitsOfValue(b: Bits)
    ensures BitsOf(Value(b), |b|) == b
  {
    if b != [] {
      BitsOfValue(b[1..]);
      assert Value(b) / 2 == Value(b[1..]);
    }
  }

  /** Masks and shifts of a number are slices of its bits. */
  lemma {:induction false} ValueSplit(b: Bits, k: nat)
    requires k <= |b|
    ensures DivMod(Value(b), Pow2(k)) == (Value(b[k..]), Value(b[..k]))
  {
    ValueConcat(b[..k], b[k..]);
    assert b == b[..k] + b[k..];
    ValueBound(b[..k]);
    DivModUnique(Value(b), Pow2(k), Value(b[k..]), Value(b[..k]));
  }

  lemma {:induction false} ValueConcat(a: Bits, b: Bits)
    ensures Value(a + b) == Value(a) + Value(b) * Pow2(|a|)
  {
    if a == [] {
      assert a + b == b;
    } else {
      ValueConcat(a[1..], b);
      assert (a + b)[1..] == a[1..] + b;
      assert Value(b) * (2 * Pow2(|a| - 1)) == 2 * (Value(b) * Pow2(|a| - 1));
    }
  }

  function Zeros(n: nat): (b: Bits)
    ensures |b| == n && Value(b) == 0
  {
    if n == 0 then [] else
      var z := Zeros(n - 1);
      assert ([false] + z)[1..] == z;
      [false] + z
  }

  /** Zeros at the high end do not count. */
  lemma {:induction false} ValueZeros(s: Bits, n: nat)
    ensures Value(s + Zeros(n)) == Value(s) && Value([]) == 0
  {
    if s == [] {
      assert s + Zeros(n) == Zeros(n);
    } else {
      ValueZeros(s[1..], n);
      assert (s + Zeros(n))[1..] == s[1..] + Zeros(n);
    }
  }

  datatype Memento = Memento(acc: Bits, nextIn: nat, availIn: nat)

  class Reader {
    var acc: Bits        // the valid bits of val_, from bit_pos_ up
    var nextIn: nat
    var availIn: nat

    ghost predicate Valid(input: seq<Byte>)
      reads this
    {
      |acc| <= WORD_BITS && nextIn + availIn <= |input|
    }

    /** Everything that can still be read. */
    ghost function Stream(input: seq<Byte>): Bits
      requires Valid(input)
      reads this
    {
      acc + ByteBits(input[nextIn..nextIn + availIn])
    }

    constructor ()
      ensures acc == [] && nextIn == availIn == 0
    {
      acc, nextIn, availIn := [], 0, 0;
    }

    function Save(): Memento
      reads this
    {
      Memento(acc, nextIn, availIn)
    }

    method Restore(m: Memento)
      modifies this
      ensures Save() == m
    {
      acc, nextIn, availIn := m.acc, m.nextIn, m.availIn;
    }

    /** Moves n bytes from the input to the accumulator. */
    method Load(n: nat, input: seq<Byte>)
      requires Valid(input) && n <= availIn && |acc| + 8 * n <= WORD_BITS
      modifies this
      ensures Valid(input) && Stream(input) == old(Stream(input))
      ensures |acc| == old(|acc|) + 8 * n && availIn == old(availIn) - n && old(acc) <= acc
    {
      hide OneByte, ByteBits;
      ghost var unread := input[nextIn..nextIn + availIn];
      assert unread == unread[..n] + unread[n..];
      ByteBitsConcat(unread[..n], unread[n..]);
      assert unread[..n] == input[nextIn..nextIn + n];
      acc := acc + ByteBits(input[nextIn..nextIn + n]);
      nextIn, availIn := nextIn + n, availIn - n;
      assert unread[n..] == input[nextIn..nextIn + availIn];
    }

    method PullByte(input: seq<Byte>) returns (ok: bool)
      requires Valid(input) && |acc| + 8 <= WORD_BITS
      modifies this
      ensures Valid(input) && Stream(input) == old(Stream(input)) && ok == (old(availIn) > 0)
      ensures if ok then |acc| == old(|acc|) + 8 && availIn == old(availIn) - 1 && old(acc) <= acc
              else acc == old(acc) && availIn == 0
    {
      if availIn == 0 {
        return false;
      }
      Load(1, input);
      return true;
    }

    /** Enough bytes for n bits at once; the caller knows that 8 bytes are there. */
    method FillBitWindow(n: nat, input: seq<Byte>)
      requires Valid(input) && 8 <= availIn && n <= 32
      modifies this
      ensures Valid(input) && Stream(input) == old(Stream(input)) && n <= |acc| && old(acc) <= acc
      ensures availIn >= old(availIn) - 7
    {
      if n <= 8 && |acc| <= 8 {
        Load(7, input);
      } else if n <= 16 && |acc| <= 16 {
        Load(6, input);
      } else if |acc| <= 32 {
        Load(4, input);
      }
    }

    /** Four bytes are enough for 32 bits. */
    method FillBitWindow16(input: seq<Byte>)
      requires Valid(input) && 4 <= availIn
      modifies this
      ensures Valid(input) && Stream(input) == old(Stream(input)) && 32 <= |acc| && old(acc) <= acc
    {
      if |acc| <= 32 {
        Load(4, input);
      }
    }

    method DropBits(n: nat, ghost input: seq<Byte>)
      requires Valid(input) && n <= |acc|
      modifies this`acc
      ensures Valid(input) && acc == old(acc[n..]) && Stream(input) == old(Stream(input))[n..]
    {
      hide ByteBits;
      ghost var rest := ByteBits(input[nextIn..nextIn + availIn]);
      assert (acc + rest)[n..] == acc[n..] + rest;
      acc := acc[n..];
    }

    /** A peek either sees the next n bits of the stream, or finds that there are not so many. */
    method SafeGetBits(n: nat, input: seq<Byte>) returns (ok: bool, val: nat)
      requires Valid(input) && n <= WORD_BITS - 7
      modifies this
      ensures Valid(input) && Stream(input) == old(Stream(input)) && ok == (n <= |Stream(input)|)
      ensures if ok then n <= |acc| && val == Value(Stream(input)[..n]) else availIn == 0
      ensures old(acc) <= acc
    {
      val := 0;
      while |acc| < n
        invariant Valid(input) && Stream(input) == old(Stream(input)) && old(acc) <= acc
        decreases availIn
      {
        ok := PullByte(input);
        if !ok {
          return;
        }
      }
      assert acc[..n] == Stream(input)[..n];
      return true, Value(acc[..n]);
    }

    /** Consumes exactly n bits, or none: then they are all in the accumulator. */
    method SafeReadBits(n: nat, input: seq<Byte>) returns (ok: bool, val: nat)
      requires Valid(input) && n <= WORD_BITS - 7
      modifies this
      ensures Valid(input) && ok == (n <= old(|Stream(input)|))
      ensures if ok then val == Value(old(Stream(input))[..n]) && Stream(input) == old(Stream(input))[n..]
              else Stream(input) == old(Stream(input)) && availIn == 0
    {
      ok, val := SafeGetBits(n, input);
      if ok {
        DropBits(n, input);
      }
    }

    /** The same without a check; the caller knows that there is enough input. */
    method ReadBits(n: nat, input: seq<Byte>) returns (val: nat)
      requires Valid(input) && 8 <= availIn && n <= 32
      modifies this
      ensures n <= |old(Stream(input))|
      ensures Valid(input) && val == Value(old(Stream(input))[..n]) && Stream(input) == old(Stream(input))[n..]
      ensures availIn >= old(availIn) - 7
    {
      FillBitWindow(n, input);
      assert acc[..n] == Stream(input)[..n];
      val := Value(acc[..n]);
      DropBits(n, input);
    }
  }
}
