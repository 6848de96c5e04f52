/**
 * Readers that may be put together: what each has read from the front of some bits, it reads from whatever starts with
 * the bits it took.
 */
module Parsers {
  import opened Bytes
  import opened BitReader
  import opened Distances

  /** So many bits are taken; or the bits make no sense; or they do not suffice. */
  datatype Got<T> = Got(n: nat, value: T) | Invalid | Lacking

  /** What has been read from b is also read from whatever starts with the same bits. */
  ghost predicate Agrees<T>(r: Got<T>, r': Got<T>, b: Bits, c: Bits) {
    && (r.Got? ==> r.n <= |b| && (b[..r.n] <= c ==> r' == r))
    && (r.Invalid? && b <= c ==> r'.Invalid?)
  }

  ghost predicate Steady<T(!new)>(p: Bits -> Got<T>) {
    forall b, c :: Agrees(p(b), p(c), b, c)
  }

  type Parser<!T(!new)> = p: Bits -> Got<T> | Steady(p) witness ((b: Bits) => Got<T>.Lacking)

  function Tail(b: Bits, n: nat): (r: Bits) {
    if n <= |b| then b[n..] else []
  }

  function After<T>(n: nat, r: Got<T>): Got<T> {
    if r.Got? then Got(n + r.n, r.value) else r
  }

  function Failed<A, T>(a: Got<A>): (r: Got<T>)
    requires !a.Got?
  {
    if a.Invalid? then Invalid else Lacking
  }

  /** One read after another. */
  lemma Chained<A, T>(a: Got<A>, a': Got<A>, r: Got<T>, r': Got<T>, x: Got<T>, x': Got<T>, b: Bits, c: Bits)
    requires a.Got? && Agrees(a, a', b, c) && Agrees(r, r', b[a.n..], Tail(c, a.n))
    requires x == After(a.n, r) && (a' == a && a.n <= |c| ==> x' == After(a.n, r'))
    ensures Agrees(x, x', b, c)
  {
    if r.Got? && b[..a.n + r.n] <= c {
      SplitPrefix(b, c, a.n, a.n + r.n);
    }
    if r.Invalid? && b <= c {
      SplitPrefix(b, c, a.n, |b|);
    }
  }

  function Then<A(!new), B(!new)>(p: Parser<A>, k: A --> Parser<B>, b: Bits): (r: Got<B>)
    requires forall d | p(d).Got? :: k.requires(p(d).value)
  {
    var a := p(b);
    if a.Got? then After(a.n, k(a.value)(Tail(b, a.n))) else Failed(a)
  }

  lemma ThenAgrees<A(!new), B(!new)>(p: Parser<A>, k: A --> Parser<B>, b: Bits, c: Bits)
    requires forall d | p(d).Got? :: k.requires(p(d).value)
    ensures Agrees(Then(p, k, b), Then(p, k, c), b, c)
  {
    assert Agrees(p(b), p(c), b, c);
    var a := p(b);
    if a.Got? {
      var q := k(a.value);
      assert Agrees(q(b[a.n..]), q(Tail(c, a.n)), b[a.n..], Tail(c, a.n));
      Chained(a, p(c), q(b[a.n..]), q(Tail(c, a.n)), Then(p, k, b), Then(p, k, c), b, c);
    }
  }

  function Bind<A(!new), B(!new)>(p: Parser<A>, k: A --> Parser<B>): (r: Parser<B>)
    requires forall d | p(d).Got? :: k.requires(p(d).value)
    ensures forall b :: r(b) == Then(p, k, b)
    ensures forall b | r(b).Got? ::
              p(b).Got? && k(p(b).value)(Tail(b, p(b).n)).Got? && r(b).value == k(p(b).value)(Tail(b, p(b).n)).value
  {
    BindIsSteady(p, k);
    b => Then(p, k, b)
  }

  lemma BindIsSteady<A(!new), B(!new)>(p: Parser<A>, k: A --> Parser<B>)
    requires forall d | p(d).Got? :: k.requires(p(d).value)
    ensures Steady((b: Bits) => Then(p, k, b))
  {
    forall b, c
      ensures Agrees(Then(p, k, b), Then(p, k, c), b, c)
    {
      ThenAgrees(p, k, b, c);
    }
  }

  function Return<T(!new)>(value: T): (r: Parser<T>)
    ensures forall b :: r(b) == Got(0, value)
  {
    b => Got(0, value)
  }

  function Refuse<T(!new)>(): (r: Parser<T>)
    ensures forall b :: r(b) == Invalid
  {
    b => Invalid
  }

  function PlainBitsAt(n: nat, b: Bits): (r: Got<nat>)
    ensures r.Got? ==> r.n == n <= |b| && r.value < Pow2(n)
  {
    if n <= |b| then
      ValueBound(b[..n]);
      Got(n, Value(b[..n]))
    else Lacking
  }

  lemma PlainBitsAgree(n: nat, b: Bits, c: Bits)
    ensures Agrees(PlainBitsAt(n, b), PlainBitsAt(n, c), b, c)
  {
    hide Value, Pow2;
    if n <= |b| && b[..n] <= c {
      assert c[..n] == b[..n];
    }
  }

  function PlainBits(n: nat): (r: Parser<nat>)
    ensures forall b | r(b).Got? :: r(b).value < Pow2(n)
  {
    PlainBitsSteady(n);
    b => PlainBitsAt(n, b)
  }

  lemma PlainBitsSteady(n: nat)
    ensures Steady((b: Bits) => PlainBitsAt(n, b))
  {
    forall b, c
      ensures Agrees(PlainBitsAt(n, b), PlainBitsAt(n, c), b, c)
    {
      PlainBitsAgree(n, b, c);
    }
  }

  // ---------- Small numbers ----------

  /** A number below 256, in 1 to 11 bits. */
  function VarLen8(): (r: Parser<nat>)
    ensures forall b | r(b).Got? :: r(b).value < 256
  {
    hide Pow2, PlainBits;
    Bind<nat, nat>(PlainBits(1), (v: nat) => VarLenRest(v))
  }

  function VarLenRest(v: nat): (r: Parser<nat>)
    ensures forall b | r(b).Got? :: r(b).value < 256
  {
    hide Pow2, PlainBits;
    EightPowers();
    if v == 0 then Return<nat>(0) else Bind<nat, nat>(PlainBits(3), (w: nat) requires w < 8 => TopBit(w))
  }

  function TopBit(w: nat): (r: Parser<nat>)
    requires w < 8
    ensures forall b | r(b).Got? :: r(b).value < 256
  {
    hide Pow2, PlainBits;
    Bind<nat, nat>(PlainBits(w), (x: nat) requires x < Pow2(w) => WithTopBit(w, x))
  }

  function WithTopBit(w: nat, x: nat): (r: Parser<nat>)
    requires w < 8 && x < Pow2(w)
    ensures forall b | r(b).Got? :: r(b).value < 256
  {
    hide Pow2;
    Pow2Below(w, 7);
    EightPowers();
    Return<nat>(Pow2(w) + x)
  }

  lemma Pow2Below(m: nat, n: nat)
    requires m <= n
    ensures Pow2(m) <= Pow2(n)
  {
    if m < n {
      Pow2Monotone(m, n);
    }
  }

  lemma EightPowers()
    ensures Pow2(1) == 2 && Pow2(2) == 4 && Pow2(3) == 8 && Pow2(4) == 16 && Pow2(6) == 64 && Pow2(7) == 128
  {
  }
}
