/** The inverse move-to-front transform and its lazily reinitialised table (section 7.3 of RFC 7932). */
module MoveToFront {
  import opened Bytes

  const SIZE := 256

  function Identity(): (l: seq<Byte>)
    ensures |l| == SIZE && forall j | 0 <= j < SIZE :: l[j] == j
  {
    seq(SIZE, i requires 0 <= i < SIZE => i as Byte)
  }

  /** Element i goes to the front. */
  function ToFront(l: seq<Byte>, i: nat): (r: seq<Byte>)
    requires i < |l|
    ensures |r| == |l| && r[0] == l[i]
  {
    [l[i]] + l[..i] + l[i + 1..]
  }

  /** The textbook transform, starting from a list. */
  function Inverse(l: seq<Byte>, indices: seq<Byte>): (r: seq<Byte>)
    requires |l| == SIZE
    ensures |r| == |indices|
    decreases |indices|
  {
    if indices == [] then []
    else [l[indices[0]]] + Inverse(ToFront(l, indices[0]), indices[1..])
  }

  /** Where a value is in a list. */
  function Find(l: seq<Byte>, y: Byte): (i: nat)
    requires y in l
    ensures i < |l| && l[i] == y
  {
    if l[0] == y then 0 else 1 + Find(l[1..], y)
  }

  ghost predicate AllBytes(l: seq<Byte>) {
    |l| == SIZE && (forall y: Byte :: y in l) && forall i, j | 0 <= i < j < SIZE :: l[i] != l[j]
  }

  lemma ToFrontKeepsAll(l: seq<Byte>, i: nat)
    requires AllBytes(l) && i < SIZE
    ensures AllBytes(ToFront(l, i))
  {
    var r := ToFront(l, i);
    forall y: Byte
      ensures y in r
    {
      var k := Find(l, y);
      assert r[if k < i then k + 1 else if k == i then 0 else k] == y;
    }
  }

  lemma IdentityIsAll()
    ensures AllBytes(Identity())
  {
    forall y: Byte
      ensures y in Identity()
    {
      assert Identity()[y] == y;
    }
  }

  /** The forward transform: indices of the values in the moving list. */
  ghost function Forward(l: seq<Byte>, values: seq<Byte>): (r: seq<Byte>)
    requires AllBytes(l)
    ensures |r| == |values|
    decreases |values|
  {
    if values == [] then []
    else
      var i := Find(l, values[0]);
      ToFrontKeepsAll(l, i);
      [i] + Forward(ToFront(l, i), values[1..])
  }

  lemma {:induction false} InverseUndoesForward(l: seq<Byte>, values: seq<Byte>)
    requires AllBytes(l)
    ensures Inverse(l, Forward(l, values)) == values
    decreases |values|
  {
    if values != [] {
      var i := Find(l, values[0]);
      ToFrontKeepsAll(l, i);
      InverseUndoesForward(ToFront(l, i), values[1..]);
      var f := Forward(l, values);
      assert f[1..] == Forward(ToFront(l, i), values[1..]);
    }
  }

  lemma {:induction false} ForwardUndoesInverse(l: seq<Byte>, indices: seq<Byte>)
    requires AllBytes(l)
    ensures Forward(l, Inverse(l, indices)) == indices
    decreases |indices|
  {
    if indices != [] {
      var i := indices[0];
      ToFrontKeepsAll(l, i);
      ForwardUndoesInverse(ToFront(l, i), indices[1..]);
      var r := Inverse(l, indices);
      assert r[1..] == Inverse(ToFront(l, i), indices[1..]);
      assert Find(l, r[0]) == i;
    }
  }

  /** From the fresh list, the two transforms undo each other on every byte sequence. */
  lemma RoundTrip(values: seq<Byte>)
    ensures AllBytes(Identity())
    ensures Inverse(Identity(), Forward(Identity(), values)) == values
    ensures Forward(Identity(), Inverse(Identity(), values)) == values
  {
    IdentityIsAll();
    InverseUndoesForward(Identity(), values);
    ForwardUndoesInverse(Identity(), values);
  }

  /** The fields mtf and mtf_upper_bound: whatever lies above the bound is still the identity. */
  class Table {
    const mtf: array<Byte>
    var upperBound: Byte

    ghost predicate Valid()
      reads this, mtf
    {
      mtf.Length == SIZE && forall j | upperBound < j < SIZE :: mtf[j] == j
    }

    constructor ()
      ensures Valid() && fresh(mtf)
    {
      mtf := new Byte[SIZE];
      upperBound := 255;
    }

    /** Only what may have changed since the last call is set back. */
    method Reinitialize()
      requires Valid()
      modifies mtf
      ensures mtf.Length == SIZE && mtf[..] == Identity()
    {
      for i := 0 to upperBound + 1
        invariant forall j | 0 <= j < i || upperBound < j < SIZE :: mtf[j] == j
      {
        mtf[i] := i;
      }
    }

    /** Shifts what lies before position at by one, and puts value in front. */
    method Shift(at: Byte, value: Byte)
      requires mtf.Length == SIZE && mtf[at] == value
      modifies mtf
      ensures mtf[..] == ToFront(old(mtf[..]), at)
      ensures forall j | at < j < SIZE :: mtf[j] == old(mtf[j])
    {
      ghost var l := mtf[..];
      var index: int := at;
      if index <= 0 {
        mtf[0] := 0;
      } else {
        while true
          invariant 0 < index <= at
          invariant forall j | 0 <= j <= index || at < j < SIZE :: mtf[j] == l[j]
          invariant forall j | index < j <= at :: mtf[j] == l[j - 1]
          decreases index
        {
          index := index - 1;
          mtf[index + 1] := mtf[index];
          if index <= 0 {
            break;
          }
        }
      }
      mtf[0] := value;
      assert mtf[..] == [l[at]] + l[..at] + l[at + 1..];
    }

    /** Every call is the textbook transform from a fresh list, whatever calls came before. */
    method InverseMoveToFrontTransform(v: array<Byte>, vLen: nat)
      requires Valid() && vLen <= v.Length && v != mtf
      modifies this`upperBound, mtf, v
      ensures Valid() && v[..vLen] == Inverse(Identity(), old(v[..vLen]))
      ensures v[vLen..] == old(v[vLen..])
    {
      hide Inverse, ToFront, Identity;
      Reinitialize();
      ghost var indices := v[..vLen];
      ghost var all := Inverse(Identity(), indices);
      upperBound := 0;
      var i := 0;
      assert indices[0..] == indices;
      while i < vLen
        invariant 0 <= i <= vLen && Valid() && v[i..] == old(v[i..])
        invariant all == v[..i] + Inverse(mtf[..], indices[i..])
      {
        assert v[i] == v[i..][0] == indices[i];
        var index := v[i];
        var value := mtf[index];
        InverseStep(mtf[..], indices, i);
        upperBound := OrByte(upperBound, index);
        v[i] := value;
        Shift(index, value);
        assert v[i + 1..] == old(v[i..])[1..];
        i := i + 1;
      }
      InverseEnd(mtf[..]);
    }
  }

  lemma InverseStep(l: seq<Byte>, indices: seq<Byte>, i: nat)
    requires |l| == SIZE && i < |indices|
    ensures Inverse(l, indices[i..]) == [l[indices[i]]] + Inverse(ToFront(l, indices[i]), indices[i + 1..])
  {
    assert indices[i..][1..] == indices[i + 1..];
  }

  lemma InverseEnd(l: seq<Byte>)
    requires |l| == SIZE
    ensures Inverse(l, []) == []
  {
  }

  /** No value appears that was not in the list at or below the largest index. */
  lemma {:induction false} InverseBound(l: seq<Byte>, indices: seq<Byte>, n: nat)
    requires |l| == SIZE && 0 < n <= SIZE && (forall k | 0 <= k < |indices| :: indices[k] < n)
    requires forall j | 0 <= j < n :: l[j] < n
    ensures forall k | 0 <= k < |indices| :: Inverse(l, indices)[k] < n
    decreases |indices|
  {
    if indices != [] {
      var next := ToFront(l, indices[0]);
      InverseBound(next, indices[1..], n);
      forall k | 0 <= k < |indices|
        ensures Inverse(l, indices)[k] < n
      {
        if k > 0 {
          assert Inverse(l, indices)[k] == Inverse(next, indices[1..])[k - 1];
        }
      }
    }
  }
}
