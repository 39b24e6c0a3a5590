/**
 * lib::Align<T,S,A>: an unsigned value of S bytes kept in a byte array,
 * least significant byte first, so that it can sit at any address.
 *
 * T is an unsigned type of S = sizeof(T) bytes; its values are the
 * naturals below 256^S, and its arithmetic wraps modulo 256^S.
 */
module Alignment {
  import opened Types

  function Pow256(n: nat): (r: nat)
    ensures r > 0
  {
    if n == 0 then 1 else 256 * Pow256(n - 1)
  }

  /** `v >> 8*i`: `v` shifted down by `i` bytes. */
  function Shift(v: nat, i: nat): nat
  {
    if i == 0 then v else Shift(v / 256, i - 1)
  }

  /** Byte `i` of `v`: the cell_t of `v >> 8*i`. */
  function ByteAt(v: nat, i: nat): byte
  {
    (Shift(v, i) % 256) as byte
  }

  /** The S cells assignment stores for `v`. */
  function Encode(v: nat, S: nat): (r: seq<byte>)
    ensures |r| == S
  {
    seq(S, i requires 0 <= i < S => ByteAt(v, i))
  }

  /** The value typecast rebuilds, taking the highest cell first. */
  function Decode(bs: seq<byte>): (r: nat)
    ensures r < Pow256(|bs|)
  {
    if bs == [] then 0 else bs[0] as nat + 256 * Decode(bs[1..])
  }

  /** T's ++: wraps from the largest value to 0. */
  function Succ(v: nat, S: nat): nat
  {
    Wrap(v + 1, Pow256(S))
  }

  /** T's --: wraps from 0 to the largest value. */
  function Pred(v: nat, S: nat): nat
  {
    Wrap(v - 1, Pow256(S))
  }

  /** ++ and -- undo each other on every value of T. */
  lemma PredSucc(v: nat, S: nat)
    requires v < Pow256(S)
    ensures Pred(Succ(v, S), S) == v && Succ(Pred(v, S), S) == v
  {
  }

  /** Dropping the lowest cell encodes the value shifted down a byte. */
  lemma EncodeTail(v: nat, S: nat)
    requires S > 0
    ensures Encode(v, S)[1..] == Encode(v / 256, S - 1)
    ensures Encode(v, S)[0] as nat == v % 256
  {
    assert Encode(v, S)[1..] == Encode(v / 256, S - 1);
  }

  /** Round trip: typecast after assignment gives the value back. */
  lemma {:induction false} DecodeEncode(v: nat, S: nat)
    requires v < Pow256(S)
    ensures Decode(Encode(v, S)) == v
  {
    if S > 0 {
      EncodeTail(v, S);
      DecodeEncode(v / 256, S - 1);
    }
  }

  /** Round trip: assignment after typecast gives the cells back. */
  lemma {:induction false} EncodeDecode(bs: seq<byte>)
    ensures Encode(Decode(bs), |bs|) == bs
  {
    if bs != [] {
      var v := Decode(bs);
      EncodeTail(v, |bs|);
      assert v / 256 == Decode(bs[1..]);
      EncodeDecode(bs[1..]);
      assert Encode(v, |bs|) == [Encode(v, |bs|)[0]] + Encode(v, |bs|)[1..];
    }
  }

  /** Cells of one length are equal exactly when they hold one value. */
  lemma DecodeInjective(a: seq<byte>, b: seq<byte>)
    requires |a| == |b|
    ensures a == b <==> Decode(a) == Decode(b)
  {
    EncodeDecode(a);
    EncodeDecode(b);
  }

  class Align {
    const S: nat
    /** val_: the S cells. */
    const val: array<byte>

    ghost predicate Valid()
      reads this
    {
      S > 0 && val.Length == S
    }

    /** operator T(): the value the cells hold. */
    function Value(): (r: nat)
      reads this, val
      ensures Valid() ==> r < Pow256(S)
    {
      Decode(val[..])
    }

    /** Align(): the cells are left as they are. */
    constructor Default(S: nat)
      requires S > 0
      ensures Valid() && this.S == S && fresh(val)
    {
      this.S := S;
      val := new byte[S];
    }

    /** Align(value). */
    constructor (S: nat, value: nat)
      requires S > 0 && value < Pow256(S)
      ensures Valid() && this.S == S && fresh(val)
      ensures val[..] == Encode(value, S) && Value() == value
    {
      this.S := S;
      val := new byte[S];
      new;
      Assignment(value);
    }

    /** Align(obj). */
    constructor Copy(obj: Align)
      requires obj.Valid()
      ensures Valid() && S == obj.S && fresh(val)
      ensures val[..] == obj.val[..] && Value() == obj.Value()
    {
      S := obj.S;
      val := new byte[obj.S];
      new;
      CopyFrom(obj);
    }

    /** assignment and operator=(value): store the cells of `value`. */
    method Assignment(value: nat)
      requires Valid()
      modifies val
      ensures val[..] == Encode(value, S)
      ensures value < Pow256(S) ==> Value() == value
    {
      for i := 0 to S
        invariant forall j :: 0 <= j < i ==> val[j] == ByteAt(value, j)
      {
        val[i] := ByteAt(value, i);
      }
      if value < Pow256(S) {
        DecodeEncode(value, S);
      }
    }

    /** copy and operator=(obj): take the cells of `obj`. */
    method CopyFrom(obj: Align)
      requires Valid() && obj.Valid() && obj.S == S
      modifies val
      ensures val[..] == old(obj.val[..])
    {
      ghost var src := obj.val[..];
      for i := 0 to S
        invariant forall j :: 0 <= j < i ==> val[j] == src[j]
        invariant forall j :: i <= j < S ==> obj.val[j] == src[j]
      {
        val[i] := obj.val[i];
      }
    }

    /** typecast: rebuild the value from the highest cell down. */
    method Typecast() returns (r: nat)
      requires Valid()
      ensures r == Value() && r < Pow256(S)
    {
      r := 0;
      var i := S;
      while i > 0
        invariant 0 <= i <= S
        invariant r == Decode(val[i..])
      {
        i := i - 1;
        assert val[i..][1..] == val[i + 1..];
        r := r * 256 + val[i] as nat;
      }
      assert val[0..] == val[..];
    }

    /** Prefix ++: store the successor of the value. */
    method PreIncrement()
      requires Valid()
      modifies val
      ensures Value() == Succ(old(Value()), S)
    {
      var v := Typecast();
      Assignment(Succ(v, S));
    }

    /** Prefix --: store the predecessor of the value. */
    method PreDecrement()
      requires Valid()
      modifies val
      ensures Value() == Pred(old(Value()), S)
    {
      var v := Typecast();
      Assignment(Pred(v, S));
    }

    /**
     * Postfix ++ as written: the value before the increment is what is
     * stored, so the cells stay as they were; the result is a copy of this.
     */
    method PostIncrement() returns (r: Align)
      requires Valid()
      modifies val
      ensures val[..] == old(val[..])
      ensures fresh(r) && fresh(r.val) && r.Valid() && r.val[..] == val[..]
    {
      var v := Typecast();
      EncodeDecode(val[..]);
      Assignment(v);
      r := new Align.Copy(this);
    }

    /** Postfix -- as written: the cells stay as they were. */
    method PostDecrement() returns (r: Align)
      requires Valid()
      modifies val
      ensures val[..] == old(val[..])
      ensures fresh(r) && fresh(r.val) && r.Valid() && r.val[..] == val[..]
    {
      var v := Typecast();
      EncodeDecode(val[..]);
      Assignment(v);
      r := new Align.Copy(this);
    }

    /** Postfix ++ storing the successor and returning the value before it. */
    method PostIncrementStoring() returns (r: Align)
      requires Valid()
      modifies val
      ensures Value() == Succ(old(Value()), S)
      ensures fresh(r) && fresh(r.val) && r.Valid() && r.Value() == old(Value())
    {
      r := new Align.Copy(this);
      var v := Typecast();
      Assignment(Succ(v, S));
    }

    /** Postfix -- storing the predecessor and returning the value before it. */
    method PostDecrementStoring() returns (r: Align)
      requires Valid()
      modifies val
      ensures Value() == Pred(old(Value()), S)
      ensures fresh(r) && fresh(r.val) && r.Valid() && r.Value() == old(Value())
    {
      r := new Align.Copy(this);
      var v := Typecast();
      Assignment(Pred(v, S));
    }

    /** equal(obj): all cells match, which is the values being equal. */
    method Equal(obj: Align) returns (res: bool)
      requires Valid() && obj.Valid() && obj.S == S
      ensures res <==> val[..] == obj.val[..]
      ensures res <==> Value() == obj.Value()
    {
      DecodeInjective(val[..], obj.val[..]);
      res := true;
      for i := 0 to S
        invariant forall j :: 0 <= j < i ==> val[j] == obj.val[j]
      {
        if val[i] != obj.val[i] {
          res := false;
          break;
        }
      }
    }

    /** equal(value): compare with the cells `value` would be stored as. */
    method EqualValue(value: nat) returns (res: bool)
      requires Valid() && value < Pow256(S)
      ensures res <==> val[..] == Encode(value, S)
      ensures res <==> Value() == value
    {
      var obj := new Align(S, value);
      res := Equal(obj);
    }
  }

  /** operator==. */
  method Equals(a: Align, b: Align) returns (res: bool)
    requires a.Valid() && b.Valid() && a.S == b.S
    ensures res <==> a.Value() == b.Value()
  {
    res := a.Equal(b);
  }

  /** operator!=: the negation of ==. */
  method NotEquals(a: Align, b: Align) returns (res: bool)
    requires a.Valid() && b.Valid() && a.S == b.S
    ensures res <==> a.Value() != b.Value()
  {
    var eq := a.Equal(b);
    res := !eq;
  }

  /** As written, `x++` on a value of 5 leaves it 5. */
  method PostIncrementKeepsValue() returns (before: nat, after: nat)
    ensures before == 5 && after == 5
  {
    var x := new Align(4, 5);
    before := x.Typecast();
    var old5 := x.PostIncrement();
    after := x.Typecast();
  }

  /** With the storing postfix, `x++` on 5 yields 5 and leaves 6. */
  method PostIncrementStoringAdvances() returns (yielded: nat, after: nat)
    ensures yielded == 5 && after == 6
  {
    var x := new Align(4, 5);
    var r := x.PostIncrementStoring();
    yielded := r.Typecast();
    after := x.Typecast();
  }
}
