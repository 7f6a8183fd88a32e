/** Folding and iterating a step function, free of any arithmetic. */
module Folds {

  function Fold<S, T>(step: (S, T) -> S, s: S, xs: seq<T>): S
    decreases xs
  {
    if xs == [] then s else Fold(step, step(s, xs[0]), xs[1..])
  }

  function Iterate<S>(f: S -> S, s: S, n: nat): S
    decreases n
  {
    if n == 0 then s else Iterate(f, f(s), n - 1)
  }

  function Zip<T>(op: (T, T) -> T, a: seq<T>, b: seq<T>): (r: seq<T>)
    requires |a| == |b|
    ensures |r| == |a|
  {
    if a == [] then [] else [op(a[0], b[0])] + Zip(op, a[1..], b[1..])
  }

  lemma {:induction false} FoldConcat<S, T>(step: (S, T) -> S, s: S, a: seq<T>, b: seq<T>)
    ensures Fold(step, s, a + b) == Fold(step, Fold(step, s, a), b)
    decreases a
  {
    if a == [] {
      assert a + b == b;
    } else {
      assert (a + b)[1..] == a[1..] + b;
      FoldConcat(step, step(s, a[0]), a[1..], b);
    }
  }
}

/** uint8_t as its eight bits, the highest first, with the operations the CRC
    needs. */
module Bytes {

  datatype Byte = Byte(b7: bool, b6: bool, b5: bool, b4: bool, b3: bool, b2: bool, b1: bool, b0: bool)

  const ZERO := Byte(false, false, false, false, false, false, false, false)

  function Xor(x: Byte, y: Byte): Byte {
    Byte(x.b7 != y.b7, x.b6 != y.b6, x.b5 != y.b5, x.b4 != y.b4, x.b3 != y.b3, x.b2 != y.b2, x.b1 != y.b1, x.b0 != y.b0)
  }

  /** Shifted left by one. */
  function Left(x: Byte): Byte {
    Byte(x.b6, x.b5, x.b4, x.b3, x.b2, x.b1, x.b0, false)
  }

  predicate Parity(x: Byte) {
    x.b7 != (x.b6 != (x.b5 != (x.b4 != (x.b3 != (x.b2 != (x.b1 != x.b0))))))
  }

  lemma XorSwap(a: Byte, b: Byte, c: Byte, d: Byte)
    ensures Xor(Xor(a, b), Xor(c, d)) == Xor(Xor(a, c), Xor(b, d))
  {
  }

  lemma XorZero(a: Byte, b: Byte)
    ensures Xor(a, ZERO) == a && (Xor(a, b) == ZERO <==> a == b)
  {
  }
}

/** lib/crc/crc8_maxim.c: the CRC with polynomial x^8 + x^5 + x^4 + 1. */
module Crc8 {
  import opened Folds
  import opened Bytes

  /** 0x31. */
  const POLYNOMIAL := Byte(false, false, true, true, false, false, false, true)

  function Shift(crc: Byte): Byte {
    if crc.b7 then Xor(Left(crc), POLYNOMIAL) else Left(crc)
  }

  function ByteStep(crc: Byte, b: Byte): Byte {
    Iterate(Shift, Xor(crc, b), 8)
  }

  function Crc(data: seq<Byte>, crc: Byte): Byte {
    Fold(ByteStep, crc, data)
  }

  method Crc8Maxim(data: seq<Byte>) returns (crc: Byte)
    ensures crc == Crc(data, ZERO)
  {
    crc := ZERO;
    var n := 0;
    while n < |data|
      invariant 0 <= n <= |data|
      invariant Crc(data[n..], crc) == Crc(data, ZERO)
    {
      ghost var before := crc;
      assert data[n..][1..] == data[n + 1..];
      crc := Xor(crc, data[n]);
      var i := 8;
      while i > 0
        invariant 0 <= i <= 8
        invariant Iterate(Shift, crc, i) == ByteStep(before, data[n])
      {
        if crc.b7 {
          crc := Xor(Left(crc), POLYNOMIAL);
        } else {
          crc := Left(crc);
        }
        i := i - 1;
      }
      n := n + 1;
    }
  }

  // ----- linearity

  /** Shift bit by bit: the bit that falls out comes back in where the
      polynomial has one. */
  lemma ShiftBits(c: Byte)
    ensures Shift(c) == Byte(c.b6, c.b5, c.b4 != c.b7, c.b3 != c.b7, c.b2, c.b1, c.b0, c.b7)
  {
  }

  lemma ShiftLinear(a: Byte, b: Byte)
    ensures Shift(Xor(a, b)) == Xor(Shift(a), Shift(b))
  {
    ShiftBits(a);
    ShiftBits(b);
    ShiftBits(Xor(a, b));
    Swap(a.b4, b.b4, a.b7, b.b7);
    Swap(a.b3, b.b3, a.b7, b.b7);
  }

  lemma Swap(p: bool, q: bool, x: bool, y: bool)
    ensures ((p != q) != (x != y)) == ((p != x) != (q != y))
  {
  }

  lemma {:induction false} ShiftsLinear(a: Byte, b: Byte, n: nat)
    ensures Iterate(Shift, Xor(a, b), n) == Xor(Iterate(Shift, a, n), Iterate(Shift, b, n))
    decreases n
  {
    if n > 0 {
      ShiftLinear(a, b);
      ShiftsLinear(Shift(a), Shift(b), n - 1);
    }
  }

  lemma ByteStepLinear(p: Byte, q: Byte, x: Byte, y: Byte)
    ensures ByteStep(Xor(p, q), Xor(x, y)) == Xor(ByteStep(p, x), ByteStep(q, y))
  {
    XorSwap(p, q, x, y);
    ShiftsLinear(Xor(p, x), Xor(q, y), 8);
  }

  lemma {:induction false} CrcLinearFrom(a: seq<Byte>, b: seq<Byte>, c: Byte, d: Byte)
    requires |a| == |b|
    ensures Crc(Zip(Xor, a, b), Xor(c, d)) == Xor(Crc(a, c), Crc(b, d))
    decreases a
  {
    if a != [] {
      ByteStepLinear(c, d, a[0], b[0]);
      assert Zip(Xor, a, b)[1..] == Zip(Xor, a[1..], b[1..]);
      CrcLinearFrom(a[1..], b[1..], ByteStep(c, a[0]), ByteStep(d, b[0]));
    }
  }

  /** The CRC of a difference is the difference of the CRCs. */
  lemma CrcLinear(a: seq<Byte>, b: seq<Byte>)
    requires |a| == |b|
    ensures Crc(Zip(Xor, a, b), ZERO) == Xor(Crc(a, ZERO), Crc(b, ZERO))
  {
    CrcLinearFrom(a, b, ZERO, ZERO);
  }

  // ----- one bit at a time

  function WithTop(x: Byte, top: bool): Byte { x.(b7 := top) }

  function Feed(crc: Byte, bit: bool): Byte {
    Shift(WithTop(crc, crc.b7 != bit))
  }

  lemma TopMoved(f: Byte, y: Byte)
    ensures Xor(f, y) == Xor(WithTop(f, f.b7 != y.b7), WithTop(y, false))
  {
  }

  lemma ShiftLow(y: Byte)
    ensures Shift(WithTop(y, false)) == Left(y)
  {
  }

  function AllBits(data: seq<Byte>): (r: seq<bool>)
    ensures |r| == 8 * |data|
  {
    if data == [] then [] else TopBits(data[0], 8) + AllBits(data[1..])
  }

  lemma OneBit(f: Byte, y: Byte)
    ensures Shift(Xor(f, y)) == Xor(Feed(f, y.b7), Left(y))
  {
    TopMoved(f, y);
    ShiftLinear(WithTop(f, f.b7 != y.b7), WithTop(y, false));
    ShiftLow(y);
  }

  /** The `n` topmost bits of a byte, the highest first. */
  function TopBits(b: Byte, n: nat): (r: seq<bool>)
    ensures |r| == n
    decreases n
  {
    if n == 0 then [] else [b.b7] + TopBits(Left(b), n - 1)
  }

  lemma {:induction false} BitsInto(f: Byte, y: Byte, n: nat)
    ensures Iterate(Shift, Xor(f, y), n) == Xor(Fold(Feed, f, TopBits(y, n)), Iterate(Left, y, n))
    decreases n
  {
    if n > 0 {
      OneBit(f, y);
      BitsInto(Feed(f, y.b7), Left(y), n - 1);
      assert TopBits(y, n)[1..] == TopBits(Left(y), n - 1);
    }
  }

  lemma ShiftedOut(b: Byte)
    ensures Iterate(Left, b, 8) == ZERO
  {
    var f := false;
    var c, d, e := Left(Left(b)), Byte(b.b3, b.b2, b.b1, b.b0, f, f, f, f), Byte(b.b1, b.b0, f, f, f, f, f, f);
    TwoOut(b, 8);
    TwoOut(c, 6);
    TwoOut(d, 4);
    TwoOut(e, 2);
  }

  lemma TwoOut(b: Byte, n: nat)
    requires n >= 2
    ensures Iterate(Left, b, n) == Iterate(Left, Left(Left(b)), n - 2)
  {
  }

  /** A byte at a time or a bit at a time is the same. */
  lemma ByteIsBits(crc: Byte, b: Byte)
    ensures ByteStep(crc, b) == Fold(Feed, crc, TopBits(b, 8))
  {
    BitsInto(crc, b, 8);
    ShiftedOut(b);
    XorZero(Fold(Feed, crc, TopBits(b, 8)), ZERO);
  }

  lemma {:induction false} CrcIsBits(data: seq<Byte>, crc: Byte)
    ensures Crc(data, crc) == Fold(Feed, crc, AllBits(data))
    decreases data
  {
    if data != [] {
      ByteIsBits(crc, data[0]);
      CrcIsBits(data[1..], ByteStep(crc, data[0]));
      FoldConcat(Feed, crc, TopBits(data[0], 8), AllBits(data[1..]));
    }
  }

  // ----- what the CRC detects

  ghost predicate AllOff(bits: seq<bool>) {
    forall i :: 0 <= i < |bits| ==> !bits[i]
  }

  lemma FeedZero(c: Byte)
    ensures Feed(c, false) == ZERO <==> c == ZERO
  {
    ShiftBits(c);
  }

  /** Bits that are off neither set nor clear a register as a whole. */
  lemma {:induction false} FeedOff(c: Byte, bits: seq<bool>)
    requires AllOff(bits)
    ensures Fold(Feed, c, bits) == ZERO <==> c == ZERO
    decreases bits
  {
    if bits != [] {
      FeedZero(c);
      FeedOff(Feed(c, bits[0]), bits[1..]);
    }
  }

  /** Up to eight bits, placed at the top of a byte. */
  function AtTop(w: seq<bool>): (t: Byte)
    requires |w| <= 8
    ensures |w| <= 7 ==> !t.b0
    ensures |w| <= 6 ==> !t.b1
    ensures |w| <= 5 ==> !t.b2
    ensures |w| <= 4 ==> !t.b3
    ensures |w| <= 3 ==> !t.b4
    ensures |w| <= 2 ==> !t.b5
    ensures |w| <= 1 ==> !t.b6
    ensures |w| == 0 ==> !t.b7
  {
    if w == [] then ZERO
    else
      var t := AtTop(w[1..]);
      Byte(w[0], t.b7, t.b6, t.b5, t.b4, t.b3, t.b2, t.b1)
  }

  lemma {:induction false} AtTopZero(w: seq<bool>)
    requires |w| <= 8 && AtTop(w) == ZERO
    ensures AllOff(w)
  {
    if w != [] {
      assert AtTop(w[1..]) == ZERO;
      AtTopZero(w[1..]);
    }
  }

  /** Only the register that equals the next bits is cleared by them. */
  lemma {:induction false} ClearedBy(c: Byte, w: seq<bool>)
    requires |w| <= 8 && Fold(Feed, c, w) == ZERO
    ensures c == AtTop(w)
    decreases w
  {
    if w != [] {
      ClearedBy(Feed(c, w[0]), w[1..]);
      ShiftBits(WithTop(c, c.b7 != w[0]));
    }
  }

  /** An error burst: nothing flipped outside eight consecutive bits. */
  ghost predicate Burst(bits: seq<bool>, a: nat) {
    && a + 8 <= |bits| && AllOff(bits[..a]) && AllOff(bits[a + 8..]) && !AllOff(bits)
  }

  lemma AllOffJoined(bits: seq<bool>, a: nat)
    requires a + 8 <= |bits| && AllOff(bits[..a]) && AllOff(bits[a + 8..])
    ensures AllOff(bits[a..a + 8]) ==> AllOff(bits)
  {
    assert forall i :: 0 <= i < |bits| ==>
      bits[i] == if i < a then bits[..a][i] else if i < a + 8 then bits[a..a + 8][i - a] else bits[a + 8..][i - a - 8];
  }

  lemma BurstLeavesTrace(bits: seq<bool>, a: nat)
    requires Burst(bits, a)
    ensures Fold(Feed, ZERO, bits) != ZERO
  {
    var w := bits[a..a + 8];
    assert bits == bits[..a] + (w + bits[a + 8..]);
    FoldConcat(Feed, ZERO, bits[..a], w + bits[a + 8..]);
    FeedOff(ZERO, bits[..a]);
    FoldConcat(Feed, ZERO, w, bits[a + 8..]);
    FeedOff(Fold(Feed, ZERO, w), bits[a + 8..]);
    AllOffJoined(bits, a);
    if Fold(Feed, ZERO, bits) == ZERO {
      ClearedBy(ZERO, w);
      AtTopZero(w);
    }
  }

  predicate Odd(bits: seq<bool>) {
    if bits == [] then false else bits[0] != Odd(bits[1..])
  }

  lemma FeedParity(c: Byte, bit: bool)
    ensures Parity(Feed(c, bit)) == (Parity(c) != bit)
  {
    var g := WithTop(c, c.b7 != bit);
    ShiftBits(g);
    var low := c.b2 != (c.b1 != c.b0);
    assert Parity(c) == (c.b7 != (c.b6 != (c.b5 != (c.b4 != (c.b3 != low)))));
    if g.b7 {
      assert Parity(Feed(c, bit)) == (c.b6 != (c.b5 != (!c.b4 != (!c.b3 != (c.b2 != (c.b1 != !c.b0))))));
    } else {
      assert Parity(Feed(c, bit)) == (c.b6 != (c.b5 != (c.b4 != (c.b3 != low))));
    }
  }

  lemma {:induction false} FoldParity(c: Byte, bits: seq<bool>)
    ensures Parity(Fold(Feed, c, bits)) == (Parity(c) != Odd(bits))
    decreases bits
  {
    if bits != [] {
      FeedParity(c, bits[0]);
      FoldParity(Feed(c, bits[0]), bits[1..]);
    }
  }

  lemma OddLeavesTrace(bits: seq<bool>)
    requires Odd(bits)
    ensures Fold(Feed, ZERO, bits) != ZERO
  {
    FoldParity(ZERO, bits);
  }

  /** A message followed by its CRC, and only that, has the CRC zero. */
  lemma CrcOfStored(data: seq<Byte>, crc: Byte)
    ensures Crc(data + [crc], ZERO) == ZERO <==> crc == Crc(data, ZERO)
  {
    FoldConcat(ByteStep, ZERO, data, [crc]);
    var r := Crc(data, ZERO);
    assert Fold(ByteStep, r, [crc]) == ByteStep(r, crc);
    XorZero(r, crc);
    ShiftsZero(Xor(r, crc), 8);
  }

  lemma {:induction false} ShiftsZero(c: Byte, n: nat)
    ensures Iterate(Shift, c, n) == ZERO <==> c == ZERO
    decreases n
  {
    if n > 0 {
      ShiftBits(c);
      ShiftsZero(Shift(c), n - 1);
    }
  }

  /** A stored image that was valid is not valid any more after an error whose
      bits form a burst of at most eight or are odd in number. */
  lemma ErrorDetected(stored: seq<Byte>, error: seq<Byte>, a: nat)
    requires |error| == |stored| && Crc(stored, ZERO) == ZERO
    requires Burst(AllBits(error), a) || Odd(AllBits(error))
    ensures Crc(Zip(Xor, stored, error), ZERO) != ZERO
  {
    CrcLinear(stored, error);
    CrcIsBits(error, ZERO);
    if Odd(AllBits(error)) {
      OddLeavesTrace(AllBits(error));
    } else {
      BurstLeavesTrace(AllBits(error), a);
    }
    XorZero(Crc(error, ZERO), ZERO);
  }
}
