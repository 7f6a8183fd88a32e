/** The CRC as polynomial division: coefficients over two elements, the highest
    power first. */
module Polynomials {
  import opened Folds
  import opened Bytes
  import opened Crc8

  /** x^8 + x^5 + x^4 + 1. */
  predicate Generator(k: int) { k == 0 || k == 3 || k == 4 || k == 8 }

  function Zeros(n: nat): (r: seq<bool>)
    ensures |r| == n && forall i :: 0 <= i < n ==> !r[i]
  {
    seq(n, _ => false)
  }

  function Sum(a: seq<bool>, b: seq<bool>): (r: seq<bool>)
    requires |a| == |b|
    ensures |r| == |a| && forall i :: 0 <= i < |a| ==> r[i] == (a[i] != b[i])
  {
    seq(|a|, i requires 0 <= i < |a| => a[i] != b[i])
  }

  /** The generator or nothing. */
  function Scaled(c: bool): (r: seq<bool>)
    ensures |r| == 9 && forall k :: 0 <= k < 9 ==> r[k] == (c && Generator(k))
  {
    seq(9, k => c && Generator(k))
  }

  /** `q` times the generator. */
  function Times(q: seq<bool>): (r: seq<bool>)
    ensures |r| == |q| + 8
  {
    if q == [] then Zeros(8)
    else Sum(Times(q[..|q| - 1]) + [false], Zeros(|q| - 1) + Scaled(q[|q| - 1]))
  }

  lemma TimesSnoc(q: seq<bool>, c: bool, i: nat)
    requires i < |q| + 9
    ensures Times(q + [c])[i] == ((if i < |q| + 8 then Times(q)[i] else false) != (i >= |q| && c && Generator(i - |q|)))
  {
    assert (q + [c])[..|q|] == q;
  }

  /** The `k`-th coefficient of a register, the highest power first. */
  function Coefficient(b: Byte, k: int): bool {
    match k
    case 0 => b.b7
    case 1 => b.b6
    case 2 => b.b5
    case 3 => b.b4
    case 4 => b.b3
    case 5 => b.b2
    case 6 => b.b1
    case 7 => b.b0
    case _ => false
  }

  function Coefficients(b: Byte): (r: seq<bool>)
    ensures |r| == 8 && forall k :: 0 <= k < 8 ==> r[k] == Coefficient(b, k)
  {
    seq(8, k => Coefficient(b, k))
  }

  lemma FeedBits(r: Byte, bit: bool, c: bool)
    requires c == (r.b7 != bit)
    ensures Feed(r, bit) == Byte(r.b6, r.b5, r.b4 != c, r.b3 != c, r.b2, r.b1, r.b0, c)
  {
    ShiftBits(WithTop(r, c));
  }

  lemma DivisionOf(r: Byte, bit: bool, c: bool, next: Byte, k: nat)
    requires k < 9 && c == (r.b7 != bit)
    requires next == Byte(r.b6, r.b5, r.b4 != c, r.b3 != c, r.b2, r.b1, r.b0, c)
    ensures (Coefficient(r, k) != (c && Generator(k))) == if k == 0 then bit else Coefficient(next, k - 1)
  {
  }

  /** One step of the division in terms of coefficients. */
  lemma DivisionStep(r: Byte, bit: bool, c: bool, k: nat)
    requires k < 9 && c == (r.b7 != bit)
    ensures (Coefficient(r, k) != (c && Generator(k))) == if k == 0 then bit else Coefficient(Feed(r, bit), k - 1)
  {
    FeedBits(r, bit, c);
    DivisionOf(r, bit, c, Feed(r, bit), k);
  }

  /** `message` times x^8 plus `r`, which is `message` followed by the eight
      coefficients of `r`, is `q` times the generator; over two elements this
      says that `r` is left when the generator divides `message` times x^8. */
  ghost predicate Divides(message: seq<bool>, q: seq<bool>, r: Byte) {
    |q| == |message| && Times(q) == message + Coefficients(r)
  }

  lemma DividesAt(message: seq<bool>, q: seq<bool>, r: Byte, i: nat)
    requires Divides(message, q, r) && i < |q| + 8
    ensures Times(q)[i] == if i < |q| then message[i] else Coefficient(r, i - |q|)
  {
  }

  /** Before the step: nothing stands behind the last coefficient. */
  lemma LowestOff(message: seq<bool>, q: seq<bool>, r: Byte, i: nat)
    requires Divides(message, q, r) && |q| <= i < |q| + 9
    ensures (if i < |q| + 8 then Times(q)[i] else false) == Coefficient(r, i - |q|)
  {
  }

  lemma NextAt(message: seq<bool>, q: seq<bool>, r: Byte, bit: bool, c: bool, i: nat)
    requires Divides(message, q, r) && i < |q| + 9 && c == (r.b7 != bit)
    ensures Times(q + [c])[i] ==
            if i < |q| then message[i] else if i == |q| then bit else Coefficient(Feed(r, bit), i - |q| - 1)
  {
    TimesSnoc(q, c, i);
    if i < |q| {
      DividesAt(message, q, r, i);
    } else {
      LowestOff(message, q, r, i);
      DivisionStep(r, bit, c, i - |q|);
    }
  }

  lemma DividesNext(message: seq<bool>, q: seq<bool>, r: Byte, bit: bool)
    requires Divides(message, q, r)
    ensures Divides(message + [bit], q + [r.b7 != bit], Feed(r, bit))
  {
    var n, c := |q|, r.b7 != bit;
    var left, right := Times(q + [c]), (message + [bit]) + Coefficients(Feed(r, bit));
    forall i | 0 <= i < n + 9
      ensures left[i] == right[i]
    {
      NextAt(message, q, r, bit, c, i);
    }
  }

  /** The CRC register is the remainder of the message, shifted by eight, on
      division by the generator. */
  lemma {:induction false} CrcIsRemainder(message: seq<bool>) returns (q: seq<bool>)
    ensures Divides(message, q, Fold(Feed, ZERO, message))
    decreases message
  {
    if message == [] {
      q := [];
      assert Times(q) == message + Coefficients(ZERO);
    } else {
      var n := |message| - 1;
      var q0 := CrcIsRemainder(message[..n]);
      var r := Fold(Feed, ZERO, message[..n]);
      DividesNext(message[..n], q0, r, message[n]);
      q := q0 + [r.b7 != message[n]];
      assert message[..n] + [message[n]] == message;
      FoldConcat(Feed, ZERO, message[..n], [message[n]]);
      assert Fold(Feed, r, [message[n]]) == Feed(r, message[n]);
    }
  }

  // ----- the remainder is unique

  lemma SumSnoc(p: seq<bool>, q: seq<bool>)
    requires |p| == |q| > 0
    ensures var n := |p| - 1; Sum(p, q) == Sum(p[..n], q[..n]) + [p[n] != q[n]]
  {
  }

  lemma TimesLast(q: seq<bool>, i: nat)
    requires |q| > 0 && i < |q| + 8
    ensures var n := |q| - 1;
            Times(q)[i] == ((if i < n + 8 then Times(q[..n])[i] else false) != (i >= n && q[n] && Generator(i - n)))
  {
    var n := |q| - 1;
    var a, b := Times(q[..n]) + [false], Zeros(n) + Scaled(q[n]);
    assert Times(q) == Sum(a, b);
    assert a[i] == if i < n + 8 then Times(q[..n])[i] else false;
    assert b[i] == (i >= n && q[n] && Generator(i - n));
  }

  lemma {:induction false} TimesLinear(p: seq<bool>, q: seq<bool>, i: nat)
    requires |p| == |q| && i < |p| + 8
    ensures Times(Sum(p, q))[i] == (Times(p)[i] != Times(q)[i])
    decreases p
  {
    if p == [] {
      assert Sum(p, q) == [];
    } else {
      var n := |p| - 1;
      SumSnoc(p, q);
      TimesLast(p, i);
      TimesLast(q, i);
      TimesSnoc(Sum(p[..n], q[..n]), p[n] != q[n], i);
      if i < n + 8 {
        TimesLinear(p[..n], q[..n], i);
      }
    }
  }

  /** A multiple of the generator with nothing at or above x^8 is zero. */
  lemma {:induction false} SmallMultiple(q: seq<bool>)
    requires AllOff(Times(q)[..|q|])
    ensures AllOff(Times(q))
    decreases q
  {
    if q != [] {
      var n := |q| - 1;
      var q0 := q[..n];
      assert q == q0 + [q[n]];
      forall i | 0 <= i < n
        ensures !Times(q0)[..n][i]
      {
        TimesSnoc(q0, q[n], i);
        assert !Times(q)[..|q|][i];
      }
      SmallMultiple(q0);
      TimesSnoc(q0, q[n], n);
      assert !Times(q)[..|q|][n];
      forall i | 0 <= i < n + 9
        ensures !Times(q)[i]
      {
        TimesSnoc(q0, q[n], i);
      }
    }
  }

  lemma CoefficientsDetermine(r: Byte, s: Byte)
    requires forall k :: 0 <= k < 8 ==> Coefficient(r, k) == Coefficient(s, k)
    ensures r == s
  {
    assert Coefficient(r, 0) == Coefficient(s, 0) && Coefficient(r, 1) == Coefficient(s, 1);
    assert Coefficient(r, 2) == Coefficient(s, 2) && Coefficient(r, 3) == Coefficient(s, 3);
    assert Coefficient(r, 4) == Coefficient(s, 4) && Coefficient(r, 5) == Coefficient(s, 5);
    assert Coefficient(r, 6) == Coefficient(s, 6) && Coefficient(r, 7) == Coefficient(s, 7);
  }

  /** Two quotients of one message differ by a multiple that is zero. */
  lemma QuotientsAgree(message: seq<bool>, p: seq<bool>, r: Byte, q: seq<bool>, s: Byte)
    requires Divides(message, p, r) && Divides(message, q, s)
    ensures AllOff(Times(Sum(p, q)))
  {
    forall i | 0 <= i < |message|
      ensures !Times(Sum(p, q))[..|message|][i]
    {
      TimesLinear(p, q, i);
      DividesAt(message, p, r, i);
      DividesAt(message, q, s, i);
    }
    SmallMultiple(Sum(p, q));
  }

  lemma RemainderUnique(message: seq<bool>, p: seq<bool>, r: Byte, q: seq<bool>, s: Byte)
    requires Divides(message, p, r) && Divides(message, q, s)
    ensures r == s
  {
    QuotientsAgree(message, p, r, q, s);
    forall k | 0 <= k < 8
      ensures Coefficient(r, k) == Coefficient(s, k)
    {
      TimesLinear(p, q, |message| + k);
      DividesAt(message, p, r, |message| + k);
      DividesAt(message, q, s, |message| + k);
      assert !Times(Sum(p, q))[|message| + k];
    }
    CoefficientsDetermine(r, s);
  }

  /** For whole messages of bytes: the CRC is the one remainder there is. */
  lemma CrcIsTheRemainder(data: seq<Byte>, q: seq<bool>, r: Byte)
    requires Divides(AllBits(data), q, r)
    ensures r == Crc(data, ZERO)
  {
    var p := CrcIsRemainder(AllBits(data));
    CrcIsBits(data, ZERO);
    RemainderUnique(AllBits(data), p, Fold(Feed, ZERO, AllBits(data)), q, r);
  }
}
