/** The number printer of lib/printf/printf.c and the parser of core/string.c. */
module Numbers {
  import opened Arithmetic

  const BUFFER := 25
  const DIGITS := "0123456789ABCDEF"

  function Quotient(n: nat, base: nat): (q: nat)
    requires base >= 1
  {
    assert n == n / base * base + n % base;
    n / base
  }

  function Remainder(n: nat, base: nat): (r: nat)
    requires base >= 1
    ensures r < base
  {
    n % base
  }

  // ----- printing

  /** The last `limit` digits of `n`, without leading zeros but at least one. */
  function Digits(n: nat, base: nat, limit: nat): (s: string)
    requires 2 <= base <= 16 && limit >= 1
    ensures 1 <= |s| <= limit
    decreases limit
  {
    var q := Quotient(n, base);
    (if q > 0 && limit > 1 then Digits(q, base, limit - 1) else []) + [DIGITS[Remainder(n, base)]]
  }

  function Repeated(c: char, k: nat): (s: string)
    ensures |s| == k && forall i :: 0 <= i < k ==> s[i] == c
  {
    seq(k, _ => c)
  }

  /** How many characters `used` falls short of the minimum length. */
  function Missing(minLength: nat, used: nat): nat {
    if minLength > used then minLength - used else 0
  }

  function Printed(n: nat, base: nat, minLength: nat, padding: char): string
    requires 2 <= base <= 16
  {
    var d := Digits(n, base, BUFFER);
    Repeated(padding, Missing(minLength, |d|)) + d
  }

  /** The digits go into the buffer from the back. */
  method WriteDigits(buffer: array<char>, number: nat, base: nat) returns (pos: nat)
    requires buffer.Length == BUFFER && 2 <= base <= 16
    modifies buffer
    ensures pos < BUFFER && buffer[pos..] == Digits(number, base, BUFFER)
  {
    ghost var all := Digits(number, base, BUFFER);
    pos := BUFFER;
    var n := number;
    while pos == BUFFER || (n > 0 && pos > 0)
      invariant 0 <= pos <= BUFFER
      invariant pos == BUFFER ==> n == number
      invariant pos < BUFFER ==> Written(all, n, base, pos, buffer[pos..])
      decreases pos
    {
      ghost var was := buffer[pos..];
      WrittenNext(all, n, base, pos, was);
      pos := pos - 1;
      buffer[pos] := DIGITS[Remainder(n, base)];
      assert buffer[pos..] == [DIGITS[Remainder(n, base)]] + was;
      n := Quotient(n, base);
    }
  }

  /** The digits in the buffer, and those still to be written in front of `pos`. */
  ghost predicate Written(all: string, n: nat, base: nat, pos: nat, done: string)
    requires 2 <= base <= 16
  {
    all == HigherDigits(n, base, pos) + done
  }

  lemma WrittenNext(all: string, n: nat, base: nat, pos: nat, done: string)
    requires 2 <= base <= 16 && pos > 0
    requires (done == "" && all == Digits(n, base, pos)) || (n > 0 && Written(all, n, base, pos, done))
    ensures Written(all, Quotient(n, base), base, pos - 1, [DIGITS[Remainder(n, base)]] + done)
  {
    DigitsSplit(n, base, pos);
    var higher, last := HigherDigits(Quotient(n, base), base, pos - 1), [DIGITS[Remainder(n, base)]];
    assert (higher + last) + done == higher + (last + done);
  }

  /** The digits that are still to be written in front of position `pos`. */
  function HigherDigits(n: nat, base: nat, pos: nat): string
    requires 2 <= base <= 16
  {
    if n > 0 && pos > 0 then Digits(n, base, pos) else []
  }

  lemma DigitsSplit(n: nat, base: nat, limit: nat)
    requires 2 <= base <= 16 && limit >= 1
    ensures Digits(n, base, limit) == HigherDigits(Quotient(n, base), base, limit - 1) + [DIGITS[Remainder(n, base)]]
  {
  }

  /** The padding loop; it has overrun when it wants to write in front of the
      buffer. */
  method Pad(buffer: array<char>, from: nat, minLength: nat, c: char) returns (pos: nat, overrun: bool)
    requires buffer.Length == BUFFER && from < BUFFER
    modifies buffer
    ensures overrun <==> minLength > BUFFER
    ensures pos <= from
    ensures !overrun ==> buffer[pos..] == Repeated(c, Missing(minLength, BUFFER - from)) + old(buffer[from..])
  {
    pos, overrun := from, false;
    ghost var digits := buffer[from..];
    while BUFFER - pos < minLength
      invariant 0 <= pos <= from
      invariant from - pos <= Missing(minLength, BUFFER - from)
      invariant forall i :: pos <= i < from ==> buffer[i] == c
      invariant buffer[from..] == digits
      decreases pos
    {
      if pos == 0 {
        return 0, true;
      }
      pos := pos - 1;
      buffer[pos] := c;
    }
    PaddedIs(buffer[..], pos, from, c);
  }

  lemma PaddedIs(s: string, pos: nat, from: nat, c: char)
    requires pos <= from <= |s| && forall i :: pos <= i < from ==> s[i] == c
    ensures s[pos..] == Repeated(c, from - pos) + s[from..]
  {
  }

  /** print_number.  `overrun` says that the padding ran past the front of the
      buffer. */
  method PrintNumber(number: nat, base: nat, minLength: nat, useWhitespace: bool) returns (out: string, overrun: bool)
    ensures base < 2 || base > 16 ==> out == "" && !overrun
    ensures 2 <= base <= 16 ==> (overrun <==> minLength > BUFFER)
    ensures 2 <= base <= 16 && !overrun ==>
              out == Printed(number, base, minLength, if useWhitespace then ' ' else '0')
  {
    if base < 2 || base > 16 {
      return "", false;
    }
    var buffer := new char[BUFFER](_ => ' ');
    var pos := WriteDigits(buffer, number, base);
    pos, overrun := Pad(buffer, pos, minLength, if useWhitespace then ' ' else '0');
    out := if overrun then "" else buffer[pos..];
  }

  // ----- parsing

  /** The value of a digit, or -1. */
  function DigitValue(c: char): int {
    if '0' <= c <= '9' then c as int - '0' as int
    else if 'A' <= c <= 'F' then c as int - 'A' as int + 10
    else if 'a' <= c <= 'f' then c as int - 'a' as int + 10
    else -1
  }

  /** What the parser takes as a digit: it lets the base itself through. */
  predicate Accepted(c: char, base: nat) {
    0 <= DigitValue(c) <= base
  }

  function AcceptedPrefix(s: string, base: nat): (k: nat)
    ensures k <= |s|
    ensures forall i :: 0 <= i < k ==> Accepted(s[i], base)
    ensures k < |s| ==> !Accepted(s[k], base)
  {
    if s == "" || !Accepted(s[0], base) then 0 else 1 + AcceptedPrefix(s[1..], base)
  }

  /** A digit of the base. */
  predicate Proper(c: char, base: nat) {
    0 <= DigitValue(c) < base
  }

  function ProperPrefix(s: string, base: nat): (k: nat)
    ensures k <= |s|
    ensures forall i :: 0 <= i < k ==> Proper(s[i], base)
    ensures k < |s| ==> !Proper(s[k], base)
  {
    if s == "" || !Proper(s[0], base) then 0 else 1 + ProperPrefix(s[1..], base)
  }

  /** The parser stops where the digits of its base end, unless the character
      there has the value of the base; then it reads on. */
  lemma {:induction false} AcceptedWhenProper(s: string, base: nat)
    ensures ProperPrefix(s, base) <= AcceptedPrefix(s, base)
    ensures AcceptedPrefix(s, base) == ProperPrefix(s, base) <==>
            var k := ProperPrefix(s, base); k < |s| ==> DigitValue(s[k]) != base
  {
    if s != "" && Proper(s[0], base) {
      AcceptedWhenProper(s[1..], base);
    }
  }

  /** In base 10 the text "1A" is read whole, as twenty; in base 16 and above no
      character has the value of the base. */
  lemma BaseTaken()
    ensures ProperPrefix("1A", 10) == 1 && AcceptedPrefix("1A", 10) == 2 && Value("1A", 10) == 20
    ensures forall s: string, base :: base >= 16 ==> AcceptedPrefix(s, base) == ProperPrefix(s, base)
  {
    assert "1A"[1..] == "A" && "1A"[..1] == "1";
    assert Value("1", 10) == 1;
    forall s: string, base: nat | base >= 16
      ensures AcceptedPrefix(s, base) == ProperPrefix(s, base)
    {
      AcceptedWhenProper(s, base);
    }
  }

  /** The value of accepted digits, in wrapping 32-bit arithmetic. */
  function Value(s: string, base: nat): int {
    if s == "" then 0 else (Value(s[..|s| - 1], base) * base + DigitValue(s[|s| - 1])) % U32
  }

  /** The base and the number of characters that announce it. */
  function Detected(s: string, base: nat): (nat, nat) {
    if base != 0 then (base, 0)
    else if |s| >= 2 && s[0] == '0' && (s[1] == 'x' || s[1] == 'X') then (16, 2)
    else if |s| >= 2 && s[0] == '0' && (s[1] == 'b' || s[1] == 'B') then (2, 2)
    else (10, 0)
  }

  lemma WrapOnce(x: int, d: int)
    ensures (x % U32 + d) % U32 == (x + d) % U32
  {
  }

  lemma ValueOneMore(s: string, from: nat, to: nat, base: nat)
    requires from <= to < |s|
    ensures Value(s[from..to + 1], base) == (Value(s[from..to], base) * base + DigitValue(s[to])) % U32
  {
    var longer := s[from..to + 1];
    assert longer[..|longer| - 1] == s[from..to] && longer[|longer| - 1] == s[to];
  }

  /** Accepted characters up to one that is not are the accepted prefix. */
  lemma PrefixIs(s: string, from: nat, to: nat, base: nat)
    requires from <= to <= |s| && forall i :: from <= i < to ==> Accepted(s[i], base)
    requires to < |s| ==> !Accepted(s[to], base)
    ensures AcceptedPrefix(s[from..], base) == to - from
  {
    var rest := s[from..];
    assert forall i :: 0 <= i < |rest| ==> rest[i] == s[from + i];
  }

  /** Multiplying and adding, wrapping after each. */
  function Wrapped(n: int, base: nat, d: int): (r: int)
    ensures r == (n * base + d) % U32
  {
    WrapOnce(n * base, d);
    (n * base % U32 + d) % U32
  }

  /** The loop of strtol, in wrapping 32-bit arithmetic. */
  method ReadDigits(s: string, from: nat, base: nat) returns (n: int, end: nat)
    requires from <= |s|
    ensures end == from + AcceptedPrefix(s[from..], base) && n == Value(s[from..end], base)
  {
    n, end := 0, from;
    while end < |s| && Accepted(s[end], base)
      invariant from <= end <= |s|
      invariant n == Value(s[from..end], base)
      invariant forall i :: from <= i < end ==> Accepted(s[i], base)
    {
      ValueOneMore(s, from, end, base);
      n := Wrapped(n, base, DigitValue(s[end]));
      end := end + 1;
    }
    PrefixIs(s, from, end, base);
  }

  /** strtol on a string without NUL characters, whose end stands for the
      terminating NUL. */
  method Strtol(s: string, base: nat) returns (n: int, end: nat)
    ensures Parses(s, base, n, end)
  {
    var b, skip := base, 0;
    if base == 0 {
      if |s| >= 2 && s[0] == '0' && (s[1] == 'x' || s[1] == 'X') {
        b, skip := 16, 2;
      } else if |s| >= 2 && s[0] == '0' && (s[1] == 'b' || s[1] == 'B') {
        b, skip := 2, 2;
      } else {
        b := 10;
      }
    }
    n, end := ReadDigits(s, skip, b);
  }

  // ----- round trip

  lemma DigitBack(d: nat, base: nat)
    requires d < base <= 16
    ensures DigitValue(DIGITS[d]) == d && Accepted(DIGITS[d], base)
  {
  }

  /** The number that the printed digits stand for. */
  function Shown(n: nat, base: nat, limit: nat): nat
    requires base >= 2 && limit >= 1
    decreases limit
  {
    if Quotient(n, base) > 0 && limit > 1 then Shown(Quotient(n, base), base, limit - 1) * base + Remainder(n, base)
        else Remainder(n, base)
  }

  function Power(base: nat, k: nat): nat {
    if k == 0 then 1 else base * Power(base, k - 1)
  }

  lemma DivideBack(n: nat, base: nat) returns (q: nat, r: nat)
    requires base >= 1
    ensures q == Quotient(n, base) && r == Remainder(n, base) && n == q * base + r && r < base
  {
    assert n == n / base * base + n % base;
    q, r := Quotient(n, base), Remainder(n, base);
  }

  lemma CompareQuotients(n: nat, base: nat, q: nat, r: nat, p: nat)
    requires n == q * base + r && r < base
    ensures n < p * base <==> q < p
  {
    if q < p {
      MulMonotone(q + 1, p, base);
    } else {
      MulMonotone(p, q, base);
    }
  }

  lemma ScaledEqual(v: nat, q: nat, base: nat)
    requires v <= q && base >= 1
    ensures v * base <= q * base && (v * base == q * base <==> v == q)
  {
    MulMonotone(v, q, base);
    if v < q {
      MulMonotone(v + 1, q, base);
    }
  }

  lemma {:induction false} PowerPositive(base: nat, k: nat)
    requires base >= 1
    ensures Power(base, k) >= 1
  {
    if k > 0 {
      PowerPositive(base, k - 1);
      MulMonotone(1, base, Power(base, k - 1));
    }
  }

  lemma PowerStep(base: nat, k: nat)
    requires k >= 1
    ensures Power(base, k) == Power(base, k - 1) * base
  {
  }

  /** All digits are there exactly when the number has no more than fit. */
  lemma {:induction false} ShownExact(n: nat, base: nat, limit: nat)
    requires base >= 2 && limit >= 1
    ensures Shown(n, base, limit) <= n
    ensures Shown(n, base, limit) == n <==> n < Power(base, limit)
    decreases limit
  {
    var q, r := DivideBack(n, base);
    var p := Power(base, limit - 1);
    PowerStep(base, limit);
    PowerPositive(base, limit - 1);
    CompareQuotients(n, base, q, r, p);
    if q > 0 && limit > 1 {
      ShownExact(q, base, limit - 1);
      ScaledEqual(Shown(q, base, limit - 1), q, base);
    } else {
      MulMonotone(if q > 0 then 1 else 0, q, base);
    }
  }

  lemma {:induction false} ZerosValue(k: nat, base: nat)
    ensures Value(Repeated('0', k), base) == 0
  {
    if k > 0 {
      assert Repeated('0', k)[..k - 1] == Repeated('0', k - 1);
      ZerosValue(k - 1, base);
    }
  }

  lemma ValueSnoc(s: string, c: char, base: nat)
    ensures Value(s + [c], base) == (Value(s, base) * base + DigitValue(c)) % U32
  {
    assert (s + [c])[..|s|] == s;
  }

  lemma ValueNext(s: string, d: nat, base: nat, v: nat)
    requires d < base <= 16 && Value(s, base) == v && v * base + d < U32
    ensures Value(s + [DIGITS[d]], base) == v * base + d
  {
    DigitBack(d, base);
    ValueSnoc(s, DIGITS[d], base);
  }

  lemma HigherValue(zeros: string, higher: string, d: nat, base: nat, v: nat)
    requires d < base <= 16 && Value(zeros + higher, base) == v && v * base + d < U32
    ensures Value(zeros + (higher + [DIGITS[d]]), base) == v * base + d
  {
    assert zeros + (higher + [DIGITS[d]]) == (zeros + higher) + [DIGITS[d]];
    ValueNext(zeros + higher, d, base, v);
  }

  /** The last digit and the digits in front of it, as text and as numbers. */
  lemma LastDigit(n: nat, base: nat, limit: nat) returns (q: nat, r: nat, higher: string, v: nat)
    requires 2 <= base <= 16 && limit >= 1 && n < U32
    ensures r < base && Digits(n, base, limit) == higher + [DIGITS[r]]
    ensures Shown(n, base, limit) == v * base + r < U32
    ensures if q > 0 && limit > 1 then higher == Digits(q, base, limit - 1) && v == Shown(q, base, limit - 1) && q < U32
            else higher == "" && v == 0
  {
    q, r := DivideBack(n, base);
    ShownExact(n, base, limit);
    MulMonotone(1, base, q);
    if q > 0 && limit > 1 {
      higher, v := Digits(q, base, limit - 1), Shown(q, base, limit - 1);
    } else {
      higher, v := "", 0;
    }
  }

  /** Parsing padded digits gives what they show, with no wrap on the way. */
  lemma {:induction false} DigitsValue(zeros: string, n: nat, base: nat, limit: nat)
    requires 2 <= base <= 16 && limit >= 1 && n < U32 && Value(zeros, base) == 0
    ensures Value(zeros + Digits(n, base, limit), base) == Shown(n, base, limit)
    decreases limit
  {
    var q, r, higher, v := LastDigit(n, base, limit);
    if q > 0 && limit > 1 {
      DigitsValue(zeros, q, base, limit - 1);
    } else {
      assert zeros + higher == zeros;
    }
    HigherValue(zeros, higher, r, base, v);
  }

  lemma {:induction false} DigitsAccepted(n: nat, base: nat, limit: nat)
    requires 2 <= base <= 16 && limit >= 1
    ensures forall i :: 0 <= i < |Digits(n, base, limit)| ==> Accepted(Digits(n, base, limit)[i], base)
    decreases limit
  {
    var q, r := DivideBack(n, base);
    DigitBack(r, base);
    if q > 0 && limit > 1 {
      DigitsAccepted(q, base, limit - 1);
    }
  }

  lemma AllAccepted(s: string, base: nat)
    requires forall i :: 0 <= i < |s| ==> Accepted(s[i], base)
    ensures AcceptedPrefix(s, base) == |s|
  {
  }

  lemma PaddedParse(n: nat, base: nat, limit: nat, k: nat)
    requires 2 <= base <= 16 && limit >= 1 && n < U32
    ensures var s := Repeated('0', k) + Digits(n, base, limit);
            AcceptedPrefix(s, base) == |s| && (Value(s, base) == n <==> n < Power(base, limit))
  {
    DigitsAccepted(n, base, limit);
    ZerosValue(k, base);
    DigitsValue(Repeated('0', k), n, base, limit);
    ShownExact(n, base, limit);
    AllAccepted(Repeated('0', k) + Digits(n, base, limit), base);
  }

  /** Printing with zero padding and parsing in the same base: the parser takes
      the whole text, and gives the number back exactly when its digits fit the
      buffer. */
  lemma PrintParse(n: nat, base: nat, minLength: nat)
    requires 2 <= base <= 16 && n < U32 && minLength <= BUFFER
    ensures var s := Printed(n, base, minLength, '0');
            AcceptedPrefix(s, base) == |s| && (Value(s, base) == n <==> n < Power(base, BUFFER))
  {
    PaddedParse(n, base, BUFFER, Missing(minLength, |Digits(n, base, BUFFER)|));
  }

  lemma {:induction false} PowerGrows(a: nat, b: nat, k: nat)
    requires a <= b
    ensures Power(a, k) <= Power(b, k)
  {
    if k > 0 {
      PowerGrows(a, b, k - 1);
      MulMonotone(a, b, Power(a, k - 1));
      MulMonotone(Power(a, k - 1), Power(b, k - 1), b);
    }
  }

  lemma Power3()
    ensures Power(3, BUFFER) >= U32
  {
    assert Power(3, 5) == 243;
    assert Power(3, 10) == 59049;
    assert Power(3, 15) == 14348907;
    assert Power(3, 20) == 3486784401;
    assert Power(3, 25) == 847288609443;
  }

  lemma Power2()
    ensures Power(2, BUFFER) == 0x200_0000
  {
    assert Power(2, 5) == 32;
    assert Power(2, 10) == 1024;
    assert Power(2, 15) == 32768;
    assert Power(2, 20) == 0x10_0000;
  }

  /** In base 2 the round trip fails for every number from 2^25 on, which a
      uint32_t can hold, and for no smaller one. */
  lemma BinaryCutOff(n: nat, minLength: nat)
    requires n < U32 && minLength <= BUFFER
    ensures Value(Printed(n, 2, minLength, '0'), 2) == n <==> n < 0x200_0000
  {
    Power2();
    PrintParse(n, 2, minLength);
  }

  lemma BinaryFails() returns (n: nat)
    ensures n == 0x200_0000 && Value(Printed(n, 2, 0, '0'), 2) != n
  {
    n := 0x200_0000;
    BinaryCutOff(n, 0);
  }

  /** From base 3 up the round trip holds for every 32-bit number. */
  lemma PrintParseRoundTrip(n: nat, base: nat, minLength: nat)
    requires 3 <= base <= 16 && n < U32 && minLength <= BUFFER
    ensures var s := Printed(n, base, minLength, '0');
            AcceptedPrefix(s, base) == |s| && Value(s, base) == n
  {
    PrintParse(n, base, minLength);
    PowerGrows(3, base, BUFFER);
    Power3();
  }

  /** Both halves of the code together. */
  method PrintThenParse(n: nat, base: nat, minLength: nat) returns (m: int, whole: bool)
    requires 3 <= base <= 16 && n < U32 && minLength <= BUFFER
    ensures m == n && whole
  {
    var s, overrun := PrintNumber(n, base, minLength, false);
    var end;
    m, end := Strtol(s, base);
    PrintParseRoundTrip(n, base, minLength);
    assert s[0..] == s && s[0..|s|] == s;
    whole := end == |s|;
  }

  // ----- what the characters and the announced bases mean

  /** The sixteen digits in both cases, and no other character. */
  lemma DigitsRead(c: char)
    ensures forall d :: 0 <= d < 16 ==> DigitValue("0123456789ABCDEF"[d]) == d == DigitValue("0123456789abcdef"[d])
    ensures DigitValue(c) == -1 <==> c !in "0123456789ABCDEFabcdef"
  {
    var t := "0123456789ABCDEFabcdef";
    if '0' <= c <= '9' {
      assert t[c as int - '0' as int] == c;
    } else if 'A' <= c <= 'F' {
      assert t[c as int - 'A' as int + 10] == c;
    } else if 'a' <= c <= 'f' {
      assert t[c as int - 'a' as int + 16] == c;
    }
  }

  /** The number that digits stand for, with no bound. */
  function Positional(s: string, base: nat): int {
    if s == "" then 0 else Positional(s[..|s| - 1], base) * base + DigitValue(s[|s| - 1])
  }

  lemma WrapScaled(x: int, y: int, base: nat, d: int)
    requires x % U32 == y
    ensures (x * base + d) % U32 == (y * base + d) % U32
  {
    var q := x / U32;
    assert x == U32 * q + y;
    assert x * base + d == U32 * (q * base) + (y * base + d);
    WrapMultiple(q * base, y * base + d);
  }

  lemma WrapMultiple(k: int, x: int)
    ensures (U32 * k + x) % U32 == x % U32
  {
    var q := x / U32;
    assert (U32 * k + x) / U32 == k + q;
  }

  /** What the parser computes is that number modulo 2^32. */
  lemma {:induction false} ValueWraps(s: string, base: nat)
    ensures Value(s, base) == Positional(s, base) % U32
  {
    if s != "" {
      ValueWraps(s[..|s| - 1], base);
      WrapScaled(Positional(s[..|s| - 1], base), Value(s[..|s| - 1], base), base, DigitValue(s[|s| - 1]));
    }
  }

  /** With base 0 a prefix decides: "0x" or "0X" is base 16, "0b" or "0B" is base 2,
      each with the end two further on; anything else is base 10, and a base that
      is given is taken. */
  lemma PrefixDecides(t: string)
    ensures Detected("0x" + t, 0) == Detected("0X" + t, 0) == (16, 2) && ("0x" + t)[2..] == t == ("0X" + t)[2..]
    ensures Detected("0b" + t, 0) == Detected("0B" + t, 0) == (2, 2) && ("0b" + t)[2..] == t == ("0B" + t)[2..]
    ensures !Announced(t) ==> Detected(t, 0) == (10, 0)
    ensures forall base: nat :: base != 0 ==> Detected(t, base) == (base, 0)
  {
    assert ("0x" + t)[..2] == "0x" && ("0X" + t)[..2] == "0X" && ("0b" + t)[..2] == "0b" && ("0B" + t)[..2] == "0B";
  }

  predicate Announced(t: string) {
    |t| >= 2 && (t[..2] == "0x" || t[..2] == "0X" || t[..2] == "0b" || t[..2] == "0B")
  }

  /** strtol's result as number and end. */
  ghost predicate Parses(s: string, base: nat, n: int, end: nat) {
    var (b, skip) := Detected(s, base);
    skip <= |s| && end == skip + AcceptedPrefix(s[skip..], b) && n == Value(s[skip..end], b)
  }

  lemma SkippedParses(prefix: string, t: string, base: nat, n: int, end: nat)
    requires |prefix| == 2 && Detected(prefix + t, 0) == (base, 2) && base != 0
    ensures Parses(prefix + t, 0, n, end) <==> end >= 2 && Parses(t, base, n, end - 2)
  {
    var s := prefix + t;
    var k := AcceptedPrefix(t, base);
    assert s[2..] == t && t[0..] == t;
    assert s[2..2 + k] == t[0..k];
  }

  /** So in base 0 an announced text reads as the rest does in its base, two
      characters later, and any other text as in base 10. */
  lemma BaseZero(t: string, n: int, end: nat)
    ensures Parses("0x" + t, 0, n, end) <==> end >= 2 && Parses(t, 16, n, end - 2)
    ensures Parses("0X" + t, 0, n, end) <==> end >= 2 && Parses(t, 16, n, end - 2)
    ensures Parses("0b" + t, 0, n, end) <==> end >= 2 && Parses(t, 2, n, end - 2)
    ensures Parses("0B" + t, 0, n, end) <==> end >= 2 && Parses(t, 2, n, end - 2)
    ensures !Announced(t) ==> (Parses(t, 0, n, end) <==> Parses(t, 10, n, end))
  {
    PrefixDecides(t);
    SkippedParses("0x", t, 16, n, end);
    SkippedParses("0X", t, 16, n, end);
    SkippedParses("0b", t, 2, n, end);
    SkippedParses("0B", t, 2, n, end);
  }

  /** A given base means the longest prefix of digits the base lets through, read
      as a number modulo 2^32. */
  lemma BaseGiven(t: string, base: nat, n: int, end: nat)
    requires base != 0
    ensures Parses(t, base, n, end) <==>
            end == AcceptedPrefix(t, base) && n == Positional(t[..end], base) % U32
  {
    PrefixDecides(t);
    assert t[0..] == t;
    if end == AcceptedPrefix(t, base) {
      assert t[0..end] == t[..end];
      ValueWraps(t[..end], base);
    }
  }

  /** What is printed in base 16 comes back behind "0x" with the base left open. */
  lemma HexBack(n: nat, minLength: nat, m: int, end: nat)
    requires n < U32 && minLength <= BUFFER
    ensures var s := Printed(n, 16, minLength, '0');
            Parses("0x" + s, 0, m, end) <==> m == n && end == 2 + |s|
  {
    PrintParseRoundTrip(n, 16, minLength);
    WholeHex(Printed(n, 16, minLength, '0'), n, m, end);
  }

  lemma WholeHex(s: string, n: nat, m: int, end: nat)
    requires AcceptedPrefix(s, 16) == |s| && Value(s, 16) == n
    ensures Parses("0x" + s, 0, m, end) <==> m == n && end == 2 + |s|
  {
    PrefixDecides(s);
    SkippedParses("0x", s, 16, m, end);
    if end >= 2 {
      WholeParses(s, 16, n, m, end - 2);
    }
  }

  lemma WholeParses(t: string, base: nat, n: nat, m: int, end: nat)
    requires base != 0 && AcceptedPrefix(t, base) == |t| && Value(t, base) == n
    ensures Parses(t, base, m, end) <==> m == n && end == |t|
  {
    assert t[0..] == t && t[0..|t|] == t;
  }

  method PrintThenDetect(n: nat, minLength: nat) returns (text: string, m: int, end: nat)
    requires n < U32 && minLength <= BUFFER
    ensures text == "0x" + Printed(n, 16, minLength, '0') && m == n && end == |text|
  {
    var s, overrun := PrintNumber(n, 16, minLength, false);
    text := "0x" + s;
    m, end := Strtol(text, 0);
    HexBack(n, minLength, m, end);
  }

  // ----- what printing looks like

  /** The text has the minimum length if the digits are fewer, and only padding in
      front of them. */
  lemma PrintedShape(n: nat, base: nat, minLength: nat, padding: char)
    requires 2 <= base <= 16
    ensures var s, d := Printed(n, base, minLength, padding), Digits(n, base, BUFFER);
            && |s| == (if minLength > |d| then minLength else |d|)
            && s[|s| - |d|..] == d
            && forall i :: 0 <= i < |s| - |d| ==> s[i] == padding
  {
  }

  lemma OneDigitMore(n: nat, base: nat, q: nat, r: nat, k: nat)
    requires n == q * base + r && r < base && k >= 1 && Power(base, k - 1) <= q < Power(base, k)
    ensures Power(base, k) <= n < Power(base, k + 1)
  {
    PowerStep(base, k);
    PowerStep(base, k + 1);
    CompareQuotients(n, base, q, r, Power(base, k));
    CompareQuotients(n, base, q, r, Power(base, k - 1));
  }

  /** Digits are printed in upper case. */
  lemma {:induction false} DigitsUpper(n: nat, base: nat, limit: nat)
    requires 2 <= base <= 16 && limit >= 1
    ensures forall i :: 0 <= i < |Digits(n, base, limit)| ==> Digits(n, base, limit)[i] in "0123456789ABCDEF"
    decreases limit
  {
    var q, r := DivideBack(n, base);
    assert DIGITS[r] in DIGITS;
    if q > 0 && limit > 1 {
      DigitsUpper(q, base, limit - 1);
    }
  }

  /** No zero leads: the digits are as few as possible. */
  lemma {:induction false} DigitsLead(n: nat, base: nat, limit: nat)
    requires 2 <= base <= 16 && limit >= 1 && 0 < n < Power(base, limit)
    ensures Digits(n, base, limit)[0] != '0'
    ensures Power(base, |Digits(n, base, limit)| - 1) <= n < Power(base, |Digits(n, base, limit)|)
    decreases limit
  {
    var q, r := DivideBack(n, base);
    PowerStep(base, limit);
    CompareQuotients(n, base, q, r, Power(base, limit - 1));
    assert Power(base, 0) == 1;
    if q > 0 {
      DigitsLead(q, base, limit - 1);
      OneDigitMore(n, base, q, r, |Digits(q, base, limit - 1)|);
    } else {
      DigitBack(r, base);
      assert Power(base, 1) == base * Power(base, 0);
    }
  }
}
