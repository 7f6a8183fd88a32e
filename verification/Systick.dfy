/** arch/arm-m/systick.c: the hardware timer, as the arithmetic on its
    registers.  Unsigned 32-bit operations wrap. */
module Systicks {
  import opened Arithmetic

  const INT32_MAX := 0x7fff_ffff
  const MAX_LOAD := 0xff_ffff

  type Hertz = c: nat | 1000 <= c < U32 witness 1000

  /** The longest time that `Set` will arm, in milliseconds.  The product
      with 1000 does not fit 32 bits and wraps. */
  function Cap(clock: Hertz): int {
    (1000 * MAX_LOAD) % U32 / clock
  }

  function Clamped(clock: Hertz, time: int): int {
    if time > Cap(clock) then Cap(clock) else time
  }

  /** The register value computed for `time`, with the wrapping product. */
  function LoadFor(clock: Hertz, time: int): int {
    (clock / 1000 * Clamped(clock, time)) % U32
  }

  /** What the device reports for a register value, again wrapping. */
  function Reported(clock: Hertz, load: int): int {
    (load * 1000) % U32 / clock
  }

  lemma Divided(a: nat, b: nat) returns (q: nat)
    requires 0 < b
    ensures q == a / b && q * b <= a < (q + 1) * b
  {
    assert a == a / b * b + a % b;
    q := a / b;
  }

  lemma QuotientAtMost(a: nat, b: nat, most: nat)
    requires 0 < b && a <= most * b
    ensures 0 <= a / b <= most
  {
    var q := Divided(a, b);
    if q > most {
      MulMonotone(most + 1, q, b);
    }
  }

  lemma ExactQuotient(q: nat, b: nat)
    requires 0 < b
    ensures q * b / b == q
  {
    QuotientAtMost(q * b, b, q);
    var d := Divided(q * b, b);
    if d < q {
      MulMonotone(d + 1, q, b);
    }
  }

  lemma QuotientReaches(a: nat, b: nat, most: nat, product: nat)
    requires 0 < b && product == most * b && a <= product
    ensures 0 <= a / b <= most
    ensures a / b == most <==> a == product
  {
    QuotientAtMost(a, b, most);
    ExactQuotient(most, b);
    var q := Divided(a, b);
  }

  lemma LoadProduct(clock: nat, k: nat, c: nat, load: nat, span: nat)
    requires k * 1000 <= clock && load == k * c && span == c * clock
    ensures load * 1000 <= span
    ensures k * 1000 == clock ==> load * 1000 == span
    ensures k * 1000 < clock && c >= 1 ==> load * 1000 < span
  {
    MulMonotone(k * 1000, clock, c);
    if k * 1000 < clock {
      MulMonotone(k * 1000 + 1, clock, c);
    }
    assert load * 1000 == (k * 1000) * c;
  }

  lemma CapBound(clock: Hertz)
    ensures 0 <= Cap(clock) <= 3892314 && Cap(clock) * clock <= (1000 * MAX_LOAD) % U32
  {
    var q := Divided((1000 * MAX_LOAD) % U32, clock);
    QuotientAtMost((1000 * MAX_LOAD) % U32, clock, 3892314);
  }

  lemma ClampedSpan(clock: Hertz, time: nat)
    ensures 0 <= Clamped(clock, time) <= time
    ensures Clamped(clock, time) * clock <= (1000 * MAX_LOAD) % U32
  {
    CapBound(clock);
    MulMonotone(Clamped(clock, time), Cap(clock), clock);
  }

  /** A thousand times the register value stays below the wrapped product, so
      nothing past the cap computation wraps. */
  lemma ProductBound(clock: Hertz, time: nat)
    ensures 0 <= LoadFor(clock, time) <= MAX_LOAD
    ensures LoadFor(clock, time) * 1000 <= Clamped(clock, time) * clock < U32
    ensures clock % 1000 == 0 ==> LoadFor(clock, time) * 1000 == Clamped(clock, time) * clock
    ensures clock % 1000 != 0 && Clamped(clock, time) >= 1 ==>
              LoadFor(clock, time) * 1000 < Clamped(clock, time) * clock
  {
    ClampedSpan(clock, time);
    var k, c := clock / 1000, Clamped(clock, time);
    var span := c * clock;
    LoadProduct(clock, k, c, k * c, span);
    assert LoadFor(clock, time) == k * c;
  }

  lemma ReportedAtMost(clock: Hertz, load: nat, most: nat, span: nat)
    requires span == most * clock && load * 1000 <= span < U32
    ensures 0 <= Reported(clock, load) <= most
    ensures Reported(clock, load) == most <==> load * 1000 == span
  {
    QuotientReaches(load * 1000, clock, most, span);
    assert (load * 1000) % U32 == load * 1000;
  }

  /** The register arithmetic never leaves its widths and never reports more
      than was asked for. */
  lemma ArmingBounds(clock: Hertz, time: nat)
    ensures 0 <= LoadFor(clock, time) <= MAX_LOAD
    ensures LoadFor(clock, time) * 1000 < U32
    ensures 0 <= Reported(clock, LoadFor(clock, time)) <= Clamped(clock, time) <= time
    ensures 0 <= Cap(clock) <= INT32_MAX
  {
    CapBound(clock);
    ClampedSpan(clock, time);
    ProductBound(clock, time);
    ReportedAtMost(clock, LoadFor(clock, time), Clamped(clock, time), Clamped(clock, time) * clock);
  }

  /** The reported time is the armed one, up to the cap, exactly on clocks of
      whole kilohertz; on a clock with no cap left both are zero. */
  lemma ArmingExact(clock: Hertz, time: nat)
    requires time >= 1
    ensures Reported(clock, LoadFor(clock, time)) == Clamped(clock, time) <==> clock % 1000 == 0 || Cap(clock) == 0
  {
    ClampedSpan(clock, time);
    ProductBound(clock, time);
    CapBound(clock);
    ReportedAtMost(clock, LoadFor(clock, time), Clamped(clock, time), Clamped(clock, time) * clock);
  }

  // ----- the same in numbers

  /** What 1000 times the largest register value wraps to. */
  const SPAN := 3892313112

  /** The cap is the longest time whose product with the clock stays within the
      wrapped span. */
  lemma CapLargest(clock: Hertz)
    ensures 0 <= Cap(clock) && Cap(clock) * clock <= SPAN < (Cap(clock) + 1) * clock
    ensures Cap(clock) >= 1 <==> clock <= SPAN
  {
    assert (1000 * MAX_LOAD) % U32 == SPAN;
    var q := Divided(SPAN, clock);
    if q == 0 {
      assert (q + 1) * clock == clock;
    } else {
      MulMonotone(1, q, clock);
    }
  }

  /** A time short enough to be armed in one go. */
  predicate Fits(clock: Hertz, time: int) { time * clock <= SPAN }

  lemma FitsCap(clock: Hertz, time: nat)
    ensures Fits(clock, time) <==> time <= Cap(clock)
    ensures Fits(clock, time) ==> time <= 3892314
  {
    CapLargest(clock);
    CapBound(clock);
    if time <= Cap(clock) {
      MulMonotone(time, Cap(clock), clock);
    } else {
      MulMonotone(Cap(clock) + 1, time, clock);
    }
  }

  /** A clock on which a timeout can fire at all: whole kilohertz, and not above
      the wrapped span. */
  predicate Works(clock: Hertz) { clock % 1000 == 0 && clock <= SPAN }

  /** What the interrupt handler reports when `time` was armed. */
  function Elapsed(clock: Hertz, time: int): int { Reported(clock, LoadFor(clock, time)) }

  /** On a working clock the report is the armed time, or the longest time that
      can be armed when that is shorter; on any other clock it always stays short
      of the armed time. */
  lemma ElapsedReaches(clock: Hertz, time: nat)
    requires time >= 1
    ensures 0 <= Elapsed(clock, time) <= time
    ensures Works(clock) ==> Elapsed(clock, time) >= 1
    ensures Elapsed(clock, time) == time <==> Works(clock) && Fits(clock, time)
    ensures Works(clock) && !Fits(clock, time) ==>
              Fits(clock, Elapsed(clock, time)) && !Fits(clock, Elapsed(clock, time) + 1)
  {
    ArmingBounds(clock, time);
    ArmingExact(clock, time);
    CapLargest(clock);
    FitsCap(clock, time);
  }

  /** The 32768 Hz crystal: one millisecond armed is reported as none. */
  lemma WatchCrystal()
    ensures !Works(32768) && Elapsed(32768, 1) == 0
  {
    assert (1000 * MAX_LOAD) % U32 == SPAN;
    assert LoadFor(32768, 1) == 32;
  }

  /** Half a core clock of 48 MHz: up to 162 ms at a time, reported exactly. */
  lemma CoreReference(time: nat)
    requires time >= 1
    ensures Works(24000000) && Cap(24000000) == 162
    ensures Elapsed(24000000, time) == if time <= 162 then time else 162
  {
    assert (1000 * MAX_LOAD) % U32 == SPAN;
    ArmingExact(24000000, time);
  }

  /** The counter's control, reload and value registers. */
  class Systick {
    const clock: Hertz
    var enabled: bool
    var load: nat
    var val: nat
    ghost var armed: nat // the time last asked for

    ghost predicate Valid()
      reads this
    {
      load == LoadFor(clock, armed)
    }

    constructor (clock: Hertz)
      ensures Valid() && this.clock == clock && !enabled && armed == 0
    {
      this.clock, enabled, load, val, armed := clock, false, 0, 0, 0;
    }

    method Set(time: nat)
      requires 1 <= time <= INT32_MAX
      modifies this
      ensures Valid() && enabled && armed == time
      ensures val == 0 && load <= MAX_LOAD
    {
      ArmingBounds(clock, time);
      var most := (1000 * MAX_LOAD) % U32 / clock;
      var t := if time > most then most else time;
      load := (clock / 1000 * t) % U32;
      val := 0;
      enabled := true;
      armed := time;
    }

    method Disable()
      modifies this`enabled
      ensures !enabled
    {
      enabled := false;
    }

    /** What the interrupt handler reports as elapsed. */
    method Get() returns (time: nat)
      requires Valid()
      ensures time == Elapsed(clock, armed) <= armed
      ensures armed >= 1 ==> (time == Clamped(clock, armed) <==> clock % 1000 == 0 || Cap(clock) == 0)
    {
      ArmingBounds(clock, armed);
      if armed >= 1 {
        ArmingExact(clock, armed);
      }
      time := (load * 1000) % U32 / clock;
    }
  }
}
