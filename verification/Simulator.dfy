/** tools/simulator/cortex-m0p/mcu.c: the register file. Words are numbers below
    2^32; masks and shifts are written with division and remainder. */
module Registers {

  type Word = w: int | 0 <= w < 0x1_0000_0000

  const SP := 13
  const LR := 14
  const PC := 15
  const XPSR := 16
  const CONTROL := 17
  const MSP := 18
  const PSP := 19
  const APSR := 25
  const IPSR := 26
  const EPSR := 27

  /** The stored registers R0 to PSP. */
  type File = f: seq<Word> | |f| == 20 witness seq(20, i => 0)

  /** The names mcu_read_reg and mcu_write_reg accept. */
  predicate Named(reg: int) {
    0 <= reg < 20 || reg == APSR || reg == IPSR || reg == EPSR
  }

  /** Where a name is stored: the stack pointer is banked. */
  function Slot(f: File, reg: int): (k: int)
    requires Named(reg)
    ensures 0 <= k < 20 && k != SP
  {
    if reg == SP then (if f[SP] / 2 % 2 == 1 then PSP else MSP)
    else if reg >= APSR then XPSR
    else reg
  }

  /** The three views of the status word: the top four bits, bit 24, the low five. */
  function Part(reg: int, w: Word): Word {
    if reg == APSR then w - w % 0x1000_0000
    else if reg == EPSR then w / 0x100_0000 % 2 * 0x100_0000
    else w % 32
  }

  /** `w` with one of its views taken from `v`. */
  function WithPart(reg: int, w: Word, v: Word): Word {
    w - Part(reg, w) + Part(reg, v)
  }

  /** mcu_read_reg. */
  function Read(f: File, reg: int): Word
    requires Named(reg)
  {
    if reg == SP then f[Slot(f, SP)]
    else if reg >= APSR then Part(reg, f[XPSR])
    else f[reg]
  }

  /** mcu_write_reg. */
  function Write(f: File, reg: int, val: Word): File
    requires Named(reg)
  {
    var v: Word := if reg == PC then val - val % 2 else val;
    if reg == SP then f[Slot(f, SP) := v]
    else if reg >= APSR then f[XPSR := WithPart(reg, f[XPSR], v)]
    else f[reg := v]
  }

  // ----- what a write does to every name

  /** What a name can hold of a value. */
  function Masked(reg: int, val: Word): Word {
    if reg == PC then val - val % 2
    else if reg >= APSR then Part(reg, val)
    else val
  }

  /** Two names that share no bit. */
  predicate Separate(f: File, a: int, b: int)
    requires Named(a) && Named(b)
  {
    Slot(f, a) != Slot(f, b) || (a != b && a >= APSR && b >= APSR)
  }

  /** A status word from its fields: top four bits, three bits, bit 24,
      nineteen bits, low five bits. */
  function Status(top: int, high: int, t: int, mid: int, low: int): int {
    0x1000_0000 * top + 0x200_0000 * high + 0x100_0000 * t + 32 * mid + low
  }

  ghost predicate Fields(top: int, high: int, t: int, mid: int, low: int) {
    0 <= top < 16 && 0 <= high < 8 && 0 <= t < 2 && 0 <= mid < 0x8_0000 && 0 <= low < 32
  }

  lemma StatusParts(top: int, high: int, t: int, mid: int, low: int)
    requires Fields(top, high, t, mid, low)
    ensures 0 <= Status(top, high, t, mid, low) < 0x1_0000_0000
    ensures Part(APSR, Status(top, high, t, mid, low)) == 0x1000_0000 * top
    ensures Part(EPSR, Status(top, high, t, mid, low)) == 0x100_0000 * t
    ensures Part(IPSR, Status(top, high, t, mid, low)) == low
  {
    var w := Status(top, high, t, mid, low);
    assert w / 0x1000_0000 == top;
    assert w / 0x100_0000 == 16 * top + 2 * high + t;
    assert w / 32 == 0x80_0000 * top + 0x10_0000 * high + 0x8_0000 * t + mid;
  }

  lemma StatusOf(w: Word) returns (top: int, high: int, t: int, mid: int, low: int)
    ensures Fields(top, high, t, mid, low) && w == Status(top, high, t, mid, low)
  {
    low := w % 32;
    var rest := w / 32;
    mid := rest % 0x8_0000;
    rest := rest / 0x8_0000;
    t := rest % 2;
    rest := rest / 2;
    high, top := rest % 8, rest / 8;
  }

  predicate View(reg: int) { reg == APSR || reg == EPSR || reg == IPSR }

  /** Replacing one view of a status word leaves the other two alone. */
  lemma PartReplaced(w: Word, v: Word, reg: int, other: int)
    requires View(reg) && View(other)
    ensures Part(other, WithPart(reg, w, v)) == if reg == other then Part(reg, v) else Part(other, w)
  {
    var a, h, t, m, l := StatusOf(w);
    var a', h', t', m', l' := StatusOf(v);
    StatusParts(a, h, t, m, l);
    StatusParts(a', h', t', m', l');
    if reg == APSR {
      StatusParts(a', h, t, m, l);
    } else if reg == EPSR {
      StatusParts(a, h, t', m, l);
    } else {
      StatusParts(a, h, t, m, l');
    }
  }

  /** A write touches one stored register, never the selector of the bank. */
  lemma OneSlot(f: File, reg: int, val: Word, k: int)
    requires Named(reg) && 0 <= k < 20 && k != Slot(f, reg)
    ensures Write(f, reg, val)[k] == f[k]
  {
  }

  /** A write is read back under its own name and changes no separate one; the
      bank of the stack pointer never changes. */
  lemma ReadWritten(f: File, reg: int, val: Word, other: int)
    requires Named(reg) && Named(other)
    ensures Read(Write(f, reg, val), reg) == Masked(reg, val)
    ensures Separate(f, reg, other) ==> Read(Write(f, reg, val), other) == Read(f, other)
    ensures Slot(Write(f, reg, val), other) == Slot(f, other)
  {
    OneSlot(f, reg, val, SP);
    if reg >= APSR {
      PartReplaced(f[XPSR], val, reg, reg);
    }
    if Slot(f, reg) != Slot(f, other) {
      OneSlot(f, reg, val, Slot(f, other));
    } else if Separate(f, reg, other) {
      PartReplaced(f[XPSR], val, reg, other);
    }
  }

  // ----- in numbers

  /** The program counter loses its lowest bit; the views of the status word, which
      is register 16, are bits 31 to 28, bits 4 to 0 and bit 24. */
  lemma NamesRead(f: File, val: Word)
    ensures Write(f, 15, val)[15] == val - val % 2
    ensures Read(f, 25) == f[16] / 0x1000_0000 * 0x1000_0000
    ensures Read(f, 26) == f[16] % 0x20
    ensures Read(f, 27) == f[16] / 0x100_0000 % 2 * 0x100_0000
  {
  }

  datatype Store = Store(reg: int, val: Word)

  function AllWritten(f: File, ws: seq<Store>): File
    requires forall i :: 0 <= i < |ws| ==> Named(ws[i].reg)
    decreases ws
  {
    if ws == [] then f else AllWritten(Write(f, ws[0].reg, ws[0].val), ws[1..])
  }

  /** From reset, when every register is zero, the stack pointer is the main one,
      register 18, after any writes. */
  lemma {:induction false} StackIsMain(f: File, ws: seq<Store>)
    requires f[13] / 2 % 2 == 0 && forall i :: 0 <= i < |ws| ==> Named(ws[i].reg)
    ensures Read(AllWritten(f, ws), 13) == AllWritten(f, ws)[18]
    decreases ws
  {
    if ws != [] {
      OneSlot(f, ws[0].reg, ws[0].val, SP);
      StackIsMain(Write(f, ws[0].reg, ws[0].val), ws[1..]);
    }
  }
}

/** The condition flags: N, Z, C and V in bits 31 to 28 of the status word. */
module Flags {
  import opened Registers

  const N := 0x8000_0000
  const Z := 0x4000_0000
  const C := 0x2000_0000
  const V := 0x1000_0000

  type Bit = b: int | b == N || b == Z || b == C || b == V witness N

  predicate IsSet(w: Word, bit: Bit) { w / bit % 2 == 1 }

  /** `w |= bit` or `w &= ~bit`. */
  function Put(w: Word, bit: Bit, on: bool): Word {
    if on == IsSet(w, bit) then w else if on then w + bit else w - bit
  }

  function Nibble(n: int, z: int, c: int, v: int, low: int): int {
    N * n + Z * z + C * c + V * v + low
  }

  ghost predicate Bits(n: int, z: int, c: int, v: int, low: int) {
    0 <= n < 2 && 0 <= z < 2 && 0 <= c < 2 && 0 <= v < 2 && 0 <= low < V
  }

  lemma NibbleOf(w: Word) returns (n: int, z: int, c: int, v: int, low: int)
    ensures Bits(n, z, c, v, low) && w == Nibble(n, z, c, v, low)
  {
    low := w % V;
    var rest := w / V;
    v, rest := rest % 2, rest / 2;
    c, rest := rest % 2, rest / 2;
    z, n := rest % 2, rest / 2;
  }

  lemma NibbleTells(n: int, z: int, c: int, v: int, low: int)
    requires Bits(n, z, c, v, low)
    ensures 0 <= Nibble(n, z, c, v, low) < 0x1_0000_0000
    ensures IsSet(Nibble(n, z, c, v, low), N) == (n == 1)
    ensures IsSet(Nibble(n, z, c, v, low), Z) == (z == 1)
    ensures IsSet(Nibble(n, z, c, v, low), C) == (c == 1)
    ensures IsSet(Nibble(n, z, c, v, low), V) == (v == 1)
    ensures Nibble(n, z, c, v, low) % V == low
  {
    var w := Nibble(n, z, c, v, low);
    assert w / N == n;
    assert w / Z == 2 * n + z;
    assert w / C == 4 * n + 2 * z + c;
    assert w / V == 8 * n + 4 * z + 2 * c + v;
  }

  lemma PutNibble(n: int, z: int, c: int, v: int, low: int, bit: Bit, on: int)
    requires Bits(n, z, c, v, low) && 0 <= on < 2
    requires 0 <= Nibble(n, z, c, v, low) < 0x1_0000_0000
    ensures Put(Nibble(n, z, c, v, low), bit, on == 1) ==
            Nibble(if bit == N then on else n, if bit == Z then on else z,
                   if bit == C then on else c, if bit == V then on else v, low)
  {
    NibbleTells(n, z, c, v, low);
  }

  /** Putting one flag leaves the others and the rest of the word alone. */
  lemma PutTells(w: Word, bit: Bit, on: bool, other: Bit)
    ensures IsSet(Put(w, bit, on), other) == if other == bit then on else IsSet(w, other)
    ensures Put(w, bit, on) % V == w % V
  {
    var n, z, c, v, low := NibbleOf(w);
    NibbleTells(n, z, c, v, low);
    var b := if on then 1 else 0;
    PutNibble(n, z, c, v, low, bit, b);
    NibbleTells(if bit == N then b else n, if bit == Z then b else z,
                if bit == C then b else c, if bit == V then b else v, low);
  }

  /** The four flags of a register file. */
  datatype Psr = Psr(n: bool, z: bool, c: bool, v: bool) {
    function With(bit: Bit, on: bool): Psr {
      Psr(if bit == N then on else n, if bit == Z then on else z,
          if bit == C then on else c, if bit == V then on else v)
    }
  }

  function FlagsIn(w: Word): Psr {
    Psr(IsSet(w, N), IsSet(w, Z), IsSet(w, C), IsSet(w, V))
  }

  /** N, Z, C and V are bits 31, 30, 29 and 28. */
  lemma FlagBits(w: Word)
    ensures FlagsIn(w).n <==> w / 0x8000_0000 % 2 == 1
    ensures FlagsIn(w).z <==> w / 0x4000_0000 % 2 == 1
    ensures FlagsIn(w).c <==> w / 0x2000_0000 % 2 == 1
    ensures FlagsIn(w).v <==> w / 0x1000_0000 % 2 == 1
  {
  }

  function FlagsOf(f: File): Psr { FlagsIn(f[XPSR]) }

  /** The view APSR keeps the flags and nothing else. */
  lemma ViewKeepsFlags(w: Word, p: Word)
    ensures FlagsIn(Part(APSR, w)) == FlagsIn(w)
    ensures FlagsIn(WithPart(APSR, w, p)) == FlagsIn(p)
    ensures WithPart(APSR, w, p) % V == w % V
  {
    var n, z, c, v, low := NibbleOf(w);
    var n', z', c', v', low' := NibbleOf(p);
    NibbleTells(n, z, c, v, low);
    NibbleTells(n, z, c, v, 0);
    NibbleTells(n', z', c', v', low');
    NibbleTells(n', z', c', v', low);
    assert Part(APSR, w) == Nibble(n, z, c, v, 0);
    assert WithPart(APSR, w, p) == Nibble(n', z', c', v', low);
  }

  lemma PutFlags(w: Word, bit: Bit, on: bool)
    ensures FlagsIn(Put(w, bit, on)) == FlagsIn(w).With(bit, on)
  {
    PutTells(w, bit, on, N);
    PutTells(w, bit, on, Z);
    PutTells(w, bit, on, C);
    PutTells(w, bit, on, V);
  }

  // ----- section A2.2.1 of the ARMv6-M Architecture Reference Manual

  function SInt(w: Word): int { if w < 0x8000_0000 then w else w - 0x1_0000_0000 }

  function Truncated(x: int): Word { x % 0x1_0000_0000 }

  function Plus(w: int, d: int): Word { Truncated(w + d) }

  function Not(w: Word): Word { 0xFFFF_FFFF - w }

  /** The flags AddWithCarry gives: carry and overflow say that the result is
      not the unsigned or signed sum. */
  function AddWithCarry(a: Word, b: Word, carry: int): Psr {
    var r := Truncated(a + b + carry);
    Psr(SInt(r) < 0, r == 0, r != a + b + carry, SInt(r) != SInt(a) + SInt(b) + carry)
  }

  // ----- the simulator's arithmetic

  function Low31(w: Word): int { w % 0x8000_0000 }
  function Bit31(w: Word): int { w / 0x8000_0000 }

  /** mcu_update_cflag: the carry into and out of the top bit. */
  function CarryBit(a: Word, b: Word, carry: int): bool {
    var into := Truncated(Low31(a) + Low31(b) + carry);
    var out := Truncated(Bit31(into) + Bit31(a) + Bit31(b));
    out / 2 % 2 == 1
  }

  /** mcu_update_vflag: the two carries differ. */
  function OverflowBit(a: Word, b: Word, carry: int): bool {
    var into := Bit31(Truncated(Low31(a) + Low31(b) + carry));
    var out := (into % 2 + Bit31(a) % 2 + Bit31(b) % 2) / 2;
    into % 2 != out % 2
  }

  lemma Split31(w: Word)
    ensures Low31(w) == if w < 0x8000_0000 then w else w - 0x8000_0000
    ensures Bit31(w) == if w < 0x8000_0000 then 0 else 1
  {
  }

  lemma TruncatedSum(x: int)
    requires 0 <= x < 0x2_0000_0000
    ensures Truncated(x) == if x < 0x1_0000_0000 then x else x - 0x1_0000_0000
  {
  }

  /** Both carries of one addition. */
  lemma Carries(a: Word, b: Word, carry: int) returns (into: int, out: int)
    requires carry == 0 || carry == 1
    ensures into == (if Low31(a) + Low31(b) + carry < 0x8000_0000 then 0 else 1)
    ensures out == if a + b + carry < 0x1_0000_0000 then 0 else 1
    ensures out == (into + Bit31(a) + Bit31(b)) / 2
    ensures CarryBit(a, b, carry) == (out == 1)
    ensures OverflowBit(a, b, carry) == (into != out)
  {
    Split31(a);
    Split31(b);
    var s := Low31(a) + Low31(b) + carry;
    TruncatedSum(s);
    Split31(s);
    into := Bit31(s);
    out := (into + Bit31(a) + Bit31(b)) / 2;
    TruncatedSum(into + Bit31(a) + Bit31(b));
  }

  /** The simulator's C and V are those of AddWithCarry, for all operands. */
  lemma FlagsExact(a: Word, b: Word, carry: int)
    requires carry == 0 || carry == 1
    ensures CarryBit(a, b, carry) == AddWithCarry(a, b, carry).c
    ensures OverflowBit(a, b, carry) == AddWithCarry(a, b, carry).v
  {
    var into, out := Carries(a, b, carry);
    Split31(a);
    Split31(b);
    TruncatedSum(a + b + carry);
  }

  /** The difference has AddWithCarry's result, so N and Z agree too. */
  lemma DifferenceExact(a: Word, b: Word)
    ensures Truncated(a - b) == Truncated(a + Not(b) + 1)
  {
  }
}

/** CMP and the conditional branch. */
module Branches {
  import opened Registers
  import opened Flags

  type Halfword = h: int | 0 <= h < 0x1_0000

  /** The tests of the simulator's branch, as it writes them. */
  predicate Taken(op: int, f: Psr) {
    match op
    case 0 => f.z
    case 1 => !f.z
    case 2 => f.c
    case 3 => !f.c
    case 4 => f.n
    case 5 => !f.n
    case 6 => f.v
    case 7 => !f.v
    case 8 => f.c && !f.z
    case 9 => f.z || !f.c
    case 10 => (f.n && f.v) || (!f.n && !f.v)
    case 11 => (!f.n && f.v) || (!f.v && f.n)
    case 12 => !f.z && ((f.n && f.v) || (!f.n && !f.v))
    case 13 => (f.n && f.v) || (!f.n && !f.v) || f.z
    case _ => false
  }

  /** Section A6.3 of the ARMv6-M Architecture Reference Manual: three bits
      choose a test, the lowest bit inverts it. */
  predicate ConditionPassed(cond: int, f: Psr) {
    var test := match cond / 2
      case 0 => f.z
      case 1 => f.c
      case 2 => f.n
      case 3 => f.v
      case 4 => f.c && !f.z
      case 5 => f.n == f.v
      case _ => f.n == f.v && !f.z;
    test != (cond % 2 == 1)
  }

  /** The simulator decides every condition as the architecture does, except
      LE, which it gets right exactly when Z is set. */
  lemma TakenAsSpecified(op: int, f: Psr)
    requires 0 <= op < 14
    ensures Taken(op, f) == ConditionPassed(op, f) <==> op != 13 || f.z
  {
  }

  /** The flags CMP leaves. */
  function Compared(a: Word, b: Word): Psr { AddWithCarry(a, Not(b), 1) }

  lemma ComparedTells(a: Word, b: Word)
    ensures Compared(a, b).z <==> a == b
    ensures Compared(a, b).c <==> a >= b
    ensures Compared(a, b).n != Compared(a, b).v <==> SInt(a) < SInt(b)
    ensures Compared(a, b).v <==> !(-0x8000_0000 <= SInt(a) - SInt(b) < 0x8000_0000)
  {
    TruncatedSum(a + Not(b) + 1);
  }

  /** The relation a condition's name stands for after a comparison. */
  predicate Relation(op: int, a: Word, b: Word) {
    match op
    case 0 => a == b
    case 1 => a != b
    case 2 => a >= b
    case 3 => a < b
    case 8 => a > b
    case 9 => a <= b
    case 10 => SInt(a) >= SInt(b)
    case 11 => SInt(a) < SInt(b)
    case 12 => SInt(a) > SInt(b)
    case 13 => SInt(a) <= SInt(b)
    case _ => false
  }

  predicate Compares(op: int) { 0 <= op < 4 || 8 <= op < 14 }

  /** After CMP a, b a branch is taken exactly on its relation; LE is not: it is
      taken when a >= b and so is right exactly when the operands are equal. */
  lemma BranchAfterCompare(op: int, a: Word, b: Word)
    requires Compares(op)
    ensures (Taken(op, Compared(a, b)) <==> Relation(op, a, b)) <==> op != 13 || a == b
    ensures Taken(13, Compared(a, b)) <==> SInt(a) >= SInt(b)
  {
    ComparedTells(a, b);
  }

  /** For LE a smaller and a larger operand are both decided wrongly. */
  lemma LessOrEqualFails()
    ensures !Taken(13, Compared(1, 2)) && Relation(13, 1, 2)
    ensures Taken(13, Compared(2, 1)) && !Relation(13, 2, 1)
  {
    BranchAfterCompare(13, 1, 2);
    BranchAfterCompare(13, 2, 1);
  }

  function Offset(imm: int): int { if imm < 128 then imm else imm - 256 }

  function Even(w: Word): Word { w - w % 2 }

  /** The target as the simulator computes it: extend the sign, double, add. */
  function Target(imm: int, pc: Word): Word {
    var wide := if imm >= 128 then 0xFFFF_FF00 + imm else imm;
    Truncated(Truncated(2 * wide) + pc + 2)
  }

  /** Modulo 2^32 that adds the signed offset. */
  lemma TargetSigned(imm: int, pc: Word)
    requires 0 <= imm < 256
    ensures Target(imm, pc) == Truncated(2 * Offset(imm) + pc + 2)
  {
  }
}

/** PUSH and POP. */
module Stacks {
  import opened Arithmetic
  import opened Registers
  import opened Flags
  import opened Branches

  /** The words that can be reached, at addresses equal modulo four. */
  type Memory = map<int, Word>

  /** Bit `r` of the instruction. */
  predicate Selected(instr: Halfword, r: nat) {
    if r == 0 then instr % 2 == 1 else Selected(instr / 2, r - 1)
  }

  /** The low registers below `upto` that the instruction names. */
  function Listed(instr: Halfword, upto: nat): seq<int>
  {
    if upto == 0 then [] else
      Listed(instr, upto - 1) + if Selected(instr, upto - 1) then [upto - 1] else []
  }

  /** All registers PUSH saves, in the order of their addresses. */
  function Names(instr: Halfword): seq<int> {
    Listed(instr, 8) + if Selected(instr, 8) then [LR] else []
  }

  function Addr(base: Word, k: int): Word { Truncated(base + 4 * k) }

  function Base(f: File, instr: Halfword): Word { Truncated(Read(f, SP) - 4 * |Names(instr)|) }

  ghost predicate Accessible(mem: Memory, base: Word, n: nat) {
    forall k :: 0 <= k < n ==> Addr(base, k) in mem
  }

  ghost predicate Outside(base: Word, n: nat, a: int) {
    forall k :: 0 <= k < n ==> a != Addr(base, k)
  }

  /** The registers `names` of `f` stand from `base` upwards; nothing else differs. */
  ghost predicate Saved(f: File, before: Memory, base: Word, names: seq<int>, after: Memory) {
    && before.Keys == after.Keys && Accessible(after, base, |names|)
    && (forall k :: 0 <= k < |names| ==> 0 <= names[k] < 20 && after[Addr(base, k)] == f[names[k]])
    && (forall a :: a in after && Outside(base, |names|, a) ==> after[a] == before[a])
  }

  /** The low registers `names` hold the words from `base` upwards; no other differs. */
  ghost predicate Loaded(before: File, mem: Memory, base: Word, names: seq<int>, after: File) {
    && Accessible(mem, base, |names|)
    && (forall k :: 0 <= k < |names| ==> 0 <= names[k] < 8 && after[names[k]] == mem[Addr(base, k)])
    && (forall r :: 0 <= r < 20 && r !in names ==> after[r] == before[r])
  }

  predicate Thumb(w: Word) { w % 2 == 1 }

  /** When POP succeeds: every word can be read and the new program counter is
      a Thumb address. */
  ghost predicate CanPop(f: File, mem: Memory, instr: Halfword) {
    var base, n := Read(f, SP), |Listed(instr, 8)|;
    Accessible(mem, base, n) && (Selected(instr, 8) ==> Addr(base, n) in mem && Thumb(mem[Addr(base, n)]))
  }

  /** What a POP that succeeds leaves. */
  ghost predicate Popped(f: File, mem: Memory, instr: Halfword, after: File)
    requires CanPop(f, mem, instr)
  {
    var base, names := Read(f, SP), Listed(instr, 8);
    && (forall k :: 0 <= k < |names| ==> 0 <= names[k] < 8 && after[names[k]] == mem[Addr(base, k)])
    && (forall r :: 0 <= r < 20 && r !in names && r != PC && r != Slot(f, SP) ==> after[r] == f[r])
    && after[PC] == (if Selected(instr, 8) then Even(Plus(mem[Addr(base, |names|)], 2)) else f[PC])
    && Read(after, SP) == Addr(base, |Names(instr)|)
  }

  lemma {:induction false} ListedLow(instr: Halfword, upto: nat, k: nat)
    requires upto <= 8 && k < |Listed(instr, upto)|
    ensures 0 <= Listed(instr, upto)[k] < upto
  {
    if k < |Listed(instr, upto - 1)| {
      ListedLow(instr, upto - 1, k);
    }
  }

  lemma {:induction false} ListedExactly(instr: Halfword, upto: nat, r: nat)
    ensures r in Listed(instr, upto) <==> r < upto && Selected(instr, r)
  {
    if upto > 0 {
      ListedExactly(instr, upto - 1, r);
    }
  }

  lemma {:induction false} ListedAscending(instr: Halfword, upto: nat)
    requires upto <= 8
    ensures forall a, b :: 0 <= a < b < |Listed(instr, upto)| ==> Listed(instr, upto)[a] < Listed(instr, upto)[b]
  {
    if upto > 0 {
      ListedAscending(instr, upto - 1);
      var low := Listed(instr, upto - 1);
      forall k | 0 <= k < |low|
        ensures low[k] < upto - 1
      {
        ListedLow(instr, upto - 1, k);
      }
    }
  }

  function Two(r: nat): (p: nat)
    ensures p >= 1
  {
    if r == 0 then 1 else 2 * Two(r - 1)
  }

  lemma HalfFirst(x: nat, p: nat)
    requires p >= 1
    ensures x / 2 / p == x / (2 * p)
  {
    var h := x / 2;
    var q, m := h / p, h % p;
    assert h == q * p + m;
    var rest := 2 * m + x % 2;
    assert x == q * (2 * p) + rest && 0 <= rest < 2 * p;
    QuotientIs(x, 2 * p, q, rest);
  }

  lemma QuotientIs(x: nat, d: nat, q: nat, rest: nat)
    requires d >= 1 && x == q * d + rest && rest < d
    ensures x / d == q
  {
    var k := x / d;
    assert x == k * d + x % d;
    if k < q {
      MulMonotone(k + 1, q, d);
    } else if k > q {
      MulMonotone(q + 1, k, d);
    }
  }

  /** The instruction names register r, for r below 8, with its bit r. */
  lemma {:induction false} SelectedIsBit(instr: Halfword, r: nat)
    ensures Selected(instr, r) <==> instr / Two(r) % 2 == 1
    decreases r
  {
    if r > 0 {
      SelectedIsBit(instr / 2, r - 1);
      HalfFirst(instr, Two(r - 1));
    }
  }

  /** Where PUSH puts its registers: the listed low ones in ascending order and LR,
      register 14, last, right below the old stack pointer. */
  lemma PushLayout(f: File, instr: Halfword, k: nat)
    requires k < |Names(instr)|
    ensures Addr(Base(f, instr), k) == (Read(f, 13) - 4 * (|Names(instr)| - k)) % 0x1_0000_0000
    ensures forall a, b :: 0 <= a < b < |Names(instr)| ==> Names(instr)[a] < Names(instr)[b]
    ensures forall r: nat :: r in Names(instr) <==> (r < 8 && Selected(instr, r)) || (r == 14 && Selected(instr, 8))
  {
    ListedAscending(instr, 8);
    var low := Listed(instr, 8);
    forall j | 0 <= j < |low|
      ensures low[j] < 8
    {
      ListedLow(instr, 8, j);
    }
    forall r: nat
      ensures r in Listed(instr, 8) <==> r < 8 && Selected(instr, r)
    {
      ListedExactly(instr, 8, r);
    }
    AddrShift(Read(f, 13) - 4 * |Names(instr)|, k);
  }

  lemma AddrShift(x: int, k: nat)
    ensures Addr(Truncated(x), k) == Truncated(x + 4 * k)
  {
    var q := x / 0x1_0000_0000;
    assert Truncated(x) == x - 0x1_0000_0000 * q;
    var y := x + 4 * k;
    var p := y / 0x1_0000_0000;
    assert (y - 0x1_0000_0000 * q) / 0x1_0000_0000 == p - q;
  }

  lemma {:induction false} ListedGrows(instr: Halfword, reg: nat, upto: nat)
    requires reg <= upto
    ensures |Listed(instr, reg)| <= |Listed(instr, upto)| <= upto
    decreases upto
  {
    if reg < upto {
      ListedGrows(instr, reg, upto - 1);
    } else if upto > 0 {
      ListedGrows(instr, upto - 1, upto - 1);
    }
  }

  lemma NextAddr(base: Word, k: nat)
    ensures Plus(Addr(base, k), 4) == Addr(base, k + 1)
  {
    var x := base + 4 * k;
    var q := x / 0x1_0000_0000;
    assert x == 0x1_0000_0000 * q + Truncated(x);
    TruncatedSum(Truncated(x) + 4);
    assert (x + 4) / 0x1_0000_0000 == if Truncated(x) + 4 < 0x1_0000_0000 then q else q + 1;
  }

  lemma AddrDistinct(base: Word, i: nat, j: nat)
    requires i < j < 16
    ensures Addr(base, i) != Addr(base, j)
  {
  }

  lemma SavedOne(f: File, before: Memory, base: Word, names: seq<int>, after: Memory, r: int)
    requires Saved(f, before, base, names, after) && |names| < 16
    requires 0 <= r < 20 && Addr(base, |names|) in after
    ensures Saved(f, before, base, names + [r], after[Addr(base, |names|) := f[r]])
  {
    var n := |names|;
    var more, now := names + [r], after[Addr(base, n) := f[r]];
    forall k | 0 <= k < n + 1
      ensures Addr(base, k) in now && 0 <= more[k] < 20 && now[Addr(base, k)] == f[more[k]]
    {
      if k < n {
        AddrDistinct(base, k, n);
      }
    }
    forall a | a in now && Outside(base, n + 1, a)
      ensures now[a] == before[a]
    {
      assert a != Addr(base, n);
      assert Outside(base, n, a);
    }
  }

  lemma LoadedOne(before: File, mem: Memory, base: Word, names: seq<int>, after: File, r: int)
    requires Loaded(before, mem, base, names, after)
    requires 0 <= r < 8 && r !in names && Addr(base, |names|) in mem
    ensures Loaded(before, mem, base, names + [r], after[r := mem[Addr(base, |names|)]])
  {
    var now := after[r := mem[Addr(base, |names|)]];
    assert forall k :: 0 <= k < |names| ==> names[k] in names;
  }

  /** PUSH's loop in front of register `reg`. */
  ghost predicate Storing(f: File, before: Memory, base: Word, instr: Halfword, reg: nat, sp: Word, after: Memory) {
    sp == Addr(base, |Listed(instr, reg)|) && Saved(f, before, base, Listed(instr, reg), after)
  }

  /** Word `k` is the first that cannot be written; those before it are. */
  ghost predicate StoredUntil(f: File, before: Memory, base: Word, names: seq<int>, k: nat, after: Memory) {
    k < |names| && Addr(base, k) !in before && Saved(f, before, base, names[..k], after)
  }

  lemma {:induction false} ListedPrefix(instr: Halfword, reg: nat, upto: nat)
    requires reg <= upto
    ensures |Listed(instr, reg)| <= |Listed(instr, upto)|
    ensures Listed(instr, upto)[..|Listed(instr, reg)|] == Listed(instr, reg)
    decreases upto
  {
    if reg < upto {
      ListedPrefix(instr, reg, upto - 1);
    }
  }

  lemma StoringStep(f: File, before: Memory, base: Word, instr: Halfword, reg: nat, sp: Word, after: Memory)
    requires Storing(f, before, base, instr, reg, sp, after) && reg < 8
    ensures !Selected(instr, reg) ==> Storing(f, before, base, instr, reg + 1, sp, after)
    ensures Selected(instr, reg) && sp !in after ==>
              StoredUntil(f, before, base, Listed(instr, 8), |Listed(instr, reg)|, after)
    ensures Selected(instr, reg) && sp in after ==>
              Storing(f, before, base, instr, reg + 1, Plus(sp, 4), after[sp := f[reg]])
  {
    ListedPrefix(instr, reg, 8);
    ListedGrows(instr, reg + 1, 8);
    if Selected(instr, reg) && sp in after {
      SavedOne(f, before, base, Listed(instr, reg), after, reg);
      NextAddr(base, |Listed(instr, reg)|);
    }
  }

  /** POP's loop in front of register `reg`. */
  ghost predicate Loading(before: File, mem: Memory, base: Word, instr: Halfword, reg: nat, sp: Word, after: File) {
    sp == Addr(base, |Listed(instr, reg)|) && Loaded(before, mem, base, Listed(instr, reg), after)
  }

  lemma LoadingStep(before: File, mem: Memory, base: Word, instr: Halfword, reg: nat, sp: Word, after: File)
    requires Loading(before, mem, base, instr, reg, sp, after) && reg < 8
    ensures !Selected(instr, reg) ==> Loading(before, mem, base, instr, reg + 1, sp, after)
    ensures Selected(instr, reg) && sp !in mem ==> !Accessible(mem, base, |Listed(instr, 8)|)
    ensures Selected(instr, reg) && sp in mem ==>
              Loading(before, mem, base, instr, reg + 1, Plus(sp, 4), after[reg := mem[sp]])
  {
    ListedGrows(instr, reg + 1, 8);
    if Selected(instr, reg) && sp in mem {
      ListedExactly(instr, reg, reg);
      LoadedOne(before, mem, base, Listed(instr, reg), after, reg);
      NextAddr(base, |Listed(instr, reg)|);
    }
  }

  lemma LoopStarts(f: File, mem: Memory, base: Word, instr: Halfword)
    ensures Storing(f, mem, base, instr, 0, base, mem) && Loading(f, mem, base, instr, 0, base, f)
  {
  }

  /** Only the banked stack pointer differs, so the saved values are the same. */
  lemma SavedFrom(f: File, g: File, before: Memory, base: Word, instr: Halfword, n: nat, after: Memory)
    requires n <= |Listed(instr, 8)| && Saved(f, before, base, Listed(instr, 8)[..n], after)
    requires f == Write(g, SP, base)
    ensures Saved(g, before, base, Listed(instr, 8)[..n], after)
  {
    forall k | 0 <= k < n
      ensures f[Listed(instr, 8)[..n][k]] == g[Listed(instr, 8)[..n][k]]
    {
      ListedLow(instr, 8, k);
    }
  }

  lemma LoadedPops(f: File, mem: Memory, instr: Halfword, loaded: File, after: File)
    requires CanPop(f, mem, instr) && Loaded(f, mem, Read(f, SP), Listed(instr, 8), loaded)
    requires var n := |Listed(instr, 8)|;
      after == Write(if Selected(instr, 8) then Write(loaded, PC, Plus(mem[Addr(Read(f, SP), n)], 2)) else loaded,
                     SP, Addr(Read(f, SP), |Names(instr)|))
    ensures Popped(f, mem, instr, after)
  {
    var names := Listed(instr, 8);
    assert SP !in names && PC !in names;
  }

  lemma LoadedHigh(before: File, mem: Memory, base: Word, names: seq<int>, after: File)
    requires Loaded(before, mem, base, names, after)
    ensures after[8..] == before[8..]
  {
  }

  lemma BaseReturns(sp: Word, n: nat)
    ensures Addr(Truncated(sp - 4 * n), n) == sp
  {
    var x := sp - 4 * n;
    var q := x / 0x1_0000_0000;
    assert Truncated(x) == x - 0x1_0000_0000 * q;
    assert (sp - 0x1_0000_0000 * q) / 0x1_0000_0000 == -q;
  }

  /** PUSH {list, lr} ... POP {list, pc}: whatever happens in between, as long
      as the stack pointer and the saved words are the same again, POP puts
      back every listed register and the stack pointer, and with PC in its
      list returns to LR; it fails exactly when that is no Thumb address. */
  lemma PopUndoesPush(f: File, before: Memory, instr: Halfword, after: Memory, g: File, mem: Memory)
    requires Saved(f, before, Base(f, instr), Names(instr), after)
    requires Read(g, SP) == Base(f, instr)
    requires forall k :: 0 <= k < |Names(instr)| ==>
      Addr(Base(f, instr), k) in mem && mem[Addr(Base(f, instr), k)] == after[Addr(Base(f, instr), k)]
    ensures CanPop(g, mem, instr) <==> (Selected(instr, 8) ==> Thumb(f[LR]))
    ensures CanPop(g, mem, instr) ==> forall h :: Popped(g, mem, instr, h) ==> Undone(f, g, instr, h)
  {
    var base, names := Base(f, instr), Listed(instr, 8);
    ListedGrows(instr, 0, 8);
    assert forall k :: 0 <= k < |names| ==> Names(instr)[k] == names[k];
    assert Selected(instr, 8) ==> Names(instr)[|names|] == LR;
    BaseReturns(Read(f, SP), |Names(instr)|);
    if CanPop(g, mem, instr) {
      forall h | Popped(g, mem, instr, h)
        ensures Undone(f, g, instr, h)
      {
        forall r: nat | r < 8
          ensures h[r] == if Selected(instr, r) then f[r] else g[r]
        {
          ListedExactly(instr, 8, r);
          if Selected(instr, r) {
            var k :| 0 <= k < |names| && names[k] == r;
            assert after[Addr(base, k)] == f[Names(instr)[k]];
          }
        }
      }
    }
  }

  ghost predicate Undone(f: File, g: File, instr: Halfword, h: File) {
    && (forall r: nat :: r < 8 ==> h[r] == if Selected(instr, r) then f[r] else g[r])
    && Read(h, SP) == Read(f, SP)
    && h[PC] == if Selected(instr, 8) then Even(Plus(f[LR], 2)) else g[PC]
  }
}

/** The processor: its registers and the memory it reaches. */
module Mcus {
  import opened Registers
  import opened Flags
  import opened Branches
  import opened Stacks

  class Mcu {
    var regs: File
    var mem: Memory

    /** The read-modify-write every flag update makes. */
    method SetFlag(bit: Bit, on: bool)
      modifies this`regs
      ensures FlagsOf(regs) == FlagsOf(old(regs)).With(bit, on)
      ensures regs == old(regs)[XPSR := regs[XPSR]] && regs[XPSR] % V == old(regs[XPSR]) % V
    {
      var cpsr := Read(regs, APSR);
      ViewKeepsFlags(regs[XPSR], Put(cpsr, bit, on));
      PutFlags(cpsr, bit, on);
      regs := Write(regs, APSR, Put(cpsr, bit, on));
    }

    method UpdateN(c: Word)
      modifies this`regs
      ensures FlagsOf(regs) == FlagsOf(old(regs)).With(N, SInt(c) < 0)
      ensures regs == old(regs)[XPSR := regs[XPSR]] && regs[XPSR] % V == old(regs[XPSR]) % V
    {
      Split31(c);
      SetFlag(N, Bit31(c) == 1);
    }

    method UpdateZ(c: Word)
      modifies this`regs
      ensures FlagsOf(regs) == FlagsOf(old(regs)).With(Z, c == 0)
      ensures regs == old(regs)[XPSR := regs[XPSR]] && regs[XPSR] % V == old(regs[XPSR]) % V
    {
      SetFlag(Z, c == 0);
    }

    method UpdateC(a: Word, b: Word, carry: int)
      requires carry == 0 || carry == 1
      modifies this`regs
      ensures FlagsOf(regs) == FlagsOf(old(regs)).With(C, AddWithCarry(a, b, carry).c)
      ensures regs == old(regs)[XPSR := regs[XPSR]] && regs[XPSR] % V == old(regs[XPSR]) % V
    {
      FlagsExact(a, b, carry);
      var temp := Truncated(Low31(a) + Low31(b) + carry);
      temp := Truncated(Bit31(temp) + Bit31(a) + Bit31(b));
      SetFlag(C, temp / 2 % 2 == 1);
    }

    method UpdateV(a: Word, b: Word, carry: int)
      requires carry == 0 || carry == 1
      modifies this`regs
      ensures FlagsOf(regs) == FlagsOf(old(regs)).With(V, AddWithCarry(a, b, carry).v)
      ensures regs == old(regs)[XPSR := regs[XPSR]] && regs[XPSR] % V == old(regs[XPSR]) % V
    {
      FlagsExact(a, b, carry);
      var temp1 := Bit31(Truncated(Low31(a) + Low31(b) + carry));
      var temp2 := (temp1 % 2 + Bit31(a) % 2 + Bit31(b) % 2) / 2;
      SetFlag(V, temp1 % 2 != temp2 % 2);
    }

    /** The four updates of a comparison. */
    method Compare(a: Word, b: Word)
      modifies this`regs
      ensures FlagsOf(regs) == Compared(a, b)
      ensures regs == old(regs)[XPSR := regs[XPSR]] && regs[XPSR] % V == old(regs[XPSR]) % V
    {
      DifferenceExact(a, b);
      var c := Truncated(a - b);
      UpdateN(c);
      UpdateZ(c);
      UpdateC(a, Not(b), 1);
      UpdateV(a, Not(b), 1);
    }

    method CompareImmediate(instr: Halfword)
      modifies this`regs
      ensures FlagsOf(regs) == Compared(old(regs)[instr / 256 % 8], instr % 256)
      ensures regs == old(regs)[XPSR := regs[XPSR]] && regs[XPSR] % V == old(regs[XPSR]) % V
    {
      var src, imm := instr / 256 % 8, instr % 256;
      Compare(Read(regs, src), imm);
    }

    method CompareRegister(instr: Halfword)
      modifies this`regs
      ensures FlagsOf(regs) == Compared(old(regs)[instr % 8], old(regs)[instr / 8 % 8])
      ensures regs == old(regs)[XPSR := regs[XPSR]] && regs[XPSR] % V == old(regs[XPSR]) % V
    {
      var src1, src2 := instr % 8, instr / 8 % 8;
      Compare(Read(regs, src1), Read(regs, src2));
    }

    /** B(1): the two codes above LE are refused. */
    method Branch(instr: Halfword) returns (ok: bool)
      modifies this`regs
      ensures ok <==> instr / 256 % 16 < 14
      ensures regs == if Taken(instr / 256 % 16, FlagsOf(old(regs)))
                      then old(regs)[PC := Even(Target(instr % 256, old(regs)[PC]))]
                      else old(regs)
    {
      var op := instr / 256 % 16;
      var target := Target(instr % 256, Read(regs, PC));
      var cpsr := Read(regs, APSR);
      ViewKeepsFlags(regs[XPSR], 0);
      if op >= 14 {
        return false;
      }
      if Taken(op, FlagsIn(cpsr)) {
        regs := Write(regs, PC, target);
      }
      return true;
    }

    /** Compare two registers, then branch: the program counter moves exactly
        when the relation holds, for every condition but LE. */
    method CompareAndBranch(cmp: Halfword, branch: Halfword) returns (ok: bool)
      requires Compares(branch / 256 % 16)
      modifies this`regs
      ensures var op, a, b := branch / 256 % 16, old(regs)[cmp % 8], old(regs)[cmp / 8 % 8];
        ok && regs[PC] == (if (if op == 13 then SInt(a) >= SInt(b) else Relation(op, a, b))
                           then Even(Target(branch % 256, old(regs)[PC]))
                           else old(regs)[PC])
      ensures regs == old(regs)[XPSR := regs[XPSR]][PC := regs[PC]]
    {
      BranchAfterCompare(branch / 256 % 16, regs[cmp % 8], regs[cmp / 8 % 8]);
      CompareRegister(cmp);
      ok := Branch(branch);
    }

    /** The registers POP and PUSH name below R8. */
    method CountListed(instr: Halfword) returns (num: nat)
      ensures num == |Listed(instr, 8)|
    {
      num := 0;
      for reg := 0 to 8
        invariant num == |Listed(instr, reg)|
      {
        if Selected(instr, reg) {
          num := num + 1;
        }
      }
    }

    /** The storing loop of PUSH. */
    method StoreListed(instr: Halfword, base: Word) returns (ok: bool, sp: Word, ghost stored: nat)
      modifies this`mem
      ensures !ok ==> StoredUntil(regs, old(mem), base, Listed(instr, 8), stored, mem)
      ensures ok ==> Storing(regs, old(mem), base, instr, 8, sp, mem)
    {
      sp, stored := base, 0;
      LoopStarts(regs, mem, base, instr);
      for reg := 0 to 8
        invariant Storing(regs, old(mem), base, instr, reg, sp, mem)
      {
        StoringStep(regs, old(mem), base, instr, reg, sp, mem);
        if Selected(instr, reg) {
          if sp !in mem {
            return false, sp, |Listed(instr, reg)|;
          }
          mem := mem[sp := Read(regs, reg)];
          sp := Plus(sp, 4);
        }
      }
      return true, sp, |Listed(instr, 8)|;
    }

    /** Makes room for the registers. */
    method MoveDown(instr: Halfword) returns (base: Word)
      modifies this`regs
      ensures base == Base(old(regs), instr) && regs == Write(old(regs), SP, base)
    {
      var num: int := CountListed(instr);
      if Selected(instr, 8) {
        num := num + 1;
      }
      base := Plus(Read(regs, SP), -4 * num);
      regs := Write(regs, SP, base);
    }

    /** PUSH: the stack pointer moves first, and stays moved when a store fails;
        the words before the failing one have then been written. */
    method Push(instr: Halfword) returns (ok: bool, ghost stored: nat)
      modifies this
      ensures regs == Write(old(regs), SP, Base(old(regs), instr))
      ensures ok <==> Accessible(old(mem), Base(old(regs), instr), |Names(instr)|)
      ensures ok ==> Saved(old(regs), old(mem), Base(old(regs), instr), Names(instr), mem)
      ensures !ok ==> StoredUntil(old(regs), old(mem), Base(old(regs), instr), Names(instr), stored, mem)
    {
      var base := MoveDown(instr);
      var sp;
      ok, sp, stored := StoreListed(instr, base);
      ListedGrows(instr, 0, 8);
      ghost var low := Listed(instr, 8);
      if !ok {
        SavedFrom(regs, old(regs), old(mem), base, instr, stored, mem);
        assert Names(instr)[..stored] == low[..stored];
        return;
      }
      assert low[..|low|] == low;
      SavedFrom(regs, old(regs), old(mem), base, instr, |low|, mem);
      if Selected(instr, 8) {
        if sp !in mem {
          assert Names(instr)[..|low|] == low;
          return false, |low|;
        }
        SavedOne(old(regs), old(mem), base, low, mem, LR);
        mem := mem[sp := Read(regs, LR)];
      }
    }

    /** The loading loop of POP. */
    method LoadListed(instr: Halfword, base: Word) returns (ok: bool, sp: Word, ghost failed: nat)
      modifies this`regs
      ensures !ok ==> !Accessible(mem, base, |Listed(instr, 8)|)
      ensures !ok ==> Loaded(old(regs), mem, base, Listed(instr, failed), regs)
      ensures ok ==> Loading(old(regs), mem, base, instr, 8, sp, regs)
    {
      sp, failed := base, 0;
      LoopStarts(regs, mem, base, instr);
      for reg := 0 to 8
        invariant Loading(old(regs), mem, base, instr, reg, sp, regs)
      {
        LoadingStep(old(regs), mem, base, instr, reg, sp, regs);
        if Selected(instr, reg) {
          if sp !in mem {
            return false, sp, reg;
          }
          regs := Write(regs, reg, mem[sp]);
          sp := Plus(sp, 4);
        }
      }
      return true, sp, 8;
    }

    /** POP: the stack pointer moves last, only when every word was read. */
    method Pop(instr: Halfword) returns (ok: bool)
      modifies this`regs
      ensures ok <==> CanPop(old(regs), mem, instr)
      ensures ok ==> Popped(old(regs), mem, instr, regs)
      ensures !ok ==> regs[8..] == old(regs[8..])
    {
      var base := Read(regs, SP);
      var sp;
      ghost var failed;
      ok, sp, failed := LoadListed(instr, base);
      if !ok {
        LoadedHigh(old(regs), mem, base, Listed(instr, failed), regs);
        return;
      }
      LoadedHigh(old(regs), mem, base, Listed(instr, 8), regs);
      ghost var loaded := regs;
      if Selected(instr, 8) {
        if sp !in mem || !Thumb(mem[sp]) {
          return false;
        }
        regs := Write(regs, PC, Plus(mem[sp], 2));
        NextAddr(base, |Listed(instr, 8)|);
        sp := Plus(sp, 4);
      }
      regs := Write(regs, SP, sp);
      LoadedPops(old(regs), mem, instr, loaded, regs);
    }
  }
}
