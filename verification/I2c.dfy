/** platform/lpc11xx/i2c.c: the interrupt-driven master transfer, against a
    controller that may answer every byte with ACK or NACK.  The wire follows
    sections 3.1.6 and 3.1.10 of the I2C-bus specification UM10204. */
module I2cBus {

  datatype Status = Ok | Err

  /** What can be seen on the bus.  `ack` is the ninth bit. */
  datatype Signal =
    | Start
    | RepeatedStart
    | Address(byte: int, ack: bool)
    | Sent(byte: int, ack: bool)
    | Received(byte: int, ack: bool)
    | Stop

  datatype Request = Request(addr: int, write: seq<int>, readLength: nat)

  /** The current transfer, the controller's registers and flags, and how often
      `done` was signalled.  `overrun` records a transfer index out of range,
      `overread` a log message that reads past the end of the write buffer. */
  datatype Device = Device(
    req: Request,
    w: nat,
    read: seq<int>,
    r: nat,
    status: Status,
    signals: nat,
    overrun: bool,
    overread: bool,
    dat: int,
    sta: bool,
    sto: bool,
    aa: bool)

  function ReadAddress(addr: int): int {
    if addr % 2 == 0 then addr + 1 else addr
  }

  function Finished(d: Device, status: Status): Device {
    d.(sto := true, status := status, signals := d.signals + 1)
  }

  /** One more byte into the read buffer. */
  function Stored(d: Device): Device {
    if d.r < |d.read| then d.(read := d.read[d.r := d.dat], r := d.r + 1) else d.(overrun := true)
  }

  /** A log message with the first `n` bytes of the write buffer. */
  function Logged(d: Device, n: nat): Device {
    d.(overread := d.overread || n > |d.req.write|)
  }

  function AckNext(d: Device): Device {
    d.(aa := d.r + 1 < d.req.readLength)
  }

  function NextByte(d: Device): Device
    requires d.w < |d.req.write|
  {
    d.(dat := d.req.write[d.w], w := d.w + 1)
  }

  /** i2c_dev_isr. */
  function Isr(d: Device, stat: int): Device {
    match stat
    case 0x08 => d.(w := 0, dat := d.req.addr, sta := false)
    case 0x10 => d.(r := 0, dat := ReadAddress(d.req.addr), sta := false)
    case 0x18 => if d.w < |d.req.write| then NextByte(d) else d.(sto := true)
    case 0x28 =>
      if d.w < |d.req.write| then NextByte(d)
      else if d.req.readLength > 0 then d.(sta := true)
      else Finished(d, Ok)
    case 0x40 => AckNext(d)
    case 0x50 => AckNext(Stored(d))
    case 0x58 => Finished(Stored(d), Ok)
    case 0x20 => Logged(Finished(d, Err), 2)
    case 0x48 => Logged(Finished(d, Err), 2)
    case _ => Finished(Logged(d, 1), Err)
  }

  /** The code's own form. */
  class I2cDevice {
    var req: Request
    var w: nat
    var read: array<int>
    var r: nat
    var status: Status
    var signals: nat
    var overread: bool
    var dat: int
    var sta: bool
    var sto: bool
    var aa: bool

    ghost function View(): Device
      reads this, read
    {
      Device(req, w, read[..], r, status, signals, false, overread, dat, sta, sto, aa)
    }

    constructor (addr: int, write: seq<int>, buffer: array<int>)
      ensures View() ==
              Device(Request(addr, write, buffer.Length), 0, buffer[..], 0, Err, 0, false, false, 0, true, false, false)
      ensures read == buffer
    {
      req, read := Request(addr, write, buffer.Length), buffer;
      w, r, status, signals, overread, dat, sta, sto, aa := 0, 0, Err, 0, false, 0, true, false, false;
    }

    /** Reads the first `n` bytes of the write buffer for a message. */
    method Log(n: nat)
      modifies this`overread
      ensures View() == Logged(old(View()), n)
    {
      if n > |req.write| {
        overread := true;
      }
    }

    method SendByte()
      requires w < |req.write|
      modifies this`dat, this`w
      ensures View() == NextByte(old(View()))
    {
      dat, w := req.write[w], w + 1;
    }

    method StoreByte()
      requires r < read.Length
      modifies this`r, read
      ensures View() == Stored(old(View()))
    {
      read[r] := dat;
      assert read[..] == old(read[..])[r := dat];
      r := r + 1;
    }

    method ChooseAck()
      modifies this`aa
      ensures View() == AckNext(old(View()))
    {
      aa := r + 1 < req.readLength;
    }

    /** STOP, the outcome, and the signal of `done`. */
    method Finish(outcome: Status)
      modifies this`sto, this`status, this`signals
      ensures View() == Finished(old(View()), outcome)
    {
      sto, status, signals := true, outcome, signals + 1;
    }

    /** The interrupt handler, on the runs where no transfer index leaves its
        range. */
    method HandleInterrupt(stat: int)
      requires !Isr(View(), stat).overrun
      modifies this, read
      ensures read == old(read) && View() == Isr(old(View()), stat)
    {
      match stat {
        case 0x08 =>
          w, dat, sta := 0, req.addr, false;
        case 0x10 =>
          r, dat, sta := 0, ReadAddress(req.addr), false;
        case 0x18 =>
          if w < |req.write| {
            SendByte();
          } else {
            sto := true;
          }
        case 0x28 =>
          if w < |req.write| {
            SendByte();
          } else if req.readLength > 0 {
            sta := true;
          } else {
            Finish(Ok);
          }
        case 0x40 =>
          ChooseAck();
        case 0x50 =>
          StoreByte();
          ChooseAck();
        case 0x58 =>
          StoreByte();
          Finish(Ok);
        case 0x20 =>
          Finish(Err);
          Log(2);
        case 0x48 =>
          Finish(Err);
          Log(2);
        case _ =>
          Log(1);
          Finish(Err);
      }
    }
  }

  // ----- the controller

  /** A transfer on the bus: the last status reported, 0 for none, and the wire. */
  datatype Link = Link(d: Device, stat: int, wire: seq<Signal>)

  /** Whether the controller has something to do. */
  predicate Active(l: Link) {
    l.stat != 0 || l.d.sta
  }

  /** What the controller does next and the status it then reports.  It sends
      STOP and goes idle as soon as the handler asks for it. */
  function Transmit(l: Link, ack: bool, byte: int): Link {
    var d := l.d;
    if l.stat == 0 then Link(d, 0x08, l.wire + [Start])
    else if l.stat == 0x08 then Link(d, if ack then 0x18 else 0x20, l.wire + [Address(d.dat, ack)])
    else if l.stat == 0x10 then Link(d, if ack then 0x40 else 0x48, l.wire + [Address(d.dat, ack)])
    else if l.stat == 0x18 || l.stat == 0x28 then
      if d.sta then Link(d, 0x10, l.wire + [RepeatedStart])
      else Link(d, if ack then 0x28 else 0x30, l.wire + [Sent(d.dat, ack)])
    else
      Link(d.(dat := byte), if d.aa then 0x50 else 0x58, l.wire + [Received(byte, d.aa)])
  }

  /** One interrupt: the controller acts, then the handler runs. */
  function Interrupt(l: Link, ack: bool, byte: int): Link {
    var t := Transmit(l, ack, byte);
    var d := Isr(t.d, t.stat);
    if d.sto then Link(d.(sto := false), 0, t.wire + [Stop]) else Link(d, t.stat, t.wire)
  }

  // ----- the protocol

  function AllSent(bytes: seq<int>): seq<Signal> {
    if bytes == [] then [] else AllSent(bytes[..|bytes| - 1]) + [Sent(bytes[|bytes| - 1], true)]
  }

  /** Bytes received, the first `acked` of them acknowledged. */
  function AllReceived(bytes: seq<int>, acked: nat): seq<Signal> {
    if bytes == [] then []
    else AllReceived(bytes[..|bytes| - 1], acked) + [Received(bytes[|bytes| - 1], |bytes| <= acked)]
  }

  function Header(req: Request): seq<Signal> {
    [Start, Address(req.addr, true)]
  }

  function Turnaround(req: Request): seq<Signal> {
    Header(req) + AllSent(req.write) + [RepeatedStart, Address(ReadAddress(req.addr), true)]
  }

  /** The wire of a transfer that went well: START, the address, every byte in
      order, and for a read a repeated START, the read address and the bytes
      with ACK on all but the last. */
  function GoodWire(req: Request, read: seq<int>): seq<Signal> {
    (if req.readLength == 0 then Header(req) + AllSent(req.write)
     else Turnaround(req) + AllReceived(read, req.readLength - 1)) + [Stop]
  }

  /** The same position by position: the read address is odd and has the upper
      seven bits of the address. */
  ghost predicate PlainWire(wire: seq<Signal>, req: Request, read: seq<int>) {
    var w, n := |req.write|, req.readLength;
    && |read| == n && |wire| == (if n == 0 then 3 + w else 5 + w + n)
    && wire[0] == Start && wire[1] == Address(req.addr, true) && wire[|wire| - 1] == Stop
    && (forall i :: 0 <= i < w ==> wire[2 + i] == Sent(req.write[i], true))
    && (n > 0 ==>
          && wire[2 + w] == RepeatedStart && wire[3 + w].Address? && wire[3 + w].ack
          && wire[3 + w].byte % 2 == 1 && wire[3 + w].byte / 2 == req.addr / 2)
    && (forall i :: 0 <= i < n ==> wire[4 + w + i] == Received(read[i], i + 1 < n))
  }

  lemma {:induction false} AllSentAt(bytes: seq<int>)
    ensures |AllSent(bytes)| == |bytes| && forall i :: 0 <= i < |bytes| ==> AllSent(bytes)[i] == Sent(bytes[i], true)
  {
    if bytes != [] {
      AllSentAt(bytes[..|bytes| - 1]);
    }
  }

  lemma {:induction false} AllReceivedAt(bytes: seq<int>, acked: nat)
    ensures |AllReceived(bytes, acked)| == |bytes|
    ensures forall i :: 0 <= i < |bytes| ==> AllReceived(bytes, acked)[i] == Received(bytes[i], i < acked)
  {
    if bytes != [] {
      AllReceivedAt(bytes[..|bytes| - 1], acked);
    }
  }

  lemma ReadAddressOdd(addr: int)
    ensures ReadAddress(addr) % 2 == 1 && ReadAddress(addr) / 2 == addr / 2
  {
  }

  lemma GoodWritePlain(req: Request, read: seq<int>)
    requires |read| == req.readLength == 0
    ensures PlainWire(GoodWire(req, read), req, read)
  {
    var sent := AllSent(req.write);
    AllSentAt(req.write);
    var wire := Header(req) + sent + [Stop];
    assert GoodWire(req, read) == wire;
    assert forall i :: 0 <= i < |req.write| ==> wire[2 + i] == sent[i];
  }

  lemma GoodReadPlain(req: Request, read: seq<int>)
    requires |read| == req.readLength > 0
    ensures PlainWire(GoodWire(req, read), req, read)
  {
    var sent, got := AllSent(req.write), AllReceived(read, req.readLength - 1);
    AllSentAt(req.write);
    AllReceivedAt(read, req.readLength - 1);
    ReadAddressOdd(req.addr);
    var turn := [RepeatedStart, Address(ReadAddress(req.addr), true)];
    InPlaces(Header(req), sent, turn, got, [Stop]);
    assert GoodWire(req, read) == Header(req) + sent + turn + got + [Stop];
  }

  /** Where the parts of a wire stand. */
  lemma InPlaces(h: seq<Signal>, s: seq<Signal>, t: seq<Signal>, g: seq<Signal>, e: seq<Signal>)
    requires |h| == |t| == 2 && |e| == 1
    ensures var wire := h + s + t + g + e;
            && |wire| == 5 + |s| + |g| && wire[0] == h[0] && wire[1] == h[1]
            && (forall i :: 0 <= i < |s| ==> wire[2 + i] == s[i])
            && wire[2 + |s|] == t[0] && wire[3 + |s|] == t[1]
            && (forall i :: 0 <= i < |g| ==> wire[4 + |s| + i] == g[i])
            && wire[|wire| - 1] == e[0]
  {
  }

  lemma GoodIsPlain(req: Request, read: seq<int>)
    requires |read| == req.readLength
    ensures PlainWire(GoodWire(req, read), req, read)
  {
    if req.readLength == 0 {
      GoodWritePlain(req, read);
    } else {
      GoodReadPlain(req, read);
    }
  }

  /** The last signal before STOP is a NACK of the slave. */
  predicate Refused(wire: seq<Signal>) {
    |wire| >= 2 && wire[|wire| - 1] == Stop &&
    (wire[|wire| - 2].Address? || wire[|wire| - 2].Sent?) && !wire[|wire| - 2].ack
  }

  /** What was refused is an address. */
  predicate AddressRefused(wire: seq<Signal>) {
    Refused(wire) && wire[|wire| - 2].Address?
  }

  /** Where the transfer stands while no signal of `done` has been given. */
  ghost predicate Running(l: Link, req: Request) {
    && l.d.req == req && |l.d.read| == req.readLength && l.d.signals == 0 && !l.d.overrun && !l.d.overread && !l.d.sto
    && match l.stat
       case 0x00 => l.d.sta && l.wire == []
       case 0x08 => !l.d.sta && l.wire == [Start] && l.d.dat == req.addr && l.d.w == 0
       case 0x18 => Sending(l, req)
       case 0x28 => Sending(l, req)
       case 0x10 => !l.d.sta && l.wire == Header(req) + AllSent(req.write) + [RepeatedStart]
                    && l.d.dat == ReadAddress(req.addr) && l.d.r == 0 && req.readLength > 0
       case 0x40 => Receiving(l, req)
       case 0x50 => Receiving(l, req)
       case _ => false
  }

  ghost predicate Sending(l: Link, req: Request) {
    && l.d.w <= |req.write|
    && (if l.d.sta then l.d.w == |req.write| && req.readLength > 0 && l.wire == Header(req) + AllSent(req.write)
        else l.d.w >= 1 && l.d.dat == req.write[l.d.w - 1] && l.wire == Header(req) + AllSent(req.write[..l.d.w - 1]))
  }

  ghost predicate Receiving(l: Link, req: Request) {
    && !l.d.sta && l.d.r < req.readLength == |l.d.read| && l.d.aa == (l.d.r + 1 < req.readLength)
    && l.wire == Turnaround(req) + AllReceived(l.d.read[..l.d.r], req.readLength - 1)
  }

  /** The transfer is over: `done` was signalled once and the bus is idle. */
  ghost predicate Completed(l: Link, req: Request) {
    && l.d.req == req && |l.d.read| == req.readLength && l.d.signals == 1 && !l.d.overrun && !l.d.sto && !Active(l)
    && (l.d.status == Ok ==> l.wire == GoodWire(req, l.d.read))
    && (l.d.status == Err ==> Refused(l.wire))
    && (l.d.overread <==> l.d.status == Err && |req.write| == 1 && AddressRefused(l.wire))
  }

  lemma SentSnoc(bytes: seq<int>, n: nat)
    requires n < |bytes|
    ensures AllSent(bytes[..n + 1]) == AllSent(bytes[..n]) + [Sent(bytes[n], true)]
  {
    assert bytes[..n + 1][..n] == bytes[..n];
  }

  lemma ReceivedSnoc(bytes: seq<int>, n: nat, byte: int, acked: nat)
    requires n < |bytes|
    ensures AllReceived(bytes[n := byte][..n + 1], acked) ==
              AllReceived(bytes[..n], acked) + [Received(byte, n + 1 <= acked)]
  {
    assert bytes[n := byte][..n + 1][..n] == bytes[..n];
  }

  /** The wire after one more byte is sent. */
  lemma SentWire(req: Request, w: nat, dat: int)
    requires 1 <= w <= |req.write| && dat == req.write[w - 1]
    ensures Header(req) + AllSent(req.write[..w - 1]) + [Sent(dat, true)] == Header(req) + AllSent(req.write[..w])
  {
    SentSnoc(req.write, w - 1);
    var before := AllSent(req.write[..w - 1]);
    assert Header(req) + before + [Sent(dat, true)] == Header(req) + (before + [Sent(dat, true)]);
  }

  lemma SendingStep(l: Link, req: Request, ack: bool, byte: int)
    requires Running(l, req) && (l.stat == 0x18 || l.stat == 0x28)
    ensures var m := Interrupt(l, ack, byte); Running(m, req) || Completed(m, req)
  {
    if !l.d.sta {
      SentWire(req, l.d.w, l.d.dat);
      assert req.write[..|req.write|] == req.write;
    }
  }

  /** The wire after one more received byte. */
  lemma ReceivedWire(l: Link, req: Request, byte: int)
    requires Receiving(l, req)
    ensures l.wire + [Received(byte, l.d.aa)] ==
            Turnaround(req) + AllReceived(l.d.read[l.d.r := byte][..l.d.r + 1], req.readLength - 1)
  {
    var before := AllReceived(l.d.read[..l.d.r], req.readLength - 1);
    ReceivedSnoc(l.d.read, l.d.r, byte, req.readLength - 1);
    assert Turnaround(req) + before + [Received(byte, l.d.aa)] == Turnaround(req) + (before + [Received(byte, l.d.aa)]);
  }

  lemma ReceivingStep(l: Link, req: Request, ack: bool, byte: int)
    requires Running(l, req) && (l.stat == 0x40 || l.stat == 0x50)
    ensures var m := Interrupt(l, ack, byte); Running(m, req) || Completed(m, req)
  {
    ReceivedWire(l, req, byte);
    var m, read := Interrupt(l, ack, byte), l.d.read[l.d.r := byte];
    assert m.d.read == read && m.d.r == l.d.r + 1;
    if l.d.aa {
      assert Receiving(m, req);
    } else {
      assert read[..l.d.r + 1] == read;
      assert m.wire == GoodWire(req, read);
    }
  }

  lemma AddressStep(l: Link, req: Request, ack: bool, byte: int)
    requires Running(l, req) && (l.stat == 0x00 || l.stat == 0x08 || l.stat == 0x10) && |req.write| >= 1
    ensures var m := Interrupt(l, ack, byte); Running(m, req) || Completed(m, req)
  {
    assert AllSent(req.write[..0]) == [];
    assert Header(req) + [] == Header(req);
    assert AllReceived(l.d.read[..0], req.readLength - (if req.readLength > 0 then 1 else 0)) == [];
    assert Header(req) + AllSent(req.write) + [RepeatedStart] + [Address(ReadAddress(req.addr), true)] ==
        Turnaround(req);
    assert Turnaround(req) + [] == Turnaround(req);
  }

  /** Every interrupt keeps the transfer on its protocol, and `done` is signalled
      by exactly the interrupt that completes it. */
  lemma ProtocolStep(l: Link, req: Request, ack: bool, byte: int)
    requires Running(l, req) && |req.write| >= 1
    ensures Active(l)
    ensures var m := Interrupt(l, ack, byte); Running(m, req) || Completed(m, req)
  {
    if l.stat == 0x18 || l.stat == 0x28 {
      SendingStep(l, req, ack, byte);
    } else if l.stat == 0x40 || l.stat == 0x50 {
      ReceivingStep(l, req, ack, byte);
    } else {
      AddressStep(l, req, ack, byte);
    }
  }

  /** Interrupts a running transfer can still take. */
  function Remaining(l: Link): nat {
    var d := l.d;
    var reading := 2 * d.req.readLength + 4;
    if l.stat == 0 then if d.sta then reading + |d.req.write| + 4 else 0
    else if l.stat == 0x08 then reading + |d.req.write| + 3
    else if l.stat == 0x18 || l.stat == 0x28 then
      if d.sta then reading + 1 else reading + 2 + if d.w <= |d.req.write| then |d.req.write| - d.w else 0
    else if l.stat == 0x10 then reading
    else if d.r <= d.req.readLength then d.req.readLength - d.r + 1 else 0
  }

  lemma InterruptsRunOut(l: Link, req: Request, ack: bool, byte: int)
    requires Running(l, req) && |req.write| >= 1
    ensures Remaining(Interrupt(l, ack, byte)) < Remaining(l)
  {
    ProtocolStep(l, req, ack, byte);
  }

  /** The slave's answers: whether it acknowledges, and the byte it sends. */
  datatype Answer = Answer(ack: bool, byte: int)

  function Transferred(l: Link, answers: seq<Answer>): Link
    decreases answers
  {
    if answers == [] || !Active(l) then l
    else Transferred(Interrupt(l, answers[0].ack, answers[0].byte), answers[1..])
  }

  /** A configured device just before the controller acts. */
  function Begun(req: Request, buffer: seq<int>): Link {
    Link(Device(req, 0, buffer, 0, Err, 0, false, false, 0, true, false, false), 0, [])
  }

  lemma {:induction false} TransferCompletes(l: Link, req: Request, answers: seq<Answer>)
    requires Running(l, req) && |req.write| >= 1 && |answers| >= Remaining(l)
    ensures Completed(Transferred(l, answers), req)
    decreases answers
  {
    var a := answers[0];
    ProtocolStep(l, req, a.ack, a.byte);
    InterruptsRunOut(l, req, a.ack, a.byte);
    var m := Interrupt(l, a.ack, a.byte);
    if Running(m, req) {
      TransferCompletes(m, req, answers[1..]);
    }
  }

  /** For every request that writes something and every behaviour of the slave,
      the transfer ends after finitely many interrupts with `done` signalled
      once, no transfer index out of range, the good wire if it reports success
      and a NACK otherwise; the write buffer is read past its end exactly when
      it has one byte and an address was refused. */
  lemma TransferProtocol(req: Request, buffer: seq<int>, answers: seq<Answer>)
    requires |req.write| >= 1 && |buffer| == req.readLength
    requires |answers| >= Remaining(Begun(req, buffer))
    ensures var l := Transferred(Begun(req, buffer), answers);
            Completed(l, req) && (l.d.status == Ok ==> PlainWire(l.wire, req, l.d.read))
  {
    TransferCompletes(Begun(req, buffer), req, answers);
    var l := Transferred(Begun(req, buffer), answers);
    GoodIsPlain(req, l.d.read);
  }

  /** Every transfer of one byte whose address is refused at once reads the byte
      behind its buffer. */
  lemma {:induction false} OneByteOverread(req: Request, buffer: seq<int>, answers: seq<Answer>)
    requires |req.write| == 1 && |buffer| == req.readLength
    requires |answers| >= 2 && !answers[1].ack
    ensures var l := Transferred(Begun(req, buffer), answers); !Active(l) && l.d.overread && l.d.status == Err
  {
    var l0 := Begun(req, buffer);
    var l1 := Interrupt(l0, answers[0].ack, answers[0].byte);
    var l2 := Interrupt(l1, answers[1].ack, answers[1].byte);
    assert Transferred(l0, answers) == Transferred(l1, answers[1..]) == Transferred(l2, answers[1..][1..]);
    assert !Active(l2);
  }

  /** The write must not be empty: with nothing to write, an acknowledged address
      ends in a STOP that nobody announces, and the caller waits for ever.
      `done` is signalled exactly when the address is refused, and then the log
      message reads two bytes that are not there. */
  lemma {:induction false} EmptyWriteHangs(req: Request, buffer: seq<int>, answers: seq<Answer>)
    requires req.write == [] && |answers| >= 2
    ensures var l := Transferred(Begun(req, buffer), answers);
            && !Active(l)
            && (l.d.signals == 1 <==> !answers[1].ack)
            && (answers[1].ack ==> l.d.signals == 0)
            && (l.d.overread <==> !answers[1].ack)
  {
    var l0 := Begun(req, buffer);
    var l1 := Interrupt(l0, answers[0].ack, answers[0].byte);
    var l2 := Interrupt(l1, answers[1].ack, answers[1].byte);
    assert Transferred(l0, answers) == Transferred(l1, answers[1..]) == Transferred(l2, answers[1..][1..]);
    assert !Active(l2);
  }
}
