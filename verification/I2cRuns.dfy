/** Any number of threads calling i2c_dev_transfer, interleaved with the
    interrupts of the transfer in progress. */
module I2cRuns {
  import opened Wrappers
  import opened Semaphores
  import opened I2cBus

  /** Where a thread is in i2c_dev_transfer. */
  datatype Pc =
    | Outside
    | WaitingForLock(req: Request, buffer: seq<int>)
    | Locked(req: Request, buffer: seq<int>)
    | Started(req: Request)
    | WaitingForDone(req: Request)
    | Woken(req: Request)

  datatype Transfer = Transfer(
    thread: nat,
    req: Request,
    status: Status,
    read: seq<int>,
    wire: seq<Signal>,
    overread: bool)

  /** `holder`, `finished` and `bus` are history: who owns the device, what was
      returned so far, and everything ever seen on the wire. */
  datatype System = System(lock: Semaphore, done: Semaphore, pcs: map<nat, Pc>, link: Link,
                           holder: Option<nat>, finished: seq<Transfer>, bus: seq<Signal>)

  datatype Event =
    | Call(t: nat, req: Request, buffer: seq<int>)
    | Configure(t: nat)
    | Await(t: nat)
    | Return(t: nat)
    | Irq(ack: bool, byte: int)

  /** Callers write at least one byte and provide the read buffer; the lock's
      value stays within its eight bits. */
  predicate Enabled(s: System, e: Event) {
    match e
    case Call(t, req, buffer) =>
      t in s.pcs && s.pcs[t].Outside? && |req.write| >= 1 && |buffer| == req.readLength && s.lock.value > -128
    case Configure(t) => t in s.pcs && s.pcs[t].Locked?
    case Await(t) => t in s.pcs && s.pcs[t].Started?
    case Return(t) => t in s.pcs && s.pcs[t].Woken?
    case Irq(_, _) => Active(s.link)
  }

  function AfterLock(pc: Pc): Pc {
    if pc.WaitingForLock? then Locked(pc.req, pc.buffer) else pc
  }

  function AfterDone(pc: Pc): Pc {
    if pc.WaitingForDone? then Woken(pc.req) else pc
  }

  function Step(s: System, e: Event): System
    requires Enabled(s, e)
  {
    match e
    case Call(t, req, buffer) =>
      if s.lock.Contended() then s.(lock := s.lock.Waited(t), pcs := s.pcs[t := WaitingForLock(req, buffer)])
      else s.(lock := s.lock.Waited(t), pcs := s.pcs[t := Locked(req, buffer)], holder := Some(t))
    case Configure(t) =>
      var pc := s.pcs[t];
      s.(pcs := s.pcs[t := Started(pc.req)],
         link := Link(s.link.d.(req := pc.req, read := pc.buffer, signals := 0, overread := false, sta := true),
                      s.link.stat, []))
    case Await(t) =>
      s.(done := s.done.Waited(t),
         pcs := s.pcs[t := if s.done.Contended() then WaitingForDone(s.pcs[t].req) else Woken(s.pcs[t].req)])
    case Return(t) =>
      var q := s.lock.queue;
      var pcs := s.pcs[t := Outside];
      s.(lock := s.lock.Signalled(),
         pcs := if q != [] && q[0] in pcs then pcs[q[0] := AfterLock(pcs[q[0]])] else pcs,
         holder := if q == [] then None else Some(q[0]),
         finished := s.finished + [Returned(t, s.pcs[t].req, s.link)],
         link := s.link.(wire := []))
    case Irq(ack, byte) => Applied(s, Interrupt(s.link, ack, byte))
  }

  function Returned(t: nat, req: Request, link: Link): Transfer {
    Transfer(t, req, link.d.status, link.d.read, link.wire, link.d.overread)
  }

  /** The transfer moves on to `m`; if that signalled `done`, a thread waiting
      there is woken. */
  function Applied(s: System, m: Link): System {
    var q := s.done.queue;
    var bus := s.bus + if |s.link.wire| <= |m.wire| then m.wire[|s.link.wire|..] else [];
    if m.d.signals == s.link.d.signals then s.(link := m, bus := bus)
    else s.(link := m, bus := bus, done := s.done.Signalled(),
            pcs := if q != [] && q[0] in s.pcs then s.pcs[q[0] := AfterDone(s.pcs[q[0]])] else s.pcs)
  }

  // ----- the invariant

  predicate Inside(pc: Pc) {
    pc.Locked? || pc.Started? || pc.WaitingForDone? || pc.Woken?
  }

  /** The lock is free, or its holder is the only thread inside and the others
      queue. */
  ghost predicate LockOk(s: System) {
    && (forall t :: t in s.pcs ==> (Inside(s.pcs[t]) <==> s.holder == Some(t)))
    && (s.holder.Some? ==> s.holder.value in s.pcs)
    && -128 <= s.lock.value && s.lock.value == (if s.holder.None? then 1 else -|s.lock.queue|)
    && (s.holder.None? ==> s.lock.queue == [])
    && (forall i, j :: 0 <= i < j < |s.lock.queue| ==> s.lock.queue[i] != s.lock.queue[j])
    && (forall t :: t in s.lock.queue <==> t in s.pcs && s.pcs[t].WaitingForLock?)
  }

  ghost predicate RequestOk(pc: Pc) {
    && (!pc.Outside? ==> |pc.req.write| >= 1)
    && (pc.WaitingForLock? || pc.Locked? ==> |pc.buffer| == pc.req.readLength)
  }

  ghost predicate Quiet(l: Link) {
    !Active(l) && !l.d.overrun && !l.d.sto
  }

  /** The device and `done`, by where the holder is. */
  ghost predicate DeviceOk(s: System) {
    if s.holder.None? || s.holder.value !in s.pcs then s.done == Semaphore(0, []) && Quiet(s.link) && s.link.wire == []
    else
      match s.pcs[s.holder.value]
      case Locked(_, _) => s.done == Semaphore(0, []) && Quiet(s.link) && s.link.wire == []
      case Started(req) =>
        || (s.done == Semaphore(0, []) && Running(s.link, req))
        || (s.done == Semaphore(1, []) && Completed(s.link, req))
      case WaitingForDone(req) => s.done == Semaphore(-1, [s.holder.value]) && Running(s.link, req)
      case Woken(req) => s.done == Semaphore(0, []) && Completed(s.link, req)
      case _ => false
  }

  /** A returned transfer: success means the whole good wire, failure a NACK. */
  ghost predicate TransferOk(x: Transfer) {
    && |x.read| == x.req.readLength
    && (x.status == Ok ==> x.wire == GoodWire(x.req, x.read))
    && (x.status == Err ==> Refused(x.wire))
    && (x.overread <==> x.status == Err && |x.req.write| == 1 && AddressRefused(x.wire))
  }

  /** A transfer that succeeded shows every signal in its place. */
  ghost predicate TransferPlain(x: Transfer) {
    x.status == Ok ==> PlainWire(x.wire, x.req, x.read)
  }

  function Wires(ts: seq<Transfer>): seq<Signal> {
    if ts == [] then [] else Wires(ts[..|ts| - 1]) + ts[|ts| - 1].wire
  }

  /** The bus shows the transfers one after the other and nothing else. */
  ghost predicate BusOk(s: System) {
    && (forall i :: 0 <= i < |s.finished| ==> TransferOk(s.finished[i]))
    && s.bus == Wires(s.finished) + s.link.wire
  }

  ghost predicate Inv(s: System) {
    LockOk(s) && DeviceOk(s) && BusOk(s) && forall t :: t in s.pcs ==> RequestOk(s.pcs[t])
  }

  lemma CallLock(s: System, t: nat, req: Request, buffer: seq<int>)
    requires LockOk(s) && Enabled(s, Call(t, req, buffer))
    ensures LockOk(Step(s, Call(t, req, buffer)))
  {
    assert t !in s.lock.queue;
    assert s.lock.Contended() <==> s.holder.Some?;
  }

  lemma CallKeeps(s: System, t: nat, req: Request, buffer: seq<int>)
    requires Inv(s) && Enabled(s, Call(t, req, buffer))
    ensures Inv(Step(s, Call(t, req, buffer)))
  {
    CallLock(s, t, req, buffer);
    assert s.holder != Some(t);
  }

  lemma ConfigureKeeps(s: System, t: nat)
    requires Inv(s) && Enabled(s, Configure(t))
    ensures Inv(Step(s, Configure(t)))
  {
    assert RequestOk(s.pcs[t]);
  }

  lemma AwaitKeeps(s: System, t: nat)
    requires Inv(s) && Enabled(s, Await(t))
    ensures Inv(Step(s, Await(t)))
  {
    AwaitLock(s, t);
    assert RequestOk(s.pcs[t]);
  }

  lemma AwaitLock(s: System, t: nat)
    requires Inv(s) && Enabled(s, Await(t))
    ensures LockOk(Step(s, Await(t))) && BusOk(Step(s, Await(t)))
  {
  }

  /** Nobody waits: the lock is free again. */
  lemma ReturnFree(s: System, t: nat)
    requires LockOk(s) && Enabled(s, Return(t)) && s.lock.queue == []
    ensures LockOk(Step(s, Return(t)))
  {
    assert s.holder == Some(t);
  }

  /** The first in line holds it next. */
  lemma ReturnNext(s: System, t: nat)
    requires LockOk(s) && Enabled(s, Return(t)) && s.lock.queue != []
    ensures LockOk(Step(s, Return(t)))
  {
    var q := s.lock.queue;
    assert s.holder == Some(t) && t !in q && q[0] in q;
    assert forall x :: x in q <==> x == q[0] || x in q[1..];
    assert q[0] !in q[1..];
  }

  lemma ReturnLock(s: System, t: nat)
    requires Inv(s) && Enabled(s, Return(t))
    ensures LockOk(Step(s, Return(t)))
  {
    if s.lock.queue == [] {
      ReturnFree(s, t);
    } else {
      ReturnNext(s, t);
    }
  }

  lemma ReturnKeeps(s: System, t: nat)
    requires Inv(s) && Enabled(s, Return(t))
    ensures Inv(Step(s, Return(t)))
  {
    var m, q := Step(s, Return(t)), s.lock.queue;
    ReturnLock(s, t);
    assert s.holder == Some(t);
    assert q != [] ==> q[0] in q && RequestOk(s.pcs[q[0]]);
    assert m.finished[..|s.finished|] == s.finished;
    assert Wires(m.finished) + [] == Wires(s.finished) + s.link.wire;
  }

  lemma WireGrows(l: Link, ack: bool, byte: int)
    ensures l.wire <= Interrupt(l, ack, byte).wire
  {
  }

  /** The bus is active only for a transfer that runs. */
  lemma ActiveRuns(s: System) returns (t: nat, req: Request)
    requires LockOk(s) && DeviceOk(s) && Active(s.link)
    ensures s.holder == Some(t) && t in s.pcs && (s.pcs[t] == Started(req) || s.pcs[t] == WaitingForDone(req))
    ensures Running(s.link, req) && s.done == if s.pcs[t].Started? then Semaphore(0, []) else Semaphore(-1, [t])
  {
    t := s.holder.value;
    req := s.pcs[t].req;
  }

  lemma AppliedDevice(s: System, m: Link, t: nat, req: Request)
    requires LockOk(s) && s.holder == Some(t) && (s.pcs[t] == Started(req) || s.pcs[t] == WaitingForDone(req))
    requires Running(s.link, req) && s.done == if s.pcs[t].Started? then Semaphore(0, []) else Semaphore(-1, [t])
    requires Running(m, req) || Completed(m, req)
    ensures LockOk(Applied(s, m)) && DeviceOk(Applied(s, m))
  {
    assert Running(m, req) ==> m.d.signals == 0;
    assert Completed(m, req) ==> m.d.signals == 1;
  }

  lemma AppliedBus(s: System, m: Link)
    requires BusOk(s) && s.link.wire <= m.wire
    ensures BusOk(Applied(s, m))
  {
    assert s.bus + m.wire[|s.link.wire|..] == Wires(s.finished) + m.wire;
  }

  lemma IrqKeeps(s: System, ack: bool, byte: int)
    requires Inv(s) && Enabled(s, Irq(ack, byte))
    ensures Inv(Step(s, Irq(ack, byte)))
  {
    var t, req := ActiveRuns(s);
    assert RequestOk(s.pcs[t]);
    ProtocolStep(s.link, req, ack, byte);
    WireGrows(s.link, ack, byte);
    IrqApplied(s, Interrupt(s.link, ack, byte), t, req);
  }

  lemma IrqApplied(s: System, m: Link, t: nat, req: Request)
    requires Inv(s) && s.holder == Some(t) && (s.pcs[t] == Started(req) || s.pcs[t] == WaitingForDone(req))
    requires Running(s.link, req) && s.done == if s.pcs[t].Started? then Semaphore(0, []) else Semaphore(-1, [t])
    requires (Running(m, req) || Completed(m, req)) && s.link.wire <= m.wire
    ensures Inv(Applied(s, m))
  {
    AppliedDevice(s, m, t, req);
    AppliedBus(s, m);
  }

  lemma StepKeeps(s: System, e: Event)
    requires Inv(s) && Enabled(s, e)
    ensures Inv(Step(s, e))
  {
    match e
    case Call(t, req, buffer) => CallKeeps(s, t, req, buffer);
    case Configure(t) => ConfigureKeeps(s, t);
    case Await(t) => AwaitKeeps(s, t);
    case Return(t) => ReturnKeeps(s, t);
    case Irq(ack, byte) => IrqKeeps(s, ack, byte);
  }

  // ----- whole runs

  ghost function Advanced(s: System, e: Event): (r: System)
    requires Inv(s) && Enabled(s, e)
    ensures Inv(r)
  {
    StepKeeps(s, e);
    Step(s, e)
  }

  ghost predicate Path(s: System, events: seq<Event>)
    requires Inv(s)
    decreases events
  {
    events == [] || (Enabled(s, events[0]) && Path(Advanced(s, events[0]), events[1..]))
  }

  ghost function Final(s: System, events: seq<Event>): (r: System)
    requires Inv(s) && Path(s, events)
    decreases events
  {
    if events == [] then s else Final(Advanced(s, events[0]), events[1..])
  }

  lemma {:induction false} FinalKeeps(s: System, events: seq<Event>)
    requires Inv(s) && Path(s, events)
    ensures Inv(Final(s, events))
    decreases events
  {
    if events != [] {
      FinalKeeps(Advanced(s, events[0]), events[1..]);
    }
  }

  /** i2c_dev_create: the lock is free and the bus idle. */
  ghost function Created(threads: set<nat>): (s: System)
    ensures Inv(s)
  {
    var idle := Device(Request(0, [], 0), 0, [], 0, Ok, 0, false, false, 0, false, false, false);
    System(Semaphore(1, []), Semaphore(0, []), map t | t in threads :: Outside, Link(idle, 0, []), None, [], [])
  }

  /** For any callers and any interleaving: at most one thread is between taking
      and releasing the lock, every returned transfer kept the protocol, and
      the wire is exactly those transfers one after the other followed by the
      one in progress, so no two ever overlap. */
  lemma TransfersNeverOverlap(threads: set<nat>, events: seq<Event>)
    requires Path(Created(threads), events)
    ensures var s := Final(Created(threads), events);
            && (forall t, u :: t in s.pcs && u in s.pcs && Inside(s.pcs[t]) && Inside(s.pcs[u]) ==> t == u)
            && (forall i :: 0 <= i < |s.finished| ==> TransferOk(s.finished[i]) && TransferPlain(s.finished[i]))
            && s.bus == Wires(s.finished) + s.link.wire
  {
    FinalKeeps(Created(threads), events);
    var s := Final(Created(threads), events);
    forall i | 0 <= i < |s.finished|
      ensures TransferPlain(s.finished[i])
    {
      assert TransferOk(s.finished[i]);
      GoodIsPlain(s.finished[i].req, s.finished[i].read);
    }
  }
}
