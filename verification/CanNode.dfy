/** The 29-bit frame identifiers of lib/can_node/can_node.c: topic, sender and
    receiver in one word. */
module CanIds {

  function Build(from: bv32, to: bv32, topic: bv32): bv32 {
    ((topic & 0x1FF) << 20) | ((from & 0x3FF) << 10) | (to & 0x3FF)
  }

  function To(id: bv32): bv32 {
    id & 0x3FF
  }

  function From(id: bv32): bv32 {
    (id >> 10) & 0x3FF
  }

  function Topic(id: bv32): bv32 {
    (id >> 20) & 0x1FF
  }

  /** can_node_valid_id, on 16-bit node ids. */
  predicate ValidNode(id: bv32) {
    id <= 0xFFFF && id & 0xFC00 == 0
  }

  /** An identifier needs at most 29 bits and gives its parts back: nine bits of
      the topic and ten of each node id. */
  lemma IdRoundTrip(from: bv32, to: bv32, topic: bv32)
    ensures var id := Build(from, to, topic);
            From(id) == from & 0x3FF && To(id) == to & 0x3FF && Topic(id) == topic & 0x1FF && id < 0x2000_0000
    ensures from <= 0xFFFF ==> (From(Build(from, to, topic)) == from <==> ValidNode(from))
    ensures to <= 0xFFFF ==> (To(Build(from, to, topic)) == to <==> ValidNode(to))
  {
  }

  /** Where the parts stand: the receiver lowest, then the sender, then the topic. */
  lemma IdLayout(from: bv32, to: bv32, topic: bv32)
    ensures Build(from, to, topic) & 0x3FF == to & 0x3FF
    ensures (Build(from, to, topic) >> 10) & 0x3FF == from & 0x3FF
    ensures Build(from, to, topic) >> 20 == topic & 0x1FF
  {
  }

  lemma IdRebuilt(id: bv32)
    requires id < 0x2000_0000
    ensures Build(From(id), To(id), Topic(id)) == id
    ensures ValidNode(From(id)) && ValidNode(To(id)) && Topic(id) <= 0x1FF
  {
  }
}

/** lib/can_node/can_node.c: interrupt callbacks post requests and tokens, one
    worker thread drains them.  Every callback is one step; the worker is cut
    at each access to state that callbacks share. */
module CanNodes {
  import opened Semaphores

  const WORKER: nat := 0

  datatype SourceConfig = SourceConfig(node: int, kind: int, idx: int, off: int, on: int)

  /** A received frame: sender and receiver from its id, and eight data bytes. */
  datatype Frame = Frame(from: int, to: int, length: int, data: seq<int>)

  datatype Reqs = Reqs(sensors: bool, output: bool, response: bool, save: bool)

  const NONE := Reqs(false, false, false, false)

  datatype Output = Output(state: bool, manualState: bool, manual: bool, srcs: seq<bool>)

  /** What the output should show: the commanded state, or the OR of its
      sources. */
  ghost function Target(o: Output): bool {
    if o.manual then o.manualState else AnyOn(o.srcs)
  }

  ghost predicate AnyOn(srcs: seq<bool>) {
    exists j :: 0 <= j < |srcs| && srcs[j]
  }

  /** Where the worker is; `r` is the request word it fetched. */
  datatype Pc =
    | AtWait
    | InWait
    | AtFetch
    | Publishing(r: Reqs)
    | Choosing(r: Reqs, i: nat)
    | ReadingManual(r: Reqs, i: nat)
    | Scanning(r: Reqs, i: nat, j: nat)
    | Writing(r: Reqs, i: nat, state: bool)
    | Replying(r: Reqs, i: nat, state: bool)
    | Saving(r: Reqs)

  datatype Reply = Reply(i: nat, state: bool, manual: bool)

  /** `tokens` is the number of posts not yet waited for, of which the
      semaphore keeps eight bits; `saved` are the modes in the EEPROM. */
  datatype Node = Node(
    reqs: Reqs,
    sem: Semaphore,
    tokens: int,
    pc: Pc,
    outputs: seq<Output>,
    saved: seq<bool>,
    replies: seq<Reply>)

  function Modes(outputs: seq<Output>): (m: seq<bool>)
    ensures |m| == |outputs|
  {
    seq(|outputs|, i requires 0 <= i < |outputs| => outputs[i].manual)
  }

  // ----- callbacks

  /** semaphore_signal on the node's semaphore: the worker leaves the queue. */
  function Posted(n: Node): Node {
    n.(sem := n.sem.Signalled(), tokens := n.tokens + 1, pc := if n.sem.queue == [] then n.pc else AtFetch)
  }

  function TimerPost(n: Node): Node {
    Posted(n.(reqs := n.reqs.(sensors := true)))
  }

  function Signed32(b3: int, b2: int, b1: int, b0: int): int {
    var u := b3 * 0x100_0000 + b2 * 0x1_0000 + b1 * 0x100 + b0;
    if u < 0x8000_0000 then u else u - 0x1_0000_0000
  }

  function FindInRow(row: seq<SourceConfig>, from: int): (j: nat)
    ensures j <= |row| && (j < |row| ==> row[j].node == from)
    ensures forall k :: 0 <= k < j ==> row[k].node != from
  {
    if row == [] || row[0].node == from then 0 else 1 + FindInRow(row[1..], from)
  }

  /** The first output that has the sender among its sources. */
  function FindRow(rows: seq<seq<SourceConfig>>, from: int): (i: nat)
    ensures i <= |rows| && (i < |rows| ==> FindInRow(rows[i], from) < |rows[i]|)
    ensures forall k :: 0 <= k < i ==> FindInRow(rows[k], from) == |rows[k]|
  {
    if rows == [] || FindInRow(rows[0], from) < |rows[0]| then 0 else 1 + FindRow(rows[1..], from)
  }

  ghost predicate Shaped(outputs: seq<Output>, rows: seq<seq<SourceConfig>>) {
    |outputs| == |rows| && forall i :: 0 <= i < |rows| ==> |outputs[i].srcs| == |rows[i]|
  }

  function Switched(o: Output, j: nat, on: bool): Output
    requires j < |o.srcs|
  {
    o.(srcs := o.srcs[j := on])
  }

  /** One source with hysteresis: off below the low mark, on above the high. */
  function SourceUpdate(n: Node, conf: SourceConfig, i: nat, j: nat, frame: Frame): Node
    requires i < |n.outputs| && j < |n.outputs[i].srcs| && |frame.data| == 8
  {
    var d := frame.data;
    var value := Signed32(d[2], d[3], d[4], d[5]);
    var on := n.outputs[i].srcs[j];
    if d[0] != conf.kind || d[1] != conf.idx then n
    else if (on && value < conf.off) || (!on && value > conf.on) then
      Posted(n.(outputs := n.outputs[i := Switched(n.outputs[i], j, !on)], reqs := n.reqs.(output := true)))
    else n
  }

  function SensorFrame(n: Node, rows: seq<seq<SourceConfig>>, frame: Frame): Node
    requires Shaped(n.outputs, rows) && |frame.data| == 8
  {
    var i := FindRow(rows, frame.from);
    if i == |rows| || frame.length < 6 then n
    else
      var j := FindInRow(rows[i], frame.from);
      SourceUpdate(n, rows[i][j], i, j, frame)
  }

  predicate Bit(x: int, k: nat) {
    if k == 0 then x % 2 == 1 else x / 2 % 2 == 1
  }

  function Commanded(o: Output, d: int): Output {
    if Bit(d, 1) then o.(manual := true, manualState := Bit(d, 0)) else o.(manual := false)
  }

  function OutputFrame(n: Node, id: int, frame: Frame): Node
    requires |frame.data| == 8
  {
    var k := frame.data[0];
    if frame.to != id || frame.length != 2 || k < 0 || k >= |n.outputs| then n
    else
      var o := Commanded(n.outputs[k], frame.data[1]);
      var save := n.reqs.save || o.manual != n.outputs[k].manual;
      Posted(n.(outputs := n.outputs[k := o], reqs := n.reqs.(output := true, response := true, save := save)))
  }

  // ----- the worker

  function WorkerStep(n: Node): Node
    requires !n.pc.InWait?
  {
    match n.pc
    case AtWait =>
      n.(sem := n.sem.Waited(WORKER), tokens := n.tokens - 1, pc := if n.sem.Contended() then InWait else AtFetch)
    case InWait => n
    case AtFetch => n.(pc := Publishing(n.reqs), reqs := NONE)
    case Publishing(r) => n.(pc := if r.output || r.response then Choosing(r, 0) else Saving(r))
    case Choosing(r, i) =>
      if i >= |n.outputs| then n.(pc := Saving(r))
      else n.(pc := if n.outputs[i].manual then ReadingManual(r, i) else Scanning(r, i, 0))
    case ReadingManual(r, i) =>
      n.(pc := Writing(r, i, i < |n.outputs| && n.outputs[i].manualState))
    case Scanning(r, i, j) =>
      if i >= |n.outputs| || j >= |n.outputs[i].srcs| then n.(pc := Writing(r, i, false))
      else n.(pc := if n.outputs[i].srcs[j] then Writing(r, i, true) else Scanning(r, i, j + 1))
    case Writing(r, i, state) =>
      n.(outputs := if i < |n.outputs| then n.outputs[i := n.outputs[i].(state := state)] else n.outputs,
         pc := Replying(r, i, state))
    case Replying(r, i, state) =>
      n.(replies := n.replies +
                    if r.response && i < |n.outputs| then [Reply(i, state, n.outputs[i].manual)] else [],
         pc := Choosing(r, i + 1))
    case Saving(r) => n.(saved := if r.save then Modes(n.outputs) else n.saved, pc := AtWait)
  }

  datatype Event = Worker | Timer | Sensor(frame: Frame) | Command(frame: Frame)

  /** At most 128 posts may be outstanding. */
  predicate Enabled(n: Node, e: Event) {
    match e
    case Worker => !n.pc.InWait?
    case Timer => n.tokens < 128
    case Sensor(frame) => n.tokens < 128 && |frame.data| == 8
    case Command(frame) => n.tokens < 128 && |frame.data| == 8
  }

  function Step(n: Node, rows: seq<seq<SourceConfig>>, id: int, e: Event): Node
    requires Shaped(n.outputs, rows) && Enabled(n, e)
  {
    match e
    case Worker => WorkerStep(n)
    case Timer => TimerPost(n)
    case Sensor(frame) => SensorFrame(n, rows, frame)
    case Command(frame) => OutputFrame(n, id, frame)
  }

  // ----- the invariant

  predicate Carries(pc: Pc) {
    pc.Publishing? || pc.Choosing? || pc.ReadingManual? || pc.Scanning? || pc.Writing? || pc.Replying? || pc.Saving?
  }

  predicate AsksOutputs(r: Reqs) {
    r.output || r.response
  }

  /** The semaphore, its tokens and the worker agree, and a request that nobody
      has fetched has a token or a worker on its way. */
  ghost predicate TokensOk(n: Node) {
    && -1 <= n.tokens <= 128 && n.sem.value == Int8(n.tokens)
    && n.sem.queue == (if n.pc.InWait? then [WORKER] else [])
    && (n.pc.InWait? <==> n.tokens == -1)
    && (n.reqs != NONE ==> n.tokens >= 1 || n.pc.AtFetch?)
  }

  ghost predicate NoneOn(srcs: seq<bool>, j: nat) {
    forall m :: 0 <= m < j && m < |srcs| ==> !srcs[m]
  }

  /** The worker's pass will still bring output `i` up to date. */
  ghost predicate WillServe(n: Node, i: nat) {
    match n.pc
    case Publishing(r) => AsksOutputs(r)
    case Choosing(r, k) => k <= i
    case ReadingManual(r, k) => k <= i
    case Scanning(r, k, j) => k <= i
    case Writing(r, k, state) => k <= i
    case Replying(r, k, state) => k < i
    case _ => false
  }

  /** What the worker has read so far still holds, or a new request says it does
      not. */
  ghost predicate ReadsOk(n: Node) {
    match n.pc
    case Choosing(r, k) => k <= |n.outputs|
    case ReadingManual(r, k) => k < |n.outputs| && (AsksOutputs(n.reqs) || n.outputs[k].manual)
    case Scanning(r, k, j) =>
      k < |n.outputs| && (AsksOutputs(n.reqs) || (!n.outputs[k].manual && NoneOn(n.outputs[k].srcs, j)))
    case Writing(r, k, state) =>
      k < |n.outputs| && (AsksOutputs(n.reqs) || state == Target(n.outputs[k]))
    case Replying(r, k, state) => k < |n.outputs|
    case _ => true
  }

  ghost predicate OutputsOk(n: Node) {
    forall i :: 0 <= i < |n.outputs| ==>
      n.outputs[i].state == Target(n.outputs[i]) || AsksOutputs(n.reqs) || WillServe(n, i)
  }

  ghost predicate SavedOk(n: Node) {
    n.saved == Modes(n.outputs) || n.reqs.save || (Carries(n.pc) && n.pc.r.save)
  }

  ghost predicate Inv(n: Node, rows: seq<seq<SourceConfig>>) {
    Shaped(n.outputs, rows) && TokensOk(n) && ReadsOk(n) && OutputsOk(n) && SavedOk(n)
  }

  /** A post keeps the tokens right, whatever request came with it. */
  lemma PostTokens(n: Node, reqs: Reqs, outputs: seq<Output>)
    requires TokensOk(n) && n.tokens < 128
    ensures TokensOk(Posted(n.(reqs := reqs, outputs := outputs)))
  {
  }

  lemma TimerKeeps(n: Node, rows: seq<seq<SourceConfig>>)
    requires Inv(n, rows) && n.tokens < 128
    ensures Inv(TimerPost(n), rows)
  {
    var m := TimerPost(n);
    PostTokens(n, n.reqs.(sensors := true), n.outputs);
    forall i | 0 <= i < |m.outputs|
      ensures m.outputs[i].state == Target(m.outputs[i]) || AsksOutputs(m.reqs) || WillServe(m, i)
    {
      assert n.outputs[i].state == Target(n.outputs[i]) || AsksOutputs(n.reqs) || WillServe(n, i);
    }
  }

  lemma SensorKeeps(n: Node, rows: seq<seq<SourceConfig>>, frame: Frame)
    requires Inv(n, rows) && n.tokens < 128 && |frame.data| == 8
    ensures Inv(SensorFrame(n, rows, frame), rows)
  {
    var m := SensorFrame(n, rows, frame);
    if m != n {
      PostTokens(n, n.reqs.(output := true), m.outputs);
      assert Modes(m.outputs) == Modes(n.outputs);
    }
  }

  lemma CommandKeeps(n: Node, rows: seq<seq<SourceConfig>>, id: int, frame: Frame)
    requires Inv(n, rows) && n.tokens < 128 && |frame.data| == 8
    ensures Inv(OutputFrame(n, id, frame), rows)
  {
    var m := OutputFrame(n, id, frame);
    if m != n {
      PostTokens(n, m.reqs, m.outputs);
      assert m.reqs.save || Modes(m.outputs) == Modes(n.outputs);
    }
  }

  lemma WorkerTokens(n: Node)
    requires TokensOk(n) && !n.pc.InWait?
    ensures TokensOk(WorkerStep(n))
  {
  }

  lemma WorkerReads(n: Node)
    requires ReadsOk(n) && !n.pc.InWait?
    ensures ReadsOk(WorkerStep(n))
  {
    if n.pc.Scanning? {
      var o, j := n.outputs[n.pc.i], n.pc.j;
      assert j >= |o.srcs| && NoneOn(o.srcs, j) ==> !AnyOn(o.srcs);
      assert j < |o.srcs| && o.srcs[j] ==> AnyOn(o.srcs);
    }
  }

  lemma WorkerOutputs(n: Node)
    requires ReadsOk(n) && OutputsOk(n) && !n.pc.InWait?
    ensures OutputsOk(WorkerStep(n))
  {
    var m := WorkerStep(n);
    forall i | 0 <= i < |m.outputs|
      ensures m.outputs[i].state == Target(m.outputs[i]) || AsksOutputs(m.reqs) || WillServe(m, i)
    {
      assert n.outputs[i].state == Target(n.outputs[i]) || AsksOutputs(n.reqs) || WillServe(n, i);
    }
  }

  lemma WorkerKeeps(n: Node, rows: seq<seq<SourceConfig>>)
    requires Inv(n, rows) && !n.pc.InWait?
    ensures Inv(WorkerStep(n), rows)
  {
    WorkerTokens(n);
    WorkerReads(n);
    WorkerOutputs(n);
    assert Modes(WorkerStep(n).outputs) == Modes(n.outputs);
  }

  lemma StepKeeps(n: Node, rows: seq<seq<SourceConfig>>, id: int, e: Event)
    requires Inv(n, rows) && Enabled(n, e)
    ensures Inv(Step(n, rows, id, e), rows)
  {
    match e
    case Worker => WorkerKeeps(n, rows);
    case Timer => TimerKeeps(n, rows);
    case Sensor(frame) => SensorKeeps(n, rows, frame);
    case Command(frame) => CommandKeeps(n, rows, id, frame);
  }

  // ----- whole runs

  /** Power-on: nothing requested, every output and source off. */
  ghost function Start(rows: seq<seq<SourceConfig>>, modes: seq<bool>): (n: Node)
    requires |modes| == |rows|
    ensures Inv(n, rows)
  {
    var outputs := seq(|rows|, i requires 0 <= i < |rows| => Output(false, false, modes[i],
        seq(|rows[i]|, _ => false)));
    assert Modes(outputs) == modes;
    Node(NONE, Semaphore(0, []), 0, AtWait, outputs, modes, [])
  }

  ghost predicate Path(n: Node, rows: seq<seq<SourceConfig>>, id: int, events: seq<Event>)
    requires Inv(n, rows)
    decreases events
  {
    events == [] ||
    (Enabled(n, events[0]) && Path(Advanced(n, rows, id, events[0]), rows, id, events[1..]))
  }

  ghost function Advanced(n: Node, rows: seq<seq<SourceConfig>>, id: int, e: Event): (m: Node)
    requires Inv(n, rows) && Enabled(n, e)
    ensures Inv(m, rows)
  {
    StepKeeps(n, rows, id, e);
    Step(n, rows, id, e)
  }

  ghost function Final(n: Node, rows: seq<seq<SourceConfig>>, id: int, events: seq<Event>): (m: Node)
    requires Inv(n, rows) && Path(n, rows, id, events)
    decreases events
  {
    if events == [] then n else Final(Advanced(n, rows, id, events[0]), rows, id, events[1..])
  }

  lemma {:induction false} FinalKeeps(n: Node, rows: seq<seq<SourceConfig>>, id: int, events: seq<Event>)
    requires Inv(n, rows) && Path(n, rows, id, events)
    ensures Inv(Final(n, rows, id, events), rows)
    decreases events
  {
    if events != [] {
      FinalKeeps(Advanced(n, rows, id, events[0]), rows, id, events[1..]);
    }
  }

  /** What holds while the worker sits in semaphore_wait. */
  ghost predicate Quiescent(n: Node) {
    && n.reqs == NONE
    && (forall i :: 0 <= i < |n.outputs| ==> n.outputs[i].state == Target(n.outputs[i]))
    && n.saved == Modes(n.outputs)
  }

  lemma InWaitQuiescent(n: Node, rows: seq<seq<SourceConfig>>)
    requires Inv(n, rows) && n.pc.InWait?
    ensures Quiescent(n)
  {
  }

  /** Under every interleaving of callbacks with the worker: whenever the worker
      is blocked, no request is left over, every output shows its target and
      the EEPROM holds the current modes. */
  lemma QuiescentConsistency(rows: seq<seq<SourceConfig>>, modes: seq<bool>, id: int, events: seq<Event>)
    requires |modes| == |rows| && Path(Start(rows, modes), rows, id, events)
    ensures var n := Final(Start(rows, modes), rows, id, events);
            n.pc.InWait? ==> Quiescent(n)
  {
    var n := Final(Start(rows, modes), rows, id, events);
    FinalKeeps(Start(rows, modes), rows, id, events);
    if n.pc.InWait? {
      InWaitQuiescent(n, rows);
    }
  }

  function Stage(pc: Pc): nat {
    match pc
    case InWait => 0
    case AtWait => 1
    case Saving(_) => 2
    case Choosing(_, _) => 3
    case ReadingManual(_, _) => 3
    case Scanning(_, _, _) => 3
    case Writing(_, _, _) => 3
    case Replying(_, _, _) => 3
    case Publishing(_) => 4
    case AtFetch => 5
  }

  function Index(pc: Pc): nat {
    if pc.Choosing? || pc.ReadingManual? || pc.Scanning? || pc.Writing? || pc.Replying? then pc.i else 0
  }

  function Phase(pc: Pc): nat {
    if pc.Choosing? then 3 else if pc.ReadingManual? || pc.Scanning? then 2 else if pc.Writing? then 1 else 0
  }

  function Left(n: Node): nat {
    if n.pc.Scanning? && n.pc.i < |n.outputs| &&
        n.pc.j < |n.outputs[n.pc.i].srcs| then |n.outputs[n.pc.i].srcs| - n.pc.j else 0
  }

  function OutputsLeft(n: Node): nat {
    if Index(n.pc) <= |n.outputs| then |n.outputs| - Index(n.pc) else 0
  }

  /** Left alone, the worker comes to rest, and then everything is consistent. */
  lemma {:induction false} Settles(n: Node, rows: seq<seq<SourceConfig>>, id: int) returns (events: seq<Event>)
    requires Inv(n, rows)
    ensures forall i :: 0 <= i < |events| ==> events[i] == Worker
    ensures Path(n, rows, id, events) && Final(n, rows, id, events).pc.InWait?
    ensures Quiescent(Final(n, rows, id, events))
    decreases n.tokens + 1, Stage(n.pc), OutputsLeft(n), Phase(n.pc), Left(n)
  {
    if n.pc.InWait? {
      InWaitQuiescent(n, rows);
      return [];
    }
    var rest := Settles(Advanced(n, rows, id, Worker), rows, id);
    events := WorkerFirst(n, rows, id, rest);
  }

  lemma WorkerFirst(n: Node, rows: seq<seq<SourceConfig>>, id: int, rest: seq<Event>) returns (events: seq<Event>)
    requires Inv(n, rows) && !n.pc.InWait? && Path(Advanced(n, rows, id, Worker), rows, id, rest)
    ensures events == [Worker] + rest && Path(n, rows, id, events)
    ensures Final(n, rows, id, events) == Final(Advanced(n, rows, id, Worker), rows, id, rest)
  {
    events := [Worker] + rest;
    assert events[1..] == rest;
  }

  // ----- sources that share a sender

  /** No other source configured for the same sender comes before this one. */
  ghost predicate IsFirst(rows: seq<seq<SourceConfig>>, i: nat, j: nat)
    requires i < |rows| && j < |rows[i]|
  {
    FindRow(rows, rows[i][j].node) == i && FindInRow(rows[i], rows[i][j].node) == j
  }

  /** The worker and the commands touch no source. */
  lemma WorkerSources(n: Node, i: nat)
    requires !n.pc.InWait? && i < |n.outputs|
    ensures |WorkerStep(n).outputs| == |n.outputs| && WorkerStep(n).outputs[i].srcs == n.outputs[i].srcs
  {
  }

  lemma CommandSources(n: Node, id: int, frame: Frame, i: nat)
    requires |frame.data| == 8 && i < |n.outputs|
    ensures |OutputFrame(n, id, frame).outputs| == |n.outputs|
    ensures OutputFrame(n, id, frame).outputs[i].srcs == n.outputs[i].srcs
  {
  }

  /** A frame touches at most the first source of its sender. */
  lemma FrameSources(n: Node, rows: seq<seq<SourceConfig>>, frame: Frame, i: nat, j: nat)
    requires Shaped(n.outputs, rows) && |frame.data| == 8 && i < |rows| && j < |rows[i]| && !IsFirst(rows, i, j)
    ensures Shaped(SensorFrame(n, rows, frame).outputs, rows)
    ensures SensorFrame(n, rows, frame).outputs[i].srcs[j] == n.outputs[i].srcs[j]
  {
  }

  lemma SourceKept(n: Node, rows: seq<seq<SourceConfig>>, id: int, e: Event, i: nat, j: nat)
    requires Inv(n, rows) && Enabled(n, e) && i < |rows| && j < |rows[i]| && !IsFirst(rows, i, j)
    ensures Shaped(Step(n, rows, id, e).outputs, rows)
    ensures Step(n, rows, id, e).outputs[i].srcs[j] == n.outputs[i].srcs[j]
  {
    StepKeeps(n, rows, id, e);
    match e
    case Worker => WorkerSources(n, i);
    case Timer =>
    case Sensor(frame) => FrameSources(n, rows, frame, i, j);
    case Command(frame) => CommandSources(n, id, frame, i);
  }

  lemma {:induction false} SourceKeptOverRuns(n: Node, rows: seq<seq<SourceConfig>>, id: int, events: seq<Event>,
    i: nat, j: nat)
    requires Inv(n, rows) && Path(n, rows, id, events) && i < |rows| && j < |rows[i]| && !IsFirst(rows, i, j)
    ensures Shaped(Final(n, rows, id, events).outputs, rows)
    ensures Final(n, rows, id, events).outputs[i].srcs[j] == n.outputs[i].srcs[j]
    decreases events
  {
    if events != [] {
      SourceKept(n, rows, id, events[0], i, j);
      SourceKeptOverRuns(Advanced(n, rows, id, events[0]), rows, id, events[1..], i, j);
    }
  }

  /** Only the first source configured for a sender is ever looked at: any other
      one stays off in every run, whatever frames arrive. */
  lemma NeverSwitched(rows: seq<seq<SourceConfig>>, modes: seq<bool>, id: int, events: seq<Event>, i: nat, j: nat)
    requires |modes| == |rows| && Path(Start(rows, modes), rows, id, events)
    requires i < |rows| && j < |rows[i]| && !IsFirst(rows, i, j)
    ensures var n := Final(Start(rows, modes), rows, id, events);
            Shaped(n.outputs, rows) && !n.outputs[i].srcs[j]
  {
    SourceKeptOverRuns(Start(rows, modes), rows, id, events, i, j);
  }

  /** The first one switches on with a single frame, unless its threshold is the
      largest value there is. */
  lemma FirstSwitches(rows: seq<seq<SourceConfig>>, modes: seq<bool>, i: nat, j: nat) returns (frame: Frame)
    requires |modes| == |rows| && i < |rows| && j < |rows[i]| && IsFirst(rows, i, j)
    requires rows[i][j].on < 0x7FFF_FFFF
    ensures |frame.data| == 8 && frame.length == 6 && frame.from == rows[i][j].node
    ensures var n := SensorFrame(Start(rows, modes), rows, frame);
            Shaped(n.outputs, rows) && n.outputs[i].srcs[j]
  {
    var conf := rows[i][j];
    frame := Frame(conf.node, 0, 6, [conf.kind, conf.idx, 0x7F, 0xFF, 0xFF, 0xFF, 0, 0]);
    assert Signed32(0x7F, 0xFF, 0xFF, 0xFF) == 0x7FFF_FFFF;
    SensorKeeps(Start(rows, modes), rows, frame);
  }

  /** In other words: no earlier row has the sender, nor an earlier source of the
      row. */
  lemma FirstIs(rows: seq<seq<SourceConfig>>, i: nat, j: nat)
    requires i < |rows| && j < |rows[i]|
    ensures IsFirst(rows, i, j) <==>
            && (forall a, b :: 0 <= a < i && 0 <= b < |rows[a]| ==> rows[a][b].node != rows[i][j].node)
            && (forall b :: 0 <= b < j ==> rows[i][b].node != rows[i][j].node)
  {
    var node := rows[i][j].node;
    assert FindInRow(rows[i], node) <= j;
    if IsFirst(rows, i, j) {
      forall a, b | 0 <= a < i && 0 <= b < |rows[a]|
        ensures rows[a][b].node != node
      {
        assert FindInRow(rows[a], node) == |rows[a]|;
      }
    }
  }

  /** A frame of a sender switches its first source by its value alone: off below
      the one threshold, on above the other, and only if kind and index are the
      configured ones. */
  lemma SourceSwitches(n: Node, rows: seq<seq<SourceConfig>>, frame: Frame, i: nat, j: nat)
    requires Shaped(n.outputs, rows) && |frame.data| == 8 && frame.length >= 6
    requires i < |rows| && j < |rows[i]| && IsFirst(rows, i, j) && rows[i][j].node == frame.from
    ensures var m, d, conf := SensorFrame(n, rows, frame), frame.data, rows[i][j];
            var raw := d[2] * 0x100_0000 + d[3] * 0x1_0000 + d[4] * 0x100 + d[5];
            var value := if raw < 0x8000_0000 then raw else raw - 0x1_0000_0000;
            var was := n.outputs[i].srcs[j];
            var now := if d[0] != conf.kind || d[1] != conf.idx then was
                       else if was then value >= conf.off else value > conf.on;
            && m.outputs == n.outputs[i := n.outputs[i].(srcs := n.outputs[i].srcs[j := now])]
            && (now != was ==> m.reqs == n.reqs.(output := true) && m.tokens == n.tokens + 1)
            && (now == was ==> m == n)
  {
    var o := n.outputs[i];
    assert o.(srcs := o.srcs[j := o.srcs[j]]) == o;
    assert n.outputs[i := o] == n.outputs;
  }

  /** Frames of other senders, and short ones, change nothing. */
  lemma OtherFrames(n: Node, rows: seq<seq<SourceConfig>>, frame: Frame)
    requires Shaped(n.outputs, rows) && |frame.data| == 8
    requires frame.length < 6 ||
      forall a, b :: 0 <= a < |rows| && 0 <= b < |rows[a]| ==> rows[a][b].node != frame.from
    ensures SensorFrame(n, rows, frame) == n
  {
  }

  // ----- what a command does

  /** A command for output `k` of this node. */
  predicate CommandFor(frame: Frame, id: int, k: int) {
    frame.to == id && frame.length == 2 && |frame.data| == 8 && frame.data[0] == k
  }

  /** Bit 1 of the command chooses the mode, and in manual mode bit 0 is what the
      output is to show; in automatic mode that is the OR of its sources. */
  lemma CommandSets(n: Node, id: int, frame: Frame, k: nat)
    requires CommandFor(frame, id, k) && k < |n.outputs|
    ensures var m, d := OutputFrame(n, id, frame), frame.data[1];
            && |m.outputs| == |n.outputs|
            && (m.outputs[k].manual <==> d / 2 % 2 == 1)
            && (d / 2 % 2 == 1 ==> (Target(m.outputs[k]) <==> d % 2 == 1))
            && (d / 2 % 2 == 0 ==> (Target(m.outputs[k]) <==> AnyOn(n.outputs[k].srcs)))
            && m.outputs[k].srcs == n.outputs[k].srcs && m.outputs[k].state == n.outputs[k].state
            && (forall i :: 0 <= i < |n.outputs| && i != k ==> m.outputs[i] == n.outputs[i])
            && m.reqs.output && m.reqs.response && m.tokens == n.tokens + 1
            && (m.reqs.save <==> n.reqs.save || m.outputs[k].manual != n.outputs[k].manual)
  {
  }

  /** Commands for other nodes, of another length or for outputs that are not
      there change nothing. */
  lemma OtherCommands(n: Node, id: int, frame: Frame)
    requires |frame.data| == 8
    requires forall k :: 0 <= k < |n.outputs| ==> !CommandFor(frame, id, k)
    ensures OutputFrame(n, id, frame) == n
  {
    if frame.to == id && frame.length == 2 {
      assert CommandFor(frame, id, frame.data[0]);
    }
  }

  /** No event of the run is another command for output `k`. */
  predicate NotCommanded(events: seq<Event>, id: int, k: nat) {
    forall i :: 0 <= i < |events| && events[i].Command? ==> !CommandFor(events[i].frame, id, k)
  }

  /** Mode and manual state of an output change by its commands only. */
  lemma ModeKept(n: Node, rows: seq<seq<SourceConfig>>, id: int, e: Event, k: nat)
    requires Inv(n, rows) && Enabled(n, e) && k < |rows| && (e.Command? ==> !CommandFor(e.frame, id, k))
    ensures var m := Advanced(n, rows, id, e);
            && |m.outputs| == |n.outputs| == |rows|
            && m.outputs[k].manual == n.outputs[k].manual && m.outputs[k].manualState == n.outputs[k].manualState
  {
    match e
    case Worker => WorkerModes(n, k);
    case Timer =>
    case Sensor(frame) => FrameModes(n, rows, frame, k);
    case Command(frame) => CommandModes(n, id, frame, k);
  }

  lemma WorkerModes(n: Node, k: nat)
    requires !n.pc.InWait? && k < |n.outputs|
    ensures |WorkerStep(n).outputs| == |n.outputs| && WorkerStep(n).outputs[k].manual == n.outputs[k].manual
    ensures WorkerStep(n).outputs[k].manualState == n.outputs[k].manualState
  {
  }

  lemma FrameModes(n: Node, rows: seq<seq<SourceConfig>>, frame: Frame, k: nat)
    requires Shaped(n.outputs, rows) && |frame.data| == 8 && k < |n.outputs|
    ensures var m := SensorFrame(n, rows, frame);
            && |m.outputs| == |n.outputs| && m.outputs[k].manual == n.outputs[k].manual
            && m.outputs[k].manualState == n.outputs[k].manualState
  {
  }

  lemma CommandModes(n: Node, id: int, frame: Frame, k: nat)
    requires |frame.data| == 8 && k < |n.outputs| && !CommandFor(frame, id, k)
    ensures |OutputFrame(n, id, frame).outputs| == |n.outputs|
    ensures OutputFrame(n, id, frame).outputs[k] == n.outputs[k]
  {
  }

  lemma {:induction false} ModeKeptOverRuns(n: Node, rows: seq<seq<SourceConfig>>, id: int, events: seq<Event>, k: nat)
    requires Inv(n, rows) && Path(n, rows, id, events) && k < |rows| && NotCommanded(events, id, k)
    ensures var m := Final(n, rows, id, events);
            && |m.outputs| == |n.outputs| == |rows|
            && m.outputs[k].manual == n.outputs[k].manual && m.outputs[k].manualState == n.outputs[k].manualState
    decreases events
  {
    if events != [] {
      ModeKept(n, rows, id, events[0], k);
      ModeKeptOverRuns(Advanced(n, rows, id, events[0]), rows, id, events[1..], k);
    }
  }

  /** Whatever happens after a command, short of another one for the same output:
      once the worker is back in its wait the output shows the commanded bit, or in
      automatic mode the OR of its sources as they then are. */
  lemma CommandShown(n: Node, rows: seq<seq<SourceConfig>>, id: int, frame: Frame, k: nat, events: seq<Event>)
    requires Inv(n, rows) && n.tokens < 128 && CommandFor(frame, id, k) && k < |rows|
    requires Path(Advanced(n, rows, id, Command(frame)), rows, id, events) && NotCommanded(events, id, k)
    ensures var m, d := Final(Advanced(n, rows, id, Command(frame)), rows, id, events), frame.data[1];
            && |m.outputs| == |rows|
            && (m.outputs[k].manual <==> d / 2 % 2 == 1)
            && (m.pc.InWait? && d / 2 % 2 == 1 ==> (m.outputs[k].state <==> d % 2 == 1))
            && (m.pc.InWait? && d / 2 % 2 == 0 ==> (m.outputs[k].state <==> AnyOn(m.outputs[k].srcs)))
  {
    var start := Advanced(n, rows, id, Command(frame));
    CommandSets(n, id, frame, k);
    ModeKeptOverRuns(start, rows, id, events, k);
    FinalKeeps(start, rows, id, events);
    if Final(start, rows, id, events).pc.InWait? {
      InWaitQuiescent(Final(start, rows, id, events), rows);
    }
  }

  /** The pass under way will still report output `k`, with the commanded state if
      it has read it. */
  predicate Reporting(pc: Pc, k: nat, on: bool) {
    match pc
    case Publishing(r) => r.response
    case Choosing(r, i) => r.response && i <= k
    case ReadingManual(r, i) => r.response && i <= k
    case Scanning(r, i, j) => r.response && i < k
    case Writing(r, i, state) => r.response && i <= k && (i == k ==> state == on)
    case Replying(r, i, state) => r.response && i <= k && (i == k ==> state == on)
    case _ => false
  }

  /** A report of output `k` is asked for, under way or, behind position `base`,
      made. */
  ghost predicate ReplyOwed(n: Node, base: nat, k: nat, on: bool) {
    && base <= |n.replies| && k < |n.outputs| && n.outputs[k].manual && n.outputs[k].manualState == on
    && (n.reqs.response || Reporting(n.pc, k, on) || Reply(k, on, true) in n.replies[base..])
  }

  lemma WorkerReports(n: Node, rows: seq<seq<SourceConfig>>, base: nat, k: nat, on: bool)
    requires Inv(n, rows) && !n.pc.InWait? && ReplyOwed(n, base, k, on)
    ensures ReplyOwed(WorkerStep(n), base, k, on)
  {
    var m := WorkerStep(n);
    WorkerModes(n, k);
    assert n.replies <= m.replies && m.replies[base..] == n.replies[base..] + m.replies[|n.replies|..];
    if n.pc.Replying? && n.pc.i == k && Reporting(n.pc, k, on) {
      assert m.replies[|n.replies|..] == [Reply(k, on, true)];
    }
  }

  lemma EventReports(n: Node, rows: seq<seq<SourceConfig>>, id: int, e: Event, base: nat, k: nat, on: bool)
    requires Inv(n, rows) && Enabled(n, e) && ReplyOwed(n, base, k, on)
    requires k < |rows| && (e.Command? ==> !CommandFor(e.frame, id, k))
    ensures ReplyOwed(Advanced(n, rows, id, e), base, k, on)
  {
    if e.Worker? {
      WorkerReports(n, rows, base, k, on);
    } else {
      ModeKept(n, rows, id, e, k);
      CallbackReports(n, rows, id, e);
    }
  }

  /** A callback takes no request back and cuts no pass short. */
  lemma CallbackReports(n: Node, rows: seq<seq<SourceConfig>>, id: int, e: Event)
    requires Inv(n, rows) && Enabled(n, e) && !e.Worker?
    ensures var m := Step(n, rows, id, e);
            && m.replies == n.replies && (n.reqs.response ==> m.reqs.response)
            && (m.pc == n.pc || (n.pc.InWait? && m.pc.AtFetch?))
  {
  }

  lemma {:induction false} ReportedOverRuns(n: Node, rows: seq<seq<SourceConfig>>, id: int, events: seq<Event>,
    base: nat, k: nat, on: bool)
    requires Inv(n, rows) && Path(n, rows, id, events) && NotCommanded(events, id, k)
    requires k < |rows| && ReplyOwed(n, base, k, on)
    ensures ReplyOwed(Final(n, rows, id, events), base, k, on)
    decreases events
  {
    if events != [] {
      EventReports(n, rows, id, events[0], base, k, on);
      ReportedOverRuns(Advanced(n, rows, id, events[0]), rows, id, events[1..], base, k, on);
    }
  }

  /** A manual command is answered: once the worker is back in its wait it has
      reported the output with the commanded bit. */
  lemma CommandAnswered(n: Node, rows: seq<seq<SourceConfig>>, id: int, frame: Frame, k: nat, events: seq<Event>)
    requires Inv(n, rows) && n.tokens < 128 && CommandFor(frame, id, k) && k < |rows|
    requires frame.data[1] / 2 % 2 == 1
    requires Path(Advanced(n, rows, id, Command(frame)), rows, id, events) && NotCommanded(events, id, k)
    ensures var m := Final(Advanced(n, rows, id, Command(frame)), rows, id, events);
            m.pc.InWait? ==>
              |n.replies| <= |m.replies| && Reply(k, frame.data[1] % 2 == 1, true) in m.replies[|n.replies|..]
  {
    var start := Advanced(n, rows, id, Command(frame));
    CommandSets(n, id, frame, k);
    assert start.replies == n.replies;
    ReportedOverRuns(start, rows, id, events, |n.replies|, k, frame.data[1] % 2 == 1);
    FinalKeeps(start, rows, id, events);
    if Final(start, rows, id, events).pc.InWait? {
      InWaitQuiescent(Final(start, rows, id, events), rows);
    }
  }

  /** `k` posts of the sensor timer before the worker gets to run. */
  ghost function Posts(n: Node, k: nat): Node {
    if k == 0 then n else TimerPost(Posts(n, k - 1))
  }

  lemma {:induction false} PostsPile(rows: seq<seq<SourceConfig>>, modes: seq<bool>, k: nat)
    requires |modes| == |rows|
    ensures var n := Posts(Start(rows, modes), k);
            n.sem == Semaphore(Int8(k), []) && n.pc == AtWait && n.reqs == NONE.(sensors := k >= 1)
  {
    if k > 0 {
      PostsPile(rows, modes, k - 1);
      Int8Steps(k - 1);
    }
  }

  lemma Int8Negative(k: int)
    ensures Int8(k) < 0 <==> k % 256 >= 128
  {
  }

  /** The bound on outstanding posts is exact.  After `k` posts from power-on the
      worker's wait blocks, with the request still there and nobody to serve it,
      exactly when the eight bits of k - 1 read as negative: never up to 128, and
      129 is the first time. */
  lemma LostWakeup(rows: seq<seq<SourceConfig>>, modes: seq<bool>, k: nat) returns (n: Node)
    requires |modes| == |rows| && k >= 1
    ensures n == Posts(Start(rows, modes), k) && n.pc == AtWait && n.reqs != NONE
    ensures WorkerStep(n).reqs == n.reqs
    ensures WorkerStep(n).pc == if (k - 1) % 256 >= 128 then InWait else AtFetch
    ensures k <= 128 ==> WorkerStep(n).pc == AtFetch
    ensures k == 129 ==> WorkerStep(n).pc == InWait
  {
    n := Posts(Start(rows, modes), k);
    PostsPile(rows, modes, k);
    Int8Steps(k);
    Int8Negative(k - 1);
  }

  // ----- the worker's pass when no callback comes in between

  predicate InRange(n: Node) {
    n.pc.ReadingManual? || n.pc.Scanning? || n.pc.Writing? || n.pc.Replying? ==> n.pc.i < |n.outputs|
  }

  /** The worker's steps up to its next wait. */
  function Pass(n: Node): Node
    requires InRange(n)
    decreases Stage(n.pc), OutputsLeft(n), Phase(n.pc), Left(n)
  {
    if n.pc.AtWait? || n.pc.InWait? then n else Pass(WorkerStep(n))
  }

  lemma PassStep(n: Node, m: Node)
    requires InRange(n) && !n.pc.AtWait? && !n.pc.InWait? && m == WorkerStep(n)
    ensures InRange(m) && Pass(m) == Pass(n)
  {
  }

  // ----- the code's own form

  class CanNode {
    const rows: seq<seq<SourceConfig>>
    const id: int
    var reqs: Reqs
    var sem: Semaphore
    var outputs: seq<Output>
    var saved: seq<bool>
    var replies: seq<Reply>
    ghost var tokens: int
    ghost var pc: Pc

    constructor (rows: seq<seq<SourceConfig>>, id: int, modes: seq<bool>)
      requires |modes| == |rows|
      ensures this.rows == rows && this.id == id && View() == Start(rows, modes)
    {
      this.rows, this.id := rows, id;
      reqs, sem, saved, replies := NONE, Semaphore(0, []), modes, [];
      outputs := seq(|rows|, i requires 0 <= i < |rows| => Output(false, false, modes[i], seq(|rows[i]|, _ => false)));
      tokens, pc := 0, AtWait;
    }

    ghost function View(): Node
      reads this
    {
      Node(reqs, sem, tokens, pc, outputs, saved, replies)
    }

    method Signal()
      modifies this`sem, this`tokens, this`pc
      ensures View() == Posted(old(View()))
    {
      pc := if sem.queue == [] then pc else AtFetch;
      tokens := tokens + 1;
      sem := sem.Signalled();
    }

    method PostSensorReq()
      modifies this
      ensures View() == TimerPost(old(View()))
    {
      reqs := reqs.(sensors := true);
      Signal();
    }

    /** The sender's first source decides, and ends the search either way. */
    method SensorCallback(frame: Frame)
      requires Shaped(outputs, rows) && |frame.data| == 8
      modifies this
      ensures View() == SensorFrame(old(View()), rows, frame)
    {
      var i := 0;
      while i < |rows|
        invariant 0 <= i <= FindRow(rows, frame.from)
        invariant unchanged(this)
      {
        var j := 0;
        while j < |rows[i]|
          invariant 0 <= j <= FindInRow(rows[i], frame.from)
          invariant unchanged(this)
        {
          if rows[i][j].node == frame.from {
            if frame.length >= 6 {
              UpdateSource(i, j, frame);
            }
            return;
          }
          j := j + 1;
        }
        i := i + 1;
      }
    }

    method UpdateSource(i: nat, j: nat, frame: Frame)
      requires i < |rows| && j < |rows[i]| && Shaped(outputs, rows) && |frame.data| == 8
      modifies this
      ensures View() == SourceUpdate(old(View()), rows[i][j], i, j, frame)
    {
      var conf, d := rows[i][j], frame.data;
      if d[0] == conf.kind && d[1] == conf.idx {
        var value := Signed32(d[2], d[3], d[4], d[5]);
        if outputs[i].srcs[j] && value < conf.off {
          outputs := outputs[i := Switched(outputs[i], j, false)];
          reqs := reqs.(output := true);
          Signal();
        } else if !outputs[i].srcs[j] && value > conf.on {
          outputs := outputs[i := Switched(outputs[i], j, true)];
          reqs := reqs.(output := true);
          Signal();
        }
      }
    }

    method OutputCallback(frame: Frame)
      requires |frame.data| == 8
      modifies this
      ensures View() == OutputFrame(old(View()), id, frame)
    {
      if frame.to != id || frame.length != 2 {
        return;
      }
      var k := frame.data[0];
      if k < 0 || k >= |outputs| {
        return;
      }
      var manual := Bit(frame.data[1], 1);
      if manual {
        outputs := outputs[k := outputs[k].(manualState := Bit(frame.data[1], 0))];
      }
      if manual != outputs[k].manual {
        outputs := outputs[k := outputs[k].(manual := manual)];
        reqs := reqs.(save := true);
      }
      reqs := reqs.(output := true, response := true);
      Signal();
    }

    method FetchClearReqs() returns (r: Reqs)
      modifies this`reqs
      ensures r == old(reqs) && reqs == NONE
    {
      r := reqs;
      reqs := NONE;
    }

    /** The state of one output, as the worker computes it, one shared access
        at a time. */
    method Compute(ghost r: Reqs, i: nat) returns (state: bool)
      requires i < |outputs| && pc == Choosing(r, i)
      modifies this`pc
      ensures state == Target(outputs[i])
      ensures pc == Writing(r, i, state) && Pass(View()) == old(Pass(View()))
    {
      state := false;
      if outputs[i].manual {
        pc := ReadingManual(r, i);
        PassStep(old(View()), View());
        state := outputs[i].manualState;
      } else {
        pc := Scanning(r, i, 0);
        PassStep(old(View()), View());
        var j := 0;
        while j < |outputs[i].srcs|
          invariant 0 <= j <= |outputs[i].srcs| && !state && NoneOn(outputs[i].srcs, j)
          invariant pc == Scanning(r, i, j) && Pass(View()) == old(Pass(View()))
        {
          if outputs[i].srcs[j] {
            state := true;
            break;
          }
          ghost var before := View();
          j := j + 1;
          pc := Scanning(r, i, j);
          PassStep(before, View());
        }
      }
      ghost var before := View();
      pc := Writing(r, i, state);
      PassStep(before, View());
    }

    /** The output, and its pin, are set if the state is new. */
    method WriteOutput(ghost r: Reqs, i: nat, state: bool)
      requires i < |outputs| && pc == Writing(r, i, state)
      modifies this`outputs, this`pc
      ensures outputs == old(outputs)[i := old(outputs[i]).(state := state)]
      ensures pc == Replying(r, i, state) && Pass(View()) == old(Pass(View()))
    {
      if outputs[i].state != state {
        outputs := outputs[i := outputs[i].(state := state)];
      }
      pc := Replying(r, i, state);
      PassStep(old(View()), View());
    }

    /** Output `i` is computed, written and, if asked for, reported. */
    method ServeOutput(r: Reqs, i: nat)
      requires i < |outputs| && pc == Choosing(r, i)
      modifies this`outputs, this`replies, this`pc
      ensures outputs == old(outputs)[i := old(outputs[i]).(state := Target(old(outputs[i])))]
      ensures replies == old(replies) + if r.response then [Reply(i, outputs[i].state, outputs[i].manual)] else []
      ensures pc == Choosing(r, i + 1) && Pass(View()) == old(Pass(View()))
    {
      var state := Compute(r, i);
      WriteOutput(r, i, state);
      ghost var before := View();
      if outputs[i].state != state || r.response {
        replies := replies + [Reply(i, state, outputs[i].manual)];
      }
      pc := Choosing(r, i + 1);
      PassStep(before, View());
    }

    /** The worker's pass over the outputs when no callback interferes: every
        output goes to its target, and each is reported exactly when a response
        was asked for. */
    method ServeOutputs(r: Reqs)
      requires pc == Choosing(r, 0)
      modifies this`outputs, this`replies, this`pc
      ensures |outputs| == |old(outputs)|
      ensures forall i :: 0 <= i < |outputs| ==> outputs[i] == old(outputs[i]).(state := Target(old(outputs[i])))
      ensures !r.response ==> replies == old(replies)
      ensures r.response ==> |replies| == |old(replies)| + |outputs| && replies[..|old(replies)|] == old(replies)
      ensures r.response ==> forall i :: 0 <= i < |outputs| ==>
                replies[|old(replies)| + i] == Reply(i, outputs[i].state, outputs[i].manual)
      ensures pc == Saving(r) && Pass(View()) == old(Pass(View()))
    {
      var i := 0;
      while i < |outputs|
        invariant 0 <= i <= |outputs| == |old(outputs)|
        invariant forall k :: 0 <= k < i ==> outputs[k] == old(outputs[k]).(state := Target(old(outputs[k])))
        invariant forall k :: i <= k < |outputs| ==> outputs[k] == old(outputs[k])
        invariant !r.response ==> replies == old(replies)
        invariant r.response ==> |replies| == |old(replies)| + i && replies[..|old(replies)|] == old(replies)
        invariant r.response ==> forall k :: 0 <= k < i ==>
                    replies[|old(replies)| + k] == Reply(k, outputs[k].state, outputs[k].manual)
        invariant pc == Choosing(r, i) && Pass(View()) == old(Pass(View()))
      {
        ServeOutput(r, i);
        i := i + 1;
      }
      ghost var before := View();
      pc := Saving(r);
      PassStep(before, View());
    }

    /** One round of can_node_loop behind its wait, uninterrupted: the worker's
        steps of the machine, up to the next wait. */
    method Serve()
      requires pc == AtFetch
      modifies this
      ensures View() == old(Pass(View())) && pc == AtWait && reqs == NONE
      ensures AsksOutputs(old(reqs)) ==>
                forall i :: 0 <= i < |outputs| ==> outputs[i].state == Target(outputs[i])
      ensures old(reqs.save) ==> saved == Modes(outputs)
    {
      var r := FetchClearReqs();
      pc := Publishing(r);
      PassStep(old(View()), View());
      ghost var before := View();
      if r.output || r.response {
        pc := Choosing(r, 0);
        PassStep(before, View());
        ServeOutputs(r);
      } else {
        pc := Saving(r);
        PassStep(before, View());
      }
      before := View();
      if r.save {
        saved := Modes(outputs);
      }
      pc := AtWait;
      PassStep(before, View());
    }
  }
}
