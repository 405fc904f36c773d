/**
 The switch with one processor and one queue per port, and a byte budget shared by all ports.
 */
module RelayPP {
  import opened Simulation
  import opened RelayShared
  import opened RelayDispatch
  import opened RelayUnit

  /**
   A port buffer.  `accepted` and `finished` record the frames taken in on this port and the times at
   which they were finished.
   */
  datatype Port = Port(queue: seq<Frame>, cpuBusy: bool, accepted: seq<Arrival>, finished: seq<real>)

  /** An end-of-processing message under way. */
  datatype EndProcessing = EndProcessing(port: nat, time: real)

  /** Number of arrivals, times at which PAUSE frames were sent on all ports, frames finished and sent on. */
  datatype Past = Past(arrivals: nat, pauses: seq<real>, output: Output)

  datatype Switch = Switch(
    config: Config, now: real, buffer: seq<Port>, pending: multiset<EndProcessing>,
    used: int, pauseLastSent: real, processed: nat, dropped: nat, past: Past)

  /** `QueueEmpty` stands for taking a frame out of an empty queue. */
  datatype Result = Ok(state: Switch) | QueueEmpty

  function Init(c: Config): Switch {
    Switch(c, 0.0, seq(c.ports, _ => Port([], false, [], [])), multiset{}, 0, 0.0, 0, 0, Past(0, [], NO_OUTPUT))
  }

  function Finish(start: real, processingTime: real): real {
    start + processingTime
  }

  function Put(b: Port, f: Frame, now: real): Port {
    Port(b.queue + [f], true, b.accepted + [Arrival(f, now)], b.finished)
  }

  function Take(b: Port, now: real): Port
    requires b.queue != []
  {
    Port(b.queue[1..], b.cpuBusy && b.queue[1..] != [], b.accepted, b.finished + [now])
  }

  function EndAt(port: nat, now: real, c: Config): multiset<EndProcessing> {
    multiset{EndProcessing(port, Finish(now, c.processingTime))}
  }

  /** A frame for which there is room. */
  function Admit(s: Switch, f: Frame): Switch
    requires f.port < |s.buffer|
  {
    var used := s.used + f.length;
    var b := s.buffer[f.port];
    var pause := SendsPause(s.config, used, s.now, s.pauseLastSent);
    s.(used := used,
       pauseLastSent := if pause then s.now else s.pauseLastSent,
       past := if pause then s.past.(pauses := s.past.pauses + [s.now]) else s.past,
       buffer := s.buffer[f.port := Put(b, f, s.now)],
       pending := if b.cpuBusy then s.pending else s.pending + EndAt(f.port, s.now, s.config))
  }

  function HandleIncoming(s: Switch, t: real, f: Frame): Switch
    requires f.port < |s.buffer|
  {
    var s1 := s.(now := t, past := s.past.(arrivals := s.past.arrivals + 1));
    if f.length + s.used < s.config.bufferSize then Admit(s1, f) else s1.(dropped := s1.dropped + 1)
  }

  function ProcessFrame(s: Switch, t: real, port: nat): Result
    requires port < |s.buffer|
  {
    var b := s.buffer[port];
    if b.queue == [] then QueueEmpty
    else
      var rest := s.pending - multiset{EndProcessing(port, t)};
      Ok(s.(now := t, used := s.used - b.queue[0].length, processed := s.processed + 1,
            buffer := s.buffer[port := Take(b, t)],
            past := s.past.(output := Dispatch(s.config, s.past.output, b.queue[0].(port := port), t)),
            pending := if b.queue[1..] != [] then rest + EndAt(port, t, s.config) else rest))
  }

  datatype Event = Incoming(frame: Frame) | Ended(port: nat)

  ghost predicate Enabled(s: Switch, t: real, ev: Event) {
    && s.now <= t
    && (forall e :: e in s.pending ==> t <= e.time)
    && (ev.Incoming? ==> ev.frame.port < |s.buffer|)
    && (ev.Ended? ==> ev.port < |s.buffer| && EndProcessing(ev.port, t) in s.pending)
  }

  function Step(s: Switch, t: real, ev: Event): Result
    requires ev.Incoming? ==> ev.frame.port < |s.buffer|
    requires ev.Ended? ==> ev.port < |s.buffer|
  {
    match ev
    case Incoming(f) => Ok(HandleIncoming(s, t, f))
    case Ended(p) => ProcessFrame(s, t, p)
  }

  // ---------- One port ----------

  /** When the k-th frame of a port starts: on arrival, or when the frame before it is finished. */
  function StartOf(b: Port, k: nat): real
    requires k < |b.accepted| && k <= |b.finished|
  {
    if k == 0 then b.accepted[0].time else Max(b.accepted[k].time, b.finished[k - 1])
  }

  predicate FinishedOnTime(b: Port, k: nat, p: real)
    requires k < |b.accepted| && k < |b.finished|
  {
    b.finished[k] == Finish(StartOf(b, k), p)
  }

  /** Busy exactly while frames are held; served in order of arrival; finished on time. */
  ghost predicate PortOk(b: Port, now: real, p: real) {
    && (b.cpuBusy <==> b.queue != [])
    && |b.accepted| == |b.finished| + |b.queue|
    && Frames(b.accepted)[|b.finished|..] == b.queue
    && (forall k :: 0 <= k < |b.accepted| ==> b.accepted[k].time <= now)
    && (forall k :: 0 <= k < |b.finished| ==> b.finished[k] <= now)
    && (forall k :: 0 <= k < |b.finished| ==> FinishedOnTime(b, k, p))
  }

  /** The end of the frame in processing. */
  function NextEnd(b: Port, p: real): real
    requires |b.finished| < |b.accepted|
  {
    Finish(StartOf(b, |b.finished|), p)
  }

  /** The end-of-processing message of a busy port, and nothing for an idle one. */
  function ExpectedOne(i: nat, b: Port, p: real): multiset<EndProcessing> {
    if b.cpuBusy && |b.finished| < |b.accepted| then multiset{EndProcessing(i, NextEnd(b, p))} else multiset{}
  }

  function Expected(buffer: seq<Port>, p: real): multiset<EndProcessing> {
    if buffer == [] then multiset{}
    else Expected(buffer[..|buffer| - 1], p) + ExpectedOne(|buffer| - 1, buffer[|buffer| - 1], p)
  }

  lemma PutOk(b: Port, f: Frame, now: real, t: real, p: real)
    requires PortOk(b, now, p) && now <= t
    ensures PortOk(Put(b, f, t), t, p)
    ensures b.cpuBusy ==> |b.finished| < |b.accepted| && NextEnd(Put(b, f, t), p) == NextEnd(b, p)
    ensures !b.cpuBusy ==> NextEnd(Put(b, f, t), p) == Finish(t, p)
  {
    var c := Put(b, f, t);
    assert Frames(c.accepted)[|c.finished|..] == Frames(b.accepted)[|b.finished|..] + [f];
    forall k | 0 <= k < |c.finished|
      ensures FinishedOnTime(c, k, p)
    {
      assert FinishedOnTime(b, k, p);
    }
  }

  lemma TakeOk(b: Port, now: real, t: real, p: real)
    requires PortOk(b, now, p) && now <= t && b.queue != [] && NextEnd(b, p) == t
    ensures PortOk(Take(b, t), t, p)
    ensures Take(b, t).cpuBusy ==> NextEnd(Take(b, t), p) == Finish(t, p)
  {
    var c := Take(b, t);
    assert Frames(c.accepted)[|c.finished|..] == Frames(b.accepted)[|b.finished|..][1..];
    forall k | 0 <= k < |c.finished|
      ensures FinishedOnTime(c, k, p)
    {
      if k < |b.finished| {
        assert FinishedOnTime(b, k, p);
      }
    }
  }

  lemma PortLater(b: Port, now: real, t: real, p: real)
    requires PortOk(b, now, p) && now <= t
    ensures PortOk(b, t, p)
  {
  }

  // ---------- All ports ----------

  function TotalBytes(buffer: seq<Port>): nat {
    if buffer == [] then 0 else TotalBytes(buffer[..|buffer| - 1]) + Bytes(buffer[|buffer| - 1].queue)
  }

  /** Frames held. */
  function TotalHeld(buffer: seq<Port>): nat {
    if buffer == [] then 0 else TotalHeld(buffer[..|buffer| - 1]) + |buffer[|buffer| - 1].queue|
  }

  function TotalFinished(buffer: seq<Port>): nat {
    if buffer == [] then 0 else TotalFinished(buffer[..|buffer| - 1]) + |buffer[|buffer| - 1].finished|
  }

  lemma {:induction false} ReplaceTotals(buffer: seq<Port>, i: nat, b: Port)
    requires i < |buffer|
    ensures TotalBytes(buffer[i := b]) + Bytes(buffer[i].queue) == TotalBytes(buffer) + Bytes(b.queue)
    ensures TotalHeld(buffer[i := b]) + |buffer[i].queue| == TotalHeld(buffer) + |b.queue|
    ensures TotalFinished(buffer[i := b]) + |buffer[i].finished| == TotalFinished(buffer) + |b.finished|
  {
    var n := |buffer| - 1;
    if i == n {
      UpdateLast(buffer, n, b);
    } else {
      ReplaceTotals(buffer[..n], i, b);
      UpdateInit(buffer, n, i, b);
    }
  }

  lemma ReplaceLast(buffer: seq<Port>, n: nat, b: Port, p: real)
    requires |buffer| == n + 1
    ensures Expected(buffer[n := b], p) + ExpectedOne(n, buffer[n], p) == Expected(buffer, p) + ExpectedOne(n, b, p)
  {
    UpdateLast(buffer, n, b);
    SwapTwo(Expected(buffer[..n], p), ExpectedOne(n, b, p), ExpectedOne(n, buffer[n], p));
  }

  lemma ReplaceInner(buffer: seq<Port>, n: nat, i: nat, b: Port, p: real)
    requires i < n && |buffer| == n + 1
    requires Expected(buffer[..n][i := b], p) + ExpectedOne(i, buffer[i], p)
             == Expected(buffer[..n], p) + ExpectedOne(i, b, p)
    ensures Expected(buffer[i := b], p) + ExpectedOne(i, buffer[i], p) == Expected(buffer, p) + ExpectedOne(i, b, p)
  {
    UpdateInit(buffer, n, i, b);
    AddBoth(Expected(buffer[..n][i := b], p), ExpectedOne(i, buffer[i], p), Expected(buffer[..n], p),
            ExpectedOne(i, b, p), ExpectedOne(n, buffer[n], p));
  }

  lemma {:induction false} ReplaceExpected(buffer: seq<Port>, i: nat, b: Port, p: real)
    requires i < |buffer|
    ensures Expected(buffer[i := b], p) + ExpectedOne(i, buffer[i], p) == Expected(buffer, p) + ExpectedOne(i, b, p)
  {
    var n := |buffer| - 1;
    if i == n {
      ReplaceLast(buffer, n, b, p);
    } else {
      ReplaceExpected(buffer[..n], i, b, p);
      ReplaceInner(buffer, n, i, b, p);
    }
  }

  /** A pending message belongs to a busy port, and is due when that port's frame is finished. */
  lemma {:induction false} ExpectedMember(buffer: seq<Port>, p: real, e: EndProcessing)
    requires e in Expected(buffer, p)
    ensures e.port < |buffer| && buffer[e.port].cpuBusy
    ensures |buffer[e.port].finished| < |buffer[e.port].accepted| && e.time == NextEnd(buffer[e.port], p)
  {
    var n := |buffer| - 1;
    if e !in ExpectedOne(n, buffer[n], p) {
      ExpectedMember(buffer[..n], p, e);
    }
  }

  lemma {:induction false} ExpectedCount(buffer: seq<Port>, p: real, i: nat, time: real)
    requires i < |buffer|
    ensures Expected(buffer, p)[EndProcessing(i, time)] == ExpectedOne(i, buffer[i], p)[EndProcessing(i, time)]
  {
    var n := |buffer| - 1;
    if i < n {
      ExpectedCount(buffer[..n], p, i, time);
    } else if EndProcessing(i, time) in Expected(buffer[..n], p) {
      ExpectedMember(buffer[..n], p, EndProcessing(i, time));
    }
  }

  lemma {:induction false} IdlePorts(n: nat, p: real)
    ensures var buffer := seq(n, _ => Port([], false, [], []));
            && TotalBytes(buffer) == TotalHeld(buffer) == TotalFinished(buffer) == 0
            && Expected(buffer, p) == multiset{}
  {
    if n > 0 {
      IdlePorts(n - 1, p);
      assert seq(n, _ => Port([], false, [], []))[..n - 1] == seq(n - 1, _ => Port([], false, [], []));
    }
  }

  // ---------- The invariant ----------

  ghost predicate PortsOk(buffer: seq<Port>, now: real, p: real) {
    forall i :: 0 <= i < |buffer| ==> PortOk(buffer[i], now, p)
  }

  /** The frames of one port among those finished. */
  function Only(done: seq<Finished>, port: nat): seq<Finished> {
    if done == [] then []
    else
      var n := |done| - 1;
      Only(done[..n], port) + if done[n].frame.port == port then [done[n]] else []
  }

  /** The frames a port has finished, each with its time. */
  function PortDone(b: Port): (r: seq<Finished>)
    requires |b.finished| <= |b.accepted|
    ensures |r| == |b.finished|
    ensures forall k :: 0 <= k < |r| ==> r[k] == Finished(b.accepted[k].frame, b.finished[k])
  {
    seq(|b.finished|, k requires 0 <= k < |b.finished| => Finished(b.accepted[k].frame, b.finished[k]))
  }

  /** Port i has taken in only its own frames, and what has been sent on of its frames is what it has finished. */
  ghost predicate PortSent(b: Port, i: nat, done: seq<Finished>) {
    && |b.finished| <= |b.accepted|
    && (forall k :: 0 <= k < |b.accepted| ==> b.accepted[k].frame.port == i)
    && Only(done, i) == PortDone(b)
  }

  ghost predicate AllSent(buffer: seq<Port>, done: seq<Finished>) {
    forall i :: 0 <= i < |buffer| ==> PortSent(buffer[i], i, done)
  }

  ghost predicate Inv(s: Switch) {
    && Queues(s) && AllSent(s.buffer, s.past.output.done) && Dispatched(s.config, s.past.output, s.now)
  }

  ghost predicate Queues(s: Switch) {
    && ValidConfig(s.config) && |s.buffer| == s.config.ports
    && PortsOk(s.buffer, s.now, s.config.processingTime)
    && s.pending == Expected(s.buffer, s.config.processingTime)
    && s.used == TotalBytes(s.buffer)
    && (TotalHeld(s.buffer) > 0 ==> s.used < s.config.bufferSize)
    && s.processed == TotalFinished(s.buffer)
    && s.past.arrivals == s.processed + s.dropped + TotalHeld(s.buffer)
  }

  lemma InitInv(c: Config)
    requires ValidConfig(c)
    ensures Inv(Init(c))
  {
    IdlePorts(c.ports, c.processingTime);
    forall i | 0 <= i < c.ports
      ensures PortSent(Init(c).buffer[i], i, [])
    {
      assert PortDone(Init(c).buffer[i]) == [];
    }
  }

  lemma PutSent(b: Port, i: nat, done: seq<Finished>, f: Frame, t: real)
    requires PortSent(b, i, done) && f.port == i
    ensures PortSent(Put(b, f, t), i, done)
  {
    assert PortDone(Put(b, f, t)) == PortDone(b);
  }

  lemma OnlyAppend(done: seq<Finished>, x: Finished, i: nat)
    ensures Only(done + [x], i) == if x.frame.port == i then Only(done, i) + [x] else Only(done, i)
  {
    assert (done + [x])[..|done|] == done;
  }

  lemma TakeSent(b: Port, i: nat, done: seq<Finished>, t: real)
    requires PortSent(b, i, done) && b.queue != [] && |b.finished| < |b.accepted|
    requires Frames(b.accepted)[|b.finished|..] == b.queue
    ensures b.queue[0].port == i && PortSent(Take(b, t), i, done + [Finished(b.queue[0], t)])
  {
    assert Frames(b.accepted)[|b.finished|..][0] == b.accepted[|b.finished|].frame;
    OnlyAppend(done, Finished(b.queue[0], t), i);
    assert PortDone(Take(b, t)) == PortDone(b) + [Finished(b.queue[0], t)];
  }

  lemma ReplaceSent(buffer: seq<Port>, done: seq<Finished>, after: seq<Finished>, i: nat, b: Port)
    requires AllSent(buffer, done) && i < |buffer| && PortSent(b, i, after)
    requires forall j: nat :: j != i ==> Only(after, j) == Only(done, j)
    ensures AllSent(buffer[i := b], after)
  {
    var next := buffer[i := b];
    forall j | 0 <= j < |next|
      ensures PortSent(next[j], j, after)
    {
      if j != i {
        assert PortSent(buffer[j], j, done);
      }
    }
  }

  lemma ReplacePort(buffer: seq<Port>, now: real, t: real, p: real, i: nat, b: Port)
    requires PortsOk(buffer, now, p) && now <= t && i < |buffer| && PortOk(b, t, p)
    ensures PortsOk(buffer[i := b], t, p)
  {
    var after := buffer[i := b];
    forall j | 0 <= j < |buffer|
      ensures PortOk(after[j], t, p)
    {
      if j != i {
        PortLater(buffer[j], now, t, p);
      }
    }
  }

  lemma CancelBoth<T>(x: multiset<T>, o: multiset<T>, y: multiset<T>)
    requires x + o == y + o
    ensures x == y
  {
    assert x == (x + o) - o;
    assert y == (y + o) - o;
  }

  lemma IncomingExpected(s: Switch, t: real, f: Frame)
    requires Queues(s) && Enabled(s, t, Incoming(f)) && f.length + s.used < s.config.bufferSize
    ensures var r := HandleIncoming(s, t, f); r.pending == Expected(r.buffer, s.config.processingTime)
  {
    var p, b := s.config.processingTime, s.buffer[f.port];
    var c := Put(b, f, t);
    PutOk(b, f, s.now, t, p);
    ReplaceExpected(s.buffer, f.port, c, p);
    if b.cpuBusy {
      CancelBoth(Expected(s.buffer[f.port := c], p), ExpectedOne(f.port, b, p), Expected(s.buffer, p));
    } else {
      assert ExpectedOne(f.port, b, p) == multiset{};
      PlusNothing(Expected(s.buffer, p), ExpectedOne(f.port, c, p), Expected(s.buffer[f.port := c], p));
    }
  }

  lemma AdmitPorts(s: Switch, t: real, f: Frame)
    requires f.port < |s.buffer| && f.length + s.used < s.config.bufferSize && s.now <= t
    requires PortsOk(s.buffer, s.now, s.config.processingTime)
    ensures PortsOk(HandleIncoming(s, t, f).buffer, t, s.config.processingTime)
  {
    var p, b := s.config.processingTime, s.buffer[f.port];
    assert PortOk(b, s.now, p);
    PutOk(b, f, s.now, t, p);
    ReplacePort(s.buffer, s.now, t, p, f.port, Put(b, f, t));
  }

  lemma AdmitTotals(s: Switch, t: real, f: Frame)
    requires f.port < |s.buffer| && f.length + s.used < s.config.bufferSize
    ensures var r := HandleIncoming(s, t, f);
            && |r.buffer| == |s.buffer|
            && TotalBytes(r.buffer) == TotalBytes(s.buffer) + f.length
            && TotalHeld(r.buffer) == TotalHeld(s.buffer) + 1
            && TotalFinished(r.buffer) == TotalFinished(s.buffer)
            && r.used == s.used + f.length && r.past.arrivals == s.past.arrivals + 1
            && r.processed == s.processed && r.dropped == s.dropped && r.config == s.config && r.now == t
  {
    var b := s.buffer[f.port];
    ReplaceTotals(s.buffer, f.port, Put(b, f, t));
    BytesAppend(b.queue, f);
  }

  lemma AdmitQueues(s: Switch, t: real, f: Frame)
    requires Queues(s) && Enabled(s, t, Incoming(f)) && f.length + s.used < s.config.bufferSize
    ensures Queues(HandleIncoming(s, t, f))
  {
    AdmitPorts(s, t, f);
    AdmitTotals(s, t, f);
    IncomingExpected(s, t, f);
  }

  lemma PortsLater(buffer: seq<Port>, now: real, t: real, p: real)
    requires PortsOk(buffer, now, p) && now <= t
    ensures PortsOk(buffer, t, p)
  {
    forall i | 0 <= i < |buffer|
      ensures PortOk(buffer[i], t, p)
    {
      PortLater(buffer[i], now, t, p);
    }
  }

  lemma IncomingQueues(s: Switch, t: real, f: Frame)
    requires Queues(s) && Enabled(s, t, Incoming(f))
    ensures Queues(HandleIncoming(s, t, f))
  {
    if f.length + s.used < s.config.bufferSize {
      AdmitQueues(s, t, f);
    } else {
      PortsLater(s.buffer, s.now, t, s.config.processingTime);
    }
  }

  lemma Exchange<T>(x: multiset<T>, o: multiset<T>, y: multiset<T>, n: multiset<T>)
    requires x + o == y + n && o <= y
    ensures x == (y - o) + n
  {
    assert x == (y + n) - o;
  }

  lemma FinishedExpected(s: Switch, t: real, port: nat)
    requires Queues(s) && Enabled(s, t, Ended(port)) && s.buffer[port].queue != []
    requires NextEnd(s.buffer[port], s.config.processingTime) == t
    ensures var r := ProcessFrame(s, t, port).state; r.pending == Expected(r.buffer, s.config.processingTime)
  {
    var p, b := s.config.processingTime, s.buffer[port];
    var c := Take(b, t);
    TakeOk(b, s.now, t, p);
    ReplaceExpected(s.buffer, port, c, p);
    var e := multiset{EndProcessing(port, t)};
    assert ExpectedOne(port, b, p) == e;
    Exchange(Expected(s.buffer[port := c], p), e, s.pending, ExpectedOne(port, c, p));
  }

  lemma FinishedQueues(s: Switch, t: real, port: nat)
    requires Queues(s) && Enabled(s, t, Ended(port))
    ensures ProcessFrame(s, t, port).Ok? && Queues(ProcessFrame(s, t, port).state)
  {
    var p, b := s.config.processingTime, s.buffer[port];
    ExpectedMember(s.buffer, p, EndProcessing(port, t));
    assert PortOk(b, s.now, p);
    TakeOk(b, s.now, t, p);
    ReplacePort(s.buffer, s.now, t, p, port, Take(b, t));
    ReplaceTotals(s.buffer, port, Take(b, t));
    BytesHead(b.queue);
    FinishedExpected(s, t, port);
  }

  lemma IncomingInv(s: Switch, t: real, f: Frame)
    requires Inv(s) && Enabled(s, t, Incoming(f))
    ensures Inv(HandleIncoming(s, t, f))
  {
    IncomingQueues(s, t, f);
    if f.length + s.used < s.config.bufferSize {
      assert PortSent(s.buffer[f.port], f.port, s.past.output.done);
      PutSent(s.buffer[f.port], f.port, s.past.output.done, f, t);
      ReplaceSent(s.buffer, s.past.output.done, s.past.output.done, f.port, Put(s.buffer[f.port], f, t));
    }
  }

  lemma FinishedSent(s: Switch, t: real, port: nat)
    requires Inv(s) && s.now <= t && port < |s.buffer| && s.buffer[port].queue != []
    ensures var r := ProcessFrame(s, t, port).state;
            AllSent(r.buffer, r.past.output.done) && Dispatched(s.config, r.past.output, t)
  {
    var b, o := s.buffer[port], s.past.output;
    assert PortSent(b, port, o.done) && PortOk(b, s.now, s.config.processingTime);
    TakeSent(b, port, o.done, t);
    var f := b.queue[0];
    assert f.(port := port) == f;
    DispatchNext(s.config, o, f, s.now, t);
    forall j: nat | j != port
      ensures Only(o.done + [Finished(f, t)], j) == Only(o.done, j)
    {
      OnlyAppend(o.done, Finished(f, t), j);
    }
    ReplaceSent(s.buffer, o.done, o.done + [Finished(f, t)], port, Take(b, t));
  }

  lemma FinishedInv(s: Switch, t: real, port: nat)
    requires Inv(s) && Enabled(s, t, Ended(port))
    ensures ProcessFrame(s, t, port).Ok? && Inv(ProcessFrame(s, t, port).state)
  {
    FinishedQueues(s, t, port);
    FinishedSent(s, t, port);
  }

  // ---------- Every run ----------

  datatype Run = Boot(config: Config) | Next(before: Run, t: real, ev: Event)

  /** The state after a run of possible events. */
  ghost predicate Reaches(run: Run, s: Switch) {
    match run
    case Boot(c) => ValidConfig(c) && s == Init(c)
    case Next(b, t, ev) => exists s0 :: Reaches(b, s0) && Enabled(s0, t, ev) && Step(s0, t, ev) == Ok(s)
  }

  lemma {:induction false} RunInv(run: Run, s: Switch)
    requires Reaches(run, s)
    ensures Inv(s)
  {
    match run
    case Boot(c) => InitInv(c);
    case Next(b, t, ev) =>
      var s0 :| Reaches(b, s0) && Enabled(s0, t, ev) && Step(s0, t, ev) == Ok(s);
      RunInv(b, s0);
      if ev.Incoming? {
        IncomingInv(s0, t, ev.frame);
      } else {
        FinishedInv(s0, t, ev.port);
      }
  }

  /** In no run is a frame taken from an empty queue. */
  lemma NeverFails(run: Run, s: Switch, t: real, ev: Event)
    requires Reaches(run, s) && Enabled(s, t, ev)
    ensures Step(s, t, ev).Ok?
  {
    RunInv(run, s);
    if ev.Ended? {
      FinishedInv(s, t, ev.port);
    }
  }

  /**
   In every run a port is busy exactly while it holds frames and exactly while one end-of-processing
   message for it is pending, due when its head frame is finished.
   */
  lemma BusyMeansPending(run: Run, s: Switch, i: nat, time: real)
    requires Reaches(run, s) && i < |s.buffer|
    ensures var b := s.buffer[i];
            && (b.cpuBusy <==> b.queue != [])
            && (b.cpuBusy ==> |b.finished| < |b.accepted|)
            && s.pending[EndProcessing(i, time)] ==
               if b.cpuBusy && time == NextEnd(b, s.config.processingTime) then 1 else 0
  {
    RunInv(run, s);
    assert PortOk(s.buffer[i], s.now, s.config.processingTime);
    ExpectedCount(s.buffer, s.config.processingTime, i, time);
  }

  /** The byte budget and the frame counts add up, and the budget is below its limit while frames are held. */
  lemma BufferConserved(run: Run, s: Switch)
    requires Reaches(run, s)
    ensures s.used == TotalBytes(s.buffer)
    ensures TotalHeld(s.buffer) > 0 ==> s.used < s.config.bufferSize
    ensures s.past.arrivals == s.processed + s.dropped + TotalHeld(s.buffer)
  {
    RunInv(run, s);
  }

  /**
   Each port serves its frames in order of arrival; the k-th is finished one processing time after it
   arrives or its predecessor is finished, whichever is later.
   */
  lemma PortsServeInOrder(run: Run, s: Switch, i: nat, k: nat)
    requires Reaches(run, s) && i < |s.buffer| && k < |s.buffer[i].finished|
    ensures var b := s.buffer[i];
            && |b.finished| <= |b.accepted|
            && b.finished[k] == s.config.processingTime +
               (if k == 0 then b.accepted[0].time else Max(b.accepted[k].time, b.finished[k - 1]))
            && Frames(b.accepted)[|b.finished|..] == b.queue
  {
    RunInv(run, s);
    assert PortOk(s.buffer[i], s.now, s.config.processingTime);
    assert FinishedOnTime(s.buffer[i], k, s.config.processingTime);
  }

  lemma {:induction false} OnlyMember(done: seq<Finished>, i: nat, k: nat) returns (j: nat)
    requires k < |Only(done, i)|
    ensures j < |done| && done[j] == Only(done, i)[k]
  {
    var n := |done| - 1;
    if k < |Only(done[..n], i)| {
      j := OnlyMember(done[..n], i, k);
    } else {
      j := n;
    }
  }

  /**
   From arrival to the output ports: the k-th frame a port has finished was the k-th it took in, and it was sent on,
   at the time at which it was finished, by what the table had seen till then.
   */
  lemma ArrivalToPorts(run: Run, s: Switch, i: nat, k: nat) returns (j: nat)
    requires Reaches(run, s) && i < |s.buffer| && k < |s.buffer[i].finished|
    ensures var b, o := s.buffer[i], s.past.output;
            && k < |b.accepted| && j < |o.done| == |o.ports|
            && o.done[j] == Finished(b.accepted[k].frame, b.finished[k]) && b.accepted[k].frame.port == i
            && RightlySent(s.config, Seen(o.done[..j]), o.done[j], o.ports[j])
  {
    RunInv(run, s);
    var b, o := s.buffer[i], s.past.output;
    assert PortSent(b, i, o.done);
    j := OnlyMember(o.done, i, k);
    SentByHistory(s.config, o, s.now, j);
  }

  /** What an event does to frames taken in, frames dropped and PAUSE times, with so many bytes held before. */
  ghost predicate Admits(s: Switch, t: real, ev: Event, r: Switch, held: int) {
    var taken := ev.Incoming? && held + ev.frame.length < s.config.bufferSize;
    && |r.buffer| == |s.buffer|
    && (forall i :: 0 <= i < |s.buffer| ==>
          r.buffer[i].accepted ==
            if taken && i == ev.frame.port then s.buffer[i].accepted + [Arrival(ev.frame, t)] else s.buffer[i].accepted)
    && r.dropped == s.dropped + (if ev.Incoming? && !taken then 1 else 0)
    && r.past.pauses == if taken then PausesWith(s.config, s.past.pauses, t, held + ev.frame.length) else s.past.pauses
  }

  lemma AdmitPauses(s: Switch, f: Frame)
    requires f.port < |s.buffer| && PausesOk(s.config, s.past.pauses, s.pauseLastSent)
    ensures var r := Admit(s, f);
            && r.config == s.config && r.dropped == s.dropped && PausesOk(r.config, r.past.pauses, r.pauseLastSent)
            && r.past.pauses == PausesWith(s.config, s.past.pauses, s.now, s.used + f.length)
  {
    PauseNext(s.config, s.past.pauses, s.pauseLastSent, s.now, s.used + f.length);
  }

  lemma FinishedPauses(s: Switch, t: real, port: nat)
    requires port < |s.buffer| && ProcessFrame(s, t, port).Ok?
    ensures Admits(s, t, Ended(port), ProcessFrame(s, t, port).state, s.used)
  {
  }

  lemma StepPauses(s: Switch, t: real, ev: Event)
    requires ev.Incoming? ==> ev.frame.port < |s.buffer|
    requires ev.Ended? ==> ev.port < |s.buffer|
    requires Step(s, t, ev).Ok? && PausesOk(s.config, s.past.pauses, s.pauseLastSent)
    ensures var r := Step(s, t, ev).state;
            r.config == s.config && PausesOk(r.config, r.past.pauses, r.pauseLastSent) && Admits(s, t, ev, r, s.used)
  {
    if ev.Incoming? && ev.frame.length + s.used < s.config.bufferSize {
      AdmitPauses(s.(now := t, past := s.past.(arrivals := s.past.arrivals + 1)), ev.frame);
    } else if ev.Ended? {
      FinishedPauses(s, t, ev.port);
    }
  }

  lemma {:induction false} PausesInRun(run: Run, s: Switch)
    requires Reaches(run, s)
    ensures PausesOk(s.config, s.past.pauses, s.pauseLastSent)
  {
    match run
    case Boot(c) =>
    case Next(b, t, ev) =>
      var s0 :| Reaches(b, s0) && Enabled(s0, t, ev) && Step(s0, t, ev) == Ok(s);
      PausesInRun(b, s0);
      StepPauses(s0, t, ev);
  }

  /**
   In every run: a frame is taken in, on the port where it arrives, exactly if it leaves room in the buffer, and
   PAUSE frames go out exactly when one is taken in, with it at least the watermark is held on all ports, and more
   than the interval has passed since the last time.
   */
  lemma PausesExactly(run: Run, s: Switch, t: real, ev: Event)
    requires Reaches(run, s) && Enabled(s, t, ev)
    ensures PausesApart(s.config, s.past.pauses) && Step(s, t, ev).Ok?
    ensures Admits(s, t, ev, Step(s, t, ev).state, TotalBytes(s.buffer))
  {
    NeverFails(run, s, t, ev);
    BufferConserved(run, s);
    PausesInRun(run, s);
    StepPauses(s, t, ev);
  }

  /** What a reachable state allows: an event succeeds, from when the clock has been set as well, and extends the run. */
  lemma Proceed(run: Run, s: Switch, t: real, ev: Event)
    requires Reaches(run, s) && Enabled(s, t, ev)
    ensures T.Now(s.past.output.seen) <= t
    ensures Step(s.(now := t), t, ev) == Step(s, t, ev) && Step(s, t, ev).Ok?
    ensures Reaches(Next(run, t, ev), Step(s, t, ev).state)
  {
    RunInv(run, s);
    NeverFails(run, s, t, ev);
    SetClock(s, t, ev);
  }

  lemma SetClock(s: Switch, t: real, ev: Event)
    requires ev.Incoming? ==> ev.frame.port < |s.buffer|
    requires ev.Ended? ==> ev.port < |s.buffer|
    ensures Step(s.(now := t), t, ev) == Step(s, t, ev)
  {
  }

  /** The end of processing of a frame, field by field. */
  lemma Processed(s: Switch, port: nat, r: Switch)
    requires port < |s.buffer| && s.buffer[port].queue != []
    requires r.config == s.config && r.now == s.now && r.pauseLastSent == s.pauseLastSent && r.dropped == s.dropped
    requires r.buffer == s.buffer[port := Take(s.buffer[port], s.now)]
    requires var rest := s.pending - multiset{EndProcessing(port, s.now)};
             r.pending == if s.buffer[port].queue[1..] != [] then rest + EndAt(port, s.now, s.config) else rest
    requires r.used == s.used - s.buffer[port].queue[0].length && r.processed == s.processed + 1
    requires r.past == s.past.(output := Dispatch(s.config, s.past.output, s.buffer[port].queue[0].(port := port), s.now))
    ensures ProcessFrame(s, s.now, port) == Ok(r)
  {
  }

  // ---------- The module ----------

  class MACRelayUnitPP {
    const config: Config
    const base: MACRelayUnitBase
    var simTime: real
    var buffer: seq<Port>
    var bufferUsed: int
    var pauseLastSent: real
    var numProcessedFrames: nat
    var numDroppedFrames: nat
    var scheduled: multiset<EndProcessing>
    ghost var past: Past
    ghost var run: Run

    ghost function View(): Switch
      reads this
    {
      Switch(config, simTime, buffer, scheduled, bufferUsed, pauseLastSent,
             numProcessedFrames, numDroppedFrames, past)
    }

    /** The address table is in step with what has been sent. */
    ghost predicate TableValid()
      reads this, base
    {
      && base.Valid() && base.history == past.output.seen
      && base.numPorts == config.ports && base.addressTableSize == config.addressTableSize
      && base.agingTime == config.agingTime
    }

    /** The fields are what a possible run of the switch has made of them. */
    ghost predicate Valid()
      reads this, base
    {
      Reaches(run, View()) && TableValid()
    }

    constructor (c: Config)
      requires ValidConfig(c)
      ensures Valid() && run == Boot(c) && fresh(base)
    {
      base := new MACRelayUnitBase(c.ports, c.addressTableSize, c.agingTime);
      config, simTime := c, 0.0;
      buffer := seq(c.ports, _ => Port([], false, [], []));
      bufferUsed, pauseLastSent, numProcessedFrames, numDroppedFrames := 0, 0.0, 0, 0;
      scheduled, past := multiset{}, Past(0, [], NO_OUTPUT);
      run := Boot(c);
    }

    /** PAUSE frames go out on all ports, or on none. */
    method SendPauseFrames() returns (ports: seq<nat>)
      modifies this`pauseLastSent, this`past
      ensures var sends := SendsPause(config, bufferUsed, simTime, old(pauseLastSent));
              && |ports| == (if sends then config.ports else 0)
              && (forall i :: 0 <= i < |ports| ==> ports[i] == i)
              && pauseLastSent == (if sends then simTime else old(pauseLastSent))
              && past == if sends then old(past).(pauses := old(past).pauses + [simTime]) else old(past)
    {
      ports := [];
      if SendsPause(config, bufferUsed, simTime, pauseLastSent) {
        var i := 0;
        while i < config.ports
          invariant i <= config.ports && |ports| == i && forall j :: 0 <= j < i ==> ports[j] == j
        {
          ports := ports + [i];
          i := i + 1;
        }
        pauseLastSent := simTime;
        past := past.(pauses := past.pauses + [simTime]);
      }
    }

    method AdmitFrame(frame: Frame)
      requires frame.port < |buffer|
      modifies this`bufferUsed, this`pauseLastSent, this`scheduled, this`buffer, this`past
      ensures View() == Admit(old(View()), frame)
    {
      var b := buffer[frame.port];
      bufferUsed := bufferUsed + frame.length;
      var pauses := SendPauseFrames();
      if !b.cpuBusy {
        scheduled := scheduled + EndAt(frame.port, simTime, config);
      }
      buffer := buffer[frame.port := Put(b, frame, simTime)];
    }

    method HandleIncomingFrame(frame: Frame)
      requires frame.port < |buffer|
      modifies this
      ensures View() == HandleIncoming(old(View()), simTime, frame)
      ensures simTime == old(simTime) && past.output == old(past.output) && run == old(run)
    {
      past := past.(arrivals := past.arrivals + 1);
      if frame.length + bufferUsed < config.bufferSize {
        AdmitFrame(frame);
      } else {
        numDroppedFrames := numDroppedFrames + 1;
      }
    }

    /** The frame is learned from and sent on, and its room given back. */
    method ReleaseFrame(port: nat, frame: Frame)
      requires TableValid() && T.Now(past.output.seen) <= simTime
      modifies this`past, this`bufferUsed, this`numProcessedFrames, base
      ensures TableValid() && bufferUsed == old(bufferUsed) - frame.length
      ensures numProcessedFrames == old(numProcessedFrames) + 1
      ensures past == old(past).(output := Dispatch(config, old(past).output, frame.(port := port), simTime))
    {
      var x := frame.(port := port);
      var ports := base.HandleAndDispatchFrame(frame.src, frame.dest, port, simTime);
      assert ports == PortsFor(config, past.output.seen, Finished(x, simTime));
      past := past.(output := Dispatch(config, past.output, x, simTime));
      bufferUsed := bufferUsed - frame.length;
      numProcessedFrames := numProcessedFrames + 1;
    }

    /** The buffer of a port after its head frame is finished. */
    method AdvancePort(port: nat)
      requires port < |buffer| && buffer[port].queue != []
      modifies this`buffer, this`scheduled
      ensures buffer == old(buffer)[port := Take(old(buffer)[port], simTime)]
      ensures var rest := old(scheduled) - multiset{EndProcessing(port, simTime)};
              scheduled == if old(buffer)[port].queue[1..] != [] then rest + EndAt(port, simTime, config) else rest
    {
      var b := buffer[port];
      var queue, busy := b.queue[1..], b.cpuBusy;
      scheduled := scheduled - multiset{EndProcessing(port, simTime)};
      if queue != [] {
        scheduled := scheduled + EndAt(port, simTime, config);
      } else {
        busy := false;
      }
      buffer := buffer[port := Port(queue, busy, b.accepted, b.finished + [simTime])];
    }

    /** The end-of-processing message of a port; false if its queue is empty. */
    method ProcessFinished(port: nat) returns (ok: bool)
      requires port < |buffer| && TableValid() && T.Now(past.output.seen) <= simTime
      modifies this, base
      ensures ProcessFrame(old(View()), simTime, port) == if ok then Ok(View()) else QueueEmpty
      ensures TableValid() && simTime == old(simTime) && run == old(run)
    {
      if buffer[port].queue == [] {
        return false;
      }
      ghost var before := View();
      ReleaseFrame(port, buffer[port].queue[0]);
      AdvancePort(port);
      Processed(before, port, View());
      return true;
    }

    /** One event of the simulation: no queue is found empty, and the run goes on. */
    method HandleMessage(now: real, ev: Event)
      requires Valid() && Enabled(View(), now, ev)
      modifies this, base
      ensures Valid() && run == Next(old(run), now, ev)
    {
      ghost var before := View();
      Proceed(run, before, now, ev);
      simTime := now;
      ghost var clock := View();
      assert clock == before.(now := now);
      match ev {
        case Incoming(f) =>
          HandleIncomingFrame(f);
          assert Step(clock, now, ev) == Ok(View());
        case Ended(port) =>
          var ok := ProcessFinished(port);
          assert Step(clock, now, ev) == Ok(View());
      }
      run := Next(run, now, ev);
    }
  }
}
