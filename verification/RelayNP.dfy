/**
 The switch with N processors and one shared queue.
 */
module RelayNP {
  import opened Simulation
  import opened RelayShared
  import opened RelayDispatch
  import opened RelayUnit

  /** A processor's end-of-processing message: its context pointer, and when it is scheduled for. */
  datatype Cpu = Cpu(context: Option<Frame>, scheduled: Option<real>)

  /**
   What has happened: frames taken in, start time of each frame so far started, number of arrivals, times at
   which PAUSE frames were sent on all ports, frames finished and sent on.
   */
  datatype Past = Past(accepted: seq<Arrival>, starts: seq<real>, arrivals: nat, pauses: seq<real>, output: Output)

  datatype Switch = Switch(
    config: Config, now: real,
    queue: seq<Frame>, cpus: seq<Cpu>,
    used: int, pauseLastSent: real, processed: nat, dropped: nat,
    past: Past)

  datatype Result = Ok(state: Switch) | AssertionFailed

  const IDLE := Cpu(None, None)

  function Init(c: Config): Switch {
    Switch(c, 0.0, [], seq(c.cpus, _ => IDLE), 0, 0.0, 0, 0, Past([], [], 0, [], NO_OUTPUT))
  }

  /** Index of the first idle processor, or the number of processors. */
  function FirstIdle(cpus: seq<Cpu>): (i: nat)
    ensures i <= |cpus|
    ensures i < |cpus| ==> cpus[i].scheduled.None?
    ensures forall j :: 0 <= j < i ==> cpus[j].scheduled.Some?
  {
    if cpus == [] || cpus[0].scheduled.None? then 0
    else
      var i := FirstIdle(cpus[1..]);
      i + 1
  }

  /** When a frame that starts at `start` is finished. */
  function Finish(start: real, processingTime: real): real {
    start + processingTime
  }

  function StartOn(s: Switch, cpu: nat, f: Frame): Switch
    requires cpu < |s.cpus|
  {
    s.(cpus := s.cpus[cpu := Cpu(Some(f), Some(Finish(s.now, s.config.processingTime)))],
       past := s.past.(starts := s.past.starts + [s.now]))
  }

  function Accept(s: Switch, f: Frame): Switch {
    var used := s.used + f.length;
    var pause := SendsPause(s.config, used, s.now, s.pauseLastSent);
    s.(used := used,
       pauseLastSent := if pause then s.now else s.pauseLastSent,
       past := s.past.(accepted := s.past.accepted + [Arrival(f, s.now)], arrivals := s.past.arrivals + 1,
                       pauses := if pause then s.past.pauses + [s.now] else s.past.pauses))
  }

  /** A frame arrives at time `t`. */
  function HandleIncoming(s0: Switch, t: real, f: Frame): Result {
    var s := s0.(now := t);
    if f.length + s.used < s.config.bufferSize then
      var s1 := Accept(s, f);
      var i := FirstIdle(s1.cpus);
      if i == |s1.cpus| then Ok(s1.(queue := s1.queue + [f]))
      else if s1.cpus[i].context.Some? then AssertionFailed
      else Ok(StartOn(s1, i, f))
    else Ok(s.(dropped := s.dropped + 1, past := s.past.(arrivals := s.past.arrivals + 1)))
  }

  /** The end-of-processing message of `cpu` arrives at time `t`. */
  function ProcessFrame(s0: Switch, t: real, cpu: nat): Result
    requires cpu < |s0.cpus|
  {
    var s := s0.(now := t);
    match s.cpus[cpu].context
    case None => AssertionFailed
    case Some(f) =>
      var s1 := s.(cpus := s.cpus[cpu := IDLE], used := s.used - f.length, processed := s.processed + 1,
                   past := s.past.(output := Dispatch(s.config, s.past.output, f, t)));
      if s1.queue != [] then Ok(StartOn(s1.(queue := s1.queue[1..]), cpu, s1.queue[0])) else Ok(s1)
  }

  // ---------- Runs ----------

  datatype Event = Incoming(frame: Frame) | Ended(cpu: nat)

  ghost predicate Enabled(s: Switch, t: real, ev: Event) {
    && s.now <= t
    && (forall i :: 0 <= i < |s.cpus| && s.cpus[i].scheduled.Some? ==> t <= s.cpus[i].scheduled.value)
    && (ev.Ended? ==> ev.cpu < |s.cpus| && s.cpus[ev.cpu].scheduled == Some(t))
  }

  function Step(s: Switch, t: real, ev: Event): Result
    requires ev.Ended? ==> ev.cpu < |s.cpus|
  {
    match ev
    case Incoming(f) => HandleIncoming(s, t, f)
    case Ended(cpu) => ProcessFrame(s, t, cpu)
  }

  // ---------- The processors taken together ----------

  predicate Busy(c: Cpu) {
    c.scheduled.Some?
  }

  /** The frames on the processors, each with the time at which it will be finished. */
  function Running(cpus: seq<Cpu>): multiset<Finished> {
    if cpus == [] then multiset{} else Running(cpus[1..]) + RunningOne(cpus[0])
  }

  function RunningOne(c: Cpu): multiset<Finished> {
    if c.context.Some? && c.scheduled.Some? then multiset{Finished(c.context.value, c.scheduled.value)}
    else multiset{}
  }

  function ServedBytes(cpus: seq<Cpu>): nat {
    if cpus == [] then 0 else ServedBytes(cpus[1..]) + BytesOne(cpus[0])
  }

  function BytesOne(c: Cpu): nat {
    if c.context.Some? then c.context.value.length else 0
  }

  function BusyCount(cpus: seq<Cpu>): (n: nat)
    ensures n <= |cpus|
  {
    if cpus == [] then 0 else BusyCount(cpus[1..]) + if Busy(cpus[0]) then 1 else 0
  }

  /** The times at which the frames on the processors will be finished. */
  function Ends(cpus: seq<Cpu>): multiset<real> {
    if cpus == [] then multiset{} else Ends(cpus[1..]) + EndsOne(cpus[0])
  }

  function EndsOne(c: Cpu): multiset<real> {
    if Busy(c) then multiset{c.scheduled.value} else multiset{}
  }

  lemma {:induction false} ReplaceRunning(cpus: seq<Cpu>, i: nat, c: Cpu)
    requires i < |cpus|
    ensures Running(cpus[i := c]) + RunningOne(cpus[i]) == Running(cpus) + RunningOne(c)
  {
    var rest := cpus[1..];
    if i == 0 {
      UpdateHead(cpus, c);
    } else {
      ReplaceRunning(rest, i - 1, c);
      UpdateTail(cpus, i, c);
      AddBoth(Running(rest[i - 1 := c]), RunningOne(cpus[i]), Running(rest), RunningOne(c), RunningOne(cpus[0]));
    }
  }

  lemma {:induction false} ReplaceEnds(cpus: seq<Cpu>, i: nat, c: Cpu)
    requires i < |cpus|
    ensures Ends(cpus[i := c]) + EndsOne(cpus[i]) == Ends(cpus) + EndsOne(c)
  {
    var rest := cpus[1..];
    if i == 0 {
      UpdateHead(cpus, c);
    } else {
      ReplaceEnds(rest, i - 1, c);
      UpdateTail(cpus, i, c);
      AddBoth(Ends(rest[i - 1 := c]), EndsOne(cpus[i]), Ends(rest), EndsOne(c), EndsOne(cpus[0]));
    }
  }

  lemma {:induction false} ReplaceCounts(cpus: seq<Cpu>, i: nat, c: Cpu)
    requires i < |cpus|
    ensures ServedBytes(cpus[i := c]) + BytesOne(cpus[i]) == ServedBytes(cpus) + BytesOne(c)
    ensures BusyCount(cpus[i := c]) + (if Busy(cpus[i]) then 1 else 0) == BusyCount(cpus) + (if Busy(c) then 1 else 0)
  {
    if i == 0 {
      UpdateHead(cpus, c);
    } else {
      ReplaceCounts(cpus[1..], i - 1, c);
      UpdateTail(cpus, i, c);
    }
  }

  lemma {:induction false} BusyCountAll(cpus: seq<Cpu>)
    ensures BusyCount(cpus) == |cpus| <==> forall i :: 0 <= i < |cpus| ==> Busy(cpus[i])
    ensures BusyCount(cpus) <= |cpus|
  {
    if cpus != [] {
      BusyCountAll(cpus[1..]);
      assert forall i :: 0 < i < |cpus| ==> cpus[i] == cpus[1..][i - 1];
    }
  }

  lemma {:induction false} EndsAreScheduled(cpus: seq<Cpu>, t: real)
    requires forall i :: 0 <= i < |cpus| && Busy(cpus[i]) ==> t <= cpus[i].scheduled.value
    ensures forall x :: x in Ends(cpus) ==> t <= x
  {
    if cpus != [] {
      EndsAreScheduled(cpus[1..], t);
    }
  }

  lemma {:induction false} IdleCpus(n: nat)
    ensures var cpus := seq(n, _ => IDLE);
            Running(cpus) == multiset{} && ServedBytes(cpus) == 0 && BusyCount(cpus) == 0 && Ends(cpus) == multiset{}
  {
    if n > 0 {
      IdleCpus(n - 1);
      assert seq(n, _ => IDLE)[1..] == seq(n - 1, _ => IDLE);
    }
  }

  /** Frames, bytes, number of busy processors and end times, of all processors together. */
  datatype Load = Load(running: multiset<Finished>, bytes: nat, busy: nat, ends: multiset<real>)

  function LoadOf(cpus: seq<Cpu>): Load {
    Load(Running(cpus), ServedBytes(cpus), BusyCount(cpus), Ends(cpus))
  }

  // ---------- Invariants ----------

  ghost predicate CpusOk(cpus: seq<Cpu>, now: real) {
    && (forall i :: 0 <= i < |cpus| ==> (cpus[i].context.Some? <==> Busy(cpus[i])))
    && (forall i :: 0 <= i < |cpus| && Busy(cpus[i]) ==> now <= cpus[i].scheduled.value)
  }

  /** No processor is idle while frames wait. */
  predicate WorkConserving(queue: seq<Frame>, busy: nat, n: nat) {
    queue != [] ==> busy == n
  }

  /** The byte budget is what the held frames take, and is never reached. */
  predicate BudgetOk(used: int, queue: seq<Frame>, l: Load, bufferSize: int) {
    && used == Bytes(queue) + l.bytes
    && (queue != [] || l.busy > 0 ==> used < bufferSize)
  }

  /** The frames started, each with the time at which it is to be finished. */
  function Slots(accepted: seq<Arrival>, starts: seq<real>, p: real): (r: seq<Finished>)
    requires |starts| <= |accepted|
    ensures |r| == |starts|
    ensures forall i :: 0 <= i < |starts| ==> r[i] == Finished(accepted[i].frame, Finish(starts[i], p))
  {
    seq(|starts|, i requires 0 <= i < |starts| => Finished(accepted[i].frame, Finish(starts[i], p)))
  }

  /** The frames finished and those on the processors are those started, each at its own time. */
  ghost predicate Conserved(accepted: seq<Arrival>, starts: seq<real>, done: seq<Finished>,
                            running: multiset<Finished>, p: real) {
    |starts| <= |accepted| && multiset(done) + running == multiset(Slots(accepted, starts, p))
  }

  /** Frames are finished in the order of their start times. */
  predicate DoneOnTime(done: seq<Finished>, starts: seq<real>, p: real) {
    |done| <= |starts| && forall k :: 0 <= k < |done| ==> done[k].time == Finish(starts[k], p)
  }

  /** Every arrival was taken in or dropped; every frame started is finished or on a processor. */
  predicate Counted(s: Switch, busy: nat) {
    && |s.past.output.done| == s.processed && |s.past.starts| == s.processed + busy
    && s.past.arrivals == s.processed + s.dropped + busy + |s.queue|
  }

  /** Frames start in the order in which they were taken in. */
  predicate InOrder(accepted: seq<Frame>, started: nat, queue: seq<Frame>) {
    && |accepted| == started + |queue|
    && accepted[started..] == queue
  }

  /** In ascending order and not above the limit. */
  predicate Sorted(x: seq<real>, limit: real) {
    x == [] || (x[|x| - 1] <= limit && Sorted(x[..|x| - 1], x[|x| - 1]))
  }

  lemma {:induction false} SortedAt(x: seq<real>, limit: real, i: nat, j: nat)
    requires Sorted(x, limit) && i <= j < |x|
    ensures x[i] <= x[j] <= limit
  {
    if j < |x| - 1 {
      SortedAt(x[..|x| - 1], x[|x| - 1], i, j);
    } else if i < j {
      SortedAt(x[..|x| - 1], x[|x| - 1], i, i);
    }
  }

  function Shifted(x: seq<real>, d: real): (r: seq<real>)
    ensures |r| == |x| && forall i :: 0 <= i < |x| ==> r[i] == Finish(x[i], d)
  {
    seq(|x|, i requires 0 <= i < |x| => Finish(x[i], d))
  }

  /** The frames on the processors are the last `b` ones started, and all before them are finished. */
  ghost predicate LastStarted(starts: seq<real>, ends: multiset<real>, b: nat, now: real, p: real) {
    && Sorted(starts, now) && b <= |starts|
    && ends == multiset(Shifted(starts[|starts| - b..], p))
    && forall i :: 0 <= i < |starts| - b ==> Finish(starts[i], p) <= now
  }

  /**
   When the i-th frame starts: on arrival, or when the frame `n` places before it is finished, whichever
   is later; `n` is the number of processors.
   */
  predicate StartsOnTime(i: nat, accepted: seq<Arrival>, starts: seq<real>, n: nat, p: real)
    requires i < |starts| <= |accepted|
  {
    starts[i] == if i < n then accepted[i].time else Max(accepted[i].time, Finish(starts[i - n], p))
  }

  ghost predicate StartTimes(accepted: seq<Arrival>, starts: seq<real>, now: real, n: nat, p: real) {
    && |starts| <= |accepted|
    && (forall i :: 0 <= i < |accepted| ==> accepted[i].time <= now)
    && forall i :: 0 <= i < |starts| ==> StartsOnTime(i, accepted, starts, n, p)
  }

  /** Who holds which frames. */
  ghost predicate Holding(s: Switch, l: Load) {
    && |s.cpus| == s.config.cpus
    && WorkConserving(s.queue, l.busy, s.config.cpus)
    && BudgetOk(s.used, s.queue, l, s.config.bufferSize)
    && Conserved(s.past.accepted, s.past.starts, s.past.output.done, l.running, s.config.processingTime)
    && Counted(s, l.busy)
  }

  /** When frames start. */
  ghost predicate Timing(s: Switch, l: Load) {
    && ValidConfig(s.config)
    && InOrder(Frames(s.past.accepted), |s.past.starts|, s.queue)
    && OnTime(s.past.accepted, s.past.starts, l, s.now, s.config.cpus, s.config.processingTime)
    && |s.past.starts| == |s.past.output.done| + l.busy
    && DoneOnTime(s.past.output.done, s.past.starts, s.config.processingTime)
    && Dispatched(s.config, s.past.output, s.now)
  }

  ghost predicate OnTime(accepted: seq<Arrival>, starts: seq<real>, l: Load, now: real, n: nat, p: real) {
    LastStarted(starts, l.ends, l.busy, now, p) && StartTimes(accepted, starts, now, n, p)
  }

  ghost predicate Inv(s: Switch) {
    CpusOk(s.cpus, s.now) && Holding(s, LoadOf(s.cpus)) && Timing(s, LoadOf(s.cpus))
  }

  // ---------- Every step keeps them ----------

  lemma InitInv(c: Config)
    requires ValidConfig(c)
    ensures Inv(Init(c))
  {
    IdleCpus(c.cpus);
    InitHolding(Init(c), Load(multiset{}, 0, 0, multiset{}));
    Assemble(Init(c), Load(multiset{}, 0, 0, multiset{}));
  }

  lemma InitHolding(s: Switch, l: Load)
    requires s == Init(s.config) && ValidConfig(s.config) && l == Load(multiset{}, 0, 0, multiset{})
    ensures Holding(s, l) && Timing(s, l)
  {
    assert Slots([], [], s.config.processingTime) == [];
    assert Shifted([], s.config.processingTime) == [];
  }

  lemma FirstIdleMeaning(cpus: seq<Cpu>, now: real)
    requires CpusOk(cpus, now)
    ensures var i := FirstIdle(cpus);
            if i == |cpus| then BusyCount(cpus) == |cpus|
            else !Busy(cpus[i]) && cpus[i].context.None? && BusyCount(cpus) < |cpus|
  {
    BusyCountAll(cpus);
  }

  /** A frame is put on an idle processor. */
  lemma OccupyCpu(cpus: seq<Cpu>, i: nat, f: Frame, end: real)
    requires i < |cpus| && cpus[i] == IDLE
    ensures var c := cpus[i := Cpu(Some(f), Some(end))];
            LoadOf(c) == Occupied(LoadOf(cpus), f, end)
  {
    var c := Cpu(Some(f), Some(end));
    ReplaceRunning(cpus, i, c);
    ReplaceCounts(cpus, i, c);
    ReplaceEnds(cpus, i, c);
    PlusNothing(Running(cpus), multiset{Finished(f, end)}, Running(cpus[i := c]));
    PlusNothing(Ends(cpus), multiset{end}, Ends(cpus[i := c]));
  }

  /** A processor is freed. */
  lemma FreeCpu(cpus: seq<Cpu>, i: nat, f: Frame, end: real)
    requires i < |cpus| && cpus[i] == Cpu(Some(f), Some(end))
    ensures var c := cpus[i := IDLE];
            LoadOf(cpus) == Occupied(LoadOf(c), f, end)
  {
    ReplaceRunning(cpus, i, IDLE);
    ReplaceCounts(cpus, i, IDLE);
    ReplaceEnds(cpus, i, IDLE);
    PlusNothing(Running(cpus[i := IDLE]), multiset{Finished(f, end)}, Running(cpus));
    PlusNothing(Ends(cpus[i := IDLE]), multiset{end}, Ends(cpus));
  }

  lemma SortedLater(x: seq<real>, now: real, t: real)
    requires Sorted(x, now) && now <= t
    ensures Sorted(x, t) && Sorted(x + [t], t)
  {
    assert (x + [t])[..|x|] == x;
  }

  /** A frame that starts now joins the last ones started. */
  lemma StartJoins(starts: seq<real>, ends: multiset<real>, b: nat, now: real, p: real)
    requires LastStarted(starts, ends, b, now, p)
    ensures LastStarted(starts + [now], ends + multiset{Finish(now, p)}, b + 1, now, p)
  {
    SortedLater(starts, now, now);
    var n := |starts|;
    assert Shifted((starts + [now])[n + 1 - (b + 1)..], p) == Shifted(starts[n - b..], p) + [Finish(now, p)];
    forall i | 0 <= i < n - b
      ensures Finish((starts + [now])[i], p) <= now
    {
      assert Finish(starts[i], p) <= now;
    }
  }

  lemma FirstIsLeast(tail: seq<real>, ends: multiset<real>, now: real)
    requires ends == multiset(tail) && now in ends && forall x :: x in ends ==> now <= x
    requires forall k :: 0 <= k < |tail| ==> tail[0] <= tail[k]
    ensures tail != [] && tail[0] == now
    ensures ends == multiset{now} + multiset(tail[1..])
  {
    var k :| 0 <= k < |tail| && tail[k] == now;
    assert tail[0] in multiset(tail);
    assert tail[0] <= tail[k];
    assert tail == [tail[0]] + tail[1..];
  }

  lemma ShiftedTail(x: seq<real>, d: real)
    requires x != []
    ensures Shifted(x, d)[1..] == Shifted(x[1..], d)
  {
  }

  lemma CancelOne(rest: multiset<real>, m: multiset<real>, x: real)
    requires rest + multiset{x} == multiset{x} + m
    ensures rest == m
  {
    assert rest == (rest + multiset{x}) - multiset{x};
  }

  lemma ShiftedLeast(x: seq<real>, limit: real, m: nat, d: real, k: nat)
    requires Sorted(x, limit) && m + k < |x|
    ensures Shifted(x[m..], d)[0] <= Shifted(x[m..], d)[k]
  {
    SortedAt(x, limit, m, m + k);
  }

  lemma FirstOfLast(starts: seq<real>, ends: multiset<real>, b: nat, now: real, p: real)
    requires LastStarted(starts, ends, b, now, p)
    requires now in ends && forall x :: x in ends ==> now <= x
    ensures b > 0 && Finish(starts[|starts| - b], p) == now
    ensures ends == multiset{now} + multiset(Shifted(starts[|starts| - (b - 1)..], p))
  {
    var m := |starts| - b;
    var last := starts[m..];
    var tail := Shifted(last, p);
    forall k | 0 <= k < |tail|
      ensures tail[0] <= tail[k]
    {
      ShiftedLeast(starts, now, m, p, k);
    }
    FirstIsLeast(tail, ends, now);
    ShiftedTail(last, p);
    assert last[1..] == starts[m + 1..];
  }

  /** The first to be finished is the first started of those on the processors. */
  lemma FirstEnds(starts: seq<real>, ends: multiset<real>, rest: multiset<real>, b: nat, now: real, p: real)
    requires LastStarted(starts, ends, b, now, p)
    requires ends == rest + multiset{now} && forall x :: x in ends ==> now <= x
    ensures b > 0 && Finish(starts[|starts| - b], p) == now
    ensures LastStarted(starts, rest, b - 1, now, p)
  {
    FirstOfLast(starts, ends, b, now, p);
    CancelOne(rest, multiset(Shifted(starts[|starts| - (b - 1)..], p)), now);
  }

  lemma StartsLater(starts: seq<real>, ends: multiset<real>, b: nat, now: real, t: real, p: real)
    requires LastStarted(starts, ends, b, now, p) && now <= t
    ensures LastStarted(starts, ends, b, t, p)
  {
  }

  lemma AcceptTimes(accepted: seq<Arrival>, starts: seq<real>, now: real, t: real, n: nat, p: real, f: Frame)
    requires StartTimes(accepted, starts, now, n, p) && now <= t
    ensures StartTimes(accepted, starts, t, n, p) && StartTimes(accepted + [Arrival(f, t)], starts, t, n, p)
  {
    forall i | 0 <= i < |starts|
      ensures StartsOnTime(i, accepted + [Arrival(f, t)], starts, n, p)
    {
      assert StartsOnTime(i, accepted, starts, n, p);
    }
  }

  lemma StartTimesNext(accepted: seq<Arrival>, starts: seq<real>, now: real, n: nat, p: real)
    requires StartTimes(accepted, starts, now, n, p) && |starts| < |accepted| && n > 0
    requires now == if |starts| < n then accepted[|starts|].time
                    else Max(accepted[|starts|].time, Finish(starts[|starts| - n], p))
    ensures StartTimes(accepted, starts + [now], now, n, p)
  {
    forall i | 0 <= i < |starts| + 1
      ensures StartsOnTime(i, accepted, starts + [now], n, p)
    {
      if i < |starts| {
        assert StartsOnTime(i, accepted, starts, n, p);
      }
    }
  }

  lemma FramesAppend(accepted: seq<Arrival>, f: Frame, t: real, k: nat)
    requires k <= |accepted|
    ensures Frames(accepted + [Arrival(f, t)]) == Frames(accepted) + [f]
    ensures Frames(accepted + [Arrival(f, t)])[k..] == Frames(accepted)[k..] + [f]
  {
  }

  lemma ConservedAccept(accepted: seq<Arrival>, starts: seq<real>, done: seq<Finished>, running: multiset<Finished>,
                        p: real, x: Arrival)
    requires Conserved(accepted, starts, done, running, p)
    ensures Conserved(accepted + [x], starts, done, running, p)
  {
    assert Slots(accepted + [x], starts, p) == Slots(accepted, starts, p);
  }

  /** The next frame in order starts. */
  lemma ConservedStart(accepted: seq<Arrival>, starts: seq<real>, done: seq<Finished>, running: multiset<Finished>,
                       p: real, f: Frame, t: real)
    requires Conserved(accepted, starts, done, running, p)
    requires |starts| < |accepted| && accepted[|starts|].frame == f
    ensures Conserved(accepted, starts + [t], done, running + multiset{Finished(f, Finish(t, p))}, p)
  {
    var x := Finished(f, Finish(t, p));
    assert Slots(accepted, starts + [t], p) == Slots(accepted, starts, p) + [x];
    assert multiset(done) + (running + multiset{x}) == (multiset(done) + running) + multiset{x};
  }

  /** A running frame is finished. */
  lemma ConservedDone(accepted: seq<Arrival>, starts: seq<real>, done: seq<Finished>, running: multiset<Finished>,
                      p: real, x: Finished)
    requires Conserved(accepted, starts, done, running + multiset{x}, p)
    ensures Conserved(accepted, starts, done + [x], running, p)
  {
    assert multiset(done + [x]) + running == multiset(done) + (running + multiset{x});
  }

  lemma EnqueueHolding(s: Switch, t: real, f: Frame, l: Load)
    requires Holding(s, l) && f.length + s.used < s.config.bufferSize && l.busy == s.config.cpus
    ensures Holding(Accept(s.(now := t), f).(queue := s.queue + [f]), l)
  {
    BytesAppend(s.queue, f);
    ConservedAccept(s.past.accepted, s.past.starts, s.past.output.done, l.running, s.config.processingTime, Arrival(f, t));
  }

  lemma EnqueueTiming(s: Switch, t: real, f: Frame, l: Load)
    requires Timing(s, l) && s.now <= t
    ensures Timing(Accept(s.(now := t), f).(queue := s.queue + [f]), l)
  {
    FramesAppend(s.past.accepted, f, t, |s.past.starts|);
    StartsLater(s.past.starts, l.ends, l.busy, s.now, t, s.config.processingTime);
    AcceptTimes(s.past.accepted, s.past.starts, s.now, t, s.config.cpus, s.config.processingTime, f);
  }

  function Occupied(l: Load, f: Frame, end: real): Load {
    Load(l.running + multiset{Finished(f, end)}, l.bytes + f.length, l.busy + 1, l.ends + multiset{end})
  }

  lemma ArrivalHolding(s: Switch, t: real, f: Frame, cpu: nat, l: Load)
    requires Holding(s, l) && f.length + s.used < s.config.bufferSize
    requires cpu < |s.cpus| && l.busy < |s.cpus| && |s.past.starts| == |s.past.accepted|
    ensures Holding(StartOn(Accept(s.(now := t), f), cpu, f), Occupied(l, f, Finish(t, s.config.processingTime)))
  {
    var x, p := Arrival(f, t), s.config.processingTime;
    ConservedAccept(s.past.accepted, s.past.starts, s.past.output.done, l.running, p, x);
    ConservedStart(s.past.accepted + [x], s.past.starts, s.past.output.done, l.running, p, f, t);
  }

  lemma TimingFrom(s: Switch, l: Load, accepted: seq<Arrival>, starts: seq<real>, queue: seq<Frame>, now: real)
    requires ValidConfig(s.config) && InOrder(Frames(accepted), |starts|, queue)
    requires OnTime(accepted, starts, l, now, s.config.cpus, s.config.processingTime)
    requires |starts| == |s.past.output.done| + l.busy
    requires DoneOnTime(s.past.output.done, starts, s.config.processingTime)
    requires Dispatched(s.config, s.past.output, now)
    requires s.past.accepted == accepted && s.past.starts == starts && s.queue == queue && s.now == now
    ensures Timing(s, l)
  {
  }

  /** A frame that arrives while a processor is idle starts at once. */
  lemma ArrivalOnTime(accepted: seq<Arrival>, starts: seq<real>, l: Load, now: real, t: real, n: nat, p: real, f: Frame)
    requires OnTime(accepted, starts, l, now, n, p) && now <= t && |starts| == |accepted| && l.busy < n
    ensures OnTime(accepted + [Arrival(f, t)], starts + [t], Occupied(l, f, Finish(t, p)), t, n, p)
  {
    StartsLater(starts, l.ends, l.busy, now, t, p);
    StartJoins(starts, l.ends, l.busy, t, p);
    AcceptTimes(accepted, starts, now, t, n, p, f);
    StartTimesNext(accepted + [Arrival(f, t)], starts, t, n, p);
  }

  lemma ArrivalTiming(s: Switch, t: real, f: Frame, cpu: nat, l: Load)
    requires Timing(s, l) && s.now <= t && cpu < |s.cpus| && s.queue == []
    requires l.busy < |s.cpus| == s.config.cpus
    ensures Timing(StartOn(Accept(s.(now := t), f), cpu, f), Occupied(l, f, Finish(t, s.config.processingTime)))
  {
    FramesAppend(s.past.accepted, f, t, |s.past.starts|);
    ArrivalOnTime(s.past.accepted, s.past.starts, l, s.now, t, s.config.cpus, s.config.processingTime, f);
    TimingFrom(StartOn(Accept(s.(now := t), f), cpu, f), Occupied(l, f, Finish(t, s.config.processingTime)),
               s.past.accepted + [Arrival(f, t)], s.past.starts + [t], s.queue, t);
  }

  lemma DropTiming(s: Switch, t: real, l: Load)
    requires Timing(s, l) && s.now <= t
    ensures Timing(s.(now := t, dropped := s.dropped + 1, past := s.past.(arrivals := s.past.arrivals + 1)), l)
  {
    StartsLater(s.past.starts, l.ends, l.busy, s.now, t, s.config.processingTime);
    AcceptTimes(s.past.accepted, s.past.starts, s.now, t, s.config.cpus, s.config.processingTime, Frame(0, 0, 0, 0, 0));
  }

  lemma CpusLater(cpus: seq<Cpu>, now: real, t: real)
    requires CpusOk(cpus, now)
    requires forall i :: 0 <= i < |cpus| && Busy(cpus[i]) ==> t <= cpus[i].scheduled.value
    ensures CpusOk(cpus, t)
  {
  }

  lemma CpusReplace(cpus: seq<Cpu>, t: real, i: nat, c: Cpu)
    requires CpusOk(cpus, t) && i < |cpus| && (c.context.Some? <==> Busy(c)) && (Busy(c) ==> t <= c.scheduled.value)
    ensures CpusOk(cpus[i := c], t)
  {
  }

  /** The processors after a start. */
  lemma StartOnCpus(s: Switch, cpu: nat, f: Frame)
    requires cpu < |s.cpus| && s.cpus[cpu] == IDLE && CpusOk(s.cpus, s.now) && ValidConfig(s.config)
    ensures var r := StartOn(s, cpu, f);
            && CpusOk(r.cpus, r.now)
            && LoadOf(r.cpus) == Occupied(LoadOf(s.cpus), f, Finish(s.now, s.config.processingTime))
  {
    var end := Finish(s.now, s.config.processingTime);
    OccupyCpu(s.cpus, cpu, f, end);
    CpusReplace(s.cpus, s.now, cpu, Cpu(Some(f), Some(end)));
  }

  /** All parts of the invariant, put together. */
  lemma Assemble(s: Switch, l: Load)
    requires CpusOk(s.cpus, s.now) && LoadOf(s.cpus) == l && Holding(s, l) && Timing(s, l)
    ensures Inv(s)
  {
  }

  lemma ArrivalInv(s: Switch, t: real, f: Frame, i: nat)
    requires Inv(s) && Enabled(s, t, Incoming(f)) && f.length + s.used < s.config.bufferSize
    requires i < |s.cpus| && s.cpus[i] == IDLE && BusyCount(s.cpus) < |s.cpus|
    ensures Inv(StartOn(Accept(s.(now := t), f), i, f))
  {
    var l, a := LoadOf(s.cpus), Accept(s.(now := t), f);
    CpusLater(s.cpus, s.now, t);
    StartOnCpus(a, i, f);
    ArrivalHolding(s, t, f, i, l);
    ArrivalTiming(s, t, f, i, l);
    Assemble(StartOn(a, i, f), Occupied(l, f, Finish(t, s.config.processingTime)));
  }

  lemma QueuedIncoming(s: Switch, t: real, f: Frame)
    requires f.length + s.used < s.config.bufferSize && FirstIdle(s.cpus) == |s.cpus|
    ensures HandleIncoming(s, t, f) == Ok(Accept(s.(now := t), f).(queue := s.queue + [f]))
  {
  }

  lemma StartedIncoming(s: Switch, t: real, f: Frame, i: nat)
    requires f.length + s.used < s.config.bufferSize && FirstIdle(s.cpus) == i < |s.cpus| && s.cpus[i].context.None?
    ensures HandleIncoming(s, t, f) == Ok(StartOn(Accept(s.(now := t), f), i, f))
  {
  }

  lemma QueuedInv(s: Switch, t: real, f: Frame)
    requires Inv(s) && Enabled(s, t, Incoming(f)) && f.length + s.used < s.config.bufferSize
    requires BusyCount(s.cpus) == |s.cpus|
    ensures Inv(Accept(s.(now := t), f).(queue := s.queue + [f]))
  {
    var l := LoadOf(s.cpus);
    CpusLater(s.cpus, s.now, t);
    EnqueueHolding(s, t, f, l);
    EnqueueTiming(s, t, f, l);
    Assemble(Accept(s.(now := t), f).(queue := s.queue + [f]), l);
  }

  lemma IncomingInv(s: Switch, t: real, f: Frame)
    requires Inv(s) && Enabled(s, t, Incoming(f))
    ensures HandleIncoming(s, t, f).Ok? && Inv(HandleIncoming(s, t, f).state)
  {
    if f.length + s.used < s.config.bufferSize {
      var i := FirstIdle(s.cpus);
      FirstIdleMeaning(s.cpus, s.now);
      if i == |s.cpus| {
        QueuedIncoming(s, t, f);
        QueuedInv(s, t, f);
      } else {
        StartedIncoming(s, t, f, i);
        ArrivalInv(s, t, f, i);
      }
    } else {
      CpusLater(s.cpus, s.now, t);
      DropTiming(s, t, LoadOf(s.cpus));
    }
  }

  // ---------- End of processing ----------

  /** The frame on the processor is finished, and the next one, if any, starts there. */
  function Release(s: Switch, t: real, cpu: nat, f: Frame): Switch
    requires cpu < |s.cpus|
  {
    s.(now := t, cpus := s.cpus[cpu := IDLE], used := s.used - f.length, processed := s.processed + 1,
       past := s.past.(output := Dispatch(s.config, s.past.output, f, t)))
  }

  lemma FirstReleased(starts: seq<real>, r: Load, now: real, t: real, p: real, f: Frame)
    requires LastStarted(starts, Occupied(r, f, t).ends, Occupied(r, f, t).busy, now, p) && now <= t
    requires forall x :: x in r.ends ==> t <= x
    ensures LastStarted(starts, r.ends, r.busy, t, p)
    ensures |starts| > r.busy && Finish(starts[|starts| - (r.busy + 1)], p) == t
  {
    var l := Occupied(r, f, t);
    StartsLater(starts, l.ends, l.busy, now, t, p);
    FirstEnds(starts, l.ends, r.ends, l.busy, t, p);
  }

  lemma ReleaseOnTime(accepted: seq<Arrival>, starts: seq<real>, r: Load, now: real, t: real, n: nat, p: real, f: Frame)
    requires OnTime(accepted, starts, Occupied(r, f, t), now, n, p) && now <= t && forall x :: x in r.ends ==> t <= x
    ensures OnTime(accepted, starts, r, t, n, p)
    ensures |starts| > r.busy && Finish(starts[|starts| - (r.busy + 1)], p) == t
  {
    FirstReleased(starts, r, now, t, p, f);
    AcceptTimes(accepted, starts, now, t, n, p, f);
  }

  /** With all processors busy, the next frame starts when the first of them is free. */
  lemma NextOnTime(accepted: seq<Arrival>, starts: seq<real>, r: Load, t: real, n: nat, p: real, g: Frame)
    requires OnTime(accepted, starts, r, t, n, p) && r.busy + 1 == n && |starts| < |accepted|
    requires |starts| >= n && Finish(starts[|starts| - n], p) == t
    ensures OnTime(accepted, starts + [t], Occupied(r, g, Finish(t, p)), t, n, p)
  {
    StartJoins(starts, r.ends, r.busy, t, p);
    StartTimesNext(accepted, starts, t, n, p);
  }

  lemma ReleaseHolding(s: Switch, t: real, cpu: nat, f: Frame, r: Load)
    requires Holding(s, Occupied(r, f, t)) && cpu < |s.cpus| && s.queue == []
    ensures Holding(Release(s, t, cpu, f), r)
  {
    ConservedDone(s.past.accepted, s.past.starts, s.past.output.done, r.running, s.config.processingTime, Finished(f, t));
  }

  /** The frame finished is as late as the earliest start not yet finished says. */
  lemma DoneNext(done: seq<Finished>, starts: seq<real>, p: real, x: Finished)
    requires DoneOnTime(done, starts, p) && |done| < |starts| && x.time == Finish(starts[|done|], p)
    ensures DoneOnTime(done + [x], starts, p)
  {
  }

  lemma ReleaseTiming(s: Switch, t: real, cpu: nat, f: Frame, r: Load)
    requires Timing(s, Occupied(r, f, t)) && s.now <= t && cpu < |s.cpus| && forall x :: x in r.ends ==> t <= x
    ensures Timing(Release(s, t, cpu, f), r)
  {
    var p := s.config.processingTime;
    ReleaseOnTime(s.past.accepted, s.past.starts, r, s.now, t, s.config.cpus, p, f);
    DoneNext(s.past.output.done, s.past.starts, p, Finished(f, t));
    DispatchNext(s.config, s.past.output, f, s.now, t);
    TimingFrom(Release(s, t, cpu, f), r, s.past.accepted, s.past.starts, s.queue, t);
  }

  /** The head of the queue takes the place of the frame that is finished. */
  lemma ReleaseNextHolding(s: Switch, t: real, cpu: nat, f: Frame, r: Load)
    requires Holding(s, Occupied(r, f, t)) && cpu < |s.cpus| && s.queue != []
    requires InOrder(Frames(s.past.accepted), |s.past.starts|, s.queue)
    ensures var g := s.queue[0];
            Holding(StartOn(Release(s, t, cpu, f).(queue := s.queue[1..]), cpu, g),
                    Occupied(r, g, Finish(t, s.config.processingTime)))
  {
    var p, x := s.config.processingTime, Finished(f, t);
    ConservedDone(s.past.accepted, s.past.starts, s.past.output.done, r.running, p, x);
    assert s.queue[0] == Frames(s.past.accepted)[|s.past.starts|..][0];
    ConservedStart(s.past.accepted, s.past.starts, s.past.output.done + [x], r.running, p, s.queue[0], t);
    BytesHead(s.queue);
  }

  lemma NextInOrder(accepted: seq<Frame>, started: nat, queue: seq<Frame>)
    requires InOrder(accepted, started, queue) && queue != []
    ensures InOrder(accepted, started + 1, queue[1..])
  {
    assert accepted[started + 1..] == accepted[started..][1..];
  }

  lemma ReleaseNextTiming(s: Switch, t: real, cpu: nat, f: Frame, r: Load)
    requires Timing(s, Occupied(r, f, t)) && s.now <= t && cpu < |s.cpus| && s.queue != []
    requires r.busy + 1 == s.config.cpus && forall x :: x in r.ends ==> t <= x
    ensures var g := s.queue[0];
            Timing(StartOn(Release(s, t, cpu, f).(queue := s.queue[1..]), cpu, g),
                   Occupied(r, g, Finish(t, s.config.processingTime)))
  {
    var n, p := s.config.cpus, s.config.processingTime;
    ReleaseOnTime(s.past.accepted, s.past.starts, r, s.now, t, n, p, f);
    NextOnTime(s.past.accepted, s.past.starts, r, t, n, p, s.queue[0]);
    NextInOrder(Frames(s.past.accepted), |s.past.starts|, s.queue);
    DoneNext(s.past.output.done, s.past.starts, p, Finished(f, t));
    DispatchNext(s.config, s.past.output, f, s.now, t);
    TimingFrom(StartOn(Release(s, t, cpu, f).(queue := s.queue[1..]), cpu, s.queue[0]),
               Occupied(r, s.queue[0], Finish(t, p)), s.past.accepted, s.past.starts + [t], s.queue[1..], t);
  }

  lemma FinishedIdleInv(s: Switch, t: real, cpu: nat, f: Frame)
    requires Inv(s) && Enabled(s, t, Ended(cpu)) && s.cpus[cpu].context == Some(f) && s.queue == []
    ensures Inv(Release(s, t, cpu, f))
  {
    var idle := s.cpus[cpu := IDLE];
    var r := LoadOf(idle);
    CpusLater(s.cpus, s.now, t);
    CpusReplace(s.cpus, t, cpu, IDLE);
    FreeCpu(s.cpus, cpu, f, t);
    EndsAreScheduled(idle, t);
    ReleaseHolding(s, t, cpu, f, r);
    ReleaseTiming(s, t, cpu, f, r);
    Assemble(Release(s, t, cpu, f), r);
  }

  lemma FinishedNextInv(s: Switch, t: real, cpu: nat, f: Frame)
    requires Inv(s) && Enabled(s, t, Ended(cpu)) && s.cpus[cpu].context == Some(f) && s.queue != []
    ensures Inv(StartOn(Release(s, t, cpu, f).(queue := s.queue[1..]), cpu, s.queue[0]))
  {
    var a, g := Release(s, t, cpu, f).(queue := s.queue[1..]), s.queue[0];
    var r := LoadOf(a.cpus);
    CpusLater(s.cpus, s.now, t);
    CpusReplace(s.cpus, t, cpu, IDLE);
    FreeCpu(s.cpus, cpu, f, t);
    EndsAreScheduled(a.cpus, t);
    StartOnCpus(a, cpu, g);
    ReleaseNextHolding(s, t, cpu, f, r);
    ReleaseNextTiming(s, t, cpu, f, r);
    Assemble(StartOn(a, cpu, g), Occupied(r, g, Finish(t, s.config.processingTime)));
  }

  lemma FinishedMeaning(s: Switch, t: real, cpu: nat, f: Frame)
    requires cpu < |s.cpus| && s.cpus[cpu].context == Some(f)
    ensures ProcessFrame(s, t, cpu) ==
            Ok(if s.queue == [] then Release(s, t, cpu, f)
               else StartOn(Release(s, t, cpu, f).(queue := s.queue[1..]), cpu, s.queue[0]))
  {
  }

  lemma FinishedInv(s: Switch, t: real, cpu: nat)
    requires Inv(s) && Enabled(s, t, Ended(cpu))
    ensures ProcessFrame(s, t, cpu).Ok? && Inv(ProcessFrame(s, t, cpu).state)
  {
    var f := s.cpus[cpu].context.value;
    FinishedMeaning(s, t, cpu, f);
    if s.queue == [] {
      FinishedIdleInv(s, t, cpu, f);
    } else {
      FinishedNextInv(s, t, cpu, f);
    }
  }

  // ---------- Every run ----------

  datatype Run = Boot(config: Config) | Next(before: Run, t: real, ev: Event)

  /** The state after a run of possible events. */
  ghost predicate Reaches(run: Run, s: Switch) {
    match run
    case Boot(c) => ValidConfig(c) && s == Init(c)
    case Next(b, t, ev) => exists s0 :: Reaches(b, s0) && Enabled(s0, t, ev) && Step(s0, t, ev) == Ok(s)
  }

  lemma {:induction false} RunInv(run: Run, s: Switch)
    requires Reaches(run, s)
    ensures Inv(s)
  {
    match run
    case Boot(c) => InitInv(c);
    case Next(b, t, ev) =>
      var s0 :| Reaches(b, s0) && Enabled(s0, t, ev) && Step(s0, t, ev) == Ok(s);
      RunInv(b, s0);
      if ev.Incoming? {
        IncomingInv(s0, t, ev.frame);
      } else {
        FinishedInv(s0, t, ev.cpu);
      }
  }

  /** No assertion of the module ever fails. */
  lemma NeverFails(run: Run, s: Switch, t: real, ev: Event)
    requires Reaches(run, s) && Enabled(s, t, ev)
    ensures Step(s, t, ev).Ok?
  {
    RunInv(run, s);
    if ev.Incoming? {
      IncomingInv(s, t, ev.frame);
    } else {
      FinishedInv(s, t, ev.cpu);
    }
  }

  /** In every run frames wait only while all processors are busy, and those waiting are the last ones taken in. */
  lemma WaitOnlyWhenBusy(run: Run, s: Switch)
    requires Reaches(run, s)
    ensures s.queue != [] ==> forall i :: 0 <= i < |s.cpus| ==> Busy(s.cpus[i])
    ensures |s.queue| <= |s.past.accepted| && s.queue == Frames(s.past.accepted)[|s.past.accepted| - |s.queue|..]
  {
    RunInv(run, s);
    BusyCountAll(s.cpus);
    LatestWait(Frames(s.past.accepted), |s.past.starts|, s.queue);
  }

  /**
   In every run: the byte budget is what is held, and below the buffer size whenever anything is held; and
   arrivals are processed, dropped or held.
   */
  lemma BufferConserved(run: Run, s: Switch)
    requires Reaches(run, s)
    ensures s.used == Bytes(s.queue) + ServedBytes(s.cpus)
    ensures s.queue != [] || BusyCount(s.cpus) > 0 ==> s.used < s.config.bufferSize
    ensures s.past.arrivals == s.processed + s.dropped + BusyCount(s.cpus) + |s.queue|
    ensures |s.past.output.done| == s.processed && |s.past.accepted| == s.processed + BusyCount(s.cpus) + |s.queue|
  {
    RunInv(run, s);
  }

  lemma LatestWait(accepted: seq<Frame>, started: nat, queue: seq<Frame>)
    requires InOrder(accepted, started, queue)
    ensures |queue| <= |accepted| && queue == accepted[|accepted| - |queue|..]
  {
  }

  /**
   In every run, the i-th frame taken in is the i-th to start, at its arrival or when the frame N places
   before it is finished, whichever is later; so start times never decrease in arrival order.
   */
  lemma StartsInOrder(run: Run, s: Switch, i: nat, j: nat)
    requires Reaches(run, s) && i <= j < |s.past.starts|
    ensures |s.past.starts| <= |s.past.accepted|
    ensures var a, n := s.past.accepted[i].time, s.config.cpus;
            s.past.starts[i] == if i < n then a else Max(a, s.past.starts[i - n] + s.config.processingTime)
    ensures s.past.starts[i] <= s.past.starts[j]
    ensures Frames(s.past.accepted)[|s.past.starts|..] == s.queue
  {
    StartsOf(run, s, i, j);
    assert StartsOnTime(i, s.past.accepted, s.past.starts, s.config.cpus, s.config.processingTime);
  }

  lemma StartsOf(run: Run, s: Switch, i: nat, j: nat)
    requires Reaches(run, s) && i <= j < |s.past.starts|
    ensures InOrder(Frames(s.past.accepted), |s.past.starts|, s.queue) && s.past.starts[i] <= s.past.starts[j]
    ensures StartsOnTime(i, s.past.accepted, s.past.starts, s.config.cpus, s.config.processingTime)
  {
    RunInv(run, s);
    SortedAt(s.past.starts, s.now, i, j);
  }

  /**
   In every run, every frame started is finished, or is on a processor and will be, one processing time after
   its own start; and the frames finished are so in the order of their start times, the k-th of them at the
   time at which the k-th frame taken in is due.
   */
  lemma FinishesInOrder(run: Run, s: Switch)
    requires Reaches(run, s)
    ensures |s.past.starts| <= |s.past.accepted|
    ensures var p, done := s.config.processingTime, s.past.output.done;
            && multiset(done) + Running(s.cpus) == multiset(Slots(s.past.accepted, s.past.starts, p))
            && |done| <= |s.past.starts| && (forall k :: 0 <= k < |done| ==> done[k].time == s.past.starts[k] + p)
            && forall j, k :: 0 <= j <= k < |done| ==> done[j].time <= done[k].time <= s.now
  {
    RunInv(run, s);
    var starts := s.past.starts;
    forall j, k | 0 <= j <= k < |s.past.output.done|
      ensures s.past.output.done[j].time <= s.past.output.done[k].time <= s.now
    {
      SortedAt(starts, s.now, j, k);
      assert Finish(starts[k], s.config.processingTime) <= s.now;
    }
  }

  lemma {:induction false} RunningMember(cpus: seq<Cpu>, now: real, x: Finished)
    requires CpusOk(cpus, now) && x in Running(cpus)
    ensures now <= x.time
  {
    if x !in RunningOne(cpus[0]) {
      assert forall i :: 0 <= i < |cpus[1..]| ==> cpus[1..][i] == cpus[i + 1];
      RunningMember(cpus[1..], now, x);
    }
  }

  /**
   From arrival to the output ports: once the clock has passed the time at which the i-th frame taken in is due,
   that frame has been finished at that time and sent on by what the table had seen till then.
   */
  lemma ArrivalToPorts(run: Run, s: Switch, i: nat) returns (k: nat)
    requires Reaches(run, s) && i < |s.past.starts| && s.past.starts[i] + s.config.processingTime < s.now
    ensures i < |s.past.accepted| && k < |s.past.output.done| == |s.past.output.ports|
    ensures var o := s.past.output;
            && o.done[k] == Finished(s.past.accepted[i].frame, s.past.starts[i] + s.config.processingTime)
            && RightlySent(s.config, Seen(o.done[..k]), o.done[k], o.ports[k])
  {
    RunInv(run, s);
    var o, p := s.past.output, s.config.processingTime;
    var x := Slots(s.past.accepted, s.past.starts, p)[i];
    assert x in multiset(Slots(s.past.accepted, s.past.starts, p));
    if x in Running(s.cpus) {
      RunningMember(s.cpus, s.now, x);
      assert false;
    }
    assert x in multiset(o.done);
    k :| 0 <= k < |o.done| && o.done[k] == x;
    SentByHistory(s.config, o, s.now, k);
  }

  /** What an event does to frames taken in, frames dropped and PAUSE times, with so many bytes held before. */
  ghost predicate Admits(s: Switch, t: real, ev: Event, r: Switch, held: int) {
    var taken := ev.Incoming? && held + ev.frame.length < s.config.bufferSize;
    && r.past.accepted == (if taken then s.past.accepted + [Arrival(ev.frame, t)] else s.past.accepted)
    && r.dropped == s.dropped + (if ev.Incoming? && !taken then 1 else 0)
    && r.past.pauses == if taken then PausesWith(s.config, s.past.pauses, t, held + ev.frame.length) else s.past.pauses
  }

  lemma IncomingPast(s0: Switch, t: real, f: Frame)
    requires HandleIncoming(s0, t, f).Ok? && f.length + s0.used < s0.config.bufferSize
    ensures var r, a := HandleIncoming(s0, t, f).state, Accept(s0.(now := t), f);
            && r.config == a.config && r.dropped == a.dropped && r.pauseLastSent == a.pauseLastSent
            && r.past.accepted == a.past.accepted && r.past.pauses == a.past.pauses
  {
  }

  lemma StepPauses(s: Switch, t: real, ev: Event)
    requires ev.Ended? ==> ev.cpu < |s.cpus|
    requires Step(s, t, ev).Ok? && PausesOk(s.config, s.past.pauses, s.pauseLastSent)
    ensures var r := Step(s, t, ev).state;
            r.config == s.config && PausesOk(r.config, r.past.pauses, r.pauseLastSent) && Admits(s, t, ev, r, s.used)
  {
    if ev.Incoming? {
      PauseNext(s.config, s.past.pauses, s.pauseLastSent, t, s.used + ev.frame.length);
      if ev.frame.length + s.used < s.config.bufferSize {
        IncomingPast(s, t, ev.frame);
      }
    }
  }

  lemma {:induction false} PausesInRun(run: Run, s: Switch)
    requires Reaches(run, s)
    ensures PausesOk(s.config, s.past.pauses, s.pauseLastSent)
  {
    match run
    case Boot(c) =>
    case Next(b, t, ev) =>
      var s0 :| Reaches(b, s0) && Enabled(s0, t, ev) && Step(s0, t, ev) == Ok(s);
      PausesInRun(b, s0);
      StepPauses(s0, t, ev);
  }

  /**
   In every run: a frame is taken in exactly if it leaves room in the buffer, and PAUSE frames go out exactly when
   one is taken in, with it at least the watermark is held, and more than the interval has passed since the last
   time; so they are more than the interval apart, and none is sent below the watermark.
   */
  lemma PausesExactly(run: Run, s: Switch, t: real, ev: Event)
    requires Reaches(run, s) && Enabled(s, t, ev)
    ensures PausesApart(s.config, s.past.pauses) && Step(s, t, ev).Ok?
    ensures Admits(s, t, ev, Step(s, t, ev).state, Bytes(s.queue) + ServedBytes(s.cpus))
  {
    NeverFails(run, s, t, ev);
    HeldIsUsed(run, s);
    PausesInRun(run, s);
    AdmitsAt(s, t, ev, Bytes(s.queue) + ServedBytes(s.cpus));
  }

  lemma HeldIsUsed(run: Run, s: Switch)
    requires Reaches(run, s)
    ensures s.used == Bytes(s.queue) + ServedBytes(s.cpus)
  {
    BufferConserved(run, s);
  }

  lemma AdmitsAt(s: Switch, t: real, ev: Event, held: int)
    requires ev.Ended? ==> ev.cpu < |s.cpus|
    requires Step(s, t, ev).Ok? && PausesOk(s.config, s.past.pauses, s.pauseLastSent) && s.used == held
    ensures Admits(s, t, ev, Step(s, t, ev).state, held)
  {
    StepPauses(s, t, ev);
  }

  /** What a reachable state allows: an event succeeds, from when the clock has been set as well, and extends the run. */
  lemma Proceed(run: Run, s: Switch, t: real, ev: Event)
    requires Reaches(run, s) && Enabled(s, t, ev)
    ensures T.Now(s.past.output.seen) <= t
    ensures Step(s.(now := t), t, ev) == Step(s, t, ev) && Step(s, t, ev).Ok?
    ensures Reaches(Next(run, t, ev), Step(s, t, ev).state)
  {
    RunInv(run, s);
    NeverFails(run, s, t, ev);
    SetClock(s, t, ev);
  }

  lemma SetClock(s: Switch, t: real, ev: Event)
    requires ev.Ended? ==> ev.cpu < |s.cpus|
    ensures Step(s.(now := t), t, ev) == Step(s, t, ev)
  {
  }

  // ---------- The module ----------

  class MACRelayUnitNP {
    const config: Config
    const base: MACRelayUnitBase
    var simTime: real
    var queue: seq<Frame>
    var endProcEvents: seq<Cpu>
    var bufferUsed: int
    var pauseLastSent: real
    var numProcessedFrames: nat
    var numDroppedFrames: nat
    ghost var past: Past
    ghost var run: Run

    ghost function View(): Switch
      reads this
    {
      Switch(config, simTime, queue, endProcEvents, bufferUsed, pauseLastSent,
             numProcessedFrames, numDroppedFrames, past)
    }

    /** The address table is in step with what has been sent. */
    ghost predicate TableValid()
      reads this, base
    {
      && base.Valid() && base.history == past.output.seen
      && base.numPorts == config.ports && base.addressTableSize == config.addressTableSize
      && base.agingTime == config.agingTime
    }

    /** The fields are what a possible run of the switch has made of them. */
    ghost predicate Valid()
      reads this, base
    {
      Reaches(run, View()) && TableValid()
    }

    constructor (c: Config)
      requires ValidConfig(c)
      ensures Valid() && run == Boot(c) && fresh(base)
    {
      base := new MACRelayUnitBase(c.ports, c.addressTableSize, c.agingTime);
      config, simTime, queue := c, 0.0, [];
      endProcEvents := seq(c.cpus, _ => IDLE);
      bufferUsed, pauseLastSent, numProcessedFrames, numDroppedFrames := 0, 0.0, 0, 0;
      past := Past([], [], 0, [], NO_OUTPUT);
      run := Boot(c);
    }

    /** PAUSE frames go out on all ports, or on none. */
    method SendPauseFrames() returns (ports: seq<nat>)
      modifies this`pauseLastSent, this`past
      ensures var sends := SendsPause(config, bufferUsed, simTime, old(pauseLastSent));
              && |ports| == (if sends then config.ports else 0)
              && (forall i :: 0 <= i < |ports| ==> ports[i] == i)
              && pauseLastSent == (if sends then simTime else old(pauseLastSent))
              && past == old(past).(pauses := if sends then old(past).pauses + [simTime] else old(past).pauses)
    {
      ports := [];
      if config.pauseUnits > 0 && config.highWatermark > 0 && bufferUsed >= config.highWatermark
         && simTime - pauseLastSent > PauseInterval(config) {
        var i := 0;
        while i < config.ports
          invariant i <= config.ports && |ports| == i && forall j :: 0 <= j < i ==> ports[j] == j
        {
          ports := ports + [i];
          i := i + 1;
        }
        pauseLastSent := simTime;
        past := past.(pauses := past.pauses + [simTime]);
      }
    }

    method FindIdleCpu() returns (i: nat)
      ensures i == FirstIdle(endProcEvents)
    {
      i := 0;
      while i < |endProcEvents|
        invariant i <= |endProcEvents|
        invariant FirstIdle(endProcEvents) == i + FirstIdle(endProcEvents[i..])
      {
        if endProcEvents[i].scheduled.None? {
          return;
        }
        assert endProcEvents[i..][1..] == endProcEvents[i + 1..];
        i := i + 1;
      }
    }

    method StartOnCpu(i: nat, frame: Frame)
      requires i < |endProcEvents|
      modifies this`endProcEvents, this`past
      ensures View() == StartOn(old(View()), i, frame) && past.output == old(past.output)
    {
      endProcEvents := endProcEvents[i := Cpu(Some(frame), Some(Finish(simTime, config.processingTime)))];
      past := past.(starts := past.starts + [simTime]);
    }

    method AcceptFrame(frame: Frame)
      modifies this`bufferUsed, this`past, this`pauseLastSent
      ensures View() == Accept(old(View()), frame)
    {
      bufferUsed := bufferUsed + frame.length;
      past := past.(accepted := past.accepted + [Arrival(frame, simTime)], arrivals := past.arrivals + 1);
      var pauses := SendPauseFrames();
    }

    /** A frame arrives; false if an assertion fails. */
    method HandleIncomingFrame(frame: Frame) returns (ok: bool)
      modifies this
      ensures HandleIncoming(old(View()), simTime, frame) == if ok then Ok(View()) else AssertionFailed
      ensures simTime == old(simTime) && past.output == old(past.output) && run == old(run)
    {
      if frame.length + bufferUsed < config.bufferSize {
        AcceptFrame(frame);
        var i := FindIdleCpu();
        if i == |endProcEvents| {
          queue := queue + [frame];
        } else {
          if endProcEvents[i].context.Some? {
            return false;
          }
          StartOnCpu(i, frame);
        }
      } else {
        past := past.(arrivals := past.arrivals + 1);
        numDroppedFrames := numDroppedFrames + 1;
      }
      return true;
    }

    /** The frame is learned from and sent on, and its room given back. */
    method ReleaseFrame(cpu: nat, frame: Frame)
      requires cpu < |endProcEvents| && TableValid() && T.Now(past.output.seen) <= simTime
      modifies this, base
      ensures View() == Release(old(View()), simTime, cpu, frame) && TableValid()
      ensures simTime == old(simTime) && run == old(run)
    {
      endProcEvents := endProcEvents[cpu := IDLE];
      var ports := base.HandleAndDispatchFrame(frame.src, frame.dest, frame.port, simTime);
      assert ports == PortsFor(config, past.output.seen, Finished(frame, simTime));
      past := past.(output := Dispatch(config, past.output, frame, simTime));
      bufferUsed := bufferUsed - frame.length;
      numProcessedFrames := numProcessedFrames + 1;
    }

    /** A processor is done with its frame; false if an assertion fails. */
    method ProcessFinished(cpu: nat) returns (ok: bool)
      requires cpu < |endProcEvents| && TableValid() && T.Now(past.output.seen) <= simTime
      modifies this, base
      ensures ProcessFrame(old(View()), simTime, cpu) == if ok then Ok(View()) else AssertionFailed
      ensures TableValid() && simTime == old(simTime) && run == old(run)
    {
      if endProcEvents[cpu].context.None? {
        return false;
      }
      var frame := endProcEvents[cpu].context.value;
      ReleaseFrame(cpu, frame);
      if queue != [] {
        var newframe := queue[0];
        queue := queue[1..];
        StartOnCpu(cpu, newframe);
      }
      return true;
    }

    /** One event of the simulation: no assertion fails, and the run goes on. */
    method HandleMessage(now: real, ev: Event)
      requires Valid() && Enabled(View(), now, ev)
      modifies this, base
      ensures Valid() && run == Next(old(run), now, ev)
    {
      ghost var before := View();
      Proceed(run, before, now, ev);
      simTime := now;
      var ok: bool;
      match ev {
        case Incoming(f) => ok := HandleIncomingFrame(f);
        case Ended(cpu) => ok := ProcessFinished(cpu);
      }
      run := Next(run, now, ev);
    }
  }
}
