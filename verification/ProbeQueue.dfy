/**
 The single-server queue with a second queue for probe packets and a second timer that releases them.
 */
module ProbeQueue {
  import opened Simulation

  /** `encapsulates`: the packet carries another one; only then must it be an IP datagram. */
  datatype Packet = Packet(id: nat, encapsulates: bool, datagram: bool, protocol: int)

  const IP_PROT_ICMP := 1
  const IP_PROT_IGMP := 2
  const IP_PROT_RSVP := 46

  predicate IsProbe(p: Packet) {
    p.encapsulates &&
    (p.protocol == IP_PROT_ICMP || p.protocol == IP_PROT_RSVP || p.protocol == IP_PROT_IGMP)
  }

  /** A packet and the time at which it arrived or left. */
  datatype Stamped = Stamped(packet: Packet, time: real)

  /** `arrived` and `sent` record everything taken in and everything sent, in order. */
  datatype Server = Server(
    delay: real, now: real,
    serviced: Option<Packet>, queue: seq<Packet>, pqueue: seq<Packet>, serviceTime: real,
    endService: Option<real>, probeEnd: Option<real>,
    arrived: seq<Stamped>, sent: seq<Stamped>)

  datatype Error =
    | NotADatagram       // the cast of an encapsulating packet fails
    | NothingInService   // a null packet would be used
    | AlreadyScheduled   // the kernel refuses to schedule a message twice

  datatype Outcome = Ok(state: Server) | Err(error: Error) {
    predicate IsFailure() { Err? }
    function PropagateFailure(): Outcome requires Err? { this }
    function Extract(): Server requires Ok? { state }
  }

  // ---------- Operations ----------

  function Init(delay: real): Server {
    Server(delay, 0.0, None, [], [], 0.0, None, None, [], [])
  }

  function Finish(start: real, service: real): real {
    start + service
  }

  /** The probe timer runs ten times as fast as the server. */
  function Interval(service: real): real {
    service / 10.0
  }

  function Send(s: Server, p: Packet): Server {
    s.(sent := s.sent + [Stamped(p, s.now)])
  }

  /** With no service time to wait for, the packet is finished on the spot, and so are all behind it. */
  function DoStartService(s: Server): Outcome
    decreases |s.queue|, 1
  {
    if s.serviced.None? then Err(NothingInService)
    else
      var s1 := s.(serviceTime := s.delay);
      if s1.serviceTime != 0.0 then
        if s1.endService.Some? then Err(AlreadyScheduled)
        else Ok(s1.(endService := Some(Finish(s1.now, s1.serviceTime))))
      else DoEndService(s1)
  }

  function DoEndService(s: Server): Outcome
    decreases |s.queue|, 0
  {
    if s.serviced.None? then Err(NothingInService)
    else
      var s1 := Send(s, s.serviced.value);
      if s1.queue == [] then Ok(s1.(serviced := None))
      else DoStartService(s1.(serviced := Some(s1.queue[0]), queue := s1.queue[1..]))
  }

  function ScheduleProbeEnd(s: Server): Server {
    if s.probeEnd.None? then s.(probeEnd := Some(Finish(s.now, Interval(s.serviceTime)))) else s
  }

  function DoProbeEndService(s: Server): Server {
    if s.pqueue == [] then s
    else ScheduleProbeEnd(Send(s, s.pqueue[0]).(pqueue := s.pqueue[1..]))
  }

  function Enqueue(s: Server, p: Packet): Server {
    if IsProbe(p) then s.(pqueue := s.pqueue + [p]) else s.(queue := s.queue + [p])
  }

  /** Every arrival, probe or not, starts the probe timer unless it is running. */
  function StartProbeTimer(s: Server): Server {
    if s.probeEnd.None? then ScheduleProbeEnd(s.(serviceTime := s.delay)) else s
  }

  function HandleArrival(s: Server, p: Packet): Outcome {
    if p.encapsulates && !p.datagram then Err(NotADatagram)
    else
      var s0 := s.(arrived := s.arrived + [Stamped(p, s.now)]);
      var s1 :-
        if s0.serviced.None? && !IsProbe(p) then DoStartService(s0.(serviced := Some(p)))
        else Ok(Enqueue(s0, p));
      Ok(StartProbeTimer(s1))
  }

  datatype Event = Arrival(packet: Packet) | EndService | ProbeEnd

  /** The kernel advances the clock and removes the expiring timer. */
  function Step(s: Server, t: real, ev: Event): Outcome {
    match ev
    case Arrival(p) => HandleArrival(s.(now := t), p)
    case EndService => DoEndService(s.(now := t, endService := None))
    case ProbeEnd => Ok(DoProbeEndService(s.(now := t, probeEnd := None)))
  }

  predicate NotOvertaken(timer: Option<real>, t: real) {
    timer.Some? ==> t <= timer.value
  }

  /** What can happen next: timers expire on time and are not overtaken. */
  predicate Enabled(s: Server, t: real, ev: Event) {
    && s.now <= t && NotOvertaken(s.endService, t) && NotOvertaken(s.probeEnd, t)
    && (ev.EndService? ==> s.endService == Some(t))
    && (ev.ProbeEnd? ==> s.probeEnd == Some(t))
  }

  // ---------- One class of packets ----------

  /** The probes, or the other packets, among the given ones. */
  function Only(probes: bool, s: seq<Stamped>): seq<Stamped> {
    if s == [] then []
    else
      var n := |s| - 1;
      Only(probes, s[..n]) + if IsProbe(s[n].packet) == probes then [s[n]] else []
  }

  lemma OnlyAppend(probes: bool, s: seq<Stamped>, x: Stamped)
    ensures Only(probes, s + [x]) == if IsProbe(x.packet) == probes then Only(probes, s) + [x] else Only(probes, s)
  {
    assert (s + [x])[..|s|] == s;
  }

  function Packets(s: seq<Stamped>): (r: seq<Packet>)
    ensures |r| == |s| && forall k :: 0 <= k < |s| ==> r[k] == s[k].packet
  {
    seq(|s|, k requires 0 <= k < |s| => s[k].packet)
  }

  function Held(p: Option<Packet>): seq<Packet> {
    if p.Some? then [p.value] else []
  }

  predicate Before(s: seq<Stamped>, now: real) {
    forall k :: 0 <= k < |s| ==> s[k].time <= now
  }

  /** When the k-th data packet enters service: on arrival, or when the one before it leaves. */
  function StartOf(a: seq<Stamped>, d: seq<Stamped>, k: nat): real
    requires k < |a| && k <= |d|
  {
    if k == 0 then a[0].time else Max(a[k].time, d[k - 1].time)
  }

  predicate LeftOnTime(a: seq<Stamped>, d: seq<Stamped>, k: nat, delay: real)
    requires k < |a| && k < |d|
  {
    d[k] == Stamped(a[k].packet, Finish(StartOf(a, d, k), delay))
  }

  /** Data packets `a` arrived, and the first of them left as `d`, in order and on time. */
  ghost predicate OnTime(a: seq<Stamped>, d: seq<Stamped>, now: real, delay: real) {
    && |d| <= |a| && Before(a, now) && Before(d, now)
    && (forall k :: 0 <= k < |d| ==> LeftOnTime(a, d, k, delay))
  }

  /** The others are in service or in the queue, in order, and the server does not idle over a queue. */
  ghost predicate DataOk(a: seq<Stamped>, d: seq<Stamped>, serviced: Option<Packet>, queue: seq<Packet>,
                         end: Option<real>, now: real, delay: real) {
    && OnTime(a, d, now, delay)
    && Packets(a)[|d|..] == Held(serviced) + queue
    && (serviced.Some? <==> end.Some?) && (serviced.None? ==> queue == []) && (serviced.Some? ==> |d| < |a|)
    && (end.Some? ==> |d| < |a| && end.value == Finish(StartOf(a, d, |d|), delay))
    && (delay == 0.0 ==> serviced.None?)
  }

  ghost predicate ProbesOk(a: seq<Stamped>, d: seq<Stamped>, pqueue: seq<Packet>) {
    && |d| <= |a|
    && Packets(d) == Packets(a)[..|d|]
    && Packets(a)[|d|..] == pqueue
  }

  /** A waiting probe has the timer running, and the timer runs for at most one interval. */
  predicate ProbeTimerOk(end: Option<real>, pqueue: seq<Packet>, now: real, serviceTime: real, delay: real) {
    && (pqueue != [] ==> end.Some?)
    && (end.Some? ==> now <= end.value <= Finish(now, Interval(delay)) && serviceTime == delay)
  }

  ghost predicate Inv(s: Server) {
    && s.delay >= 0.0
    && DataOk(Only(false, s.arrived), Only(false, s.sent), s.serviced, s.queue, s.endService, s.now, s.delay)
    && ProbesOk(Only(true, s.arrived), Only(true, s.sent), s.pqueue)
    && ProbeTimerOk(s.probeEnd, s.pqueue, s.now, s.serviceTime, s.delay)
    && NotOvertaken(s.endService, s.now)
  }

  // ---------- The data packets ----------

  lemma OnTimeArrival(a: seq<Stamped>, d: seq<Stamped>, now: real, t: real, delay: real, p: Packet)
    requires OnTime(a, d, now, delay) && now <= t
    ensures OnTime(a + [Stamped(p, t)], d, t, delay)
  {
    forall k | 0 <= k < |d|
      ensures LeftOnTime(a + [Stamped(p, t)], d, k, delay)
    {
      assert LeftOnTime(a, d, k, delay);
    }
  }

  lemma OnTimeLeave(a: seq<Stamped>, d: seq<Stamped>, now: real, t: real, delay: real)
    requires OnTime(a, d, now, delay) && now <= t && |d| < |a| && t == Finish(StartOf(a, d, |d|), delay)
    ensures OnTime(a, d + [Stamped(a[|d|].packet, t)], t, delay)
  {
    var e := d + [Stamped(a[|d|].packet, t)];
    forall k | 0 <= k < |e|
      ensures LeftOnTime(a, e, k, delay)
    {
      if k < |d| {
        assert LeftOnTime(a, d, k, delay);
      }
    }
  }

  /** A data packet that has to wait. */
  lemma DataWaits(a: seq<Stamped>, d: seq<Stamped>, serviced: Option<Packet>, queue: seq<Packet>,
                  end: Option<real>, now: real, t: real, delay: real, p: Packet)
    requires DataOk(a, d, serviced, queue, end, now, delay) && now <= t && serviced.Some?
    ensures DataOk(a + [Stamped(p, t)], d, serviced, queue + [p], end, t, delay)
  {
    OnTimeArrival(a, d, now, t, delay, p);
    var b := a + [Stamped(p, t)];
    assert Packets(b)[|d|..] == Packets(a)[|d|..] + [p];
    assert StartOf(b, d, |d|) == StartOf(a, d, |d|);
  }

  /** A data packet that finds the server idle is served at once, and is gone at once if that takes no time. */
  lemma DataServed(a: seq<Stamped>, d: seq<Stamped>, now: real, t: real, delay: real, p: Packet)
    requires DataOk(a, d, None, [], None, now, delay) && now <= t
    ensures var b := a + [Stamped(p, t)];
            && (delay != 0.0 ==> DataOk(b, d, Some(p), [], Some(Finish(t, delay)), t, delay))
            && (delay == 0.0 ==> DataOk(b, d + [Stamped(p, t)], None, [], None, t, delay))
  {
    OnTimeArrival(a, d, now, t, delay, p);
    var b := a + [Stamped(p, t)];
    assert |a| == |d|;
    assert StartOf(b, d, |d|) == t;
    if delay == 0.0 {
      OnTimeLeave(b, d, t, t, delay);
    } else {
      assert Packets(b)[|d|..] == [p];
    }
  }

  /** The end of service of a data packet. */
  lemma DataLeaves(a: seq<Stamped>, d: seq<Stamped>, serviced: Option<Packet>, queue: seq<Packet>,
                   now: real, t: real, delay: real)
    requires DataOk(a, d, serviced, queue, Some(t), now, delay) && now <= t
    ensures var e := d + [Stamped(serviced.value, t)];
            if queue == [] then DataOk(a, e, None, [], None, t, delay)
            else DataOk(a, e, Some(queue[0]), queue[1..], Some(Finish(t, delay)), t, delay)
  {
    assert Packets(a)[|d|..][0] == serviced.value;
    OnTimeLeave(a, d, now, t, delay);
    var e := d + [Stamped(serviced.value, t)];
    assert Packets(a)[|e|..] == Packets(a)[|d|..][1..];
    assert queue == Packets(a)[|e|..];
    if queue != [] {
      assert StartOf(a, e, |e|) == t;
    }
  }

  lemma DataLater(a: seq<Stamped>, d: seq<Stamped>, serviced: Option<Packet>, queue: seq<Packet>,
                  end: Option<real>, now: real, t: real, delay: real)
    requires DataOk(a, d, serviced, queue, end, now, delay) && now <= t
    ensures DataOk(a, d, serviced, queue, end, t, delay)
  {
  }

  // ---------- The probes ----------

  lemma ProbeWaits(a: seq<Stamped>, d: seq<Stamped>, pqueue: seq<Packet>, x: Stamped)
    requires ProbesOk(a, d, pqueue)
    ensures ProbesOk(a + [x], d, pqueue + [x.packet])
  {
    assert Packets(a + [x]) == Packets(a) + [x.packet];
  }

  lemma ProbeReleased(a: seq<Stamped>, d: seq<Stamped>, pqueue: seq<Packet>, t: real)
    requires ProbesOk(a, d, pqueue) && pqueue != []
    ensures ProbesOk(a, d + [Stamped(pqueue[0], t)], pqueue[1..])
  {
    assert Packets(d + [Stamped(pqueue[0], t)]) == Packets(d) + [pqueue[0]];
    assert Packets(a)[..|d| + 1] == Packets(a)[..|d|] + [Packets(a)[|d|..][0]];
    assert Packets(a)[|d| + 1..] == Packets(a)[|d|..][1..];
  }

  lemma ProbeTimerStarts(end: Option<real>, pqueue: seq<Packet>, more: seq<Packet>, now: real, t: real,
                         before: real, delay: real)
    requires ProbeTimerOk(end, pqueue, now, before, delay) && now <= t && NotOvertaken(end, t) && delay >= 0.0
    ensures ProbeTimerOk(if end.None? then Some(Finish(t, Interval(delay))) else end, more, t, delay, delay)
  {
  }

  // ---------- One step ----------

  /** Service and its timer go together, the server does not idle over a queue, and service takes time. */
  predicate Ready(s: Server) {
    && (s.serviced.Some? <==> s.endService.Some?) && (s.serviced.None? ==> s.queue == [])
    && (s.delay == 0.0 ==> s.serviced.None?)
  }

  /** A packet is taken in; `r` is the state before the probe timer is looked at. */
  predicate Admitted(s: Server, t: real, p: Packet, r: Server) {
    && r.arrived == s.arrived + [Stamped(p, t)]
    && r.delay == s.delay && r.now == t && r.probeEnd == s.probeEnd
    && (r.serviceTime == s.serviceTime || r.serviceTime == s.delay)
    && (if IsProbe(p) then
          && r.pqueue == s.pqueue + [p] && r.sent == s.sent
          && r.serviced == s.serviced && r.queue == s.queue && r.endService == s.endService
        else if s.serviced.Some? then
          && r.pqueue == s.pqueue && r.sent == s.sent
          && r.serviced == s.serviced && r.queue == s.queue + [p] && r.endService == s.endService
        else if s.delay != 0.0 then
          && r.pqueue == s.pqueue && r.sent == s.sent
          && r.serviced == Some(p) && r.queue == [] && r.endService == Some(Finish(t, s.delay))
        else
          && r.pqueue == s.pqueue && r.sent == s.sent + [Stamped(p, t)]
          && r.serviced == None && r.queue == [] && r.endService == None)
  }

  lemma StartTakesTime(s: Server)
    requires s.serviced.Some? && s.endService.None? && s.delay != 0.0
    ensures DoStartService(s) == Ok(s.(serviceTime := s.delay, endService := Some(Finish(s.now, s.delay))))
  {
  }

  lemma ArrivalEffect(s: Server, t: real, p: Packet) returns (r: Server)
    requires Ready(s) && (p.encapsulates ==> p.datagram)
    ensures Admitted(s, t, p, r) && Step(s, t, Arrival(p)) == Ok(StartProbeTimer(r))
  {
    var s0 := s.(now := t, arrived := s.arrived + [Stamped(p, t)]);
    if s.serviced.None? && !IsProbe(p) {
      var s1 := s0.(serviced := Some(p), serviceTime := s.delay);
      if s.delay == 0.0 {
        r := Send(s1, p).(serviced := None);
        assert DoEndService(s1) == Ok(r);
      } else {
        r := s1.(endService := Some(Finish(t, s.delay)));
        StartTakesTime(s0.(serviced := Some(p)));
      }
    } else {
      r := Enqueue(s0, p);
    }
  }

  /** The packet in service leaves and the next one, if any, enters service. */
  predicate Served(s: Server, t: real, r: Server) {
    && s.serviced.Some? && r.sent == s.sent + [Stamped(s.serviced.value, t)]
    && r.delay == s.delay && r.now == t && r.probeEnd == s.probeEnd && r.pqueue == s.pqueue && r.arrived == s.arrived
    && (r.serviceTime == s.serviceTime || r.serviceTime == s.delay)
    && (if s.queue == [] then r.serviced == None && r.queue == [] && r.endService == None
        else r.serviced == Some(s.queue[0]) && r.queue == s.queue[1..] && r.endService == Some(Finish(t, s.delay)))
  }

  lemma EndServiceEffect(s: Server, t: real)
    requires Ready(s) && s.serviced.Some?
    ensures Step(s, t, EndService).Ok? && Served(s, t, Step(s, t, EndService).state)
  {
    var s1 := Send(s.(now := t, endService := None), s.serviced.value);
    if s.queue != [] {
      StartTakesTime(s1.(serviced := Some(s.queue[0]), queue := s.queue[1..]));
    }
  }

  /** The head of the probe queue is released. */
  predicate ProbeSent(s: Server, t: real, r: Server) {
    && s.pqueue != [] && r.sent == s.sent + [Stamped(s.pqueue[0], t)] && r.pqueue == s.pqueue[1..]
    && r.delay == s.delay && r.now == t && r.arrived == s.arrived && r.serviceTime == s.serviceTime
    && r.serviced == s.serviced && r.queue == s.queue && r.endService == s.endService
    && r.probeEnd == Some(Finish(t, Interval(s.serviceTime)))
  }

  lemma ProbeEndEffect(s: Server, t: real)
    requires s.pqueue != []
    ensures Step(s, t, ProbeEnd).Ok? && ProbeSent(s, t, Step(s, t, ProbeEnd).state)
  {
  }

  /** The data packets, arrived and sent, after an arrival. */
  lemma AdmittedOnly(s: Server, t: real, p: Packet, r: Server)
    requires Ready(s) && Admitted(s, t, p, r)
    ensures var x := Stamped(p, t);
            && Only(false, r.arrived) == (if IsProbe(p) then Only(false, s.arrived) else Only(false, s.arrived) + [x])
            && Only(false, r.sent) ==
               if IsProbe(p) || s.serviced.Some? || s.delay != 0.0 then Only(false, s.sent) else Only(false, s.sent) + [x]
  {
    var x := Stamped(p, t);
    OnlyAppend(false, s.arrived, x);
    OnlyAppend(false, s.sent, x);
  }

  lemma AdmittedData(s: Server, t: real, p: Packet, r: Server)
    requires Inv(s) && s.now <= t && Admitted(s, t, p, r)
    ensures DataOk(Only(false, r.arrived), Only(false, r.sent), r.serviced, r.queue, r.endService, t, r.delay)
  {
    AdmittedOnly(s, t, p, r);
    DataAdmitted(Only(false, s.arrived), Only(false, s.sent), s, t, p, r, Only(false, r.arrived), Only(false, r.sent));
  }

  lemma DataAdmitted(a: seq<Stamped>, d: seq<Stamped>, s: Server, t: real, p: Packet, r: Server,
                     b: seq<Stamped>, e: seq<Stamped>)
    requires DataOk(a, d, s.serviced, s.queue, s.endService, s.now, s.delay) && s.now <= t && Admitted(s, t, p, r)
    requires b == if IsProbe(p) then a else a + [Stamped(p, t)]
    requires e == if IsProbe(p) || s.serviced.Some? || s.delay != 0.0 then d else d + [Stamped(p, t)]
    ensures DataOk(b, e, r.serviced, r.queue, r.endService, t, r.delay)
  {
    if IsProbe(p) {
      DataLater(a, d, s.serviced, s.queue, s.endService, s.now, t, s.delay);
    } else if s.serviced.Some? {
      DataWaits(a, d, s.serviced, s.queue, s.endService, s.now, t, s.delay, p);
    } else {
      DataServed(a, d, s.now, t, s.delay, p);
    }
  }

  lemma AdmittedProbes(s: Server, t: real, p: Packet, r: Server)
    requires ProbesOk(Only(true, s.arrived), Only(true, s.sent), s.pqueue) && Admitted(s, t, p, r)
    ensures ProbesOk(Only(true, r.arrived), Only(true, r.sent), r.pqueue)
    ensures Only(true, r.sent) == Only(true, s.sent)
  {
    var x := Stamped(p, t);
    OnlyAppend(true, s.arrived, x);
    OnlyAppend(true, s.sent, x);
    if IsProbe(p) {
      ProbeWaits(Only(true, s.arrived), Only(true, s.sent), s.pqueue, x);
    }
  }

  lemma ArrivalInv(s: Server, t: real, p: Packet)
    requires Inv(s) && Enabled(s, t, Arrival(p)) && (p.encapsulates ==> p.datagram)
    ensures Step(s, t, Arrival(p)).Ok? && Inv(Step(s, t, Arrival(p)).state)
  {
    var r := ArrivalEffect(s, t, p);
    AdmittedData(s, t, p, r);
    AdmittedProbes(s, t, p, r);
    AdmittedInv(s, t, p, r);
  }

  lemma AdmittedInv(s: Server, t: real, p: Packet, r: Server)
    requires Inv(s) && Enabled(s, t, Arrival(p)) && Admitted(s, t, p, r)
    requires DataOk(Only(false, r.arrived), Only(false, r.sent), r.serviced, r.queue, r.endService, t, r.delay)
    requires ProbesOk(Only(true, r.arrived), Only(true, r.sent), r.pqueue)
    ensures Inv(StartProbeTimer(r))
  {
    ProbeTimerStarts(s.probeEnd, s.pqueue, r.pqueue, s.now, t, s.serviceTime, s.delay);
  }

  /** The packet in service is one of the data packets. */
  lemma ServicedIsData(s: Server)
    requires Inv(s) && s.serviced.Some?
    ensures !IsProbe(s.serviced.value)
  {
    var a, d := Only(false, s.arrived), Only(false, s.sent);
    assert Packets(a)[|d|..][0] == s.serviced.value;
    OnlyClass(false, s.arrived, |d|);
  }

  lemma WaitingIsProbe(s: Server)
    requires Inv(s) && s.pqueue != []
    ensures IsProbe(s.pqueue[0])
  {
    var a, d := Only(true, s.arrived), Only(true, s.sent);
    assert Packets(a)[|d|..][0] == s.pqueue[0];
    OnlyClass(true, s.arrived, |d|);
  }

  lemma EndServiceInv(s: Server, t: real)
    requires Inv(s) && Enabled(s, t, EndService)
    ensures Step(s, t, EndService).Ok? && Inv(Step(s, t, EndService).state)
  {
    EndServiceEffect(s, t);
    ServedInv(s, t, Step(s, t, EndService).state);
  }

  lemma ServedInv(s: Server, t: real, r: Server)
    requires Inv(s) && Enabled(s, t, EndService) && Served(s, t, r)
    ensures Inv(r) && Only(true, r.sent) == Only(true, s.sent)
  {
    ServicedIsData(s);
    OnlyAppend(false, s.sent, Stamped(s.serviced.value, t));
    OnlyAppend(true, s.sent, Stamped(s.serviced.value, t));
    DataLeaves(Only(false, s.arrived), Only(false, s.sent), s.serviced, s.queue, s.now, t, s.delay);
  }

  lemma ProbeEndInv(s: Server, t: real)
    requires Inv(s) && Enabled(s, t, ProbeEnd)
    ensures Step(s, t, ProbeEnd).Ok? && Inv(Step(s, t, ProbeEnd).state)
  {
    if s.pqueue != [] {
      ProbeEndEffect(s, t);
      ProbeSentInv(s, t, Step(s, t, ProbeEnd).state);
    } else {
      DataLater(Only(false, s.arrived), Only(false, s.sent), s.serviced, s.queue, s.endService, s.now, t, s.delay);
    }
  }

  lemma ProbeSentInv(s: Server, t: real, r: Server)
    requires Inv(s) && Enabled(s, t, ProbeEnd) && ProbeSent(s, t, r)
    ensures Inv(r) && Only(true, r.sent) == Only(true, s.sent) + [Stamped(s.pqueue[0], t)]
  {
    WaitingIsProbe(s);
    OnlyAppend(false, s.sent, Stamped(s.pqueue[0], t));
    OnlyAppend(true, s.sent, Stamped(s.pqueue[0], t));
    DataLater(Only(false, s.arrived), Only(false, s.sent), s.serviced, s.queue, s.endService, s.now, t, s.delay);
    ProbeReleased(Only(true, s.arrived), Only(true, s.sent), s.pqueue, t);
  }

  lemma {:induction false} OnlyClass(probes: bool, s: seq<Stamped>, k: nat)
    requires k < |Only(probes, s)|
    ensures IsProbe(Only(probes, s)[k].packet) == probes
  {
    var n := |s| - 1;
    if k < |Only(probes, s[..n])| {
      OnlyClass(probes, s[..n], k);
    }
  }

  lemma StepInv(s: Server, t: real, ev: Event)
    requires Inv(s) && Enabled(s, t, ev)
    ensures Step(s, t, ev).Ok? <==> !(ev.Arrival? && ev.packet.encapsulates && !ev.packet.datagram)
    ensures Step(s, t, ev).Ok? ==> Inv(Step(s, t, ev).state)
  {
    match ev
    case Arrival(p) =>
      if p.encapsulates ==> p.datagram {
        ArrivalInv(s, t, p);
      }
    case EndService => EndServiceInv(s, t);
    case ProbeEnd => ProbeEndInv(s, t);
  }

  // ---------- Every run ----------

  datatype Run = Now | Next(before: Run, t: real, ev: Event)

  /** The run leads from one state to another. */
  ghost predicate Leads(from: Server, run: Run, to: Server) {
    match run
    case Now => to == from
    case Next(b, t, ev) => exists s :: Leads(from, b, s) && Enabled(s, t, ev) && Step(s, t, ev) == Ok(to)
  }

  lemma {:induction false} RunInv(from: Server, run: Run, to: Server)
    requires Inv(from) && Leads(from, run, to)
    ensures Inv(to)
  {
    match run
    case Now =>
    case Next(b, t, ev) =>
      var s :| Leads(from, b, s) && Enabled(s, t, ev) && Step(s, t, ev) == Ok(to);
      RunInv(from, b, s);
      StepInv(s, t, ev);
  }

  lemma ReachableInv(delay: real, run: Run, s: Server)
    requires delay >= 0.0 && Leads(Init(delay), run, s)
    ensures Inv(s)
  {
    RunInv(Init(delay), run, s);
  }

  /** In every run the only possible failure is the cast of an encapsulating packet that is no datagram. */
  lemma FailsOnlyOnCast(delay: real, run: Run, s: Server, t: real, ev: Event)
    requires delay >= 0.0 && Leads(Init(delay), run, s) && Enabled(s, t, ev)
    ensures Step(s, t, ev).Err? <==> ev.Arrival? && ev.packet.encapsulates && !ev.packet.datagram
    ensures Step(s, t, ev).Err? ==> Step(s, t, ev).error == NotADatagram
  {
    ReachableInv(delay, run, s);
    StepInv(s, t, ev);
  }

  /**
   In every run each class of packets leaves in order of arrival, and every arrival has left, is in service
   or is in the queue of its class; the server is idle only with an empty data queue.
   */
  lemma InOrderAndConserved(delay: real, run: Run, s: Server)
    requires delay >= 0.0 && Leads(Init(delay), run, s)
    ensures Packets(Only(false, s.arrived)) == Packets(Only(false, s.sent)) + Held(s.serviced) + s.queue
    ensures Packets(Only(true, s.arrived)) == Packets(Only(true, s.sent)) + s.pqueue
    ensures s.serviced.None? ==> s.queue == []
  {
    ReachableInv(delay, run, s);
    DataConserved(Only(false, s.arrived), Only(false, s.sent), s.serviced, s.queue, s.endService, s.now, s.delay);
    var b, e := Only(true, s.arrived), Only(true, s.sent);
    assert Packets(b) == Packets(b)[..|e|] + Packets(b)[|e|..];
  }

  lemma DataConserved(a: seq<Stamped>, d: seq<Stamped>, serviced: Option<Packet>, queue: seq<Packet>,
                      end: Option<real>, now: real, delay: real)
    requires DataOk(a, d, serviced, queue, end, now, delay)
    ensures Packets(a) == Packets(d) + Held(serviced) + queue
  {
    forall k | 0 <= k < |d|
      ensures d[k].packet == a[k].packet
    {
      assert LeftOnTime(a, d, k, delay);
    }
    assert Packets(a)[..|d|] == Packets(d);
    assert Packets(a) == Packets(a)[..|d|] + Packets(a)[|d|..];
  }

  lemma {:induction false} DelayKept(from: Server, run: Run, to: Server)
    requires Inv(from) && Leads(from, run, to)
    ensures to.delay == from.delay
  {
    match run
    case Now =>
    case Next(b, t, ev) =>
      var s :| Leads(from, b, s) && Enabled(s, t, ev) && Step(s, t, ev) == Ok(to);
      DelayKept(from, b, s);
      RunInv(from, b, s);
      StepDelay(s, t, ev);
  }

  lemma StepDelay(s: Server, t: real, ev: Event)
    requires Inv(s) && Enabled(s, t, ev) && Step(s, t, ev).Ok?
    ensures Step(s, t, ev).state.delay == s.delay
  {
    match ev
    case Arrival(p) => var r := ArrivalEffect(s, t, p);
    case EndService => EndServiceEffect(s, t);
    case ProbeEnd =>
  }

  /** The k-th data packet leaves one service time after it arrives or its predecessor leaves. */
  lemma DataDepartures(delay: real, run: Run, s: Server, k: nat)
    requires delay >= 0.0 && Leads(Init(delay), run, s) && k < |Only(false, s.sent)|
    ensures var a, d := Only(false, s.arrived), Only(false, s.sent);
            && k < |a| && d[k].packet == a[k].packet
            && d[k].time == delay + if k == 0 then a[0].time else Max(a[k].time, d[k - 1].time)
  {
    ReachableInv(delay, run, s);
    DelayKept(Init(delay), run, s);
    assert LeftOnTime(Only(false, s.arrived), Only(false, s.sent), k, delay);
  }

  /** Which packets count as probes: those that carry a message of ICMP (1), IGMP (2) or RSVP (46). */
  lemma {:induction false} ProbesExactly(s: seq<Stamped>, x: Stamped)
    ensures x in Only(true, s) <==>
              x in s && x.packet.encapsulates
              && (x.packet.protocol == 1 || x.packet.protocol == 2 || x.packet.protocol == 46)
    ensures x in Only(false, s) <==> x in s && x !in Only(true, s)
    decreases s
  {
    if s != [] {
      var n := |s| - 1;
      ProbesExactly(s[..n], x);
      assert s == s[..n] + [s[n]];
    }
  }

  // ---------- How long a probe waits ----------

  /** `k` intervals after the probe timer expires. */
  function Due(end: real, k: nat, delay: real): real {
    if k == 0 then end else Finish(Due(end, k - 1, delay), Interval(delay))
  }

  lemma {:induction false} DueExactly(end: real, k: nat, delay: real)
    ensures Due(end, k, delay) == end + k as real * (delay / 10.0)
  {
    if k > 0 {
      DueExactly(end, k - 1, delay);
    }
  }

  lemma {:induction false} DueLater(end: real, j: nat, k: nat, delay: real)
    requires j <= k && delay >= 0.0
    ensures Due(end, j, delay) <= Due(end, k, delay)
  {
    if j < k {
      DueLater(end, j, k - 1, delay);
    }
  }

  function Released(s: Server): seq<Stamped> {
    Only(true, s.sent)
  }

  /**
   The probe that was at position `k` when `base` probes had been released and the timer stood at `end`:
   it waits at its place in front of the timer, or has been released exactly `k` intervals after `end`.
   */
  ghost predicate OnSchedule(s: Server, base: nat, end: real, k: nat, probe: Packet) {
    && base <= |Released(s)|
    && var m := |Released(s)| - base;
       if m <= k then
         && k - m < |s.pqueue| && s.pqueue[k - m] == probe
         && s.probeEnd == Some(Due(end, m, s.delay))
       else Released(s)[base + k] == Stamped(probe, Due(end, k, s.delay))
  }

  /** The expiring timer releases the head probe and starts again; any other step can only add probes. */
  ghost predicate ProbesMove(s: Server, t: real, ev: Event, r: Server) {
    && r.delay == s.delay
    && (if ev.ProbeEnd? && s.pqueue != [] then
          && Released(r) == Released(s) + [Stamped(s.pqueue[0], t)] && r.pqueue == s.pqueue[1..]
          && r.probeEnd == Some(Finish(t, Interval(s.delay)))
        else Released(r) == Released(s) && s.pqueue <= r.pqueue && (s.pqueue != [] ==> r.probeEnd == s.probeEnd))
  }

  lemma StepProbes(s: Server, t: real, ev: Event)
    requires Inv(s) && Enabled(s, t, ev) && Step(s, t, ev).Ok?
    ensures ProbesMove(s, t, ev, Step(s, t, ev).state)
  {
    match ev
    case Arrival(p) =>
      var r := ArrivalEffect(s, t, p);
      AdmittedProbes(s, t, p, r);
    case EndService =>
      EndServiceEffect(s, t);
      ServedInv(s, t, Step(s, t, EndService).state);
    case ProbeEnd =>
      if s.pqueue != [] {
        ProbeEndEffect(s, t);
        ProbeSentInv(s, t, Step(s, t, ProbeEnd).state);
      }
  }

  lemma OnScheduleStep(s: Server, t: real, ev: Event, r: Server, base: nat, end: real, k: nat, probe: Packet)
    requires Enabled(s, t, ev) && ProbesMove(s, t, ev, r)
    requires OnSchedule(s, base, end, k, probe)
    ensures OnSchedule(r, base, end, k, probe)
  {
  }

  lemma {:induction false} OnScheduleRun(from: Server, run: Run, to: Server, base: nat, end: real, k: nat, probe: Packet)
    requires Inv(from) && Leads(from, run, to) && OnSchedule(from, base, end, k, probe)
    ensures OnSchedule(to, base, end, k, probe)
  {
    match run
    case Now =>
    case Next(b, t, ev) =>
      var s :| Leads(from, b, s) && Enabled(s, t, ev) && Step(s, t, ev) == Ok(to);
      OnScheduleRun(from, b, s, base, end, k, probe);
      RunInv(from, b, s);
      StepProbes(s, t, ev);
      OnScheduleStep(s, t, ev, to, base, end, k, probe);
  }

  /** A waiting probe has the probe timer running, to expire within a tenth of the service time. */
  lemma WaitingProbeHasTimer(delay: real, run: Run, s: Server)
    requires delay >= 0.0 && Leads(Init(delay), run, s) && s.pqueue != []
    ensures s.probeEnd.Some? && s.now <= s.probeEnd.value <= s.now + delay / 10.0
  {
    ReachableInv(delay, run, s);
    DelayKept(Init(delay), run, s);
  }

  lemma ScheduleMeaning(s: Server, base: nat, end: real, k: nat, probe: Packet)
    requires OnSchedule(s, base, end, k, probe) && NotOvertaken(s.probeEnd, s.now) && s.delay >= 0.0
    ensures base <= |Released(s)|
    ensures var at := base + k;
            if at < |Released(s)| then Released(s)[at] == Stamped(probe, Due(end, k, s.delay))
            else s.now <= Due(end, k, s.delay)
                 && at - |Released(s)| < |s.pqueue| && s.pqueue[at - |Released(s)|] == probe
  {
    var m := |Released(s)| - base;
    if m <= k {
      DueLater(end, m, k, s.delay);
    }
  }

  /**
   Whatever else happens, the probe at position k of the probe queue is released exactly k tenths of the service
   time after the timer expires, hence within (k + 1) tenths: once the clock has passed that instant it has left,
   stamped with it.
   */
  lemma ProbeLeavesOnTime(delay: real, run: Run, s: Server, k: nat, further: Run, later: Server)
    requires delay >= 0.0 && Leads(Init(delay), run, s) && k < |s.pqueue| && Leads(s, further, later)
    ensures s.probeEnd.Some? && s.probeEnd.value <= s.now + delay / 10.0
    ensures s.probeEnd.value + k as real * (delay / 10.0) <= s.now + (k + 1) as real * (delay / 10.0)
    ensures var due := s.probeEnd.value + k as real * (delay / 10.0);
            var at := |Released(s)| + k;
            if at < |Released(later)| then Released(later)[at] == Stamped(s.pqueue[k], due)
            else later.now <= due && |Released(s)| <= |Released(later)|
                 && at - |Released(later)| < |later.pqueue|
                 && later.pqueue[at - |Released(later)|] == s.pqueue[k]
  {
    WaitingProbeHasTimer(delay, run, s);
    ReachableInv(delay, run, s);
    DelayKept(Init(delay), run, s);
    LeavesOnSchedule(delay, s, k, further, later);
    assert (k + 1) as real == k as real + 1.0;
  }

  lemma LeavesOnSchedule(delay: real, s: Server, k: nat, further: Run, later: Server)
    requires delay >= 0.0 && Inv(s) && s.delay == delay && k < |s.pqueue| && Leads(s, further, later)
    ensures s.probeEnd.Some?
    ensures var due := s.probeEnd.value + k as real * (delay / 10.0);
            var at := |Released(s)| + k;
            if at < |Released(later)| then Released(later)[at] == Stamped(s.pqueue[k], due)
            else later.now <= due && |Released(s)| <= |Released(later)|
                 && at - |Released(later)| < |later.pqueue|
                 && later.pqueue[at - |Released(later)|] == s.pqueue[k]
  {
    DelayKept(s, further, later);
    RunInv(s, further, later);
    ProbeOnSchedule(s, k, further, later);
    DueExactly(s.probeEnd.value, k, delay);
    ScheduleMeaning(later, |Released(s)|, s.probeEnd.value, k, s.pqueue[k]);
  }

  lemma ProbeOnSchedule(s: Server, k: nat, further: Run, later: Server)
    requires Inv(s) && k < |s.pqueue| && Leads(s, further, later)
    ensures s.probeEnd.Some? && OnSchedule(later, |Released(s)|, s.probeEnd.value, k, s.pqueue[k])
  {
    OnScheduleRun(s, further, later, |Released(s)|, s.probeEnd.value, k, s.pqueue[k]);
  }
}
