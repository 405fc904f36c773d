/**
 The queue module itself: its fields, updated in place.  Every handler does what a function of ProbeQueue says,
 and a valid object is what a possible run has made of it.
 */
module ProbeQueueModule {
  import opened Simulation
  import opened ProbeQueue

  datatype Status = Fine | Failed(error: Error) {
    predicate IsFailure() { Failed? }
    function PropagateFailure(): Status requires Failed? { this }
  }

  /** The server with the packet classification and the constant delay of QueueBase. */
  class QueueBase {
    const delay: real
    var simTime: real
    var msgServiced: Option<Packet>
    var queue: seq<Packet>
    var pqueue: seq<Packet>
    var serviceTime: real
    var endServiceMsg: Option<real>
    var probeEndServiceMsg: Option<real>
    ghost var arrived: seq<Stamped>
    ghost var sent: seq<Stamped>

    /** The events so far. */
    ghost var run: Run

    ghost function View(): Server
      reads this
    {
      Server(delay, simTime, msgServiced, queue, pqueue, serviceTime, endServiceMsg, probeEndServiceMsg, arrived, sent)
    }

    ghost predicate Matches(status: Status, r: Outcome)
      reads this
    {
      match r
      case Ok(s) => status.Fine? && View() == s
      case Err(e) => status == Failed(e)
    }

    /** The fields are what a possible run has made of them. */
    ghost predicate Valid()
      reads this
    {
      delay >= 0.0 && Leads(Init(delay), run, View())
    }

    constructor (procDelay: real)
      requires procDelay >= 0.0
      ensures Valid() && run == Now && View() == Init(procDelay)
    {
      delay, simTime, serviceTime := procDelay, 0.0, 0.0;
      msgServiced, queue, pqueue, endServiceMsg, probeEndServiceMsg := None, [], [], None, None;
      arrived, sent, run := [], [], Now;
    }

    /** Sends the packet out; this stands for what the subclasses do. */
    method EndServiceOf(p: Packet)
      modifies this`sent
      ensures View() == Send(old(View()), p)
    {
      sent := sent + [Stamped(p, simTime)];
    }

    /** Puts an arrival into its queue; `ok` is false if the cast fails. */
    method Arrival(p: Packet) returns (ok: bool)
      modifies this`queue, this`pqueue
      ensures ok <==> (p.encapsulates ==> p.datagram)
      ensures View() == if ok then Enqueue(old(View()), p) else old(View())
      ensures var probe := p.encapsulates && (p.protocol == 1 || p.protocol == 2 || p.protocol == 46);
              && pqueue == (if ok && probe then old(pqueue) + [p] else old(pqueue))
              && queue == (if ok && !probe then old(queue) + [p] else old(queue))
    {
      if p.encapsulates {
        if !p.datagram {
          return false;
        }
        if p.protocol == IP_PROT_ICMP || p.protocol == IP_PROT_RSVP || p.protocol == IP_PROT_IGMP {
          pqueue := pqueue + [p];
        } else {
          queue := queue + [p];
        }
      } else {
        queue := queue + [p];
      }
      return true;
    }

    /** Keeps a probe and hands back any other packet. */
    method ArrivalWhenIdle(p: Packet) returns (ok: bool, p2: Option<Packet>)
      modifies this`pqueue
      ensures ok <==> (p.encapsulates ==> p.datagram)
      ensures p2 == if ok && !IsProbe(p) then Some(p) else None
      ensures View() == if ok && IsProbe(p) then Enqueue(old(View()), p) else old(View())
      ensures var probe := p.encapsulates && (p.protocol == 1 || p.protocol == 2 || p.protocol == 46);
              && pqueue == (if ok && probe then old(pqueue) + [p] else old(pqueue))
              && p2 == (if ok && !probe then Some(p) else None)
    {
      if p.encapsulates {
        if !p.datagram {
          return false, None;
        }
        if p.protocol == IP_PROT_ICMP || p.protocol == IP_PROT_RSVP || p.protocol == IP_PROT_IGMP {
          pqueue := pqueue + [p];
          return true, None;
        }
      }
      return true, Some(p);
    }

    method DoStartService() returns (status: Status)
      modifies this
      ensures Matches(status, ProbeQueue.DoStartService(old(View())))
      decreases |queue|, 1
    {
      if msgServiced.None? {
        return Failed(NothingInService);
      }
      serviceTime := delay;
      if serviceTime != 0.0 {
        if endServiceMsg.Some? {
          return Failed(AlreadyScheduled);
        }
        endServiceMsg := Some(Finish(simTime, serviceTime));
        return Fine;
      }
      status := DoEndService();
    }

    method DoEndService() returns (status: Status)
      modifies this
      ensures Matches(status, ProbeQueue.DoEndService(old(View())))
      decreases |queue|, 0
    {
      if msgServiced.None? {
        return Failed(NothingInService);
      }
      EndServiceOf(msgServiced.value);
      if queue == [] {
        msgServiced := None;
        return Fine;
      }
      msgServiced, queue := Some(queue[0]), queue[1..];
      status := DoStartService();
    }

    method DoProbeEndService()
      modifies this
      ensures View() == ProbeQueue.DoProbeEndService(old(View()))
    {
      if pqueue != [] {
        var head := pqueue[0];
        pqueue := pqueue[1..];
        EndServiceOf(head);
        if probeEndServiceMsg.None? {
          probeEndServiceMsg := Some(Finish(simTime, Interval(serviceTime)));
        }
      }
    }

    method StartProbeTimerIfIdle()
      modifies this`serviceTime, this`probeEndServiceMsg
      ensures View() == StartProbeTimer(old(View()))
    {
      if probeEndServiceMsg.None? {
        serviceTime := delay;
        probeEndServiceMsg := Some(Finish(simTime, Interval(serviceTime)));
      }
    }

    method HandleArrivalMessage(p: Packet) returns (status: Status)
      modifies this
      ensures Matches(status, HandleArrival(old(View()), p))
    {
      arrived := arrived + [Stamped(p, simTime)];
      if msgServiced.None? {
        var ok, p2 := ArrivalWhenIdle(p);
        if !ok {
          return Failed(NotADatagram);
        }
        if p2.Some? {
          msgServiced := p2;
          :- DoStartService();
        }
        StartProbeTimerIfIdle();
      } else {
        var ok := Arrival(p);
        if !ok {
          return Failed(NotADatagram);
        }
        StartProbeTimerIfIdle();
      }
      return Fine;
    }

    /**
     One event of the simulation, at time `now`: the run goes on, and halts only for a packet that encapsulates
     another and is no datagram.
     */
    method HandleMessage(now: real, ev: Event) returns (status: Status)
      requires Valid() && Enabled(View(), now, ev)
      modifies this
      ensures status.Fine? <==> !(ev.Arrival? && ev.packet.encapsulates && !ev.packet.datagram)
      ensures status.Fine? ==> Valid() && run == Next(old(run), now, ev)
      ensures status.Failed? ==> status.error == NotADatagram
    {
      ghost var before, past := View(), run;
      FailsOnlyOnCast(delay, run, before, now, ev);
      status := Handle(now, ev);
      if status.Fine? {
        run := Next(past, now, ev);
      }
    }

    /** What the run of a valid object guarantees. */
    lemma Guarantees()
      requires Valid()
      ensures Packets(Only(false, arrived)) == Packets(Only(false, sent)) + Held(msgServiced) + queue
      ensures Packets(Only(true, arrived)) == Packets(Only(true, sent)) + pqueue
      ensures msgServiced.None? ==> queue == []
      ensures pqueue != [] ==>
                probeEndServiceMsg.Some? && simTime <= probeEndServiceMsg.value <= simTime + delay / 10.0
    {
      InOrderAndConserved(delay, run, View());
      if pqueue != [] {
        WaitingProbeHasTimer(delay, run, View());
      }
    }

    /** One event, handled. */
    method Handle(now: real, ev: Event) returns (status: Status)
      modifies this
      ensures Matches(status, Step(old(View()), now, ev))
    {
      simTime := now;
      match ev
      case Arrival(p) => status := HandleArrivalMessage(p);
      case EndService =>
        endServiceMsg := None;
        status := DoEndService();
      case ProbeEnd =>
        probeEndServiceMsg := None;
        DoProbeEndService();
        status := Fine;
    }
  }
}
