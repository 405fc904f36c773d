/**
 What leaves a switch: frames processed one after the other, each learned from and sent on by the address
 table that all before it have left behind.
 */
module RelayDispatch {
  import opened Simulation
  import opened RelayShared
  import T = RelayTable
  import U = RelayUnit

  /** A frame and the time at which its processing ends. */
  datatype Finished = Finished(frame: Frame, time: real)

  /** Frames processed, what the address table has seen of them, and the ports each was sent out on. */
  datatype Output = Output(done: seq<Finished>, seen: T.History, ports: seq<seq<int>>)

  const NO_OUTPUT := Output([], T.Nothing, [])

  /** The source of the frame has been learned. */
  function Learned(h: T.History, x: Finished): T.History {
    T.Then(h, x.time, T.Frame(x.frame.src, x.frame.port))
  }

  function SeenNext(h: T.History, x: Finished): T.History {
    if x.frame.dest == BROADCAST then Learned(h, x) else T.Then(Learned(h, x), x.time, T.Query(x.frame.dest))
  }

  /** The ports a frame goes out on after the events `h`. */
  function PortsFor(c: Config, h: T.History, x: Finished): seq<int> {
    var table := T.TableAfter(Learned(h, x), c.addressTableSize, c.agingTime);
    U.Route(c.ports, T.Lookup(table, c.agingTime, x.time, x.frame.dest).1, x.frame.dest, x.frame.port)
  }

  function Dispatch(c: Config, o: Output, f: Frame, t: real): Output {
    var x := Finished(f, t);
    Output(o.done + [x], SeenNext(o.seen, x), o.ports + [PortsFor(c, o.seen, x)])
  }

  /** The events that frames processed one after the other are for the address table. */
  function Seen(done: seq<Finished>): T.History {
    if done == [] then T.Nothing else SeenNext(Seen(done[..|done| - 1]), done[|done| - 1])
  }

  /** Every frame was sent by the table that the frames before it have left. */
  ghost predicate Dispatched(c: Config, o: Output, now: real) {
    && o.seen == Seen(o.done) && T.Chronological(o.seen) && T.Now(o.seen) <= now
    && |o.ports| == |o.done|
    && forall k :: 0 <= k < |o.done| ==> o.ports[k] == PortsFor(c, Seen(o.done[..k]), o.done[k])
  }

  lemma DispatchNext(c: Config, o: Output, f: Frame, now: real, t: real)
    requires Dispatched(c, o, now) && now <= t
    ensures Dispatched(c, Dispatch(c, o, f, t), t)
  {
    var x := Finished(f, t);
    var r := Dispatch(c, o, f, t);
    assert r.done[..|o.done|] == o.done;
    forall k | 0 <= k < |r.done|
      ensures r.ports[k] == PortsFor(c, Seen(r.done[..k]), r.done[k])
    {
      if k < |o.done| {
        assert r.done[..k] == o.done[..k];
      }
    }
  }

  lemma SightingsNext(h: T.History, x: Finished)
    ensures T.Sightings(SeenNext(h, x)) == T.Sightings(h)[x.frame.src := T.Entry(x.frame.port, x.time)]
  {
    assert T.Sightings(Learned(h, x)) == T.Sightings(h)[x.frame.src := T.Entry(x.frame.port, x.time)];
  }

  lemma {:induction false} PortsSeen(done: seq<Finished>)
    ensures forall a :: a in T.Sightings(Seen(done)) ==> T.Sightings(Seen(done))[a].port >= 0
  {
    if done != [] {
      var n := |done| - 1;
      PortsSeen(done[..n]);
      SightingsNext(Seen(done[..n]), done[n]);
    }
  }

  lemma {:induction false} SeenInOrder(done: seq<Finished>, k: nat)
    requires k < |done| && T.Chronological(Seen(done))
    ensures T.Chronological(Seen(done[..k])) && T.Now(Seen(done[..k])) <= done[k].time
  {
    var n := |done| - 1;
    if k < n {
      SeenInOrder(done[..n], k);
      assert done[..n][..k] == done[..k];
    }
  }

  /** A frame sent on by the table: never back; to where its destination was last seen, if that is still known. */
  ghost predicate RightlySent(c: Config, h: T.History, x: Finished, out: seq<int>) {
    var learned, dest, port := Learned(h, x), x.frame.dest, x.frame.port;
    var all, table := T.Sightings(learned), T.TableAfter(learned, c.addressTableSize, c.agingTime);
    var known := dest in table && !T.Aged(table[dest], c.agingTime, x.time);
    && port !in out
    && (dest != BROADCAST && known ==>
          dest in all && out == if all[dest].port == port then [] else [all[dest].port])
    && (dest == BROADCAST || !known ==> out == U.OtherPorts(c.ports, port))
    && (!known && dest in all ==> T.MayForget(all, c.addressTableSize, c.agingTime, x.time, dest))
    && (known ==> T.Remembered(all, c.addressTableSize, c.agingTime, x.time, dest))
    && (T.SeenAlone(all, dest) ==> (known <==> T.Remembered(all, c.addressTableSize, c.agingTime, x.time, dest)))
  }

  /** Every frame processed is sent on by the sightings of the frames processed before it. */
  lemma SentByHistory(c: Config, o: Output, now: real, k: nat)
    requires Dispatched(c, o, now) && k < |o.done| && c.agingTime > 0.0
    ensures k < |o.ports| && RightlySent(c, Seen(o.done[..k]), o.done[k], o.ports[k])
  {
    var h, x := Seen(o.done[..k]), o.done[k];
    SeenInOrder(o.done, k);
    PortsSeen(o.done[..k]);
    T.RememberedExactly(Learned(h, x), c.addressTableSize, c.agingTime, x.time, x.frame.dest);
    U.DispatchedByHistory(h, c.addressTableSize, c.agingTime, c.ports, x.frame.src, x.frame.dest, x.frame.port, x.time);
  }
}
