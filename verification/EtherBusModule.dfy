/**
 The bus module itself: the array of taps, filled by loops, and the events in flight, updated in place.
 */
module EtherBusModule {
  import opened BusPropagation

  class EtherBus {
    var tap: array<BusTap>
    var propagationSpeed: real
    var simTime: real
    var scheduled: seq<InFlight>
    ghost var injected: seq<Passage>
    ghost var delivered: seq<Passage>

    /** The events so far. */
    ghost var run: Run

    ghost function View(): Bus
      reads this, tap
    {
      Bus(tap[..], simTime, scheduled, injected, delivered)
    }

    /** The taps are in order and signals travel forward, and the fields are what a possible run has made of them. */
    ghost predicate Valid()
      reads this, tap
    {
      && propagationSpeed != 0.0 && Spaced(tap[..], propagationSpeed) && Forward(tap[..])
      && Reaches(tap[..], run, View())
    }

    constructor ()
      ensures fresh(tap) && View() == Init([])
    {
      tap := new BusTap[0];
      propagationSpeed, simTime, scheduled := 0.0, 0.0, [];
      injected, delivered, run := [], [], Boot;
    }

    /** The taps at the given positions; missing positions repeat the last distance. */
    method PlaceTaps(taps: nat, pos: seq<real>) returns (a: array<BusTap>)
      ensures fresh(a) && a.Length == taps
      ensures forall i :: 0 <= i < taps ==> a[i] == BusTap(i, PositionOf(pos, i), 0.0, 0.0)
    {
      a := new BusTap[taps];
      var numPos := |pos|;
      var distance := if numPos >= 2 then pos[numPos - 1] - pos[numPos - 2] else 5.0;
      for i := 0 to taps
        invariant forall k :: 0 <= k < i ==> a[k] == BusTap(k, PositionOf(pos, k), 0.0, 0.0)
      {
        var position := if i < numPos then pos[i] else if i == 0 then 5.0 else a[i - 1].position + distance;
        a[i] := BusTap(i, position, 0.0, 0.0);
      }
    }

    method InOrder(a: array<BusTap>, ghost pos: seq<real>) returns (ok: bool)
      requires forall i :: 0 <= i < a.Length ==> a[i].position == PositionOf(pos, i)
      ensures ok <==> Ascending(pos, a.Length)
    {
      var i := 0;
      while i < a.Length - 1
        invariant 0 <= i && (a.Length > 0 ==> i < a.Length)
        invariant Ascending(pos, if a.Length == 0 then 0 else i + 1)
      {
        if a[i].position > a[i + 1].position {
          assert PositionOf(pos, i + 1) < PositionOf(pos, i + 1 - 1);
          return false;
        }
        i := i + 1;
      }
      return true;
    }

    /** Sets the delays to both neighbours of every tap. */
    method ComputeDelays(a: array<BusTap>, speed: real, beyond: real)
      requires speed != 0.0
      modifies a
      ensures forall i :: 0 <= i < a.Length ==> a[i] == WithDelays(old(a[..]), i, speed, beyond)
    {
      var taps := a.Length;
      ghost var before := a[..];
      for i := 0 to taps
        invariant forall k :: 0 <= k < i ==> a[k] == WithDelays(before, k, speed, beyond)
        invariant forall k :: i <= k < taps ==> a[k] == before[k]
      {
        if i == 0 {
          var next := if taps > 1 then a[i + 1].position else beyond;
          a[i] := a[i].(upDelay := 0.0, downDelay := Travel(a[i].position, next, speed));
        } else if i == taps - 1 {
          a[i] := a[i].(upDelay := a[i - 1].downDelay, downDelay := 0.0);
        } else {
          a[i] := a[i].(upDelay := a[i - 1].downDelay, downDelay := Travel(a[i].position, a[i + 1].position, speed));
        }
      }
    }

    method BuildTaps(taps: nat, pos: seq<real>, speed: real, beyond: real) returns (ok: bool, a: array<BusTap>)
      requires speed != 0.0
      ensures fresh(a) && a.Length == taps
      ensures ok <==> GivenInOrder(pos, taps)
      ensures ok ==> Spaced(a[..], speed) && AtGiven(a[..], pos)
    {
      a := PlaceTaps(taps, pos);
      ghost var placed := a[..];
      ok := InOrder(a, pos);
      AscendingExactly(pos, taps);
      if ok {
        ComputeDelays(a, speed, beyond);
        PlacedIsSpaced(pos, placed, a[..], speed, beyond);
        PlacedAtGiven(a[..], pos);
      }
    }

    /**
     Sets the bus up, or reports that the positions are not ascending.  The speed is not checked: the bus is valid
     exactly if it is positive or all taps are at one place, which is when no event is scheduled in the past.
     */
    method Initialize(taps: nat, pos: seq<real>, speed: real, beyond: real) returns (ok: bool)
      requires speed != 0.0
      modifies this
      ensures ok <==> GivenInOrder(pos, taps)
      ensures ok ==> run == Boot && fresh(tap) && tap.Length == taps && propagationSpeed == speed
      ensures ok ==> View() == Init(tap[..]) && Spaced(tap[..], speed)
      ensures ok ==> AtGiven(tap[..], pos)
      ensures ok ==> (Valid() <==> speed > 0.0 || Together(tap[..])) && (Valid() <==> NeverPast(tap[..]))
    {
      propagationSpeed := speed;
      var a;
      ok, a := BuildTaps(taps, pos, speed, beyond);
      ghost var built := a[..];
      tap := a;
      simTime, scheduled, injected, delivered, run := 0.0, [], [], [], Boot;
      assert tap[..] == built;
      if ok {
        WorksExactly(built, speed);
      }
    }

    /** One event of the simulation: the run goes on. */
    method HandleMessage(now: real, ev: Event)
      requires Valid() && Enabled(View(), now, ev)
      modifies this
      ensures Valid() && run == Next(old(run), now, ev) && tap == old(tap) && propagationSpeed == old(propagationSpeed)
    {
      GoOn(tap[..], run, View(), now, ev);
      Handle(now, ev);
      run := Next(run, now, ev);
    }

    /**
     What the run of a valid object guarantees: nothing unexpected has been delivered, and everything due has been.
     */
    lemma Guarantees(d: Passage)
      requires Valid()
      ensures OnBus(tap[..], injected)
      ensures multiset(delivered)[d] <= ExpectedAll(tap[..], propagationSpeed, injected)[d]
      ensures d.time < simTime || scheduled == [] ==>
                multiset(delivered)[d] == ExpectedAll(tap[..], propagationSpeed, injected)[d]
    {
      DeliversExactly(tap[..], propagationSpeed, run, View(), d);
    }

    /** One event, handled. */
    method Handle(now: real, ev: Event)
      requires Enabled(View(), now, ev)
      modifies this`simTime, this`injected, this`delivered, this`scheduled
      ensures View() == Step(old(View()), now, ev)
    {
      match ev {
        case Frame(p, f) => HandleFrame(now, p, f);
        case Due(k) => HandleEvent(now, k);
      }
    }

    /** A frame arrives from the station at a tap. */
    method HandleFrame(now: real, tapPoint: nat, frame: nat)
      requires tapPoint < tap.Length
      modifies this`simTime, this`injected, this`scheduled
      ensures View() == Enter(old(View()), now, tapPoint, frame)
    {
      simTime := now;
      injected := injected + [Passage(frame, tapPoint, now)];
      ghost var entered := scheduled;
      if tapPoint > 0 {
        scheduled := scheduled + [InFlight(frame, Upstream, tapPoint - 1, Later(simTime, tap[tapPoint].upDelay))];
      }
      assert scheduled == entered + UpLeg(tap[..], Passage(frame, tapPoint, now));
      entered := scheduled;
      if tapPoint < tap.Length - 1 {
        scheduled := scheduled + [InFlight(frame, Downstream, tapPoint + 1, Later(simTime, tap[tapPoint].downDelay))];
      }
      assert scheduled == entered + DownLeg(tap[..], Passage(frame, tapPoint, now));
    }

    /** The k-th event in flight is due. */
    method HandleEvent(now: real, k: nat)
      requires k < |scheduled| && scheduled[k].tap < tap.Length
      modifies this`simTime, this`delivered, this`scheduled
      ensures View() == Reach(old(View()), now, k)
    {
      simTime := now;
      var msg := scheduled[k];
      scheduled := scheduled[..k] + scheduled[k + 1..];
      var tapPoint := msg.tap;
      var isLast := if msg.direction.Upstream? then tapPoint == 0 else tapPoint == tap.Length - 1;
      delivered := delivered + [Passage(msg.frame, tapPoint, now)];
      if !isLast {
        var nextTap := if msg.direction.Upstream? then tapPoint - 1 else tapPoint + 1;
        var delay := if msg.direction.Upstream? then tap[tapPoint].upDelay else tap[tapPoint].downDelay;
        scheduled := scheduled + [InFlight(msg.frame, msg.direction, nextTap, Later(simTime, delay))];
      }
    }
  }
}
