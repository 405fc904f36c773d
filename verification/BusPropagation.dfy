/**
 The shared cable: a frame entering at one tap travels both ways, tap by tap, each leg a scheduled event.
 */
module BusPropagation {

  datatype Direction = Upstream | Downstream

  /** Where a tap is, and how long a signal takes to the neighbouring taps. */
  datatype BusTap = BusTap(id: nat, position: real, upDelay: real, downDelay: real)

  /** A frame under way in one direction, due at a tap. */
  datatype InFlight = InFlight(frame: nat, direction: Direction, tap: nat, time: real)

  /** A frame that entered the bus, or left it, at a tap. */
  datatype Passage = Passage(frame: nat, tap: nat, time: real)

  /** `injected` and `delivered` record everything that entered and left. */
  datatype Bus = Bus(
    taps: seq<BusTap>, now: real, pending: seq<InFlight>, injected: seq<Passage>, delivered: seq<Passage>)

  // ---------- Geometry ----------

  /** The time a signal takes from position x up to position y. */
  function Travel(x: real, y: real, speed: real): real
    requires speed != 0.0
  {
    (y - x) / speed
  }

  function Later(t: real, delay: real): real {
    t + delay
  }

  lemma Telescopes(t: real, x: real, y: real, z: real, speed: real)
    requires speed != 0.0
    ensures Later(Later(t, Travel(x, y, speed)), Travel(y, z, speed)) == Later(t, Travel(x, z, speed))
  {
  }

  /** The distance by which missing positions are filled up. */
  function Spacing(pos: seq<real>): real {
    if |pos| >= 2 then pos[|pos| - 1] - pos[|pos| - 2] else 5.0
  }

  /** The position of a tap, given or filled up. */
  function PositionOf(pos: seq<real>, i: nat): real {
    if i < |pos| then pos[i] else if i == 0 then 5.0 else PositionOf(pos, i - 1) + Spacing(pos)
  }

  /** Beyond the given positions the taps are equally spaced, 5 m apart if fewer than two are given. */
  lemma {:induction false} FilledPositions(pos: seq<real>, i: nat)
    requires i >= |pos|
    ensures pos != [] ==> PositionOf(pos, i) == pos[|pos| - 1] + (i - |pos| + 1) as real * Spacing(pos)
    ensures pos == [] ==> PositionOf(pos, i) == (i + 1) as real * 5.0
  {
    if i > |pos| {
      FilledPositions(pos, i - 1);
    }
  }

  predicate Ascending(pos: seq<real>, taps: nat) {
    forall i: nat, j: nat :: i < j < taps ==> PositionOf(pos, i) <= PositionOf(pos, j)
  }

  /**
   Taps at the given positions; those beyond them at the last distance between given positions, or 5 m apart if
   there are fewer than two.
   */
  predicate AtGiven(taps: seq<BusTap>, pos: seq<real>) {
    && (forall i :: 0 <= i < |taps| && i < |pos| ==> taps[i].position == pos[i])
    && (pos == [] ==> forall i :: 0 <= i < |taps| ==> taps[i].position == (i + 1) as real * 5.0)
    && (|pos| == 1 ==> forall i :: 1 <= i < |taps| ==> taps[i].position == pos[0] + i as real * 5.0)
    && (|pos| >= 2 ==>
          forall i :: |pos| <= i < |taps| ==>
            taps[i].position == pos[|pos| - 1] + (i - |pos| + 1) as real * (pos[|pos| - 1] - pos[|pos| - 2]))
  }

  lemma PlacedAtGiven(taps: seq<BusTap>, pos: seq<real>)
    requires Positioned(taps, pos)
    ensures AtGiven(taps, pos)
  {
    forall i | |pos| <= i < |taps|
      ensures pos != [] ==> taps[i].position == pos[|pos| - 1] + (i - |pos| + 1) as real * Spacing(pos)
      ensures pos == [] ==> taps[i].position == (i + 1) as real * 5.0
    {
      FilledPositions(pos, i);
    }
  }

  /** Each given position that counts is followed by one that is not below it. */
  predicate GivenInOrder(pos: seq<real>, taps: nat) {
    forall i, j :: 0 <= i < |pos| && 0 <= j < |pos| && j == i + 1 && j < taps ==> pos[i] <= pos[j]
  }

  lemma {:induction false} OrderedUpTo(pos: seq<real>, taps: nat, i: nat, j: nat)
    requires GivenInOrder(pos, taps) && i <= j < taps
    ensures PositionOf(pos, i) <= PositionOf(pos, j)
  {
    if i < j {
      OrderedUpTo(pos, taps, i, j - 1);
      if j >= |pos| >= 2 {
        assert pos[|pos| - 2] <= pos[|pos| - 1];
      }
    }
  }

  /** The positions of all taps are in order exactly if those given are, as far as there are taps for them. */
  lemma AscendingExactly(pos: seq<real>, taps: nat)
    ensures Ascending(pos, taps) <==> GivenInOrder(pos, taps)
  {
    if GivenInOrder(pos, taps) {
      forall i: nat, j: nat | i < j < taps
        ensures PositionOf(pos, i) <= PositionOf(pos, j)
      {
        OrderedUpTo(pos, taps, i, j);
      }
    } else {
      var i, j :| 0 <= i < |pos| && 0 <= j < |pos| && j == i + 1 && j < taps && pos[i] > pos[j];
      assert PositionOf(pos, i) > PositionOf(pos, j);
    }
  }

  /** Neighbouring taps are in order and know how long a signal takes between them; the ends know of no more. */
  predicate Spaced(taps: seq<BusTap>, speed: real)
    requires speed != 0.0
  {
    && (forall i :: 0 <= i < |taps| ==> taps[i].id == i)
    && (forall i, j :: 0 <= i < j < |taps| ==> taps[i].position <= taps[j].position)
    && (forall i {:trigger taps[i].upDelay} :: 0 < i < |taps| ==>
          taps[i].upDelay == taps[i - 1].downDelay == Travel(taps[i - 1].position, taps[i].position, speed))
    && (taps != [] ==> taps[0].upDelay == 0.0) && (|taps| > 1 ==> taps[|taps| - 1].downDelay == 0.0)
  }

  /** All taps are at one place. */
  predicate Together(taps: seq<BusTap>) {
    forall i :: 0 <= i < |taps| ==> taps[i].position == taps[0].position
  }

  /** No signal reaches a neighbour before it sets out. */
  predicate Forward(taps: seq<BusTap>) {
    && (forall i :: 0 < i < |taps| ==> taps[i].upDelay >= 0.0)
    && (forall i :: 0 <= i < |taps| - 1 ==> taps[i].downDelay >= 0.0)
  }

  /**
   A tap that knows the delays to its neighbours, none at the ends of the bus.  The code takes the first tap to
   have a next one: with a single tap, `beyond` is the number that it reads past the array.
   */
  function WithDelays(taps: seq<BusTap>, i: nat, speed: real, beyond: real): BusTap
    requires i < |taps| && speed != 0.0
  {
    BusTap(taps[i].id, taps[i].position,
           if i == 0 then 0.0 else Travel(taps[i - 1].position, taps[i].position, speed),
           if i < |taps| - 1 then Travel(taps[i].position, taps[i + 1].position, speed)
           else if i > 0 then 0.0 else Travel(taps[i].position, beyond, speed))
  }

  predicate Positioned(taps: seq<BusTap>, pos: seq<real>) {
    forall i :: 0 <= i < |taps| ==> taps[i].position == PositionOf(pos, i)
  }

  /** Taps placed in ascending order and given their delays make a proper bus. */
  lemma PlacedIsSpaced(pos: seq<real>, before: seq<BusTap>, after: seq<BusTap>, speed: real, beyond: real)
    requires speed != 0.0 && |before| == |after| && Ascending(pos, |before|)
    requires forall i :: 0 <= i < |before| ==> before[i] == BusTap(i, PositionOf(pos, i), 0.0, 0.0)
    requires forall i :: 0 <= i < |before| ==> after[i] == WithDelays(before, i, speed, beyond)
    ensures Spaced(after, speed) && Positioned(after, pos)
  {
    assert forall i :: 0 <= i < |after| ==> after[i].position == PositionOf(pos, i);
    forall i | 0 < i < |after|
      ensures after[i].upDelay == after[i - 1].downDelay == Travel(after[i - 1].position, after[i].position, speed)
    {
      assert after[i - 1] == WithDelays(before, i - 1, speed, beyond) && after[i] == WithDelays(before, i, speed, beyond);
    }
  }

  // ---------- Operations ----------

  function Init(taps: seq<BusTap>): Bus {
    Bus(taps, 0.0, [], [], [])
  }

  /** The upstream event of a frame entering at a tap, unless that is the first tap. */
  function UpLeg(taps: seq<BusTap>, x: Passage): seq<InFlight>
    requires x.tap < |taps|
  {
    if x.tap > 0 then [InFlight(x.frame, Upstream, x.tap - 1, Later(x.time, taps[x.tap].upDelay))] else []
  }

  /** The downstream event, unless it is the last tap. */
  function DownLeg(taps: seq<BusTap>, x: Passage): seq<InFlight>
    requires x.tap < |taps|
  {
    if x.tap < |taps| - 1 then [InFlight(x.frame, Downstream, x.tap + 1, Later(x.time, taps[x.tap].downDelay))] else []
  }

  /** A frame enters at a tap and sets out in both directions, where there is one. */
  function Enter(s: Bus, t: real, tap: nat, frame: nat): Bus
    requires tap < |s.taps|
  {
    var x := Passage(frame, tap, t);
    s.(now := t, pending := s.pending + UpLeg(s.taps, x) + DownLeg(s.taps, x), injected := s.injected + [x])
  }

  predicate IsLast(taps: nat, e: InFlight) {
    if e.direction.Upstream? then e.tap == 0 else e.tap + 1 == taps
  }

  /** The next leg of a frame that has arrived at a tap before the end of the bus. */
  function NextLeg(taps: seq<BusTap>, e: InFlight, t: real): InFlight
    requires e.tap < |taps| && !IsLast(|taps|, e)
  {
    match e.direction
    case Upstream => InFlight(e.frame, Upstream, e.tap - 1, Later(t, taps[e.tap].upDelay))
    case Downstream => InFlight(e.frame, Downstream, e.tap + 1, Later(t, taps[e.tap].downDelay))
  }

  /** An event in flight reaches its tap: the frame goes out there, and on to the next tap. */
  function Reach(s: Bus, t: real, k: nat): Bus
    requires k < |s.pending| && s.pending[k].tap < |s.taps|
  {
    var e := s.pending[k];
    var rest := Without(s.pending, k);
    s.(now := t,
       pending := if IsLast(|s.taps|, e) then rest else rest + [NextLeg(s.taps, e, t)],
       delivered := s.delivered + [Passage(e.frame, e.tap, t)])
  }

  datatype Event = Frame(tap: nat, frame: nat) | Due(which: nat)

  ghost predicate Enabled(s: Bus, t: real, ev: Event) {
    && s.now <= t && (forall k :: 0 <= k < |s.pending| ==> t <= s.pending[k].time)
    && (ev.Frame? ==> ev.tap < |s.taps|)
    && (ev.Due? ==> ev.which < |s.pending| && s.pending[ev.which].time == t && s.pending[ev.which].tap < |s.taps|)
  }

  ghost function Step(s: Bus, t: real, ev: Event): Bus
    requires Enabled(s, t, ev)
  {
    match ev
    case Frame(p, f) => Enter(s, t, p, f)
    case Due(k) => Reach(s, t, k)
  }

  // ---------- What a frame should do ----------

  /** The delivery to tap q of a frame that entered at tap p: after the time light takes between the two. */
  function To(taps: seq<BusTap>, speed: real, x: Passage, q: nat): Passage
    requires speed != 0.0 && x.tap < |taps| && q < |taps|
  {
    var here, there := taps[x.tap].position, taps[q].position;
    Passage(x.frame, q, Later(x.time, if q < x.tap then Travel(there, here, speed) else Travel(here, there, speed)))
  }

  /** Its deliveries to the taps below `hi`. */
  function Below(taps: seq<BusTap>, speed: real, x: Passage, hi: nat): multiset<Passage>
    requires speed != 0.0 && x.tap < |taps| && hi <= |taps|
  {
    if hi == 0 then multiset{} else Below(taps, speed, x, hi - 1) + multiset{To(taps, speed, x, hi - 1)}
  }

  /** Its deliveries to the taps from `lo` on. */
  function From(taps: seq<BusTap>, speed: real, x: Passage, lo: nat): multiset<Passage>
    requires speed != 0.0 && x.tap < |taps| && lo <= |taps|
    decreases |taps| - lo
  {
    if lo == |taps| then multiset{} else multiset{To(taps, speed, x, lo)} + From(taps, speed, x, lo + 1)
  }

  /** One delivery to every tap but the one of entry. */
  function Expected(taps: seq<BusTap>, speed: real, x: Passage): multiset<Passage>
    requires speed != 0.0 && x.tap < |taps|
  {
    Below(taps, speed, x, x.tap) + From(taps, speed, x, x.tap + 1)
  }

  ghost predicate OnBus(taps: seq<BusTap>, xs: seq<Passage>) {
    forall k :: 0 <= k < |xs| ==> xs[k].tap < |taps|
  }

  ghost function ExpectedAll(taps: seq<BusTap>, speed: real, xs: seq<Passage>): multiset<Passage>
    requires speed != 0.0 && OnBus(taps, xs)
  {
    if xs == [] then multiset{}
    else ExpectedAll(taps, speed, xs[..|xs| - 1]) + Expected(taps, speed, xs[|xs| - 1])
  }

  // ---------- What a frame in flight will do ----------

  /** All deliveries still to come of one event in flight. */
  function Future(taps: seq<BusTap>, e: InFlight): multiset<Passage>
    requires e.tap < |taps|
    decreases if e.direction.Upstream? then e.tap else |taps| - e.tap
  {
    multiset{Passage(e.frame, e.tap, e.time)} +
    if IsLast(|taps|, e) then multiset{} else Future(taps, NextLeg(taps, e, e.time))
  }

  ghost predicate Flying(taps: seq<BusTap>, es: seq<InFlight>) {
    forall k :: 0 <= k < |es| ==> es[k].tap < |taps|
  }

  ghost function FutureAll(taps: seq<BusTap>, es: seq<InFlight>): multiset<Passage>
    requires Flying(taps, es)
  {
    if es == [] then multiset{} else FutureAll(taps, es[..|es| - 1]) + Future(taps, es[|es| - 1])
  }

  lemma FutureAppend(taps: seq<BusTap>, es: seq<InFlight>, e: InFlight)
    requires Flying(taps, es) && e.tap < |taps|
    ensures Flying(taps, es + [e]) && FutureAll(taps, es + [e]) == FutureAll(taps, es) + Future(taps, e)
  {
    assert (es + [e])[..|es|] == es;
  }

  /** The sequence without its k-th element. */
  function Without<T>(xs: seq<T>, k: nat): seq<T>
    requires k < |xs|
  {
    xs[..k] + xs[k + 1..]
  }

  lemma WithoutInner<T>(xs: seq<T>, k: nat)
    requires k < |xs| - 1
    ensures Without(xs, k) == Without(xs[..|xs| - 1], k) + [xs[|xs| - 1]]
  {
  }

  lemma SplitLast<T>(xs: seq<T>)
    requires xs != []
    ensures xs == xs[..|xs| - 1] + [xs[|xs| - 1]]
  {
  }

  lemma WithoutLast<T>(xs: seq<T>)
    requires xs != []
    ensures Without(xs, |xs| - 1) == xs[..|xs| - 1]
  {
  }

  lemma WithoutKeeps(taps: seq<BusTap>, es: seq<InFlight>, k: nat)
    requires Flying(taps, es) && k < |es|
    ensures Flying(taps, Without(es, k))
  {
  }

  lemma SwapLast<T>(r: multiset<T>, last: multiset<T>, k: multiset<T>, all: multiset<T>)
    requires r + k == all
    ensures (r + last) + k == all + last
  {
    assert (r + last) + k == (r + k) + last;
  }

  lemma {:induction false} FutureRemove(taps: seq<BusTap>, es: seq<InFlight>, k: nat)
    requires Flying(taps, es) && k < |es|
    ensures Flying(taps, Without(es, k))
    ensures FutureAll(taps, Without(es, k)) + Future(taps, es[k]) == FutureAll(taps, es)
  {
    var n := |es| - 1;
    WithoutKeeps(taps, es, k);
    if k == n {
      WithoutLast(es);
    } else {
      var init, last := es[..n], es[n];
      FutureRemove(taps, init, k);
      RemoveInner(taps, init, last, k, Without(init, k));
      WithoutInner(es, k);
      SplitLast(es);
    }
  }

  lemma RemoveInner(taps: seq<BusTap>, init: seq<InFlight>, last: InFlight, k: nat, rest: seq<InFlight>)
    requires Flying(taps, init) && k < |init| && last.tap < |taps| && Flying(taps, rest)
    requires FutureAll(taps, rest) + Future(taps, init[k]) == FutureAll(taps, init)
    ensures Flying(taps, rest + [last]) && Flying(taps, init + [last])
    ensures FutureAll(taps, rest + [last]) + Future(taps, init[k]) == FutureAll(taps, init + [last])
  {
    FutureAppend(taps, rest, last);
    FutureAppend(taps, init, last);
    SwapLast(FutureAll(taps, rest), Future(taps, last), Future(taps, init[k]), FutureAll(taps, init));
  }

  /** A leg upwards that is on time is followed by one that is on time. */
  lemma NextUp(taps: seq<BusTap>, speed: real, x: Passage, q: nat)
    requires speed != 0.0 && Spaced(taps, speed) && x.tap < |taps| && 0 < q < x.tap
    ensures NextLeg(taps, InFlight(x.frame, Upstream, q, To(taps, speed, x, q).time), To(taps, speed, x, q).time)
            == InFlight(x.frame, Upstream, q - 1, To(taps, speed, x, q - 1).time)
  {
    UpDelay(taps, speed, x.time, q, x.tap);
  }

  /** A frame arriving at q on its way up, on time, will be delivered on time to all taps from q up. */
  lemma {:induction false} UpwardOnTime(taps: seq<BusTap>, speed: real, x: Passage, q: nat)
    requires speed != 0.0 && Spaced(taps, speed) && x.tap < |taps| && q < x.tap
    ensures Future(taps, InFlight(x.frame, Upstream, q, To(taps, speed, x, q).time)) == Below(taps, speed, x, q + 1)
  {
    if q > 0 {
      UpwardOnTime(taps, speed, x, q - 1);
      NextUp(taps, speed, x, q);
      FutureNext(taps, InFlight(x.frame, Upstream, q, To(taps, speed, x, q).time),
                 InFlight(x.frame, Upstream, q - 1, To(taps, speed, x, q - 1).time), Below(taps, speed, x, q),
                 Below(taps, speed, x, q + 1));
    }
  }

  /** An event delivers at its own tap, and then what its next leg will. */
  lemma FutureNext(taps: seq<BusTap>, e: InFlight, next: InFlight, later: multiset<Passage>, all: multiset<Passage>)
    requires e.tap < |taps| && !IsLast(|taps|, e) && NextLeg(taps, e, e.time) == next && next.tap < |taps|
    requires Future(taps, next) == later
    requires all == later + multiset{Passage(e.frame, e.tap, e.time)} || all == multiset{Passage(e.frame, e.tap, e.time)} + later
    ensures Future(taps, e) == all
  {
  }

  /** Summing legs is measuring the distance. */
  lemma UpDelay(taps: seq<BusTap>, speed: real, t: real, q: nat, p: nat)
    requires speed != 0.0 && Spaced(taps, speed) && 0 < q <= p < |taps|
    ensures Later(Later(t, Travel(taps[q].position, taps[p].position, speed)), taps[q].upDelay)
            == Later(t, Travel(taps[q - 1].position, taps[p].position, speed))
  {
    var a, b, c := taps[q - 1].position, taps[q].position, taps[p].position;
    assert taps[q].upDelay == Travel(a, b, speed);
    Telescopes(t, a, b, c, speed);
  }

  /** A leg downwards that is on time is followed by one that is on time. */
  lemma NextDown(taps: seq<BusTap>, speed: real, x: Passage, q: nat)
    requires speed != 0.0 && Spaced(taps, speed) && x.tap < q && q + 1 < |taps|
    ensures NextLeg(taps, InFlight(x.frame, Downstream, q, To(taps, speed, x, q).time), To(taps, speed, x, q).time)
            == InFlight(x.frame, Downstream, q + 1, To(taps, speed, x, q + 1).time)
  {
    DownDelay(taps, speed, x.time, x.tap, q);
  }

  /** The event that arrives at q on its way down on time. */
  function DownAt(taps: seq<BusTap>, speed: real, x: Passage, q: nat): InFlight
    requires speed != 0.0 && x.tap < |taps| && q < |taps|
  {
    InFlight(x.frame, Downstream, q, To(taps, speed, x, q).time)
  }

  lemma DownLast(taps: seq<BusTap>, speed: real, x: Passage)
    requires speed != 0.0 && x.tap < |taps| - 1
    ensures Future(taps, DownAt(taps, speed, x, |taps| - 1)) == From(taps, speed, x, |taps| - 1)
  {
    assert From(taps, speed, x, |taps|) == multiset{};
  }

  lemma DownNext(taps: seq<BusTap>, speed: real, x: Passage, q: nat)
    requires speed != 0.0 && Spaced(taps, speed) && x.tap < q && q + 1 < |taps|
    requires Future(taps, DownAt(taps, speed, x, q + 1)) == From(taps, speed, x, q + 1)
    ensures Future(taps, DownAt(taps, speed, x, q)) == From(taps, speed, x, q)
  {
    NextDown(taps, speed, x, q);
    FutureNext(taps, DownAt(taps, speed, x, q), DownAt(taps, speed, x, q + 1), From(taps, speed, x, q + 1),
               From(taps, speed, x, q));
  }

  lemma DownStep(taps: seq<BusTap>, speed: real, x: Passage, q: nat)
    requires speed != 0.0 && Spaced(taps, speed) && x.tap < q < |taps|
    requires q + 1 < |taps| ==> Future(taps, DownAt(taps, speed, x, q + 1)) == From(taps, speed, x, q + 1)
    ensures Future(taps, DownAt(taps, speed, x, q)) == From(taps, speed, x, q)
  {
    if q + 1 < |taps| {
      DownNext(taps, speed, x, q);
    } else {
      DownLast(taps, speed, x);
    }
  }

  /** Likewise for a frame on its way down. */
  lemma {:induction false} DownwardOnTime(taps: seq<BusTap>, speed: real, x: Passage, q: nat)
    requires speed != 0.0 && Spaced(taps, speed) && x.tap < q < |taps|
    ensures Future(taps, DownAt(taps, speed, x, q)) == From(taps, speed, x, q)
    decreases |taps| - q
  {
    if q + 1 < |taps| {
      DownwardOnTime(taps, speed, x, q + 1);
    }
    DownStep(taps, speed, x, q);
  }

  lemma DownDelay(taps: seq<BusTap>, speed: real, t: real, p: nat, q: nat)
    requires speed != 0.0 && Spaced(taps, speed) && p <= q && q + 1 < |taps|
    ensures Later(Later(t, Travel(taps[p].position, taps[q].position, speed)), taps[q].downDelay)
            == Later(t, Travel(taps[p].position, taps[q + 1].position, speed))
  {
    var a, b, c := taps[p].position, taps[q].position, taps[q + 1].position;
    assert taps[q + 1].upDelay == taps[q].downDelay == Travel(b, c, speed);
    Telescopes(t, a, b, c, speed);
  }

  // ---------- The invariant ----------

  ghost predicate Inv(s: Bus, speed: real) {
    && speed != 0.0 && Spaced(s.taps, speed) && Forward(s.taps) && Flying(s.taps, s.pending) && OnBus(s.taps, s.injected)
    && (forall k :: 0 <= k < |s.pending| ==> s.now <= s.pending[k].time)
    && (forall k :: 0 <= k < |s.delivered| ==> s.delivered[k].time <= s.now)
    && multiset(s.delivered) + FutureAll(s.taps, s.pending) == ExpectedAll(s.taps, speed, s.injected)
  }

  lemma ExpectedAppend(taps: seq<BusTap>, speed: real, xs: seq<Passage>, x: Passage)
    requires speed != 0.0 && OnBus(taps, xs) && x.tap < |taps|
    ensures OnBus(taps, xs + [x])
    ensures ExpectedAll(taps, speed, xs + [x]) == ExpectedAll(taps, speed, xs) + Expected(taps, speed, x)
  {
    assert (xs + [x])[..|xs|] == xs;
  }

  /** The leg, of one event or none, will make exactly the deliveries `m`. */
  ghost predicate Delivers(taps: seq<BusTap>, leg: seq<InFlight>, m: multiset<Passage>) {
    if leg == [] then m == multiset{} else |leg| == 1 && leg[0].tap < |taps| && Future(taps, leg[0]) == m
  }

  lemma OneDelivers(taps: seq<BusTap>, e: InFlight, leg: seq<InFlight>, m: multiset<Passage>)
    requires leg == [e] && e.tap < |taps| && Future(taps, e) == m
    ensures Delivers(taps, leg, m)
  {
  }

  lemma DownOnTime(taps: seq<BusTap>, speed: real, x: Passage)
    requires speed != 0.0 && Spaced(taps, speed) && x.tap < |taps| - 1
    ensures DownLeg(taps, x) == [InFlight(x.frame, Downstream, x.tap + 1, To(taps, speed, x, x.tap + 1).time)]
  {
    LegDelay(taps, speed, x.tap + 1);
  }

  lemma UpOnTime(taps: seq<BusTap>, speed: real, x: Passage)
    requires speed != 0.0 && Spaced(taps, speed) && 0 < x.tap < |taps|
    ensures UpLeg(taps, x) == [InFlight(x.frame, Upstream, x.tap - 1, To(taps, speed, x, x.tap - 1).time)]
  {
    LegDelay(taps, speed, x.tap);
  }

  lemma UpDelivers(taps: seq<BusTap>, speed: real, x: Passage)
    requires speed != 0.0 && Spaced(taps, speed) && x.tap < |taps|
    ensures Delivers(taps, UpLeg(taps, x), Below(taps, speed, x, x.tap))
  {
    if x.tap > 0 {
      UpOnTime(taps, speed, x);
      UpwardOnTime(taps, speed, x, x.tap - 1);
      OneDelivers(taps, UpLeg(taps, x)[0], UpLeg(taps, x), Below(taps, speed, x, x.tap));
    }
  }

  lemma DownDelivers(taps: seq<BusTap>, speed: real, x: Passage)
    requires speed != 0.0 && Spaced(taps, speed) && x.tap < |taps|
    ensures Delivers(taps, DownLeg(taps, x), From(taps, speed, x, x.tap + 1))
  {
    if x.tap < |taps| - 1 {
      DownOnTime(taps, speed, x);
      DownwardOnTime(taps, speed, x, x.tap + 1);
      OneDelivers(taps, DownLeg(taps, x)[0], DownLeg(taps, x), From(taps, speed, x, x.tap + 1));
    }
  }

  lemma AppendLeg(taps: seq<BusTap>, es: seq<InFlight>, leg: seq<InFlight>, m: multiset<Passage>)
    requires Flying(taps, es) && Delivers(taps, leg, m)
    ensures Flying(taps, es + leg) && FutureAll(taps, es + leg) == FutureAll(taps, es) + m
  {
    if leg == [] {
      assert es + leg == es;
    } else {
      assert leg == [leg[0]];
      FutureAppend(taps, es, leg[0]);
    }
  }

  lemma AppendLegs(taps: seq<BusTap>, es: seq<InFlight>, up: seq<InFlight>, down: seq<InFlight>,
                   below: multiset<Passage>, beyond: multiset<Passage>, all: multiset<Passage>)
    requires Flying(taps, es) && Delivers(taps, up, below) && Delivers(taps, down, beyond) && all == below + beyond
    ensures Flying(taps, es + up + down) && FutureAll(taps, es + up + down) == FutureAll(taps, es) + all
  {
    AppendLeg(taps, es, up, below);
    AppendLeg(taps, es + up, down, beyond);
    Regroup(FutureAll(taps, es), below, beyond);
  }

  lemma Regroup<T>(x: multiset<T>, up: multiset<T>, down: multiset<T>)
    ensures (x + up) + down == x + (up + down)
    ensures x + multiset{} == x
  {
  }

  /** The events a frame starts will make exactly the deliveries expected of it. */
  lemma EnterFuture(taps: seq<BusTap>, es: seq<InFlight>, speed: real, x: Passage)
    requires speed != 0.0 && Spaced(taps, speed) && x.tap < |taps| && Flying(taps, es)
    ensures var more := es + UpLeg(taps, x) + DownLeg(taps, x);
            Flying(taps, more) && FutureAll(taps, more) == FutureAll(taps, es) + Expected(taps, speed, x)
  {
    UpDelivers(taps, speed, x);
    DownDelivers(taps, speed, x);
    AppendLegs(taps, es, UpLeg(taps, x), DownLeg(taps, x),
               Below(taps, speed, x, x.tap), From(taps, speed, x, x.tap + 1), Expected(taps, speed, x));
  }

  lemma EnterTimes(s: Bus, t: real, p: nat, f: nat)
    requires Forward(s.taps) && p < |s.taps|
    requires forall k :: 0 <= k < |s.pending| ==> t <= s.pending[k].time
    ensures forall k :: 0 <= k < |Enter(s, t, p, f).pending| ==> t <= Enter(s, t, p, f).pending[k].time
  {
  }

  lemma LegDelay(taps: seq<BusTap>, speed: real, i: nat)
    requires speed != 0.0 && Spaced(taps, speed) && 0 < i < |taps|
    ensures taps[i].upDelay == taps[i - 1].downDelay == Travel(taps[i - 1].position, taps[i].position, speed)
  {
  }

  lemma EnterInv(s: Bus, speed: real, t: real, p: nat, f: nat)
    requires Inv(s, speed) && Enabled(s, t, Frame(p, f))
    ensures Inv(Enter(s, t, p, f), speed)
  {
    EnterFuture(s.taps, s.pending, speed, Passage(f, p, t));
    EnterTimes(s, t, p, f);
    ExpectedAppend(s.taps, speed, s.injected, Passage(f, p, t));
    Regroup(multiset(s.delivered), FutureAll(s.taps, s.pending), Expected(s.taps, speed, Passage(f, p, t)));
  }

  lemma LegForward(taps: seq<BusTap>, e: InFlight)
    requires Forward(taps) && e.tap < |taps| && !IsLast(|taps|, e)
    ensures NextLeg(taps, e, e.time).tap < |taps| && e.time <= NextLeg(taps, e, e.time).time
  {
  }

  /** A delivery moves from the future to the past. */
  lemma ReachFuture(s: Bus, t: real, k: nat)
    requires Flying(s.taps, s.pending) && k < |s.pending| && s.pending[k].time == t
    ensures var r, e := Reach(s, t, k), s.pending[k];
            && Flying(s.taps, r.pending)
            && FutureAll(s.taps, r.pending) + multiset{Passage(e.frame, e.tap, t)} == FutureAll(s.taps, s.pending)
  {
    var e := s.pending[k];
    FutureRemove(s.taps, s.pending, k);
    var rest := Without(s.pending, k);
    var here := multiset{Passage(e.frame, e.tap, t)};
    if !IsLast(|s.taps|, e) {
      FutureAppend(s.taps, rest, NextLeg(s.taps, e, t));
      var onward := Future(s.taps, NextLeg(s.taps, e, t));
      assert Future(s.taps, e) == here + onward;
      assert (FutureAll(s.taps, rest) + onward) + here == FutureAll(s.taps, rest) + (here + onward);
    } else {
      assert Future(s.taps, e) == here + multiset{} == here;
    }
  }

  lemma ReachTimes(s: Bus, t: real, k: nat)
    requires Forward(s.taps) && k < |s.pending| && s.pending[k].tap < |s.taps| && s.pending[k].time == t
    requires forall j :: 0 <= j < |s.pending| ==> t <= s.pending[j].time
    ensures forall j :: 0 <= j < |Reach(s, t, k).pending| ==> t <= Reach(s, t, k).pending[j].time
  {
    var e := s.pending[k];
    if !IsLast(|s.taps|, e) {
      LegForward(s.taps, e);
    }
  }

  lemma Delivered<T>(done: seq<T>, d: T, after: multiset<T>, future: multiset<T>)
    requires after + multiset{d} == future
    ensures multiset(done + [d]) + after == multiset(done) + future
  {
    assert (multiset(done) + multiset{d}) + after == multiset(done) + (after + multiset{d});
  }

  lemma ReachInv(s: Bus, speed: real, t: real, k: nat)
    requires Inv(s, speed) && Enabled(s, t, Due(k))
    ensures Inv(Reach(s, t, k), speed)
  {
    var e := s.pending[k];
    ReachFuture(s, t, k);
    ReachTimes(s, t, k);
    var d := Passage(e.frame, e.tap, t);
    Delivered(s.delivered, d, FutureAll(s.taps, Reach(s, t, k).pending), FutureAll(s.taps, s.pending));
    InvAfter(s, speed, t, d, Reach(s, t, k));
  }

  lemma InvAfter(s: Bus, speed: real, t: real, d: Passage, r: Bus)
    requires Inv(s, speed) && s.now <= t && d.time == t && Flying(s.taps, r.pending)
    requires r.taps == s.taps && r.now == t && r.injected == s.injected && r.delivered == s.delivered + [d]
    requires forall j :: 0 <= j < |r.pending| ==> t <= r.pending[j].time
    requires multiset(s.delivered + [d]) + FutureAll(s.taps, r.pending) == multiset(s.delivered) + FutureAll(s.taps, s.pending)
    ensures Inv(r, speed)
  {
  }

  // ---------- When no event is scheduled in the past ----------

  /** Whatever enters when, and whatever arrives when, sets out no event for an earlier time. */
  ghost predicate NeverPast(taps: seq<BusTap>) {
    && (forall x: Passage, k: nat :: x.tap < |taps| && k < |Legs(taps, x)| ==> x.time <= Legs(taps, x)[k].time)
    && (forall e: InFlight, t: real :: e.tap < |taps| && !IsLast(|taps|, e) ==> t <= NextLeg(taps, e, t).time)
  }

  /** Both events of a frame that enters. */
  function Legs(taps: seq<BusTap>, x: Passage): seq<InFlight>
    requires x.tap < |taps|
  {
    UpLeg(taps, x) + DownLeg(taps, x)
  }

  lemma NeverPastIsForward(taps: seq<BusTap>)
    ensures NeverPast(taps) <==> Forward(taps)
  {
    if NeverPast(taps) {
      forall i | 0 < i < |taps|
        ensures taps[i].upDelay >= 0.0
      {
        assert NextLeg(taps, InFlight(0, Upstream, i, 0.0), 0.0).time == taps[i].upDelay;
      }
      forall i | 0 <= i < |taps| - 1
        ensures taps[i].downDelay >= 0.0
      {
        assert NextLeg(taps, InFlight(0, Downstream, i, 0.0), 0.0).time == taps[i].downDelay;
      }
    }
  }

  lemma Quotient(x: real, y: real)
    requires x >= 0.0 && y != 0.0
    ensures x / y >= 0.0 <==> y > 0.0 || x == 0.0
  {
  }

  lemma DelaySign(taps: seq<BusTap>, speed: real, i: nat)
    requires speed != 0.0 && Spaced(taps, speed) && 0 < i < |taps|
    ensures taps[i].upDelay == taps[i - 1].downDelay
    ensures taps[i].upDelay >= 0.0 <==> speed > 0.0 || taps[i - 1].position == taps[i].position
  {
    LegDelay(taps, speed, i);
    Quotient(taps[i].position - taps[i - 1].position, speed);
  }

  lemma PositiveIsForward(taps: seq<BusTap>, speed: real)
    requires speed != 0.0 && Spaced(taps, speed) && (speed > 0.0 || Together(taps))
    ensures Forward(taps)
  {
    forall i | 0 < i < |taps|
      ensures taps[i].upDelay >= 0.0
    {
      DelaySign(taps, speed, i);
    }
    forall i | 0 <= i < |taps| - 1
      ensures taps[i].downDelay >= 0.0
    {
      DelaySign(taps, speed, i + 1);
    }
  }

  lemma {:induction false} ForwardIsTogether(taps: seq<BusTap>, speed: real, i: nat)
    requires speed < 0.0 && Spaced(taps, speed) && Forward(taps) && i < |taps|
    ensures taps[i].position == taps[0].position
  {
    if i > 0 {
      DelaySign(taps, speed, i);
      ForwardIsTogether(taps, speed, i - 1);
    }
  }

  /**
   On taps wired as initialisation wires them, no event is ever scheduled in the past, which the kernel refuses,
   exactly if signals travel at a positive speed or all taps are at one place.
   */
  lemma WorksExactly(taps: seq<BusTap>, speed: real)
    requires speed != 0.0 && Spaced(taps, speed)
    ensures NeverPast(taps) <==> Forward(taps)
    ensures NeverPast(taps) <==> speed > 0.0 || Together(taps)
  {
    NeverPastIsForward(taps);
    if speed > 0.0 || Together(taps) {
      PositiveIsForward(taps, speed);
    } else if Forward(taps) {
      forall i | 0 <= i < |taps|
        ensures taps[i].position == taps[0].position
      {
        ForwardIsTogether(taps, speed, i);
      }
    }
  }

  // ---------- Every run ----------

  datatype Run = Boot | Next(before: Run, t: real, ev: Event)

  ghost predicate Reaches(taps: seq<BusTap>, run: Run, s: Bus) {
    match run
    case Boot => s == Init(taps)
    case Next(b, t, ev) => exists s0 :: Reaches(taps, b, s0) && Enabled(s0, t, ev) && s == Step(s0, t, ev)
  }

  lemma GoOn(taps: seq<BusTap>, run: Run, s: Bus, t: real, ev: Event)
    requires Reaches(taps, run, s) && Enabled(s, t, ev)
    ensures Reaches(taps, Next(run, t, ev), Step(s, t, ev))
  {
  }

  lemma {:induction false} RunInv(taps: seq<BusTap>, speed: real, run: Run, s: Bus)
    requires speed != 0.0 && Spaced(taps, speed) && Forward(taps) && Reaches(taps, run, s)
    ensures Inv(s, speed) && s.taps == taps
  {
    match run
    case Boot =>
    case Next(b, t, ev) =>
      var s0 :| Reaches(taps, b, s0) && Enabled(s0, t, ev) && s == Step(s0, t, ev);
      RunInv(taps, speed, b, s0);
      match ev
      case Frame(p, f) => EnterInv(s0, speed, t, p, f);
      case Due(k) => ReachInv(s0, speed, t, k);
  }

  lemma {:induction false} FutureMember(taps: seq<BusTap>, e: InFlight, d: Passage)
    requires Forward(taps) && e.tap < |taps| && d in Future(taps, e)
    ensures e.time <= d.time
    decreases if e.direction.Upstream? then e.tap else |taps| - e.tap
  {
    if d != Passage(e.frame, e.tap, e.time) {
      LegForward(taps, e);
      FutureMember(taps, NextLeg(taps, e, e.time), d);
    }
  }

  lemma {:induction false} FutureIsLater(taps: seq<BusTap>, es: seq<InFlight>, now: real, d: Passage)
    requires Forward(taps) && Flying(taps, es) && d in FutureAll(taps, es)
    requires forall k :: 0 <= k < |es| ==> now <= es[k].time
    ensures now <= d.time
  {
    var n := |es| - 1;
    if d in Future(taps, es[n]) {
      FutureMember(taps, es[n], d);
    } else {
      FutureIsLater(taps, es[..n], now, d);
    }
  }

  /**
   In every run of an ordered bus, however the frames interleave: what has been delivered is part of what is
   expected of the frames that entered, and everything expected before the present has been delivered, each
   as often as expected; when nothing is in flight, all of it.
   */
  lemma DeliversExactly(taps: seq<BusTap>, speed: real, run: Run, s: Bus, d: Passage)
    requires speed != 0.0 && Spaced(taps, speed) && Forward(taps) && Reaches(taps, run, s)
    ensures OnBus(taps, s.injected)
    ensures multiset(s.delivered)[d] <= ExpectedAll(taps, speed, s.injected)[d]
    ensures d.time < s.now || s.pending == [] ==> multiset(s.delivered)[d] == ExpectedAll(taps, speed, s.injected)[d]
  {
    RunInv(taps, speed, run, s);
    if d.time < s.now && d in FutureAll(taps, s.pending) {
      FutureIsLater(taps, s.pending, s.now, d);
    }
  }

  // ---------- One frame ----------

  /** A delivery after the time in which a signal covers the distance. */
  predicate InTime(taps: seq<BusTap>, speed: real, x: Passage, d: Passage)
    requires speed != 0.0 && x.tap < |taps| && d.tap < |taps|
  {
    var a, b := taps[x.tap].position, taps[d.tap].position;
    d.frame == x.frame && d.time == x.time + (if d.tap < x.tap then a - b else b - a) / speed
  }

  lemma {:induction false} BelowCount(taps: seq<BusTap>, speed: real, x: Passage, hi: nat, d: Passage)
    requires speed != 0.0 && x.tap < |taps| && hi <= |taps|
    ensures Below(taps, speed, x, hi)[d] == if d.tap < hi && d == To(taps, speed, x, d.tap) then 1 else 0
  {
    if hi > 0 {
      BelowCount(taps, speed, x, hi - 1, d);
    }
  }

  lemma {:induction false} FromCount(taps: seq<BusTap>, speed: real, x: Passage, lo: nat, d: Passage)
    requires speed != 0.0 && x.tap < |taps| && lo <= |taps|
    ensures From(taps, speed, x, lo)[d] == if lo <= d.tap < |taps| && d == To(taps, speed, x, d.tap) then 1 else 0
    decreases |taps| - lo
  {
    if lo < |taps| {
      FromCount(taps, speed, x, lo + 1, d);
    }
  }

  /** Expected of a frame: one delivery to each other tap, after the distance over the speed; none to its own. */
  lemma ExpectedCount(taps: seq<BusTap>, speed: real, x: Passage, d: Passage)
    requires speed != 0.0 && x.tap < |taps|
    ensures Expected(taps, speed, x)[d] ==
            if d.tap < |taps| && d.tap != x.tap && d == To(taps, speed, x, d.tap) then 1 else 0
  {
    BelowCount(taps, speed, x, x.tap, d);
    FromCount(taps, speed, x, x.tap + 1, d);
  }

  lemma {:induction false} OthersDoNotMatter(taps: seq<BusTap>, speed: real, xs: seq<Passage>, k: nat, d: Passage)
    requires speed != 0.0 && OnBus(taps, xs) && k < |xs|
    requires forall j :: 0 <= j < |xs| && j != k ==> xs[j].frame != d.frame
    ensures ExpectedAll(taps, speed, xs)[d] == Expected(taps, speed, xs[k])[d]
  {
    var n := |xs| - 1;
    if k < n {
      ExpectedCount(taps, speed, xs[n], d);
      OthersDoNotMatter(taps, speed, xs[..n], k, d);
      assert xs[..n][k] == xs[k];
    } else {
      NoneOfThese(taps, speed, xs[..n], d);
    }
  }

  lemma {:induction false} NoneOfThese(taps: seq<BusTap>, speed: real, xs: seq<Passage>, d: Passage)
    requires speed != 0.0 && OnBus(taps, xs)
    requires forall j :: 0 <= j < |xs| ==> xs[j].frame != d.frame
    ensures ExpectedAll(taps, speed, xs)[d] == 0
  {
    if xs != [] {
      ExpectedCount(taps, speed, xs[|xs| - 1], d);
      NoneOfThese(taps, speed, xs[..|xs| - 1], d);
    }
  }

  /**
   A frame that entered once, at tap p at time t, is delivered to no tap but the others, and to tap q only at
   t + |position of q - position of p| / speed; once that instant has passed, exactly once.
   */
  lemma DeliveredOnce(taps: seq<BusTap>, speed: real, run: Run, s: Bus, k: nat, d: Passage)
    requires speed != 0.0 && Spaced(taps, speed) && Forward(taps) && Reaches(taps, run, s) && k < |s.injected| && d.frame == s.injected[k].frame
    requires forall j :: 0 <= j < |s.injected| && j != k ==> s.injected[j].frame != d.frame
    ensures var x, count := s.injected[k], multiset(s.delivered)[d];
            && x.tap < |taps| && count <= 1
            && (count == 1 ==> d.tap < |taps| && d.tap != x.tap && InTime(taps, speed, x, d))
            && (d.tap < |taps| && d.tap != x.tap && InTime(taps, speed, x, d) && d.time < s.now ==> count == 1)
  {
    CountOnce(taps, speed, run, s, k, d);
    if d.tap < |taps| {
      InTimeIsTo(taps, speed, s.injected[k], d);
    }
  }

  lemma InTimeIsTo(taps: seq<BusTap>, speed: real, x: Passage, d: Passage)
    requires speed != 0.0 && x.tap < |taps| && d.tap < |taps|
    ensures InTime(taps, speed, x, d) <==> d == To(taps, speed, x, d.tap)
  {
  }

  lemma CountOnce(taps: seq<BusTap>, speed: real, run: Run, s: Bus, k: nat, d: Passage)
    requires speed != 0.0 && Spaced(taps, speed) && Forward(taps) && Reaches(taps, run, s) && k < |s.injected| && d.frame == s.injected[k].frame
    requires forall j :: 0 <= j < |s.injected| && j != k ==> s.injected[j].frame != d.frame
    ensures var x, count := s.injected[k], multiset(s.delivered)[d];
            && x.tap < |taps| && count <= 1
            && (count == 1 ==> d.tap < |taps| && d.tap != x.tap && d == To(taps, speed, x, d.tap))
            && (d.tap < |taps| && d.tap != x.tap && d == To(taps, speed, x, d.tap) && d.time < s.now ==> count == 1)
  {
    DeliversExactly(taps, speed, run, s, d);
    OthersDoNotMatter(taps, speed, s.injected, k, d);
    ExpectedCount(taps, speed, s.injected[k], d);
  }
}
