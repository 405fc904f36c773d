/**
 Which hosts are in range of which: neighbour sets kept up to date pair by pair as hosts move,
 against a scan of all distances.
 */
module ChannelNeighbors {

  datatype Coord = Coord(x: real, y: real)

  function SqrDist(a: Coord, b: Coord): real {
    (a.x - b.x) * (a.x - b.x) + (a.y - b.y) * (a.y - b.y)
  }

  predicate InRange(a: Coord, b: Coord, limit: real) {
    SqrDist(a, b) < limit * limit
  }

  lemma InRangeSymmetric(a: Coord, b: Coord, limit: real)
    ensures InRange(a, b, limit) <==> InRange(b, a, limit)
  {
    assert (a.x - b.x) * (a.x - b.x) == (b.x - a.x) * (b.x - a.x);
    assert (a.y - b.y) * (a.y - b.y) == (b.y - a.y) * (b.y - a.y);
  }

  /** A host is referred to by its index.  `list` caches the neighbour set while `listValid`. */
  datatype Host = Host(id: nat, pos: Coord, channel: int, neighbors: set<nat>, listValid: bool, list: seq<nat>)

  // ---------- Operations ----------

  function Register(hosts: seq<Host>, id: nat, pos: Coord): seq<Host> {
    hosts + [Host(id, pos, 0, {}, false, [])]
  }

  /** Connect or disconnect the pair of `h` and `i`, as their distance demands. */
  function ConnectOne(hosts: seq<Host>, h: nat, i: nat, limit: real): (r: seq<Host>)
    requires h < |hosts| && i < |hosts|
    ensures |r| == |hosts|
  {
    if i == h then hosts
    else if InRange(hosts[h].pos, hosts[i].pos, limit) then
      if i in hosts[h].neighbors then hosts
      else hosts[h := hosts[h].(neighbors := hosts[h].neighbors + {i}, listValid := false)]
                [i := hosts[i].(neighbors := hosts[i].neighbors + {h}, listValid := false)]
    else
      if i !in hosts[h].neighbors then hosts
      else hosts[h := hosts[h].(neighbors := hosts[h].neighbors - {i}, listValid := false)]
                [i := hosts[i].(neighbors := hosts[i].neighbors - {h}, listValid := false)]
  }

  /** The first `k` hosts have been visited. */
  function ConnectUpTo(hosts: seq<Host>, h: nat, k: nat, limit: real): (r: seq<Host>)
    requires h < |hosts| && k <= |hosts|
    ensures |r| == |hosts|
  {
    if k == 0 then hosts else ConnectOne(ConnectUpTo(hosts, h, k - 1, limit), h, k - 1, limit)
  }

  function Move(hosts: seq<Host>, h: nat, pos: Coord, limit: real): seq<Host>
    requires h < |hosts|
  {
    ConnectUpTo(hosts[h := hosts[h].(pos := pos)], h, |hosts|, limit)
  }

  function Tune(hosts: seq<Host>, h: nat, channel: int): seq<Host>
    requires h < |hosts|
  {
    hosts[h := hosts[h].(channel := channel)]
  }

  /** A listing of a set: every element once, in some order. */
  ghost predicate Lists(list: seq<nat>, s: set<nat>) {
    && (forall x :: x in list <==> x in s)
    && (forall i, j :: 0 <= i < j < |list| ==> list[i] != list[j])
  }

  /** The cache of `h` has been brought up to date. */
  ghost predicate Refresh(hosts: seq<Host>, h: nat, after: seq<Host>)
    requires h < |hosts|
  {
    if hosts[h].listValid then after == hosts
    else exists list :: Lists(list, hosts[h].neighbors) && after == hosts[h := hosts[h].(listValid := true, list := list)]
  }

  // ---------- Symmetry and agreement with distances ----------

  predicate Linked(hosts: seq<Host>, i: nat, j: nat)
    requires i < |hosts|
  {
    j in hosts[i].neighbors
  }

  ghost predicate Symmetric(hosts: seq<Host>) {
    forall i: nat, j: nat :: i < |hosts| && Linked(hosts, i, j) ==>
      j < |hosts| && j != i && Linked(hosts, j, i)
  }

  ghost predicate CachesOk(hosts: seq<Host>) {
    forall i :: 0 <= i < |hosts| && hosts[i].listValid ==> Lists(hosts[i].list, hosts[i].neighbors)
  }

  /** Whether the pair is connected is what its distance demands. */
  predicate PairExact(hosts: seq<Host>, i: nat, j: nat, limit: real)
    requires i < |hosts| && j < |hosts|
  {
    Linked(hosts, i, j) <==> InRange(hosts[i].pos, hosts[j].pos, limit)
  }

  /** Two host lists differ at most in the neighbour data. */
  ghost predicate SamePlaces(hosts: seq<Host>, after: seq<Host>) {
    |hosts| == |after| &&
    forall i :: 0 <= i < |hosts| ==>
      after[i].pos == hosts[i].pos && after[i].channel == hosts[i].channel && after[i].id == hosts[i].id
  }

  /** What one pair's update does and leaves alone. */
  lemma ConnectOneMeaning(hosts: seq<Host>, h: nat, i: nat, limit: real)
    requires h < |hosts| && i < |hosts| && Symmetric(hosts) && CachesOk(hosts)
    ensures var r := ConnectOne(hosts, h, i, limit);
            && Symmetric(r) && CachesOk(r) && SamePlaces(hosts, r)
            && (i != h ==> PairExact(r, h, i, limit))
            && forall a: nat, b: nat :: a < |hosts| && !(a == h && b == i) && !(a == i && b == h) ==>
                 (Linked(r, a, b) <==> Linked(hosts, a, b))
  {
    var r := ConnectOne(hosts, h, i, limit);
    forall a: nat, b: nat | a < |r| && Linked(r, a, b)
      ensures b < |r| && b != a && Linked(r, b, a)
    {
      if (a == h && b == i) || (a == i && b == h) {
        assert Linked(hosts, h, i) <==> Linked(hosts, i, h);
      } else {
        assert Linked(hosts, a, b);
      }
    }
  }

  /** After the first k hosts have been visited, their pairs with h are exact and the others as before. */
  lemma {:induction false} ConnectUpToMeaning(hosts: seq<Host>, h: nat, k: nat, limit: real)
    requires h < |hosts| && k <= |hosts| && Symmetric(hosts) && CachesOk(hosts)
    ensures var r := ConnectUpTo(hosts, h, k, limit);
            && Symmetric(r) && CachesOk(r) && SamePlaces(hosts, r)
            && (forall i: nat :: i < k && i != h ==> PairExact(r, h, i, limit))
            && forall a: nat, b: nat :: a < |hosts| && !(a == h && b < k) && !(b == h && a < k) ==>
                 (Linked(r, a, b) <==> Linked(hosts, a, b))
  {
    if k > 0 {
      ConnectUpToMeaning(hosts, h, k - 1, limit);
      var before := ConnectUpTo(hosts, h, k - 1, limit);
      var r := ConnectUpTo(hosts, h, k, limit);
      ConnectOneMeaning(before, h, k - 1, limit);
      forall i: nat | i < k && i != h
        ensures PairExact(r, h, i, limit)
      {
        if i < k - 1 {
          assert PairExact(before, h, i, limit);
        }
      }
    }
  }

  /** A move makes all pairs of the moved host exact and changes no other pair. */
  lemma MoveMeaning(hosts: seq<Host>, h: nat, pos: Coord, limit: real)
    requires h < |hosts| && Symmetric(hosts) && CachesOk(hosts)
    ensures var r := Move(hosts, h, pos, limit);
            && Symmetric(r) && CachesOk(r) && SamePlaces(hosts[h := hosts[h].(pos := pos)], r)
            && (forall i: nat :: i < |hosts| && i != h ==> PairExact(r, h, i, limit))
            && forall a: nat, b: nat :: a < |hosts| && a != h && b != h ==>
                 (Linked(r, a, b) <==> Linked(hosts, a, b))
  {
    var moved := hosts[h := hosts[h].(pos := pos)];
    forall i: nat, j: nat | i < |moved| && Linked(moved, i, j)
      ensures j < |moved| && j != i && Linked(moved, j, i)
    {
      assert Linked(hosts, i, j);
    }
    ConnectUpToMeaning(moved, h, |hosts|, limit);
  }

  // ---------- Histories ----------

  datatype Op = Registered(id: nat, pos: Coord) | Moved(host: nat, to: Coord) | Tuned(host: nat, channel: int) | Queried(host: nat)

  datatype History = Nothing | Then(before: History, op: Op)

  ghost predicate Reaches(past: History, hosts: seq<Host>, limit: real) {
    match past
    case Nothing => hosts == []
    case Then(b, op) => exists before :: Reaches(b, before, limit) && Leads(before, op, hosts, limit)
  }

  ghost predicate Leads(before: seq<Host>, op: Op, after: seq<Host>, limit: real) {
    match op
    case Registered(id, pos) => after == Register(before, id, pos)
    case Moved(h, pos) => h < |before| && after == Move(before, h, pos, limit)
    case Tuned(h, c) => h < |before| && after == Tune(before, h, c)
    case Queried(h) => h < |before| && Refresh(before, h, after)
  }

  function Count(past: History): nat {
    match past
    case Nothing => 0
    case Then(b, op) => Count(b) + if op.Registered? then 1 else 0
  }

  /** One of the two hosts has reported its position since both were registered. */
  predicate Refreshed(past: History, i: nat, j: nat) {
    match past
    case Nothing => false
    case Then(b, op) =>
      Refreshed(b, i, j) || (op.Moved? && (op.host == i || op.host == j) && i < Count(b) && j < Count(b))
  }

  /** The channel a host has tuned to last; all begin on channel 0. */
  function ChannelOf(past: History, i: nat): int {
    match past
    case Nothing => 0
    case Then(b, op) => if op.Tuned? && op.host == i then op.channel else ChannelOf(b, i)
  }

  /** The position a host has reported last, or registered with. */
  function PlaceOf(past: History, i: nat): Coord {
    match past
    case Nothing => Coord(0.0, 0.0)
    case Then(b, op) =>
      if op.Moved? && op.host == i then op.to
      else if op.Registered? && i == Count(b) then op.pos
      else PlaceOf(b, i)
  }

  /** The identity with which a host registered. */
  function IdOf(past: History, i: nat): nat {
    match past
    case Nothing => 0
    case Then(b, op) => if op.Registered? && i == Count(b) then op.id else IdOf(b, i)
  }

  /** Channels and positions are those last told, and identities those of registration. */
  ghost predicate AsTold(past: History, hosts: seq<Host>) {
    && |hosts| == Count(past)
    && forall i: nat :: i < |hosts| ==>
         hosts[i].channel == ChannelOf(past, i) && hosts[i].pos == PlaceOf(past, i) && hosts[i].id == IdOf(past, i)
  }

  /** Adjacency of refreshed pairs is distance; the others are not connected. */
  ghost predicate Agrees(past: History, hosts: seq<Host>, limit: real) {
    && |hosts| == Count(past) && Symmetric(hosts) && CachesOk(hosts)
    && forall i: nat, j: nat :: i < |hosts| && j < |hosts| && i != j ==>
         if Refreshed(past, i, j) then PairExact(hosts, i, j, limit) else !Linked(hosts, i, j)
  }

  lemma RegisterAgrees(past: History, hosts: seq<Host>, limit: real, id: nat, pos: Coord)
    requires Agrees(past, hosts, limit)
    requires forall i: nat, j: nat :: Refreshed(past, i, j) ==> i < Count(past) && j < Count(past)
    ensures Agrees(Then(past, Registered(id, pos)), Register(hosts, id, pos), limit)
  {
    var r, p := Register(hosts, id, pos), Then(past, Registered(id, pos));
    forall i: nat, j: nat | i < |r| && j < |r| && i != j
      ensures if Refreshed(p, i, j) then PairExact(r, i, j, limit) else !Linked(r, i, j)
    {
      assert Refreshed(p, i, j) <==> Refreshed(past, i, j);
      if i < |hosts| && j < |hosts| {
        assert Refreshed(past, i, j) ==> PairExact(hosts, i, j, limit);
        assert Linked(r, i, j) <==> Linked(hosts, i, j);
      } else if i < |hosts| {
        assert Linked(r, i, j) <==> Linked(hosts, i, j);
      }
    }
    forall i: nat, j: nat | i < |r| && Linked(r, i, j)
      ensures j < |r| && j != i && Linked(r, j, i)
    {
      assert Linked(hosts, i, j);
    }
  }

  lemma MoveAgrees(past: History, hosts: seq<Host>, limit: real, h: nat, pos: Coord)
    requires Agrees(past, hosts, limit) && h < |hosts|
    ensures Agrees(Then(past, Moved(h, pos)), Move(hosts, h, pos, limit), limit)
  {
    var r, p := Move(hosts, h, pos, limit), Then(past, Moved(h, pos));
    MoveMeaning(hosts, h, pos, limit);
    forall i: nat, j: nat | i < |r| && j < |r| && i != j
      ensures if Refreshed(p, i, j) then PairExact(r, i, j, limit) else !Linked(r, i, j)
    {
      if i == h {
        assert PairExact(r, h, j, limit);
      } else if j == h {
        assert PairExact(r, h, i, limit);
        InRangeSymmetric(r[i].pos, r[j].pos, limit);
      } else {
        assert Refreshed(p, i, j) <==> Refreshed(past, i, j);
        assert Refreshed(past, i, j) ==> PairExact(hosts, i, j, limit);
        assert Linked(r, i, j) <==> Linked(hosts, i, j);
      }
    }
  }

  lemma {:induction false} RefreshedRegistered(past: History, i: nat, j: nat)
    requires Refreshed(past, i, j)
    ensures i < Count(past) && j < Count(past)
  {
    if Refreshed(past.before, i, j) {
      RefreshedRegistered(past.before, i, j);
    }
  }

  lemma SameAgrees(past: History, op: Op, hosts: seq<Host>, after: seq<Host>, limit: real)
    requires Agrees(past, hosts, limit) && |after| == |hosts| && (op.Tuned? || op.Queried?)
    requires forall i: nat :: i < |hosts| ==> after[i].pos == hosts[i].pos && after[i].neighbors == hosts[i].neighbors
    requires CachesOk(after)
    ensures Agrees(Then(past, op), after, limit)
  {
    forall i: nat, j: nat | i < |after| && j < |after| && i != j
      ensures if Refreshed(Then(past, op), i, j) then PairExact(after, i, j, limit) else !Linked(after, i, j)
    {
      assert Refreshed(past, i, j) ==> PairExact(hosts, i, j, limit);
      assert Linked(after, i, j) <==> Linked(hosts, i, j);
    }
    forall i: nat, j: nat | i < |after| && Linked(after, i, j)
      ensures j < |after| && j != i && Linked(after, j, i)
    {
      assert Linked(hosts, i, j);
    }
  }

  /**
   In every history: adjacency is symmetric; for a pair refreshed since both hosts registered it is exactly
   "squared distance below the limit"; and a valid cached list lists exactly the neighbour set.
   */
  lemma {:induction false} AlwaysAgrees(past: History, hosts: seq<Host>, limit: real)
    requires Reaches(past, hosts, limit)
    ensures Agrees(past, hosts, limit)
  {
    match past
    case Nothing =>
    case Then(b, op) =>
      var before :| Reaches(b, before, limit) && Leads(before, op, hosts, limit);
      AlwaysAgrees(b, before, limit);
      match op
      case Registered(id, pos) =>
        forall i: nat, j: nat | Refreshed(b, i, j)
          ensures i < Count(b) && j < Count(b)
        {
          RefreshedRegistered(b, i, j);
        }
        RegisterAgrees(b, before, limit, id, pos);
      case Moved(h, pos) => MoveAgrees(b, before, limit, h, pos);
      case Tuned(h, c) => SameAgrees(b, op, before, hosts, limit);
      case Queried(h) => SameAgrees(b, op, before, hosts, limit);
  }

  lemma {:induction false} NotYetTuned(past: History, hosts: seq<Host>, limit: real, i: nat)
    requires Reaches(past, hosts, limit) && Count(past) <= i
    ensures ChannelOf(past, i) == 0
  {
    match past
    case Nothing =>
    case Then(b, op) =>
      var before :| Reaches(b, before, limit) && Leads(before, op, hosts, limit);
      AlwaysAgrees(b, before, limit);
      NotYetTuned(b, before, limit, i);
  }

  /** In every history the hosts are where they said last, on the channel they were tuned to last. */
  lemma {:induction false} AlwaysTold(past: History, hosts: seq<Host>, limit: real)
    requires Reaches(past, hosts, limit)
    ensures AsTold(past, hosts)
  {
    match past
    case Nothing =>
    case Then(b, op) =>
      var before :| Reaches(b, before, limit) && Leads(before, op, hosts, limit);
      AlwaysTold(b, before, limit);
      match op
      case Registered(id, pos) => NotYetTuned(b, before, limit, |before|);
      case Moved(h, pos) =>
        AlwaysAgrees(b, before, limit);
        MoveMeaning(before, h, pos, limit);
      case Tuned(h, c) =>
      case Queried(h) =>
  }

  // ---------- Delivery ----------

  /** The hosts of a list that listen on a channel. */
  function OnChannel(hosts: seq<Host>, list: seq<nat>, channel: int): (r: seq<nat>)
    requires forall k :: 0 <= k < |list| ==> list[k] < |hosts|
  {
    if list == [] then []
    else
      var n := |list| - 1;
      OnChannel(hosts, list[..n], channel) + if hosts[list[n]].channel == channel then [list[n]] else []
  }

  const LIGHT_SPEED := 300000000.0

  /** A frame under way to a host, with its propagation delay. */
  datatype Delivery = Delivery(host: nat, delay: real)

  function Receivers(out: seq<Delivery>): (r: seq<nat>)
    ensures |r| == |out| && forall k :: 0 <= k < |out| ==> r[k] == out[k].host
  {
    seq(|out|, k requires 0 <= k < |out| => out[k].host)
  }

  /** What the mathematical library promises of its square root. */
  ghost predicate IsSquareRoot(root: real -> real) {
    forall x: real :: x >= 0.0 ==> root(x) >= 0.0 && root(x) * root(x) == x
  }

  /** The delay is the time light takes for the distance. */
  predicate Travels(a: Coord, b: Coord, delay: real) {
    delay >= 0.0 &&
    (delay * 300000000.0) * (delay * 300000000.0) == (a.x - b.x) * (a.x - b.x) + (a.y - b.y) * (a.y - b.y)
  }

  lemma RootTravels(a: Coord, b: Coord, root: real -> real)
    requires IsSquareRoot(root)
    ensures Travels(a, b, root(SqrDist(a, b)) / LIGHT_SPEED)
  {
    assert (a.x - b.x) * (a.x - b.x) >= 0.0 && (a.y - b.y) * (a.y - b.y) >= 0.0;
    var d := root(SqrDist(a, b));
    assert d >= 0.0 && d * d == SqrDist(a, b);
    assert (d / LIGHT_SPEED) * LIGHT_SPEED == d;
  }

  /** By what the hosts have said: another host, on the channel, at a distance below the limit. */
  predicate ShouldReceive(past: History, h: nat, x: nat, channel: int, limit: real) {
    var a, b := PlaceOf(past, h), PlaceOf(past, x);
    x < Count(past) && x != h && ChannelOf(past, x) == channel
    && (a.x - b.x) * (a.x - b.x) + (a.y - b.y) * (a.y - b.y) < limit * limit
  }

  /** The same, by where the hosts are recorded to be. */
  lemma ByRecords(past: History, hosts: seq<Host>, limit: real, h: nat, x: nat, channel: int)
    requires AsTold(past, hosts) && h < |hosts|
    ensures ShouldReceive(past, h, x, channel, limit) <==>
            x < |hosts| && x != h && hosts[x].channel == channel && InRange(hosts[h].pos, hosts[x].pos, limit)
  {
  }

  lemma {:induction false} OnChannelMeaning(hosts: seq<Host>, list: seq<nat>, channel: int)
    requires forall k :: 0 <= k < |list| ==> list[k] < |hosts|
    requires forall i, j :: 0 <= i < j < |list| ==> list[i] != list[j]
    ensures var r := OnChannel(hosts, list, channel);
            && (forall x :: x in r <==> x in list && hosts[x].channel == channel)
            && forall i, j :: 0 <= i < j < |r| ==> r[i] != r[j]
  {
    if list != [] {
      var n := |list| - 1;
      OnChannelMeaning(hosts, list[..n], channel);
      assert list == list[..n] + [list[n]];
      assert list[n] !in list[..n];
    }
  }

  /** All pairs of a host have been refreshed. */
  ghost predicate AllRefreshed(past: History, h: nat) {
    forall j: nat :: j < Count(past) && j != h ==> Refreshed(past, h, j)
  }

  /**
   Once a host's pairs have been refreshed, a frame it sends reaches exactly the other hosts in range that
   listen on the frame's channel, each once.
   */
  lemma DeliversInRange(past: History, hosts: seq<Host>, limit: real, h: nat, channel: int, after: seq<Host>)
    requires Reaches(past, hosts, limit) && h < |hosts| && AllRefreshed(past, h) && Refresh(hosts, h, after)
    ensures forall k :: 0 <= k < |after[h].list| ==> after[h].list[k] < |after|
    ensures var out := OnChannel(after, after[h].list, channel);
            && (forall x: nat :: x in out <==> ShouldReceive(past, h, x, channel, limit))
            && forall i, j :: 0 <= i < j < |out| ==> out[i] != out[j]
  {
    AlwaysAgrees(past, hosts, limit);
    AlwaysTold(past, hosts, limit);
    AlwaysAgrees(Then(past, Queried(h)), after, limit);
    assert Lists(after[h].list, hosts[h].neighbors);
    forall x: nat
      ensures x in after[h].list <==> x < |hosts| && x != h && InRange(hosts[h].pos, hosts[x].pos, limit)
    {
      assert x in after[h].list <==> Linked(hosts, h, x);
      if x < |hosts| && x != h {
        assert PairExact(hosts, h, x, limit);
      }
    }
    forall k | 0 <= k < |after[h].list|
      ensures after[h].list[k] < |after|
    {
      assert after[h].list[k] in after[h].list;
    }
    OnChannelMeaning(after, after[h].list, channel);
    forall x: nat
      ensures x in OnChannel(after, after[h].list, channel) <==> ShouldReceive(past, h, x, channel, limit)
    {
      ByRecords(past, hosts, limit, h, x, channel);
    }
  }
}
