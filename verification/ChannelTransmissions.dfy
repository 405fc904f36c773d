/**
 The lists of transmissions on the air, one per channel, purged from time to time, against all
 transmissions ever added.
 */
module ChannelTransmissions {

  /** A frame on the air; `id` stands for the identity of the message object. */
  datatype AirFrame = AirFrame(id: nat, channel: nat, start: real, duration: real)

  const PURGE_INTERVAL := 1.0

  /** A frame may be thrown away a purge interval after its end. */
  predicate Expired(f: AirFrame, now: real) {
    f.start + f.duration + PURGE_INTERVAL < now
  }

  /** The frames that have not expired, in order. */
  function Alive(list: seq<AirFrame>, now: real): seq<AirFrame> {
    if list == [] then []
    else
      var n := |list| - 1;
      Alive(list[..n], now) + if Expired(list[n], now) then [] else [list[n]]
  }

  // ---------- Operations ----------

  /** Transmission lists by channel, and when they were last purged in passing. */
  datatype Air = Air(lists: seq<seq<AirFrame>>, lastPurge: real)

  function PurgeAll(lists: seq<seq<AirFrame>>, now: real): (r: seq<seq<AirFrame>>)
    ensures |r| == |lists| && forall c :: 0 <= c < |lists| ==> r[c] == Alive(lists[c], now)
  {
    seq(|lists|, c requires 0 <= c < |lists| => Alive(lists[c], now))
  }

  /** A transmission starts; it is not recorded if there is only one channel. */
  function Add(a: Air, now: real, id: nat, channel: nat, duration: real): Air
    requires channel < |a.lists|
  {
    if |a.lists| == 1 then a
    else
      var purge := now - a.lastPurge > PURGE_INTERVAL;
      var lists := if purge then PurgeAll(a.lists, now) else a.lists;
      Air(lists[channel := lists[channel] + [AirFrame(id, channel, now, duration)]], if purge then now else a.lastPurge)
  }

  /** The transmissions on a channel, or None if there is no such channel. */
  function Query(a: Air, now: real, channel: int): Air {
    if 0 <= channel < |a.lists| then Air(PurgeAll(a.lists, now), a.lastPurge) else a
  }

  // ---------- Histories ----------

  datatype Op = Added(id: nat, channel: nat, duration: real) | Asked(which: int)

  datatype History = Nothing(channels: nat) | Then(before: History, time: real, op: Op)

  function Channels(h: History): nat {
    if h.Nothing? then h.channels else Channels(h.before)
  }

  function Now(h: History): real {
    if h.Nothing? then 0.0 else h.time
  }

  ghost predicate Possible(h: History) {
    h.Then? ==>
      Possible(h.before) && Now(h.before) <= h.time && (h.op.Added? ==> h.op.channel < Channels(h))
  }

  /** All transmissions ever added on a channel, in order. */
  function AllAdded(h: History, c: nat): seq<AirFrame> {
    match h
    case Nothing(_) => []
    case Then(b, t, Added(id, ch, d)) => AllAdded(b, c) + if ch == c then [AirFrame(id, ch, t, d)] else []
    case Then(b, _, Asked(_)) => AllAdded(b, c)
  }

  function After(h: History): (a: Air)
    requires Possible(h)
    ensures |a.lists| == Channels(h)
  {
    match h
    case Nothing(n) => Air(seq(n, _ => []), 0.0)
    case Then(b, t, Added(id, c, d)) => Add(After(b), t, id, c, d)
    case Then(b, t, Asked(c)) => Query(After(b), t, c)
  }

  // ---------- Purging is invisible ----------

  lemma AliveConcat(x: seq<AirFrame>, f: AirFrame, now: real)
    ensures Alive(x + [f], now) == Alive(x, now) + if Expired(f, now) then [] else [f]
  {
    assert (x + [f])[..|x|] == x;
  }

  /** What has been thrown away would not be alive later. */
  lemma {:induction false} AliveTwice(list: seq<AirFrame>, t: real, now: real)
    requires t <= now
    ensures Alive(Alive(list, t), now) == Alive(list, now)
  {
    if list != [] {
      var n := |list| - 1;
      AliveTwice(list[..n], t, now);
      if Expired(list[n], t) {
        assert Alive(list, t) == Alive(list[..n], t);
        assert Alive(list, now) == Alive(list[..n], now);
      } else {
        AliveConcat(Alive(list[..n], t), list[n], now);
      }
    }
  }

  /** `x` is what is left of `y` after deletions, in the same order. */
  predicate Subsequence(x: seq<AirFrame>, y: seq<AirFrame>) {
    if x == [] then true
    else if y == [] then false
    else if x[|x| - 1] == y[|y| - 1] && Subsequence(x[..|x| - 1], y[..|y| - 1]) then true
    else Subsequence(x, y[..|y| - 1])
  }

  lemma {:induction false} SubsequenceAppend(x: seq<AirFrame>, y: seq<AirFrame>, f: AirFrame)
    requires Subsequence(x, y)
    ensures Subsequence(x + [f], y + [f]) && Subsequence(x, y + [f])
  {
    assert (x + [f])[..|x|] == x && (y + [f])[..|y|] == y;
  }

  lemma {:induction false} AliveSubsequence(x: seq<AirFrame>, y: seq<AirFrame>, now: real)
    requires Subsequence(x, y)
    ensures Subsequence(Alive(x, now), y)
    decreases |y|
  {
    if x == [] || y == [] {
    } else {
      var m, n := |x| - 1, |y| - 1;
      assert y == y[..n] + [y[n]];
      if x[m] == y[n] && Subsequence(x[..m], y[..n]) {
        AliveSubsequence(x[..m], y[..n], now);
        SubsequenceAppend(Alive(x[..m], now), y[..n], y[n]);
        assert x[..m] + [x[m]] == x;
        if Expired(x[m], now) {
          assert Alive(x, now) == Alive(x[..m], now);
        }
      } else {
        AliveSubsequence(x, y[..n], now);
        SubsequenceAppend(Alive(x, now), y[..n], y[n]);
      }
    }
  }

  /** From now on, the list of a channel has the same unexpired frames as all that was ever added. */
  ghost predicate SameAlive(list: seq<AirFrame>, all: seq<AirFrame>, now: real) {
    forall t: real :: now <= t ==> Alive(list, t) == Alive(all, t)
  }

  lemma PurgedSameAlive(list: seq<AirFrame>, all: seq<AirFrame>, before: real, now: real)
    requires SameAlive(list, all, before) && before <= now
    ensures SameAlive(Alive(list, now), all, now)
  {
    forall t: real | now <= t
      ensures Alive(Alive(list, now), t) == Alive(all, t)
    {
      AliveTwice(list, now, t);
    }
  }

  lemma AppendedSameAlive(list: seq<AirFrame>, all: seq<AirFrame>, now: real, f: AirFrame)
    requires SameAlive(list, all, now)
    ensures SameAlive(list + [f], all + [f], now)
  {
    forall t: real | now <= t
      ensures Alive(list + [f], t) == Alive(all + [f], t)
    {
      AliveConcat(list, f, t);
      AliveConcat(all, f, t);
    }
  }

  lemma AddMeaning(a: Air, now: real, id: nat, channel: nat, duration: real, c: nat)
    requires channel < |a.lists| && |a.lists| != 1 && c < |a.lists|
    ensures var left := if now - a.lastPurge > PURGE_INTERVAL then Alive(a.lists[c], now) else a.lists[c];
            Add(a, now, id, channel, duration).lists[c] ==
            if channel == c then left + [AirFrame(id, c, now, duration)] else left
  {
  }

  lemma AddedSameAlive(list: seq<AirFrame>, left: seq<AirFrame>, all: seq<AirFrame>, before: real, now: real, f: AirFrame)
    requires SameAlive(list, all, before) && before <= now && (left == list || left == Alive(list, now))
    requires Subsequence(list, all)
    ensures SameAlive(left, all, now) && Subsequence(left, all)
    ensures SameAlive(left + [f], all + [f], now) && Subsequence(left + [f], all + [f])
  {
    PurgedSameAlive(list, all, before, now);
    AliveSubsequence(list, all, now);
    AppendedSameAlive(left, all, now, f);
    SubsequenceAppend(left, all, f);
  }

  lemma {:induction false} SameAliveAlways(h: History, c: nat)
    requires Possible(h) && c < Channels(h) && Channels(h) != 1
    ensures SameAlive(After(h).lists[c], AllAdded(h, c), Now(h))
    ensures Subsequence(After(h).lists[c], AllAdded(h, c))
  {
    match h
    case Nothing(_) =>
    case Then(b, t, op) =>
      SameAliveAlways(b, c);
      var list, all := After(b).lists[c], AllAdded(b, c);
      match op
      case Added(id, channel, d) =>
        var left := if t - After(b).lastPurge > PURGE_INTERVAL then Alive(list, t) else list;
        AddMeaning(After(b), t, id, channel, d, c);
        AddedSameAlive(list, left, all, Now(b), t, AirFrame(id, c, t, d));
        assert all + [] == all;
      case Asked(_) =>
        PurgedSameAlive(list, all, Now(b), t);
        AliveSubsequence(list, all, t);
  }

  /**
   With more than one channel, in every history: no frame is thrown away before a second after its end, and
   what is listed is listed in the order of addition.  A query answers exactly the frames not so expired.
   */
  lemma QueriesAreExact(h: History, now: real, c: nat)
    requires Possible(h) && Channels(h) > 1 && c < Channels(h) && Now(h) <= now
    ensures Subsequence(After(h).lists[c], AllAdded(h, c))
    ensures Alive(AllAdded(h, c), now) == Alive(After(h).lists[c], now)
    ensures Query(After(h), now, c).lists[c] == Alive(AllAdded(h, c), now)
    ensures forall f :: f in Query(After(h), now, c).lists[c] <==>
              f in AllAdded(h, c) && now <= f.start + f.duration + 1.0
  {
    SameAliveAlways(h, c);
    forall f
      ensures f in Alive(AllAdded(h, c), now) <==> f in AllAdded(h, c) && !Expired(f, now)
    {
      AliveMember(AllAdded(h, c), now, f);
    }
  }

  lemma {:induction false} AliveMember(list: seq<AirFrame>, now: real, f: AirFrame)
    ensures f in Alive(list, now) <==> f in list && !Expired(f, now)
  {
    if list != [] {
      var n := |list| - 1;
      AliveMember(list[..n], now, f);
      assert list == list[..n] + [list[n]];
    }
  }

  /** A frame still within a second of its end is on its channel's list. */
  lemma NotPurgedEarly(h: History, now: real, c: nat, f: AirFrame)
    requires Possible(h) && Channels(h) > 1 && c < Channels(h) && Now(h) <= now
    requires f in AllAdded(h, c) && now <= f.start + f.duration + 1.0
    ensures f in After(h).lists[c]
  {
    QueriesAreExact(h, now, c);
    AliveMember(AllAdded(h, c), now, f);
    AliveMember(After(h).lists[c], now, f);
  }

  /** With a single channel nothing is ever listed. */
  lemma {:induction false} SingleChannelUntracked(h: History)
    requires Possible(h) && Channels(h) == 1
    ensures After(h).lists == [[]]
  {
    match h
    case Nothing(_) =>
    case Then(b, t, op) => SingleChannelUntracked(b);
  }
}
