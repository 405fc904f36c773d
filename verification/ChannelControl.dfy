/**
 The channel control module: registered hosts, their neighbour sets and cached lists, and the
 transmissions on the air, all updated in place.
 */
module ChannelControl {
  import opened ChannelNeighbors
  import T = ChannelTransmissions

  class ChannelControl {
    const maxInterferenceDistance: real
    const numChannels: nat
    var hosts: seq<Host>
    var transmissions: seq<seq<T.AirFrame>>
    var lastOngoingTransmissionsUpdate: real

    ghost var past: History
    ghost var aired: T.History

    /** Hosts and transmissions are what the calls so far have made of them. */
    ghost predicate Valid()
      reads this
    {
      && Reaches(past, hosts, maxInterferenceDistance)
      && T.Possible(aired) && T.Channels(aired) == numChannels
      && T.After(aired) == T.Air(transmissions, lastOngoingTransmissionsUpdate)
    }

    constructor (distance: real, channels: nat)
      ensures Valid() && past == Nothing && aired == T.Nothing(channels)
      ensures maxInterferenceDistance == distance && numChannels == channels
    {
      maxInterferenceDistance, numChannels := distance, channels;
      hosts, transmissions, lastOngoingTransmissionsUpdate := [], seq(channels, _ => []), 0.0;
      past, aired := Nothing, T.Nothing(channels);
    }

    /** Index of a host, or the number of hosts if it is not registered. */
    method LookupHost(id: nat) returns (h: nat)
      ensures h <= |hosts| && (h < |hosts| ==> hosts[h].id == id)
      ensures forall i :: 0 <= i < h ==> hosts[i].id != id
    {
      h := 0;
      while h < |hosts|
        invariant h <= |hosts| && forall i :: 0 <= i < h ==> hosts[i].id != id
      {
        if hosts[h].id == id {
          return;
        }
        h := h + 1;
      }
    }

    /** False if the host is registered already. */
    method RegisterHost(id: nat, pos: Coord) returns (ok: bool)
      requires Valid()
      modifies this`hosts, this`past
      ensures Valid()
      ensures ok <==> forall i :: 0 <= i < |old(hosts)| ==> old(hosts)[i].id != id
      ensures if ok then past == Then(old(past), Registered(id, pos)) && hosts == Register(old(hosts), id, pos)
              else past == old(past) && hosts == old(hosts)
    {
      var h := LookupHost(id);
      if h < |hosts| {
        return false;
      }
      ghost var before := hosts;
      hosts := hosts + [Host(id, pos, 0, {}, false, [])];
      past := Then(past, Registered(id, pos));
      assert Leads(before, past.op, hosts, maxInterferenceDistance);
      return true;
    }

    method UpdateConnections(h: nat)
      requires h < |hosts|
      modifies this`hosts
      ensures hosts == ConnectUpTo(old(hosts), h, |old(hosts)|, maxInterferenceDistance)
    {
      var i := 0;
      while i < |hosts|
        invariant |hosts| == |old(hosts)| && i <= |hosts|
        invariant hosts == ConnectUpTo(old(hosts), h, i, maxInterferenceDistance)
      {
        if i != h {
          var hi, hh := hosts[i], hosts[h];
          if SqrDist(hh.pos, hi.pos) < maxInterferenceDistance * maxInterferenceDistance {
            if i !in hh.neighbors {
              hosts := hosts[h := hh.(neighbors := hh.neighbors + {i}, listValid := false)];
              hosts := hosts[i := hi.(neighbors := hi.neighbors + {h}, listValid := false)];
            }
          } else {
            if i in hh.neighbors {
              hosts := hosts[h := hh.(neighbors := hh.neighbors - {i}, listValid := false)];
              hosts := hosts[i := hi.(neighbors := hi.neighbors - {h}, listValid := false)];
            }
          }
        }
        i := i + 1;
      }
    }

    method UpdateHostPosition(h: nat, pos: Coord)
      requires Valid() && h < |hosts|
      modifies this`hosts, this`past
      ensures Valid() && past == Then(old(past), Moved(h, pos))
      ensures hosts == Move(old(hosts), h, pos, maxInterferenceDistance)
    {
      ghost var before := hosts;
      hosts := hosts[h := hosts[h].(pos := pos)];
      UpdateConnections(h);
      past := Then(past, Moved(h, pos));
      assert Leads(before, past.op, hosts, maxInterferenceDistance);
    }

    /** False if there is no such channel. */
    method UpdateHostChannel(h: nat, channel: int) returns (ok: bool)
      requires Valid() && h < |hosts|
      modifies this`hosts, this`past
      ensures Valid() && ok == (0 <= channel < numChannels)
      ensures past == if ok then Then(old(past), Tuned(h, channel)) else old(past)
      ensures hosts == if ok then Tune(old(hosts), h, channel) else old(hosts)
      ensures ok ==> hosts[h].channel == channel
    {
      if channel >= numChannels || channel < 0 {
        return false;
      }
      ghost var before := hosts;
      hosts := hosts[h := hosts[h].(channel := channel)];
      past := Then(past, Tuned(h, channel));
      assert Leads(before, past.op, hosts, maxInterferenceDistance);
      return true;
    }

    /** The neighbours of a host as a list, rebuilt only if the cached one is out of date. */
    method GetNeighbors(h: nat) returns (list: seq<nat>)
      requires Valid() && h < |hosts|
      modifies this`hosts, this`past
      ensures Valid() && past == Then(old(past), Queried(h))
      ensures Refresh(old(hosts), h, hosts) && |hosts| == |old(hosts)| && list == hosts[h].list
      ensures Lists(list, old(hosts)[h].neighbors)
    {
      AlwaysAgrees(past, hosts, maxInterferenceDistance);
      ghost var before := hosts;
      if !hosts[h].listValid {
        var built: seq<nat> := [];
        var rest := hosts[h].neighbors;
        while rest != {}
          invariant rest <= hosts[h].neighbors
          invariant Lists(built, hosts[h].neighbors - rest)
          decreases |rest|
        {
          var x :| x in rest;
          rest := rest - {x};
          built := built + [x];
        }
        assert hosts[h].neighbors - {} == hosts[h].neighbors;
        hosts := hosts[h := hosts[h].(listValid := true, list := built)];
      }
      list := hosts[h].list;
      past := Then(past, Queried(h));
      assert Leads(before, past.op, hosts, maxInterferenceDistance);
    }

    method PurgeOngoingTransmissions(now: real)
      modifies this`transmissions
      ensures transmissions == T.PurgeAll(old(transmissions), now)
    {
      var i := 0;
      while i < |transmissions|
        invariant i <= |transmissions| == |old(transmissions)|
        invariant forall c :: 0 <= c < i ==> transmissions[c] == T.Alive(old(transmissions)[c], now)
        invariant forall c :: i <= c < |transmissions| ==> transmissions[c] == old(transmissions)[c]
      {
        var list, left := transmissions[i], [];
        var k := 0;
        while k < |list|
          invariant k <= |list| && left == T.Alive(list[..k], now)
        {
          if !(list[k].start + list[k].duration + T.PURGE_INTERVAL < now) {
            left := left + [list[k]];
          }
          assert list[..k + 1][..k] == list[..k];
          k := k + 1;
        }
        assert list[..k] == list;
        transmissions := transmissions[i := left];
        i := i + 1;
      }
    }

    method AddOngoingTransmission(id: nat, channel: nat, duration: real, now: real)
      requires Valid() && channel < numChannels && T.Now(aired) <= now
      modifies this`transmissions, this`lastOngoingTransmissionsUpdate, this`aired
      ensures Valid() && aired == T.Then(old(aired), now, T.Added(id, channel, duration))
    {
      ghost var air := T.Air(transmissions, lastOngoingTransmissionsUpdate);
      aired := T.Then(aired, now, T.Added(id, channel, duration));
      if numChannels == 1 {
        return;
      }
      if now - lastOngoingTransmissionsUpdate > T.PURGE_INTERVAL {
        PurgeOngoingTransmissions(now);
        lastOngoingTransmissionsUpdate := now;
      }
      transmissions := transmissions[channel := transmissions[channel] + [T.AirFrame(id, channel, now, duration)]];
    }

    /** The frames listed on a channel; false if there is no such channel. */
    method GetOngoingTransmissions(channel: int, now: real) returns (ok: bool, list: seq<T.AirFrame>)
      requires Valid() && T.Now(aired) <= now
      modifies this`transmissions, this`aired
      ensures Valid() && aired == T.Then(old(aired), now, T.Asked(channel))
      ensures ok == (0 <= channel < numChannels)
      ensures ok && numChannels > 1 ==> list == T.Alive(T.AllAdded(old(aired), channel), now)
    {
      ghost var before := aired;
      aired := T.Then(aired, now, T.Asked(channel));
      if channel >= numChannels || channel < 0 {
        return false, [];
      }
      PurgeOngoingTransmissions(now);
      if numChannels > 1 {
        T.QueriesAreExact(before, now, channel);
      }
      return true, transmissions[channel];
    }

    /** Send a frame to the hosts of a list that listen on its channel, each with its propagation delay. */
    method SendToListeners(h: nat, list: seq<nat>, channel: int, root: real -> real) returns (out: seq<Delivery>)
      requires h < |hosts| && IsSquareRoot(root) && forall k :: 0 <= k < |list| ==> list[k] < |hosts|
      ensures Receivers(out) == OnChannel(hosts, list, channel)
      ensures forall k :: 0 <= k < |out| ==> out[k].host < |hosts| && Travels(hosts[h].pos, hosts[out[k].host].pos, out[k].delay)
    {
      out := [];
      var i := 0;
      while i < |list|
        invariant i <= |list| && Receivers(out) == OnChannel(hosts, list[..i], channel)
        invariant forall k :: 0 <= k < |out| ==>
                    out[k].host < |hosts| && Travels(hosts[h].pos, hosts[out[k].host].pos, out[k].delay)
      {
        assert list[..i + 1][..i] == list[..i];
        if hosts[list[i]].channel == channel {
          var delay := root(SqrDist(hosts[h].pos, hosts[list[i]].pos)) / LIGHT_SPEED;
          RootTravels(hosts[h].pos, hosts[list[i]].pos, root);
          assert Receivers(out + [Delivery(list[i], delay)]) == Receivers(out) + [list[i]];
          out := out + [Delivery(list[i], delay)];
        }
        i := i + 1;
      }
      assert list[..i] == list;
    }

    /** The neighbour list of a registered host is a proper list of other hosts. */
    lemma ProperList(before: seq<Host>, was: History, h: nat, list: seq<nat>)
      requires Reaches(was, before, maxInterferenceDistance) && h < |before| && Lists(list, before[h].neighbors)
      ensures forall k :: 0 <= k < |list| ==> list[k] < |before|
    {
      AlwaysAgrees(was, before, maxInterferenceDistance);
      forall k | 0 <= k < |list|
        ensures list[k] < |before|
      {
        assert list[k] in list && Linked(before, h, list[k]);
      }
    }

    /** Send a frame to all neighbours on its channel; the module's part of sending, without the record. */
    method SendToNeighbors(h: nat, channel: int, root: real -> real) returns (out: seq<Delivery>)
      requires Valid() && h < |hosts| && IsSquareRoot(root)
      modifies this`hosts, this`past
      ensures Valid() && past == Then(old(past), Queried(h)) && |hosts| == |old(hosts)|
      ensures SamePlaces(old(hosts), hosts)
      ensures forall i, j :: 0 <= i < j < |out| ==> out[i].host != out[j].host
      ensures forall x: nat :: x in Receivers(out) <==>
                x in old(hosts)[h].neighbors && x < |old(hosts)| && ChannelOf(old(past), x) == channel
      ensures forall k :: 0 <= k < |out| ==>
                out[k].host < |hosts| && Travels(PlaceOf(old(past), h), PlaceOf(old(past), out[k].host), out[k].delay)
      ensures AllRefreshed(old(past), h) ==>
                forall x: nat :: x in Receivers(out) <==> ShouldReceive(old(past), h, x, channel, maxInterferenceDistance)
    {
      ghost var before, was := hosts, past;
      AlwaysTold(was, before, maxInterferenceDistance);
      var neighbors := GetNeighbors(h);
      ProperList(before, was, h, neighbors);
      out := SendToListeners(h, neighbors, channel, root);
      OnChannelMeaning(hosts, neighbors, channel);
      assert forall i :: 0 <= i < |out| ==> Receivers(out)[i] == out[i].host;
      if AllRefreshed(was, h) {
        DeliversInRange(was, before, maxInterferenceDistance, h, channel, hosts);
      }
    }

    /**
     Send a frame to all neighbours on its channel and record it; the result lists the receivers and the delays.
     The square root is the library's.
     */
    method SendToChannel(h: nat, id: nat, channel: nat, duration: real, now: real, root: real -> real)
      returns (out: seq<Delivery>)
      requires Valid() && h < |hosts| && channel < numChannels && T.Now(aired) <= now && IsSquareRoot(root)
      modifies this`hosts, this`past, this`transmissions, this`lastOngoingTransmissionsUpdate, this`aired
      ensures Valid() && past == Then(old(past), Queried(h)) && |hosts| == |old(hosts)|
      ensures aired == T.Then(old(aired), now, T.Added(id, channel, duration))
      ensures forall i, j :: 0 <= i < j < |out| ==> out[i].host != out[j].host
      ensures forall k :: 0 <= k < |out| ==>
                out[k].host < |hosts| && Travels(PlaceOf(old(past), h), PlaceOf(old(past), out[k].host), out[k].delay)
      ensures forall x: nat :: x in Receivers(out) <==>
                x in old(hosts)[h].neighbors && x < |old(hosts)| && ChannelOf(old(past), x) == channel
      ensures AllRefreshed(old(past), h) ==>
                forall x: nat :: x in Receivers(out) <==> ShouldReceive(old(past), h, x, channel, maxInterferenceDistance)
    {
      out := SendToNeighbors(h, channel, root);
      AddOngoingTransmission(id, channel, duration, now);
    }
  }
}
