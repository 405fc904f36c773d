/**
 The switch's base module: learning, lookup and dispatch of frames, with the address table
 updated in place.
 */
module RelayUnit {
  import opened Simulation
  import opened RelayTable

  /** All ports but one, in ascending order. */
  function OtherPorts(n: nat, input: int): seq<int> {
    if n == 0 then [] else OtherPorts(n - 1, input) + if n - 1 == input then [] else [n - 1]
  }

  /** Every port but the input port is listed, once. */
  lemma {:induction false} OtherPortsOnce(n: nat, input: int)
    ensures forall p :: p in OtherPorts(n, input) <==> 0 <= p < n && p != input
    ensures forall i, j :: 0 <= i < j < |OtherPorts(n, input)| ==> OtherPorts(n, input)[i] < OtherPorts(n, input)[j]
  {
    if n > 0 {
      OtherPortsOnce(n - 1, input);
      var rest, last := OtherPorts(n - 1, input), if n - 1 == input then [] else [n - 1];
      assert OtherPorts(n, input) == rest + last;
      forall i | 0 <= i < |rest|
        ensures rest[i] < n - 1
      {
        assert rest[i] in rest;
      }
    }
  }

  /** The ports a frame goes out on, given what is known of its destination. */
  function Route(ports: nat, known: int, dest: Address, input: int): seq<int> {
    if dest == BROADCAST then OtherPorts(ports, input)
    else if known == input then []
    else if known >= 0 then [known]
    else OtherPorts(ports, input)
  }

  class MACRelayUnitBase {
    const numPorts: nat
    const addressTableSize: nat
    const agingTime: real
    var addresstable: Table

    ghost var history: History

    /** The table is the one that the history of frames and queries produces. */
    ghost predicate Valid()
      reads this
    {
      Chronological(history) && addresstable == TableAfter(history, addressTableSize, agingTime)
    }

    constructor (ports: nat, tableSize: int, aging: real)
      ensures Valid() && history == Nothing && numPorts == ports
      ensures addressTableSize == (if tableSize >= 0 then tableSize else 0)
      ensures agingTime == if aging > 0.0 then aging else 10.0
    {
      numPorts := ports;
      addressTableSize := if tableSize >= 0 then tableSize else 0;
      agingTime := if aging > 0.0 then aging else 10.0;
      addresstable := map[];
      history := Nothing;
    }

    method RemoveAgedEntriesFromTable(now: real)
      modifies this`addresstable
      ensures addresstable == WithoutAged(old(addresstable), agingTime, now)
    {
      var keys := addresstable.Keys;
      ghost var before := addresstable;
      while keys != {}
        invariant keys <= before.Keys
        invariant addresstable.Keys <= before.Keys
        invariant forall a :: a in before ==>
                    (a in addresstable <==> a in keys || !Aged(before[a], agingTime, now))
        invariant forall a :: a in addresstable ==> addresstable[a] == before[a]
        decreases |keys|
      {
        var a :| a in keys;
        keys := keys - {a};
        if addresstable[a].time + agingTime <= now {
          addresstable := addresstable - {a};
        }
      }
    }

    /** Throws out the oldest entry; the table is visited in the order of addresses. */
    method RemoveOldestTableEntry(now: real)
      requires forall a :: a in addresstable ==> addresstable[a].time <= now
      modifies this`addresstable
      ensures addresstable == if old(addresstable) == map[] then map[] else old(addresstable) - {Oldest(old(addresstable))}
    {
      var keys := addresstable.Keys;
      var oldest: Option<Address> := None;
      var oldestInsertTime := now + 1.0;
      while keys != {}
        invariant keys <= addresstable.Keys
        invariant oldest.None? ==> keys == addresstable.Keys && oldestInsertTime == now + 1.0
        invariant oldest.Some? ==> oldest.value in addresstable && oldest.value !in keys
                                   && oldestInsertTime == addresstable[oldest.value].time
        invariant oldest.Some? ==>
                    forall a :: a in addresstable && a !in keys ==>
                      oldestInsertTime < addresstable[a].time ||
                      (oldestInsertTime == addresstable[a].time && oldest.value <= a)
        invariant forall a, b :: a in addresstable && a !in keys && b in keys ==> a < b
        decreases |keys|
      {
        var a := Least(keys);
        keys := keys - {a};
        if addresstable[a].time < oldestInsertTime {
          oldest := Some(a);
          oldestInsertTime := addresstable[a].time;
        }
      }
      if oldest.Some? {
        assert IsOldest(addresstable, oldest.value);
        OldestUnique(addresstable, oldest.value, Oldest(addresstable));
        addresstable := addresstable - {oldest.value};
      }
    }

    method UpdateTableWithAddress(address: Address, portno: int, now: real)
      requires Valid() && Now(history) <= now
      modifies this
      ensures Valid() && history == Then(old(history), now, Frame(address, portno))
    {
      TableAgrees(history, addressTableSize, agingTime);
      if address !in addresstable {
        if addressTableSize != 0 && |addresstable| == addressTableSize {
          RemoveAgedEntriesFromTable(now);
          if |addresstable| == addressTableSize {
            RemoveOldestTableEntry(now);
          }
        }
        addresstable := addresstable[address := Entry(portno, now)];
      } else {
        addresstable := addresstable[address := Entry(portno, now)];
      }
      history := Then(history, now, Frame(address, portno));
    }

    method GetPortForAddress(address: Address, now: real) returns (port: int)
      requires Valid() && Now(history) <= now
      modifies this
      ensures Valid() && history == Then(old(history), now, Query(address))
      ensures port == Lookup(old(addresstable), agingTime, now, address).1
    {
      if address !in addresstable {
        port := -1;
      } else if addresstable[address].time + agingTime <= now {
        addresstable := addresstable - {address};
        port := -1;
      } else {
        port := addresstable[address].port;
      }
      history := Then(history, now, Query(address));
    }

    method BroadcastFrame(inputport: int) returns (out: seq<int>)
      ensures out == OtherPorts(numPorts, inputport)
    {
      out := [];
      var i := 0;
      while i < numPorts
        invariant 0 <= i <= numPorts && out == OtherPorts(i, inputport)
      {
        if i != inputport {
          out := out + [i];
        }
        i := i + 1;
      }
    }

    /** Learn the source, then send the frame; the result lists the ports it is sent to. */
    method HandleAndDispatchFrame(src: Address, dest: Address, inputport: int, now: real) returns (out: seq<int>)
      requires Valid() && Now(history) <= now
      modifies this
      ensures Valid()
      ensures var learned := Then(old(history), now, Frame(src, inputport));
              && history == (if dest == BROADCAST then learned else Then(learned, now, Query(dest)))
              && out == Route(numPorts,
                              Lookup(TableAfter(learned, addressTableSize, agingTime), agingTime, now, dest).1,
                              dest, inputport)
    {
      UpdateTableWithAddress(src, inputport, now);
      if dest == BROADCAST {
        out := BroadcastFrame(inputport);
        return;
      }
      var outputport := GetPortForAddress(dest, now);
      if inputport == outputport {
        out := [];
      } else if outputport >= 0 {
        out := [outputport];
      } else {
        out := BroadcastFrame(inputport);
      }
    }
  }

  /** The least of a set of addresses. */
  lemma {:induction false} LeastExists(keys: set<Address>) returns (k: Address)
    requires keys != {}
    ensures k in keys && forall j :: j in keys ==> k <= j
    decreases |keys|
  {
    var x :| x in keys;
    if keys == {x} {
      k := x;
    } else {
      var r := LeastExists(keys - {x});
      k := if x <= r then x else r;
      forall j | j in keys
        ensures k <= j
      {
        assert j == x || j in keys - {x};
      }
    }
  }

  function Least(keys: set<Address>): (k: Address)
    requires keys != {}
    ensures k in keys && forall j :: j in keys ==> k <= j
  {
    assert exists k :: k in keys && forall j :: j in keys ==> k <= j by {
      var k := LeastExists(keys);
    }
    var k :| k in keys && forall j :: j in keys ==> k <= j;
    k
  }

  lemma OldestUnique(table: Table, o: Address, p: Address)
    requires IsOldest(table, o) && IsOldest(table, p)
    ensures o == p
  {
  }

  /**
   A frame is never sent back where it came from; it is sent to the port of its destination's latest
   sighting if that is still in the table, and everywhere else exactly if not.
   */
  lemma DispatchedByHistory(h: History, size: nat, aging: real, ports: nat, src: Address, dest: Address, input: int, now: real)
    requires Chronological(h) && Now(h) <= now && aging > 0.0 && 0 <= input
    requires forall a :: a in Sightings(h) ==> Sightings(h)[a].port >= 0
    ensures var learned := Then(h, now, Frame(src, input));
            var all, table := Sightings(learned), TableAfter(learned, size, aging);
            var known := dest in table && !Aged(table[dest], aging, now);
            var out := Route(ports, Lookup(table, aging, now, dest).1, dest, input);
            && input !in out
            && (dest != BROADCAST && known ==>
                  dest in all && out == if all[dest].port == input then [] else [all[dest].port])
            && (dest == BROADCAST || !known ==> out == OtherPorts(ports, input))
            && (!known && dest in all ==> MayForget(all, size, aging, now, dest))
  {
    var learned := Then(h, now, Frame(src, input));
    LookupAnswers(learned, size, aging, now, dest);
    OtherPortsOnce(ports, input);
  }
}
