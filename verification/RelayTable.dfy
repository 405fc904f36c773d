/**
 The address table of an Ethernet switch, with lazy aging, a bounded size and eviction of the
 oldest entry, against the history of frames seen.
 */
module RelayTable {
  import opened Simulation

  datatype Entry = Entry(port: int, time: real)

  type Table = map<Address, Entry>

  predicate Aged(e: Entry, aging: real, now: real) {
    e.time + aging <= now
  }

  // ---------- What the operations do to the table ----------

  function WithoutAged(table: Table, aging: real, now: real): Table {
    map a | a in table && !Aged(table[a], aging, now) :: table[a]
  }

  /** The entry that eviction picks: least insertion time, and among those the least address. */
  predicate IsOldest(table: Table, o: Address) {
    && o in table
    && forall a :: a in table ==> table[o].time < table[a].time || (table[o].time == table[a].time && o <= a)
  }

  lemma {:induction false} OldestExists(table: Table) returns (o: Address)
    requires table != map[]
    ensures IsOldest(table, o)
    decreases |table|
  {
    var k :| k in table;
    var rest := table - {k};
    if rest == map[] {
      o := k;
      forall a | a in table
        ensures a == k
      {
        assert a == k || a in rest;
      }
    } else {
      var r := OldestExists(rest);
      o := if table[k].time < table[r].time || (table[k].time == table[r].time && k <= r) then k else r;
      forall a | a in table
        ensures table[o].time < table[a].time || (table[o].time == table[a].time && o <= a)
      {
        assert a == k || a in rest;
      }
    }
  }

  function Oldest(table: Table): (o: Address)
    requires table != map[]
    ensures IsOldest(table, o)
  {
    assert exists o :: IsOldest(table, o) by {
      var o := OldestExists(table);
    }
    var o :| IsOldest(table, o);
    o
  }

  /** Room for one more entry in a table of the given size, zero meaning unlimited. */
  function MakeRoom(table: Table, size: nat, aging: real, now: real): Table {
    if size == 0 || |table| != size then table
    else
      var young := WithoutAged(table, aging, now);
      if |young| == size then young - {Oldest(young)} else young
  }

  function Learn(table: Table, size: nat, aging: real, now: real, a: Address, port: int): Table {
    (if a in table then table else MakeRoom(table, size, aging, now))[a := Entry(port, now)]
  }

  /** The table and the answer, -1 for an unknown address. */
  function Lookup(table: Table, aging: real, now: real, a: Address): (Table, int) {
    if a !in table then (table, -1)
    else if Aged(table[a], aging, now) then (table - {a}, -1)
    else (table, table[a].port)
  }

  // ---------- History ----------

  datatype Event = Frame(src: Address, port: int) | Query(address: Address)

  /** Events in the order in which they happened. */
  datatype History = Nothing | Then(before: History, time: real, event: Event)

  ghost predicate Chronological(h: History) {
    h.Then? ==> Chronological(h.before) && Now(h.before) <= h.time
  }

  function Now(h: History): real {
    if h.Nothing? then 0.0 else h.time
  }

  /** Port and time of the latest sighting of every address: a table that forgets nothing. */
  function Sightings(h: History): Table {
    match h
    case Nothing => map[]
    case Then(b, t, Frame(a, p)) => Sightings(b)[a := Entry(p, t)]
    case Then(b, _, Query(_)) => Sightings(b)
  }

  /** The table after the events. */
  function TableAfter(h: History, size: nat, aging: real): Table {
    match h
    case Nothing => map[]
    case Then(b, t, Frame(a, p)) => Learn(TableAfter(b, size, aging), size, aging, t, a, p)
    case Then(b, t, Query(a)) => Lookup(TableAfter(b, size, aging), aging, t, a).0
  }

  // ---------- The table agrees with the history ----------

  /** The other addresses seen at or after the latest sighting of `a`. */
  function SeenSince(all: Table, a: Address): set<Address>
    requires a in all
  {
    set b | b in all && b != a && all[b].time >= all[a].time
  }

  /** `a` may be missing from the table: it is aged, or enough others have been seen since. */
  predicate MayForget(all: Table, size: nat, aging: real, now: real, a: Address)
    requires a in all
  {
    Aged(all[a], aging, now) || (size != 0 && |SeenSince(all, a)| >= size)
  }

  ghost predicate Agrees(table: Table, all: Table, size: nat, aging: real, now: real) {
    && (forall a :: a in table ==> a in all && table[a] == all[a])
    && (forall a :: a in all && a !in table ==> MayForget(all, size, aging, now, a))
    && (size != 0 ==> |table| <= size)
    && (forall a :: a in all ==> all[a].time <= now)
  }

  lemma SubsetSize<T>(x: set<T>, y: set<T>)
    requires x <= y
    ensures |x| <= |y|
  {
    assert y == x + (y - x);
  }

  /** Sighting `b` again or anew does not take away from what has been seen since `a`. */
  lemma SeenSinceGrows(all: Table, a: Address, b: Address, e: Entry)
    requires a in all && a != b && forall c :: c in all ==> all[c].time <= e.time
    ensures a in all[b := e] && SeenSince(all, a) + {b} <= SeenSince(all[b := e], a)
    ensures |SeenSince(all, a)| <= |SeenSince(all[b := e], a)|
  {
    SubsetSize(SeenSince(all, a), SeenSince(all[b := e], a));
  }

  lemma EvictedSeenSince(table: Table, all: Table, o: Address, b: Address, e: Entry)
    requires forall a :: a in table ==> a in all && table[a] == all[a]
    requires IsOldest(table, o) && b !in table && forall c :: c in all ==> all[c].time <= e.time
    ensures o in all[b := e] && |SeenSince(all[b := e], o)| >= |table|
  {
    var s := table.Keys - {o} + {b};
    assert |s| == |table|;
    assert s <= SeenSince(all[b := e], o);
    SubsetSize(s, SeenSince(all[b := e], o));
  }

  lemma WithoutAgedSize(table: Table, aging: real, now: real)
    ensures |WithoutAged(table, aging, now)| <= |table|
  {
    SubsetSize(WithoutAged(table, aging, now).Keys, table.Keys);
  }

  lemma LearnAgrees(table: Table, all: Table, size: nat, aging: real, before: real, now: real, b: Address, port: int)
    requires Agrees(table, all, size, aging, before) && before <= now
    ensures Agrees(Learn(table, size, aging, now, b, port), all[b := Entry(port, now)], size, aging, now)
  {
    var e := Entry(port, now);
    var room := if b in table then table else MakeRoom(table, size, aging, now);
    var young := WithoutAged(table, aging, now);
    WithoutAgedSize(table, aging, now);
    forall a | a in all && a != b && a !in room
      ensures MayForget(all[b := e], size, aging, now, a)
    {
      SeenSinceGrows(all, a, b, e);
      if a in table && a in young {
        EvictedSeenSince(young, all, a, b, e);
      }
    }
  }

  lemma LookupAgrees(table: Table, all: Table, size: nat, aging: real, before: real, now: real, a: Address)
    requires Agrees(table, all, size, aging, before) && before <= now
    ensures Agrees(Lookup(table, aging, now, a).0, all, size, aging, now)
  {
  }

  lemma {:induction false} TableAgrees(h: History, size: nat, aging: real)
    requires Chronological(h)
    ensures Agrees(TableAfter(h, size, aging), Sightings(h), size, aging, Now(h))
  {
    match h
    case Nothing =>
    case Then(b, t, Frame(a, p)) =>
      TableAgrees(b, size, aging);
      LearnAgrees(TableAfter(b, size, aging), Sightings(b), size, aging, Now(b), t, a, p);
    case Then(b, t, Query(a)) =>
      TableAgrees(b, size, aging);
      LookupAgrees(TableAfter(b, size, aging), Sightings(b), size, aging, Now(b), t, a);
  }

  /** What a lookup answers, after any history: the port of the latest unaged sighting, or -1 for a reason. */
  lemma LookupAnswers(h: History, size: nat, aging: real, now: real, a: Address)
    requires Chronological(h) && Now(h) <= now
    ensures var all := Sightings(h);
            var table := TableAfter(h, size, aging);
            var answer := Lookup(table, aging, now, a).1;
            && (a in table && !Aged(table[a], aging, now) ==>
                  a in all && !Aged(all[a], aging, now) && answer == all[a].port)
            && (a !in table || Aged(table[a], aging, now) ==>
                  answer == -1 && (a in all ==> MayForget(all, size, aging, now, a)))
    ensures var table := TableAfter(h, size, aging);
            Lookup(table, aging, now, a).0 == if a in table && table[a].time + aging <= now then table - {a} else table
  {
    TableAgrees(h, size, aging);
  }

  /** With an unlimited table, answers are exactly those of a table that forgets nothing but aged entries. */
  lemma UnlimitedIsExact(h: History, aging: real, now: real, a: Address)
    requires Chronological(h) && Now(h) <= now
    ensures var all := Sightings(h);
            Lookup(TableAfter(h, 0, aging), aging, now, a).1 ==
            if a in all && !Aged(all[a], aging, now) then all[a].port else -1
  {
    TableAgrees(h, 0, aging);
  }

  // ---------- What is remembered ----------

  /** The addresses seen strictly after the latest sighting of `a`. */
  function SeenLater(all: Table, a: Address): set<Address>
    requires a in all
  {
    set b | b in all && all[b].time > all[a].time
  }

  /** Whatever was seen after an unaged entry of the table is in the table as well. */
  ghost predicate KeepsLater(table: Table, all: Table, aging: real, now: real) {
    forall a, b :: a in table && b in all && !Aged(table[a], aging, now) && table[a].time < all[b].time ==> b in table
  }

  lemma LearnKeepsLater(table: Table, all: Table, size: nat, aging: real, before: real, now: real, b: Address, port: int)
    requires Agrees(table, all, size, aging, before) && KeepsLater(table, all, aging, before) && before <= now
    ensures KeepsLater(Learn(table, size, aging, now, b, port), all[b := Entry(port, now)], aging, now)
  {
    var room := if b in table then table else MakeRoom(table, size, aging, now);
    forall a, c | a in room && c in all && a != b && c != b && !Aged(room[a], aging, now) && room[a].time < all[c].time
      ensures c in room
    {
      assert c in table;
    }
  }

  lemma {:induction false} TableKeepsLater(h: History, size: nat, aging: real)
    requires Chronological(h)
    ensures KeepsLater(TableAfter(h, size, aging), Sightings(h), aging, Now(h))
  {
    match h
    case Nothing =>
    case Then(b, t, Frame(a, p)) =>
      TableKeepsLater(b, size, aging);
      TableAgrees(b, size, aging);
      LearnKeepsLater(TableAfter(b, size, aging), Sightings(b), size, aging, Now(b), t, a, p);
    case Then(b, t, Query(a)) =>
      TableKeepsLater(b, size, aging);
      TableAgrees(b, size, aging);
  }

  /** Remembered: not aged, and fewer others than the table holds have been seen after it. */
  predicate Remembered(all: Table, size: nat, aging: real, now: real, a: Address) {
    a in all && now < all[a].time + aging && (size == 0 || |SeenLater(all, a)| < size)
  }

  /** No other address has its latest sighting at the same time. */
  predicate SeenAlone(all: Table, a: Address) {
    forall b :: b in all && a in all && all[b].time == all[a].time ==> b == a
  }

  /**
   A lookup that answers a port answers that of a remembered address; and if no two addresses were last seen at
   the same time, the answer is a port for exactly the remembered ones.
   */
  lemma RememberedExactly(h: History, size: nat, aging: real, now: real, a: Address)
    requires Chronological(h) && Now(h) <= now
    ensures var all, table := Sightings(h), TableAfter(h, size, aging);
            var known := a in table && !Aged(table[a], aging, now);
            && (known ==> Remembered(all, size, aging, now, a))
            && (SeenAlone(all, a) ==> (known <==> Remembered(all, size, aging, now, a)))
            && (SeenAlone(all, a) ==>
                  Lookup(table, aging, now, a).1 == if Remembered(all, size, aging, now, a) then all[a].port else -1)
  {
    var all, table := Sightings(h), TableAfter(h, size, aging);
    TableAgrees(h, size, aging);
    TableKeepsLater(h, size, aging);
    if a in table && !Aged(table[a], aging, now) {
      LaterFit(table, all, aging, Now(h), a);
    }
    if a in all && SeenAlone(all, a) {
      assert SeenSince(all, a) == SeenLater(all, a);
    }
  }

  lemma LaterFit(table: Table, all: Table, aging: real, now: real, a: Address)
    requires KeepsLater(table, all, aging, now) && a in table && !Aged(table[a], aging, now)
    requires a in all && table[a] == all[a]
    ensures |SeenLater(all, a)| < |table|
  {
    var later := SeenLater(all, a);
    assert later + {a} <= table.Keys && a !in later;
    SubsetSize(later + {a}, table.Keys);
  }
}
