/**
 The reassembly buffer: a contiguous prefix that grows in place and a bag of parked fragments,
 against the set of bytes received.
 */
module Reassembly {

  type Offset = n: nat | n < 0x1_0000

  /** Bytes beg to end-1; `islast` if they end the datagram. */
  datatype Region = Region(beg: Offset, end: Offset, islast: bool)

  // ---------- What the operations compute ----------

  /** Join a parked fragment to the main region if it touches it or lies within it. */
  predicate Joins(main: Region, f: Region) {
    main.end == f.beg || main.beg == f.end || (main.beg <= f.beg && main.end >= f.end)
  }

  function Join(main: Region, f: Region): Region {
    if main.end == f.beg then Region(main.beg, f.end, main.islast || f.islast)
    else if main.beg == f.end then Region(f.beg, main.end, main.islast)
    else main
  }

  /** One pass over the parked fragments: the new main region, and the fragments that stay. */
  function Sweep(main: Region, frags: seq<Region>): (Region, seq<Region>)
    decreases |frags|
  {
    if frags == [] then (main, [])
    else if Joins(main, frags[0]) then Sweep(Join(main, frags[0]), frags[1..])
    else
      var (m, rest) := Sweep(main, frags[1..]);
      (m, [frags[0]] + rest)
  }

  lemma {:induction false} SweepShortens(main: Region, frags: seq<Region>)
    ensures |Sweep(main, frags).1| <= |frags|
    decreases |frags|
  {
    if frags != [] {
      SweepShortens(if Joins(main, frags[0]) then Join(main, frags[0]) else main, frags[1..]);
    }
  }

  /** Passes until one deletes nothing. */
  function SweepAll(main: Region, frags: seq<Region>): (Region, seq<Region>)
    decreases |frags|
  {
    var (m, rest) := Sweep(main, frags);
    SweepShortens(main, frags);
    if |rest| < |frags| then SweepAll(m, rest) else (m, rest)
  }

  /** The buffer after one more fragment. */
  function Merge(main: Region, frags: seq<Region>, f: Region): (Region, seq<Region>) {
    if main.end == f.beg then SweepAll(Region(main.beg, f.end, main.islast || f.islast), frags)
    else if main.beg == f.end then SweepAll(Region(f.beg, main.end, main.islast), frags)
    else if main.end < f.beg || main.beg > f.end then (main, frags + [f])
    else (main, frags)
  }

  const EMPTY := Region(0, 0, false)

  /** The buffer after the fragments, in the order of arrival. */
  function Buffer(fs: seq<Region>): (Region, seq<Region>) {
    if fs == [] then (EMPTY, [])
    else
      var (main, frags) := Buffer(fs[..|fs| - 1]);
      Merge(main, frags, fs[|fs| - 1])
  }

  predicate Complete(main: Region) {
    main.beg == 0 && main.islast
  }

  // ---------- Soundness, for arbitrary fragments ----------

  predicate Covers(f: Region, i: nat) {
    f.beg <= i < f.end
  }

  ghost predicate Received(fs: seq<Region>, i: nat) {
    exists k :: 0 <= k < |fs| && Covers(fs[k], i)
  }

  predicate Proper(fs: seq<Region>) {
    forall k :: 0 <= k < |fs| ==> fs[k].beg <= fs[k].end
  }

  /** The main region is a prefix of received bytes, and the parked fragments are fragments received. */
  ghost predicate Sound(fs: seq<Region>, main: Region, frags: seq<Region>) {
    && main.beg == 0
    && (forall i :: 0 <= i < main.end ==> Received(fs, i))
    && (forall k :: 0 <= k < |frags| ==> frags[k] in fs)
    && (main.islast ==> exists k :: 0 <= k < |fs| && fs[k].islast && fs[k].end <= main.end)
  }

  lemma JoinSound(fs: seq<Region>, main: Region, frags: seq<Region>, f: Region)
    requires Proper(fs) && Sound(fs, main, frags) && f in fs
    ensures Sound(fs, Join(main, f), frags)
  {
    var k :| 0 <= k < |fs| && fs[k] == f;
    assert f.beg <= f.end;
    forall i | 0 <= i < Join(main, f).end
      ensures Received(fs, i)
    {
      if i >= main.end {
        assert Covers(fs[k], i);
      }
    }
  }

  lemma {:induction false} SweepSound(fs: seq<Region>, main: Region, frags: seq<Region>)
    requires Proper(fs) && Sound(fs, main, frags)
    ensures Sound(fs, Sweep(main, frags).0, Sweep(main, frags).1)
    decreases |frags|
  {
    if frags != [] {
      if Joins(main, frags[0]) {
        JoinSound(fs, main, frags, frags[0]);
        SweepSound(fs, Join(main, frags[0]), frags[1..]);
      } else {
        SweepSound(fs, main, frags[1..]);
      }
    }
  }

  lemma {:induction false} SweepAllSound(fs: seq<Region>, main: Region, frags: seq<Region>)
    requires Proper(fs) && Sound(fs, main, frags)
    ensures Sound(fs, SweepAll(main, frags).0, SweepAll(main, frags).1)
    decreases |frags|
  {
    var (m, rest) := Sweep(main, frags);
    SweepShortens(main, frags);
    SweepSound(fs, main, frags);
    if |rest| < |frags| {
      SweepAllSound(fs, m, rest);
    }
  }

  lemma SoundLater(fs: seq<Region>, main: Region, frags: seq<Region>, f: Region)
    requires Sound(fs, main, frags)
    ensures Sound(fs + [f], main, frags)
  {
    var all := fs + [f];
    forall i | 0 <= i < main.end
      ensures Received(all, i)
    {
      assert Received(fs, i);
      var k :| 0 <= k < |fs| && Covers(fs[k], i);
      assert Covers(all[k], i);
    }
    if main.islast {
      var k :| 0 <= k < |fs| && fs[k].islast && fs[k].end <= main.end;
      assert all[k] == fs[k];
    }
  }

  /**
   Whatever proper fragments arrive, in whatever order: the main region never covers a byte that was not
   received; so completion is reported only if all bytes up to the reported length were.
   */
  lemma {:induction false} NeverInvents(fs: seq<Region>)
    requires Proper(fs)
    ensures Sound(fs, Buffer(fs).0, Buffer(fs).1)
  {
    if fs != [] {
      var before, f := fs[..|fs| - 1], fs[|fs| - 1];
      NeverInvents(before);
      var (main, frags) := Buffer(before);
      assert fs == before + [f];
      SoundLater(before, main, frags, f);
      if main.end == f.beg || main.beg == f.end {
        JoinSound(fs, main, frags, f);
        assert main.beg == f.end && main.end != f.beg ==> f.beg == 0;
        SweepAllSound(fs, Join(main, f), frags);
      }
    }
  }

  // ---------- Exactly which bytes are held, for arbitrary fragments ----------

  /** The fragment begins inside main and reaches beyond its end. */
  predicate Straddles(main: Region, f: Region) {
    f.beg < main.end < f.end
  }

  /** Byte i of an arriving fragment is kept: only the part of a straddling fragment beyond main is dropped. */
  predicate TakenIn(main: Region, f: Region, i: nat) {
    Covers(f, i) && !(Straddles(main, f) && main.end <= i)
  }

  ghost predicate Parked(frags: seq<Region>, i: nat) {
    exists k :: 0 <= k < |frags| && Covers(frags[k], i)
  }

  /** Byte i is in main or in a parked fragment. */
  ghost predicate Held(main: Region, frags: seq<Region>, i: nat) {
    Covers(main, i) || Parked(frags, i)
  }

  lemma ParkedSplit(frags: seq<Region>, i: nat)
    requires frags != []
    ensures Parked(frags, i) <==> Covers(frags[0], i) || Parked(frags[1..], i)
  {
    var rest := frags[1..];
    if Parked(rest, i) {
      var k :| 0 <= k < |rest| && Covers(rest[k], i);
      assert Covers(frags[k + 1], i);
    }
    if Parked(frags, i) {
      var k :| 0 <= k < |frags| && Covers(frags[k], i);
      assert k > 0 ==> rest[k - 1] == frags[k];
    }
  }

  lemma ParkedAppend(frags: seq<Region>, f: Region, i: nat)
    ensures Parked(frags + [f], i) <==> Parked(frags, i) || Covers(f, i)
  {
    var all := frags + [f];
    if Parked(frags, i) {
      var k :| 0 <= k < |frags| && Covers(frags[k], i);
      assert Covers(all[k], i);
    }
    if Covers(f, i) {
      assert Covers(all[|frags|], i);
    }
  }

  lemma JoinCovers(main: Region, f: Region, i: nat)
    requires main.beg == 0 && f.beg <= f.end && Joins(main, f)
    ensures Covers(Join(main, f), i) <==> Covers(main, i) || Covers(f, i)
    ensures Join(main, f).beg == 0
  {
  }

  /** A pass moves bytes from parked fragments to main, and neither adds nor drops any. */
  lemma {:induction false} SweepHolds(main: Region, frags: seq<Region>, i: nat)
    requires main.beg == 0 && Proper(frags)
    ensures var (m, rest) := Sweep(main, frags);
            m.beg == 0 && Proper(rest) && (Held(m, rest, i) <==> Held(main, frags, i))
    decreases |frags|
  {
    if frags != [] {
      var f := frags[0];
      ParkedSplit(frags, i);
      if Joins(main, f) {
        JoinCovers(main, f, i);
        SweepHolds(Join(main, f), frags[1..], i);
      } else {
        SweepHolds(main, frags[1..], i);
        var rest := Sweep(main, frags[1..]).1;
        assert ([f] + rest)[1..] == rest;
        ParkedSplit([f] + rest, i);
      }
    }
  }

  /** No parked fragment touches main or lies within it. */
  predicate Disjoined(main: Region, frags: seq<Region>) {
    forall k :: 0 <= k < |frags| ==> !Joins(main, frags[k])
  }

  /** A pass that deletes nothing changes nothing and finds nothing to join. */
  lemma {:induction false} SweepFixpoint(main: Region, frags: seq<Region>)
    requires |Sweep(main, frags).1| == |frags|
    ensures Sweep(main, frags) == (main, frags)
    ensures forall i :: 0 <= i < |frags| ==> !Joins(main, frags[i])
    decreases |frags|
  {
    if frags != [] {
      if Joins(main, frags[0]) {
        SweepShortens(Join(main, frags[0]), frags[1..]);
        assert false;
      }
      SweepFixpoint(main, frags[1..]);
      assert [frags[0]] + frags[1..] == frags;
      assert forall i :: 1 <= i < |frags| ==> frags[i] == frags[1..][i - 1];
    }
  }

  lemma {:induction false} SweepAllHolds(main: Region, frags: seq<Region>, i: nat)
    requires main.beg == 0 && Proper(frags)
    ensures var (m, rest) := SweepAll(main, frags);
            m.beg == 0 && Proper(rest) && Disjoined(m, rest) && (Held(m, rest, i) <==> Held(main, frags, i))
    decreases |frags|
  {
    var (m, rest) := Sweep(main, frags);
    SweepShortens(main, frags);
    SweepHolds(main, frags, i);
    if |rest| < |frags| {
      SweepAllHolds(m, rest, i);
    } else {
      SweepFixpoint(main, frags);
    }
  }

  /** An arrival adds exactly the bytes taken in; none if the fragment straddles the end of main. */
  lemma MergeHolds(main: Region, frags: seq<Region>, f: Region, i: nat)
    requires main.beg == 0 && Proper(frags) && Disjoined(main, frags) && f.beg <= f.end
    ensures var (m, rest) := Merge(main, frags, f);
            && m.beg == 0 && Proper(rest) && Disjoined(m, rest)
            && (Held(m, rest, i) <==> Held(main, frags, i) || TakenIn(main, f, i))
  {
    if main.end == f.beg || main.beg == f.end {
      JoinCovers(main, f, i);
      SweepAllHolds(Join(main, f), frags, i);
      assert Merge(main, frags, f) == SweepAll(Join(main, f), frags);
    } else if main.end < f.beg || main.beg > f.end {
      ParkedAppend(frags, f, i);
    }
  }

  /** Some fragment brought byte i and it was taken in. */
  ghost predicate Kept(fs: seq<Region>, i: nat) {
    exists k :: 0 <= k < |fs| && TakenIn(Buffer(fs[..k]).0, fs[k], i)
  }

  lemma KeptLast(fs: seq<Region>, i: nat)
    requires fs != []
    ensures var n := |fs| - 1;
            Kept(fs, i) <==> Kept(fs[..n], i) || TakenIn(Buffer(fs[..n]).0, fs[n], i)
  {
    if Kept(fs[..|fs| - 1], i) {
      KeptBefore(fs, i);
    }
    if Kept(fs, i) {
      var k :| 0 <= k < |fs| && TakenIn(Buffer(fs[..k]).0, fs[k], i);
      if k < |fs| - 1 {
        SamePast(fs, k);
      }
    }
  }

  lemma KeptBefore(fs: seq<Region>, i: nat)
    requires fs != [] && Kept(fs[..|fs| - 1], i)
    ensures Kept(fs, i)
  {
    var before := fs[..|fs| - 1];
    var k :| 0 <= k < |before| && TakenIn(Buffer(before[..k]).0, before[k], i);
    SamePast(fs, k);
  }

  lemma SamePast(fs: seq<Region>, k: nat)
    requires k < |fs| - 1
    ensures fs[..|fs| - 1][..k] == fs[..k] && fs[..|fs| - 1][k] == fs[k]
  {
  }

  /**
   For arbitrary fragments in any order: a byte is held exactly if some fragment brought it that did not
   straddle the end of main when it arrived, or brought it inside main.
   */
  lemma {:induction false} HeldExactly(fs: seq<Region>, i: nat)
    requires Proper(fs)
    ensures var (main, frags) := Buffer(fs);
            main.beg == 0 && Proper(frags) && Disjoined(main, frags) && (Held(main, frags, i) <==> Kept(fs, i))
  {
    if fs != [] {
      var n := |fs| - 1;
      var (main, frags) := Buffer(fs[..n]);
      HeldExactly(fs[..n], i);
      MergeHolds(main, frags, fs[n], i);
      KeptLast(fs, i);
    }
  }

  /** Byte i arrived in fragment k and was dropped. */
  predicate DroppedAt(fs: seq<Region>, k: nat, i: nat)
    requires k < |fs|
  {
    Covers(fs[k], i) && Straddles(Buffer(fs[..k]).0, fs[k]) && Buffer(fs[..k]).0.end <= i
  }

  /**
   Every received byte is held exactly if every byte dropped from a straddling fragment came at some time in a
   fragment that was not cut; so always if no arriving fragment straddles the end of main.
   */
  lemma NothingLostExactly(fs: seq<Region>)
    requires Proper(fs)
    ensures var (main, frags) := Buffer(fs);
            (forall i: nat :: Received(fs, i) ==> Held(main, frags, i))
            <==> forall k: nat, i: nat :: k < |fs| && DroppedAt(fs, k, i) ==> Kept(fs, i)
    ensures (forall k: nat :: k < |fs| ==> !Straddles(Buffer(fs[..k]).0, fs[k])) ==>
              forall i: nat :: Held(Buffer(fs).0, Buffer(fs).1, i) <==> Received(fs, i)
  {
    forall i: nat
      ensures Held(Buffer(fs).0, Buffer(fs).1, i) <==> Kept(fs, i)
      ensures Received(fs, i) <==> Kept(fs, i) || exists k: nat :: k < |fs| && DroppedAt(fs, k, i)
    {
      HeldExactly(fs, i);
      ReceivedOrDropped(fs, i);
    }
  }

  lemma ReceivedOrDropped(fs: seq<Region>, i: nat)
    ensures Received(fs, i) <==> Kept(fs, i) || exists k: nat :: k < |fs| && DroppedAt(fs, k, i)
  {
    if Received(fs, i) {
      var k :| 0 <= k < |fs| && Covers(fs[k], i);
      assert TakenIn(Buffer(fs[..k]).0, fs[k], i) || DroppedAt(fs, k, i);
    }
  }

  /** Main is all of the received bytes up to the first one that is missing. */
  ghost predicate LongestReceived(fs: seq<Region>, main: Region) {
    main.beg == 0 && (forall i :: 0 <= i < main.end ==> Received(fs, i)) && !Received(fs, main.end)
  }

  /** No parked fragment straddles the end of main, and the byte there was not dropped without coming again. */
  ghost predicate NothingBeyond(fs: seq<Region>) {
    var (main, frags) := Buffer(fs);
    && (forall k :: 0 <= k < |frags| ==> !Straddles(main, frags[k]))
    && (forall k: nat :: k < |fs| && DroppedAt(fs, k, main.end) ==> Kept(fs, main.end))
  }

  /**
   Main is the longest received prefix exactly if no parked fragment straddles its end and the byte at its end
   was not dropped on arrival, unless it was also taken in.
   */
  lemma LongestExactly(fs: seq<Region>)
    requires Proper(fs)
    ensures LongestReceived(fs, Buffer(fs).0) <==> NothingBeyond(fs)
  {
    var (main, frags) := Buffer(fs);
    NeverInvents(fs);
    HeldExactly(fs, main.end);
    ReceivedOrDropped(fs, main.end);
    ParkedAtEnd(main, frags);
  }

  /** A parked fragment that holds the byte after main straddles its end. */
  lemma ParkedAtEnd(main: Region, frags: seq<Region>)
    requires Disjoined(main, frags)
    ensures Held(main, frags, main.end) <==> exists k :: 0 <= k < |frags| && Straddles(main, frags[k])
  {
    if Parked(frags, main.end) {
      var k :| 0 <= k < |frags| && Covers(frags[k], main.end);
      assert !Joins(main, frags[k]);
    }
    if k :| 0 <= k < |frags| && Straddles(main, frags[k]) {
      assert Covers(frags[k], main.end);
    }
  }

  // ---------- Completion, for fragments of one datagram that overlap in any way ----------

  /** A fragment of a datagram of length n: it lies within, and is marked last exactly if it reaches the end. */
  predicate FragmentOf(f: Region, n: nat) {
    f.beg <= f.end <= n && (f.islast <==> f.end == n)
  }

  predicate OfDatagram(fs: seq<Region>, n: nat) {
    forall k :: 0 <= k < |fs| ==> FragmentOf(fs[k], n)
  }

  lemma {:induction false} SweepEnds(main: Region, frags: seq<Region>, n: nat)
    requires main.beg == 0 && FragmentOf(main, n) && OfDatagram(frags, n)
    ensures var (m, rest) := Sweep(main, frags); m.beg == 0 && FragmentOf(m, n) && OfDatagram(rest, n)
    decreases |frags|
  {
    if frags != [] {
      assert FragmentOf(frags[0], n);
      SweepEnds(if Joins(main, frags[0]) then Join(main, frags[0]) else main, frags[1..], n);
    }
  }

  lemma {:induction false} SweepAllEnds(main: Region, frags: seq<Region>, n: nat)
    requires main.beg == 0 && FragmentOf(main, n) && OfDatagram(frags, n)
    ensures var (m, rest) := SweepAll(main, frags); m.beg == 0 && FragmentOf(m, n) && OfDatagram(rest, n)
    decreases |frags|
  {
    var (m, rest) := Sweep(main, frags);
    SweepShortens(main, frags);
    SweepEnds(main, frags, n);
    if |rest| < |frags| {
      SweepAllEnds(m, rest, n);
    }
  }

  /** Main is itself marked last exactly if it reaches the end, from the first fragment on. */
  lemma {:induction false} BufferEnds(fs: seq<Region>, n: nat)
    requires OfDatagram(fs, n)
    ensures OfDatagram(Buffer(fs).1, n)
    ensures fs != [] ==> Buffer(fs).0.beg == 0 && FragmentOf(Buffer(fs).0, n)
  {
    if fs != [] {
      var before, f := fs[..|fs| - 1], fs[|fs| - 1];
      BufferEnds(before, n);
      var (main, frags) := Buffer(before);
      assert before == [] ==> main == EMPTY;
      if main.end == f.beg || main.beg == f.end {
        SweepAllEnds(Join(main, f), frags, n);
      }
    }
  }

  /** Every byte of a datagram of length n has been received. */
  ghost predicate AllReceived(fs: seq<Region>, n: nat) {
    forall i: nat :: i < n ==> Received(fs, i)
  }

  /**
   However the fragments of a datagram of length n overlap: completion is reported exactly when main reaches n;
   and that is when all bytes have been received and no parked fragment straddles the end of main, nor was the
   byte at its end dropped without coming again.
   */
  lemma CompletesExactly(fs: seq<Region>, n: nat)
    requires OfDatagram(fs, n)
    ensures var main := Buffer(fs).0;
            && (Complete(main) <==> fs != [] && main.end == n)
            && (Complete(main) <==> fs != [] && AllReceived(fs, n) && NothingBeyond(fs))
  {
    var main := Buffer(fs).0;
    assert forall k :: 0 <= k < |fs| ==> FragmentOf(fs[k], n);
    BufferEnds(fs, n);
    NeverInvents(fs);
    LongestExactly(fs);
    assert !Received(fs, n);
  }

  /** Bytes 0 to 7, and then all bytes from 4 on. */
  const OVERLAPPING := [Region(0, 8, false), Region(4, 12, true)]

  /** Fragments that overlap may bring a whole datagram and never complete it: here byte 8 is dropped, once. */
  lemma OverlapsAreLost()
    ensures OfDatagram(OVERLAPPING, 12) && AllReceived(OVERLAPPING, 12)
    ensures !NothingBeyond(OVERLAPPING) && !Complete(Buffer(OVERLAPPING).0)
    ensures DroppedAt(OVERLAPPING, 1, 8) && !Kept(OVERLAPPING, 8) && !LongestReceived(OVERLAPPING, Buffer(OVERLAPPING).0)
  {
    var fs := OVERLAPPING;
    forall i: nat | i < 12
      ensures Received(fs, i)
    {
      assert Covers(fs[if i < 8 then 0 else 1], i);
    }
    assert fs[..1] == [fs[0]] && fs[..1][..0] == [];
    assert Buffer(fs[..1]) == (Region(0, 8, false), []);
    assert Buffer(fs) == (Region(0, 8, false), []);
    HeldExactly(fs, 8);
    CompletesExactly(fs, 12);
  }

  /** All bytes, and then the same end again, this time marked last. */
  const DISAGREEING := [Region(0, 12, false), Region(4, 12, true)]

  /**
   Fragments that disagree about which is last may also never complete, although no byte is lost: the mark of a
   fragment that lies within main is dropped with it.
   */
  lemma LastMarkIsLost()
    ensures Proper(DISAGREEING) && AllReceived(DISAGREEING, 12) && forall n: nat :: !OfDatagram(DISAGREEING, n)
    ensures NothingBeyond(DISAGREEING) && !Complete(Buffer(DISAGREEING).0)
  {
    var fs := DISAGREEING;
    forall i: nat | i < 12
      ensures Received(fs, i)
    {
      assert Covers(fs[0], i);
    }
    assert !FragmentOf(fs[0], 12);
    assert forall n: nat :: n != 12 ==> !FragmentOf(fs[1], n);
    assert fs[..1] == [fs[0]] && fs[..1][..0] == [];
    assert Buffer(fs[..1]) == (Region(0, 12, false), []);
    assert Buffer(fs) == (Region(0, 12, false), []);
  }

  // ---------- Completeness, for the blocks of one datagram ----------

  /** Cut points of a datagram: block k is the bytes from cut k to cut k+1. */
  ghost predicate Cuts(cuts: seq<Offset>) {
    |cuts| >= 2 && cuts[0] == 0 && Increasing(cuts)
  }

  /** Each offset is above the one before it. */
  predicate Increasing(cuts: seq<Offset>) {
    var n := |cuts| - 1;
    n <= 0 || (cuts[n - 1] < cuts[n] && Increasing(cuts[..n]))
  }

  lemma {:induction false} IncreasingAt(cuts: seq<Offset>, i: nat, j: nat)
    requires Increasing(cuts) && i < j < |cuts|
    ensures cuts[i] < cuts[j]
  {
    var n := |cuts| - 1;
    if j < n {
      IncreasingAt(cuts[..n], i, j);
    } else if i < n - 1 {
      IncreasingAt(cuts[..n], i, n - 1);
    }
  }

  function Block(cuts: seq<Offset>, k: nat): Region
    requires k + 1 < |cuts|
  {
    Region(cuts[k], cuts[k + 1], k + 2 == |cuts|)
  }

  ghost predicate AreBlocks(cuts: seq<Offset>, fs: seq<Region>) {
    forall i :: 0 <= i < |fs| ==> exists k: nat :: k + 1 < |cuts| && fs[i] == Block(cuts, k)
  }

  /** The first m blocks have been received. */
  ghost predicate HasPrefix(cuts: seq<Offset>, fs: seq<Region>, m: nat) {
    m < |cuts| && forall k: nat :: k < m ==> Block(cuts, k) in fs
  }

  function Prefix(cuts: seq<Offset>, m: nat): Region
    requires m < |cuts|
  {
    Region(0, cuts[m], m + 1 == |cuts|)
  }

  /** Main is the first m blocks; what else was received is parked. */
  ghost predicate Gathered(cuts: seq<Offset>, fs: seq<Region>, main: Region, frags: seq<Region>, m: nat) {
    && HasPrefix(cuts, fs, m) && main == Prefix(cuts, m)
    && AreBlocks(cuts, frags) && (forall i :: 0 <= i < |frags| ==> frags[i] in fs)
    && (forall k: nat :: m <= k < |cuts| - 1 && Block(cuts, k) in fs ==> Block(cuts, k) in frags)
  }

  /** No parked block belongs to main or comes next. */
  ghost predicate Settled(cuts: seq<Offset>, frags: seq<Region>, m: nat) {
    forall k: nat :: k <= m && k + 1 < |cuts| ==> Block(cuts, k) !in frags
  }

  /** How main and a block lie to each other. */
  lemma BlockJoins(cuts: seq<Offset>, m: nat, k: nat)
    requires Cuts(cuts) && m < |cuts| && k + 1 < |cuts|
    ensures Joins(Prefix(cuts, m), Block(cuts, k)) <==> k <= m
    ensures k == m ==> Join(Prefix(cuts, m), Block(cuts, k)) == Prefix(cuts, m + 1)
    ensures k < m ==> Join(Prefix(cuts, m), Block(cuts, k)) == Prefix(cuts, m)
  {
    IncreasingAt(cuts, 0, k + 1);
    IncreasingAt(cuts, k, k + 1);
    if k < m {
      IncreasingAt(cuts, k, m);
      if k + 1 < m {
        IncreasingAt(cuts, k + 1, m);
      }
    } else if m < k {
      IncreasingAt(cuts, m, k);
    }
  }

  lemma DistinctBlocks(cuts: seq<Offset>, j: nat, k: nat)
    requires Cuts(cuts) && j + 1 < |cuts| && k + 1 < |cuts| && j != k
    ensures Block(cuts, j) != Block(cuts, k)
  {
    if j < k {
      IncreasingAt(cuts, j, k);
    } else {
      IncreasingAt(cuts, k, j);
    }
  }

  /** A pass keeps main and parked blocks gathered; `kept` are those it has already let stay. */
  lemma {:induction false} SweepGathered(cuts: seq<Offset>, fs: seq<Region>, main: Region,
                                         kept: seq<Region>, frags: seq<Region>, m: nat) returns (m': nat)
    requires Cuts(cuts) && Gathered(cuts, fs, main, kept + frags, m)
    ensures Gathered(cuts, fs, Sweep(main, frags).0, kept + Sweep(main, frags).1, m')
    decreases |frags|
  {
    if frags == [] {
      m' := m;
    } else {
      var f := frags[0];
      assert (kept + frags)[|kept|] == f;
      var k: nat :| k + 1 < |cuts| && f == Block(cuts, k);
      BlockJoins(cuts, m, k);
      if k <= m {
        var next := if k == m then m + 1 else m;
        DropBlock(cuts, fs, main, kept, frags, m, k);
        m' := SweepGathered(cuts, fs, Prefix(cuts, next), kept, frags[1..], next);
      } else {
        assert kept + frags == (kept + [f]) + frags[1..];
        m' := SweepGathered(cuts, fs, main, kept + [f], frags[1..], m);
        assert (kept + [f]) + Sweep(main, frags[1..]).1 == kept + Sweep(main, frags).1;
      }
    }
  }

  /** A parked block that belongs to main or extends it is dropped. */
  lemma DropBlock(cuts: seq<Offset>, fs: seq<Region>, main: Region, kept: seq<Region>, frags: seq<Region>, m: nat, k: nat)
    requires Cuts(cuts) && Gathered(cuts, fs, main, kept + frags, m)
    requires frags != [] && k + 1 < |cuts| && frags[0] == Block(cuts, k) && k <= m
    ensures var next := if k == m then m + 1 else m;
            next < |cuts| && Gathered(cuts, fs, Prefix(cuts, next), kept + frags[1..], next)
  {
    var next := if k == m then m + 1 else m;
    var all, left := kept + frags, kept + frags[1..];
    assert all[|kept|] == frags[0];
    forall i | 0 <= i < |left|
      ensures left[i] in fs && exists j: nat :: j + 1 < |cuts| && left[i] == Block(cuts, j)
    {
      assert left[i] == all[if i < |kept| then i else i + 1];
    }
    forall j: nat | next <= j < |cuts| - 1 && Block(cuts, j) in fs
      ensures Block(cuts, j) in left
    {
      DistinctBlocks(cuts, j, k);
      assert Block(cuts, j) in all;
    }
  }

  lemma {:induction false} SweepAllGathered(cuts: seq<Offset>, fs: seq<Region>, main: Region,
                                            frags: seq<Region>, m: nat) returns (m': nat)
    requires Cuts(cuts) && Gathered(cuts, fs, main, frags, m)
    ensures var (main', frags') := SweepAll(main, frags);
            Gathered(cuts, fs, main', frags', m') && Settled(cuts, frags', m')
    decreases |frags|
  {
    assert [] + frags == frags;
    m' := SweepGathered(cuts, fs, main, [], frags, m);
    var (next, rest) := Sweep(main, frags);
    assert [] + rest == rest;
    SweepShortens(main, frags);
    if |rest| < |frags| {
      m' := SweepAllGathered(cuts, fs, next, rest, m');
    } else {
      SweepFixpoint(main, frags);
      m' := m;
      NoJoinIsSettled(cuts, frags, m);
    }
  }

  lemma NoJoinIsSettled(cuts: seq<Offset>, frags: seq<Region>, m: nat)
    requires Cuts(cuts) && m < |cuts| && forall i :: 0 <= i < |frags| ==> !Joins(Prefix(cuts, m), frags[i])
    ensures Settled(cuts, frags, m)
  {
    forall k: nat | k <= m && k + 1 < |cuts|
      ensures Block(cuts, k) !in frags
    {
      BlockJoins(cuts, m, k);
    }
  }

  /** The state of the buffer before the fragment just received has been looked at. */
  lemma GatheredLater(cuts: seq<Offset>, fs: seq<Region>, main: Region, frags: seq<Region>, m: nat, k: nat)
    requires Cuts(cuts) && Gathered(cuts, fs, main, frags, m) && k + 1 < |cuts|
    ensures k < m ==> Gathered(cuts, fs + [Block(cuts, k)], main, frags, m)
    ensures k > m ==> Gathered(cuts, fs + [Block(cuts, k)], main, frags + [Block(cuts, k)], m)
    ensures k == m ==> Gathered(cuts, fs + [Block(cuts, k)], Prefix(cuts, m + 1), frags, m + 1)
  {
    var b := Block(cuts, k);
    forall j: nat | j + 1 < |cuts| && j != k
      ensures Block(cuts, j) in fs + [b] <==> Block(cuts, j) in fs
    {
      DistinctBlocks(cuts, j, k);
    }
  }

  lemma StaysSettled(cuts: seq<Offset>, frags: seq<Region>, m: nat, k: nat)
    requires Cuts(cuts) && Settled(cuts, frags, m) && m < k && k + 1 < |cuts|
    ensures Settled(cuts, frags + [Block(cuts, k)], m)
  {
    forall j: nat | j <= m && j + 1 < |cuts|
      ensures Block(cuts, j) !in frags + [Block(cuts, k)]
    {
      DistinctBlocks(cuts, j, k);
    }
  }

  lemma MergeBlock(cuts: seq<Offset>, frags: seq<Region>, m: nat, k: nat)
    requires Cuts(cuts) && m < |cuts| && k + 1 < |cuts|
    ensures Merge(Prefix(cuts, m), frags, Block(cuts, k)) ==
            if k == m then SweepAll(Prefix(cuts, m + 1), frags)
            else if k > m then (Prefix(cuts, m), frags + [Block(cuts, k)])
            else (Prefix(cuts, m), frags)
  {
    IncreasingAt(cuts, 0, k + 1);
    if k == m {
    } else if m < k {
      IncreasingAt(cuts, m, k);
    } else {
      IncreasingAt(cuts, k, m);
    }
  }

  /** Any blocks of one datagram, in any order and with any repetition, leave the buffer gathered and settled. */
  lemma {:induction false} BufferGathered(cuts: seq<Offset>, fs: seq<Region>) returns (m: nat)
    requires Cuts(cuts) && AreBlocks(cuts, fs)
    ensures Gathered(cuts, fs, Buffer(fs).0, Buffer(fs).1, m) && Settled(cuts, Buffer(fs).1, m)
  {
    if fs == [] {
      m := 0;
    } else {
      var n := |fs| - 1;
      var before, f := fs[..n], fs[n];
      assert fs == before + [f];
      m := BufferGathered(cuts, before);
      var (main, frags) := Buffer(before);
      var k: nat :| k + 1 < |cuts| && f == Block(cuts, k);
      GatheredLater(cuts, before, main, frags, m, k);
      MergeBlock(cuts, frags, m, k);
      assert Buffer(fs) == Merge(main, frags, f);
      if k == m {
        m := SweepAllGathered(cuts, fs, Prefix(cuts, m + 1), frags, m + 1);
      } else if k > m {
        StaysSettled(cuts, frags, m, k);
      }
    }
  }

  /**
   For the blocks of one datagram, in any order of arrival with any duplicates: main is exactly the
   longest received run of blocks from the start, and completion is reported exactly when every block
   has arrived, with the datagram's length.
   */
  lemma CompleteExactly(cuts: seq<Offset>, fs: seq<Region>)
    requires Cuts(cuts) && AreBlocks(cuts, fs)
    ensures exists m: nat :: LongestPrefix(cuts, fs, m) && Buffer(fs).0 == Prefix(cuts, m)
    ensures Complete(Buffer(fs).0) <==> forall k: nat :: k + 1 < |cuts| ==> Block(cuts, k) in fs
    ensures Complete(Buffer(fs).0) ==> Buffer(fs).0.end == cuts[|cuts| - 1]
  {
    var m := BufferGathered(cuts, fs);
    SettledIsLongest(cuts, fs, Buffer(fs).0, Buffer(fs).1, m);
  }

  /** The first m blocks have been received, and the next one, if there is one, has not. */
  ghost predicate LongestPrefix(cuts: seq<Offset>, fs: seq<Region>, m: nat) {
    HasPrefix(cuts, fs, m) && (m + 1 < |cuts| ==> Block(cuts, m) !in fs)
  }

  lemma SettledIsLongest(cuts: seq<Offset>, fs: seq<Region>, main: Region, frags: seq<Region>, m: nat)
    requires Gathered(cuts, fs, main, frags, m) && Settled(cuts, frags, m)
    ensures LongestPrefix(cuts, fs, m) && main == Prefix(cuts, m)
    ensures Complete(main) <==> forall k: nat :: k + 1 < |cuts| ==> Block(cuts, k) in fs
    ensures Complete(main) ==> main.end == cuts[|cuts| - 1]
  {
    if m + 1 < |cuts| {
      assert Block(cuts, m) !in frags;
    }
  }

  // ---------- The class ----------

  /** A pass that began with `m` and `fs` has dealt with the first `i` fragments. */
  ghost predicate Midway(m: Region, fs: seq<Region>, main: Region, frags: seq<Region>, i: nat) {
    && i <= |frags|
    && Sweep(m, fs).0 == Sweep(main, frags[i..]).0
    && Sweep(m, fs).1 == frags[..i] + Sweep(main, frags[i..]).1
  }

  lemma MidwayStart(m: Region, fs: seq<Region>)
    ensures Midway(m, fs, m, fs, 0)
  {
    assert fs[0..] == fs && fs[..0] == [];
  }

  lemma MidwayErase(m: Region, fs: seq<Region>, main: Region, frags: seq<Region>, i: nat)
    requires Midway(m, fs, main, frags, i) && i < |frags| && Joins(main, frags[i])
    ensures Midway(m, fs, Join(main, frags[i]), frags[..i] + frags[i + 1..], i)
  {
    var left := frags[..i] + frags[i + 1..];
    assert frags[i..][1..] == frags[i + 1..] == left[i..] && left[..i] == frags[..i];
  }

  lemma MidwayKeep(m: Region, fs: seq<Region>, main: Region, frags: seq<Region>, i: nat)
    requires Midway(m, fs, main, frags, i) && i < |frags| && !Joins(main, frags[i])
    ensures Midway(m, fs, main, frags, i + 1)
  {
    assert frags[i..][1..] == frags[i + 1..] && frags[..i + 1] == frags[..i] + [frags[i]];
  }

  lemma MidwayEnd(m: Region, fs: seq<Region>, main: Region, frags: seq<Region>)
    requires Midway(m, fs, main, frags, |frags|)
    ensures Sweep(m, fs) == (main, frags)
  {
    assert frags[..|frags|] + [] == frags;
  }

  class ReassemblyBuffer {
    var main: Region
    var fragments: seq<Region>

    ghost var arrived: seq<Region>

    /** The buffer is what the fragments that have arrived make of it. */
    ghost predicate Valid()
      reads this
    {
      (main, fragments) == Buffer(arrived)
    }

    constructor ()
      ensures Valid() && arrived == []
    {
      main, fragments, arrived := EMPTY, [], [];
    }

    method AddFragment(beg: Offset, end: Offset, islast: bool) returns (complete: bool)
      requires Valid()
      modifies this
      ensures Valid() && arrived == old(arrived) + [Region(beg, end, islast)]
      ensures complete == Complete(main)
      ensures forall n: nat :: OfDatagram(arrived, n) ==>
                (complete <==> AllReceived(arrived, n) && NothingBeyond(arrived))
    {
      MergeFragment(beg, end, islast);
      arrived := arrived + [Region(beg, end, islast)];
      assert arrived[..|arrived| - 1] == old(arrived);
      complete := main.beg == 0 && main.islast;
      forall n: nat | OfDatagram(arrived, n)
        ensures complete <==> AllReceived(arrived, n) && NothingBeyond(arrived)
      {
        CompletesExactly(arrived, n);
      }
    }

    method MergeFragment(beg: Offset, end: Offset, islast: bool)
      modifies this`main, this`fragments
      ensures (main, fragments) == Merge(old(main), old(fragments), Region(beg, end, islast))
    {
      if main.end == beg {
        main := main.(end := end);
        if islast {
          main := main.(islast := true);
        }
        MergeFragments();
      } else if main.beg == end {
        main := main.(beg := beg);
        MergeFragments();
      } else if main.end < beg || main.beg > end {
        fragments := fragments + [Region(beg, end, islast)];
      }
    }

    method MergeFragments()
      modifies this`main, this`fragments
      ensures (main, fragments) == SweepAll(old(main), old(fragments))
    {
      var oncemore := true;
      while oncemore
        invariant oncemore ==> SweepAll(main, fragments) == SweepAll(old(main), old(fragments))
        invariant !oncemore ==> (main, fragments) == SweepAll(old(main), old(fragments))
        decreases oncemore, |fragments|
      {
        ghost var m, fs := main, fragments;
        SweepShortens(m, fs);
        oncemore := SweepOnce();
      }
    }

    /** One pass over the fragments, erasing those that have been joined. */
    method SweepOnce() returns (oncemore: bool)
      modifies this`main, this`fragments
      ensures (main, fragments) == Sweep(old(main), old(fragments))
      ensures oncemore == (|fragments| < |old(fragments)|)
    {
      oncemore := false;
      var i := 0;
      MidwayStart(main, fragments);
      while i < |fragments|
        invariant |fragments| <= |old(fragments)| && oncemore == (|fragments| < |old(fragments)|)
        invariant Midway(old(main), old(fragments), main, fragments, i)
        decreases |fragments| - i
      {
        var frag := fragments[i];
        var deleteit := false;
        ghost var before := main;
        if main.end == frag.beg {
          main := main.(end := frag.end);
          if frag.islast {
            main := main.(islast := true);
          }
          deleteit := true;
        } else if main.beg == frag.end {
          main := main.(beg := frag.beg);
          deleteit := true;
        } else if main.beg <= frag.beg && main.end >= frag.end {
          deleteit := true;
        }
        if deleteit {
          MidwayErase(old(main), old(fragments), before, fragments, i);
          fragments := fragments[..i] + fragments[i + 1..];
          oncemore := true;
        } else {
          MidwayKeep(old(main), old(fragments), main, fragments, i);
          i := i + 1;
        }
      }
      MidwayEnd(old(main), old(fragments), main, fragments);
    }

    /**
     The length of the datagram, once the buffer is complete: all bytes below it have arrived, and it is the length
     on which the fragments agree.
     */
    method GetTotalLength() returns (length: Offset)
      requires Valid() && Complete(main)
      ensures Proper(arrived) ==> AllReceived(arrived, length)
      ensures forall n: nat :: OfDatagram(arrived, n) ==> length == n
    {
      length := main.end;
      forall n: nat | OfDatagram(arrived, n)
        ensures length == n
      {
        CompletesExactly(arrived, n);
      }
      if Proper(arrived) {
        NeverInvents(arrived);
      }
    }
  }
}
