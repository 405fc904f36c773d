/**
 What the two switch schedulers share: frames, the byte budget and the PAUSE decision.
 */
module RelayShared {
  import opened Simulation

  /** `id` stands for the identity of the message object. */
  datatype Frame = Frame(id: nat, length: nat, port: nat, src: Address, dest: Address)

  /** A frame taken into the buffer, and when. */
  datatype Arrival = Arrival(frame: Frame, time: real)

  datatype Config = Config(
    cpus: nat, ports: nat, processingTime: real,
    bufferSize: int, highWatermark: int, pauseUnits: int,
    addressTableSize: nat, agingTime: real)

  predicate ValidConfig(c: Config) {
    c.processingTime >= 0.0 && c.agingTime > 0.0
  }

  function PauseInterval(c: Config): real {
    c.pauseUnits as real * 512.0 / 100000.0
  }

  /** A PAUSE goes out on all ports when the buffer is above the watermark, but not too often. */
  predicate SendsPause(c: Config, used: int, now: real, lastSent: real) {
    c.pauseUnits > 0 && c.highWatermark > 0 && used >= c.highWatermark && now - lastSent > PauseInterval(c)
  }

  /** The time of the last PAUSE, or zero. */
  function LastPause(pauses: seq<real>): real {
    if pauses == [] then 0.0 else pauses[|pauses| - 1]
  }

  /** Until when it is too soon for another PAUSE. */
  function TooSoon(c: Config, last: real): real {
    last + 512.0 * c.pauseUnits as real / 100000.0
  }

  /** Each PAUSE comes more than the interval, 512 times the units at 100000 a second, after the one before. */
  ghost predicate PausesApart(c: Config, pauses: seq<real>) {
    forall i :: 0 <= i < |pauses| ==> TooSoon(c, LastPause(pauses[..i])) < pauses[i]
  }

  ghost predicate PausesOk(c: Config, pauses: seq<real>, lastSent: real) {
    lastSent == LastPause(pauses) && PausesApart(c, pauses)
  }

  /** The PAUSE frames after a frame has been taken in at time t, with which so many bytes are held. */
  function PausesWith(c: Config, pauses: seq<real>, t: real, held: int): seq<real> {
    if c.pauseUnits > 0 && c.highWatermark > 0 && held >= c.highWatermark
       && TooSoon(c, LastPause(pauses)) < t
    then pauses + [t] else pauses
  }

  lemma PauseNext(c: Config, pauses: seq<real>, lastSent: real, t: real, used: int)
    requires PausesOk(c, pauses, lastSent)
    ensures var sends := SendsPause(c, used, t, lastSent);
            && (if sends then pauses + [t] else pauses) == PausesWith(c, pauses, t, used)
            && PausesOk(c, PausesWith(c, pauses, t, used), if sends then t else lastSent)
  {
    var after := PausesWith(c, pauses, t, used);
    forall i | 0 <= i < |after|
      ensures TooSoon(c, LastPause(after[..i])) < after[i]
    {
      assert after[..i] == pauses[..i];
    }
  }

  function Bytes(q: seq<Frame>): nat {
    if q == [] then 0 else Bytes(q[..|q| - 1]) + q[|q| - 1].length
  }

  lemma {:induction false} BytesHead(q: seq<Frame>)
    requires q != []
    ensures Bytes(q) == q[0].length + Bytes(q[1..])
  {
    if |q| > 1 {
      BytesHead(q[..|q| - 1]);
      assert q[..|q| - 1][1..] == q[1..][..|q| - 2];
    } else {
      assert q[..0] == [] && q[1..] == [];
    }
  }

  lemma BytesAppend(q: seq<Frame>, f: Frame)
    ensures Bytes(q + [f]) == Bytes(q) + f.length
  {
    assert (q + [f])[..|q|] == q;
  }

  function Frames(a: seq<Arrival>): (r: seq<Frame>)
    ensures |r| == |a| && forall i :: 0 <= i < |a| ==> r[i] == a[i].frame
  {
    seq(|a|, i requires 0 <= i < |a| => a[i].frame)
  }

  // ---------- Parts of sequences, sums of multisets ----------

  lemma UpdateTail<T>(xs: seq<T>, i: nat, x: T)
    requires 0 < i < |xs|
    ensures xs[i := x][1..] == xs[1..][i - 1 := x] && xs[i := x][0] == xs[0] && xs[1..][i - 1] == xs[i]
  {
  }

  lemma UpdateHead<T>(xs: seq<T>, x: T)
    requires xs != []
    ensures xs[0 := x][1..] == xs[1..]
  {
  }

  lemma UpdateInit<T>(xs: seq<T>, n: nat, i: nat, x: T)
    requires i < n && |xs| == n + 1
    ensures xs[i := x][..n] == xs[..n][i := x] && xs[i := x][n] == xs[n] && xs[..n][i] == xs[i]
  {
  }

  lemma UpdateLast<T>(xs: seq<T>, n: nat, x: T)
    requires |xs| == n + 1
    ensures xs[n := x][..n] == xs[..n]
  {
  }

  lemma AddBoth<T>(x: multiset<T>, o: multiset<T>, y: multiset<T>, n: multiset<T>, h: multiset<T>)
    requires x + o == y + n
    ensures (x + h) + o == (y + h) + n
  {
    assert (x + h) + o == (x + o) + h;
  }

  lemma SwapTwo<T>(x: multiset<T>, a: multiset<T>, b: multiset<T>)
    ensures (x + a) + b == (x + b) + a
  {
  }

  lemma PlusNothing<T>(x: multiset<T>, o: multiset<T>, y: multiset<T>)
    requires x + o == y + multiset{}
    ensures y == x + o
  {
  }
}
