/**
 The MAC over whole runs: no internal error, frames kept in order and never lost, backoff
 bounded, no wake-up lost, and channel time fully accounted for.
 */
module EtherMacTheorems {
  import opened Simulation
  import opened EtherMac
  import opened EtherMacSafety
  import opened EtherMacHistory

  // ---------- Runs ----------

  datatype Run = Boot(cfg: Config) | Next(before: Run, t: real, ev: Event)

  function Final(run: Run): Outcome<Mac> {
    match run
    case Boot(cfg) => Init(cfg)
    case Next(b, t, ev) =>
      var s :- Final(b);
      Step(s, t, ev)
  }

  /** Every event was one the kernel could deliver, and no event but perhaps the last halted the run. */
  ghost predicate Possible(run: Run) {
    match run
    case Boot(_) => true
    case Next(b, t, ev) => Possible(b) && Final(b).Ok? && Enabled(Final(b).value, t, ev)
  }

  lemma {:induction false} RunSafe(run: Run)
    requires Possible(run)
    ensures Safe(Final(run))
  {
    match run
    case Boot(cfg) => InitSafe(cfg);
    case Next(b, t, ev) =>
      RunSafe(b);
      StepSafe(Final(b).value, t, ev);
  }

  // ---------- Conservation and order ----------

  /** A frame up to the length that carrier extension may have changed. */
  function Unsized(f: Frame): Frame {
    f.(byteLength := 0)
  }

  function UnsizedAll(q: seq<Frame>): (r: seq<Frame>)
    ensures |r| == |q|
    ensures forall i :: 0 <= i < |q| ==> r[i] == Unsized(q[i])
  {
    seq(|q|, i requires 0 <= i < |q| => Unsized(q[i]))
  }

  /** `g` is the frame that was accepted as `f`, perhaps carrier-extended. */
  predicate Carried(f: Frame, g: Frame) {
    g == f || g == Extended(f)
  }

  ghost predicate Conserved(s: Mac) {
    multiset(UnsizedAll(Accepted(s.log))) == multiset(UnsizedAll(Finished(s.log) + s.queue))
  }

  ghost predicate InOrder(s: Mac) {
    AllCarried(Accepted(s.log), Finished(s.log) + s.queue)
  }

  /** The data frames of a sequence, in order. */
  function DataOnly(q: seq<Frame>): seq<Frame> {
    if q == [] then [] else DataOnly(q[..|q| - 1]) + if q[|q| - 1].kind.Data? then [q[|q| - 1]] else []
  }

  /** The data frames accepted are those finished and then those queued, in order, up to carrier extension. */
  ghost predicate DataInOrder(s: Mac) {
    AllCarried(DataOnly(Accepted(s.log)), DataOnly(Finished(s.log) + s.queue))
  }

  ghost predicate AllCarried(a: seq<Frame>, b: seq<Frame>) {
    |a| == |b| && forall i :: 0 <= i < |a| ==> Carried(a[i], b[i])
  }

  lemma {:induction false} DataConcat(a: seq<Frame>, b: seq<Frame>)
    ensures DataOnly(a + b) == DataOnly(a) + DataOnly(b)
  {
    if b == [] {
      assert a + b == a;
    } else {
      DataConcat(a, b[..|b| - 1]);
      assert (a + b)[..|a + b| - 1] == a + b[..|b| - 1];
    }
  }

  /** A PAUSE frame may be put anywhere among data frames. */
  lemma PauseBetween(fin: seq<Frame>, q: seq<Frame>, f: Frame)
    requires f.kind.Pause?
    ensures DataOnly(fin + ([f] + q)) == DataOnly(fin + q)
  {
    DataConcat(fin, [f] + q);
    DataConcat([f], q);
    DataConcat(fin, q);
  }

  lemma {:induction false} DataCarried(a: seq<Frame>, b: seq<Frame>, c: seq<Frame>)
    requires AllCarried(a, DataOnly(b)) && |b| == |c| && forall i :: 0 <= i < |b| ==> c[i] == b[i] || c[i] == Extended(b[i])
    ensures AllCarried(a, DataOnly(c))
  {
    if b != [] {
      var n := |b| - 1;
      if b[n].kind.Data? {
        DataCarried(a[..|a| - 1], b[..n], c[..n]);
      } else {
        DataCarried(a, b[..n], c[..n]);
      }
    }
  }

  lemma DataAccepted(a: seq<Frame>, fin: seq<Frame>, q: seq<Frame>, f: Frame)
    requires AllCarried(DataOnly(a), DataOnly(fin + q))
    ensures AllCarried(DataOnly(a + [f]), DataOnly(fin + if f.kind.Pause? then [f] + q else q + [f]))
  {
    DataConcat(a, [f]);
    if f.kind.Pause? {
      PauseBetween(fin, q, f);
    } else {
      DataConcat(fin + q, [f]);
      assert fin + (q + [f]) == (fin + q) + [f];
    }
  }

  lemma DataInOrderStep(s: Mac, r: Mac)
    requires DataInOrder(s) && Transition(s, r)
    ensures DataInOrder(r)
  {
    if Accepts(s, r) {
      DataAccepted(Accepted(s.log), Finished(s.log), s.queue, r.log.last.frame);
    } else {
      QueueAndFinished(s, r);
      DataCarried(DataOnly(Accepted(s.log)), Finished(s.log) + s.queue, Finished(r.log) + r.queue);
    }
  }

  lemma MoveHead(fin: seq<Frame>, q: seq<Frame>)
    requires q != []
    ensures (fin + [q[0]]) + q[1..] == fin + q
  {
  }

  lemma ResizeHead(fin: seq<Frame>, q: seq<Frame>, q': seq<Frame>)
    requires HeadExtended(q, q')
    ensures |fin + q| == |fin + q'|
    ensures forall i :: 0 <= i < |fin + q| ==> (fin + q')[i] == (fin + q)[i] || (fin + q')[i] == Extended((fin + q)[i])
  {
  }

  /** Only accepting a frame changes the frames the MAC answers for; sending may at most resize one. */
  lemma QueueAndFinished(s: Mac, r: Mac)
    requires Transition(s, r) && !Accepts(s, r)
    ensures Accepted(r.log) == Accepted(s.log)
    ensures var a, b := Finished(s.log) + s.queue, Finished(r.log) + r.queue;
            && |a| == |b|
            && forall i :: 0 <= i < |a| ==> b[i] == a[i] || b[i] == Extended(a[i])
  {
    if Transmits(s, r) || TransmitsIntoCollision(s, r) {
      assert Finished(r.log) == Finished(s.log);
      ResizeHead(Finished(s.log), s.queue, r.queue);
    } else if Completes(s, r) || CompletesAndBursts(s, r) || GivesUp(s, r) {
      assert Finished(r.log) == Finished(s.log) + [s.queue[0]];
      MoveHead(Finished(s.log), s.queue);
    } else {
      assert Finished(r.log) == Finished(s.log) && r.queue == s.queue;
    }
  }

  lemma UnsizedConcat(a: seq<Frame>, b: seq<Frame>)
    ensures UnsizedAll(a + b) == UnsizedAll(a) + UnsizedAll(b)
  {
  }

  lemma AcceptConserves(a: seq<Frame>, fin: seq<Frame>, q: seq<Frame>, f: Frame)
    requires multiset(UnsizedAll(a)) == multiset(UnsizedAll(fin + q))
    ensures multiset(UnsizedAll(a + [f])) == multiset(UnsizedAll(fin + (q + [f])))
    ensures multiset(UnsizedAll(a + [f])) == multiset(UnsizedAll(fin + ([f] + q)))
  {
    UnsizedConcat(a, [f]);
    UnsizedConcat(q, [f]);
    UnsizedConcat([f], q);
    UnsizedConcat(fin, q);
    UnsizedConcat(fin, q + [f]);
    UnsizedConcat(fin, [f] + q);
  }

  lemma ConservedStep(s: Mac, r: Mac)
    requires Conserved(s) && Transition(s, r)
    ensures Conserved(r)
  {
    if Accepts(s, r) {
      AcceptConserves(Accepted(s.log), Finished(s.log), s.queue, r.log.last.frame);
    } else {
      QueueAndFinished(s, r);
      assert UnsizedAll(Finished(r.log) + r.queue) == UnsizedAll(Finished(s.log) + s.queue);
    }
  }

  lemma InOrderStep(s: Mac, r: Mac)
    requires NoPauseFromUpper(s.log) ==> InOrder(s)
    requires Transition(s, r) && NoPauseFromUpper(r.log)
    ensures InOrder(r)
  {
    if Accepts(s, r) {
      assert Finished(r.log) + r.queue == (Finished(s.log) + s.queue) + [r.log.last.frame];
    } else {
      assert NoPauseFromUpper(s.log);
      QueueAndFinished(s, r);
    }
  }

  /**
   Nothing is lost, duplicated or invented: at every point of every run the frames accepted from
   above are those completed or abandoned together with those still queued; the data frames among them are
   so in order, and if the upper layer submits no PAUSE frame all of them are.
   */
  lemma {:induction false} ExactlyOnce(run: Run)
    requires Possible(run) && Final(run).Ok?
    ensures Conserved(Final(run).value) && DataInOrder(Final(run).value)
    ensures NoPauseFromUpper(Final(run).value.log) ==> InOrder(Final(run).value)
  {
    match run
    case Boot(cfg) =>
      InitSafe(cfg);
    case Next(b, t, ev) =>
      var s, r := Final(b).value, Final(run).value;
      ExactlyOnce(b);
      RunSafe(b);
      StepTransition(s, t, ev);
      ConservedStep(s, r);
      DataInOrderStep(s, r);
      if NoPauseFromUpper(r.log) {
        InOrderStep(s, r);
      }
  }

  // ---------- What is completed is what was sent ----------

  /** While transmitting, the frame on the wire sits behind the PAUSE frames submitted since it was sent. */
  ghost predicate WireMatchesQueue(s: Mac) {
    s.tx.Transmitting? ==>
      && PausesSinceWire(s.log) < |s.queue|
      && LastOnWire(s.log) == Some(WithPreamble(s.queue[PausesSinceWire(s.log)]))
  }

  lemma WireStep(s: Mac, r: Mac)
    requires WireMatchesQueue(s) && Transition(s, r)
    ensures WireMatchesQueue(r)
  {
    if Accepts(s, r) && s.tx.Transmitting? {
      var k := PausesSinceWire(s.log);
      assert r.queue[PausesSinceWire(r.log)] == s.queue[k];
    }
  }

  lemma {:induction false} WireRun(run: Run)
    requires Possible(run) && Final(run).Ok?
    ensures WireMatchesQueue(Final(run).value)
  {
    match run
    case Boot(cfg) =>
    case Next(b, t, ev) =>
      WireRun(b);
      RunSafe(b);
      StepTransition(Final(b).value, t, ev);
      WireStep(Final(b).value, Final(run).value);
  }

  ghost predicate DistinctIds(q: seq<Frame>) {
    forall i, j :: 0 <= i < j < |q| ==> q[i].id != q[j].id
  }

  lemma {:induction false} DistinctCount(a: seq<Frame>, x: Frame)
    requires DistinctIds(a)
    ensures multiset(a)[x] <= 1
  {
    if a != [] {
      var n := |a| - 1;
      assert a == a[..n] + [a[n]];
      if a[n] == x {
        assert x !in a[..n];
      } else {
        DistinctCount(a[..n], x);
      }
    }
  }

  lemma RepeatedCount(b: seq<Frame>, i: nat, j: nat)
    requires i < j < |b| && b[i] == b[j]
    ensures multiset(b)[b[i]] >= 2
  {
    assert b == b[..j] + b[j..];
    assert b[..j][i] == b[i] && b[j..][0] == b[i];
  }

  lemma DistinctFromMultiset(a: seq<Frame>, b: seq<Frame>)
    requires multiset(a) == multiset(b) && DistinctIds(a)
    ensures DistinctIds(b)
  {
    forall i, j | 0 <= i < j < |b|
      ensures b[i].id != b[j].id
    {
      if b[i] == b[j] {
        RepeatedCount(b, i, j);
        DistinctCount(a, b[i]);
      }
      assert b[i] in multiset(b) && b[j] in multiset(b);
      assert b[i] in a && b[j] in a;
    }
  }

  lemma DistinctUnsized(a: seq<Frame>, b: seq<Frame>)
    requires DistinctIds(a) && multiset(UnsizedAll(a)) == multiset(UnsizedAll(b))
    ensures DistinctIds(UnsizedAll(b))
  {
    DistinctFromMultiset(UnsizedAll(a), UnsizedAll(b));
  }

  lemma OnlyTheHead(fin: seq<Frame>, q: seq<Frame>, k: nat)
    requires k < |q| && DistinctIds(UnsizedAll(fin + q))
    ensures WithPreamble(q[k]) == WithPreamble(q[0]) <==> k == 0
  {
    var b := UnsizedAll(fin + q);
    assert b[|fin|] == Unsized(q[0]) && b[|fin| + k] == Unsized(q[k]);
  }

  /** The end of a transmission, as it happens in a run. */
  lemma EndTxEffect(s: Mac, t: real, slot: nat)
    requires Inv(s) && !s.mode.autoconf && Enabled(s, t, Expire(EndTx, slot))
    ensures var r := Step(s, t, Expire(EndTx, slot));
            r.Ok? && s.tx.Transmitting? && s.queue != [] && Finished(r.value.log) == Finished(s.log) + [s.queue[0]]
  {
    EndTxSucceeds(s, t, slot);
    EndTxTransition(Arrive(s, t, Expire(EndTx, slot)));
  }

  /**
   Provided the submitted frames are distinct objects, the frame completed at the end of a transmission
   is the one that was put on the wire exactly if no PAUSE frame was submitted meanwhile.
   */
  lemma CompletedIsSent(run: Run, t: real, slot: nat)
    requires Possible(run) && Final(run).Ok? && !Final(run).value.mode.autoconf
    requires Enabled(Final(run).value, t, Expire(EndTx, slot))
    requires DistinctIds(Accepted(Final(run).value.log))
    ensures var s := Final(run).value;
            var r := Step(s, t, Expire(EndTx, slot));
            && s.queue != [] && r.Ok? && LastOnWire(s.log).Some?
            && Finished(r.value.log) == Finished(s.log) + [s.queue[0]]
            && (LastOnWire(s.log).value == WithPreamble(s.queue[0]) <==> PausesSinceWire(s.log) == 0)
  {
    var s := Final(run).value;
    RunSafe(run);
    WireRun(run);
    ExactlyOnce(run);
    EndTxEffect(s, t, slot);
    DistinctUnsized(Accepted(s.log), Finished(s.log) + s.queue);
    OnlyTheHead(Finished(s.log), s.queue, PausesSinceWire(s.log));
  }

  lemma EndTxSucceeds(s: Mac, t: real, slot: nat)
    requires Inv(s) && !s.mode.autoconf && Enabled(s, t, Expire(EndTx, slot))
    ensures HandleEndTx(Arrive(s, t, Expire(EndTx, slot))).Ok?
    ensures Step(s, t, Expire(EndTx, slot)) == HandleEndTx(Arrive(s, t, Expire(EndTx, slot)))
  {
  }

  // ---------- Backoff ----------

  function Sum(slots: seq<nat>): nat {
    if slots == [] then 0 else Sum(slots[..|slots| - 1]) + slots[|slots| - 1]
  }

  /** The longest total backoff after `k` collisions of one frame. */
  function WorstCase(k: nat): nat {
    if k == 0 then 0 else WorstCase(k - 1) + BackoffRange(k) - 1
  }

  ghost predicate BackoffOk(s: Mac) {
    var d := Draws(s.log);
    && |d| == s.backoffs <= MAX_ATTEMPTS
    && (forall i :: 0 <= i < |d| ==> d[i] < BackoffRange(i + 1))
    && Collisions(s.log) == s.backoffs + if s.tx.Jamming? then 1 else 0
  }

  lemma BackoffStep(s: Mac, r: Mac)
    requires BackoffOk(s) && Transition(s, r)
    ensures BackoffOk(r)
  {
  }

  lemma {:induction false} DrawsBounded(d: seq<nat>)
    requires forall i :: 0 <= i < |d| ==> d[i] < BackoffRange(i + 1)
    ensures Sum(d) <= WorstCase(|d|)
  {
    if d != [] {
      DrawsBounded(d[..|d| - 1]);
    }
  }

  lemma {:induction false} WorstCaseMonotone(j: nat, k: nat)
    requires j <= k
    ensures WorstCase(j) <= WorstCase(k)
    decreases k - j
  {
    if j < k {
      WorstCaseMonotone(j, k - 1);
    }
  }

  lemma WorstCaseTotal()
    ensures WorstCase(MAX_ATTEMPTS) == 8174
  {
    assert BackoffRange(1) == 2 && BackoffRange(2) == 4 && BackoffRange(3) == 8 && BackoffRange(4) == 16;
    assert BackoffRange(5) == 32 && BackoffRange(6) == 64 && BackoffRange(7) == 128;
    assert BackoffRange(8) == 256 && BackoffRange(9) == 512;
    assert WorstCase(4) == 26 && WorstCase(8) == 502 && WorstCase(12) == 4082;
  }

  lemma {:induction false} BackoffRun(run: Run)
    requires Possible(run) && Final(run).Ok?
    ensures BackoffOk(Final(run).value)
  {
    match run
    case Boot(cfg) =>
    case Next(b, t, ev) =>
      BackoffRun(b);
      RunSafe(b);
      StepTransition(Final(b).value, t, ev);
      BackoffStep(Final(b).value, Final(run).value);
  }

  /**
   Between two resets of the counter there are at most 16 backoffs, the k-th shorter than
   2^min(k,10) slots and all of them together at most 8174 slots.
   */
  lemma BackoffBounded(run: Run)
    requires Possible(run) && Final(run).Ok?
    ensures BackoffOk(Final(run).value)
    ensures Sum(Draws(Final(run).value.log)) <= 8174
  {
    BackoffRun(run);
    var d := Draws(Final(run).value.log);
    DrawsBounded(d);
    WorstCaseMonotone(|d|, MAX_ATTEMPTS);
    WorstCaseTotal();
  }

  // ---------- Time spent in backoff ----------

  /** Simulated time spent in backoff since a frame was last completed or abandoned. */
  function BackoffTime(run: Run): real {
    match run
    case Boot(_) => 0.0
    case Next(b, t, _) =>
      if Final(b).Err? || Final(run).Err? then 0.0
      else
        var s, r := Final(b).value, Final(run).value;
        if |Finished(r.log)| > |Finished(s.log)| then 0.0
        else BackoffTime(b) + if s.tx.Backoff? then t - s.now else 0.0
  }

  /** What is left of the backoff in progress. */
  function BackoffLeft(s: Mac): real {
    if s.tx.Backoff? && EndBackoff in s.timers then s.timers[EndBackoff] - s.now else 0.0
  }

  /** How a step bears on backoffs: one goes on, one begins, or there is none. */
  ghost predicate BackoffMoves(s: Mac, t: real, ev: Event, r: Mac) {
    && r.now == t
    && if s.tx.Backoff? && !(ev.Expire? && ev.timer.EndBackoff?) then
         && r.tx.Backoff? && EndBackoff in s.timers && EndBackoff in r.timers
         && r.timers[EndBackoff] == s.timers[EndBackoff]
         && Draws(r.log) == Draws(s.log) && |Finished(r.log)| == |Finished(s.log)|
       else if ev.Expire? && ev.timer.EndJam? && s.backoffs < MAX_ATTEMPTS then
         && r.tx.Backoff? && EndBackoff in r.timers
         && r.timers[EndBackoff] == t + Duration(ev.slot, s.mode.params.slotTime)
         && Draws(r.log) == Draws(s.log) + [ev.slot] && |Finished(r.log)| == |Finished(s.log)|
       else
         && !r.tx.Backoff?
         && if |Finished(r.log)| > |Finished(s.log)| then Draws(r.log) == [] else Draws(r.log) == Draws(s.log)
  }

  lemma NetworkBackoff(s: Mac, t: real, msg: NetMsg)
    requires Inv(s) && Enabled(s, t, FromNetwork(msg)) && Step(s, t, FromNetwork(msg)).Ok? && !s.mode.autoconf
    ensures BackoffMoves(s, t, FromNetwork(msg), Step(s, t, FromNetwork(msg)).value)
  {
    var s1 := Arrive(s, t, FromNetwork(msg));
    if s.receiving.Some? {
      ReceptionTransition(Cancel(s1, EndRx).(receiving := None), s.receiving.value);
    }
  }

  lemma SentLog(s: Mac, r: Mac)
    ensures Transmits(s, r) || TransmitsIntoCollision(s, r) ==> Draws(r.log) == Draws(s.log) && Finished(r.log) == Finished(s.log)
    ensures Completes(s, r) || CompletesAndBursts(s, r) ==> Draws(r.log) == [] && |Finished(r.log)| > |Finished(s.log)|
  {
  }

  lemma EndIfgBackoff(s: Mac, t: real, slot: nat)
    requires Inv(s) && Enabled(s, t, Expire(EndIfg, slot)) && Step(s, t, Expire(EndIfg, slot)).Ok? && !s.mode.autoconf
    ensures BackoffMoves(s, t, Expire(EndIfg, slot), Step(s, t, Expire(EndIfg, slot)).value)
  {
    var s1 := Arrive(s, t, Expire(EndIfg, slot));
    EndIfgTransition(s1);
    SentLog(s1, HandleEndIfg(s1).value);
  }

  lemma EndTxBackoff(s: Mac, t: real, slot: nat)
    requires Inv(s) && Enabled(s, t, Expire(EndTx, slot)) && Step(s, t, Expire(EndTx, slot)).Ok? && !s.mode.autoconf
    ensures BackoffMoves(s, t, Expire(EndTx, slot), Step(s, t, Expire(EndTx, slot)).value)
  {
    var s1 := Arrive(s, t, Expire(EndTx, slot));
    EndTxTransition(s1);
    SentLog(s1, HandleEndTx(s1).value);
  }

  lemma EndRxBackoff(s: Mac, t: real, slot: nat)
    requires Inv(s) && Enabled(s, t, Expire(EndRx, slot)) && Step(s, t, Expire(EndRx, slot)).Ok? && !s.mode.autoconf
    ensures BackoffMoves(s, t, Expire(EndRx, slot), Step(s, t, Expire(EndRx, slot)).value)
  {
    var s1 := Arrive(s, t, Expire(EndRx, slot));
    if s1.rx.Receiving? {
      ReceptionTransition(s1.(receiving := None), s1.receiving.value);
    }
  }

  lemma EndJamBackoff(s: Mac, t: real, slot: nat)
    requires Inv(s) && Enabled(s, t, Expire(EndJam, slot)) && Step(s, t, Expire(EndJam, slot)).Ok? && !s.mode.autoconf
    ensures BackoffMoves(s, t, Expire(EndJam, slot), Step(s, t, Expire(EndJam, slot)).value)
  {
  }

  lemma OtherTimerBackoff(s: Mac, t: real, ev: Event)
    requires Inv(s) && Enabled(s, t, ev) && Step(s, t, ev).Ok? && !s.mode.autoconf
    requires ev.Expire? && (ev.timer.EndBackoff? || ev.timer.EndPause? || ev.timer.EndAutoconfig?)
    ensures BackoffMoves(s, t, ev, Step(s, t, ev).value)
  {
  }

  lemma StepBackoff(s: Mac, t: real, ev: Event)
    requires Inv(s) && Enabled(s, t, ev) && Step(s, t, ev).Ok?
    ensures BackoffMoves(s, t, ev, Step(s, t, ev).value)
  {
    if s.mode.autoconf {
    } else {
      match ev
      case FromUpper(f) =>
      case FromNetwork(msg) => NetworkBackoff(s, t, msg);
      case Expire(EndIfg, slot) => EndIfgBackoff(s, t, slot);
      case Expire(EndTx, slot) => EndTxBackoff(s, t, slot);
      case Expire(EndRx, slot) => EndRxBackoff(s, t, slot);
      case Expire(EndJam, slot) => EndJamBackoff(s, t, slot);
      case Expire(_, _) => OtherTimerBackoff(s, t, ev);
    }
  }

  lemma DurationSum(a: int, b: int, unit: real)
    ensures Duration(a + b, unit) == Duration(a, unit) + Duration(b, unit)
  {
  }

  lemma SumAppend(d: seq<nat>, n: nat)
    ensures Sum(d + [n]) == Sum(d) + n
  {
    assert (d + [n])[..|d|] == d;
  }

  lemma Bounded(spent: real, left: real, slots: nat, unit: real)
    requires spent + left == Duration(slots, unit) && left >= 0.0 && slots <= 8174 && unit >= 0.0
    ensures spent <= Duration(8174, unit)
  {
    DurationSum(slots, 8174 - slots, unit);
    NonNegativeDuration(8174 - slots, unit);
  }

  /**
   In every run, the time spent in backoff for the frame at the head, with what is left of the backoff in
   progress, is exactly the slots drawn for it, in slot times; so it is never more than 8174 slot times.
   */
  lemma BackoffTimed(run: Run)
    requires Possible(run) && Final(run).Ok?
    ensures var s := Final(run).value;
            && BackoffTime(run) + BackoffLeft(s) == Duration(Sum(Draws(s.log)), s.mode.params.slotTime)
            && 0.0 <= BackoffLeft(s) && BackoffTime(run) <= Duration(8174, s.mode.params.slotTime)
  {
    RunSafe(run);
    BackoffBounded(run);
    BackoffExact(run);
    var s := Final(run).value;
    assert Inv(s) && BackoffLeft(s) >= 0.0;
    Bounded(BackoffTime(run), BackoffLeft(s), Sum(Draws(s.log)), s.mode.params.slotTime);
  }

  lemma {:induction false} BackoffExact(run: Run)
    requires Possible(run) && Final(run).Ok?
    ensures var s := Final(run).value;
            && BackoffTime(run) + BackoffLeft(s) == Duration(Sum(Draws(s.log)), s.mode.params.slotTime)
            && (s.mode.autoconf ==> Draws(s.log) == [])
  {
    match run
    case Boot(cfg) =>
    case Next(b, t, ev) =>
      var s, r := Final(b).value, Final(run).value;
      BackoffExact(b);
      RunSafe(b);
      StepBackoff(s, t, ev);
      StepTransition(s, t, ev);
      BackoffStepExact(s, t, ev, r, BackoffTime(b));
  }

  lemma BackoffStepExact(s: Mac, t: real, ev: Event, r: Mac, before: real)
    requires BackoffMoves(s, t, ev, r) && Enabled(s, t, ev) && TimersFollowStates(s)
    requires s.mode.autoconf ==> Draws(s.log) == [] && !s.tx.Backoff? && !(ev.Expire? && ev.timer.EndJam?)
    requires !s.mode.autoconf ==> r.mode == s.mode
    requires before + BackoffLeft(s) == Duration(Sum(Draws(s.log)), s.mode.params.slotTime)
    ensures var spent := if |Finished(r.log)| > |Finished(s.log)| then 0.0
                         else before + if s.tx.Backoff? then t - s.now else 0.0;
            spent + BackoffLeft(r) == Duration(Sum(Draws(r.log)), r.mode.params.slotTime)
    ensures s.mode.autoconf ==> Draws(r.log) == []
  {
    if ev.Expire? && ev.timer.EndJam? && s.backoffs < MAX_ATTEMPTS {
      SumAppend(Draws(s.log), ev.slot);
      DurationSum(Sum(Draws(s.log)), ev.slot, s.mode.params.slotTime);
    }
  }

  predicate Abandons(s: Mac, r: Mac) {
    r.log.Then? && r.log.before == s.log && r.log.last.Abandon?
  }

  lemma EndJamOutcome(s: Mac, t: real, slot: nat)
    requires Inv(s) && Enabled(s, t, Expire(EndJam, slot)) && Step(s, t, Expire(EndJam, slot)).Ok?
    ensures var r := Step(s, t, Expire(EndJam, slot)).value;
            && (Abandons(s, r) <==> s.backoffs >= MAX_ATTEMPTS)
            && (Abandons(s, r) ==> s.queue != [] && r.log.last.frame == s.queue[0])
  {
    assert !s.mode.autoconf;
  }

  /** The head frame is given up exactly when the jam that ends marks its 17th collision in a row. */
  lemma GivenUpAtSeventeenth(run: Run, t: real, ev: Event)
    requires Possible(Next(run, t, ev)) && Final(Next(run, t, ev)).Ok?
    ensures var s, r := Final(run).value, Final(Next(run, t, ev)).value;
            && (Abandons(s, r) <==> ev.Expire? && ev.timer.EndJam? && Collisions(s.log) == MAX_ATTEMPTS + 1)
            && (Abandons(s, r) ==> s.queue != [] && r.log.last.frame == s.queue[0])
  {
    var s := Final(run).value;
    BackoffRun(run);
    RunSafe(run);
    if ev.Expire? && ev.timer.EndJam? {
      EndJamOutcome(s, t, ev.slot);
    } else {
      StepTransition(s, t, ev);
      if s.tx.Jamming? {
        NonJamKeepsJamming(s, t, ev);
      }
    }
  }

  lemma NonJamKeepsJamming(s: Mac, t: real, ev: Event)
    requires Inv(s) && Enabled(s, t, ev) && s.tx.Jamming? && !(ev.Expire? && ev.timer.EndJam?)
    requires Step(s, t, ev).Ok?
    ensures Step(s, t, ev).value.tx.Jamming?
  {
    var s1 := Arrive(s, t, ev);
    assert !s.mode.autoconf;
    match ev
    case FromUpper(f) => UpperTransition(s1, f);
    case FromNetwork(msg) => NetworkTransition(s1, msg);
    case Expire(EndRx, _) => EndRxTransition(s1);
    case Expire(_, _) =>
  }

  // ---------- No lost wake-up ----------

  /** Frames wait, nothing prevents sending them, and no timer will ever start doing so. */
  ghost predicate Stalled(s: Mac) {
    !s.mode.autoconf && s.tx.TxIdle? && s.queue != [] && (s.mode.duplex || s.rx.RxIdle?)
  }

  /** The guard of the one branch that leaves frames waiting. */
  predicate LosesWakeUp(s: Mac, ev: Event) {
    ev.Expire? && ev.timer.EndJam? && s.backoffs >= MAX_ATTEMPTS && s.rx.RxIdle? && |s.queue| > 1
  }

  lemma NetworkNeverStalls(s: Mac, msg: NetMsg)
    requires Inv(s) && !s.mode.autoconf && (s.mode.duplex ==> !Stalled(s))
    requires ProcessFromNetwork(s, msg).Ok?
    ensures !Stalled(ProcessFromNetwork(s, msg).value)
  {
    if s.receiving.Some? {
      ReceptionTransition(Cancel(s, EndRx).(receiving := None), s.receiving.value);
    }
  }

  lemma TimerNeverStalls(s: Mac, t: real, ev: Event)
    requires Inv(s) && Enabled(s, t, ev) && ev.Expire? && !s.mode.autoconf && (s.mode.duplex ==> !Stalled(s))
    requires Step(s, t, ev).Ok?
    ensures Stalled(Step(s, t, ev).value) <==> LosesWakeUp(s, ev)
  {
    var s1 := Arrive(s, t, ev);
    match ev.timer
    case EndRx =>
      if s1.rx.Receiving? {
        ReceptionTransition(s1.(receiving := None), s1.receiving.value);
      }
    case EndIfg => EndIfgTransition(s1);
    case EndTx => EndTxTransition(s1);
    case _ =>
  }

  /**
   Whatever the state before, a step leaves frames waiting for nothing exactly if it abandons a frame
   for excess collisions while the receiver is already idle and another frame is queued.
   */
  lemma StallExactly(s: Mac, t: real, ev: Event)
    requires Inv(s) && Enabled(s, t, ev) && (s.mode.duplex ==> !Stalled(s))
    requires Step(s, t, ev).Ok?
    ensures Stalled(Step(s, t, ev).value) <==> LosesWakeUp(s, ev)
  {
    var s1 := Arrive(s, t, ev);
    if s.mode.autoconf {
    } else {
      match ev
      case FromUpper(f) =>
      case FromNetwork(msg) => NetworkNeverStalls(s1, msg);
      case Expire(_, _) => TimerNeverStalls(s, t, ev);
    }
  }

  /**
   In every run an idle transmitter over waiting frames has the end of a reception to wait for, unless the last
   step took the one branch above; so always in full duplex, and in any run that abandons no frame.
   */
  lemma {:induction false} NoLostWakeUp(run: Run)
    requires Possible(run) && Final(run).Ok?
    ensures Stalled(Final(run).value) <==> run.Next? && LosesWakeUp(Final(run.before).value, run.ev)
    ensures Final(run).value.mode.duplex || NothingAbandoned(Final(run).value.log) ==> !Stalled(Final(run).value)
  {
    match run
    case Boot(cfg) =>
    case Next(b, t, ev) =>
      NoLostWakeUp(b);
      RunSafe(b);
      StepTransition(Final(b).value, t, ev);
      StallExactly(Final(b).value, t, ev);
  }

  // ---------- PAUSE ----------

  /** In PAUSE state with no timer to end it. */
  predicate StuckInPause(s: Mac) {
    s.tx.Paused? && EndPause !in s.timers
  }

  /** The PAUSE frame, if any, whose reception this event completes. */
  function PauseCompleted(s: Mac, t: real, ev: Event): Option<int> {
    if s.mode.autoconf || s.receiving.None? || s.receiving.value.kind.Data? then None
    else
      match ev
      case Expire(EndRx, _) => Some(s.receiving.value.kind.units)
      case FromNetwork(FrameMsg(_, _)) =>
        if (s.mode.duplex || !s.tx.Transmitting?) && EndRx in s.timers && s.timers[EndRx] - t < s.mode.params.bitTime
        then Some(s.receiving.value.kind.units) else None
      case _ => None
  }

  predicate StuckNext(s: Mac, t: real, ev: Event) {
    && s.tx.Paused? && !(ev.Expire? && ev.timer.EndPause?)
    && match PauseCompleted(s, t, ev)
       case None => StuckInPause(s)
       case Some(units) => units <= 0
  }

  lemma NetworkStuck(s: Mac, t: real, msg: NetMsg)
    requires Inv(s) && Enabled(s, t, FromNetwork(msg)) && Step(s, t, FromNetwork(msg)).Ok? && !s.mode.autoconf
    ensures StuckInPause(Step(s, t, FromNetwork(msg)).value) <==> StuckNext(s, t, FromNetwork(msg))
  {
  }

  /** A pause loses its timer exactly if a PAUSE frame of zero units completes meanwhile, until a positive one does. */
  lemma StuckExactly(s: Mac, t: real, ev: Event)
    requires Inv(s) && Enabled(s, t, ev) && Step(s, t, ev).Ok?
    ensures StuckInPause(Step(s, t, ev).value) <==> StuckNext(s, t, ev)
  {
    if !s.mode.autoconf {
      match ev
      case FromUpper(f) =>
      case FromNetwork(msg) => NetworkStuck(s, t, msg);
      case Expire(EndIfg, _) => EndIfgTransition(Arrive(s, t, ev));
      case Expire(_, _) =>
    }
  }

  /**
   What the PAUSE frames completed since PAUSE state was entered said last: None if there was none, or if the
   transmitter was not paused before the last step.
   */
  function LastPauseInPause(run: Run): Option<int> {
    match run
    case Boot(_) => None
    case Next(b, t, ev) =>
      if Final(b).Err? || !Final(b).value.tx.Paused? || (ev.Expire? && ev.timer.EndPause?) then None
      else
        var completed := PauseCompleted(Final(b).value, t, ev);
        if completed.Some? then completed else LastPauseInPause(b)
  }

  /** In every run, PAUSE state lacks its timer exactly if the last PAUSE frame completed in it had no units. */
  lemma {:induction false} StuckInRun(run: Run)
    requires Possible(run) && Final(run).Ok?
    ensures StuckInPause(Final(run).value) <==>
            Final(run).value.tx.Paused? && LastPauseInPause(run).Some? && LastPauseInPause(run).value <= 0
  {
    match run
    case Boot(cfg) =>
    case Next(b, t, ev) =>
      StuckInRun(b);
      RunSafe(b);
      StuckExactly(Final(b).value, t, ev);
  }

  // ---------- What waiting frames wait for ----------

  /** A timer is pending whose expiry takes the transmitter on: out of its state, or out of idleness. */
  predicate Awaits(s: Mac) {
    || EndIfg in s.timers || EndTx in s.timers || EndJam in s.timers || EndBackoff in s.timers || EndPause in s.timers
    || (s.tx.TxIdle? && EndRx in s.timers && !s.mode.duplex)
  }

  /** The transmitter's state decides what waiting frames wait for. */
  lemma AwaitsExactly(s: Mac)
    requires Inv(s) && !s.mode.autoconf && s.queue != []
    ensures !Awaits(s) <==> Stalled(s) || StuckInPause(s)
    ensures !Awaits(s) && s.rx.RxIdle? ==> s.timers == map[]
  {
    if !Awaits(s) && s.rx.RxIdle? {
      forall k: Timer
        ensures k !in s.timers
      {
        match k
        case EndIfg =>
        case EndTx =>
        case EndJam =>
        case EndBackoff =>
        case EndPause =>
        case EndRx =>
        case EndAutoconfig =>
      }
    }
  }

  /**
   In every run, after autoconfiguration: waiting frames wait for no timer at all exactly if the last step
   abandoned a frame with the receiver idle and more queued, or the last PAUSE frame completed in PAUSE state
   had no units.
   */
  lemma WaitsForNothingExactly(run: Run)
    requires Possible(run) && Final(run).Ok? && !Final(run).value.mode.autoconf && Final(run).value.queue != []
    ensures !Awaits(Final(run).value) <==>
            || (run.Next? && LosesWakeUp(Final(run.before).value, run.ev))
            || (Final(run).value.tx.Paused? && LastPauseInPause(run).Some? && LastPauseInPause(run).value <= 0)
  {
    RunSafe(run);
    NoLostWakeUp(run);
    StuckInRun(run);
    AwaitsExactly(Final(run).value);
  }

  // ---------- Channel time ----------

  /** The channel is busy: a reception or collision is on, or our own half-duplex transmission. */
  predicate Busy(s: Mac) {
    !s.rx.RxIdle? || (!s.mode.duplex && s.tx.Transmitting?)
  }

  function Accounted(s: Mac): real {
    s.usage.success + s.usage.collision + if Busy(s) then s.now - s.usage.busySince else 0.0
  }

  /** Time spent with the channel idle, summed over the run. */
  function IdleTime(run: Run): real {
    match run
    case Boot(_) => 0.0
    case Next(b, t, _) =>
      IdleTime(b) + if Final(b).Ok? && !Busy(Final(b).value) then t - Final(b).value.now else 0.0
  }

  predicate SoundUsage(s: Mac) {
    s.usage.success >= 0.0 && s.usage.collision >= 0.0 && s.usage.busySince <= s.now
  }

  /** Handling an event takes no simulated time and moves time only between the totals. */
  predicate SameAccount(s: Mac, r: Mac) {
    r.now == s.now && Accounted(r) == Accounted(s) && (SoundUsage(s) ==> SoundUsage(r))
  }

  lemma UpperAccounted(s: Mac, f: Frame)
    requires ProcessFromUpper(s, f).Ok?
    ensures SameAccount(s, ProcessFromUpper(s, f).value)
  {
  }

  lemma AutoconfigAccounted(s: Mac, ev: Event)
    requires HandleAutoconfig(s, ev).Ok? && Quiet(s)
    ensures SameAccount(s, HandleAutoconfig(s, ev).value)
  {
    if ev.FromUpper? {
      UpperAccounted(s, ev.frame);
    }
  }

  lemma NetworkAccounted(s: Mac, msg: NetMsg)
    requires Inv(s) && !s.mode.autoconf && ProcessFromNetwork(s, msg).Ok?
    ensures SameAccount(s, ProcessFromNetwork(s, msg).value)
  {
    if s.receiving.Some? {
      ReceptionTransition(Cancel(s, EndRx).(receiving := None), s.receiving.value);
    }
  }

  lemma StartAccounted(s: Mac)
    requires StartFrameTransmission(s).Ok?
    ensures var r := StartFrameTransmission(s).value;
            && r.usage.success == s.usage.success && r.usage.collision == s.usage.collision && r.now == s.now
            && (r.rx.RxIdle? <==> s.rx.RxIdle?)
            && r.usage.busySince == if !s.mode.duplex && s.rx.RxIdle? then s.now else s.usage.busySince
  {
  }

  lemma EndIfgAccounted(s: Mac)
    requires HandleEndIfg(s).Ok?
    ensures SameAccount(s, HandleEndIfg(s).value)
  {
    StartTransition(PrepareHead(s));
    StartAccounted(PrepareHead(s));
  }

  lemma EndTxAccounted(s: Mac)
    requires HandleEndTx(s).Ok?
    ensures SameAccount(s, HandleEndTx(s).value)
  {
    var s1 := FinishHead(s);
    if s1.pauseRequested <= 0 && s1.queue != [] && StartFrameTransmission(s1).Ok? {
      StartTransition(s1);
      StartAccounted(s1);
    }
  }

  lemma EndRxAccounted(s: Mac)
    requires HandleEndRx(s).Ok? && !s.rx.RxIdle? && (s.mode.duplex || !s.tx.Transmitting?)
    ensures SameAccount(s, HandleEndRx(s).value)
  {
    if s.rx.Receiving? {
      ReceptionTransition(s.(receiving := None), s.receiving.value);
    }
  }

  lemma TimerAccounted(s: Mac, t: real, ev: Event)
    requires Inv(s) && Enabled(s, t, ev) && ev.Expire? && !s.mode.autoconf && Step(s, t, ev).Ok?
    ensures SameAccount(Arrive(s, t, ev), Step(s, t, ev).value)
  {
    var s1 := Arrive(s, t, ev);
    match ev.timer
    case EndIfg => EndIfgAccounted(s1);
    case EndTx => EndTxAccounted(s1);
    case EndRx => EndRxAccounted(s1);
    case _ =>
  }

  lemma StepAccounted(s: Mac, t: real, ev: Event)
    requires Inv(s) && Enabled(s, t, ev) && Step(s, t, ev).Ok?
    ensures SameAccount(Arrive(s, t, ev), Step(s, t, ev).value)
  {
    var s1 := Arrive(s, t, ev);
    if s.mode.autoconf {
      AutoconfigAccounted(s1, ev);
    } else {
      match ev
      case FromUpper(f) => UpperAccounted(s1, f);
      case FromNetwork(msg) => NetworkAccounted(s1, msg);
      case Expire(_, _) => TimerAccounted(s, t, ev);
    }
  }

  /**
   At every point of every run the clock splits exactly into successful time, collision time, idle time
   and the busy period in progress; so the idle time reported at the end is never negative, and is the
   true idle time if the channel is then idle.
   */
  lemma {:induction false} TimeAccounted(run: Run)
    requires Possible(run) && Final(run).Ok?
    ensures var s := Final(run).value;
            && s.now == Accounted(s) + IdleTime(run)
            && SoundUsage(s) && IdleTime(run) >= 0.0
            && s.now - s.usage.success - s.usage.collision >= IdleTime(run)
            && (!Busy(s) ==> s.now - s.usage.success - s.usage.collision == IdleTime(run))
  {
    match run
    case Boot(cfg) =>
    case Next(b, t, ev) =>
      TimeAccounted(b);
      RunSafe(b);
      var s := Final(b).value;
      StepAccounted(s, t, ev);
      assert Accounted(Arrive(s, t, ev)) == Accounted(s) + if Busy(s) then t - s.now else 0.0;
  }
}
