/**
 Runs that show the exceptions in the MAC's theorems are real: ordinary frames on connected 10 Mb/s stations.
 */
module EtherMacWitness {
  import opened Simulation
  import opened EtherMac
  import opened EtherMacHistory
  import opened EtherMacTheorems

  const DATA_FRAME := Frame(1, 2, 1, 64, false, Data)
  const PAUSE_FRAME := Frame(2, 2, 1, 64, false, Pause(1))

  const BIT := 1.0 / 10000000.0

  /** The parameters of 10 Mb/s operation. */
  function TenMegabit(): Params {
    Params(BIT, 512.0 / 10000000.0, 96.0 / 10000000.0, Duration(32, BIT), 64.0, false, false)
  }

  /** A connected station at 10 Mb/s after autoconfiguration. */
  ghost predicate Operating(s: Mac, duplex: bool) {
    && s.cfg == Config(true, false, 1, 0, 10000000.0, duplex)
    && !s.mode.autoconf && s.mode.duplex == duplex && s.mode.params == TenMegabit()
  }

  const FULL_DUPLEX := Config(true, false, 1, 0, 10000000.0, true)
  const HALF_DUPLEX := Config(true, false, 1, 0, 10000000.0, false)

  /** The run goes on by one possible event. */
  lemma Extend(run: Run, t: real, ev: Event, s: Mac) returns (next: Run)
    requires Possible(run) && Final(run).Ok? && Enabled(Final(run).value, t, ev) && Step(Final(run).value, t, ev) == Ok(s)
    ensures next == Next(run, t, ev) && Possible(next) && Final(next) == Ok(s)
  {
    next := Next(run, t, ev);
  }

  // ---------- A PAUSE frame submitted during a transmission ----------

  lemma OvertakingBegins() returns (r: Run)
    ensures Possible(r) && Final(r).Ok?
    ensures var s := Final(r).value;
            && Operating(s, true) && s.tx == WaitIfg && s.rx == RxIdle && s.queue == [DATA_FRAME]
            && s.timers == map[EndIfg := s.now + TenMegabit().interFrameGap] && s.pauseRequested == 0
            && Finished(s.log) == []
  {
    var r0 := Boot(FULL_DUPLEX);
    assert Final(r0).value.timers == map[EndAutoconfig := AUTOCONFIG_PERIOD];
    var r1 := Next(r0, 0.0, FromUpper(DATA_FRAME));
    assert Possible(r1) && Final(r1).value.timers == map[EndAutoconfig := AUTOCONFIG_PERIOD];
    assert Finished(Final(r1).value.log) == [];
    r := Next(r1, AUTOCONFIG_PERIOD, Expire(EndAutoconfig, 0));
  }

  /** The data frame is on the wire until e; `q` is queued. */
  ghost predicate Sending(s: Mac, q: seq<Frame>, e: real) {
    && Operating(s, true) && s.tx == Transmitting && s.rx == RxIdle && s.queue == q && s.pauseRequested == 0
    && s.timers == map[EndTx := e] && s.now <= e
  }

  lemma OvertakingSends(s: Mac, t: real) returns (r: Mac)
    requires Operating(s, true) && s.tx == WaitIfg && s.rx == RxIdle && s.queue == [DATA_FRAME] && s.pauseRequested == 0
    requires s.timers == map[EndIfg := t] && s.now <= t
    ensures Enabled(s, t, Expire(EndIfg, 0)) && Step(s, t, Expire(EndIfg, 0)) == Ok(r)
    ensures Sending(r, [DATA_FRAME], t + Duration(576, BIT)) && r.now == t
    ensures r.log == Then(s.log, Wire(WithPreamble(DATA_FRAME)))
  {
    r := Step(s, t, Expire(EndIfg, 0)).value;
  }

  lemma OvertakingInserts(s: Mac, e: real) returns (r: Mac)
    requires Sending(s, [DATA_FRAME], e)
    ensures Enabled(s, s.now, FromUpper(PAUSE_FRAME)) && Step(s, s.now, FromUpper(PAUSE_FRAME)) == Ok(r)
    ensures Sending(r, [PAUSE_FRAME, DATA_FRAME], e) && r.log == Then(s.log, Accept(PAUSE_FRAME))
  {
    r := Step(s, s.now, FromUpper(PAUSE_FRAME)).value;
  }

  lemma OvertakingFinishes(s: Mac, t: real) returns (r: Mac)
    requires Sending(s, [PAUSE_FRAME, DATA_FRAME], t)
    ensures Enabled(s, t, Expire(EndTx, 0)) && Step(s, t, Expire(EndTx, 0)) == Ok(r)
    ensures r.queue == [DATA_FRAME] && r.log == Then(s.log, Complete(PAUSE_FRAME))
  {
    r := Step(s, t, Expire(EndTx, 0)).value;
  }

  /** What the log says at the end. */
  lemma OvertakingReadings(l: Log, w: Frame, f: Frame)
    requires Finished(l) == [] && f.kind.Pause?
    ensures Finished(Then(Then(Then(l, Wire(w)), Accept(f)), Complete(f))) == [f]
    ensures LastOnWire(Then(Then(Then(l, Wire(w)), Accept(f)), Complete(f))) == Some(w)
  {
    assert Finished(Then(Then(l, Wire(w)), Accept(f))) == Finished(Then(l, Wire(w)));
    assert LastOnWire(Then(Then(l, Wire(w)), Accept(f))) == Some(w);
  }

  lemma OvertakingRun(r1: Run) returns (r: Run)
    requires Possible(r1) && Final(r1).Ok?
    requires var s := Final(r1).value;
             && Operating(s, true) && s.tx == WaitIfg && s.rx == RxIdle && s.queue == [DATA_FRAME]
             && s.timers == map[EndIfg := s.now + TenMegabit().interFrameGap] && s.pauseRequested == 0
    ensures Possible(r) && Final(r).Ok? && Final(r).value.queue == [DATA_FRAME]
    ensures Final(r).value.log ==
            Then(Then(Then(Final(r1).value.log, Wire(WithPreamble(DATA_FRAME))), Accept(PAUSE_FRAME)), Complete(PAUSE_FRAME))
  {
    var s1 := Final(r1).value;
    var t := s1.now + TenMegabit().interFrameGap;
    var s2 := OvertakingSends(s1, t);
    r := Extend(r1, t, Expire(EndIfg, 0), s2);
    var s3 := OvertakingInserts(s2, t + Duration(576, BIT));
    r := Extend(r, t, FromUpper(PAUSE_FRAME), s3);
    var s4 := OvertakingFinishes(s3, t + Duration(576, BIT));
    r := Extend(r, t + Duration(576, BIT), Expire(EndTx, 0), s4);
  }

  /** The data frame is on the wire, but it is the PAUSE frame that is counted as sent and removed. */
  lemma PauseOvertakes() returns (r: Run)
    ensures Possible(r) && Final(r).Ok?
    ensures Finished(Final(r).value.log) == [PAUSE_FRAME]
    ensures LastOnWire(Final(r).value.log) == Some(WithPreamble(DATA_FRAME))
    ensures Final(r).value.queue == [DATA_FRAME]
  {
    var r1 := OvertakingBegins();
    r := OvertakingRun(r1);
    OvertakingReadings(Final(r1).value.log, WithPreamble(DATA_FRAME), PAUSE_FRAME);
  }

  // ---------- Seventeen collisions in a row ----------

  /** A frame of another station arrives, 72 octets with its preamble, after ten bit times on the cable. */
  function Foreign(t: real, src: Address): Event {
    FromNetwork(FrameMsg(Frame(0, 3, src, 72, false, Data), t - 10.0 * BIT))
  }

  /** The jam signal of another station arrives. */
  function ForeignJam(t: real): Event {
    FromNetwork(JamMsg(JAM_SIGNAL_BYTES, t - 10.0 * BIT))
  }

  ghost predicate Contending(s: Mac, k: nat) {
    Operating(s, false) && |s.queue| == 2 && s.backoffs == k
  }

  ghost predicate AboutToSend(s: Mac, k: nat) {
    && Contending(s, k) && s.tx.WaitIfg? && s.rx.RxIdle? && s.receiving.None? && s.concurrent == 0
    && s.timers == map[EndIfg := s.now + 96.0 * BIT]
  }

  /** In the gap before sending at time g, with `concurrent` foreign transmissions on the air until e. */
  ghost predicate Hearing(s: Mac, k: nat, g: real, concurrent: int, e: real) {
    && Contending(s, k) && s.tx.WaitIfg? && !s.rx.RxIdle? && s.concurrent == concurrent
    && (s.receiving.Some? <==> s.rx.Receiving?) && (s.rx.Receiving? <==> concurrent == 1 && e == s.now + Duration(576, BIT))
    && s.timers == map[EndIfg := g, EndRx := e]
  }

  ghost predicate Colliding(s: Mac, k: nat, e: real) {
    && Contending(s, k) && s.tx.Jamming? && s.rx.RxCollision? && s.receiving.None?
    && s.timers == map[EndRx := e, EndJam := s.now + 32.0 * BIT] && s.now <= e < s.now + 32.0 * BIT
  }

  ghost predicate Jammed(s: Mac, k: nat) {
    && Contending(s, k) && s.tx.Jamming? && s.rx.RxIdle? && s.receiving.None? && s.concurrent == 0
    && EndJam in s.timers && s.timers == map[EndJam := s.timers[EndJam]] && s.now <= s.timers[EndJam]
  }

  ghost predicate BackedOff(s: Mac, k: nat) {
    && Contending(s, k) && s.tx.Backoff? && s.rx.RxIdle? && s.receiving.None? && s.concurrent == 0
    && s.timers == map[EndBackoff := s.now]
  }

  lemma FirstFrame(s: Mac, k: nat, t: real) returns (r: Mac)
    requires AboutToSend(s, k) && t == s.now + 36.0 * BIT
    ensures Enabled(s, t, Foreign(t, 4)) && Step(s, t, Foreign(t, 4)) == Ok(r) && r.now == t
    ensures Hearing(r, k, t + 60.0 * BIT, 1, t + Duration(576, BIT))
  {
    r := Step(s, t, Foreign(t, 4)).value;
  }

  lemma SecondFrame(s: Mac, k: nat, g: real, t: real) returns (r: Mac)
    requires Hearing(s, k, g, 1, s.now + Duration(576, BIT)) && s.now == g - 60.0 * BIT && t == g - 50.0 * BIT
    ensures Enabled(s, t, Foreign(t, 5)) && Step(s, t, Foreign(t, 5)) == Ok(r) && r.now == t
    ensures Hearing(r, k, g, 2, t + Duration(576, BIT))
  {
    r := Step(s, t, Foreign(t, 5)).value;
  }

  lemma FirstJam(s: Mac, k: nat, g: real, t: real) returns (r: Mac)
    requires Hearing(s, k, g, 2, s.now + Duration(576, BIT)) && s.now == g - 50.0 * BIT && t == g - 40.0 * BIT
    ensures Enabled(s, t, ForeignJam(t)) && Step(s, t, ForeignJam(t)) == Ok(r) && r.now == t
    ensures Hearing(r, k, g, 1, s.now + Duration(576, BIT))
  {
    r := Step(s, t, ForeignJam(t)).value;
  }

  /** The last jam ends everything on the air 32 bit times later. */
  lemma SecondJam(s: Mac, k: nat, g: real, e: real, t: real) returns (r: Mac)
    requires Hearing(s, k, g, 1, e) && s.rx.RxCollision? && s.now == g - 40.0 * BIT && g <= e && t == g - 16.0 * BIT
    ensures Enabled(s, t, ForeignJam(t)) && Step(s, t, ForeignJam(t)) == Ok(r) && r.now == t
    ensures Hearing(r, k, g, 0, g + 16.0 * BIT)
  {
    r := Step(s, t, ForeignJam(t)).value;
  }

  lemma SendsIntoJam(s: Mac, k: nat, g: real) returns (r: Mac)
    requires Hearing(s, k, g, 0, g + 16.0 * BIT) && s.now <= g
    ensures Enabled(s, g, Expire(EndIfg, 0)) && Step(s, g, Expire(EndIfg, 0)) == Ok(r) && r.now == g
    ensures Colliding(r, k, g + 16.0 * BIT)
  {
    r := Step(s, g, Expire(EndIfg, 0)).value;
  }

  lemma AirClears(s: Mac, k: nat, e: real) returns (r: Mac)
    requires Colliding(s, k, e)
    ensures Enabled(s, e, Expire(EndRx, 0)) && Step(s, e, Expire(EndRx, 0)) == Ok(r) && Jammed(r, k)
  {
    r := Step(s, e, Expire(EndRx, 0)).value;
    assert r.timers == map[EndJam := s.timers[EndJam]];
  }

  lemma HearCollision(run: Run, k: nat) returns (r: Run, g: real)
    requires Possible(run) && Final(run).Ok? && AboutToSend(Final(run).value, k)
    ensures Possible(r) && Final(r).Ok? && Hearing(Final(r).value, k, g, 0, g + 16.0 * BIT) && Final(r).value.now <= g
  {
    var s := Final(run).value;
    g := s.now + 96.0 * BIT;
    var s1 := FirstFrame(s, k, g - 60.0 * BIT);
    r := Extend(run, g - 60.0 * BIT, Foreign(g - 60.0 * BIT, 4), s1);
    var s2 := SecondFrame(s1, k, g, g - 50.0 * BIT);
    r := Extend(r, g - 50.0 * BIT, Foreign(g - 50.0 * BIT, 5), s2);
    var s3 := FirstJam(s2, k, g, g - 40.0 * BIT);
    r := Extend(r, g - 40.0 * BIT, ForeignJam(g - 40.0 * BIT), s3);
    var s4 := SecondJam(s3, k, g, s2.now + Duration(576, BIT), g - 16.0 * BIT);
    r := Extend(r, g - 16.0 * BIT, ForeignJam(g - 16.0 * BIT), s4);
  }

  /** Two stations collide during our gap; we send into the end of their jams and collide too. */
  lemma CollideOnce(run: Run, k: nat) returns (r: Run)
    requires Possible(run) && Final(run).Ok? && AboutToSend(Final(run).value, k)
    ensures Possible(r) && Final(r).Ok? && Jammed(Final(r).value, k)
  {
    var g;
    r, g := HearCollision(run, k);
    var s := SendsIntoJam(Final(r).value, k, g);
    r := Extend(r, g, Expire(EndIfg, 0), s);
    var s1 := AirClears(s, k, g + 16.0 * BIT);
    r := Extend(r, g + 16.0 * BIT, Expire(EndRx, 0), s1);
  }

  lemma JamEnds(s: Mac, k: nat) returns (r: Mac)
    requires Jammed(s, k) && k < MAX_ATTEMPTS
    ensures Enabled(s, s.timers[EndJam], Expire(EndJam, 0)) && Step(s, s.timers[EndJam], Expire(EndJam, 0)) == Ok(r)
    ensures BackedOff(r, k + 1)
  {
    r := Step(s, s.timers[EndJam], Expire(EndJam, 0)).value;
  }

  lemma BackoffEnds(s: Mac, k: nat) returns (r: Mac)
    requires BackedOff(s, k)
    ensures Enabled(s, s.now, Expire(EndBackoff, 0)) && Step(s, s.now, Expire(EndBackoff, 0)) == Ok(r) && AboutToSend(r, k)
  {
    r := Step(s, s.now, Expire(EndBackoff, 0)).value;
  }

  lemma BackOffOnce(run: Run, k: nat) returns (r: Run)
    requires Possible(run) && Final(run).Ok? && Jammed(Final(run).value, k) && k < MAX_ATTEMPTS
    ensures Possible(r) && Final(r).Ok? && AboutToSend(Final(r).value, k + 1)
  {
    var s := Final(run).value;
    var s1 := JamEnds(s, k);
    var s2 := BackoffEnds(s1, k + 1);
    r := Extend(run, s.timers[EndJam], Expire(EndJam, 0), s1);
    r := Extend(r, s1.now, Expire(EndBackoff, 0), s2);
  }

  lemma {:induction false} CollideRepeatedly(run: Run, k: nat) returns (r: Run)
    requires Possible(run) && Final(run).Ok? && AboutToSend(Final(run).value, k) && k <= MAX_ATTEMPTS
    ensures Possible(r) && Final(r).Ok? && Jammed(Final(r).value, MAX_ATTEMPTS)
    decreases MAX_ATTEMPTS - k
  {
    r := CollideOnce(run, k);
    if k < MAX_ATTEMPTS {
      r := BackOffOnce(r, k);
      r := CollideRepeatedly(r, k + 1);
    }
  }

  lemma FirstSend() returns (r: Run)
    ensures Possible(r) && Final(r).Ok? && AboutToSend(Final(r).value, 0)
  {
    var r0 := Boot(HALF_DUPLEX);
    assert Final(r0).value.timers == map[EndAutoconfig := AUTOCONFIG_PERIOD];
    var r1 := Next(r0, 0.0, FromUpper(DATA_FRAME));
    assert Possible(r1) && Final(r1).value.timers == map[EndAutoconfig := AUTOCONFIG_PERIOD];
    var r2 := Next(r1, 0.0, FromUpper(DATA_FRAME));
    assert Possible(r2) && Final(r2).value.timers == map[EndAutoconfig := AUTOCONFIG_PERIOD];
    r := Next(r2, AUTOCONFIG_PERIOD, Expire(EndAutoconfig, 0));
  }

  lemma GivesUp(s: Mac) returns (r: Mac)
    requires Jammed(s, MAX_ATTEMPTS)
    ensures Enabled(s, s.timers[EndJam], Expire(EndJam, 0)) && Step(s, s.timers[EndJam], Expire(EndJam, 0)) == Ok(r)
    ensures Stalled(r) && r.timers == map[]
  {
    r := Step(s, s.timers[EndJam], Expire(EndJam, 0)).value;
  }

  /** A frame waits, transmitter and receiver are idle, and nothing is scheduled. */
  lemma WakeUpCanBeLost() returns (r: Run)
    ensures Possible(r) && Final(r).Ok?
    ensures Stalled(Final(r).value) && Final(r).value.timers == map[]
  {
    r := FirstSend();
    r := CollideRepeatedly(r, 0);
    var s := Final(r).value;
    var idle := GivesUp(s);
    r := Extend(r, s.timers[EndJam], Expire(EndJam, 0), idle);
  }

  // ---------- A zero-unit PAUSE while paused ----------

  function PauseMessage(units: int): Frame {
    Frame(0, 0x0180_C200_0001, 4, 72, false, Pause(units))
  }

  function PauseFrom(t: real, units: int): Event {
    FromNetwork(FrameMsg(PauseMessage(units), t - 10.0 * BIT))
  }

  ghost predicate Quiescent(s: Mac) {
    Operating(s, true) && s.queue == []
  }

  /** Between two events at `now`: the receiver is idle, the transmitter idle or paused. */
  ghost predicate Rests(s: Mac, now: real, paused: bool, timers: map<Timer, real>) {
    && Quiescent(s) && s.now == now && s.rx.RxIdle? && s.receiving.None? && s.timers == timers
    && if paused then s.tx.Paused? else s.tx.TxIdle?
  }

  /** A PAUSE frame is being received until `end`. */
  ghost predicate Hears(s: Mac, now: real, paused: bool, timers: map<Timer, real>, units: int, end: real) {
    && Quiescent(s) && s.now == now && s.rx.Receiving? && s.receiving == Some(PauseMessage(units))
    && s.timers == timers[EndRx := end]
    && if paused then s.tx.Paused? else s.tx.TxIdle?
  }

  ghost predicate Resting(run: Run, now: real, paused: bool, timers: map<Timer, real>) {
    Possible(run) && Final(run).Ok? && Rests(Final(run).value, now, paused, timers)
  }

  ghost predicate HearsPause(run: Run, now: real, paused: bool, timers: map<Timer, real>, units: int, end: real) {
    Possible(run) && Final(run).Ok? && Hears(Final(run).value, now, paused, timers, units, end)
  }

  lemma QuietStart() returns (r: Run, t: real)
    ensures Resting(r, t, false, map[])
  {
    var r0 := Boot(FULL_DUPLEX);
    assert Final(r0).value.timers == map[EndAutoconfig := AUTOCONFIG_PERIOD];
    r := Next(r0, AUTOCONFIG_PERIOD, Expire(EndAutoconfig, 0));
    t := AUTOCONFIG_PERIOD;
  }

  lemma ArrivesStep(s: Mac, t: real, paused: bool, timers: map<Timer, real>, units: int) returns (r: Mac)
    requires Rests(s, t, paused, timers) && EndRx !in timers && forall k :: k in timers ==> timers[k] >= t
    ensures Enabled(s, t, PauseFrom(t, units)) && Step(s, t, PauseFrom(t, units)) == Ok(r)
    ensures Hears(r, t, paused, timers, units, t + Duration(576, BIT))
  {
    r := Step(s, t, PauseFrom(t, units)).value;
  }

  lemma PauseArrives(run: Run, t: real, paused: bool, timers: map<Timer, real>, units: int) returns (r: Run)
    requires Resting(run, t, paused, timers) && EndRx !in timers && forall k :: k in timers ==> timers[k] >= t
    ensures HearsPause(r, t, paused, timers, units, t + Duration(576, BIT))
  {
    var s := ArrivesStep(Final(run).value, t, paused, timers, units);
    r := Extend(run, t, PauseFrom(t, units), s);
  }

  lemma BeginsStep(s: Mac, t: real) returns (r: Mac)
    requires Quiescent(s) && s.tx.TxIdle? && s.rx.Receiving? && s.receiving == Some(PauseMessage(2))
    requires s.timers == map[EndRx := t] && s.now <= t
    ensures Enabled(s, t, Expire(EndRx, 0)) && Step(s, t, Expire(EndRx, 0)) == Ok(r)
    ensures Quiescent(r) && r.now == t && r.tx.Paused? && r.rx.RxIdle? && r.receiving.None?
    ensures r.timers == map[EndPause := t + Duration(1024, BIT)]
  {
    r := Step(s, t, Expire(EndRx, 0)).value;
  }

  /** A PAUSE of two units, longer than the next PAUSE frame takes. */
  lemma PauseBegins(run: Run, t: real, end: real) returns (r: Run)
    requires HearsPause(run, t, false, map[], 2, end) && t <= end
    ensures Resting(r, end, true, map[EndPause := end + Duration(1024, BIT)])
  {
    var s := BeginsStep(Final(run).value, end);
    r := Extend(run, end, Expire(EndRx, 0), s);
  }

  lemma SticksStep(s: Mac, t: real, e: real) returns (r: Mac)
    requires Quiescent(s) && s.tx.Paused? && s.rx.Receiving? && s.receiving == Some(PauseMessage(0))
    requires s.timers == map[EndPause := e, EndRx := t] && s.now <= t <= e
    ensures Enabled(s, t, Expire(EndRx, 0)) && Step(s, t, Expire(EndRx, 0)) == Ok(r)
    ensures Quiescent(r) && r.now == t && r.tx.Paused? && r.rx.RxIdle? && r.receiving.None? && r.timers == map[]
  {
    r := Step(s, t, Expire(EndRx, 0)).value;
  }

  lemma PauseSticks(run: Run, t: real, end: real, pause: real) returns (r: Run)
    requires HearsPause(run, t, true, map[EndPause := pause], 0, end) && t <= end <= pause
    ensures Resting(r, end, true, map[])
  {
    var s := SticksStep(Final(run).value, end, pause);
    r := Extend(run, end, Expire(EndRx, 0), s);
  }

  lemma FrameWaits(run: Run, t: real) returns (r: Run)
    requires Resting(run, t, true, map[])
    ensures Possible(r) && Final(r).Ok?
    ensures StuckInPause(Final(r).value) && Final(r).value.mode.duplex
    ensures Final(r).value.queue == [DATA_FRAME] && Final(r).value.timers == map[]
  {
    r := Next(run, t, FromUpper(DATA_FRAME));
  }

  lemma PauseHeard() returns (r: Run, t: real)
    ensures Resting(r, t, true, map[EndPause := t + Duration(1024, BIT)])
  {
    var start;
    r, start := QuietStart();
    t := start + Duration(576, BIT);
    r := PauseArrives(r, start, false, map[], 2);
    r := PauseBegins(r, start, t);
  }

  lemma PauseLost(run: Run, start: real) returns (r: Run, t: real)
    requires Resting(run, start, true, map[EndPause := start + Duration(1024, BIT)])
    ensures Resting(r, t, true, map[])
  {
    var pause := start + Duration(1024, BIT);
    t := start + Duration(576, BIT);
    r := PauseArrives(run, start, true, map[EndPause := pause], 0);
    r := PauseSticks(r, start, t, pause);
  }

  /**
   In PAUSE state, in full duplex, with a frame waiting and no timer left: a PAUSE frame of two units, one of none,
   and a frame from above suffice.
   */
  lemma PauseCanStick() returns (r: Run)
    ensures Possible(r) && Final(r).Ok?
    ensures StuckInPause(Final(r).value) && Final(r).value.mode.duplex
    ensures Final(r).value.queue == [DATA_FRAME] && Final(r).value.timers == map[]
  {
    var t;
    r, t := PauseHeard();
    r, t := PauseLost(r, t);
    r := FrameWaits(r, t);
  }
}
