/**
 The figures of the MAC, written out: rates, gaps and slots, how long frames take, and when a burst goes on.
 */
module EtherMacTiming {
  import opened Simulation
  import opened EtherMac
  import opened EtherMacSafety
  import opened EtherMacHistory
  import opened EtherMacTheorems
  import P = EtherMacPause
  import opened EtherMacReception

  // ---------- Rates ----------

  predicate Standard(rate: real) {
    rate == 10000000.0 || rate == 100000000.0 || rate == 1000000000.0 || rate == 10000000000.0
  }

  /** The parameters that 802.3 wants at a rate. */
  predicate Proper(p: Params, rate: real, duplex: bool) {
    && Standard(rate)
    && p.bitTime * rate == 1.0 && p.interFrameGap * rate == 96.0 && p.jamDuration * rate == 32.0
    && p.slotTime == (if rate <= 100000000.0 then 512.0 / 10000000.0 else 4096.0 / 1000000000.0)
    && (p.bursting <==> rate >= 1000000000.0)
    && (p.carrierExtension <==> rate >= 1000000000.0 && !duplex)
    && p.shortestFrame == if p.carrierExtension then 512.0 else 64.0
  }

  lemma RatesExactly(rate: real, duplex: bool)
    ensures CalculateParameters(true, rate, duplex).Ok? <==> Standard(rate)
    ensures Standard(rate) ==> Proper(CalculateParameters(true, rate, duplex).value, rate, duplex)
  {
    if Standard(rate) {
      var p := CalculateParameters(true, rate, duplex).value;
      assert p.bitTime == 1.0 / rate && p.interFrameGap == 96.0 / rate && p.jamDuration == Duration(32, 1.0 / rate);
      if rate == 10000000.0 {
      } else if rate == 100000000.0 {
      } else if rate == 1000000000.0 {
      } else {
      }
    }
  }

  /** A connected station begins by telling others, if it is half duplex or has a rate of its own. */
  lemma BeginsExactly(cfg: Config)
    ensures Init(cfg).Ok?
    ensures Init(cfg).value.log ==
            if cfg.connected && (!cfg.duplexEnabled || cfg.txrate > 0.0)
            then Then(Start, WireAutoconfig(cfg.txrate, !cfg.duplexEnabled)) else Start
    ensures Init(cfg).value.mode.autoconf <==> cfg.connected
  {
    InitSafe(cfg);
  }

  // ---------- What autoconfiguration settles ----------

  /** The positive rates suggested by others while autoconfiguration goes on, oldest first. */
  function Suggestions(run: Run): seq<real> {
    match run
    case Boot(_) => []
    case Next(b, _, ev) =>
      if Final(b).Ok? && Final(b).value.mode.autoconf && ev.FromNetwork? && ev.msg.AutoconfigMsg? && ev.msg.rate > 0.0
      then Suggestions(b) + [ev.msg.rate] else Suggestions(b)
  }

  /** Someone has said meanwhile that it is half duplex. */
  predicate Vetoed(run: Run) {
    run.Next? &&
    (|| Vetoed(run.before)
     || (Final(run.before).Ok? && Final(run.before).value.mode.autoconf
         && run.ev.FromNetwork? && run.ev.msg.AutoconfigMsg? && run.ev.msg.halfDuplex))
  }

  /** `rate` is the least of the rates, or `default` if there are none. */
  predicate Least(rate: real, rates: seq<real>, default: real) {
    if rates == [] then rate == default
    else rate in rates && forall k :: 0 <= k < |rates| ==> rate <= rates[k]
  }

  function Own(cfg: Config): seq<real> {
    if cfg.txrate == 0.0 then [] else [cfg.txrate]
  }

  /** Rate and duplex mode are what everyone can do. */
  predicate Settled(m: Mode, cfg: Config, rates: seq<real>, vetoed: bool) {
    && Least(m.txrate, Own(cfg) + rates, 100000000.0)
    && (m.duplex <==> cfg.duplexEnabled && !vetoed)
    && Proper(m.params, m.txrate, m.duplex)
  }

  predicate Gathering(m: Mode, rates: seq<real>, vetoed: bool) {
    && Least(m.lowestRate, rates, 0.0) && (m.duplexVetoed <==> vetoed)
    && forall k :: 0 <= k < |rates| ==> rates[k] > 0.0
  }

  predicate Agreed(s: Mac, rates: seq<real>, vetoed: bool) {
    if s.mode.autoconf then
      Gathering(s.mode, rates, vetoed) && EndAutoconfig in s.timers && s.timers[EndAutoconfig] == 0.001
    else Settled(s.mode, s.cfg, rates, vetoed)
  }

  lemma LeastMore(rate: real, rates: seq<real>, x: real)
    requires Least(rate, rates, 0.0) && x > 0.0 && forall k :: 0 <= k < |rates| ==> rates[k] > 0.0
    ensures Least(if x < rate || rate == 0.0 then x else rate, rates + [x], 0.0)
  {
    if rates != [] {
      assert rate > 0.0;
    }
  }

  lemma EndSettles(s: Mac, rates: seq<real>, vetoed: bool)
    requires s.mode.autoconf && Gathering(s.mode, rates, vetoed) && s.cfg.connected
    requires HandleAutoconfig(s, Expire(EndAutoconfig, 0)).Ok?
    ensures Settled(HandleAutoconfig(s, Expire(EndAutoconfig, 0)).value.mode, s.cfg, rates, vetoed)
  {
    var rate := ChooseRate(s.cfg.txrate, s.mode.lowestRate);
    RatesExactly(rate, s.cfg.duplexEnabled && !s.mode.duplexVetoed);
    assert rates != [] ==> s.mode.lowestRate in rates && s.mode.lowestRate > 0.0;
    var all := Own(s.cfg) + rates;
    assert forall k :: 0 <= k < |rates| ==> all[|Own(s.cfg)| + k] == rates[k];
    assert all != [] ==> rate in all;
    assert forall k :: 0 <= k < |all| ==> rate <= all[k];
  }

  lemma StepAgreed(s: Mac, t: real, ev: Event, rates: seq<real>, vetoed: bool)
    requires Inv(s) && Enabled(s, t, ev) && Step(s, t, ev).Ok? && s.cfg.connected && s.mode.autoconf
    requires Agreed(s, rates, vetoed)
    ensures var more := if ev.FromNetwork? && ev.msg.AutoconfigMsg? && ev.msg.rate > 0.0 then rates + [ev.msg.rate] else rates;
            Agreed(Step(s, t, ev).value, more,
                   vetoed || (ev.FromNetwork? && ev.msg.AutoconfigMsg? && ev.msg.halfDuplex))
    ensures Step(s, t, ev).value.cfg == s.cfg
  {
    var s1 := Arrive(s, t, ev);
    match ev
    case FromUpper(f) =>
    case FromNetwork(msg) =>
      if msg.AutoconfigMsg? && msg.rate > 0.0 {
        LeastMore(s.mode.lowestRate, rates, msg.rate);
      }
    case Expire(k, slot) =>
      assert k == EndAutoconfig;
      EndSettles(s1, rates, vetoed);
  }

  function ConfigOf(run: Run): Config {
    match run
    case Boot(cfg) => cfg
    case Next(b, _, _) => ConfigOf(b)
  }

  lemma {:induction false} AgreedInRun(run: Run)
    requires Possible(run) && Final(run).Ok? && ConfigOf(run).connected
    ensures Final(run).value.cfg == ConfigOf(run) && Agreed(Final(run).value, Suggestions(run), Vetoed(run))
  {
    match run
    case Boot(cfg) =>
    case Next(b, t, ev) =>
      AgreedInRun(b);
      RunSafe(b);
      var s := Final(b).value;
      if s.mode.autoconf {
        StepAgreed(s, t, ev, Suggestions(b), Vetoed(b));
      } else {
        StepTransition(s, t, ev);
        StepHears(s, t, ev);
      }
  }

  /**
   In every run of a connected station, after autoconfiguration: the rate is the least of its own, if it has one,
   and those suggested meanwhile, or 100 Mb/s if there is none; it is in duplex mode exactly if that is enabled and
   nobody has objected; and the parameters are those of the rate.
   */
  lemma SettledExactly(run: Run)
    requires Possible(run) && Final(run).Ok? && ConfigOf(run).connected && !Final(run).value.mode.autoconf
    ensures var m := Final(run).value.mode;
            && Least(m.txrate, Own(ConfigOf(run)) + Suggestions(run), 100000000.0)
            && (m.duplex <==> ConfigOf(run).duplexEnabled && !Vetoed(run))
            && Proper(m.params, m.txrate, m.duplex)
  {
    AgreedInRun(run);
  }

  // ---------- Gaps and jams ----------

  /** A timer that was pending is as it was; one that has been set is set to `at`. */
  predicate SetTo(s: Mac, r: Mac, k: Timer, at: real) {
    k in r.timers ==> r.timers[k] == if k in s.timers then s.timers[k] else at
  }

  lemma StartGap(s: Mac)
    requires StartFrameTransmission(s).Ok?
    ensures SetTo(s, StartFrameTransmission(s).value, EndIfg, s.now)
    ensures SetTo(s, StartFrameTransmission(s).value, EndJam, s.now + s.mode.params.jamDuration)
  {
  }

  lemma NetworkGap(s: Mac, msg: NetMsg)
    requires ProcessFromNetwork(s, msg).Ok?
    ensures SetTo(s, ProcessFromNetwork(s, msg).value, EndIfg, s.now + s.mode.params.interFrameGap)
  {
  }

  lemma NetworkJam(s: Mac, msg: NetMsg)
    requires ProcessFromNetwork(s, msg).Ok?
    ensures SetTo(s, ProcessFromNetwork(s, msg).value, EndJam, s.now + s.mode.params.jamDuration)
  {
  }

  lemma EndTxGap(s: Mac)
    requires HandleEndTx(s).Ok?
    ensures SetTo(s, HandleEndTx(s).value, EndIfg, s.now + s.mode.params.interFrameGap)
    ensures SetTo(s, HandleEndTx(s).value, EndJam, s.now + s.mode.params.jamDuration)
  {
    var s1 := FinishHead(s);
    if s1.pauseRequested <= 0 && s1.queue != [] && StartFrameTransmission(s1).Ok? {
      StartGap(s1);
    }
  }

  lemma UpperGap(s: Mac, f: Frame)
    requires ProcessFromUpper(s, f).Ok?
    ensures SetTo(s, ProcessFromUpper(s, f).value, EndIfg, s.now + s.mode.params.interFrameGap)
    ensures SetTo(s, ProcessFromUpper(s, f).value, EndJam, s.now + s.mode.params.jamDuration)
  {
  }

  lemma EndRxGap(s: Mac)
    requires HandleEndRx(s).Ok?
    ensures SetTo(s, HandleEndRx(s).value, EndIfg, s.now + s.mode.params.interFrameGap)
    ensures SetTo(s, HandleEndRx(s).value, EndJam, s.now + s.mode.params.jamDuration)
  {
  }

  lemma OtherGap(s: Mac, k: Timer, slot: nat)
    requires HandleTimer(s, k, slot).Ok? && (k.EndBackoff? || k.EndJam? || k.EndPause?)
    ensures SetTo(s, HandleTimer(s, k, slot).value, EndIfg, s.now + s.mode.params.interFrameGap)
    ensures SetTo(s, HandleTimer(s, k, slot).value, EndJam, s.now + s.mode.params.jamDuration)
  {
  }

  lemma EndIfgGap(s: Mac)
    requires HandleEndIfg(s).Ok? && EndIfg !in s.timers
    ensures EndIfg !in HandleEndIfg(s).value.timers
    ensures SetTo(s, HandleEndIfg(s).value, EndJam, s.now + s.mode.params.jamDuration)
  {
    StartGap(PrepareHead(s));
  }

  /** Every gap is 96 bit times long, and every jam 32, from when the timer is set. */
  lemma StepGap(s: Mac, t: real, ev: Event)
    requires Inv(s) && Enabled(s, t, ev) && Step(s, t, ev).Ok? && !s.mode.autoconf
    ensures var s1, r := Arrive(s, t, ev), Step(s, t, ev).value;
            SetTo(s1, r, EndIfg, t + s.mode.params.interFrameGap) && SetTo(s1, r, EndJam, t + s.mode.params.jamDuration)
  {
    var s1 := Arrive(s, t, ev);
    match ev
    case FromUpper(f) => UpperGap(s1, f);
    case FromNetwork(msg) =>
      NetworkGap(s1, msg);
      NetworkJam(s1, msg);
    case Expire(EndIfg, _) => EndIfgGap(s1);
    case Expire(EndTx, _) => EndTxGap(s1);
    case Expire(EndRx, _) => EndRxGap(s1);
    case Expire(k, slot) => OtherGap(s1, k, slot);
  }

  // ---------- How long a transmission takes ----------

  /** When a frame was put on the wire last. */
  function SentAt(run: Run): real {
    match run
    case Boot(_) => 0.0
    case Next(b, t, _) =>
      if Final(b).Ok? && Final(run).Ok? && |OnWire(Final(run).value.log)| > |OnWire(Final(b).value.log)| then t else SentAt(b)
  }

  /** The transmission goes on, or one has begun, of the frame now last on the wire. */
  ghost predicate TxMoves(s: Mac, t: real, r: Mac) {
    r.tx.Transmitting? ==>
      && EndTx in r.timers
      && if OnWire(r.log) == OnWire(s.log) then
           && s.tx.Transmitting? && EndTx in s.timers && r.timers[EndTx] == s.timers[EndTx]
           && LastOnWire(r.log) == LastOnWire(s.log)
         else
           && |OnWire(r.log)| > |OnWire(s.log)| && LastOnWire(r.log).Some?
           && r.timers[EndTx] == t + Duration(8 * LastOnWire(r.log).value.byteLength, r.mode.params.bitTime)
  }

  lemma StartTx(s: Mac)
    requires StartFrameTransmission(s).Ok?
    ensures TxMoves(s, s.now, StartFrameTransmission(s).value)
  {
  }

  lemma NetworkTx(s: Mac, msg: NetMsg)
    requires Inv(s) && !s.mode.autoconf && ProcessFromNetwork(s, msg).Ok?
    ensures TxMoves(s, s.now, ProcessFromNetwork(s, msg).value)
  {
    NetworkTransition(s, msg);
  }

  lemma EndTxTx(s: Mac)
    requires HandleEndTx(s).Ok?
    ensures TxMoves(s, s.now, HandleEndTx(s).value)
  {
    var s1 := FinishHead(s);
    assert OnWire(s1.log) == OnWire(s.log);
    if s1.pauseRequested <= 0 && s1.queue != [] && StartFrameTransmission(s1).Ok? {
      StartTx(s1);
    }
  }

  lemma StepTx(s: Mac, t: real, ev: Event)
    requires Inv(s) && Enabled(s, t, ev) && Step(s, t, ev).Ok?
    ensures TxMoves(s, t, Step(s, t, ev).value)
  {
    var s1 := Arrive(s, t, ev);
    if !s.mode.autoconf {
      match ev
      case FromUpper(f) => UpperTransition(s1, f);
      case FromNetwork(msg) => NetworkTx(s1, msg);
      case Expire(EndIfg, _) => StartTx(PrepareHead(s1));
      case Expire(EndTx, _) => EndTxTx(s1);
      case Expire(EndRx, _) => EndRxTransition(s1);
      case Expire(_, _) =>
    }
  }

  lemma {:induction false} TxTimed(run: Run)
    requires Possible(run) && Final(run).Ok?
    ensures var s := Final(run).value;
            s.tx.Transmitting? ==>
              && EndTx in s.timers && LastOnWire(s.log).Some?
              && s.timers[EndTx] == SentAt(run) + Duration(8 * LastOnWire(s.log).value.byteLength, s.mode.params.bitTime)
  {
    match run
    case Boot(cfg) =>
    case Next(b, t, ev) =>
      TxTimed(b);
      RunSafe(b);
      StepTx(Final(b).value, t, ev);
      StepTransition(Final(b).value, t, ev);
  }

  /**
   In every run, a transmission ends 8 * (length + 8) bit times after its frame was put on the wire, where the
   length is that of the frame in the queue: preamble and delimiter are sent too.
   */
  lemma TransmissionTakes(run: Run)
    requires Possible(run) && Final(run).Ok? && Final(run).value.tx.Transmitting?
    ensures var s := Final(run).value;
            var k := PausesSinceWire(s.log);
            && EndTx in s.timers && k < |s.queue|
            && s.timers[EndTx] == SentAt(run) + Duration(8 * (s.queue[k].byteLength + 8), s.mode.params.bitTime)
  {
    TxTimed(run);
    WireRun(run);
    WireLength(Final(run).value);
    var s := Final(run).value;
    SameEnd(s.timers[EndTx], SentAt(run), LastOnWire(s.log).value.byteLength, s.queue[PausesSinceWire(s.log)].byteLength,
            s.mode.params.bitTime);
  }

  lemma SameEnd(end: real, start: real, wire: nat, length: nat, unit: real)
    requires end == start + Duration(8 * wire, unit) && wire == length + 8
    ensures end == start + Duration(8 * (length + 8), unit)
  {
  }

  lemma WireLength(s: Mac)
    requires WireMatchesQueue(s) && s.tx.Transmitting?
    ensures PausesSinceWire(s.log) < |s.queue| && LastOnWire(s.log).Some?
    ensures LastOnWire(s.log).value.byteLength == s.queue[PausesSinceWire(s.log)].byteLength + 8
  {
  }

  // ---------- How long a reception takes ----------

  /** When a frame arrived from the network last, once autoconfiguration is over. */
  function HeardAt(run: Run): real {
    match run
    case Boot(_) => 0.0
    case Next(b, t, FromNetwork(FrameMsg(_, _))) => if Final(b).Ok? && !Final(b).value.mode.autoconf then t else HeardAt(b)
    case Next(b, _, _) => HeardAt(b)
  }

  /** The reception goes on, or that of the frame just arrived has begun. */
  ghost predicate RxMoves(s: Mac, t: real, ev: Event, r: Mac) {
    r.rx.Receiving? ==>
      && EndRx in r.timers
      && if ev.FromNetwork? && ev.msg.FrameMsg? then
           r.timers[EndRx] == t + Duration(8 * ev.msg.frame.byteLength, r.mode.params.bitTime)
         else s.rx.Receiving? && EndRx in s.timers && r.timers[EndRx] == s.timers[EndRx]
  }

  lemma NetworkRx(s: Mac, t: real, msg: NetMsg)
    requires Inv(s) && Enabled(s, t, FromNetwork(msg)) && Step(s, t, FromNetwork(msg)).Ok? && !s.mode.autoconf
    ensures RxMoves(s, t, FromNetwork(msg), Step(s, t, FromNetwork(msg)).value)
  {
  }

  lemma EndTxRx(s: Mac)
    requires HandleEndTx(s).Ok?
    ensures var r := HandleEndTx(s).value;
            r.rx.Receiving? ==>
              s.rx.Receiving? && (EndRx in r.timers <==> EndRx in s.timers)
              && (EndRx in s.timers ==> r.timers[EndRx] == s.timers[EndRx])
  {
  }

  lemma StepRx(s: Mac, t: real, ev: Event)
    requires Inv(s) && Enabled(s, t, ev) && Step(s, t, ev).Ok? && !s.mode.autoconf
    ensures RxMoves(s, t, ev, Step(s, t, ev).value)
  {
    match ev
    case FromUpper(f) =>
    case FromNetwork(msg) => NetworkRx(s, t, msg);
    case Expire(EndTx, _) => EndTxRx(Arrive(s, t, ev));
    case Expire(_, _) =>
  }

  /** In every run, a reception ends 8 * length bit times after its frame, the last one to arrive, began to arrive. */
  lemma {:induction false} ReceptionTakes(run: Run)
    requires Possible(run) && Final(run).Ok? && Final(run).value.rx.Receiving?
    ensures var s := Final(run).value;
            && EndRx in s.timers && LastHeard(run).Some?
            && s.timers[EndRx] == HeardAt(run) + Duration(8 * LastHeard(run).value.byteLength, s.mode.params.bitTime)
  {
    RunSafe(run);
    ReceivingIsLastHeard(run);
    if run.Next? {
      var s := Final(run.before).value;
      RunSafe(run.before);
      StepTransition(s, run.t, run.ev);
      if !s.mode.autoconf {
        StepRx(s, run.t, run.ev);
        if s.rx.Receiving? {
          ReceptionTakes(run.before);
        }
      }
    }
  }

  /** How signals that collide extend the time for which the channel is heard busy. */
  lemma CollisionLasts(s: Mac, t: real, msg: NetMsg)
    requires Inv(s) && Enabled(s, t, FromNetwork(msg)) && Step(s, t, FromNetwork(msg)).Ok? && !s.mode.autoconf
    requires Step(s, t, FromNetwork(msg)).value.rx.RxCollision?
    ensures var r, p := Step(s, t, FromNetwork(msg)).value, s.mode.params;
            && EndRx in r.timers
            && (msg.FrameMsg? && !s.mode.duplex && s.tx.Transmitting? ==>
                  && EndTx !in r.timers && EndJam in r.timers && r.timers[EndJam] == t + p.jamDuration
                  && r.timers[EndRx] == Max(t + Duration(8 * msg.frame.byteLength, p.bitTime), t + p.jamDuration))
            && (msg.FrameMsg? && (s.mode.duplex || !s.tx.Transmitting?) ==>
                  && EndRx in s.timers
                  && r.timers[EndRx] == Max(s.timers[EndRx], t + Duration(8 * msg.frame.byteLength, p.bitTime)))
            && (msg.JamMsg? ==>
                  && EndRx in s.timers && r.concurrent == s.concurrent - 1
                  && r.timers[EndRx] == if s.concurrent == 1 then t + Duration(8 * msg.jamLength, p.bitTime) else s.timers[EndRx])
  {
  }

  // ---------- Frames from above ----------

  /** A frame from above is refused for one of three reasons, and otherwise gets our address as its source if it has none. */
  lemma UpperExactly(s: Mac, t: real, f: Frame)
    requires Inv(s) && Enabled(s, t, FromUpper(f))
    ensures var r := Step(s, t, FromUpper(f));
            && (r.Err? <==>
                  || f.dest == s.cfg.address || f.byteLength > 1518
                  || (f.kind.Data? && s.cfg.queueLimit != 0 && |s.queue| > s.cfg.queueLimit))
            && (r.Ok? ==>
                  var g := if f.kind.Data? && f.src == UNSPECIFIED then f.(src := s.cfg.address) else f;
                  && r.value.log == Then(s.log, Accept(g))
                  && r.value.queue == if f.kind.Pause? then [g] + s.queue else s.queue + [g])
  {
  }

  // ---------- Errors of the environment ----------

  /** Undamaged data too short to hold a preamble. */
  predicate TooShort(f: Frame) {
    f.kind.Data? && !f.bitError && f.byteLength < 8
  }

  /** The reception that this event ends is of such a frame. */
  predicate EndsShort(s: Mac, t: real, ev: Event) {
    EndsReception(s, t, ev) && s.receiving.Some? && TooShort(s.receiving.value)
  }

  lemma ReceptionFails(s: Mac, f: Frame)
    requires s.tx.TxIdle? ==> EndPause !in s.timers
    ensures ReceptionComplete(s, f).Err? <==> TooShort(f)
  {
  }

  lemma BackToBackFails(s: Mac, f: Frame)
    requires s.receiving.Some? && (s.tx.TxIdle? ==> EndPause !in s.timers)
    ensures BackToBack(s, f).Err? <==> TooShort(s.receiving.value)
  {
    ReceptionFails(Cancel(s, EndRx).(receiving := None), s.receiving.value);
  }

  /** A message from the network halts the run exactly for one of these reasons. */
  lemma NetworkFails(s: Mac, t: real, msg: NetMsg)
    requires Inv(s) && Enabled(s, t, FromNetwork(msg))
    ensures Step(s, t, FromNetwork(msg)).Err? <==>
            if s.mode.autoconf then !msg.AutoconfigMsg?
            else
              || msg.OtherMsg? || msg.AutoconfigMsg?
              || (!s.mode.duplex && t - msg.sendingTime >= s.mode.params.shortestFrame)
              || (msg.JamMsg? && (s.rx.RxIdle? || s.concurrent == 0))
              || EndsShort(s, t, FromNetwork(msg))
  {
    var s1 := Arrive(s, t, FromNetwork(msg));
    if EndsReception(s, t, FromNetwork(msg)) {
      BackToBackFails(s1, msg.frame);
    }
  }

  /** An expiring timer halts the run only for a frame too short, or for a rate that is none of the four. */
  lemma TimerFails(s: Mac, t: real, k: Timer, slot: nat)
    requires Inv(s) && Enabled(s, t, Expire(k, slot))
    ensures Step(s, t, Expire(k, slot)).Err? <==>
            if s.mode.autoconf then s.cfg.connected && !Standard(ChooseRate(s.cfg.txrate, s.mode.lowestRate))
            else EndsShort(s, t, Expire(k, slot))
  {
    if s.mode.autoconf {
      RatesExactly(ChooseRate(s.cfg.txrate, s.mode.lowestRate), s.cfg.duplexEnabled && !s.mode.duplexVetoed);
    } else if k == EndRx {
      EndRxFails(s, t, slot);
    } else {
      StepSafe(s, t, Expire(k, slot));
      OtherNeverFails(Arrive(s, t, Expire(k, slot)), k, slot);
    }
  }

  lemma EndRxFails(s: Mac, t: real, slot: nat)
    requires Inv(s) && Enabled(s, t, Expire(EndRx, slot)) && !s.mode.autoconf
    ensures Step(s, t, Expire(EndRx, slot)).Err? <==> EndsShort(s, t, Expire(EndRx, slot))
  {
    var s1 := Arrive(s, t, Expire(EndRx, slot));
    if s1.rx.Receiving? {
      ReceptionFails(s1.(receiving := None), s1.receiving.value);
    }
    StepSafe(s, t, Expire(EndRx, slot));
  }

  /** The other timers know no errors but those of the code's own checks. */
  lemma OtherNeverFails(s: Mac, k: Timer, slot: nat)
    requires k != EndRx
    ensures HandleTimer(s, k, slot).Err? ==> HandleTimer(s, k, slot).error.Internal?
  {
  }

  // ---------- Carrier extension and bursts ----------

  /** The first frame of a burst is extended to 512 octets where carrier extension applies, and only there. */
  lemma FirstExtended(s: Mac, t: real, slot: nat)
    requires Inv(s) && Enabled(s, t, Expire(EndIfg, slot)) && Step(s, t, Expire(EndIfg, slot)).Ok? && !s.mode.autoconf
    ensures s.queue != []
    ensures var f, n := s.queue[0], s.queue[0].byteLength;
            OnWire(Step(s, t, Expire(EndIfg, slot)).value.log) == OnWire(s.log) +
              [f.(byteLength := (if s.mode.params.carrierExtension && n < 512 then 512 else n) + 8)]
  {
    StartTransition(PrepareHead(Arrive(s, t, Expire(EndIfg, slot))));
  }

  /** No queued frame is longer than a frame may be, and the size recorded of a burst is that of its last frame. */
  ghost predicate Short(s: Mac) {
    && (forall k :: 0 <= k < |s.queue| ==> s.queue[k].byteLength <= 1518)
    && s.burst.bytes <= 1526
  }

  lemma StartShort(s: Mac)
    requires Short(s) && StartFrameTransmission(s).Ok?
    ensures Short(StartFrameTransmission(s).value)
  {
  }

  lemma StepShort(s: Mac, t: real, ev: Event)
    requires Inv(s) && Enabled(s, t, ev) && Step(s, t, ev).Ok? && Short(s)
    ensures Short(Step(s, t, ev).value)
  {
    var s1 := Arrive(s, t, ev);
    match ev
    case FromUpper(f) => UpperExactly(s, t, f);
    case FromNetwork(msg) => NetworkShort(s, t, msg);
    case Expire(k, slot) =>
      if s.mode.autoconf {
      } else if k == EndIfg {
        EndIfgShort(s1);
      } else if k == EndTx {
        EndTxShort(s1);
      } else {
        OtherShort(s1, k, slot);
      }
  }

  lemma EndTxShort(s: Mac)
    requires Short(s) && HandleEndTx(s).Ok?
    ensures Short(HandleEndTx(s).value)
  {
    var s1 := FinishHead(s);
    if s1.pauseRequested <= 0 && s1.queue != [] && StartFrameTransmission(s1).Ok? {
      StartShort(s1);
    }
  }

  lemma EndIfgShort(s: Mac)
    requires Short(s) && HandleEndIfg(s).Ok?
    ensures Short(HandleEndIfg(s).value)
  {
    StartShort(PrepareHead(s));
  }

  lemma EndRxShort(s: Mac)
    requires Short(s) && HandleEndRx(s).Ok?
    ensures Short(HandleEndRx(s).value)
  {
  }

  lemma BackoffShort(s: Mac)
    requires Short(s) && HandleEndBackoff(s).Ok?
    ensures Short(HandleEndBackoff(s).value)
  {
  }

  lemma OtherShort(s: Mac, k: Timer, slot: nat)
    requires Short(s) && HandleTimer(s, k, slot).Ok? && !k.EndIfg? && !k.EndTx?
    ensures Short(HandleTimer(s, k, slot).value)
  {
    match k
    case EndRx => EndRxShort(s);
    case EndBackoff => BackoffShort(s);
    case _ =>
  }

  lemma NetworkBurst(s: Mac, msg: NetMsg)
    requires ProcessFromNetwork(s, msg).Ok?
    ensures ProcessFromNetwork(s, msg).value.burst == s.burst
  {
  }

  lemma NetworkShort(s: Mac, t: real, msg: NetMsg)
    requires Inv(s) && Enabled(s, t, FromNetwork(msg)) && Step(s, t, FromNetwork(msg)).Ok? && Short(s)
    ensures Short(Step(s, t, FromNetwork(msg)).value)
  {
    if !s.mode.autoconf {
      NetworkTransition(Arrive(s, t, FromNetwork(msg)), msg);
      NetworkBurst(Arrive(s, t, FromNetwork(msg)), msg);
    }
  }

  lemma {:induction false} ShortInRun(run: Run)
    requires Possible(run) && Final(run).Ok?
    ensures Short(Final(run).value)
  {
    match run
    case Boot(cfg) =>
    case Next(b, t, ev) =>
      ShortInRun(b);
      RunSafe(b);
      StepShort(Final(b).value, t, ev);
  }

  /**
   In every run, at gigabit rates, the frames queued follow one another without a gap as long as no PAUSE is owed:
   the limit of 8192 octets is compared with the size of the last frame, and so ends no burst.
   */
  lemma BurstGoesOn(run: Run, t: real, slot: nat)
    requires Possible(run) && Final(run).Ok? && !Final(run).value.mode.autoconf
    requires Enabled(Final(run).value, t, Expire(EndTx, slot))
    ensures var s := Final(run).value;
            var r := Step(s, t, Expire(EndTx, slot));
            && r.Ok?
            && (r.value.tx.Transmitting? <==> s.mode.params.bursting && |s.queue| > 1 && P.Owed(run) <= 0)
            && (r.value.tx.Transmitting? ==> OnWire(r.value.log) == OnWire(s.log) + [WithPreamble(s.queue[1])])
  {
    var s := Final(run).value;
    RunSafe(run);
    ShortInRun(run);
    P.OwedExactly(run);
    EndTxSucceeds(s, t, slot);
    EndTxBursts(Arrive(s, t, Expire(EndTx, slot)));
  }

  lemma EndTxBursts(s: Mac)
    requires HandleEndTx(s).Ok? && s.burst.bytes <= 1526
    ensures s.queue != []
    ensures var r := HandleEndTx(s).value;
            && (r.tx.Transmitting? <==> s.mode.params.bursting && |s.queue| > 1 && s.pauseRequested <= 0)
            && (r.tx.Transmitting? ==> OnWire(r.log) == OnWire(s.log) + [WithPreamble(s.queue[1])])
  {
    var s1 := FinishHead(s);
    assert OnWire(s1.log) == OnWire(s.log);
    if s1.pauseRequested <= 0 && s1.queue != [] && StartFrameTransmission(s1).Ok? {
      StartTransition(s1);
    }
  }
}
