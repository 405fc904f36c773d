/**
 No run of the MAC, half or full duplex, ever trips one of its own consistency checks.
 */
module EtherMacSafety {
  import opened Simulation
  import opened EtherMac

  // ---------- The joint invariant ----------

  predicate Active(tx: TxState) {
    tx.WaitIfg? || tx.Transmitting? || tx.Jamming? || tx.Backoff?
  }

  predicate NonNegative(p: Params) {
    p.bitTime >= 0.0 && p.slotTime >= 0.0 && p.interFrameGap >= 0.0 && p.jamDuration >= 0.0
  }

  ghost predicate TimersFollowStates(s: Mac) {
    && (EndIfg in s.timers <==> s.tx.WaitIfg?)
    && (EndTx in s.timers <==> s.tx.Transmitting?)
    && (EndJam in s.timers <==> s.tx.Jamming?)
    && (EndBackoff in s.timers <==> s.tx.Backoff?)
    && (EndPause in s.timers ==> s.tx.Paused?)
    && (EndRx in s.timers <==> !s.rx.RxIdle?)
    && (EndAutoconfig in s.timers <==> s.mode.autoconf)
  }

  ghost predicate Quiet(s: Mac) {
    s.tx.TxIdle? && s.rx.RxIdle?
  }

  ghost predicate Inv(s: Mac) {
    && NonNegative(s.mode.params)
    && TimersFollowStates(s)
    && (s.mode.autoconf ==> Quiet(s))
    && (s.receiving.Some? <==> s.rx.Receiving?)
    && (!s.mode.duplex && s.tx.Transmitting? ==> s.rx.RxIdle?)
    && (s.mode.duplex ==> !s.tx.Jamming? && !s.tx.Backoff?)
    && (Active(s.tx) ==> s.queue != [])
    && (s.rx.RxIdle? ==> s.concurrent == 0)
    && (s.rx.Receiving? ==> s.concurrent == 1)
    && s.concurrent >= 0
    && (forall k :: k in s.timers ==> s.now <= s.timers[k])
  }

  /** What holds when the kernel has handed an event over: the expiring timer is gone. */
  ghost predicate Arrived(s: Mac, s0: Mac, t: real, ev: Event) {
    Inv(s0) && Enabled(s0, t, ev) && s == Arrive(s0, t, ev)
  }

  ghost predicate Safe(r: Outcome<Mac>) {
    match r
    case Ok(s) => Inv(s)
    case Err(e) => !e.Internal?
  }

  lemma NonNegativeDuration(n: int, u: real)
    requires n >= 0 && u >= 0.0
    ensures Duration(n, u) >= 0.0
  {
  }

  lemma ParametersNonNegative(connected: bool, rate: real, duplex: bool)
    ensures match CalculateParameters(connected, rate, duplex) case Ok(p) => NonNegative(p) case Err(e) => e == NonstandardRate
  {
    if connected && StandardRate(rate) {
      assert 1.0 / rate >= 0.0;
      NonNegativeDuration((8 * JAM_SIGNAL_BYTES), 1.0 / rate);
      assert INTERFRAME_GAP_BITS / rate >= 0.0;
    }
  }

  lemma InitSafe(cfg: Config)
    ensures Init(cfg).Ok? && Inv(Init(cfg).value)
  {
  }

  // ---------- One lemma for each handler ----------

  lemma AutoconfigSafe(s: Mac, s0: Mac, t: real, ev: Event)
    requires Arrived(s, s0, t, ev) && s0.mode.autoconf
    ensures Safe(HandleAutoconfig(s, ev))
  {
    assert ev.Expire? ==> ev.timer == EndAutoconfig;
    ParametersNonNegative(s.cfg.connected, ChooseRate(s.cfg.txrate, s.mode.lowestRate),
                          s.cfg.duplexEnabled && !s.mode.duplexVetoed);
  }

  lemma EnqueueSafe(s: Mac, f: Frame)
    requires Inv(s)
    ensures Safe(EnqueueFromUpper(s, f))
  {
  }

  lemma ScheduleEndIfgSafe(s: Mac)
    requires Inv(s) && s.tx.TxIdle? && s.queue != [] && !s.mode.autoconf
    ensures Safe(ScheduleEndIfg(s))
  {
  }

  lemma UpperSafe(s: Mac, f: Frame)
    requires Inv(s)
    ensures Safe(ProcessFromUpper(s, f))
  {
    EnqueueSafe(s, f);
    var r := EnqueueFromUpper(s, f);
    if r.Ok? {
      assert r.value.queue != [] && r.value.mode == s.mode;
      if !s.mode.autoconf && r.value.tx.TxIdle? {
        ScheduleEndIfgSafe(r.value);
      }
    }
  }

  /** Completing a reception, with the receiver's own fields about to be rewritten by the caller. */
  lemma ReceptionCompleteSafe(s: Mac, f: Frame)
    requires NonNegative(s.mode.params)
    requires EndIfg in s.timers <==> s.tx.WaitIfg?
    requires EndTx in s.timers <==> s.tx.Transmitting?
    requires EndJam in s.timers <==> s.tx.Jamming?
    requires EndBackoff in s.timers <==> s.tx.Backoff?
    requires EndPause in s.timers ==> s.tx.Paused?
    requires forall k :: k in s.timers ==> s.now <= s.timers[k]
    ensures match ReceptionComplete(s, f)
            case Err(e) => !e.Internal?
            case Ok(r) =>
              && (EndPause in r.timers ==> r.tx.Paused?)
              && (r.tx == s.tx || (s.tx.TxIdle? && r.tx.Paused?))
              && (forall k :: k in r.timers ==> r.now <= r.timers[k])
              && r.timers.Keys - {EndPause} == s.timers.Keys - {EndPause}
              && r == s.(tx := r.tx, timers := r.timers, pauseRequested := r.pauseRequested, log := r.log)
  {
    if f.kind.Pause? && f.kind.units > 0 {
      NonNegativeDuration(f.kind.units * PAUSE_BITTIME, s.mode.params.bitTime);
    }
  }

  lemma CollideSafe(s: Mac, msg: NetMsg)
    requires Inv(s) && !s.mode.autoconf && !s.mode.duplex && s.tx.Transmitting?
    ensures Safe(CollideWhileTransmitting(s, msg))
  {
  }

  lemma StartReceptionSafe(s: Mac, msg: NetMsg)
    requires Inv(s) && !s.mode.autoconf && s.rx.RxIdle? && (s.mode.duplex || !s.tx.Transmitting?)
    ensures Safe(StartReception(s, msg))
  {
    NonNegativeDuration(BitLength(msg), s.mode.params.bitTime);
  }

  lemma BackToBackSafe(s: Mac, f: Frame)
    requires Inv(s) && !s.mode.autoconf && s.rx.Receiving?
    ensures Safe(BackToBack(s, f))
  {
    NonNegativeDuration((8 * f.byteLength), s.mode.params.bitTime);
    ReceptionCompleteSafe(Cancel(s, EndRx).(receiving := None), s.receiving.value);
  }

  lemma OverlapSafe(s: Mac, msg: NetMsg)
    requires Inv(s) && !s.mode.autoconf && !s.rx.RxIdle?
    ensures Safe(Overlap(s, msg))
  {
    NonNegativeDuration(BitLength(msg), s.mode.params.bitTime);
  }

  lemma NetworkSafe(s: Mac, msg: NetMsg)
    requires Inv(s) && !s.mode.autoconf
    ensures Safe(ProcessFromNetwork(s, msg))
  {
    if !s.mode.duplex && s.tx.Transmitting? {
      CollideSafe(s, msg);
    } else if s.rx.RxIdle? {
      StartReceptionSafe(s, msg);
    } else {
      OverlapSafe(s, msg);
      if s.rx.Receiving? && msg.FrameMsg? {
        BackToBackSafe(s, msg.frame);
      }
    }
  }

  /** The transmitter is between two states: its timer has expired and the next one is not set yet. */
  ghost predicate TxReady(s: Mac) {
    && EndIfg !in s.timers && EndTx !in s.timers && EndJam !in s.timers && EndBackoff !in s.timers
    && EndPause !in s.timers && EndAutoconfig !in s.timers
    && NonNegative(s.mode.params) && !s.mode.autoconf
    && (EndRx in s.timers <==> !s.rx.RxIdle?)
    && (s.receiving.Some? <==> s.rx.Receiving?)
    && (s.rx.RxIdle? ==> s.concurrent == 0)
    && (s.rx.Receiving? ==> s.concurrent == 1)
    && s.concurrent >= 0
    && (forall k :: k in s.timers ==> s.now <= s.timers[k])
  }

  lemma ScheduleEndTxSafe(s: Mac, wire: Frame)
    requires TxReady(s) && s.queue != [] && (s.mode.duplex || s.rx.RxIdle?)
    ensures Safe(ScheduleEndTx(s, wire))
  {
    NonNegativeDuration((8 * wire.byteLength), s.mode.params.bitTime);
  }

  lemma CollideAtStartSafe(s: Mac)
    requires TxReady(s) && s.queue != [] && !s.mode.duplex && !s.rx.RxIdle?
    ensures SendJam(s).Ok? && Inv(EnterCollision(SendJam(s).value))
  {
  }

  lemma StartTransmissionSafe(s: Mac)
    requires TxReady(s) && s.queue != []
    ensures Safe(StartFrameTransmission(s))
  {
    var wire := WithPreamble(s.queue[0]);
    var s1 := PutOnWire(s, wire);
    if !s1.mode.duplex && !s1.rx.RxIdle? {
      CollideAtStartSafe(s1);
    } else {
      ScheduleEndTxSafe(s1, wire);
    }
  }

  lemma EndIfgSafe(s: Mac, s0: Mac, t: real, ev: Event)
    requires Arrived(s, s0, t, ev) && ev.Expire? && ev.timer.EndIfg? && !s0.mode.autoconf
    ensures Safe(HandleEndIfg(s))
  {
    StartTransmissionSafe(PrepareHead(s));
  }

  lemma BeginSendSafe(s: Mac)
    requires TxReady(s)
    ensures Safe(BeginSendFrames(s))
  {
  }

  lemma PauseAfterTxSafe(s: Mac)
    requires TxReady(s) && s.pauseRequested > 0
    ensures Safe(ScheduleEndPause(s, s.pauseRequested))
  {
    NonNegativeDuration(s.pauseRequested * PAUSE_BITTIME, s.mode.params.bitTime);
  }

  lemma EndTxSafe(s: Mac, s0: Mac, t: real, ev: Event)
    requires Arrived(s, s0, t, ev) && ev.Expire? && ev.timer.EndTx? && !s0.mode.autoconf
    ensures Safe(HandleEndTx(s))
  {
    var s1 := FinishHead(s);
    assert TxReady(s1);
    if s1.pauseRequested > 0 {
      PauseAfterTxSafe(s1);
    } else if s1.queue != [] {
      StartTransmissionSafe(s1);
    }
    BeginSendSafe(s1);
  }

  lemma EndRxSafe(s: Mac, s0: Mac, t: real, ev: Event)
    requires Arrived(s, s0, t, ev) && ev.Expire? && ev.timer.EndRx? && !s0.mode.autoconf
    ensures Safe(HandleEndRx(s))
  {
    EndReceptionSafe(s, s0, t, ev);
    if EndReception(s).Ok? {
      ReceiverIdleSafe(EndReception(s).value);
    }
  }

  /** The receiver is about to fall idle: its timer is gone. */
  ghost predicate RxReady(s: Mac) {
    && NonNegative(s.mode.params) && !s.mode.autoconf && s.receiving.None?
    && (EndIfg in s.timers <==> s.tx.WaitIfg?)
    && (EndTx in s.timers <==> s.tx.Transmitting?)
    && (EndJam in s.timers <==> s.tx.Jamming?)
    && (EndBackoff in s.timers <==> s.tx.Backoff?)
    && (EndPause in s.timers ==> s.tx.Paused?)
    && EndRx !in s.timers && EndAutoconfig !in s.timers
    && (s.mode.duplex ==> !s.tx.Jamming? && !s.tx.Backoff?)
    && (Active(s.tx) ==> s.queue != [])
    && (forall k :: k in s.timers ==> s.now <= s.timers[k])
  }

  lemma EndReceptionSafe(s: Mac, s0: Mac, t: real, ev: Event)
    requires Arrived(s, s0, t, ev) && ev.Expire? && ev.timer.EndRx? && !s0.mode.autoconf
    ensures match EndReception(s) case Ok(r) => RxReady(r) case Err(e) => !e.Internal?
  {
    if s.rx.Receiving? {
      ReceptionCompleteSafe(s.(receiving := None), s.receiving.value);
    }
  }

  lemma ReceiverIdleSafe(s: Mac)
    requires RxReady(s)
    ensures Safe(ReceiverIdle(s))
  {
  }

  lemma EndJamSafe(s: Mac, s0: Mac, t: real, ev: Event)
    requires Arrived(s, s0, t, ev) && ev.Expire? && ev.timer.EndJam? && !s0.mode.autoconf
    ensures Safe(HandleEndJam(s, ev.slot))
  {
    NonNegativeDuration(ev.slot, s.mode.params.slotTime);
  }

  // ---------- Every step, every run ----------

  lemma StepSafe(s: Mac, t: real, ev: Event)
    requires Inv(s) && Enabled(s, t, ev)
    ensures Safe(Step(s, t, ev))
  {
    var s1 := Arrive(s, t, ev);
    if s.mode.autoconf {
      AutoconfigSafe(s1, s, t, ev);
    } else {
      match ev
      case FromUpper(f) => UpperSafe(s1, f);
      case FromNetwork(msg) => NetworkSafe(s1, msg);
      case Expire(EndIfg, _) => EndIfgSafe(s1, s, t, ev);
      case Expire(EndTx, _) => EndTxSafe(s1, s, t, ev);
      case Expire(EndRx, _) => EndRxSafe(s1, s, t, ev);
      case Expire(EndJam, _) => EndJamSafe(s1, s, t, ev);
      case Expire(_, _) =>
    }
  }
}
