/**
 The MAC module itself: the fields of the C++ class, updated in place by its handlers.
 Every handler does what the corresponding function of module EtherMac says, and a valid object is what
 a possible run has made of it: no call the kernel can make trips an internal check, and all theorems about
 runs are theorems about valid objects.
 */
module EtherMacModule {
  import opened Simulation
  import opened EtherMac
  import EtherMacSafety
  import P = EtherMacPause
  import R = EtherMacTheorems

  /** Outcome of a handler: `Failed` stands for a call of error(), which halts the run. */
  datatype Status = Fine | Failed(error: Error) {
    predicate IsFailure() { Failed? }
    function PropagateFailure(): Status requires Failed? { this }
  }

  class EtherMAC {
    const cfg: Config

    // autoconfiguration, duplex mode, rate and the parameters derived from it
    var mode: Mode

    // states
    var transmitState: TxState
    var receiveState: RxState
    var pauseUnitsRequested: int
    var txQueue: seq<Frame>
    var backoffs: nat
    var numConcurrentTransmissions: int
    var frameBeingReceived: Option<Frame>
    var burst: Burst

    // total collision time, total successful time, start of the busy period
    var usage: Usage

    // simulation kernel: the clock, and the self-messages that are scheduled
    var simTime: real
    var scheduled: map<Timer, real>

    ghost var log: Log

    /** The events so far. */
    ghost var run: R.Run

    ghost function View(): Mac
      reads this
    {
      Mac(cfg, mode, simTime, transmitState, receiveState, pauseUnitsRequested, txQueue,
          backoffs, numConcurrentTransmissions, frameBeingReceived, burst, usage, scheduled, log)
    }

    ghost predicate Matches(status: Status, r: Outcome<Mac>)
      reads this
    {
      match r
      case Ok(s) => status.Fine? && View() == s
      case Err(e) => status == Failed(e)
    }

    /** The fields are what a possible run has made of them. */
    ghost predicate Valid()
      reads this
    {
      R.Possible(run) && R.Final(run) == Ok(View())
    }

    constructor (cfg: Config)
      ensures Valid() && run == R.Boot(cfg) && this.cfg == cfg && Init(cfg) == Ok(View())
    {
      this.cfg := cfg;
      mode := Mode(cfg.connected, 0.0, false, cfg.duplexEnabled, if cfg.connected then 0.0 else cfg.txrate, NO_PARAMS);
      transmitState, receiveState, pauseUnitsRequested, txQueue := TxIdle, RxIdle, 0, [];
      backoffs, numConcurrentTransmissions, frameBeingReceived := 0, 0, None;
      burst, usage := Burst(0, 0), Usage(0.0, 0.0, 0.0);
      simTime, scheduled, log, run := 0.0, map[], Start, R.Boot(cfg);
      if cfg.connected {
        scheduled := map[EndAutoconfig := AUTOCONFIG_PERIOD];
        if !cfg.duplexEnabled || cfg.txrate > 0.0 {
          log := Then(Start, WireAutoconfig(cfg.txrate, !cfg.duplexEnabled));
        }
      }
    }

    // ---------- Scheduling ----------

    method ScheduleAt(k: Timer, at: real) returns (status: Status)
      modifies this`scheduled
      ensures Matches(status, Schedule(old(View()), k, at))
    {
      if k in scheduled {
        return Failed(Internal(AlreadyScheduled(k)));
      }
      scheduled := scheduled[k := at];
      return Fine;
    }

    method CancelEvent(k: Timer)
      modifies this`scheduled
      ensures View() == Cancel(old(View()), k)
    {
      scheduled := scheduled - {k};
    }

    method RescheduleAt(k: Timer, at: real)
      modifies this`scheduled
      ensures View() == Reschedule(old(View()), k, at)
    {
      scheduled := scheduled - {k};
      scheduled := scheduled[k := at];
    }

    method ScheduleEndIFGPeriod() returns (status: Status)
      modifies this
      ensures Matches(status, ScheduleEndIfg(old(View())))
    {
      var at := simTime + mode.params.interFrameGap;
      :- ScheduleAt(EndIfg, at);
      transmitState := WaitIfg;
      return Fine;
    }

    method ScheduleEndTxPeriod(frame: Frame) returns (status: Status)
      modifies this
      ensures Matches(status, ScheduleEndTx(old(View()), frame))
    {
      var at := simTime + Duration(8 * frame.byteLength, mode.params.bitTime);
      :- ScheduleAt(EndTx, at);
      transmitState := Transmitting;
      return Fine;
    }

    method ScheduleEndPausePeriod(units: int) returns (status: Status)
      modifies this
      ensures Matches(status, ScheduleEndPause(old(View()), units))
    {
      var at := simTime + Duration(units * PAUSE_BITTIME, mode.params.bitTime);
      :- ScheduleAt(EndPause, at);
      transmitState := Paused;
      return Fine;
    }

    method ScheduleEndRxPeriod(bits: nat) returns (status: Status)
      modifies this
      ensures Matches(status, ScheduleEndRx(old(View()), bits))
    {
      var at := simTime + Duration(bits, mode.params.bitTime);
      :- ScheduleAt(EndRx, at);
      receiveState := Receiving;
      return Fine;
    }

    // ---------- Autoconfiguration ----------

    method HandleAutoconfigMessage(ev: Event) returns (status: Status)
      modifies this
      ensures Matches(status, HandleAutoconfig(old(View()), ev))
    {
      match ev {
        case FromUpper(f) =>
          status := ProcessFrameFromUpperLayer(f);
        case FromNetwork(msg) =>
          if !msg.AutoconfigMsg? {
            return Failed(NotAutoconfig);
          }
          if msg.rate > 0.0 && (msg.rate < mode.lowestRate || mode.lowestRate == 0.0) {
            mode := mode.(lowestRate := msg.rate);
          }
          if !mode.duplexVetoed && msg.halfDuplex {
            mode := mode.(duplexVetoed := true);
          }
          status := Fine;
        case Expire(_, _) =>
          var rate := ChooseRate(cfg.txrate, mode.lowestRate);
          var duplex := cfg.duplexEnabled && !mode.duplexVetoed;
          var p := CalculateParameters(cfg.connected, rate, duplex);
          if p.Err? {
            return Failed(p.error);
          }
          mode := mode.(autoconf := false, txrate := rate, duplex := duplex, params := p.value);
          if txQueue != [] {
            status := ScheduleEndIFGPeriod();
          } else {
            status := Fine;
          }
      }
    }

    // ---------- Upper layer ----------

    method EnqueueFrame(frame: Frame) returns (status: Status)
      modifies this
      ensures Matches(status, EnqueueFromUpper(old(View()), frame))
    {
      if frame.dest == cfg.address {
        return Failed(FrameToSelf);
      }
      if frame.byteLength > MAX_ETHERNET_FRAME {
        return Failed(FrameTooLong);
      }
      if frame.kind.Data? {
        if cfg.queueLimit != 0 && |txQueue| > cfg.queueLimit {
          return Failed(QueueLimitExceeded);
        }
        var f := frame;
        if f.src == UNSPECIFIED {
          f := f.(src := cfg.address);
        }
        txQueue := txQueue + [f];
        log := Then(log, Accept(f));
      } else {
        txQueue := [frame] + txQueue;
        log := Then(log, Accept(frame));
      }
      return Fine;
    }

    method ProcessFrameFromUpperLayer(frame: Frame) returns (status: Status)
      modifies this
      ensures Matches(status, ProcessFromUpper(old(View()), frame))
    {
      status := EnqueueFrame(frame);
      if status.Failed? {
        return;
      }
      if !mode.autoconf && (mode.duplex || receiveState.RxIdle?) && transmitState.TxIdle? {
        status := ScheduleEndIFGPeriod();
      } else {
        status := Fine;
      }
    }

    // ---------- Network ----------

    method SendJamSignal() returns (status: Status)
      modifies this
      ensures Matches(status, SendJam(old(View())))
    {
      log := Then(log, WireJam);
      :- ScheduleAt(EndJam, simTime + mode.params.jamDuration);
      transmitState := Jamming;
      return Fine;
    }

    method ProcessPause(units: int) returns (status: Status)
      modifies this
      ensures Matches(status, ProcessPauseCommand(old(View()), units))
    {
      status := Fine;
      if transmitState.TxIdle? {
        if units > 0 {
          status := ScheduleEndPausePeriod(units);
        }
      } else if transmitState.Paused? {
        CancelEvent(EndPause);
        if units > 0 {
          status := ScheduleEndPausePeriod(units);
        }
      } else {
        pauseUnitsRequested := units;
      }
    }

    method FrameReceptionComplete(frame: Frame) returns (status: Status)
      modifies this
      ensures Matches(status, ReceptionComplete(old(View()), frame))
    {
      if frame.kind.Pause? {
        status := ProcessPause(frame.kind.units);
        return;
      }
      if frame.bitError {
        return Fine;
      }
      if frame.byteLength < PREAMBLE_AND_SFD_BYTES {
        return Failed(NegativeLength);
      }
      if !cfg.promiscuous && frame.dest != BROADCAST && frame.dest != cfg.address {
        return Fine;
      }
      log := Then(log, Deliver(frame.(byteLength := frame.byteLength - PREAMBLE_AND_SFD_BYTES)));
      return Fine;
    }

    method HandleCollisionWhileTransmitting(msg: NetMsg) returns (status: Status)
      modifies this
      ensures Matches(status, CollideWhileTransmitting(old(View()), msg))
    {
      if msg.JamMsg? {
        return Failed(StrayJamWhileTransmitting);
      }
      CancelEvent(EndTx);
      var endRxTime := simTime + Duration(BitLength(msg), mode.params.bitTime);
      :- SendJamSignal();
      status := BeginCollision(endRxTime);
    }

    method BeginCollision(endRxTime: real) returns (status: Status)
      modifies this
      ensures Matches(status, ReceiveCollision(old(View()), endRxTime))
    {
      receiveState := RxCollision;
      numConcurrentTransmissions := numConcurrentTransmissions + 1;
      status := ScheduleAt(EndRx, Max(endRxTime, simTime + mode.params.jamDuration));
    }

    method HandleReceptionStart(msg: NetMsg) returns (status: Status)
      modifies this
      ensures Matches(status, StartReception(old(View()), msg))
    {
      if !msg.FrameMsg? {
        return Failed(StrayJam);
      }
      numConcurrentTransmissions := numConcurrentTransmissions + 1;
      if frameBeingReceived.Some? {
        return Failed(Internal(FrameWhileRxIdle));
      }
      frameBeingReceived := Some(msg.frame);
      :- ScheduleEndRxPeriod(BitLength(msg));
      usage := usage.(busySince := simTime);
      return Fine;
    }

    method HandleBackToBack(frame: Frame) returns (status: Status)
      modifies this
      ensures Matches(status, BackToBack(old(View()), frame))
    {
      CancelEvent(EndRx);
      if frameBeingReceived.None? {
        return Failed(Internal(NoFrame));
      }
      var previous := frameBeingReceived.value;
      frameBeingReceived := None;
      :- FrameReceptionComplete(previous);
      frameBeingReceived := Some(frame);
      status := ScheduleEndRxPeriod(8 * frame.byteLength);
    }

    method HandleOverlap(msg: NetMsg) returns (status: Status)
      modifies this
      ensures Matches(status, Overlap(old(View()), msg))
    {
      var endRxTime := simTime + Duration(BitLength(msg), mode.params.bitTime);
      if msg.JamMsg? {
        if numConcurrentTransmissions <= 0 {
          return Failed(TooManyJams);
        }
        numConcurrentTransmissions := numConcurrentTransmissions - 1;
        if numConcurrentTransmissions == 0 {
          RescheduleAt(EndRx, endRxTime);
        }
      } else {
        if EndRx !in scheduled {
          return Failed(Internal(NotScheduled(EndRx)));
        }
        numConcurrentTransmissions := numConcurrentTransmissions + 1;
        if scheduled[EndRx] < endRxTime {
          RescheduleAt(EndRx, endRxTime);
        }
      }
      GoToCollision();
      return Fine;
    }

    /** The frame being received is lost. */
    method GoToCollision()
      modifies this`frameBeingReceived, this`receiveState
      ensures View() == EnterCollision(old(View()))
    {
      if receiveState.Receiving? {
        frameBeingReceived := None;
      }
      receiveState := RxCollision;
    }

    method ProcessMsgFromNetwork(msg: NetMsg) returns (status: Status)
      modifies this
      ensures Matches(status, ProcessFromNetwork(old(View()), msg))
    {
      if msg.OtherMsg? || msg.AutoconfigMsg? {
        return Failed(UnexpectedClass);
      }
      if !mode.duplex && simTime - msg.sendingTime >= mode.params.shortestFrame {
        return Failed(CableTooLong);
      }
      if !mode.duplex && transmitState.Transmitting? {
        status := HandleCollisionWhileTransmitting(msg);
      } else if receiveState.RxIdle? {
        status := HandleReceptionStart(msg);
      } else if receiveState.Receiving? && msg.FrameMsg? {
        if EndRx !in scheduled {
          return Failed(Internal(NotScheduled(EndRx)));
        }
        if scheduled[EndRx] - simTime < mode.params.bitTime {
          status := HandleBackToBack(msg.frame);
        } else {
          status := HandleOverlap(msg);
        }
      } else {
        status := HandleOverlap(msg);
      }
    }

    // ---------- Timers ----------

    method PutFrameOnWire(frame: Frame)
      modifies this
      ensures View() == PutOnWire(old(View()), frame)
    {
      log := Then(log, Wire(frame));
      if mode.params.bursting {
        burst := Burst(burst.frames + 1, frame.byteLength);
      }
    }

    method SendFrame() returns (status: Status)
      modifies this
      ensures Matches(status, StartFrameTransmission(old(View())))
    {
      if txQueue == [] {
        return Failed(Internal(NoFrame));
      }
      var frame := WithPreamble(txQueue[0]);
      PutFrameOnWire(frame);
      if !mode.duplex && !receiveState.RxIdle? {
        status := SendJamSignal();
        if status.Failed? {
          return;
        }
        GoToCollision();
      } else {
        status := ScheduleEndTxPeriod(frame);
        if status.Failed? {
          return;
        }
        if !mode.duplex {
          usage := usage.(busySince := simTime);
        }
      }
      return Fine;
    }

    method HandleEndIFGPeriod() returns (status: Status)
      modifies this
      ensures Matches(status, HandleEndIfg(old(View())))
    {
      if !transmitState.WaitIfg? {
        return Failed(Internal(NotWaitingIfg));
      }
      if txQueue == [] {
        return Failed(Internal(NothingAfterIfg));
      }
      if mode.params.carrierExtension {
        txQueue := [Extended(txQueue[0])] + txQueue[1..];
      }
      if mode.params.bursting {
        burst := Burst(0, 0);
      }
      status := SendFrame();
    }

    method BeginSending() returns (status: Status)
      modifies this
      ensures Matches(status, BeginSendFrames(old(View())))
    {
      if txQueue != [] {
        status := ScheduleEndIFGPeriod();
      } else {
        transmitState := TxIdle;
        status := Fine;
      }
    }

    method FinishHeadFrame()
      requires txQueue != []
      modifies this
      ensures View() == FinishHead(old(View()))
    {
      log := Then(log, Complete(txQueue[0]));
      txQueue := txQueue[1..];
      if !mode.duplex {
        usage := usage.(success := usage.success + (simTime - usage.busySince));
      }
      backoffs := 0;
    }

    method ContinueAfterTx() returns (status: Status)
      modifies this
      ensures Matches(status, Continue(old(View())))
    {
      if pauseUnitsRequested > 0 {
        var units := pauseUnitsRequested;
        :- ScheduleEndPausePeriod(units);
        pauseUnitsRequested := 0;
        return Fine;
      }
      var burstFrame := mode.params.bursting && txQueue != [] && burst.bytes < GIGABIT_MAX_BURST_BYTES;
      if burstFrame {
        status := SendFrame();
      } else {
        status := BeginSending();
      }
    }

    method HandleEndTxPeriod() returns (status: Status)
      modifies this
      ensures Matches(status, HandleEndTx(old(View())))
    {
      if !transmitState.Transmitting? || (!mode.duplex && !receiveState.RxIdle?) {
        return Failed(Internal(WrongStateAtEndTx));
      }
      if txQueue == [] {
        return Failed(Internal(FrameUnderTransmissionMissing));
      }
      FinishHeadFrame();
      status := ContinueAfterTx();
    }

    method HandleEndRxPeriod() returns (status: Status)
      modifies this
      ensures Matches(status, HandleEndRx(old(View())))
    {
      status := FinishReception();
      if status.Fine? {
        status := FallIdle();
      }
    }

    method FinishReception() returns (status: Status)
      modifies this
      ensures Matches(status, EndReception(old(View())))
    {
      var dt := simTime - usage.busySince;
      if receiveState.Receiving? {
        if frameBeingReceived.None? {
          return Failed(Internal(NoFrame));
        }
        var frame := frameBeingReceived.value;
        frameBeingReceived := None;
        :- FrameReceptionComplete(frame);
        usage := usage.(success := usage.success + dt);
      } else {
        usage := usage.(collision := usage.collision + dt);
      }
      return Fine;
    }

    method FallIdle() returns (status: Status)
      modifies this
      ensures Matches(status, ReceiverIdle(old(View())))
    {
      receiveState := RxIdle;
      numConcurrentTransmissions := 0;
      if transmitState.TxIdle? && txQueue != [] {
        status := ScheduleEndIFGPeriod();
      } else {
        status := Fine;
      }
    }

    method HandleEndBackoffPeriod() returns (status: Status)
      modifies this
      ensures Matches(status, HandleEndBackoff(old(View())))
    {
      if !transmitState.Backoff? {
        return Failed(Internal(NotInBackoff));
      }
      if txQueue == [] {
        return Failed(Internal(NothingAfterBackoff));
      }
      if receiveState.RxIdle? {
        status := ScheduleEndIFGPeriod();
      } else {
        transmitState := TxIdle;
        status := Fine;
      }
    }

    method GiveUpHeadFrame()
      requires txQueue != []
      modifies this`log, this`txQueue, this`transmitState, this`backoffs
      ensures var s := old(View());
              View() == Note(s.(queue := s.queue[1..], tx := TxIdle, backoffs := 0), Abandon(s.queue[0]))
    {
      log := Then(log, Abandon(txQueue[0]));
      txQueue := txQueue[1..];
      transmitState := TxIdle;
      backoffs := 0;
    }

    method HandleEndJammingPeriod(slotNumber: nat) returns (status: Status)
      modifies this
      ensures Matches(status, HandleEndJam(old(View()), slotNumber))
    {
      if !transmitState.Jamming? {
        return Failed(Internal(NotJamming));
      }
      backoffs := backoffs + 1;
      if backoffs > MAX_ATTEMPTS {
        if txQueue == [] {
          return Failed(Internal(NoFrame));
        }
        GiveUpHeadFrame();
        return Fine;
      }
      :- ScheduleAt(EndBackoff, simTime + Duration(slotNumber, mode.params.slotTime));
      transmitState := Backoff;
      log := Then(log, Draw(slotNumber));
      return Fine;
    }

    method HandleEndPausePeriod() returns (status: Status)
      modifies this
      ensures Matches(status, HandleEndPause(old(View())))
    {
      if !transmitState.Paused? {
        return Failed(Internal(NotPaused));
      }
      status := BeginSending();
    }

    // ---------- One event ----------

    method DispatchTimer(k: Timer, slot: nat) returns (status: Status)
      modifies this
      ensures Matches(status, HandleTimer(old(View()), k, slot))
    {
      match k {
        case EndIfg => status := HandleEndIFGPeriod();
        case EndTx => status := HandleEndTxPeriod();
        case EndRx => status := HandleEndRxPeriod();
        case EndBackoff => status := HandleEndBackoffPeriod();
        case EndJam => status := HandleEndJammingPeriod(slot);
        case EndPause => status := HandleEndPausePeriod();
        case EndAutoconfig => status := Failed(Internal(UnexpectedTimer));
      }
    }

    /** The kernel delivers `ev` at time `t`: the run goes on, or halts for an error of the environment. */
    method HandleMessage(t: real, ev: Event) returns (status: Status)
      requires Valid() && Enabled(View(), t, ev)
      modifies this
      ensures status.Fine? ==> Valid() && run == R.Next(old(run), t, ev)
      ensures status.Failed? ==> !status.error.Internal?
    {
      ghost var before, past := View(), run;
      R.RunSafe(run);
      EtherMacSafety.StepSafe(before, t, ev);
      status := Handle(t, ev);
      if status.Fine? {
        run := R.Next(past, t, ev);
      }
    }

    /** What waits and what is accounted for in a valid object, as examples of what its run guarantees. */
    lemma Guarantees()
      requires Valid()
      ensures R.Conserved(View()) && R.DataInOrder(View())
      ensures simTime < P.SilentUntil(run) ==> transmitState.Paused?
      ensures R.BackoffTime(run) <= Duration(8174, mode.params.slotTime)
      ensures simTime == usage.success + usage.collision + R.IdleTime(run)
                         + if R.Busy(View()) then simTime - usage.busySince else 0.0
      ensures !mode.autoconf && txQueue != [] && !R.Awaits(View()) ==>
                || (run.Next? && R.LosesWakeUp(R.Final(run.before).value, run.ev))
                || (transmitState.Paused? && R.LastPauseInPause(run).Some? && R.LastPauseInPause(run).value <= 0)
    {
      R.ExactlyOnce(run);
      R.RunSafe(run);
      P.RunHeld(run);
      R.BackoffTimed(run);
      R.TimeAccounted(run);
      if !mode.autoconf && txQueue != [] {
        R.WaitsForNothingExactly(run);
      }
    }

    /** One event, handled. */
    method Handle(t: real, ev: Event) returns (status: Status)
      modifies this
      ensures Matches(status, Step(old(View()), t, ev))
    {
      simTime := t;
      if ev.Expire? {
        scheduled := scheduled - {ev.timer};
      }
      if mode.autoconf {
        status := HandleAutoconfigMessage(ev);
        return;
      }
      if !mode.duplex && transmitState.Transmitting? && !receiveState.RxIdle? {
        return Failed(Internal(TransmittingAndReceiving));
      }
      match ev {
        case FromUpper(f) => status := ProcessFrameFromUpperLayer(f);
        case FromNetwork(msg) => status := ProcessMsgFromNetwork(msg);
        case Expire(k, slot) => status := DispatchTimer(k, slot);
      }
    }
  }
}
