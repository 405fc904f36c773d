/**
 What the MAC passes up, over whole runs: received frames that nothing has collided with, and only those.
 */
module EtherMacReception {
  import opened Simulation
  import opened EtherMac
  import opened EtherMacSafety
  import opened EtherMacTheorems

  /** Frames passed up, oldest first. */
  function Delivered(l: Log): seq<Frame> {
    match l
    case Start => []
    case Then(b, Deliver(f)) => Delivered(b) + [f]
    case Then(b, _) => Delivered(b)
  }

  /** The frame that arrived last from the network, once autoconfiguration is over. */
  function LastHeard(run: Run): Option<Frame> {
    match run
    case Boot(_) => None
    case Next(b, _, FromNetwork(FrameMsg(f, _))) =>
      if Final(b).Ok? && !Final(b).value.mode.autoconf then Some(f) else LastHeard(b)
    case Next(b, _, _) => LastHeard(b)
  }

  /** Data, undamaged, and for us. */
  predicate Wanted(cfg: Config, f: Frame) {
    f.kind.Data? && !f.bitError && (cfg.promiscuous || f.dest == BROADCAST || f.dest == cfg.address)
  }

  function WithoutPreamble(f: Frame): Frame
    requires f.byteLength >= PREAMBLE_AND_SFD_BYTES
  {
    f.(byteLength := f.byteLength - PREAMBLE_AND_SFD_BYTES)
  }

  /** A reception ends here without a collision: in its own time, or with the next frame right behind it. */
  predicate EndsReception(s: Mac, t: real, ev: Event) {
    && !s.mode.autoconf && s.rx.Receiving?
    && match ev
       case Expire(EndRx, _) => true
       case FromNetwork(FrameMsg(_, _)) =>
         (s.mode.duplex || !s.tx.Transmitting?) && EndRx in s.timers && s.timers[EndRx] - t < s.mode.params.bitTime
       case _ => false
  }

  /** Nothing is passed up and the frame under reception, if there is still one, is the same. */
  predicate HearsNothing(s: Mac, r: Mac) {
    Delivered(r.log) == Delivered(s.log) && (r.receiving == s.receiving || r.receiving.None?) && r.cfg == s.cfg
  }

  lemma CompletionDelivers(s: Mac, f: Frame)
    requires ReceptionComplete(s, f).Ok?
    ensures var r := ReceptionComplete(s, f).value;
            && r.receiving == s.receiving && r.cfg == s.cfg && r.rx == s.rx
            && (Wanted(s.cfg, f) ==>
                  f.byteLength >= PREAMBLE_AND_SFD_BYTES && Delivered(r.log) == Delivered(s.log) + [WithoutPreamble(f)])
            && (!Wanted(s.cfg, f) ==> Delivered(r.log) == Delivered(s.log))
  {
  }

  lemma UpperHears(s: Mac, f: Frame)
    requires ProcessFromUpper(s, f).Ok?
    ensures HearsNothing(s, ProcessFromUpper(s, f).value)
  {
  }

  lemma StartHears(s: Mac)
    requires StartFrameTransmission(s).Ok?
    ensures HearsNothing(s, StartFrameTransmission(s).value)
  {
    if s.queue != [] && !s.mode.duplex && !s.rx.RxIdle? {
      var s1 := PutOnWire(s, WithPreamble(s.queue[0]));
      assert Delivered(s1.log) == Delivered(s.log);
      assert Delivered(Note(s1, WireJam).log) == Delivered(s1.log);
    }
  }

  lemma AutoconfigHears(s: Mac, ev: Event)
    requires HandleAutoconfig(s, ev).Ok?
    ensures HearsNothing(s, HandleAutoconfig(s, ev).value)
  {
    if ev.FromUpper? {
      UpperHears(s, ev.frame);
    }
  }

  lemma EndTxHears(s: Mac)
    requires HandleEndTx(s).Ok?
    ensures HearsNothing(s, HandleEndTx(s).value)
  {
    var s1 := FinishHead(s);
    assert Delivered(s1.log) == Delivered(s.log);
    if s1.pauseRequested <= 0 && s1.queue != [] && StartFrameTransmission(s1).Ok? {
      StartHears(s1);
    }
  }

  /** Timers other than the end of reception pass nothing up. */
  lemma TimerHears(s: Mac, k: Timer, slot: nat)
    requires HandleTimer(s, k, slot).Ok? && k != EndRx
    ensures HearsNothing(s, HandleTimer(s, k, slot).value)
  {
    match k
    case EndIfg => StartHears(PrepareHead(s));
    case EndTx => EndTxHears(s);
    case _ =>
  }

  /** What the reception of `f`, ending in this step, adds to the frames passed up. */
  predicate Passes(s: Mac, r: Mac, f: Frame) {
    if Wanted(s.cfg, f) then
      f.byteLength >= PREAMBLE_AND_SFD_BYTES && Delivered(r.log) == Delivered(s.log) + [WithoutPreamble(f)]
    else Delivered(r.log) == Delivered(s.log)
  }

  lemma EndRxHears(s: Mac)
    requires HandleEndRx(s).Ok? && (s.receiving.Some? <==> s.rx.Receiving?)
    ensures var r := HandleEndRx(s).value;
            && r.receiving.None? && r.cfg == s.cfg
            && if s.rx.Receiving? then Passes(s, r, s.receiving.value) else Delivered(r.log) == Delivered(s.log)
  {
    if s.rx.Receiving? {
      CompletionDelivers(s.(receiving := None), s.receiving.value);
    }
  }

  lemma BackToBackHears(s: Mac, f: Frame)
    requires s.receiving.Some? && BackToBack(s, f).Ok?
    ensures var r := BackToBack(s, f).value;
            r.receiving == Some(f) && r.cfg == s.cfg && Passes(s, r, s.receiving.value)
  {
    CompletionDelivers(Cancel(s, EndRx).(receiving := None), s.receiving.value);
  }

  /** A message from the network that does not complete a reception. */
  lemma NetworkHears(s: Mac, msg: NetMsg)
    requires Inv(s) && ProcessFromNetwork(s, msg).Ok?
    requires !(s.rx.Receiving? && msg.FrameMsg? && (s.mode.duplex || !s.tx.Transmitting?)
               && s.timers[EndRx] - s.now < s.mode.params.bitTime)
    ensures var r := ProcessFromNetwork(s, msg).value;
            && Delivered(r.log) == Delivered(s.log) && r.cfg == s.cfg
            && (r.receiving.Some? ==> msg.FrameMsg? && r.receiving == Some(msg.frame))
  {
    if !s.mode.duplex && s.tx.Transmitting? {
      assert Delivered(Note(s, WireJam).log) == Delivered(s.log);
    }
  }

  /** The frame under reception after a step is the one just arrived, or the one before. */
  function Heard(before: Option<Frame>, s: Mac, ev: Event): Option<Frame> {
    if !s.mode.autoconf && ev.FromNetwork? && ev.msg.FrameMsg? then Some(ev.msg.frame) else before
  }

  /** One step: passes up at most the frame under reception, and only if its reception ends unharmed. */
  lemma StepHears(s: Mac, t: real, ev: Event)
    requires Inv(s) && Enabled(s, t, ev) && Step(s, t, ev).Ok?
    ensures var r := Step(s, t, ev).value;
            && r.cfg == s.cfg
            && (r.receiving.Some? ==> r.receiving == Heard(s.receiving, s, ev))
            && (EndsReception(s, t, ev) ==> s.receiving.Some? && Passes(s, r, s.receiving.value))
            && (!EndsReception(s, t, ev) ==> Delivered(r.log) == Delivered(s.log))
  {
    var s1 := Arrive(s, t, ev);
    if s.mode.autoconf {
      AutoconfigHears(s1, ev);
    } else {
      match ev
      case FromUpper(f) => UpperHears(s1, f);
      case FromNetwork(msg) =>
        if EndsReception(s, t, ev) {
          BackToBackHears(s1, msg.frame);
        } else {
          NetworkHears(s1, msg);
        }
      case Expire(EndRx, _) => EndRxHears(s1);
      case Expire(k, slot) => TimerHears(s1, k, slot);
    }
  }

  /** Another signal on the channel: one that arrives, or our own in half duplex. */
  predicate Disturbs(s: Mac, ev: Event) {
    ev.FromNetwork? || (ev.Expire? && ev.timer.EndIfg? && !s.mode.duplex)
  }

  /** The receiver's state after a step, while something is being received. */
  function NextRx(s: Mac, t: real, ev: Event): RxState {
    if ev.Expire? && ev.timer.EndRx? then RxIdle
    else if EndsReception(s, t, ev) then Receiving
    else if s.rx.RxCollision? || Disturbs(s, ev) then RxCollision
    else Receiving
  }

  lemma NetworkDisturbs(s: Mac, msg: NetMsg)
    requires Inv(s) && !s.mode.autoconf && !s.rx.RxIdle? && ProcessFromNetwork(s, msg).Ok?
    ensures ProcessFromNetwork(s, msg).value.rx ==
            if s.rx.Receiving? && msg.FrameMsg? && s.timers[EndRx] - s.now < s.mode.params.bitTime then Receiving
            else RxCollision
  {
  }

  lemma StartDisturbs(s: Mac)
    requires StartFrameTransmission(s).Ok?
    ensures StartFrameTransmission(s).value.rx == if !s.mode.duplex && !s.rx.RxIdle? then RxCollision else s.rx
  {
  }

  lemma EndTxUndisturbed(s: Mac)
    requires HandleEndTx(s).Ok?
    ensures HandleEndTx(s).value.rx == s.rx
  {
    var s1 := FinishHead(s);
    if s1.pauseRequested <= 0 && s1.queue != [] && StartFrameTransmission(s1).Ok? {
      StartDisturbs(s1);
    }
  }

  /**
   A reception turns into a collision exactly if another frame (not one right behind it) or a jam arrives
   or we send in half duplex meanwhile, and stays one until it ends.
   */
  lemma CollisionDestroys(s: Mac, t: real, ev: Event)
    requires Inv(s) && Enabled(s, t, ev) && Step(s, t, ev).Ok? && !s.rx.RxIdle?
    ensures Step(s, t, ev).value.rx == NextRx(s, t, ev)
  {
    var s1 := Arrive(s, t, ev);
    match ev
    case FromUpper(f) =>
    case FromNetwork(msg) => NetworkDisturbs(s1, msg);
    case Expire(EndIfg, _) => StartDisturbs(PrepareHead(s1));
    case Expire(EndTx, _) => EndTxUndisturbed(s1);
    case Expire(_, _) =>
  }

  /** In every run, the frame under reception is the last one that arrived. */
  lemma {:induction false} ReceivingIsLastHeard(run: Run)
    requires Possible(run) && Final(run).Ok?
    ensures Final(run).value.receiving.Some? ==> Final(run).value.receiving == LastHeard(run)
  {
    match run
    case Boot(cfg) =>
    case Next(b, t, ev) =>
      ReceivingIsLastHeard(b);
      RunSafe(b);
      StepHears(Final(b).value, t, ev);
  }

  /**
   In every run, a step passes a frame up exactly if it ends a reception that has not become a collision, of
   a frame that is undamaged data for us; and what is passed up is the last frame that arrived, without its
   preamble.
   */
  lemma PassedUpExactly(run: Run, t: real, ev: Event)
    requires Possible(Next(run, t, ev)) && Final(Next(run, t, ev)).Ok?
    ensures var s, r := Final(run).value, Final(Next(run, t, ev)).value;
            && (EndsReception(s, t, ev) ==> LastHeard(run).Some? && Passes(s, r, LastHeard(run).value))
            && (!EndsReception(s, t, ev) ==> Delivered(r.log) == Delivered(s.log))
  {
    RunSafe(run);
    ReceivingIsLastHeard(run);
    StepHears(Final(run).value, t, ev);
  }
}
