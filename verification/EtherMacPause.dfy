/**
 PAUSE frames are obeyed: until the time they ask for, no frame is put on the wire.
 */
module EtherMacPause {
  import opened Simulation
  import opened EtherMac
  import opened EtherMacSafety
  import opened EtherMacHistory
  import opened EtherMacTheorems

  /** The time at which a PAUSE of so many units, begun at t, is over. */
  function After(s: Mac, t: real, units: int): real {
    t + Duration(512 * units, s.mode.params.bitTime)
  }

  /**
   The PAUSE units owed after an event: those of the last PAUSE frame completed while the transmitter was busy,
   until the end of a transmission takes them, if there are any.
   */
  function OwedNext(s: Mac, t: real, ev: Event, was: int): int {
    match PauseCompleted(s, t, ev)
    case Some(units) => if s.tx.TxIdle? || s.tx.Paused? then was else units
    case None => if ev.Expire? && ev.timer.EndTx? && was > 0 then 0 else was
  }

  function Owed(run: Run): int {
    match run
    case Boot(_) => 0
    case Next(b, t, ev) => if Final(b).Err? then 0 else OwedNext(Final(b).value, t, ev, Owed(b))
  }

  /**
   Until when the MAC is asked to be silent: a PAUSE frame completed with the transmitter idle or paused asks from
   now on, and takes a pause back if it has no units; what is owed is asked from the end of a transmission on.
   */
  function SilentNext(s: Mac, t: real, ev: Event, owed: int, was: real): real {
    match PauseCompleted(s, t, ev)
    case Some(units) =>
      if s.tx.TxIdle? || s.tx.Paused? then
        if units > 0 then After(s, t, units) else if s.tx.Paused? then t else was
      else was
    case None => if ev.Expire? && ev.timer.EndTx? && owed > 0 then After(s, t, owed) else was
  }

  function SilentUntil(run: Run): real {
    match run
    case Boot(_) => 0.0
    case Next(b, t, ev) =>
      if Final(b).Err? then 0.0 else SilentNext(Final(b).value, t, ev, Owed(b), SilentUntil(b))
  }

  // ---------- What is stored is what is owed ----------

  lemma ReceptionOwes(s: Mac, f: Frame)
    requires ReceptionComplete(s, f).Ok?
    ensures ReceptionComplete(s, f).value.pauseRequested ==
            if f.kind.Pause? && !s.tx.TxIdle? && !s.tx.Paused? then f.kind.units else s.pauseRequested
  {
  }

  lemma NetworkOwes(s: Mac, t: real, msg: NetMsg)
    requires Inv(s) && Enabled(s, t, FromNetwork(msg)) && Step(s, t, FromNetwork(msg)).Ok? && !s.mode.autoconf
    ensures Step(s, t, FromNetwork(msg)).value.pauseRequested == OwedNext(s, t, FromNetwork(msg), s.pauseRequested)
  {
    var s1 := Arrive(s, t, FromNetwork(msg));
    if s1.receiving.Some? && ReceptionComplete(Cancel(s1, EndRx).(receiving := None), s1.receiving.value).Ok? {
      ReceptionOwes(Cancel(s1, EndRx).(receiving := None), s1.receiving.value);
    }
  }

  lemma EndRxOwes(s: Mac, t: real, slot: nat)
    requires Inv(s) && Enabled(s, t, Expire(EndRx, slot)) && Step(s, t, Expire(EndRx, slot)).Ok?
    ensures Step(s, t, Expire(EndRx, slot)).value.pauseRequested == OwedNext(s, t, Expire(EndRx, slot), s.pauseRequested)
  {
    var s1 := Arrive(s, t, Expire(EndRx, slot));
    assert !s.mode.autoconf;
    if s1.rx.Receiving? && ReceptionComplete(s1.(receiving := None), s1.receiving.value).Ok? {
      ReceptionOwes(s1.(receiving := None), s1.receiving.value);
    }
  }

  lemma OtherOwes(s: Mac, t: real, ev: Event)
    requires Inv(s) && Enabled(s, t, ev) && Step(s, t, ev).Ok? && !s.mode.autoconf
    requires !ev.FromNetwork? && !(ev.Expire? && ev.timer.EndRx?)
    ensures Step(s, t, ev).value.pauseRequested == OwedNext(s, t, ev, s.pauseRequested)
  {
  }

  lemma StepOwes(s: Mac, t: real, ev: Event)
    requires Inv(s) && Enabled(s, t, ev) && Step(s, t, ev).Ok?
    ensures Step(s, t, ev).value.pauseRequested == OwedNext(s, t, ev, s.pauseRequested)
  {
    if !s.mode.autoconf {
      match ev
      case FromNetwork(msg) => NetworkOwes(s, t, msg);
      case Expire(EndRx, slot) => EndRxOwes(s, t, slot);
      case _ => OtherOwes(s, t, ev);
    }
  }

  /** In every run the request stored is what is owed: nothing asked while the transmitter was busy is forgotten. */
  lemma {:induction false} OwedExactly(run: Run)
    requires Possible(run) && Final(run).Ok?
    ensures Final(run).value.pauseRequested == Owed(run)
  {
    match run
    case Boot(cfg) =>
    case Next(b, t, ev) =>
      OwedExactly(b);
      RunSafe(b);
      StepOwes(Final(b).value, t, ev);
  }

  // ---------- What is asked is done ----------

  /** The pause timer, if it runs, is set to that time; and it runs until then. */
  ghost predicate Held(s: Mac, until: real) {
    && (EndPause in s.timers ==> s.timers[EndPause] == until)
    && (s.now < until ==> EndPause in s.timers)
  }

  /** The pause timer is as it was. */
  predicate SameTimer(s: Mac, r: Mac) {
    (EndPause in r.timers <==> EndPause in s.timers) && (EndPause in s.timers ==> r.timers[EndPause] == s.timers[EndPause])
  }

  lemma BackToBackKeeps(s: Mac, f: Frame)
    requires BackToBack(s, f).Ok? && s.receiving.Some? && s.receiving.value.kind.Data?
    ensures SameTimer(s, BackToBack(s, f).value) && BackToBack(s, f).value.now == s.now
  {
  }

  lemma NetworkKeeps(s: Mac, t: real, msg: NetMsg)
    requires Inv(s) && Enabled(s, t, FromNetwork(msg)) && Step(s, t, FromNetwork(msg)).Ok? && !s.mode.autoconf
    requires PauseCompleted(s, t, FromNetwork(msg)).None?
    ensures SameTimer(s, Step(s, t, FromNetwork(msg)).value) && Step(s, t, FromNetwork(msg)).value.now == t
  {
    var s1 := Arrive(s, t, FromNetwork(msg));
    if msg.FrameMsg? && s1.receiving.Some? && s1.receiving.value.kind.Data? && BackToBack(s1, msg.frame).Ok? {
      BackToBackKeeps(s1, msg.frame);
    }
  }

  lemma BackToBackHeld(s: Mac, t: real, msg: NetMsg, until: real)
    requires Inv(s) && Enabled(s, t, FromNetwork(msg)) && Step(s, t, FromNetwork(msg)).Ok? && !s.mode.autoconf && Held(s, until)
    requires PauseCompleted(s, t, FromNetwork(msg)).Some?
    ensures Held(Step(s, t, FromNetwork(msg)).value, SilentNext(s, t, FromNetwork(msg), s.pauseRequested, until))
  {
    assert Step(s, t, FromNetwork(msg)) == BackToBack(Arrive(s, t, FromNetwork(msg)), msg.frame);
  }

  lemma NetworkHeld(s: Mac, t: real, msg: NetMsg, until: real)
    requires Inv(s) && Enabled(s, t, FromNetwork(msg)) && Step(s, t, FromNetwork(msg)).Ok? && !s.mode.autoconf && Held(s, until)
    ensures Held(Step(s, t, FromNetwork(msg)).value, SilentNext(s, t, FromNetwork(msg), s.pauseRequested, until))
  {
    if PauseCompleted(s, t, FromNetwork(msg)).None? {
      NetworkKeeps(s, t, msg);
    } else {
      BackToBackHeld(s, t, msg, until);
    }
  }

  lemma EndRxHeld(s: Mac, t: real, slot: nat, until: real)
    requires Inv(s) && Enabled(s, t, Expire(EndRx, slot)) && Step(s, t, Expire(EndRx, slot)).Ok? && Held(s, until)
    ensures Held(Step(s, t, Expire(EndRx, slot)).value, SilentNext(s, t, Expire(EndRx, slot), s.pauseRequested, until))
  {
    assert !s.mode.autoconf;
  }

  lemma EndTxHeld(s: Mac, t: real, slot: nat, until: real)
    requires Inv(s) && Enabled(s, t, Expire(EndTx, slot)) && Step(s, t, Expire(EndTx, slot)).Ok? && Held(s, until)
    ensures Held(Step(s, t, Expire(EndTx, slot)).value, SilentNext(s, t, Expire(EndTx, slot), s.pauseRequested, until))
  {
    assert !s.mode.autoconf && EndPause !in s.timers;
  }

  lemma UpperHeld(s: Mac, t: real, f: Frame, until: real)
    requires Inv(s) && Enabled(s, t, FromUpper(f)) && Step(s, t, FromUpper(f)).Ok? && Held(s, until)
    ensures Held(Step(s, t, FromUpper(f)).value, SilentNext(s, t, FromUpper(f), s.pauseRequested, until))
  {
  }

  lemma EndIfgHeld(s: Mac, t: real, slot: nat, until: real)
    requires Inv(s) && Enabled(s, t, Expire(EndIfg, slot)) && Step(s, t, Expire(EndIfg, slot)).Ok? && Held(s, until)
    ensures Held(Step(s, t, Expire(EndIfg, slot)).value, SilentNext(s, t, Expire(EndIfg, slot), s.pauseRequested, until))
  {
    assert !s.mode.autoconf && EndPause !in s.timers;
  }

  lemma OtherTimerHeld(s: Mac, t: real, ev: Event, until: real)
    requires Inv(s) && Enabled(s, t, ev) && Step(s, t, ev).Ok? && !s.mode.autoconf && Held(s, until)
    requires ev.Expire? && (ev.timer.EndBackoff? || ev.timer.EndJam? || ev.timer.EndPause?)
    ensures Held(Step(s, t, ev).value, SilentNext(s, t, ev, s.pauseRequested, until))
  {
  }

  lemma StepHeld(s: Mac, t: real, ev: Event, until: real)
    requires Inv(s) && Enabled(s, t, ev) && Step(s, t, ev).Ok? && Held(s, until)
    ensures Held(Step(s, t, ev).value, SilentNext(s, t, ev, s.pauseRequested, until))
  {
    if !s.mode.autoconf {
      match ev
      case FromUpper(f) => UpperHeld(s, t, f, until);
      case FromNetwork(msg) => NetworkHeld(s, t, msg, until);
      case Expire(EndRx, slot) => EndRxHeld(s, t, slot, until);
      case Expire(EndTx, slot) => EndTxHeld(s, t, slot, until);
      case Expire(EndIfg, slot) => EndIfgHeld(s, t, slot, until);
      case Expire(EndAutoconfig, _) =>
      case Expire(_, _) => OtherTimerHeld(s, t, ev, until);
    }
  }

  /** A step before the pause is over puts nothing on the wire. */
  lemma StepSilent(s: Mac, t: real, ev: Event, until: real)
    requires Inv(s) && Enabled(s, t, ev) && Step(s, t, ev).Ok? && Held(s, until) && t < until
    ensures s.tx.Paused? && OnWire(Step(s, t, ev).value.log) == OnWire(s.log)
  {
    var s1 := Arrive(s, t, ev);
    assert EndPause in s.timers && !s.mode.autoconf;
    match ev
    case FromUpper(f) => UpperTransition(s1, f);
    case FromNetwork(msg) => NetworkTransition(s1, msg);
    case Expire(EndRx, _) => EndRxTransition(s1);
    case Expire(_, _) => assert false;
  }

  lemma {:induction false} RunHeld(run: Run)
    requires Possible(run) && Final(run).Ok?
    ensures Held(Final(run).value, SilentUntil(run))
  {
    match run
    case Boot(cfg) =>
    case Next(b, t, ev) =>
      RunHeld(b);
      RunSafe(b);
      OwedExactly(b);
      StepHeld(Final(b).value, t, ev, SilentUntil(b));
  }

  /**
   In every run: before the time until which PAUSE frames ask for silence, the transmitter is in PAUSE state, its
   timer is set to that very time, and no frame is put on the wire.
   */
  lemma PauseObeyed(run: Run, t: real, ev: Event)
    requires Possible(Next(run, t, ev)) && Final(Next(run, t, ev)).Ok? && t < SilentUntil(run)
    ensures var s, r := Final(run).value, Final(Next(run, t, ev)).value;
            && s.tx.Paused? && EndPause in s.timers && s.timers[EndPause] == SilentUntil(run)
            && OnWire(r.log) == OnWire(s.log)
  {
    RunHeld(run);
    RunSafe(run);
    StepSilent(Final(run).value, t, ev, SilentUntil(run));
  }

  /** The run goes on from another, and no PAUSE frame is completed since. */
  predicate GoesOnWithoutPause(run: Run, from: Run) {
    run == from ||
    (&& run.Next? && GoesOnWithoutPause(run.before, from) && Final(run.before).Ok?
     && PauseCompleted(Final(run.before).value, run.t, run.ev).None?)
  }

  lemma {:induction false} StaysSilent(run: Run, from: Run)
    requires Possible(run) && Final(run).Ok? && GoesOnWithoutPause(run, from)
    requires Final(run).value.now < SilentUntil(from)
    ensures Final(from).Ok? && SilentUntil(run) == SilentUntil(from) && Final(run).value.tx.Paused?
    ensures OnWire(Final(run).value.log) == OnWire(Final(from).value.log)
  {
    RunSafe(run);
    if run != from {
      assert Final(run).value.now == run.t by { ClockIs(run); }
      StaysSilent(run.before, from);
      PauseObeyed(run.before, run.t, run.ev);
      RunSafe(run.before);
    }
    RunHeld(run);
  }

  lemma ClockIs(run: Run)
    requires Possible(run) && run.Next? && Final(run).Ok?
    ensures Final(run).value.now == run.t
  {
    RunSafe(run.before);
    StepBackoff(Final(run.before).value, run.t, run.ev);
  }

  /**
   What was owed is done as well: if the end of a transmission finds n units owed, no frame is put on the wire for
   n times 512 bit times after it, unless another PAUSE frame is completed.
   */
  lemma SilentAfterTransmission(before: Run, t: real, slot: nat, run: Run)
    requires Possible(run) && Final(run).Ok? && GoesOnWithoutPause(run, Next(before, t, Expire(EndTx, slot)))
    requires Final(before).Ok? && Owed(before) > 0
    ensures Final(run).value.now < t + Duration(512 * Owed(before), Final(before).value.mode.params.bitTime) ==>
              && Final(run).value.tx.Paused? && Final(Next(before, t, Expire(EndTx, slot))).Ok?
              && OnWire(Final(run).value.log) == OnWire(Final(Next(before, t, Expire(EndTx, slot))).value.log)
  {
    if Final(run).value.now < SilentUntil(Next(before, t, Expire(EndTx, slot))) {
      StaysSilent(run, Next(before, t, Expire(EndTx, slot)));
    }
  }

  /**
   After a PAUSE frame of n units, completed with the transmitter idle or paused, no frame is put on the wire for
   n times 512 bit times, whatever else happens, unless another PAUSE frame is completed.
   */
  lemma SilentAfterPause(before: Run, t: real, ev: Event, run: Run)
    requires Possible(run) && Final(run).Ok? && GoesOnWithoutPause(run, Next(before, t, ev)) && Final(before).Ok?
    requires Final(before).value.tx.TxIdle? || Final(before).value.tx.Paused?
    ensures var s := Final(before).value;
            match PauseCompleted(s, t, ev)
            case None => true
            case Some(n) =>
              n > 0 && Final(run).value.now < t + Duration(512 * n, s.mode.params.bitTime) ==>
                && Final(run).value.tx.Paused? && Final(Next(before, t, ev)).Ok?
                && OnWire(Final(run).value.log) == OnWire(Final(Next(before, t, ev)).value.log)
  {
    var completed := PauseCompleted(Final(before).value, t, ev);
    if completed.Some? && completed.value > 0 && Final(run).value.now < SilentUntil(Next(before, t, ev)) {
      StaysSilent(run, Next(before, t, ev));
    }
  }
}
