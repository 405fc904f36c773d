/**
 The CSMA/CD Ethernet MAC as a step machine.

 A `Mac` value holds every field the handlers read or write, the set of pending
 timers, the clock, and a log of what the MAC did.  `Step` is one call of
 `handleMessage`; it yields the next state, or the error that halts the run.
 The class in EtherMacModule.dfy updates the same fields in place and is proved
 equal to these functions.
 */
module EtherMac {
  import opened Simulation

  // ---------- Constants of src/linklayer/ethernet/Ethernet.h and EtherMAC.h ----------

  const GIGABIT_MAX_BURST_BYTES := 8192
  const MAX_ETHERNET_FRAME := 1518
  const GIGABIT_MIN_FRAME_WITH_EXT := 512
  const INTERFRAME_GAP_BITS := 96.0
  const ETHERNET_TXRATE := 10000000.0
  const FAST_ETHERNET_TXRATE := 100000000.0
  const GIGABIT_ETHERNET_TXRATE := 1000000000.0
  const FAST_GIGABIT_ETHERNET_TXRATE := 10000000000.0
  const SLOT_TIME := 512.0 / 10000000.0
  const GIGABIT_SLOT_TIME := 4096.0 / 1000000000.0
  const MAX_ATTEMPTS := 16
  const BACKOFF_RANGE_LIMIT := 10
  const JAM_SIGNAL_BYTES := 4
  const PREAMBLE_AND_SFD_BYTES := 8
  const PAUSE_BITTIME := 512
  const AUTOCONFIG_PERIOD := 0.001

  // ---------- Messages ----------

  datatype FrameKind = Data | Pause(units: int)

  /** `id` stands for the identity of the message object. */
  datatype Frame = Frame(id: nat, dest: Address, src: Address, byteLength: nat, bitError: bool, kind: FrameKind)

  datatype NetMsg =
    | FrameMsg(frame: Frame, sendingTime: real)
    | JamMsg(jamLength: nat, sendingTime: real)
    | AutoconfigMsg(rate: real, halfDuplex: bool)
    | OtherMsg

  function BitLength(msg: NetMsg): nat {
    match msg
    case FrameMsg(f, _) => 8 * f.byteLength
    case JamMsg(n, _) => 8 * n
    case _ => 0
  }

  // ---------- State ----------

  datatype TxState = TxIdle | WaitIfg | Transmitting | Jamming | Backoff | Paused
  datatype RxState = RxIdle | Receiving | RxCollision
  datatype Timer = EndIfg | EndTx | EndRx | EndBackoff | EndJam | EndPause | EndAutoconfig

  /** Module parameters, fixed for a whole run. */
  datatype Config = Config(
    connected: bool, promiscuous: bool, address: Address, queueLimit: nat,
    txrate: real, duplexEnabled: bool)

  /** Quantities derived from the transmission rate. */
  datatype Params = Params(
    bitTime: real, slotTime: real, interFrameGap: real, jamDuration: real,
    shortestFrame: real, carrierExtension: bool, bursting: bool)

  /** What the MAC did, newest last. */
  datatype Effect =
    | Accept(frame: Frame)       // taken from the upper layer into the transmit queue
    | Wire(frame: Frame)         // frame with preamble put on the wire
    | WireJam                    // jam signal put on the wire
    | WireAutoconfig(rate: real, half: bool)
    | Deliver(frame: Frame)      // passed up
    | Complete(frame: Frame)     // transmission finished, removed from the queue
    | Abandon(frame: Frame)      // given up after too many collisions
    | Draw(slots: nat)           // backoff of that many slot times begins

  datatype Log = Start | Then(before: Log, last: Effect)

  /** Autoconfiguration, and the operating mode it settles. */
  datatype Mode = Mode(
    autoconf: bool, lowestRate: real, duplexVetoed: bool,
    duplex: bool, txrate: real, params: Params)

  datatype Burst = Burst(frames: nat, bytes: nat)

  /** Time totals, and since when the channel is busy. */
  datatype Usage = Usage(collision: real, success: real, busySince: real)

  datatype Mac = Mac(
    cfg: Config,
    mode: Mode,
    now: real,
    tx: TxState, rx: RxState,
    pauseRequested: int,
    queue: seq<Frame>,
    backoffs: nat, concurrent: int,
    receiving: Option<Frame>,
    burst: Burst,
    usage: Usage,
    timers: map<Timer, real>,
    log: Log)

  // ---------- Errors ----------

  /** Checks that the code makes on itself. */
  datatype Inconsistency =
    | TransmittingAndReceiving | FrameWhileRxIdle
    | NotWaitingIfg | NothingAfterIfg
    | WrongStateAtEndTx | FrameUnderTransmissionMissing
    | NotInBackoff | NothingAfterBackoff | NotJamming | NotPaused
    | UnexpectedTimer
    | NoFrame                        // a null frame would be used
    | AlreadyScheduled(timer: Timer) // the kernel refuses to schedule a message twice
    | NotScheduled(timer: Timer)     // the arrival time of an idle timer would be read

  datatype Error =
    | Internal(what: Inconsistency)
    // errors caused by the environment or the configuration
    | FrameToSelf | FrameTooLong | QueueLimitExceeded
    | UnexpectedClass | CableTooLong | NotAutoconfig | NegativeLength
    | StrayJam | StrayJamWhileTransmitting | TooManyJams
    | NonstandardRate

  datatype Outcome<+T> = Ok(value: T) | Err(error: Error) {
    predicate IsFailure() { Err? }
    function PropagateFailure<U>(): Outcome<U> requires Err? { Err(error) }
    function Extract(): T requires Ok? { value }
  }

  // ---------- Timers and log ----------

  /** `count` units of `unit` seconds. */
  function Duration(count: int, unit: real): real {
    count as real * unit
  }

  function Schedule(s: Mac, k: Timer, at: real): Outcome<Mac> {
    if k in s.timers then Err(Internal(AlreadyScheduled(k))) else Ok(s.(timers := s.timers[k := at]))
  }

  function Cancel(s: Mac, k: Timer): Mac {
    s.(timers := s.timers - {k})
  }

  function Reschedule(s: Mac, k: Timer, at: real): Mac {
    s.(timers := (s.timers - {k})[k := at])
  }

  function Note(s: Mac, e: Effect): Mac {
    s.(log := Then(s.log, e))
  }

  function ScheduleEndIfg(s: Mac): Outcome<Mac> {
    var s1 :- Schedule(s, EndIfg, s.now + s.mode.params.interFrameGap);
    Ok(s1.(tx := WaitIfg))
  }

  function ScheduleEndTx(s: Mac, wire: Frame): Outcome<Mac> {
    var s1 :- Schedule(s, EndTx, s.now + Duration(8 * wire.byteLength, s.mode.params.bitTime));
    Ok(s1.(tx := Transmitting))
  }

  function ScheduleEndPause(s: Mac, units: int): Outcome<Mac> {
    var s1 :- Schedule(s, EndPause, s.now + Duration(units * PAUSE_BITTIME, s.mode.params.bitTime));
    Ok(s1.(tx := Paused))
  }

  function ScheduleEndRx(s: Mac, bits: nat): Outcome<Mac> {
    var s1 :- Schedule(s, EndRx, s.now + Duration(bits, s.mode.params.bitTime));
    Ok(s1.(rx := Receiving))
  }

  // ---------- Start-up and autoconfiguration ----------

  predicate StandardRate(rate: real) {
    rate == ETHERNET_TXRATE || rate == FAST_ETHERNET_TXRATE ||
    rate == GIGABIT_ETHERNET_TXRATE || rate == FAST_GIGABIT_ETHERNET_TXRATE
  }

  const NO_PARAMS := Params(0.0, 0.0, 0.0, 0.0, 0.0, false, false)

  function CalculateParameters(connected: bool, rate: real, duplex: bool): Outcome<Params> {
    if !connected then Ok(NO_PARAMS)
    else if !StandardRate(rate) then Err(NonstandardRate)
    else
      var slow := rate == ETHERNET_TXRATE || rate == FAST_ETHERNET_TXRATE;
      var extension := !slow && !duplex;
      Ok(Params(
           bitTime := 1.0 / rate,
           slotTime := if slow then SLOT_TIME else GIGABIT_SLOT_TIME,
           interFrameGap := INTERFRAME_GAP_BITS / rate,
           jamDuration := Duration(8 * JAM_SIGNAL_BYTES, 1.0 / rate),
           shortestFrame := if extension then 512.0 else 64.0,
           carrierExtension := extension,
           bursting := !slow))
  }

  function Init(cfg: Config): Outcome<Mac> {
    var mode := Mode(cfg.connected, 0.0, false, cfg.duplexEnabled,
                     if cfg.connected then 0.0 else cfg.txrate, NO_PARAMS);
    var s := Mac(cfg, mode, 0.0, TxIdle, RxIdle, 0, [], 0, 0, None, Burst(0, 0), Usage(0.0, 0.0, 0.0), map[], Start);
    if cfg.connected then
      var advertise := !cfg.duplexEnabled || cfg.txrate > 0.0;
      Schedule(if advertise then Note(s, WireAutoconfig(cfg.txrate, !cfg.duplexEnabled)) else s,
               EndAutoconfig, AUTOCONFIG_PERIOD)
    else
      var p :- CalculateParameters(false, cfg.txrate, cfg.duplexEnabled);
      Ok(s.(mode := mode.(params := p)))
  }

  function ChooseRate(own: real, suggested: real): real {
    if own == 0.0 && suggested == 0.0 then FAST_ETHERNET_TXRATE
    else if own == 0.0 then suggested
    else if suggested == 0.0 then own
    else if suggested < own then suggested else own
  }

  function HandleAutoconfig(s: Mac, ev: Event): Outcome<Mac> {
    match ev
    case FromUpper(f) => ProcessFromUpper(s, f)
    case FromNetwork(AutoconfigMsg(rate, half)) =>
      var m := s.mode;
      Ok(s.(mode := m.(
            lowestRate := if rate > 0.0 && (rate < m.lowestRate || m.lowestRate == 0.0) then rate else m.lowestRate,
            duplexVetoed := m.duplexVetoed || half)))
    case FromNetwork(_) => Err(NotAutoconfig)
    case Expire(_, _) =>
      var rate := ChooseRate(s.cfg.txrate, s.mode.lowestRate);
      var duplex := s.cfg.duplexEnabled && !s.mode.duplexVetoed;
      var p :- CalculateParameters(s.cfg.connected, rate, duplex);
      var s1 := s.(mode := s.mode.(autoconf := false, txrate := rate, duplex := duplex, params := p));
      if s1.queue != [] then ScheduleEndIfg(s1) else Ok(s1)
  }

  // ---------- Upper layer ----------

  function EnqueueFromUpper(s: Mac, f: Frame): Outcome<Mac> {
    if f.dest == s.cfg.address then Err(FrameToSelf)
    else if f.byteLength > MAX_ETHERNET_FRAME then Err(FrameTooLong)
    else if f.kind.Data? then
      if s.cfg.queueLimit != 0 && |s.queue| > s.cfg.queueLimit then Err(QueueLimitExceeded)
      else
        var g := if f.src == UNSPECIFIED then f.(src := s.cfg.address) else f;
        Ok(Note(s.(queue := s.queue + [g]), Accept(g)))
    else
      Ok(Note(s.(queue := [f] + s.queue), Accept(f)))
  }

  function ProcessFromUpper(s: Mac, f: Frame): Outcome<Mac> {
    var s1 :- EnqueueFromUpper(s, f);
    if !s1.mode.autoconf && (s1.mode.duplex || s1.rx.RxIdle?) && s1.tx.TxIdle? then ScheduleEndIfg(s1) else Ok(s1)
  }

  // ---------- Network ----------

  function SendJam(s: Mac): Outcome<Mac> {
    var s1 :- Schedule(Note(s, WireJam), EndJam, s.now + s.mode.params.jamDuration);
    Ok(s1.(tx := Jamming))
  }

  function ProcessPauseCommand(s: Mac, units: int): Outcome<Mac> {
    match s.tx
    case TxIdle => if units > 0 then ScheduleEndPause(s, units) else Ok(s)
    case Paused =>
      var s1 := Cancel(s, EndPause);
      if units > 0 then ScheduleEndPause(s1, units) else Ok(s1)
    case _ => Ok(s.(pauseRequested := units))
  }

  function ReceptionComplete(s: Mac, f: Frame): Outcome<Mac> {
    match f.kind
    case Pause(units) => ProcessPauseCommand(s, units)
    case Data =>
      if f.bitError then Ok(s)
      else if f.byteLength < PREAMBLE_AND_SFD_BYTES then Err(NegativeLength)
      else if !s.cfg.promiscuous && f.dest != BROADCAST && f.dest != s.cfg.address then Ok(s)
      else Ok(Note(s, Deliver(f.(byteLength := f.byteLength - PREAMBLE_AND_SFD_BYTES))))
  }

  /** A frame hits our own half-duplex transmission. */
  function CollideWhileTransmitting(s: Mac, msg: NetMsg): Outcome<Mac> {
    if msg.JamMsg? then Err(StrayJamWhileTransmitting)
    else
      var s1 :- SendJam(Cancel(s, EndTx));
      ReceiveCollision(s1, s.now + Duration(BitLength(msg), s.mode.params.bitTime))
  }

  /** The colliding frame is heard to its end, and at least as long as our jam signal. */
  function ReceiveCollision(s: Mac, endRxTime: real): Outcome<Mac> {
    Schedule(s.(rx := RxCollision, concurrent := s.concurrent + 1),
             EndRx, Max(endRxTime, s.now + s.mode.params.jamDuration))
  }

  function StartReception(s: Mac, msg: NetMsg): Outcome<Mac> {
    if !msg.FrameMsg? then Err(StrayJam)
    else if s.receiving.Some? then Err(Internal(FrameWhileRxIdle))
    else
      var s1 :- ScheduleEndRx(s.(concurrent := s.concurrent + 1, receiving := Some(msg.frame)), BitLength(msg));
      Ok(s1.(usage := s1.usage.(busySince := s1.now)))
  }

  /** The next frame begins less than a bit time before the current one ends. */
  function BackToBack(s: Mac, f: Frame): Outcome<Mac> {
    if s.receiving.None? then Err(Internal(NoFrame))
    else
      var s1 :- ReceptionComplete(Cancel(s, EndRx).(receiving := None), s.receiving.value);
      ScheduleEndRx(s1.(receiving := Some(f)), 8 * f.byteLength)
  }

  function Overlap(s: Mac, msg: NetMsg): Outcome<Mac> {
    var endRxTime := s.now + Duration(BitLength(msg), s.mode.params.bitTime);
    if msg.JamMsg? then
      if s.concurrent <= 0 then Err(TooManyJams)
      else
        var s1 := s.(concurrent := s.concurrent - 1);
        Ok(EnterCollision(if s1.concurrent == 0 then Reschedule(s1, EndRx, endRxTime) else s1))
    else if EndRx !in s.timers then Err(Internal(NotScheduled(EndRx)))
    else
      var s1 := s.(concurrent := s.concurrent + 1);
      Ok(EnterCollision(if s.timers[EndRx] < endRxTime then Reschedule(s1, EndRx, endRxTime) else s1))
  }

  function EnterCollision(s: Mac): Mac {
    s.(rx := RxCollision, receiving := if s.rx.Receiving? then None else s.receiving)
  }

  function ProcessFromNetwork(s: Mac, msg: NetMsg): Outcome<Mac> {
    if msg.OtherMsg? || msg.AutoconfigMsg? then Err(UnexpectedClass)
    else if !s.mode.duplex && s.now - msg.sendingTime >= s.mode.params.shortestFrame then Err(CableTooLong)
    else if !s.mode.duplex && s.tx.Transmitting? then CollideWhileTransmitting(s, msg)
    else if s.rx.RxIdle? then StartReception(s, msg)
    else if s.rx.Receiving? && msg.FrameMsg? then
      if EndRx !in s.timers then Err(Internal(NotScheduled(EndRx)))
      else if s.timers[EndRx] - s.now < s.mode.params.bitTime then BackToBack(s, msg.frame)
      else Overlap(s, msg)
    else Overlap(s, msg)
  }

  // ---------- Timers ----------

  function WithPreamble(f: Frame): Frame {
    f.(byteLength := f.byteLength + PREAMBLE_AND_SFD_BYTES)
  }

  function PutOnWire(s: Mac, wire: Frame): Mac {
    Note(if s.mode.params.bursting then s.(burst := Burst(s.burst.frames + 1, wire.byteLength)) else s, Wire(wire))
  }

  function StartFrameTransmission(s: Mac): Outcome<Mac> {
    if s.queue == [] then Err(Internal(NoFrame))
    else
      var wire := WithPreamble(s.queue[0]);
      var s1 := PutOnWire(s, wire);
      if !s1.mode.duplex && !s1.rx.RxIdle? then
        var s2 :- SendJam(s1);
        Ok(EnterCollision(s2))
      else
        var s2 :- ScheduleEndTx(s1, wire);
        Ok(if !s2.mode.duplex then s2.(usage := s2.usage.(busySince := s2.now)) else s2)
  }

  function Extended(f: Frame): Frame {
    if f.byteLength < GIGABIT_MIN_FRAME_WITH_EXT then f.(byteLength := GIGABIT_MIN_FRAME_WITH_EXT) else f
  }

  /** Carrier extension of the head frame, and the start of a burst. */
  function PrepareHead(s: Mac): Mac
    requires s.queue != []
  {
    s.(queue := if s.mode.params.carrierExtension then [Extended(s.queue[0])] + s.queue[1..] else s.queue,
       burst := if s.mode.params.bursting then Burst(0, 0) else s.burst)
  }

  function HandleEndIfg(s: Mac): Outcome<Mac> {
    if !s.tx.WaitIfg? then Err(Internal(NotWaitingIfg))
    else if s.queue == [] then Err(Internal(NothingAfterIfg))
    else StartFrameTransmission(PrepareHead(s))
  }

  function BeginSendFrames(s: Mac): Outcome<Mac> {
    if s.queue != [] then ScheduleEndIfg(s) else Ok(s.(tx := TxIdle))
  }

  function AddSuccess(u: Usage, now: real): Usage {
    u.(success := u.success + (now - u.busySince))
  }

  function AddCollision(u: Usage, now: real): Usage {
    u.(collision := u.collision + (now - u.busySince))
  }

  /** The head frame has been sent: it leaves the queue and the attempt counter is reset. */
  function FinishHead(s: Mac): Mac
    requires s.queue != []
  {
    Note(s.(queue := s.queue[1..],
            usage := if s.mode.duplex then s.usage else AddSuccess(s.usage, s.now),
            backoffs := 0),
         Complete(s.queue[0]))
  }

  /** After a transmission: obey a stored PAUSE, continue a burst, or wait for the gap. */
  function Continue(s: Mac): Outcome<Mac> {
    if s.pauseRequested > 0 then
      var s1 :- ScheduleEndPause(s, s.pauseRequested);
      Ok(s1.(pauseRequested := 0))
    else if s.mode.params.bursting && s.queue != [] && s.burst.bytes < GIGABIT_MAX_BURST_BYTES then
      StartFrameTransmission(s)
    else BeginSendFrames(s)
  }

  function HandleEndTx(s: Mac): Outcome<Mac> {
    if !s.tx.Transmitting? || (!s.mode.duplex && !s.rx.RxIdle?) then Err(Internal(WrongStateAtEndTx))
    else if s.queue == [] then Err(Internal(FrameUnderTransmissionMissing))
    else Continue(FinishHead(s))
  }

  /** The reception is completed, or the collision is over, and its time counted. */
  function EndReception(s: Mac): Outcome<Mac> {
    if s.rx.Receiving? then
      if s.receiving.None? then Err(Internal(NoFrame))
      else
        var r :- ReceptionComplete(s.(receiving := None), s.receiving.value);
        Ok(r.(usage := AddSuccess(r.usage, r.now)))
    else Ok(s.(usage := AddCollision(s.usage, s.now)))
  }

  /** The receiver falls idle, and an idle transmitter may begin. */
  function ReceiverIdle(s: Mac): Outcome<Mac> {
    var s1 := s.(rx := RxIdle, concurrent := 0);
    if s1.tx.TxIdle? && s1.queue != [] then ScheduleEndIfg(s1) else Ok(s1)
  }

  function HandleEndRx(s: Mac): Outcome<Mac> {
    var s1 :- EndReception(s);
    ReceiverIdle(s1)
  }

  function HandleEndBackoff(s: Mac): Outcome<Mac> {
    if !s.tx.Backoff? then Err(Internal(NotInBackoff))
    else if s.queue == [] then Err(Internal(NothingAfterBackoff))
    else if s.rx.RxIdle? then ScheduleEndIfg(s)
    else Ok(s.(tx := TxIdle))
  }

  function BackoffRange(k: nat): nat {
    if k >= BACKOFF_RANGE_LIMIT then 1024 else Pow2(k)
  }

  function Pow2(k: nat): (p: nat)
    ensures p >= 1
  {
    if k == 0 then 1 else 2 * Pow2(k - 1)
  }

  /** End of jamming: back off for `slot` slot times, or give the frame up. */
  function HandleEndJam(s: Mac, slot: nat): Outcome<Mac> {
    if !s.tx.Jamming? then Err(Internal(NotJamming))
    else if s.backoffs + 1 > MAX_ATTEMPTS then
      if s.queue == [] then Err(Internal(NoFrame))
      else Ok(Note(s.(queue := s.queue[1..], tx := TxIdle, backoffs := 0), Abandon(s.queue[0])))
    else
      var s1 :- Schedule(s.(backoffs := s.backoffs + 1), EndBackoff, s.now + Duration(slot, s.mode.params.slotTime));
      Ok(Note(s1.(tx := Backoff), Draw(slot)))
  }

  function HandleEndPause(s: Mac): Outcome<Mac> {
    if !s.tx.Paused? then Err(Internal(NotPaused)) else BeginSendFrames(s)
  }

  function HandleTimer(s: Mac, k: Timer, slot: nat): Outcome<Mac> {
    match k
    case EndIfg => HandleEndIfg(s)
    case EndTx => HandleEndTx(s)
    case EndRx => HandleEndRx(s)
    case EndBackoff => HandleEndBackoff(s)
    case EndJam => HandleEndJam(s, slot)
    case EndPause => HandleEndPause(s)
    case EndAutoconfig => Err(Internal(UnexpectedTimer))
  }

  // ---------- One event ----------

  /** `slot` is the random number drawn if a backoff begins. */
  datatype Event =
    | FromUpper(frame: Frame)
    | FromNetwork(msg: NetMsg)
    | Expire(timer: Timer, slot: nat)

  /** The kernel has removed the expiring timer and advanced the clock. */
  function Arrive(s: Mac, t: real, ev: Event): Mac {
    s.(now := t, timers := if ev.Expire? then s.timers - {ev.timer} else s.timers)
  }

  function HandleMessage(s: Mac, ev: Event): Outcome<Mac> {
    if s.mode.autoconf then HandleAutoconfig(s, ev)
    else if !s.mode.duplex && s.tx.Transmitting? && !s.rx.RxIdle? then Err(Internal(TransmittingAndReceiving))
    else
      match ev
      case FromUpper(f) => ProcessFromUpper(s, f)
      case FromNetwork(msg) => ProcessFromNetwork(s, msg)
      case Expire(k, slot) => HandleTimer(s, k, slot)
  }

  function Step(s: Mac, t: real, ev: Event): Outcome<Mac> {
    HandleMessage(Arrive(s, t, ev), ev)
  }

  /**
   Events the simulation kernel can deliver next: time does not run backwards, no
   pending timer is overtaken, and a timer expires at the time it was set for.
   Events at the same instant come in any order.
   */
  ghost predicate Enabled(s: Mac, t: real, ev: Event) {
    && s.now <= t
    && (forall k :: k in s.timers ==> t <= s.timers[k])
    && (ev.Expire? ==> ev.timer in s.timers && s.timers[ev.timer] == t)
    && (ev.Expire? && ev.timer.EndJam? && s.backoffs < MAX_ATTEMPTS ==> ev.slot < BackoffRange(s.backoffs + 1))
  }
}
