/**
 What the MAC has done so far, read off its log, and how one step may extend it.
 */
module EtherMacHistory {
  import opened Simulation
  import opened EtherMac
  import opened EtherMacSafety

  // ---------- Readings of the log ----------

  /** Frames taken from the upper layer, oldest first. */
  function Accepted(l: Log): seq<Frame> {
    match l
    case Start => []
    case Then(b, Accept(f)) => Accepted(b) + [f]
    case Then(b, _) => Accepted(b)
  }

  /** Frames the MAC is done with, completed or abandoned, oldest first. */
  function Finished(l: Log): seq<Frame> {
    match l
    case Start => []
    case Then(b, Complete(f)) => Finished(b) + [f]
    case Then(b, Abandon(f)) => Finished(b) + [f]
    case Then(b, _) => Finished(b)
  }

  predicate NoPauseFromUpper(l: Log) {
    match l
    case Start => true
    case Then(b, Accept(f)) => f.kind.Data? && NoPauseFromUpper(b)
    case Then(b, _) => NoPauseFromUpper(b)
  }

  predicate NothingAbandoned(l: Log) {
    match l
    case Start => true
    case Then(_, Abandon(_)) => false
    case Then(b, _) => NothingAbandoned(b)
  }

  /** Frames put on the wire, oldest first. */
  function OnWire(l: Log): seq<Frame> {
    match l
    case Start => []
    case Then(b, Wire(f)) => OnWire(b) + [f]
    case Then(b, _) => OnWire(b)
  }

  /** The frame most recently put on the wire. */
  function LastOnWire(l: Log): Option<Frame> {
    match l
    case Start => None
    case Then(_, Wire(f)) => Some(f)
    case Then(b, _) => LastOnWire(b)
  }

  /** PAUSE frames submitted from above since a frame was last put on the wire. */
  function PausesSinceWire(l: Log): nat {
    match l
    case Start => 0
    case Then(_, Wire(_)) => 0
    case Then(b, Accept(f)) => PausesSinceWire(b) + if f.kind.Pause? then 1 else 0
    case Then(b, _) => PausesSinceWire(b)
  }

  /** Backoffs drawn since a frame was last completed or abandoned. */
  function Draws(l: Log): seq<nat> {
    match l
    case Start => []
    case Then(_, Complete(_)) => []
    case Then(_, Abandon(_)) => []
    case Then(b, Draw(n)) => Draws(b) + [n]
    case Then(b, _) => Draws(b)
  }

  /** Collisions of our own, each marked by a jam signal, since a frame was last completed or abandoned. */
  function Collisions(l: Log): nat {
    match l
    case Start => 0
    case Then(_, Complete(_)) => 0
    case Then(_, Abandon(_)) => 0
    case Then(b, WireJam) => Collisions(b) + 1
    case Then(b, _) => Collisions(b)
  }

  // ---------- The ways one step changes queue, log and transmit state ----------

  predicate SamePhase(s: Mac, r: Mac) {
    && (r.tx.Transmitting? <==> s.tx.Transmitting?)
    && (r.tx.Jamming? <==> s.tx.Jamming?)
    && r.backoffs == s.backoffs
  }

  /** Nothing about our own frames changes; a received frame may be passed up. */
  predicate Silent(s: Mac, r: Mac) {
    && SamePhase(s, r) && r.queue == s.queue
    && (r.log == s.log || (r.log.Then? && r.log.before == s.log && r.log.last.Deliver?))
  }

  predicate Accepts(s: Mac, r: Mac) {
    && SamePhase(s, r)
    && r.log.Then? && r.log.before == s.log && r.log.last.Accept?
    && var f := r.log.last.frame;
       r.queue == if f.kind.Pause? then [f] + s.queue else s.queue + [f]
  }

  /** The head of the queue may grow by carrier extension before it is sent. */
  predicate HeadExtended(q: seq<Frame>, q': seq<Frame>) {
    q != [] && (q' == q || q' == [Extended(q[0])] + q[1..])
  }

  predicate Transmits(s: Mac, r: Mac) {
    && HeadExtended(s.queue, r.queue) && !s.tx.Jamming? && r.backoffs == s.backoffs
    && r.tx.Transmitting?
    && r.log == Then(s.log, Wire(WithPreamble(r.queue[0])))
  }

  predicate TransmitsIntoCollision(s: Mac, r: Mac) {
    && HeadExtended(s.queue, r.queue) && !s.tx.Jamming? && r.backoffs == s.backoffs
    && r.tx.Jamming?
    && r.log == Then(Then(s.log, Wire(WithPreamble(r.queue[0]))), WireJam)
  }

  predicate Interrupted(s: Mac, r: Mac) {
    && s.tx.Transmitting? && r.tx.Jamming?
    && r.queue == s.queue && r.backoffs == s.backoffs && r.log == Then(s.log, WireJam)
  }

  predicate Completes(s: Mac, r: Mac) {
    && s.tx.Transmitting? && !r.tx.Transmitting? && !r.tx.Jamming?
    && s.queue != [] && r.queue == s.queue[1..] && r.backoffs == 0
    && r.log == Then(s.log, Complete(s.queue[0]))
  }

  predicate CompletesAndBursts(s: Mac, r: Mac) {
    && s.tx.Transmitting? && r.tx.Transmitting?
    && |s.queue| > 1 && r.queue == s.queue[1..] && r.backoffs == 0
    && r.log == Then(Then(s.log, Complete(s.queue[0])), Wire(WithPreamble(r.queue[0])))
  }

  predicate BacksOff(s: Mac, r: Mac) {
    && s.tx.Jamming? && r.tx.Backoff? && r.queue == s.queue
    && s.backoffs < MAX_ATTEMPTS && r.backoffs == s.backoffs + 1
    && r.log.Then? && r.log.before == s.log && r.log.last.Draw? && r.log.last.slots < BackoffRange(r.backoffs)
  }

  predicate GivesUp(s: Mac, r: Mac) {
    && s.tx.Jamming? && r.tx.TxIdle?
    && s.backoffs >= MAX_ATTEMPTS && r.backoffs == 0
    && s.queue != [] && r.queue == s.queue[1..]
    && r.log == Then(s.log, Abandon(s.queue[0]))
  }

  predicate Transition(s: Mac, r: Mac) {
    || Silent(s, r) || Accepts(s, r)
    || Transmits(s, r) || TransmitsIntoCollision(s, r) || Interrupted(s, r)
    || Completes(s, r) || CompletesAndBursts(s, r)
    || BacksOff(s, r) || GivesUp(s, r)
  }

  // ---------- Every step is one of these ----------

  lemma ReceptionTransition(s: Mac, f: Frame)
    ensures match ReceptionComplete(s, f)
            case Err(_) => true
            case Ok(r) =>
              && Silent(s, r) && (r.tx == s.tx || r.tx.Paused?)
              && r == s.(tx := r.tx, timers := r.timers, pauseRequested := r.pauseRequested, log := r.log)
  {
  }

  lemma UpperTransition(s: Mac, f: Frame)
    requires ProcessFromUpper(s, f).Ok?
    ensures Accepts(s, ProcessFromUpper(s, f).value) && ProcessFromUpper(s, f).value.mode == s.mode
  {
  }

  lemma NetworkTransition(s: Mac, msg: NetMsg)
    requires ProcessFromNetwork(s, msg).Ok?
    ensures var r := ProcessFromNetwork(s, msg).value;
            && r.mode == s.mode
            && if !s.mode.duplex && s.tx.Transmitting? then Interrupted(s, r) else Silent(s, r)
  {
    if s.receiving.Some? {
      ReceptionTransition(Cancel(s, EndRx).(receiving := None), s.receiving.value);
    }
  }

  lemma StartTransition(s: Mac)
    requires StartFrameTransmission(s).Ok?
    ensures var r := StartFrameTransmission(s).value;
            && r.mode == s.mode && r.queue == s.queue != [] && r.backoffs == s.backoffs
            && if s.mode.duplex || s.rx.RxIdle?
               then r.tx.Transmitting? && r.log == Then(s.log, Wire(WithPreamble(s.queue[0])))
               else r.tx.Jamming? && r.log == Then(Then(s.log, Wire(WithPreamble(s.queue[0]))), WireJam)
  {
  }

  lemma EndIfgTransition(s: Mac)
    requires HandleEndIfg(s).Ok?
    ensures var r := HandleEndIfg(s).value; r.mode == s.mode && (Transmits(s, r) || TransmitsIntoCollision(s, r))
  {
    StartTransition(PrepareHead(s));
  }

  lemma EndTxTransition(s: Mac)
    requires HandleEndTx(s).Ok?
    ensures var r := HandleEndTx(s).value; r.mode == s.mode && (Completes(s, r) || CompletesAndBursts(s, r))
  {
    var s1 := FinishHead(s);
    if s1.pauseRequested <= 0 && s1.queue != [] && StartFrameTransmission(s1).Ok? {
      StartTransition(s1);
    }
  }

  lemma EndRxTransition(s: Mac)
    requires HandleEndRx(s).Ok?
    ensures Silent(s, HandleEndRx(s).value) && HandleEndRx(s).value.mode == s.mode
  {
    if s.rx.Receiving? {
      ReceptionTransition(s.(receiving := None), s.receiving.value);
    }
  }

  lemma StepTransition(s: Mac, t: real, ev: Event)
    requires Inv(s) && Enabled(s, t, ev) && Step(s, t, ev).Ok?
    ensures Transition(s, Step(s, t, ev).value)
    ensures !s.mode.autoconf ==> Step(s, t, ev).value.mode == s.mode
  {
    var s1, r := Arrive(s, t, ev), Step(s, t, ev).value;
    assert r == HandleMessage(s1, ev).value;
    if s.mode.autoconf {
      match ev
      case FromUpper(f) => UpperTransition(s1, f);
      case FromNetwork(_) =>
      case Expire(_, _) =>
    } else {
      match ev
      case FromUpper(f) => UpperTransition(s1, f);
      case FromNetwork(msg) => NetworkTransition(s1, msg);
      case Expire(EndIfg, _) => EndIfgTransition(s1);
      case Expire(EndTx, _) => EndTxTransition(s1);
      case Expire(EndRx, _) => EndRxTransition(s1);
      case Expire(_, _) =>
    }
  }
}
