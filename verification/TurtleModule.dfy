/**
 The turtle mobility module: the script interpreter's fields updated in place, and the clock
 it advances.
 */
module TurtleModule {
  import opened Simulation
  import opened TurtleScript
  import opened TurtleLegs

  /** Statements run within one leg: all but the last take no time. */
  ghost predicate OneLeg(ran: seq<Stmt>) {
    forall i :: 0 <= i < |ran| - 1 ==> TimeOf(ran[i]) == 0.0
  }

  function LegTime(ran: seq<Stmt>): real {
    if ran == [] then 0.0 else TimeOf(ran[|ran| - 1])
  }

  lemma ExtendLeg(ran: seq<Stmt>, s: Stmt)
    requires OneLeg(ran) && LegTime(ran) == 0.0
    ensures OneLeg(ran + [s]) && LegTime(ran + [s]) == TimeOf(s)
  {
  }

  /** One more statement of a run, and what is ahead of it if the script is sturdy. */
  lemma NextStep(script: seq<Stmt>, n: nat, m: Machine)
    requires Run(script, n) == Running(m) && m.cursor.Some? && (Sturdy(script) ==> InStep(m))
    ensures Run(script, n + 1) == Step(m)
    ensures var s := m.cursor.value.Current();
            && (Erroneous(s) ==> Step(m) == Error)
            && (Sturdy(script) && !Erroneous(s) ==>
                  && Step(m).Running? && InStep(Step(m).machine)
                  && (TimeOf(s) == 0.0 ==> LegAhead(Step(m).machine) < LegAhead(m)))
  {
    if Sturdy(script) && !Erroneous(m.cursor.value.Current()) {
      StepWithin(m);
    }
  }

  class TurtleMobility {
    const turtleScript: seq<Stmt>

    var nextStatement: Option<Cursor>
    var loopVars: seq<int>
    var targetTime: real
    var stationary: bool

    /** The statements run since the script was rewound. */
    ghost var executed: seq<Stmt>

    ghost function View(): Machine
      reads this
    {
      Machine(nextStatement, loopVars, executed)
    }

    /** The fields are what running the script from its beginning has made of them. */
    ghost predicate Valid()
      reads this
    {
      Run(turtleScript, |executed|) == Running(View()) && (Sturdy(turtleScript) ==> InStep(View()))
    }

    constructor (script: seq<Stmt>)
      ensures turtleScript == script && Valid() && View() == Begin(script)
    {
      turtleScript := script;
      nextStatement := if script == [] then None else Some(Top(script, 0));
      loopVars, executed := [], [];
      targetTime, stationary := 0.0, false;
      new;
      if Sturdy(script) {
        BeginInStep(script);
      }
    }

    /** Sets the script to its beginning, without running anything. */
    method Rewind()
      modifies this`nextStatement, this`loopVars, this`executed
      ensures Valid() && View() == Begin(turtleScript)
    {
      nextStatement := if turtleScript == [] then None else Some(Top(turtleScript, 0));
      while loopVars != []
        invariant nextStatement == Begin(turtleScript).cursor
        decreases |loopVars|
      {
        loopVars := loopVars[..|loopVars| - 1];
      }
      executed := [];
      if Sturdy(turtleScript) {
        BeginInStep(turtleScript);
      }
    }

    /**
     The script is run once, to find the starting position, and rewound; false if that run halts with an error
     of the script.
     */
    method Initialize(now: real) returns (ok: bool)
      requires Sturdy(turtleScript) && Valid()
      modifies this
      ensures ok ==> Valid() && View() == Begin(turtleScript) && targetTime == now
      ensures !ok ==> exists n: nat :: Run(turtleScript, n) == Error
    {
      ghost var ran;
      ok, ran := ResumeScript();
      if ok {
        targetTime := now;
        Rewind();
      }
    }

    /** Move the cursor past the current statement; false if an assertion fails. */
    method GotoNextStatement() returns (ok: bool)
      requires nextStatement.Some? && nextStatement.value.Valid()
      modifies this`nextStatement, this`loopVars
      ensures match GotoNext(old(nextStatement).value, old(loopVars), executed)
              case Running(m) => ok && View() == m
              case _ => !ok
      decreases nextStatement.value
    {
      var c := nextStatement.value;
      var hasChild := Body(c.Current()) != [];
      if hasChild && loopVars == [] {
        return false;
      }
      if hasChild && Last(loopVars) != 0 {
        nextStatement := Some(In(c, Body(c.Current()), 0));
        return true;
      }
      if hasChild {
        loopVars := Init(loopVars);
      }
      if c.pos + 1 < |c.stmts| {
        nextStatement := Some(c.At(c.pos + 1));
        return true;
      }
      if c.Top? != (loopVars == []) {
        return false;
      }
      if loopVars == [] {
        nextStatement := None;
        return true;
      }
      if Last(loopVars) != -1 {
        loopVars := Init(loopVars) + [Last(loopVars) - 1];
      }
      if Last(loopVars) != 0 {
        nextStatement := Some(c.At(0));
        return true;
      }
      nextStatement := Some(c.outer);
      ok := GotoNextStatement();
    }

    /** Run the current statement; false if it is an error. */
    method ExecuteStatement() returns (ok: bool)
      requires nextStatement.Some? && nextStatement.value.Valid()
      modifies this`loopVars, this`targetTime, this`executed
      ensures var s := nextStatement.value.Current();
              && ok == !Erroneous(s)
              && (ok ==> loopVars == Execute(s, old(loopVars)) && executed == old(executed) + [s]
                         && targetTime == old(targetTime) + if s.Action? then s.time else 0.0)
    {
      var s := nextStatement.value.Current();
      if Erroneous(s) {
        return false;
      }
      match s {
        case Repeat(count, _) => loopVars := loopVars + [if count.Some? then count.value else -1];
        case Action(_, time) => targetTime := targetTime + time;
      }
      executed := executed + [s];
      return true;
    }

    /** One step of the interpreter; false if it is an error or an assertion fails. */
    method ExecuteAndGoOn() returns (ok: bool)
      requires nextStatement.Some? && nextStatement.value.Valid()
      modifies this`nextStatement, this`loopVars, this`targetTime, this`executed
      ensures ok ==> Step(old(View())) == Running(View())
      ensures !ok ==> !Step(old(View())).Running?
      ensures ok ==> executed == old(executed) + [old(nextStatement.value.Current())]
      ensures ok ==> !Erroneous(old(nextStatement.value.Current()))
      ensures ok ==> var s := old(nextStatement.value.Current());
                targetTime == old(targetTime) + if s.Action? then s.time else 0.0
    {
      ok := ExecuteStatement();
      if ok {
        ok := GotoNextStatement();
      }
    }

    /**
     The loop body: run the current statement and go on; false if the run halts, for an error of the script or,
     unless the script is sturdy, for a failed assertion.
     */
    method RunStatement() returns (ok: bool, ghost s: Stmt)
      requires Valid() && nextStatement.Some?
      modifies this`nextStatement, this`loopVars, this`targetTime, this`executed
      ensures ok ==> Valid() && executed == old(executed) + [s] && s == old(nextStatement.value.Current())
      ensures ok ==> targetTime == old(targetTime) + TimeOf(s) && TimeOf(s) >= 0.0
      ensures ok ==> TimeOf(s) == if s.Action? then s.time else 0.0
      ensures ok && Sturdy(turtleScript) && TimeOf(s) == 0.0 ==> LegAhead(View()) < LegAhead(old(View()))
      ensures !ok ==> !Run(turtleScript, |old(executed)| + 1).Running?
      ensures !ok && Sturdy(turtleScript) ==> Run(turtleScript, |old(executed)| + 1) == Error
    {
      NextStep(turtleScript, |executed|, View());
      s := nextStatement.value.Current();
      ok := ExecuteAndGoOn();
    }

    /** What is left of a leg; nothing once time has passed. */
    ghost function LegLeft(now: real): nat
      requires Valid() && Sturdy(turtleScript)
      reads this
    {
      if nextStatement.Some? && targetTime == now then LegAhead(View()) else 0
    }

    /**
     Run statements until one takes time or the script ends; false if one is an error.  If the script is sturdy
     the loop ends, within the leg ahead.
     */
    method ResumeScript() returns (ok: bool, ghost ran: seq<Stmt>)
      requires Valid() && Sturdy(turtleScript)
      modifies this
      ensures ok ==> Valid() && executed == old(executed) + ran && |ran| <= LegAhead(old(View()))
      ensures ok ==> stationary == (old(stationary) || old(nextStatement).None?)
      ensures ok ==> OneLeg(ran) && targetTime == old(targetTime) + LegTime(ran)
      ensures ok && ran != [] ==> LegTime(ran) == if ran[|ran| - 1].Action? then ran[|ran| - 1].time else 0.0
      ensures ok ==> nextStatement.None? || targetTime > old(targetTime)
      ensures !ok ==> exists n: nat :: Run(turtleScript, n) == Error
    {
      ran := [];
      if nextStatement.None? {
        stationary := true;
        return true, ran;
      }
      var now := targetTime;
      while nextStatement.Some? && targetTime == now
        invariant Valid() && executed == old(executed) + ran && stationary == old(stationary)
        invariant OneLeg(ran) && targetTime == now + LegTime(ran) && LegTime(ran) >= 0.0
        invariant |ran| + LegLeft(now) <= LegAhead(old(View()))
        decreases LegLeft(now)
      {
        ghost var s;
        ok, s := RunStatement();
        if !ok {
          return;
        }
        ExtendLeg(ran, s);
        ran := ran + [s];
      }
      ok := true;
    }

    /**
     Over any number of calls: in a finite clean script, what has been run and what is left make up the unrolling;
     in any clean script it is the beginning of the unrolling with large enough counts for the endless blocks.
     */
    lemma Guarantees(n: int)
      requires Valid() && Clean(turtleScript) && n > |executed| + 1
      ensures Finite(turtleScript) ==>
                && (nextStatement.Some? ==> |loopVars| == nextStatement.value.Depth())
                && executed + Remaining(View()) == Unroll(turtleScript)
      ensures Bound(executed, n) <= Unroll(Bound(turtleScript, n))
    {
      if Finite(turtleScript) {
        FiniteContent(turtleScript, |executed|);
      }
      EndlessContent(turtleScript, |executed|, n);
    }
  }
}
