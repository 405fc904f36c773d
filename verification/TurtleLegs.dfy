/**
 How far the interpreter runs before a statement takes time: bounded for every script, endless blocks
 included, whose endless blocks contain such a statement.
 */
module TurtleLegs {
  import opened Simulation
  import opened TurtleScript

  /** Simulated time taken by executing a statement. */
  function TimeOf(s: Stmt): real {
    if s.Action? then s.time else 0.0
  }

  /** The statement takes time, or is an error. */
  predicate Stops(s: Stmt) {
    Erroneous(s) || TimeOf(s) > 0.0
  }

  /** How many statements run up to one that stops, and whether there is one; otherwise how many run in all. */
  datatype Leg = Leg(length: nat, stops: bool)

  function LegOf(stmts: seq<Stmt>): Leg
    decreases stmts, 0
  {
    if stmts == [] then Leg(0, false)
    else
      var first := LegOfOne(stmts[0]);
      if first.stops then first
      else
        var rest := LegOf(stmts[1..]);
        Leg(first.length + rest.length, rest.stops)
  }

  function LegOfOne(s: Stmt): (leg: Leg)
    ensures leg.length >= 1
    ensures Stops(s) ==> leg == Leg(1, true)
    decreases s, 1
  {
    if Stops(s) then Leg(1, true)
    else
      match s
      case Action(_, _) => Leg(1, false)
      case Repeat(count, body) =>
        var pass := LegOf(body);
        if count == Some(0) then Leg(1, false)
        else if pass.stops || count.None? then Leg(1 + pass.length, pass.stops)
        else Leg(1 + Product(count.value, pass.length), false)
  }

  function Product(count: int, length: nat): nat
    decreases if count > 0 then count else 0
  {
    if count <= 0 then 0 else length + Product(count - 1, length)
  }

  /**
   No block that is entered is empty, and every endless block that is entered contains a statement that stops;
   blocks repeated zero times are not entered.
   */
  predicate Sturdy(stmts: seq<Stmt>)
    decreases stmts, 0
  {
    stmts == [] || (SturdyOne(stmts[0]) && Sturdy(stmts[1..]))
  }

  predicate SturdyOne(s: Stmt)
    decreases s, 1
  {
    s.Repeat? && !Erroneous(s) ==>
      && s.body != []
      && (s.count != Some(0) ==> Sturdy(s.body) && (s.count.None? ==> LegOf(s.body).stops))
  }

  lemma {:induction false} SturdyAt(stmts: seq<Stmt>, i: nat)
    requires Sturdy(stmts) && i < |stmts|
    ensures SturdyOne(stmts[i])
  {
    if i > 0 {
      SturdyAt(stmts[1..], i - 1);
    }
  }

  /** A clean script without endless blocks is sturdy. */
  lemma {:induction false} CleanIsSturdy(stmts: seq<Stmt>)
    requires Finite(stmts) && Clean(stmts)
    ensures Sturdy(stmts)
    decreases stmts
  {
    if stmts != [] {
      var s := stmts[0];
      if s.Repeat? && s.count != Some(0) {
        CleanIsSturdy(s.body);
      }
      CleanIsSturdy(stmts[1..]);
    }
  }

  // ---------- Counters and cursor ----------

  /** One counter for each enclosing block: -1 for an endless one, positive otherwise; and only sturdy blocks. */
  ghost predicate Stacked(c: Cursor, loops: seq<int>) {
    && c.Valid() && |loops| == c.Depth() && Sturdy(c.stmts)
    && (c.In? ==>
          && Stacked(c.outer, Init(loops)) && !Erroneous(c.outer.Current()) && c.outer.Current().count != Some(0)
          && if c.outer.Current().count.None? then Last(loops) == -1 else Last(loops) > 0)
  }

  ghost predicate InStep(m: Machine) {
    match m.cursor
    case None => m.loops == []
    case Some(c) => Stacked(c, m.loops)
  }

  /** Statements that run after the current one up to one that stops, or to the end. */
  function ToGo(c: Cursor, loops: seq<int>): nat
    requires c.Valid() && |loops| == c.Depth()
  {
    var rest := LegOf(c.stmts[c.pos + 1..]);
    if c.Top? || rest.stops then rest.length
    else
      var pass := LegOf(c.stmts);
      if Last(loops) == -1 || (Last(loops) > 1 && pass.stops) then rest.length + pass.length
      else rest.length + Product(Last(loops) - 1, pass.length) + ToGo(c.outer, Init(loops))
  }

  /** The same, the current statement included. */
  function LegFrom(c: Cursor, loops: seq<int>): nat
    requires c.Valid() && |loops| == c.Depth()
  {
    var first := LegOfOne(c.Current());
    if first.stops then first.length else first.length + ToGo(c, loops)
  }

  function LegAhead(m: Machine): nat
    requires m.cursor.Some? ==> m.cursor.value.Valid() && |m.loops| == m.cursor.value.Depth()
  {
    if m.cursor.None? then 0 else LegFrom(m.cursor.value, m.loops)
  }

  // ---------- Going on from a finished statement ----------

  /** In step, with at most `n` statements ahead before one stops. */
  ghost predicate Within(r: Result, n: nat) {
    r.Running? && InStep(r.machine) && LegAhead(r.machine) <= n
  }

  lemma SiblingWithin(c: Cursor, loops: seq<int>, log: seq<Stmt>)
    requires Stacked(c, loops) && c.pos + 1 < |c.stmts|
    ensures Within(Running(Machine(Some(c.At(c.pos + 1)), loops, log)), ToGo(c, loops))
  {
    var rest, next := c.stmts[c.pos + 1..], c.At(c.pos + 1);
    assert rest[0] == next.Current() && rest[1..] == next.stmts[next.pos + 1..];
    SiblingFrom(c, loops, LegOfOne(rest[0]), LegOf(rest[1..]), LegOf(rest));
  }

  lemma SiblingFrom(c: Cursor, loops: seq<int>, first: Leg, later: Leg, rest: Leg)
    requires c.Valid() && |loops| == c.Depth() && c.pos + 1 < |c.stmts|
    requires first == LegOfOne(c.stmts[c.pos + 1]) && later == LegOf(c.stmts[c.pos + 2..]) && rest == LegOf(c.stmts[c.pos + 1..])
    requires rest == if first.stops then first else Leg(first.length + later.length, later.stops)
    ensures LegFrom(c.At(c.pos + 1), loops) <= ToGo(c, loops)
  {
  }

  /** The end of an endless block: the block begins again. */
  lemma EndlessWithin(c: Cursor, loops: seq<int>, log: seq<Stmt>)
    requires Stacked(c, loops) && c.pos + 1 == |c.stmts| && c.In? && Last(loops) == -1
    ensures Within(Running(Machine(Some(c.At(0)), loops, log)), ToGo(c, loops))
  {
    assert c.stmts[c.pos + 1..] == [];
    EndlessPasses(c);
  }

  lemma EndlessPasses(c: Cursor)
    requires c.Valid() && c.In? && Sturdy(c.outer.stmts) && c.outer.Current().count.None?
    ensures LegOf(c.stmts).stops
  {
    SturdyAt(c.outer.stmts, c.outer.pos);
  }

  lemma AgainWithin(c: Cursor, loops: seq<int>, log: seq<Stmt>)
    requires Stacked(c, loops) && c.pos + 1 == |c.stmts| && c.In? && Last(loops) > 1
    ensures Within(Running(Machine(Some(c.At(0)), Init(loops) + [Last(loops) - 1], log)), ToGo(c, loops))
  {
    assert c.stmts[c.pos + 1..] == [];
    var next := Init(loops) + [Last(loops) - 1];
    assert Init(next) == Init(loops);
  }

  /** Where the cursor goes from a statement that is done with. */
  lemma GotoFromDone(c: Cursor, loops: seq<int>, log: seq<Stmt>)
    requires Stacked(c, loops)
    ensures var r := GotoNext(c, Spent(c, loops), log);
            if c.pos + 1 < |c.stmts| then r == Running(Machine(Some(c.At(c.pos + 1)), loops, log))
            else if c.Top? then r == Running(Machine(None, [], log))
            else if Last(loops) == -1 then r == Running(Machine(Some(c.At(0)), loops, log))
            else if Last(loops) > 1 then r == Running(Machine(Some(c.At(0)), Init(loops) + [Last(loops) - 1], log))
            else r == GotoNext(c.outer, Spent(c.outer, Init(loops)), log)
  {
    var own := Spent(c, loops);
    assert Body(c.Current()) != [] ==> Init(own) == loops && Last(own) == 0;
    if c.In? {
      assert Body(c.outer.Current()) == c.stmts;
      assert loops == Init(loops) + [Last(loops)];
    }
  }

  lemma {:induction false} DoneWithin(c: Cursor, loops: seq<int>, log: seq<Stmt>)
    requires Stacked(c, loops)
    ensures Within(GotoNext(c, Spent(c, loops), log), ToGo(c, loops))
    decreases c
  {
    GotoFromDone(c, loops, log);
    if c.pos + 1 < |c.stmts| {
      SiblingWithin(c, loops, log);
    } else if c.Top? {
    } else if Last(loops) == -1 {
      EndlessWithin(c, loops, log);
    } else if Last(loops) > 1 {
      AgainWithin(c, loops, log);
    } else {
      assert c.stmts[c.pos + 1..] == [];
      DoneWithin(c.outer, Init(loops), log);
    }
  }

  // ---------- One step ----------

  /** A block is entered: what is ahead is what was, less the block's own statement. */
  lemma EnterWithin(c: Cursor, loops: seq<int>, log: seq<Stmt>)
    requires Stacked(c, loops) && c.Current().Repeat? && !Erroneous(c.Current()) && c.Current().count != Some(0)
    ensures c.Current().body != []
    ensures Within(Running(Machine(Some(In(c, c.Current().body, 0)), Execute(c.Current(), loops), log)),
                   LegFrom(c, loops) - 1)
  {
    SturdyAt(c.stmts, c.pos);
    var s := c.Current();
    Pushed(s, loops);
    EnterStacked(c, loops, Execute(s, loops));
    EnterLeg(c, loops, Execute(s, loops));
  }

  lemma Pushed(s: Stmt, loops: seq<int>)
    requires s.Repeat? && !Erroneous(s)
    ensures Init(Execute(s, loops)) == loops
    ensures Last(Execute(s, loops)) == if s.count.Some? then s.count.value else -1
  {
  }

  lemma EnterStacked(c: Cursor, loops: seq<int>, own: seq<int>)
    requires Stacked(c, loops) && c.Current().Repeat? && !Erroneous(c.Current()) && c.Current().count != Some(0)
    requires SturdyOne(c.Current()) && |own| == |loops| + 1 && Init(own) == loops
    requires Last(own) == if c.Current().count.Some? then c.Current().count.value else -1
    ensures Stacked(In(c, c.Current().body, 0), own)
  {
  }

  lemma EnterLeg(c: Cursor, loops: seq<int>, own: seq<int>)
    requires c.Valid() && |loops| == c.Depth() && c.Current().Repeat? && !Erroneous(c.Current())
    requires c.Current().count != Some(0) && c.Current().body != []
    requires c.Current().count.None? ==> LegOf(c.Current().body).stops
    requires own == Execute(c.Current(), loops) && Init(own) == loops
    ensures LegFrom(In(c, c.Current().body, 0), own) == LegFrom(c, loops) - 1
  {
    BlockLeg(c, loops);
    if LegOf(c.Current().body).stops {
      EnterStopping(c, own);
    } else {
      EnterPassing(c, loops, own);
    }
  }

  /** What is ahead before a block is entered. */
  lemma BlockLeg(c: Cursor, loops: seq<int>)
    requires c.Valid() && |loops| == c.Depth() && c.Current().Repeat? && !Erroneous(c.Current())
    requires c.Current().count != Some(0)
    ensures var s := c.Current();
            var pass := LegOf(s.body);
            && (pass.stops ==> LegFrom(c, loops) == 1 + pass.length)
            && (!pass.stops && s.count.Some? ==> LegFrom(c, loops) == 1 + Product(s.count.value, pass.length) + ToGo(c, loops))
  {
  }

  lemma EnterStopping(c: Cursor, own: seq<int>)
    requires c.Valid() && |own| == c.Depth() + 1 && c.Current().Repeat? && c.Current().body != []
    requires LegOf(c.Current().body).stops
    ensures LegFrom(In(c, c.Current().body, 0), own) == LegOf(c.Current().body).length
  {
    var body := c.Current().body;
    assert body[0 + 1..] == body[1..];
  }

  lemma EnterPassing(c: Cursor, loops: seq<int>, own: seq<int>)
    requires c.Valid() && |loops| == c.Depth() && c.Current().Repeat? && c.Current().body != []
    requires c.Current().count.Some? && c.Current().count.value > 0 && !LegOf(c.Current().body).stops
    requires own == loops + [c.Current().count.value]
    ensures LegFrom(In(c, c.Current().body, 0), own)
            == Product(c.Current().count.value, LegOf(c.Current().body).length) + ToGo(c, loops)
  {
    var body := c.Current().body;
    assert Init(own) == loops && Last(own) == c.Current().count.value;
    AfterHead(c, body, own);
  }

  lemma AfterHead(c: Cursor, body: seq<Stmt>, own: seq<int>)
    requires c.Valid() && |own| == c.Depth() + 1 && In(c, body, 0).Valid()
    requires !LegOf(body).stops && Last(own) > 0
    ensures LegFrom(In(c, body, 0), own)
            == LegOf(body).length + Product(Last(own) - 1, LegOf(body).length) + ToGo(c, Init(own))
  {
    assert body[0 + 1..] == body[1..];
  }

  /**
   A step from a statement that is no error succeeds and stays in step; and from one that takes no time it brings
   the next that does, or the end, nearer.
   */
  lemma StepWithin(m: Machine)
    requires m.cursor.Some? && InStep(m) && !Erroneous(m.cursor.value.Current())
    ensures var r := Step(m);
            && r.Running? && InStep(r.machine) && r.machine.log == m.log + [m.cursor.value.Current()]
            && (TimeOf(m.cursor.value.Current()) == 0.0 ==> LegAhead(r.machine) < LegAhead(m))
  {
    var c := m.cursor.value;
    var s := c.Current();
    SturdyAt(c.stmts, c.pos);
    var log := m.log + [s];
    if s.Repeat? && s.count != Some(0) {
      EnterWithin(c, m.loops, log);
      assert Step(m) == Running(Machine(Some(In(c, s.body, 0)), Execute(s, m.loops), log));
    } else {
      assert Execute(s, m.loops) == Spent(c, m.loops);
      DoneWithin(c, m.loops, log);
    }
  }

  lemma BeginInStep(script: seq<Stmt>)
    requires Sturdy(script)
    ensures InStep(Begin(script))
  {
  }

  // ---------- What has run, in terms of the unrolling ----------

  /** In a finite clean script, what has run and what is left make up the unrolling. */
  lemma FiniteContent(script: seq<Stmt>, n: nat)
    requires Finite(script) && Clean(script) && Run(script, n).Running?
    ensures var m := Run(script, n).machine;
            && (m.cursor.Some? ==> |m.loops| == m.cursor.value.Depth())
            && m.log + Remaining(m) == Unroll(script)
  {
    var u := Unroll(script);
    CleanUnrolling(script);
    if n <= |u| {
      PartContent(script, n);
    } else {
      RunsUnrolling(script, n);
    }
  }

  lemma PartContent(script: seq<Stmt>, n: nat)
    requires Finite(script) && NoneFaulty(Unroll(script)) && n <= |Unroll(script)| && Run(script, n).Running?
    ensures var m := Run(script, n).machine;
            && (m.cursor.Some? ==> |m.loops| == m.cursor.value.Depth())
            && m.log + Remaining(m) == Unroll(script)
  {
    var u := Unroll(script);
    assert forall i :: 0 <= i < n ==> u[..n][i] == u[i];
    FollowsUnrolling(script, n);
    Halves(u, n);
  }

  lemma Halves<T>(u: seq<T>, n: nat)
    requires n <= |u|
    ensures u[..n] + u[n..] == u
  {
  }

  lemma {:induction false} BoundClean(stmts: seq<Stmt>, n: int)
    requires Clean(stmts) && n > 0
    ensures Clean(Bound(stmts, n)) && Finite(Bound(stmts, n))
    decreases stmts, 0
  {
    if stmts != [] {
      BoundCleanOne(stmts[0], n);
      BoundClean(stmts[1..], n);
    }
  }

  lemma {:induction false} BoundCleanOne(s: Stmt, n: int)
    requires CleanOne(s) && n > 0
    ensures CleanOne(BoundOne(s, n)) && FiniteOne(BoundOne(s, n))
    decreases s, 1
  {
    if s.Repeat? {
      if s.count != Some(0) {
        BoundClean(s.body, n);
      } else {
        BoundFinite(s.body, n);
      }
    }
  }

  lemma {:induction false} BoundFinite(stmts: seq<Stmt>, n: int)
    ensures Finite(Bound(stmts, n))
    decreases stmts
  {
    if stmts != [] {
      var s := stmts[0];
      if s.Repeat? {
        BoundFinite(s.body, n);
      }
      BoundFinite(stmts[1..], n);
    }
  }

  /**
   In any clean script, endless blocks included, what has run is the beginning of the unrolling that gives every
   endless block a count too large to be reached.
   */
  lemma EndlessContent(script: seq<Stmt>, k: nat, n: int)
    requires Clean(script) && n > k + 1 && Run(script, k).Running?
    ensures Bound(Run(script, k).machine.log, n) <= Unroll(Bound(script, n))
  {
    var b := Bound(script, n);
    EndlessPrefix(script, k, n);
    BoundClean(script, n);
    FiniteContent(b, k);
    var q := Run(b, k).machine;
    assert q.log <= q.log + Remaining(q);
  }
}
