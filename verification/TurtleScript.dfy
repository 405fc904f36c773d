/**
 The turtle script interpreter: a cursor into the statement tree and a stack of loop
 counters, against the recursive unrolling of the tree.

 The drawing attributes of a statement are not interpreted; an action is known by its
 identity and by the time it takes.
 */
module TurtleScript {
  import opened Simulation

  datatype Stmt =
    | Action(id: nat, time: real)
    | Repeat(count: Option<int>, body: seq<Stmt>)   // no count means forever

  function Body(s: Stmt): seq<Stmt> {
    if s.Repeat? then s.body else []
  }

  /** Statements whose execution is an error: a negative count, or a negative time. */
  predicate Erroneous(s: Stmt) {
    match s
    case Action(_, time) => time < 0.0
    case Repeat(count, _) => count.Some? && count.value < 0
  }

  // ---------- What a script means ----------

  /** The statements run by a script, each `<repeat>` standing for its own execution before its body's. */
  function Unroll(stmts: seq<Stmt>): (r: seq<Stmt>)
    ensures r == [] <==> stmts == []
    decreases stmts, 0
  {
    if stmts == [] then [] else UnrollOne(stmts[0]) + Unroll(stmts[1..])
  }

  function UnrollOne(s: Stmt): (r: seq<Stmt>)
    ensures r != [] && r[0] == s
    decreases s, 1
  {
    match s
    case Action(_, _) => [s]
    case Repeat(count, body) => [s] + Times(if count.Some? then count.value else 0, Unroll(body))
  }

  function Times<T>(n: int, s: seq<T>): seq<T> {
    if n <= 0 then [] else s + Times(n - 1, s)
  }

  /** Every `<repeat>` has a count. */
  predicate Finite(stmts: seq<Stmt>)
    decreases stmts, 0
  {
    stmts == [] || (FiniteOne(stmts[0]) && Finite(stmts[1..]))
  }

  predicate FiniteOne(s: Stmt)
    decreases s, 1
  {
    s.Repeat? ==> s.count.Some? && Finite(s.body)
  }

  /** A statement that the interpreter cannot get past properly. */
  predicate Faulty(s: Stmt) {
    Erroneous(s) || (s.Repeat? && s.body == [])
  }

  /** No faulty statement except in the bodies of blocks repeated zero times. */
  predicate Clean(stmts: seq<Stmt>)
    decreases stmts, 0
  {
    stmts == [] || (CleanOne(stmts[0]) && Clean(stmts[1..]))
  }

  predicate CleanOne(s: Stmt)
    decreases s, 1
  {
    !Faulty(s) && (s.Repeat? && s.count != Some(0) ==> Clean(s.body))
  }

  // ---------- The interpreter ----------

  /** A pointer to a statement, with access to its siblings and to its parent statement. */
  datatype Cursor =
    | Top(stmts: seq<Stmt>, pos: nat)
    | In(outer: Cursor, stmts: seq<Stmt>, pos: nat)
  {
    predicate Valid() {
      pos < |stmts| && (In? ==> outer.Valid() && outer.stmts[outer.pos].Repeat? && outer.stmts[outer.pos].body == stmts)
    }

    function Current(): Stmt
      requires Valid()
    {
      stmts[pos]
    }

    /** Number of enclosing `<repeat>` blocks. */
    function Depth(): nat {
      if Top? then 0 else outer.Depth() + 1
    }

    function At(p: nat): Cursor {
      if Top? then Top(stmts, p) else In(outer, stmts, p)
    }
  }

  /** The cursor and the loop counters, innermost last; `cursor` is None at the end of the script. */
  datatype Machine = Machine(cursor: Option<Cursor>, loops: seq<int>, log: seq<Stmt>)

  datatype Result = Running(machine: Machine) | Error | AssertionFailed

  function Last(s: seq<int>): int
    requires s != []
  {
    s[|s| - 1]
  }

  function Init<T>(s: seq<T>): seq<T>
    requires s != []
  {
    s[..|s| - 1]
  }

  /** -1 means infinity and stays. */
  function Decrement(n: int): int {
    if n != -1 then n - 1 else n
  }

  /** Advance the cursor past the statement just executed. */
  function GotoNext(c: Cursor, loops: seq<int>, log: seq<Stmt>): (r: Result)
    requires c.Valid()
    ensures r.Running? && r.machine.cursor.Some? ==> r.machine.cursor.value.Valid()
    ensures r.Running? ==> r.machine.log == log
    decreases c
  {
    var hasChild := Body(c.Current()) != [];
    if hasChild && loops == [] then AssertionFailed
    else if hasChild && Last(loops) != 0 then
      Running(Machine(Some(In(c, Body(c.Current()), 0)), loops, log))
    else
      var rest := if hasChild then Init(loops) else loops;
      if c.pos + 1 < |c.stmts| then Running(Machine(Some(c.At(c.pos + 1)), rest, log))
      else if c.Top? != (rest == []) then AssertionFailed
      else if rest == [] then Running(Machine(None, rest, log))
      else
        var left := Decrement(Last(rest));
        if left != 0 then Running(Machine(Some(c.At(0)), Init(rest) + [left], log))
        else GotoNext(c.outer, Init(rest) + [0], log)
  }

  function Execute(s: Stmt, loops: seq<int>): seq<int> {
    match s
    case Action(_, _) => loops
    case Repeat(count, _) => loops + [if count.Some? then count.value else -1]
  }

  predicate WellFormed(r: Result) {
    r.Running? && r.machine.cursor.Some? ==> r.machine.cursor.value.Valid()
  }

  /** Execute one statement and go to the next. */
  function Step(m: Machine): (r: Result)
    requires m.cursor.Some? && m.cursor.value.Valid()
    ensures WellFormed(r)
  {
    var c := m.cursor.value;
    if Erroneous(c.Current()) then Error
    else GotoNext(c, Execute(c.Current(), m.loops), m.log + [c.Current()])
  }

  function Begin(script: seq<Stmt>): Machine {
    Machine(if script == [] then None else Some(Top(script, 0)), [], [])
  }

  /** The interpreter after `n` statements, or where it stopped before. */
  function Run(script: seq<Stmt>, n: nat): (r: Result)
    ensures WellFormed(r)
  {
    if n == 0 then Running(Begin(script))
    else
      var r := Run(script, n - 1);
      if r.Running? && r.machine.cursor.Some? then Step(r.machine) else r
  }

  lemma {:induction false} GotoNeverFails(c: Cursor, loops: seq<int>, log: seq<Stmt>)
    requires c.Valid()
    ensures !GotoNext(c, loops, log).Error?
    decreases c
  {
    if c.In? && loops != [] {
      var hasChild := Body(c.Current()) != [];
      var rest := if hasChild then Init(loops) else loops;
      if rest != [] {
        GotoNeverFails(c.outer, Init(rest) + [0], log);
      }
    }
  }

  /** Executing a statement is an error exactly if it repeats a negative number of times or takes negative time. */
  lemma StepFails(m: Machine)
    requires m.cursor.Some? && m.cursor.value.Valid()
    ensures Step(m) == Error <==>
            match m.cursor.value.Current()
            case Action(_, time) => time < 0.0
            case Repeat(count, _) => count.Some? && count.value < 0
  {
    var c := m.cursor.value;
    GotoNeverFails(c, Execute(c.Current(), m.loops), m.log + [c.Current()]);
  }

  /** A block is unrolled to its own statement and then as many copies of its body as it is repeated. */
  lemma {:induction false} UnrolledLength(n: nat, body: seq<Stmt>)
    ensures |UnrollOne(Repeat(Some(n), body))| == 1 + n * |Unroll(body)|
  {
    if n > 0 {
      UnrolledLength(n - 1, body);
      assert |Times(n, Unroll(body))| == |Unroll(body)| + |Times(n - 1, Unroll(body))|;
    }
  }

  // ---------- What is left to run ----------

  /** What runs after the current statement is done with, the counters being those of the enclosing blocks. */
  function After(c: Cursor, loops: seq<int>): seq<Stmt>
    requires c.Valid() && |loops| == c.Depth()
  {
    match c
    case Top(stmts, pos) => Unroll(stmts[pos + 1..])
    case In(outer, stmts, pos) =>
      Unroll(stmts[pos + 1..]) + Times(Last(loops) - 1, Unroll(stmts)) + After(outer, Init(loops))
  }

  function Remaining(m: Machine): seq<Stmt>
    requires m.cursor.Some? ==> m.cursor.value.Valid() && |m.loops| == m.cursor.value.Depth()
  {
    if m.cursor.None? then [] else UnrollOne(m.cursor.value.Current()) + After(m.cursor.value, m.loops)
  }

  /** The stack holds one positive counter for each enclosing block. */
  ghost predicate Exact(m: Machine) {
    match m.cursor
    case None => m.loops == []
    case Some(c) => c.Valid() && |m.loops| == c.Depth() && forall i :: 0 <= i < |m.loops| ==> m.loops[i] > 0
  }

  ghost predicate FiniteAround(c: Cursor) {
    Finite(c.stmts) && (c.In? ==> FiniteAround(c.outer))
  }

  lemma {:induction false} FiniteAt(stmts: seq<Stmt>, i: nat)
    requires Finite(stmts) && i < |stmts|
    ensures FiniteOne(stmts[i])
  {
    if i > 0 {
      FiniteAt(stmts[1..], i - 1);
    }
  }

  lemma SiblingNext(c: Cursor, loops: seq<int>)
    requires c.Valid() && |loops| == c.Depth() && c.pos + 1 < |c.stmts|
    ensures c.At(c.pos + 1).Valid() && c.At(c.pos + 1).Depth() == c.Depth()
    ensures UnrollOne(c.At(c.pos + 1).Current()) + After(c.At(c.pos + 1), loops) == After(c, loops)
  {
    var rest := c.stmts[c.pos + 1..];
    assert rest[0] == c.stmts[c.pos + 1] && rest[1..] == c.stmts[c.pos + 1 + 1..];
  }

  lemma Regroup<T>(first: seq<T>, others: seq<T>, again: seq<T>, after: seq<T>)
    ensures [] + ((first + others) + again) + after == first + (others + again + after)
  {
  }

  lemma RestartAfter(c: Cursor, loops: seq<int>, k: int)
    requires c.Valid() && |loops| == c.Depth() && c.pos + 1 == |c.stmts| && c.In? && Last(loops) == k > 1
    ensures After(c, loops) ==
            [] + ((UnrollOne(c.stmts[0]) + Unroll(c.stmts[1..])) + Times(k - 2, Unroll(c.stmts))) + After(c.outer, Init(loops))
  {
    assert c.stmts[c.pos + 1..] == [];
  }

  lemma RestartNext(c: Cursor, loops: seq<int>)
    requires c.Valid() && |loops| == c.Depth() && c.pos + 1 == |c.stmts| && c.In? && Last(loops) > 1
    ensures c.At(0).Valid() && c.At(0).Depth() == c.Depth()
    ensures var loops' := Init(loops) + [Last(loops) - 1];
            |loops'| == |loops| && UnrollOne(c.At(0).Current()) + After(c.At(0), loops') == After(c, loops)
  {
    var k := Last(loops);
    var after := After(c.outer, Init(loops));
    var first, others, again := UnrollOne(c.stmts[0]), Unroll(c.stmts[1..]), Times(k - 2, Unroll(c.stmts));
    RestartAfter(c, loops, k);
    AfterRestart(c, loops, Init(loops) + [k - 1], k);
    Regroup(first, others, again, after);
  }

  lemma AfterRestart(c: Cursor, loops: seq<int>, next: seq<int>, k: int)
    requires c.Valid() && |loops| == c.Depth() && c.In? && next == Init(loops) + [k - 1]
    ensures c.At(0).Valid() && c.At(0).Depth() == c.Depth() == |next|
    ensures After(c.At(0), next) == Unroll(c.stmts[1..]) + Times(k - 2, Unroll(c.stmts)) + After(c.outer, Init(loops))
  {
    assert Init(next) == Init(loops);
  }

  lemma UpNext(c: Cursor, loops: seq<int>)
    requires c.Valid() && |loops| == c.Depth() && c.pos + 1 == |c.stmts| && c.In? && Last(loops) == 1
    ensures After(c, loops) == After(c.outer, Init(loops))
  {
    assert c.stmts[c.pos + 1..] == [];
  }

  ghost predicate Positive(loops: seq<int>) {
    forall i :: 0 <= i < |loops| ==> loops[i] > 0
  }

  /** The counters when the statement at `c` is done with: a block just left has its zero on top. */
  function Spent(c: Cursor, loops: seq<int>): seq<int>
    requires c.Valid()
  {
    if Body(c.Current()) == [] then loops else loops + [0]
  }

  /** Where the cursor goes from a statement that is done with. */
  lemma GotoFromSpent(c: Cursor, loops: seq<int>, log: seq<Stmt>)
    requires c.Valid() && |loops| == c.Depth() && Positive(loops)
    ensures var r := GotoNext(c, Spent(c, loops), log);
            if c.pos + 1 < |c.stmts| then r == Running(Machine(Some(c.At(c.pos + 1)), loops, log))
            else if c.Top? then r == Running(Machine(None, [], log))
            else if Last(loops) > 1 then r == Running(Machine(Some(c.At(0)), Init(loops) + [Last(loops) - 1], log))
            else r == GotoNext(c.outer, Spent(c.outer, Init(loops)), log)
  {
    var own := Spent(c, loops);
    assert Body(c.Current()) != [] ==> Init(own) == loops && Last(own) == 0;
    if c.In? {
      assert Body(c.outer.Current()) == c.stmts;
    }
  }

  /** In step, with exactly `rest` left to run. */
  ghost predicate Leaves(r: Result, rest: seq<Stmt>) {
    && r.Running? && Exact(r.machine) && Remaining(r.machine) == rest
    && (r.machine.cursor.Some? ==> FiniteAround(r.machine.cursor.value))
  }

  lemma SiblingLeaves(c: Cursor, loops: seq<int>, log: seq<Stmt>)
    requires c.Valid() && |loops| == c.Depth() && Positive(loops) && FiniteAround(c) && c.pos + 1 < |c.stmts|
    ensures Leaves(Running(Machine(Some(c.At(c.pos + 1)), loops, log)), After(c, loops))
  {
    SiblingNext(c, loops);
  }

  lemma RestartLeaves(c: Cursor, loops: seq<int>, log: seq<Stmt>)
    requires c.Valid() && |loops| == c.Depth() && Positive(loops) && FiniteAround(c)
    requires c.pos + 1 == |c.stmts| && c.In? && Last(loops) > 1
    ensures Leaves(Running(Machine(Some(c.At(0)), Init(loops) + [Last(loops) - 1], log)), After(c, loops))
  {
    RestartNext(c, loops);
  }

  lemma EndLeaves(c: Cursor, log: seq<Stmt>)
    requires c.Valid() && c.pos + 1 == |c.stmts| && c.Top?
    ensures Leaves(Running(Machine(None, [], log)), After(c, []))
  {
    assert c.stmts[c.pos + 1..] == [];
  }

  /** The statement at `c` is finished: going on leaves exactly what comes after it. */
  lemma {:induction false} FinishStatement(c: Cursor, loops: seq<int>, log: seq<Stmt>)
    requires c.Valid() && |loops| == c.Depth() && Positive(loops) && FiniteAround(c)
    ensures Leaves(GotoNext(c, Spent(c, loops), log), After(c, loops))
    decreases c
  {
    GotoFromSpent(c, loops, log);
    if c.pos + 1 < |c.stmts| {
      SiblingLeaves(c, loops, log);
    } else if c.Top? {
      EndLeaves(c, log);
    } else if Last(loops) > 1 {
      RestartLeaves(c, loops, log);
    } else {
      UpNext(c, loops);
      FinishStatement(c.outer, Init(loops), log);
    }
  }

  lemma RegroupHead<T>(s: T, run: seq<T>, after: seq<T>)
    ensures [s] + run + after == [s] + ([] + run + after)
  {
  }

  /** A block with something to repeat is entered. */
  lemma EnterBlock(c: Cursor, loops: seq<int>, n: int)
    requires c.Valid() && |loops| == c.Depth() && n > 0
    requires c.Current().Repeat? && c.Current().count == Some(n) && c.Current().body != []
    ensures var inner := In(c, c.Current().body, 0);
            && inner.Valid() && inner.Depth() == |loops| + 1
            && UnrollOne(c.Current()) + After(c, loops) ==
               [c.Current()] + (UnrollOne(inner.Current()) + After(inner, loops + [n]))
  {
    var inner := In(c, c.Current().body, 0);
    var body := Unroll(inner.stmts);
    assert Init(loops + [n]) == loops;
    var first, others := UnrollOne(inner.stmts[0]), Unroll(inner.stmts[1..]);
    assert body == first + others;
    assert UnrollOne(c.Current()) == [c.Current()] + (body + Times(n - 1, body));
    assert After(inner, loops + [n]) == others + Times(n - 1, body) + After(c, loops);
    Regroup(first, others, Times(n - 1, body), After(c, loops));
    RegroupHead(c.Current(), body + Times(n - 1, body), After(c, loops));
  }

  /** One step runs the first of the remaining statements, provided it is not faulty. */
  lemma StepExact(m: Machine)
    requires m.cursor.Some? && Exact(m) && FiniteAround(m.cursor.value) && !Faulty(m.cursor.value.Current())
    ensures var r := Step(m);
            && r.Running? && Exact(r.machine)
            && r.machine.log == m.log + [m.cursor.value.Current()]
            && Remaining(m) == [m.cursor.value.Current()] + Remaining(r.machine)
            && (r.machine.cursor.Some? ==> FiniteAround(r.machine.cursor.value))
  {
    var c := m.cursor.value;
    var s := c.Current();
    FiniteAt(c.stmts, c.pos);
    var log := m.log + [s];
    if s.Repeat? && s.count != Some(0) {
      var n := s.count.value;
      EnterBlock(c, m.loops, n);
      assert Step(m) == Running(Machine(Some(In(c, s.body, 0)), m.loops + [n], log));
    } else {
      assert UnrollOne(s) == [s];
      assert Execute(s, m.loops) == Spent(c, m.loops);
      FinishStatement(c, m.loops, log);
    }
  }

  // ---------- Scripts without live faults ----------

  predicate NoneFaulty(run: seq<Stmt>) {
    forall i :: 0 <= i < |run| ==> !Faulty(run[i])
  }

  lemma NoneFaultyConcat(a: seq<Stmt>, b: seq<Stmt>)
    ensures NoneFaulty(a + b) <==> NoneFaulty(a) && NoneFaulty(b)
  {
    if NoneFaulty(a + b) {
      forall i | 0 <= i < |a| ensures !Faulty(a[i]) {
        assert (a + b)[i] == a[i];
      }
      forall i | 0 <= i < |b| ensures !Faulty(b[i]) {
        assert (a + b)[|a| + i] == b[i];
      }
    }
  }

  lemma {:induction false} NoneFaultyTimes(n: int, s: seq<Stmt>)
    ensures NoneFaulty(Times(n, s)) <==> n <= 0 || NoneFaulty(s)
  {
    if n > 0 {
      NoneFaultyConcat(s, Times(n - 1, s));
      NoneFaultyTimes(n - 1, s);
    }
  }

  /** A finite script is clean exactly if no faulty statement is ever run. */
  lemma {:induction false} CleanUnrolling(stmts: seq<Stmt>)
    requires Finite(stmts)
    ensures Clean(stmts) <==> NoneFaulty(Unroll(stmts))
    decreases stmts, 0
  {
    if stmts != [] {
      CleanUnrollingOne(stmts[0]);
      CleanUnrolling(stmts[1..]);
      NoneFaultyConcat(UnrollOne(stmts[0]), Unroll(stmts[1..]));
    }
  }

  lemma {:induction false} CleanUnrollingOne(s: Stmt)
    requires FiniteOne(s)
    ensures CleanOne(s) <==> NoneFaulty(UnrollOne(s))
    decreases s, 1
  {
    if s.Repeat? {
      CleanUnrolling(s.body);
      NoneFaultyConcat([s], Times(s.count.value, Unroll(s.body)));
      NoneFaultyTimes(s.count.value, Unroll(s.body));
      assert [s][0] == s;
    }
  }

  // ---------- Main theorems ----------

  lemma Advance<T>(u: seq<T>, n: nat, s: T, rest: seq<T>)
    requires 0 < n <= |u| && u[n - 1..] == [s] + rest
    ensures s == u[n - 1] && u[..n - 1] + [s] == u[..n] && rest == u[n..]
  {
    assert u[n..] == u[n - 1..][1..];
  }

  /** After n statements, the first n of u have run, the rest of u is ahead, and the stack is exact. */
  ghost predicate Follows(r: Result, u: seq<Stmt>, n: nat)
    requires n <= |u|
  {
    && r.Running? && Exact(r.machine) && r.machine.log == u[..n] && Remaining(r.machine) == u[n..]
    && (r.machine.cursor.Some? ==> FiniteAround(r.machine.cursor.value))
  }

  lemma FollowsAtStart(script: seq<Stmt>)
    requires Finite(script)
    ensures Follows(Running(Begin(script)), Unroll(script), 0)
  {
    assert Unroll(script)[..0] == [] && Unroll(script)[0..] == Unroll(script);
    if script != [] {
      assert script[0 + 1..] == script[1..];
    }
  }

  lemma FollowsStep(m: Machine, u: seq<Stmt>, n: nat)
    requires 0 < n <= |u| && NoneFaulty(u[..n]) && Follows(Running(m), u, n - 1)
    ensures m.cursor.Some? && Follows(Step(m), u, n)
  {
    assert m.cursor.value.Current() == Remaining(m)[0] == u[n - 1] == u[..n][n - 1];
    StepExact(m);
    Advance(u, n, m.cursor.value.Current(), Remaining(Step(m).machine));
  }

  lemma FollowsNext(script: seq<Stmt>, u: seq<Stmt>, n: nat)
    requires 0 < n <= |u| && NoneFaulty(u[..n]) && Follows(Run(script, n - 1), u, n - 1)
    ensures Follows(Run(script, n), u, n)
  {
    FollowsStep(Run(script, n - 1).machine, u, n);
  }

  lemma NoneFaultyBefore(u: seq<Stmt>, n: nat)
    requires 0 < n <= |u| && NoneFaulty(u[..n])
    ensures NoneFaulty(u[..n - 1])
  {
    assert u[..n - 1] == u[..n][..n - 1];
  }

  /** As long as no faulty statement comes up, the interpreter follows the unrolling with an exact stack. */
  lemma {:induction false} FollowsUnrolling(script: seq<Stmt>, n: nat)
    requires Finite(script) && n <= |Unroll(script)| && NoneFaulty(Unroll(script)[..n])
    ensures Follows(Run(script, n), Unroll(script), n)
  {
    var u := Unroll(script);
    if n == 0 {
      FollowsAtStart(script);
    } else {
      NoneFaultyBefore(u, n);
      FollowsUnrolling(script, n - 1);
      FollowsNext(script, u, n);
    }
  }

  lemma NextAtEnd(script: seq<Stmt>, k: nat)
    requires Run(script, k).Running? && Run(script, k).machine.cursor.None?
    ensures Run(script, k + 1) == Run(script, k)
  {
  }

  /** Past the end of the script nothing more happens. */
  lemma StaysAtEnd(script: seq<Stmt>, n: nat, k: nat)
    requires n <= k && Run(script, n).Running? && Run(script, n).machine.cursor.None?
    ensures Run(script, k) == Run(script, n)
  {
    var j := n;
    while j < k
      invariant n <= j <= k && Run(script, j) == Run(script, n)
    {
      NextAtEnd(script, j);
      j := j + 1;
    }
  }

  /** A clean script runs exactly its unrolling and ends with an empty stack. */
  lemma RunsUnrolling(script: seq<Stmt>, n: nat)
    requires Finite(script) && Clean(script) && n >= |Unroll(script)|
    ensures Run(script, n) == Running(Machine(None, [], Unroll(script)))
  {
    var u := Unroll(script);
    CleanUnrolling(script);
    assert u[..|u|] == u;
    FollowsUnrolling(script, |u|);
    StaysAtEnd(script, |u|, n);
  }

  /** More counters than enclosing blocks, or stopped. */
  ghost predicate Excess(r: Result) {
    r.Running? ==>
      r.machine.cursor.Some? && r.machine.cursor.value.Valid() && |r.machine.loops| > r.machine.cursor.value.Depth()
  }

  lemma {:induction false} ExcessKept(c: Cursor, loops: seq<int>, log: seq<Stmt>)
    requires c.Valid() && |loops| > c.Depth() + if Body(c.Current()) != [] then 1 else 0
    ensures Excess(GotoNext(c, loops, log))
    decreases c
  {
    var rest := if Body(c.Current()) != [] then Init(loops) else loops;
    if c.pos + 1 == |c.stmts| && c.In? {
      assert Body(c.outer.Current()) == c.stmts;
      var enters := Body(c.Current()) != [] && Last(loops) != 0;
      if !enters && Decrement(Last(rest)) == 0 {
        ExcessKept(c.outer, Init(rest) + [0], log);
      }
    }
  }

  lemma {:induction false} ExcessForever(script: seq<Stmt>, n: nat, k: nat)
    requires n <= k && Excess(Run(script, n))
    ensures Excess(Run(script, k))
    decreases k
  {
    if n < k {
      ExcessForever(script, n, k - 1);
      var r := Run(script, k - 1);
      if r.Running? && !Erroneous(r.machine.cursor.value.Current()) {
        var c := r.machine.cursor.value;
        ExcessKept(c, Execute(c.Current(), r.machine.loops), r.machine.log + [c.Current()]);
      }
    }
  }

  /** The first faulty statement of an unrolling. */
  lemma {:induction false} FirstFault(run: seq<Stmt>) returns (i: nat)
    requires !NoneFaulty(run)
    ensures i < |run| && Faulty(run[i]) && NoneFaulty(run[..i])
  {
    i := 0;
    while i < |run| && !Faulty(run[i])
      invariant i <= |run| && NoneFaulty(run[..i])
    {
      i := i + 1;
    }
  }

  lemma FaultyStep(m: Machine)
    requires m.cursor.Some? && Exact(m) && Faulty(m.cursor.value.Current())
    ensures Excess(Step(m))
  {
    var c := m.cursor.value;
    if !Erroneous(c.Current()) {
      ExcessKept(c, Execute(c.Current(), m.loops), m.log + [c.Current()]);
    }
  }

  lemma FaultReached(script: seq<Stmt>, i: nat)
    requires Finite(script) && i < |Unroll(script)|
    requires Faulty(Unroll(script)[i]) && NoneFaulty(Unroll(script)[..i])
    ensures Excess(Run(script, i + 1))
  {
    FollowsUnrolling(script, i);
    var m := Run(script, i).machine;
    assert m.cursor.value.Current() == Remaining(m)[0] == Unroll(script)[i];
    FaultyStep(m);
  }

  /** A faulty statement is where the interpreter stops for good or gets out of step. */
  lemma FaultyNeverEnds(script: seq<Stmt>, i: nat, k: nat)
    requires Finite(script) && i < |Unroll(script)|
    requires Faulty(Unroll(script)[i]) && NoneFaulty(Unroll(script)[..i])
    ensures var r := Run(script, k); r.Running? ==> r.machine.cursor.Some?
  {
    var u := Unroll(script);
    if k <= i {
      assert u[..k] == u[..i][..k];
      FollowsUnrolling(script, k);
      assert u[k..] != [];
    } else {
      FaultReached(script, i);
      ExcessForever(script, i + 1, k);
    }
  }

  ghost predicate Ends(script: seq<Stmt>) {
    exists n: nat :: Run(script, n).Running? && Run(script, n).machine.cursor.None?
  }

  /**
   A script whose counts are finite runs to its end, with no error and no failed assertion, exactly if it is
   clean; and then what it has run is its unrolling.
   */
  lemma EndsExactlyIfClean(script: seq<Stmt>)
    requires Finite(script)
    ensures Ends(script) <==> Clean(script)
    ensures forall n: nat :: Run(script, n).Running? && Run(script, n).machine.cursor.None? ==>
              Run(script, n).machine == Machine(None, [], Unroll(script))
  {
    CleanUnrolling(script);
    var u := Unroll(script);
    if Clean(script) {
      RunsUnrolling(script, |u|);
      forall n: nat | Run(script, n).Running? && Run(script, n).machine.cursor.None?
        ensures Run(script, n).machine == Machine(None, [], u)
      {
        if n <= |u| {
          StaysAtEnd(script, n, |u|);
        } else {
          RunsUnrolling(script, n);
        }
      }
    } else {
      var i := FirstFault(u);
      forall n: nat
        ensures Run(script, n).Running? ==> Run(script, n).machine.cursor.Some?
      {
        FaultyNeverEnds(script, i, n);
      }
    }
  }

  // ---------- Endless blocks ----------

  /** The script with every endless block given the count `n`. */
  function Bound(stmts: seq<Stmt>, n: int): (r: seq<Stmt>)
    ensures |r| == |stmts|
    decreases stmts, 0
  {
    if stmts == [] then [] else [BoundOne(stmts[0], n)] + Bound(stmts[1..], n)
  }

  function BoundOne(s: Stmt, n: int): Stmt
    decreases s, 1
  {
    match s
    case Action(_, _) => s
    case Repeat(count, body) => Repeat(if count.None? then Some(n) else count, Bound(body, n))
  }

  function BoundCursor(c: Cursor, n: int): Cursor {
    match c
    case Top(stmts, pos) => Top(Bound(stmts, n), pos)
    case In(outer, stmts, pos) => In(BoundCursor(outer, n), Bound(stmts, n), pos)
  }

  /** Counters of a run and of its bounded counterpart, the latter still at least `left` where the former is endless. */
  ghost predicate Alike(a: seq<int>, b: seq<int>, left: int) {
    && |a| == |b|
    && forall i :: 0 <= i < |a| ==> a[i] == b[i] || (a[i] == -1 && b[i] >= left)
  }

  ghost predicate Simulates(r: Result, q: Result, n: int, left: int) {
    match r
    case Running(m) =>
      && q.Running? && q.machine.log == Bound(m.log, n) && Alike(m.loops, q.machine.loops, left)
      && q.machine.cursor == (if m.cursor.None? then None else Some(BoundCursor(m.cursor.value, n)))
    case _ => q == r
  }

  lemma {:induction false} BoundAt(stmts: seq<Stmt>, n: int, i: nat)
    requires i < |stmts|
    ensures Bound(stmts, n)[i] == BoundOne(stmts[i], n)
  {
    if i > 0 {
      BoundAt(stmts[1..], n, i - 1);
    }
  }

  lemma {:induction false} BoundAppend(log: seq<Stmt>, s: Stmt, n: int)
    ensures Bound(log + [s], n) == Bound(log, n) + [BoundOne(s, n)]
  {
    if log == [] {
      assert log + [s] == [s];
      assert Bound([s][1..], n) == [];
    } else {
      assert (log + [s])[1..] == log[1..] + [s];
      BoundAppend(log[1..], s, n);
    }
  }

  lemma {:induction false} BoundValid(c: Cursor, n: int)
    requires c.Valid()
    ensures BoundCursor(c, n).Valid() && BoundCursor(c, n).Current() == BoundOne(c.Current(), n)
  {
    BoundAt(c.stmts, n, c.pos);
    if c.In? {
      BoundValid(c.outer, n);
    }
  }

  predicate AlikeCounter(x: int, y: int, left: int) {
    x == y || (x == -1 && y >= left)
  }

  lemma AlikePop(a: seq<int>, b: seq<int>, left: int)
    requires Alike(a, b, left) && a != []
    ensures b != [] && AlikeCounter(Last(a), Last(b), left) && Alike(Init(a), Init(b), left)
  {
  }

  lemma AlikePush(a: seq<int>, b: seq<int>, x: int, y: int, left: int, left': int)
    requires Alike(a, b, left) && left' <= left && AlikeCounter(x, y, left')
    ensures Alike(a + [x], b + [y], left')
  {
  }

  lemma LeaveSimulates(a: seq<int>, b: seq<int>, left: int)
    requires Alike(a, b, left) && left > 1 && a != [] && Decrement(Last(a)) != 0
    ensures b != [] && Decrement(Last(b)) != 0
    ensures Alike(Init(a) + [Decrement(Last(a))], Init(b) + [Decrement(Last(b))], left - 1)
  {
    AlikePop(a, b, left);
    AlikePush(Init(a), Init(b), Decrement(Last(a)), Decrement(Last(b)), left, left - 1);
  }

  /** At the end of the last pass of a block the cursor goes on from the block's own statement. */
  lemma GotoUp(c: Cursor, loops: seq<int>, rest: seq<int>, log: seq<Stmt>)
    requires c.Valid() && c.In? && c.pos + 1 == |c.stmts|
    requires Body(c.Current()) != [] ==> loops != [] && Last(loops) == 0
    requires rest == if Body(c.Current()) != [] then Init(loops) else loops
    requires rest != [] && Decrement(Last(rest)) == 0
    ensures GotoNext(c, loops, log) == GotoNext(c.outer, Init(rest) + [0], log)
  {
  }

  lemma {:induction false} GotoSimulates(c: Cursor, a: seq<int>, b: seq<int>, log: seq<Stmt>, n: int, left: int)
    requires c.Valid() && Alike(a, b, left) && left > 1
    ensures BoundCursor(c, n).Valid()
    ensures Simulates(GotoNext(c, a, log), GotoNext(BoundCursor(c, n), b, Bound(log, n)), n, left - 1)
    decreases c
  {
    BoundValid(c, n);
    var child := Body(c.Current()) != [];
    assert Body(BoundOne(c.Current(), n)) == Bound(Body(c.Current()), n);
    if a != [] {
      AlikePop(a, b, left);
    }
    if child && (a == [] || Last(a) != 0) {
    } else {
      var ra, rb := if child then Init(a) else a, if child then Init(b) else b;
      if c.pos + 1 < |c.stmts| || c.Top? || ra == [] {
      } else if Decrement(Last(ra)) != 0 {
        LeaveSimulates(ra, rb, left);
      } else {
        AlikePop(ra, rb, left);
        AlikePush(Init(ra), Init(rb), 0, 0, left, left);
        GotoUp(c, a, ra, log);
        GotoUp(BoundCursor(c, n), b, rb, Bound(log, n));
        GotoSimulates(c.outer, Init(ra) + [0], Init(rb) + [0], log, n, left);
      }
    }
  }

  /**
   For every script, endless blocks included: the first statements run are those that run if every endless
   block is given a large enough count.
   */
  lemma {:induction false} EndlessPrefix(script: seq<Stmt>, k: nat, n: int)
    requires n > k + 1
    ensures Simulates(Run(script, k), Run(Bound(script, n), k), n, n - k)
  {
    if k == 0 {
    } else {
      EndlessPrefix(script, k - 1, n);
      var r, q := Run(script, k - 1), Run(Bound(script, n), k - 1);
      if r.Running? && r.machine.cursor.Some? {
        var c := r.machine.cursor.value;
        var s := c.Current();
        BoundValid(c, n);
        if !Erroneous(s) {
          BoundAppend(r.machine.log, s, n);
          GotoSimulates(c, Execute(s, r.machine.loops), Execute(BoundOne(s, n), q.machine.loops),
                        r.machine.log + [s], n, n - k + 1);
        }
      }
    }
  }
}
