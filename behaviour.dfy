// What the interpreter loop does, statement by statement and over whole runs.

module Behaviour {
  import opened Values
  import opened Templates
  import opened Navigator
  import opened Trace
  import opened Expressions
  import opened Engine

  /** Expression evaluation records reads but never changes a binding. */
  lemma {:induction false} ReadAllKeepsBindings(s: Snapshot, names: seq<string>)
    ensures ReadAll(s, names).objects == s.objects
    decreases |names|
  {
    if names != [] {
      ReadAllKeepsBindings(s, names[..|names| - 1]);
    }
  }

  lemma EvaluateKeepsBindings(s: Snapshot, eval: Evaluator, expression: string)
    ensures EvaluateIn(s, eval, expression).0.objects == s.objects
  {
    ReadAllKeepsBindings(s, eval(Canonical(expression), s.objects).lookups);
  }

  // ---------------------------------------------------------------------
  // Runs of any step function

  /** A step that succeeds moves the run on to the next configuration. */
  lemma IterateNext(size: int, step: Config -> Outcome, c: Config, fuel: nat)
    requires c.pc < size && fuel > 0 && step(c).Next?
    ensures Iterate(size, step, c, fuel) == Iterate(size, step, step(c).config, fuel - 1)
  {
  }

  /** One step that goes on, with the remaining fuel named. */
  lemma IterateOne(size: int, step: Config -> Outcome, c: Config, fuel: nat, rest: nat, next: Config)
    requires c.pc < size && rest == fuel - 1 && step(c) == Next(next)
    ensures Iterate(size, step, c, fuel) == Iterate(size, step, next, rest)
  {
    IterateNext(size, step, c, fuel);
  }

  /** Two steps that go on, taken at once. */
  lemma IterateTwo(size: int, step: Config -> Outcome, c: Config, fuel: nat, rest: nat, mid: Config, next: Config)
    requires c.pc < size && mid.pc < size && rest == fuel - 2
    requires step(c) == Next(mid) && step(mid) == Next(next)
    ensures Iterate(size, step, c, fuel) == Iterate(size, step, next, rest)
  {
    IterateNext(size, step, c, fuel);
    IterateNext(size, step, mid, fuel - 1);
  }

  /** A run that has ended gives the same result with more fuel. */
  lemma {:induction false} IterateMonotone(size: int, step: Config -> Outcome, c: Config, fuel: nat, more: nat)
    requires fuel <= more && Iterate(size, step, c, fuel).Done?
    ensures Iterate(size, step, c, more) == Iterate(size, step, c, fuel)
    decreases fuel
  {
    if c.pc < size {
      match step(c)
      case Failed(_, _) =>
      case Next(c') => IterateMonotone(size, step, c', fuel - 1, more - 1);
    }
  }

  /** A property of configurations that every successful step keeps holds
      wherever the run stops for lack of fuel; a property of trace states
      that holds of every such configuration and of every failed step's
      trace holds of the final trace. */
  lemma {:induction false} IterateKeeps(size: int, step: Config -> Outcome, inv: Config -> bool, final: Snapshot -> bool,
                                        c: Config, fuel: nat)
    requires inv(c)
    requires forall d | inv(d) :: final(d.trace)
    requires forall d | inv(d) && step(d).Next? :: inv(step(d).config)
    requires forall d | inv(d) && step(d).Failed? :: final(step(d).trace)
    ensures match Iterate(size, step, c, fuel)
            case Done(_, t) => final(t)
            case Unfinished(c') => inv(c')
    decreases fuel
  {
    if c.pc < size && fuel > 0 {
      match step(c)
      case Failed(_, _) =>
      case Next(c') => IterateKeeps(size, step, inv, final, c', fuel - 1);
    }
  }

  // ---------------------------------------------------------------------
  // Coherence of the trace state along a run

  /** The trace state an outcome carries is coherent. */
  predicate Sound(o: Outcome)
  {
    match o
    case Next(c) => Coherent(c.trace)
    case Failed(_, t) => Coherent(t)
  }

  lemma {:induction false} ReadAllCoherent(s: Snapshot, names: seq<string>)
    requires Coherent(s)
    ensures Coherent(ReadAll(s, names))
    decreases |names|
  {
    if names != [] {
      ReadAllCoherent(s, names[..|names| - 1]);
      ReadCoherent(ReadAll(s, names[..|names| - 1]), names[|names| - 1]);
    }
  }

  lemma EvaluateCoherent(s: Snapshot, eval: Evaluator, expression: string)
    requires Coherent(s)
    ensures Coherent(EvaluateIn(s, eval, expression).0)
  {
    ReadAllCoherent(s, eval(Canonical(expression), s.objects).lookups);
  }

  lemma BranchCoherent(prog: seq<Statement>, eval: Evaluator, c: Config, exprs: seq<string>, enter: set<Kind>, exit: set<Kind>)
    requires Coherent(c.trace)
    ensures Sound(Branch(prog, eval, c, exprs, enter, exit))
  {
    if exprs != [] {
      EvaluateCoherent(c.trace, eval, exprs[0]);
    }
  }

  lemma StepForCoherent(prog: seq<Statement>, eval: Evaluator, c: Config, exprs: seq<string>)
    requires Coherent(c.trace)
    ensures Sound(StepFor(prog, eval, c, exprs))
  {
    var t0 := NewFrameState(c.trace);
    NewFrameCoherent(c.trace);
    if c.loops != [] && Top(c.loops).owner == c.pc {
      if Top(c.loops).Counted? {
        CountAgainCoherent(prog, c, exprs, Top(c.loops).current, Top(c.loops).target, t0);
      }
    } else if |exprs| >= 2 {
      EvaluateCoherent(t0, eval, exprs[1]);
      CountStartCoherent(eval, c, exprs, EvaluateIn(t0, eval, exprs[1]));
    }
  }

  lemma CountAgainCoherent(prog: seq<Statement>, c: Config, exprs: seq<string>, current: Value, target: Value, t0: Snapshot)
    requires c.loops != [] && Coherent(t0)
    ensures Sound(CountAgain(prog, c, exprs, current, target, t0))
  {
    if Advance(current, target).Ok? && exprs != [] {
      WriteCoherent(t0, exprs[0], Advance(current, target).value);
    }
  }

  lemma CountStartCoherent(eval: Evaluator, c: Config, exprs: seq<string>, start: (Snapshot, Result<Value>))
    requires Coherent(start.0)
    ensures Sound(CountStart(eval, c, exprs, start))
  {
    if start.1.Ok? && |exprs| >= 3 {
      var end := EvaluateIn(start.0, eval, exprs[2]);
      EvaluateCoherent(start.0, eval, exprs[2]);
      if end.1.Ok? {
        WriteCoherent(end.0, exprs[0], start.1.value);
      }
    }
  }

  lemma StepForEachCoherent(prog: seq<Statement>, eval: Evaluator, c: Config, exprs: seq<string>)
    requires Coherent(c.trace)
    ensures Sound(StepForEach(prog, eval, c, exprs))
  {
    var t0 := NewFrameState(c.trace);
    NewFrameCoherent(c.trace);
    if |exprs| >= 2 {
      EvaluateCoherent(t0, eval, exprs[1]);
      var items := EvaluateIn(t0, eval, exprs[1]);
      if c.loops != [] && Top(c.loops).owner == c.pc {
        if Top(c.loops).Each? {
          EachAgainCoherent(prog, eval, c, exprs, Top(c.loops).index, exprs[1], items);
        }
      } else {
        EachBindCoherent(c.pc, c.loops, exprs, 0, items);
      }
    }
  }

  lemma EachAgainCoherent(prog: seq<Statement>, eval: Evaluator, c: Config, exprs: seq<string>,
                          index: nat, source: string, items: (Snapshot, Result<Value>))
    requires c.loops != [] && Coherent(items.0)
    ensures Sound(EachAgain(prog, eval, c, exprs, index, source, items))
  {
    EvaluateCoherent(items.0, eval, source);
    EachBindCoherent(c.pc, Pop(c.loops), exprs, index + 1, EvaluateIn(items.0, eval, source));
  }

  lemma EachBindCoherent(pc: int, loops: seq<LoopFrame>, exprs: seq<string>, index: nat, items: (Snapshot, Result<Value>))
    requires Coherent(items.0)
    ensures Sound(EachBind(pc, loops, exprs, index, items))
  {
    if items.1.Ok? && ItemAt(items.1.value, index).Ok? && exprs != [] {
      WriteCoherent(items.0, exprs[0], ItemAt(items.1.value, index).value);
    }
  }

  lemma StepSetCoherent(eval: Evaluator, c: Config, exprs: seq<string>)
    requires Coherent(c.trace)
    ensures Sound(StepSet(eval, c, exprs))
  {
    if |exprs| >= 2 {
      var (t, v) := EvaluateIn(c.trace, eval, exprs[1]);
      EvaluateCoherent(c.trace, eval, exprs[1]);
      if v.Ok? {
        WriteCoherent(t, exprs[0], v.value);
      }
    }
  }

  lemma StepDisplayCoherent(eval: Evaluator, c: Config, exprs: seq<string>)
    requires Coherent(c.trace)
    ensures Sound(StepDisplay(eval, c, exprs))
  {
    if exprs != [] {
      var (t, v) := EvaluateIn(c.trace, eval, exprs[0]);
      EvaluateCoherent(c.trace, eval, exprs[0]);
      if v.Ok? {
        var w := WriteState(t, DisplayName, Str(Show(v.value)));
        WriteCoherent(t, DisplayName, Str(Show(v.value)));
        NewFrameCoherent(w);
      }
    }
  }

  /** Every step keeps the trace state coherent, so the class methods that
      the interpreter calls always find their precondition met. */
  lemma StepCoherent(prog: seq<Statement>, eval: Evaluator, c: Config)
    requires Coherent(c.trace)
    ensures Sound(Step(prog, eval, c))
  {
    if -|prog| <= c.pc < |prog| {
      var line := PyIndex(prog, c.pc).value;
      match line.kind
      case If => BranchCoherent(prog, eval, c, line.exprs, IfEnter, IfExit);
      case StartWhile =>
        NewFrameCoherent(c.trace);
        BranchCoherent(prog, eval, c.(trace := NewFrameState(c.trace)), line.exprs, WhileEnter, WhileExit);
      case StartFor => StepForCoherent(prog, eval, c, line.exprs);
      case ForEach => StepForEachCoherent(prog, eval, c, line.exprs);
      case SetVar => StepSetCoherent(eval, c, line.exprs);
      case Display => StepDisplayCoherent(eval, c, line.exprs);
      case _ =>
    }
  }

  /** A run from a coherent state ends, or stops, in a coherent state. */
  lemma RunCoherent(prog: seq<Statement>, eval: Evaluator, c: Config, fuel: nat)
    requires Coherent(c.trace)
    ensures match Run(prog, eval, c, fuel)
            case Done(_, t) => Coherent(t)
            case Unfinished(c') => Coherent(c'.trace)
  {
    forall d: Config | Coherent(d.trace) ensures Sound(Stepper(prog, eval)(d)) {
      StepCoherent(prog, eval, d);
    }
    IterateKeeps(|prog|, Stepper(prog, eval), (d: Config) => Coherent(d.trace), (t: Snapshot) => Coherent(t), c, fuel);
  }

  /** A false condition of an `if` or `start_while` sends the program
      counter just past the line that closes the block: the first later line
      of an exit kind reached at depth 0. When there is no such line the run
      stops with an IndexError. */
  lemma BranchOnFalse(prog: seq<Statement>, eval: Evaluator, c: Config, exprs: seq<string>, enter: set<Kind>, exit: set<Kind>)
    requires exprs != []
    requires EvaluateIn(c.trace, eval, exprs[0]).1.Ok? && !Truthy(EvaluateIn(c.trace, eval, exprs[0]).1.value)
    ensures match Branch(prog, eval, c, exprs, enter, exit)
            case Next(c') =>
              var r := c'.pc - 1;
              c.pc < r && KindAt(prog, r).Ok? && KindAt(prog, r).value in exit &&
              FirstClose(Visited(prog, c.pc, 1), enter, exit, r - c.pc - 1) &&
              c'.loops == c.loops && c'.trace == EvaluateIn(c.trace, eval, exprs[0]).0
            case Failed(e, _) =>
              e == IndexError &&
              forall m :: 0 <= m < |Visited(prog, c.pc, 1)| ==> !ClosesAt(Visited(prog, c.pc, 1), enter, exit, m)
  {
    SkipBlockForward(c.pc, prog, enter, exit);
  }

  /** A true condition goes on to the next line. */
  lemma BranchOnTrue(prog: seq<Statement>, eval: Evaluator, c: Config, exprs: seq<string>, enter: set<Kind>, exit: set<Kind>)
    requires exprs != []
    requires EvaluateIn(c.trace, eval, exprs[0]).1.Ok? && Truthy(EvaluateIn(c.trace, eval, exprs[0]).1.value)
    ensures Branch(prog, eval, c, exprs, enter, exit) == Next(Config(c.pc + 1, c.loops, EvaluateIn(c.trace, eval, exprs[0]).0))
  {
  }

  /** `else` reached by falling out of the `then` part always jumps past the
      line closing it, whatever the condition was. */
  lemma ElseSkips(prog: seq<Statement>, eval: Evaluator, c: Config)
    requires 0 <= c.pc < |prog| && prog[c.pc].kind == Else
    ensures match Step(prog, eval, c)
            case Next(c') =>
              c.pc < c'.pc - 1 < |prog| && prog[c'.pc - 1].kind in IfExit &&
              FirstClose(Visited(prog, c.pc, 1), IfEnter, IfExit, c'.pc - c.pc - 2) &&
              c'.loops == c.loops && c'.trace == c.trace
            case Failed(e, t) => e == IndexError && t == c.trace
  {
    SkipBlockForward(c.pc, prog, IfEnter, IfExit);
  }

  /** `end_while` goes back to the `start_while` whose block it closes: if
      the forward skip from a `start_while` lands on a line, that line jumps
      back to the `start_while`, leaving loops and trace alone. */
  lemma EndWhileReturnsToOwner(prog: seq<Statement>, eval: Evaluator, i: int, loops: seq<LoopFrame>, t: Snapshot)
    requires 0 <= i < |prog| && prog[i].kind == StartWhile
    requires SkipBlock(i, prog, WhileEnter, WhileExit, false).Ok?
    ensures var r := SkipBlock(i, prog, WhileEnter, WhileExit, false).value;
            i < r < |prog| && prog[r].kind == EndWhile &&
            Step(prog, eval, Config(r, loops, t)) == Next(Config(i, loops, t))
  {
    var r := SkipBlock(i, prog, WhileEnter, WhileExit, false).value;
    SkipBlockForward(i, prog, WhileEnter, WhileExit);
    SkipBlockRoundTrip(i, prog, WhileEnter, WhileExit);
  }

  /** `end_for` jumps to the owner of the innermost loop frame without
      popping it, and fails on an empty stack. */
  lemma EndForJumps(prog: seq<Statement>, eval: Evaluator, c: Config)
    requires 0 <= c.pc < |prog| && prog[c.pc].kind == EndFor
    ensures c.loops == [] ==> Step(prog, eval, c) == Failed(IndexError, c.trace)
    ensures c.loops != [] ==> Step(prog, eval, c) == Next(Config(c.loops[|c.loops| - 1].owner, c.loops, c.trace))
  {
  }

  /** `set_var`: the value is evaluated first; an error stops the run with
      the reads made so far, and otherwise the name is bound to the value,
      no other binding changes, and the program moves on to the next line. */
  lemma SetAssigns(prog: seq<Statement>, eval: Evaluator, c: Config)
    requires 0 <= c.pc < |prog| && prog[c.pc].kind == SetVar
    ensures |prog[c.pc].exprs| < 2 ==> Step(prog, eval, c) == Failed(IndexError, c.trace)
    ensures |prog[c.pc].exprs| >= 2 ==>
              var exprs := prog[c.pc].exprs;
              var (t, v) := EvaluateIn(c.trace, eval, exprs[1]);
              (v.Err? ==> Step(prog, eval, c) == Failed(v.error, t)) &&
              (v.Ok? ==> Step(prog, eval, c).Next? &&
                         var c' := Step(prog, eval, c).config;
                         c'.pc == c.pc + 1 && c'.loops == c.loops && c'.trace == WriteState(t, exprs[0], v.value) &&
                         c'.trace.objects == c.trace.objects[exprs[0] := v.value])
  {
    if |prog[c.pc].exprs| >= 2 {
      var exprs := prog[c.pc].exprs;
      var (t, v) := EvaluateIn(c.trace, eval, exprs[1]);
      EvaluateKeepsBindings(c.trace, eval, exprs[1]);
      if v.Ok? {
        WriteSpec(t, exprs[0], v.value);
      }
    }
  }

  /** `display` stores the text of the value under Display and leaves an
      empty frame with no temporaries; the frame it closes stays in the
      table as the last closed one, showing that text. An error in the
      expression stops the run with the reads made so far. */
  lemma DisplayWritesAndCloses(prog: seq<Statement>, eval: Evaluator, c: Config)
    requires 0 <= c.pc < |prog| && prog[c.pc].kind == Display
    ensures prog[c.pc].exprs == [] ==> Step(prog, eval, c) == Failed(IndexError, c.trace)
    ensures prog[c.pc].exprs != [] && EvaluateIn(c.trace, eval, prog[c.pc].exprs[0]).1.Err? ==>
              Step(prog, eval, c) ==
                Failed(EvaluateIn(c.trace, eval, prog[c.pc].exprs[0]).1.error, EvaluateIn(c.trace, eval, prog[c.pc].exprs[0]).0)
    ensures prog[c.pc].exprs != [] && EvaluateIn(c.trace, eval, prog[c.pc].exprs[0]).1.Ok? ==>
              Step(prog, eval, c).Next? &&
              var c' := Step(prog, eval, c).config;
              var v := EvaluateIn(c.trace, eval, prog[c.pc].exprs[0]).1.value;
              c'.pc == c.pc + 1 && c'.loops == c.loops &&
              c'.trace.objects == c.trace.objects[DisplayName := Str(Show(v))] &&
              Last(c'.trace.table) == map[] && c'.trace.temps == {} &&
              (Coherent(c.trace) ==>
                 |c'.trace.table| >= 2 && DisplayName in c'.trace.table[|c'.trace.table| - 2] &&
                 c'.trace.table[|c'.trace.table| - 2][DisplayName] == Str(Show(v)))
  {
    if prog[c.pc].exprs != [] {
      var (t, v) := EvaluateIn(c.trace, eval, prog[c.pc].exprs[0]);
      if v.Ok? {
        var w := WriteState(t, DisplayName, Str(Show(v.value)));
        EvaluateKeepsBindings(c.trace, eval, prog[c.pc].exprs[0]);
        WriteSpec(t, DisplayName, Str(Show(v.value)));
        NewFrameSpec(w);
        if Coherent(c.trace) {
          EvaluateCoherent(c.trace, eval, prog[c.pc].exprs[0]);
          WriteCoherent(t, DisplayName, Str(Show(v.value)));
          NewFrameAppendOnly(w);
        }
      }
    }
  }

  /** `end_if` and blank or unrecognised lines only move on. */
  lemma PassThrough(prog: seq<Statement>, eval: Evaluator, c: Config)
    requires 0 <= c.pc < |prog| && prog[c.pc].kind in {EndIf, Blank}
    ensures Step(prog, eval, c) == Next(Config(c.pc + 1, c.loops, c.trace))
  {
  }

  /** An error ends the run at once with the trace state of that moment. */
  lemma ErrorStops(prog: seq<Statement>, eval: Evaluator, c: Config, fuel: nat)
    requires c.pc < |prog| && fuel > 0 && Step(prog, eval, c).Failed?
    ensures Run(prog, eval, c, fuel) == Done(Some(Step(prog, eval, c).error), Step(prog, eval, c).trace)
  {
  }

  /** A step that goes on leaves the rest of the run to the next
      configuration. */
  lemma RunNext(prog: seq<Statement>, eval: Evaluator, c: Config, fuel: nat, next: Config)
    requires c.pc < |prog| && fuel > 0 && Step(prog, eval, c) == Next(next)
    ensures Run(prog, eval, c, fuel) == Run(prog, eval, next, fuel - 1)
  {
    IterateNext(|prog|, Stepper(prog, eval), c, fuel);
  }

  /** A run that has ended gives the same result with more fuel. */
  lemma RunMonotone(prog: seq<Statement>, eval: Evaluator, c: Config, fuel: nat, more: nat)
    requires fuel <= more && Run(prog, eval, c, fuel).Done?
    ensures Run(prog, eval, c, more) == Run(prog, eval, c, fuel)
  {
    IterateMonotone(|prog|, Stepper(prog, eval), c, fuel, more);
  }

  // ---------------------------------------------------------------------
  // Loop frames

  /** Every loop frame is owned by a loop header of its own sort. */
  predicate OwnersMatch(prog: seq<Statement>, loops: seq<LoopFrame>)
  {
    forall i | 0 <= i < |loops| ::
      KindAt(prog, loops[i].owner) == Ok(if loops[i].Counted? then StartFor else ForEach)
  }

  lemma OwnersPush(prog: seq<Statement>, loops: seq<LoopFrame>, f: LoopFrame)
    requires OwnersMatch(prog, loops)
    requires KindAt(prog, f.owner) == Ok(if f.Counted? then StartFor else ForEach)
    ensures OwnersMatch(prog, loops + [f])
  {
  }

  lemma OwnersPop(prog: seq<Statement>, loops: seq<LoopFrame>)
    requires OwnersMatch(prog, loops) && loops != []
    ensures OwnersMatch(prog, Pop(loops))
  {
  }

  lemma DecideKeepsLoops(prog: seq<Statement>, c: Config, enter: set<Kind>, exit: set<Kind>, cond: (Snapshot, Result<Value>))
    ensures Decide(prog, c, enter, exit, cond).Next? ==> Decide(prog, c, enter, exit, cond).config.loops == c.loops
  {
  }

  lemma BranchKeepsLoops(prog: seq<Statement>, eval: Evaluator, c: Config, exprs: seq<string>, enter: set<Kind>, exit: set<Kind>)
    ensures Branch(prog, eval, c, exprs, enter, exit).Next? ==> Branch(prog, eval, c, exprs, enter, exit).config.loops == c.loops
  {
    if exprs != [] {
      DecideKeepsLoops(prog, c, enter, exit, EvaluateIn(c.trace, eval, exprs[0]));
    }
  }

  lemma CountAgainOwners(prog: seq<Statement>, c: Config, exprs: seq<string>, current: Value, target: Value, t0: Snapshot)
    requires c.loops != [] && OwnersMatch(prog, Pop(c.loops)) && KindAt(prog, c.pc) == Ok(StartFor)
    ensures CountAgain(prog, c, exprs, current, target, t0).Next? ==>
              OwnersMatch(prog, CountAgain(prog, c, exprs, current, target, t0).config.loops)
  {
    if Advance(current, target).Ok? {
      OwnersPush(prog, Pop(c.loops), Counted(c.pc, Advance(current, target).value, target));
    }
  }

  lemma CountPushOwners(prog: seq<Statement>, c: Config, exprs: seq<string>, startValue: Value, end: (Snapshot, Result<Value>))
    requires OwnersMatch(prog, c.loops) && KindAt(prog, c.pc) == Ok(StartFor)
    ensures CountPush(c, exprs, startValue, end).Next? ==> OwnersMatch(prog, CountPush(c, exprs, startValue, end).config.loops)
  {
    if end.1.Ok? {
      OwnersPush(prog, c.loops, Counted(c.pc, startValue, end.1.value));
    }
  }

  lemma StepForOwners(prog: seq<Statement>, eval: Evaluator, c: Config, exprs: seq<string>)
    requires OwnersMatch(prog, c.loops) && KindAt(prog, c.pc) == Ok(StartFor)
    ensures StepFor(prog, eval, c, exprs).Next? ==> OwnersMatch(prog, StepFor(prog, eval, c, exprs).config.loops)
  {
    var t0 := NewFrameState(c.trace);
    if c.loops != [] && Top(c.loops).owner == c.pc {
      OwnersPop(prog, c.loops);
      if Top(c.loops).Counted? {
        CountAgainOwners(prog, c, exprs, Top(c.loops).current, Top(c.loops).target, t0);
      }
    } else if |exprs| >= 2 {
      var start := EvaluateIn(t0, eval, exprs[1]);
      if start.1.Ok? && |exprs| >= 3 {
        CountPushOwners(prog, c, exprs, start.1.value, EvaluateIn(start.0, eval, exprs[2]));
      }
    }
  }

  lemma EachBindOwners(prog: seq<Statement>, pc: int, loops: seq<LoopFrame>, exprs: seq<string>, index: nat, items: (Snapshot, Result<Value>))
    requires OwnersMatch(prog, loops) && KindAt(prog, pc) == Ok(ForEach)
    ensures EachBind(pc, loops, exprs, index, items).Next? ==> OwnersMatch(prog, EachBind(pc, loops, exprs, index, items).config.loops)
  {
    OwnersPush(prog, loops, Each(pc, index));
  }

  lemma StepForEachOwners(prog: seq<Statement>, eval: Evaluator, c: Config, exprs: seq<string>)
    requires OwnersMatch(prog, c.loops) && KindAt(prog, c.pc) == Ok(ForEach)
    ensures StepForEach(prog, eval, c, exprs).Next? ==> OwnersMatch(prog, StepForEach(prog, eval, c, exprs).config.loops)
  {
    var t0 := NewFrameState(c.trace);
    if |exprs| >= 2 {
      var items := EvaluateIn(t0, eval, exprs[1]);
      if c.loops != [] && Top(c.loops).owner == c.pc {
        OwnersPop(prog, c.loops);
        if Top(c.loops).Each? {
          EachBindOwners(prog, c.pc, Pop(c.loops), exprs, Top(c.loops).index + 1, EvaluateIn(items.0, eval, exprs[1]));
        }
      } else {
        EachBindOwners(prog, c.pc, c.loops, exprs, 0, items);
      }
    }
  }

  /** Steps keep every frame owned by a header of its sort; hence the
      branches of `start_for` and `for_each` that meet a frame of the other
      sort are never taken. */
  lemma StepKeepsOwners(prog: seq<Statement>, eval: Evaluator, c: Config)
    requires OwnersMatch(prog, c.loops)
    ensures Step(prog, eval, c).Next? ==> OwnersMatch(prog, Step(prog, eval, c).config.loops)
  {
    if -|prog| <= c.pc < |prog| {
      var line := PyIndex(prog, c.pc).value;
      match line.kind
      case If => BranchKeepsLoops(prog, eval, c, line.exprs, IfEnter, IfExit);
      case StartWhile => BranchKeepsLoops(prog, eval, c.(trace := NewFrameState(c.trace)), line.exprs, WhileEnter, WhileExit);
      case StartFor => StepForOwners(prog, eval, c, line.exprs);
      case ForEach => StepForEachOwners(prog, eval, c, line.exprs);
      case _ =>
    }
  }

  lemma RunKeepsOwners(prog: seq<Statement>, eval: Evaluator, c: Config, fuel: nat)
    requires OwnersMatch(prog, c.loops)
    ensures Run(prog, eval, c, fuel).Unfinished? ==> OwnersMatch(prog, Run(prog, eval, c, fuel).config.loops)
  {
    forall d: Config | OwnersMatch(prog, d.loops) && Stepper(prog, eval)(d).Next?
      ensures OwnersMatch(prog, Stepper(prog, eval)(d).config.loops)
    {
      StepKeepsOwners(prog, eval, d);
    }
    IterateKeeps(|prog|, Stepper(prog, eval), (d: Config) => OwnersMatch(prog, d.loops), (t: Snapshot) => true, c, fuel);
  }

  /** A `start_for` line whose loop frame is on top of the stack re-enters
      its counted loop after closing the frame. */
  lemma StepForReentry(prog: seq<Statement>, eval: Evaluator, c: Config)
    requires 0 <= c.pc < |prog| && prog[c.pc].kind == StartFor
    requires c.loops != [] && Top(c.loops).owner == c.pc && Top(c.loops).Counted?
    ensures Step(prog, eval, c) ==
              CountAgain(prog, c, prog[c.pc].exprs, Top(c.loops).current, Top(c.loops).target, NewFrameState(c.trace))
  {
  }

  /** A `start_for` line that owns no frame on top of the stack starts its
      loop: after closing the frame it evaluates the start value. */
  lemma StepForFirst(prog: seq<Statement>, eval: Evaluator, c: Config)
    requires 0 <= c.pc < |prog| && prog[c.pc].kind == StartFor && |prog[c.pc].exprs| >= 2
    requires c.loops == [] || Top(c.loops).owner != c.pc
    ensures Step(prog, eval, c) ==
              CountStart(eval, c, prog[c.pc].exprs, EvaluateIn(NewFrameState(c.trace), eval, prog[c.pc].exprs[1]))
  {
  }

  /** A `for_each` line whose item frame is on top of the stack evaluates
      the sequence again after closing the frame. */
  lemma StepEachReentry(prog: seq<Statement>, eval: Evaluator, c: Config)
    requires 0 <= c.pc < |prog| && prog[c.pc].kind == ForEach && |prog[c.pc].exprs| >= 2
    requires c.loops != [] && Top(c.loops).owner == c.pc && Top(c.loops).Each?
    ensures Step(prog, eval, c) ==
              EachAgain(prog, eval, c, prog[c.pc].exprs, Top(c.loops).index, prog[c.pc].exprs[1],
                        EvaluateIn(NewFrameState(c.trace), eval, prog[c.pc].exprs[1]))
  {
  }

  /** A `for_each` line that owns no frame on top of the stack binds item 0. */
  lemma StepEachFirst(prog: seq<Statement>, eval: Evaluator, c: Config)
    requires 0 <= c.pc < |prog| && prog[c.pc].kind == ForEach && |prog[c.pc].exprs| >= 2
    requires c.loops == [] || Top(c.loops).owner != c.pc
    ensures Step(prog, eval, c) ==
              EachBind(c.pc, c.loops, prog[c.pc].exprs, 0, EvaluateIn(NewFrameState(c.trace), eval, prog[c.pc].exprs[1]))
  {
  }

  /** Re-entering a counted loop: at the target the frame is popped and the
      program continues after the matching `end_for`; otherwise the current
      value moves one toward the target only when the target is above it, and
      the variable is bound to it. */
  lemma CountedReentry(prog: seq<Statement>, c: Config, exprs: seq<string>, cur: int, target: int, t0: Snapshot)
    requires c.loops != [] && exprs != []
    ensures cur == target ==>
              CountAgain(prog, c, exprs, Int(cur), Int(target), t0) ==
                JumpTo(SkipBlock(c.pc, prog, ForEnter, ForExit, false), 1, Pop(c.loops), t0)
    ensures cur != target ==>
              var next := if target > cur then cur + 1 else cur;
              CountAgain(prog, c, exprs, Int(cur), Int(target), t0) ==
                Next(Config(c.pc + 1, Pop(c.loops) + [Counted(c.pc, Int(next), Int(target))], WriteState(t0, exprs[0], Int(next))))
  {
  }

  /** The first visit of a `start_for` line: after closing the frame it
      evaluates the start and then the target, pushes the frame
      `[line, start, target]` and binds the variable to the start value; an
      error or a missing expression stops the run at the point it occurs. */
  lemma CountedStart(prog: seq<Statement>, eval: Evaluator, c: Config)
    requires 0 <= c.pc < |prog| && prog[c.pc].kind == StartFor
    requires c.loops == [] || Top(c.loops).owner != c.pc
    ensures |prog[c.pc].exprs| < 2 ==> Step(prog, eval, c) == Failed(IndexError, NewFrameState(c.trace))
    ensures |prog[c.pc].exprs| >= 2 ==>
              var exprs := prog[c.pc].exprs;
              var start := EvaluateIn(NewFrameState(c.trace), eval, exprs[1]);
              (start.1.Err? ==> Step(prog, eval, c) == Failed(start.1.error, start.0)) &&
              (start.1.Ok? && |exprs| == 2 ==> Step(prog, eval, c) == Failed(IndexError, start.0))
    ensures |prog[c.pc].exprs| >= 3 && EvaluateIn(NewFrameState(c.trace), eval, prog[c.pc].exprs[1]).1.Ok? ==>
              var exprs := prog[c.pc].exprs;
              var start := EvaluateIn(NewFrameState(c.trace), eval, exprs[1]);
              var end := EvaluateIn(start.0, eval, exprs[2]);
              (end.1.Err? ==> Step(prog, eval, c) == Failed(end.1.error, end.0)) &&
              (end.1.Ok? ==>
                 Step(prog, eval, c) ==
                   Next(Config(c.pc + 1, c.loops + [Counted(c.pc, start.1.value, end.1.value)],
                               WriteState(end.0, exprs[0], start.1.value))))
  {
    if |prog[c.pc].exprs| >= 2 {
      StepForFirst(prog, eval, c);
    }
  }

  /** The first visit of a `for_each` line: after closing the frame it
      evaluates the sequence, pushes the frame `[line, 0]` and binds the
      variable to item 0; an empty sequence is an IndexError and a value
      without a length a TypeError. */
  lemma EachStart(prog: seq<Statement>, eval: Evaluator, c: Config)
    requires 0 <= c.pc < |prog| && prog[c.pc].kind == ForEach
    requires c.loops == [] || Top(c.loops).owner != c.pc
    ensures |prog[c.pc].exprs| < 2 ==> Step(prog, eval, c) == Failed(IndexError, NewFrameState(c.trace))
    ensures |prog[c.pc].exprs| >= 2 ==>
              var exprs := prog[c.pc].exprs;
              var (t, v) := EvaluateIn(NewFrameState(c.trace), eval, exprs[1]);
              (v.Err? ==> Step(prog, eval, c) == Failed(v.error, t)) &&
              (v.Ok? && !v.value.List? && !v.value.Str? ==> Step(prog, eval, c) == Failed(TypeError, t)) &&
              (v.Ok? && v.value.List? && v.value.items == [] ==> Step(prog, eval, c) == Failed(IndexError, t)) &&
              (v.Ok? && v.value.List? && v.value.items != [] ==>
                 Step(prog, eval, c) == Next(Config(c.pc + 1, c.loops + [Each(c.pc, 0)], WriteState(t, exprs[0], v.value.items[0])))) &&
              (v.Ok? && v.value.Str? && v.value.s == [] ==> Step(prog, eval, c) == Failed(IndexError, t)) &&
              (v.Ok? && v.value.Str? && v.value.s != [] ==>
                 Step(prog, eval, c) == Next(Config(c.pc + 1, c.loops + [Each(c.pc, 0)], WriteState(t, exprs[0], Str([v.value.s[0]])))))
  {
    if |prog[c.pc].exprs| >= 2 {
      StepEachFirst(prog, eval, c);
      EachBindFirst(c.pc, c.loops, prog[c.pc].exprs, EvaluateIn(NewFrameState(c.trace), eval, prog[c.pc].exprs[1]));
    }
  }

  /** The first bind, case by case on the evaluated sequence. */
  lemma EachBindFirst(pc: int, loops: seq<LoopFrame>, exprs: seq<string>, items: (Snapshot, Result<Value>))
    requires exprs != []
    ensures var (t, v) := items;
            (v.Err? ==> EachBind(pc, loops, exprs, 0, items) == Failed(v.error, t)) &&
            (v.Ok? && !v.value.List? && !v.value.Str? ==> EachBind(pc, loops, exprs, 0, items) == Failed(TypeError, t)) &&
            (v.Ok? && v.value.List? && v.value.items == [] ==> EachBind(pc, loops, exprs, 0, items) == Failed(IndexError, t)) &&
            (v.Ok? && v.value.List? && v.value.items != [] ==>
               EachBind(pc, loops, exprs, 0, items) == Next(Config(pc + 1, loops + [Each(pc, 0)], WriteState(t, exprs[0], v.value.items[0])))) &&
            (v.Ok? && v.value.Str? && v.value.s == [] ==> EachBind(pc, loops, exprs, 0, items) == Failed(IndexError, t)) &&
            (v.Ok? && v.value.Str? && v.value.s != [] ==>
               EachBind(pc, loops, exprs, 0, items) == Next(Config(pc + 1, loops + [Each(pc, 0)], WriteState(t, exprs[0], Str([v.value.s[0]])))))
  {
    if items.1.Ok? && Length(items.1.value).Ok? && 0 < Length(items.1.value).value {
      EachBindOutcome(pc, loops, exprs, 0, items);
    }
  }

  /** Binding item `index` of a sequence long enough to have it pushes the
      frame `[pc, index]` and binds the first name to that item. */
  lemma EachBindOutcome(pc: int, loops: seq<LoopFrame>, exprs: seq<string>, index: nat, items: (Snapshot, Result<Value>))
    requires exprs != [] && items.1.Ok? && Length(items.1.value).Ok? && index < Length(items.1.value).value
    ensures EachBind(pc, loops, exprs, index, items) ==
              Next(Config(pc + 1, loops + [Each(pc, index)], WriteState(items.0, exprs[0], ItemAt(items.1.value, index).value)))
  {
  }

  /** A later visit once the sequence is read: past its last item the
      program continues after the block, otherwise the next item is bound
      from the second reading of the sequence. */
  lemma EachAgainOutcome(prog: seq<Statement>, eval: Evaluator, c: Config, exprs: seq<string>, index: nat, source: string,
                         items: (Snapshot, Result<Value>))
    requires c.loops != [] && exprs != [] && items.1.Ok? && Length(items.1.value).Ok?
    requires EvaluateIn(items.0, eval, source).1 == items.1
    ensures index + 1 >= Length(items.1.value).value ==>
              EachAgain(prog, eval, c, exprs, index, source, items) ==
                JumpTo(SkipBlock(c.pc, prog, ForEnter, ForExit, false), 1, Pop(c.loops), items.0)
    ensures index + 1 < Length(items.1.value).value ==>
              EachAgain(prog, eval, c, exprs, index, source, items) ==
                Next(Config(c.pc + 1, Pop(c.loops) + [Each(c.pc, index + 1)],
                            WriteState(EvaluateIn(items.0, eval, source).0, exprs[0], ItemAt(items.1.value, index + 1).value)))
  {
    if index + 1 < Length(items.1.value).value {
      EachBindOutcome(c.pc, Pop(c.loops), exprs, index + 1, EvaluateIn(items.0, eval, source));
    }
  }

  /** A later visit of a `for_each` line whose frame `[line, index]` is on
      top: after closing the frame it evaluates the sequence, which gives the
      same value when evaluated again, since reads change no binding. After
      the last item the frame is popped and the program continues after the
      matching `end_for`; otherwise the top frame becomes `[line, index + 1]`
      and the variable is bound to the next item. A value without a length
      is a TypeError. */
  lemma EachReentry(prog: seq<Statement>, eval: Evaluator, c: Config)
    requires 0 <= c.pc < |prog| && prog[c.pc].kind == ForEach && |prog[c.pc].exprs| >= 2
    requires c.loops != [] && Top(c.loops).Each? && Top(c.loops).owner == c.pc
    ensures var exprs := prog[c.pc].exprs;
            var first := EvaluateIn(NewFrameState(c.trace), eval, exprs[1]);
            EvaluateIn(first.0, eval, exprs[1]).1 == first.1
    ensures var exprs := prog[c.pc].exprs;
            var (t, v) := EvaluateIn(NewFrameState(c.trace), eval, exprs[1]);
            (v.Err? ==> Step(prog, eval, c) == Failed(v.error, t)) &&
            (v.Ok? && !v.value.List? && !v.value.Str? ==> Step(prog, eval, c) == Failed(TypeError, t))
    ensures var exprs := prog[c.pc].exprs;
            var index := Top(c.loops).index;
            var (t, v) := EvaluateIn(NewFrameState(c.trace), eval, exprs[1]);
            v.Ok? && v.value.List? ==>
              (index + 1 >= |v.value.items| ==>
                 Step(prog, eval, c) == JumpTo(SkipBlock(c.pc, prog, ForEnter, ForExit, false), 1, Pop(c.loops), t)) &&
              (index + 1 < |v.value.items| ==>
                 Step(prog, eval, c) ==
                   Next(Config(c.pc + 1, Pop(c.loops) + [Each(c.pc, index + 1)],
                               WriteState(EvaluateIn(t, eval, exprs[1]).0, exprs[0], v.value.items[index + 1]))))
    ensures var exprs := prog[c.pc].exprs;
            var index := Top(c.loops).index;
            var (t, v) := EvaluateIn(NewFrameState(c.trace), eval, exprs[1]);
            v.Ok? && v.value.Str? ==>
              (index + 1 >= |v.value.s| ==>
                 Step(prog, eval, c) == JumpTo(SkipBlock(c.pc, prog, ForEnter, ForExit, false), 1, Pop(c.loops), t)) &&
              (index + 1 < |v.value.s| ==>
                 Step(prog, eval, c) ==
                   Next(Config(c.pc + 1, Pop(c.loops) + [Each(c.pc, index + 1)],
                               WriteState(EvaluateIn(t, eval, exprs[1]).0, exprs[0], Str([v.value.s[index + 1]])))))
  {
    var exprs := prog[c.pc].exprs;
    var t0 := NewFrameState(c.trace);
    var items := EvaluateIn(t0, eval, exprs[1]);
    EvaluateKeepsBindings(t0, eval, exprs[1]);
    StepEachReentry(prog, eval, c);
    if items.1.Ok? && Length(items.1.value).Ok? {
      EachAgainOutcome(prog, eval, c, exprs, Top(c.loops).index, exprs[1], items);
    }
  }
}
