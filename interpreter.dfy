// The interpreter loop of `main` (backend.py:140-220) as it is written: a
// program counter, a stack of loop frames and one `TraceState` object that
// every statement updates in place. Each method is proved to do what the
// corresponding function of the Engine module computes, and the loop is
// proved to compute `Interpret`.

module Interpreter {
  import opened Values
  import opened Templates
  import opened Expressions
  import opened Navigator
  import opened Trace
  import opened Engine
  import opened Behaviour

  /** The outcome a statement method reports: the error that stopped the
      run, or the next program counter and loop stack; the trace state is
      the object's. */
  function Settle(err: Option<Error>, pc: int, loops: seq<LoopFrame>, t: Snapshot): (o: Outcome)
    ensures err.Some? <==> o.Failed?
    ensures o.Failed? ==> o == Failed(err.value, t)
    ensures o.Next? ==> o.config == Config(pc, loops, t)
  {
    match err
    case Some(e) => Failed(e, t)
    case None => Next(Config(pc, loops, t))
  }

  /** `expression_evaluate(expression, var_states)` (backend.py:43-61): the
      host evaluator runs on the canonical text, and every name it looks up
      goes through `__getitem__`; a failed lookup is not an error of the
      evaluation. */
  method ExpressionEvaluate(expression: string, eval: Evaluator, state: TraceState) returns (r: Result<Value>)
    requires state.Valid()
    modifies state
    ensures (state.Snap(), r) == EvaluateIn(old(state.Snap()), eval, expression)
    ensures state.Valid()
  {
    var processed := Canonicalise(expression);
    var e := eval(processed, state.objects);
    ghost var s0 := state.Snap();
    for i := 0 to |e.lookups|
      invariant state.Valid()
      invariant state.Snap() == ReadAll(s0, e.lookups[..i])
    {
      var looked := state.GetItem(e.lookups[i]);
      ReadAllSnoc(s0, e.lookups, i);
    }
    assert e.lookups[..|e.lookups|] == e.lookups;
    r := e.outcome;
  }

  lemma ReadAllSnoc(s: Snapshot, names: seq<string>, i: nat)
    requires i < |names|
    ensures ReadAll(s, names[..i + 1]) == ReadState(ReadAll(s, names[..i]), names[i]).0
  {
    assert names[..i + 1][..i] == names[..i];
  }

  /** `skip_block` (backend.py:64-68) on the loop of `skip_block_worker`. */
  method SkipTo(lineIndex: int, prog: seq<Statement>, enterDels: set<Kind>, exitDels: set<Kind>, reverse: bool)
    returns (r: Result<int>)
    ensures r == SkipBlock(lineIndex, prog, enterDels, exitDels, reverse)
  {
    if reverse {
      r := SkipBlockWorker(lineIndex, prog, exitDels, enterDels, -1);
    } else {
      r := SkipBlockWorker(lineIndex, prog, enterDels, exitDels, 1);
    }
  }

  /** The test of `if` and `start_while`. */
  method ExecBranch(prog: seq<Statement>, eval: Evaluator, state: TraceState, pc: int, loops: seq<LoopFrame>,
                    exprs: seq<string>, enter: set<Kind>, exit: set<Kind>)
    returns (err: Option<Error>, pc': int, loops': seq<LoopFrame>)
    requires state.Valid()
    modifies state
    ensures Settle(err, pc', loops', state.Snap()) == Branch(prog, eval, Config(pc, loops, old(state.Snap())), exprs, enter, exit)
    ensures state.Valid()
  {
    err, pc', loops' := None, pc, loops;
    if exprs == [] {
      err := Some(IndexError);
      return;
    }
    var cond := ExpressionEvaluate(exprs[0], eval, state);
    match cond
    case Err(e) => err := Some(e);
    case Ok(b) =>
      if Truthy(b) {
        pc' := pc + 1;
      } else {
        var target := SkipTo(pc, prog, enter, exit, false);
        match target
        case Err(e) => err := Some(e);
        case Ok(r) => pc' := r + 1;
      }
  }

  /** `start_for` (backend.py:172-186), after its `new_frame`, on a later
      visit of a counted loop; `entry` is the trace before `new_frame`. */
  method ExecCountAgain(prog: seq<Statement>, state: TraceState, pc: int, loops: seq<LoopFrame>,
                        exprs: seq<string>, current: Value, target: Value, ghost entry: Snapshot)
    returns (err: Option<Error>, pc': int, loops': seq<LoopFrame>)
    requires state.Valid() && loops != []
    modifies state
    ensures Settle(err, pc', loops', state.Snap()) == CountAgain(prog, Config(pc, loops, entry), exprs, current, target, old(state.Snap()))
    ensures state.Valid()
  {
    err, pc', loops' := None, pc, loops;
    if PyEq(current, target) {
      loops' := Pop(loops);
      var r := SkipTo(pc, prog, ForEnter, ForExit, false);
      match r
      case Err(e) => err := Some(e);
      case Ok(j) => pc' := j + 1;
    } else {
      var next := Advance(current, target);
      if next.Err? {
        err := Some(next.error);
      } else if exprs == [] {
        err := Some(IndexError);
      } else {
        state.SetItem(exprs[0], next.value);
        loops' := Pop(loops) + [Counted(pc, next.value, target)];
        pc' := pc + 1;
      }
    }
  }

  /** The first visit of a counted loop: the start value is evaluated,
      then the target. */
  method ExecCountStart(eval: Evaluator, state: TraceState, pc: int, loops: seq<LoopFrame>, exprs: seq<string>, ghost entry: Snapshot)
    returns (err: Option<Error>, pc': int, loops': seq<LoopFrame>)
    requires state.Valid() && |exprs| >= 2
    modifies state
    ensures Settle(err, pc', loops', state.Snap()) ==
              CountStart(eval, Config(pc, loops, entry), exprs, EvaluateIn(old(state.Snap()), eval, exprs[1]))
    ensures state.Valid()
  {
    var start := ExpressionEvaluate(exprs[1], eval, state);
    if start.Err? {
      err, pc', loops' := Some(start.error), pc, loops;
    } else if |exprs| < 3 {
      err, pc', loops' := Some(IndexError), pc, loops;
    } else {
      var end := ExpressionEvaluate(exprs[2], eval, state);
      err, pc', loops' := ExecCountPush(state, pc, loops, exprs, start.value, end, entry);
    }
  }

  /** Once both bounds are evaluated: the frame `[pc, start, end]` is pushed
      and the variable bound to the start value. */
  method ExecCountPush(state: TraceState, pc: int, loops: seq<LoopFrame>, exprs: seq<string>,
                       startValue: Value, end: Result<Value>, ghost entry: Snapshot)
    returns (err: Option<Error>, pc': int, loops': seq<LoopFrame>)
    requires state.Valid()
    modifies state
    ensures Settle(err, pc', loops', state.Snap()) == CountPush(Config(pc, loops, entry), exprs, startValue, (old(state.Snap()), end))
    ensures state.Valid()
  {
    err, pc', loops' := None, pc, loops;
    if end.Err? {
      err := Some(end.error);
    } else if exprs == [] {
      err := Some(IndexError);
    } else {
      loops' := loops + [Counted(pc, startValue, end.value)];
      state.SetItem(exprs[0], startValue);
      pc' := pc + 1;
    }
  }

  /** `start_for` (backend.py:172-186). */
  method ExecFor(prog: seq<Statement>, eval: Evaluator, state: TraceState, pc: int, loops: seq<LoopFrame>, exprs: seq<string>)
    returns (err: Option<Error>, pc': int, loops': seq<LoopFrame>)
    requires state.Valid()
    modifies state
    ensures Settle(err, pc', loops', state.Snap()) == StepFor(prog, eval, Config(pc, loops, old(state.Snap())), exprs)
    ensures state.Valid()
  {
    ghost var entry := state.Snap();
    state.NewFrame();
    ghost var t0 := state.Snap();
    if loops != [] && Top(loops).owner == pc {
      match Top(loops)
      case Each(_, _) => err, pc', loops' := Some(IndexError), pc, loops;
      case Counted(_, current, target) =>
        assert StepFor(prog, eval, Config(pc, loops, entry), exprs) ==
               CountAgain(prog, Config(pc, loops, entry), exprs, current, target, t0);
        err, pc', loops' := ExecCountAgain(prog, state, pc, loops, exprs, current, target, entry);
    } else if |exprs| < 2 {
      err, pc', loops' := Some(IndexError), pc, loops;
    } else {
      assert StepFor(prog, eval, Config(pc, loops, entry), exprs) ==
             CountStart(eval, Config(pc, loops, entry), exprs, EvaluateIn(t0, eval, exprs[1]));
      err, pc', loops' := ExecCountStart(eval, state, pc, loops, exprs, entry);
    }
  }

  /** Binds item `index` of an evaluated sequence and pushes `[pc, index]`
      on `base`. */
  method ExecEachBind(state: TraceState, pc: int, base: seq<LoopFrame>, exprs: seq<string>, index: nat, items: Result<Value>)
    returns (err: Option<Error>, pc': int, loops': seq<LoopFrame>)
    requires state.Valid()
    modifies state
    ensures Settle(err, pc', loops', state.Snap()) == EachBind(pc, base, exprs, index, (old(state.Snap()), items))
    ensures state.Valid()
  {
    err, pc', loops' := None, pc, base;
    if items.Err? {
      err := Some(items.error);
      return;
    }
    var item := ItemAt(items.value, index);
    if item.Err? {
      err := Some(item.error);
    } else if exprs == [] {
      err := Some(IndexError);
    } else {
      loops' := base + [Each(pc, index)];
      state.SetItem(exprs[0], item.value);
      pc' := pc + 1;
    }
  }

  /** The later visit of a `for_each` loop, once the sequence is evaluated;
      `entry` is the trace before `new_frame`. */
  method ExecEachAgain(prog: seq<Statement>, eval: Evaluator, state: TraceState, pc: int, loops: seq<LoopFrame>,
                       exprs: seq<string>, index: nat, source: string, items: Result<Value>, ghost entry: Snapshot)
    returns (err: Option<Error>, pc': int, loops': seq<LoopFrame>)
    requires state.Valid() && loops != []
    modifies state
    ensures Settle(err, pc', loops', state.Snap()) ==
              EachAgain(prog, eval, Config(pc, loops, entry), exprs, index, source, (old(state.Snap()), items))
    ensures state.Valid()
  {
    err, pc', loops' := None, pc, loops;
    if items.Err? {
      err := Some(items.error);
      return;
    }
    var n := Length(items.value);
    if n.Err? {
      err := Some(n.error);
    } else if index + 1 >= n.value {
      loops' := Pop(loops);
      var r := SkipTo(pc, prog, ForEnter, ForExit, false);
      match r
      case Err(e) => err := Some(e);
      case Ok(j) => pc' := j + 1;
    } else {
      ghost var s1 := state.Snap();
      var again := ExpressionEvaluate(source, eval, state);
      ghost var s2 := state.Snap();
      assert EachAgain(prog, eval, Config(pc, loops, entry), exprs, index, source, (s1, items)) ==
             EachBind(pc, Pop(loops), exprs, index + 1, (s2, again));
      err, pc', loops' := ExecEachBind(state, pc, Pop(loops), exprs, index + 1, again);
    }
  }

  /** `for_each` (backend.py:187-200). */
  method ExecForEach(prog: seq<Statement>, eval: Evaluator, state: TraceState, pc: int, loops: seq<LoopFrame>, exprs: seq<string>)
    returns (err: Option<Error>, pc': int, loops': seq<LoopFrame>)
    requires state.Valid()
    modifies state
    ensures Settle(err, pc', loops', state.Snap()) == StepForEach(prog, eval, Config(pc, loops, old(state.Snap())), exprs)
    ensures state.Valid()
  {
    ghost var entry := state.Snap();
    state.NewFrame();
    ghost var t0 := state.Snap();
    if loops != [] && Top(loops).owner == pc {
      match Top(loops)
      case Counted(_, _, _) => err, pc', loops' := Some(TypeError), pc, loops;
      case Each(_, index) =>
        if |exprs| < 2 {
          err, pc', loops' := Some(IndexError), pc, loops;
        } else {
          var items := ExpressionEvaluate(exprs[1], eval, state);
          ghost var s1 := state.Snap();
          assert StepForEach(prog, eval, Config(pc, loops, entry), exprs) ==
                 EachAgain(prog, eval, Config(pc, loops, entry), exprs, index, exprs[1], (s1, items));
          err, pc', loops' := ExecEachAgain(prog, eval, state, pc, loops, exprs, index, exprs[1], items, entry);
        }
    } else if |exprs| < 2 {
      err, pc', loops' := Some(IndexError), pc, loops;
    } else {
      var items := ExpressionEvaluate(exprs[1], eval, state);
      ghost var s1 := state.Snap();
      assert StepForEach(prog, eval, Config(pc, loops, entry), exprs) == EachBind(pc, loops, exprs, 0, (s1, items));
      err, pc', loops' := ExecEachBind(state, pc, loops, exprs, 0, items);
    }
  }

  /** `set_var` (backend.py:204-206). */
  method ExecSet(eval: Evaluator, state: TraceState, pc: int, loops: seq<LoopFrame>, exprs: seq<string>)
    returns (err: Option<Error>, pc': int, loops': seq<LoopFrame>)
    requires state.Valid()
    modifies state
    ensures Settle(err, pc', loops', state.Snap()) == StepSet(eval, Config(pc, loops, old(state.Snap())), exprs)
    ensures state.Valid()
  {
    err, pc', loops' := None, pc, loops;
    if |exprs| < 2 {
      err := Some(IndexError);
      return;
    }
    var v := ExpressionEvaluate(exprs[1], eval, state);
    err, pc', loops' := ExecAssign(state, pc, loops, exprs, v, old(state.Snap()));
  }

  /** Binds the evaluated value to the name in `exprs[0]`. */
  method ExecAssign(state: TraceState, pc: int, loops: seq<LoopFrame>, exprs: seq<string>, v: Result<Value>, ghost entry: Snapshot)
    returns (err: Option<Error>, pc': int, loops': seq<LoopFrame>)
    requires state.Valid()
    modifies state
    ensures Settle(err, pc', loops', state.Snap()) == Assign(Config(pc, loops, entry), exprs, (old(state.Snap()), v))
    ensures state.Valid()
  {
    err, pc', loops' := None, pc, loops;
    if v.Err? {
      err := Some(v.error);
    } else if exprs == [] {
      err := Some(IndexError);
    } else {
      state.SetItem(exprs[0], v.value);
      pc' := pc + 1;
    }
  }

  /** `display` (backend.py:207-213). */
  method ExecDisplay(eval: Evaluator, state: TraceState, pc: int, loops: seq<LoopFrame>, exprs: seq<string>)
    returns (err: Option<Error>, pc': int, loops': seq<LoopFrame>)
    requires state.Valid()
    modifies state
    ensures Settle(err, pc', loops', state.Snap()) == StepDisplay(eval, Config(pc, loops, old(state.Snap())), exprs)
    ensures state.Valid()
  {
    err, pc', loops' := None, pc, loops;
    if exprs == [] {
      err := Some(IndexError);
      return;
    }
    var v := ExpressionEvaluate(exprs[0], eval, state);
    match v
    case Err(e) => err := Some(e);
    case Ok(value) =>
      var out := Show(value);
      state.SetItem(DisplayName, Str(out));
      state.NewFrame();
      pc' := pc + 1;
  }

  /** One pass of the body of the loop of `main` (backend.py:150-218). */
  method ExecLine(prog: seq<Statement>, eval: Evaluator, state: TraceState, pc: int, loops: seq<LoopFrame>)
    returns (err: Option<Error>, pc': int, loops': seq<LoopFrame>)
    requires state.Valid()
    modifies state
    ensures Settle(err, pc', loops', state.Snap()) == Step(prog, eval, Config(pc, loops, old(state.Snap())))
    ensures state.Valid()
  {
    err, pc', loops' := None, pc, loops;
    if !(-|prog| <= pc < |prog|) {
      err := Some(IndexError);
      return;
    }
    var line := if pc >= 0 then prog[pc] else prog[|prog| + pc];
    match line.kind
    case If => err, pc', loops' := ExecBranch(prog, eval, state, pc, loops, line.exprs, IfEnter, IfExit);
    case Else =>
      var r := SkipTo(pc, prog, IfEnter, IfExit, false);
      match r {
        case Err(e) => err := Some(e);
        case Ok(j) => pc' := j + 1;
      }
    case EndIf => pc' := pc + 1;
    case StartWhile =>
      state.NewFrame();
      err, pc', loops' := ExecBranch(prog, eval, state, pc, loops, line.exprs, WhileEnter, WhileExit);
    case EndWhile =>
      var r := SkipTo(pc, prog, WhileEnter, WhileExit, true);
      match r {
        case Err(e) => err := Some(e);
        case Ok(j) => pc' := j;
      }
    case StartFor => err, pc', loops' := ExecFor(prog, eval, state, pc, loops, line.exprs);
    case ForEach => err, pc', loops' := ExecForEach(prog, eval, state, pc, loops, line.exprs);
    case EndFor =>
      if loops == [] {
        err := Some(IndexError);
      } else {
        pc' := loops[|loops| - 1].owner;
      }
    case SetVar => err, pc', loops' := ExecSet(eval, state, pc, loops, line.exprs);
    case Display => err, pc', loops' := ExecDisplay(eval, state, pc, loops, line.exprs);
    case Blank => pc' := pc + 1;
  }

  /** `main(prog)` for a parsed program (backend.py:140-220), for at most
      `fuel` passes of the loop: it ends with the error that stopped it, if
      any, and the trace state, exactly as `Interpret` says. */
  method Execute(prog: seq<Statement>, eval: Evaluator, fuel: nat) returns (err: Option<Error>, state: TraceState, finished: bool)
    ensures state.Valid()
    ensures finished ==> Interpret(prog, eval, fuel) == Done(err, state.Snap())
    ensures !finished ==> Interpret(prog, eval, fuel).Unfinished? && Interpret(prog, eval, fuel).config.trace == state.Snap()
  {
    state := new TraceState();
    var lineIndex := 0;
    var forStack: seq<LoopFrame> := [];
    var steps := 0;
    ghost var left: nat := fuel;
    err := None;
    while lineIndex < |prog| && steps < fuel
      invariant steps + left == fuel
      invariant state.Valid()
      invariant Run(prog, eval, Config(lineIndex, forStack, state.Snap()), left) == Interpret(prog, eval, fuel)
      decreases left
    {
      ghost var c := Config(lineIndex, forStack, state.Snap());
      var e, pc, loops := ExecLine(prog, eval, state, lineIndex, forStack);
      if e.Some? {
        ErrorStops(prog, eval, c, left);
        return e, state, true;
      }
      RunNext(prog, eval, c, left, Config(pc, loops, state.Snap()));
      lineIndex, forStack, steps, left := pc, loops, steps + 1, left - 1;
    }
    finished := lineIndex >= |prog|;
  }
}
