// The interpreter loop of `main` (backend.py:141-220) as a transition system:
// a configuration is the program counter, the stack of loop frames and the
// trace state; `Step` executes the statement under the program counter and
// `Run` repeats it while the counter is inside the program, for at most
// `fuel` steps, because a run of the source need not end.
//
// The host `eval` is a parameter: given the canonicalised expression and the
// current bindings it names the variables it looks up (each lookup goes
// through the trace state, in that order) and yields a value or an error.

module Engine {
  import opened Values
  import opened Templates
  import opened Expressions
  import opened Navigator
  import opened Trace

  datatype Evaluation = Evaluation(lookups: seq<string>, outcome: Result<Value>)

  type Evaluator = (string, map<string, Value>) -> Evaluation

  /** An entry of `for_stack`: `[owner, current, target]` for a counted loop,
      `[owner, index]` for a loop over a sequence. */
  datatype LoopFrame =
    | Counted(owner: int, current: Value, target: Value)
    | Each(owner: int, index: nat)

  datatype Config = Config(pc: int, loops: seq<LoopFrame>, trace: Snapshot)

  /** What one step leads to: the next configuration, or the error that
      stopped the run together with the trace state at that moment. */
  datatype Outcome = Next(config: Config) | Failed(error: Error, trace: Snapshot)

  /** `(err, var_states)` once the loop has ended, or the configuration
      reached when the fuel ran out. */
  datatype RunResult = Done(err: Option<Error>, trace: Snapshot) | Unfinished(config: Config)

  const IfEnter: set<Kind> := {If, Else}
  const IfExit: set<Kind> := {Else, EndIf}
  const WhileEnter: set<Kind> := {StartWhile}
  const WhileExit: set<Kind> := {EndWhile}
  const ForEnter: set<Kind> := {StartFor, ForEach}
  const ForExit: set<Kind> := {EndFor}

  function Top(loops: seq<LoopFrame>): LoopFrame
    requires loops != []
  {
    loops[|loops| - 1]
  }

  function Pop(loops: seq<LoopFrame>): seq<LoopFrame>
    requires loops != []
  {
    loops[..|loops| - 1]
  }

  /** The reads of one evaluation, applied to the trace state in order. */
  function ReadAll(s: Snapshot, names: seq<string>): (r: Snapshot)
    decreases |names|
  {
    if names == [] then s
    else ReadState(ReadAll(s, names[..|names| - 1]), names[|names| - 1]).0
  }

  /** `expression_evaluate(expression, var_states)`: the host evaluator
      applied to the canonicalised expression. */
  function EvaluateIn(s: Snapshot, eval: Evaluator, expression: string): (r: (Snapshot, Result<Value>))
  {
    var e := eval(Canonical(expression), s.objects);
    (ReadAll(s, e.lookups), e.outcome)
  }

  /** `state[1] + (state[2] - state[1] > 0)`: one step toward the target,
      or none when the target is not above the current value. */
  function Advance(current: Value, target: Value): (r: Result<Value>)
    ensures r.Ok? <==> Numeric(current).Some? && Numeric(target).Some?
  {
    match (Numeric(current), Numeric(target))
    case (Some(c), Some(t)) => Ok(Int(c + if t - c > 0 then 1 else 0))
    case _ => Err(TypeError)
  }

  /** A jump computed by the navigator, or the error it stopped with. */
  function JumpTo(target: Result<int>, shift: int, loops: seq<LoopFrame>, t: Snapshot): Outcome
  {
    match target
    case Ok(r) => Next(Config(r + shift, loops, t))
    case Err(e) => Failed(e, t)
  }

  /** `if` (backend.py:153-157) and, after `new_frame`, `start_while`
      (backend.py:163-168): on to the next line when the condition holds,
      past the end of the block otherwise. */
  function Branch(prog: seq<Statement>, eval: Evaluator, c: Config, exprs: seq<string>,
                  enter: set<Kind>, exit: set<Kind>): Outcome
  {
    match PyIndex(exprs, 0)
    case Err(e) => Failed(e, c.trace)
    case Ok(cond) => Decide(prog, c, enter, exit, EvaluateIn(c.trace, eval, cond))
  }

  /** The jump taken for an evaluated condition. */
  function Decide(prog: seq<Statement>, c: Config, enter: set<Kind>, exit: set<Kind>,
                  cond: (Snapshot, Result<Value>)): Outcome
  {
    match cond.1
    case Err(e) => Failed(e, cond.0)
    case Ok(b) =>
      if Truthy(b) then Next(Config(c.pc + 1, c.loops, cond.0))
      else JumpTo(SkipBlock(c.pc, prog, enter, exit, false), 1, c.loops, cond.0)
  }

  /** `start_for` (backend.py:172-186). */
  function StepFor(prog: seq<Statement>, eval: Evaluator, c: Config, exprs: seq<string>): Outcome
  {
    var t0 := NewFrameState(c.trace);
    if c.loops != [] && Top(c.loops).owner == c.pc then
      match Top(c.loops)
      case Each(_, _) => Failed(IndexError, t0)
      case Counted(_, current, target) => CountAgain(prog, c, exprs, current, target, t0)
    else
      match PyIndex(exprs, 1)
      case Err(e) => Failed(e, t0)
      case Ok(low) => CountStart(eval, c, exprs, EvaluateIn(t0, eval, low))
  }

  /** A later visit of a counted loop: leave it at the target, otherwise
      move the current value and bind the variable to it. */
  function CountAgain(prog: seq<Statement>, c: Config, exprs: seq<string>, current: Value, target: Value, t0: Snapshot): Outcome
    requires c.loops != []
  {
    if PyEq(current, target) then
      JumpTo(SkipBlock(c.pc, prog, ForEnter, ForExit, false), 1, Pop(c.loops), t0)
    else
      match Advance(current, target)
      case Err(e) => Failed(e, t0)
      case Ok(next) =>
        match PyIndex(exprs, 0)
        case Err(e) => Failed(e, t0)
        case Ok(name) => Next(Config(c.pc + 1, Pop(c.loops) + [Counted(c.pc, next, target)], WriteState(t0, name, next)))
  }

  /** The first visit, once the start value is evaluated: evaluate the
      target, push the frame and bind the variable to the start value. */
  function CountStart(eval: Evaluator, c: Config, exprs: seq<string>, start: (Snapshot, Result<Value>)): Outcome
  {
    match start.1
    case Err(e) => Failed(e, start.0)
    case Ok(startValue) =>
      match PyIndex(exprs, 2)
      case Err(e) => Failed(e, start.0)
      case Ok(high) => CountPush(c, exprs, startValue, EvaluateIn(start.0, eval, high))
  }

  function CountPush(c: Config, exprs: seq<string>, startValue: Value, end: (Snapshot, Result<Value>)): Outcome
  {
    match end.1
    case Err(e) => Failed(e, end.0)
    case Ok(endValue) =>
      match PyIndex(exprs, 0)
      case Err(e) => Failed(e, end.0)
      case Ok(name) => Next(Config(c.pc + 1, c.loops + [Counted(c.pc, startValue, endValue)], WriteState(end.0, name, startValue)))
  }

  /** `for_each` (backend.py:187-200): the sequence is evaluated again on
      every visit. */
  function StepForEach(prog: seq<Statement>, eval: Evaluator, c: Config, exprs: seq<string>): Outcome
  {
    var t0 := NewFrameState(c.trace);
    if c.loops != [] && Top(c.loops).owner == c.pc then
      match Top(c.loops)
      case Counted(_, _, _) => Failed(TypeError, t0)
      case Each(_, index) =>
        match PyIndex(exprs, 1)
        case Err(e) => Failed(e, t0)
        case Ok(source) => EachAgain(prog, eval, c, exprs, index, source, EvaluateIn(t0, eval, source))
    else
      match PyIndex(exprs, 1)
      case Err(e) => Failed(e, t0)
      case Ok(source) => EachBind(c.pc, c.loops, exprs, 0, EvaluateIn(t0, eval, source))
  }

  /** A later visit, once the sequence is evaluated: leave the loop after
      the last item, otherwise evaluate the sequence once more and bind the
      next item. */
  function EachAgain(prog: seq<Statement>, eval: Evaluator, c: Config, exprs: seq<string>,
                     index: nat, source: string, items: (Snapshot, Result<Value>)): Outcome
    requires c.loops != []
  {
    match items.1
    case Err(e) => Failed(e, items.0)
    case Ok(itemsValue) =>
      match Length(itemsValue)
      case Err(e) => Failed(e, items.0)
      case Ok(n) =>
        if index + 1 >= n then
          JumpTo(SkipBlock(c.pc, prog, ForEnter, ForExit, false), 1, Pop(c.loops), items.0)
        else EachBind(c.pc, Pop(c.loops), exprs, index + 1, EvaluateIn(items.0, eval, source))
  }

  /** Binds item `index` of the evaluated sequence to the loop variable and
      pushes the frame `[owner, index]`. */
  function EachBind(pc: int, loops: seq<LoopFrame>, exprs: seq<string>, index: nat,
                    items: (Snapshot, Result<Value>)): Outcome
  {
    match items.1
    case Err(e) => Failed(e, items.0)
    case Ok(itemsValue) =>
      match ItemAt(itemsValue, index)
      case Err(e) => Failed(e, items.0)
      case Ok(item) =>
        match PyIndex(exprs, 0)
        case Err(e) => Failed(e, items.0)
        case Ok(name) => Next(Config(pc + 1, loops + [Each(pc, index)], WriteState(items.0, name, item)))
  }

  /** `set_var` (backend.py:204-206): the value is evaluated before the
      target name is looked up. */
  function StepSet(eval: Evaluator, c: Config, exprs: seq<string>): Outcome
  {
    match PyIndex(exprs, 1)
    case Err(e) => Failed(e, c.trace)
    case Ok(source) => Assign(c, exprs, EvaluateIn(c.trace, eval, source))
  }

  function Assign(c: Config, exprs: seq<string>, v: (Snapshot, Result<Value>)): Outcome
  {
    match v.1
    case Err(e) => Failed(e, v.0)
    case Ok(value) =>
      match PyIndex(exprs, 0)
      case Err(e) => Failed(e, v.0)
      case Ok(name) => Next(Config(c.pc + 1, c.loops, WriteState(v.0, name, value)))
  }

  /** `display` (backend.py:207-213): the text of the value is written to
      Display and the frame is closed. */
  function StepDisplay(eval: Evaluator, c: Config, exprs: seq<string>): Outcome
  {
    match PyIndex(exprs, 0)
    case Err(e) => Failed(e, c.trace)
    case Ok(source) => Output(c, EvaluateIn(c.trace, eval, source))
  }

  function Output(c: Config, v: (Snapshot, Result<Value>)): Outcome
  {
    match v.1
    case Err(e) => Failed(e, v.0)
    case Ok(value) => Next(Config(c.pc + 1, c.loops, NewFrameState(WriteState(v.0, DisplayName, Str(Show(value))))))
  }

  /** One pass of the loop body of `main` (backend.py:150-218). */
  function Step(prog: seq<Statement>, eval: Evaluator, c: Config): (r: Outcome)
  {
    match PyIndex(prog, c.pc)
    case Err(e) => Failed(e, c.trace)
    case Ok(line) =>
      match line.kind
      case If => Branch(prog, eval, c, line.exprs, IfEnter, IfExit)
      case Else => JumpTo(SkipBlock(c.pc, prog, IfEnter, IfExit, false), 1, c.loops, c.trace)
      case EndIf => Next(c.(pc := c.pc + 1))
      case StartWhile => Branch(prog, eval, c.(trace := NewFrameState(c.trace)), line.exprs, WhileEnter, WhileExit)
      case EndWhile => JumpTo(SkipBlock(c.pc, prog, WhileEnter, WhileExit, true), 0, c.loops, c.trace)
      case StartFor => StepFor(prog, eval, c, line.exprs)
      case ForEach => StepForEach(prog, eval, c, line.exprs)
      case EndFor => if c.loops == [] then Failed(IndexError, c.trace) else Next(c.(pc := Top(c.loops).owner))
      case SetVar => StepSet(eval, c, line.exprs)
      case Display => StepDisplay(eval, c, line.exprs)
      case Blank => Next(c.(pc := c.pc + 1))
  }

  /** The loop of `main` over any step function: repeat the step while the
      program counter is below `size` and no step has failed, for at most
      `fuel` passes. */
  function Iterate(size: int, step: Config -> Outcome, c: Config, fuel: nat): RunResult
    decreases fuel
  {
    if c.pc >= size then Done(None, c.trace)
    else if fuel == 0 then Unfinished(c)
    else
      match step(c)
      case Failed(e, t) => Done(Some(e), t)
      case Next(c') => Iterate(size, step, c', fuel - 1)
  }

  /** `Step` on a fixed program and evaluator. */
  function Stepper(prog: seq<Statement>, eval: Evaluator): Config -> Outcome
  {
    c => Step(prog, eval, c)
  }

  /** The loop of `main` (backend.py:148-218). */
  function Run(prog: seq<Statement>, eval: Evaluator, c: Config, fuel: nat): RunResult
  {
    Iterate(|prog|, Stepper(prog, eval), c, fuel)
  }

  function Start(): Config
  {
    Config(0, [], Init())
  }

  /** `main(prog)` for an already parsed program. */
  function Interpret(prog: seq<Statement>, eval: Evaluator, fuel: nat): RunResult
  {
    Run(prog, eval, Start(), fuel)
  }
}
