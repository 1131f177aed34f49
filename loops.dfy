// Whole runs of the two loop forms of `main` (backend.py:172-202) on the
// smallest programs that contain them: a loop header directly followed by
// `END FOR`, with the host evaluator fixed to constant results.

module Loops {
  import opened Values
  import opened Templates
  import opened Expressions
  import opened Navigator
  import opened Trace
  import opened Engine
  import opened Behaviour
  import opened LoopSteps

  /** `FOR x FROM lo TO hi` / `END FOR`. */
  function CountingLoop(x: string, lo: string, hi: string): seq<Statement>
  {
    [Statement(StartFor, [x, lo, hi]), Statement(EndFor, [])]
  }

  /** `FOR EACH x FROM source` / `END FOR`. */
  function EachLoop(x: string, source: string): seq<Statement>
  {
    [Statement(ForEach, [x, source]), Statement(EndFor, [])]
  }

  /** An evaluator that reads no names, gives the integer `a` for `lo` and
      the integer `b` for anything else. */
  function Bounds(lo: string, a: int, b: int): Evaluator
  {
    (e: string, objects: map<string, Value>) => Evaluation([], Ok(Int(if e == Canonical(lo) then a else b)))
  }

  /** An evaluator that reads no names and always gives `v`. */
  function Always(v: Value): Evaluator
  {
    (e: string, objects: map<string, Value>) => Evaluation([], Ok(v))
  }

  /** In a two-line loop the header's block ends at line 1. */
  lemma SkipToEnd(prog: seq<Statement>)
    requires |prog| == 2 && prog[1].kind == EndFor
    ensures SkipBlock(0, prog, ForEnter, ForExit, false) == Ok(1)
  {
    assert Visited(prog, 1, 1) == [];
    assert Visited(prog, 0, 1) == [EndFor];
  }

  /** `END FOR` goes back to the header that owns the top frame. */
  lemma BackToHead(prog: seq<Statement>, eval: Evaluator, loops: seq<LoopFrame>, t: Snapshot)
    requires |prog| == 2 && prog[1].kind == EndFor
    requires loops != [] && Top(loops).owner == 0
    ensures Step(prog, eval, Config(1, loops, t)) == Next(Config(0, loops, t))
  {
  }

  lemma ReturnsHolds(prog: seq<Statement>, eval: Evaluator)
    requires |prog| == 2 && prog[1].kind == EndFor
    ensures ReturnsToHead(Stepper(prog, eval))
  {
    forall f: LoopFrame, t: Snapshot | f.owner == 0
      ensures Stepper(prog, eval)(Config(1, [f], t)) == Next(Config(0, [f], t))
    {
      BackToHead(prog, eval, [f], t);
    }
  }

  // ---------------------------------------------------------------------
  // Counted loops

  /** The evaluator `Bounds` on any expression. */
  lemma BoundsEval(lo: string, a: int, b: int, t: Snapshot, e: string)
    ensures EvaluateIn(t, Bounds(lo, a, b), e) == (t, Ok(Int(if Canonical(e) == Canonical(lo) then a else b)))
  {
  }

  /** The first visit binds the variable to the start value and pushes the
      frame `[0, a, b]`. */
  lemma CountFirstVisit(x: string, lo: string, hi: string, a: int, b: int, t: Snapshot)
    requires Canonical(lo) != Canonical(hi)
    ensures Step(CountingLoop(x, lo, hi), Bounds(lo, a, b), Config(0, [], t)) ==
              Next(Config(1, [Counted(0, Int(a), Int(b))], WriteState(NewFrameState(t), x, Int(a))))
  {
    var prog := CountingLoop(x, lo, hi);
    var eval := Bounds(lo, a, b);
    var c := Config(0, [], t);
    var t0 := NewFrameState(t);
    BoundsEval(lo, a, b, t0, lo);
    BoundsEval(lo, a, b, t0, hi);
    StepForFirst(prog, eval, c);
    assert CountStart(eval, c, [x, lo, hi], (t0, Ok(Int(a)))) == CountPush(c, [x, lo, hi], Int(a), (t0, Ok(Int(b))));
  }

  lemma CountReenter(x: string, lo: string, hi: string, eval: Evaluator, cur: int, b: int, t: Snapshot)
    ensures Step(CountingLoop(x, lo, hi), eval, Config(0, [Counted(0, Int(cur), Int(b))], t)) == HeadStep(x, cur, b, t)
  {
    var prog := CountingLoop(x, lo, hi);
    var c := Config(0, [Counted(0, Int(cur), Int(b))], t);
    StepForReentry(prog, eval, c);
    SkipToEnd(prog);
    CountAgainSteps(prog, x, cur, b, c, prog[0].exprs, NewFrameState(t));
  }

  /** What the header does with the frame `[0, cur, b]`, in a program whose
      loop block ends at line 1. */
  lemma CountAgainSteps(prog: seq<Statement>, x: string, cur: int, b: int, c: Config, exprs: seq<string>, t0: Snapshot)
    requires c.pc == 0 && c.loops == [Counted(0, Int(cur), Int(b))] && exprs != [] && exprs[0] == x
    requires SkipBlock(0, prog, ForEnter, ForExit, false) == Ok(1) && t0 == NewFrameState(c.trace)
    ensures CountAgain(prog, c, exprs, Int(cur), Int(b), t0) == HeadStep(x, cur, b, c.trace)
  {
    CountedReentry(prog, c, exprs, cur, b, t0);
  }

  lemma CountsHolds(x: string, lo: string, hi: string, eval: Evaluator, b: int)
    ensures CountsAt(Stepper(CountingLoop(x, lo, hi), eval), x, b)
  {
    forall cur: int, t: Snapshot
      ensures Stepper(CountingLoop(x, lo, hi), eval)(Config(0, [Counted(0, Int(cur), Int(b))], t)) == HeadStep(x, cur, b, t)
    {
      CountReenter(x, lo, hi, eval, cur, b, t);
    }
  }

  /** From the header with the variable at `cur <= b`, a run of such a step
      function ends after `2 * (b - cur) + 1` steps without an error and
      with the variable at `b`. */
  lemma {:induction false} CountRunsOut(step: Config -> Outcome, x: string, b: int, cur: int, t: Snapshot, fuel: nat)
    requires CountsAt(step, x, b) && ReturnsToHead(step)
    requires cur <= b && x in t.objects && t.objects[x] == Int(cur) && fuel == 2 * (b - cur) + 1
    ensures EndsAt(step, x, b, cur, t, fuel)
    decreases b - cur
  {
    if cur == b {
      CountExits(step, x, b, t, fuel);
    } else {
      var t1 := WriteState(NewFrameState(t), x, Int(cur + 1));
      var rest: nat := fuel - 2;
      CountRunsOut(step, x, b, cur + 1, t1, rest);
      CountAdvances(step, x, b, cur, t, fuel, rest);
    }
  }

  /** With the target below the value the header never moves it, so a run
      from the header never ends. */
  lemma {:induction false} CountSpins(step: Config -> Outcome, x: string, a: int, b: int, t: Snapshot, fuel: nat)
    requires CountsAt(step, x, b) && ReturnsToHead(step) && b < a
    ensures Iterate(2, step, Config(0, [Counted(0, Int(a), Int(b))], t), fuel).Unfinished?
    decreases fuel
  {
    var f := Counted(0, Int(a), Int(b));
    var t1 := WriteState(NewFrameState(t), x, Int(a));
    if fuel > 0 {
      assert step(Config(0, [f], t)) == HeadStep(x, a, b, t);
      assert step(Config(0, [f], t)) == Next(Config(1, [f], t1));
      if fuel == 1 {
        IterateNext(2, step, Config(0, [f], t), fuel);
      } else {
        assert step(Config(1, [f], t1)) == Next(Config(0, [f], t1));
        var rest: nat := fuel - 2;
        IterateTwo(2, step, Config(0, [f], t), fuel, rest, Config(1, [f], t1), Config(0, [f], t1));
        CountSpins(step, x, a, b, t1, rest);
      }
    }
  }

  /** With integer bounds `a <= b` the loop ends, without an error, after
      `2 * (b - a) + 3` passes of the interpreter loop: the header binds the
      variable to each of the `b - a + 1` values in turn and leaves it at
      `b`. */
  lemma CountingLoopEnds(x: string, lo: string, hi: string, a: int, b: int)
    requires Canonical(lo) != Canonical(hi) && a <= b
    ensures var r := Interpret(CountingLoop(x, lo, hi), Bounds(lo, a, b), 2 * (b - a) + 3);
            r.Done? && r.err == None && x in r.trace.objects && r.trace.objects[x] == Int(b)
  {
    var prog := CountingLoop(x, lo, hi);
    var step := Stepper(prog, Bounds(lo, a, b));
    var f := Counted(0, Int(a), Int(b));
    var t1 := WriteState(NewFrameState(Init()), x, Int(a));
    var fuel: nat := 2 * (b - a) + 3;
    CountFirstVisit(x, lo, hi, a, b, Init());
    CountsHolds(x, lo, hi, Bounds(lo, a, b), b);
    ReturnsHolds(prog, Bounds(lo, a, b));
    assert step(Start()) == Next(Config(1, [f], t1));
    assert step(Config(1, [f], t1)) == Next(Config(0, [f], t1));
    var rest: nat := fuel - 2;
    IterateTwo(2, step, Start(), fuel, rest, Config(1, [f], t1), Config(0, [f], t1));
    CountRunsOut(step, x, b, a, t1, rest);
  }

  /** The body runs once for each of `a, a + 1, ..., b`, in that order: after
      `2 * k + 1` passes of the interpreter loop, for each `k <= b - a`, the
      run is in the body with the frame `[0, a + k, b]` and the variable
      bound to `a + k`. */
  lemma CountingLoopVisits(x: string, lo: string, hi: string, a: int, b: int, k: nat, steps: nat, v: int)
    requires Canonical(lo) != Canonical(hi) && v == a + k && v <= b && steps == 2 * k + 1
    ensures CountBodyAt(Interpret(CountingLoop(x, lo, hi), Bounds(lo, a, b), steps), x, b, v)
  {
    var prog := CountingLoop(x, lo, hi);
    var step := Stepper(prog, Bounds(lo, a, b));
    var f := Counted(0, Int(a), Int(b));
    var t1 := WriteState(NewFrameState(Init()), x, Int(a));
    var fuel: nat := steps;
    CountFirstVisit(x, lo, hi, a, b, Init());
    CountsHolds(x, lo, hi, Bounds(lo, a, b), b);
    ReturnsHolds(prog, Bounds(lo, a, b));
    assert step(Start()) == Next(Config(1, [f], t1));
    CountVisits(step, x, a, b, t1, k, fuel, v);
  }

  /** With integer bounds `b < a` no amount of fuel ends the run. */
  lemma CountingLoopSpins(x: string, lo: string, hi: string, a: int, b: int, fuel: nat)
    requires Canonical(lo) != Canonical(hi) && b < a
    ensures Interpret(CountingLoop(x, lo, hi), Bounds(lo, a, b), fuel).Unfinished?
  {
    var prog := CountingLoop(x, lo, hi);
    var step := Stepper(prog, Bounds(lo, a, b));
    var f := Counted(0, Int(a), Int(b));
    var t1 := WriteState(NewFrameState(Init()), x, Int(a));
    if fuel > 0 {
      CountFirstVisit(x, lo, hi, a, b, Init());
      assert step(Start()) == Next(Config(1, [f], t1));
      if fuel == 1 {
        IterateNext(2, step, Start(), fuel);
      } else {
        CountsHolds(x, lo, hi, Bounds(lo, a, b), b);
        ReturnsHolds(prog, Bounds(lo, a, b));
        assert step(Config(1, [f], t1)) == Next(Config(0, [f], t1));
        var rest: nat := fuel - 2;
        IterateTwo(2, step, Start(), fuel, rest, Config(1, [f], t1), Config(0, [f], t1));
        CountSpins(step, x, a, b, t1, rest);
      }
    }
  }

  // ---------------------------------------------------------------------
  // Loops over a sequence

  /** The first visit binds item 0 and pushes the frame `[0, 0]`; over an
      empty list indexing item 0 is an IndexError. */
  lemma EachFirstVisit(x: string, source: string, items: seq<Value>, t: Snapshot)
    ensures items == [] ==>
              Step(EachLoop(x, source), Always(List(items)), Config(0, [], t)) == Failed(IndexError, NewFrameState(t))
    ensures items != [] ==>
              Step(EachLoop(x, source), Always(List(items)), Config(0, [], t)) ==
                Next(Config(1, [Each(0, 0)], WriteState(NewFrameState(t), x, items[0])))
  {
    if items == [] {
      EachFirstEmpty(x, source, t);
    } else {
      EachFirstBinds(x, source, items, t);
    }
  }

  lemma EachFirstEmpty(x: string, source: string, t: Snapshot)
    ensures Step(EachLoop(x, source), Always(List([])), Config(0, [], t)) == Failed(IndexError, NewFrameState(t))
  {
    StepEachFirst(EachLoop(x, source), Always(List([])), Config(0, [], t));
  }

  lemma EachFirstBinds(x: string, source: string, items: seq<Value>, t: Snapshot)
    requires items != []
    ensures Step(EachLoop(x, source), Always(List(items)), Config(0, [], t)) ==
              Next(Config(1, [Each(0, 0)], WriteState(NewFrameState(t), x, items[0])))
  {
    var t0 := NewFrameState(t);
    var read := EvaluateIn(t0, Always(List(items)), source);
    StepEachFirst(EachLoop(x, source), Always(List(items)), Config(0, [], t));
    assert read == (t0, Ok(List(items)));
    EachBindsFirst(x, source, items, t0, read);
  }

  /** Over a non-empty list the first bind pushes `[0, 0]` and binds item 0. */
  lemma EachBindsFirst(x: string, source: string, items: seq<Value>, t0: Snapshot, read: (Snapshot, Result<Value>))
    requires items != [] && read == (t0, Ok(List(items)))
    ensures EachBind(0, [], [x, source], 0, read) == Next(Config(1, [Each(0, 0)], WriteState(t0, x, items[0])))
  {
    assert ItemAt(List(items), 0) == Ok(items[0]);
  }

  lemma EachReenter(x: string, source: string, items: seq<Value>, index: nat, t: Snapshot)
    ensures Step(EachLoop(x, source), Always(List(items)), Config(0, [Each(0, index)], t)) == EachStep(x, items, index, t)
  {
    var prog := EachLoop(x, source);
    var c := Config(0, [Each(0, index)], t);
    var t0 := NewFrameState(t);
    var read := EvaluateIn(t0, Always(List(items)), source);
    StepEachReentry(prog, Always(List(items)), c);
    assert read == (t0, Ok(List(items)));
    SkipToEnd(prog);
    EachAgainSteps(prog, x, source, items, index, c, t0, read);
  }

  /** What the header does once the list is read again: it leaves the loop
      after the last item and otherwise binds the next one. */
  lemma EachAgainSteps(prog: seq<Statement>, x: string, source: string, items: seq<Value>, index: nat, c: Config,
                       t0: Snapshot, read: (Snapshot, Result<Value>))
    requires c.pc == 0 && c.loops == [Each(0, index)] && read == (t0, Ok(List(items)))
    requires SkipBlock(0, prog, ForEnter, ForExit, false) == Ok(1)
    ensures index + 1 >= |items| ==>
              EachAgain(prog, Always(List(items)), c, [x, source], index, source, read) == Next(Config(2, [], t0))
    ensures index + 1 < |items| ==>
              EachAgain(prog, Always(List(items)), c, [x, source], index, source, read) ==
                Next(Config(1, [Each(0, index + 1)], WriteState(t0, x, items[index + 1])))
  {
    if index + 1 < |items| {
      assert EvaluateIn(t0, Always(List(items)), source) == read;
      assert ItemAt(List(items), index + 1) == Ok(items[index + 1]);
    }
  }

  lemma EachesHolds(x: string, source: string, items: seq<Value>)
    ensures EachesAt(Stepper(EachLoop(x, source), Always(List(items))), x, items)
  {
    forall index: nat, t: Snapshot
      ensures Stepper(EachLoop(x, source), Always(List(items)))(Config(0, [Each(0, index)], t)) == EachStep(x, items, index, t)
    {
      EachReenter(x, source, items, index, t);
    }
  }

  /** From the header with the variable at item `index`, a run of such a
      step function ends after `2 * (|items| - 1 - index) + 1` steps without
      an error and with the variable at the last item. */
  lemma {:induction false} EachRunsOut(step: Config -> Outcome, x: string, items: seq<Value>, index: nat, t: Snapshot, fuel: nat)
    requires EachesAt(step, x, items) && ReturnsToHead(step)
    requires index < |items| && x in t.objects && t.objects[x] == items[index] && fuel == 2 * (|items| - 1 - index) + 1
    ensures EachEndsAt(step, x, items, index, t, fuel)
    decreases |items| - index
  {
    if index + 1 == |items| {
      EachExits(step, x, items, index, t, fuel);
    } else {
      var t1 := WriteState(NewFrameState(t), x, items[index + 1]);
      var rest: nat := fuel - 2;
      EachRunsOut(step, x, items, index + 1, t1, rest);
      EachAdvances(step, x, items, index, t, fuel, rest);
    }
  }

  /** Over the list `items` the loop binds each item in turn: an empty list
      stops the run at once with an IndexError, and otherwise the loop ends,
      without an error, after `2 * |items| + 1` passes of the interpreter
      loop with the variable at the last item. */
  lemma EachLoopEnds(x: string, source: string, items: seq<Value>)
    ensures items == [] ==> Interpret(EachLoop(x, source), Always(List(items)), 1) == Done(Some(IndexError), NewFrameState(Init()))
    ensures items != [] ==>
              var r := Interpret(EachLoop(x, source), Always(List(items)), 2 * |items| + 1);
              r.Done? && r.err == None && x in r.trace.objects && r.trace.objects[x] == items[|items| - 1]
  {
    var prog := EachLoop(x, source);
    var step := Stepper(prog, Always(List(items)));
    EachFirstVisit(x, source, items, Init());
    if items != [] {
      var f := Each(0, 0);
      var t1 := WriteState(NewFrameState(Init()), x, items[0]);
      var fuel: nat := 2 * |items| + 1;
      var rest: nat := fuel - 2;
      EachesHolds(x, source, items);
      ReturnsHolds(prog, Always(List(items)));
      assert step(Start()) == Next(Config(1, [f], t1));
      assert step(Config(1, [f], t1)) == Next(Config(0, [f], t1));
      IterateTwo(2, step, Start(), fuel, rest, Config(1, [f], t1), Config(0, [f], t1));
      EachRunsOut(step, x, items, 0, t1, rest);
    }
  }

  /** The body runs once for each item, in order: after `2 * k + 1` passes of
      the interpreter loop, for each `k < |items|`, the run is in the body
      with the frame `[0, k]` and the variable bound to item `k`. */
  lemma EachLoopVisits(x: string, source: string, items: seq<Value>, k: nat, steps: nat)
    requires k < |items| && steps == 2 * k + 1
    ensures EachBodyAt(Interpret(EachLoop(x, source), Always(List(items)), steps), x, items, k)
  {
    var prog := EachLoop(x, source);
    var step := Stepper(prog, Always(List(items)));
    var f := Each(0, 0);
    var t1 := WriteState(NewFrameState(Init()), x, items[0]);
    var fuel: nat := steps;
    assert items != [];
    EachFirstVisit(x, source, items, Init());
    EachesHolds(x, source, items);
    ReturnsHolds(prog, Always(List(items)));
    assert step(Start()) == Next(Config(1, [f], t1));
    EachVisits(step, x, items, t1, k, fuel);
  }
}
