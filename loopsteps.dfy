// One pass round the two-line loops of the Loops module, stated for any step
// function that behaves like the interpreter's on the loop's header and its
// `END FOR`; kept apart so that runs can be chained without unfolding them.

module LoopSteps {
  import opened Values
  import opened Trace
  import opened Engine
  import opened Behaviour

  /** `END FOR` (line 1) returns every frame owned by line 0 to
      the header. */
  ghost predicate ReturnsToHead(step: Config -> Outcome)
  {
    forall f: LoopFrame, t: Snapshot | f.owner == 0 :: step(Config(1, [f], t)) == Next(Config(0, [f], t))
  }

  /** What the header of `CountingLoop` does on a later visit with the frame
      `[0, cur, b]`: at the target it leaves the loop, otherwise it moves the
      value one up when the target is above it and binds the variable. */
  function HeadStep(x: string, cur: int, b: int, t: Snapshot): Outcome
  {
    if cur == b then Next(Config(2, [], NewFrameState(t)))
    else
      var next := if b > cur then cur + 1 else cur;
      Next(Config(1, [Counted(0, Int(next), Int(b))], WriteState(NewFrameState(t), x, Int(next))))
  }

  ghost predicate CountsAt(step: Config -> Outcome, x: string, b: int)
  {
    forall cur: int, t: Snapshot :: step(Config(0, [Counted(0, Int(cur), Int(b))], t)) == HeadStep(x, cur, b, t)
  }

  /** What a run from the header with the frame `[0, cur, b]` promises. */
  ghost predicate EndsAt(step: Config -> Outcome, x: string, b: int, cur: int, t: Snapshot, fuel: nat)
  {
    var r := Iterate(2, step, Config(0, [Counted(0, Int(cur), Int(b))], t), fuel);
    r.Done? && r.err == None && x in r.trace.objects && r.trace.objects[x] == Int(b)
  }

  /** At the target the header leaves the loop in one step. */
  lemma CountExits(step: Config -> Outcome, x: string, b: int, t: Snapshot, fuel: nat)
    requires CountsAt(step, x, b) && x in t.objects && t.objects[x] == Int(b) && fuel == 1
    ensures EndsAt(step, x, b, b, t, fuel)
  {
    var c := Config(0, [Counted(0, Int(b), Int(b))], t);
    assert step(c) == HeadStep(x, b, b, t);
    assert step(c) == Next(Config(2, [], NewFrameState(t)));
    IterateNext(2, step, c, fuel);
    NewFrameSpec(t);
  }

  /** Below the target, one pass round the loop moves the value up by one. */
  lemma CountAdvances(step: Config -> Outcome, x: string, b: int, cur: int, t: Snapshot, fuel: nat, rest: nat)
    requires CountsAt(step, x, b) && ReturnsToHead(step) && cur < b && rest == fuel - 2
    requires EndsAt(step, x, b, cur + 1, WriteState(NewFrameState(t), x, Int(cur + 1)), rest)
    ensures EndsAt(step, x, b, cur, t, fuel)
  {
    var c := Config(0, [Counted(0, Int(cur), Int(b))], t);
    var f := Counted(0, Int(cur + 1), Int(b));
    var t1 := WriteState(NewFrameState(t), x, Int(cur + 1));
    assert step(c) == HeadStep(x, cur, b, t);
    assert step(c) == Next(Config(1, [f], t1));
    assert step(Config(1, [f], t1)) == Next(Config(0, [f], t1));
    IterateTwo(2, step, c, fuel, rest, Config(1, [f], t1), Config(0, [f], t1));
  }

  /** The configuration at the start of a pass through the body: on line 1
      with the frame `[0, v, b]` and the variable bound to `v`. */
  ghost predicate CountBodyAt(r: RunResult, x: string, b: int, v: int)
  {
    r.Unfinished? && r.config.pc == 1 && r.config.loops == [Counted(0, Int(v), Int(b))] &&
    x in r.config.trace.objects && r.config.trace.objects[x] == Int(v)
  }

  /** What a run from the body with the frame `[0, cur, b]` promises. */
  ghost predicate CountBodyAfter(step: Config -> Outcome, x: string, b: int, cur: int, t: Snapshot, fuel: nat, v: int)
  {
    CountBodyAt(Iterate(2, step, Config(1, [Counted(0, Int(cur), Int(b))], t), fuel), x, b, v)
  }

  /** No step at all leaves the run in the body. */
  lemma CountBodyNow(step: Config -> Outcome, x: string, b: int, cur: int, t: Snapshot)
    requires x in t.objects && t.objects[x] == Int(cur)
    ensures CountBodyAfter(step, x, b, cur, t, 0, cur)
  {
  }

  /** Below the target the header moves the value up by one and binds it. */
  lemma HeadStepRaises(x: string, cur: int, next: int, b: int, t: Snapshot, t1: Snapshot)
    requires cur < b && next == cur + 1 && t1 == WriteState(NewFrameState(t), x, Int(next))
    ensures HeadStep(x, cur, b, t) == Next(Config(1, [Counted(0, Int(next), Int(b))], t1))
  {
  }

  /** One pass round the loop from the body moves the value up by one. */
  lemma CountPass(step: Config -> Outcome, x: string, b: int, cur: int, next: int, t: Snapshot, t1: Snapshot,
                  fuel: nat, rest: nat, v: int)
    requires CountsAt(step, x, b) && ReturnsToHead(step) && cur < b && next == cur + 1 && rest == fuel - 2
    requires t1 == WriteState(NewFrameState(t), x, Int(next))
    requires CountBodyAfter(step, x, b, next, t1, rest, v)
    ensures CountBodyAfter(step, x, b, cur, t, fuel, v)
  {
    var f := Counted(0, Int(cur), Int(b));
    var f' := Counted(0, Int(next), Int(b));
    assert step(Config(1, [f], t)) == Next(Config(0, [f], t));
    assert step(Config(0, [f], t)) == HeadStep(x, cur, b, t);
    HeadStepRaises(x, cur, next, b, t, t1);
    IterateTwo(2, step, Config(1, [f], t), fuel, rest, Config(0, [f], t), Config(1, [f'], t1));
  }

  /** From the body with the variable at `cur`, each further pass round the
      loop moves it one up: after `2 * k` steps the run is in the body with
      the variable at `cur + k`. */
  lemma {:induction false} CountPasses(step: Config -> Outcome, x: string, b: int, cur: int, t: Snapshot, k: nat, fuel: nat, v: int)
    requires CountsAt(step, x, b) && ReturnsToHead(step) && v == cur + k && v <= b && fuel == 2 * k
    requires x in t.objects && t.objects[x] == Int(cur)
    ensures CountBodyAfter(step, x, b, cur, t, fuel, v)
    decreases k
  {
    if k == 0 {
      CountBodyNow(step, x, b, cur, t);
    } else {
      var next := cur + 1;
      var t1 := WriteState(NewFrameState(t), x, Int(next));
      var rest: nat := fuel - 2;
      CountPasses(step, x, b, next, t1, k - 1, rest, v);
      CountPass(step, x, b, cur, next, t, t1, fuel, rest, v);
    }
  }

  /** What the header of `EachLoop` does on a later visit with the frame
      `[0, index]` over `items`: after the last item it leaves the loop,
      otherwise it binds the next item. */
  function EachStep(x: string, items: seq<Value>, index: nat, t: Snapshot): Outcome
  {
    if index + 1 >= |items| then Next(Config(2, [], NewFrameState(t)))
    else Next(Config(1, [Each(0, index + 1)], WriteState(NewFrameState(t), x, items[index + 1])))
  }

  ghost predicate EachesAt(step: Config -> Outcome, x: string, items: seq<Value>)
  {
    forall index: nat, t: Snapshot :: step(Config(0, [Each(0, index)], t)) == EachStep(x, items, index, t)
  }

  /** What a run from the header with the frame `[0, index]` promises. */
  ghost predicate EachEndsAt(step: Config -> Outcome, x: string, items: seq<Value>, index: nat, t: Snapshot, fuel: nat)
  {
    var r := Iterate(2, step, Config(0, [Each(0, index)], t), fuel);
    items != [] && r.Done? && r.err == None && x in r.trace.objects && r.trace.objects[x] == items[|items| - 1]
  }

  /** After the last item the header leaves the loop in one step. */
  lemma EachExits(step: Config -> Outcome, x: string, items: seq<Value>, index: nat, t: Snapshot, fuel: nat)
    requires EachesAt(step, x, items) && index + 1 == |items|
    requires x in t.objects && t.objects[x] == items[index] && fuel == 1
    ensures EachEndsAt(step, x, items, index, t, fuel)
  {
    var c := Config(0, [Each(0, index)], t);
    assert step(c) == EachStep(x, items, index, t);
    assert step(c) == Next(Config(2, [], NewFrameState(t)));
    IterateNext(2, step, c, fuel);
    NewFrameSpec(t);
  }

  /** Before the last item, one pass round the loop binds the next one. */
  lemma EachAdvances(step: Config -> Outcome, x: string, items: seq<Value>, index: nat, t: Snapshot, fuel: nat, rest: nat)
    requires EachesAt(step, x, items) && ReturnsToHead(step) && index + 1 < |items| && rest == fuel - 2
    requires EachEndsAt(step, x, items, index + 1, WriteState(NewFrameState(t), x, items[index + 1]), rest)
    ensures EachEndsAt(step, x, items, index, t, fuel)
  {
    var c := Config(0, [Each(0, index)], t);
    var f := Each(0, index + 1);
    var t1 := WriteState(NewFrameState(t), x, items[index + 1]);
    assert step(c) == EachStep(x, items, index, t);
    assert step(c) == Next(Config(1, [f], t1));
    assert step(Config(1, [f], t1)) == Next(Config(0, [f], t1));
    IterateTwo(2, step, c, fuel, rest, Config(1, [f], t1), Config(0, [f], t1));
  }

  /** The configuration at the start of a pass through the body: on line 1
      with the frame `[0, index]` and the variable bound to item `index`. */
  ghost predicate EachBodyAt(r: RunResult, x: string, items: seq<Value>, index: nat)
  {
    index < |items| && r.Unfinished? && r.config.pc == 1 && r.config.loops == [Each(0, index)] &&
    x in r.config.trace.objects && r.config.trace.objects[x] == items[index]
  }

  /** What a run from the body with the frame `[0, index]` promises. */
  ghost predicate EachBodyAfter(step: Config -> Outcome, x: string, items: seq<Value>, index: nat, t: Snapshot, fuel: nat, k: nat)
  {
    EachBodyAt(Iterate(2, step, Config(1, [Each(0, index)], t), fuel), x, items, k)
  }

  /** No step at all leaves the run in the body. */
  lemma EachBodyNow(step: Config -> Outcome, x: string, items: seq<Value>, index: nat, t: Snapshot)
    requires index < |items| && x in t.objects && t.objects[x] == items[index]
    ensures EachBodyAfter(step, x, items, index, t, 0, index)
  {
  }

  /** Before the last item the header binds the next one. */
  lemma EachStepBinds(x: string, items: seq<Value>, index: nat, next: nat, t: Snapshot, t1: Snapshot)
    requires next == index + 1 && next < |items| && t1 == WriteState(NewFrameState(t), x, items[next])
    ensures EachStep(x, items, index, t) == Next(Config(1, [Each(0, next)], t1))
  {
  }

  /** One pass round the loop from the body binds the next item. */
  lemma EachPass(step: Config -> Outcome, x: string, items: seq<Value>, index: nat, next: nat, t: Snapshot, t1: Snapshot,
                 fuel: nat, rest: nat, k: nat)
    requires EachesAt(step, x, items) && ReturnsToHead(step) && next == index + 1 && next < |items| && rest == fuel - 2
    requires t1 == WriteState(NewFrameState(t), x, items[next])
    requires EachBodyAfter(step, x, items, next, t1, rest, k)
    ensures EachBodyAfter(step, x, items, index, t, fuel, k)
  {
    var f := Each(0, index);
    var f' := Each(0, next);
    assert step(Config(1, [f], t)) == Next(Config(0, [f], t));
    assert step(Config(0, [f], t)) == EachStep(x, items, index, t);
    EachStepBinds(x, items, index, next, t, t1);
    IterateTwo(2, step, Config(1, [f], t), fuel, rest, Config(0, [f], t), Config(1, [f'], t1));
  }

  /** From the body at item `index`, after `2 * k` steps the run is in the
      body at item `index + k`. */
  lemma {:induction false} EachPasses(step: Config -> Outcome, x: string, items: seq<Value>, index: nat, t: Snapshot, k: nat, fuel: nat, last: nat)
    requires EachesAt(step, x, items) && ReturnsToHead(step) && last == index + k && last < |items| && fuel == 2 * k
    requires x in t.objects && t.objects[x] == items[index]
    ensures EachBodyAfter(step, x, items, index, t, fuel, last)
    decreases k, 1
  {
    if k == 0 {
      EachBodyNow(step, x, items, index, t);
    } else {
      EachPassesOn(step, x, items, index, t, k, fuel, last);
    }
  }

  /** The inductive step of `EachPasses`: one pass, then the remaining `k - 1`. */
  lemma {:induction false} EachPassesOn(step: Config -> Outcome, x: string, items: seq<Value>, index: nat, t: Snapshot, k: nat, fuel: nat, last: nat)
    requires EachesAt(step, x, items) && ReturnsToHead(step) && last == index + k && last < |items| && fuel == 2 * k && k > 0
    requires x in t.objects && t.objects[x] == items[index]
    ensures EachBodyAfter(step, x, items, index, t, fuel, last)
    decreases k, 0
  {
    var next: nat := index + 1;
    var t1 := WriteState(NewFrameState(t), x, items[next]);
    var rest: nat := fuel - 2;
    EachPasses(step, x, items, next, t1, k - 1, rest, last);
    EachPass(step, x, items, index, next, t, t1, fuel, rest, last);
  }

  /** A first step that enters the body with the frame `[0, a, b]` starts
      the passes counted by `CountBodyAfter`. */
  lemma CountEntered(step: Config -> Outcome, x: string, a: int, b: int, t: Snapshot, fuel: nat, rest: nat, v: int)
    requires step(Config(0, [], Init())) == Next(Config(1, [Counted(0, Int(a), Int(b))], t)) && rest == fuel - 1
    requires CountBodyAfter(step, x, b, a, t, rest, v)
    ensures CountBodyAt(Iterate(2, step, Config(0, [], Init()), fuel), x, b, v)
  {
    IterateOne(2, step, Config(0, [], Init()), fuel, rest, Config(1, [Counted(0, Int(a), Int(b))], t));
  }

  /** A run whose first step enters the body with the frame `[0, a, b]` and
      the variable at `a` is, after `2 * k + 1` steps, in the body with the
      variable at `a + k`. */
  lemma CountVisits(step: Config -> Outcome, x: string, a: int, b: int, t: Snapshot, k: nat, fuel: nat, v: int)
    requires CountsAt(step, x, b) && ReturnsToHead(step) && v == a + k && v <= b && fuel == 2 * k + 1
    requires step(Config(0, [], Init())) == Next(Config(1, [Counted(0, Int(a), Int(b))], t))
    requires x in t.objects && t.objects[x] == Int(a)
    ensures CountBodyAt(Iterate(2, step, Config(0, [], Init()), fuel), x, b, v)
  {
    var rest: nat := fuel - 1;
    CountPasses(step, x, b, a, t, k, rest, v);
    CountEntered(step, x, a, b, t, fuel, rest, v);
  }

  /** A first step that enters the body with the frame `[0, 0]` starts the
      passes counted by `EachBodyAfter`. */
  lemma EachEntered(step: Config -> Outcome, x: string, items: seq<Value>, t: Snapshot, fuel: nat, rest: nat, k: nat)
    requires step(Config(0, [], Init())) == Next(Config(1, [Each(0, 0)], t)) && rest == fuel - 1
    requires EachBodyAfter(step, x, items, 0, t, rest, k)
    ensures EachBodyAt(Iterate(2, step, Config(0, [], Init()), fuel), x, items, k)
  {
    IterateOne(2, step, Config(0, [], Init()), fuel, rest, Config(1, [Each(0, 0)], t));
  }

  /** A run whose first step enters the body with the frame `[0, 0]` and the
      variable at item 0 is, after `2 * k + 1` steps, in the body at item
      `k`. */
  lemma EachVisits(step: Config -> Outcome, x: string, items: seq<Value>, t: Snapshot, k: nat, fuel: nat)
    requires EachesAt(step, x, items) && ReturnsToHead(step) && k < |items| && fuel == 2 * k + 1
    requires step(Config(0, [], Init())) == Next(Config(1, [Each(0, 0)], t))
    requires x in t.objects && t.objects[x] == items[0]
    ensures EachBodyAt(Iterate(2, step, Config(0, [], Init()), fuel), x, items, k)
  {
    var rest: nat := fuel - 1;
    EachPasses(step, x, items, 0, t, k, rest, k);
    EachEntered(step, x, items, t, fuel, rest, k);
  }
}
