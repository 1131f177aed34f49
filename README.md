# tracetables: a verified model of the pseudocode interpreter

tracetables runs programs written in a small line-based pseudocode. It has
`SET x TO e`, `SEND e TO DISPLAY`, `IF … THEN` / `ELSE` / `END IF`,
`WHILE … DO` / `END WHILE`, `FOR x FROM a TO b` / `END FOR` and
`FOR EACH x FROM s` / `END FOR`. While it runs, it records a *trace table*:
a list of frames, each holding the values that variables were given or read
while that frame was the current one. This project models the interpreter
in `backend.py` and proves properties of the model.

The modules follow the parts of `backend.py`:

| module | file | part of `backend.py` |
|---|---|---|
| `Values` | values.dfy | the tagged values, errors, and Python's `==`, truthiness, `str()`, `len()` and list indexing |
| `Text` | text.dfy | `strip`, `find`, `split`, `split("\n")`, `replace`, `lower` with CPython's edge cases |
| `Templates` | templates.dfy | `syntax`, `match`, `parse_code` |
| `Expressions` | canonical.dfy | the rewriting front half of `expression_evaluate` |
| `Navigator` | navigator.dfy | `skip_block`, `skip_block_worker` |
| `Order` | order.dfy | string order and `sorted`, used for the table headers |
| `Trace` | trace.dfy | `class State`: functions on a snapshot of its three fields, and a class `TraceState` that updates the fields in place |
| `Engine` | engine.dfy | the loop of `main` as a step function `Step` and a fuel-bounded run `Run` / `Interpret` |
| `Behaviour` | behaviour.dfy | properties of single steps and whole runs |
| `Interpreter` | interpreter.dfy | the loop of `main` as imperative code with a mutable `TraceState`, proved equal to `Interpret` |
| `LoopSteps`, `Loops` | loopsteps.dfy, loops.dfy | full runs of two-line counted and for-each loops |

The host `eval` is a parameter of type `Evaluator`. It takes the
canonicalised expression and the current bindings. It returns the names it
looks up, in order, and a value or an error. Each looked-up name goes through
`State.__getitem__`, as the Python `eval` does with `var_states` as its
locals. So the model keeps the effect of evaluation on the trace table, and
leaves the arithmetic abstract.

The skip-block scan fetches lines with Python list indexing. A backward scan
past line 0 wraps around to the end of the program. A scan that runs off
either end with no closing line stops with an `IndexError`. The model follows
this exactly, so it needs no well-nesting precondition.

The source's quirks are kept as written:
- Keywords are found by substring search.
- `new_frame` compares sizes, not sets (backend.py:109).
- A counted loop whose target is below its current value never advances (backend.py:180).

## Model

| member | source | states |
|---|---|---|
| Values.ItemAt | backend.py:196-199 | `v[k]` is defined exactly when `k < len(v)`, and is item `k` of a list or the one-character string at `k` of a string |
| Values.PyEqReflexive | backend.py:100 | every value is `==` to itself, so writing back the value a frame already holds never splits it |
| Values.PyEqSymmetric | backend.py:100 | Python `==` on values is symmetric |
| Values.TruthyRespectsPyEq | backend.py:154 | values that are `==` have the same truthiness |
| Values.IntToString | backend.py:208 | `str(i)` has a leading minus sign exactly when `i < 0` |
| Values.NatToStringRoundTrip | backend.py:208 | the decimal digits `str` gives a natural number read back as that number |
| Values.ShowNatIsDecimal | backend.py:208 | `str` of a non-negative integer is all decimal digits, and denotes the integer |
| Text.StripSpec | backend.py:23 | `strip()` leaves no whitespace at either end, and is empty exactly when the text is all whitespace |
| Text.StripLayout | backend.py:23 | `strip()` returns a slice of the text with only whitespace before and after it: exactly the surrounding whitespace is removed |
| Text.StripIdempotent | backend.py:23 | stripping twice is stripping once |
| Text.FindFirst | backend.py:30 | `find` returns an occurrence with none before it, and -1 exactly when there is no occurrence |
| Text.WordsSpec | backend.py:56 | `split()` yields non-empty words without whitespace |
| Text.WordsLayout | backend.py:56 | the text is the words of `split()` in order, separated by whitespace only, with some whitespace between any two: the words are the maximal non-whitespace runs |
| Text.WordsOfSpaced | backend.py:56-59 | splitting tokens that are each followed by one space gives back the tokens |
| Text.SplitOnSpec | backend.py:224 | no piece of `split("\n")` contains a newline |
| Text.SplitOnRoundTrip | backend.py:224 | joining the pieces of `split(sep)` with `sep` gives back the text |
| Text.SplitOnCount | backend.py:224 | `split(sep)` yields one more piece than there are separators |
| Text.ReplaceCharIsSubstitute | backend.py:49-50 | replacing a one-character pattern substitutes that character wherever it occurs |
| Text.SubstituteRemoves | backend.py:44 | after substitution the character is gone unless the replacement contains it |
| Templates.Rank | backend.py:6-19 | every kind but blank has a template of that kind, at a fixed position in the order tried |
| Templates.RankOfSyntax | backend.py:6-19 | the position of each template's kind is that template's position |
| Templates.MatchTemplate | backend.py:25-39 | the inner loop of `match` over one template returns the captures of `MatchParts`, or none when a keyword is missing |
| Templates.Match | backend.py:22-40 | `match` returns the classification `Classify(line)` |
| Templates.FirstMatch | backend.py:24-39 | the index found is the first template from the start that matches, and every earlier one fails |
| Templates.NonBlankCaptured | backend.py:33-34 | a gap contributes one stripped, non-empty capture, or nothing exactly when it is all whitespace |
| Templates.MatchFromCaptured | backend.py:30-38 | every capture is non-empty and stripped, and there are at most one more than the keywords |
| Templates.MatchLayout | backend.py:27-38 | a successful match splits the line into gaps and keywords, each keyword at its first occurrence after the previous one, and the captures are the non-blank gaps in order |
| Templates.LayoutMatches | backend.py:27-38 | conversely, any such split of the line is exactly what the match returns |
| Templates.MatchIffInOrder | backend.py:27-35 | a template matches exactly when its keywords occur one after another as substrings |
| Templates.ClassifyFirst | backend.py:24-40 | the kind is that of the first matching template and its captures are that template's; blank, with no captures, exactly when none matches |
| Templates.ClassifyFirstInOrder | backend.py:24-40 | the kind is that of the first template whose keywords occur in order; blank exactly when no template's do |
| Templates.ClassifyCaptures | backend.py:33-38 | every capture of a classified line is non-empty and stripped, at most one more than its template's keywords |
| Templates.ForEachShadowed | backend.py:14-16 | a `FOR EACH` line whose text after `FROM` contains `TO` (such as `FOR EACH x FROM TOTALS`) is never classified as `for_each`, because the counted-loop template is tried first and matches by substring |
| Templates.ParseCode | backend.py:223-224 | one statement per line: one more than the number of newlines |
| Expressions.Canonicalise | backend.py:52-59 | the token loop builds exactly the canonical text of the expression |
| Expressions.CanonTokenSpec | backend.py:54-58 | a token is replaced exactly when its lower-case form is a boolean word, by that word's Python spelling, and keeps its lower-case form |
| Expressions.CanonTokenIdempotent | backend.py:54-58 | canonical spellings are fixed points |
| Expressions.CanonTokensIdempotent | backend.py:56-59 | the token stage applied twice equals applied once |
| Expressions.CanonicalWords | backend.py:56-59 | the words of the canonical text are the canonicalised words of the rewritten text |
| Expressions.CanonicalTokenStageIdempotent | backend.py:44-59 | running the token stage again over the canonical text changes nothing |
| Expressions.PrepareRemovesCaret | backend.py:44-50 | no `^` survives the replace chain |
| Expressions.PrepareIsolatesParens | backend.py:49-50 | after the chain every parenthesis has whitespace or an end of the text on both sides |
| Expressions.ParensAreTokens | backend.py:49-56 | every word that contains a parenthesis is that parenthesis alone |
| Navigator.KindAt | backend.py:76 | `prog[j][0]` succeeds exactly for Python-valid indices and gives that line's kind |
| Navigator.VisitedForward | backend.py:74-76 | a forward scan visits every later line, in order |
| Navigator.VisitedBackward | backend.py:74-76 | a backward scan visits the earlier lines downward, then wraps to the end of the program |
| Navigator.ScanFirstClose | backend.py:72-84 | the scan stops exactly at the first line that closes the block, and fails exactly when there is none |
| Navigator.FirstCloseUnique | backend.py:76-79 | a scan has at most one first closing line |
| Navigator.ReverseClose | backend.py:64-68 | a block closed forward at line `n` is closed backward at its opener, with the sets swapped |
| Navigator.SkipBlockWorker | backend.py:71-84 | the loop of `skip_block_worker` returns the first closing line, or the IndexError of running off the program |
| Navigator.SkipBlockForward | backend.py:64-84 | forward: the result is after `start`, has an exit kind and is the first closing line; an IndexError exactly when there is none |
| Navigator.SkipBlockBackward | backend.py:64-84 | backward: the result is before `start` in visiting order, has an enter kind and is the first line that opens the block |
| Navigator.SkipBlockRoundTrip | backend.py:64-84 | from an opener, skipping forward to its closer and back returns to the opener |
| Order.BelowIrreflexive | backend.py:129 | no string is below itself |
| Order.BelowAsymmetric | backend.py:129 | string order is asymmetric |
| Order.BelowTransitive | backend.py:129 | string order is transitive |
| Order.BelowTotal | backend.py:129 | any two different strings are ordered one way or the other |
| Order.SmallestExists | backend.py:129 | a non-empty set of names has a smallest |
| Order.SortedNamesSpec | backend.py:129 | `sorted` lists each name of the set exactly once, in strictly increasing order |
| Trace.Init | backend.py:88-91 | a new state is coherent |
| Trace.ReadState | backend.py:93-97 | a read never changes a binding |
| Trace.WriteState | backend.py:99-105 | after a write the key is bound to the value |
| Trace.NewFrameState | backend.py:107-116 | closing a frame leaves a non-empty table, or changes nothing |
| Trace.NewFrameCoherent | backend.py:107-116 | closing a frame keeps the state coherent |
| Trace.ReadCoherent | backend.py:93-97 | a read keeps the state coherent |
| Trace.WriteCoherent | backend.py:99-105 | a write keeps the state coherent |
| Trace.ReadSpec | backend.py:93-97 | a read fails exactly for an unbound name, returns its binding and records it in the last frame; it adds a temporary exactly when the last frame lacked the name |
| Trace.ReadTwice | backend.py:93-97 | reading the same name twice is reading it once |
| Trace.WriteSpec | backend.py:99-105 | after a write: the binding and the last frame hold the value, the key is no temporary, and the earlier frames change only when the write first closed the frame |
| Trace.NewFrameSpec | backend.py:107-116 | nothing happens on an empty last frame; otherwise a fresh empty frame, no temporaries, bindings kept, and the table grows by the collapse rule by 0 or 1 |
| Trace.NewFrameAppendOnly | backend.py:107-116 | in a coherent state every earlier closed frame stays as it was, and a closed frame holding Display stays in the table with the value it showed |
| Trace.NewFrameKeeps | backend.py:108-115 | a frame that fails the size test is kept unchanged |
| Trace.LoneWriteDropped | backend.py:109-114 | a frame holding only one written non-Display variable is dropped |
| Trace.LoneReadKept | backend.py:109-115 | a frame holding one name that was only read is kept |
| Trace.ReadAndDisplayCut | backend.py:109-112 | a frame with one read name and Display is cut down to Display |
| Trace.WriteAfterReadStays | backend.py:99-104 | `SET x TO x + 1`: writing a name the frame has only read does not split it |
| Trace.WriteEqualStays | backend.py:100 | writing a value equal to the frame's never splits it |
| Trace.OverwriteLosesRow | backend.py:99-116 | `SET x TO 1` then `SET x TO 2` in a fresh frame keeps only the second value's row |
| Trace.HeadersSpec | backend.py:129 | the headers name every bound variable and Display exactly once, the variables sorted, Display last |
| Trace.Row | backend.py:130 | a row has one cell per header |
| Trace.GenTraceTable | backend.py:128-131 | one row per frame |
| Trace.FrameOfRowRestricts | backend.py:130 | a row keeps exactly the frame's entries under the headers |
| Trace.RowsRecoverFrames | backend.py:128-131 | every frame of a coherent state can be read back from its row |
| Trace.TraceState.constructor | backend.py:88-91 | the object starts in the initial, coherent state |
| Trace.TraceState.GetItem | backend.py:93-97 | the fields and the result become those of `ReadState`, keeping the invariant |
| Trace.TraceState.SetItem | backend.py:99-105 | the fields become those of `WriteState`, keeping the invariant |
| Trace.TraceState.NewFrame | backend.py:107-116 | the fields become those of `NewFrameState`, keeping the invariant |
| Trace.TraceState.TraceTable | backend.py:128-131 | one row per frame of the object's table |
| Engine.Advance | backend.py:180 | the step toward the target is defined exactly for numeric operands |
| Behaviour.EvaluateKeepsBindings | backend.py:43-61 | evaluating an expression records reads but never changes a binding |
| Behaviour.IterateMonotone | backend.py:148-218 | a run that has ended gives the same result with more fuel |
| Behaviour.IterateKeeps | backend.py:148-218 | a property kept by every step holds of the configuration and trace a run ends with |
| Behaviour.StepForCoherent | backend.py:172-186 | a `start_for` step keeps the trace state coherent |
| Behaviour.StepForEachCoherent | backend.py:187-200 | a `for_each` step keeps the trace state coherent |
| Behaviour.StepCoherent | backend.py:150-218 | every step keeps the trace state coherent, even when it fails |
| Behaviour.RunCoherent | backend.py:148-220 | a run from a coherent state ends, stops or runs out of fuel in a coherent state |
| Behaviour.BranchOnFalse | backend.py:153-157 | a false condition jumps to one past the first line that closes the block |
| Behaviour.BranchOnTrue | backend.py:154-155 | a true condition goes on to the next line |
| Behaviour.ElseSkips | backend.py:158-159 | `else` always jumps to one past the line that closes its block |
| Behaviour.EndWhileReturnsToOwner | backend.py:163-170 | the `end_while` that closes a `start_while` jumps back to it |
| Behaviour.EndForJumps | backend.py:201-202 | `end_for` jumps to the owner of the top frame without popping; with an empty stack it is an IndexError |
| Behaviour.SetAssigns | backend.py:204-206 | `set_var` evaluates the value first; an error stops the run with the reads made so far; otherwise the name alone is rebound to the value, through `__setitem__`, and the program moves to the next line with the loops unchanged |
| Behaviour.DisplayWritesAndCloses | backend.py:207-213 | `display` binds Display to the text of the value and closes the frame, which stays in the table as the last closed frame showing that text; an error stops the run with the reads made so far |
| Behaviour.PassThrough | backend.py:160-161 | `end_if` and lines that match no template only move on |
| Behaviour.ErrorStops | backend.py:216-218 | an error ends the run at once with that error and the trace state of that moment |
| Behaviour.RunNext | backend.py:148-218 | a step that goes on leaves the rest of the run to the next configuration |
| Behaviour.RunMonotone | backend.py:148-218 | more fuel never changes a run that has ended |
| Behaviour.StepKeepsOwners | backend.py:172-202 | every loop frame is owned by a loop header of its sort, and steps keep it so |
| Behaviour.RunKeepsOwners | backend.py:148-218 | frame ownership holds throughout a run |
| Behaviour.CountedStart | backend.py:172-186 | the first visit of `start_for` closes the frame, evaluates start then target, pushes `[line, start, target]` and binds the variable to the start; an error or a missing expression stops the run where it occurs |
| Behaviour.CountedReentry | backend.py:176-180 | at the target the frame is popped and the program continues after the matching `end_for`; otherwise the value moves one up only when the target is above, and is rebound |
| Behaviour.EachStart | backend.py:187-200 | the first visit of `for_each` closes the frame, pushes `[line, 0]` and binds item 0 of the evaluated list or string (for a string, its first character as a one-character string); an empty list or string is an IndexError and a value without a length a TypeError |
| Behaviour.EachReentry | backend.py:187-200 | a later visit evaluates the sequence twice, with the same value both times; after the last item the frame is popped and the jump goes past the matching `end_for`, otherwise the frame becomes `[line, index + 1]` and the variable is bound to the next item; this holds for a list and for a string, whose items are its one-character strings |
| Interpreter.ExpressionEvaluate | backend.py:43-61 | the trace state and the result become those of `EvaluateIn`: lookups in order, then the outcome |
| Interpreter.SkipTo | backend.py:64-68 | `skip_block` returns `SkipBlock`, forward or reverse |
| Interpreter.ExecBranch | backend.py:153-168 | the `if`/`start_while` test leaves the state and the jump of `Branch` |
| Interpreter.ExecCountAgain | backend.py:175-180 | re-entering a counted loop does what `CountAgain` does |
| Interpreter.ExecCountStart | backend.py:182-185 | the first visit of a counted loop does what `CountStart` does |
| Interpreter.ExecCountPush | backend.py:183-185 | pushing the counted frame and binding the start do what `CountPush` does |
| Interpreter.ExecFor | backend.py:172-186 | `start_for` does what `StepFor` does |
| Interpreter.ExecEachBind | backend.py:195-199 | binding an item does what `EachBind` does |
| Interpreter.ExecEachAgain | backend.py:191-196 | re-entering a for-each loop does what `EachAgain` does |
| Interpreter.ExecForEach | backend.py:187-200 | `for_each` does what `StepForEach` does |
| Interpreter.ExecAssign | backend.py:205 | storing an evaluated value does what `Assign` does |
| Interpreter.ExecSet | backend.py:204-206 | `set_var` does what `StepSet` does |
| Interpreter.ExecDisplay | backend.py:207-213 | `display` does what `StepDisplay` does |
| Interpreter.ExecLine | backend.py:150-218 | one pass of the loop body does what `Step` does, including the errors it stops with |
| Interpreter.Execute | backend.py:140-220 | the imperative loop returns the error and the state of `Interpret`, or reports that the fuel ran out in the same state |
| LoopSteps.CountExits | backend.py:176-178 | at the target the counted loop leaves in one step, with the variable still at the target |
| LoopSteps.CountAdvances | backend.py:179-180 | below the target one pass binds the next value, and the run reduces to the run from there |
| LoopSteps.EachExits | backend.py:191-193 | after the last item the for-each loop leaves in one step |
| LoopSteps.EachAdvances | backend.py:194-196 | before the last item one pass binds the next item, and the run reduces to the run from there |
| LoopSteps.CountPasses | backend.py:172-202 | from the body with the variable at `cur`, after `2k` steps the run is back in the body with the variable at `cur + k` |
| LoopSteps.EachPasses | backend.py:187-202 | from the body at item `i`, after `2k` steps the run is back in the body at item `i + k` |
| Loops.SkipToEnd | backend.py:178 | in a two-line loop the block of the header ends at line 1 |
| Loops.BackToHead | backend.py:201-202 | `END FOR` returns to the header that owns the top frame |
| Loops.CountFirstVisit | backend.py:181-185 | the first visit pushes `[0, a, b]` and binds the variable to `a` |
| Loops.CountReenter | backend.py:174-186 | a later visit does exactly what `HeadStep` says: exit at the target, else advance only upward and rebind |
| Loops.CountRunsOut | backend.py:172-202 | from the header with the value at `cur <= b`, the run ends without error after `2(b - cur) + 1` steps with the variable at `b` |
| Loops.CountSpins | backend.py:180 | with the target below the value the run from the header never ends, whatever the fuel |
| Loops.CountingLoopEnds | backend.py:172-202 | for integer bounds `a <= b` the loop ends without error after `2(b - a) + 3` steps, the variable at `b` |
| Loops.CountingLoopVisits | backend.py:172-202 | the body runs once for each of `a, a + 1, …, b` in order: after `2k + 1` steps, for each `k <= b - a`, the run is in the body with the frame `[0, a + k, b]` and the variable at `a + k` |
| Loops.CountingLoopSpins | backend.py:172-202 | for integer bounds `b < a` no amount of fuel ends the run |
| Loops.EachFirstVisit | backend.py:197-199 | the first visit binds item 0 and pushes `[0, 0]`; an empty list is an IndexError |
| Loops.EachReenter | backend.py:188-196 | a later visit does exactly what `EachStep` says: exit after the last item, else bind the next |
| Loops.EachRunsOut | backend.py:187-202 | from the header at item `i`, the run ends without error after `2(n - 1 - i) + 1` steps with the variable at the last item |
| Loops.EachLoopEnds | backend.py:187-202 | over an empty list the run stops at once with an IndexError; otherwise it ends without error after `2n + 1` steps with the variable at the last item |
| Loops.EachLoopVisits | backend.py:187-202 | the body runs once for each item in order: after `2k + 1` steps, for each `k < n`, the run is in the body with the frame `[0, k]` and the variable at item `k` |

## Left out

- The host `eval` (backend.py:61). It is a parameter, so Python arithmetic, comparison and name resolution are not modelled. Only the names it looks up and its result are.
- Python values other than booleans, integers, strings and lists. Floats, `None`, tuples and dicts are not modelled, and neither are `str()` of them.
- `repr` escaping: a string inside a list shows in single quotes, without escapes.
- `str.lower()` is modelled on ASCII letters only. `str.isspace()` is modelled on the ASCII and Unicode space characters, without the full Unicode database.
- Exception types: the model keeps a small `Error` datatype. The engine treats every error alike, as the `except Exception` does (backend.py:216-218).
- HTML rendering through `tabulate` (backend.py:124-126), and the accessors `get_objects` / `get_trace_table` (backend.py:118-122). The snapshot function `Snap` exposes the same fields.
- Console input: `read_program` (backend.py:227-234) and the branch of `main` that calls it (backend.py:135-138). `Interpret` and `Execute` take an already parsed program; text goes through `ParseCode`.
- tracetables_flask.py is not part of this model. It is web I/O only.
- Interpreter.Execute: bounded by a fuel parameter, because the source loop need not end (Loops.CountingLoopSpins). A run that exhausts its fuel reports `Unfinished`.
- Trace.Headers: a ghost function, because `sorted` is specified by its properties (Order.SortedNamesSpec) rather than computed.
- Loop frames in the source are lists mutated in place through an alias (`state[1] += 1`). The model replaces the top frame with the updated one. That is equivalent here, because nothing else holds the alias.
- Fallbacks that a real run cannot reach are given fixed results:
  - the last frame of an empty table is empty;
  - Display missing from the bindings reads the frame's own entry;
  - a loop header whose top frame is of the other loop sort fails, with a TypeError at `for_each` and an IndexError at `start_for`. Behaviour.RunKeepsOwners shows that this never happens in a run from the start, because every frame is owned by a header of its own sort.
- The skip-block scan is modelled with Python's own indexing. The alternative, a well-nesting precondition, would exclude programs the source accepts. So the wrap-around of a backward scan past line 0 and the IndexError past the end are part of the model.
- Proofs of whole loop runs (Loops.CountingLoopEnds, Loops.CountingLoopVisits, Loops.EachLoopEnds, Loops.EachLoopVisits) cover the smallest loops, a header directly followed by `END FOR`, with an evaluator of constant results. Longer bodies are covered only through the single-step lemmas (Behaviour.CountedStart, Behaviour.CountedReentry, Behaviour.EachStart, Behaviour.EachReentry).
