// Dynamically typed values of the pseudocode language, the errors that stop
// a run, and the few pieces of Python value semantics the interpreter itself
// relies on: equality, truthiness, `str()`, `len()` and non-negative indexing.

module Values {

  datatype Option<T> = None | Some(value: T)

  /** The ways a run can stop early. The interpreter catches every exception
      alike; the variants only say where the failure came from. */
  datatype Error =
    | NameError(name: string)   // a read of a name that is not bound
    | IndexError                // a missing capture, an index out of range, an empty loop stack
    | TypeError                 // arithmetic, len() or indexing on an unsuitable value
    | EvalError                 // any other failure inside the host evaluator

  datatype Result<T> = Ok(value: T) | Err(error: Error)

  /** A tagged value: boolean, integer, string or list. */
  datatype Value =
    | Bool(b: bool)
    | Int(i: int)
    | Str(s: string)
    | List(items: seq<Value>)

  /** Booleans take part in arithmetic as 0 and 1, as Python's bool does. */
  function Numeric(v: Value): (r: Option<int>)
    ensures r.Some? <==> (v.Bool? || v.Int?)
    ensures v.Int? ==> r == Some(v.i)
  {
    match v
    case Bool(b) => Some(if b then 1 else 0)
    case Int(i) => Some(i)
    case _ => None
  }

  /** Python's `==`: numbers compare by value across bool and int, lists
      element by element, and values of unrelated types are unequal. */
  function PyEq(a: Value, b: Value): bool
  {
    if Numeric(a).Some? && Numeric(b).Some? then Numeric(a) == Numeric(b)
    else match (a, b)
      case (Str(x), Str(y)) => x == y
      case (List(x), List(y)) =>
        |x| == |y| && forall i :: 0 <= i < |x| ==> PyEq(x[i], y[i])
      case _ => false
  }

  lemma {:induction false} PyEqReflexive(v: Value)
    ensures PyEq(v, v)
  {
    match v
    case List(items) =>
      forall i | 0 <= i < |items| ensures PyEq(items[i], items[i]) {
        PyEqReflexive(items[i]);
      }
    case _ =>
  }

  lemma {:induction false} PyEqSymmetric(a: Value, b: Value)
    requires PyEq(a, b)
    ensures PyEq(b, a)
  {
    if Numeric(a).Some? && Numeric(b).Some? {
    } else if a.List? && b.List? {
      forall i | 0 <= i < |a.items| ensures PyEq(b.items[i], a.items[i]) {
        PyEqSymmetric(a.items[i], b.items[i]);
      }
    }
  }

  /** `bool(v)` for the values the language has. */
  predicate Truthy(v: Value)
  {
    match v
    case Bool(b) => b
    case Int(i) => i != 0
    case Str(s) => s != ""
    case List(items) => items != []
  }

  /** Truthiness respects Python equality: equal values are equally truthy. */
  lemma TruthyRespectsPyEq(a: Value, b: Value)
    requires PyEq(a, b)
    ensures Truthy(a) == Truthy(b)
  {
  }

  function DigitChar(d: nat): (c: char)
    requires d < 10
    ensures '0' <= c <= '9' && c as int - '0' as int == d
  {
    ('0' as int + d) as char
  }

  function NatToString(n: nat): (r: string)
    ensures r != [] && forall k :: 0 <= k < |r| ==> '0' <= r[k] <= '9'
    decreases n
  {
    if n < 10 then [DigitChar(n)] else NatToString(n / 10) + [DigitChar(n % 10)]
  }

  /** Reads a string of digits back as a number (the inverse of NatToString). */
  function DigitsValue(s: string): (n: nat)
    requires forall k :: 0 <= k < |s| ==> '0' <= s[k] <= '9'
  {
    if s == [] then 0 else 10 * DigitsValue(s[..|s| - 1]) + (s[|s| - 1] as int - '0' as int)
  }

  lemma {:induction false} NatToStringRoundTrip(n: nat)
    ensures DigitsValue(NatToString(n)) == n
    decreases n
  {
    if n >= 10 {
      var r := NatToString(n);
      assert r[..|r| - 1] == NatToString(n / 10);
      NatToStringRoundTrip(n / 10);
    }
  }

  /** `str(i)` for an integer: optional minus sign, then decimal digits. */
  function IntToString(i: int): (r: string)
    ensures i < 0 <==> (r != [] && r[0] == '-')
  {
    if i < 0 then "-" + NatToString(-i) else NatToString(i)
  }

  function JoinComma(parts: seq<string>): string
  {
    if parts == [] then ""
    else if |parts| == 1 then parts[0]
    else parts[0] + ", " + JoinComma(parts[1..])
  }

  /** `repr(v)`; strings are quoted with single quotes and never escaped. */
  function Repr(v: Value): string
  {
    match v
    case Bool(b) => if b then "True" else "False"
    case Int(i) => IntToString(i)
    case Str(s) => "'" + s + "'"
    case List(items) =>
      "[" + JoinComma(seq(|items|, k requires 0 <= k < |items| => Repr(items[k]))) + "]"
  }

  /** `str(v)`: a string shows as itself, everything else as its repr. */
  function Show(v: Value): (r: string)
    ensures v.Str? ==> r == v.s
    ensures !v.Str? ==> r == Repr(v)
  {
    match v
    case Str(s) => s
    case _ => Repr(v)
  }

  /** Displaying a non-negative integer gives its decimal digits. */
  lemma ShowNatIsDecimal(n: nat)
    ensures forall k :: 0 <= k < |Show(Int(n))| ==> '0' <= Show(Int(n))[k] <= '9'
    ensures DigitsValue(Show(Int(n))) == n
  {
    NatToStringRoundTrip(n);
  }

  /** `len(v)`: defined on strings and lists only. */
  function Length(v: Value): (r: Result<nat>)
    ensures r.Ok? <==> (v.Str? || v.List?)
    ensures v.List? ==> r == Ok(|v.items|)
  {
    match v
    case Str(s) => Ok(|s|)
    case List(items) => Ok(|items|)
    case _ => Err(TypeError)
  }

  /** `xs[i]` with Python's list indexing: a negative index counts from the
      end, and an index outside `-|xs| .. |xs| - 1` is an IndexError. */
  function PyIndex<T>(xs: seq<T>, i: int): (r: Result<T>)
    ensures r.Ok? <==> -|xs| <= i < |xs|
    ensures 0 <= i < |xs| ==> r == Ok(xs[i])
    ensures -|xs| <= i < 0 ==> r == Ok(xs[|xs| + i])
  {
    if 0 <= i < |xs| then Ok(xs[i])
    else if -|xs| <= i < 0 then Ok(xs[|xs| + i])
    else Err(IndexError)
  }

  /** A negative index names the same item as the non-negative index
      `|xs|` above it, and one wrap further is out of range. The backward
      scan of `skip_block` reaches the last lines through the first. */
  lemma PyIndexWraps<T>(xs: seq<T>, i: int)
    requires -|xs| <= i < 0
    ensures PyIndex(xs, i) == PyIndex(xs, i + |xs|) && PyIndex(xs, i).Ok?
    ensures PyIndex(xs, i - |xs|).Err?
  {
  }

  /** `v[k]` for a non-negative index. */
  function ItemAt(v: Value, k: nat): (r: Result<Value>)
    ensures v.List? && k < |v.items| ==> r == Ok(v.items[k])
    ensures v.Str? && k < |v.s| ==> r == Ok(Str([v.s[k]]))
    ensures r.Ok? <==> (Length(v).Ok? && k < Length(v).value)
  {
    match v
    case Str(s) => if k < |s| then Ok(Str([s[k]])) else Err(IndexError)
    case List(items) => if k < |items| then Ok(items[k]) else Err(IndexError)
    case _ => Err(TypeError)
  }
}
