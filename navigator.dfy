// The block navigator (backend.py, `skip_block`, `skip_block_worker`): a
// balanced-bracket scan over statement kinds, forward or backward from a line,
// that stops at the first line where the running depth would go negative.
// Lines are fetched with Python's list indexing, so a backward scan that runs
// past line 0 wraps around to the end of the program, and a scan that runs
// off either end stops with an IndexError.

module Navigator {
  import opened Values
  import opened Templates

  /** The kind of the statement at Python index `j`. */
  function KindAt(prog: seq<Statement>, j: int): (r: Result<Kind>)
    ensures r.Ok? <==> -|prog| <= j < |prog|
    ensures 0 <= j < |prog| ==> r == Ok(prog[j].kind)
  {
    match PyIndex(prog, j)
    case Ok(st) => Ok(st.kind)
    case Err(e) => Err(e)
  }

  /** The index `k` lines away from `i` in direction `delta`. */
  function Offset(i: int, delta: int, k: nat): int
  {
    if delta > 0 then i + k else i - k
  }

  /** Lines a scan from `i` can still visit; bounds the scan. */
  function Remaining(n: nat, i: int, delta: int): int
  {
    if delta > 0 then n - i else i + n + 1
  }

  /** The kinds of the lines a scan from `i` visits, in visiting order, up to
      the first index Python refuses. */
  function Visited(prog: seq<Statement>, i: int, delta: int): seq<Kind>
    requires delta == 1 || delta == -1
    decreases Remaining(|prog|, i, delta)
  {
    match KindAt(prog, i + delta)
    case Err(_) => []
    case Ok(k) => [k] + Visited(prog, i + delta, delta)
  }

  /** One step of a scan consumes the next element of the visiting order. */
  lemma VisitedStep(prog: seq<Statement>, j: int, delta: int, ks: seq<Kind>, m: nat, k: Kind)
    requires delta == 1 || delta == -1
    requires m <= |ks| && Visited(prog, j, delta) == ks[m..]
    requires KindAt(prog, j + delta) == Ok(k)
    ensures m < |ks| && ks[m] == k && Visited(prog, j + delta, delta) == ks[m + 1..]
  {
    assert ks[m..] == [k] + Visited(prog, j + delta, delta);
    assert ks[m + 1..] == ks[m..][1..];
  }

  /** Element `n` of the visiting order is the line `n + 1` steps away. */
  lemma {:induction false} VisitedAt(prog: seq<Statement>, i: int, delta: int, n: nat)
    requires delta == 1 || delta == -1
    requires n < |Visited(prog, i, delta)|
    ensures KindAt(prog, Offset(i, delta, n + 1)) == Ok(Visited(prog, i, delta)[n])
    decreases n
  {
    if n > 0 {
      VisitedAt(prog, i + delta, delta, n - 1);
    }
  }

  /** From an existing line, a forward scan visits every later line and a
      backward scan every earlier line and then, wrapping, the whole program. */
  lemma {:induction false} VisitedLength(prog: seq<Statement>, i: int, delta: int)
    requires delta == 1 || delta == -1
    requires -|prog| <= i < |prog|
    ensures |Visited(prog, i, delta)| == if delta > 0 then |prog| - 1 - i else i + |prog|
    decreases Remaining(|prog|, i, delta)
  {
    if KindAt(prog, i + delta).Ok? {
      VisitedLength(prog, i + delta, delta);
    }
  }

  /** What one line does to the depth: +1 for an enter kind, -1 for an exit
      kind (a kind in both sets leaves it unchanged). */
  function Contribution(k: Kind, enter: set<Kind>, exit: set<Kind>): int
  {
    (if k in enter then 1 else 0) - (if k in exit then 1 else 0)
  }

  /** The depth after the first `n` visited lines. */
  function Net(ks: seq<Kind>, enter: set<Kind>, exit: set<Kind>, n: nat): int
    requires n <= |ks|
  {
    if n == 0 then 0 else Net(ks, enter, exit, n - 1) + Contribution(ks[n - 1], enter, exit)
  }

  /** Line `n` closes the block: it has an exit kind and is reached at depth 0. */
  predicate ClosesAt(ks: seq<Kind>, enter: set<Kind>, exit: set<Kind>, n: nat)
  {
    n < |ks| && ks[n] in exit && Net(ks, enter, exit, n) == 0
  }

  predicate FirstClose(ks: seq<Kind>, enter: set<Kind>, exit: set<Kind>, n: nat)
  {
    ClosesAt(ks, enter, exit, n) && forall m :: 0 <= m < n ==> !ClosesAt(ks, enter, exit, m)
  }

  /** The loop of `skip_block_worker` over the visiting order: the exit test
      comes first and stops the scan when the depth drops below zero. */
  function ScanFrom(ks: seq<Kind>, enter: set<Kind>, exit: set<Kind>, k: nat, depth: int): Option<nat>
    requires k <= |ks|
    decreases |ks| - k
  {
    if k == |ks| then None
    else
      var d := if ks[k] in exit then depth - 1 else depth;
      if ks[k] in exit && d < 0 then Some(k)
      else ScanFrom(ks, enter, exit, k + 1, if ks[k] in enter then d + 1 else d)
  }

  /** The scan stops exactly at the first closing line, and fails exactly
      when there is none. */
  lemma {:induction false} ScanFromSpec(ks: seq<Kind>, enter: set<Kind>, exit: set<Kind>, k: nat, depth: int)
    requires k <= |ks| && depth == Net(ks, enter, exit, k) && depth >= 0
    requires forall m :: 0 <= m < k ==> !ClosesAt(ks, enter, exit, m)
    ensures match ScanFrom(ks, enter, exit, k, depth)
            case Some(n) => FirstClose(ks, enter, exit, n)
            case None => forall m :: 0 <= m < |ks| ==> !ClosesAt(ks, enter, exit, m)
    decreases |ks| - k
  {
    if k < |ks| {
      if !(ks[k] in exit && depth == 0) {
        assert !ClosesAt(ks, enter, exit, k);
        ScanFromSpec(ks, enter, exit, k + 1, depth + Contribution(ks[k], enter, exit));
      }
    }
  }

  /** Before the first closing line the depth never drops below zero. */
  lemma {:induction false} NetNonNegative(ks: seq<Kind>, enter: set<Kind>, exit: set<Kind>, q: nat, m: nat)
    requires m <= q <= |ks|
    requires forall j :: 0 <= j < q ==> !ClosesAt(ks, enter, exit, j)
    ensures Net(ks, enter, exit, m) >= 0
    decreases m
  {
    if m > 0 {
      NetNonNegative(ks, enter, exit, q, m - 1);
      assert !ClosesAt(ks, enter, exit, m - 1);
    }
  }

  /** The depth only depends on the lines visited so far. */
  lemma {:induction false} NetAgree(a: seq<Kind>, b: seq<Kind>, enter: set<Kind>, exit: set<Kind>, m: nat)
    requires m <= |a| && m <= |b|
    requires forall j :: 0 <= j < m ==> a[j] == b[j]
    ensures Net(a, enter, exit, m) == Net(b, enter, exit, m)
    decreases m
  {
    if m > 0 {
      NetAgree(a, b, enter, exit, m - 1);
    }
  }

  /** A block has at most one first closing line. */
  lemma FirstCloseUnique(ks: seq<Kind>, enter: set<Kind>, exit: set<Kind>, n: nat, n2: nat)
    requires FirstClose(ks, enter, exit, n) && FirstClose(ks, enter, exit, n2)
    ensures n == n2
  {
  }

  /** The scan from depth 0 finds the first closing line, and only it. */
  lemma ScanFirstClose(ks: seq<Kind>, enter: set<Kind>, exit: set<Kind>)
    ensures forall n: nat :: ScanFrom(ks, enter, exit, 0, 0) == Some(n) <==> FirstClose(ks, enter, exit, n)
    ensures ScanFrom(ks, enter, exit, 0, 0) == None <==> forall m :: 0 <= m < |ks| ==> !ClosesAt(ks, enter, exit, m)
  {
    ScanFromSpec(ks, enter, exit, 0, 0);
    match ScanFrom(ks, enter, exit, 0, 0)
    case Some(n) =>
      forall n2: nat | FirstClose(ks, enter, exit, n2) ensures n2 == n {
        FirstCloseUnique(ks, enter, exit, n, n2);
      }
    case None =>
  }

  /** Walking the lines of a closed block backward with the sets swapped:
      the depths are those of the forward walk, read from the other end. */
  lemma {:induction false} NetReversed(w: seq<Kind>, b: seq<Kind>, enter: set<Kind>, exit: set<Kind>, n: nat, m: nat)
    requires m <= n <= |w| && n <= |b|
    requires forall k :: 0 <= k < n ==> b[k] == w[n - 1 - k]
    ensures Net(b, exit, enter, m) == Net(w, enter, exit, n - m) - Net(w, enter, exit, n)
    decreases m
  {
    if m > 0 {
      NetReversed(w, b, enter, exit, n, m - 1);
      assert b[m - 1] == w[n - m];
    }
  }

  /** A block closed forward at line `n` is closed backward at its opener:
      the reverse scan from the closer stops at the opener and nowhere earlier. */
  lemma ReverseClose(w: seq<Kind>, b: seq<Kind>, enter: set<Kind>, exit: set<Kind>, n: nat)
    requires enter !! exit
    requires FirstClose(w, enter, exit, n) && n < |b|
    requires forall k :: 0 <= k < n ==> b[k] == w[n - 1 - k]
    requires b[n] in enter
    ensures FirstClose(b, exit, enter, n)
  {
    NetReversed(w, b, enter, exit, n, n);
    forall m | 0 <= m < n ensures !ClosesAt(b, exit, enter, m) {
      NetReversed(w, b, enter, exit, n, m);
      NetNonNegative(w, enter, exit, n, n - 1 - m);
      assert b[m] == w[n - 1 - m];
    }
  }

  /** `skip_block_worker` as a value: the index of the first closing line,
      `n + 1` steps away when it is element `n` of the visiting order. */
  function Worker(lineIndex: int, prog: seq<Statement>, enterDels: set<Kind>, exitDels: set<Kind>, delta: int): Result<int>
    requires delta == 1 || delta == -1
  {
    match ScanFrom(Visited(prog, lineIndex, delta), enterDels, exitDels, 0, 0)
    case Some(n) => Ok(Offset(lineIndex, delta, n + 1))
    case None => Err(IndexError)
  }

  /** `skip_block`: a reverse scan walks downward with the two sets swapped. */
  function SkipBlock(lineIndex: int, prog: seq<Statement>, enterDels: set<Kind>, exitDels: set<Kind>, reverse: bool): Result<int>
  {
    if reverse then Worker(lineIndex, prog, exitDels, enterDels, -1)
    else Worker(lineIndex, prog, enterDels, exitDels, 1)
  }

  /** The loop of `skip_block_worker`, line by line. */
  method SkipBlockWorker(lineIndex: int, prog: seq<Statement>, enterDels: set<Kind>, exitDels: set<Kind>, delta: int)
    returns (r: Result<int>)
    requires delta == 1 || delta == -1
    ensures r == Worker(lineIndex, prog, enterDels, exitDels, delta)
  {
    ghost var ks := Visited(prog, lineIndex, delta);
    ghost var m: nat := 0;
    var imbalance := 0;
    var j := lineIndex;
    while true
      invariant m <= |ks| && Visited(prog, j, delta) == ks[m..]
      invariant j == Offset(lineIndex, delta, m)
      invariant ScanFrom(ks, enterDels, exitDels, 0, 0) == ScanFrom(ks, enterDels, exitDels, m, imbalance)
      decreases Remaining(|prog|, j, delta)
    {
      j := j + delta;
      var line := PyIndex(prog, j);
      if line.Err? {
        return Err(IndexError);
      }
      var kind := line.value.kind;
      VisitedStep(prog, j - delta, delta, ks, m, kind);
      if kind in exitDels {
        imbalance := imbalance - 1;
        if imbalance < 0 {
          return Ok(j);
        }
      }
      if kind in enterDels {
        imbalance := imbalance + 1;
      }
      m := m + 1;
    }
  }

  /** A forward scan from an existing line visits the later lines in order. */
  lemma VisitedForward(prog: seq<Statement>, start: int)
    requires 0 <= start < |prog|
    ensures |Visited(prog, start, 1)| == |prog| - 1 - start
    ensures forall m :: 0 <= m < |Visited(prog, start, 1)| ==> Visited(prog, start, 1)[m] == prog[start + 1 + m].kind
  {
    VisitedLength(prog, start, 1);
    forall m | 0 <= m < |Visited(prog, start, 1)| ensures Visited(prog, start, 1)[m] == prog[start + 1 + m].kind {
      VisitedAt(prog, start, 1, m);
    }
  }

  /** A backward scan from an existing line visits the earlier lines in
      reverse order and then, through negative indices, the whole program
      from its last line down. */
  lemma VisitedBackward(prog: seq<Statement>, start: int)
    requires 0 <= start < |prog|
    ensures |Visited(prog, start, -1)| == start + |prog|
    ensures forall m :: 0 <= m < start ==> Visited(prog, start, -1)[m] == prog[start - 1 - m].kind
    ensures forall m :: start <= m < start + |prog| ==> Visited(prog, start, -1)[m] == prog[|prog| + start - 1 - m].kind
  {
    VisitedLength(prog, start, -1);
    forall m | 0 <= m < start + |prog| ensures Visited(prog, start, -1)[m] == PyIndex(prog, start - 1 - m).value.kind {
      VisitedAt(prog, start, -1, m);
      if start <= m {
        PyIndexWraps(prog, start - 1 - m);
      }
    }
  }

  /** Forward: the result is the first line after `start` that closes the
      block, which has an exit kind; with no such line the scan runs off the
      end. */
  lemma SkipBlockForward(start: int, prog: seq<Statement>, enterDels: set<Kind>, exitDels: set<Kind>)
    ensures match SkipBlock(start, prog, enterDels, exitDels, false)
            case Ok(r) =>
              start < r && KindAt(prog, r).Ok? && KindAt(prog, r).value in exitDels &&
              FirstClose(Visited(prog, start, 1), enterDels, exitDels, r - start - 1)
            case Err(e) =>
              e == IndexError &&
              forall m :: 0 <= m < |Visited(prog, start, 1)| ==> !ClosesAt(Visited(prog, start, 1), enterDels, exitDels, m)
    ensures forall n: nat :: FirstClose(Visited(prog, start, 1), enterDels, exitDels, n) ==>
              SkipBlock(start, prog, enterDels, exitDels, false) == Ok(start + n + 1)
  {
    var ks := Visited(prog, start, 1);
    ScanFirstClose(ks, enterDels, exitDels);
    match ScanFrom(ks, enterDels, exitDels, 0, 0)
    case Some(n) => VisitedAt(prog, start, 1, n);
    case None =>
  }

  /** Backward: the sets swap roles, so the result is the first line before
      `start` that opens the block, and it has an enter kind. */
  lemma SkipBlockBackward(start: int, prog: seq<Statement>, enterDels: set<Kind>, exitDels: set<Kind>)
    ensures match SkipBlock(start, prog, enterDels, exitDels, true)
            case Ok(r) =>
              r < start && KindAt(prog, r).Ok? && KindAt(prog, r).value in enterDels &&
              FirstClose(Visited(prog, start, -1), exitDels, enterDels, start - r - 1)
            case Err(e) =>
              e == IndexError &&
              forall m :: 0 <= m < |Visited(prog, start, -1)| ==> !ClosesAt(Visited(prog, start, -1), exitDels, enterDels, m)
    ensures forall n: nat :: FirstClose(Visited(prog, start, -1), exitDels, enterDels, n) ==>
              SkipBlock(start, prog, enterDels, exitDels, true) == Ok(start - n - 1)
  {
    var ks := Visited(prog, start, -1);
    ScanFirstClose(ks, exitDels, enterDels);
    match ScanFrom(ks, exitDels, enterDels, 0, 0)
    case Some(n) => VisitedAt(prog, start, -1, n);
    case None =>
  }

  /** Skipping forward from an opener to its closer and then back from the
      closer returns to the opener, when no kind both opens and closes. */
  lemma SkipBlockRoundTrip(i: int, prog: seq<Statement>, enterDels: set<Kind>, exitDels: set<Kind>)
    requires 0 <= i < |prog| && prog[i].kind in enterDels && enterDels !! exitDels
    requires SkipBlock(i, prog, enterDels, exitDels, false).Ok?
    ensures SkipBlock(SkipBlock(i, prog, enterDels, exitDels, false).value, prog, enterDels, exitDels, true) == Ok(i)
  {
    var r := SkipBlock(i, prog, enterDels, exitDels, false).value;
    SkipBlockForward(i, prog, enterDels, exitDels);
    var n := r - i - 1;
    var w := Visited(prog, i, 1);
    VisitedForward(prog, i);
    VisitedBackward(prog, r);
    var b := Visited(prog, r, -1);
    forall k | 0 <= k < n ensures b[k] == w[n - 1 - k] {
      assert b[k] == prog[r - 1 - k].kind;
    }
    assert b[n] == prog[i].kind;
    ReverseClose(w, b, enterDels, exitDels, n);
    SkipBlockBackward(r, prog, enterDels, exitDels);
  }
}
