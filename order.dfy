// Python's ordering of strings (by code point, a proper prefix first) and
// `sorted` over a set of names, as `gen_trace_table` uses it for the column
// headers (backend.py:129).

module Order {

  /** `a < b` on Python strings. */
  predicate Below(a: string, b: string)
    decreases |a|
  {
    if a == [] then b != []
    else if b == [] then false
    else if a[0] != b[0] then a[0] < b[0]
    else Below(a[1..], b[1..])
  }

  lemma {:induction false} BelowIrreflexive(a: string)
    ensures !Below(a, a)
    decreases |a|
  {
    if a != [] {
      BelowIrreflexive(a[1..]);
    }
  }

  lemma {:induction false} BelowAsymmetric(a: string, b: string)
    requires Below(a, b)
    ensures !Below(b, a)
    decreases |a|
  {
    if a != [] && b != [] && a[0] == b[0] {
      BelowAsymmetric(a[1..], b[1..]);
    }
  }

  lemma {:induction false} BelowTransitive(a: string, b: string, c: string)
    requires Below(a, b) && Below(b, c)
    ensures Below(a, c)
    decreases |a|
  {
    if a != [] && a[0] == b[0] && b[0] == c[0] {
      BelowTransitive(a[1..], b[1..], c[1..]);
    }
  }

  /** Any two different strings are ordered one way or the other. */
  lemma {:induction false} BelowTotal(a: string, b: string)
    requires a != b
    ensures Below(a, b) || Below(b, a)
    decreases |a|
  {
    if a != [] && b != [] && a[0] == b[0] {
      assert a == [a[0]] + a[1..] && b == [b[0]] + b[1..];
      BelowTotal(a[1..], b[1..]);
    }
  }

  ghost predicate IsSmallest(m: string, s: set<string>)
  {
    m in s && forall x | x in s && x != m :: Below(m, x)
  }

  lemma {:induction false} SmallestExists(s: set<string>)
    requires s != {}
    ensures exists m :: IsSmallest(m, s)
    decreases |s|
  {
    var y :| y in s;
    if s - {y} == {} {
      assert s == {y};
      assert IsSmallest(y, s);
    } else {
      SmallestExists(s - {y});
      var m :| IsSmallest(m, s - {y});
      if Below(y, m) {
        forall x | x in s && x != y ensures Below(y, x) {
          if x != m {
            BelowTransitive(y, m, x);
          }
        }
        assert IsSmallest(y, s);
      } else {
        BelowTotal(y, m);
        assert IsSmallest(m, s);
      }
    }
  }

  ghost function Smallest(s: set<string>): (m: string)
    requires s != {}
    ensures IsSmallest(m, s)
  {
    SmallestExists(s);
    var m :| IsSmallest(m, s); m
  }

  /** `sorted(s)`: the names of `s` in increasing order. */
  ghost function SortedNames(s: set<string>): seq<string>
    decreases |s|
  {
    if s == {} then [] else var m := Smallest(s); [m] + SortedNames(s - {m})
  }

  ghost predicate Increasing(r: seq<string>)
  {
    forall i, j | 0 <= i < j < |r| :: Below(r[i], r[j])
  }

  /** The result lists every name of the set exactly once, in increasing
      order. */
  lemma {:induction false} SortedNamesSpec(s: set<string>)
    ensures |SortedNames(s)| == |s|
    ensures forall x :: x in SortedNames(s) <==> x in s
    ensures Increasing(SortedNames(s))
    decreases |s|
  {
    if s != {} {
      var m := Smallest(s);
      var rest := SortedNames(s - {m});
      SortedNamesSpec(s - {m});
      var r := SortedNames(s);
      assert r == [m] + rest;
      forall i, j | 0 <= i < j < |r| ensures Below(r[i], r[j]) {
        var b := r[j];
        assert b == rest[j - 1] && b in rest;
        if i > 0 {
          assert r[i] == rest[i - 1];
        }
      }
    }
  }

  /** Strictly increasing sequences have no repeated names. */
  lemma IncreasingDistinct(r: seq<string>, i: nat, j: nat)
    requires Increasing(r) && i < |r| && j < |r| && i != j
    ensures r[i] != r[j]
  {
    if i < j {
      BelowIrreflexive(r[i]);
    } else {
      BelowIrreflexive(r[j]);
    }
  }
}
