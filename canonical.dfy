// The string-rewriting front half of `expression_evaluate` (backend.py):
// operator spellings of the pseudocode are rewritten to Python's, parentheses
// are padded with spaces, and the text is re-assembled token by token with the
// boolean words in Python's spelling. What is handed to the host evaluator is
// the result.

module Expressions {
  import opened Text

  /** The replace chain, applied in this order. */
  function Prepare(e: string): string
  {
    var e1 := ReplaceAll(e, "^", "**");
    var e2 := ReplaceAll(e1, "=", "==");
    var e3 := ReplaceAll(e2, ">==", ">=");
    var e4 := ReplaceAll(e3, "<==", "<=");
    var e5 := ReplaceAll(e4, "!==", "!=");
    var e6 := ReplaceAll(e5, "(", " ( ");
    ReplaceAll(e6, ")", " ) ")
  }

  /** The boolean words, keyed by their lower-case form. */
  const CanonicalForms: map<string, string> :=
    map["false" := "False", "true" := "True", "and" := "and", "or" := "or", "not" := "not"]

  /** One token: a boolean word in any letter case gets its canonical spelling,
      every other token is left alone. */
  function CanonToken(t: string): string
  {
    if Lower(t) in CanonicalForms then CanonicalForms[Lower(t)] else t
  }

  function CanonTokens(ts: seq<string>): (r: seq<string>)
    ensures |r| == |ts|
  {
    if ts == [] then [] else [CanonToken(ts[0])] + CanonTokens(ts[1..])
  }

  /** What `expression_evaluate` passes to `eval`: the prepared text split on
      whitespace, each token canonicalised and followed by one space. */
  function Canonical(e: string): string
  {
    Spaced(CanonTokens(Words(Prepare(e))))
  }

  // ----- Tokens -----

  /** A token is replaced exactly when its lower-case form is a boolean word,
      and then by that word's canonical spelling. */
  lemma CanonTokenSpec(t: string)
    ensures Lower(t) in CanonicalForms ==> CanonToken(t) == CanonicalForms[Lower(t)]
    ensures Lower(t) !in CanonicalForms ==> CanonToken(t) == t
    ensures Lower(CanonToken(t)) == Lower(t)
  {
    if Lower(t) in CanonicalForms {
      var l := Lower(t);
      var c := CanonToken(t);
      assert |c| == |l|;
      forall k | 0 <= k < |l| ensures Lower(c)[k] == l[k] {
        if l == "false" { assert c == "False"; }
        else if l == "true" { assert c == "True"; }
      }
    }
  }

  /** Canonical spellings are fixed points. */
  lemma CanonTokenIdempotent(t: string)
    ensures CanonToken(CanonToken(t)) == CanonToken(t)
  {
    CanonTokenSpec(t);
    CanonTokenSpec(CanonToken(t));
  }

  lemma CanonTokenWord(t: string)
    requires t != [] && NoSpace(t)
    ensures CanonToken(t) != [] && NoSpace(CanonToken(t))
  {
  }

  lemma {:induction false} CanonTokensAt(ts: seq<string>, k: nat)
    requires k < |ts|
    ensures CanonTokens(ts)[k] == CanonToken(ts[k])
  {
    if k > 0 { CanonTokensAt(ts[1..], k - 1); }
  }

  lemma {:induction false} CanonTokensIdempotent(ts: seq<string>)
    ensures CanonTokens(CanonTokens(ts)) == CanonTokens(ts)
  {
    if ts != [] {
      CanonTokenIdempotent(ts[0]);
      CanonTokensIdempotent(ts[1..]);
    }
  }

  /** Splitting the evaluated text on whitespace gives back exactly the
      canonicalised tokens of the prepared expression. */
  lemma CanonicalWords(e: string)
    ensures Words(Canonical(e)) == CanonTokens(Words(Prepare(e)))
  {
    var ws := Words(Prepare(e));
    var cs := CanonTokens(ws);
    WordsSpec(Prepare(e));
    forall k | 0 <= k < |cs| ensures cs[k] != [] && NoSpace(cs[k]) {
      CanonTokensAt(ws, k);
      CanonTokenWord(ws[k]);
    }
    WordsOfSpaced(cs);
  }

  /** Running the token stage once more over the evaluated text changes
      nothing. */
  lemma CanonicalTokenStageIdempotent(e: string)
    ensures Spaced(CanonTokens(Words(Canonical(e)))) == Canonical(e)
  {
    CanonicalWords(e);
    CanonTokensIdempotent(Words(Prepare(e)));
  }

  // ----- The replace chain -----

  /** A replacement never introduces a character that neither the text nor
      the replacement contains. */
  lemma {:induction false} ReplaceAllKeepsOut(s: string, pat: string, rep: string, c: char)
    requires pat != [] && c !in s && c !in rep
    ensures c !in ReplaceAll(s, pat, rep)
    decreases |s|
  {
    if |s| >= |pat| {
      if s[..|pat|] == pat {
        assert forall k :: 0 <= k < |s| - |pat| ==> s[|pat|..][k] == s[k + |pat|];
        ReplaceAllKeepsOut(s[|pat|..], pat, rep, c);
      } else {
        ReplaceAllKeepsOut(s[1..], pat, rep, c);
      }
    }
  }

  /** Every `^` is gone: the power operator reaches the evaluator as `**`. */
  lemma PrepareRemovesCaret(e: string)
    ensures '^' !in Prepare(e)
  {
    var e1 := ReplaceAll(e, "^", "**");
    ReplaceCharIsSubstitute(e, '^', "**");
    SubstituteRemoves(e, '^', "**");
    var e2 := ReplaceAll(e1, "=", "==");
    ReplaceAllKeepsOut(e1, "=", "==", '^');
    var e3 := ReplaceAll(e2, ">==", ">=");
    ReplaceAllKeepsOut(e2, ">==", ">=", '^');
    var e4 := ReplaceAll(e3, "<==", "<=");
    ReplaceAllKeepsOut(e3, "<==", "<=", '^');
    var e5 := ReplaceAll(e4, "!==", "!=");
    ReplaceAllKeepsOut(e4, "!==", "!=", '^');
    var e6 := ReplaceAll(e5, "(", " ( ");
    ReplaceAllKeepsOut(e5, "(", " ( ", '^');
    ReplaceAllKeepsOut(e6, ")", " ) ", '^');
  }

  // ----- Parentheses become tokens of their own -----

  /** Every occurrence of `c` in `s` has whitespace (or an end of `s`) on both
      sides. */
  predicate Isolated(s: string, c: char)
  {
    forall k :: 0 <= k < |s| && s[k] == c ==>
      (k == 0 || IsSpace(s[k - 1])) && (k == |s| - 1 || IsSpace(s[k + 1]))
  }

  lemma IsolatedConcat(a: string, b: string, c: char)
    requires Isolated(a, c) && Isolated(b, c)
    requires a != [] && b != [] && a[|a| - 1] == c ==> IsSpace(b[0])
    requires a != [] && b != [] && b[0] == c ==> IsSpace(a[|a| - 1])
    ensures Isolated(a + b, c)
  {
    var s := a + b;
    forall k | 0 <= k < |s| && s[k] == c
      ensures (k == 0 || IsSpace(s[k - 1])) && (k == |s| - 1 || IsSpace(s[k + 1]))
    {
      if k < |a| {
        assert a[k] == c;
        if k > 0 { assert s[k - 1] == a[k - 1]; }
        if k + 1 < |a| { assert s[k + 1] == a[k + 1]; }
        else if k + 1 < |s| { assert s[k + 1] == b[0]; }
      } else {
        assert b[k - |a|] == c;
        if k > |a| { assert s[k - 1] == b[k - |a| - 1]; }
        else if k > 0 { assert s[k - 1] == a[|a| - 1]; }
        if k + 1 < |s| { assert s[k + 1] == b[k + 1 - |a|]; }
      }
    }
  }

  /** The padded piece that replaces one character. */
  function Pad(c: char): string
  {
    [' ', c, ' ']
  }

  lemma SubstituteFirst(s: string, d: char, rep: string)
    requires s != [] && (s[0] == d ==> rep != [])
    ensures Substitute(s, d, rep) != []
    ensures Substitute(s, d, rep)[0] == if s[0] == d then rep[0] else s[0]
  {
  }

  /** Padding every `c` isolates it. */
  lemma {:induction false} SubstituteIsolates(s: string, c: char)
    requires !IsSpace(c)
    ensures Isolated(Substitute(s, c, Pad(c)), c)
  {
    if s != [] {
      var rest := Substitute(s[1..], c, Pad(c));
      SubstituteIsolates(s[1..], c);
      if |s| > 1 { SubstituteFirst(s[1..], c, Pad(c)); }
      var head := if s[0] == c then Pad(c) else [s[0]];
      IsolatedConcat(head, rest, c);
    }
  }

  /** Padding another character `d` keeps `c` isolated. */
  lemma {:induction false} SubstituteKeepsIsolated(s: string, c: char, d: char)
    requires !IsSpace(c) && !IsSpace(d) && c != d
    requires Isolated(s, c)
    ensures Isolated(Substitute(s, d, Pad(d)), c)
  {
    if s != [] {
      var rest := Substitute(s[1..], d, Pad(d));
      assert Isolated(s[1..], c) by {
        forall k | 0 <= k < |s| - 1 && s[1..][k] == c
          ensures (k == 0 || IsSpace(s[1..][k - 1])) && (k == |s| - 2 || IsSpace(s[1..][k + 1]))
        {
          assert s[k + 1] == c;
        }
      }
      SubstituteKeepsIsolated(s[1..], c, d);
      if |s| > 1 { SubstituteFirst(s[1..], d, Pad(d)); }
      var head := if s[0] == d then Pad(d) else [s[0]];
      if s[0] == c && |s| > 1 {
        assert IsSpace(s[1]);
      }
      IsolatedConcat(head, rest, c);
    }
  }

  /** After the replace chain, both parentheses are isolated. */
  lemma PrepareIsolatesParens(e: string)
    ensures Isolated(Prepare(e), '(') && Isolated(Prepare(e), ')')
  {
    var e1 := ReplaceAll(e, "^", "**");
    var e2 := ReplaceAll(e1, "=", "==");
    var e3 := ReplaceAll(e2, ">==", ">=");
    var e4 := ReplaceAll(e3, "<==", "<=");
    var e5 := ReplaceAll(e4, "!==", "!=");
    var e6 := ReplaceAll(e5, "(", " ( ");
    ReplaceCharIsSubstitute(e5, '(', " ( ");
    SubstituteIsolates(e5, '(');
    ReplaceCharIsSubstitute(e6, ')', " ) ");
    SubstituteIsolates(e6, ')');
    SubstituteKeepsIsolated(e6, '(', ')');
  }

  /** In a text where `c` is isolated, every word that contains `c` is `c`
      alone. */
  lemma {:induction false} IsolatedWords(s: string, c: char)
    requires !IsSpace(c) && Isolated(s, c)
    ensures forall k :: 0 <= k < |Words(s)| && c in Words(s)[k] ==> Words(s)[k] == [c]
    decreases |s|
  {
    if s != [] {
      var n := TokenLength(s);
      var rest := if IsSpace(s[0]) then s[1..] else s[n..];
      var d := |s| - |rest|;
      assert rest == s[d..];
      assert Isolated(rest, c) by {
        forall k | 0 <= k < |rest| && rest[k] == c
          ensures (k == 0 || IsSpace(rest[k - 1])) && (k == |rest| - 1 || IsSpace(rest[k + 1]))
        {
          assert s[k + d] == c;
        }
      }
      IsolatedWords(rest, c);
      if !IsSpace(s[0]) {
        TokenLengthSpec(s);
        var t := s[..n];
        if c in t {
          var j :| 0 <= j < |t| && t[j] == c;
          IsolatedInWord(s, c, n, j);
          assert t == [c];
        }
        assert Words(s) == [t] + Words(rest);
      }
    }
  }

  /** An isolated character inside a run of non-whitespace is the whole run. */
  lemma IsolatedInWord(s: string, c: char, n: nat, j: nat)
    requires n <= |s| && NoSpace(s[..n]) && Isolated(s, c)
    requires j < n && s[j] == c
    ensures j == 0 && n == 1
  {
    var before, after := if j > 0 then j - 1 else j, if j + 1 < n then j + 1 else j;
    assert s[..n][before] == s[before] && s[..n][after] == s[after];
  }

  /** Parentheses reach the evaluator as tokens of their own. */
  lemma ParensAreTokens(e: string)
    ensures forall k :: 0 <= k < |Words(Prepare(e))| && '(' in Words(Prepare(e))[k] ==> Words(Prepare(e))[k] == "("
    ensures forall k :: 0 <= k < |Words(Prepare(e))| && ')' in Words(Prepare(e))[k] ==> Words(Prepare(e))[k] == ")"
  {
    PrepareIsolatesParens(e);
    IsolatedWords(Prepare(e), '(');
    IsolatedWords(Prepare(e), ')');
  }

  // ----- The loop that builds the text -----

  lemma {:induction false} SpacedSnoc(ts: seq<string>, t: string)
    ensures Spaced(ts + [t]) == Spaced(ts) + t + " "
  {
    if ts == [] {
      assert [t][1..] == [];
    } else {
      assert (ts + [t])[1..] == ts[1..] + [t];
      SpacedSnoc(ts[1..], t);
    }
  }

  lemma {:induction false} CanonTokensSnoc(ts: seq<string>, t: string)
    ensures CanonTokens(ts + [t]) == CanonTokens(ts) + [CanonToken(t)]
  {
    if ts == [] {
      assert [t][1..] == [];
    } else {
      assert (ts + [t])[1..] == ts[1..] + [t];
      CanonTokensSnoc(ts[1..], t);
    }
  }

  /** The loop of `expression_evaluate`: each whitespace-separated part,
      canonicalised when it is a boolean word, is appended with a space. */
  method Canonicalise(expression: string) returns (processed: string)
    ensures processed == Canonical(expression)
  {
    var parts := Words(Prepare(expression));
    processed := "";
    for k := 0 to |parts|
      invariant processed == Spaced(CanonTokens(parts[..k]))
    {
      var part := parts[k];
      if Lower(part) in CanonicalForms {
        part := CanonicalForms[Lower(part)];
      }
      assert parts[..k + 1] == parts[..k] + [parts[k]];
      CanonTokensSnoc(parts[..k], parts[k]);
      SpacedSnoc(CanonTokens(parts[..k]), part);
      processed := processed + part + " ";
    }
    assert parts[..|parts|] == parts;
  }
}
