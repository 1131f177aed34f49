// The Python string operations the interpreter is built from: `strip()`,
// `find()`, `split()`, `split("\n")`, `replace()` and `lower()`, each written
// out with the edge cases of CPython's `str` methods.

module Text {

  /** `str.isspace()` for one character: the ASCII whitespace and separator
      controls, NEL, NO-BREAK SPACE and the Unicode space separators. */
  predicate IsSpace(c: char)
  {
    c == ' ' || ('\U{9}' <= c <= '\U{D}') || ('\U{1C}' <= c <= '\U{1F}')
    || c == '\U{85}' || c == '\U{A0}' || c == '\U{1680}'
    || ('\U{2000}' <= c <= '\U{200A}') || c == '\U{2028}' || c == '\U{2029}'
    || c == '\U{202F}' || c == '\U{205F}' || c == '\U{3000}'
  }

  predicate AllSpace(s: string)
  {
    forall k :: 0 <= k < |s| ==> IsSpace(s[k])
  }

  predicate NoSpace(s: string)
  {
    forall k :: 0 <= k < |s| ==> !IsSpace(s[k])
  }

  /** A string with no whitespace at either end. */
  predicate Trimmed(s: string)
  {
    s == [] || (!IsSpace(s[0]) && !IsSpace(s[|s| - 1]))
  }

  /** Number of whitespace characters at the front of `s`. */
  function LeadingSpaces(s: string): (n: nat)
    ensures n <= |s|
  {
    if s != [] && IsSpace(s[0]) then LeadingSpaces(s[1..]) + 1 else 0
  }

  lemma {:induction false} LeadingSpacesSpec(s: string)
    ensures forall k :: 0 <= k < LeadingSpaces(s) ==> IsSpace(s[k])
    ensures LeadingSpaces(s) < |s| ==> !IsSpace(s[LeadingSpaces(s)])
  {
    if s != [] && IsSpace(s[0]) { LeadingSpacesSpec(s[1..]); }
  }

  /** Number of whitespace characters at the back of `s`. */
  function TrailingSpaces(s: string): (n: nat)
    ensures n <= |s|
  {
    if s != [] && IsSpace(s[|s| - 1]) then TrailingSpaces(s[..|s| - 1]) + 1 else 0
  }

  lemma {:induction false} TrailingSpacesSpec(s: string)
    ensures forall k :: |s| - TrailingSpaces(s) <= k < |s| ==> IsSpace(s[k])
    ensures TrailingSpaces(s) < |s| ==> !IsSpace(s[|s| - TrailingSpaces(s) - 1])
  {
    if s != [] && IsSpace(s[|s| - 1]) { TrailingSpacesSpec(s[..|s| - 1]); }
  }

  /** `s.strip()`: what is left after removing whitespace at both ends. */
  function Strip(s: string): (r: string)
    ensures |r| <= |s|
  {
    var t := s[LeadingSpaces(s)..];
    t[..|t| - TrailingSpaces(t)]
  }

  /** The stripped string has no whitespace at either end, and it is empty
      exactly when the string is all whitespace. */
  lemma StripSpec(s: string)
    ensures Trimmed(Strip(s))
    ensures Strip(s) == [] <==> AllSpace(s)
  {
    var a := LeadingSpaces(s);
    var t := s[a..];
    var r := Strip(s);
    LeadingSpacesSpec(s);
    TrailingSpacesSpec(t);
    if r == [] {
      assert a == |s|;
    }
  }

  /** `strip()` removes exactly the whitespace at the two ends: the result
      is a slice of the text with only whitespace before and after it. */
  lemma StripLayout(s: string)
    ensures exists i, j :: 0 <= i <= j <= |s| && Strip(s) == s[i..j] && AllSpace(s[..i]) && AllSpace(s[j..])
  {
    var a := LeadingSpaces(s);
    var t := s[a..];
    var b := a + |t| - TrailingSpaces(t);
    LeadingSpacesSpec(s);
    TrailingSpacesSpec(t);
    assert Strip(s) == s[a..b];
    assert AllSpace(s[..a]);
    assert AllSpace(s[b..]) by {
      forall k | 0 <= k < |s[b..]| ensures IsSpace(s[b..][k]) {
        assert s[b..][k] == t[b - a + k];
      }
    }
  }

  lemma StripIdempotent(s: string)
    ensures Strip(Strip(s)) == Strip(s)
  {
    var r := Strip(s);
    StripSpec(s);
    assert LeadingSpaces(r) == 0;
    assert r[0..] == r;
    assert TrailingSpaces(r) == 0;
  }

  /** Does `p` occur in `s` starting at index `i`? */
  predicate OccursAt(s: string, p: string, i: int)
  {
    0 <= i && i + |p| <= |s| && s[i..i + |p|] == p
  }

  /** The characters of `p` from index `j` on agree with those of `s` from
      index `i + j` on: the character-by-character comparison of a search. */
  predicate AgreesFrom(s: string, p: string, i: nat, j: nat)
    requires i + |p| <= |s| && j <= |p|
    decreases |p| - j
  {
    j == |p| || (s[i + j] == p[j] && AgreesFrom(s, p, i, j + 1))
  }

  lemma {:induction false} AgreesFromAll(s: string, p: string, i: nat, j: nat)
    requires i + |p| <= |s| && j <= |p|
    ensures AgreesFrom(s, p, i, j) <==> forall k :: j <= k < |p| ==> s[i + k] == p[k]
    decreases |p| - j
  {
    if j < |p| { AgreesFromAll(s, p, i, j + 1); }
  }

  lemma AgreesOccurs(s: string, p: string, i: nat)
    requires i + |p| <= |s|
    ensures AgreesFrom(s, p, i, 0) <==> OccursAt(s, p, i)
  {
    AgreesFromAll(s, p, i, 0);
    if AgreesFrom(s, p, i, 0) {
      assert s[i..i + |p|] == p;
    }
  }

  function FindFrom(s: string, p: string, i: nat): (r: int)
    requires i <= |s|
    ensures r == -1 || (i <= r && r + |p| <= |s|)
    decreases |s| - i
  {
    if i + |p| > |s| then -1
    else if AgreesFrom(s, p, i, 0) then i
    else FindFrom(s, p, i + 1)
  }

  lemma {:induction false} FindFromFirst(s: string, p: string, i: nat)
    requires i <= |s|
    ensures FindFrom(s, p, i) == -1 ==> forall k :: i <= k ==> !OccursAt(s, p, k)
    ensures FindFrom(s, p, i) != -1 ==> OccursAt(s, p, FindFrom(s, p, i))
    ensures forall k :: i <= k < FindFrom(s, p, i) ==> !OccursAt(s, p, k)
    decreases |s| - i
  {
    if i + |p| <= |s| {
      AgreesOccurs(s, p, i);
      if !AgreesFrom(s, p, i, 0) {
        FindFromFirst(s, p, i + 1);
      }
    }
  }

  /** `s.find(p)`: the lowest index at which `p` occurs, or -1 when it does not. */
  function Find(s: string, p: string): (r: int)
    ensures r == -1 || 0 <= r <= |s| - |p|
  {
    FindFrom(s, p, 0)
  }

  /** Find returns an occurrence, and no occurrence comes before it. */
  lemma FindFirst(s: string, p: string)
    ensures Find(s, p) == -1 <==> forall k :: !OccursAt(s, p, k)
    ensures Find(s, p) != -1 ==> OccursAt(s, p, Find(s, p))
    ensures forall k :: 0 <= k < Find(s, p) ==> !OccursAt(s, p, k)
  {
    FindFromFirst(s, p, 0);
  }

  /** Length of the run of non-whitespace characters at the front of `s`. */
  function TokenLength(s: string): (n: nat)
    ensures n <= |s|
  {
    if s == [] || IsSpace(s[0]) then 0 else TokenLength(s[1..]) + 1
  }

  lemma {:induction false} TokenLengthSpec(s: string)
    ensures NoSpace(s[..TokenLength(s)])
    ensures TokenLength(s) < |s| ==> IsSpace(s[TokenLength(s)])
  {
    if s != [] && !IsSpace(s[0]) {
      var n := TokenLength(s[1..]);
      TokenLengthSpec(s[1..]);
      assert s[..n + 1] == [s[0]] + s[1..][..n];
    }
  }

  /** `s.split()`: the maximal runs of non-whitespace characters, in order. */
  function Words(s: string): (r: seq<string>)
    decreases |s|
  {
    if s == [] then []
    else if IsSpace(s[0]) then Words(s[1..])
    else
      var n := TokenLength(s);
      [s[..n]] + Words(s[n..])
  }

  /** Every word is a non-empty run of non-whitespace characters. */
  lemma {:induction false} WordsSpec(s: string)
    ensures forall k :: 0 <= k < |Words(s)| ==> Words(s)[k] != [] && NoSpace(Words(s)[k])
    decreases |s|
  {
    if s != [] {
      if IsSpace(s[0]) {
        WordsSpec(s[1..]);
      } else {
        var n := TokenLength(s);
        TokenLengthSpec(s);
        WordsSpec(s[n..]);
      }
    }
  }

  /** `gaps[0] + words[0] + gaps[1] + ... + words[n - 1] + gaps[n]`. */
  function Interleave(gaps: seq<string>, words: seq<string>): (r: string)
    requires |gaps| == |words| + 1
  {
    if words == [] then gaps[0] else gaps[0] + words[0] + Interleave(gaps[1..], words[1..])
  }

  /** `s` is the words separated by the gaps: whitespace only, and non-empty
      between two words. */
  predicate SplitsInto(s: string, gaps: seq<string>, words: seq<string>)
  {
    |gaps| == |words| + 1 &&
    (forall k :: 0 <= k < |gaps| ==> AllSpace(gaps[k])) &&
    (forall k :: 0 < k < |words| ==> gaps[k] != []) &&
    s == Interleave(gaps, words)
  }

  /** A leading whitespace character joins the first gap. */
  lemma SpaceBefore(c: char, t: string, gaps: seq<string>, words: seq<string>)
    requires IsSpace(c) && SplitsInto(t, gaps, words)
    ensures SplitsInto([c] + t, [[c] + gaps[0]] + gaps[1..], words)
  {
    var gaps' := [[c] + gaps[0]] + gaps[1..];
    assert AllSpace(gaps'[0]) by {
      forall k | 0 <= k < |gaps'[0]| ensures IsSpace(gaps'[0][k]) {
        if k > 0 { assert gaps'[0][k] == gaps[0][k - 1]; }
      }
    }
    assert forall k :: 1 <= k < |gaps'| ==> gaps'[k] == gaps[k];
    assert gaps'[1..] == gaps[1..];
    if words == [] {
      assert Interleave(gaps', words) == [c] + gaps[0];
    } else {
      var rest := Interleave(gaps[1..], words[1..]);
      assert Interleave(gaps', words) == ([c] + gaps[0]) + words[0] + rest;
      assert Interleave(gaps, words) == gaps[0] + words[0] + rest;
    }
  }

  /** A word followed by text that is empty or starts with whitespace
      becomes the first word, with an empty gap before it. */
  lemma WordBefore(w: string, t: string, gaps: seq<string>, words: seq<string>)
    requires w != [] && NoSpace(w) && (t == [] || IsSpace(t[0])) && SplitsInto(t, gaps, words)
    requires forall k :: 0 <= k < |words| ==> words[k] != [] && NoSpace(words[k])
    ensures SplitsInto(w + t, [""] + gaps, [w] + words)
  {
    var gaps' := [""] + gaps;
    var words' := [w] + words;
    assert gaps'[1..] == gaps && words'[1..] == words;
    assert Interleave(gaps', words') == "" + w + Interleave(gaps, words);
    assert forall k :: 1 <= k < |gaps'| ==> gaps'[k] == gaps[k - 1];
    if words != [] && gaps[0] == [] {
      assert false;
    }
  }

  /** The words of `split()` are the maximal runs of non-whitespace
      characters of `s`, in order: the text is those words separated by
      whitespace only, with some whitespace between any two of them. */
  lemma {:induction false} WordsLayout(s: string)
    ensures exists gaps :: SplitsInto(s, gaps, Words(s))
    decreases |s|
  {
    if s == [] {
      assert Words(s) == [] && Interleave([""], []) == s;
      assert SplitsInto(s, [""], Words(s));
    } else if IsSpace(s[0]) {
      WordsLayout(s[1..]);
      var gaps :| SplitsInto(s[1..], gaps, Words(s[1..]));
      SpaceBefore(s[0], s[1..], gaps, Words(s[1..]));
      assert s == [s[0]] + s[1..];
      assert SplitsInto(s, [[s[0]] + gaps[0]] + gaps[1..], Words(s));
    } else {
      var n := TokenLength(s);
      TokenLengthSpec(s);
      WordsLayout(s[n..]);
      WordsSpec(s[n..]);
      var gaps :| SplitsInto(s[n..], gaps, Words(s[n..]));
      assert s[..n] != [] && s[..n][0] == s[0];
      WordBefore(s[..n], s[n..], gaps, Words(s[n..]));
      assert s == s[..n] + s[n..];
      assert SplitsInto(s, [""] + gaps, Words(s));
    }
  }

  /** Every token followed by one space, all run together. */
  function Spaced(tokens: seq<string>): (r: string)
    ensures |tokens| > 0 ==> r != [] && r[|r| - 1] == ' '
  {
    if tokens == [] then "" else tokens[0] + " " + Spaced(tokens[1..])
  }

  lemma TokenLengthOfWord(t: string, rest: string)
    requires NoSpace(t)
    ensures TokenLength(t + " " + rest) == |t|
    decreases |t|
  {
    if t != [] {
      assert (t + " " + rest)[1..] == t[1..] + " " + rest;
      TokenLengthOfWord(t[1..], rest);
    }
  }

  /** Splitting the spaced-out tokens gives the tokens back. */
  lemma {:induction false} WordsOfSpaced(tokens: seq<string>)
    requires forall k :: 0 <= k < |tokens| ==> tokens[k] != [] && NoSpace(tokens[k])
    ensures Words(Spaced(tokens)) == tokens
  {
    if tokens != [] {
      var t, rest := tokens[0], Spaced(tokens[1..]);
      var s := t + " " + rest;
      assert Spaced(tokens) == s;
      TokenLengthOfWord(t, rest);
      assert s[..|t|] == t;
      assert s[|t|..] == " " + rest;
      assert (" " + rest)[1..] == rest;
      WordsOfSpaced(tokens[1..]);
    }
  }

  /** `s.split(sep)` for a one-character separator: keeps empty pieces. */
  function SplitOn(s: string, sep: char): (r: seq<string>)
    ensures |r| >= 1
  {
    if s == [] then [""]
    else
      var rest := SplitOn(s[1..], sep);
      if s[0] == sep then [""] + rest else [[s[0]] + rest[0]] + rest[1..]
  }

  /** No piece contains the separator. */
  lemma {:induction false} SplitOnSpec(s: string, sep: char)
    ensures forall k :: 0 <= k < |SplitOn(s, sep)| ==> sep !in SplitOn(s, sep)[k]
  {
    if s != [] { SplitOnSpec(s[1..], sep); }
  }

  /** `sep.join(pieces)`. */
  function JoinWith(pieces: seq<string>, sep: char): string
  {
    if pieces == [] then ""
    else if |pieces| == 1 then pieces[0]
    else pieces[0] + [sep] + JoinWith(pieces[1..], sep)
  }

  /** Splitting and joining on the same separator gives the text back. */
  lemma {:induction false} SplitOnRoundTrip(s: string, sep: char)
    ensures JoinWith(SplitOn(s, sep), sep) == s
  {
    if s != [] {
      var rest := SplitOn(s[1..], sep);
      SplitOnRoundTrip(s[1..], sep);
      if s[0] != sep {
        if |rest| > 1 {
          assert JoinWith(rest, sep) == rest[0] + [sep] + JoinWith(rest[1..], sep);
        }
      }
    }
  }

  function Count(s: string, c: char): nat
  {
    if s == [] then 0 else (if s[0] == c then 1 else 0) + Count(s[1..], c)
  }

  /** `split(sep)` yields one more piece than there are separators. */
  lemma {:induction false} SplitOnCount(s: string, sep: char)
    ensures |SplitOn(s, sep)| == Count(s, sep) + 1
  {
    if s != [] { SplitOnCount(s[1..], sep); }
  }

  /** `s.replace(pat, rep)`: leftmost, non-overlapping occurrences, in one pass. */
  function ReplaceAll(s: string, pat: string, rep: string): string
    requires pat != []
    decreases |s|
  {
    if |s| < |pat| then s
    else if s[..|pat|] == pat then rep + ReplaceAll(s[|pat|..], pat, rep)
    else [s[0]] + ReplaceAll(s[1..], pat, rep)
  }

  /** Replacing one character is a character-by-character substitution. */
  function Substitute(s: string, c: char, rep: string): string
  {
    if s == [] then "" else (if s[0] == c then rep else [s[0]]) + Substitute(s[1..], c, rep)
  }

  lemma {:induction false} ReplaceCharIsSubstitute(s: string, c: char, rep: string)
    ensures ReplaceAll(s, [c], rep) == Substitute(s, c, rep)
  {
    if s != [] {
      assert s[..1] == [c] <==> s[0] == c;
      ReplaceCharIsSubstitute(s[1..], c, rep);
    }
  }

  lemma {:induction false} SubstituteRemoves(s: string, c: char, rep: string)
    requires c !in rep
    ensures c !in Substitute(s, c, rep)
  {
    if s != [] { SubstituteRemoves(s[1..], c, rep); }
  }

  function LowerChar(c: char): (r: char)
  {
    if 'A' <= c <= 'Z' then (c as int + 32) as char else c
  }

  /** `s.lower()` on the ASCII letters. */
  function Lower(s: string): (r: string)
    ensures |r| == |s|
  {
    seq(|s|, k requires 0 <= k < |s| => LowerChar(s[k]))
  }
}
