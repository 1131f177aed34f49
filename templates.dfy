// The template matcher: turns one source line into a statement kind and the
// expressions captured between its keywords (backend.py, `syntax`, `match`,
// `parse_code`).

module Templates {
  import opened Values
  import opened Text

  datatype Kind =
    | StartWhile | SetVar | Display | If | Else | EndIf
    | EndWhile | StartFor | EndFor | ForEach | Blank

  /** One element of a template: a literal keyword or an expression slot. */
  datatype Part = Keyword(word: string) | Slot

  datatype Template = Template(kind: Kind, parts: seq<Part>)

  /** A classified line: its kind and the expressions captured from it. */
  datatype Statement = Statement(kind: Kind, exprs: seq<string>)

  /** The templates, in the order in which they are tried. */
  const Syntax: seq<Template> := [
    Template(StartWhile, [Keyword("WHILE"), Slot, Keyword("DO")]),
    Template(SetVar, [Keyword("SET"), Slot, Keyword("TO"), Slot]),
    Template(Display, [Keyword("SEND"), Slot, Keyword("TO DISPLAY")]),
    Template(If, [Keyword("IF"), Slot, Keyword("THEN")]),
    Template(Else, [Keyword("ELSE")]),
    Template(EndIf, [Keyword("END IF")]),
    Template(EndWhile, [Keyword("END WHILE")]),
    Template(StartFor, [Keyword("FOR"), Slot, Keyword("FROM"), Slot, Keyword("TO"), Slot]),
    Template(EndFor, [Keyword("END FOR")]),
    Template(ForEach, [Keyword("FOR EACH"), Slot, Keyword("FROM"), Slot])
  ]

  /** Position of a kind's template in `Syntax`. */
  function Rank(k: Kind): (r: nat)
    requires k != Blank
    ensures r < |Syntax| && Syntax[r].kind == k
  {
    match k
    case StartWhile => 0
    case SetVar => 1
    case Display => 2
    case If => 3
    case Else => 4
    case EndIf => 5
    case EndWhile => 6
    case StartFor => 7
    case EndFor => 8
    case ForEach => 9
  }

  /** The literal keywords of `parts[i..]`, in order; slots contribute nothing. */
  function Keywords(parts: seq<Part>, i: nat): (r: seq<string>)
    requires i <= |parts|
    ensures |r| <= |parts| - i
    decreases |parts| - i
  {
    if i == |parts| then []
    else if parts[i].Keyword? then [parts[i].word] + Keywords(parts, i + 1)
    else Keywords(parts, i + 1)
  }

  /** What a captured expression looks like: non-empty, no surrounding blanks. */
  predicate Captured(c: string)
  {
    c != [] && Trimmed(c)
  }

  predicate AllCaptured(xs: seq<string>)
  {
    forall k :: 0 <= k < |xs| ==> Captured(xs[k])
  }

  lemma AllCapturedAppend(a: seq<string>, b: seq<string>)
    requires AllCaptured(a) && AllCaptured(b)
    ensures AllCaptured(a + b)
  {
    forall k | 0 <= k < |a + b| ensures Captured((a + b)[k]) {
      if k < |a| { assert (a + b)[k] == a[k]; } else { assert (a + b)[k] == b[k - |a|]; }
    }
  }

  /** A piece of text contributes its stripped form, unless that is empty. */
  function NonBlank(text: string): (r: seq<string>)
    ensures |r| <= 1
  {
    var t := Strip(text);
    if t == [] then [] else [t]
  }

  lemma NonBlankCaptured(text: string)
    ensures AllCaptured(NonBlank(text))
    ensures NonBlank(text) == [] <==> AllSpace(text)
  {
    StripSpec(text);
  }

  lemma AppendAssoc<T>(a: seq<T>, b: seq<T>, c: seq<T>)
    ensures (a + b) + c == a + (b + c)
  {
  }

  lemma AppendNil<T>(a: seq<T>)
    ensures a + [] == a
  {
  }

  lemma ConsParts<T>(x: T, xs: seq<T>)
    ensures ([x] + xs)[0] == x && ([x] + xs)[1..] == xs
  {
  }

  /** Appending a gap's contribution is the conditional append `match` does. */
  lemma NonBlankAppend(exprs: seq<string>, text: string)
    ensures exprs + NonBlank(text) == if Strip(text) != [] then exprs + [Strip(text)] else exprs
  {
    if Strip(text) == [] { AppendNil(exprs); }
  }

  /** The inner loop of `match` over one template's parts, as a function:
      `rest` is what is left of the line after the keywords found so far
      (`line[pos:]`), `i` is the next part and `exprs` holds the captures so
      far. Each keyword is searched for as a substring of `rest`; a missing
      keyword fails the template, and the text before a keyword, stripped, is
      captured unless blank. */
  function MatchFrom(rest: string, parts: seq<Part>, i: nat, exprs: seq<string>): Option<seq<string>>
    requires i <= |parts|
    decreases |parts| - i
  {
    if i == |parts| then Some(exprs + NonBlank(rest))
    else if parts[i].Slot? then MatchFrom(rest, parts, i + 1, exprs)
    else
      var loc := Find(rest, parts[i].word);
      if loc == -1 then None
      else MatchFrom(rest[loc + |parts[i].word|..], parts, i + 1, exprs + NonBlank(rest[..loc]))
  }

  /** One keyword step of the inner loop: the keyword is found `loc`
      characters into what is left of the line, matching resumes just after
      it, and the gap before it is captured unless blank. */
  lemma KeywordStep(rest: string, parts: seq<Part>, i: nat, exprs: seq<string>, loc: int)
    requires i < |parts| && parts[i].Keyword?
    requires loc == Find(rest, parts[i].word) && loc != -1
    ensures MatchFrom(rest, parts, i, exprs)
      == MatchFrom(rest[loc + |parts[i].word|..], parts, i + 1,
                   if Strip(rest[..loc]) != [] then exprs + [Strip(rest[..loc])] else exprs)
  {
    KeywordUnfold(rest, parts, i, exprs, loc);
    NonBlankAppend(exprs, rest[..loc]);
  }

  lemma KeywordUnfold(rest: string, parts: seq<Part>, i: nat, exprs: seq<string>, loc: int)
    requires i < |parts| && parts[i].Keyword?
    requires loc == Find(rest, parts[i].word) && loc != -1
    ensures MatchFrom(rest, parts, i, exprs)
      == MatchFrom(rest[loc + |parts[i].word|..], parts, i + 1, exprs + NonBlank(rest[..loc]))
  {
  }

  /** What template `parts` yields for a whole (stripped) line. */
  function MatchParts(line: string, parts: seq<Part>): Option<seq<string>>
  {
    MatchFrom(line, parts, 0, [])
  }

  /** Every capture is non-empty and stripped, and a template yields at most
      one more capture than it has keywords. */
  lemma {:induction false} MatchFromCaptured(rest: string, parts: seq<Part>, i: nat, exprs: seq<string>)
    requires i <= |parts|
    requires AllCaptured(exprs)
    requires MatchFrom(rest, parts, i, exprs).Some?
    ensures var r := MatchFrom(rest, parts, i, exprs).value;
      |r| <= |exprs| + |Keywords(parts, i)| + 1 && AllCaptured(r)
    decreases |parts| - i
  {
    if i == |parts| {
      NonBlankCaptured(rest);
      AllCapturedAppend(exprs, NonBlank(rest));
    } else if parts[i].Slot? {
      MatchFromCaptured(rest, parts, i + 1, exprs);
    } else {
      var loc := Find(rest, parts[i].word);
      KeywordUnfold(rest, parts, i, exprs, loc);
      NonBlankCaptured(rest[..loc]);
      AllCapturedAppend(exprs, NonBlank(rest[..loc]));
      MatchFromCaptured(rest[loc + |parts[i].word|..], parts, i + 1, exprs + NonBlank(rest[..loc]));
    }
  }

  /** Index of the first of `templates`, from `t` on, that matches `line`;
      `|templates|` when none does. */
  function FirstMatch(line: string, templates: seq<Template>, t: nat): (i: nat)
    requires t <= |templates|
    ensures t <= i <= |templates|
    ensures i < |templates| ==> MatchParts(line, templates[i].parts).Some?
    ensures forall u :: t <= u < i ==> MatchParts(line, templates[u].parts).None?
    decreases |templates| - t
  {
    if t == |templates| then t
    else if MatchParts(line, templates[t].parts).Some? then t
    else FirstMatch(line, templates, t + 1)
  }

  /** `match(line)`: the kind of the first template whose keywords are all
      found in the stripped line, with its captures; `blank` with none when no
      template matches. */
  function Classify(line: string): Statement
  {
    var l := Strip(line);
    var i := FirstMatch(l, Syntax, 0);
    if i == |Syntax| then Statement(Blank, [])
    else Statement(Syntax[i].kind, MatchParts(l, Syntax[i].parts).value)
  }

  lemma RankOfSyntax(i: nat)
    requires i < |Syntax|
    ensures Syntax[i].kind != Blank && Rank(Syntax[i].kind) == i
  {
  }

  /** The kind of a line is that of the first template that matches it, and
      its expressions are what that template captures. */
  lemma ClassifyFirst(line: string)
    ensures var st, l := Classify(line), Strip(line);
      (st.kind == Blank <==> forall u :: 0 <= u < |Syntax| ==> MatchParts(l, Syntax[u].parts).None?)
      && (st.kind == Blank ==> st.exprs == [])
      && (st.kind != Blank ==>
            MatchParts(l, Syntax[Rank(st.kind)].parts) == Some(st.exprs)
            && forall u :: 0 <= u < Rank(st.kind) ==> MatchParts(l, Syntax[u].parts).None?)
  {
    var l := Strip(line);
    var i := FirstMatch(l, Syntax, 0);
    if i < |Syntax| {
      RankOfSyntax(i);
    }
  }

  /** Every expression a line yields is non-empty and has no surrounding blanks,
      and a template yields at most one more expression than it has keywords. */
  lemma ClassifyCaptures(line: string)
    ensures var st := Classify(line);
      AllCaptured(st.exprs)
      && (st.kind != Blank ==> |st.exprs| <= |Keywords(Syntax[Rank(st.kind)].parts, 0)| + 1)
  {
    var l := Strip(line);
    var i := FirstMatch(l, Syntax, 0);
    if i < |Syntax| {
      RankOfSyntax(i);
      MatchFromCaptured(l, Syntax[i].parts, 0, []);
    }
  }

  /** The inner loop of `match`: walks one template's parts, advancing `pos`
      past each keyword found in what is left of the line. */
  method MatchTemplate(l: string, parts: seq<Part>) returns (r: Option<seq<string>>)
    ensures r == MatchParts(l, parts)
  {
    var pos := 0;
    var exprs: seq<string> := [];
    assert l[0..] == l;
    for i := 0 to |parts|
      invariant pos <= |l|
      invariant MatchParts(l, parts) == MatchFrom(l[pos..], parts, i, exprs)
    {
      if parts[i].Keyword? {
        var rest := l[pos..];
        var loc := Find(rest, parts[i].word);
        if loc == -1 {
          return None;
        }
        KeywordStep(rest, parts, i, exprs, loc);
        var gap := Strip(rest[..loc]);
        if gap != [] {
          exprs := exprs + [gap];
        }
        ghost var after := rest[loc + |parts[i].word|..];
        pos := pos + (loc + |parts[i].word|);
        assert after == l[pos..];
      } else {
        assert MatchFrom(l[pos..], parts, i, exprs) == MatchFrom(l[pos..], parts, i + 1, exprs);
      }
    }
    NonBlankAppend(exprs, l[pos..]);
    var tail := Strip(l[pos..]);
    if tail != [] {
      exprs := exprs + [tail];
    }
    return Some(exprs);
  }

  /** `match` itself: tries the templates in order. */
  method Match(line: string) returns (st: Statement)
    ensures st == Classify(line)
  {
    var l := Strip(line);
    var t := 0;
    while t < |Syntax|
      invariant 0 <= t <= |Syntax|
      invariant FirstMatch(l, Syntax, 0) == FirstMatch(l, Syntax, t)
    {
      var r := MatchTemplate(l, Syntax[t].parts);
      if r.Some? {
        return Statement(Syntax[t].kind, r.value);
      }
      t := t + 1;
    }
    return Statement(Blank, []);
  }

  // ----- The captures are the blanks between keywords -----

  /** The text `gaps[0] kws[0] gaps[1] ... kws[n-1] gaps[n]`. */
  function Interleave(gaps: seq<string>, kws: seq<string>): string
    requires |gaps| == |kws| + 1
  {
    if kws == [] then gaps[0] else gaps[0] + kws[0] + Interleave(gaps[1..], kws[1..])
  }

  /** `kw` does not start anywhere inside `gap`: the occurrence right after the
      gap is the first one. */
  predicate Leftmost(gap: string, kw: string)
  {
    forall k :: 0 <= k < |gap| ==> !OccursAt(gap + kw, kw, k)
  }

  /** `line` consists of the keywords `kws`, each at its first occurrence
      after the previous one, separated by the pieces `gaps`. */
  predicate Layout(line: string, kws: seq<string>, gaps: seq<string>)
  {
    |gaps| == |kws| + 1
    && Interleave(gaps, kws) == line
    && forall i :: 0 <= i < |kws| ==> Leftmost(gaps[i], kws[i])
  }

  /** The non-blank gaps, stripped, from left to right. */
  function Captures(gaps: seq<string>): seq<string>
  {
    if gaps == [] then [] else NonBlank(gaps[0]) + Captures(gaps[1..])
  }

  lemma CapturesCons(gap: string, more: seq<string>)
    ensures Captures([gap] + more) == NonBlank(gap) + Captures(more)
  {
    assert ([gap] + more)[1..] == more;
  }

  lemma FindAfterGap(gap: string, kw: string, tail: string)
    requires Leftmost(gap, kw)
    ensures Find(gap + kw + tail, kw) == |gap|
  {
    var s := gap + kw + tail;
    FindFirst(s, kw);
    assert s[|gap|..|gap| + |kw|] == kw;
    assert OccursAt(s, kw, |gap|);
    forall k | 0 <= k < |gap| ensures !OccursAt(s, kw, k) {
      if OccursAt(s, kw, k) {
        assert (gap + kw)[k..k + |kw|] == s[k..k + |kw|];
        assert OccursAt(gap + kw, kw, k);
      }
    }
  }

  lemma LeftmostOfFind(rest: string, kw: string, loc: int)
    requires loc == Find(rest, kw) && loc != -1
    ensures Leftmost(rest[..loc], kw)
    ensures rest == rest[..loc] + kw + rest[loc + |kw|..]
  {
    var gap := rest[..loc];
    FindFirst(rest, kw);
    assert gap + kw == rest[..loc + |kw|];
    forall k | 0 <= k < |gap| ensures !OccursAt(gap + kw, kw, k) {
      assert rest[k..k + |kw|] == (gap + kw)[k..k + |kw|];
      assert 0 <= k < Find(rest, kw);
      assert !OccursAt(rest, kw, k);
    }
  }

  /** A first occurrence of a keyword extends a layout of what follows it. */
  lemma LayoutCons(rest: string, word: string, loc: int, kws: seq<string>, more: seq<string>)
    requires loc == Find(rest, word) && loc != -1
    requires Layout(rest[loc + |word|..], kws, more)
    ensures Layout(rest, [word] + kws, [rest[..loc]] + more)
  {
    LeftmostOfFind(rest, word, loc);
    var gaps, all := [rest[..loc]] + more, [word] + kws;
    ConsParts(rest[..loc], more);
    ConsParts(word, kws);
    assert Interleave(gaps, all) == rest[..loc] + word + Interleave(more, kws);
    forall i | 0 <= i < |all| ensures Leftmost(gaps[i], all[i]) {
      if i > 0 { assert gaps[i] == more[i - 1] && all[i] == kws[i - 1]; }
    }
  }

  /** A layout starting with a keyword: the keyword is found right after the
      first gap, and the rest is a layout of what follows it. */
  lemma LayoutUncons(rest: string, kws: seq<string>, gaps: seq<string>)
    requires Layout(rest, kws, gaps) && kws != []
    ensures Find(rest, kws[0]) == |gaps[0]|
    ensures |gaps[0]| + |kws[0]| <= |rest|
    ensures rest[..|gaps[0]|] == gaps[0]
    ensures Layout(rest[|gaps[0]| + |kws[0]|..], kws[1..], gaps[1..])
  {
    var tail := Interleave(gaps[1..], kws[1..]);
    assert rest == gaps[0] + kws[0] + tail;
    FindAfterGap(gaps[0], kws[0], tail);
    assert rest[|gaps[0]| + |kws[0]|..] == tail;
    assert rest[..|gaps[0]|] == gaps[0];
    forall i | 0 <= i < |kws| - 1 ensures Leftmost(gaps[1..][i], kws[1..][i]) {
      assert Leftmost(gaps[i + 1], kws[i + 1]);
    }
  }

  /** A successful match splits the line into gaps and keywords, each keyword
      at its first occurrence, and the expressions are the non-blank gaps. */
  lemma {:induction false} MatchLayout(rest: string, parts: seq<Part>, i: nat, exprs: seq<string>)
    returns (gaps: seq<string>)
    requires i <= |parts|
    requires MatchFrom(rest, parts, i, exprs).Some?
    ensures Layout(rest, Keywords(parts, i), gaps)
    ensures MatchFrom(rest, parts, i, exprs).value == exprs + Captures(gaps)
    decreases |parts| - i
  {
    if i == |parts| {
      gaps := [rest];
      assert Captures(gaps) == NonBlank(rest) + Captures([]);
      AppendNil(NonBlank(rest));
    } else if parts[i].Slot? {
      gaps := MatchLayout(rest, parts, i + 1, exprs);
    } else {
      var loc := Find(rest, parts[i].word);
      KeywordUnfold(rest, parts, i, exprs, loc);
      var more := MatchLayout(rest[loc + |parts[i].word|..], parts, i + 1, exprs + NonBlank(rest[..loc]));
      LayoutCons(rest, parts[i].word, loc, Keywords(parts, i + 1), more);
      gaps := [rest[..loc]] + more;
      CapturesCons(rest[..loc], more);
      AppendAssoc(exprs, NonBlank(rest[..loc]), Captures(more));
    }
  }

  /** Conversely, any such layout of the line is what the match finds. */
  lemma {:induction false} LayoutMatches(rest: string, parts: seq<Part>, i: nat, exprs: seq<string>, gaps: seq<string>)
    requires i <= |parts|
    requires Layout(rest, Keywords(parts, i), gaps)
    ensures MatchFrom(rest, parts, i, exprs) == Some(exprs + Captures(gaps))
    decreases |parts| - i
  {
    if i == |parts| {
      assert Captures(gaps) == NonBlank(gaps[0]) + Captures(gaps[1..]);
      AppendNil(NonBlank(rest));
    } else if parts[i].Slot? {
      LayoutMatches(rest, parts, i + 1, exprs, gaps);
    } else {
      ConsParts(parts[i].word, Keywords(parts, i + 1));
      LayoutUncons(rest, Keywords(parts, i), gaps);
      var loc := |gaps[0]|;
      LayoutMatches(rest[loc + |parts[i].word|..], parts, i + 1, exprs + NonBlank(gaps[0]), gaps[1..]);
      CapturesCons(gaps[0], gaps[1..]);
      assert gaps == [gaps[0]] + gaps[1..];
      AppendAssoc(exprs, NonBlank(gaps[0]), Captures(gaps[1..]));
    }
  }

  // ----- A template matches exactly when its keywords occur in order -----

  /** The keywords `kws` occur in `s` one after another, without overlapping. */
  ghost predicate InOrder(s: string, kws: seq<string>)
    decreases |kws|
  {
    kws == [] || exists i :: OccursAt(s, kws[0], i) && InOrder(s[i + |kws[0]|..], kws[1..])
  }

  lemma InOrderSuffix(s: string, d: nat, kws: seq<string>)
    requires d <= |s| && InOrder(s[d..], kws)
    ensures InOrder(s, kws)
  {
    if kws != [] {
      var i :| OccursAt(s[d..], kws[0], i) && InOrder(s[d..][i + |kws[0]|..], kws[1..]);
      assert s[d + i..d + i + |kws[0]|] == s[d..][i..i + |kws[0]|];
      assert s[d + i + |kws[0]|..] == s[d..][i + |kws[0]|..];
      assert OccursAt(s, kws[0], d + i);
    }
  }

  /** Keywords in order: the first one occurs, and the rest occur in order
      after its first occurrence. */
  lemma InOrderFirst(s: string, word: string, kws: seq<string>, loc: int)
    requires loc == Find(s, word)
    ensures InOrder(s, [word] + kws) <==> (loc != -1 && InOrder(s[loc + |word|..], kws))
  {
    ConsParts(word, kws);
    FindFirst(s, word);
    if InOrder(s, [word] + kws) {
      var i :| OccursAt(s, word, i) && InOrder(s[i + |word|..], kws);
      assert loc != -1 && loc <= i;
      var tail := s[loc + |word|..];
      assert tail[i - loc..] == s[i + |word|..];
      InOrderSuffix(tail, i - loc, kws);
    }
    if loc != -1 && InOrder(s[loc + |word|..], kws) {
      assert OccursAt(s, word, loc);
    }
  }

  /** Keywords are found by substring search, leftmost first; that finds all of
      them exactly when they occur in order at all. */
  lemma {:induction false} MatchIffInOrder(rest: string, parts: seq<Part>, i: nat, exprs: seq<string>)
    requires i <= |parts|
    ensures MatchFrom(rest, parts, i, exprs).Some? <==> InOrder(rest, Keywords(parts, i))
    decreases |parts| - i
  {
    if i < |parts| {
      if parts[i].Slot? {
        MatchIffInOrder(rest, parts, i + 1, exprs);
      } else {
        var loc := Find(rest, parts[i].word);
        assert Keywords(parts, i) == [parts[i].word] + Keywords(parts, i + 1);
        InOrderFirst(rest, parts[i].word, Keywords(parts, i + 1), loc);
        if loc != -1 {
          KeywordUnfold(rest, parts, i, exprs, loc);
          MatchIffInOrder(rest[loc + |parts[i].word|..], parts, i + 1, exprs + NonBlank(rest[..loc]));
        }
      }
    }
  }

  /** A line is blank exactly when no template has all its keywords in order
      in it; otherwise its kind is that of the first template that does. */
  lemma ClassifyFirstInOrder(line: string)
    ensures var st, l := Classify(line), Strip(line);
      (st.kind == Blank <==> forall u :: 0 <= u < |Syntax| ==> !InOrder(l, Keywords(Syntax[u].parts, 0)))
      && (st.kind != Blank ==>
            InOrder(l, Keywords(Syntax[Rank(st.kind)].parts, 0))
            && forall u :: 0 <= u < Rank(st.kind) ==> !InOrder(l, Keywords(Syntax[u].parts, 0)))
  {
    var l := Strip(line);
    ClassifyFirst(line);
    forall u | 0 <= u < |Syntax|
      ensures MatchParts(l, Syntax[u].parts).Some? <==> InOrder(l, Keywords(Syntax[u].parts, 0))
    {
      MatchIffInOrder(l, Syntax[u].parts, 0, []);
    }
  }

  /** The keywords of the counted loop's template. */
  lemma CountedKeywords()
    ensures Keywords(Syntax[7].parts, 0) == ["FOR", "FROM", "TO"]
  {
    var parts := Syntax[7].parts;
    assert parts == [Keyword("FOR"), Slot, Keyword("FROM"), Slot, Keyword("TO"), Slot];
    assert Keywords(parts, 4) == ["TO"];
    assert Keywords(parts, 2) == ["FROM", "TO"];
  }

  /** `FOR EACH` starts with `FOR`, so whatever follows `FOR EACH` in order
      also follows `FOR`. */
  lemma ForEachHasFor(l: string, kws: seq<string>)
    requires InOrder(l, ["FOR EACH"] + kws)
    ensures InOrder(l, ["FOR"] + kws)
  {
    ConsParts("FOR EACH", kws);
    ConsParts("FOR", kws);
    var i :| OccursAt(l, "FOR EACH", i) && InOrder(l[i + 8..], kws);
    assert l[i..i + 3] == l[i..i + 8][..3];
    assert l[i + 3..][5..] == l[i + 8..];
    InOrderSuffix(l[i + 3..], 5, kws);
    assert OccursAt(l, "FOR", i) && InOrder(l[i + 3..], kws);
  }

  /** A for-each line whose sequence expression contains `TO` (as in
      `FOR EACH x FROM TOTALS`) has the keywords of the counted loop in order,
      and that template is tried first: it is never classified as a
      for-each loop. */
  lemma ForEachShadowed(line: string)
    requires InOrder(Strip(line), ["FOR EACH", "FROM", "TO"])
    ensures Classify(line).kind != ForEach
  {
    var l := Strip(line);
    assert ["FOR EACH"] + ["FROM", "TO"] == ["FOR EACH", "FROM", "TO"];
    ForEachHasFor(l, ["FROM", "TO"]);
    assert ["FOR"] + ["FROM", "TO"] == ["FOR", "FROM", "TO"];
    CountedKeywords();
    ClassifyFirstInOrder(line);
  }

  /** `parse_code`: one statement per line of the text. */
  function ParseCode(text: string): (prog: seq<Statement>)
    ensures |prog| == Count(text, '\n') + 1
  {
    var lines := SplitOn(text, '\n');
    SplitOnCount(text, '\n');
    seq(|lines|, i requires 0 <= i < |lines| => Classify(lines[i]))
  }
}
