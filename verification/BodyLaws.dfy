// What relaxed body canonicalization identifies, told by the words of the lines
// (section 3.4.4 of RFC 6376).
module BodyLaws {
  import opened Text
  import opened Mime
  import opened DkimCanonicalization

  predicate White(c: char)
  {
    c == ' ' || c == '\t'
  }

  // Length of the run of non-white characters at the front.
  function WordLength(s: string): (n: nat)
    ensures n <= |s| && (forall i :: 0 <= i < n ==> !White(s[i])) && (n < |s| ==> White(s[n]))
  {
    if s == "" || White(s[0]) then 0 else 1 + WordLength(s[1..])
  }

  function Words(s: string): seq<string>
    decreases |s|
  {
    if s == "" then []
    else if White(s[0]) then Words(s[1..])
    else [s[..WordLength(s)]] + Words(s[WordLength(s)..])
  }

  predicate Indented(s: string)
  {
    s != "" && White(s[0])
  }

  // A line from its words and its leading white space.
  function Render(words: seq<string>, indented: bool): string
  {
    if words == [] then "" else (if indented then " " else "") + Join(words, " ")
  }

  // ---------------------------------------------------------------- one line

  lemma {:induction false} CollapseWord(w: string, rest: string, lww: bool)
    requires w != "" && forall i :: 0 <= i < |w| ==> !White(w[i])
    ensures Collapse(Detab(w + rest), lww) == w + Collapse(Detab(rest), false)
  {
    hide Collapse;
    var s := Detab(w + rest);
    CollapseStep(s, 0, lww);
    assert s[0..] == s && s[0] == w[0];
    assert s[1..] == Detab(w[1..] + rest);
    if |w| > 1 {
      CollapseWord(w[1..], rest, false);
    } else {
      assert w[1..] + rest == rest;
    }
  }

  // What collapsing and trimming the end leave of a line.
  predicate Reduced(s: string, lww: bool)
  {
    var c := Collapse(Detab(s), lww);
    if Words(s) == [] then StripTrail(c) == "" && |c| <= 1
    else StripTrail(c) == Render(Words(s), Indented(s) && !lww)
  }

  lemma {:induction false} TrimmedCollapse(s: string, lww: bool)
    ensures Reduced(s, lww)
    decreases |s|
  {
    hide Collapse, Words, Reduced;
    if s == "" {
      ReducedNothing(lww);
    } else if White(s[0]) {
      TrimmedCollapse(s[1..], true);
      ReducedWhite(s, lww);
    } else {
      WordFirst(s);
      TrimmedCollapse(s[WordLength(s)..], false);
      ReducedWord(s, lww);
    }
  }

  lemma ReducedNothing(lww: bool)
    ensures Reduced("", lww)
  {
    assert Detab("") == "";
    CollapseNothing(lww);
  }

  lemma WordFirst(s: string)
    requires s != "" && !White(s[0])
    ensures WordLength(s) > 0
  {
  }

  lemma ReducedWhite(s: string, lww: bool)
    requires s != "" && White(s[0]) && Reduced(s[1..], true)
    ensures Reduced(s, lww)
  {
    hide Collapse, Render, Detab, Words;
    CollapseWhiteHead(s, lww);
    WordsAfterWhite(s);
    var c := Collapse(Detab(s[1..]), true);
    CollapsedHead(s[1..]);
    if Words(s) != [] {
      WordsAreWords(s);
      RenderIsFilled(Words(s), false);
      StripTrailCons(" ", c);
      RenderIndented(Words(s));
    }
  }

  lemma WordsAfterWhite(s: string)
    requires s != "" && White(s[0])
    ensures Words(s) == Words(s[1..])
  {
  }

  lemma RenderIndented(words: seq<string>)
    requires words != []
    ensures Render(words, true) == " " + Render(words, false)
  {
  }

  lemma CollapseWhiteHead(s: string, lww: bool)
    requires s != "" && White(s[0])
    ensures Collapse(Detab(s), lww) == (if lww then "" else " ") + Collapse(Detab(s[1..]), true)
  {
    hide Collapse;
    var d := Detab(s);
    CollapseStep(d, 0, lww);
    assert d[0..] == d && d[1..] == Detab(s[1..]);
  }

  lemma ReducedWord(s: string, lww: bool)
    requires s != "" && !White(s[0]) && Reduced(s[WordLength(s)..], false)
    ensures Reduced(s, lww)
  {
    hide Collapse, Join;
    var n := WordLength(s);
    WordFirst(s);
    var w, rest := s[..n], s[n..];
    assert s == w + rest;
    CollapseWord(w, rest, lww);
    var c := Collapse(Detab(rest), false);
    StripTrailCons(w, c);
    WordsAreWords(rest);
    RenderIsFilled(Words(rest), Indented(rest));
    RenderCons(w, Words(rest));
    assert Words(rest) != [] ==> rest != "" && White(rest[0]);
    assert w + "" == w;
  }

  lemma RenderCons(w: string, words: seq<string>)
    ensures Render([w] + words, false) == w + Render(words, true)
  {
    assert ([w] + words)[1..] == words;
    if words == [] {
      assert [w] + words == [w] && w + "" == w;
    }
  }

  lemma CollapsedHead(s: string)
    ensures Words(s) == [] ==> Collapse(Detab(s), true) == ""
  {
    if Words(s) == [] {
      NoWordsIsWhite(s);
      CollapseWhite(Detab(s));
    }
  }

  lemma {:induction false} NoWordsIsWhite(s: string)
    ensures Words(s) == [] <==> forall i :: 0 <= i < |s| ==> White(s[i])
    decreases |s|
  {
    if s != "" && White(s[0]) {
      NoWordsIsWhite(s[1..]);
      assert (forall i :: 0 <= i < |s| ==> White(s[i])) ==> forall i :: 0 <= i < |s[1..]| ==> White(s[1..][i]);
    }
  }

  lemma {:induction false} CollapseWhite(d: string)
    requires forall i :: 0 <= i < |d| ==> d[i] == ' '
    ensures Collapse(d, true) == ""
  {
    if d != "" {
      CollapseWhite(d[1..]);
    }
  }

  lemma StripTrailCons(a: string, b: string)
    requires a != ""
    ensures StripTrail(b) != "" || a[|a| - 1] != ' ' ==> StripTrail(a + b) == a + StripTrail(b)
  {
    if b == "" {
      assert a + b == a && a + "" == a;
    } else if b[|b| - 1] == ' ' {
      assert (a + b)[..|a + b| - 1] == a + b[..|b| - 1];
    }
  }

  lemma {:induction false} WordsAreWords(s: string)
    ensures forall i :: 0 <= i < |Words(s)| ==> Words(s)[i] != "" && forall j :: 0 <= j < |Words(s)[i]| ==> !White(Words(s)[i][j])
    decreases |s|
  {
    if s != "" {
      if White(s[0]) {
        WordsAreWords(s[1..]);
      } else {
        WordsAreWords(s[WordLength(s)..]);
      }
    }
  }

  predicate Wordy(words: seq<string>)
  {
    forall i :: 0 <= i < |words| ==> words[i] != "" && forall j :: 0 <= j < |words[i]| ==> !White(words[i][j])
  }

  lemma RenderIsFilled(words: seq<string>, indented: bool)
    requires words != [] ==> words[0] != ""
    ensures Render(words, indented) == "" <==> words == []
  {
  }

  lemma NoWords()
    ensures Join([], " ") == "" && Words("") == [] && White(' ')
  {
  }

  lemma AfterSpace(s: string)
    ensures Words(" " + s) == Words(s)
  {
    assert (" " + s)[1..] == s;
  }

  lemma {:induction false} WordsOfJoin(words: seq<string>)
    requires Wordy(words)
    ensures Words(Join(words, " ")) == words
    ensures words != [] ==> Join(words, " ") != "" && !White(Join(words, " ")[0])
  {
    hide Words, Join, White;
    NoWords();
    if words != [] {
      var w := words[0];
      if |words| == 1 {
        JoinOne(w, " ");
        WordsStep(w, "");
        assert words == [w] && w + "" == w && [w] + [] == words;
      } else {
        var rest := " " + Join(words[1..], " ");
        WordsOfJoin(words[1..]);
        WordsStep(w, rest);
        AfterSpace(Join(words[1..], " "));
        JoinCons(w, words[1..], " ");
        assert words == [w] + words[1..];
        assert w + " " + Join(words[1..], " ") == w + rest;
      }
    }
  }

  lemma WordsStep(w: string, rest: string)
    requires w != "" && (forall j :: 0 <= j < |w| ==> !White(w[j])) && (rest != "" ==> White(rest[0]))
    ensures Words(w + rest) == [w] + Words(rest)
  {
    var s := w + rest;
    var n := WordLength(s);
    assert forall j :: 0 <= j < |w| ==> s[j] == w[j];
    assert rest != "" ==> s[|w|] == rest[0];
    assert s[..|w|] == w && s[|w|..] == rest;
  }

  lemma RelaxLineIsRender(line: string)
    ensures RelaxLine(line) == Render(Words(line), Indented(line))
    ensures Wordy(Words(line))
  {
    TrimmedCollapse(line, false);
    WordsAreWords(line);
    assert Words(line) == [] ==> RelaxLine(line) == "";
  }

  lemma WordsOfRender(words: seq<string>, indented: bool)
    requires Wordy(words)
    ensures Words(Render(words, indented)) == words
    ensures words != [] ==> (Indented(Render(words, indented)) <==> indented)
  {
    hide Join;
    if words != [] {
      WordsOfJoin(words);
      var text := Join(words, " ");
      assert (" " + text)[1..] == text;
      assert "" + text == text;
    }
  }

  // Two lines count as the same.
  predicate SameWords(a: string, b: string)
  {
    Words(a) == Words(b) && (Words(a) != [] ==> (Indented(a) <==> Indented(b)))
  }

  lemma RelaxLineSame(a: string, b: string)
    ensures RelaxLine(a) == RelaxLine(b) <==> SameWords(a, b)
    ensures RelaxLine(a) == "" <==> Words(a) == []
    ensures RelaxLine(RelaxLine(a)) == RelaxLine(a)
  {
    hide RelaxLine, Words, Render, Indented, Wordy;
    RelaxLineIsRender(a);
    RelaxLineIsRender(b);
    RelaxLineIsRender(RelaxLine(a));
    WordsOfRender(Words(a), Indented(a));
    WordsOfRender(Words(b), Indented(b));
    RenderEmpty(Words(a), Indented(a));
    RenderNone();
  }

  lemma RenderEmpty(words: seq<string>, indented: bool)
    requires Wordy(words)
    ensures Render(words, indented) == "" <==> words == []
  {
    RenderIsFilled(words, indented);
  }

  lemma RenderNone()
    ensures forall b :: Render([], b) == ""
  {
  }

  // ---------------------------------------------------------------- whole bodies

  // The lines of a body up to the last one with a word; the first line stays in any case.
  function Significant(lines: seq<string>): (r: seq<string>)
    requires lines != []
    ensures r != [] && |r| <= |lines|
  {
    if |lines| == 1 || Words(lines[|lines| - 1]) != [] then lines else Significant(lines[..|lines| - 1])
  }

  predicate SameBodies(a: seq<string>, b: seq<string>)
    requires a != [] && b != []
  {
    var s, t := Significant(a), Significant(b);
    |s| == |t| && forall i :: 0 <= i < |s| ==> SameWords(s[i], t[i])
  }

  lemma {:induction false} KeepIsSignificant(lines: seq<string>)
    requires lines != []
    ensures KeepContent(RelaxLines(lines)) == RelaxLines(Significant(lines))
    ensures Significant(lines) == lines[..|Significant(lines)|]
    decreases |lines|
  {
    hide RelaxLine, Words;
    var n := |lines| - 1;
    RelaxLineSame(lines[n], lines[n]);
    var relaxed := RelaxLines(lines);
    if n > 0 && Words(lines[n]) == [] {
      KeepIsSignificant(lines[..n]);
      assert relaxed[..n] == RelaxLines(lines[..n]);
      KeepDropsLast(relaxed);
      assert lines[..n][..|Significant(lines)|] == lines[..|Significant(lines)|];
    } else {
      KeepAll(relaxed);
    }
  }

  lemma KeepDropsLast(lines: seq<string>)
    requires |lines| > 1 && lines[|lines| - 1] == ""
    ensures KeepContent(lines) == KeepContent(lines[..|lines| - 1])
  {
  }

  lemma KeepAll(lines: seq<string>)
    requires lines != [] && (|lines| == 1 || lines[|lines| - 1] != "")
    ensures KeepContent(lines) == lines
  {
  }

  lemma {:induction false} CollapseNoNewline(s: string)
    requires '\n' !in s
    ensures '\n' !in RelaxLine(s)
  {
    hide Collapse;
    assert forall i :: 0 <= i < |s| ==> s[i] in s;
    assert '\n' !in Detab(s);
  }

  lemma RelaxedLinesNoNewline(lines: seq<string>)
    requires NoNewlines(lines)
    ensures NoNewlines(RelaxLines(lines))
  {
    hide RelaxLine;
    forall i | 0 <= i < |lines| ensures '\n' !in RelaxLine(lines[i]) {
      CollapseNoNewline(lines[i]);
    }
  }

  lemma SignificantNoNewlines(raw: string)
    requires Lines(raw) != []
    ensures NoNewlines(RelaxLines(Significant(Lines(raw))))
  {
    hide Significant, RelaxLines, Lines;
    LinesHaveNoNewline(raw);
    KeepIsSignificant(Lines(raw));
    RelaxedLinesNoNewline(Significant(Lines(raw)));
  }

  lemma RelaxedBodyIs(raw: string)
    requires Lines(raw) != []
    ensures RelaxedBody(raw) == Done(Unlines(RelaxLines(Significant(Lines(raw)))))
  {
    hide Lines, Unlines, RelaxLines, Significant, KeepContent;
    KeepIsSignificant(Lines(raw));
  }

  // No line at all is the one input the original is not defined on.
  lemma NoLinesIsNoText(raw: string)
    ensures Lines(raw) == [] <==> raw == ""
  {
  }

  // Two non-empty bodies have the same relaxed form exactly when, up to their last
  // line with a word, corresponding lines have the same words and agree on being
  // indented.
  lemma RelaxedBodyIdentifies(a: string, b: string)
    requires a != "" && b != ""
    ensures RelaxedBody(a) == RelaxedBody(b) <==> SameBodies(Lines(a), Lines(b))
  {
    hide Lines, Unlines, RelaxLine, Significant, SameWords;
    NoLinesIsNoText(a);
    NoLinesIsNoText(b);
    RelaxedBodyIs(a);
    RelaxedBodyIs(b);
    var s, t := Significant(Lines(a)), Significant(Lines(b));
    SignificantNoNewlines(a);
    SignificantNoNewlines(b);
    if Unlines(RelaxLines(s)) == Unlines(RelaxLines(t)) {
      UnlinesInjective(RelaxLines(s), RelaxLines(t));
      forall i | 0 <= i < |s| ensures SameWords(s[i], t[i]) {
        assert RelaxLines(s)[i] == RelaxLines(t)[i];
        RelaxLineSame(s[i], t[i]);
      }
    }
    if SameBodies(Lines(a), Lines(b)) {
      forall i | 0 <= i < |s| ensures RelaxLine(s[i]) == RelaxLine(t[i]) {
        RelaxLineSame(s[i], t[i]);
      }
      assert RelaxLines(s) == RelaxLines(t);
    }
  }

  lemma LinesOfRelaxed(raw: string)
    requires Lines(raw) != []
    ensures Lines(RelaxedBody(raw).value) == RelaxLines(Significant(Lines(raw)))
  {
    hide Lines, Unlines, RelaxLines, Significant;
    RelaxedBodyIs(raw);
    SignificantNoNewlines(raw);
    var r := RelaxLines(Significant(Lines(raw)));
    LinesOfUnlines(r, "");
    assert Unlines(r) + "" == Unlines(r) && r + [] == r && Lines("") == [] by {
      NoLines();
    }
  }

  lemma NoLines()
    ensures Lines("") == []
  {
  }

  lemma {:induction false} SignificantOfRelaxed(lines: seq<string>)
    requires lines != []
    ensures Significant(RelaxLines(Significant(lines))) == RelaxLines(Significant(lines))
    decreases |lines|
  {
    hide Words, RelaxLine;
    var n := |lines| - 1;
    if n > 0 && Words(lines[n]) == [] {
      SignificantOfRelaxed(lines[..n]);
    } else {
      RelaxLineSame(lines[n], lines[n]);
      RelaxLineSame(RelaxLine(lines[n]), lines[n]);
      assert RelaxLines(lines)[n] == RelaxLine(lines[n]);
    }
  }

  lemma RelaxLinesTwice(lines: seq<string>)
    ensures RelaxLines(RelaxLines(lines)) == RelaxLines(lines)
  {
    hide RelaxLine;
    forall i | 0 <= i < |lines| ensures RelaxLine(RelaxLine(lines[i])) == RelaxLine(lines[i]) {
      RelaxLineSame(lines[i], lines[i]);
    }
  }

  lemma RelaxedBodyIsIdempotent(raw: string)
    requires raw != ""
    ensures RelaxedBody(raw).Done? && RelaxedBody(RelaxedBody(raw).value) == RelaxedBody(raw)
  {
    hide Lines, Unlines, RelaxLines, Significant;
    NoLinesIsNoText(raw);
    RelaxedBodyIs(raw);
    LinesOfRelaxed(raw);
    var r := RelaxLines(Significant(Lines(raw)));
    assert r != [] by {
      assert |r| == |Significant(Lines(raw))|;
    }
    RelaxedBodyIs(RelaxedBody(raw).value);
    SignificantOfRelaxed(Lines(raw));
    RelaxLinesTwice(Significant(Lines(raw)));
  }

  lemma {:induction false} SignificantOfPrefix(lines: seq<string>, n: nat)
    requires 0 < n <= |lines| && forall i :: n <= i < |lines| ==> lines[i] == ""
    ensures Significant(lines) == Significant(lines[..n])
    decreases |lines|
  {
    if n < |lines| {
      assert Words("") == [];
      SignificantOfPrefix(lines[..|lines| - 1], n);
      assert lines[..|lines| - 1][..n] == lines[..n];
    } else {
      assert lines[..n] == lines;
    }
  }

  // Simple canonicalization first makes no difference to the relaxed form.
  lemma RelaxedAbsorbsSimple(raw: string)
    requires raw != ""
    ensures SimpleBody(raw).Done? && RelaxedBody(SimpleBody(raw).value) == RelaxedBody(raw)
  {
    hide Lines, Unlines, RelaxLines, Significant, LastFilled, RelaxedBody;
    NoLinesIsNoText(raw);
    var lines := Lines(raw);
    var kept := KeepContent(lines);
    LinesHaveNoNewline(raw);
    LinesOfUnlines(kept, "");
    NoLines();
    assert Unlines(kept) + "" == Unlines(kept) && kept + [] == kept;
    SignificantOfPrefix(lines, LastFilled(lines) + 1);
    RelaxedBodyIs(raw);
    RelaxedBodyIs(SimpleBody(raw).value);
  }

  // What the simple form is: the lines as they are, up to the last one that is not empty; the
  // first one stays in any case (section 3.4.3 of RFC 6376, but for a body of empty lines).
  lemma SimpleBodyIs(raw: string) returns (n: nat)
    requires raw != ""
    ensures 0 < n <= |Lines(raw)| && SimpleBody(raw) == Done(Unlines(Lines(raw)[..n]))
    ensures (forall i :: n <= i < |Lines(raw)| ==> Lines(raw)[i] == "") && (n == 1 || Lines(raw)[n - 1] != "")
  {
    hide Lines, Unlines;
    NoLinesIsNoText(raw);
    n := LastFilled(Lines(raw)) + 1;
  }

  // What the relaxed form is: of every line up to the last one with a word, its words, one
  // space apart, behind one space if it was indented (section 3.4.4 of RFC 6376).
  lemma RelaxedBodyIsWords(raw: string) returns (relaxed: seq<string>)
    requires raw != ""
    ensures Lines(raw) != [] && RelaxedBody(raw) == Done(Unlines(relaxed))
    ensures var lines := Significant(Lines(raw));
            && |relaxed| == |lines|
            && forall i :: 0 <= i < |lines| ==>
                 relaxed[i] == (if Words(lines[i]) != [] && Indented(lines[i]) then " " else "") + Join(Words(lines[i]), " ")
  {
    hide Lines, Unlines, Significant, RelaxLine, Words, Indented, Join;
    NoLinesIsNoText(raw);
    RelaxedBodyIs(raw);
    var lines := Significant(Lines(raw));
    relaxed := RelaxLines(lines);
    NoWords();
    forall i | 0 <= i < |lines|
      ensures relaxed[i] == (if Words(lines[i]) != [] && Indented(lines[i]) then " " else "") + Join(Words(lines[i]), " ")
    {
      RelaxLineIsRender(lines[i]);
    }
  }
}
