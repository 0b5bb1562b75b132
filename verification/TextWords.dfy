// The words of a text, between its spaces, and what the whitespace-reducing loops make of them.
module TextWords {
  import opened Text

  function Filled(parts: seq<string>): (r: seq<string>)
    ensures forall p :: p in r ==> p in parts && p != ""
  {
    if parts == [] then [] else (if parts[0] == "" then [] else [parts[0]]) + Filled(parts[1..])
  }

  // The words of a text, between its spaces.
  function WordsOf(s: string): seq<string>
  {
    Filled(Split(s, ' '))
  }

  lemma {:induction false} CollapseSolid(w: string, rest: string, lww: bool)
    requires w != "" && ' ' !in w
    ensures Collapse(w + rest, lww) == w + Collapse(rest, false)
  {
    hide Collapse;
    CollapseStep(w + rest, 0, lww);
    assert (w + rest)[0..] == w + rest && (w + rest)[1..] == w[1..] + rest;
    if |w| > 1 {
      CollapseSolid(w[1..], rest, false);
    } else {
      assert w[1..] + rest == rest;
    }
  }

  // One piece and a space are taken off the front.
  lemma WordsStep(w: string, rest: string)
    requires ' ' !in w
    ensures WordsOf(w + " " + rest) == (if w == "" then [] else [w]) + WordsOf(rest)
    ensures w != "" ==> WordsOf(w) == [w]
    ensures WordsOf("") == []
  {
    hide Filled;
    var s := w + " " + rest;
    FindIs(s, ' ', |w|);
    assert s[..|w|] == w && s[|w| + 1..] == rest;
    FilledStep(w, Split(rest, ' '));
    FindIs(w, ' ', |w|);
    FilledStep(w, []);
    FilledStep("", []);
    FindIs("", ' ', 0);
    assert [w] + [] == [w] && [""] + [] == [""];
  }

  lemma FilledStep(w: string, rest: seq<string>)
    ensures Filled([w] + rest) == (if w == "" then [] else [w]) + Filled(rest)
    ensures Filled([]) == []
  {
    assert ([w] + rest)[1..] == rest;
  }

  lemma {:induction false} CollapseWords(s: string)
    ensures StripTrail(Collapse(s, true)) == Join(WordsOf(s), " ")
    decreases |s|
  {
    hide Collapse, WordsOf, Join, Find;
    var n := Find(s, ' ');
    var w := s[..n];
    if n == |s| {
      assert s == w;
      WordsStep(s, "");
      if s == "" {
        CollapseNothing(true);
        JoinNone();
      } else {
        CollapseSolid(s, "", true);
        CollapseNothing(false);
        assert s + "" == s;
        JoinOne(s, " ");
      }
    } else {
      var rest := s[n + 1..];
      assert s == w + " " + rest && s == w + (" " + rest);
      WordsStep(w, rest);
      CollapseWords(rest);
      CollapseStep(" " + rest, 0, w == "");
      assert (" " + rest)[0..] == " " + rest && (" " + rest)[1..] == rest;
      if w == "" {
        assert "" + Collapse(rest, true) == Collapse(rest, true) && s == " " + rest;
        assert [] + WordsOf(rest) == WordsOf(rest);
      } else {
        CollapseSolid(w, " " + rest, true);
        StripBehind(w, Collapse(rest, true));
        JoinWords(w, rest);
      }
    }
  }

  lemma CollapseNothing(lww: bool)
    ensures Collapse("", lww) == ""
  {
  }

  lemma JoinNone()
    ensures Join([], " ") == ""
  {
  }

  lemma StripBehind(w: string, c: string)
    requires w != "" && ' ' !in w && (c != "" ==> c[0] != ' ')
    ensures StripTrail(w + (" " + c)) == if c == "" then w else w + " " + StripTrail(c)
    ensures StripTrail(c) == "" <==> c == ""
  {
    var s := w + (" " + c);
    if c == "" {
      assert s[..|s| - 1] == w;
    } else if c[|c| - 1] == ' ' {
      assert s[..|s| - 1] == w + " " + c[..|c| - 1];
    }
  }

  lemma JoinWords(w: string, rest: string)
    ensures Join([w] + WordsOf(rest), " ") ==
            if Join(WordsOf(rest), " ") == "" then w else w + " " + Join(WordsOf(rest), " ")
  {
    hide Filled, Split;
    var parts := WordsOf(rest);
    assert ([w] + parts)[1..] == parts;
    if parts != [] {
      assert parts[0] in parts;
    }
  }

  // A text without its superfluous spaces is its words, one space apart.
  lemma ReducedIsWords(s: string)
    ensures StripLead(StripTrail(Collapse(s, false))) == Join(WordsOf(s), " ")
  {
    hide Collapse, WordsOf, Join, StripLead, StripTrail;
    CollapseWords(s);
    FirstMatters(s);
    var c := Collapse(s, true);
    if s != "" && s[0] == ' ' {
      LeadingSpace(c);
    } else {
      NoLeadingSpace(c);
    }
  }

  // The two ways to start the loop differ in a leading space.
  lemma FirstMatters(s: string)
    ensures var c := Collapse(s, true);
            && Collapse(s, false) == (if s != "" && s[0] == ' ' then " " + c else c)
            && (c != "" ==> c[0] != ' ')
  {
    hide Collapse;
    if s == "" {
      CollapseNothing(true);
      CollapseNothing(false);
    } else {
      CollapseStep(s, 0, true);
      CollapseStep(s, 0, false);
      assert s[0..] == s;
      assert "" + Collapse(s[1..], true) == Collapse(s[1..], true);
    }
  }

  lemma LeadingSpace(c: string)
    requires c != "" ==> c[0] != ' '
    ensures StripLead(StripTrail(" " + c)) == StripTrail(c)
  {
    if c == "" {
      assert (" " + c)[..0] == "";
    } else {
      var t := if c[|c| - 1] == ' ' then c[..|c| - 1] else c;
      assert StripTrail(" " + c) == " " + t by {
        assert (" " + c)[..|c|] == " " + c[..|c| - 1];
      }
      assert (" " + t)[1..] == t;
    }
  }

  lemma NoLeadingSpace(c: string)
    requires c != "" ==> c[0] != ' '
    ensures StripLead(StripTrail(c)) == StripTrail(c)
  {
  }

  lemma WordsAreApart(s: string, t: string)
    ensures Join(WordsOf(s), " ") == Join(WordsOf(t), " ") <==> WordsOf(s) == WordsOf(t)
  {
    hide Split, Join, Filled;
    var p, q := WordsOf(s), WordsOf(t);
    if Join(p, " ") == Join(q, " ") {
      JoinNone();
      if p != [] && q != [] {
        SplitJoin(p, ' ');
        SplitJoin(q, ' ');
      } else if p != [] {
        assert p[0] in p;
        JoinFilled(p);
      } else if q != [] {
        assert q[0] in q;
        JoinFilled(q);
      }
    }
  }

  lemma JoinFilled(parts: seq<string>)
    requires parts != [] && parts[0] != ""
    ensures Join(parts, " ") != ""
  {
  }

  lemma {:induction false} CollapseKeepsEnd(s: string, lww: bool)
    requires s != ""
    ensures var c := Collapse(s, lww);
            && (c == "" ==> lww && s[|s| - 1] == ' ')
            && (c != "" ==> (c[|c| - 1] == ' ' <==> s[|s| - 1] == ' '))
  {
    hide Collapse;
    CollapseStep(s, 0, lww);
    assert s[0..] == s;
    if |s| > 1 {
      CollapseKeepsEnd(s[1..], s[0] == ' ');
      var rest := Collapse(s[1..], s[0] == ' ');
      assert s[1..][|s| - 2] == s[|s| - 1];
      assert rest == "" ==> "" + rest == "" && [s[0]] + rest == [s[0]];
    } else {
      CollapseNothing(s[0] == ' ');
      assert s[1..] == "";
    }
  }

  // The other loop leaves a space at the end: the words, one space apart, and that space.
  lemma SqueezedIsWords(s: string)
    ensures StripLead(Collapse(s, false)) ==
            Join(WordsOf(s), " ") + if s != "" && s[|s| - 1] == ' ' && WordsOf(s) != [] then " " else ""
  {
    hide Collapse, WordsOf, Join, StripLead, StripTrail;
    ReducedIsWords(s);
    if s == "" {
      CollapseNothing(false);
      NoWords();
      JoinNone();
      NothingStrips();
    } else {
      CollapseKeepsEnd(s, false);
      if WordsOf(s) == [] {
        JoinNone();
      } else {
        JoinIsFilled(s);
      }
      EndsApart(Collapse(s, false), Join(WordsOf(s), " "));
      assert Join(WordsOf(s), " ") + "" == Join(WordsOf(s), " ");
    }
  }

  lemma NothingStrips()
    ensures StripLead("") == ""
  {
  }

  lemma EndsApart(c: string, j: string)
    requires Collapsed(c) && StripLead(StripTrail(c)) == j && c != ""
    ensures j == "" ==> StripLead(c) == ""
    ensures j != "" ==> StripLead(c) == j + if c[|c| - 1] == ' ' then " " else ""
  {
    if j == "" {
      OnlySpace(c);
    } else if c[|c| - 1] == ' ' {
      assert c == c[..|c| - 1] + " ";
      LeadAndEnd(c[..|c| - 1]);
    } else {
      assert j + "" == j;
    }
  }

  lemma NoWords()
    ensures WordsOf("") == []
  {
    WordsStep("", "");
  }

  lemma OnlySpace(c: string)
    requires Collapsed(c) && StripLead(StripTrail(c)) == ""
    ensures StripLead(c) == ""
  {
    assert |c| <= 2;
    if |c| == 2 {
      assert c[1] == ' ' ==> c[0] != ' ';
    }
  }

  lemma LeadAndEnd(t: string)
    requires StripLead(t) != ""
    ensures StripLead(t + " ") == StripLead(t) + " "
  {
    assert t[0] == ' ' ==> (t + " ")[1..] == t[1..] + " ";
  }

  lemma JoinIsFilled(s: string)
    requires WordsOf(s) != []
    ensures Join(WordsOf(s), " ") != ""
  {
    hide Split;
    assert WordsOf(s)[0] in WordsOf(s);
    JoinFilled(WordsOf(s));
  }
}
