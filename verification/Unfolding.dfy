// Unfolding undoes folding: for one header, for whole header blocks, and through
// the text that goes over the wire.
module Unfolding {
  import opened Text
  import opened Mime
  import opened Builders

  // ---------------------------------------------------------------- headers in their canonical form

  // A field name the fold leaves as it is.
  predicate FieldName(key: string)
  {
    && (forall c :: c in key ==> c != ':' && c != '\r' && c != '\n')
    && (key != "" ==> key[0] != ' ' && key[0] != '\t' && key[|key| - 1] != ' ')
  }

  // "key: s1; s2; ...; sn" with segments free of whitespace.
  datatype Canonical = Canonical(key: string, segs: seq<string>) {
    predicate Valid() {
      FieldName(key) && segs != [] && forall i :: 0 <= i < |segs| ==> Token(segs[i])
    }

    function Text(): string {
      key + ": " + Join(segs, "; ")
    }
  }

  // ---------------------------------------------------------------- one indented line

  lemma {:induction false} IndentDropped(indent: string, p: string)
    requires forall i :: 0 <= i < |indent| ==> indent[i] == ' '
    requires p != "" && p[0] != ' '
    ensures DropLeading(indent + p, ' ') == p
  {
    if indent != "" {
      assert (indent + p)[1..] == indent[1..] + p;
      IndentDropped(indent[1..], p);
    } else {
      assert indent + p == p;
    }
  }

  predicate Indent(indent: string)
  {
    indent == SIX || indent == SEVEN
  }

  lemma IndentedLine(indent: string, p: string)
    requires Indent(indent) && Token(p)
    ensures TrimIndent(indent + p) == p && Continues(indent + p) && Gap(indent + p) == ""
  {
    IndentDropped(indent, p);
    assert (indent + p)[0] == ' ' && (indent + p)[|indent + p| - 1] == p[|p| - 1];
  }

  // The physical lines of one header, with text behind every indentation and no
  // line ending in a semicolon.
  predicate Group(lines: seq<string>)
    ensures Group(lines) ==> lines != []
  {
    && lines != [] && lines[0] != "" && !Continues(lines[0])
    && (forall i :: 1 <= i < |lines| ==> Continues(lines[i]) && TrimIndent(lines[i]) != "")
    && Gap(lines[|lines| - 1]) == ""
  }

  lemma JoinPiece(lines: seq<string>, indent: string, p: string)
    requires Group(lines) && Indent(indent) && Token(p)
    ensures Group(lines + [indent + p]) && JoinGroup(lines + [indent + p]) == JoinGroup(lines) + p
  {
    hide TrimIndent, Token;
    var all := lines + [indent + p];
    IndentedLine(indent, p);
    assert all[..|lines|] == lines;
    assert JoinGroup(lines) + "" == JoinGroup(lines);
  }

  lemma {:induction false} JoinTail(lines: seq<string>, s: string, width: nat)
    requires width >= 8 && Group(lines) && (s == "" || Token(s))
    ensures Group(lines + Tail(s, width)) && JoinGroup(lines + Tail(s, width)) == JoinGroup(lines) + s
    decreases |s|
  {
    hide Group, JoinGroup, Token;
    if s == "" {
      assert lines + [] == lines && JoinGroup(lines) + "" == JoinGroup(lines);
    } else if |s| <= width - 7 {
      JoinPiece(lines, SEVEN, s);
    } else {
      var p, q := s[..width - 7], s[width - 7..];
      TokenCut(s, width - 7);
      JoinPiece(lines, SEVEN, p);
      JoinTail(lines + [SEVEN + p], q, width);
      Assoc(lines, [SEVEN + p], Tail(q, width));
      assert JoinGroup(lines) + p + q == JoinGroup(lines) + s;
    }
  }

  lemma TokenCut(s: string, n: nat)
    requires Token(s) && 0 < n <= |s|
    ensures Token(s[..n]) && (s[n..] == "" || Token(s[n..]))
  {
  }

  lemma JoinPieces(lines: seq<string>, seg: string, width: nat)
    requires width >= 8 && Group(lines) && Token(seg)
    ensures Group(lines + Pieces(seg, width)) && JoinGroup(lines + Pieces(seg, width)) == JoinGroup(lines) + seg
  {
    hide Group, JoinGroup, Tail;
    if |seg| <= width - 7 {
      JoinPiece(lines, SIX, seg);
    } else {
      var p, q := seg[..width - 6], seg[width - 6..];
      TokenCut(seg, width - 6);
      JoinPiece(lines, SIX, p);
      JoinTail(lines + [SIX + p], q, width);
      Assoc(lines, [SIX + p], Tail(q, width));
      assert JoinGroup(lines) + p + q == JoinGroup(lines) + seg;
    }
  }

  lemma {:induction false} DropLeadingExtend(s: string, t: string, c: char)
    requires DropLeading(s, c) != ""
    ensures DropLeading(s + t, c) == DropLeading(s, c) + t
  {
    if s[0] == c {
      assert (s + t)[1..] == s[1..] + t;
      DropLeadingExtend(s[1..], t, c);
    }
  }

  lemma TrimIndentExtend(s: string, t: string)
    requires TrimIndent(s) != ""
    ensures TrimIndent(s + t) == TrimIndent(s) + t
  {
    var u := DropLeading(s, ' ');
    DropLeadingExtend(u, t, '\t');
    DropLeadingExtend(s, t, ' ');
  }

  lemma JoinExtend(lines: seq<string>, t: string)
    requires Group(lines) && t != "" && t[|t| - 1] != ';'
    ensures Group(Extend(lines, t)) && JoinGroup(Extend(lines, t)) == JoinGroup(lines) + t
  {
    hide TrimIndent;
    var n := |lines| - 1;
    var all := Extend(lines, t);
    assert all[..n] == lines[..n];
    if n > 0 {
      TrimIndentExtend(lines[n], t);
      Assoc(JoinGroup(lines[..n]) + Gap(lines[n - 1]), TrimIndent(lines[n]), t);
    }
  }

  // ---------------------------------------------------------------- one header

  lemma FoldSegmentJoins(st: Fold, raw: string, seg: string, first: bool, width: nat)
    requires width >= 8 && Group(st.lines) && Token(seg) && Trim(raw) == seg && raw != ""
    ensures var r := FoldSegment(st, raw, first, width).lines;
            Group(r) && JoinGroup(r) == JoinGroup(st.lines) + (if first then "" else "; ") + seg
  {
    hide Group, JoinGroup, Pieces, Trim;
    var lines := if first then st.lines else Extend(st.lines, "; ");
    JoinExtend(st.lines, "; ");
    assert JoinGroup(st.lines) + "" == JoinGroup(st.lines);
    JoinPieces(lines, seg, width);
    JoinExtend(lines, seg);
  }

  function Spaced(segs: seq<string>): (r: seq<string>)
    ensures |r| == |segs|
  {
    if segs == [] then [] else [" " + segs[0]] + Spaced(segs[1..])
  }

  lemma SpacedStep(segs: seq<string>)
    requires segs != []
    ensures Spaced(segs)[0] == " " + segs[0] && Spaced(segs)[1..] == Spaced(segs[1..])
  {
  }

  // "; s1; s2" for the segments behind the first.
  function Appended(segs: seq<string>): string
  {
    if segs == [] then "" else "; " + segs[0] + Appended(segs[1..])
  }

  lemma SpacedToken(seg: string)
    requires Token(seg)
    ensures Trim(" " + seg) == seg
  {
    assert (" " + seg)[1..] == seg;
  }

  lemma {:induction false} FoldSegmentsJoin(st: Fold, segs: seq<string>, width: nat)
    requires width >= 8 && Group(st.lines) && forall i :: 0 <= i < |segs| ==> Token(segs[i])
    ensures var r := FoldSegments(st, Spaced(segs), false, width).lines;
            Group(r) && JoinGroup(r) == JoinGroup(st.lines) + Appended(segs)
    decreases |segs|
  {
    hide Group, JoinGroup, FoldSegment, Token;
    if segs == [] {
      assert JoinGroup(st.lines) + "" == JoinGroup(st.lines);
    } else {
      SpacedToken(segs[0]);
      FoldSegmentJoins(st, " " + segs[0], segs[0], false, width);
      var next := FoldSegment(st, " " + segs[0], false, width);
      FoldSegmentsJoin(next, segs[1..], width);
      assert Spaced(segs)[1..] == Spaced(segs[1..]);
      Assoc(JoinGroup(st.lines), "; " + segs[0], Appended(segs[1..]));
      Assoc(JoinGroup(st.lines), "; ", segs[0]);
    }
  }

  lemma {:induction false} JoinSpaced(segs: seq<string>)
    requires segs != []
    ensures Join(Spaced(segs), ";") == " " + Join(segs, "; ")
    ensures segs[0] + Appended(segs[1..]) == Join(segs, "; ")
  {
    var s := Spaced(segs);
    assert s[1..] == Spaced(segs[1..]);
    if |segs| == 1 {
      assert segs[0] + "" == segs[0];
    } else {
      JoinSpaced(segs[1..]);
      assert segs[1..][0] == segs[1] && segs[1..][1..] == segs[2..];
      assert Appended(segs[1..]) == "; " + segs[1] + Appended(segs[2..]);
      assert " " + segs[0] + ";" + (" " + Join(segs[1..], "; ")) == " " + (segs[0] + "; " + Join(segs[1..], "; "));
      assert segs[0] + ("; " + segs[1] + Appended(segs[2..])) == segs[0] + "; " + (segs[1] + Appended(segs[2..]));
    }
  }

  lemma {:induction false} SpacedHaveNoSemicolon(segs: seq<string>)
    requires forall i :: 0 <= i < |segs| ==> Token(segs[i])
    ensures forall s :: s in Spaced(segs) ==> ';' !in s
  {
    if segs != [] {
      SpacedHaveNoSemicolon(segs[1..]);
      assert forall s :: s in Spaced(segs) ==> s == " " + segs[0] || s in Spaced(segs[1..]);
    }
  }

  // The original cuts a canonical header into its key and its spaced segments.
  lemma CanonicalParts(h: Canonical)
    requires h.Valid()
    ensures Find(h.Text(), ':') < |h.Text()|
    ensures Key(h.Text()) == h.key && Segments(h.Text()) == Spaced(h.segs)
  {
    hide Join, Spaced, Token, Split;
    var raw := h.Text();
    assert forall k :: 0 <= k < |h.key| ==> raw[k] in h.key;
    FindIs(raw, ':', |h.key|);
    assert raw[..|h.key|] == h.key;
    assert raw[|h.key| + 1..] == " " + Join(h.segs, "; ");
    JoinSpaced(h.segs);
    SpacedHaveNoSemicolon(h.segs);
    SplitJoin(Spaced(h.segs), ';');
  }

  lemma StartIsGroup(key: string)
    requires FieldName(key)
    ensures Group([key + ": "]) && JoinGroup([key + ": "]) == key + ": "
  {
    var start := key + ": ";
    assert start[0] == if key == "" then ':' else key[0];
  }

  // Unfolding a folded canonical header gives the header back.
  lemma UnfoldUndoesFold(h: Canonical, width: nat)
    requires h.Valid() && width >= 8 && |h.key| <= width
    ensures FoldLines(h.Text(), width).Done?
    ensures var lines := FoldLines(h.Text(), width).value;
            Group(lines) && JoinGroup(lines) == h.Text() && JoinHeaders(lines) == [h.Text()]
  {
    hide Group, JoinGroup, FoldSegment, FoldSegments, Join, Appended, Token, Find, Key, Segments,
      JoinHeaders, Spaced;
    CanonicalParts(h);
    var start := h.key + ": ";
    StartIsGroup(h.key);
    var st := Fold([start], |start|);
    assert Token(h.segs[0]);
    SpacedToken(h.segs[0]);
    FoldSegmentJoins(st, " " + h.segs[0], h.segs[0], true, width);
    var next := FoldSegment(st, " " + h.segs[0], true, width);
    FoldSegmentsJoin(next, h.segs[1..], width);
    SpacedStep(h.segs);
    FoldSegmentsStep(st, Spaced(h.segs), true, width);
    JoinSpaced(h.segs);
    Assoc(start, h.segs[0], Appended(h.segs[1..]));
    var lines := FoldLines(h.Text(), width).value;
    GroupContinues(lines);
    JoinHeadersOfGroup(lines);
  }

  lemma GroupContinues(lines: seq<string>)
    requires Group(lines)
    ensures lines != [] && !Continues(lines[0]) && forall i :: 0 <= i < |lines| ==> lines[i] != ""
    ensures forall i :: 1 <= i < |lines| ==> Continues(lines[i])
  {
  }

  // ---------------------------------------------------------------- no line break is invented inside a line

  lemma {:induction false} TailNoNewlines(s: string, width: nat)
    requires width >= 8 && '\n' !in s
    ensures NoNewlines(Tail(s, width))
    decreases |s|
  {
    if |s| > width - 7 {
      TailNoNewlines(s[width - 7..], width);
    }
  }

  lemma FoldSegmentNoNewlines(st: Fold, raw: string, first: bool, width: nat)
    requires width >= 8 && st.lines != [] && NoNewlines(st.lines) && '\n' !in raw
    ensures NoNewlines(FoldSegment(st, raw, first, width).lines)
  {
    hide Trim, Tail;
    var seg := Trim(raw);
    TrimmedNoNewline(raw);
    if |seg| > width - 7 {
      TailNoNewlines(seg[width - 6..], width);
    }
  }

  lemma TrimmedNoNewline(raw: string)
    ensures '\n' in Trim(raw) ==> '\n' in raw
  {
  }

  lemma {:induction false} FoldSegmentsNoNewlines(st: Fold, segs: seq<string>, first: bool, width: nat)
    requires width >= 8 && st.lines != [] && NoNewlines(st.lines) && NoNewlines(segs)
    ensures NoNewlines(FoldSegments(st, segs, first, width).lines)
    decreases |segs|
  {
    hide FoldSegment;
    if segs != [] {
      FoldSegmentNoNewlines(st, segs[0], first, width);
      FoldSegmentsNoNewlines(FoldSegment(st, segs[0], first, width), segs[1..], false, width);
    }
  }

  lemma {:induction false} SpacedNoNewlines(segs: seq<string>)
    requires forall i :: 0 <= i < |segs| ==> Token(segs[i])
    ensures NoNewlines(Spaced(segs))
  {
    if segs != [] {
      SpacedNoNewlines(segs[1..]);
    }
  }

  lemma FoldLinesNoNewlines(h: Canonical, width: nat)
    requires h.Valid() && width >= 8 && |h.key| <= width
    ensures FoldLines(h.Text(), width).Done? && NoNewlines(FoldLines(h.Text(), width).value)
  {
    hide FoldSegments, Find, Key, Segments, Spaced;
    CanonicalParts(h);
    SpacedNoNewlines(h.segs);
    var start := h.key + ": ";
    FoldSegmentsNoNewlines(Fold([start], |start|), Spaced(h.segs), true, width);
  }

  // ---------------------------------------------------------------- whole header blocks

  predicate Foldable(hs: seq<Canonical>, width: nat)
  {
    width >= 8 && forall i :: 0 <= i < |hs| ==> hs[i].Valid() && |hs[i].key| <= width
  }

  function Texts(hs: seq<Canonical>): seq<string>
  {
    if hs == [] then [] else [hs[0].Text()] + Texts(hs[1..])
  }

  // All physical lines of a block.
  function FoldBlock(hs: seq<Canonical>, width: nat): seq<string>
    requires Foldable(hs, width)
  {
    if hs == [] then []
    else
      UnfoldUndoesFold(hs[0], width);
      FoldLines(hs[0].Text(), width).value + FoldBlock(hs[1..], width)
  }

  // The block as the DATA handler writes it: every folded header, each followed by CRLF.
  function WriteBlock(hs: seq<Canonical>, width: nat): string
    requires Foldable(hs, width)
  {
    if hs == [] then ""
    else
      UnfoldUndoesFold(hs[0], width);
      Crlf(FoldLines(hs[0].Text(), width).value) + "\r\n" + WriteBlock(hs[1..], width)
  }

  lemma {:induction false} CrlfIsUnlines(lines: seq<string>)
    requires lines != []
    ensures Crlf(lines) + "\r\n" == Unlines(lines)
  {
    if |lines| > 1 {
      CrlfIsUnlines(lines[1..]);
      Assoc(lines[0] + "\r\n", Crlf(lines[1..]), "\r\n");
    } else {
      assert lines[1..] == [] && Unlines([]) == "";
      assert lines[0] + "\r\n" + "" == lines[0] + "\r\n";
    }
  }

  lemma {:induction false} BlockIsUnlines(hs: seq<Canonical>, width: nat)
    requires Foldable(hs, width)
    ensures WriteBlock(hs, width) == Unlines(FoldBlock(hs, width))
  {
    hide FoldLines, Crlf;
    if hs != [] {
      UnfoldUndoesFold(hs[0], width);
      var lines := FoldLines(hs[0].Text(), width).value;
      CrlfIsUnlines(lines);
      BlockIsUnlines(hs[1..], width);
      UnlinesAppend(lines, FoldBlock(hs[1..], width));
    }
  }

  lemma {:induction false} BlockLaws(hs: seq<Canonical>, width: nat)
    requires Foldable(hs, width)
    ensures var lines := FoldBlock(hs, width);
            && NoNewlines(lines) && (forall i :: 0 <= i < |lines| ==> lines[i] != "")
            && (lines != [] ==> !Continues(lines[0]))
            && JoinHeaders(lines) == Texts(hs)
  {
    hide FoldLines, Group, JoinHeaders, Continues;
    if hs == [] {
      JoinHeadersEmpty();
    } else {
      UnfoldUndoesFold(hs[0], width);
      FoldLinesNoNewlines(hs[0], width);
      var lines, rest := FoldLines(hs[0].Text(), width).value, FoldBlock(hs[1..], width);
      GroupContinues(lines);
      BlockLaws(hs[1..], width);
      JoinHeadersAppend(lines, rest);
      assert (lines + rest)[0] == lines[0];
    }
  }

  // Folding every header, writing CRLF lines, splitting the text into lines and
  // joining them again returns exactly the headers, in order; the blank line that
  // ends the block and the body behind it are found where they were written.
  lemma HeaderBlockRoundTrip(hs: seq<Canonical>, body: seq<string>, width: nat)
    requires Foldable(hs, width) && body != [] && body[0] != "" && NoNewlines(body)
    ensures var text := WriteBlock(hs, width) + "\r\n\r\n" + Unlines(body);
            var n := |FoldBlock(hs, width)|;
            && SectionsOf(Lines(text)) == Sections(Some(n), Some(n + 2))
            && JoinHeaders(Lines(text)[..n]) == Texts(hs)
            && Lines(text)[n + 2..] == body
  {
    hide FoldBlock, WriteBlock, JoinHeaders, Lines, Unlines;
    var block := FoldBlock(hs, width);
    BlockLaws(hs, width);
    BlockIsUnlines(hs, width);
    var rest := "\r\n\r\n" + Unlines(body);
    LinesOfUnlines(block, rest);
    LinesOfLine("", "\r\n" + Unlines(body));
    LinesOfLine("", Unlines(body));
    LinesOfUnlines(body, "");
    LinesOfNothing();
    assert "" + "\r\n" + ("\r\n" + Unlines(body)) == rest;
    assert "" + "\r\n" + Unlines(body) == "\r\n" + Unlines(body);
    assert Unlines(body) + "" == Unlines(body) && body + [] == body;
    assert WriteBlock(hs, width) + "\r\n\r\n" + Unlines(body) == Unlines(block) + rest;
    var lines := block + ["", ""] + body;
    assert block + ([""] + ([""] + body)) == lines;
    SectionsFound(block, ["", ""], body);
    assert lines[..|block|] == block && lines[|block| + 2..] == body;
  }

  lemma LinesOfNothing()
    ensures Lines("") == []
  {
  }
}
