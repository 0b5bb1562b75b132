// Multipart bodies: writing them (lib/smtp/client/SMTPMessageComposer.src.cc:195-238) and
// taking them apart again (lib/mime/mimev2.src.cc:292-439).
module Multipart {
  import opened Text
  import opened Mime

  // ---------------------------------------------------------------- splitting

  function StartLine(boundary: string): string
  {
    "--" + boundary
  }

  function EndLine(boundary: string): string
  {
    "--" + boundary + "--"
  }

  predicate IsBoundary(line: string, boundary: string)
  {
    line == StartLine(boundary) || line == EndLine(boundary)
  }

  // Position of the first boundary line from `from` on, or |lines|.
  function NextBoundary(lines: seq<string>, boundary: string, from: nat): (i: nat)
    requires from <= |lines|
    ensures from <= i <= |lines|
    ensures i < |lines| ==> IsBoundary(lines[i], boundary)
    ensures forall k :: from <= k < i ==> !IsBoundary(lines[k], boundary)
    decreases |lines| - from
  {
    if from == |lines| || IsBoundary(lines[from], boundary) then from else NextBoundary(lines, boundary, from + 1)
  }

  datatype Range = Range(from: nat, to: nat)

  // The sections behind a boundary line at `from - 1`: each ends at the next boundary
  // line; what no boundary line ends is dropped, and so is what stands behind the end line.
  function SectionsFrom(lines: seq<string>, boundary: string, from: nat): (rs: seq<Range>)
    requires from <= |lines|
    decreases |lines| - from
  {
    var i := NextBoundary(lines, boundary, from);
    if i == |lines| then []
    else [Range(from, i)] + if lines[i] == EndLine(boundary) then [] else SectionsFrom(lines, boundary, i + 1)
  }

  function SplitMultipart(lines: seq<string>, boundary: string): seq<Range>
  {
    var i := NextBoundary(lines, boundary, 0);
    if i == |lines| || lines[i] == EndLine(boundary) then [] else SectionsFrom(lines, boundary, i + 1)
  }

  method SplitMultipartMessage(lines: seq<string>, boundary: string) returns (result: seq<Range>)
    ensures result == SplitMultipart(lines, boundary)
  {
    hide SplitMultipart, SectionsFrom, NextBoundary, StartLine, EndLine;
    result := [];
    var i, prev, it := 0, 0, 0;
    while it < |lines|
      invariant it <= |lines|
      invariant i == 0 ==> result == [] && forall k :: 0 <= k < it ==> !IsBoundary(lines[k], boundary)
      invariant i > 0 ==> prev < it && forall k :: prev < k < it ==> !IsBoundary(lines[k], boundary)
      invariant i > 0 ==> result + SectionsFrom(lines, boundary, prev + 1) == SplitMultipart(lines, boundary)
      decreases |lines| - it
    {
      var boundaryHit := 0;
      if lines[it] == StartLine(boundary) {
        boundaryHit := 1;
      } else if lines[it] == EndLine(boundary) {
        boundaryHit := 2;
      }
      LinesDiffer(boundary);
      if boundaryHit != 0 {
        if i > 0 {
          NextIs(lines, boundary, prev + 1, it);
          SectionsStep(lines, boundary, prev + 1);
          Assoc(result, [Range(prev + 1, it)], if boundaryHit == 2 then [] else SectionsFrom(lines, boundary, it + 1));
          result := result + [Range(prev + 1, it)];
        } else {
          NextIs(lines, boundary, 0, it);
          FirstBoundary(lines, boundary);
        }
        i := i + 1;
        prev := it;
      }
      if boundaryHit == 2 {
        assert result + [] == result;
        return;
      }
      it := it + 1;
    }
    if i == 0 {
      NextIs(lines, boundary, 0, |lines|);
      FirstBoundary(lines, boundary);
    } else {
      NextIs(lines, boundary, prev + 1, |lines|);
      SectionsStep(lines, boundary, prev + 1);
      assert result + [] == result;
    }
  }

  lemma LinesDiffer(boundary: string)
    ensures StartLine(boundary) != EndLine(boundary)
  {
    assert |StartLine(boundary)| != |EndLine(boundary)|;
  }

  lemma NextIs(lines: seq<string>, boundary: string, from: nat, i: nat)
    requires from <= i <= |lines| && (i < |lines| ==> IsBoundary(lines[i], boundary))
    requires forall k :: from <= k < i ==> !IsBoundary(lines[k], boundary)
    ensures NextBoundary(lines, boundary, from) == i
  {
    hide IsBoundary;
  }

  lemma SectionsStep(lines: seq<string>, boundary: string, from: nat)
    requires from <= |lines|
    ensures var i := NextBoundary(lines, boundary, from);
            SectionsFrom(lines, boundary, from) ==
            if i == |lines| then []
            else [Range(from, i)] + if lines[i] == EndLine(boundary) then [] else SectionsFrom(lines, boundary, i + 1)
  {
    hide NextBoundary, IsBoundary;
  }

  lemma FirstBoundary(lines: seq<string>, boundary: string)
    ensures var i := NextBoundary(lines, boundary, 0);
            SplitMultipart(lines, boundary) ==
            if i == |lines| || lines[i] == EndLine(boundary) then [] else SectionsFrom(lines, boundary, i + 1)
  {
    hide NextBoundary, IsBoundary;
  }

  // ---------------------------------------------------------------- laws of splitting

  predicate Free(lines: seq<string>, boundary: string)
  {
    forall line :: line in lines ==> !IsBoundary(line, boundary)
  }

  // Where ranges may lie: inside the lines from `from` on, in order, apart, and without a
  // boundary line.
  predicate Proper(rs: seq<Range>, lines: seq<string>, boundary: string, from: nat)
    decreases |rs|
  {
    rs == [] ||
    (&& from <= rs[0].from <= rs[0].to < |lines|
     && (forall k :: rs[0].from <= k < rs[0].to ==> !IsBoundary(lines[k], boundary))
     && Proper(rs[1..], lines, boundary, rs[0].to + 1))
  }

  lemma {:induction false} SectionsAreProper(lines: seq<string>, boundary: string, from: nat)
    requires from <= |lines|
    ensures Proper(SectionsFrom(lines, boundary, from), lines, boundary, from)
    decreases |lines| - from
  {
    hide IsBoundary, SectionsFrom, NextBoundary, EndLine, Proper;
    var i := NextBoundary(lines, boundary, from);
    SectionsStep(lines, boundary, from);
    ProperNone(lines, boundary, from);
    if i < |lines| {
      ProperNone(lines, boundary, i + 1);
      if lines[i] != EndLine(boundary) {
        SectionsAreProper(lines, boundary, i + 1);
        ProperCons(Range(from, i), SectionsFrom(lines, boundary, i + 1), lines, boundary, from);
      } else {
        ProperCons(Range(from, i), [], lines, boundary, from);
      }
    }
  }

  lemma ProperNone(lines: seq<string>, boundary: string, from: nat)
    ensures Proper([], lines, boundary, from)
  {
  }

  lemma ProperCons(r: Range, rs: seq<Range>, lines: seq<string>, boundary: string, from: nat)
    requires from <= r.from <= r.to < |lines| && Proper(rs, lines, boundary, r.to + 1)
    requires forall k :: r.from <= k < r.to ==> !IsBoundary(lines[k], boundary)
    ensures Proper([r] + rs, lines, boundary, from)
  {
    hide IsBoundary;
    assert ([r] + rs)[1..] == rs;
  }

  lemma {:induction false} ProperApart(rs: seq<Range>, lines: seq<string>, boundary: string, from: nat)
    requires Proper(rs, lines, boundary, from)
    ensures forall k :: 0 <= k < |rs| ==> from <= rs[k].from <= rs[k].to < |lines|
    ensures forall j, k :: 0 <= j < k < |rs| ==> rs[j].to < rs[k].from
    ensures forall k :: 0 <= k < |rs| ==> Free(lines[rs[k].from..rs[k].to], boundary)
    decreases |rs|
  {
    hide IsBoundary;
    if rs != [] {
      ProperApart(rs[1..], lines, boundary, rs[0].to + 1);
      assert forall k :: 0 < k < |rs| ==> rs[k] == rs[1..][k - 1];
    }
  }

  // For any input: the ranges lie in order and apart, no range holds a boundary line, and
  // every range is strictly shorter than the text it was cut from.
  lemma RangesAreProper(lines: seq<string>, boundary: string)
    ensures var rs := SplitMultipart(lines, boundary);
            && (forall k :: 0 <= k < |rs| ==> 0 < rs[k].from <= rs[k].to < |lines|)
            && (forall j, k :: 0 <= j < k < |rs| ==> rs[j].to < rs[k].from)
            && (forall k :: 0 <= k < |rs| ==> Free(lines[rs[k].from..rs[k].to], boundary))
            && (forall k :: 0 <= k < |rs| ==> rs[k].to - rs[k].from < |lines|)
  {
    hide SectionsFrom, Free, Proper;
    var i := NextBoundary(lines, boundary, 0);
    if i < |lines| && lines[i] != EndLine(boundary) {
      SectionsAreProper(lines, boundary, i + 1);
      ProperApart(SectionsFrom(lines, boundary, i + 1), lines, boundary, i + 1);
    }
  }

  // The text of the ranges.
  function Cuts(lines: seq<string>, rs: seq<Range>): (cuts: seq<seq<string>>)
    requires forall k :: 0 <= k < |rs| ==> rs[k].from <= rs[k].to <= |lines|
    ensures |cuts| == |rs|
    ensures forall k :: 0 <= k < |rs| ==> cuts[k] == lines[rs[k].from..rs[k].to]
  {
    seq(|rs|, k requires 0 <= k < |rs| => lines[rs[k].from..rs[k].to])
  }

  // What splitting delivers.
  function SplitTexts(lines: seq<string>, boundary: string): (texts: seq<seq<string>>)
    ensures forall k :: 0 <= k < |texts| ==> Free(texts[k], boundary) && |texts[k]| < |lines|
  {
    RangesAreProper(lines, boundary);
    Cuts(lines, SplitMultipart(lines, boundary))
  }

  // ---------------------------------------------------------------- composing

  // A body section with its headers; `content` is the encoded body.
  datatype Section = Section(headers: seq<MimeHeader>, content: string)

  function HeadersText(headers: seq<MimeHeader>): string
  {
    if headers == [] then ""
    else headers[0].key + ": " + headers[0].value + "\r\n" + HeadersText(headers[1..])
  }

  function SectionText(section: Section): string
  {
    HeadersText(section.headers) + "\r\n" + section.content
  }

  function Compose(sections: seq<Section>, boundary: string): string
  {
    if sections == [] then EndLine(boundary) + "\r\n"
    else StartLine(boundary) + "\r\n" + (SectionText(sections[0]) + "\r\n") + Compose(sections[1..], boundary)
  }

  method GenerateHeaders(headers: seq<MimeHeader>) returns (res: string)
    ensures res == HeadersText(headers)
  {
    res := "";
    assert headers[0..] == headers;
    for i := 0 to |headers|
      invariant res + HeadersText(headers[i..]) == HeadersText(headers)
    {
      assert headers[i..][1..] == headers[i + 1..];
      var line := headers[i].key + ": " + headers[i].value + "\r\n";
      Assoc(res, line, HeadersText(headers[i + 1..]));
      res := res + line;
    }
    assert res + "" == res;
  }

  method ComposeSections(sections: seq<Section>, boundary: string) returns (res: string)
    ensures res == Compose(sections, boundary)
  {
    res := "";
    assert sections[0..] == sections;
    for i := 0 to |sections|
      invariant res + Compose(sections[i..], boundary) == Compose(sections, boundary)
    {
      assert sections[i..][1..] == sections[i + 1..];
      var head := GenerateHeaders(sections[i].headers);
      var piece := "--" + boundary + "\r\n" + (head + "\r\n" + sections[i].content + "\r\n");
      Assoc(res, piece, Compose(sections[i + 1..], boundary));
      res := res + piece;
    }
    res := res + ("--" + boundary + "--" + "\r\n");
  }

  // ---------------------------------------------------------------- round trip

  // The lines of a section as the reader sees them.
  function SectionLines(section: Section): seq<string>
  {
    Lines(SectionText(section) + "\r\n")
  }

  function AllSectionLines(sections: seq<Section>): (texts: seq<seq<string>>)
    ensures |texts| == |sections|
    ensures forall k :: 0 <= k < |sections| ==> texts[k] == SectionLines(sections[k])
  {
    seq(|sections|, k requires 0 <= k < |sections| => SectionLines(sections[k]))
  }

  function Composed(texts: seq<seq<string>>, boundary: string): seq<string>
  {
    if texts == [] then [EndLine(boundary)]
    else [StartLine(boundary)] + (texts[0] + Composed(texts[1..], boundary))
  }

  // A text that ends in a line break does not run into what follows.
  lemma {:induction false} LinesApart(a: string, rest: string)
    ensures Lines(a + "\r\n" + rest) == Lines(a + "\r\n") + Lines(rest)
    decreases |a|
  {
    hide Lines, Chomp, Find;
    var i := Find(a, '\n');
    if i == |a| {
      OneLineApart(a, rest);
    } else {
      var head, tail := a[..i], a[i + 1..];
      BreakAt(a, i, "\r\n" + rest);
      BreakAt(a, i, "\r\n");
      Reassociate(a, rest);
      Reassociate(tail, rest);
      LinesApart(tail, rest);
      Assoc([Chomp(head)], Lines(tail + "\r\n"), Lines(rest));
    }
  }

  lemma Reassociate(a: string, rest: string)
    ensures a + "\r\n" + rest == a + ("\r\n" + rest)
  {
  }

  lemma OneLineApart(a: string, rest: string)
    requires '\n' !in a
    ensures Lines(a + "\r\n" + rest) == Lines(a + "\r\n") + Lines(rest)
  {
    hide Lines;
    LinesOfLine(a, rest);
    LinesOfLine(a, "");
    NoLines();
    assert a + "\r\n" + "" == a + "\r\n" && [a] + [] == [a];
  }

  lemma NoLines()
    ensures Lines("") == []
  {
  }

  lemma BreakAt(a: string, i: nat, rest: string)
    requires i < |a| && a[i] == '\n' && forall k :: 0 <= k < i ==> a[k] != '\n'
    ensures Lines(a + rest) == [Chomp(a[..i])] + Lines(a[i + 1..] + rest)
  {
    hide Lines, Chomp;
    LinesStep(a + rest, i);
    assert (a + rest)[..i] == a[..i] && (a + rest)[i + 1..] == a[i + 1..] + rest;
  }

  lemma {:induction false} ComposedLines(sections: seq<Section>, boundary: string)
    requires '\n' !in boundary
    ensures Lines(Compose(sections, boundary)) == Composed(AllSectionLines(sections), boundary)
  {
    hide Lines, SectionText;
    if sections == [] {
      LinesOfLine(EndLine(boundary), "");
      NoLines();
      assert EndLine(boundary) + "\r\n" + "" == EndLine(boundary) + "\r\n";
    } else {
      var rest := Compose(sections[1..], boundary);
      var text := SectionText(sections[0]);
      assert StartLine(boundary) + "\r\n" + (text + "\r\n") + rest
          == StartLine(boundary) + "\r\n" + (text + "\r\n" + rest);
      LinesOfLine(StartLine(boundary), text + "\r\n" + rest);
      LinesApart(text, rest);
      ComposedLines(sections[1..], boundary);
      assert AllSectionLines(sections)[1..] == AllSectionLines(sections[1..]);
    }
  }

  // Sections found behind a boundary line.
  lemma {:induction false} SectionsOfComposed(lines: seq<string>, boundary: string, from: nat, texts: seq<seq<string>>)
    requires from <= |lines| && texts != [] && lines[from..] == texts[0] + Composed(texts[1..], boundary)
    requires forall k :: 0 <= k < |texts| ==> Free(texts[k], boundary)
    ensures var rs := SectionsFrom(lines, boundary, from);
            |rs| == |texts| && forall k :: 0 <= k < |rs| ==>
              rs[k].from <= rs[k].to <= |lines| && lines[rs[k].from..rs[k].to] == texts[k]
    decreases |texts|
  {
    hide SectionsFrom, IsBoundary, NextBoundary, StartLine, EndLine, Composed;
    var n := |texts[0]|;
    var rest := texts[1..];
    ComposedHead(rest, boundary);
    HeadOfRest(lines, from, texts[0], Composed(rest, boundary));
    assert Free(texts[0], boundary);
    assert forall k :: from <= k < from + n ==> lines[k] == texts[0][k - from] && lines[k] in texts[0];
    NextIs(lines, boundary, from, from + n);
    SectionsStep(lines, boundary, from);
    LinesDiffer(boundary);
    if rest != [] {
      assert lines[from + n + 1..] == rest[0] + Composed(rest[1..], boundary);
      SectionsOfComposed(lines, boundary, from + n + 1, rest);
      var rs := SectionsFrom(lines, boundary, from + n + 1);
      assert forall k :: 0 < k < |texts| ==> texts[k] == rest[k - 1] && ([Range(from, from + n)] + rs)[k] == rs[k - 1];
    }
  }

  lemma ComposedHead(texts: seq<seq<string>>, boundary: string)
    ensures Composed(texts, boundary) != [] && IsBoundary(Composed(texts, boundary)[0], boundary)
    ensures Composed(texts, boundary)[0] == if texts == [] then EndLine(boundary) else StartLine(boundary)
    ensures texts != [] ==> Composed(texts, boundary)[1..] == texts[0] + Composed(texts[1..], boundary)
  {
  }

  lemma HeadOfRest(lines: seq<string>, from: nat, text: seq<string>, tail: seq<string>)
    requires from <= |lines| && lines[from..] == text + tail && tail != []
    ensures from + |text| < |lines|
    ensures lines[from + |text|] == tail[0] && lines[from + |text| + 1..] == tail[1..]
    ensures lines[from..from + |text|] == text
    ensures forall k :: from <= k < from + |text| ==> lines[k] == text[k - from]
  {
    assert lines == lines[..from] + (text + tail);
  }

  // Splitting the composed body returns exactly the lines of each section, in order, if
  // and only if no line of a section is a boundary line (section 5.1.1 of RFC 2046).
  lemma ComposeThenSplit(sections: seq<Section>, boundary: string)
    requires '\n' !in boundary
    ensures SplitTexts(Lines(Compose(sections, boundary)), boundary) == AllSectionLines(sections)
            <==> forall k :: 0 <= k < |sections| ==> Free(SectionLines(sections[k]), boundary)
  {
    hide Lines, Compose, SectionLines, Free, IsBoundary, SectionsFrom;
    ComposedLines(sections, boundary);
    var texts := AllSectionLines(sections);
    var lines := Composed(texts, boundary);
    if forall k :: 0 <= k < |sections| ==> Free(SectionLines(sections[k]), boundary) {
      SplitComposed(texts, boundary);
    }
  }

  lemma SplitComposed(texts: seq<seq<string>>, boundary: string)
    requires forall k :: 0 <= k < |texts| ==> Free(texts[k], boundary)
    ensures SplitTexts(Composed(texts, boundary), boundary) == texts
  {
    hide Free, IsBoundary, SectionsFrom, Composed;
    var lines := Composed(texts, boundary);
    ComposedHead(texts, boundary);
    NextIs(lines, boundary, 0, 0);
    LinesDiffer(boundary);
    if texts != [] {
      SectionsOfComposed(lines, boundary, 1, texts);
    }
  }

  // ---------------------------------------------------------------- what is in a section

  // The header lines of a section as they are written.
  function HeaderLines(headers: seq<MimeHeader>): (r: seq<string>)
    ensures |r| == |headers|
  {
    seq(|headers|, i requires 0 <= i < |headers| => headers[i].key + ": " + headers[i].value)
  }

  lemma {:induction false} HeadersAreLines(headers: seq<MimeHeader>)
    ensures HeadersText(headers) == Unlines(HeaderLines(headers))
  {
    if headers == [] {
      assert HeaderLines(headers) == [];
    } else {
      HeadersAreLines(headers[1..]);
      assert HeaderLines(headers)[1..] == HeaderLines(headers[1..]);
    }
  }

  // A section is read as it was meant: a line for every header, an empty line, the lines of
  // the content.
  lemma SectionReads(section: Section)
    requires NoNewlines(HeaderLines(section.headers))
    ensures SectionLines(section) == HeaderLines(section.headers) + [""] + Lines(section.content + "\r\n")
  {
    hide Lines, Unlines, HeadersText;
    var lines, rest := HeaderLines(section.headers), section.content + "\r\n";
    HeadersAreLines(section.headers);
    assert SectionText(section) + "\r\n" == Unlines(lines) + ("" + "\r\n" + rest) by {
      assert "" + "\r\n" + rest == "\r\n" + rest;
      assert Unlines(lines) + "\r\n" + section.content + "\r\n" == Unlines(lines) + ("\r\n" + rest);
    }
    LinesOfUnlines(lines, "" + "\r\n" + rest);
    LinesOfLine("", rest);
    assert lines + ([""] + Lines(rest)) == lines + [""] + Lines(rest);
  }
}
