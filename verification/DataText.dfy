// What the DATA handler makes of a message: its headers are joined, two more are added, all
// of them are folded, and the body is put behind them
// (lib/smtp/server/handlers/data.src.cc:205-246).
module DataText {
  import opened Text
  import opened Mime
  import opened Builders
  import opened Unfolding
  import H = DkimHeader

  // ---------------------------------------------------------------- the text

  // The results of the checks and the trace line, as other parts print them.
  datatype Marks = Marks(spf: string, dkim: string, dmarc: string, su: string, received: string)

  function AuthTags(authenticated: bool, comrade: bool, m: Marks): seq<H.Tag>
  {
    if authenticated then [H.Tag("auth", "pass")]
    else
      [H.Tag("spf", m.spf), H.Tag("dkim", m.dkim), H.Tag("dmarc", m.dmarc)]
      + if comrade then [H.Tag("su", m.su)] else []
  }

  // The two headers the server adds.
  function Added(authenticated: bool, comrade: bool, m: Marks): seq<string>
  {
    ["X-Fannst-Auth: " + Join(H.TagTexts(AuthTags(authenticated, comrade, m)), "; "), "Received: " + m.received]
  }

  // What the first of them says: the password, or the checks, in their order.
  lemma AddedSays(authenticated: bool, comrade: bool, m: Marks)
    ensures Added(authenticated, comrade, m) ==
            ["X-Fannst-Auth: " +
             Join(if authenticated then ["auth=pass"]
                  else ["spf=" + m.spf, "dkim=" + m.dkim, "dmarc=" + m.dmarc] + if comrade then ["su=" + m.su] else [], "; "),
             "Received: " + m.received]
  {
    hide Join;
    assert "auth" + "=" + "pass" == "auth=pass" && "spf" + "=" == "spf=" && "dkim" + "=" == "dkim=";
    assert "dmarc" + "=" == "dmarc=" && "su" + "=" == "su=";
    var texts := H.TagTexts(AuthTags(authenticated, comrade, m));
    assert texts == if authenticated then ["auth=pass"]
                    else ["spf=" + m.spf, "dkim=" + m.dkim, "dmarc=" + m.dmarc] + if comrade then ["su=" + m.su] else [];
  }

  // `whole` is false if a header could not be folded: the text ends in front of it.
  datatype Written = Written(text: string, whole: bool)

  function WriteHeaders(headers: seq<string>): Written
  {
    if headers == [] then Written("", true)
    else
      match FoldLines(headers[0], 128)
      case Done(lines) =>
        var rest := WriteHeaders(headers[1..]);
        Written(Crlf(lines) + "\r\n" + rest.text, rest.whole)
      case _ => Written("", false)
  }

  // Without an empty line, or without a body behind it, the original works on iterators
  // that were never assigned.
  function StoredText(raw: string, added: seq<string>): Outcome<Written>
  {
    var lines := Lines(raw);
    var parts := SectionsOf(lines);
    if parts.headersEnd.None? || parts.bodyBegin.None? then Undefined
    else
      var w := WriteHeaders(JoinHeaders(lines[..parts.headersEnd.value]) + added);
      Done(if w.whole then Written(w.text + "\r\n\r\n" + Unlines(lines[parts.bodyBegin.value..]), true) else w)
  }

  // ---------------------------------------------------------------- the loops

  method BuildAdded(authenticated: bool, comrade: bool, m: Marks) returns (added: seq<string>)
    ensures added == Added(authenticated, comrade, m)
  {
    var authResults := [];
    if !authenticated {
      authResults := [H.Tag("spf", m.spf), H.Tag("dkim", m.dkim), H.Tag("dmarc", m.dmarc)];
      if comrade {
        authResults := authResults + [H.Tag("su", m.su)];
      }
    } else {
      authResults := [H.Tag("auth", "pass")];
    }
    assert authResults == AuthTags(authenticated, comrade, m);
    var auth := H.BuildHeaderFromSegments("X-Fannst-Auth", authResults);
    assert "X-Fannst-Auth" + ": " == "X-Fannst-Auth: ";
    added := [auth, "Received: " + m.received];
  }

  method BuildText(raw: string, added: seq<string>) returns (r: Outcome<Written>)
    ensures r == StoredText(raw, added)
  {
    hide Lines, SectionsOf, JoinHeaders, Unlines, FoldLines, Crlf, WriteHeaders;
    var lines := GetMimeLines(raw);
    var parts := SplitMimeBodyAndHeaders(lines);
    SectionsInside(lines);
    if parts.headersEnd.None? || parts.bodyBegin.None? {
      return Undefined;
    }
    var joinedHeaders := JoinHeaderLines(lines, 0, parts.headersEnd.value);
    assert lines[0..parts.headersEnd.value] == lines[..parts.headersEnd.value];
    joinedHeaders := joinedHeaders + added;
    var text := "";
    var whole := true;
    var it := 0;
    assert joinedHeaders[0..] == joinedHeaders;
    assert "" + WriteHeaders(joinedHeaders).text == WriteHeaders(joinedHeaders).text;
    while it < |joinedHeaders| && whole
      invariant it <= |joinedHeaders|
      invariant whole ==>
        var rest := WriteHeaders(joinedHeaders[it..]);
        WriteHeaders(joinedHeaders) == Written(text + rest.text, rest.whole)
      invariant !whole ==> WriteHeaders(joinedHeaders) == Written(text, false)
    {
      WriteStep(joinedHeaders, it);
      var folded := FoldHeader(joinedHeaders[it], 128);
      FoldOutcome(joinedHeaders[it]);
      if folded.Done? {
        Assoc(text, folded.value + "\r\n", WriteHeaders(joinedHeaders[it + 1..]).text);
        text := text + (folded.value + "\r\n");
      } else {
        assert text + "" == text;
        whole := false;
      }
      it := it + 1;
    }
    if !whole {
      return Done(Written(text, false));
    }
    WriteNothing();
    assert joinedHeaders[it..] == [] && text + "" == text;
    var body := GetStringFromLines(lines[parts.bodyBegin.value..]);
    r := Done(Written(text + "\r\n\r\n" + body, true));
  }

  lemma WriteStep(headers: seq<string>, it: nat)
    requires it < |headers|
    ensures var w, rest := WriteHeaders(headers[it..]), WriteHeaders(headers[it + 1..]);
            match FoldLines(headers[it], 128)
            case Done(lines) => w == Written(Crlf(lines) + "\r\n" + rest.text, rest.whole)
            case _ => w == Written("", false)
  {
    assert headers[it..][1..] == headers[it + 1..];
  }

  lemma WriteNothing()
    ensures WriteHeaders([]) == Written("", true)
  {
  }

  lemma FoldOutcome(header: string)
    ensures !FoldLines(header, 128).Undefined?
  {
  }

  lemma SectionsInside(lines: seq<string>)
    ensures var p := SectionsOf(lines);
            && (p.headersEnd.Some? ==> p.headersEnd.value < |lines|)
            && (p.bodyBegin.Some? ==> p.bodyBegin.value < |lines| && lines[p.bodyBegin.value] != "")
  {
  }

  // ---------------------------------------------------------------- reading it back

  predicate AllFold(headers: seq<string>)
  {
    forall i :: 0 <= i < |headers| ==> FoldLines(headers[i], 128).Done?
  }

  function PhysicalLines(headers: seq<string>): seq<string>
    requires AllFold(headers)
  {
    if headers == [] then [] else FoldLines(headers[0], 128).value + PhysicalLines(headers[1..])
  }

  lemma {:induction false} WrittenLines(headers: seq<string>)
    requires AllFold(headers)
    ensures WriteHeaders(headers) == Written(Unlines(PhysicalLines(headers)), true)
  {
    hide FoldLines, Crlf, Unlines;
    if headers == [] {
      NothingWritten();
    } else {
      var lines := FoldLines(headers[0], 128).value;
      FoldedIsSomething(headers[0]);
      CrlfIsUnlines(lines);
      WrittenLines(headers[1..]);
      UnlinesAppend(lines, PhysicalLines(headers[1..]));
    }
  }

  lemma FoldedIsSomething(header: string)
    requires FoldLines(header, 128).Done?
    ensures FoldLines(header, 128).value != []
  {
  }

  lemma {:induction false} PhysicalAppend(a: seq<string>, b: seq<string>)
    requires AllFold(a) && AllFold(b)
    ensures AllFold(a + b) && PhysicalLines(a + b) == PhysicalLines(a) + PhysicalLines(b)
  {
    hide FoldLines;
    if a == [] {
      assert a + b == b && [] + PhysicalLines(b) == PhysicalLines(b);
    } else {
      assert (a + b)[1..] == a[1..] + b;
      PhysicalAppend(a[1..], b);
      Assoc(FoldLines(a[0], 128).value, PhysicalLines(a[1..]), PhysicalLines(b));
    }
  }

  lemma {:induction false} BlockIsPhysical(hs: seq<Canonical>)
    requires Foldable(hs, 128)
    ensures AllFold(Texts(hs)) && PhysicalLines(Texts(hs)) == FoldBlock(hs, 128)
  {
    hide FoldLines;
    if hs != [] {
      UnfoldUndoesFold(hs[0], 128);
      BlockIsPhysical(hs[1..]);
      assert Texts(hs)[1..] == Texts(hs[1..]);
    }
  }

  // Lines that stay what they are: no empty one, no line break in one, and a first line
  // that starts a header.
  predicate Firm(lines: seq<string>)
    ensures Firm(lines) ==> lines != []
  {
    && lines != [] && NoNewlines(lines) && !Continues(lines[0])
    && forall i :: 0 <= i < |lines| ==> lines[i] != ""
  }

  lemma TailIsFilled(s: string)
    ensures forall i :: 0 <= i < |Tail(s, 128)| ==> Tail(s, 128)[i] != ""
    decreases |s|
  {
    if |s| > 121 {
      TailIsFilled(s[121..]);
    }
  }

  lemma FoldSegmentFirm(st: Fold, raw: string, first: bool)
    requires Firm(st.lines) && '\n' !in raw
    ensures Firm(FoldSegment(st, raw, first, 128).lines)
  {
    hide Trim, Tail;
    FoldSegmentNoNewlines(st, raw, first, 128);
    if |Trim(raw)| > 121 {
      TailIsFilled(Trim(raw)[122..]);
    }
  }

  lemma {:induction false} FoldSegmentsFirm(st: Fold, segs: seq<string>, first: bool)
    requires Firm(st.lines) && NoNewlines(segs)
    ensures Firm(FoldSegments(st, segs, first, 128).lines)
    decreases |segs|
  {
    hide FoldSegment, Firm;
    if segs != [] {
      FoldSegmentFirm(st, segs[0], first);
      FoldSegmentsFirm(FoldSegment(st, segs[0], first, 128), segs[1..], false);
    }
  }

  lemma {:induction false} SplitNoNewlines(s: string)
    requires '\n' !in s
    ensures NoNewlines(Split(s, ';'))
    decreases |s|
  {
    var i := Find(s, ';');
    if i < |s| {
      SplitNoNewlines(s[i + 1..]);
    }
  }

  // A header with a name, folded.
  predicate Named(header: string)
  {
    && Find(header, ':') < |header| && '\n' !in header
    && Key(header) != "" && |Key(header)| <= 128 && !Continues(Key(header) + ": ")
  }

  lemma NamedIsFirm(header: string)
    requires Named(header)
    ensures FoldLines(header, 128).Done? && Firm(FoldLines(header, 128).value)
  {
    hide FoldSegments, Split, Find, Trim;
    var start := Key(header) + ": ";
    assert '\n' !in Key(header) by {
      TrimmedNoNewline(header[..Find(header, ':')]);
    }
    SplitNoNewlines(header[Find(header, ':') + 1..]);
    FoldSegmentsFirm(Fold([start], |start|), Segments(header), true);
  }

  lemma {:induction false} NamedBlockIsFirm(headers: seq<string>)
    requires headers != [] && forall i :: 0 <= i < |headers| ==> Named(headers[i])
    ensures AllFold(headers) && Firm(PhysicalLines(headers))
  {
    hide FoldLines, Named;
    NamedIsFirm(headers[0]);
    if |headers| > 1 {
      NamedBlockIsFirm(headers[1..]);
    } else {
      assert headers[1..] == [];
    }
  }

  // The headers that are added have names, whatever the results are.
  lemma AddedIsNamed(authenticated: bool, comrade: bool, m: Marks)
    requires '\n' !in m.spf && '\n' !in m.dkim && '\n' !in m.dmarc && '\n' !in m.su && '\n' !in m.received
    ensures forall i :: 0 <= i < 2 ==> Named(Added(authenticated, comrade, m)[i])
  {
    hide Join, AuthTags, Named;
    var value := Join(H.TagTexts(AuthTags(authenticated, comrade, m)), "; ");
    ResultsNoNewline(authenticated, comrade, m);
    NameIsNamed("X-Fannst-Auth", value);
    NameIsNamed("Received", m.received);
    assert "X-Fannst-Auth" + ": " + value == "X-Fannst-Auth: " + value;
    assert "Received" + ": " + m.received == "Received: " + m.received;
  }

  lemma NameIsNamed(name: string, value: string)
    requires name != "" && |name| <= 128 && ':' !in name && '\n' !in name && '\n' !in value
    requires name[0] != ' ' && name[0] != '\t' && name[|name| - 1] != ' '
    ensures Named(name + ": " + value)
  {
    var header := name + ": " + value;
    FindIs(header, ':', |name|);
    assert header[..|name|] == name && Trim(name) == name;
  }

  lemma ResultsNoNewline(authenticated: bool, comrade: bool, m: Marks)
    requires '\n' !in m.spf && '\n' !in m.dkim && '\n' !in m.dmarc && '\n' !in m.su
    ensures '\n' !in Join(H.TagTexts(AuthTags(authenticated, comrade, m)), "; ")
  {
    hide Join;
    var tags := AuthTags(authenticated, comrade, m);
    forall i | 0 <= i < |tags| ensures '\n' !in tags[i].Text() {
      TagNoNewline(tags[i]);
    }
    JoinNoNewline(H.TagTexts(tags));
  }

  lemma TagNoNewline(tag: H.Tag)
    requires '\n' !in tag.key && '\n' !in tag.value
    ensures '\n' !in tag.Text()
  {
  }

  lemma {:induction false} JoinNoNewline(texts: seq<string>)
    requires NoNewlines(texts)
    ensures '\n' !in Join(texts, "; ")
  {
    if |texts| > 1 {
      JoinNoNewline(texts[1..]);
    }
  }

  lemma TwoBreaksRead(head: seq<string>, body: seq<string>)
    requires NoNewlines(head) && NoNewlines(body)
    ensures Lines(Unlines(head) + "\r\n\r\n" + Unlines(body)) == head + ["", ""] + body
  {
    hide Lines, Unlines;
    var rest := "\r\n\r\n" + Unlines(body);
    LinesOfUnlines(head, rest);
    LinesOfLine("", "\r\n" + Unlines(body));
    LinesOfLine("", Unlines(body));
    LinesOfUnlines(body, "");
    LinesOfNothing();
    assert "" + "\r\n" + ("\r\n" + Unlines(body)) == rest;
    assert "" + "\r\n" + Unlines(body) == "\r\n" + Unlines(body);
    assert Unlines(body) + "" == Unlines(body) && body + [] == body;
    assert Unlines(head) + "\r\n\r\n" + Unlines(body) == Unlines(head) + rest;
    assert head + ([""] + ([""] + body)) == head + ["", ""] + body;
  }

  function HeadersOf(raw: string): seq<string>
    requires Sectioned(raw)
  {
    JoinHeaders(Lines(raw)[..SectionsOf(Lines(raw)).headersEnd.value])
  }

  function BodyOf(raw: string): seq<string>
    requires Sectioned(raw)
  {
    Lines(raw)[SectionsOf(Lines(raw)).bodyBegin.value..]
  }

  lemma WrittenReads(head: seq<string>, body: seq<string>)
    requires NoNewlines(head) && NoNewlines(body) && body != [] && body[0] != ""
    requires forall i :: 0 <= i < |head| ==> head[i] != ""
    ensures var text := Unlines(head) + "\r\n\r\n" + Unlines(body);
            Sectioned(text) && HeadersOf(text) == JoinHeaders(head) && BodyOf(text) == body
  {
    hide JoinHeaders, Lines, Unlines, SectionsOf;
    TwoBreaksRead(head, body);
    SectionsFound(head, ["", ""], body);
    var lines := head + ["", ""] + body;
    assert lines[..|head|] == head && lines[|head| + 2..] == body;
  }

  lemma SectionedBody(raw: string)
    requires Sectioned(raw)
    ensures NoNewlines(BodyOf(raw)) && BodyOf(raw) != [] && BodyOf(raw)[0] != ""
  {
    hide Lines, SectionsOf;
    SectionsInside(Lines(raw));
    LinesHaveNoNewline(raw);
  }

  lemma {:induction false} WholeIfFolded(headers: seq<string>)
    ensures WriteHeaders(headers).whole <==> AllFold(headers)
  {
    hide FoldLines, Crlf;
    if headers != [] {
      WholeIfFolded(headers[1..]);
      FoldOutcome(headers[0]);
      if AllFold(headers[1..]) && FoldLines(headers[0], 128).Done? {
        assert forall i :: 0 < i < |headers| ==> headers[i] == headers[1..][i - 1];
      }
      if AllFold(headers) {
        assert forall i :: 0 <= i < |headers[1..]| ==> headers[1..][i] == headers[i + 1];
      }
    }
  }

  // The text is made for a message with headers, an empty line and a body, and it is whole
  // exactly if all headers can be folded, the added ones included.
  lemma WholeIfAllFold(raw: string, added: seq<string>)
    ensures Sectioned(raw) <==> StoredText(raw, added).Done?
    ensures Sectioned(raw) ==> (StoredText(raw, added).value.whole <==> AllFold(HeadersOf(raw) + added))
    ensures !Sectioned(raw) ==> StoredText(raw, added) == Undefined
  {
    hide Lines, SectionsOf, JoinHeaders, Unlines, AllFold, WriteHeaders;
    SectionsInside(Lines(raw));
    if Sectioned(raw) {
      WholeIfFolded(HeadersOf(raw) + added);
    }
  }

  // A text that can be rewritten: its headers have names that can be folded.
  predicate Storable(raw: string)
  {
    Sectioned(raw) && AllFold(HeadersOf(raw))
  }

  lemma AddedFold(authenticated: bool, comrade: bool, m: Marks)
    ensures AllFold(Added(authenticated, comrade, m))
  {
    hide Join, FoldLines, AuthTags;
    var value := Join(H.TagTexts(AuthTags(authenticated, comrade, m)), "; ");
    NameFolds("X-Fannst-Auth", value);
    NameFolds("Received", m.received);
    assert "X-Fannst-Auth" + ": " + value == "X-Fannst-Auth: " + value;
    assert "Received" + ": " + m.received == "Received: " + m.received;
  }

  lemma NameFolds(name: string, value: string)
    requires |name| <= 128 && ':' !in name
    ensures FoldLines(name + ": " + value, 128).Done?
  {
    hide FoldSegments, Split;
    var header := name + ": " + value;
    FindIs(header, ':', |name|);
  }

  lemma StoredWhole(raw: string, authenticated: bool, comrade: bool, m: Marks)
    requires Storable(raw)
    ensures var w := StoredText(raw, Added(authenticated, comrade, m)); w.Done? && w.value.whole
  {
    hide StoredText, Added, AllFold, HeadersOf, Sectioned;
    AddedFold(authenticated, comrade, m);
    BothFold(HeadersOf(raw), Added(authenticated, comrade, m));
    StoredTextIs(raw, Added(authenticated, comrade, m));
  }

  lemma BothFold(a: seq<string>, b: seq<string>)
    requires AllFold(a) && AllFold(b)
    ensures AllFold(a + b)
  {
    hide FoldLines;
  }

  lemma StoredTextIs(raw: string, added: seq<string>)
    requires Sectioned(raw) && AllFold(HeadersOf(raw) + added)
    ensures StoredText(raw, added) ==
            Done(Written(Unlines(PhysicalLines(HeadersOf(raw) + added)) + "\r\n\r\n" + Unlines(BodyOf(raw)), true))
  {
    hide JoinHeaders, Lines, Unlines, SectionsOf, WriteHeaders, AllFold, PhysicalLines;
    WrittenLines(HeadersOf(raw) + added);
  }

  // Read back, the stored text has the headers of the message, in order, in front of those
  // that were added, and the body of the message, line by line.
  lemma StoredTextReadsBack(raw: string, added: seq<string>, hs: seq<Canonical>)
    requires Sectioned(raw) && Foldable(hs, 128) && HeadersOf(raw) == Texts(hs)
    requires added != [] && forall i :: 0 <= i < |added| ==> Named(added[i])
    ensures var w := StoredText(raw, added);
            && w.Done? && w.value.whole && Sectioned(w.value.text)
            && AllFold(added) && HeadersOf(w.value.text) == HeadersOf(raw) + JoinHeaders(PhysicalLines(added))
            && BodyOf(w.value.text) == BodyOf(raw)
  {
    hide JoinHeaders, Lines, Unlines, SectionsOf, StoredText, FoldBlock, FoldLines, Named, AllFold, PhysicalLines, Sectioned,
      HeadersOf, BodyOf;
    SectionedBody(raw);
    NamedBlockIsFirm(added);
    BlockIsPhysical(hs);
    BlockLaws(hs, 128);
    PhysicalAppend(Texts(hs), added);
    StoredTextIs(raw, added);
    var block, more := FoldBlock(hs, 128), PhysicalLines(added);
    WrittenReads(block + more, BodyOf(raw));
    JoinHeadersAppend(block, more);
  }
}
