// Lines, header block and body of a MIME message (lib/mime/mimev2.src.cc).
module Mime {
  import opened Text
  import opened TextWords

  // ---------------------------------------------------------------- lines

  // `if (!line.empty() && line.back() == '\r') line.pop_back()`
  function Chomp(line: string): string
  {
    if line != "" && line[|line| - 1] == '\r' then line[..|line| - 1] else line
  }

  // What `getline` on '\n' delivers: a final '\n' does not start another line.
  function Lines(raw: string): seq<string>
    decreases |raw|
  {
    if raw == "" then []
    else
      var i := Find(raw, '\n');
      if i == |raw| then [Chomp(raw)]
      else [Chomp(raw[..i])] + Lines(raw[i + 1..])
  }

  function Unlines(lines: seq<string>): string
  {
    if lines == [] then "" else lines[0] + "\r\n" + Unlines(lines[1..])
  }

  lemma LinesStep(raw: string, i: nat)
    requires i < |raw| && raw[i] == '\n' && forall k :: 0 <= k < i ==> raw[k] != '\n'
    ensures Lines(raw) == [Chomp(raw[..i])] + Lines(raw[i + 1..])
  {
    FindIs(raw, '\n', i);
  }

  lemma LinesLast(raw: string)
    requires raw != "" && forall k :: 0 <= k < |raw| ==> raw[k] != '\n'
    ensures Lines(raw) == [Chomp(raw)]
  {
    FindIs(raw, '\n', |raw|);
  }

  method GetMimeLines(raw: string) returns (lines: seq<string>)
    ensures lines == Lines(raw)
  {
    lines := [];
    var pos := 0;
    while pos < |raw|
      invariant 0 <= pos <= |raw|
      invariant lines + Lines(raw[pos..]) == Lines(raw)
    {
      ghost var before := lines;
      var line, next := GetLine(raw, pos);
      lines := lines + [Chomp(line)];
      assert before + ([Chomp(line)] + Lines(raw[next..])) == lines + Lines(raw[next..]);
      pos := next;
    }
  }

  lemma NothingLeft()
    ensures Lines("") == []
  {
  }

  // `getline(stream, line, '\n')` on a stream that is not at its end.
  method GetLine(raw: string, pos: nat) returns (line: string, next: nat)
    requires pos < |raw|
    ensures pos < next <= |raw|
    ensures Lines(raw[pos..]) == [Chomp(line)] + Lines(raw[next..])
  {
    hide Lines, Chomp;
    var end := pos;
    while end < |raw| && raw[end] != '\n'
      invariant pos <= end <= |raw|
      invariant forall k :: pos <= k < end ==> raw[k] != '\n'
    {
      end := end + 1;
    }
    line := raw[pos..end];
    ghost var rest := raw[pos..];
    assert forall k :: 0 <= k < end - pos ==> rest[k] == raw[pos + k];
    if end < |raw| {
      next := end + 1;
      LinesStep(rest, end - pos);
      assert rest[..end - pos] == line && rest[end - pos + 1..] == raw[next..];
    } else {
      next := end;
      LinesLast(rest);
      assert rest == line && raw[next..] == "";
      NothingLeft();
    }
  }

  method GetStringFromLines(lines: seq<string>) returns (text: string)
    ensures text == Unlines(lines)
  {
    text := "";
    for i := 0 to |lines|
      invariant text + Unlines(lines[i..]) == Unlines(lines)
    {
      assert lines[i..][0] == lines[i] && lines[i..][1..] == lines[i + 1..];
      text := text + lines[i] + "\r\n";
    }
  }

  lemma {:induction false} UnlinesAppend(a: seq<string>, b: seq<string>)
    ensures Unlines(a + b) == Unlines(a) + Unlines(b)
  {
    if a == [] {
      assert a + b == b;
    } else {
      assert (a + b)[1..] == a[1..] + b;
      UnlinesAppend(a[1..], b);
    }
  }

  predicate NoNewlines(lines: seq<string>)
  {
    forall k :: 0 <= k < |lines| ==> '\n' !in lines[k]
  }

  lemma ChompKeeps(line: string, c: char)
    ensures c in Chomp(line) ==> c in line
  {
  }

  lemma {:induction false} LinesHaveNoNewline(raw: string)
    ensures NoNewlines(Lines(raw))
    decreases |raw|
  {
    hide Find, Chomp;
    if raw != "" {
      var i := Find(raw, '\n');
      ChompKeeps(raw[..i], '\n');
      ChompKeeps(raw, '\n');
      if i < |raw| {
        LinesHaveNoNewline(raw[i + 1..]);
      }
    }
  }

  lemma LinesOfLine(line: string, rest: string)
    requires '\n' !in line
    ensures Lines(line + "\r\n" + rest) == [line] + Lines(rest)
  {
    hide Lines, Chomp;
    var raw := line + "\r\n" + rest;
    LinesStep(raw, |line| + 1);
    assert raw[..|line| + 1] == line + "\r";
    assert raw[|line| + 2..] == rest;
    Chomped(line);
  }

  lemma Chomped(line: string)
    ensures Chomp(line + "\r") == line
  {
    assert (line + "\r")[..|line|] == line;
  }

  lemma UnlinesCons(lines: seq<string>, rest: string)
    requires lines != []
    ensures Unlines(lines) + rest == lines[0] + "\r\n" + (Unlines(lines[1..]) + rest)
  {
  }

  lemma PrependToAll<T>(a: seq<T>, b: seq<T>)
    requires a != []
    ensures [a[0]] + (a[1..] + b) == a + b
  {
  }

  lemma Assoc<T>(a: seq<T>, b: seq<T>, c: seq<T>)
    ensures a + (b + c) == (a + b) + c
  {
  }

  lemma Cut<T>(a: seq<T>, b: seq<T>, n: nat)
    requires n <= |a|
    ensures a[..n] + a[n..] == a && a[..n] + (a[n..] + b) == a + b
  {
  }

  lemma NothingWritten()
    ensures Unlines([]) == ""
  {
  }

  // Writing lines and reading them back, with any text behind them.
  lemma {:induction false} LinesOfUnlines(lines: seq<string>, rest: string)
    requires NoNewlines(lines)
    ensures Lines(Unlines(lines) + rest) == lines + Lines(rest)
  {
    hide Lines, Unlines;
    if lines == [] {
      NothingWritten();
      assert "" + rest == rest && [] + Lines(rest) == Lines(rest);
    } else {
      LinesOfUnlines(lines[1..], rest);
      LinesOfLine(lines[0], Unlines(lines[1..]) + rest);
      UnlinesCons(lines, rest);
      PrependToAll(lines, Lines(rest));
    }
  }

  // Lines written out determine the lines.
  lemma UnlinesInjective(a: seq<string>, b: seq<string>)
    requires NoNewlines(a) && NoNewlines(b)
    requires Unlines(a) == Unlines(b)
    ensures a == b
  {
    LinesOfUnlines(a, "");
    LinesOfUnlines(b, "");
    assert Unlines(a) + "" == Unlines(a) && Unlines(b) + "" == Unlines(b);
    assert a + [] == a && b + [] == b;
  }

  // ---------------------------------------------------------------- header block and body

  function FirstEmpty(lines: seq<string>, from: nat): (i: nat)
    requires from <= |lines|
    ensures from <= i <= |lines|
    ensures i < |lines| ==> lines[i] == ""
    ensures forall k :: from <= k < i ==> lines[k] != ""
    decreases |lines| - from
  {
    if from == |lines| || lines[from] == "" then from else FirstEmpty(lines, from + 1)
  }

  function FirstFilled(lines: seq<string>, from: nat): (i: nat)
    requires from <= |lines|
    ensures from <= i <= |lines|
    ensures i < |lines| ==> lines[i] != ""
    ensures forall k :: from <= k < i ==> lines[k] == ""
    decreases |lines| - from
  {
    if from == |lines| || lines[from] != "" then from else FirstFilled(lines, from + 1)
  }

  // `None` is an iterator the original never assigns.
  datatype Sections = Sections(headersEnd: Option<nat>, bodyBegin: Option<nat>)

  // The header block ends at the first empty line; the body starts at the first
  // non-empty line behind it.
  function SectionsOf(lines: seq<string>): Sections
  {
    var h := FirstEmpty(lines, 0);
    var b := FirstFilled(lines, h);
    if h == |lines| then Sections(None, None)
    else Sections(Some(h), if b == |lines| then None else Some(b))
  }

  // A message with a header block, an empty line and a body.
  predicate Sectioned(raw: string)
  {
    var parts := SectionsOf(Lines(raw));
    && parts.headersEnd.Some? && parts.bodyBegin.Some?
    && parts.headersEnd.value <= |Lines(raw)| && parts.bodyBegin.value <= |Lines(raw)|
  }

  method SplitMimeBodyAndHeaders(lines: seq<string>) returns (r: Sections)
    ensures r == SectionsOf(lines)
  {
    r := Sections(None, None);
    var headersEnded := false;
    var it := 0;
    while it < |lines|
      invariant 0 <= it <= |lines|
      invariant !headersEnded ==> r == Sections(None, None) && forall k :: 0 <= k < it ==> lines[k] != ""
      invariant headersEnded ==> r.headersEnd.Some? && r.bodyBegin.None? && r.headersEnd.value < it
      invariant headersEnded ==> lines[r.headersEnd.value] == ""
      invariant headersEnded ==> forall k :: 0 <= k < r.headersEnd.value ==> lines[k] != ""
      invariant headersEnded ==> forall k :: r.headersEnd.value <= k < it ==> lines[k] == ""
    {
      if !headersEnded {
        if lines[it] == "" {
          headersEnded := true;
          r := r.(headersEnd := Some(it));
        }
      } else if lines[it] != "" {
        r := r.(bodyBegin := Some(it));
        return;
      }
      it := it + 1;
    }
  }

  // A header block, at least one empty line and a non-empty body are found again.
  lemma SectionsFound(header: seq<string>, gap: seq<string>, body: seq<string>)
    requires forall l :: l in header ==> l != ""
    requires gap != [] && forall l :: l in gap ==> l == ""
    requires body != [] && body[0] != ""
    ensures SectionsOf(header + gap + body) == Sections(Some(|header|), Some(|header| + |gap|))
  {
    var lines := header + gap + body;
    var h := FirstEmpty(lines, 0);
    assert lines[|header|] == gap[0] && gap[0] in gap;
    assert forall k :: 0 <= k < |header| ==> lines[k] in header;
    assert forall k :: |header| <= k < |header| + |gap| ==> lines[k] in gap;
    assert lines[|header| + |gap|] == body[0];
  }

  // ---------------------------------------------------------------- unfolding

  predicate Continues(line: string)
  {
    line != "" && (line[0] == ' ' || line[0] == '\t')
  }

  function DropLeading(s: string, c: char): string
  {
    if s != "" && s[0] == c then DropLeading(s[1..], c) else s
  }

  function TrimIndent(line: string): string
  {
    DropLeading(DropLeading(line, ' '), '\t')
  }

  // A physical line that ends in ';' gets a space before its continuation.
  function Gap(line: string): string
  {
    if line != "" && line[|line| - 1] == ';' then " " else ""
  }

  // One header from its physical lines.
  function JoinGroup(group: seq<string>): string
    requires group != []
  {
    var n := |group| - 1;
    if n == 0 then group[0]
    else JoinGroup(group[..n]) + Gap(group[n - 1]) + TrimIndent(group[n])
  }

  function Continuations(lines: seq<string>): (n: nat)
    ensures n <= |lines|
    ensures forall k :: 0 <= k < n ==> Continues(lines[k])
    ensures n < |lines| ==> !Continues(lines[n])
  {
    if lines == [] || !Continues(lines[0]) then 0 else 1 + Continuations(lines[1..])
  }

  function JoinHeaders(lines: seq<string>): seq<string>
    decreases |lines|
  {
    if lines == [] then []
    else
      var n := FirstGroup(lines);
      [JoinGroup(lines[..n])] + JoinHeaders(lines[n..])
  }

  // The original reads one line past `to`; what it finds there changes nothing.
  method JoinHeaderLines(lines: seq<string>, from: nat, to: nat) returns (joined: seq<string>)
    requires from <= to < |lines|
    ensures joined == JoinHeaders(lines[from..to])
  {
    hide JoinHeaders, JoinGroup;
    JoinHeadersEmpty();
    joined := [];
    var it := from;
    while it < to
      invariant from <= it <= to
      invariant joined + JoinHeaders(lines[it..to]) == JoinHeaders(lines[from..to])
    {
      ghost var start := it;
      var header := lines[it];
      JoinGroupOne(lines, it);
      if Continues(lines[it + 1]) {
        header, it := JoinOneHeader(lines, it, to);
      }
      it := it + 1;
      JoinHeadersRange(lines, start, it, to, header);
      Assoc(joined, [header], JoinHeaders(lines[it..to]));
      joined := joined + [header];
    }
    assert lines[to..to] == [] && joined + [] == joined;
  }

  lemma JoinHeadersRange(lines: seq<string>, start: nat, next: nat, to: nat, header: string)
    requires start < next <= to < |lines|
    requires header == JoinGroup(lines[start..next])
    requires forall k :: start < k < next ==> Continues(lines[k])
    requires next < to ==> !Continues(lines[next])
    ensures JoinHeaders(lines[start..to]) == [header] + JoinHeaders(lines[next..to])
  {
    hide JoinHeaders;
    JoinHeadersStep(lines[start..next], lines[next..to]);
    assert lines[start..to] == lines[start..next] + lines[next..to];
  }

  lemma JoinGroupSingle(line: string)
    ensures JoinGroup([line]) == line
  {
  }

  lemma JoinGroupSnoc(group: seq<string>, line: string)
    requires group != []
    ensures JoinGroup(group + [line]) == JoinGroup(group) + Gap(group[|group| - 1]) + TrimIndent(line)
  {
    hide Gap, TrimIndent;
    assert (group + [line])[..|group|] == group;
  }

  // The inner loop: appends the continuation lines behind `start`; `it` is the last line taken.
  method JoinOneHeader(lines: seq<string>, start: nat, to: nat) returns (lineBuffer: string, it: nat)
    requires start < to < |lines|
    ensures start <= it < to && lineBuffer == JoinGroup(lines[start..it + 1])
    ensures forall k :: start < k <= it ==> Continues(lines[k])
    ensures it + 1 < to ==> !Continues(lines[it + 1])
  {
    hide JoinGroup, Continues, Gap, TrimIndent;
    it := start;
    lineBuffer := lines[it];
    assert lines[start..it + 1] == [lines[it]];
    JoinGroupSingle(lines[it]);
    while it + 1 < to && Continues(lines[it + 1])
      invariant start <= it < to
      invariant lineBuffer == JoinGroup(lines[start..it + 1])
      invariant forall k :: start < k <= it ==> Continues(lines[k])
    {
      JoinGroupSnoc(lines[start..it + 1], lines[it + 1]);
      assert lines[start..it + 1] + [lines[it + 1]] == lines[start..it + 2];
      lineBuffer := lineBuffer + Gap(lines[it]);
      it := it + 1;
      lineBuffer := lineBuffer + TrimIndent(lines[it]);
    }
  }

  lemma JoinGroupOne(lines: seq<string>, i: nat)
    requires i < |lines|
    ensures JoinGroup(lines[i..i + 1]) == lines[i]
  {
  }

  lemma JoinHeadersEmpty()
    ensures JoinHeaders([]) == []
  {
  }

  lemma ContinuationsIs(lines: seq<string>, n: nat)
    requires n <= |lines| && (n < |lines| ==> !Continues(lines[n]))
    requires forall k :: 0 <= k < n ==> Continues(lines[k])
    ensures Continuations(lines) == n
  {
  }

  // One header is taken off the front of a header block.
  lemma JoinHeadersStep(group: seq<string>, rest: seq<string>)
    requires group != [] && forall k :: 1 <= k < |group| ==> Continues(group[k])
    requires rest != [] ==> !Continues(rest[0])
    ensures JoinHeaders(group + rest) == [JoinGroup(group)] + JoinHeaders(rest)
  {
    var all := group + rest;
    ContinuationsIs(all[1..], |group| - 1);
    assert all[..|group|] == group && all[|group|..] == rest;
  }

  function FirstGroup(lines: seq<string>): (n: nat)
    requires lines != []
    ensures 1 <= n <= |lines|
    ensures forall k :: 1 <= k < n ==> Continues(lines[k])
    ensures n < |lines| ==> !Continues(lines[n])
  {
    var n := Continuations(lines[1..]);
    assert forall k :: 1 <= k <= n ==> lines[k] == lines[1..][k - 1];
    assert n + 1 < |lines| ==> lines[n + 1] == lines[1..][n];
    1 + n
  }

  lemma {:induction false} JoinHeadersAppend(a: seq<string>, b: seq<string>)
    requires b != [] ==> !Continues(b[0])
    ensures JoinHeaders(a + b) == JoinHeaders(a) + JoinHeaders(b)
    decreases |a|
  {
    hide JoinHeaders, JoinGroup, Continues;
    if a == [] {
      assert a + b == b;
      JoinHeadersEmpty();
      assert [] + JoinHeaders(b) == JoinHeaders(b);
    } else {
      var n := FirstGroup(a);
      Cut(a, b, n);
      JoinHeadersStep(a[..n], a[n..]);
      JoinHeadersStep(a[..n], a[n..] + b);
      JoinHeadersAppend(a[n..], b);
      Assoc([JoinGroup(a[..n])], JoinHeaders(a[n..]), JoinHeaders(b));
    }
  }

  lemma JoinHeadersOfGroup(group: seq<string>)
    requires group != [] && forall k :: 1 <= k < |group| ==> Continues(group[k])
    ensures JoinHeaders(group) == [JoinGroup(group)]
  {
    hide Continues, JoinGroup, Continuations, JoinHeaders;
    ContinuationsIs(group[1..], |group| - 1);
    OneGroup(group);
  }

  lemma OneGroup(group: seq<string>)
    requires group != [] && FirstGroup(group) == |group|
    ensures JoinHeaders(group) == [JoinGroup(group)]
  {
    hide Continues, JoinGroup, FirstGroup;
    assert group[..|group|] == group && group[|group|..] == [];
    JoinHeadersEmpty();
    assert [JoinGroup(group)] + [] == [JoinGroup(group)];
  }

  lemma {:induction false} JoinGroupNoNewline(group: seq<string>)
    requires group != [] && NoNewlines(group)
    ensures '\n' !in JoinGroup(group)
  {
    var n := |group| - 1;
    if n > 0 {
      JoinGroupNoNewline(group[..n]);
      DropLeadingSuffix(group[n], ' ');
      DropLeadingSuffix(DropLeading(group[n], ' '), '\t');
    }
  }

  lemma DropLeadingSuffix(s: string, c: char)
    ensures forall x :: x in DropLeading(s, c) ==> x in s
  {
  }

  lemma {:induction false} JoinHeadersNoNewline(lines: seq<string>)
    requires NoNewlines(lines)
    ensures NoNewlines(JoinHeaders(lines))
    decreases |lines|
  {
    if lines != [] {
      var n := FirstGroup(lines);
      JoinGroupNoNewline(lines[..n]);
      JoinHeadersNoNewline(lines[n..]);
    }
  }

  // ---------------------------------------------------------------- key/value pairs

  datatype MimeHeader = MimeHeader(key: string, value: string)

  // The lambda `a`: its test of `*res.end()` reads the terminator, so only a
  // leading space is ever removed.
  function Reduce(s: string): string
  {
    StripLead(Collapse(s, false))
  }

  function ParseHeader(h: string, lowerKey: bool): Outcome<MimeHeader>
  {
    var sep := Find(h, ':');
    if sep == |h| then Throws
    else
      var key := Reduce(h[..sep]);
      Done(MimeHeader(if lowerKey then ToLower(key) else key, Reduce(h[sep + 1..])))
  }

  // The words of a text, one space apart, with the space at its end if there was one.
  function Squeezed(s: string): string
  {
    Join(WordsOf(s), " ") + if s != "" && s[|s| - 1] == ' ' && WordsOf(s) != [] then " " else ""
  }

  lemma ReduceIsSqueezed(s: string)
    ensures Reduce(s) == Squeezed(s)
  {
    hide Collapse, WordsOf, Join, StripLead;
    SqueezedIsWords(s);
  }

  // What is made of a header line: a name in front of the first colon, a value behind it, both
  // without superfluous spaces but for one at the end; without a colon, an exception.
  lemma HeaderIsRead(h: string, lowerKey: bool)
    ensures ParseHeader(h, lowerKey).Done? <==> ':' in h
    ensures var at := Find(h, ':');
            at < |h| ==>
              ParseHeader(h, lowerKey) ==
              Done(MimeHeader(if lowerKey then ToLower(Squeezed(h[..at])) else Squeezed(h[..at]), Squeezed(h[at + 1..])))
  {
    hide Reduce, Squeezed, ToLower;
    var at := Find(h, ':');
    if ':' in h {
      var k :| 0 <= k < |h| && h[k] == ':';
    }
    if at < |h| {
      ReduceIsSqueezed(h[..at]);
      ReduceIsSqueezed(h[at + 1..]);
    }
  }

  function ParseHeaders(joined: seq<string>, lowerKey: bool): Outcome<seq<MimeHeader>>
  {
    if joined == [] then Done([])
    else
      var h :- ParseHeader(joined[0], lowerKey);
      var t :- ParseHeaders(joined[1..], lowerKey);
      Done([h] + t)
  }

  method ParseJoinedHeaders(joined: seq<string>, lowerKey: bool) returns (r: Outcome<seq<MimeHeader>>)
    ensures r == ParseHeaders(joined, lowerKey)
  {
    var headers: seq<MimeHeader> := [];
    for i := 0 to |joined|
      invariant ParseHeaders(joined[..i], lowerKey) == Done(headers)
    {
      ParseHeadersStep(joined, i, lowerKey);
      var h := ParseHeader(joined[i], lowerKey);
      if !h.Done? {
        return Throws;
      }
      headers := headers + [h.value];
    }
    assert joined[..|joined|] == joined;
    r := Done(headers);
  }

  lemma ParseHeadersStep(joined: seq<string>, i: nat, lowerKey: bool)
    requires i < |joined| && ParseHeaders(joined[..i], lowerKey).Done?
    ensures ParseHeader(joined[i], lowerKey).Throws? ==> ParseHeaders(joined, lowerKey).Throws?
    ensures ParseHeader(joined[i], lowerKey).Done? ==>
              ParseHeaders(joined[..i + 1], lowerKey) ==
              Done(ParseHeaders(joined[..i], lowerKey).value + [ParseHeader(joined[i], lowerKey).value])
  {
    hide ParseHeaders, ParseHeader;
    ParseHeadersOne(joined[i], lowerKey);
    ParseHeadersAppend(joined[..i], [joined[i]], lowerKey);
    ParseHeadersAppend(joined[..i], joined[i..], lowerKey);
    ParseHeadersThrows(joined[i..], lowerKey);
    assert joined[..i] + [joined[i]] == joined[..i + 1] && joined[..i] + joined[i..] == joined;
  }

  lemma ParseHeadersThrows(joined: seq<string>, lowerKey: bool)
    requires joined != []
    ensures ParseHeader(joined[0], lowerKey).Throws? ==> ParseHeaders(joined, lowerKey).Throws?
  {
  }

  lemma ParseHeadersOne(h: string, lowerKey: bool)
    ensures var p := ParseHeader(h, lowerKey);
            ParseHeaders([h], lowerKey) == if p.Done? then Done([p.value]) else p.PropagateFailure()
  {
    assert [h][1..] == [];
    var p := ParseHeader(h, lowerKey);
    assert p.Done? ==> [p.value] + [] == [p.value];
  }

  lemma {:induction false} ParseHeadersAppend(a: seq<string>, b: seq<string>, lowerKey: bool)
    requires ParseHeaders(a, lowerKey).Done?
    ensures ParseHeaders(b, lowerKey).Done? ==>
              ParseHeaders(a + b, lowerKey) ==
              Done(ParseHeaders(a, lowerKey).value + ParseHeaders(b, lowerKey).value)
    ensures !ParseHeaders(b, lowerKey).Done? ==> ParseHeaders(a + b, lowerKey) == ParseHeaders(b, lowerKey)
  {
    if a == [] {
      assert a + b == b;
      var parsed := ParseHeaders(b, lowerKey);
      assert parsed.Done? ==> [] + parsed.value == parsed.value;
    } else {
      assert (a + b)[1..] == a[1..] + b;
      ParseHeadersAppend(a[1..], b, lowerKey);
      if ParseHeaders(b, lowerKey).Done? {
        Assoc([ParseHeader(a[0], lowerKey).value], ParseHeaders(a[1..], lowerKey).value,
              ParseHeaders(b, lowerKey).value);
      }
    }
  }
}
