// Header and body canonicalization (lib/dkim/DKIMCanonicalization.src.cc).
module DkimCanonicalization {
  import opened Text
  import opened Mime
  import opened Builders

  // ---------------------------------------------------------------- bodies

  function Detab(s: string): (t: string)
    ensures |t| == |s| && forall i :: 0 <= i < |s| ==> t[i] == if s[i] == '\t' then ' ' else s[i]
  {
    seq(|s|, i requires 0 <= i < |s| => if s[i] == '\t' then ' ' else s[i])
  }

  function RelaxLine(line: string): string
  {
    StripTrail(Collapse(Detab(line), false))
  }

  function RelaxLines(lines: seq<string>): (r: seq<string>)
    ensures |r| == |lines| && forall i :: 0 <= i < |lines| ==> r[i] == RelaxLine(lines[i])
  {
    seq(|lines|, i requires 0 <= i < |lines| => RelaxLine(lines[i]))
  }

  // Index of the last line with content, or of the first line if there is none.
  function LastFilled(lines: seq<string>): (n: nat)
    requires lines != []
    ensures n < |lines|
    ensures lines[n] == "" ==> n == 0
    ensures forall i :: n < i < |lines| ==> lines[i] == ""
  {
    var n := |lines| - 1;
    if n == 0 || lines[n] != "" then n else LastFilled(lines[..n])
  }

  function KeepContent(lines: seq<string>): (r: seq<string>)
    requires lines != []
    ensures r != []
  {
    lines[..LastFilled(lines) + 1]
  }

  // With no line at all the original erases from one past the end.
  function RelaxedBody(raw: string): Outcome<string>
  {
    if Lines(raw) == [] then Undefined
    else Done(Unlines(KeepContent(RelaxLines(Lines(raw)))))
  }

  function SimpleBody(raw: string): Outcome<string>
  {
    if Lines(raw) == [] then Undefined
    else Done(Unlines(KeepContent(Lines(raw))))
  }

  method ReduceLine(line: string) returns (r: string)
    ensures r == RelaxLine(line)
  {
    hide Collapse;
    var reducedLine, lww := "", false;
    ghost var detabbed := Detab(line);
    assert detabbed[0..] == detabbed;
    for i := 0 to |line|
      invariant Collapse(detabbed, false) == reducedLine + Collapse(detabbed[i..], lww)
    {
      var c := if line[i] == '\t' then ' ' else line[i];
      assert c == detabbed[i];
      CollapseStep(detabbed, i, lww);
      ghost var rest := Collapse(detabbed[i + 1..], c == ' ');
      if !(c == ' ' && lww) {
        Assoc(reducedLine, [c], rest);
        reducedLine := reducedLine + [c];
      } else {
        assert "" + rest == rest;
      }
      lww := c == ' ';
    }
    assert detabbed[|line|..] == "" && Collapse("", lww) == "" by {
      CollapseNothing(lww);
    }
    r := StripTrail(reducedLine);
  }

  lemma CollapseNothing(lww: bool)
    ensures Collapse("", lww) == ""
  {
  }

  method EraseTail(lines: seq<string>) returns (r: seq<string>)
    requires lines != []
    ensures r == KeepContent(lines)
  {
    var lastValidLine := 0;
    for it := 0 to |lines|
      invariant 0 <= lastValidLine < |lines|
      invariant lastValidLine < it || lastValidLine == 0
      invariant lines[lastValidLine] == "" ==> lastValidLine == 0
      invariant forall k :: lastValidLine < k < it ==> lines[k] == ""
    {
      if lines[it] != "" {
        lastValidLine := it;
      }
    }
    r := lines[..lastValidLine + 1];
  }

  method CanonicalizeRelaxedBody(raw: string) returns (r: Outcome<string>)
    ensures r == RelaxedBody(raw)
  {
    var lines := GetMimeLines(raw);
    if lines == [] {
      return Undefined;
    }
    ghost var read := lines;
    for i := 0 to |lines|
      invariant |lines| == |read|
      invariant forall k :: 0 <= k < i ==> lines[k] == RelaxLine(read[k])
      invariant forall k :: i <= k < |lines| ==> lines[k] == read[k]
    {
      var reduced := ReduceLine(lines[i]);
      lines := lines[i := reduced];
    }
    assert lines == RelaxLines(read);
    lines := EraseTail(lines);
    var text := GetStringFromLines(lines);
    r := Done(text);
  }

  method CanonicalizeSimpleBody(raw: string) returns (r: Outcome<string>)
    ensures r == SimpleBody(raw)
  {
    var lines := GetMimeLines(raw);
    if lines == [] {
      return Undefined;
    }
    lines := EraseTail(lines);
    var text := GetStringFromLines(lines);
    r := Done(text);
  }

  // ---------------------------------------------------------------- headers

  function HeaderKey(line: string): string
  {
    Trim(ToLower(line[..Find(line, ':')]))
  }

  function RelaxValue(val: string): string
  {
    StripLead(StripTrail(Collapse(val, false)))
  }

  datatype Entry = Entry(key: string, text: string)

  function RelaxHeader(line: string): Entry
    requires Find(line, ':') < |line|
  {
    Entry(HeaderKey(line), HeaderKey(line) + ":" + RelaxValue(line[Find(line, ':') + 1..]))
  }

  // The headers named in the filter, in message order.
  function Collect(lines: seq<string>, filter: seq<string>): Outcome<seq<Entry>>
  {
    if lines == [] then Done([])
    else if Find(lines[0], ':') == |lines[0]| then Throws
    else
      var t :- Collect(lines[1..], filter);
      Done((if HeaderKey(lines[0]) in filter then [RelaxHeader(lines[0])] else []) + t)
  }

  function FirstEntry(entries: seq<Entry>, key: string): (i: nat)
    ensures i <= |entries| && (i < |entries| ==> entries[i].key == key)
    ensures forall k :: 0 <= k < i ==> entries[k].key != key
  {
    if entries == [] || entries[0].key == key then 0 else 1 + FirstEntry(entries[1..], key)
  }

  // The first entry of every filter key, in filter order.
  function Pick(entries: seq<Entry>, filter: seq<string>): Outcome<seq<string>>
  {
    if filter == [] then Done([])
    else
      var i := FirstEntry(entries, filter[0]);
      if i == |entries| then Throws
      else
        var t :- Pick(entries, filter[1..]);
        Done([entries[i].text] + t)
  }

  function RelaxedHeaders(raw: string, filter: seq<string>): Outcome<string>
  {
    var entries :- Collect(Lines(raw), filter);
    var sorted :- Pick(entries, filter);
    if sorted == [] then Throws else Done(Unlines(sorted))
  }

  // Message order, no rewriting; empty lines are skipped.
  function SelectSimple(lines: seq<string>, filter: seq<string>): Outcome<seq<string>>
  {
    if lines == [] then Done([])
    else if lines[0] == "" then SelectSimple(lines[1..], filter)
    else if Find(lines[0], ':') == |lines[0]| then Throws
    else
      var t :- SelectSimple(lines[1..], filter);
      Done((if HeaderKey(lines[0]) in filter then [lines[0]] else []) + t)
  }

  function SimpleHeaders(raw: string, filter: seq<string>): Outcome<string>
  {
    var selected :- SelectSimple(Lines(raw), filter);
    Done(Unlines(selected))
  }

  method ReduceValue(val: string) returns (r: string)
    ensures r == RelaxValue(val)
  {
    hide Collapse;
    var reducedValue, lww := "", false;
    assert val[0..] == val;
    for i := 0 to |val|
      invariant Collapse(val, false) == reducedValue + Collapse(val[i..], lww)
    {
      CollapseStep(val, i, lww);
      Assoc(reducedValue, if val[i] == ' ' && lww then "" else [val[i]], Collapse(val[i + 1..], val[i] == ' '));
      if !(val[i] == ' ' && lww) {
        reducedValue := reducedValue + [val[i]];
      }
      lww := val[i] == ' ';
    }
    assert val[|val|..] == "" && Collapse("", lww) == "" by {
      CollapseNothing(lww);
    }
    r := StripLead(StripTrail(reducedValue));
  }

  lemma {:induction false} CollectAppend(a: seq<string>, b: seq<string>, filter: seq<string>)
    requires Collect(a, filter).Done?
    ensures !Collect(b, filter).Done? ==> Collect(a + b, filter) == Collect(b, filter)
    ensures Collect(b, filter).Done? ==>
              Collect(a + b, filter) == Done(Collect(a, filter).value + Collect(b, filter).value)
  {
    hide RelaxHeader, HeaderKey;
    var parsed := Collect(b, filter);
    if a == [] {
      assert a + b == b;
      assert parsed.Done? ==> [] + parsed.value == parsed.value;
    } else {
      assert (a + b)[1..] == a[1..] + b;
      CollectAppend(a[1..], b, filter);
      if parsed.Done? {
        Assoc(if HeaderKey(a[0]) in filter then [RelaxHeader(a[0])] else [],
              Collect(a[1..], filter).value, parsed.value);
      }
    }
  }

  lemma CollectOne(line: string, filter: seq<string>)
    ensures Find(line, ':') == |line| ==> Collect([line], filter) == Throws
    ensures Find(line, ':') < |line| ==>
              Collect([line], filter) == Done(if HeaderKey(line) in filter then [RelaxHeader(line)] else [])
  {
    assert [line][1..] == [] && Collect([], filter) == Done([]);
    var head := if Find(line, ':') < |line| && HeaderKey(line) in filter then [RelaxHeader(line)] else [];
    assert head + [] == head;
  }

  lemma {:induction false} CollectThrows(lines: seq<string>, i: nat, filter: seq<string>)
    requires i < |lines| && Find(lines[i], ':') == |lines[i]|
    ensures Collect(lines, filter) == Throws
  {
    hide RelaxHeader, HeaderKey, Find;
    if i > 0 {
      CollectThrows(lines[1..], i - 1, filter);
    }
  }

  method CanonicalizeRelaxedHeaders(raw: string, filter: seq<string>) returns (r: Outcome<string>)
    ensures r == RelaxedHeaders(raw, filter)
  {
    hide Collect, Pick, RelaxHeader, HeaderKey, Find;
    var lines := GetMimeLines(raw);
    var result := CollectHeaders(lines, filter);
    if !result.Done? {
      return Throws;
    }
    var sortedResult := SortHeaders(result.value, filter);
    if !sortedResult.Done? || sortedResult.value == [] {
      return Throws;
    }
    var text := GetStringFromLines(sortedResult.value);
    r := Done(text);
  }

  method CollectHeaders(lines: seq<string>, filter: seq<string>) returns (r: Outcome<seq<Entry>>)
    ensures r == Collect(lines, filter) && !r.Undefined?
  {
    hide Collect, RelaxHeader;
    var result: seq<Entry> := [];
    CollectNone(filter);
    for i := 0 to |lines|
      invariant Collect(lines[..i], filter) == Done(result)
    {
      var line := lines[i];
      CollectOne(line, filter);
      var sep := Find(line, ':');
      if sep == |line| {
        CollectThrows(lines, i, filter);
        return Throws;
      }
      var key := Trim(ToLower(line[..sep]));
      CollectAppend(lines[..i], [line], filter);
      assert lines[..i] + [line] == lines[..i + 1];
      if key in filter {
        var reducedValue := ReduceValue(line[sep + 1..]);
        RelaxHeaderIs(line, reducedValue);
        result := result + [Entry(key, key + ":" + reducedValue)];
      } else {
        assert result + [] == result;
      }
    }
    assert lines[..|lines|] == lines;
    r := Done(result);
  }

  lemma CollectNone(filter: seq<string>)
    ensures Collect([], filter) == Done([])
  {
  }

  lemma RelaxHeaderIs(line: string, reduced: string)
    requires Find(line, ':') < |line| && reduced == RelaxValue(line[Find(line, ':') + 1..])
    ensures RelaxHeader(line) == Entry(HeaderKey(line), HeaderKey(line) + ":" + reduced)
  {
    hide Find, RelaxValue, HeaderKey;
  }

  method SortHeaders(entries: seq<Entry>, filter: seq<string>) returns (r: Outcome<seq<string>>)
    ensures r == Pick(entries, filter) && !r.Undefined?
  {
    hide Pick;
    var sortedResult: seq<string> := [];
    PickEdges(entries, filter, "");
    for i := 0 to |filter|
      invariant Pick(entries, filter[..i]) == Done(sortedResult)
    {
      var element := 0;
      while element < |entries| && entries[element].key != filter[i]
        invariant 0 <= element <= |entries|
        invariant forall k :: 0 <= k < element ==> entries[k].key != filter[i]
      {
        element := element + 1;
      }
      PickEdges(entries, filter, filter[i]);
      assert filter[..i] + [filter[i]] == filter[..i + 1];
      if element == |entries| {
        assert filter == filter[..i] + filter[i..];
        PickAppend(entries, filter[..i], filter[i..]);
        PickThrows(entries, filter[i..]);
        return Throws;
      }
      PickAppend(entries, filter[..i], [filter[i]]);
      sortedResult := sortedResult + [entries[element].text];
    }
    assert filter[..|filter|] == filter;
    r := Done(sortedResult);
  }

  lemma PickEdges(entries: seq<Entry>, filter: seq<string>, key: string)
    ensures Pick(entries, []) == Done([])
    ensures Pick(entries, [key]) ==
            var i := FirstEntry(entries, key);
            if i == |entries| then Throws else Done([entries[i].text])
  {
    assert [key][1..] == [] && Pick(entries, []) == Done([]);
    var i := FirstEntry(entries, key);
    assert i < |entries| ==> [entries[i].text] + [] == [entries[i].text];
  }

  lemma PickThrows(entries: seq<Entry>, filter: seq<string>)
    requires filter != []
    ensures FirstEntry(entries, filter[0]) == |entries| ==> Pick(entries, filter) == Throws
  {
  }

  lemma {:induction false} PickAppend(entries: seq<Entry>, a: seq<string>, b: seq<string>)
    requires Pick(entries, a).Done?
    ensures !Pick(entries, b).Done? ==> Pick(entries, a + b) == Pick(entries, b)
    ensures Pick(entries, b).Done? ==>
              Pick(entries, a + b) == Done(Pick(entries, a).value + Pick(entries, b).value)
  {
    var picked := Pick(entries, b);
    if a == [] {
      assert a + b == b;
      assert picked.Done? ==> [] + picked.value == picked.value;
    } else {
      assert (a + b)[1..] == a[1..] + b;
      PickAppend(entries, a[1..], b);
      if picked.Done? {
        Assoc([entries[FirstEntry(entries, a[0])].text], Pick(entries, a[1..]).value, picked.value);
      }
    }
  }

  method CanonicalizeSimpleHeaders(raw: string, filter: seq<string>) returns (r: Outcome<string>)
    ensures r == SimpleHeaders(raw, filter)
  {
    hide SelectSimple, Find, HeaderKey;
    var lines := GetMimeLines(raw);
    var result: seq<string> := [];
    SelectNone(filter);
    for i := 0 to |lines|
      invariant SelectSimple(lines[..i], filter) == Done(result)
    {
      var line := lines[i];
      SelectOne(line, filter);
      assert lines[..i] + [line] == lines[..i + 1] && lines[..i] + lines[i..] == lines;
      SelectAppend(lines[..i], [line], filter);
      SelectAppend(lines[..i], lines[i..], filter);
      if line != "" {
        if Find(line, ':') == |line| {
          SelectThrows(lines[i..], filter);
          return Throws;
        }
        if HeaderKey(line) in filter {
          result := result + [line];
        } else {
          assert result + [] == result;
        }
      } else {
        assert result + [] == result;
      }
    }
    assert lines[..|lines|] == lines;
    var text := GetStringFromLines(result);
    r := Done(text);
  }

  lemma SelectNone(filter: seq<string>)
    ensures SelectSimple([], filter) == Done([])
  {
  }

  lemma SelectOne(line: string, filter: seq<string>)
    ensures line == "" ==> SelectSimple([line], filter) == Done([])
    ensures line != "" && Find(line, ':') < |line| ==>
              SelectSimple([line], filter) == Done(if HeaderKey(line) in filter then [line] else [])
  {
    assert [line][1..] == [] && SelectSimple([], filter) == Done([]);
    var head := if HeaderKey(line) in filter then [line] else [];
    assert head + [] == head;
  }

  lemma SelectThrows(lines: seq<string>, filter: seq<string>)
    requires lines != [] && lines[0] != "" && Find(lines[0], ':') == |lines[0]|
    ensures SelectSimple(lines, filter) == Throws
  {
  }

  lemma {:induction false} SelectAppend(a: seq<string>, b: seq<string>, filter: seq<string>)
    requires SelectSimple(a, filter).Done?
    ensures !SelectSimple(b, filter).Done? ==> SelectSimple(a + b, filter) == SelectSimple(b, filter)
    ensures SelectSimple(b, filter).Done? ==>
              SelectSimple(a + b, filter) == Done(SelectSimple(a, filter).value + SelectSimple(b, filter).value)
  {
    hide HeaderKey, Find;
    var selected := SelectSimple(b, filter);
    if a == [] {
      assert a + b == b;
      assert selected.Done? ==> [] + selected.value == selected.value;
    } else {
      assert (a + b)[1..] == a[1..] + b;
      SelectAppend(a[1..], b, filter);
      if selected.Done? && a[0] != "" {
        Assoc(if HeaderKey(a[0]) in filter then [a[0]] else [], SelectSimple(a[1..], filter).value, selected.value);
      }
    }
  }
}
