// The recursive parser of MIME messages (`parseMIMERecursive`, lib/mime/mimev2.src.cc:352-439).
module MimeTree {
  import opened Text
  import opened Mime
  import opened Multipart

  // A body section as it is stored: how deep, the lines of its header, the lines of its body.
  datatype Leaf = Leaf(depth: nat, header: seq<string>, body: seq<string>)

  // What the Content-Type of a header says: the boundary of a multipart, or nothing.
  type TypeOf = seq<string> -> Option<string>

  // A message without an empty line, or without a body, makes the original use iterators
  // it never set. Every section of a multipart is strictly shorter than the message.
  function Leaves(lines: seq<string>, depth: nat, typeOf: TypeOf): Outcome<seq<Leaf>>
    decreases |lines|, 1, 0
  {
    var s := SectionsOf(lines);
    if s.headersEnd.None? || s.bodyBegin.None? then Undefined
    else
      var header, body := lines[..s.headersEnd.value], lines[s.bodyBegin.value..];
      match typeOf(header)
      case None => Done([Leaf(depth, header, body)])
      case Some(boundary) => LeavesOfAll(SplitTexts(body, boundary), depth + 1, typeOf, |lines|)
  }

  function LeavesOfAll(texts: seq<seq<string>>, depth: nat, typeOf: TypeOf, bound: nat): Outcome<seq<Leaf>>
    requires forall k :: 0 <= k < |texts| ==> |texts[k]| < bound
    decreases bound, 0, |texts|
  {
    if texts == [] then Done([])
    else
      var first :- Leaves(texts[0], depth, typeOf);
      var rest :- LeavesOfAll(texts[1..], depth, typeOf, bound);
      Done(first + rest)
  }

  // `FullEmail`, as far as the parser appends to it.
  class Email {
    var e_BodySections: seq<Leaf>

    constructor ()
      ensures e_BodySections == []
    {
      e_BodySections := [];
    }
  }

  method ParseMimeRecursive(email: Email, i: nat, lines: seq<string>, typeOf: TypeOf) returns (defined: bool)
    modifies email
    ensures defined == Leaves(lines, i, typeOf).Done?
    ensures defined ==> email.e_BodySections == old(email.e_BodySections) + Leaves(lines, i, typeOf).value
    decreases |lines|
  {
    hide FirstEmpty, FirstFilled;
    var s := SplitMimeBodyAndHeaders(lines);
    if s.headersEnd.None? || s.bodyBegin.None? {
      return false;
    }
    var header, body := lines[..s.headersEnd.value], lines[s.bodyBegin.value..];
    match typeOf(header) {
      case None =>
        email.e_BodySections := email.e_BodySections + [Leaf(i, header, body)];
        return true;
      case Some(boundary) =>
        var rs := SplitMultipartMessage(body, boundary);
        RangesAreProper(body, boundary);
        ghost var texts := SplitTexts(body, boundary);
        assert texts[0..] == texts;
        PrefixedByNothing(email.e_BodySections, LeavesOfAll(texts, i + 1, typeOf, |lines|));
        for k := 0 to |rs|
          invariant LeavesOfAll(texts, i + 1, typeOf, |lines|) ==
                    Prefixed(email.e_BodySections, old(email.e_BodySections), LeavesOfAll(texts[k..], i + 1, typeOf, |lines|))
          invariant old(email.e_BodySections) <= email.e_BodySections
        {
          assert texts[k] == body[rs[k].from..rs[k].to] && texts[k..][1..] == texts[k + 1..];
          ghost var before := email.e_BodySections;
          ghost var first := Leaves(texts[k], i + 1, typeOf);
          LeavesNeverThrow(texts[k], i + 1, typeOf);
          var ok := ParseMimeRecursive(email, i + 1, body[rs[k].from..rs[k].to], typeOf);
          if !ok {
            return false;
          }
          PrefixedStep(old(email.e_BodySections), before, first.value, LeavesOfAll(texts[k + 1..], i + 1, typeOf, |lines|));
        }
        assert texts[|rs|..] == [];
        defined := true;
    }
  }

  // The leaves appended so far, in front of those to come.
  function Prefixed(now: seq<Leaf>, before: seq<Leaf>, rest: Outcome<seq<Leaf>>): Outcome<seq<Leaf>>
  {
    if rest.Done? && before <= now then Done(now[|before|..] + rest.value) else rest
  }

  lemma PrefixedByNothing(now: seq<Leaf>, rest: Outcome<seq<Leaf>>)
    ensures Prefixed(now, now, rest) == rest
  {
    assert now[|now|..] == [];
    assert rest.Done? ==> [] + rest.value == rest.value;
  }

  lemma PrefixedStep(start: seq<Leaf>, before: seq<Leaf>, first: seq<Leaf>, rest: Outcome<seq<Leaf>>)
    requires start <= before
    ensures start <= before + first
    ensures rest.Done? ==> Prefixed(before + first, start, rest) == Prefixed(before, start, Done(first + rest.value))
    ensures !rest.Done? ==> Prefixed(before + first, start, rest) == Prefixed(before, start, rest)
  {
    assert (before + first)[|start|..] == before[|start|..] + first;
    if rest.Done? {
      Assoc(before[|start|..], first, rest.value);
    }
  }

  lemma LeavesNeverThrow(lines: seq<string>, depth: nat, typeOf: TypeOf)
    ensures !Leaves(lines, depth, typeOf).Throws?
    decreases |lines|, 1, 0
  {
    hide FirstEmpty, FirstFilled;
    var s := SectionsOf(lines);
    if s.headersEnd.Some? && s.bodyBegin.Some? && typeOf(lines[..s.headersEnd.value]).Some? {
      AllNeverThrow(SplitTexts(lines[s.bodyBegin.value..], typeOf(lines[..s.headersEnd.value]).value), depth + 1, typeOf, |lines|);
    }
  }

  lemma AllNeverThrow(texts: seq<seq<string>>, depth: nat, typeOf: TypeOf, bound: nat)
    requires forall k :: 0 <= k < |texts| ==> |texts[k]| < bound
    ensures !LeavesOfAll(texts, depth, typeOf, bound).Throws?
    decreases bound, 0, |texts|
  {
    hide FirstEmpty, FirstFilled;
    if texts != [] {
      LeavesNeverThrow(texts[0], depth, typeOf);
      AllNeverThrow(texts[1..], depth, typeOf, bound);
    }
  }

  // ---------------------------------------------------------------- laws

  function Size(leaves: seq<Leaf>): nat
  {
    if leaves == [] then 0 else |leaves[0].header| + |leaves[0].body| + Size(leaves[1..])
  }

  function Length(texts: seq<seq<string>>): nat
  {
    if texts == [] then 0 else |texts[0]| + Length(texts[1..])
  }

  lemma {:induction false} SizeAppend(a: seq<Leaf>, b: seq<Leaf>)
    ensures Size(a + b) == Size(a) + Size(b)
  {
    if a == [] {
      assert a + b == b;
    } else {
      assert (a + b)[1..] == a[1..] + b;
      SizeAppend(a[1..], b);
    }
  }

  lemma {:induction false} CutsFit(lines: seq<string>, rs: seq<Range>, boundary: string, from: nat)
    requires Proper(rs, lines, boundary, from) && from <= |lines|
    requires forall k :: 0 <= k < |rs| ==> rs[k].from <= rs[k].to <= |lines|
    ensures Length(Cuts(lines, rs)) <= |lines| - from
    decreases |rs|
  {
    hide IsBoundary;
    if rs != [] {
      assert forall k :: 0 <= k < |rs| - 1 ==> rs[1..][k] == rs[k + 1];
      CutsFit(lines, rs[1..], boundary, rs[0].to + 1);
      assert Cuts(lines, rs)[1..] == Cuts(lines, rs[1..]);
    }
  }

  lemma TextsFit(lines: seq<string>, boundary: string)
    ensures Length(SplitTexts(lines, boundary)) <= |lines|
  {
    hide IsBoundary, SectionsFrom, Proper, NextBoundary, Length;
    RangesAreProper(lines, boundary);
    var rs := SplitMultipart(lines, boundary);
    var i := NextBoundary(lines, boundary, 0);
    if i == |lines| || lines[i] == EndLine(boundary) {
      assert Cuts(lines, []) == [];
      NoLength();
    } else {
      SectionsAreProper(lines, boundary, i + 1);
      CutsFit(lines, rs, boundary, i + 1);
    }
  }

  lemma NoLength()
    ensures Length([]) == 0
  {
  }

  // However deep the nesting, no line gets into two sections: the leaves together are
  // shorter than the message.
  lemma {:induction false} LeavesFit(lines: seq<string>, depth: nat, typeOf: TypeOf)
    requires Leaves(lines, depth, typeOf).Done?
    ensures Size(Leaves(lines, depth, typeOf).value) < |lines|
    ensures forall k :: 0 <= k < |Leaves(lines, depth, typeOf).value| ==> Leaves(lines, depth, typeOf).value[k].depth >= depth
    decreases |lines|, 1, 0
  {
    hide FirstEmpty, FirstFilled, SplitTexts;
    var s := SectionsOf(lines);
    var header, body := lines[..s.headersEnd.value], lines[s.bodyBegin.value..];
    assert lines[s.headersEnd.value] == "" && lines[s.bodyBegin.value] != "";
    if typeOf(header).Some? {
      var texts := SplitTexts(body, typeOf(header).value);
      AllFit(texts, depth + 1, typeOf, |lines|);
      TextsFit(body, typeOf(header).value);
    } else {
      assert [Leaf(depth, header, body)][1..] == [];
    }
  }

  lemma {:induction false} AllFit(texts: seq<seq<string>>, depth: nat, typeOf: TypeOf, bound: nat)
    requires forall k :: 0 <= k < |texts| ==> |texts[k]| < bound
    requires LeavesOfAll(texts, depth, typeOf, bound).Done?
    ensures Size(LeavesOfAll(texts, depth, typeOf, bound).value) <= Length(texts)
    ensures forall k :: 0 <= k < |LeavesOfAll(texts, depth, typeOf, bound).value| ==>
              LeavesOfAll(texts, depth, typeOf, bound).value[k].depth >= depth
    decreases bound, 0, |texts|
  {
    hide Leaves;
    if texts != [] {
      LeavesFit(texts[0], depth, typeOf);
      AllFit(texts[1..], depth, typeOf, bound);
      SizeAppend(Leaves(texts[0], depth, typeOf).value, LeavesOfAll(texts[1..], depth, typeOf, bound).value);
    }
  }

  // ---------------------------------------------------------------- composed messages

  // A message of any depth, by the lines of its parts.
  datatype Part =
    | Single(header: seq<string>, body: seq<string>)
    | Multi(header: seq<string>, boundary: string, parts: seq<Part>)

  // As it is written: the header, an empty line, and the body, or the parts between the
  // boundary lines.
  function Written(p: Part): seq<string>
    decreases p, 0
  {
    match p
    case Single(header, body) => header + [""] + body
    case Multi(header, boundary, parts) => header + [""] + Composed(PartLines(parts), boundary)
  }

  function PartLines(parts: seq<Part>): (r: seq<seq<string>>)
    ensures |r| == |parts| && forall k :: 0 <= k < |parts| ==> r[k] == Written(parts[k])
    decreases parts, 1
  {
    if parts == [] then [] else [Written(parts[0])] + PartLines(parts[1..])
  }

  // What is stored of it.
  function Stored(p: Part, depth: nat): seq<Leaf>
    decreases p, 0
  {
    match p
    case Single(header, body) => [Leaf(depth, header, body)]
    case Multi(_, _, parts) => StoredOfAll(parts, depth + 1)
  }

  function StoredOfAll(parts: seq<Part>, depth: nat): seq<Leaf>
    decreases parts, 1
  {
    if parts == [] then [] else Stored(parts[0], depth) + StoredOfAll(parts[1..], depth)
  }

  // The types say what the parts are, and no part holds a boundary line of the message around
  // it.
  predicate WellComposed(p: Part, typeOf: TypeOf)
    decreases p, 0
  {
    && (forall line :: line in p.header ==> line != "")
    && match p
       case Single(header, body) => typeOf(header) == None && body != [] && body[0] != ""
       case Multi(header, boundary, parts) =>
         && typeOf(header) == Some(boundary) && AllWellComposed(parts, typeOf)
         && forall k :: 0 <= k < |parts| ==> Free(Written(parts[k]), boundary)
  }

  predicate AllWellComposed(parts: seq<Part>, typeOf: TypeOf)
    decreases parts, 1
  {
    parts == [] || (WellComposed(parts[0], typeOf) && AllWellComposed(parts[1..], typeOf))
  }

  // However deep it is nested, a composed message is taken apart into exactly its single
  // parts, in their order, each with its header, its body and its depth.
  lemma {:induction false} NestedMessage(p: Part, depth: nat, typeOf: TypeOf)
    requires WellComposed(p, typeOf)
    ensures Leaves(Written(p), depth, typeOf) == Done(Stored(p, depth))
    decreases p, 0
  {
    hide FirstEmpty, FirstFilled, SplitTexts, Composed, Free;
    match p {
      case Single(header, body) =>
        SectionsFound(header, [""], body);
        assert Written(p)[..|header|] == header && Written(p)[|header| + 1..] == body;
      case Multi(header, boundary, parts) =>
        var body := Composed(PartLines(parts), boundary);
        StartsFilled(PartLines(parts), boundary);
        SectionsFound(header, [""], body);
        assert Written(p)[..|header|] == header && Written(p)[|header| + 1..] == body;
        SplitComposed(PartLines(parts), boundary);
        NestedMessages(parts, depth + 1, typeOf, |Written(p)|);
    }
  }

  lemma {:induction false} NestedMessages(parts: seq<Part>, depth: nat, typeOf: TypeOf, bound: nat)
    requires AllWellComposed(parts, typeOf) && forall k :: 0 <= k < |parts| ==> |PartLines(parts)[k]| < bound
    ensures LeavesOfAll(PartLines(parts), depth, typeOf, bound) == Done(StoredOfAll(parts, depth))
    decreases parts, 1
  {
    hide Leaves, Written, WellComposed;
    if parts != [] {
      NestedMessage(parts[0], depth, typeOf);
      assert PartLines(parts)[1..] == PartLines(parts[1..]);
      NestedMessages(parts[1..], depth, typeOf, bound);
    }
  }

  lemma StartsFilled(texts: seq<seq<string>>, boundary: string)
    ensures Composed(texts, boundary) != [] && Composed(texts, boundary)[0] != ""
  {
  }

  // A section of the composer, as a part.
  function PartOf(section: Section): Part
  {
    Single(HeaderLines(section.headers), Lines(section.content + "\r\n"))
  }

  function PartsOf(sections: seq<Section>): (parts: seq<Part>)
    ensures |parts| == |sections| && forall k :: 0 <= k < |sections| ==> parts[k] == PartOf(sections[k])
  {
    seq(|sections|, k requires 0 <= k < |sections| => PartOf(sections[k]))
  }

  lemma {:induction false} AllAreWellComposed(parts: seq<Part>, typeOf: TypeOf)
    requires forall k :: 0 <= k < |parts| ==> WellComposed(parts[k], typeOf)
    ensures AllWellComposed(parts, typeOf)
    decreases parts
  {
    hide WellComposed;
    if parts != [] {
      AllAreWellComposed(parts[1..], typeOf);
    }
  }

  lemma SectionIsPart(section: Section)
    requires NoNewlines(HeaderLines(section.headers))
    ensures SectionLines(section) == Written(PartOf(section))
  {
    hide Lines, SectionLines;
    SectionReads(section);
  }

  // What the composer writes, behind a header that names its boundary, is taken apart into its
  // sections: a line for every header of a section, and the lines of its content.
  lemma ComposedMessage(header: seq<string>, sections: seq<Section>, boundary: string, typeOf: TypeOf)
    requires (forall line :: line in header ==> line != "") && typeOf(header) == Some(boundary) && '\n' !in boundary
    requires forall k :: 0 <= k < |sections| ==>
               && NoNewlines(HeaderLines(sections[k].headers)) && Free(SectionLines(sections[k]), boundary)
               && WellComposed(PartOf(sections[k]), typeOf)
    ensures Leaves(header + [""] + Lines(Compose(sections, boundary)), 0, typeOf) == Done(StoredOfAll(PartsOf(sections), 1))
  {
    hide Lines, Compose, Free, SectionLines, Leaves, Stored, Written, PartOf, StoredOfAll, AllWellComposed;
    var parts := PartsOf(sections);
    ComposedLines(sections, boundary);
    forall k | 0 <= k < |parts|
      ensures SectionLines(sections[k]) == Written(parts[k]) && WellComposed(parts[k], typeOf)
    {
      SectionIsPart(sections[k]);
    }
    assert AllSectionLines(sections) == PartLines(parts);
    AllAreWellComposed(parts, typeOf);
    var p := Multi(header, boundary, parts);
    TextIs(header, boundary, parts);
    assert WellComposed(p, typeOf);
    NestedMessage(p, 0, typeOf);
    StoredIs(header, boundary, parts);
  }

  lemma TextIs(header: seq<string>, boundary: string, parts: seq<Part>)
    ensures Written(Multi(header, boundary, parts)) == header + [""] + Composed(PartLines(parts), boundary)
  {
    hide PartLines, Composed;
  }

  lemma StoredIs(header: seq<string>, boundary: string, parts: seq<Part>)
    ensures Stored(Multi(header, boundary, parts), 0) == StoredOfAll(parts, 1)
  {
    hide StoredOfAll;
  }
}
