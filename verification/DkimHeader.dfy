// The DKIM-Signature header: tags, text and parser (lib/dkim/DKIMHeader.src.cc).
module DkimHeader {
  import opened Text
  import opened Decimal
  import Mime
  import opened Builders
  import opened Unfolding

  datatype CanonPair = RelaxedRelaxed | RelaxedSimple | SimpleRelaxed | SimpleSimple

  datatype Algorithm = RsaSha256 | RsaSha1

  datatype Fields = Fields(
    selector: string, domain: string, headers: seq<string>, pair: CanonPair, algorithm: Algorithm,
    signDate: int, expireDate: int, bodyHash: string, signature: string)

  const EMPTY := Fields("", "", [], RelaxedRelaxed, RsaSha256, 0, 0, "", "")

  function PairName(p: CanonPair): string
  {
    match p
    case RelaxedRelaxed => "relaxed/relaxed"
    case RelaxedSimple => "relaxed/simple"
    case SimpleRelaxed => "simple/relaxed"
    case SimpleSimple => "simple/simple"
  }

  function AlgorithmName(a: Algorithm): string
  {
    match a
    case RsaSha1 => "rsa-sha1"
    case RsaSha256 => "rsa-sha256"
  }

  // ---------------------------------------------------------------- building

  datatype Tag = Tag(key: string, value: string) {
    function Text(): string {
      key + "=" + value
    }
  }

  predicate Dated(f: Fields)
  {
    f.expireDate != 0 && f.signDate != 0
  }

  function Tags(f: Fields): seq<Tag>
  {
    [Tag("v", "1"), Tag("s", f.selector), Tag("h", Join(f.headers, ":")), Tag("d", f.domain),
     Tag("c", PairName(f.pair)), Tag("a", AlgorithmName(f.algorithm))]
    + (if Dated(f) then [Tag("t", ToString(f.signDate)), Tag("x", ToString(f.expireDate))] else [])
    + [Tag("bh", f.bodyHash), Tag("b", f.signature)]
  }

  function TagTexts(tags: seq<Tag>): (r: seq<string>)
    ensures |r| == |tags| && forall i :: 0 <= i < |tags| ==> r[i] == tags[i].Text()
  {
    seq(|tags|, i requires 0 <= i < |tags| => tags[i].Text())
  }

  function ValueText(f: Fields): string
  {
    Join(TagTexts(Tags(f)), "; ")
  }

  // With an empty header list `getHeaderString` pops from an empty string.
  function Build(f: Fields): Outcome<string>
  {
    if f.headers == [] then Undefined else Done("DKIM-Signature: " + ValueText(f))
  }

  method BuildHeaderFromSegments(name: string, tags: seq<Tag>) returns (result: string)
    ensures result == name + ": " + Join(TagTexts(tags), "; ")
  {
    result := name + ": ";
    ghost var texts := TagTexts(tags);
    assert texts[0..] == texts;
    for i := 0 to |tags|
      invariant result + Join(texts[i..], "; ") == name + ": " + Join(texts, "; ")
    {
      assert texts[i..][1..] == texts[i + 1..];
      result := result + (tags[i].key + "=" + tags[i].value);
      if i + 1 < |tags| {
        result := result + "; ";
      }
    }
  }

  method GetHeaderString(headers: seq<string>) returns (r: Outcome<string>)
    ensures r == if headers == [] then Undefined else Done(Join(headers, ":"))
  {
    var result := "";
    for i := 0 to |headers|
      invariant i == 0 ==> result == ""
      invariant i > 0 ==> result == Join(headers[..i], ":") + ":"
    {
      JoinSnoc(headers[..i], headers[i], ":");
      assert headers[..i] + [headers[i]] == headers[..i + 1];
      result := result + (headers[i] + ":");
    }
    assert headers[..|headers|] == headers;
    if result == "" {
      return Undefined;
    }
    r := Done(result[..|result| - 1]);
  }

  // ---------------------------------------------------------------- parsing

  function SetTag(f: Fields, key: string, val: string): Fields
  {
    if key == "s" then f.(selector := val)
    else if key == "d" then f.(domain := val)
    else if key == "c" then
      var v := ToLower(val);
      f.(pair := if v == "relaxed/simple" then RelaxedSimple
                 else if v == "simple/relaxed" then SimpleRelaxed
                 else if v == "simple/simple" then SimpleSimple
                 else RelaxedRelaxed)
    else if key == "a" then f.(algorithm := if ToLower(val) == "rsa-sha1" then RsaSha1 else RsaSha256)
    else if key == "bh" then f.(bodyHash := val)
    else if key == "b" then f.(signature := val)
    else if key == "h" then f.(headers := f.headers + Split(ToLower(val), ':'))
    else if key == "x" then f.(expireDate := Stol(val).GetOr(0))
    else if key == "t" then f.(signDate := Stol(val).GetOr(0))
    else f
  }

  // A value that starts with a space is erased through the iterators of the key.
  function ApplySegment(f: Fields, seg: string): Outcome<Fields>
  {
    if seg == "" then Done(f)
    else
      var sep := Find(seg, '=');
      if sep == |seg| then Throws
      else
        var key, val := ToLower(Trim(seg[..sep])), seg[sep + 1..];
        if val != "" && val[0] == ' ' then Undefined
        else Done(SetTag(f, key, StripTrail(val)))
  }

  function ApplySegments(f: Fields, segs: seq<string>): Outcome<Fields>
    decreases |segs|
  {
    if segs == [] then Done(f)
    else
      var g :- ApplySegment(f, segs[0]);
      ApplySegments(g, segs[1..])
  }

  function Parse(f: Fields, raw: string): Outcome<Fields>
  {
    ApplySegments(f, Split(raw, ';'))
  }

  class SignatureHeader {
    var fields: Fields

    constructor ()
      ensures fields == EMPTY
    {
      fields := EMPTY;
    }

    // An exception leaves the fields of the segments before it set; no caller of the
    // original sees that object again.
    method ParseValue(raw: string) returns (r: Outcome<()>)
      modifies this
      ensures Parse(old(fields), raw).Done? ==> r == Done(()) && fields == Parse(old(fields), raw).value
      ensures !Parse(old(fields), raw).Done? ==> r == Parse(old(fields), raw).PropagateFailure()
    {
      var segments := Cut(raw);
      for i := 0 to |segments|
        invariant Parse(old(fields), raw) == ApplySegments(fields, segments[i..])
      {
        assert segments[i..][0] == segments[i] && segments[i..][1..] == segments[i + 1..];
        var next := ApplySegment(fields, segments[i]);
        if !next.Done? {
          return next.PropagateFailure();
        }
        fields := next.value;
      }
      r := Done(());
    }

    // The `start`/`end` loop that collects the segments.
    method Cut(raw: string) returns (segments: seq<string>)
      ensures segments == Split(raw, ';')
    {
      hide Split, Find;
      segments := [];
      var start := 0;
      assert raw[0..] == raw;
      while true
        invariant 0 <= start <= |raw|
        invariant segments + Split(raw[start..], ';') == Split(raw, ';')
        decreases |raw| - start
      {
        var end := start + Find(raw[start..], ';');
        SplitStep(raw, start, end);
        if end == |raw| {
          segments := segments + [raw[start..end]];
          break;
        }
        Mime.Assoc(segments, [raw[start..end]], Split(raw[end + 1..], ';'));
        segments := segments + [raw[start..end]];
        start := end + 1;
      }
    }
  }

  // ---------------------------------------------------------------- parse after build

  // A tag value the parser hands back unchanged.
  predicate PlainValue(v: string)
  {
    v != "" && ';' !in v && v[0] != ' ' && v[|v| - 1] != ' '
  }

  predicate PlainFields(f: Fields)
  {
    && PlainValue(f.selector) && PlainValue(f.domain) && PlainValue(f.bodyHash) && PlainValue(f.signature)
    && f.headers != [] && PlainValue(Join(f.headers, ":"))
    && (forall h :: h in f.headers ==> ':' !in h && ToLower(h) == h)
    && INT64_MIN <= f.signDate <= INT64_MAX && INT64_MIN <= f.expireDate <= INT64_MAX
  }

  predicate PlainKey(k: string)
  {
    k != "" && forall i :: 0 <= i < |k| ==> 'a' <= k[i] <= 'z'
  }

  lemma ApplyTag(f: Fields, tag: Tag, indent: string)
    requires PlainKey(tag.key) && PlainValue(tag.value) && (indent == "" || indent == " ")
    ensures ApplySegment(f, indent + tag.Text()) == Done(SetTag(f, tag.key, tag.value))
  {
    hide SetTag, ToLower, Trim, Find;
    var seg := indent + tag.Text();
    FindIs(seg, '=', |indent| + |tag.key|);
    assert seg[..|indent| + |tag.key|] == indent + tag.key;
    assert seg[|indent| + |tag.key| + 1..] == tag.value;
    KeyTrimmed(tag.key, indent);
  }

  lemma KeyTrimmed(key: string, indent: string)
    requires PlainKey(key) && (indent == "" || indent == " ")
    ensures ToLower(Trim(indent + key)) == key
  {
    assert (" " + key)[1..] == key && "" + key == key;
    assert ToLower(key) == key;
  }

  function SetTags(f: Fields, tags: seq<Tag>): Fields
    decreases |tags|
  {
    if tags == [] then f else SetTags(SetTag(f, tags[0].key, tags[0].value), tags[1..])
  }

  lemma SetTagsFrom(f: Fields, tags: seq<Tag>, i: nat)
    requires i < |tags|
    ensures SetTags(f, tags[i..]) == SetTags(SetTag(f, tags[i].key, tags[i].value), tags[i + 1..])
  {
    hide SetTag;
    assert tags[i..][1..] == tags[i + 1..];
  }

  predicate PlainTags(tags: seq<Tag>)
  {
    forall i :: 0 <= i < |tags| ==> PlainKey(tags[i].key) && PlainValue(tags[i].value)
  }

  lemma {:induction false} ApplySpaced(f: Fields, tags: seq<Tag>)
    requires PlainTags(tags)
    ensures ApplySegments(f, Spaced(TagTexts(tags))) == Done(SetTags(f, tags))
    decreases |tags|
  {
    hide SetTag, ApplySegment, PlainKey, PlainValue;
    if tags != [] {
      ApplyTag(f, tags[0], " ");
      ApplySpaced(SetTag(f, tags[0].key, tags[0].value), tags[1..]);
      SpacedStep(TagTexts(tags));
      assert TagTexts(tags)[1..] == TagTexts(tags[1..]);
    }
  }

  lemma {:induction false} SpacedJoinParts(segs: seq<string>)
    requires segs != [] && forall s :: s in segs ==> ';' !in s
    ensures Split(Join(segs, "; "), ';') == [segs[0]] + Spaced(segs[1..])
  {
    hide Split;
    if |segs| == 1 {
      SplitJoin(segs, ';');
      assert segs == [segs[0]] + [];
      assert segs[1..] == [];
    } else {
      JoinSpaced(segs[1..]);
      var all := [segs[0]] + Spaced(segs[1..]);
      assert all[1..] == Spaced(segs[1..]);
      assert Join(all, ";") == segs[0] + ";" + (" " + Join(segs[1..], "; "));
      assert segs[0] + ";" + (" " + Join(segs[1..], "; ")) == segs[0] + "; " + Join(segs[1..], "; ");
      SpacedKeepsOut(segs[1..]);
      SplitJoin(all, ';');
    }
  }

  lemma {:induction false} SpacedKeepsOut(segs: seq<string>)
    requires forall s :: s in segs ==> ';' !in s
    ensures forall s :: s in Spaced(segs) ==> ';' !in s
  {
    if segs != [] {
      SpacedKeepsOut(segs[1..]);
      assert forall s :: s in Spaced(segs) ==> s == " " + segs[0] || s in Spaced(segs[1..]);
    }
  }

  // The parser reads joined tags in order.
  lemma ParseTags(f: Fields, tags: seq<Tag>)
    requires tags != [] && PlainTags(tags)
    ensures Parse(f, Join(TagTexts(tags), "; ")) == Done(SetTags(f, tags))
  {
    hide SetTag, ApplySegment, Join, Split;
    var texts := TagTexts(tags);
    TagTextsKeepOut(tags);
    SpacedJoinParts(texts);
    ApplyTag(f, tags[0], "");
    assert "" + texts[0] == texts[0];
    assert texts[1..] == TagTexts(tags[1..]);
    ApplySpaced(SetTag(f, tags[0].key, tags[0].value), tags[1..]);
    var segs := [texts[0]] + Spaced(texts[1..]);
    assert segs[1..] == Spaced(texts[1..]);
  }

  lemma TagTextsKeepOut(tags: seq<Tag>)
    requires PlainTags(tags)
    ensures forall s :: s in TagTexts(tags) ==> ';' !in s
  {
  }

  lemma {:induction false} ToLowerJoin(hs: seq<string>)
    requires forall h :: h in hs ==> ToLower(h) == h
    ensures ToLower(Join(hs, ":")) == Join(hs, ":")
  {
    if |hs| > 1 {
      ToLowerJoin(hs[1..]);
      ToLowerAppend(hs[0] + ":", Join(hs[1..], ":"));
      ToLowerAppend(hs[0], ":");
      assert hs[0] in hs;
    } else if |hs| == 1 {
      assert hs[0] in hs;
    }
  }

  // Parsing the value part of a built header returns every field; the two dates come
  // back together or, if one of them is zero, not at all.
  lemma ParseOfBuild(f: Fields)
    requires PlainFields(f)
    ensures Build(f) == Done("DKIM-Signature: " + ValueText(f))
    ensures Parse(EMPTY, ValueText(f)) == Done(if Dated(f) then f else f.(signDate := 0, expireDate := 0))
  {
    TagsArePlain(f);
    ParseTags(EMPTY, Tags(f));
    SetAllTags(f);
  }

  lemma TagsArePlain(f: Fields)
    requires PlainFields(f)
    ensures PlainTags(Tags(f))
  {
    hide Join, ToString, PlainValue;
    KeysArePlain();
    NamesArePlain(f.pair, f.algorithm);
    NumberIsPlain(f.signDate);
    NumberIsPlain(f.expireDate);
  }

  lemma KeysArePlain()
    ensures PlainKey("v") && PlainKey("s") && PlainKey("h") && PlainKey("d") && PlainKey("c") && PlainKey("a")
    ensures PlainKey("t") && PlainKey("x") && PlainKey("bh") && PlainKey("b")
  {
  }

  lemma NamesArePlain(p: CanonPair, a: Algorithm)
    ensures PlainValue(PairName(p)) && PlainValue(AlgorithmName(a)) && PlainValue("1")
  {
  }

  lemma NumberIsPlain(n: int)
    ensures PlainValue(ToString(n))
  {
    ToStringIsToken(n);
    TokenIsPlain(ToString(n));
  }

  lemma TokenIsPlain(v: string)
    requires Token(v)
    ensures PlainValue(v)
  {
    assert Solid(v[0]) && Solid(v[|v| - 1]);
  }

  lemma SetAllTags(f: Fields)
    requires PlainFields(f)
    ensures SetTags(EMPTY, Tags(f)) == if Dated(f) then f else f.(signDate := 0, expireDate := 0)
  {
    hide Join, ToString, Stol, Split, SetTags, ToLower, Dated, PairName, AlgorithmName;
    ToLowerJoin(f.headers);
    SplitJoin(f.headers, ':');
    var tags := Tags(f);
    var f2 := EMPTY.(selector := f.selector);
    var f3 := f2.(headers := f.headers);
    var f4 := f3.(domain := f.domain);
    var f5 := f4.(pair := f.pair);
    var f6 := f5.(algorithm := f.algorithm);
    SetTagsFrom(EMPTY, tags, 0);
    SetTagsFrom(EMPTY, tags, 1);
    SetTagsFrom(f2, tags, 2);
    SetTagsFrom(f3, tags, 3);
    SetTagsFrom(f4, tags, 4);
    SetTagsFrom(f5, tags, 5);
    assert tags[0..] == tags;
    SetPairAndAlgorithm(f4, f);
    assert [] + f.headers == f.headers;
    assert SetTags(EMPTY, tags) == SetTags(f6, tags[6..]);
    SetLastTags(f6, f);
  }

  lemma SetPairAndAlgorithm(g: Fields, f: Fields)
    ensures SetTag(g, "c", PairName(f.pair)) == g.(pair := f.pair)
    ensures SetTag(g.(pair := f.pair), "a", AlgorithmName(f.algorithm)) ==
            g.(pair := f.pair, algorithm := f.algorithm)
  {
    assert ToLower("relaxed/simple") == "relaxed/simple" && ToLower("simple/relaxed") == "simple/relaxed";
    assert ToLower("simple/simple") == "simple/simple" && ToLower("relaxed/relaxed") == "relaxed/relaxed";
    assert ToLower("rsa-sha1") == "rsa-sha1" && ToLower("rsa-sha256") == "rsa-sha256";
  }

  lemma SetLastTags(g: Fields, f: Fields)
    requires PlainFields(f)
    ensures SetTags(g, Tags(f)[6..]) ==
            (if Dated(f) then g.(signDate := f.signDate, expireDate := f.expireDate) else g)
            .(bodyHash := f.bodyHash, signature := f.signature)
  {
    hide Join, ToString, Stol, Split, SetTags;
    StolOfToString(f.signDate);
    StolOfToString(f.expireDate);
    var tags := Tags(f);
    var g1 := g.(signDate := f.signDate);
    var g2 := g1.(expireDate := f.expireDate);
    var n := |tags|;
    SetTagsFrom(g, tags, 6);
    SetTagsFrom(g1, tags, 7);
    SetTagsFrom(if Dated(f) then g2 else g, tags, n - 2);
    SetTagsFrom((if Dated(f) then g2 else g).(bodyHash := f.bodyHash), tags, n - 1);
    assert tags[n..] == [];
    SetNoTags((if Dated(f) then g2 else g).(bodyHash := f.bodyHash, signature := f.signature));
  }

  lemma SetNoTags(f: Fields)
    ensures SetTags(f, []) == f
  {
  }

  // ---------------------------------------------------------------- any header value

  function KeyOf(seg: string): string
  {
    ToLower(Trim(seg[..Find(seg, '=')]))
  }

  function ValueOf(seg: string): string
  {
    var sep := Find(seg, '=');
    if sep < |seg| then StripTrail(seg[sep + 1..]) else ""
  }

  // The value of the last tag of a key.
  function LastTag(segs: seq<string>, key: string): Option<string>
  {
    if segs == [] then None
    else if LastTag(segs[1..], key).Some? then LastTag(segs[1..], key)
    else if segs[0] != "" && KeyOf(segs[0]) == key then Some(ValueOf(segs[0]))
    else None
  }

  // The names of all tags h, one list behind the other.
  function AllNames(segs: seq<string>): seq<string>
  {
    if segs == [] then []
    else (if segs[0] != "" && KeyOf(segs[0]) == "h" then Split(ToLower(ValueOf(segs[0])), ':') else []) + AllNames(segs[1..])
  }

  function PairCalled(v: string): CanonPair
  {
    var w := ToLower(v);
    if w == "relaxed/simple" then RelaxedSimple
    else if w == "simple/relaxed" then SimpleRelaxed
    else if w == "simple/simple" then SimpleSimple
    else RelaxedRelaxed
  }

  // What was made of the segments so far.
  predicate Reads(f: Fields, segs: seq<string>, g: Fields)
  {
    && g.selector == LastTag(segs, "s").GetOr(f.selector) && g.domain == LastTag(segs, "d").GetOr(f.domain)
    && g.bodyHash == LastTag(segs, "bh").GetOr(f.bodyHash) && g.signature == LastTag(segs, "b").GetOr(f.signature)
    && g.pair == (match LastTag(segs, "c") case Some(v) => PairCalled(v) case None => f.pair)
    && g.algorithm == (match LastTag(segs, "a")
                       case Some(v) => if ToLower(v) == "rsa-sha1" then RsaSha1 else RsaSha256
                       case None => f.algorithm)
    && g.signDate == (match LastTag(segs, "t") case Some(v) => Stol(v).GetOr(0) case None => f.signDate)
    && g.expireDate == (match LastTag(segs, "x") case Some(v) => Stol(v).GetOr(0) case None => f.expireDate)
    && g.headers == f.headers + AllNames(segs)
  }

  lemma OneTag(seg: string)
    ensures forall key: string ::
              LastTag([seg], key) == if seg != "" && KeyOf(seg) == key then Some(ValueOf(seg)) else None
    ensures AllNames([seg]) == if seg != "" && KeyOf(seg) == "h" then Split(ToLower(ValueOf(seg)), ':') else []
  {
    hide KeyOf, ValueOf, Split;
    assert [seg][1..] == [];
    NoTags();
    var names := if seg != "" && KeyOf(seg) == "h" then Split(ToLower(ValueOf(seg)), ':') else [];
    assert names + [] == names;
  }

  lemma TagsStep(segs: seq<string>)
    requires segs != []
    ensures forall key: string :: LastTag(segs, key) ==
              if LastTag(segs[1..], key).Some? then LastTag(segs[1..], key) else LastTag([segs[0]], key)
    ensures AllNames(segs) == AllNames([segs[0]]) + AllNames(segs[1..])
  {
    hide KeyOf, ValueOf, Split;
    OneTag(segs[0]);
  }

  lemma OneReads(f: Fields, seg: string)
    requires ApplySegment(f, seg).Done?
    ensures Reads(f, [seg], ApplySegment(f, seg).value)
  {
    hide ToLower, Trim, Stol, Split, LastTag, AllNames, SetTag, Reads, KeyOf, ValueOf;
    OneTag(seg);
    if seg == "" {
      NothingSaid(f, seg);
    } else {
      SegmentSets(f, seg);
      TagReads(f, seg);
    }
  }

  lemma NothingSaid(f: Fields, seg: string)
    requires AllNames([seg]) == [] && forall key: string :: LastTag([seg], key) == None
    ensures Reads(f, [seg], f)
  {
    hide LastTag, AllNames;
    assert f.headers + [] == f.headers;
  }

  lemma SegmentSets(f: Fields, seg: string)
    requires seg != "" && ApplySegment(f, seg).Done?
    ensures ApplySegment(f, seg) == Done(SetTag(f, KeyOf(seg), ValueOf(seg)))
  {
    hide ToLower, Trim, SetTag;
  }

  lemma TagReads(f: Fields, seg: string)
    requires seg != ""
    ensures Reads(f, [seg], SetTag(f, KeyOf(seg), ValueOf(seg)))
  {
    hide ToLower, Stol, Split, LastTag, AllNames, KeyOf, ValueOf;
    OneTag(seg);
    assert f.headers + [] == f.headers;
  }

  lemma NoTags()
    ensures forall key: string :: LastTag([], key) == None
    ensures AllNames([]) == []
  {
  }

  lemma ReadsOn(f: Fields, segs: seq<string>, g: Fields, h: Fields)
    requires segs != [] && Reads(f, [segs[0]], g) && Reads(g, segs[1..], h)
    ensures Reads(f, segs, h)
  {
    hide ToLower, Stol, PairCalled, LastTag, AllNames;
    TagsStep(segs);
    assert f.headers + AllNames([segs[0]]) + AllNames(segs[1..]) == f.headers + (AllNames([segs[0]]) + AllNames(segs[1..]));
  }

  lemma {:induction false} SegmentsRead(f: Fields, segs: seq<string>)
    requires ApplySegments(f, segs).Done?
    ensures Reads(f, segs, ApplySegments(f, segs).value)
    decreases |segs|
  {
    hide ApplySegment, Reads;
    if segs == [] {
      ReadsNothing(f);
    } else {
      OneReads(f, segs[0]);
      var g := ApplySegment(f, segs[0]).value;
      SegmentsRead(g, segs[1..]);
      ReadsOn(f, segs, g, ApplySegments(g, segs[1..]).value);
    }
  }

  lemma ReadsNothing(f: Fields)
    ensures Reads(f, [], f)
  {
    NoTags();
    assert f.headers + [] == f.headers;
  }

  // Any value the parser gets through with, whatever the order of its tags and however many
  // there are: the last tag of a key counts, the lists of all tags h are put one behind the
  // other, and what is not said is relaxed/relaxed and rsa-sha256. (Section 3.5 of RFC 6376
  // has simple/simple where there is no tag c.)
  lemma AnyHeaderReads(raw: string)
    requires Parse(EMPTY, raw).Done?
    ensures var f, segs := Parse(EMPTY, raw).value, Split(raw, ';');
            && f.selector == LastTag(segs, "s").GetOr("") && f.domain == LastTag(segs, "d").GetOr("")
            && f.bodyHash == LastTag(segs, "bh").GetOr("") && f.signature == LastTag(segs, "b").GetOr("")
            && f.pair == PairCalled(LastTag(segs, "c").GetOr("relaxed/relaxed"))
            && f.algorithm == (if ToLower(LastTag(segs, "a").GetOr("rsa-sha256")) == "rsa-sha1" then RsaSha1 else RsaSha256)
            && f.signDate == Stol(LastTag(segs, "t").GetOr("0")).GetOr(0)
            && f.expireDate == Stol(LastTag(segs, "x").GetOr("0")).GetOr(0)
            && f.headers == AllNames(segs)
  {
    hide Split, ApplySegments, LastTag, AllNames, Stol, ToLower;
    SegmentsRead(EMPTY, Split(raw, ';'));
    StolOfZero();
    ToLowerNames();
    assert [] + AllNames(Split(raw, ';')) == AllNames(Split(raw, ';'));
  }

  lemma StolOfZero()
    ensures Stol("0") == Some(0)
  {
    StolOfToString(0);
  }

  lemma ToLowerNames()
    ensures ToLower("relaxed/relaxed") == "relaxed/relaxed" && ToLower("rsa-sha256") == "rsa-sha256"
  {
  }
}
