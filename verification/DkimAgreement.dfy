// The signer and the validator hash the same bytes.
module DkimAgreement {
  import opened Text
  import opened Mime
  import opened Builders
  import opened Unfolding
  import opened Decimal
  import opened DkimHeader
  import opened DkimCanonicalization
  import opened DkimSigner
  import opened DkimValidator

  // ---------------------------------------------------------------- the signature header

  // The tags in front of the signature, and the text up to and including "b=".
  function FrontTags(f: Fields): seq<Tag>
  {
    Tags(f)[..|Tags(f)| - 1]
  }

  function PreText(f: Fields): string
  {
    Join(TagTexts(FrontTags(f)), "; ") + "; b="
  }

  lemma ValueTextParts(f: Fields)
    ensures ValueText(f) == PreText(f) + f.signature
    ensures forall s: string :: PreText(f.(signature := s)) == PreText(f)
  {
    hide Join, ToString;
    var texts := TagTexts(FrontTags(f));
    assert "b" + "=" == "b=";
    assert TagTexts(Tags(f)) == texts + ["b=" + f.signature];
    JoinSnoc(texts, "b=" + f.signature, "; ");
    var front := Join(texts, "; ");
    assert front + "; " + ("b=" + f.signature) == front + "; b=" + f.signature;
    forall s: string ensures PreText(f.(signature := s)) == PreText(f) {
      assert FrontTags(f.(signature := s)) == FrontTags(f);
    }
  }

  // Values that can be folded: no white space, no semicolon.
  predicate SolidFields(f: Fields)
  {
    && Token(f.selector) && Token(f.domain) && Token(f.bodyHash) && Token(f.signature)
    && f.headers != [] && Token(Join(f.headers, ":"))
    && (forall h :: h in f.headers ==> ':' !in h && ToLower(h) == h)
    && INT64_MIN <= f.signDate <= INT64_MAX && INT64_MIN <= f.expireDate <= INT64_MAX
  }

  lemma SolidIsPlain(f: Fields)
    requires SolidFields(f)
    ensures PlainFields(f)
  {
    hide Token, PlainValue, Join;
    TokenIsPlain(f.selector);
    TokenIsPlain(f.domain);
    TokenIsPlain(f.bodyHash);
    TokenIsPlain(f.signature);
    TokenIsPlain(Join(f.headers, ":"));
  }

  lemma TagIsToken(tag: Tag)
    requires PlainKey(tag.key) && Token(tag.value)
    ensures Token(tag.Text())
  {
  }

  function SignatureHeaderOf(f: Fields): Canonical
  {
    Canonical("DKIM-Signature", TagTexts(Tags(f)))
  }

  lemma TagValuesAreTokens(f: Fields)
    requires SolidFields(f)
    ensures forall i :: 0 <= i < |Tags(f)| ==> PlainKey(Tags(f)[i].key) && Token(Tags(f)[i].value)
  {
    hide Join, ToString, Token;
    KeysArePlain();
    NamesAreTokens(f.pair, f.algorithm);
    ToStringIsToken(f.signDate);
    ToStringIsToken(f.expireDate);
  }

  lemma NamesAreTokens(p: CanonPair, a: Algorithm)
    ensures Token(PairName(p)) && Token(AlgorithmName(a)) && Token("1")
  {
  }

  lemma SignatureHeaderFolds(f: Fields)
    requires SolidFields(f)
    ensures SignatureHeaderOf(f).Valid() && SignatureHeaderOf(f).Text() == "DKIM-Signature: " + ValueText(f)
    ensures forall i :: 0 <= i < |TagTexts(Tags(f))| ==> Token(TagTexts(Tags(f))[i])
  {
    hide Token, Join, ToString, PlainKey;
    TagValuesAreTokens(f);
    var texts := TagTexts(Tags(f));
    forall i | 0 <= i < |texts| ensures Token(texts[i]) {
      TagIsToken(Tags(f)[i]);
    }
    assert "DKIM-Signature" + ": " == "DKIM-Signature: ";
  }

  // ---------------------------------------------------------------- no white space is lost in the value

  // Text that the whitespace rules leave alone.
  predicate Settled(s: string)
  {
    Collapsed(s) && (s != "" ==> s[0] != ' ' && s[|s| - 1] != ' ')
  }

  lemma {:induction false} JoinedTokensSettled(texts: seq<string>)
    requires forall i :: 0 <= i < |texts| ==> Token(texts[i])
    ensures Settled(Join(texts, "; "))
  {
    hide Token;
    if |texts| == 1 {
      TokenSettled(texts[0]);
    } else if texts != [] {
      JoinedTokensSettled(texts[1..]);
      TokenSettled(texts[0]);
      JoinIsEmpty(texts[1..]);
      assert texts[1..][0] == texts[1];
      SettledJoin(texts[0], Join(texts[1..], "; "));
    }
  }

  lemma TokenSettled(s: string)
    requires Token(s)
    ensures Settled(s) && s != ""
  {
    assert Solid(s[0]) && Solid(s[|s| - 1]);
  }

  lemma JoinIsEmpty(texts: seq<string>)
    requires texts != [] && Token(texts[0])
    ensures Join(texts, "; ") != ""
  {
  }

  lemma SettledJoin(a: string, b: string)
    requires Settled(a) && Settled(b) && a != "" && b != ""
    ensures Settled(a + "; " + b)
  {
    var s := a + "; " + b;
    forall i | 0 < i < |s| && s[i] == ' ' ensures s[i - 1] != ' ' {
      if i < |a| {
        assert a[i] == ' ';
      } else if i > |a| + 2 {
        assert b[i - |a| - 2] == ' ';
      }
    }
  }

  lemma SettledPrefix(s: string, n: nat)
    requires Settled(s) && n <= |s| && (n > 0 ==> s[n - 1] != ' ')
    ensures Settled(s[..n])
  {
    var t := s[..n];
    forall i | 0 < i < |t| && t[i] == ' ' ensures t[i - 1] != ' ' {
      assert s[i] == ' ';
    }
  }

  lemma SettledReduces(s: string)
    requires Settled(s)
    ensures Reduce(" " + s) == s && RelaxValue(" " + s) == s
  {
    var t := " " + s;
    forall i | 0 < i < |t| && t[i] == ' ' ensures t[i - 1] != ' ' {
      assert s[i - 1] == ' ';
      assert i > 1 ==> s[i - 2] != ' ';
    }
    CollapsedIsFixed(t, false);
    assert t[1..] == s;
    if s == "" {
      assert t[..0] == "";
    } else {
      assert StripTrail(t) == t;
    }
  }

  // The value of a canonical header survives the validator's own rewriting.
  lemma ReducedValueRelaxes(val: string)
    ensures RelaxValue(" " + Reduce(val)) == RelaxValue(val)
  {
    var c := Collapse(val, false);
    var r := Reduce(val);
    if r == "" {
      assert c == "" || c == " ";
      SettledReduces("");
      assert " "[..0] == "";
    } else {
      var t := " " + r;
      forall i | 0 < i < |t| && t[i] == ' ' ensures t[i - 1] != ' ' {
        assert r[i - 1] == ' ';
        if c[0] == ' ' {
          assert c[i] == ' ';
        } else {
          assert i > 1 ==> c[i - 1] == ' ';
        }
      }
      CollapsedIsFixed(t, false);
      StripBothEnds(c, r);
    }
  }

  lemma StripBothEnds(c: string, r: string)
    requires r == StripLead(c) && r != "" && r[0] != ' '
    ensures StripLead(StripTrail(" " + r)) == StripLead(StripTrail(c))
  {
    var t := " " + r;
    assert t[1..] == r;
    if r[|r| - 1] == ' ' {
      assert t[..|t| - 1] == " " + r[..|r| - 1];
      if c[0] == ' ' {
        assert c == t;
      } else {
        assert c == r;
        assert StripTrail(c)[0] == r[0];
      }
    }
  }

  // ---------------------------------------------------------------- the other headers

  // What the validator makes of a header before it canonicalizes it.
  function Normalize(h: string): string
    requires Find(h, ':') < |h|
  {
    ToLower(Reduce(h[..Find(h, ':')])) + ": " + Reduce(h[Find(h, ':') + 1..])
  }

  // A header with a field name the validator does not change, other than a signature.
  predicate Ordinary(h: string)
  {
    var n := Find(h, ':');
    && n < |h| && Collapsed(h[..n]) && (n > 0 ==> h[0] != ' ')
    && HeaderKey(h) != DKIM_KEY
  }

  lemma NameIsKept(h: string)
    requires Ordinary(h)
    ensures Reduce(h[..Find(h, ':')]) == h[..Find(h, ':')]
  {
    CollapsedIsFixed(h[..Find(h, ':')], false);
  }

  lemma NormalizeParts(h: string)
    requires Ordinary(h)
    ensures var n, m := Find(h, ':'), Normalize(h);
            n < |m| && Find(m, ':') == n && m[..n] == ToLower(h[..n]) && m[n + 1..] == " " + Reduce(h[n + 1..])
  {
    hide Reduce, Find, ToLower, Ordinary;
    NameIsKept(h);
    OrdinaryHasColon(h);
    var n := Find(h, ':');
    ColonAt(ToLower(h[..n]), Reduce(h[n + 1..]));
    assert Normalize(h) == ToLower(h[..n]) + ": " + Reduce(h[n + 1..]);
    LoweredKeeps(h[..n]);
  }

  lemma LoweredKeeps(s: string)
    ensures |ToLower(s)| == |s| && (':' in ToLower(s) <==> ':' in s)
  {
    forall k | 0 <= k < |s| ensures ToLower(s)[k] == ':' <==> s[k] == ':' {
    }
    if ':' in s {
      var k :| 0 <= k < |s| && s[k] == ':';
      assert ToLower(s)[k] == ':';
    }
  }

  lemma ColonAt(key: string, val: string)
    ensures var m := key + ": " + val;
            (':' !in key ==> Find(m, ':') == |key|) && m[..|key|] == key && m[|key| + 1..] == " " + val
  {
    hide Find;
    var m := key + ": " + val;
    assert m[|key|] == ':' && m[|key| + 1..] == " " + val;
    if ':' !in key {
      assert forall k :: 0 <= k < |key| ==> m[k] == key[k];
      FindIs(m, ':', |key|);
    }
  }

  lemma NormalizeRelaxes(h: string)
    requires Ordinary(h)
    ensures Find(Normalize(h), ':') < |Normalize(h)| && RelaxHeader(Normalize(h)) == RelaxHeader(h)
    ensures HeaderKey(Normalize(h)) == HeaderKey(h)
  {
    hide Reduce, RelaxValue, Trim, Find;
    var n := Find(h, ':');
    NormalizeParts(h);
    ToLowerAgain(h[..n]);
    ReducedValueRelaxes(h[n + 1..]);
  }

  function NormalizeAll(hs: seq<string>): (r: seq<string>)
    requires forall i :: 0 <= i < |hs| ==> Ordinary(hs[i])
    ensures |r| == |hs|
  {
    if hs == [] then []
    else
      assert Ordinary(hs[0]);
      [Normalize(hs[0])] + NormalizeAll(hs[1..])
  }

  lemma NotASignature(h: string)
    requires Ordinary(h)
    ensures ParseHeader(h, true).Done? && ParseHeader(h, true).value.key != DKIM_KEY
    ensures ParseHeader(h, true).value.key + ": " + ParseHeader(h, true).value.value == Normalize(h)
  {
    NameIsKept(h);
    var name := h[..Find(h, ':')];
    KeyIsTrimmed();
  }

  lemma KeyIsTrimmed()
    ensures Trim(DKIM_KEY) == DKIM_KEY && ToLower("DKIM-Signature") == DKIM_KEY
  {
  }

  lemma {:induction false} OrdinaryHeaders(hs: seq<string>)
    requires forall i :: 0 <= i < |hs| ==> Ordinary(hs[i])
    ensures ParseHeaders(hs, true).Done?
    ensures var p := ParseHeaders(hs, true).value;
            WithoutSignatures(p) == NormalizeAll(hs) && Signatures(p) == []
  {
    hide Ordinary, ParseHeader, Normalize;
    if hs != [] {
      NotASignature(hs[0]);
      OrdinaryHeaders(hs[1..]);
      var p := ParseHeaders(hs, true).value;
      assert p[1..] == ParseHeaders(hs[1..], true).value;
    }
  }

  lemma {:induction false} CollectNormalized(hs: seq<string>, filter: seq<string>)
    requires forall i :: 0 <= i < |hs| ==> Ordinary(hs[i])
    ensures Collect(hs, filter).Done? && Collect(NormalizeAll(hs), filter) == Collect(hs, filter)
    ensures forall i :: 0 <= i < |Collect(hs, filter).value| ==> Collect(hs, filter).value[i].key != DKIM_KEY
  {
    hide RelaxHeader, HeaderKey, Normalize, Find;
    if hs != [] {
      NormalizeRelaxes(hs[0]);
      OrdinaryHasColon(hs[0]);
      RelaxHeaderKey(hs[0]);
      CollectNormalized(hs[1..], filter);
      assert NormalizeAll(hs)[1..] == NormalizeAll(hs[1..]);
    }
  }

  lemma OrdinaryHasColon(h: string)
    requires Ordinary(h)
    ensures Find(h, ':') < |h| && HeaderKey(h) != DKIM_KEY
  {
  }

  lemma RelaxHeaderKey(h: string)
    requires Find(h, ':') < |h|
    ensures RelaxHeader(h).key == HeaderKey(h)
  {
  }

  // ---------------------------------------------------------------- reading the signed message

  lemma SignatureHeaderParsed(s: string)
    requires Settled(s)
    ensures ParseHeader("DKIM-Signature: " + s, true) == Done(MimeHeader(DKIM_KEY, s))
    ensures RelaxHeader("DKIM-Signature: " + s) == Entry(DKIM_KEY, DKIM_KEY + ":" + s)
    ensures HeaderKey("DKIM-Signature: " + s) == DKIM_KEY
  {
    hide Reduce, RelaxValue, Trim, Collapse;
    var name := "DKIM-Signature";
    var h := "DKIM-Signature: " + s;
    FindIs(h, ':', |name|);
    assert h[..|name|] == name && h[|name| + 1..] == " " + s;
    SettledReduces(s);
    KeyIsTrimmed();
    NameReduced();
  }

  lemma NameReduced()
    ensures Reduce("DKIM-Signature") == "DKIM-Signature"
  {
    CollapsedIsFixed("DKIM-Signature", false);
  }

  lemma {:induction false} SeparateAppend(a: seq<MimeHeader>, s: string)
    ensures WithoutSignatures(a + [MimeHeader(DKIM_KEY, s)]) == WithoutSignatures(a)
    ensures Signatures(a + [MimeHeader(DKIM_KEY, s)]) == Signatures(a) + [s]
  {
    var last := [MimeHeader(DKIM_KEY, s)];
    if a == [] {
      assert a + last == last && last[1..] == [];
      assert [s] + [] == [s];
    } else {
      assert (a + last)[1..] == a[1..] + last;
      SeparateAppend(a[1..], s);
    }
  }

  predicate Lettered(head: seq<string>, body: seq<string>)
  {
    && NoNewlines(head) && NoNewlines(body)
    && (forall k :: 0 <= k < |head| ==> head[k] != "") && body != [] && body[0] != ""
  }

  function SignedText(head: seq<string>, f: Fields, body: seq<string>): string
    requires SolidFields(f)
  {
    SignatureHeaderFolds(f);
    UnfoldUndoesFold(SignatureHeaderOf(f), 128);
    Unlines(head) + Crlf(FoldLines(SignatureHeaderOf(f).Text(), 128).value) + "\r\n\r\n" + Unlines(body)
  }

  lemma SignedTextLines(head: seq<string>, folded: seq<string>, body: seq<string>)
    requires NoNewlines(head) && NoNewlines(folded) && NoNewlines(body) && folded != []
    ensures Lines(Unlines(head) + Crlf(folded) + "\r\n\r\n" + Unlines(body)) == head + folded + [""] + body
  {
    hide Lines, Unlines, Crlf;
    CrlfIsUnlines(folded);
    var rest := "" + "\r\n" + Unlines(body);
    TwoBreaks(Unlines(head), Crlf(folded), Unlines(body));
    LinesOfUnlines(head, Unlines(folded) + rest);
    LinesOfUnlines(folded, rest);
    LinesOfLine("", Unlines(body));
    LinesOfUnlines(body, "");
    LinesOfNothing();
    assert Unlines(body) + "" == Unlines(body) && body + [] == body;
    assert head + (folded + ([""] + body)) == head + folded + [""] + body;
  }

  lemma TwoBreaks(head: string, folded: string, body: string)
    ensures head + folded + "\r\n\r\n" + body == head + ((folded + "\r\n") + ("" + "\r\n" + body))
  {
    assert "" + "\r\n" + body == "\r\n" + body;
    assert "\r\n\r\n" + body == "\r\n" + ("\r\n" + body);
  }

  // What the validator reads of a signed message: its headers as they are, the new one
  // behind them, and its body.
  lemma SignedTextParses(head: seq<string>, f: Fields, body: seq<string>)
    requires SolidFields(f) && Lettered(head, body) && ParseHeaders(JoinHeaders(head), true).Done?
    ensures Receive(SignedText(head, f, body)) ==
            Done(Received(ParseHeaders(JoinHeaders(head), true).value + [MimeHeader(DKIM_KEY, ValueText(f))], Unlines(body)))
  {
    hide Lines, Unlines, Crlf, JoinHeaders, FoldLines, Group, SolidFields, ParseHeaders,
      SectionsOf, ParseHeader;
    var h := SignatureHeaderOf(f);
    SignatureHeaderFolds(f);
    UnfoldUndoesFold(h, 128);
    FoldLinesNoNewlines(h, 128);
    var folded := FoldLines(h.Text(), 128).value;
    GroupContinues(folded);
    SignedTextLines(head, folded, body);
    var lines := head + folded + [""] + body;
    SectionsFound(head + folded, [""], body) by {
      assert forall l :: l in head + folded ==> l in head || l in folded;
    }
    var n := |head| + |folded|;
    assert lines[..n] == head + folded && lines[n + 1..] == body;
    JoinHeadersAppend(head, folded);
    var joined := JoinHeaders(head);
    JoinedTokensSettled(TagTexts(Tags(f)));
    SignatureHeaderParsed(ValueText(f));
    ParseHeadersOne(h.Text(), true);
    ParseHeadersAppend(joined, [h.Text()], true);
  }

  // Where the validator finds the pieces of a signed message.
  lemma SignedTextReads(head: seq<string>, f: Fields, body: seq<string>)
    requires SolidFields(f) && Lettered(head, body)
    requires forall i :: 0 <= i < |JoinHeaders(head)| ==> Ordinary(JoinHeaders(head)[i])
    ensures var r := Receive(SignedText(head, f, body));
            && r.Done? && r.value.body == Unlines(body)
            && WithoutSignatures(r.value.headers) == NormalizeAll(JoinHeaders(head))
            && Signatures(r.value.headers) == [ValueText(f)]
  {
    hide Unlines, JoinHeaders, Ordinary, SolidFields, ParseHeaders, Receive, SignedText;
    var joined := JoinHeaders(head);
    OrdinaryHeaders(joined);
    SignedTextParses(head, f, body);
    SeparateAppend(ParseHeaders(joined, true).value, ValueText(f));
    assert [] + [ValueText(f)] == [ValueText(f)];
  }

  // ---------------------------------------------------------------- the first "b="

  // Does "b=" occur in the text?
  predicate HasB(s: string)
  {
    exists k :: 0 <= k < |s| - 1 && s[k] == 'b' && s[k + 1] == '='
  }

  // A tag value in front of the signature that the validator takes for it.
  predicate Misleading(f: Fields)
  {
    HasB(f.selector) || HasB(Join(f.headers, ":")) || HasB(f.domain) || HasB(f.bodyHash)
  }

  lemma HasBJoin(a: string, b: string)
    ensures HasB(a + "; " + b) <==> HasB(a) || HasB(b)
  {
    var s := a + "; " + b;
    if k :| 0 <= k < |a| - 1 && a[k] == 'b' && a[k + 1] == '=' {
      assert s[k] == 'b' && s[k + 1] == '=';
    }
    if k :| 0 <= k < |b| - 1 && b[k] == 'b' && b[k + 1] == '=' {
      assert s[|a| + 2 + k] == 'b' && s[|a| + 2 + k + 1] == '=';
    }
    if k :| 0 <= k < |s| - 1 && s[k] == 'b' && s[k + 1] == '=' {
      if k < |a| {
        assert a[k] == 'b' && a[k + 1] == '=';
      } else {
        assert b[k - |a| - 2] == 'b' && b[k - |a| - 1] == '=';
      }
    }
  }

  lemma HasBTag(tag: Tag)
    requires PlainKey(tag.key) && tag.key[|tag.key| - 1] != 'b'
    ensures HasB(tag.Text()) <==> HasB(tag.value)
  {
    var s := tag.Text();
    var n := |tag.key| + 1;
    if k :| 0 <= k < |tag.value| - 1 && tag.value[k] == 'b' && tag.value[k + 1] == '=' {
      assert s[n + k] == 'b' && s[n + k + 1] == '=';
    }
    assert forall k :: 0 <= k < |tag.key| ==> s[k] == tag.key[k];
    if k :| 0 <= k < |s| - 1 && s[k] == 'b' && s[k + 1] == '=' {
      assert tag.value[k - n] == 'b' && tag.value[k - n + 1] == '=';
    }
  }

  predicate AnyHasB(tags: seq<Tag>)
  {
    exists i :: 0 <= i < |tags| && HasB(tags[i].value)
  }

  lemma {:induction false} HasBTags(tags: seq<Tag>)
    requires tags != [] && forall i :: 0 <= i < |tags| ==> PlainKey(tags[i].key) && tags[i].key[|tags[i].key| - 1] != 'b'
    ensures HasB(Join(TagTexts(tags), "; ")) <==> AnyHasB(tags)
  {
    hide HasB, PlainKey;
    var texts := TagTexts(tags);
    HasBTag(tags[0]);
    if |tags| > 1 {
      HasBTags(tags[1..]);
      assert texts[1..] == TagTexts(tags[1..]);
      HasBJoin(texts[0], Join(texts[1..], "; "));
      AnyHasBStep(tags);
    }
  }

  lemma AnyHasBStep(tags: seq<Tag>)
    requires tags != []
    ensures AnyHasB(tags) <==> HasB(tags[0].value) || AnyHasB(tags[1..])
  {
    hide HasB;
    if i :| 0 <= i < |tags[1..]| && HasB(tags[1..][i].value) {
      assert HasB(tags[i + 1].value);
    }
    if i :| 0 < i < |tags| && HasB(tags[i].value) {
      assert HasB(tags[1..][i - 1].value);
    }
  }

  lemma FrontHasB(f: Fields)
    ensures AnyHasB(FrontTags(f)) <==> Misleading(f)
    ensures forall i :: 0 <= i < |FrontTags(f)| ==>
              PlainKey(FrontTags(f)[i].key) && FrontTags(f)[i].key[|FrontTags(f)[i].key| - 1] != 'b'
  {
    hide Join, ToString, HasB, PlainKey;
    KeysArePlain();
    NoBInNames(f.pair, f.algorithm);
    NoBInNumber(f.signDate);
    NoBInNumber(f.expireDate);
    var tags := FrontTags(f);
    assert tags[1].value == f.selector && tags[2].value == Join(f.headers, ":") && tags[3].value == f.domain;
    assert tags[|tags| - 1].value == f.bodyHash;
  }

  lemma NoBInNames(p: CanonPair, a: Algorithm)
    ensures !HasB(PairName(p)) && !HasB(AlgorithmName(a)) && !HasB("1")
  {
  }

  lemma NoBInNumber(n: int)
    ensures !HasB(ToString(n))
  {
    hide Digits;
    ToStringIsToken(n);
  }

  // The validator cuts the signature header where the signer left off, exactly when no
  // earlier tag value contains "b=".
  lemma FirstB(f: Fields)
    ensures var at := FindString(ValueText(f), "b=");
            at.Some? && at.value + 2 <= |PreText(f)| && (at.value + 2 == |PreText(f)| <==> !Misleading(f))
  {
    hide Join, FindString, HasB;
    ValueTextParts(f);
    var front := Join(TagTexts(FrontTags(f)), "; ");
    var text := ValueText(f);
    FrontHasB(f);
    HasBTags(FrontTags(f));
    assert text[|front| + 2] == 'b' && text[|front| + 3] == '=';
    FindsB(front, text);
  }

  lemma FindsB(front: string, text: string)
    requires |text| >= |front| + 4 && text[..|front| + 4] == front + "; b="
    ensures var at := FindString(text, "b=");
            at.Some? && at.value <= |front| + 2 && (at.value == |front| + 2 <==> !HasB(front))
  {
    hide FindString, StartsWith;
    FrontOfText(front, text);
    var at := FirstOccurrence(text, |front| + 2);
    if at < |front| + 2 {
      assert front[at] == 'b' && front[at + 1] == '=';
    }
    if HasB(front) {
      var k :| 0 <= k < |front| - 1 && front[k] == 'b' && front[k + 1] == '=';
      var _ := FirstOccurrence(text, k);
    }
  }

  lemma FrontOfText(front: string, text: string)
    requires |text| >= |front| + 4 && text[..|front| + 4] == front + "; b="
    ensures forall k :: 0 <= k < |front| ==> text[k] == front[k]
    ensures text[|front|] == ';' && text[|front| + 1] == ' ' && text[|front| + 2] == 'b' && text[|front| + 3] == '='
  {
    var t := text[..|front| + 4];
    assert t[|front|..] == "; b=";
    assert forall k :: 0 <= k < |front| + 4 ==> text[k] == t[k];
  }

  // The search ends at an occurrence, at or in front of any given one.
  lemma FirstOccurrence(text: string, k: nat) returns (at: nat)
    requires k + 1 < |text| && text[k] == 'b' && text[k + 1] == '='
    ensures FindString(text, "b=") == Some(at) && at <= k && text[at] == 'b' && text[at + 1] == '='
  {
    hide StartsWith;
    StartsWithB(text, k);
    FindStringFirst(text, "b=", k);
    at := FindString(text, "b=").value;
    StartsWithB(text, at);
  }

  lemma StartsWithB(text: string, k: nat)
    requires k + 1 < |text|
    ensures StartsWith(text[k..], "b=") <==> text[k] == 'b' && text[k + 1] == '='
    ensures StartsWith(text[k..], "b=") <==> text[k..][..2] == "b="
  {
    assert text[k..][..2] == [text[k], text[k + 1]];
  }

  // ---------------------------------------------------------------- relaxed header bytes

  // The entries of a message with a signature header behind them, for a filter that
  // ends in the signature's own key.
  lemma {:induction false} PickSwap(entries: seq<Entry>, a: Entry, b: Entry, filter: seq<string>)
    requires a.key == DKIM_KEY && b.key == DKIM_KEY
    requires forall i :: 0 <= i < |entries| ==> entries[i].key != DKIM_KEY
    requires Pick(entries + [a], filter).Done?
    ensures Pick(entries + [b], filter).Done?
    ensures filter != [] && filter[|filter| - 1] == DKIM_KEY ==>
              var p, q := Pick(entries + [a], filter).value, Pick(entries + [b], filter).value;
              p != [] && q != [] && p[|p| - 1] == a.text && q[|q| - 1] == b.text
    ensures a == b ==> Pick(entries + [b], filter) == Pick(entries + [a], filter)
  {
    if filter != [] {
      FirstEntrySwap(entries, a, b, filter[0]);
      PickSwap(entries, a, b, filter[1..]);
    }
  }

  lemma FirstEntrySwap(entries: seq<Entry>, a: Entry, b: Entry, key: string)
    requires a.key == DKIM_KEY && b.key == DKIM_KEY
    requires forall i :: 0 <= i < |entries| ==> entries[i].key != DKIM_KEY
    ensures FirstEntry(entries + [a], key) == FirstEntry(entries + [b], key)
    ensures key == DKIM_KEY ==> FirstEntry(entries + [a], key) == |entries|
  {
    var i, j := FirstEntry(entries + [a], key), FirstEntry(entries + [b], key);
    assert forall k :: 0 <= k < |entries| ==> (entries + [a])[k] == entries[k] == (entries + [b])[k];
    assert (entries + [a])[|entries|] == a && (entries + [b])[|entries|] == b;
  }

  lemma {:induction false} PickNoNewlines(entries: seq<Entry>, filter: seq<string>)
    requires forall i :: 0 <= i < |entries| ==> '\n' !in entries[i].text
    requires Pick(entries, filter).Done?
    ensures NoNewlines(Pick(entries, filter).value)
  {
    if filter != [] {
      PickNoNewlines(entries, filter[1..]);
    }
  }

  lemma {:induction false} CollectNoNewlines(lines: seq<string>, filter: seq<string>)
    requires NoNewlines(lines) && Collect(lines, filter).Done?
    ensures forall i :: 0 <= i < |Collect(lines, filter).value| ==> '\n' !in Collect(lines, filter).value[i].text
  {
    hide RelaxHeader, HeaderKey;
    if lines != [] {
      RelaxHeaderNoNewline(lines[0]);
      CollectNoNewlines(lines[1..], filter);
    }
  }

  lemma RelaxHeaderNoNewline(line: string)
    requires Find(line, ':') < |line| && '\n' !in line
    ensures '\n' !in RelaxHeader(line).text
  {
    hide ToLower, Trim, RelaxValue, Find;
    var n := Find(line, ':');
    LowerNoNewline(line[..n]);
    TrimNoNewline(ToLower(line[..n]));
    RelaxNoNewline(line[n + 1..]);
  }

  lemma LowerNoNewline(s: string)
    requires '\n' !in s
    ensures '\n' !in ToLower(s)
  {
  }

  lemma TrimNoNewline(s: string)
    requires '\n' !in s
    ensures '\n' !in Trim(s)
  {
  }

  lemma RelaxNoNewline(s: string)
    requires '\n' !in s
    ensures '\n' !in RelaxValue(s)
  {
    hide Collapse;
  }

  lemma CollectSignature(headers: seq<string>, s: string, filter: seq<string>)
    requires Collect(headers, filter).Done? && Settled(s) && DKIM_KEY in filter
    ensures Collect(headers + ["DKIM-Signature: " + s], filter) ==
            Done(Collect(headers, filter).value + [Entry(DKIM_KEY, DKIM_KEY + ":" + s)])
  {
    hide Collect, RelaxHeader, HeaderKey, Settled;
    SignatureHeaderParsed(s);
    SignatureHasColon(s);
    CollectOne("DKIM-Signature: " + s, filter);
    CollectAppend(headers, ["DKIM-Signature: " + s], filter);
  }

  lemma SignatureHasColon(s: string)
    ensures Find("DKIM-Signature: " + s, ':') < |"DKIM-Signature: " + s|
  {
    FindIs("DKIM-Signature: " + s, ':', 14);
  }

  // Two signature headers behind the same headers: the same bytes or different ones.
  lemma RelaxedBytes(pair: CanonPair, raw: string, other: string, headers: seq<string>, normal: seq<string>,
                     filter: seq<string>, s: string, t: string)
    requires RelaxesHeaders(pair) && Settled(s) && Settled(t) && '\n' !in s && '\n' !in t
    requires Lines(raw) == headers + ["DKIM-Signature: " + s]
    requires Lines(other) == normal + ["DKIM-Signature: " + t]
    requires NoNewlines(headers)
    requires Collect(headers, filter + [DKIM_KEY]).Done?
    requires Collect(normal, filter + [DKIM_KEY]) == Collect(headers, filter + [DKIM_KEY])
    requires forall i :: 0 <= i < |Collect(headers, filter + [DKIM_KEY]).value| ==>
               Collect(headers, filter + [DKIM_KEY]).value[i].key != DKIM_KEY
    requires HeaderBytes(pair, raw, filter + [DKIM_KEY]).Done?
    ensures HeaderBytes(pair, other, filter + [DKIM_KEY]).Done?
    ensures HeaderBytes(pair, other, filter + [DKIM_KEY]) == HeaderBytes(pair, raw, filter + [DKIM_KEY]) <==> s == t
  {
    hide Collect, Pick, Settled, Lines;
    var keys := filter + [DKIM_KEY];
    CollectSignature(headers, s, keys);
    CollectSignature(normal, t, keys);
    var entries := Collect(headers, keys).value;
    var a, b := Entry(DKIM_KEY, DKIM_KEY + ":" + s), Entry(DKIM_KEY, DKIM_KEY + ":" + t);
    PickSwap(entries, a, b, keys);
    var p, q := Pick(entries + [a], keys).value, Pick(entries + [b], keys).value;
    CollectNoNewlines(headers, keys);
    PickNoNewlines(entries + [a], keys);
    PickNoNewlines(entries + [b], keys);
    UnlinesEnd(p);
    UnlinesEnd(q);
    if s != t {
      assert a.text[|DKIM_KEY| + 1..] == s && b.text[|DKIM_KEY| + 1..] == t;
      if Unlines(p) == Unlines(q) {
        UnlinesInjective(p, q);
      }
    }
  }

  // A list of lines written out is its text without the final CRLF, and a CRLF.
  lemma {:induction false} UnlinesEnd(lines: seq<string>)
    requires lines != []
    ensures |Unlines(lines)| >= 2
    ensures Unlines(lines) == Unlines(lines)[..|Unlines(lines)| - 2] + "\r\n"
  {
    if |lines| > 1 {
      UnlinesEnd(lines[1..]);
    } else {
      assert Unlines(lines) == lines[0] + "\r\n" + Unlines([]);
    }
  }

  // ---------------------------------------------------------------- the agreement

  // What the caller has to look at: the message it signs and the configuration.
  predicate Signable(mime: string)
  {
    && Sectioned(mime)
    && forall i :: 0 <= i < |JoinHeaders(HeadOf(mime))| ==> Ordinary(JoinHeaders(HeadOf(mime))[i])
  }

  function HeadOf(mime: string): seq<string>
    requires Sectioned(mime)
  {
    Lines(mime)[..SectionsOf(Lines(mime)).headersEnd.value]
  }

  function BodyOf(mime: string): seq<string>
    requires Sectioned(mime)
  {
    Lines(mime)[SectionsOf(Lines(mime)).bodyBegin.value..]
  }

  lemma SectionedIsLettered(mime: string)
    requires Sectioned(mime)
    ensures Lettered(HeadOf(mime), BodyOf(mime)) && NoNewlines(JoinHeaders(HeadOf(mime)))
  {
    hide Lines, JoinHeaders, Ordinary, SectionsOf;
    LinesHaveNoNewline(mime);
    SectionsBounds(Lines(mime));
    JoinHeadersNoNewline(HeadOf(mime));
  }

  // The steps of a successful signing.
  lemma SignSteps(cfg: Config, prior: string, crypto: Crypto, mime: string)
    requires Sectioned(mime) && Sign(cfg, prior, crypto, mime).Done?
    requires SolidFields(Sign(cfg, prior, crypto, mime).value.fields)
    ensures var sg := Sign(cfg, prior, crypto, mime).value;
            var f := sg.fields;
            && sg.message == SignedText(HeadOf(mime), f, BodyOf(mime))
            && BodyBytes(cfg.pair, Unlines(BodyOf(mime))) == Done(sg.bodyBytes)
            && f.bodyHash == crypto.Hash(cfg.algorithm, sg.bodyBytes)
            && f.signature == crypto.sign(sg.headerBytes, cfg.algorithm)
            && f.pair == cfg.pair && f.algorithm == cfg.algorithm && f.headers == cfg.headerFilter
            && f.selector == cfg.selector && f.domain == cfg.domain
            && HeaderBytes(cfg.pair, Unlines(JoinHeaders(HeadOf(mime))) + ("DKIM-Signature: " + PreText(f) + prior),
                           f.headers + [DKIM_KEY]) == Done(sg.headerBytes)
  {
    hide Lines, JoinHeaders, SectionsOf, Unlines, BodyBytes, HeaderBytes, FoldLines, Crlf, ValueText,
      PreText, SolidFields;
    var f := Sign(cfg, prior, crypto, mime).value.fields;
    SignatureHeaderFolds(f);
    UnfoldUndoesFold(SignatureHeaderOf(f), 128);
    ValueTextParts(f);
    var before := f.(signature := prior);
    ValueTextParts(before);
    assert "DKIM-Signature: " + ValueText(before) == "DKIM-Signature: " + PreText(f) + prior;
  }

  lemma PresignSettled(f: Fields, prior: string)
    requires SolidFields(f) && (prior == "" || Token(prior))
    ensures Settled(PreText(f) + prior) && '\n' !in PreText(f) + prior && PreText(f) != ""
    ensures |PreText(f) + prior| > 0 && (PreText(f) + prior)[|PreText(f) + prior| - 1] != '\r'
  {
    hide Join, ToString, Token, SolidFields, Settled;
    var texts := TagTexts(FrontTags(f)) + ["b=" + prior];
    SignatureHeaderFolds(f);
    assert forall i :: 0 <= i < |FrontTags(f)| ==> TagTexts(FrontTags(f))[i] == TagTexts(Tags(f))[i];
    LastTagIsToken(prior);
    JoinedTokensSettled(texts);
    JoinSnoc(TagTexts(FrontTags(f)), "b=" + prior, "; ");
    var front := Join(TagTexts(FrontTags(f)), "; ");
    assert front + "; " + ("b=" + prior) == PreText(f) + prior;
    JoinedTokensNoBreak(texts);
  }

  lemma LastTagIsToken(prior: string)
    requires prior == "" || Token(prior)
    ensures Token("b=" + prior)
  {
  }

  lemma {:induction false} JoinedTokensNoBreak(texts: seq<string>)
    requires forall i :: 0 <= i < |texts| ==> Token(texts[i])
    ensures '\n' !in Join(texts, "; ") && '\r' !in Join(texts, "; ")
  {
    if |texts| > 1 {
      JoinedTokensNoBreak(texts[1..]);
    }
    if texts != [] {
      assert Token(texts[0]);
      assert forall i :: 0 <= i < |texts[0]| ==> Solid(texts[0][i]);
    }
  }

  lemma {:induction false} NormalizedNoNewlines(hs: seq<string>)
    requires NoNewlines(hs) && forall i :: 0 <= i < |hs| ==> Ordinary(hs[i])
    ensures NoNewlines(NormalizeAll(hs))
  {
    hide Ordinary, Normalize;
    if hs != [] {
      NormalizeNoNewline(hs[0]);
      NormalizedNoNewlines(hs[1..]);
    }
  }

  lemma NormalizeNoNewline(h: string)
    requires Ordinary(h) && '\n' !in h
    ensures '\n' !in Normalize(h)
  {
    hide Reduce, ToLower;
    var n := Find(h, ':');
    ReduceNoNewline(h[..n]);
    ReduceNoNewline(h[n + 1..]);
    LowerNoNewline(Reduce(h[..n]));
  }

  lemma ReduceNoNewline(s: string)
    requires '\n' !in s
    ensures '\n' !in Reduce(s)
  {
    hide Collapse;
  }

  lemma PresignLines(headers: seq<string>, s: string)
    requires NoNewlines(headers) && '\n' !in s && s != "" && s[|s| - 1] != '\r'
    ensures Lines(Unlines(headers) + ("DKIM-Signature: " + s)) == headers + ["DKIM-Signature: " + s]
  {
    hide Lines, Unlines;
    var last := "DKIM-Signature: " + s;
    LinesOfUnlines(headers, last);
    LinesLast(last);
  }

  lemma CutLines(headers: seq<string>, cut: string)
    requires NoNewlines(headers) && '\n' !in cut
    ensures Lines(Unlines(headers) + ("DKIM-Signature: " + cut + "\r\n")) == headers + ["DKIM-Signature: " + cut]
  {
    hide Lines, Unlines;
    LinesOfUnlines(headers, "DKIM-Signature: " + cut + "\r\n");
    LinesOfLine("DKIM-Signature: " + cut, "");
    LinesOfNothing();
    assert "DKIM-Signature: " + cut + "\r\n" + "" == "DKIM-Signature: " + cut + "\r\n";
  }

  // The signature header as the validator cuts it, against the one that was signed.
  lemma CutIsPresign(f: Fields, prior: string) returns (cut: string)
    requires SolidFields(f) && (prior == "" || Token(prior))
    ensures var at := FindString(ValueText(f), "b=");
            at.Some? && at.value + 2 <= |ValueText(f)| && cut == ValueText(f)[..at.value + 2]
    ensures Settled(cut) && '\n' !in cut
    ensures PreText(f) + prior == cut <==> prior == "" && !Misleading(f)
  {
    hide Join, ToString, Token, FindString, Misleading;
    var text := ValueText(f);
    FirstB(f);
    ValueTextParts(f);
    var at := FindString(text, "b=").value;
    cut := text[..at + 2];
    SignatureHeaderFolds(f);
    JoinedTokensSettled(TagTexts(Tags(f)));
    JoinedTokensNoBreak(TagTexts(Tags(f)));
    FoundB(text);
    SettledPrefix(text, at + 2);
    assert text[..|PreText(f)|] == PreText(f);
    assert PreText(f) + "" == PreText(f);
  }

  lemma FoundB(text: string)
    ensures var at := FindString(text, "b=");
            at.Some? ==> at.value + 2 <= |text| && text[at.value + 1] == '='
  {
    var at := FindString(text, "b=");
    if at.Some? {
      FoundIsOccurrence(text, "b=");
      StartsWithB(text, at.value);
    }
  }

  lemma {:induction false} FoundIsOccurrence(s: string, p: string)
    requires FindString(s, p).Some?
    ensures StartsWith(s[FindString(s, p).value..], p)
  {
    assert s[0..] == s;
    if !StartsWith(s, p) {
      FoundIsOccurrence(s[1..], p);
      var i := FindString(s[1..], p).value;
      assert s[1..][i..] == s[i + 1..];
    }
  }

  // The validator reads back one signature and the body, hashes the same body bytes,
  // and verifies the same header bytes exactly when the signer was fresh and no
  // earlier tag value contains "b=".
  lemma RelaxedAgreement(cfg: Config, prior: string, crypto: Crypto, mime: string)
    requires RelaxesHeaders(cfg.pair) && Signable(mime) && (prior == "" || Token(prior))
    requires Sign(cfg, prior, crypto, mime).Done?
    requires SolidFields(Sign(cfg, prior, crypto, mime).value.fields)
    ensures var sg := Sign(cfg, prior, crypto, mime).value;
            var f, r := sg.fields, Receive(sg.message);
            && r.Done? && Signatures(r.value.headers) == [ValueText(f)]
            && BodyBytes(f.pair, r.value.body) == Done(sg.bodyBytes)
            && VerifiedBytes(f, r.value.headers, ValueText(f)).Done?
            && VerifiedBytes(f, r.value.headers, ValueText(f)).value.Some?
            && (VerifiedBytes(f, r.value.headers, ValueText(f)) == Done(Some(sg.headerBytes))
                <==> prior == "" && !Misleading(f))
  {
    hide Sign, SignedText, HeadOf, BodyOf, JoinHeaders, BodyBytes, HeaderBytes, PreText, ValueText, SolidFields,
      Misleading, Token, Ordinary, Lines, Unlines, Collect, Settled, FindString, Receive, NormalizeAll;
    var sg := Sign(cfg, prior, crypto, mime).value;
    var f := sg.fields;
    SignSteps(cfg, prior, crypto, mime);
    SectionedIsLettered(mime);
    HeadersAreOrdinary(mime);
    var headers := JoinHeaders(HeadOf(mime));
    SignedTextReads(HeadOf(mime), f, BodyOf(mime));
    PresignSettled(f, prior);
    var s := PreText(f) + prior;
    var cut := CutIsPresign(f, prior);
    PresignLines(headers, s);
    NormalizedNoNewlines(headers);
    CutLines(NormalizeAll(headers), cut);
    CollectNormalized(headers, f.headers + [DKIM_KEY]);
    assert "DKIM-Signature: " + s == "DKIM-Signature: " + PreText(f) + prior;
    RelaxedBytes(f.pair, Unlines(headers) + ("DKIM-Signature: " + s),
                 Unlines(NormalizeAll(headers)) + ("DKIM-Signature: " + cut + "\r\n"),
                 headers, NormalizeAll(headers), f.headers, s, cut);
  }

  lemma HeadersAreOrdinary(mime: string)
    requires Signable(mime)
    ensures forall i :: 0 <= i < |JoinHeaders(HeadOf(mime))| ==> Ordinary(JoinHeaders(HeadOf(mime))[i])
  {
  }

  // The public key that belongs to the signer accepts what was signed ...
  ghost predicate Accepts(crypto: Crypto, key: string)
  {
    forall bytes: string, a: Algorithm :: crypto.verify(crypto.sign(bytes, a), bytes, key, a) == Done(true)
  }

  // ... and nothing else.
  ghost predicate Rejects(crypto: Crypto, key: string)
  {
    forall bytes: string, other: string, a: Algorithm ::
      other != bytes ==> crypto.verify(crypto.sign(bytes, a), other, key, a) == Done(false)
  }

  // A message signed by a fresh signer with relaxed header canonicalization validates.
  lemma SignedMessagePasses(cfg: Config, crypto: Crypto, dns: Records, key: string, mime: string)
    requires RelaxesHeaders(cfg.pair) && Signable(mime) && Sign(cfg, "", crypto, mime).Done?
    requires SolidFields(Sign(cfg, "", crypto, mime).value.fields)
    requires dns(cfg.selector, cfg.domain) == Some(key) && Accepts(crypto, key)
    ensures !Misleading(Sign(cfg, "", crypto, mime).value.fields) ==>
              Validate(crypto, dns, Sign(cfg, "", crypto, mime).value.message) == Done(Report([Valid], Pass))
    ensures Misleading(Sign(cfg, "", crypto, mime).value.fields) && Rejects(crypto, key) ==>
              Validate(crypto, dns, Sign(cfg, "", crypto, mime).value.message) == Done(Report([Invalid], Fail))
  {
    hide Sign, SignedText, HeadOf, BodyOf, JoinHeaders, BodyBytes, HeaderBytes, PreText, ValueText, SolidFields,
      Misleading, Token, Receive, VerifiedBytes, PlainFields, Signatures, SignedText, Lines, Unlines, Parse;
    var sg := Sign(cfg, "", crypto, mime).value;
    var f := sg.fields;
    SignSteps(cfg, "", crypto, mime);
    RelaxedAgreement(cfg, "", crypto, mime);
    SolidIsPlain(f);
    ParseOfBuild(f);
    var m := Receive(sg.message).value;
    VerifiedBytesIgnoreDates(f, m.headers, ValueText(f));
    var bytes := VerifiedBytes(f, m.headers, ValueText(f)).value.value;
    var parsed := Parse(EMPTY, ValueText(f)).value;
    assert VerifiedBytes(parsed, m.headers, ValueText(f)) == Done(Some(bytes));
    if !Misleading(f) {
      OneVerdict(crypto, dns, ValueText(f), m.headers, m.body, Valid);
    } else if Rejects(crypto, key) {
      OneVerdict(crypto, dns, ValueText(f), m.headers, m.body, Invalid);
    }
  }

  lemma OneVerdict(crypto: Crypto, dns: Records, signature: string, headers: seq<MimeHeader>, body: string, v: Verdict)
    requires ValidateSignature(crypto, dns, signature, headers, body) == Done(v)
    ensures Verdicts(crypto, dns, [signature], headers, body) == Done([v])
  {
    hide ValidateSignature;
    VerdictsNone(crypto, dns, headers, body);
    assert [signature][1..] == [] && [v] + [] == [v];
  }

  lemma VerifiedBytesIgnoreDates(f: Fields, headers: seq<MimeHeader>, signature: string)
    ensures VerifiedBytes(f.(signDate := 0, expireDate := 0), headers, signature) == VerifiedBytes(f, headers, signature)
  {
  }
}
