// What a signature vouches for: the verdict on a signed message that was changed on its way,
// and what a verdict says of any message.
module DkimVerdicts {
  import opened Text
  import opened TextWords
  import opened Mime
  import opened Decimal
  import opened Builders
  import opened Unfolding
  import opened DkimHeader
  import opened DkimCanonicalization
  import opened DkimSigner
  import opened DkimValidator
  import opened DkimAgreement
  import opened DkimLimits
  import opened DkimSigning
  import DkimResigning

  // ---------------------------------------------------------------- what is signed of the headers

  // The first header of a name.
  function FirstNamed(headers: seq<string>, name: string): Option<string>
  {
    if headers == [] then None
    else if HeaderKey(headers[0]) == name then Some(headers[0])
    else FirstNamed(headers[1..], name)
  }

  function ValueOf(header: string): string
  {
    var n := Find(header, ':');
    if n < |header| then header[n + 1..] else ""
  }

  // What is signed of a name: the words of the first header that has it.
  function SignedLine(headers: seq<string>, name: string): string
  {
    name + ":" + Join(WordsOf(ValueOf(FirstNamed(headers, name).GetOr(""))), " ")
  }

  function SignedLines(headers: seq<string>, filter: seq<string>): seq<string>
  {
    seq(|filter|, i requires 0 <= i < |filter| => SignedLine(headers, filter[i]))
  }

  predicate HaveColons(headers: seq<string>)
  {
    forall i :: 0 <= i < |headers| ==> Find(headers[i], ':') < |headers[i]|
  }

  lemma {:induction false} CollectFirst(headers: seq<string>, keys: seq<string>, name: string)
    requires HaveColons(headers) && name in keys
    ensures Collect(headers, keys).Done?
    ensures var entries, first := Collect(headers, keys).value, FirstNamed(headers, name);
            && (FirstEntry(entries, name) < |entries| <==> first.Some?)
            && (first.Some? ==> entries[FirstEntry(entries, name)].text == SignedLine(headers, name))
  {
    hide HeaderKey, Find, RelaxHeader, FirstEntry, WordsOf, Collect, FirstNamed, SignedLine, Join;
    if headers == [] {
      CollectNone(keys);
      NoEntry(name);
    } else {
      CollectFirst(headers[1..], keys, name);
      CollectStep(headers, keys);
      var rest := Collect(headers[1..], keys).value;
      SignedLineStep(headers, name);
      FirstStep(RelaxHeader(headers[0]), rest, name);
      assert [] + rest == rest;
    }
  }

  lemma SignedLineStep(headers: seq<string>, name: string)
    requires headers != [] && Find(headers[0], ':') < |headers[0]|
    ensures RelaxHeader(headers[0]).key == HeaderKey(headers[0])
    ensures if HeaderKey(headers[0]) == name
            then FirstNamed(headers, name).Some? && SignedLine(headers, name) == RelaxHeader(headers[0]).text
            else FirstNamed(headers, name) == FirstNamed(headers[1..], name)
                 && SignedLine(headers, name) == SignedLine(headers[1..], name)
  {
    hide HeaderKey, Find, RelaxHeader, WordsOf, Join;
    RelaxHeaderIsWords(headers[0]);
  }

  lemma NoEntry(name: string)
    ensures FirstEntry([], name) == 0 && FirstNamed([], name).None?
  {
  }

  lemma RelaxHeaderIsWords(header: string)
    requires Find(header, ':') < |header|
    ensures RelaxHeader(header) == Entry(HeaderKey(header), HeaderKey(header) + ":" + Join(WordsOf(ValueOf(header)), " "))
  {
    hide HeaderKey, Find, RelaxValue, WordsOf, Join;
    RelaxedIsWords(ValueOf(header));
  }

  lemma RelaxedIsWords(val: string)
    ensures RelaxValue(val) == Join(WordsOf(val), " ")
  {
    hide Collapse, StripLead, StripTrail, WordsOf, Join;
    ReducedIsWords(val);
  }

  lemma {:induction false} PickIsSignedLines(headers: seq<string>, keys: seq<string>, filter: seq<string>)
    requires HaveColons(headers) && forall name :: name in filter ==> name in keys
    ensures Collect(headers, keys).Done?
    ensures var picked := Pick(Collect(headers, keys).value, filter);
            && !picked.Undefined? && (picked.Done? <==> forall name :: name in filter ==> FirstNamed(headers, name).Some?)
            && (picked.Done? ==> picked.value == SignedLines(headers, filter))
  {
    hide FirstEntry, Collect, SignedLine, FirstNamed, HaveColons;
    CollectDone(headers, keys);
    if filter != [] {
      assert filter == [filter[0]] + filter[1..];
      CollectFirst(headers, keys, filter[0]);
      PickIsSignedLines(headers, keys, filter[1..]);
      assert SignedLines(headers, filter) == [SignedLine(headers, filter[0])] + SignedLines(headers, filter[1..]);
    }
  }

  lemma {:induction false} CollectDone(headers: seq<string>, keys: seq<string>)
    requires HaveColons(headers)
    ensures Collect(headers, keys).Done?
  {
    hide HeaderKey, RelaxHeader, Find;
    if headers != [] {
      CollectDone(headers[1..], keys);
    }
  }

  lemma {:induction false} NamedOrNot(headers: seq<string>, name: string)
    ensures Names(headers, name) <==> FirstNamed(headers, name).Some?
  {
    hide HeaderKey;
    if headers != [] {
      NamedOrNot(headers[1..], name);
      NamesStep(headers, name);
    }
  }

  predicate AllOrdinary(headers: seq<string>)
  {
    forall i :: 0 <= i < |headers| ==> Ordinary(headers[i])
  }

  // A message without signatures.
  lemma {:induction false} NoOlds(headers: seq<string>)
    requires AllOrdinary(headers)
    ensures Mixed(headers) && Olds(headers) == [] && Others(headers) == headers && HaveColons(headers)
  {
    hide Ordinary, OldSignature;
    if headers != [] {
      assert AllOrdinary(headers[1..]);
      NoOlds(headers[1..]);
      OrdinaryHasColon(headers[0]);
      if OldSignature(headers[0]) {
        OldIs(headers[0]);
      }
      assert headers == [headers[0]] + headers[1..];
    }
  }

  // The bytes that are signed with relaxed headers (sections 3.4.2 and 3.7 of RFC 6376): for
  // every name of the filter, in its order, the words of the first header so named, and the
  // signature header up to its "b=".
  lemma RelaxedBytesSpelled(headers: seq<string>, filter: seq<string>, pair: CanonPair, s: string)
    requires RelaxesHeaders(pair) && AllOrdinary(headers) && NoNewlines(headers) && DKIM_KEY !in filter && Presigned(s)
    ensures ParseHeaders(headers, true).Done?
    ensures var named := forall name :: name in filter ==> FirstNamed(headers, name).Some?;
            var bytes := Unlines(SignedLines(headers, filter)) + ("dkim-signature:" + s);
            && SignedBytes(pair, headers, filter, s) == (if named then Done(bytes) else Throws)
            && SeenBytes(pair, headers, filter, s) == (if named then Done(bytes) else Throws)
  {
    hide Collect, Pick, Unlines, Settled, Mixed, SignedBytes, SeenBytes, Olds, Others, AllOrdinary, HaveColons, FirstNamed,
      ParseHeaders, SignedLines, HeaderBytes;
    NoOlds(headers);
    SignedBytesAre(pair, headers, filter, s);
    SeenBytesAre(pair, headers, filter, s);
    PickIsSignedLines(headers, filter + [DKIM_KEY], filter);
    assert DKIM_KEY + ":" + s == "dkim-signature:" + s;
  }

  lemma {:induction false} SignedLinesNoNewlines(headers: seq<string>, filter: seq<string>)
    requires HaveColons(headers) && NoNewlines(headers) && forall name :: name in filter ==> FirstNamed(headers, name).Some?
    ensures NoNewlines(SignedLines(headers, filter))
  {
    hide Collect, Pick, FirstNamed, HaveColons, SignedLines;
    PickIsSignedLines(headers, filter, filter);
    CollectNoNewlines(headers, filter);
    PickNoNewlines(Collect(headers, filter).value, filter);
  }

  // Lines and a last piece without a line break are determined by their text.
  lemma LinesAndLast(a: seq<string>, x: string, b: seq<string>, y: string)
    requires NoNewlines(a) && NoNewlines(b) && '\n' !in x && '\n' !in y
    ensures Unlines(a) + x == Unlines(b) + y <==> a == b && x == y
  {
    hide Unlines;
    if Unlines(a) + x == Unlines(b) + y {
      LastWithoutBreak(a, x);
      LastWithoutBreak(b, y);
      UnlinesEnd(a + [x]);
      UnlinesEnd(b + [y]);
      UnlinesInjective(a + [x], b + [y]);
      assert (a + [x])[..|a|] == a && (b + [y])[..|b|] == b;
      assert (a + [x])[|a + [x]| - 1] == x && (b + [y])[|b + [y]| - 1] == y;
    }
  }

  // The headers with a name of the filter, in message order.
  function Named(headers: seq<string>, filter: seq<string>): seq<string>
  {
    if headers == [] then []
    else (if HeaderKey(headers[0]) in filter then [headers[0]] else []) + Named(headers[1..], filter)
  }

  lemma {:induction false} SelectIsNamed(headers: seq<string>, filter: seq<string>)
    requires HaveColons(headers) && forall h :: h in headers ==> h != "" && HeaderKey(h) != DKIM_KEY
    ensures SelectSimple(headers, filter + [DKIM_KEY]) == Done(Named(headers, filter))
    ensures NoNewlines(headers) ==> NoNewlines(Named(headers, filter))
  {
    hide HeaderKey, Find;
    if headers != [] {
      assert Find(headers[0], ':') < |headers[0]| && headers[0] in headers;
      assert forall h :: h in headers[1..] ==> h in headers;
      SelectIsNamed(headers[1..], filter);
    }
  }

  lemma {:induction false} NormalizedAreHeaders(headers: seq<string>)
    requires AllOrdinary(headers)
    ensures HaveColons(NormalizeAll(headers)) && forall h :: h in NormalizeAll(headers) ==> h != "" && HeaderKey(h) != DKIM_KEY
    ensures forall h :: h in headers ==> h != "" && HeaderKey(h) != DKIM_KEY
  {
    hide Ordinary, Normalize, HeaderKey, Find;
    if headers != [] {
      assert AllOrdinary(headers[1..]);
      NormalizedAreHeaders(headers[1..]);
      NormalizeRelaxes(headers[0]);
      OrdinaryIsFilled(headers[0]);
      OrdinaryHasColon(headers[0]);
      assert headers == [headers[0]] + headers[1..];
      var n := NormalizeAll(headers);
      assert n == [Normalize(headers[0])] + NormalizeAll(headers[1..]);
      forall i | 0 <= i < |n| ensures Find(n[i], ':') < |n[i]| {
        if i > 0 {
          assert n[i] == NormalizeAll(headers[1..])[i - 1];
        }
      }
    }
  }

  // The bytes with simple headers (section 3.4.1 of RFC 6376): the headers of the filter as
  // they stand; the validator sees them as it has rewritten them.
  lemma SimpleBytesSpelled(headers: seq<string>, filter: seq<string>, pair: CanonPair, s: string)
    requires !RelaxesHeaders(pair) && AllOrdinary(headers) && NoNewlines(headers) && Presigned(s)
    ensures ParseHeaders(headers, true).Done?
    ensures SignedBytes(pair, headers, filter, s) == Done(Unlines(Named(headers, filter)) + ("DKIM-Signature: " + s))
    ensures SeenBytes(pair, headers, filter, s) ==
            Done(Unlines(Named(NormalizeAll(headers), filter)) + ("DKIM-Signature: " + s))
    ensures NoNewlines(Named(headers, filter)) && NoNewlines(Named(NormalizeAll(headers), filter))
  {
    hide SelectSimple, Lines, Unlines, Settled, NormalizeAll, Ordinary, HeaderBytes, WithoutSignatures, ParseHeaders,
      Named, HaveColons, HeaderKey, Find;
    var keys, normal := filter + [DKIM_KEY], NormalizeAll(headers);
    NoOlds(headers);
    OrdinaryHeaders(headers);
    NormalizedNoNewlines(headers);
    NormalizedAreHeaders(headers);
    PresignLines(headers, s);
    CutLines(normal, s);
    SelectIsNamed(headers, filter);
    SelectIsNamed(normal, filter);
    SelectSignature(headers, s, keys);
    SelectSignature(normal, s, keys);
    var last := "DKIM-Signature: " + s;
    SimpleBytesAre(pair, Unlines(headers) + last, keys, Named(headers, filter) + [last]);
    SimpleBytesAre(pair, Unlines(normal) + ("DKIM-Signature: " + s + "\r\n"), keys, Named(normal, filter) + [last]);
    LastWithoutBreak(Named(headers, filter), last);
    LastWithoutBreak(Named(normal, filter), last);
  }

  // ---------------------------------------------------------------- a signed message, changed on its way

  // What the two halves of the tag c= ask for.
  predicate AsksRelaxedHeaders(pair: CanonPair)
  {
    PairName(pair) == "relaxed/relaxed" || PairName(pair) == "relaxed/simple"
  }

  predicate AsksRelaxedBody(pair: CanonPair)
  {
    PairName(pair) == "relaxed/relaxed" || PairName(pair) == "simple/relaxed"
  }

  // The hash of a body, as the tags a= and c= ask for it.
  function Digest(crypto: Crypto, a: Algorithm, pair: CanonPair, body: string): Outcome<string>
  {
    var bytes :- if AsksRelaxedBody(pair) then RelaxedBody(body) else SimpleBody(body);
    Done(if AlgorithmName(a) == "rsa-sha1" then crypto.sha1(bytes) else crypto.sha256(bytes))
  }

  // Does the filter find the same in both?
  predicate SameSigned(pair: CanonPair, signed: seq<string>, received: seq<string>, filter: seq<string>)
    requires AllOrdinary(received)
  {
    if AsksRelaxedHeaders(pair) then SignedLines(received, filter) == SignedLines(signed, filter)
    else Named(NormalizeAll(received), filter) == Named(signed, filter)
  }

  lemma TagsAskFor(crypto: Crypto, a: Algorithm, pair: CanonPair, body: string)
    ensures AsksRelaxedHeaders(pair) <==> RelaxesHeaders(pair)
    ensures Digest(crypto, a, pair, body) ==
            var bytes := BodyBytes(pair, body);
            if bytes.Done? then Done(crypto.Hash(a, bytes.value)) else bytes.PropagateFailure()
  {
    hide RelaxedBody, SimpleBody;
  }

  // Where the validator finds the pieces of a message with other headers and another body.
  lemma ChangedReads(head: seq<string>, f: Fields, body: seq<string>)
    requires SolidFields(f) && Lettered(head, body) && AllOrdinary(JoinHeaders(head))
    ensures ParseHeaders(JoinHeaders(head), true).Done?
    ensures var r := Receive(SignedText(head, f, body));
            && r.Done? && r.value.body == Unlines(body) && Signatures(r.value.headers) == [ValueText(f)]
            && VerifiedBytes(f, r.value.headers, ValueText(f)) ==
               var seen := SeenBytes(f.pair, JoinHeaders(head), f.headers, DkimResigning.Cut(f));
               if seen.Done? then Done(Some(seen.value)) else seen.PropagateFailure()
  {
    hide Unlines, JoinHeaders, SolidFields, ParseHeaders, Receive, SignedText, Ordinary, ValueText, FindString,
      HeaderBytes, WithoutSignatures, Signatures, NormalizeAll;
    OrdinaryHeaders(JoinHeaders(head));
    SignedTextReads(head, f, body);
    DkimResigning.CutEndsInB(f);
  }

  // The bytes of the received headers against those that were signed.
  lemma BytesAgree(pair: CanonPair, signed: seq<string>, received: seq<string>, filter: seq<string>, s: string, cut: string)
    requires AllOrdinary(signed) && NoNewlines(signed) && AllOrdinary(received) && NoNewlines(received)
    requires DKIM_KEY !in filter && Presigned(s) && Presigned(cut) && (RelaxesHeaders(pair) ==> FilterPresent(signed, filter))
    ensures ParseHeaders(received, true).Done? && SignedBytes(pair, signed, filter, s).Done?
    ensures var seen := SeenBytes(pair, received, filter, cut);
            if RelaxesHeaders(pair) && !FilterPresent(received, filter) then seen == Throws
            else seen.Done? && (seen == SignedBytes(pair, signed, filter, s) <==>
                                s == cut && SameSigned(pair, signed, received, filter))
  {
    hide Unlines, Settled, SignedBytes, SeenBytes, Ordinary, HaveColons, FirstNamed, ParseHeaders, SignedLines, Names,
      Named, NormalizeAll;
    TagsAskForHeaders(pair);
    if RelaxesHeaders(pair) {
      RelaxedBytesSpelled(signed, filter, pair, s);
      RelaxedBytesSpelled(received, filter, pair, cut);
      FilterIsNamed(signed, filter);
      FilterIsNamed(received, filter);
      NoOlds(signed);
      NoOlds(received);
      SignedLinesNoNewlines(signed, filter);
      if FilterPresent(received, filter) {
        SignedLinesNoNewlines(received, filter);
        LinesAndLast(SignedLines(signed, filter), "dkim-signature:" + s, SignedLines(received, filter), "dkim-signature:" + cut);
        assert ("dkim-signature:" + s)[15..] == s && ("dkim-signature:" + cut)[15..] == cut;
      }
    } else {
      SimpleBytesSpelled(signed, filter, pair, s);
      SimpleBytesSpelled(received, filter, pair, cut);
      LinesAndLast(Named(signed, filter), "DKIM-Signature: " + s, Named(NormalizeAll(received), filter), "DKIM-Signature: " + cut);
      assert ("DKIM-Signature: " + s)[16..] == s && ("DKIM-Signature: " + cut)[16..] == cut;
    }
  }

  lemma TagsAskForHeaders(pair: CanonPair)
    ensures AsksRelaxedHeaders(pair) <==> RelaxesHeaders(pair)
  {
  }

  lemma FilterIsNamed(headers: seq<string>, filter: seq<string>)
    requires DKIM_KEY !in filter
    ensures FilterPresent(headers, filter) <==> forall name :: name in filter ==> FirstNamed(headers, name).Some?
  {
    hide Names, FirstNamed;
    forall name ensures Names(headers, name) <==> FirstNamed(headers, name).Some? {
      NamedOrNot(headers, name);
    }
  }

  // The key of the record, if there is one, fits the signer's.
  ghost predicate Fits(crypto: Crypto, record: Option<string>)
  {
    record.Some? ==> Accepts(crypto, record.value) && Rejects(crypto, record.value)
  }

  // What the validator says of the received message: first the body, then the record, then
  // the headers.
  function VerdictOn(cfg: Config, crypto: Crypto, record: Option<string>, f: Fields, signed: seq<string>,
                     signedBody: string, received: seq<string>, body: string): Verdict
    requires AllOrdinary(received)
  {
    if Digest(crypto, cfg.algorithm, cfg.pair, body) != Digest(crypto, cfg.algorithm, cfg.pair, signedBody) then Invalid
    else if record.None? then RecordNotFound
    else if AsksRelaxedHeaders(cfg.pair) && !FilterPresent(received, cfg.headerFilter) then SystemFailure
    else if !Misleading(f) && SameSigned(cfg.pair, signed, received, cfg.headerFilter) then Valid
    else Invalid
  }

  predicate SameDigests(crypto: Crypto, cfg: Config, body: seq<string>, was: seq<string>)
  {
    Digest(crypto, cfg.algorithm, cfg.pair, Unlines(body)) == Digest(crypto, cfg.algorithm, cfg.pair, Unlines(was))
  }

  // One signature, given its fields and what the bytes come to.
  lemma SignatureVerdict(crypto: Crypto, dns: Records, f: Fields, headers: seq<MimeHeader>, body: string,
                         signed: string, seen: Outcome<string>)
    requires PlainFields(f) && BodyBytes(f.pair, body).Done? && f.signature == crypto.sign(signed, f.algorithm)
    requires crypto.Hash(f.algorithm, BodyBytes(f.pair, body).value) == f.bodyHash ==> Fits(crypto, dns(f.selector, f.domain))
    requires !seen.Undefined?
    requires VerifiedBytes(f, headers, ValueText(f)) == if seen.Done? then Done(Some(seen.value)) else seen.PropagateFailure()
    ensures ValidateSignature(crypto, dns, ValueText(f), headers, body) ==
            if crypto.Hash(f.algorithm, BodyBytes(f.pair, body).value) != f.bodyHash then Done(Invalid)
            else if dns(f.selector, f.domain).None? then Done(RecordNotFound)
            else if !seen.Done? then Throws
            else Done(if seen.value == signed then Valid else Invalid)
  {
    hide BodyBytes, ValueText, VerifiedBytes, PlainFields, DkimHeader.Parse;
    ParseOfBuild(f);
    VerifiedBytesIgnoreDates(f, headers, ValueText(f));
    var parsed := DkimHeader.Parse(EMPTY, ValueText(f)).value;
    assert VerifiedBytes(parsed, headers, ValueText(f)) == VerifiedBytes(f, headers, ValueText(f));
  }

  lemma OnlyVerdict(crypto: Crypto, dns: Records, message: string, signature: string, v: Verdict)
    requires Receive(message).Done? && Signatures(Receive(message).value.headers) == [signature]
    requires var m := Receive(message).value;
             var checked := ValidateSignature(crypto, dns, signature, m.headers, m.body);
             checked == Done(v) || (checked == Throws && v == SystemFailure)
    ensures Validate(crypto, dns, message) == Done(Report([v], if v == Valid then Pass else Fail))
  {
    hide Receive, ValidateSignature, Signatures;
    var m := Receive(message).value;
    VerdictsNone(crypto, dns, m.headers, m.body);
    assert [signature][1..] == [] && [v] + [] == [v];
  }

  // A signed message that arrives with any headers and any body: from message, configuration
  // and what arrives alone. It passes exactly if the digest of the body is the same, there is
  // a record, and the filter finds the same (under a tag value that misleads: never).
  lemma ChangedIsReported(cfg: Config, crypto: Crypto, dns: Records, mime: string, head: seq<string>, body: seq<string>)
    requires Signable(mime) && SolidConfig(cfg) && PrintsTokens(crypto) && DKIM_KEY !in cfg.headerFilter
    requires AsksRelaxedHeaders(cfg.pair) ==> FilterPresent(JoinHeaders(HeadOf(mime)), cfg.headerFilter)
    requires Lettered(head, body) && AllOrdinary(JoinHeaders(head))
    requires SameDigests(crypto, cfg, body, BodyOf(mime)) ==> Fits(crypto, dns(cfg.selector, cfg.domain))
    ensures Sign(cfg, "", crypto, mime).Done? && SolidFields(Sign(cfg, "", crypto, mime).value.fields)
    ensures var sg := Sign(cfg, "", crypto, mime).value;
            var v := VerdictOn(cfg, crypto, dns(cfg.selector, cfg.domain), sg.fields, JoinHeaders(HeadOf(mime)),
                               Unlines(BodyOf(mime)), JoinHeaders(head), Unlines(body));
            && sg.message == SignedText(HeadOf(mime), sg.fields, BodyOf(mime))
            && Validate(crypto, dns, SignedText(head, sg.fields, body)) == Done(Report([v], if v == Valid then Pass else Fail))
  {
    hide Sign, SignedText, JoinHeaders, HeadOf, BodyOf, BodyBytes, PreText, ValueText, SolidFields, Token, Receive, Ordinary,
      VerifiedBytes, PlainFields, Signatures, Lines, Unlines, DkimHeader.Parse, SeenBytes, SignedBytes, ParseHeaders,
      SolidConfig, PrintsTokens, FilterPresent, Settled, Misleading, DkimResigning.Cut, ValidateSignature, Validate,
      SameSigned, Digest, AsksRelaxedHeaders, Accepts, Rejects;
    TagsAskForHeaders(cfg.pair);
    OrdinaryIsMixed(mime);
    SigningSucceeds(cfg, "", crypto, mime);
    var sg := Sign(cfg, "", crypto, mime).value;
    var f, signed, received := sg.fields, JoinHeaders(HeadOf(mime)), JoinHeaders(head);
    SignSteps(cfg, "", crypto, mime);
    SectionedIsLettered(mime);
    JoinHeadersNoNewline(head);
    PresignSettled(f, "");
    CutIsTheText(f);
    ChangedReads(head, f, body);
    var s := PreText(f);
    assert PreText(f) + "" == s && "DKIM-Signature: " + s == "DKIM-Signature: " + PreText(f) + "";
    assert SignedBytes(f.pair, signed, f.headers, s) == Done(sg.headerBytes) by {
      SignedBytesAgain(f.pair, signed, f.headers, s);
    }
    BytesAgree(f.pair, signed, received, f.headers, s, DkimResigning.Cut(f));
    BodySucceeds(cfg.pair, body);
    SolidIsPlain(f);
    TagsAskFor(crypto, cfg.algorithm, cfg.pair, Unlines(body));
    TagsAskFor(crypto, cfg.algorithm, cfg.pair, Unlines(BodyOf(mime)));
    var message := SignedText(head, f, body);
    var seen := SeenBytes(f.pair, received, f.headers, DkimResigning.Cut(f));
    var m := Receive(message).value;
    SignatureVerdict(crypto, dns, f, m.headers, m.body, sg.headerBytes, seen);
    var v := VerdictOn(cfg, crypto, dns(cfg.selector, cfg.domain), f, signed, Unlines(BodyOf(mime)), received, Unlines(body));
    OnlyVerdict(crypto, dns, message, ValueText(f), v);
  }

  lemma SignedBytesAgain(pair: CanonPair, headers: seq<string>, filter: seq<string>, s: string)
    ensures SignedBytes(pair, headers, filter, s) ==
            HeaderBytes(pair, Unlines(headers) + ("DKIM-Signature: " + s), filter + [DKIM_KEY])
  {
  }

  lemma CutIsTheText(f: Fields)
    requires SolidFields(f)
    ensures Presigned(DkimResigning.Cut(f))
    ensures PreText(f) == DkimResigning.Cut(f) <==> !Misleading(f)
  {
    hide FindString, ValueText, SolidFields, Settled, Misleading, PreText;
    var cut := CutIsPresign(f, "");
    DkimResigning.CutEndsInB(f);
    assert PreText(f) + "" == PreText(f);
  }

  lemma BodyDecides(crypto: Crypto, dns: Records, f: Fields, headers: seq<MimeHeader>, body: string)
    requires PlainFields(f) && BodyBytes(f.pair, body).Done?
    requires crypto.Hash(f.algorithm, BodyBytes(f.pair, body).value) != f.bodyHash
    ensures ValidateSignature(crypto, dns, ValueText(f), headers, body) == Done(Invalid)
  {
    hide BodyBytes, ValueText, VerifiedBytes, PlainFields, DkimHeader.Parse;
    ParseOfBuild(f);
  }

  lemma SameDigest(crypto: Crypto, dns: Records, f: Fields, headers: seq<MimeHeader>, body: string,
                   others: seq<MimeHeader>, other: string)
    requires PlainFields(f) && BodyBytes(f.pair, body).Done? && BodyBytes(f.pair, other).Done?
    requires crypto.Hash(f.algorithm, BodyBytes(f.pair, body).value) == crypto.Hash(f.algorithm, BodyBytes(f.pair, other).value)
    requires VerifiedBytes(f, headers, ValueText(f)) == VerifiedBytes(f, others, ValueText(f))
    ensures ValidateSignature(crypto, dns, ValueText(f), headers, body) ==
            ValidateSignature(crypto, dns, ValueText(f), others, other)
  {
    hide BodyBytes, ValueText, VerifiedBytes, PlainFields, DkimHeader.Parse;
    ParseOfBuild(f);
    VerifiedBytesIgnoreDates(f, headers, ValueText(f));
    VerifiedBytesIgnoreDates(f, others, ValueText(f));
    var parsed := DkimHeader.Parse(EMPTY, ValueText(f)).value;
    assert VerifiedBytes(parsed, headers, ValueText(f)) == VerifiedBytes(parsed, others, ValueText(f));
  }

  lemma SameReport(crypto: Crypto, dns: Records, message: string, other: string, signature: string)
    requires Receive(message).Done? && Signatures(Receive(message).value.headers) == [signature]
    requires Receive(other).Done? && Signatures(Receive(other).value.headers) == [signature]
    requires var m, n := Receive(message).value, Receive(other).value;
             ValidateSignature(crypto, dns, signature, m.headers, m.body) ==
             ValidateSignature(crypto, dns, signature, n.headers, n.body)
    ensures Validate(crypto, dns, message) == Validate(crypto, dns, other)
  {
    hide Receive, ValidateSignature, Signatures;
    var m, n := Receive(message).value, Receive(other).value;
    VerdictsNone(crypto, dns, m.headers, m.body);
    VerdictsNone(crypto, dns, n.headers, n.body);
    assert [signature][1..] == [];
  }

  lemma EndsInBody(head: seq<string>, f: Fields, was: seq<string>, body: seq<string>)
    requires SolidFields(f)
    ensures var message, text := SignedText(head, f, was), Unlines(was);
            && |text| <= |message| && message[|message| - |text|..] == text
            && message[..|message| - |text|] + Unlines(body) == SignedText(head, f, body)
  {
    hide Unlines, SolidFields, FoldLines, Crlf;
    SignatureHeaderFolds(f);
    UnfoldUndoesFold(SignatureHeaderOf(f), 128);
    var front := Unlines(head) + Crlf(FoldLines(SignatureHeaderOf(f).Text(), 128).value) + "\r\n\r\n";
    assert SignedText(head, f, was) == front + Unlines(was);
    assert SignedText(head, f, body) == front + Unlines(body);
  }

  // Another body under the same headers.
  lemma OtherBody(cfg: Config, crypto: Crypto, dns: Records, head: seq<string>, f: Fields, was: seq<string>, body: seq<string>)
    requires SolidFields(f) && Lettered(head, was) && Lettered(head, body) && AllOrdinary(JoinHeaders(head))
    requires f.pair == cfg.pair && f.algorithm == cfg.algorithm && BodyBytes(cfg.pair, Unlines(was)).Done?
    requires f.bodyHash == crypto.Hash(cfg.algorithm, BodyBytes(cfg.pair, Unlines(was)).value)
    ensures Validate(crypto, dns, SignedText(head, f, body)) ==
            if SameDigests(crypto, cfg, body, was) then Validate(crypto, dns, SignedText(head, f, was))
            else Done(Report([Invalid], Fail))
  {
    hide SignedText, JoinHeaders, SolidFields, Receive, Ordinary, Unlines, ValueText, PlainFields, ValidateSignature, Validate,
      Digest, VerifiedBytes, SeenBytes, Signatures, BodyBytes;
    ChangedReads(head, f, was);
    ChangedReads(head, f, body);
    BodySucceeds(cfg.pair, body);
    SolidIsPlain(f);
    TagsAskFor(crypto, cfg.algorithm, cfg.pair, Unlines(body));
    TagsAskFor(crypto, cfg.algorithm, cfg.pair, Unlines(was));
    var message, tampered := SignedText(head, f, was), SignedText(head, f, body);
    var m, n := Receive(message).value, Receive(tampered).value;
    if SameDigests(crypto, cfg, body, was) {
      SameDigest(crypto, dns, f, m.headers, m.body, n.headers, n.body);
      SameReport(crypto, dns, message, tampered, ValueText(f));
    } else {
      BodyDecides(crypto, dns, f, n.headers, n.body);
      OnlyVerdict(crypto, dns, tampered, ValueText(f), Invalid);
    }
  }

  // The body is replaced on the way, the text in front of it is not: whatever the keys and the
  // records, a body with another digest is reported Invalid, and one with the same digest as
  // the body that was signed.
  lemma TamperedBodyFails(cfg: Config, crypto: Crypto, dns: Records, mime: string, body: seq<string>)
    requires Signable(mime) && SolidConfig(cfg) && PrintsTokens(crypto)
    requires AsksRelaxedHeaders(cfg.pair) ==> FilterPresent(JoinHeaders(HeadOf(mime)), cfg.headerFilter)
    requires NoNewlines(body) && body != [] && body[0] != ""
    ensures Sign(cfg, "", crypto, mime).Done?
    ensures var message, was := Sign(cfg, "", crypto, mime).value.message, Unlines(BodyOf(mime));
            && |was| <= |message| && message[|message| - |was|..] == was
            && Validate(crypto, dns, message[..|message| - |was|] + Unlines(body)) ==
               if Digest(crypto, cfg.algorithm, cfg.pair, Unlines(body)) == Digest(crypto, cfg.algorithm, cfg.pair, was)
               then Validate(crypto, dns, message)
               else Done(Report([Invalid], Fail))
  {
    hide Sign, SignedText, JoinHeaders, HeadOf, BodyOf, SolidFields, Ordinary, Unlines, SolidConfig, PrintsTokens,
      FilterPresent, Validate, Digest, AsksRelaxedHeaders, BodyBytes, PreText, HeaderBytes;
    TagsAskForHeaders(cfg.pair);
    OrdinaryIsMixed(mime);
    SigningSucceeds(cfg, "", crypto, mime);
    SignSteps(cfg, "", crypto, mime);
    SectionedIsLettered(mime);
    var f := Sign(cfg, "", crypto, mime).value.fields;
    EndsInBody(HeadOf(mime), f, BodyOf(mime), body);
    OtherBody(cfg, crypto, dns, HeadOf(mime), f, BodyOf(mime), body);
  }

  // ---------------------------------------------------------------- what the signer writes

  // The tags in front of the signature, in their order and as they are written.
  function Written(cfg: Config, hash: string): seq<string>
  {
    ["v=1", "s=" + cfg.selector, "h=" + Join(cfg.headerFilter, ":"), "d=" + cfg.domain,
     "c=" + PairName(cfg.pair), "a=" + AlgorithmName(cfg.algorithm)]
    + (if cfg.signTime != 0 && cfg.expireTime != 0
       then ["t=" + ToString(cfg.signTime), "x=" + ToString(cfg.expireTime)] else [])
    + ["bh=" + hash]
  }

  lemma WrittenTags(cfg: Config, hash: string, signature: string)
    ensures var f := Presign(cfg, signature, hash);
            && PreText(f) == Join(Written(cfg, hash), "; ") + "; b="
            && ValueText(f) == Join(Written(cfg, hash), "; ") + "; b=" + signature
  {
    hide Join, ToString, PairName, AlgorithmName;
    var f := Presign(cfg, signature, hash);
    assert "v" + "=" + "1" == "v=1" && "s" + "=" == "s=" && "h" + "=" == "h=" && "d" + "=" == "d=" && "c" + "=" == "c=";
    assert "a" + "=" == "a=" && "t" + "=" == "t=" && "x" + "=" == "x=" && "bh" + "=" == "bh=";
    assert TagTexts(FrontTags(f)) == Written(cfg, hash);
    ValueTextParts(f);
  }

  // What is written into the header, and what is signed: the tags, each with the value of the
  // configuration, the digest of the body and the signature; and the bytes under it are those
  // of the filtered headers and of the same tags.
  lemma SignatureIsWritten(cfg: Config, crypto: Crypto, mime: string)
    requires Signable(mime) && SolidConfig(cfg) && PrintsTokens(crypto) && DKIM_KEY !in cfg.headerFilter
    requires AsksRelaxedHeaders(cfg.pair) ==> FilterPresent(JoinHeaders(HeadOf(mime)), cfg.headerFilter)
    ensures Sign(cfg, "", crypto, mime).Done?
    ensures var sg, headers := Sign(cfg, "", crypto, mime).value, JoinHeaders(HeadOf(mime));
            var hash := Digest(crypto, cfg.algorithm, cfg.pair, Unlines(BodyOf(mime)));
            && hash.Done? && Receive(sg.message).Done?
            && var front := Join(Written(cfg, hash.value), "; ") + "; b=";
               var bytes := if AsksRelaxedHeaders(cfg.pair)
                            then Unlines(SignedLines(headers, cfg.headerFilter)) + ("dkim-signature:" + front)
                            else Unlines(Named(headers, cfg.headerFilter)) + ("DKIM-Signature: " + front);
               && Signatures(Receive(sg.message).value.headers) == [front + crypto.sign(bytes, cfg.algorithm)]
               && Receive(sg.message).value.body == Unlines(BodyOf(mime))
  {
    hide Sign, SignedText, JoinHeaders, HeadOf, BodyOf, BodyBytes, PreText, ValueText, SolidFields, Token, Receive, Ordinary,
      VerifiedBytes, Signatures, Unlines, SeenBytes, SignedBytes, ParseHeaders, SolidConfig, PrintsTokens, FilterPresent,
      Settled, Digest, AsksRelaxedHeaders, Written, SignedLines, Named, Join, NormalizeAll;
    TagsAskForHeaders(cfg.pair);
    OrdinaryIsMixed(mime);
    SigningSucceeds(cfg, "", crypto, mime);
    var sg := Sign(cfg, "", crypto, mime).value;
    var f, headers := sg.fields, JoinHeaders(HeadOf(mime));
    SignSteps(cfg, "", crypto, mime);
    SectionedIsLettered(mime);
    PresignSettled(f, "");
    ChangedReads(HeadOf(mime), f, BodyOf(mime));
    var s := PreText(f);
    assert PreText(f) + "" == s && "DKIM-Signature: " + s == "DKIM-Signature: " + PreText(f) + "";
    SignedBytesAgain(f.pair, headers, f.headers, s);
    TagsAskFor(crypto, cfg.algorithm, cfg.pair, Unlines(BodyOf(mime)));
    WrittenTags(cfg, f.bodyHash, f.signature);
    SignedFields(cfg, crypto, mime);
    FilterIsNamed(headers, cfg.headerFilter);
    if RelaxesHeaders(cfg.pair) {
      RelaxedBytesSpelled(headers, cfg.headerFilter, cfg.pair, s);
    } else {
      SimpleBytesSpelled(headers, cfg.headerFilter, cfg.pair, s);
    }
  }

  lemma SignedFields(cfg: Config, crypto: Crypto, mime: string)
    requires Sign(cfg, "", crypto, mime).Done?
    ensures var f := Sign(cfg, "", crypto, mime).value.fields;
            f == Presign(cfg, f.signature, f.bodyHash)
  {
    hide Lines, SectionsOf, Unlines, JoinHeaders, BodyBytes, HeaderBytes, FoldLines, Crlf, Build;
  }

  // ---------------------------------------------------------------- the signature of the client

  const CLIENT_FILTER := ["subject", "from", "to", "date", "mime-version", "message-id"]

  // What the mail client signs with (lib/smtp/client/SMTPClient.src.cc:97-121).
  function ClientConfig(domain: string, selector: string, now: int): Config
  {
    Config(domain, selector, now, now + 1000 * 60 * 60, RelaxedRelaxed, RsaSha256, CLIENT_FILTER)
  }

  lemma {:induction false} TokensJoin(parts: seq<string>)
    requires parts != [] && forall p :: p in parts ==> Token(p) && '=' !in p
    ensures Token(Join(parts, ":")) && '=' !in Join(parts, ":")
  {
    assert parts[0] in parts;
    if |parts| > 1 {
      assert forall p :: p in parts[1..] ==> p in parts;
      TokensJoin(parts[1..]);
    }
  }

  predicate NameLike(h: string)
  {
    h != "" && forall i :: 0 <= i < |h| ==> 'a' <= h[i] <= 'z' || h[i] == '-'
  }

  lemma NameIsPlain(h: string)
    requires NameLike(h)
    ensures Token(h) && '=' !in h && ':' !in h && ToLower(h) == h
  {
  }

  lemma NamesAreNameLike()
    ensures NameLike("subject") && NameLike("from") && NameLike("to") && NameLike("date")
    ensures NameLike("mime-version") && NameLike("message-id")
  {
  }

  lemma ClientNames()
    ensures forall h :: h in CLIENT_FILTER ==> Token(h) && '=' !in h && ':' !in h && ToLower(h) == h && h != DKIM_KEY
  {
    hide Token, ToLower, NameLike;
    NamesAreNameLike();
    forall h | h in CLIENT_FILTER
      ensures Token(h) && '=' !in h && ':' !in h && ToLower(h) == h && h != DKIM_KEY
    {
      NameIsPlain(h);
      assert |h| < |DKIM_KEY|;
    }
  }

  // Mail that has the six headers passes with the signature the client gives it, unless "b="
  // stands in the selector, in the domain or in the hash of its body.
  lemma ClientSignaturePasses(domain: string, selector: string, now: int, crypto: Crypto, dns: Records, key: string, mime: string)
    requires Signable(mime) && Token(domain) && Token(selector) && PrintsTokens(crypto)
    requires INT64_MIN <= now && now + 1000 * 60 * 60 <= INT64_MAX
    requires forall name :: name in CLIENT_FILTER ==> Names(JoinHeaders(HeadOf(mime)), name)
    requires dns(selector, domain) == Some(key) && Accepts(crypto, key) && Rejects(crypto, key)
    ensures Sign(ClientConfig(domain, selector, now), "", crypto, mime).Done?
    ensures RelaxedBody(Unlines(BodyOf(mime))).Done?
    ensures var hash := crypto.sha256(RelaxedBody(Unlines(BodyOf(mime))).value);
            Validate(crypto, dns, Sign(ClientConfig(domain, selector, now), "", crypto, mime).value.message) ==
            Done(if HasB(selector) || HasB(domain) || HasB(hash) then Report([Invalid], Fail) else Report([Valid], Pass))
  {
    hide Sign, Validate, SolidFields, JoinHeaders, HeadOf, BodyOf, Accepts, Rejects, PrintsTokens, Token, Join, ToLower,
      Names, HasB, RelaxedBody, Unlines, Ordinary, SignedText, PreText, HeaderBytes;
    var cfg := ClientConfig(domain, selector, now);
    ClientNames();
    TokensJoin(CLIENT_FILTER);
    OrdinaryIsMixed(mime);
    SigningSucceeds(cfg, "", crypto, mime);
    SignedMessageIsReported(cfg, crypto, dns, key, mime);
    SignSteps(cfg, "", crypto, mime);
    NoSignNoB(Join(CLIENT_FILTER, ":"));
  }

  lemma NoSignNoB(s: string)
    requires '=' !in s
    ensures !HasB(s)
  {
  }

  // ---------------------------------------------------------------- any message

  // What a verdict Valid says: the signature can be read, its body hash is that of the body
  // that was received, a record was found, and its key verifies the bytes of the headers that
  // were received.
  predicate Vouched(crypto: Crypto, dns: Records, signature: string, m: Received)
  {
    var f := DkimHeader.Parse(EMPTY, signature);
    && f.Done?
    && Digest(crypto, f.value.algorithm, f.value.pair, m.body) == Done(f.value.bodyHash)
    && var key, bytes := dns(f.value.selector, f.value.domain), VerifiedBytes(f.value, m.headers, signature);
       && key.Some? && bytes.Done? && bytes.value.Some?
       && crypto.verify(f.value.signature, bytes.value.value, key.value, f.value.algorithm) == Done(true)
  }

  lemma ValidIsVouched(crypto: Crypto, dns: Records, signature: string, m: Received)
    ensures ValidateSignature(crypto, dns, signature, m.headers, m.body) == Done(Valid) <==> Vouched(crypto, dns, signature, m)
  {
    hide DkimHeader.Parse, BodyBytes, VerifiedBytes, Digest;
    var f := DkimHeader.Parse(EMPTY, signature);
    if f.Done? {
      TagsAskFor(crypto, f.value.algorithm, f.value.pair, m.body);
    }
  }

  lemma {:induction false} VerdictAt(crypto: Crypto, dns: Records, signatures: seq<string>, headers: seq<MimeHeader>,
                                     body: string)
    requires Verdicts(crypto, dns, signatures, headers, body).Done?
    ensures var verdicts := Verdicts(crypto, dns, signatures, headers, body).value;
            && |verdicts| == |signatures|
            && forall k :: 0 <= k < |signatures| ==>
                 var v := ValidateSignature(crypto, dns, signatures[k], headers, body);
                 !v.Undefined? && verdicts[k] == if v.Done? then v.value else SystemFailure
  {
    hide ValidateSignature;
    if signatures != [] {
      VerdictAt(crypto, dns, signatures[1..], headers, body);
      var rest := Verdicts(crypto, dns, signatures[1..], headers, body).value;
      var verdicts := Verdicts(crypto, dns, signatures, headers, body).value;
      forall k | 0 <= k < |signatures|
        ensures var v := ValidateSignature(crypto, dns, signatures[k], headers, body);
                !v.Undefined? && verdicts[k] == if v.Done? then v.value else SystemFailure
      {
        if k > 0 {
          assert signatures[k] == signatures[1..][k - 1] && verdicts[k] == rest[k - 1];
        }
      }
    }
  }

  // Of any message the validator gets through with: one verdict for each signature, Valid
  // exactly where the signature is vouched for, and a system failure where the check threw; the
  // message passes exactly if its first signature is vouched for.
  lemma ReportVouches(crypto: Crypto, dns: Records, message: string)
    requires Validate(crypto, dns, message).Done?
    ensures Receive(message).Done?
    ensures var report, m := Validate(crypto, dns, message).value, Receive(message).value;
            var signatures := Signatures(m.headers);
            && |report.verdicts| == |signatures|
            && (forall k :: 0 <= k < |signatures| ==>
                  (report.verdicts[k] == Valid <==> Vouched(crypto, dns, signatures[k], m)))
            && (report.overall == Neutral <==> signatures == [])
            && (report.overall == Pass <==> signatures != [] && Vouched(crypto, dns, signatures[0], m))
  {
    hide Receive, ValidateSignature, Signatures, Vouched, Verdicts;
    var m := Receive(message).value;
    var signatures := Signatures(m.headers);
    if signatures != [] {
      VerdictAt(crypto, dns, signatures, m.headers, m.body);
      forall k | 0 <= k < |signatures|
        ensures Validate(crypto, dns, message).value.verdicts[k] == Valid <==> Vouched(crypto, dns, signatures[k], m)
      {
        ValidIsVouched(crypto, dns, signatures[k], m);
      }
    }
  }
}
