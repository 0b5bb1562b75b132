// A message that carries signatures already is signed once more: what the validator reports.
module DkimResigning {
  import opened Text
  import opened Mime
  import opened Builders
  import opened Unfolding
  import opened DkimHeader
  import opened DkimCanonicalization
  import opened DkimSigner
  import opened DkimValidator
  import opened DkimAgreement
  import opened DkimLimits
  import opened DkimSigning

  // A message whose headers are ordinary ones and at least one signature.
  predicate SignedBefore(mime: string)
  {
    Sectioned(mime) && Mixed(JoinHeaders(HeadOf(mime))) && Olds(JoinHeaders(HeadOf(mime))) != []
  }

  // The new header as the validator cuts it.
  function Cut(f: Fields): string
  {
    match FindString(ValueText(f), "b=")
    case Some(at) => ValueText(f)[..at + 2]
    case None => ValueText(f)
  }

  lemma CutEndsInB(f: Fields)
    requires SolidFields(f)
    ensures FindString(ValueText(f), "b=").Some?
    ensures Presigned(Cut(f)) && |Cut(f)| >= 2 && Cut(f)[|Cut(f)| - 2..] == "b="
  {
    hide FindString, ValueText, SolidFields, Settled, Misleading;
    var text := ValueText(f);
    var cut := CutIsPresign(f, "");
    FoundIsOccurrence(text, "b=");
    var at := FindString(text, "b=").value;
    assert text[at..][..2] == "b=" && cut[at..] == text[at..at + 2];
    assert cut == Cut(f);
  }

  // The validator reads the old signatures in front of the new one, and verifies the new one
  // against the other headers and its own cut.
  lemma ResignedReads(mime: string, f: Fields)
    requires SignedBefore(mime) && SolidFields(f)
    ensures ParseHeaders(JoinHeaders(HeadOf(mime)), true).Done?
    ensures var headers := JoinHeaders(HeadOf(mime));
            var r := Receive(SignedText(HeadOf(mime), f, BodyOf(mime)));
            && r.Done? && r.value.body == Unlines(BodyOf(mime))
            && Signatures(r.value.headers) == Olds(headers) + [ValueText(f)]
            && VerifiedBytes(f, r.value.headers, ValueText(f)) ==
               var seen := SeenBytes(f.pair, headers, f.headers, Cut(f));
               if seen.Done? then Done(Some(seen.value)) else seen.PropagateFailure()
  {
    hide Lines, Unlines, JoinHeaders, SectionsOf, SolidFields, ParseHeaders, Receive, SignedText, HeadOf, BodyOf, Mixed,
      Olds, ValueText, FindString, HeaderBytes, WithoutSignatures, Signatures, Presigned;
    var headers := JoinHeaders(HeadOf(mime));
    SectionedIsLettered(mime);
    MixedParsed(headers);
    SignedTextParses(HeadOf(mime), f, BodyOf(mime));
    SeparateAppend(ParseHeaders(headers, true).value, ValueText(f));
    CutEndsInB(f);
  }

  // The bytes for the new signature agree in one case only: with relaxed headers, when the
  // first old header is the new one as it is cut.
  predicate Repeats(f: Fields, mime: string)
    requires SignedBefore(mime)
  {
    RelaxesHeaders(f.pair) && Cut(f) == Olds(JoinHeaders(HeadOf(mime)))[0]
  }

  lemma ResignedBytes(cfg: Config, prior: string, crypto: Crypto, mime: string)
    requires SignedBefore(mime) && (prior == "" || Token(prior)) && DKIM_KEY !in cfg.headerFilter
    requires Sign(cfg, prior, crypto, mime).Done?
    requires SolidFields(Sign(cfg, prior, crypto, mime).value.fields)
    ensures ParseHeaders(JoinHeaders(HeadOf(mime)), true).Done?
    ensures var sg := Sign(cfg, prior, crypto, mime).value;
            var seen := SeenBytes(sg.fields.pair, JoinHeaders(HeadOf(mime)), sg.fields.headers, Cut(sg.fields));
            seen.Done? && (seen.value == sg.headerBytes <==> Repeats(sg.fields, mime))
  {
    hide Sign, SignedText, JoinHeaders, HeadOf, BodyOf, BodyBytes, HeaderBytes, PreText, ValueText, SolidFields, Token,
      Unlines, Mixed, Olds, SeenBytes, Cut, ParseHeaders, Settled;
    var sg := Sign(cfg, prior, crypto, mime).value;
    var f, headers := sg.fields, JoinHeaders(HeadOf(mime));
    SignSteps(cfg, prior, crypto, mime);
    SectionedIsLettered(mime);
    PresignSettled(f, prior);
    CutEndsInB(f);
    var s := PreText(f) + prior;
    assert "DKIM-Signature: " + s == "DKIM-Signature: " + PreText(f) + prior;
    assert SignedBytes(f.pair, headers, f.headers, s) == Done(sg.headerBytes);
    if RelaxesHeaders(f.pair) {
      OldSignatureIsSigned(f.pair, headers, f.headers, s, Cut(f));
    } else {
      OldSignatureSpoilsSimple(f.pair, headers, f.headers, s, Cut(f));
    }
  }

  // The verdict on the new signature.
  lemma NewVerdict(cfg: Config, crypto: Crypto, dns: Records, key: string, mime: string)
    requires SignedBefore(mime) && DKIM_KEY !in cfg.headerFilter
    requires Sign(cfg, "", crypto, mime).Done? && SolidFields(Sign(cfg, "", crypto, mime).value.fields)
    requires dns(cfg.selector, cfg.domain) == Some(key) && Accepts(crypto, key) && Rejects(crypto, key)
    ensures var sg := Sign(cfg, "", crypto, mime).value;
            var r := Receive(sg.message);
            && r.Done? && Signatures(r.value.headers) == Olds(JoinHeaders(HeadOf(mime))) + [ValueText(sg.fields)]
            && ValidateSignature(crypto, dns, ValueText(sg.fields), r.value.headers, r.value.body) ==
               Done(if Repeats(sg.fields, mime) then Valid else Invalid)
  {
    hide Sign, SignedText, JoinHeaders, HeadOf, BodyOf, BodyBytes, HeaderBytes, PreText, ValueText, SolidFields, Token,
      Receive, VerifiedBytes, PlainFields, Signatures, Lines, Unlines, DkimHeader.Parse, Olds, SeenBytes, Repeats,
      SignedBefore, ParseHeaders;
    var sg := Sign(cfg, "", crypto, mime).value;
    var f := sg.fields;
    Before(mime);
    SignSteps(cfg, "", crypto, mime);
    ResignedReads(mime, f);
    ResignedBytes(cfg, "", crypto, mime);
    SolidIsPlain(f);
    ParseOfBuild(f);
    var m := Receive(sg.message).value;
    VerifiedBytesIgnoreDates(f, m.headers, ValueText(f));
    var bytes := VerifiedBytes(f, m.headers, ValueText(f)).value.value;
    var parsed := DkimHeader.Parse(EMPTY, ValueText(f)).value;
    assert VerifiedBytes(parsed, m.headers, ValueText(f)) == Done(Some(bytes));
  }

  lemma Before(mime: string)
    requires SignedBefore(mime)
    ensures Sectioned(mime)
  {
  }

  lemma {:induction false} VerdictsSnoc(crypto: Crypto, dns: Records, olds: seq<string>, last: string, headers: seq<MimeHeader>,
                                        body: string, v: Verdict)
    requires ValidateSignature(crypto, dns, last, headers, body) == Done(v)
    ensures var before := Verdicts(crypto, dns, olds, headers, body);
            Verdicts(crypto, dns, olds + [last], headers, body) ==
            if before.Done? then Done(before.value + [v]) else before
    decreases |olds|
  {
    hide ValidateSignature;
    if olds == [] {
      assert [] + [last] == [last] && [] + [v] == [v];
      OneVerdict(crypto, dns, last, headers, body, v);
    } else {
      assert (olds + [last])[1..] == olds[1..] + [last];
      VerdictsSnoc(crypto, dns, olds[1..], last, headers, body, v);
      var first := ValidateSignature(crypto, dns, olds[0], headers, body);
      var rest := Verdicts(crypto, dns, olds[1..], headers, body);
      if !first.Undefined? && rest.Done? {
        Assoc([if first.Done? then first.value else SystemFailure], rest.value, [v]);
      }
    }
  }

  lemma VerdictsLength(crypto: Crypto, dns: Records, signatures: seq<string>, headers: seq<MimeHeader>, body: string)
    requires signatures != [] && Verdicts(crypto, dns, signatures, headers, body).Done?
    ensures Verdicts(crypto, dns, signatures, headers, body).value != []
  {
    hide ValidateSignature;
  }

  // What is reported on a message that was signed before and is signed once more: the
  // verdicts on the old signatures, then Invalid on the new one, unless it repeats the old
  // header. The overview is that of the first old signature; the new one has no part in it.
  lemma ResignedIsReported(cfg: Config, crypto: Crypto, dns: Records, key: string, mime: string)
    requires SignedBefore(mime) && SolidConfig(cfg) && PrintsTokens(crypto) && DKIM_KEY !in cfg.headerFilter
    requires RelaxesHeaders(cfg.pair) ==> FilterPresent(JoinHeaders(HeadOf(mime)), cfg.headerFilter)
    requires dns(cfg.selector, cfg.domain) == Some(key) && Accepts(crypto, key) && Rejects(crypto, key)
    ensures Sign(cfg, "", crypto, mime).Done? && Receive(Sign(cfg, "", crypto, mime).value.message).Done?
    ensures var sg := Sign(cfg, "", crypto, mime).value;
            var r := Receive(sg.message).value;
            var olds := Verdicts(crypto, dns, Olds(JoinHeaders(HeadOf(mime))), r.headers, r.body);
            var verdict := if Repeats(sg.fields, mime) then Valid else Invalid;
            && Validate(crypto, dns, sg.message) ==
               (if olds.Done? then Done(Report(olds.value + [verdict], Overview(olds.value))) else olds.PropagateFailure())
            && (olds.Done? ==> olds.value != [])
  {
    hide Sign, Receive, JoinHeaders, HeadOf, BodyOf, SolidFields, FilterPresent, SolidConfig, Accepts, Rejects, PrintsTokens,
      ValidateSignature, Verdicts, Signatures, ValueText, Repeats, Olds, Mixed;
    SigningSucceeds(cfg, "", crypto, mime);
    NewVerdict(cfg, crypto, dns, key, mime);
    var sg := Sign(cfg, "", crypto, mime).value;
    var r := Receive(sg.message).value;
    var olds := Olds(JoinHeaders(HeadOf(mime)));
    VerdictsSnoc(crypto, dns, olds, ValueText(sg.fields), r.headers, r.body,
                 if Repeats(sg.fields, mime) then Valid else Invalid);
    if Verdicts(crypto, dns, olds, r.headers, r.body).Done? {
      VerdictsLength(crypto, dns, olds, r.headers, r.body);
    }
  }

  // An old header with a value behind its last "b=" is not repeated.
  lemma SignedIsNotRepeated(f: Fields, mime: string)
    requires SignedBefore(mime) && SolidFields(f)
    requires var first := Olds(JoinHeaders(HeadOf(mime)))[0]; |first| < 2 || first[|first| - 2..] != "b="
    ensures !Repeats(f, mime)
  {
    hide SolidFields, JoinHeaders, HeadOf, Olds, Cut, Mixed;
    CutEndsInB(f);
  }
}
