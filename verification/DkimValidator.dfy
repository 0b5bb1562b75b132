// Validating the signatures of a message (lib/dkim/DKIMValidator.src.cc).
module DkimValidator {
  import opened Text
  import opened Mime
  import opened DkimHeader
  import opened DkimCanonicalization
  import opened DkimSigner

  // DNS: the public key of a selector and domain, None where the lookup throws.
  type Records = (string, string) -> Option<string>

  datatype Verdict = Valid | Invalid | RecordNotFound | SystemFailure

  datatype Overall = Pass | Neutral | Fail

  // The header text in front of the signature: every header but the signatures, then
  // the signature header up to and including its first "b=".
  function PrecanonicalHeaders(headers: seq<MimeHeader>, signature: string, at: nat): string
    requires at + 2 <= |signature|
  {
    Unlines(WithoutSignatures(headers)) + ("DKIM-Signature: " + signature[..at + 2] + "\r\n")
  }

  function WithoutSignatures(headers: seq<MimeHeader>): seq<string>
  {
    if headers == [] then []
    else (if headers[0].key == DKIM_KEY then [] else [headers[0].key + ": " + headers[0].value])
         + WithoutSignatures(headers[1..])
  }

  function Signatures(headers: seq<MimeHeader>): seq<string>
  {
    if headers == [] then []
    else (if headers[0].key == DKIM_KEY then [headers[0].value] else []) + Signatures(headers[1..])
  }

  // The bytes handed to RSA verify for a signature with fields `f`.
  function VerifiedBytes(f: Fields, headers: seq<MimeHeader>, signature: string): Outcome<Option<string>>
  {
    match FindString(signature, "b=")
    case None => Done(None)
    case Some(at) =>
      var bytes :- HeaderBytes(f.pair, PrecanonicalHeaders(headers, signature, at), f.headers + [DKIM_KEY]);
      Done(Some(bytes))
  }

  function ValidateSignature(crypto: Crypto, dns: Records, signature: string, headers: seq<MimeHeader>, body: string)
    : Outcome<Verdict>
  {
    var f :- Parse(EMPTY, signature);
    var bodyBytes :- BodyBytes(f.pair, body);
    if crypto.Hash(f.algorithm, bodyBytes) != f.bodyHash then Done(Invalid)
    else
      match dns(f.selector, f.domain)
      case None => Done(RecordNotFound)
      case Some(key) =>
        var bytes :- VerifiedBytes(f, headers, signature);
        if bytes.None? then Done(Invalid)
        else
          var ok :- crypto.verify(f.signature, bytes.value, key, f.algorithm);
          Done(if ok then Valid else Invalid)
  }

  // One verdict per signature; an exception becomes a system failure.
  function Verdicts(crypto: Crypto, dns: Records, signatures: seq<string>, headers: seq<MimeHeader>, body: string)
    : Outcome<seq<Verdict>>
  {
    if signatures == [] then Done([])
    else
      var v := ValidateSignature(crypto, dns, signatures[0], headers, body);
      if v.Undefined? then Undefined
      else
        var t :- Verdicts(crypto, dns, signatures[1..], headers, body);
        Done([if v.Done? then v.value else SystemFailure] + t)
  }

  // `any_of` stops at the first element its predicate accepts, and the predicate
  // accepts what is not valid.
  function Reviewed(before: Overall, verdicts: seq<Verdict>): Overall
  {
    if verdicts != [] && verdicts[0] == Valid then Pass else before
  }

  // The overview of a validator that is used for the first time.
  function Overview(verdicts: seq<Verdict>): Overall
  {
    Reviewed(Fail, verdicts)
  }

  datatype Report = Report(verdicts: seq<Verdict>, overall: Overall)

  datatype Received = Received(headers: seq<MimeHeader>, body: string)

  function Receive(message: string): Outcome<Received>
  {
    var lines := Lines(message);
    var parts := SectionsOf(lines);
    if parts.headersEnd.None? || parts.bodyBegin.None? then Undefined
    else
      var headers :- ParseHeaders(JoinHeaders(lines[..parts.headersEnd.value]), true);
      Done(Received(headers, Unlines(lines[parts.bodyBegin.value..])))
  }

  function Validate(crypto: Crypto, dns: Records, message: string): Outcome<Report>
  {
    var m :- Receive(message);
    if Signatures(m.headers) == [] then Done(Report([], Neutral))
    else
      var verdicts :- Verdicts(crypto, dns, Signatures(m.headers), m.headers, m.body);
      Done(Report(verdicts, Overview(verdicts)))
  }

  class Validator {
    var sigResults: seq<Verdict>
    var result: Overall
    const crypto: Crypto
    const dns: Records

    constructor (crypto: Crypto, dns: Records)
      ensures this.crypto == crypto && this.dns == dns && sigResults == [] && result == Fail
    {
      this.crypto, this.dns := crypto, dns;
      sigResults, result := [], Fail;
    }

    method ValidateOne(signature: string, headers: seq<MimeHeader>, rawHeaders: string, body: string)
      returns (r: Outcome<Verdict>)
      requires rawHeaders == Unlines(WithoutSignatures(headers))
      ensures r == ValidateSignature(crypto, dns, signature, headers, body)
    {
      hide Parse, BodyBytes, HeaderBytes, FindString, Unlines, WithoutSignatures;
      var header := new SignatureHeader();
      var parsed := header.ParseValue(signature);
      if !parsed.Done? {
        return parsed.PropagateFailure();
      }
      var f := header.fields;
      var canonicalizedBody := CanonicalizeBody(f.pair, body);
      if !canonicalizedBody.Done? {
        return canonicalizedBody.PropagateFailure();
      }
      if crypto.Hash(f.algorithm, canonicalizedBody.value) != f.bodyHash {
        return Done(Invalid);
      }
      var record := dns(f.selector, f.domain);
      if record.None? {
        return Done(RecordNotFound);
      }
      var signatureIndex := FindString(signature, "b=");
      if signatureIndex.None? {
        return Done(Invalid);
      }
      var precanonicalizeHeaders := rawHeaders + ("DKIM-Signature: " + signature[..signatureIndex.value + 2] + "\r\n");
      var canonicalizedHeaders := CanonicalizeHeaders(f.pair, precanonicalizeHeaders, f.headers + [DKIM_KEY]);
      if !canonicalizedHeaders.Done? {
        return canonicalizedHeaders.PropagateFailure();
      }
      var verified := crypto.verify(f.signature, canonicalizedHeaders.value, record.value, f.algorithm);
      if !verified.Done? {
        return verified.PropagateFailure();
      }
      r := Done(if verified.value then Valid else Invalid);
    }

    // The verdicts are added to those of earlier messages, and the overview is taken over
    // all of them.
    method ValidateMessage(message: string) returns (r: Outcome<()>)
      modifies this
      ensures var v := Validate(crypto, dns, message);
              if v.Done? then
                && r == Done(())
                && sigResults == old(sigResults) + v.value.verdicts
                && result == (if v.value.overall == Neutral then Neutral else Reviewed(old(result), sigResults))
              else r == v.PropagateFailure()
    {
      hide Lines, SectionsOf, JoinHeaders, Unlines, ParseHeaders, ValidateSignature, Verdicts, Signatures,
        WithoutSignatures;
      var lines := GetMimeLines(message);
      var parts := SplitMimeBodyAndHeaders(lines);
      SectionsBounds(lines);
      if parts.headersEnd.None? || parts.bodyBegin.None? {
        return Undefined;
      }
      var joined := JoinHeaderLines(lines, 0, parts.headersEnd.value);
      assert lines[0..parts.headersEnd.value] == lines[..parts.headersEnd.value];
      var parsed := ParseJoinedHeaders(joined, true);
      if !parsed.Done? {
        return parsed.PropagateFailure();
      }
      var headers := parsed.value;
      var rawBody := GetStringFromLines(lines[parts.bodyBegin.value..]);
      var without, signatures := Separate(headers);
      var rawHeaders := GetStringFromLines(without);
      if signatures == [] {
        result := Neutral;
        return Done(());
      }
      VerdictsNone(crypto, dns, headers, rawBody);
      ghost var rest, done := signatures, [];
      PrefixedByNothing(Verdicts(crypto, dns, rest, headers, rawBody));
      for i := 0 to |signatures|
        invariant rest == signatures[i..] && result == old(result)
        invariant sigResults == old(sigResults) + done && |done| == i
        invariant Verdicts(crypto, dns, signatures, headers, rawBody) ==
                  Prefixed(done, Verdicts(crypto, dns, rest, headers, rawBody))
      {
        VerdictsStep(crypto, dns, rest, headers, rawBody, done);
        var v := ValidateOne(signatures[i], headers, rawHeaders, rawBody);
        if v.Undefined? {
          return Undefined;
        }
        Assoc(old(sigResults), done, [if v.Done? then v.value else SystemFailure]);
        sigResults := sigResults + [if v.Done? then v.value else SystemFailure];
        done := done + [if v.Done? then v.value else SystemFailure];
        rest := rest[1..];
      }
      assert rest == [] && done + [] == done;
      ghost var verdicts := sigResults;
      var i := 0;
      while i < |sigResults| && sigResults[i] == Valid
        invariant sigResults == verdicts && 0 <= i <= |sigResults|
        invariant result == if i > 0 then Pass else old(result)
        invariant i > 0 ==> sigResults[0] == Valid
      {
        result := Pass;
        i := i + 1;
      }
      r := Done(());
    }
  }

  function Prefixed(done: seq<Verdict>, rest: Outcome<seq<Verdict>>): Outcome<seq<Verdict>>
  {
    if rest.Done? then Done(done + rest.value) else rest
  }

  lemma PrefixedByNothing(rest: Outcome<seq<Verdict>>)
    ensures Prefixed([], rest) == rest
  {
    assert rest.Done? ==> [] + rest.value == rest.value;
  }

  lemma VerdictsNone(crypto: Crypto, dns: Records, headers: seq<MimeHeader>, body: string)
    ensures Verdicts(crypto, dns, [], headers, body) == Done([])
  {
  }

  lemma VerdictsStep(crypto: Crypto, dns: Records, signatures: seq<string>, headers: seq<MimeHeader>, body: string,
                     done: seq<Verdict>)
    requires signatures != []
    ensures var v := ValidateSignature(crypto, dns, signatures[0], headers, body);
            var all := Prefixed(done, Verdicts(crypto, dns, signatures, headers, body));
            if v.Undefined? then all == Undefined
            else all == Prefixed(done + [if v.Done? then v.value else SystemFailure],
                                 Verdicts(crypto, dns, signatures[1..], headers, body))
  {
    hide ValidateSignature;
    var v := ValidateSignature(crypto, dns, signatures[0], headers, body);
    var t := Verdicts(crypto, dns, signatures[1..], headers, body);
    if !v.Undefined? && t.Done? {
      Assoc(done, [if v.Done? then v.value else SystemFailure], t.value);
    }
  }

  method Separate(headers: seq<MimeHeader>) returns (without: seq<string>, signatures: seq<string>)
    ensures without == WithoutSignatures(headers) && signatures == Signatures(headers)
  {
    without, signatures := [], [];
    assert headers[0..] == headers;
    for i := 0 to |headers|
      invariant without + WithoutSignatures(headers[i..]) == WithoutSignatures(headers)
      invariant signatures + Signatures(headers[i..]) == Signatures(headers)
    {
      var h := headers[i];
      assert headers[i..][0] == h && headers[i..][1..] == headers[i + 1..];
      if h.key == DKIM_KEY {
        Assoc(signatures, [h.value], Signatures(headers[i + 1..]));
        signatures := signatures + [h.value];
        assert [] + WithoutSignatures(headers[i + 1..]) == WithoutSignatures(headers[i + 1..]);
      } else {
        Assoc(without, [h.key + ": " + h.value], WithoutSignatures(headers[i + 1..]));
        without := without + [h.key + ": " + h.value];
        assert [] + Signatures(headers[i + 1..]) == Signatures(headers[i + 1..]);
      }
    }
    assert headers[|headers|..] == [] && without + [] == without && signatures + [] == signatures;
  }
}
