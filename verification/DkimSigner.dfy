// Signing a message (lib/dkim/DKIMSigner.src.cc). Hashing, RSA and base64 are
// parameters.
module DkimSigner {
  import opened Text
  import opened Mime
  import opened Builders
  import opened DkimHeader
  import opened DkimCanonicalization

  datatype Crypto = Crypto(
    sha256: string -> string, sha1: string -> string,
    sign: (string, Algorithm) -> string,
    verify: (string, string, string, Algorithm) -> Outcome<bool>)
  {
    function Hash(a: Algorithm, text: string): string {
      match a
      case RsaSha256 => sha256(text)
      case RsaSha1 => sha1(text)
    }
  }

  datatype Config = Config(
    domain: string, selector: string, signTime: int, expireTime: int,
    pair: CanonPair, algorithm: Algorithm, headerFilter: seq<string>)

  const DKIM_KEY := "dkim-signature"

  function BodyBytes(pair: CanonPair, body: string): Outcome<string>
  {
    match pair
    case RelaxedRelaxed => RelaxedBody(body)
    case SimpleRelaxed => RelaxedBody(body)
    case RelaxedSimple => SimpleBody(body)
    case SimpleSimple => SimpleBody(body)
  }

  predicate RelaxesHeaders(pair: CanonPair)
  {
    pair.RelaxedRelaxed? || pair.RelaxedSimple?
  }

  // The canonicalized headers without their final CRLF; with nothing selected the
  // original erases in front of the string.
  function HeaderBytes(pair: CanonPair, raw: string, filter: seq<string>): Outcome<string>
  {
    var text :- if RelaxesHeaders(pair) then RelaxedHeaders(raw, filter) else SimpleHeaders(raw, filter);
    if |text| < 2 then Undefined else Done(text[..|text| - 2])
  }

  // `prior` is the signature left in the signer by an earlier use, "" in a fresh one.
  function Presign(cfg: Config, prior: string, bodyHash: string): Fields
  {
    Fields(cfg.selector, cfg.domain, cfg.headerFilter, cfg.pair, cfg.algorithm,
           cfg.signTime, cfg.expireTime, bodyHash, prior)
  }

  datatype Signed = Signed(message: string, bodyBytes: string, headerBytes: string, fields: Fields)

  function Sign(cfg: Config, prior: string, crypto: Crypto, mime: string): Outcome<Signed>
  {
    var lines := Lines(mime);
    var parts := SectionsOf(lines);
    if parts.headersEnd.None? || parts.bodyBegin.None? then Undefined
    else
      var head, rest := lines[..parts.headersEnd.value], lines[parts.bodyBegin.value..];
      var bodyBytes :- BodyBytes(cfg.pair, Unlines(rest));
      var before := Presign(cfg, prior, crypto.Hash(cfg.algorithm, bodyBytes));
      var presign :- Build(before);
      var headerBytes :- HeaderBytes(cfg.pair, Unlines(JoinHeaders(head)) + presign, cfg.headerFilter + [DKIM_KEY]);
      var fields := before.(signature := crypto.sign(headerBytes, cfg.algorithm));
      var built :- Build(fields);
      var folded :- FoldLines(built, 128);
      Done(Signed(Unlines(head) + Crlf(folded) + "\r\n\r\n" + Unlines(rest), bodyBytes, headerBytes, fields))
  }

  method CanonicalizeBody(pair: CanonPair, body: string) returns (r: Outcome<string>)
    ensures r == BodyBytes(pair, body)
  {
    match pair
    case RelaxedRelaxed => r := CanonicalizeRelaxedBody(body);
    case SimpleRelaxed => r := CanonicalizeRelaxedBody(body);
    case RelaxedSimple => r := CanonicalizeSimpleBody(body);
    case SimpleSimple => r := CanonicalizeSimpleBody(body);
  }

  method CanonicalizeHeaders(pair: CanonPair, raw: string, filter: seq<string>) returns (r: Outcome<string>)
    ensures r == HeaderBytes(pair, raw, filter)
  {
    hide RelaxedHeaders, SimpleHeaders;
    if RelaxesHeaders(pair) {
      r := CanonicalizeRelaxedHeaders(raw, filter);
    } else {
      r := CanonicalizeSimpleHeaders(raw, filter);
    }
    if r.Done? {
      r := if |r.value| < 2 then Undefined else Done(r.value[..|r.value| - 2]);
    }
  }

  method BuildHeader(f: Fields) returns (r: Outcome<string>)
    ensures r == Build(f)
  {
    var headers := GetHeaderString(f.headers);
    if !headers.Done? {
      return Undefined;
    }
    var text := BuildHeaderFromSegments("DKIM-Signature", Tags(f));
    assert "DKIM-Signature" + ": " == "DKIM-Signature: ";
    r := Done(text);
  }

  class Signer {
    var config: Config
    var result: Fields
    var signedMessage: string
    const crypto: Crypto

    constructor (config: Config, crypto: Crypto)
      ensures this.config == config && this.crypto == crypto && result == EMPTY && signedMessage == ""
    {
      this.config, this.crypto := config, crypto;
      result, signedMessage := EMPTY, "";
    }

    // The filter is extended on every call, and the signature of this call stays in
    // `result` for the next one.
    method SignMessage(mime: string) returns (r: Outcome<()>)
      modifies this
      ensures config == old(config).(headerFilter := old(config).headerFilter + [DKIM_KEY])
      ensures var s := Sign(old(config), old(result).signature, crypto, mime);
              if s.Done? then r == Done(()) && signedMessage == s.value.message && result == s.value.fields
              else r == s.PropagateFailure() && signedMessage == old(signedMessage)
    {
      hide Lines, SectionsOf, JoinHeaders, Unlines, BodyBytes, HeaderBytes, FoldLines, Crlf, Build;
      result := Presign(config, result.signature, result.bodyHash);
      config := config.(headerFilter := config.headerFilter + [DKIM_KEY]);
      var lines := GetMimeLines(mime);
      var parts := SplitMimeBodyAndHeaders(lines);
      SectionsBounds(lines);
      if parts.headersEnd.None? || parts.bodyBegin.None? {
        return Undefined;
      }
      var headersEnd, bodyBegin := parts.headersEnd.value, parts.bodyBegin.value;
      var body := GetStringFromLines(lines[bodyBegin..]);
      var canonicalizedBody := CanonicalizeBody(config.pair, body);
      if !canonicalizedBody.Done? {
        return canonicalizedBody.PropagateFailure();
      }
      result := result.(bodyHash := crypto.Hash(config.algorithm, canonicalizedBody.value));
      var presignSignature := BuildHeader(result);
      if !presignSignature.Done? {
        return presignSignature.PropagateFailure();
      }
      var joinedHeaders := JoinHeaderLines(lines, 0, headersEnd);
      assert lines[0..headersEnd] == lines[..headersEnd];
      var headers := GetStringFromLines(joinedHeaders);
      headers := headers + presignSignature.value;
      var canonicalizedHeaders := CanonicalizeHeaders(config.pair, headers, config.headerFilter);
      if !canonicalizedHeaders.Done? {
        return canonicalizedHeaders.PropagateFailure();
      }
      result := result.(signature := crypto.sign(canonicalizedHeaders.value, config.algorithm));
      var message := GetStringFromLines(lines[..headersEnd]);
      var built := BuildHeader(result);
      if !built.Done? {
        return built.PropagateFailure();
      }
      var folded := FoldHeader(built.value, 128);
      FoldLinesOutcome(built.value, 128);
      if !folded.Done? {
        return Throws;
      }
      signedMessage := message + folded.value + "\r\n\r\n" + body;
      r := Done(());
    }
  }

  lemma SectionsBounds(lines: seq<string>)
    ensures var p := SectionsOf(lines);
            && (p.headersEnd.Some? ==> p.headersEnd.value < |lines| && lines[p.headersEnd.value] == "")
            && (p.headersEnd.Some? ==> forall k :: 0 <= k < p.headersEnd.value ==> lines[k] != "")
            && (p.bodyBegin.Some? ==> p.bodyBegin.value < |lines| && lines[p.bodyBegin.value] != "")
  {
  }

  lemma FoldLinesOutcome(raw: string, width: nat)
    requires width >= 8
    ensures !FoldLines(raw, width).Undefined?
  {
  }
}
