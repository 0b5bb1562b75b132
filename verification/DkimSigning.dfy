// When signing succeeds, and what follows for a message that is signed and validated.
module DkimSigning {
  import opened Text
  import opened Mime
  import opened Builders
  import opened Decimal
  import opened Unfolding
  import opened DkimHeader
  import opened DkimCanonicalization
  import opened DkimSigner
  import opened DkimValidator
  import opened DkimAgreement
  import opened DkimLimits

  // A configuration that can be written into a header and read back.
  predicate SolidConfig(cfg: Config)
  {
    && Token(cfg.selector) && Token(cfg.domain)
    && cfg.headerFilter != [] && Token(Join(cfg.headerFilter, ":"))
    && (forall h :: h in cfg.headerFilter ==> ':' !in h && ToLower(h) == h)
    && INT64_MIN <= cfg.signTime <= INT64_MAX && INT64_MIN <= cfg.expireTime <= INT64_MAX
  }

  // Hashes and signatures are printed without white space and semicolons, as base64 is.
  ghost predicate PrintsTokens(crypto: Crypto)
  {
    && (forall text: string :: Token(crypto.sha256(text)))
    && (forall text: string :: Token(crypto.sha1(text)))
    && (forall bytes: string, a: Algorithm :: Token(crypto.sign(bytes, a)))
  }

  predicate Names(headers: seq<string>, key: string)
  {
    exists i :: 0 <= i < |headers| && HeaderKey(headers[i]) == key
  }

  // Every name of the filter is that of a header, or of the signature itself.
  predicate FilterPresent(headers: seq<string>, filter: seq<string>)
  {
    forall key :: key in filter ==> key == DKIM_KEY || Names(headers, key)
  }

  lemma {:induction false} PickSucceeds(entries: seq<Entry>, filter: seq<string>)
    ensures Pick(entries, filter).Done? <==> forall key :: key in filter ==> FirstEntry(entries, key) < |entries|
    ensures Pick(entries, filter).Done? ==> |Pick(entries, filter).value| == |filter|
    ensures !Pick(entries, filter).Undefined?
  {
    hide FirstEntry;
    if filter != [] {
      PickSucceeds(entries, filter[1..]);
      assert forall key :: key in filter <==> key == filter[0] || key in filter[1..] by {
        assert filter == [filter[0]] + filter[1..];
      }
      if Pick(entries, filter[1..]).Done? {
        assert forall key :: key in filter[1..] ==> FirstEntry(entries, key) < |entries|;
      }
    }
  }

  lemma {:induction false} CollectHas(headers: seq<string>, filter: seq<string>, key: string)
    requires Collect(headers, filter).Done? && key in filter
    ensures FirstEntry(Collect(headers, filter).value, key) < |Collect(headers, filter).value| <==> Names(headers, key)
  {
    hide HeaderKey, Find, RelaxHeader;
    if headers != [] {
      CollectHas(headers[1..], filter, key);
      RelaxHeaderKey(headers[0]);
      NamesStep(headers, key);
      var rest := Collect(headers[1..], filter).value;
      if HeaderKey(headers[0]) in filter {
        assert ([RelaxHeader(headers[0])] + rest)[1..] == rest;
      } else {
        assert [] + rest == rest;
      }
    }
  }

  lemma NamesStep(headers: seq<string>, key: string)
    requires headers != []
    ensures Names(headers, key) <==> HeaderKey(headers[0]) == key || Names(headers[1..], key)
  {
    hide HeaderKey;
    if Names(headers[1..], key) {
      var i :| 0 <= i < |headers| - 1 && HeaderKey(headers[1..][i]) == key;
      assert headers[i + 1] == headers[1..][i];
    }
    if Names(headers, key) {
      var i :| 0 <= i < |headers| && HeaderKey(headers[i]) == key;
      assert i > 0 ==> headers[i] == headers[1..][i - 1];
    }
  }

  lemma FoundWithSignature(entries: seq<Entry>, last: Entry, key: string)
    requires last.key == DKIM_KEY
    ensures FirstEntry(entries + [last], key) < |entries + [last]| <==>
            key == DKIM_KEY || FirstEntry(entries, key) < |entries|
  {
    assert forall k :: 0 <= k < |entries| ==> (entries + [last])[k] == entries[k];
    assert (entries + [last])[|entries|] == last;
  }

  // Relaxed headers with the signature header behind them.
  lemma RelaxedSucceeds(pair: CanonPair, headers: seq<string>, s: string, filter: seq<string>)
    requires RelaxesHeaders(pair) && Settled(s) && '\n' !in s && s != "" && s[|s| - 1] != '\r' && NoNewlines(headers)
    requires Mixed(headers)
    ensures var bytes := HeaderBytes(pair, Unlines(headers) + ("DKIM-Signature: " + s), filter + [DKIM_KEY]);
            !bytes.Undefined? && (bytes.Done? <==> FilterPresent(headers, filter))
  {
    hide Collect, Pick, Settled, Lines, Unlines, Mixed, FilterPresent;
    var keys := filter + [DKIM_KEY];
    PresignLines(headers, s);
    CollectMixed(headers, keys);
    CollectSignature(headers, s, keys);
    var entries, last := Collect(headers, keys).value, Entry(DKIM_KEY, DKIM_KEY + ":" + s);
    PickWithSignature(headers, entries, last, filter);
    if Pick(entries + [last], keys).Done? {
      PickSucceeds(entries + [last], keys);
      UnlinesEnd(Pick(entries + [last], keys).value);
    }
  }

  lemma PickWithSignature(headers: seq<string>, entries: seq<Entry>, last: Entry, filter: seq<string>)
    requires Collect(headers, filter + [DKIM_KEY]) == Done(entries) && last.key == DKIM_KEY
    ensures var picked := Pick(entries + [last], filter + [DKIM_KEY]);
            !picked.Undefined? && (picked.Done? <==> FilterPresent(headers, filter))
  {
    hide Collect, Pick, FirstEntry, Names;
    var keys := filter + [DKIM_KEY];
    PickSucceeds(entries + [last], keys);
    forall key | key in keys
      ensures FirstEntry(entries + [last], key) < |entries + [last]| <==> key == DKIM_KEY || Names(headers, key)
    {
      FoundWithSignature(entries, last, key);
      CollectHas(headers, keys, key);
    }
    assert forall key :: key in keys <==> key in filter || key == DKIM_KEY;
  }

  lemma SimpleSucceeds(pair: CanonPair, headers: seq<string>, s: string, filter: seq<string>)
    requires !RelaxesHeaders(pair) && Settled(s) && '\n' !in s && s != "" && s[|s| - 1] != '\r' && NoNewlines(headers)
    requires Mixed(headers)
    ensures HeaderBytes(pair, Unlines(headers) + ("DKIM-Signature: " + s), filter + [DKIM_KEY]).Done?
  {
    hide SelectSimple, Settled, Lines, Unlines, Mixed;
    var keys := filter + [DKIM_KEY];
    PresignLines(headers, s);
    SelectMixed(headers, keys);
    SelectSignature(headers, s, keys);
    UnlinesEnd(SelectSimple(headers, keys).value + ["DKIM-Signature: " + s]);
  }

  lemma BodySucceeds(pair: CanonPair, body: seq<string>)
    requires NoNewlines(body) && body != []
    ensures BodyBytes(pair, Unlines(body)).Done?
  {
    hide Lines, Unlines, KeepContent, RelaxLines;
    LinesOfUnlines(body, "");
    LinesOfNothing();
    assert Unlines(body) + "" == Unlines(body) && body + [] == body;
  }

  // What the signer would write with a given signature.
  lemma SolidResult(cfg: Config, bodyHash: string, signature: string)
    requires SolidConfig(cfg) && Token(bodyHash) && Token(signature)
    ensures SolidFields(Presign(cfg, signature, bodyHash))
  {
  }

  lemma HashIsToken(crypto: Crypto, a: Algorithm, text: string)
    requires PrintsTokens(crypto)
    ensures Token(crypto.Hash(a, text))
  {
  }

  // For a message with a header block, an empty line and a body, signed before or not, and a
  // configuration that can be written, signing succeeds exactly if every name of the filter is there (simple headers
  // do not ask), and what it writes can be read.
  lemma SigningSucceeds(cfg: Config, prior: string, crypto: Crypto, mime: string)
    requires Sectioned(mime) && Mixed(JoinHeaders(HeadOf(mime)))
    requires SolidConfig(cfg) && PrintsTokens(crypto) && (prior == "" || Token(prior))
    ensures var sg := Sign(cfg, prior, crypto, mime);
            && !sg.Undefined?
            && (sg.Done? <==> (RelaxesHeaders(cfg.pair) ==> FilterPresent(JoinHeaders(HeadOf(mime)), cfg.headerFilter)))
            && (sg.Done? ==> SolidFields(sg.value.fields))
  {
    hide Lines, JoinHeaders, SectionsOf, Unlines, BodyBytes, HeaderBytes, FoldLines, Crlf, ValueText, PreText,
      SolidFields, Mixed, FilterPresent, Settled, SolidConfig, Token;
    SectionedIsLettered(mime);
    BodySucceeds(cfg.pair, BodyOf(mime));
    var hash := crypto.Hash(cfg.algorithm, BodyBytes(cfg.pair, Unlines(BodyOf(mime))).value);
    HashIsToken(crypto, cfg.algorithm, BodyBytes(cfg.pair, Unlines(BodyOf(mime))).value);
    var headers, before := JoinHeaders(HeadOf(mime)), Presign(cfg, prior, hash);
    HasFilter(cfg);
    forall signature | Token(signature)
      ensures SolidFields(before.(signature := signature))
      ensures FoldLines("DKIM-Signature: " + ValueText(before.(signature := signature)), 128).Done?
    {
      var f := before.(signature := signature);
      SolidResult(cfg, hash, signature);
      SignatureHeaderFolds(f);
      UnfoldUndoesFold(SignatureHeaderOf(f), 128);
    }
    var some := before.(signature := crypto.sign("", cfg.algorithm));
    assert Token(some.signature);
    PresignSettled(some, prior);
    ValueTextParts(before);
    ValueTextParts(some);
    var s := PreText(some) + prior;
    SamePretext(before, some);
    assert "DKIM-Signature: " + ValueText(before) == "DKIM-Signature: " + s;
    if RelaxesHeaders(cfg.pair) {
      RelaxedSucceeds(cfg.pair, headers, s, cfg.headerFilter);
    } else {
      SimpleSucceeds(cfg.pair, headers, s, cfg.headerFilter);
    }
  }

  lemma OrdinaryIsMixed(mime: string)
    requires Signable(mime)
    ensures Mixed(JoinHeaders(HeadOf(mime)))
  {
    hide Ordinary, JoinHeaders, HeadOf;
  }

  lemma HasFilter(cfg: Config)
    requires SolidConfig(cfg)
    ensures cfg.headerFilter != []
  {
  }

  lemma SamePretext(f: Fields, g: Fields)
    requires g == f.(signature := g.signature)
    ensures PreText(f) == PreText(g)
  {
    assert FrontTags(f) == FrontTags(g);
  }

  // From the configuration and the message alone: what a fresh signer with relaxed headers
  // signs is reported Pass, or Fail exactly under a tag value that misleads the validator.
  lemma SignedMessageIsReported(cfg: Config, crypto: Crypto, dns: Records, key: string, mime: string)
    requires RelaxesHeaders(cfg.pair) && Signable(mime) && SolidConfig(cfg) && PrintsTokens(crypto)
    requires FilterPresent(JoinHeaders(HeadOf(mime)), cfg.headerFilter)
    requires dns(cfg.selector, cfg.domain) == Some(key) && Accepts(crypto, key) && Rejects(crypto, key)
    ensures Sign(cfg, "", crypto, mime).Done?
    ensures var sg := Sign(cfg, "", crypto, mime).value;
            Validate(crypto, dns, sg.message) ==
            Done(if Misleading(sg.fields) then Report([Invalid], Fail) else Report([Valid], Pass))
  {
    hide Sign, Validate, Misleading, SolidFields, FilterPresent, SolidConfig, JoinHeaders, Accepts, Rejects, PrintsTokens;
    OrdinaryIsMixed(mime);
    SigningSucceeds(cfg, "", crypto, mime);
    SignedMessagePasses(cfg, crypto, dns, key, mime);
  }
}
