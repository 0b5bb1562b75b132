// Where signer and validator part: simple header canonicalization and messages that
// carry a signature already.
module DkimLimits {
  import opened Text
  import opened Mime
  import opened DkimHeader
  import opened DkimCanonicalization
  import opened DkimSigner
  import opened DkimValidator
  import opened DkimAgreement

  // ---------------------------------------------------------------- simple headers

  // The validator rewrites every header before it looks at it; simple
  // canonicalization keeps what it finds, so only headers that are already in the
  // rewritten form are the same on both sides.
  predicate AlreadyNormal(h: string)
    requires Ordinary(h)
  {
    Normalize(h) == h
  }

  predicate SelectedAreNormal(headers: seq<string>, filter: seq<string>)
    requires forall i :: 0 <= i < |headers| ==> Ordinary(headers[i])
  {
    forall i :: 0 <= i < |headers| && HeaderKey(headers[i]) in filter ==> AlreadyNormal(headers[i])
  }

  lemma OrdinaryIsFilled(h: string)
    requires Ordinary(h)
    ensures h != "" && Find(h, ':') < |h| && Normalize(h) != ""
  {
  }

  lemma {:induction false} SelectNormalized(hs: seq<string>, filter: seq<string>)
    requires forall i :: 0 <= i < |hs| ==> Ordinary(hs[i])
    ensures SelectSimple(hs, filter).Done? && SelectSimple(NormalizeAll(hs), filter).Done?
    ensures |SelectSimple(NormalizeAll(hs), filter).value| == |SelectSimple(hs, filter).value|
    ensures SelectSimple(NormalizeAll(hs), filter).value == SelectSimple(hs, filter).value <==>
            SelectedAreNormal(hs, filter)
  {
    hide RelaxHeader, HeaderKey, Normalize, Find, Ordinary, AlreadyNormal;
    if hs != [] {
      NormalizeRelaxes(hs[0]);
      OrdinaryIsFilled(hs[0]);
      SelectNormalized(hs[1..], filter);
      assert NormalizeAll(hs)[1..] == NormalizeAll(hs[1..]);
      SelectedStep(hs, filter);
      NormalIs(hs[0]);
      var a, b := SelectSimple(hs[1..], filter).value, SelectSimple(NormalizeAll(hs[1..]), filter).value;
      if HeaderKey(hs[0]) in filter {
        ConsEqual(Normalize(hs[0]), b, hs[0], a);
      } else {
        assert [] + a == a && [] + b == b;
      }
    }
  }

  lemma NormalIs(h: string)
    requires Ordinary(h)
    ensures AlreadyNormal(h) <==> Normalize(h) == h
  {
  }

  lemma ConsEqual(x: string, xs: seq<string>, y: string, ys: seq<string>)
    ensures [x] + xs == [y] + ys <==> x == y && xs == ys
  {
    assert ([x] + xs)[0] == x && ([y] + ys)[0] == y;
    assert ([x] + xs)[1..] == xs && ([y] + ys)[1..] == ys;
  }

  lemma SelectedStep(hs: seq<string>, filter: seq<string>)
    requires hs != [] && forall i :: 0 <= i < |hs| ==> Ordinary(hs[i])
    ensures SelectedAreNormal(hs, filter) <==>
            (HeaderKey(hs[0]) in filter ==> AlreadyNormal(hs[0])) && SelectedAreNormal(hs[1..], filter)
  {
    hide HeaderKey, Ordinary, AlreadyNormal;
    if SelectedAreNormal(hs[1..], filter) && (HeaderKey(hs[0]) in filter ==> AlreadyNormal(hs[0])) {
      forall i | 0 <= i < |hs| && HeaderKey(hs[i]) in filter ensures AlreadyNormal(hs[i]) {
        if i > 0 {
          assert hs[i] == hs[1..][i - 1];
        }
      }
    }
    if SelectedAreNormal(hs, filter) {
      forall i | 0 <= i < |hs[1..]| && HeaderKey(hs[1..][i]) in filter ensures AlreadyNormal(hs[1..][i]) {
        assert hs[1..][i] == hs[i + 1];
      }
    }
  }

  lemma {:induction false} SelectNoNewlines(lines: seq<string>, filter: seq<string>)
    requires NoNewlines(lines) && SelectSimple(lines, filter).Done?
    ensures NoNewlines(SelectSimple(lines, filter).value)
  {
    hide HeaderKey, Find;
    if lines != [] {
      SelectNoNewlines(lines[1..], filter);
    }
  }

  lemma SelectSignature(headers: seq<string>, s: string, filter: seq<string>)
    requires SelectSimple(headers, filter).Done? && Settled(s) && DKIM_KEY in filter
    ensures SelectSimple(headers + ["DKIM-Signature: " + s], filter) ==
            Done(SelectSimple(headers, filter).value + ["DKIM-Signature: " + s])
  {
    hide SelectSimple, HeaderKey, Settled;
    SignatureHeaderParsed(s);
    SignatureHasColon(s);
    SelectOne("DKIM-Signature: " + s, filter);
    SelectAppend(headers, ["DKIM-Signature: " + s], filter);
  }

  // With simple header canonicalization the two sides agree exactly when, besides,
  // every signed header is already in the form the validator writes.
  lemma SimpleAgreement(cfg: Config, prior: string, crypto: Crypto, mime: string)
    requires !RelaxesHeaders(cfg.pair) && Signable(mime) && (prior == "" || Token(prior))
    requires Sign(cfg, prior, crypto, mime).Done?
    requires SolidFields(Sign(cfg, prior, crypto, mime).value.fields)
    ensures var sg := Sign(cfg, prior, crypto, mime).value;
            var f, r := sg.fields, Receive(sg.message);
            && r.Done? && Signatures(r.value.headers) == [ValueText(f)]
            && BodyBytes(f.pair, r.value.body) == Done(sg.bodyBytes)
            && (forall i :: 0 <= i < |JoinHeaders(HeadOf(mime))| ==> Ordinary(JoinHeaders(HeadOf(mime))[i]))
            && (VerifiedBytes(f, r.value.headers, ValueText(f)) == Done(Some(sg.headerBytes))
                <==> prior == "" && !Misleading(f) && SelectedAreNormal(JoinHeaders(HeadOf(mime)), cfg.headerFilter))
  {
    hide Sign, SignedText, HeadOf, BodyOf, JoinHeaders, BodyBytes, PreText, ValueText, SolidFields, SelectedAreNormal,
      Misleading, Token, Ordinary, Lines, Unlines, SelectSimple, Settled, FindString, Receive, NormalizeAll;
    var sg := Sign(cfg, prior, crypto, mime).value;
    var f := sg.fields;
    SignSteps(cfg, prior, crypto, mime);
    SectionedIsLettered(mime);
    HeadersAreOrdinary(mime);
    var headers := JoinHeaders(HeadOf(mime));
    SignedTextReads(HeadOf(mime), f, BodyOf(mime));
    PresignSettled(f, prior);
    var s := PreText(f) + prior;
    var cut := CutIsPresign(f, prior);
    PresignLines(headers, s);
    NormalizedNoNewlines(headers);
    CutLines(NormalizeAll(headers), cut);
    assert "DKIM-Signature: " + s == "DKIM-Signature: " + PreText(f) + prior;
    SimpleBytes(f.pair, Unlines(headers) + ("DKIM-Signature: " + s),
                Unlines(NormalizeAll(headers)) + ("DKIM-Signature: " + cut + "\r\n"), headers, f.headers, s, cut);
  }

  lemma SimpleBytes(pair: CanonPair, raw: string, other: string, headers: seq<string>, filter: seq<string>,
                    s: string, t: string)
    requires !RelaxesHeaders(pair) && Settled(s) && Settled(t) && '\n' !in s && '\n' !in t
    requires forall i :: 0 <= i < |headers| ==> Ordinary(headers[i])
    requires NoNewlines(headers) && NoNewlines(NormalizeAll(headers))
    requires Lines(raw) == headers + ["DKIM-Signature: " + s]
    requires Lines(other) == NormalizeAll(headers) + ["DKIM-Signature: " + t]
    ensures HeaderBytes(pair, raw, filter + [DKIM_KEY]).Done? && HeaderBytes(pair, other, filter + [DKIM_KEY]).Done?
    ensures HeaderBytes(pair, other, filter + [DKIM_KEY]) == HeaderBytes(pair, raw, filter + [DKIM_KEY])
            <==> s == t && SelectedAreNormal(headers, filter)
  {
    hide SelectSimple, Settled, Lines, Unlines, Ordinary, NormalizeAll, SelectedAreNormal;
    var keys := filter + [DKIM_KEY];
    SelectNormalized(headers, keys);
    SelectSignature(headers, s, keys);
    SelectSignature(NormalizeAll(headers), t, keys);
    SignatureKeyIsExtra(headers, filter);
    var a, b := SelectSimple(headers, keys).value, SelectSimple(NormalizeAll(headers), keys).value;
    var p, q := a + ["DKIM-Signature: " + s], b + ["DKIM-Signature: " + t];
    SelectNoNewlines(headers, keys);
    SelectNoNewlines(NormalizeAll(headers), keys);
    UnlinesEnd(p);
    UnlinesEnd(q);
    SnocEqual(b, a, t, s);
    if Unlines(p) == Unlines(q) {
      UnlinesInjective(p, q);
    }
  }

  lemma SnocEqual(b: seq<string>, a: seq<string>, t: string, s: string)
    requires |a| == |b|
    ensures b + ["DKIM-Signature: " + t] == a + ["DKIM-Signature: " + s] <==> a == b && s == t
  {
    var p, q := a + ["DKIM-Signature: " + s], b + ["DKIM-Signature: " + t];
    assert p[..|a|] == a && q[..|b|] == b;
    assert p[|a|][16..] == s && q[|b|][16..] == t;
  }

  lemma SignatureKeyIsExtra(headers: seq<string>, filter: seq<string>)
    requires forall i :: 0 <= i < |headers| ==> Ordinary(headers[i])
    ensures SelectedAreNormal(headers, filter + [DKIM_KEY]) <==> SelectedAreNormal(headers, filter)
  {
    assert forall i :: 0 <= i < |headers| ==>
        (HeaderKey(headers[i]) in filter + [DKIM_KEY] <==> HeaderKey(headers[i]) in filter);
  }

  // ---------------------------------------------------------------- a message that is signed already

  // A signature header as another signer left it.
  predicate OldSignature(h: string)
  {
    |h| >= 16 && h[..16] == "DKIM-Signature: " && Settled(h[16..])
  }

  predicate Mixed(headers: seq<string>)
  {
    forall i :: 0 <= i < |headers| ==> Ordinary(headers[i]) || OldSignature(headers[i])
  }

  // The values of the signatures, and the headers that are none.
  function Olds(headers: seq<string>): seq<string>
  {
    if headers == [] then []
    else (if OldSignature(headers[0]) then [headers[0][16..]] else []) + Olds(headers[1..])
  }

  function Others(headers: seq<string>): seq<string>
  {
    if headers == [] then [] else (if OldSignature(headers[0]) then [] else [headers[0]]) + Others(headers[1..])
  }

  lemma {:induction false} OthersAreOrdinary(headers: seq<string>)
    requires Mixed(headers)
    ensures forall i :: 0 <= i < |Others(headers)| ==> Ordinary(Others(headers)[i])
    ensures NoNewlines(headers) ==> NoNewlines(Others(headers))
    ensures |headers| == |Olds(headers)| + |Others(headers)|
  {
    hide Ordinary, OldSignature;
    if headers != [] {
      OthersAreOrdinary(headers[1..]);
    }
  }

  lemma OldIs(h: string)
    requires OldSignature(h)
    ensures h == "DKIM-Signature: " + h[16..] && Settled(h[16..])
    ensures Find(h, ':') < |h| && HeaderKey(h) == DKIM_KEY && RelaxHeader(h) == Entry(DKIM_KEY, DKIM_KEY + ":" + h[16..])
    ensures ParseHeader(h, true) == Done(MimeHeader(DKIM_KEY, h[16..]))
  {
    hide Settled, HeaderKey, Find, RelaxHeader, ParseHeader;
    assert h == h[..16] + h[16..];
    SignatureHasColon(h[16..]);
    SignatureHeaderParsed(h[16..]);
  }

  // The validator keeps the signatures apart.
  lemma {:induction false} MixedParsed(headers: seq<string>)
    requires Mixed(headers)
    ensures ParseHeaders(headers, true).Done?
    ensures (forall i :: 0 <= i < |Others(headers)| ==> Ordinary(Others(headers)[i]))
    ensures var p := ParseHeaders(headers, true).value;
            WithoutSignatures(p) == NormalizeAll(Others(headers)) && Signatures(p) == Olds(headers)
  {
    hide Ordinary, OldSignature, ParseHeader, Normalize;
    OthersAreOrdinary(headers);
    if headers != [] {
      MixedParsed(headers[1..]);
      OthersAreOrdinary(headers[1..]);
      var rest := ParseHeaders(headers[1..], true).value;
      if OldSignature(headers[0]) {
        OldIs(headers[0]);
        var p := ParseHeaders(headers, true).value;
        assert p == [MimeHeader(DKIM_KEY, headers[0][16..])] + rest && p[1..] == rest;
        assert [] + Others(headers[1..]) == Others(headers[1..]);
      } else {
        NotASignature(headers[0]);
        assert ParseHeaders(headers, true).value[1..] == rest;
        assert ([headers[0]] + Others(headers[1..]))[1..] == Others(headers[1..]);
        assert [] + Olds(headers[1..]) == Olds(headers[1..]);
      }
    }
  }

  function Unsigned(entries: seq<Entry>): seq<Entry>
  {
    if entries == [] then [] else (if entries[0].key == DKIM_KEY then [] else [entries[0]]) + Unsigned(entries[1..])
  }

  lemma FirstStep(entry: Entry, rest: seq<Entry>, key: string)
    ensures FirstEntry([entry] + rest, key) == if entry.key == key then 0 else 1 + FirstEntry(rest, key)
  {
    assert ([entry] + rest)[1..] == rest;
  }

  lemma {:induction false} CollectMixed(headers: seq<string>, filter: seq<string>)
    requires Mixed(headers) && DKIM_KEY in filter
    ensures Collect(headers, filter).Done? && Collect(Others(headers), filter).Done?
    ensures Collect(Others(headers), filter).value == Unsigned(Collect(headers, filter).value)
  {
    hide Ordinary, OldSignature, RelaxHeader, HeaderKey, Find;
    if headers != [] {
      CollectMixed(headers[1..], filter);
      var rest, others := Collect(headers[1..], filter).value, Others(headers[1..]);
      if OldSignature(headers[0]) {
        OldIs(headers[0]);
        assert ([RelaxHeader(headers[0])] + rest)[1..] == rest && [] + others == others;
        assert [] + Unsigned(rest) == Unsigned(rest);
      } else {
        OrdinaryHasColon(headers[0]);
        RelaxHeaderKey(headers[0]);
        assert ([headers[0]] + others)[1..] == others;
        assert ([RelaxHeader(headers[0])] + rest)[1..] == rest && [] + rest == rest;
        assert [] + Unsigned(rest) == Unsigned(rest);
      }
    }
  }

  // The first signature that is collected is the first one there is.
  lemma {:induction false} FirstOld(headers: seq<string>, filter: seq<string>)
    requires Mixed(headers) && DKIM_KEY in filter
    ensures Collect(headers, filter).Done?
    ensures var entries := Collect(headers, filter).value;
            if Olds(headers) == [] then FirstEntry(entries, DKIM_KEY) == |entries|
            else FirstEntry(entries, DKIM_KEY) < |entries|
                 && entries[FirstEntry(entries, DKIM_KEY)].text == DKIM_KEY + ":" + Olds(headers)[0]
  {
    hide Ordinary, OldSignature, RelaxHeader, HeaderKey, Find, FirstEntry, Collect;
    CollectMixed(headers, filter);
    if headers == [] {
      NothingFirst();
      CollectNone(filter);
    } else {
      FirstOld(headers[1..], filter);
      var rest := Collect(headers[1..], filter).value;
      if OldSignature(headers[0]) {
        OldIs(headers[0]);
        CollectStep(headers, filter);
        FirstStep(RelaxHeader(headers[0]), rest, DKIM_KEY);
      } else {
        OrdinaryHasColon(headers[0]);
        CollectStep(headers, filter);
        RelaxHeaderKey(headers[0]);
        FirstStep(RelaxHeader(headers[0]), rest, DKIM_KEY);
        assert [] + rest == rest && [] + Olds(headers[1..]) == Olds(headers[1..]);
      }
    }
  }

  lemma CollectStep(headers: seq<string>, filter: seq<string>)
    requires headers != [] && Find(headers[0], ':') < |headers[0]| && Collect(headers[1..], filter).Done?
    ensures Collect(headers, filter) ==
            Done((if HeaderKey(headers[0]) in filter then [RelaxHeader(headers[0])] else [])
                 + Collect(headers[1..], filter).value)
  {
    hide HeaderKey, RelaxHeader, Find;
  }

  lemma NothingFirst()
    ensures FirstEntry([], DKIM_KEY) == 0
  {
  }

  // What any other name picks does not depend on the signatures.
  lemma {:induction false} FirstUnsigned(entries: seq<Entry>, key: string)
    requires key != DKIM_KEY
    ensures var i, j := FirstEntry(entries, key), FirstEntry(Unsigned(entries), key);
            && (i < |entries| <==> j < |Unsigned(entries)|)
            && (i < |entries| ==> entries[i] == Unsigned(entries)[j])
  {
    hide FirstEntry;
    if entries != [] {
      var rest := entries[1..];
      FirstUnsigned(rest, key);
      FirstStep(entries[0], rest, key);
      assert entries == [entries[0]] + rest;
      FirstStep(entries[0], Unsigned(rest), key);
      assert [] + Unsigned(rest) == Unsigned(rest);
    }
  }

  lemma {:induction false} PickUnsigned(entries: seq<Entry>, filter: seq<string>)
    requires DKIM_KEY !in filter
    ensures Pick(Unsigned(entries), filter) == Pick(entries, filter)
  {
    hide FirstEntry, Unsigned;
    if filter != [] {
      assert filter == [filter[0]] + filter[1..];
      FirstUnsigned(entries, filter[0]);
      PickUnsigned(entries, filter[1..]);
    }
  }

  lemma {:induction false} UnsignedSnoc(entries: seq<Entry>, last: Entry)
    requires last.key == DKIM_KEY
    ensures Unsigned(entries + [last]) == Unsigned(entries)
    ensures FirstEntry(entries, DKIM_KEY) < |entries| ==> FirstEntry(entries + [last], DKIM_KEY) == FirstEntry(entries, DKIM_KEY)
    ensures FirstEntry(entries, DKIM_KEY) == |entries| ==> FirstEntry(entries + [last], DKIM_KEY) == |entries|
  {
    if entries == [] {
      assert entries + [last] == [last] && [last][1..] == [] && [] + Unsigned([]) == [];
    } else {
      assert (entries + [last])[1..] == entries[1..] + [last];
      UnsignedSnoc(entries[1..], last);
    }
  }

  // What a filter that ends in the signature's name picks: the others, and the first
  // signature there is.
  lemma PickSigned(entries: seq<Entry>, last: Entry, filter: seq<string>)
    requires DKIM_KEY !in filter && last.key == DKIM_KEY
    ensures var first := if FirstEntry(entries, DKIM_KEY) < |entries| then entries[FirstEntry(entries, DKIM_KEY)] else last;
            var front := Pick(Unsigned(entries), filter);
            Pick(entries + [last], filter + [DKIM_KEY]) ==
            if front.Done? then Done(front.value + [first.text]) else front
  {
    hide FirstEntry, Unsigned;
    UnsignedSnoc(entries, last);
    PickUnsigned(entries + [last], filter);
    OnePicked(entries + [last]);
    if Pick(entries + [last], filter).Done? {
      PickAppend(entries + [last], filter, [DKIM_KEY]);
    } else {
      PickFails(entries + [last], filter, [DKIM_KEY]);
    }
  }

  lemma OnePicked(entries: seq<Entry>)
    ensures Pick(entries, [DKIM_KEY]) ==
            var i := FirstEntry(entries, DKIM_KEY); if i == |entries| then Throws else Done([entries[i].text])
  {
    hide FirstEntry;
    assert [DKIM_KEY][1..] == [] && Pick(entries, []) == Done([]);
    var i := FirstEntry(entries, DKIM_KEY);
    if i < |entries| {
      assert [entries[i].text] + [] == [entries[i].text];
    }
  }

  lemma {:induction false} PickFails(entries: seq<Entry>, a: seq<string>, b: seq<string>)
    requires !Pick(entries, a).Done?
    ensures Pick(entries, a + b) == Pick(entries, a)
  {
    hide FirstEntry;
    if a != [] {
      assert (a + b)[1..] == a[1..] + b && (a + b)[0] == a[0];
      if FirstEntry(entries, a[0]) < |entries| {
        PickFails(entries, a[1..], b);
      }
    }
  }

  // The bytes of a message that carries signatures: those that are signed with a new one,
  // `s`, behind them, and those the validator verifies for it, with the new header cut to
  // `cut`.
  function SignedBytes(pair: CanonPair, headers: seq<string>, filter: seq<string>, s: string): Outcome<string>
  {
    HeaderBytes(pair, Unlines(headers) + ("DKIM-Signature: " + s), filter + [DKIM_KEY])
  }

  function SeenBytes(pair: CanonPair, headers: seq<string>, filter: seq<string>, cut: string): Outcome<string>
    requires ParseHeaders(headers, true).Done?
  {
    HeaderBytes(pair, Unlines(WithoutSignatures(ParseHeaders(headers, true).value)) + ("DKIM-Signature: " + cut + "\r\n"),
                filter + [DKIM_KEY])
  }

  predicate Presigned(s: string)
  {
    Settled(s) && s != "" && '\n' !in s && s[|s| - 1] != '\r'
  }

  // What is left of the bytes: the picked lines without their last line break.
  lemma RelaxedBytesAre(pair: CanonPair, raw: string, keys: seq<string>, entries: seq<Entry>)
    requires RelaxesHeaders(pair) && Collect(Lines(raw), keys) == Done(entries)
    ensures var picked := Pick(entries, keys);
            && (picked.Done? && picked.value != [] ==>
                  |Unlines(picked.value)| >= 2
                  && HeaderBytes(pair, raw, keys) == Done(Unlines(picked.value)[..|Unlines(picked.value)| - 2]))
            && (!picked.Done? ==> HeaderBytes(pair, raw, keys) == picked.PropagateFailure())
  {
    hide Collect, Pick, Lines, Unlines;
    var picked := Pick(entries, keys);
    if picked.Done? && picked.value != [] {
      UnlinesEnd(picked.value);
    }
  }

  lemma SimpleBytesAre(pair: CanonPair, raw: string, keys: seq<string>, selected: seq<string>)
    requires !RelaxesHeaders(pair) && SelectSimple(Lines(raw), keys) == Done(selected) && selected != []
    ensures |Unlines(selected)| >= 2 && HeaderBytes(pair, raw, keys) == Done(Unlines(selected)[..|Unlines(selected)| - 2])
  {
    hide SelectSimple, Lines, Unlines;
    UnlinesEnd(selected);
  }

  // The signature that is picked out of the headers: the first one, or the new one, `s`.
  function Signature(headers: seq<string>, s: string): string
  {
    DKIM_KEY + ":" + if Olds(headers) == [] then s else Olds(headers)[0]
  }

  lemma PickedSigned(headers: seq<string>, filter: seq<string>, s: string)
    requires Mixed(headers) && DKIM_KEY !in filter && Settled(s)
    ensures var keys := filter + [DKIM_KEY];
            var all, others := Collect(headers + ["DKIM-Signature: " + s], keys), Collect(Others(headers), keys);
            && all.Done? && others.Done?
            && var front := Pick(others.value, filter);
               Pick(all.value, keys) == if front.Done? then Done(front.value + [Signature(headers, s)]) else front
  {
    hide Collect, Pick, Settled, FirstEntry, Mixed, Unsigned, Olds, Others;
    var keys := filter + [DKIM_KEY];
    CollectMixed(headers, keys);
    FirstOld(headers, keys);
    CollectSignature(headers, s, keys);
    PickSigned(Collect(headers, keys).value, Entry(DKIM_KEY, DKIM_KEY + ":" + s), filter);
  }

  lemma SignedBytesAre(pair: CanonPair, headers: seq<string>, filter: seq<string>, s: string)
    requires RelaxesHeaders(pair) && Mixed(headers) && NoNewlines(headers) && DKIM_KEY !in filter && Presigned(s)
    ensures Collect(Others(headers), filter + [DKIM_KEY]).Done?
    ensures var front := Pick(Collect(Others(headers), filter + [DKIM_KEY]).value, filter);
            SignedBytes(pair, headers, filter, s) ==
               if front.Done? then Done(Unlines(front.value) + Signature(headers, s)) else front.PropagateFailure()
  {
    hide Collect, Pick, Lines, Unlines, Settled, FirstEntry, Mixed, HeaderBytes, Signature, Others;
    var keys := filter + [DKIM_KEY];
    PresignLines(headers, s);
    PickedSigned(headers, filter, s);
    var all := Collect(headers + ["DKIM-Signature: " + s], keys).value;
    RelaxedBytesAre(pair, Unlines(headers) + ("DKIM-Signature: " + s), keys, all);
    var front := Pick(Collect(Others(headers), keys).value, filter);
    if front.Done? {
      LastWithoutBreak(front.value, Signature(headers, s));
    }
  }

  lemma LastWithoutBreak(lines: seq<string>, last: string)
    ensures var text := Unlines(lines + [last]);
            |text| >= 2 && text[..|text| - 2] == Unlines(lines) + last
  {
    hide Unlines;
    UnlinesAppend(lines, [last]);
    OneLine(last);
    assert Unlines(lines) + (last + "\r\n") == (Unlines(lines) + last) + "\r\n";
  }

  lemma OneLine(last: string)
    ensures Unlines([last]) == last + "\r\n"
  {
    assert [last][1..] == [] && Unlines([]) == "";
    assert last + "\r\n" + "" == last + "\r\n";
  }

  lemma SeenBytesAre(pair: CanonPair, headers: seq<string>, filter: seq<string>, cut: string)
    requires RelaxesHeaders(pair) && Mixed(headers) && NoNewlines(headers) && DKIM_KEY !in filter && Presigned(cut)
    ensures ParseHeaders(headers, true).Done? && Collect(Others(headers), filter + [DKIM_KEY]).Done?
    ensures var front := Pick(Collect(Others(headers), filter + [DKIM_KEY]).value, filter);
            SeenBytes(pair, headers, filter, cut) ==
            if front.Done? then Done(Unlines(front.value) + (DKIM_KEY + ":" + cut)) else front.PropagateFailure()
  {
    hide Collect, Pick, Lines, Unlines, Settled, FirstEntry, Mixed, NormalizeAll, Ordinary, HeaderBytes, Unsigned, Others;
    var keys, others := filter + [DKIM_KEY], Others(headers);
    MixedParsed(headers);
    OthersAreOrdinary(headers);
    NormalizedNoNewlines(others);
    CutLines(NormalizeAll(others), cut);
    CollectNormalized(others, keys);
    CollectSignature(NormalizeAll(others), cut, keys);
    var entries, last := Collect(others, keys).value, Entry(DKIM_KEY, DKIM_KEY + ":" + cut);
    NoneSigned(entries);
    PickSigned(entries, last, filter);
    RelaxedBytesAre(pair, Unlines(NormalizeAll(others)) + ("DKIM-Signature: " + cut + "\r\n"), keys, entries + [last]);
    var front := Pick(entries, filter);
    if front.Done? {
      LastWithoutBreak(front.value, DKIM_KEY + ":" + cut);
    }
  }

  lemma {:induction false} NoneSigned(entries: seq<Entry>)
    requires forall i :: 0 <= i < |entries| ==> entries[i].key != DKIM_KEY
    ensures Unsigned(entries) == entries && FirstEntry(entries, DKIM_KEY) == |entries|
  {
    if entries != [] {
      NoneSigned(entries[1..]);
    }
  }

  // If the message carries a signature, the old one ends the bytes that are signed, in the
  // place of the new one; the validator verifies the new one, and so it meets the signed
  // bytes exactly if the old header is the new one as it is cut. It never does if the old
  // header has a value behind its last "b=".
  lemma OldSignatureIsSigned(pair: CanonPair, headers: seq<string>, filter: seq<string>, s: string, cut: string)
    requires RelaxesHeaders(pair) && Mixed(headers) && NoNewlines(headers) && Olds(headers) != []
    requires DKIM_KEY !in filter && Presigned(s) && Presigned(cut)
    ensures ParseHeaders(headers, true).Done?
    ensures var first := Olds(headers)[0];
            var signed, seen := SignedBytes(pair, headers, filter, s), SeenBytes(pair, headers, filter, cut);
            && (signed.Done? <==> seen.Done?)
            && (signed.Done? ==>
                  && (exists front :: signed.value == front + (DKIM_KEY + ":" + first))
                  && (seen == signed <==> cut == first)
                  && (|cut| >= 2 && cut[|cut| - 2..] == "b=" && (|first| < 2 || first[|first| - 2..] != "b=") ==> seen != signed))
  {
    hide Collect, Pick, Unlines, Settled, Mixed, SignedBytes, SeenBytes, Olds;
    SignedBytesAre(pair, headers, filter, s);
    SeenBytesAre(pair, headers, filter, cut);
    var front := Pick(Collect(Others(headers), filter + [DKIM_KEY]).value, filter);
    if front.Done? {
      var first, text := Olds(headers)[0], Unlines(front.value) + (DKIM_KEY + ":");
      assert Unlines(front.value) + (DKIM_KEY + ":" + first) == text + first;
      assert Unlines(front.value) + (DKIM_KEY + ":" + cut) == text + cut;
      assert (text + first)[|text|..] == first && (text + cut)[|text|..] == cut;
    }
  }

  lemma {:induction false} SelectMixed(headers: seq<string>, filter: seq<string>)
    requires Mixed(headers) && DKIM_KEY in filter
    ensures SelectSimple(headers, filter).Done? && SelectSimple(Others(headers), filter).Done?
    ensures |SelectSimple(headers, filter).value| == |SelectSimple(Others(headers), filter).value| + |Olds(headers)|
  {
    hide Ordinary, OldSignature, HeaderKey, Find;
    if headers != [] {
      SelectMixed(headers[1..], filter);
      var others := Others(headers[1..]);
      if OldSignature(headers[0]) {
        OldIs(headers[0]);
        assert headers[0] != "" && [] + others == others;
      } else {
        OrdinaryHasColon(headers[0]);
        assert ([headers[0]] + others)[1..] == others;
      }
    }
  }

  // With simple headers all signatures are signed, and none but the new one is verified: the
  // bytes never agree.
  lemma OldSignatureSpoilsSimple(pair: CanonPair, headers: seq<string>, filter: seq<string>, s: string, cut: string)
    requires !RelaxesHeaders(pair) && Mixed(headers) && NoNewlines(headers) && Olds(headers) != []
    requires Presigned(s) && Presigned(cut)
    ensures ParseHeaders(headers, true).Done?
    ensures var signed, seen := SignedBytes(pair, headers, filter, s), SeenBytes(pair, headers, filter, cut);
            signed.Done? && seen.Done? && signed != seen
  {
    hide SelectSimple, Lines, Unlines, Settled, Mixed, NormalizeAll, Ordinary, SelectedAreNormal, HeaderBytes, Others, Olds,
      WithoutSignatures, ParseHeaders;
    var keys, others := filter + [DKIM_KEY], Others(headers);
    MixedParsed(headers);
    OthersAreOrdinary(headers);
    NormalizedNoNewlines(others);
    PresignLines(headers, s);
    CutLines(NormalizeAll(others), cut);
    SelectMixed(headers, keys);
    SelectNormalized(others, keys);
    SelectSignature(headers, s, keys);
    SelectSignature(NormalizeAll(others), cut, keys);
    var p, q := SelectSimple(headers, keys).value, SelectSimple(NormalizeAll(others), keys).value;
    SelectNoNewlines(headers, keys);
    SelectNoNewlines(NormalizeAll(others), keys);
    SimpleBytesAre(pair, Unlines(headers) + ("DKIM-Signature: " + s), keys, p + ["DKIM-Signature: " + s]);
    SimpleBytesAre(pair, Unlines(NormalizeAll(others)) + ("DKIM-Signature: " + cut + "\r\n"), keys, q + ["DKIM-Signature: " + cut]);
    UnlinesEnd(p + ["DKIM-Signature: " + s]);
    UnlinesEnd(q + ["DKIM-Signature: " + cut]);
    if Unlines(p + ["DKIM-Signature: " + s]) == Unlines(q + ["DKIM-Signature: " + cut]) {
      UnlinesInjective(p + ["DKIM-Signature: " + s], q + ["DKIM-Signature: " + cut]);
    }
  }
}
