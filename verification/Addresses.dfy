// E-mail addresses and address lists (lib/models/Email.src.cc, lib/general/cleanup.src.cc).
module Addresses {
  import opened Text
  import Mime

  // ---------------------------------------------------------------- white space

  function RemoveFirstAndLastWhite(s: string): string
  {
    if |s| < 2 then s else StripTrail(StripLead(s))
  }

  function ReduceWhitespace(raw: string): string
  {
    RemoveFirstAndLastWhite(Collapse(raw, false))
  }

  method ReduceWhite(raw: string) returns (ret: string)
    ensures ret == ReduceWhitespace(raw)
  {
    hide Collapse;
    var lww := false;
    ret := "";
    assert raw[0..] == raw;
    for i := 0 to |raw|
      invariant Collapse(raw, false) == ret + Collapse(raw[i..], lww)
    {
      CollapseStep(raw, i, lww);
      ghost var rest := Collapse(raw[i + 1..], raw[i] == ' ');
      if raw[i] == ' ' && lww {
        assert "" + rest == rest;
      } else {
        Mime.Assoc(ret, [raw[i]], rest);
        ret := ret + [raw[i]];
      }
      lww := raw[i] == ' ';
    }
    CollapseEmpty(lww);
    assert raw[|raw|..] == "" && ret + "" == ret;
    ret := RemoveFirstAndLastWhite(ret);
  }

  lemma CollapseEmpty(lww: bool)
    ensures Collapse("", lww) == ""
  {
  }

  // ---------------------------------------------------------------- one address

  datatype EmailAddress = EmailAddress(name: string, address: string) {
    // `getDomain` throws on an address without '@'.
    function Domain(): Outcome<string> {
      var i := Find(address, '@');
      if i == |address| then Throws else Done(address[i + 1..])
    }

    function Username(): Outcome<string> {
      var i := Find(address, '@');
      if i == |address| then Throws else Done(address[..i])
    }
  }

  function StripQuotes(s: string): string
  {
    var t := if s != "" && s[0] == '"' then s[1..] else s;
    if t != "" && t[|t| - 1] == '"' then t[..|t| - 1] else t
  }

  function CleanName(raw: string): string
  {
    StripQuotes(StripTrail(StripLead(ReduceWhitespace(raw))))
  }

  // A '>' in front of the '<' makes the length wrap, and `substr` runs to the end.
  function Bracketed(raw: string, open: nat, close: nat): string
    requires open < |raw| && close < |raw|
  {
    if close > open then raw[open + 1..close] else raw[open + 1..]
  }

  function ParseAddress(raw: string): Outcome<EmailAddress>
  {
    var open, close := Find(raw, '<'), Find(raw, '>');
    if Find(raw, '@') == |raw| || Find(raw, '.') == |raw| then Throws
    else if open < |raw| && close < |raw| then
      Done(EmailAddress(CleanName(raw[..open]), RemoveFirstAndLastWhite(Bracketed(raw, open, close))))
    else if open < |raw| || close < |raw| then Throws
    else Done(EmailAddress("", RemoveFirstAndLastWhite(raw)))
  }

  lemma FoundIfThere(s: string, c: char)
    ensures Find(s, c) < |s| <==> c in s
  {
    if c in s {
      var k :| 0 <= k < |s| && s[k] == c;
    }
  }

  // What is taken for an address: it has an '@' and a '.', and either both angle brackets or
  // none of them; without brackets all of it is the address.
  lemma ParsesIf(raw: string)
    ensures ParseAddress(raw).Done? <==> '@' in raw && '.' in raw && ('<' in raw <==> '>' in raw)
    ensures ParseAddress(raw).Done? && '<' !in raw ==>
              ParseAddress(raw).value == EmailAddress("", RemoveFirstAndLastWhite(raw))
    ensures !ParseAddress(raw).Done? ==> ParseAddress(raw) == Throws
  {
    hide Find, CleanName, RemoveFirstAndLastWhite;
    FoundIfThere(raw, '@');
    FoundIfThere(raw, '.');
    FoundIfThere(raw, '<');
    FoundIfThere(raw, '>');
  }

  // ---------------------------------------------------------------- lists

  // The pieces between the commas that stand outside double quotes.
  function SplitUnquoted(raw: string, quoted: bool): (pieces: seq<string>)
    ensures |pieces| >= 1
  {
    if raw == "" then [""]
    else
      var q := if raw[0] == '"' then !quoted else quoted;
      var rest := SplitUnquoted(raw[1..], q);
      if raw[0] == ',' && !q then [""] + rest else [[raw[0]] + rest[0]] + rest[1..]
  }

  function ParseAll(pieces: seq<string>): Outcome<seq<EmailAddress>>
  {
    if pieces == [] then Done([])
    else
      var a :- ParseAddress(pieces[0]);
      var t :- ParseAll(pieces[1..]);
      Done([a] + t)
  }

  // A last piece that is empty is no address.
  function ParseAddressList(raw: string): Outcome<seq<EmailAddress>>
  {
    var pieces := SplitUnquoted(raw, false);
    ParseAll(if pieces[|pieces| - 1] == "" then pieces[..|pieces| - 1] else pieces)
  }

  function NameText(name: string): string
  {
    if name == "" then "" else "\"" + name + "\" "
  }

  function AddressText(a: EmailAddress): string
  {
    NameText(a.name) + "<" + a.address + ">"
  }

  function AddressListToString(l: seq<EmailAddress>): string
  {
    if l == [] then ""
    else AddressText(l[0]) + (if |l| == 1 then "" else ", ") + AddressListToString(l[1..])
  }

  method WriteAddressList(addresses: seq<EmailAddress>) returns (text: string)
    ensures text == AddressListToString(addresses)
  {
    text := "";
    assert addresses[0..] == addresses;
    for i := 0 to |addresses|
      invariant text + AddressListToString(addresses[i..]) == AddressListToString(addresses)
    {
      assert addresses[i..][0] == addresses[i] && addresses[i..][1..] == addresses[i + 1..];
      var piece := AddressText(addresses[i]) + (if i + 1 < |addresses| then ", " else "");
      Mime.Assoc(text, piece, AddressListToString(addresses[i + 1..]));
      text := text + piece;
    }
    assert text + "" == text;
  }

  method ReadAddressList(raw: string) returns (r: Outcome<seq<EmailAddress>>)
    ensures r == ParseAddressList(raw)
  {
    hide ParseAddress, SplitUnquoted, ParseAll;
    ParseNothing();
    var result: seq<EmailAddress> := [];
    var stringSequenceStarted, addressBuffer := false, "";
    ghost var pieces := SplitUnquoted(raw, false);
    ghost var done: seq<string> := [];
    assert raw[0..] == raw;
    WholeSplit(pieces);
    for i := 0 to |raw|
      invariant ParseAll(done) == Done(result)
      invariant var rest := SplitUnquoted(raw[i..], stringSequenceStarted);
                pieces == done + ([addressBuffer + rest[0]] + rest[1..])
    {
      var c := raw[i];
      if c == '"' {
        stringSequenceStarted := !stringSequenceStarted;
      }
      SplitChar(raw, i, if c == '"' then !stringSequenceStarted else stringSequenceStarted);
      ghost var rest := SplitUnquoted(raw[i + 1..], stringSequenceStarted);
      if c == ',' && !stringSequenceStarted {
        PieceDone(done, addressBuffer, rest);
        var a := ParseAddress(addressBuffer);
        ParseAllAt(pieces, done, addressBuffer, rest);
        if !a.Done? {
          return Throws;
        }
        ParseAllSnoc(done, addressBuffer);
        result := result + [a.value];
        done := done + [addressBuffer];
        addressBuffer := "";
      } else {
        Mime.Assoc(addressBuffer, [c], rest[0]);
        addressBuffer := addressBuffer + [c];
      }
    }
    SplitEnd(raw, stringSequenceStarted);
    assert addressBuffer + "" == addressBuffer;
    assert [addressBuffer] + [""][1..] == [addressBuffer];
    if addressBuffer != "" {
      var a := ParseAddress(addressBuffer);
      ParseAllSnoc(done, addressBuffer);
      if !a.Done? {
        return Throws;
      }
      result := result + [a.value];
    } else {
      assert pieces[..|pieces| - 1] == done;
    }
    r := Done(result);
  }

  lemma ParseNothing()
    ensures ParseAll([]) == Done([])
  {
  }

  lemma PieceDone(done: seq<string>, buffer: string, rest: seq<string>)
    requires rest != []
    ensures done + ([buffer + ""] + rest) == (done + [buffer]) + (["" + rest[0]] + rest[1..])
    ensures done + ([buffer] + rest) == (done + [buffer]) + (["" + rest[0]] + rest[1..])
    ensures ([""] + rest)[0] == "" && ([""] + rest)[1..] == rest
  {
    assert buffer + "" == buffer && "" + rest[0] == rest[0];
    assert [rest[0]] + rest[1..] == rest;
  }

  lemma WholeSplit(pieces: seq<string>)
    requires pieces != []
    ensures pieces == [] + (["" + pieces[0]] + pieces[1..])
  {
    assert "" + pieces[0] == pieces[0];
    assert [pieces[0]] + pieces[1..] == pieces;
  }

  lemma SplitChar(raw: string, i: nat, quoted: bool)
    requires i < |raw|
    ensures var q := if raw[i] == '"' then !quoted else quoted;
            var rest := SplitUnquoted(raw[i + 1..], q);
            SplitUnquoted(raw[i..], quoted) ==
            if raw[i] == ',' && !q then [""] + rest else [[raw[i]] + rest[0]] + rest[1..]
  {
    assert raw[i..][1..] == raw[i + 1..];
  }

  lemma SplitEnd(raw: string, quoted: bool)
    ensures SplitUnquoted(raw[|raw|..], quoted) == [""]
  {
  }

  lemma {:induction false} ParseAllAppend(a: seq<string>, b: seq<string>)
    requires ParseAll(a).Done?
    ensures !ParseAll(b).Done? ==> ParseAll(a + b) == ParseAll(b)
    ensures ParseAll(b).Done? ==> ParseAll(a + b) == Done(ParseAll(a).value + ParseAll(b).value)
  {
    hide ParseAddress;
    var parsed := ParseAll(b);
    if a == [] {
      assert a + b == b;
      assert parsed.Done? ==> [] + parsed.value == parsed.value;
    } else {
      assert (a + b)[1..] == a[1..] + b;
      ParseAllAppend(a[1..], b);
      if parsed.Done? {
        Mime.Assoc([ParseAddress(a[0]).value], ParseAll(a[1..]).value, parsed.value);
      }
    }
  }

  lemma ParseAllOne(piece: string)
    ensures ParseAddress(piece).Done? ==> ParseAll([piece]) == Done([ParseAddress(piece).value])
    ensures !ParseAddress(piece).Done? ==> ParseAll([piece]) == Throws
  {
    hide ParseAddress;
    assert [piece][1..] == [] && ParseAll([]) == Done([]);
    var a := ParseAddress(piece);
    assert a.Done? ==> [a.value] + [] == [a.value];
    AddressNeverUndefined(piece);
  }

  lemma AddressNeverUndefined(piece: string)
    ensures !ParseAddress(piece).Undefined?
  {
  }

  lemma ParseAllSnoc(done: seq<string>, piece: string)
    requires ParseAll(done).Done?
    ensures ParseAddress(piece).Done? ==>
              ParseAll(done + [piece]) == Done(ParseAll(done).value + [ParseAddress(piece).value])
    ensures !ParseAddress(piece).Done? ==> ParseAll(done + [piece]) == Throws
  {
    ParseAllOne(piece);
    ParseAllAppend(done, [piece]);
  }

  // A piece that is no address ends the whole list.
  lemma ParseAllAt(pieces: seq<string>, done: seq<string>, piece: string, rest: seq<string>)
    requires ParseAll(done).Done? && rest != [] && pieces == done + ([piece] + rest)
    ensures !ParseAddress(piece).Done? ==>
              ParseAll(pieces) == Throws && ParseAll(pieces[..|pieces| - 1]) == Throws
  {
    hide ParseAddress;
    if !ParseAddress(piece).Done? {
      AddressNeverUndefined(piece);
      assert ([piece] + rest)[1..] == rest;
      ParseAllAppend(done, [piece] + rest);
      var shorter := [piece] + rest[..|rest| - 1];
      assert shorter[1..] == rest[..|rest| - 1];
      ParseAllAppend(done, shorter);
      assert pieces[..|pieces| - 1] == done + shorter;
    }
  }

  // ---------------------------------------------------------------- round trip

  predicate PlainName(name: string)
  {
    Collapsed(name) && forall i :: 0 <= i < |name| ==> name[i] != '"' && name[i] != '<' && name[i] != '>'
  }

  predicate PlainAddress(a: string)
  {
    && '@' in a && '.' in a
    && forall i :: 0 <= i < |a| ==> a[i] != ' ' && a[i] != ',' && a[i] != '"' && a[i] != '<' && a[i] != '>'
  }

  predicate Writable(a: EmailAddress)
  {
    PlainName(a.name) && PlainAddress(a.address)
  }

  // Text without a comma outside its quotes, and the quoting behind it.
  predicate Unbroken(t: string, quoted: bool, after: bool)
  {
    if t == "" then quoted == after
    else
      var q := if t[0] == '"' then !quoted else quoted;
      !(t[0] == ',' && !q) && Unbroken(t[1..], q, after)
  }

  lemma {:induction false} SplitUnbroken(t: string, rest: string, quoted: bool, after: bool)
    requires Unbroken(t, quoted, after)
    ensures var r := SplitUnquoted(rest, after);
            SplitUnquoted(t + rest, quoted) == [t + r[0]] + r[1..]
  {
    var r := SplitUnquoted(rest, after);
    if t == "" {
      assert t + rest == rest;
      assert "" + r[0] == r[0];
    } else {
      var q := if t[0] == '"' then !quoted else quoted;
      assert (t + rest)[1..] == t[1..] + rest;
      SplitUnbroken(t[1..], rest, q, after);
      assert [t[0]] + (t[1..] + r[0]) == t + r[0];
    }
  }

  lemma {:induction false} UnbrokenAppend(a: string, b: string, p: bool, q: bool, r: bool)
    requires Unbroken(a, p, q) && Unbroken(b, q, r)
    ensures Unbroken(a + b, p, r)
  {
    if a == "" {
      assert a + b == b;
    } else {
      assert (a + b)[1..] == a[1..] + b;
      UnbrokenAppend(a[1..], b, if a[0] == '"' then !p else p, q, r);
    }
  }

  lemma {:induction false} UnbrokenPlain(t: string, quoted: bool)
    requires forall i :: 0 <= i < |t| ==> t[i] != '"' && (quoted || t[i] != ',')
    ensures Unbroken(t, quoted, quoted)
  {
    if t != "" {
      UnbrokenPlain(t[1..], quoted);
    }
  }

  lemma AddressTextUnbroken(a: EmailAddress)
    requires Writable(a)
    ensures Unbroken(AddressText(a), false, false) && Unbroken(" " + AddressText(a), false, false)
  {
    hide Unbroken;
    var tail := "<" + a.address + ">";
    UnbrokenPlain(tail, false);
    var text := AddressText(a);
    if a.name == "" {
      assert "" + "<" + a.address + ">" == tail;
    } else {
      QuoteToggles();
      UnbrokenPlain(a.name, true);
      UnbrokenPlain(" ", false);
      UnbrokenAppend("\"", a.name, false, true, true);
      UnbrokenAppend("\"" + a.name, "\"", false, true, false);
      UnbrokenAppend("\"" + a.name + "\"", " ", false, false, false);
      assert "\"" + a.name + "\"" + " " == "\"" + a.name + "\" ";
      UnbrokenAppend("\"" + a.name + "\" ", tail, false, false, false);
      assert text == "\"" + a.name + "\" " + tail;
    }
    UnbrokenPlain(" ", false);
    UnbrokenAppend(" ", text, false, false, false);
  }

  lemma QuoteToggles()
    ensures Unbroken("\"", false, true) && Unbroken("\"", true, false)
  {
    assert "\""[1..] == "";
  }

  lemma ReduceCollapsed(raw: string)
    requires Collapsed(raw)
    ensures ReduceWhitespace(raw) == RemoveFirstAndLastWhite(raw)
  {
    hide Collapse;
    CollapsedIsFixed(raw, false);
  }

  // What is in front of the '<': "", " ", "\"name\" " or " \"name\" ".
  lemma NameComesBack(name: string, indent: string)
    requires PlainName(name) && (indent == "" || indent == " ")
    ensures CleanName(indent + NameText(name)) == name
  {
    hide ReduceWhitespace, Collapsed, PlainName;
    var raw := indent + NameText(name);
    CollapsedFront(name, indent);
    ReduceCollapsed(raw);
    if name == "" {
      BareIndent(indent);
    } else {
      var core := "\"" + name + "\"";
      StripSpaces(core, indent);
      UnquoteCore(name);
    }
  }

  lemma BareIndent(indent: string)
    requires indent == "" || indent == " "
    ensures indent + "" == indent && StripQuotes(StripTrail(StripLead(RemoveFirstAndLastWhite(indent)))) == ""
  {
  }

  lemma UnquoteCore(name: string)
    ensures StripQuotes("\"" + name + "\"") == name
  {
    var core := "\"" + name + "\"";
    assert core[1..] == name + "\"" && (name + "\"")[..|name|] == name;
  }

  lemma StripSpaces(core: string, indent: string)
    requires |core| >= 2 && core[0] != ' ' && core[|core| - 1] != ' ' && (indent == "" || indent == " ")
    ensures StripTrail(StripLead(indent + core + " ")) == core && StripTrail(StripLead(core)) == core
  {
    assert (" " + core + " ")[1..] == core + " ";
    assert "" + core + " " == core + " ";
    assert (core + " ")[..|core|] == core;
  }

  lemma CollapsedFront(name: string, indent: string)
    requires PlainName(name) && (indent == "" || indent == " ")
    ensures Collapsed(indent + NameText(name))
    ensures name != "" ==> indent + ("\"" + name + "\" ") == indent + ("\"" + name + "\"") + " "
  {
    if name == "" {
      assert indent + "" == indent;
    } else {
      QuotedCollapsed(name);
      CollapsedBehind(indent, "\"" + name + "\" ");
      Assoc3(indent, "\"" + name + "\"", " ");
    }
  }

  lemma Assoc3(a: string, b: string, c: string)
    ensures a + (b + c) == a + b + c
  {
  }

  lemma QuotedCollapsed(name: string)
    requires Collapsed(name)
    ensures Collapsed("\"" + name + "\" ") && "\"" + name + "\" " == "\"" + name + "\"" + " "
  {
    var core := "\"" + name + "\" ";
    forall i | 0 < i < |core| && core[i] == ' ' ensures core[i - 1] != ' ' {
      if i <= |name| {
        assert name[i - 1] == ' ';
        assert i > 1 ==> name[i - 2] != ' ';
      }
    }
  }

  lemma CollapsedBehind(indent: string, core: string)
    requires (indent == "" || indent == " ") && Collapsed(core) && core != "" && core[0] != ' '
    ensures Collapsed(indent + core)
  {
    var t := indent + core;
    forall i | 0 < i < |t| && t[i] == ' ' ensures t[i - 1] != ' ' {
      assert core[i - |indent|] == ' ';
    }
  }

  // The two angle brackets of a written address are the first ones in the text.
  lemma BracketsFound(raw: string, front: string, address: string)
    requires raw == front + "<" + address + ">"
    requires forall i :: 0 <= i < |front| ==> front[i] != '<' && front[i] != '>'
    requires PlainAddress(address)
    ensures Find(raw, '<') == |front| && Find(raw, '>') == |front| + 1 + |address|
    ensures raw[..|front|] == front && raw[|front| + 1..|front| + 1 + |address|] == address
    ensures Find(raw, '@') < |raw| && Find(raw, '.') < |raw|
  {
    hide Find;
    BracketPositions(raw, front, address);
    FindIs(raw, '<', |front|);
    FindIs(raw, '>', |front| + 1 + |address|);
    MemberFound(raw, address, |front| + 1, '@');
    MemberFound(raw, address, |front| + 1, '.');
  }

  lemma BracketPositions(raw: string, front: string, address: string)
    requires raw == front + "<" + address + ">"
    ensures forall i :: 0 <= i < |front| ==> raw[i] == front[i]
    ensures forall i :: |front| < i < |front| + 1 + |address| ==> raw[i] == address[i - |front| - 1]
    ensures raw[|front|] == '<' && raw[|front| + 1 + |address|] == '>'
    ensures raw[..|front|] == front && raw[|front| + 1..|front| + 1 + |address|] == address
  {
  }

  lemma NameTextPlain(name: string, indent: string)
    requires PlainName(name) && (indent == "" || indent == " ")
    ensures forall i :: 0 <= i < |indent + NameText(name)| ==>
              (indent + NameText(name))[i] != '<' && (indent + NameText(name))[i] != '>'
  {
  }

  lemma NoOuterSpace(address: string)
    requires PlainAddress(address)
    ensures RemoveFirstAndLastWhite(address) == address
  {
  }

  lemma AddressComesBack(a: EmailAddress, indent: string)
    requires Writable(a) && (indent == "" || indent == " ")
    ensures ParseAddress(indent + AddressText(a)) == Done(a)
  {
    hide CleanName, Find, PlainName, PlainAddress, RemoveFirstAndLastWhite, NameText;
    var front := indent + NameText(a.name);
    var raw := indent + AddressText(a);
    TextParts(a, indent);
    NameTextPlain(a.name, indent);
    BracketsFound(raw, front, a.address);
    NameComesBack(a.name, indent);
    NoOuterSpace(a.address);
  }

  lemma TextParts(a: EmailAddress, indent: string)
    ensures indent + AddressText(a) == indent + NameText(a.name) + "<" + a.address + ">"
  {
    var n := NameText(a.name);
    assert a.name == "" ==> n + "<" + a.address + ">" == "<" + a.address + ">";
    assert indent + (n + "<" + a.address + ">") == indent + n + "<" + a.address + ">";
  }

  lemma MemberFound(raw: string, part: string, at: nat, c: char)
    requires at + |part| <= |raw| && raw[at..at + |part|] == part && c in part
    ensures Find(raw, c) < |raw|
  {
    var k :| 0 <= k < |part| && part[k] == c;
    assert raw[at + k] == raw[at..at + |part|][k];
  }

  // The pieces of a list: its first address, then the pieces of the others.
  lemma FirstPiece(a: EmailAddress, indent: string, rest: string)
    requires Writable(a) && (indent == "" || indent == " ")
    ensures SplitUnquoted(indent + AddressText(a) + rest, false) ==
            [indent + AddressText(a) + SplitUnquoted(rest, false)[0]] + SplitUnquoted(rest, false)[1..]
  {
    hide SplitUnquoted, Unbroken, Writable, AddressText;
    AddressTextUnbroken(a);
    assert "" + AddressText(a) == AddressText(a);
    SplitUnbroken(indent + AddressText(a), rest, false, false);
  }

  lemma {:induction false} ListPieces(l: seq<EmailAddress>, indent: string)
    requires l != [] && (forall i :: 0 <= i < |l| ==> Writable(l[i])) && (indent == "" || indent == " ")
    ensures var pieces := SplitUnquoted(indent + AddressListToString(l), false);
            ParseAll(pieces) == Done(l) && pieces[|pieces| - 1] != ""
    decreases |l|
  {
    hide ParseAddress, Writable, AddressText, SplitUnquoted, ParseAll, AddressListToString;
    var text := indent + AddressText(l[0]);
    ListStep(l, indent);
    AddressComesBack(l[0], indent);
    AddressTextFilled(l[0]);
    ParseAllOne(text);
    assert text + "" == text;
    if |l| == 1 {
      assert l == [l[0]];
      FirstPiece(l[0], indent, "");
      SplitEnd("", false);
      assert ""[0..] == "" && [text] + [""][1..] == [text];
    } else {
      assert l == [l[0]] + l[1..];
      var others := AddressListToString(l[1..]);
      FirstPiece(l[0], indent, "," + (" " + others));
      SplitComma(others);
      ListPieces(l[1..], " ");
      var more := SplitUnquoted(" " + others, false);
      assert ([""] + more)[1..] == more;
      ParseAllAppend([text], more);
    }
  }

  lemma CommaApart(indent: string, a: string, others: string)
    ensures indent + (a + ", " + others) == indent + a + ("," + (" " + others))
  {
    assert "," + (" " + others) == ", " + others;
  }

  lemma ListStep(l: seq<EmailAddress>, indent: string)
    requires l != []
    ensures indent + AddressListToString(l) ==
            indent + AddressText(l[0]) +
            if |l| == 1 then "" else "," + (" " + AddressListToString(l[1..]))
  {
    hide AddressText;
    var a, others := AddressText(l[0]), AddressListToString(l[1..]);
    if |l| == 1 {
      assert a + "" + "" == a && indent + a + "" == indent + a;
    } else {
      CommaApart(indent, a, others);
    }
  }

  lemma AddressTextFilled(a: EmailAddress)
    ensures AddressText(a) != ""
  {
  }

  lemma SplitComma(rest: string)
    ensures SplitUnquoted("," + (" " + rest), false) == [""] + SplitUnquoted(" " + rest, false)
  {
    assert ("," + (" " + rest))[1..] == " " + rest;
  }

  lemma NoAddresses()
    ensures AddressListToString([]) == "" && ParseAll([]) == Done([])
  {
  }

  // Writing a list of addresses and parsing the text gives the list back (section 3.4
  // of RFC 5322).
  lemma AddressListRoundTrip(l: seq<EmailAddress>)
    requires forall i :: 0 <= i < |l| ==> Writable(l[i])
    ensures ParseAddressList(AddressListToString(l)) == Done(l)
  {
    hide Writable, SplitUnquoted, ParseAll, AddressListToString;
    if l == [] {
      SplitEnd("", false);
      assert [""][..0] == [] && ""[0..] == "";
      NoAddresses();
    } else {
      ListPieces(l, "");
      assert "" + AddressListToString(l) == AddressListToString(l);
    }
  }
}
