// Hexadecimal text and the quoted-printable encoder (lib/general/hex.src.cc,
// lib/general/encoding.src.cc:152-211).
module Hex {

  function Dict(n: int): char
  {
    if 0 <= n < 10 then '0' + n as char
    else if 10 <= n < 16 then 'A' + (n - 10) as char
    else '0'
  }

  function ReverseDict(c: char): int
  {
    if '0' <= c <= '9' then c as int - '0' as int
    else if 'A' <= c <= 'F' then c as int - 'A' as int + 10
    else 99
  }

  predicate IsByte(c: char)
  {
    c as int < 256
  }

  // One octet: the high half first.
  function EncodeChar(c: char): (s: string)
    ensures |s| == 2
  {
    [Dict(c as int / 16 % 16), Dict(c as int % 16)]
  }

  // A string of octets: the low half first.
  function EncodeString(raw: string): string
  {
    if raw == "" then ""
    else [Dict(raw[0] as int % 16), Dict(raw[0] as int / 16 % 16)] + EncodeString(raw[1..])
  }

  function DecodePair(high: char, low: char): char
  {
    (ReverseDict(high) % 16 * 16 + ReverseDict(low) % 16) as char
  }

  // Pairs, high half first; a character left over is dropped.
  function Decode(raw: string): string
  {
    if |raw| < 2 then "" else [DecodePair(raw[0], raw[1])] + Decode(raw[2..])
  }

  method DecodeInto(raw: string) returns (ret: string)
    ensures ret == Decode(raw)
  {
    hide Decode, DecodePair;
    ret := "";
    var buffer: seq<char> := [];
    assert raw[0..] == raw;
    for i := 0 to |raw|
      invariant |buffer| < 2 && |buffer| <= i && buffer == raw[i - |buffer|..i]
      invariant ret + Decode(raw[i - |buffer|..]) == Decode(raw)
    {
      ghost var from := i - |buffer|;
      buffer := buffer + [raw[i]];
      if |buffer| >= 2 {
        PairAt(raw, from);
        assert buffer == [raw[from], raw[from + 1]];
        assert ret + ([DecodePair(buffer[0], buffer[1])] + Decode(raw[i + 1..]))
            == ret + [DecodePair(buffer[0], buffer[1])] + Decode(raw[i + 1..]);
        ret := ret + [DecodePair(buffer[0], buffer[1])];
        buffer := [];
      }
    }
    Leftover(raw[|raw| - |buffer|..]);
    assert ret + "" == ret;
  }

  lemma PairAt(raw: string, from: nat)
    requires from + 2 <= |raw|
    ensures Decode(raw[from..]) == [DecodePair(raw[from], raw[from + 1])] + Decode(raw[from + 2..])
  {
    assert raw[from..][2..] == raw[from + 2..];
  }

  lemma Leftover(s: string)
    requires |s| < 2
    ensures Decode(s) == ""
  {
  }

  // The digits are those of section 6.7 of RFC 2045, in upper case.
  lemma DigitsAreUpperCase(n: int)
    requires 0 <= n < 16
    ensures Dict(n) == "0123456789ABCDEF"[n]
  {
    var digits := "0123456789ABCDEF";
    assert digits[0..10] == "0123456789" && digits[10..] == "ABCDEF";
    if n < 10 {
      assert digits[n] == digits[0..10][n];
    } else {
      assert digits[n] == digits[10..][n - 10];
    }
  }

  lemma CharRoundTrip(c: char)
    requires IsByte(c)
    ensures DecodePair(EncodeChar(c)[0], EncodeChar(c)[1]) == c
  {
    var n := c as int;
    assert n / 16 % 16 == n / 16;
    assert n == n / 16 * 16 + n % 16;
    NibbleRoundTrip(n / 16);
    NibbleRoundTrip(n % 16);
  }

  lemma NibbleRoundTrip(n: int)
    requires 0 <= n < 16
    ensures ReverseDict(Dict(n)) == n
  {
  }

  function Swapped(c: char): char
    requires IsByte(c)
  {
    (c as int % 16 * 16 + c as int / 16) as char
  }

  lemma {:induction false} StringSwaps(raw: string)
    requires forall k :: 0 <= k < |raw| ==> IsByte(raw[k])
    ensures |Decode(EncodeString(raw))| == |raw|
    ensures forall k :: 0 <= k < |raw| ==> Decode(EncodeString(raw))[k] == Swapped(raw[k])
  {
    if raw != "" {
      StringSwaps(raw[1..]);
      CharSwaps(raw[0]);
      var rest := EncodeString(raw[1..]);
      assert EncodeString(raw)[2..] == rest;
      assert Decode(EncodeString(raw)) == [Swapped(raw[0])] + Decode(rest);
      assert forall k :: 0 < k < |raw| ==> raw[k] == raw[1..][k - 1];
    }
  }

  lemma CharSwaps(c: char)
    requires IsByte(c)
    ensures DecodePair(Dict(c as int % 16), Dict(c as int / 16 % 16)) == Swapped(c)
  {
    var n := c as int;
    NibbleRoundTrip(n / 16);
    NibbleRoundTrip(n % 16);
    assert n / 16 % 16 == n / 16;
  }

  lemma SwappedIsSame(c: char)
    requires IsByte(c)
    ensures Swapped(c) == c <==> c as int / 16 == c as int % 16
  {
    var n := c as int;
    assert n == n / 16 * 16 + n % 16;
  }

  // Encoding a string and decoding it swaps the halves of every octet: the text comes back
  // exactly if every octet has two equal halves.
  lemma StringRoundTrip(raw: string)
    requires forall k :: 0 <= k < |raw| ==> IsByte(raw[k])
    ensures Decode(EncodeString(raw)) == raw <==> forall k :: 0 <= k < |raw| ==> raw[k] as int / 16 == raw[k] as int % 16
  {
    hide Decode, EncodeString, Swapped;
    StringSwaps(raw);
    var t := Decode(EncodeString(raw));
    forall k | 0 <= k < |raw| ensures t[k] == raw[k] <==> raw[k] as int / 16 == raw[k] as int % 16 {
      SwappedIsSame(raw[k]);
    }
  }
}

module QuotedPrintable {
  import opened Text
  import Hex
  import Mime

  predicate White(c: char)
  {
    c == ' ' || c == '\t'
  }

  predicate Literal(c: char)
  {
    33 < c as int < 126 && c != '='
  }

  function EncodeOne(c: char, end: bool): string
  {
    if Literal(c) || (White(c) && !end) then [c]
    else if White(c) then [c, '=']
    else "=" + Hex.EncodeChar(c)
  }

  function EncodeLine(line: string): string
  {
    if line == "" then "" else EncodeOne(line[0], |line| == 1) + EncodeLine(line[1..])
  }

  // The physical lines of an encoded line: at most 75 characters and a soft break.
  function Chunks(temp: string): (chunks: seq<string>)
    ensures chunks != []
    ensures forall k :: 0 <= k < |chunks| ==> |chunks[k]| <= 76
    decreases |temp|
  {
    if |temp| <= 76 then [temp] else [temp[..75] + "="] + Chunks(temp[75..])
  }

  function EncodeLines(lines: seq<string>): string
  {
    if lines == [] then ""
    else (if lines[0] == "" then "" else Mime.Unlines(Chunks(EncodeLine(lines[0])))) + EncodeLines(lines[1..])
  }

  function Encode(raw: string): string
  {
    EncodeLines(Mime.Lines(raw))
  }

  // ---------------------------------------------------------------- the encoder

  method EncodeOneLine(line: string) returns (temp: string)
    ensures temp == EncodeLine(line)
  {
    hide Hex.EncodeChar;
    temp := "";
    var end, index := false, 0;
    assert line[0..] == line;
    for i := 0 to |line|
      invariant index == i && (end ==> i == |line|)
      invariant temp + EncodeLine(line[i..]) == EncodeLine(line)
    {
      var c := line[i];
      assert line[i..][1..] == line[i + 1..];
      index := index + 1;
      if index == |line| {
        end := true;
      }
      Mime.Assoc(temp, EncodeOne(c, end), EncodeLine(line[i + 1..]));
      if Literal(c) || (White(c) && !end) {
        temp := temp + [c];
      } else if White(c) && end {
        assert temp + [c] + "=" == temp + [c, '='];
        temp := temp + [c];
        temp := temp + "=";
      } else {
        assert temp + "=" + Hex.EncodeChar(c) == temp + ("=" + Hex.EncodeChar(c));
        temp := temp + "=";
        temp := temp + Hex.EncodeChar(c);
      }
    }
    assert temp + "" == temp;
  }

  method BreakLine(temp: string) returns (res: string)
    requires temp != ""
    ensures res == Mime.Unlines(Chunks(temp))
  {
    res := "";
    var left, total := |temp|, 0;
    assert temp[0..] == temp;
    while left > 76
      invariant total + left == |temp| && left > 0
      invariant res + Mime.Unlines(Chunks(temp[total..])) == Mime.Unlines(Chunks(temp))
    {
      var substr := temp[total..total + 75];
      ChunkStep(temp, total);
      Mime.Assoc(res, substr + "=\r\n", Mime.Unlines(Chunks(temp[total + 75..])));
      left := left - |substr|;
      total := total + |substr|;
      res := res + (substr + "=\r\n");
    }
    LastChunk(temp[total..]);
    if left > 0 {
      res := res + (temp[total..] + "\r\n");
    }
  }

  lemma ChunkStep(temp: string, total: nat)
    requires total + 76 < |temp|
    ensures Mime.Unlines(Chunks(temp[total..])) ==
            temp[total..total + 75] + "=\r\n" + Mime.Unlines(Chunks(temp[total + 75..]))
  {
    var t := temp[total..];
    assert t[..75] == temp[total..total + 75] && t[75..] == temp[total + 75..];
    assert Chunks(t)[1..] == Chunks(t[75..]);
    assert t[..75] + "=" + "\r\n" == t[..75] + "=\r\n";
  }

  lemma LastChunk(t: string)
    requires |t| <= 76
    ensures Mime.Unlines(Chunks(t)) == t + "\r\n"
  {
    assert [t][1..] == [] && t + "\r\n" + "" == t + "\r\n";
  }

  method EncodeQuotedPrintable(raw: string) returns (res: string)
    ensures res == Encode(raw)
  {
    hide EncodeLine, Chunks, Mime.Unlines;
    var lines := Mime.GetMimeLines(raw);
    res := "";
    assert lines[0..] == lines;
    for i := 0 to |lines|
      invariant res + EncodeLines(lines[i..]) == EncodeLines(lines)
    {
      var line := lines[i];
      assert lines[i..][1..] == lines[i + 1..];
      if line != "" {
        var temp := EncodeOneLine(line);
        EncodedIsFilled(line);
        var broken := BreakLine(temp);
        Mime.Assoc(res, broken, EncodeLines(lines[i + 1..]));
        res := res + broken;
      } else {
        assert "" + EncodeLines(lines[i + 1..]) == EncodeLines(lines[i + 1..]);
      }
    }
    assert res + "" == res;
  }

  lemma EncodedIsFilled(line: string)
    requires line != ""
    ensures EncodeLine(line) != ""
  {
  }

  // ---------------------------------------------------------------- physical lines

  predicate ShortLines(text: string)
  {
    forall k :: 0 <= k < |Mime.Lines(text)| ==> |Mime.Lines(text)[k]| <= 76
  }

  lemma {:induction false} EncodedHasNoBreak(line: string)
    ensures '\n' !in EncodeLine(line) && '\r' !in EncodeLine(line)
  {
    if line != "" {
      EncodedHasNoBreak(line[1..]);
    }
  }

  lemma {:induction false} ChunksHaveNoBreak(temp: string)
    requires '\n' !in temp
    ensures Mime.NoNewlines(Chunks(temp))
    decreases |temp|
  {
    if |temp| > 76 {
      assert '\n' !in temp[75..] && '\n' !in temp[..75];
      ChunksHaveNoBreak(temp[75..]);
    }
  }

  function AllChunks(lines: seq<string>): seq<string>
  {
    if lines == [] then []
    else (if lines[0] == "" then [] else Chunks(EncodeLine(lines[0]))) + AllChunks(lines[1..])
  }

  lemma {:induction false} EncodedIsUnlines(lines: seq<string>)
    ensures EncodeLines(lines) == Mime.Unlines(AllChunks(lines))
    ensures Mime.NoNewlines(AllChunks(lines))
    ensures forall k :: 0 <= k < |AllChunks(lines)| ==> |AllChunks(lines)[k]| <= 76
  {
    hide EncodeLine, Mime.Unlines;
    if lines == [] {
      NoLines();
    } else {
      EncodedIsUnlines(lines[1..]);
      EncodedHasNoBreak(lines[0]);
      ChunksHaveNoBreak(EncodeLine(lines[0]));
      var first := if lines[0] == "" then [] else Chunks(EncodeLine(lines[0]));
      Mime.UnlinesAppend(first, AllChunks(lines[1..]));
      if lines[0] == "" {
        NoLines();
        assert [] + AllChunks(lines[1..]) == AllChunks(lines[1..]);
        assert "" + EncodeLines(lines[1..]) == EncodeLines(lines[1..]);
      }
    }
  }

  lemma NoLines()
    ensures Mime.Unlines([]) == "" && Mime.Lines("") == []
  {
  }

  // No physical line of the output is longer than 76 characters (section 6.7 of RFC 2045).
  lemma OutputLinesAreShort(raw: string)
    ensures ShortLines(Encode(raw))
  {
    hide Mime.Lines, Mime.Unlines, EncodeLines, AllChunks;
    var lines := Mime.Lines(raw);
    EncodedIsUnlines(lines);
    Mime.LinesOfUnlines(AllChunks(lines), "");
    NoLines();
    assert Mime.Unlines(AllChunks(lines)) + "" == Mime.Unlines(AllChunks(lines));
    assert AllChunks(lines) + [] == AllChunks(lines);
  }

  // ---------------------------------------------------------------- the alphabet

  // Printable characters, white space and line breaks.
  predicate Printable(c: char)
  {
    32 <= c as int <= 126 || c == '\t' || c == '\r' || c == '\n'
  }

  lemma EncodedIsPrintable(c: char, end: bool)
    ensures forall x :: x in EncodeOne(c, end) ==> Printable(x)
  {
    Hex.DigitsAreUpperCase(c as int / 16 % 16);
    Hex.DigitsAreUpperCase(c as int % 16);
  }

  lemma {:induction false} LineIsPrintable(line: string)
    ensures forall x :: x in EncodeLine(line) ==> Printable(x)
  {
    hide EncodeOne, Printable;
    if line != "" {
      EncodedIsPrintable(line[0], |line| == 1);
      LineIsPrintable(line[1..]);
    }
  }

  predicate AllPrintable(s: string)
  {
    forall x :: x in s ==> Printable(x)
  }

  lemma {:induction false} ChunksArePrintable(temp: string)
    requires AllPrintable(temp)
    ensures AllPrintable(Mime.Unlines(Chunks(temp)))
    decreases |temp|
  {
    if |temp| <= 76 {
      LastChunk(temp);
    } else {
      assert temp[0..] == temp && temp[0..75] == temp[..75];
      ChunkStep(temp, 0);
      ChunksArePrintable(temp[75..]);
    }
  }

  lemma {:induction false} LinesArePrintable(lines: seq<string>)
    ensures AllPrintable(EncodeLines(lines))
  {
    hide EncodeLine, Chunks, Mime.Unlines, Printable;
    if lines != [] {
      LineIsPrintable(lines[0]);
      ChunksArePrintable(EncodeLine(lines[0]));
      LinesArePrintable(lines[1..]);
    }
  }

  // Whatever octets the text has, the output has printable characters and white space only
  // (section 6.7 of RFC 2045).
  lemma OutputIsPrintable(raw: string)
    ensures AllPrintable(Encode(raw))
  {
    hide EncodeLines, Mime.Lines, AllPrintable;
    LinesArePrintable(Mime.Lines(raw));
  }

  // ---------------------------------------------------------------- decoding

  // Removing the soft breaks.
  function Unsoft(s: string): string
    decreases |s|
  {
    if s == "" then ""
    else if StartsWith(s, "=\r\n") then Unsoft(s[3..])
    else [s[0]] + Unsoft(s[1..])
  }

  // Each "=XY" stands for an octet.
  function Unescape(s: string): string
    decreases |s|
  {
    if s == "" then ""
    else if s[0] == '=' && |s| >= 3 then [Hex.DecodePair(s[1], s[2])] + Unescape(s[3..])
    else [s[0]] + Unescape(s[1..])
  }

  function Decode(s: string): string
  {
    Unescape(Unsoft(s))
  }

  predicate EndsWhite(line: string)
  {
    line != "" && White(line[|line| - 1])
  }

  // What is left of the lines: each with its line break, unless it ends in white space.
  function Kept(lines: seq<string>): string
  {
    if lines == [] then ""
    else (if lines[0] == "" then "" else lines[0] + if EndsWhite(lines[0]) then "" else "\r\n") + Kept(lines[1..])
  }

  predicate Bytes(s: string)
  {
    forall k :: 0 <= k < |s| ==> Hex.IsByte(s[k])
  }

  lemma {:induction false} UnsoftPlain(t: string, r: string)
    requires '\r' !in t && (t != "" && t[|t| - 1] == '=' ==> r == "" || r[0] != '\r')
    ensures Unsoft(t + r) == t + Unsoft(r)
  {
    hide Unsoft;
    if t == "" {
      assert t + r == r && "" + Unsoft(r) == Unsoft(r);
    } else {
      UnsoftCopies(t, r);
      UnsoftPlain(t[1..], r);
      Mime.Assoc([t[0]], t[1..], Unsoft(r));
      assert [t[0]] + t[1..] == t;
    }
  }

  lemma UnsoftCopies(t: string, r: string)
    requires t != "" && '\r' !in t && (t[|t| - 1] == '=' ==> r == "" || r[0] != '\r')
    ensures Unsoft(t + r) == [t[0]] + Unsoft(t[1..] + r)
  {
    hide Unsoft, StartsWith;
    var s := t + r;
    assert s[1..] == t[1..] + r;
    assert s[0] == t[0] && (|s| > 1 ==> s[1] == if |t| > 1 then t[1] else r[0]);
    NoBreakThere(s);
    UnsoftStep(s);
  }

  lemma NoBreakThere(s: string)
    requires |s| > 1 ==> s[0] != '=' || s[1] != '\r'
    ensures !StartsWith(s, "=\r\n")
  {
    if |s| >= 3 {
      assert s[..3][0] == s[0] && s[..3][1] == s[1];
    }
  }

  lemma UnsoftStep(s: string)
    requires s != "" && !StartsWith(s, "=\r\n")
    ensures Unsoft(s) == [s[0]] + Unsoft(s[1..])
  {
    hide StartsWith;
  }

  lemma UnsoftBreak(r: string)
    ensures Unsoft("=\r\n" + r) == Unsoft(r) && Unsoft("\r\n" + r) == "\r\n" + Unsoft(r)
  {
    var s := "=\r\n" + r;
    assert s[..3] == "=\r\n" && s[3..] == r;
    var u := "\r\n" + r;
    assert u[1..] == "\n" + r && ("\n" + r)[1..] == r;
    assert "\r" + ("\n" + Unsoft(r)) == "\r\n" + Unsoft(r);
    assert Unsoft("\n" + r) == "\n" + Unsoft(r);
  }

  // How the last physical line of a line reads.
  lemma UnsoftLast(t: string, r: string)
    requires '\r' !in t && t != "" && (|t| > 1 && t[|t| - 1] == '=' ==> t[|t| - 2] != '=')
    ensures Unsoft(t + "\r\n" + r) ==
            (if t[|t| - 1] == '=' then t[..|t| - 1] else t + "\r\n") + Unsoft(r)
  {
    hide Unsoft;
    UnsoftBreak(r);
    if t[|t| - 1] == '=' {
      var head := t[..|t| - 1];
      assert t == head + "=" && t + "\r\n" + r == head + ("=\r\n" + r);
      assert head != "" ==> head[|head| - 1] == t[|t| - 2];
      UnsoftPlain(head, "=\r\n" + r);
    } else {
      assert t + "\r\n" + r == t + ("\r\n" + r);
      UnsoftPlain(t, "\r\n" + r);
      Mime.Assoc(t, "\r\n", Unsoft(r));
    }
  }

  lemma UnsoftFirst(head: string, rest: string)
    requires '\r' !in head
    ensures Unsoft(head + "=\r\n" + rest) == head + Unsoft(rest)
  {
    hide Unsoft;
    assert head + "=\r\n" + rest == head + ("=\r\n" + rest);
    UnsoftPlain(head, "=\r\n" + rest);
    UnsoftBreak(rest);
  }

  // The soft breaks of one line vanish; a trailing '=' takes the line break with it.
  lemma {:induction false} UnsoftChunks(t: string, r: string)
    requires '\r' !in t && t != "" && (|t| > 1 && t[|t| - 1] == '=' ==> t[|t| - 2] != '=')
    ensures Unsoft(Mime.Unlines(Chunks(t)) + r) ==
            (if t[|t| - 1] == '=' then t[..|t| - 1] else t + "\r\n") + Unsoft(r)
    decreases |t|
  {
    hide Unsoft, Mime.Unlines, Chunks;
    if |t| <= 76 {
      LastChunk(t);
      UnsoftLast(t, r);
    } else {
      var head, tail := t[..75], t[75..];
      ChunkStep(t, 0);
      assert t[0..] == t && t[0..75] == head;
      Mime.Assoc(head + "=\r\n", Mime.Unlines(Chunks(tail)), r);
      UnsoftFirst(head, Mime.Unlines(Chunks(tail)) + r);
      assert tail[|tail| - 1] == t[|t| - 1] && tail[|tail| - 2] == t[|t| - 2];
      UnsoftChunks(tail, r);
      Glue(t, r);
    }
  }

  lemma Glue(t: string, r: string)
    requires |t| > 76
    ensures var head, tail := t[..75], t[75..];
            && head + (tail[..|tail| - 1] + Unsoft(r)) == t[..|t| - 1] + Unsoft(r)
            && head + (tail + "\r\n" + Unsoft(r)) == t + "\r\n" + Unsoft(r)
  {
    hide Unsoft;
    var head, tail := t[..75], t[75..];
    assert head + tail == t && head + tail[..|tail| - 1] == t[..|t| - 1];
    Mime.Assoc(head, tail[..|tail| - 1], Unsoft(r));
    Mime.Assoc(head, tail + "\r\n", Unsoft(r));
    assert head + (tail + "\r\n") == t + "\r\n";
  }

  // ---------------------------------------------------------------- round trip

  lemma UnescapeOne(c: char, end: bool, rest: string)
    requires Hex.IsByte(c) && !(White(c) && end)
    ensures Unescape(EncodeOne(c, end) + rest) == [c] + Unescape(rest)
  {
    var s := EncodeOne(c, end) + rest;
    if Literal(c) || White(c) {
      assert s[1..] == rest;
    } else {
      Hex.CharRoundTrip(c);
      assert s[3..] == rest;
    }
  }

  // The text of an encoded line, without the '=' behind a trailing space.
  function Plain(line: string): string
  {
    var t := EncodeLine(line);
    if EndsWhite(line) && t != "" then t[..|t| - 1] else t
  }

  lemma EncodeStep(line: string)
    requires |line| > 1
    ensures EncodeLine(line) == EncodeOne(line[0], false) + EncodeLine(line[1..])
    ensures EndsWhite(line) == EndsWhite(line[1..])
  {
    hide EncodeOne;
    assert line[1..][|line| - 2] == line[|line| - 1];
  }

  lemma DropLast(a: string, b: string)
    requires b != ""
    ensures (a + b)[..|a + b| - 1] == a + b[..|b| - 1]
  {
  }

  lemma PlainStep(line: string)
    requires |line| > 1
    ensures Plain(line) == EncodeOne(line[0], false) + Plain(line[1..])
  {
    hide EncodeOne, EncodeLine, EndsWhite;
    EncodeStep(line);
    EncodedIsFilled(line[1..]);
    DropLast(EncodeOne(line[0], false), EncodeLine(line[1..]));
  }

  lemma {:induction false} UnescapeLine(line: string, rest: string)
    requires Bytes(line)
    ensures Unescape(Plain(line) + rest) == line + Unescape(rest)
  {
    hide EncodeOne, Unescape, Plain;
    if line == "" {
      PlainNothing();
      assert "" + rest == rest && "" + Unescape(rest) == Unescape(rest);
    } else if |line| == 1 {
      assert line == [line[0]];
      PlainSingle(line);
      if White(line[0]) {
        UnescapeOne(line[0], false, rest);
        WhiteIsPlain(line[0]);
        assert line == [line[0]];
      } else {
        UnescapeOne(line[0], true, rest);
      }
    } else {
      PlainStep(line);
      UnescapeLine(line[1..], rest);
      Mime.Assoc(EncodeOne(line[0], false), Plain(line[1..]), rest);
      UnescapeOne(line[0], false, Plain(line[1..]) + rest);
      Mime.Assoc([line[0]], line[1..], Unescape(rest));
      assert [line[0]] + line[1..] == line;
    }
  }

  lemma PlainNothing()
    ensures Plain("") == ""
  {
  }

  lemma WhiteIsPlain(c: char)
    requires White(c)
    ensures EncodeOne(c, false) == [c]
  {
  }

  lemma PlainSingle(line: string)
    requires |line| == 1
    ensures Plain(line) == if White(line[0]) then line else EncodeOne(line[0], true)
  {
    var c := line[0];
    assert line == [c] && line[1..] == "";
    assert EncodeLine(line[1..]) == "";
    assert EncodeOne(c, true) + "" == EncodeOne(c, true);
    assert EncodeLine(line) == EncodeOne(c, true);
    if White(c) {
      assert [c, '='][..1] == [c];
    }
  }

  lemma {:induction false} EncodedEnd(line: string)
    requires line != ""
    ensures var t := EncodeLine(line);
            && t != "" && (t[|t| - 1] == '=' <==> EndsWhite(line))
            && (|t| > 1 && t[|t| - 1] == '=' ==> t[|t| - 2] != '=')
  {
    if |line| == 1 {
      var c := line[0];
      assert line[1..] == "" && EncodeOne(c, true) + "" == EncodeOne(c, true);
      HexIsNoSign(c);
    } else {
      EncodeStep(line);
      EncodedEnd(line[1..]);
      var one, t := EncodeOne(line[0], false), EncodeLine(line[1..]);
      assert (one + t)[|one + t| - 1] == t[|t| - 1];
      if |t| > 1 {
        assert (one + t)[|one + t| - 2] == t[|t| - 2];
      } else {
        LoneIsNotSign(line[1..]);
      }
    }
  }

  // An encoded line of one character does not end in '='.
  lemma LoneIsNotSign(line: string)
    requires line != "" && |EncodeLine(line)| == 1
    ensures EncodeLine(line)[0] != '='
  {
    assert |line| > 1 ==> EncodeLine(line[1..]) != "";
  }

  lemma HexIsNoSign(c: char)
    ensures Hex.EncodeChar(c)[0] != '=' && Hex.EncodeChar(c)[1] != '='
  {
  }

  // One encoded line, decoded with whatever follows.
  lemma DecodeLine(line: string, rest: string)
    requires line != "" && Bytes(line)
    ensures Decode(Mime.Unlines(Chunks(EncodeLine(line))) + rest) ==
            line + (if EndsWhite(line) then "" else "\r\n") + Decode(rest)
  {
    hide EncodeLine, Unsoft, Unescape, Chunks, Mime.Unlines;
    var t := EncodeLine(line);
    EncodedHasNoBreak(line);
    EncodedEnd(line);
    UnsoftChunks(t, rest);
    if EndsWhite(line) {
      UnescapeLine(line, Unsoft(rest));
      assert line + "" == line;
    } else {
      assert t + "\r\n" + Unsoft(rest) == t + ("\r\n" + Unsoft(rest));
      UnescapeLine(line, "\r\n" + Unsoft(rest));
      UnescapeBreak(Unsoft(rest));
      Mime.Assoc(line, "\r\n", Unescape(Unsoft(rest)));
    }
  }

  lemma UnescapeBreak(r: string)
    ensures Unescape("\r\n" + r) == "\r\n" + Unescape(r)
  {
    assert ("\r\n" + r)[1..] == "\n" + r && ("\n" + r)[1..] == r;
    assert Unescape("\n" + r) == "\n" + Unescape(r);
    assert "\r" + ("\n" + Unescape(r)) == "\r\n" + Unescape(r);
  }

  lemma {:induction false} DecodeLines(lines: seq<string>)
    requires forall k :: 0 <= k < |lines| ==> Bytes(lines[k])
    ensures Decode(EncodeLines(lines)) == Kept(lines)
  {
    hide Decode, Mime.Unlines, Chunks, EncodeLine;
    if lines == [] {
      DecodeNothing();
    } else {
      DecodeLines(lines[1..]);
      if lines[0] != "" {
        DecodeLine(lines[0], EncodeLines(lines[1..]));
      } else {
        assert "" + EncodeLines(lines[1..]) == EncodeLines(lines[1..]) && "" + Kept(lines[1..]) == Kept(lines[1..]);
      }
    }
  }

  lemma DecodeNothing()
    ensures Decode("") == ""
  {
  }

  lemma {:induction false} LinesAreBytes(raw: string)
    requires Bytes(raw)
    ensures forall k :: 0 <= k < |Mime.Lines(raw)| ==> Bytes(Mime.Lines(raw)[k])
    decreases |raw|
  {
    if raw != "" {
      var i := Find(raw, '\n');
      if i < |raw| {
        LinesAreBytes(raw[i + 1..]);
      }
    }
  }

  function Filled(lines: seq<string>): seq<string>
  {
    if lines == [] then [] else (if lines[0] == "" then [] else [lines[0]]) + Filled(lines[1..])
  }

  function WhiteEnds(lines: seq<string>): nat
  {
    if lines == [] then 0 else (if EndsWhite(lines[0]) then 1 else 0) + WhiteEnds(lines[1..])
  }

  lemma {:induction false} KeptLength(lines: seq<string>)
    ensures |Kept(lines)| + 2 * WhiteEnds(lines) == |Mime.Unlines(Filled(lines))|
    ensures WhiteEnds(lines) == 0 ==> Kept(lines) == Mime.Unlines(Filled(lines))
    ensures WhiteEnds(lines) == 0 <==> forall k :: 0 <= k < |lines| ==> !EndsWhite(lines[k])
  {
    hide EndsWhite;
    if lines == [] {
      NoLines();
    } else {
      KeptLength(lines[1..]);
      assert forall k :: 0 < k < |lines| ==> lines[k] == lines[1..][k - 1];
      assert forall k :: 0 <= k < |lines| - 1 ==> lines[1..][k] == lines[k + 1];
      var rest := Filled(lines[1..]);
      if lines[0] == "" {
        EmptyIsNotWhite();
        assert [] + rest == rest && "" + Kept(lines[1..]) == Kept(lines[1..]);
      } else {
        assert ([lines[0]] + rest)[1..] == rest;
      }
    }
  }

  lemma EmptyIsNotWhite()
    ensures !EndsWhite("")
  {
  }

  // Decoding what was encoded gives the non-empty lines, each ended by CRLF, exactly if no
  // line ends in white space; the soft break behind trailing white space swallows the end
  // of the line.
  lemma QuotedPrintableRoundTrip(raw: string)
    requires Bytes(raw)
    ensures Decode(Encode(raw)) == Kept(Mime.Lines(raw))
    ensures Decode(Encode(raw)) == Mime.Unlines(Filled(Mime.Lines(raw)))
            <==> forall k :: 0 <= k < |Mime.Lines(raw)| ==> !EndsWhite(Mime.Lines(raw)[k])
  {
    hide Decode, EncodeLines, Mime.Lines, Mime.Unlines, Kept, Filled, WhiteEnds, EndsWhite, Bytes;
    var lines := Mime.Lines(raw);
    LinesAreBytes(raw);
    DecodeLines(lines);
    KeptLength(lines);
  }
}
