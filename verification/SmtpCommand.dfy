// The commands of the mail protocol as text: `ClientCommand` (lib/smtp/Command.src.cc).
// One side builds the line, the other side parses it.
module SmtpCommand {
  import opened Text
  import opened Addresses
  import Mime

  datatype CommandType =
    Helo | Ehlo | StartTls | MailFrom | RcptTo | Data | Quit | Unknown | Auth | Help | Su | Fcapa

  datatype Command = Command(kind: CommandType, args: seq<string>)

  function Name(kind: CommandType): string
  {
    match kind
    case Helo => "HELO"
    case Ehlo => "EHLO"
    case StartTls => "STARTTLS"
    case MailFrom => "MAIL FROM"
    case RcptTo => "RCPT TO"
    case Data => "DATA"
    case Quit => "QUIT"
    case Unknown => ""
    case Auth => "AUTH"
    case Help => "HELP"
    case Su => "SU"
    case Fcapa => "FCAPA"
  }

  predicate HasColon(kind: CommandType)
  {
    kind == MailFrom || kind == RcptTo
  }

  // ---------------------------------------------------------------- building

  function ArgText(args: seq<string>): string
  {
    if args == [] then "" else " " + args[0] + ArgText(args[1..])
  }

  function Head(kind: CommandType): string
  {
    Name(kind) + if HasColon(kind) then ":" else ""
  }

  // The command without its line end.
  function Line(c: Command): string
  {
    Head(c.kind) + ArgText(c.args)
  }

  function CommandText(c: Command): string
  {
    Line(c) + "\r\n"
  }

  // ---------------------------------------------------------------- parsing

  function KindOf(word: string): (kind: CommandType)
    ensures kind != Unknown ==> word == ToLower(Name(kind))
  {
    if word == "helo" then Helo
    else if word == "help" then Help
    else if word == "ehlo" then Ehlo
    else if word == "starttls" then StartTls
    else if word == "su" then Su
    else if word == "mail from" then MailFrom
    else if word == "rcpt to" then RcptTo
    else if word == "data" then Data
    else if word == "quit" then Quit
    else if word == "auth" then Auth
    else if word == "fcapa" then Fcapa
    else Unknown
  }

  // The pieces `getline` reads: a delimiter at the very end opens no further piece.
  function GetLines(s: string): seq<string>
  {
    var parts := Split(s, ' ');
    if parts[|parts| - 1] == "" then parts[..|parts| - 1] else parts
  }

  function ParseArgs(raw: string): seq<string>
  {
    GetLines(ReduceWhitespace(raw))
  }

  // Where the command word ends: at the first ':', else at the first ' '.
  function WordEnd(raw: string): (i: nat)
    ensures i <= |raw|
  {
    if ':' in raw then Find(raw, ':') else Find(raw, ' ')
  }

  function Parse(raw: string): Command
  {
    var i := WordEnd(raw);
    Command(KindOf(ToLower(raw[..i])), if i == |raw| then [] else ParseArgs(raw[i + 1..]))
  }

  // What `readToDelim("\r\n")` hands over of a written text.
  function Received(text: string): string
  {
    text[..FindString(text, "\r\n").GetOr(|text|)]
  }

  // The fields of the original, filled by the constructors.
  class ClientCommand {
    var c_CommandType: CommandType
    var c_Arguments: seq<string>

    function Contents(): Command
      reads this
    {
      Command(c_CommandType, c_Arguments)
    }

    constructor (kind: CommandType, args: seq<string>)
      ensures Contents() == Command(kind, args)
    {
      c_CommandType, c_Arguments := kind, args;
    }

    constructor Parsed(raw: string)
      ensures Contents() == Parse(raw)
    {
      c_CommandType, c_Arguments := Unknown, [];
      new;
      hide Find, ToLower, ReduceWhitespace, Split, KindOf, GetLines;
      var i := WordEnd(raw);
      c_CommandType := KindOf(ToLower(raw[..i]));
      if i == |raw| {
        return;
      }
      var ret := ReduceWhite(raw[i + 1..]);
      if ret != "" {
        ReadArguments(ret);
      } else {
        NothingToRead();
      }
    }

    method ReadArguments(stream: string)
      requires stream != "" && c_Arguments == []
      modifies this`c_Arguments
      ensures c_Arguments == GetLines(stream)
    {
      hide Split;
      var pos := 0;
      assert stream[0..] == stream;
      assert Split(stream, ' ') == [] + Split(stream, ' ');
      while pos < |stream|
        invariant pos <= |stream|
        invariant pos < |stream| ==> Split(stream, ' ') == c_Arguments + Split(stream[pos..], ' ')
        invariant pos == |stream| ==> GetLines(stream) == c_Arguments
        decreases |stream| - pos
      {
        var at := pos + Find(stream[pos..], ' ');
        SplitOnce(stream, pos, at);
        var arg := stream[pos..at];
        if at == |stream| {
          assert arg == stream[pos..];
          LastPiece(stream, c_Arguments, arg);
          c_Arguments := c_Arguments + [arg];
          pos := at;
        } else {
          Mime.Assoc(c_Arguments, [arg], Split(stream[at + 1..], ' '));
          c_Arguments := c_Arguments + [arg];
          pos := at + 1;
          if pos == |stream| {
            DelimiterLast(stream, c_Arguments);
          }
        }
      }
    }

    method Build() returns (text: string)
      ensures text == CommandText(Contents())
    {
      hide Name;
      text := Name(c_CommandType);
      if HasColon(c_CommandType) {
        text := text + ":";
      } else {
        assert text + "" == text;
      }
      assert c_Arguments[0..] == c_Arguments;
      for i := 0 to |c_Arguments|
        invariant text + ArgText(c_Arguments[i..]) == Line(Contents())
      {
        assert c_Arguments[i..][1..] == c_Arguments[i + 1..];
        Mime.Assoc(text, " " + c_Arguments[i], ArgText(c_Arguments[i + 1..]));
        text := text + (" " + c_Arguments[i]);
      }
      assert text + "" == text;
      text := text + "\r\n";
    }
  }

  lemma NothingToRead()
    ensures GetLines("") == []
  {
    assert [""][..0] == [];
  }

  lemma SplitOnce(s: string, pos: nat, at: nat)
    requires pos < |s| && at == pos + Find(s[pos..], ' ')
    ensures pos <= at <= |s|
    ensures Split(s[pos..], ' ') == if at == |s| then [s[pos..]] else [s[pos..at]] + Split(s[at + 1..], ' ')
  {
    if at < |s| {
      assert s[pos..][..at - pos] == s[pos..at];
      assert s[pos..][at - pos + 1..] == s[at + 1..];
    }
  }

  lemma LastPiece(s: string, done: seq<string>, piece: string)
    requires Split(s, ' ') == done + [piece] && piece != ""
    ensures GetLines(s) == done + [piece]
  {
    hide Split;
    var parts := Split(s, ' ');
    assert parts[|parts| - 1] == piece;
  }

  lemma DelimiterLast(s: string, done: seq<string>)
    requires Split(s, ' ') == done + Split(s[|s|..], ' ')
    ensures GetLines(s) == done
  {
    hide Split;
    SplitNothing();
    assert s[|s|..] == "";
    var parts := Split(s, ' ');
    assert parts == done + [""];
    assert parts[|parts| - 1] == "" && parts[..|parts| - 1] == done;
  }

  lemma SplitNothing()
    ensures Split("", ' ') == [""]
  {
  }

  // ---------------------------------------------------------------- round trip

  // Arguments that come back: words, of which none holds the ':' that would end the
  // command word early. A colon command also carries the one empty argument.
  predicate Sendable(c: Command)
  {
    && c.kind != Unknown
    && ((forall a :: a in c.args ==> a != "" && ' ' !in a && (HasColon(c.kind) || ':' !in a))
        || (HasColon(c.kind) && c.args == [""]))
  }

  predicate Unbreakable(args: seq<string>)
  {
    forall a :: a in args ==> '\n' !in a
  }

  lemma {:induction false} ArgTextIsJoin(args: seq<string>)
    ensures args != [] ==> ArgText(args) == " " + Join(args, " ")
  {
    if args != [] {
      ArgTextIsJoin(args[1..]);
      if |args| == 1 {
        assert args[1..] == [] && " " + args[0] + "" == " " + args[0];
      } else {
        assert " " + args[0] + (" " + Join(args[1..], " ")) == " " + (args[0] + " " + Join(args[1..], " "));
      }
    }
  }

  predicate Words(args: seq<string>)
  {
    forall a :: a in args ==> a != "" && ' ' !in a
  }

  lemma {:induction false} JoinedWords(args: seq<string>)
    requires args != [] && Words(args)
    ensures var s := Join(args, " ");
            Collapsed(s) && s != "" && s[0] != ' ' && s[|s| - 1] != ' '
  {
    var s := Join(args, " ");
    var a := args[0];
    assert a in args;
    if |args| > 1 {
      var rest := Join(args[1..], " ");
      assert forall b :: b in args[1..] ==> b in args;
      JoinedWords(args[1..]);
      CollapsedGlue(a, rest);
    }
  }

  lemma CollapsedGlue(a: string, rest: string)
    requires ' ' !in a && a != "" && Collapsed(rest) && rest != "" && rest[0] != ' '
    ensures Collapsed(a + " " + rest)
  {
    var s := a + " " + rest;
    forall i | 0 < i < |s| && s[i] == ' ' ensures s[i - 1] != ' ' {
      if i > |a| + 1 {
        assert rest[i - |a| - 1] == ' ';
      }
    }
  }

  // Words written with single spaces parse to themselves, with or without a space in front.
  lemma WordsParse(args: seq<string>)
    requires Words(args) && args != []
    ensures ParseArgs(Join(args, " ")) == args && ParseArgs(" " + Join(args, " ")) == args
  {
    hide Split, Collapse;
    var s := Join(args, " ");
    JoinedWords(args);
    CollapsedIsFixed(s, false);
    CollapsedGlueFront(s);
    CollapsedIsFixed(" " + s, false);
    assert (" " + s)[1..] == s;
    assert forall p :: p in args ==> ' ' !in p;
    SplitJoin(args, ' ');
    assert args[|args| - 1] in args;
  }

  lemma CollapsedGlueFront(s: string)
    requires Collapsed(s) && s != "" && s[0] != ' '
    ensures Collapsed(" " + s)
  {
    var t := " " + s;
    forall i | 0 < i < |t| && t[i] == ' ' ensures t[i - 1] != ' ' {
      assert s[i - 1] == ' ';
    }
  }

  lemma EmptyParse()
    ensures ParseArgs("") == [] && ParseArgs(" ") == [""]
  {
    assert Collapse("", false) == "" && " "[1..] == "";
    assert Collapse(" ", false) == " " + Collapse("", true);
    assert Collapse(" ", false) == " ";
    NothingToRead();
    assert Find(" ", ' ') == 0 && " "[..0] == "";
    SplitNothing();
    assert Split(" ", ' ') == ["", ""];
    assert ["", ""][..1] == [""];
  }

  // Whatever the parser reads are words, or the one empty argument of a lone space.
  lemma ParsedAreWords(raw: string)
    ensures Words(ParseArgs(raw)) || ParseArgs(raw) == [""]
    ensures ParseArgs(raw) == [""] ==> raw != "" && forall i :: 0 <= i < |raw| ==> raw[i] == ' '
  {
    hide Split, Collapse, Find;
    var c := Collapse(raw, false);
    var s := ReduceWhitespace(raw);
    if c == " " {
      OnlySpaces(raw, false);
      EmptyParse();
      CollapsedIsFixed(" ", false);
    } else if s == "" {
      NothingToRead();
    } else {
      StrippedEnds(c);
      CollapsedPieces(s);
    }
  }

  lemma {:induction false} OnlySpaces(raw: string, lww: bool)
    requires Collapse(raw, lww) == " " || Collapse(raw, lww) == ""
    ensures forall i :: 0 <= i < |raw| ==> raw[i] == ' '
    ensures Collapse(raw, lww) != "" ==> raw != ""
  {
    if raw != "" {
      var t := Collapse(raw[1..], raw[0] == ' ');
      assert raw[0] == ' ' || Collapse(raw, lww) == [raw[0]] + t;
      OnlySpacesTail(raw, lww);
      OnlySpaces(raw[1..], raw[0] == ' ');
      assert forall i :: 0 < i < |raw| ==> raw[i] == raw[1..][i - 1];
    }
  }

  lemma OnlySpacesTail(raw: string, lww: bool)
    requires raw != "" && (Collapse(raw, lww) == " " || Collapse(raw, lww) == "")
    ensures raw[0] == ' '
    ensures Collapse(raw[1..], true) == " " || Collapse(raw[1..], true) == ""
  {
    var kept := [raw[0]] + Collapse(raw[1..], false);
    assert kept[0] == raw[0];
    if raw[0] == ' ' && !lww {
      assert Collapse(raw, lww)[1..] == Collapse(raw[1..], true);
    }
  }

  // Outer trimming of a collapsed text of two characters or more.
  lemma StrippedEnds(c: string)
    requires Collapsed(c) && c != " " && c != ""
    ensures var s := RemoveFirstAndLastWhite(c);
            Collapsed(s) && (s != "" ==> s[0] != ' ' && s[|s| - 1] != ' ')
  {
    var t := StripLead(c);
    StrippedLead(c);
    StrippedTrail(t);
  }

  lemma StrippedLead(c: string)
    requires Collapsed(c)
    ensures Collapsed(StripLead(c)) && (StripLead(c) != "" ==> StripLead(c)[0] != ' ')
  {
    if c != "" && c[0] == ' ' {
      var t := c[1..];
      assert forall i :: 0 <= i < |t| ==> t[i] == c[i + 1];
      assert t != "" ==> c[1] != ' ';
    }
  }

  lemma StrippedTrail(t: string)
    requires Collapsed(t) && (t != "" ==> t[0] != ' ')
    ensures var s := StripTrail(t);
            Collapsed(s) && (s != "" ==> s[0] != ' ' && s[|s| - 1] != ' ')
  {
    if t != "" && t[|t| - 1] == ' ' {
      assert t[|t| - 2] != ' ';
    }
  }

  lemma CollapsedPieces(s: string)
    requires Collapsed(s) && s != "" && s[0] != ' ' && s[|s| - 1] != ' '
    ensures Words(GetLines(s)) && GetLines(s) != [""]
  {
    hide Split;
    FilledPieces(s);
    var parts := Split(s, ' ');
    assert parts[|parts| - 1] in parts;
  }

  lemma {:induction false} FilledPieces(s: string)
    requires Collapsed(s) && s != "" && s[0] != ' ' && s[|s| - 1] != ' '
    ensures Words(Split(s, ' '))
    decreases |s|
  {
    var i := Find(s, ' ');
    if i < |s| {
      var t := s[i + 1..];
      assert s[i] == ' ' && i < |s| - 1;
      assert i + 1 < |s| && s[i + 1] != ' ';
      assert t[0] == s[i + 1];
      assert forall k :: 0 <= k < |t| ==> t[k] == s[k + i + 1];
      FilledPieces(t);
      assert ' ' !in s[..i];
    }
  }

  // ---------------------------------------------------------------- theorem

  lemma KindOfName(kind: CommandType)
    requires kind != Unknown
    ensures KindOf(ToLower(Name(kind))) == kind
  {
    LowerNames();
  }

  lemma LowerNames()
    ensures ToLower("HELO") == "helo" && ToLower("EHLO") == "ehlo" && ToLower("STARTTLS") == "starttls"
    ensures ToLower("MAIL FROM") == "mail from" && ToLower("RCPT TO") == "rcpt to" && ToLower("DATA") == "data"
    ensures ToLower("QUIT") == "quit" && ToLower("AUTH") == "auth" && ToLower("HELP") == "help"
    ensures ToLower("SU") == "su" && ToLower("FCAPA") == "fcapa"
  {
  }

  lemma NamesArePlain(kind: CommandType)
    ensures forall i :: 0 <= i < |Name(kind)| ==> Name(kind)[i] != ':' && (HasColon(kind) || Name(kind)[i] != ' ')
  {
  }

  lemma ArgTextColon(args: seq<string>)
    ensures ':' in ArgText(args) <==> exists a :: a in args && ':' in a
  {
    if args != [] {
      ArgTextColon(args[1..]);
      assert args == [args[0]] + args[1..];
    }
  }

  // The word of a command whose line holds no early ':' ends where its head ends.
  lemma WordIsName(c: Command)
    requires HasColon(c.kind) || ':' !in ArgText(c.args)
    ensures WordEnd(Line(c)) == |Name(c.kind)| && Line(c)[..|Name(c.kind)|] == Name(c.kind)
    ensures WordEnd(Line(c)) < |Line(c)| <==> HasColon(c.kind) || c.args != []
    ensures HasColon(c.kind) ==> Line(c)[|Name(c.kind)| + 1..] == ArgText(c.args)
    ensures !HasColon(c.kind) && c.args != [] ==> " " + Line(c)[|Name(c.kind)| + 1..] == ArgText(c.args)
  {
    hide Find, Name;
    var s, n := Line(c), |Name(c.kind)|;
    NamesArePlain(c.kind);
    assert forall i :: 0 <= i < n ==> s[i] == Name(c.kind)[i];
    if HasColon(c.kind) {
      assert s[n] == ':';
      FindIs(s, ':', n);
    } else {
      assert Name(c.kind) + "" == Name(c.kind);
      assert ':' !in s;
      assert c.args != [] ==> ArgText(c.args)[0] == ' ';
      FindIs(s, ' ', n);
    }
  }

  // A ':' in an argument ends the command word too late for any command to be known.
  lemma EarlyColon(c: Command)
    requires !HasColon(c.kind) && ':' in ArgText(c.args) && c.kind != Unknown
    ensures Parse(Line(c)).kind != c.kind
  {
    hide Find, Name, KindOf;
    var s, n := Line(c), |Name(c.kind)|;
    NamesArePlain(c.kind);
    assert Name(c.kind) + "" == Name(c.kind);
    assert forall i :: 0 <= i < n ==> s[i] == Name(c.kind)[i];
    var k :| 0 <= k < |ArgText(c.args)| && ArgText(c.args)[k] == ':';
    assert s[n + k] == ':';
    var i := WordEnd(s);
    assert i > n by {
      assert ArgText(c.args)[0] == ' ' && s[n] == ' ';
    }
    assert |ToLower(s[..i])| != |ToLower(Name(c.kind))|;
  }

  lemma ArgsComeBack(c: Command)
    requires HasColon(c.kind) || ':' !in ArgText(c.args)
    ensures c.args == [] ==> Parse(Line(c)).args == []
    ensures HasColon(c.kind) && c.args != [] ==> Parse(Line(c)).args == ParseArgs(" " + Join(c.args, " "))
    ensures !HasColon(c.kind) && c.args != [] ==> Parse(Line(c)).args == ParseArgs(Join(c.args, " "))
  {
    hide WordEnd, ParseArgs, Line, Join, ArgText, KindOf, ToLower;
    WordIsName(c);
    EmptyParse();
    ArgTextIsJoin(c.args);
    if c.args == [] {
      NoArgText();
    } else if !HasColon(c.kind) {
      CancelSpace(Line(c)[|Name(c.kind)| + 1..], Join(c.args, " "));
    }
  }

  lemma NoArgText()
    ensures ArgText([]) == ""
  {
  }

  lemma CancelSpace(a: string, b: string)
    requires " " + a == " " + b
    ensures a == b
  {
    assert (" " + a)[1..] == a && (" " + b)[1..] == b;
  }

  // A command comes back from its own line exactly when it is sendable.
  lemma LineRoundTrip(c: Command)
    requires c.kind != Unknown
    ensures Parse(Line(c)) == c <==> Sendable(c)
  {
    hide WordEnd, ParseArgs, Line, ArgText, KindOf, ToLower, Join, Name;
    ArgTextColon(c.args);
    if !HasColon(c.kind) && ':' in ArgText(c.args) {
      EarlyColon(c);
    } else {
      WordIsName(c);
      KindOfName(c.kind);
      ArgsComeBack(c);
      EmptyParse();
      if c.args == [""] {
        LoneEmpty();
      } else if c.args != [] {
        if Words(c.args) {
          WordsParse(c.args);
        } else {
          ParsedAreWords(" " + Join(c.args, " "));
          ParsedAreWords(Join(c.args, " "));
        }
      }
    }
  }

  lemma LoneEmpty()
    ensures Join([""], " ") == "" && " " + Join([""], " ") == " "
  {
  }

  lemma {:induction false} ArgTextUnbroken(args: seq<string>)
    requires Unbreakable(args)
    ensures '\n' !in ArgText(args)
  {
    if args != [] {
      assert args[0] in args;
      assert forall a :: a in args[1..] ==> a in args;
      ArgTextUnbroken(args[1..]);
    }
  }

  lemma WholeLineReceived(c: Command)
    requires Unbreakable(c.args)
    ensures Received(CommandText(c)) == Line(c)
  {
    hide FindString, ArgText, Name;
    var text, n := CommandText(c), |Line(c)|;
    ArgTextUnbroken(c.args);
    NamesUnbroken(c.kind);
    assert '\n' !in Line(c);
    assert text[n..] == "\r\n" && StartsWith(text[n..], "\r\n");
    FindStringFirst(text, "\r\n", n);
    var i := FindString(text, "\r\n").value;
    assert text[i..][..2] == "\r\n" && text[i + 1] == text[i..][1];
    assert text[..n] == Line(c);
  }

  lemma NamesUnbroken(kind: CommandType)
    ensures '\n' !in Head(kind)
  {
  }

  // Over the wire: the peer parses exactly the command that was built if and only if
  // the command is sendable (section 4.1.1 of RFC 5321).
  lemma CommandRoundTrip(c: Command)
    requires c.kind != Unknown && Unbreakable(c.args)
    ensures Parse(Received(CommandText(c))) == c <==> Sendable(c)
  {
    WholeLineReceived(c);
    LineRoundTrip(c);
  }
}
