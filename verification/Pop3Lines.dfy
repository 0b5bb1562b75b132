// The POP3 server over the lines of its client: how a line is read, which lines mark a mail,
// who is let in, and what is deleted (lib/pop3/P3Commands.src.cc, lib/pop3/P3Server.src.cc).
module Pop3Lines {
  import opened Text
  import opened TextWords
  import opened Addresses
  import opened Decimal
  import SmtpCommand
  import opened MailStore
  import opened Pop3

  // ---------------------------------------------------------------- one line

  // The words of the protocol (sections 4 to 7 of RFC 1939, RFC 2449 and RFC 2595).
  function Word(kind: Kind): string
  {
    match kind
    case Capa => "CAPA"
    case Top => "TOP"
    case Quit => "QUIT"
    case Stls => "STLS"
    case Stat => "STAT"
    case User => "USER"
    case Uidl => "UIDL"
    case Pass => "PASS"
    case List => "LIST"
    case Retr => "RETR"
    case Rset => "RSET"
    case Implementation => "IMPLEMENTATION"
    case Dele => "DELE"
    case Unknown => ""
  }

  // The line has a first word, and it is that one, in any case.
  predicate Says(line: string, word: string)
  {
    WordsOf(line) != [] && ToLower(WordsOf(line)[0]) == ToLower(word)
  }

  function ArgumentsOf(line: string): seq<string>
  {
    if WordsOf(line) == [] then [] else WordsOf(line)[1..]
  }

  lemma LowerWords()
    ensures ToLower("CAPA") == "capa" && ToLower("TOP") == "top" && ToLower("QUIT") == "quit" && ToLower("STLS") == "stls"
    ensures ToLower("STAT") == "stat" && ToLower("USER") == "user" && ToLower("UIDL") == "uidl" && ToLower("PASS") == "pass"
    ensures ToLower("LIST") == "list" && ToLower("RETR") == "retr" && ToLower("RSET") == "rset" && ToLower("DELE") == "dele"
    ensures ToLower("IMPLEMENTATION") == "implementation"
  {
  }

  lemma KindIs(word: string, kind: Kind)
    requires kind != Unknown
    ensures KindOf(ToLower(word)) == kind <==> ToLower(word) == ToLower(Word(kind))
  {
    hide ToLower;
    LowerWords();
  }

  // What the cleaning leaves of a line: its words, one space apart, or one space alone.
  lemma CleanLine(line: string)
    ensures var clean := RemoveFirstAndLastWhite(ReduceWhitespace(line));
            if WordsOf(line) == [] then clean == "" || clean == " " else clean == Join(WordsOf(line), " ")
  {
    hide Collapse, WordsOf, Join;
    var c := Collapse(line, false);
    ReducedIsWords(line);
    if WordsOf(line) == [] {
      JoinNone();
      StripsToNothing(c);
    } else {
      WordsAreWords(line);
      WordsJoined(WordsOf(line));
      StripsToWords(c, Join(WordsOf(line), " "));
    }
  }

  lemma StripsToNothing(c: string)
    requires Collapsed(c) && StripLead(StripTrail(c)) == ""
    ensures c == "" || c == " "
  {
    assert |c| <= 2;
    if |c| == 2 {
      assert c[1] == ' ' ==> c[0] != ' ';
    }
  }

  lemma StripsToWords(c: string, j: string)
    requires Collapsed(c) && j != "" && j[0] != ' ' && j[|j| - 1] != ' ' && StripLead(StripTrail(c)) == j
    ensures RemoveFirstAndLastWhite(RemoveFirstAndLastWhite(c)) == j
  {
    var t := StripTrail(c);
    if |c| >= 2 {
      assert StripTrail(StripLead(c)) == j by {
        if c[0] == ' ' && c[|c| - 1] == ' ' {
          assert t == c[..|c| - 1] && t[1..] == c[1..][..|c| - 2];
        }
      }
    }
  }

  lemma WordsAreWords(s: string)
    ensures forall w :: w in WordsOf(s) ==> w != "" && ' ' !in w
  {
    hide Split;
  }

  lemma WordsJoined(words: seq<string>)
    requires words != [] && forall w :: w in words ==> w != "" && ' ' !in w
    ensures var j := Join(words, " "); j != "" && j[0] != ' ' && j[|j| - 1] != ' '
  {
    hide Join;
    SmtpCommand.JoinedWords(words);
  }

  // A line is read by its words: the first, in any case, is the command, and the others are
  // its arguments, however many spaces stand between them.
  lemma LineIsRead(line: string)
    ensures forall kind: Kind :: kind != Unknown ==> (Parse(line).kind == kind <==> Says(line, Word(kind)))
    ensures Parse(line).args == ArgumentsOf(line)
  {
    hide WordsOf, Join, ToLower, RemoveFirstAndLastWhite, ReduceWhitespace, KindOf, Find, SmtpCommand.GetLines, Word;
    var words := WordsOf(line);
    CleanLine(line);
    if words == [] {
      NoWord();
      assert " "[1..] == "" && " "[..0] == "" && ""[..0] == "";
    } else {
      WordsAreWords(line);
      WordCut(words);
      forall kind: Kind | kind != Unknown ensures Parse(line).kind == kind <==> Says(line, Word(kind)) {
        KindIs(words[0], kind);
      }
    }
  }

  lemma NoWord()
    ensures Find("", ' ') == 0 && Find(" ", ' ') == 0 && KindOf(ToLower("")) == Unknown
    ensures SmtpCommand.GetLines("") == []
  {
    SmtpCommand.NothingToRead();
  }

  lemma WordCut(words: seq<string>)
    requires words != [] && forall w :: w in words ==> w != "" && ' ' !in w
    ensures var clean := Join(words, " ");
            var i := Find(clean, ' ');
            && clean[..i] == words[0]
            && (if i == |clean| then words[1..] == [] else SmtpCommand.GetLines(clean[i + 1..]) == words[1..])
  {
    hide Split, Find;
    var clean := Join(words, " ");
    assert words[0] in words;
    if |words| == 1 {
      FindIs(clean, ' ', |words[0]|);
    } else {
      var rest := Join(words[1..], " ");
      FindIs(clean, ' ', |words[0]|);
      assert clean[..|words[0]|] == words[0] && clean[|words[0]| + 1..] == rest;
      assert forall w :: w in words[1..] ==> w in words;
      SplitJoin(words[1..], ' ');
      assert words[|words| - 1] in words;
    }
  }

  lemma {:induction false} WordsOfJoin(words: seq<string>)
    requires forall w :: w in words ==> w != "" && ' ' !in w
    ensures WordsOf(Join(words, " ")) == words
  {
    hide WordsOf, Join;
    if words == [] {
      JoinNone();
      WordsStep("", "");
    } else {
      assert words[0] in words && words == [words[0]] + words[1..];
      assert forall w :: w in words[1..] ==> w in words;
      if |words| == 1 {
        assert words == [words[0]];
        JoinOne(words[0], " ");
        WordsStep(words[0], "");
      } else {
        JoinCons(words[0], words[1..], " ");
        WordsOfJoin(words[1..]);
        WordsStep(words[0], Join(words[1..], " "));
      }
    }
  }

  // Every command word, in any case, with any arguments, comes back.
  lemma CommandRoundTrip(kind: Kind, word: string, args: seq<string>)
    requires kind != Unknown && ToLower(word) == ToLower(Word(kind))
    requires forall a :: a in args ==> a != "" && ' ' !in a
    ensures Parse(Join([word] + args, " ")) == Command(kind, args)
  {
    hide WordsOf, Join, Parse, ToLower;
    WordIsWord(word, kind);
    WordsOfJoin([word] + args);
    LineIsRead(Join([word] + args, " "));
  }

  lemma WordIsWord(word: string, kind: Kind)
    requires kind != Unknown && ToLower(word) == ToLower(Word(kind))
    ensures word != "" && ' ' !in word
  {
    var w := Word(kind);
    assert |word| == |w| && w != "" && ' ' !in w;
    forall i | 0 <= i < |word| ensures word[i] != ' ' {
      assert w[i] in w;
      assert Lower(word[i]) == ToLower(word)[i] == ToLower(w)[i] == Lower(w[i]);
    }
  }

  // ---------------------------------------------------------------- what a line does

  // The line is read by an open session.
  predicate Hears(r: Run, i: Input, word: string)
  {
    r.open && i.line.Some? && Says(i.line.value, word)
  }

  function Arguments(i: Input): seq<string>
  {
    if i.line.Some? then ArgumentsOf(i.line.value) else []
  }

  // The number of a line "DELE n" that is granted: behind authentication, one of the list.
  function MarkOf(r: Run, i: Input): Option<int>
  {
    if Hears(r, i, "DELE") && r.session.authenticated && Arguments(i) != [] then
      match Stol(Arguments(i)[0])
      case Some(n) => if 1 <= n <= |r.session.references| then Some(n) else None
      case None => None
    else None
  }

  predicate NamesUser(r: Run, i: Input)
  {
    Hears(r, i, "USER") && !r.session.authenticated && Arguments(i) != [] && i.env.user.UserFound?
  }

  predicate LogsIn(r: Run, i: Input)
  {
    && Hears(r, i, "PASS") && !r.session.authenticated && r.session.named && Arguments(i) != []
    && i.env.pass.PassRight?
  }

  // RSET empties the graveyard, a granted DELE adds to it, and every other line leaves it.
  lemma LineMarks(r: Run, i: Input)
    requires Inv(r) && |r.session.references| < 0x8000_0000_0000_0000
    ensures MarkOf(r, i).Some? ==> MarkOf(r, i).value >= 1 && !Hears(r, i, "RSET")
    ensures Step(r, i).session.graveyard ==
            if Hears(r, i, "RSET") then []
            else r.session.graveyard + if MarkOf(r, i).Some? then [MarkOf(r, i).value - 1] else []
  {
    hide Parse, Says, ArgumentsOf, Stol, Unreadable, Index, Standing, Inv;
    assert r.session.graveyard + [] == r.session.graveyard;
    if r.open && i.line.Some? {
      var line := i.line.value;
      LineIsRead(line);
      WordsOfKinds();
      ReadableStol(if Arguments(i) == [] then "" else Arguments(i)[0]);
      if Parse(line).args != [] && Stol(Parse(line).args[0]).Some? {
        var n := Stol(Parse(line).args[0]).value;
        StolInRange(Parse(line).args[0]);
        DeleAcceptsTheList(n, |r.session.references|);
      }
    }
  }

  lemma WordsOfKinds()
    ensures Word(Dele) == "DELE" && Word(Rset) == "RSET" && Word(User) == "USER" && Word(Pass) == "PASS"
  {
  }

  lemma ReadableStol(s: string)
    ensures Stol(s).Some? ==> !Unreadable(s)
  {
  }


  lemma LineLogsIn(r: Run, i: Input)
    ensures var was, now := r.session, Step(r, i).session;
            && (now.named <==> was.named || NamesUser(r, i))
            && (now.authenticated <==> was.authenticated || LogsIn(r, i))
            && (NamesUser(r, i) ==> i.env.user == UserFound(now.account))
            && (!NamesUser(r, i) ==> now.account == was.account)
            && (LogsIn(r, i) ==> i.env.pass == PassRight(now.references))
            && (!LogsIn(r, i) ==> now.references == was.references)
  {
    hide Parse, Says, ArgumentsOf, HandleDele;
    if r.open && i.line.Some? {
      var line := i.line.value;
      LineIsRead(line);
      WordsOfKinds();
      DeleKeepsTheList(r.session, Parse(line));
    }
  }

  // A line that is only answered, and needs an authenticated session.
  predicate Asks(line: string)
  {
    Says(line, "STAT") || Says(line, "UIDL") || Says(line, "LIST") || Says(line, "RETR") || Says(line, "TOP")
  }

  // What ends a session: QUIT, and whatever the server does not catch line by line - a broken
  // lookup, a number out of the range of the type, an answer that fails.
  predicate Ends(r: Run, i: Input)
    requires r.open && i.line.Some?
  {
    var line, s := i.line.value, r.session;
    || Says(line, "QUIT")
    || (Says(line, "USER") && !s.authenticated && Arguments(i) != [] && i.env.user.UserFails?)
    || (Says(line, "PASS") && !s.authenticated && s.named && Arguments(i) != [] && i.env.pass.PassFails?)
    || (Says(line, "DELE") && s.authenticated && Arguments(i) != [] && !Unreadable(Arguments(i)[0]) && Stol(Arguments(i)[0]).None?)
    || (Asks(line) && s.authenticated && !i.env.answers)
    || (Says(line, "STLS") && !i.env.answers)
  }

  lemma LineEnds(r: Run, i: Input)
    requires r.open && i.line.Some?
    ensures Step(r, i).open <==> !Ends(r, i)
  {
    hide Parse, Says, ArgumentsOf, Stol, Unreadable, Index;
    LineIsRead(i.line.value);
    AllWords();
  }

  lemma AllWords()
    ensures Word(Dele) == "DELE" && Word(Rset) == "RSET" && Word(User) == "USER" && Word(Pass) == "PASS"
    ensures Word(Quit) == "QUIT" && Word(Stat) == "STAT" && Word(Uidl) == "UIDL" && Word(List) == "LIST"
    ensures Word(Retr) == "RETR" && Word(Top) == "TOP" && Word(Stls) == "STLS"
  {
  }

  // ---------------------------------------------------------------- over every session

  function Before(inputs: seq<Input>, k: nat): Run
    requires k <= |inputs|
  {
    Play(CONNECTED, inputs[..k])
  }

  lemma {:induction false} PlaySnoc(r: Run, inputs: seq<Input>, last: Input)
    ensures Play(r, inputs + [last]) == Step(Play(r, inputs), last)
    decreases |inputs|
  {
    hide Step;
    if inputs == [] {
      assert [] + [last] == [last] && [last][1..] == [];
    } else {
      assert (inputs + [last])[1..] == inputs[1..] + [last];
      PlaySnoc(Step(r, inputs[0]), inputs[1..], last);
    }
  }

  predicate AllCountable(inputs: seq<Input>)
  {
    forall k :: 0 <= k < |inputs| ==> Countable(inputs[k].env)
  }

  lemma {:induction false} ListIsShort(r: Run, inputs: seq<Input>)
    requires Inv(r) && |r.session.references| < 0x8000_0000_0000_0000 && AllCountable(inputs)
    ensures Inv(Play(r, inputs)) && |Play(r, inputs).session.references| < 0x8000_0000_0000_0000
    decreases |inputs|
  {
    hide Inv, Step, Countable;
    if inputs != [] {
      assert AllCountable(inputs[1..]);
      StepIsFine(r, inputs[0]);
      ListIsShort(Step(r, inputs[0]), inputs[1..]);
    }
  }

  lemma BeforeIsFine(inputs: seq<Input>, k: nat)
    requires k <= |inputs| && AllCountable(inputs)
    ensures Inv(Before(inputs, k)) && |Before(inputs, k).session.references| < 0x8000_0000_0000_0000
  {
    hide Inv, Play, Countable;
    ConnectedIsFine();
    ListIsShort(CONNECTED, inputs[..k]);
  }

  predicate HearsAt(inputs: seq<Input>, k: int, word: string)
  {
    0 <= k < |inputs| && Hears(Before(inputs, k), inputs[k], word)
  }

  predicate MarksAt(inputs: seq<Input>, k: int, n: int)
  {
    0 <= k < |inputs| && MarkOf(Before(inputs, k), inputs[k]) == Some(n)
  }

  // The number stands: a line "DELE n" was granted, and no line "RSET" was read behind it.
  predicate StandsSince(inputs: seq<Input>, n: int, k: int)
  {
    MarksAt(inputs, k, n) && forall m :: k < m < |inputs| ==> !HearsAt(inputs, m, "RSET")
  }

  ghost predicate Stands(inputs: seq<Input>, n: int)
  {
    exists k :: StandsSince(inputs, n, k)
  }

  // One line more.
  lemma StandsSnoc(inputs: seq<Input>, last: Input, n: int)
    ensures var r := Play(CONNECTED, inputs);
            Stands(inputs + [last], n) <==> MarkOf(r, last) == Some(n) || (Stands(inputs, n) && !Hears(r, last, "RSET"))
  {
    hide Play, Hears, MarkOf;
    var all := inputs + [last];
    var r, z := Play(CONNECTED, inputs), |inputs|;
    assert all[..z] == inputs;
    forall k | 0 <= k < z ensures MarksAt(all, k, n) <==> MarksAt(inputs, k, n) {
      assert all[..k] == inputs[..k];
    }
    forall m | 0 <= m < z ensures HearsAt(all, m, "RSET") <==> HearsAt(inputs, m, "RSET") {
      assert all[..m] == inputs[..m];
    }
    assert MarksAt(all, z, n) <==> MarkOf(r, last) == Some(n);
    assert HearsAt(all, z, "RSET") <==> Hears(r, last, "RSET");
    if MarkOf(r, last) == Some(n) {
      assert StandsSince(all, n, z);
    }
    if Stands(inputs, n) && !Hears(r, last, "RSET") {
      var k :| StandsSince(inputs, n, k);
      assert StandsSince(all, n, k);
    }
    if Stands(all, n) && MarkOf(r, last) != Some(n) {
      var k :| StandsSince(all, n, k);
      assert k < z;
      assert StandsSince(inputs, n, k);
    }
  }

  // The graveyard holds the numbers that stand, and no others.
  lemma {:induction false} GraveyardIsByLines(inputs: seq<Input>, n: int)
    requires AllCountable(inputs)
    ensures (exists k :: 0 <= k < |Play(CONNECTED, inputs).session.graveyard|
                         && Play(CONNECTED, inputs).session.graveyard[k] == n - 1)
            <==> Stands(inputs, n)
    decreases |inputs|
  {
    hide Play, Step, MarkOf, Hears, Inv, Stands, Countable;
    if inputs == [] {
      NothingStands(n);
    } else {
      var z := |inputs| - 1;
      var front, last := inputs[..z], inputs[z];
      assert inputs == front + [last];
      assert AllCountable(front);
      var r := Play(CONNECTED, front);
      PlaySnoc(CONNECTED, front, last);
      StandsSnoc(front, last, n);
      GraveyardIsByLines(front, n);
      BeforeIsFine(inputs, z);
      LineMarks(r, last);
      if MarkOf(r, last).Some? {
        HeldBySum(r.session.graveyard, MarkOf(r, last).value - 1, n - 1);
      } else {
        assert r.session.graveyard + [] == r.session.graveyard;
      }
    }
  }

  lemma HeldBySum(was: seq<nat>, m: nat, n: int)
    ensures (exists k :: 0 <= k < |was + [m]| && (was + [m])[k] == n) <==>
            m == n || exists k :: 0 <= k < |was| && was[k] == n
  {
    var now := was + [m];
    assert now[|was|] == m;
    if k :| 0 <= k < |was| && was[k] == n {
      assert now[k] == n;
    }
    if k :| 0 <= k < |now| && now[k] == n {
      assert k < |was| ==> was[k] == n;
    }
  }

  lemma NothingStands(n: int)
    ensures !Stands([], n) && Play(CONNECTED, []).session.graveyard == []
  {
  }

  // ---------------------------------------------------------------- what is deleted

  // Number `n` of the session's list is that mail.
  predicate Lists(s: Session, n: int, mail: Uuid)
  {
    1 <= n <= |s.references| && s.references[n - 1].mail == mail
  }

  predicate ListsIn(s: Session, n: int, mail: Uuid, bucket: int)
  {
    Lists(s, n, mail) && s.references[n - 1].bucket == bucket
  }

  lemma StandingIsStanding(inputs: seq<Input>, n: int)
    requires AllCountable(inputs)
    ensures n in Standing(Play(CONNECTED, inputs).log) <==> Stands(inputs, n)
  {
    hide Play, Stands, Standing, Countable;
    GraveyardIsByLines(inputs, n);
    GraveyardIsTheLog(inputs);
    var r := Play(CONNECTED, inputs);
    if n in Standing(r.log) {
      var k :| 0 <= k < |Standing(r.log)| && Standing(r.log)[k] == n;
      assert r.session.graveyard[k] == n - 1;
    }
    if k :| 0 <= k < |r.session.graveyard| && r.session.graveyard[k] == n - 1 {
      assert Standing(r.log)[k] in Standing(r.log);
    }
  }

  lemma GoneByLines(inputs: seq<Input>, row: Shortcut)
    requires AllCountable(inputs)
    ensures var r := Play(CONNECTED, inputs);
            Gone(r, row) <==>
            row.owner == r.session.account.owner && row.mailbox == "INBOX"
            && exists n :: Stands(inputs, n) && Lists(r.session, n, row.mail)
  {
    hide Play, Stands, Standing, Countable;
    var r := Play(CONNECTED, inputs);
    if Gone(r, row) {
      var m :| IsMarked(r, m) && Shortcuts(row, r.session.account.owner, m);
      var n :| n in Standing(r.log) && 1 <= n <= |r.session.references| && r.session.references[n - 1] == m;
      StandingIsStanding(inputs, n);
      assert Lists(r.session, n, row.mail);
    }
    if row.owner == r.session.account.owner && row.mailbox == "INBOX"
       && exists n :: Stands(inputs, n) && Lists(r.session, n, row.mail)
    {
      var n :| Stands(inputs, n) && Lists(r.session, n, row.mail);
      StandingIsStanding(inputs, n);
      var m := r.session.references[n - 1];
      assert IsMarked(r, m) && Shortcuts(row, r.session.account.owner, m);
    }
  }

  lemma GoneRawByLines(inputs: seq<Input>, row: Raw)
    requires AllCountable(inputs)
    ensures var r := Play(CONNECTED, inputs);
            GoneRaw(r, row) <==>
            row.owner == r.session.account.owner
            && exists n :: Stands(inputs, n) && ListsIn(r.session, n, row.mail, row.bucket)
  {
    hide Play, Stands, Standing, Countable;
    var r := Play(CONNECTED, inputs);
    if GoneRaw(r, row) {
      var m :| IsMarked(r, m) && Raws(row, r.session.account.owner, m);
      var n :| n in Standing(r.log) && 1 <= n <= |r.session.references| && r.session.references[n - 1] == m;
      StandingIsStanding(inputs, n);
      assert ListsIn(r.session, n, row.mail, row.bucket);
    }
    if row.owner == r.session.account.owner && exists n :: Stands(inputs, n) && ListsIn(r.session, n, row.mail, row.bucket) {
      var n :| Stands(inputs, n) && ListsIn(r.session, n, row.mail, row.bucket);
      StandingIsStanding(inputs, n);
      var m := r.session.references[n - 1];
      assert IsMarked(r, m) && Raws(row, r.session.account.owner, m);
    }
  }

  // Told by the lines: whatever ends the session, a row is gone from the INBOX of the account
  // exactly if the list names its mail under a number that stands, and its raw mail with it;
  // every other row stays.
  lemma DeletedByLines(inputs: seq<Input>, store: Store)
    requires AllCountable(inputs)
    ensures var s := Play(CONNECTED, inputs).session;
            && InRange(s)
            && (forall row :: row in Commit(s, store).shortcuts <==>
                  row in store.shortcuts
                  && !(row.owner == s.account.owner && row.mailbox == "INBOX"
                       && exists n :: Stands(inputs, n) && Lists(s, n, row.mail)))
            && (forall row :: row in Commit(s, store).raws <==>
                  row in store.raws
                  && !(row.owner == s.account.owner
                       && exists n :: Stands(inputs, n) && ListsIn(s, n, row.mail, row.bucket)))
  {
    hide Play, Stands, Gone, GoneRaw, Commit, Countable, Lists, ListsIn, InRange;
    CommitRemovesTheMarked(inputs, store);
    forall row: Shortcut
      ensures var s := Play(CONNECTED, inputs).session;
              Gone(Play(CONNECTED, inputs), row) <==>
              row.owner == s.account.owner && row.mailbox == "INBOX" && exists n :: Stands(inputs, n) && Lists(s, n, row.mail)
    {
      GoneByLines(inputs, row);
    }
    forall row: Raw
      ensures var s := Play(CONNECTED, inputs).session;
              GoneRaw(Play(CONNECTED, inputs), row) <==>
              row.owner == s.account.owner && exists n :: Stands(inputs, n) && ListsIn(s, n, row.mail, row.bucket)
    {
      GoneRawByLines(inputs, row);
    }
  }

  // ---------------------------------------------------------------- who is let in

  predicate NamesAt(inputs: seq<Input>, k: int)
  {
    0 <= k < |inputs| && NamesUser(Before(inputs, k), inputs[k])
  }

  predicate LogsInAt(inputs: seq<Input>, k: int)
  {
    0 <= k < |inputs| && LogsIn(Before(inputs, k), inputs[k])
  }

  // The account that was named last.
  lemma {:induction false} NamedLast(inputs: seq<Input>) returns (j: int)
    requires Play(CONNECTED, inputs).session.named
    ensures NamesAt(inputs, j) && inputs[j].env.user == UserFound(Play(CONNECTED, inputs).session.account)
    ensures forall m :: j < m ==> !NamesAt(inputs, m)
    decreases |inputs|
  {
    hide Play, Step, NamesUser, LogsIn;
    if inputs == [] {
      NobodyNamed();
    } else {
      var z := |inputs| - 1;
      var front, last := inputs[..z], inputs[z];
      assert inputs == front + [last];
      PlaySnoc(CONNECTED, front, last);
      LineLogsIn(Play(CONNECTED, front), last);
      if NamesUser(Play(CONNECTED, front), last) {
        j := z;
      } else {
        j := NamedLast(front);
        forall m ensures NamesAt(inputs, m) ==> NamesAt(front, m) {
          assert 0 <= m < z ==> front[..m] == inputs[..m];
        }
        assert front[..j] == inputs[..j];
      }
    }
  }

  lemma NobodyNamed()
    ensures !Play(CONNECTED, []).session.named && !Play(CONNECTED, []).session.authenticated
  {
  }

  lemma {:induction false} LoggedIn(inputs: seq<Input>) returns (k: int)
    requires Play(CONNECTED, inputs).session.authenticated
    ensures LogsInAt(inputs, k)
    ensures inputs[k].env.pass == PassRight(Play(CONNECTED, inputs).session.references)
    ensures Play(CONNECTED, inputs).session.account == Before(inputs, k).session.account
    decreases |inputs|
  {
    hide Play, Step, NamesUser, LogsIn;
    if inputs == [] {
      NobodyNamed();
    } else {
      var z := |inputs| - 1;
      var front, last := inputs[..z], inputs[z];
      assert inputs == front + [last];
      var r := Play(CONNECTED, front);
      PlaySnoc(CONNECTED, front, last);
      LineLogsIn(r, last);
      NoNameBehind(r, last);
      if LogsIn(r, last) {
        k := z;
      } else {
        k := LoggedIn(front);
        assert front[..k] == inputs[..k];
      }
    }
  }

  lemma NoNameBehind(r: Run, i: Input)
    ensures NamesUser(r, i) ==> !r.session.authenticated
    ensures LogsIn(r, i) ==> r.session.named && !r.session.authenticated && !NamesUser(r, i)
  {
    hide WordsOf;
    LowerWords();
  }

  // A session is authenticated only by a line PASS with the right password, behind a line USER
  // that found an account: the one that was named last is the session's, and the list is the one
  // that was taken then.
  lemma PasswordLetsIn(inputs: seq<Input>)
    ensures var s := Play(CONNECTED, inputs).session;
            s.authenticated <==>
            exists j, k :: j < k && NamesAt(inputs, j) && LogsInAt(inputs, k)
              && inputs[j].env.user == UserFound(s.account) && inputs[k].env.pass == PassRight(s.references)
              && forall m :: j < m < k ==> !NamesAt(inputs, m)
  {
    hide Play, NamesUser, LogsIn;
    var s := Play(CONNECTED, inputs).session;
    if s.authenticated {
      var k := LoggedIn(inputs);
      NoNameBehind(Before(inputs, k), inputs[k]);
      var j := NamedLast(inputs[..k]);
      assert inputs[..k][..j] == inputs[..j];
      forall m | j < m < k ensures !NamesAt(inputs, m) {
        assert inputs[..k][..m] == inputs[..m];
        assert !NamesAt(inputs[..k], m);
      }
    }
    if exists k :: LogsInAt(inputs, k) {
      var k :| LogsInAt(inputs, k);
      StaysIn(inputs, k);
    }
  }

  lemma StaysIn(inputs: seq<Input>, k: int)
    requires LogsInAt(inputs, k)
    ensures Play(CONNECTED, inputs).session.authenticated
  {
    hide Play, Step, NamesUser, LogsIn;
    assert inputs[..k + 1] == inputs[..k] + [inputs[k]] && inputs == inputs[..k + 1] + inputs[k + 1..];
    PlaySnoc(CONNECTED, inputs[..k], inputs[k]);
    LineLogsIn(Before(inputs, k), inputs[k]);
    PlayAppend(CONNECTED, inputs[..k + 1], inputs[k + 1..]);
    ListIsFrozen(Play(CONNECTED, inputs[..k + 1]), inputs[k + 1..]);
  }

  lemma {:induction false} PlayAppend(r: Run, a: seq<Input>, b: seq<Input>)
    ensures Play(r, a + b) == Play(Play(r, a), b)
    decreases |a|
  {
    hide Step;
    if a == [] {
      assert a + b == b;
    } else {
      assert (a + b)[1..] == a[1..] + b;
      PlayAppend(Step(r, a[0]), a[1..], b);
    }
  }
}
