// The conversation of the sending side with one server: the `while (_run)` loop of
// `SMTPClient::beSocial` (lib/smtp/client/SMTPClient.src.cc). The server is adversarial:
// every read may fail, and every reply may hold any code and any text.
module SmtpClient {
  import opened Text
  import opened Addresses
  import opened SmtpCommand
  import opened SmtpClientSession

  // What one conversation depends on besides the replies. `tls` is the outcome of the
  // one attempt to upgrade the socket.
  datatype Setup = Setup(
    domain: string, localDomain: string, mailFrom: EmailAddress, message: string, target: EmailAddress, tls: bool)

  // One read. A failed read leaves arbitrary values behind in the two variables.
  datatype Input = Input(ok: bool, code: int, args: string, more: seq<string>)

  // What the client did to the socket.
  datatype Sent = Wrote(command: Command) | Upgraded | WroteBody(text: string)

  // An entry of the error log.
  datatype Problem = Transmission(code: int, args: string) | TlsFailed | ExtensionFailed | NotConnected

  // Which read comes next.
  datatype Control = AwaitReply | AwaitFcapa | AwaitSu | AwaitOptions | Finished

  // `closed` is set by the one regular exit, `lost` by a failed read.
  datatype Talk = Talk(
    control: Control, actions: set<Action>, flags: set<Flag>, trace: seq<Sent>, run: bool,
    errors: seq<Problem>, closed: bool, lost: bool, rounds: nat)

  const START := Talk(AwaitReply, {}, {}, [], true, [], false, false, 0)

  // ---------------------------------------------------------------- one switch

  function Bare(kind: CommandType): Sent
  {
    Wrote(Command(kind, []))
  }

  function InBrackets(a: EmailAddress): string
  {
    "<" + a.address + ">"
  }

  function Put(t: Talk, item: Sent): Talk
  {
    t.(trace := t.trace + [item])
  }

  function Do(t: Talk, a: Action, item: Sent): Talk
  {
    Put(t, item).(actions := t.actions + {a})
  }

  function Finish(t: Talk): Talk
  {
    t.(run := false, control := Finished)
  }

  function Fail(t: Talk, p: Problem): Talk
  {
    Finish(t.(errors := t.errors + [p]))
  }

  // Back to the loop condition.
  function Next(t: Talk): Talk
  {
    t.(control := if t.run then AwaitReply else Finished)
  }

  // `find("ESMTP") != npos`
  predicate Contains(s: string, p: string)
  {
    FindString(s, p).Some?
  }

  function SendEhlo(t: Talk, s: Setup): Talk
  {
    Do(t, SentHelo, Wrote(Command(Ehlo, [s.domain]))).(control := AwaitOptions)
  }

  // Lines 462-559: a server of the same domain is asked for access first.
  function GreetExtended(t: Talk, s: Setup): Talk
  {
    match s.target.Domain()
    case Done(d) =>
      if d == s.localDomain then Put(t, Bare(Fcapa)).(control := AwaitFcapa) else SendEhlo(t, s)
    case _ => Fail(t, ExtensionFailed)
  }

  // Lines 448-575: the greeting, plain or extended.
  function Greet(t: Talk, code: int, args: string, s: Setup): Talk
  {
    var u := if SentHelo !in t.actions && Esmtp !in t.flags && Contains(args, "ESMTP")
             then t.(flags := t.flags + {Esmtp}) else t;
    if SentHelo !in u.actions && Esmtp in u.flags then
      GreetExtended(u, s)
    else if SentHelo !in u.actions then
      Fail(Do(u, SentHelo, Wrote(Command(Helo, [s.domain]))), Transmission(code, args))
    else
      Fail(u, Transmission(code, args))
  }

  function On220(t: Talk, code: int, args: string, s: Setup): Talk
  {
    if EndedData in t.actions && SentQuit !in t.actions then
      Next(Do(t, SentQuit, Bare(Quit)))
    else if SentStartTls in t.actions && Secured !in t.actions && Esmtp in t.flags then
      var u := t.(actions := t.actions + {Secured});
      if !s.tls then Fail(u, TlsFailed)
      else Greet(Put(u, Upgraded).(actions := u.actions - {SentHelo}), code, args, s)
    else
      Greet(t, code, args, s)
  }

  function On354(t: Talk, code: int, args: string, s: Setup): Talk
  {
    if StartedData in t.actions && EndedData !in t.actions then
      Next(Do(t, EndedData, WroteBody(s.message + "\r\n.\r\n")))
    else
      On220(t, code, args, s)
  }

  function On250(t: Talk, code: int, args: string, s: Setup): Talk
  {
    if SentHelo in t.actions && SentStartTls !in t.actions && Esmtp in t.flags then
      Next(Do(t, SentStartTls, Bare(StartTls)))
    else if (SentHelo in t.actions && Esmtp !in t.flags)
            || (Secured in t.actions && Esmtp in t.flags && SentMailFrom !in t.actions) then
      Next(Do(t, SentMailFrom, Wrote(Command(MailFrom, [InBrackets(s.mailFrom)]))))
    else if SentMailFrom in t.actions && SentRcptTo !in t.actions then
      Next(Do(t, SentRcptTo, Wrote(Command(RcptTo, [InBrackets(s.target)]))))
    else if SentRcptTo in t.actions && StartedData !in t.actions && EndedData !in t.actions then
      Next(Do(t, StartedData, Bare(Data)))
    else
      On354(t, code, args, s)
  }

  // The switch with its fall-through cases.
  function Act(t: Talk, code: int, args: string, s: Setup): Talk
  {
    var r := t.(rounds := t.rounds + 1);
    if code == 221 && SentQuit in r.actions then Finish(r.(closed := true))
    else if code == 221 || code == 250 then On250(r, code, args, s)
    else if code == 354 then On354(r, code, args, s)
    else if code == 220 then On220(r, code, args, s)
    else Fail(r, Transmission(code, args))
  }

  // ---------------------------------------------------------------- one read

  function FlagsOf(options: seq<string>): set<Flag>
  {
    (if "STARTTLS" in options then {OffersTls} else {}) +
    (if "8BITMIME" in options then {EightBitMime} else {}) +
    (if "ENHANCEDSTATUSCODES" in options then {EnhancedCodes} else {}) +
    (if "PIPELINING" in options then {Pipelining} else {}) +
    (if "CHUNKING" in options then {Chunking} else {})
  }

  function Lose(t: Talk): Talk
  {
    t.(run := false, lost := true)
  }

  function Step(t: Talk, i: Input, s: Setup): Talk
  {
    match t.control
    case AwaitReply => Act(if i.ok then t else Lose(t), i.code, i.args, s)
    case AwaitFcapa =>
      if !i.ok then Fail(Lose(t), ExtensionFailed)
      else if i.code == 601 then Put(t, Bare(Su)).(control := AwaitSu)
      else Fail(t, ExtensionFailed)
    case AwaitSu =>
      if !i.ok then Fail(Lose(t), ExtensionFailed)
      else if i.code == 600 then SendEhlo(t, s)
      else Fail(t, ExtensionFailed)
    case AwaitOptions =>
      if !i.ok then Finish(Lose(t))
      else
        var u := t.(flags := t.flags + FlagsOf([i.args] + i.more));
        if u.run then Act(u, 250, i.args, s) else Finish(u)
    case Finished => t
  }

  function Run(t: Talk, inputs: seq<Input>, s: Setup): Talk
    decreases |inputs|
  {
    if inputs == [] then t else Run(Step(t, inputs[0], s), inputs[1..], s)
  }

  // A server that has nothing more to say has closed the connection.
  const HANGUP := Input(false, 0, "", [])

  function Converse(t: Talk, inputs: seq<Input>, s: Setup): Talk
  {
    Step(Run(t, inputs, s), HANGUP, s)
  }

  // ---------------------------------------------------------------- the invariant

  predicate SameDomain(s: Setup)
  {
    s.target.Domain() == Done(s.localDomain)
  }

  function Greeting(s: Setup): seq<Sent>
  {
    (if SameDomain(s) then [Bare(Fcapa), Bare(Su)] else []) + [Wrote(Command(Ehlo, [s.domain]))]
  }

  function Opening(s: Setup): seq<Sent>
  {
    Greeting(s) + [Bare(StartTls), Upgraded] + Greeting(s)
  }

  function Transaction(s: Setup): seq<Sent>
  {
    [Wrote(Command(MailFrom, [InBrackets(s.mailFrom)])), Wrote(Command(RcptTo, [InBrackets(s.target)])),
     Bare(Data), WroteBody(s.message + "\r\n.\r\n"), Bare(Quit)]
  }

  // The one conversation the client is willing to have.
  function Script(s: Setup): seq<Sent>
  {
    Opening(s) + Transaction(s)
  }

  function GreetingSoFar(t: Talk, s: Setup): seq<Sent>
  {
    if t.control == AwaitFcapa then [Bare(Fcapa)]
    else if t.control == AwaitSu then [Bare(Fcapa), Bare(Su)]
    else if SentHelo in t.actions then Greeting(s)
    else []
  }

  function TransactionSoFar(actions: set<Action>): nat
  {
    if SentQuit in actions then 5
    else if EndedData in actions then 4
    else if StartedData in actions then 3
    else if SentRcptTo in actions then 2
    else if SentMailFrom in actions then 1
    else 0
  }

  // What the action bits say was done so far.
  function Progress(t: Talk, s: Setup): seq<Sent>
  {
    if SentStartTls !in t.actions then GreetingSoFar(t, s)
    else if Secured !in t.actions then Greeting(s) + [Bare(StartTls)]
    else if SentMailFrom !in t.actions then Greeting(s) + [Bare(StartTls), Upgraded] + GreetingSoFar(t, s)
    else Opening(s) + Transaction(s)[..TransactionSoFar(t.actions)]
  }

  // How many rounds are left at most: a measure on the action bits not yet set.
  function Left(t: Talk): nat
  {
    if Secured in t.actions then 6 - TransactionSoFar(t.actions)
    else if SentStartTls in t.actions then 7
    else if SentHelo in t.actions || t.control == AwaitFcapa || t.control == AwaitSu then 8
    else 9
  }

  // The bits are set in the order of the script.
  predicate Chain(actions: set<Action>)
  {
    && (SentQuit in actions ==> EndedData in actions)
    && (EndedData in actions ==> StartedData in actions)
    && (StartedData in actions ==> SentRcptTo in actions)
    && (SentRcptTo in actions ==> SentMailFrom in actions)
    && (SentMailFrom in actions ==> Secured in actions && SentHelo in actions)
    && (Secured in actions ==> SentStartTls in actions)
    && (SentStartTls in actions && Secured !in actions ==> SentHelo in actions)
  }

  // A conversation that a switch may work on, or that waits for a read.
  predicate Going(t: Talk, s: Setup)
  {
    && Chain(t.actions)
    && t.trace == Progress(t, s)
    && t.errors == [] && !t.closed
    && (SentHelo in t.actions || SentStartTls in t.actions ==> Esmtp in t.flags)
    && t.run == !t.lost
  }

  predicate Waiting(t: Talk, s: Setup)
  {
    && Going(t, s)
    && t.rounds + Left(t) <= 9
    && match t.control
       case AwaitReply =>
         && t.run
         && (SentHelo in t.actions ==> SentStartTls in t.actions)
         && (Secured in t.actions ==> SentMailFrom in t.actions)
       case AwaitOptions =>
         && SentHelo in t.actions && SentMailFrom !in t.actions
         && (SentStartTls in t.actions ==> Secured in t.actions)
       case Finished => true
       case _ =>
         && SentHelo !in t.actions && SameDomain(s) && Esmtp in t.flags
  }

  // How a conversation can end.
  predicate Ended(t: Talk, s: Setup)
  {
    && !t.run
    && (t.trace <= Script(s) || t.trace == [Wrote(Command(Helo, [s.domain]))])
    && |t.errors| <= 1
    && t.rounds <= 9
    && (t.closed ==> t.trace == Script(s) && t.errors == [])
    && (t.errors == [] && !t.lost ==> t.closed)
  }

  predicate Inv(t: Talk, s: Setup)
  {
    if t.control == Finished then Ended(t, s) else Waiting(t, s)
  }

  lemma StartIsGoing(s: Setup)
    ensures Inv(START, s)
  {
  }

  // ---------------------------------------------------------------- its proof

  lemma PrefixOfSum<T>(a: seq<T>, b: seq<T>)
    ensures a <= a + b
  {
  }

  lemma ProgressIsPrefix(t: Talk, s: Setup)
    requires SameDomain(s) || (t.control != AwaitFcapa && t.control != AwaitSu)
    ensures Progress(t, s) <= Script(s)
  {
    hide Transaction;
    var g := Greeting(s);
    var h := GreetingSoFar(t, s);
    var mid := [Bare(StartTls), Upgraded];
    assert h <= g;
    PrefixOfSum(g, mid);
    PrefixOfSum(g + mid, g);
    PrefixOfSum(Opening(s), Transaction(s));
    assert g + [Bare(StartTls)] <= g + mid;
    assert g + mid + h <= g + mid + g;
    var n := TransactionSoFar(t.actions);
    TransactionHasFive(s);
    assert Opening(s) + Transaction(s)[..n] <= Script(s);
  }

  lemma TransactionHasFive(s: Setup)
    ensures |Transaction(s)| == 5
  {
  }

  // The next item of the transaction.
  lemma TransactionStep(s: Setup, n: nat)
    requires n < 5
    ensures Opening(s) + Transaction(s)[..n] + [Transaction(s)[n]] == Opening(s) + Transaction(s)[..n + 1]
  {
    hide Opening;
    assert Transaction(s)[..n] + [Transaction(s)[n]] == Transaction(s)[..n + 1];
  }

  lemma TransactionFull(s: Setup)
    ensures Opening(s) + Transaction(s)[..5] == Script(s)
    ensures Opening(s) + Transaction(s)[..0] == Opening(s)
  {
    hide Opening;
    assert Transaction(s)[..5] == Transaction(s);
  }

  lemma NextIsFine(t: Talk, s: Setup)
    requires Going(t, s) && AtReply(t.actions) && t.rounds + Left(t) <= 9
    requires t.control == AwaitReply || t.control == AwaitOptions
    ensures Inv(Next(t), s)
  {
    hide Script, Transaction, Opening, Greeting;
    if !t.run {
      ProgressIsPrefix(t, s);
    }
  }

  // The action bits while the client waits for an ordinary reply.
  predicate AtReply(actions: set<Action>)
  {
    && Chain(actions)
    && (SentHelo in actions ==> SentStartTls in actions)
    && (Secured in actions ==> SentMailFrom in actions)
    && (SentHelo !in actions ==> SentStartTls !in actions)
  }

  // Secured, and not greeted again.
  predicate JustSecured(actions: set<Action>)
  {
    Secured in actions && SentHelo !in actions && SentMailFrom !in actions
  }

  lemma EhloIsFine(t: Talk, s: Setup)
    requires Going(t, s) && t.control == AwaitReply && t.rounds + Left(t) <= 10 && Esmtp in t.flags
    requires SentHelo !in t.actions && (SentStartTls !in t.actions || (JustSecured(t.actions) && t.rounds <= 3))
    requires !SameDomain(s)
    ensures Inv(SendEhlo(t, s), s)
  {
    hide Script, Transaction, Opening;
    var e := Wrote(Command(Ehlo, [s.domain]));
    assert [] + [e] == [e];
    var front := Greeting(s) + [Bare(StartTls), Upgraded];
    assert front + [] == front;
  }

  lemma AskingIsFine(t: Talk, s: Setup)
    requires Going(t, s) && t.control == AwaitReply && t.rounds + Left(t) <= 10 && Esmtp in t.flags
    requires SentHelo !in t.actions && (SentStartTls !in t.actions || (JustSecured(t.actions) && t.rounds <= 3))
    requires SameDomain(s)
    ensures Inv(Put(t, Bare(Fcapa)).(control := AwaitFcapa), s)
  {
    hide Script, Transaction, Opening, Greeting;
    assert [] + [Bare(Fcapa)] == [Bare(Fcapa)];
    var front := Greeting(s) + [Bare(StartTls), Upgraded];
    assert front + [] == front;
  }

  // An extended greeting: access is asked for, or EHLO is written.
  lemma ExtendedIsFine(t: Talk, s: Setup)
    requires Going(t, s) && t.control == AwaitReply && t.rounds + Left(t) <= 10 && Esmtp in t.flags
    requires SentHelo !in t.actions && (SentStartTls !in t.actions || (JustSecured(t.actions) && t.rounds <= 3))
    ensures Inv(GreetExtended(t, s), s)
  {
    hide Script, Progress, Waiting, SendEhlo, Put;
    ProgressIsPrefix(t, s);
    if SameDomain(s) {
      AskingIsFine(t, s);
    } else if s.target.Domain().Done? {
      EhloIsFine(t, s);
    }
  }

  lemma GreetIsFine(t: Talk, code: int, args: string, s: Setup)
    requires Going(t, s) && t.control == AwaitReply && t.rounds + Left(t) <= 10
    requires AtReply(t.actions) || (JustSecured(t.actions) && t.rounds <= 3)
    ensures Inv(Greet(t, code, args, s), s)
  {
    hide Script, Transaction, Opening, Contains, FindString, GreetExtended;
    ProgressIsPrefix(t, s);
    var u := if SentHelo !in t.actions && Esmtp !in t.flags && Contains(args, "ESMTP")
             then t.(flags := t.flags + {Esmtp}) else t;
    if SentHelo !in u.actions && Esmtp in u.flags {
      ExtendedIsFine(u, s);
    } else if SentHelo !in u.actions {
      var helo := Wrote(Command(Helo, [s.domain]));
      assert u.trace == [] && [] + [helo] == [helo];
    }
  }

  // The switch has begun: one round more is counted than the bits account for.
  predicate AtSwitch(t: Talk, s: Setup)
  {
    Going(t, s) && t.rounds + Left(t) <= 10
  }

  // One more item of the transaction.
  lemma ItemIsFine(t: Talk, a: Action, n: nat, s: Setup)
    requires AtSwitch(t, s) && n < |Transaction(s)| == 5 && TransactionSoFar(t.actions) == n && Secured in t.actions
    requires SentHelo in t.actions && (t.control == AwaitReply || t.control == AwaitOptions)
    requires a == [SentMailFrom, SentRcptTo, StartedData, EndedData, SentQuit][n]
    ensures Inv(Next(Do(t, a, Transaction(s)[n])), s)
  {
    hide Script, Transaction, Opening;
    var u := Do(t, a, Transaction(s)[n]);
    TransactionStep(s, n);
    TransactionFull(s);
    assert n == 0 ==> t.trace == Opening(s) by {
      OpeningIs(s);
    }
    NextIsFine(u, s);
  }

  lemma OpeningIs(s: Setup)
    ensures Opening(s) == Greeting(s) + [Bare(StartTls), Upgraded] + Greeting(s)
  {
  }

  lemma On220IsFine(t: Talk, code: int, args: string, s: Setup)
    requires AtSwitch(t, s) && t.control == AwaitReply && AtReply(t.actions)
    ensures Inv(On220(t, code, args, s), s)
  {
    hide Script, Transaction, Opening, Greet, Greeting;
    ProgressIsPrefix(t, s);
    if EndedData in t.actions && SentQuit !in t.actions {
      TransactionItems(s);
      ItemIsFine(t, SentQuit, 4, s);
    } else if SentStartTls in t.actions && Secured !in t.actions && Esmtp in t.flags {
      var u := t.(actions := t.actions + {Secured});
      if s.tls {
        var v := Put(u, Upgraded).(actions := u.actions - {SentHelo});
        UpgradeIsFine(t, s);
        GreetIsFine(v, code, args, s);
      }
    } else {
      GreetIsFine(t, code, args, s);
    }
  }

  lemma UpgradeIsFine(t: Talk, s: Setup)
    requires AtSwitch(t, s) && t.control == AwaitReply && AtReply(t.actions)
    requires SentStartTls in t.actions && Secured !in t.actions
    ensures var v := Put(t, Upgraded).(actions := t.actions + {Secured} - {SentHelo});
            Going(v, s) && JustSecured(v.actions) && v.rounds <= 3
  {
    hide Script, Transaction, Opening, Greeting;
    var g := Greeting(s);
    assert g + [Bare(StartTls)] + [Upgraded] == g + [Bare(StartTls), Upgraded] + [];
  }

  lemma TransactionItems(s: Setup)
    ensures |Transaction(s)| == 5
    ensures Transaction(s)[0] == Wrote(Command(MailFrom, [InBrackets(s.mailFrom)]))
    ensures Transaction(s)[1] == Wrote(Command(RcptTo, [InBrackets(s.target)]))
    ensures Transaction(s)[2] == Bare(Data)
    ensures Transaction(s)[3] == WroteBody(s.message + "\r\n.\r\n")
    ensures Transaction(s)[4] == Bare(Quit)
  {
  }

  lemma On354IsFine(t: Talk, code: int, args: string, s: Setup)
    requires AtSwitch(t, s) && t.control == AwaitReply && AtReply(t.actions)
    ensures Inv(On354(t, code, args, s), s)
  {
    hide Script, Transaction, Opening, On220, Greeting;
    if StartedData in t.actions && EndedData !in t.actions {
      TransactionItems(s);
      ItemIsFine(t, EndedData, 3, s);
    } else {
      On220IsFine(t, code, args, s);
    }
  }

  // Right behind the options of an extended greeting.
  predicate Greeted(actions: set<Action>)
  {
    SentHelo in actions && SentMailFrom !in actions && (SentStartTls in actions ==> Secured in actions)
  }

  lemma On250IsFine(t: Talk, code: int, args: string, s: Setup)
    requires AtSwitch(t, s)
    requires (t.control == AwaitReply && AtReply(t.actions)) || (t.control == AwaitOptions && Greeted(t.actions))
    ensures Inv(On250(t, code, args, s), s)
  {
    hide Script, Transaction, Opening, On354, Greeting;
    TransactionItems(s);
    if SentHelo in t.actions && SentStartTls !in t.actions && Esmtp in t.flags {
      NextIsFine(Do(t, SentStartTls, Bare(StartTls)), s);
    } else if Secured in t.actions && Esmtp in t.flags && SentMailFrom !in t.actions {
      ItemIsFine(t, SentMailFrom, 0, s);
    } else if SentMailFrom in t.actions && SentRcptTo !in t.actions {
      ItemIsFine(t, SentRcptTo, 1, s);
    } else if SentRcptTo in t.actions && StartedData !in t.actions && EndedData !in t.actions {
      ItemIsFine(t, StartedData, 2, s);
    } else {
      On354IsFine(t, code, args, s);
    }
  }

  // The regular exit is reached with every item written.
  lemma ClosingIsFine(t: Talk, s: Setup)
    requires AtSwitch(t, s) && SentQuit in t.actions
    ensures Inv(Finish(t.(closed := true)), s)
  {
    hide Transaction, Opening, Greeting;
    TransactionFull(s);
  }

  lemma ActIsFine(t: Talk, code: int, args: string, s: Setup)
    requires Going(t, s) && t.rounds + Left(t) <= 9
    requires (t.control == AwaitReply && AtReply(t.actions)) ||
             (t.control == AwaitOptions && Greeted(t.actions) && code == 250)
    ensures Inv(Act(t, code, args, s), s)
  {
    hide Script, Transaction, Opening, On250, On354, On220, Greeting;
    var r := t.(rounds := t.rounds + 1);
    if code == 221 && SentQuit in r.actions {
      ClosingIsFine(r, s);
    } else if code == 221 || code == 250 {
      On250IsFine(r, code, args, s);
    } else if code == 354 {
      On354IsFine(r, code, args, s);
    } else if code == 220 {
      On220IsFine(r, code, args, s);
    } else {
      ProgressIsPrefix(r, s);
    }
  }

  lemma StepIsFine(t: Talk, i: Input, s: Setup)
    requires Inv(t, s)
    ensures Inv(Step(t, i, s), s)
  {
    hide Script, Transaction, Opening, Act;
    match t.control
    case AwaitReply =>
      ActIsFine(if i.ok then t else Lose(t), i.code, i.args, s);
    case AwaitOptions =>
      ProgressIsPrefix(t, s);
      OptionsAreFine(t, i, s);
    case Finished =>
    case _ =>
      ProgressIsPrefix(t, s);
      ExtensionIsFine(t, i, s);
  }

  lemma OptionsAreFine(t: Talk, i: Input, s: Setup)
    requires Waiting(t, s) && t.control == AwaitOptions
    ensures Inv(Step(t, i, s), s)
  {
    hide Script, Transaction, Opening, Act;
    ProgressIsPrefix(t, s);
    var u := t.(flags := t.flags + FlagsOf([i.args] + i.more));
    ActIsFine(u, 250, i.args, s);
  }

  lemma ExtensionIsFine(t: Talk, i: Input, s: Setup)
    requires Waiting(t, s) && (t.control == AwaitFcapa || t.control == AwaitSu)
    ensures Inv(Step(t, i, s), s)
  {
    hide Script, Transaction, Opening;
    ProgressIsPrefix(t, s);
    var e := Wrote(Command(Ehlo, [s.domain]));
    assert [Bare(Fcapa)] + [Bare(Su)] == [Bare(Fcapa), Bare(Su)];
    var front := Greeting(s) + [Bare(StartTls), Upgraded];
    assert front + [Bare(Fcapa)] + [Bare(Su)] == front + [Bare(Fcapa), Bare(Su)];
    assert front + [Bare(Fcapa), Bare(Su)] + [e] == front + ([Bare(Fcapa), Bare(Su)] + [e]);
  }

  lemma {:induction false} RunIsFine(t: Talk, inputs: seq<Input>, s: Setup)
    requires Inv(t, s)
    ensures Inv(Run(t, inputs, s), s)
    decreases |inputs|
  {
    hide Inv, Step;
    if inputs != [] {
      StepIsFine(t, inputs[0], s);
      RunIsFine(Step(t, inputs[0], s), inputs[1..], s);
    }
  }

  // ---------------------------------------------------------------- theorems

  lemma HangupFinishes(t: Talk, s: Setup)
    ensures Step(t, HANGUP, s).control == Finished
  {
  }

  // Whatever the server says, and however often a read fails: what was written is a
  // beginning of the script, or the one HELO.
  lemma FollowsScript(inputs: seq<Input>, s: Setup)
    ensures var t := Run(START, inputs, s);
            t.trace <= Script(s) || t.trace == [Wrote(Command(Helo, [s.domain]))]
    ensures Run(START, inputs, s).rounds <= 9
  {
    hide Script, Transaction, Opening, Step, Progress;
    var t := Run(START, inputs, s);
    StartIsGoing(s);
    RunIsFine(START, inputs, s);
    if t.control != Finished {
      ProgressIsPrefix(t, s);
    }
  }

  // A part of the mail transaction.
  predicate OfTransaction(item: Sent)
  {
    item.WroteBody? || (item.Wrote? && item.command.kind in {MailFrom, RcptTo, Data, Quit})
  }

  lemma ScriptIsGuarded(s: Setup, i: nat)
    requires i < |Script(s)| && OfTransaction(Script(s)[i])
    ensures i >= |Opening(s)| && Upgraded in Script(s)[..i]
  {
    var g := Greeting(s);
    assert forall k :: 0 <= k < |g| ==> !OfTransaction(g[k]);
    assert forall k :: 0 <= k < |Opening(s)| ==> !OfTransaction(Opening(s)[k]);
    assert forall k :: 0 <= k < |Opening(s)| ==> Script(s)[k] == Opening(s)[k];
    assert Opening(s)[|g| + 1] == Upgraded;
    assert Script(s)[..i][|g| + 1] == Upgraded;
  }

  // Nothing of the mail, and no command of its transaction, is written before the socket
  // was upgraded (section 4.2 of RFC 3207).
  lemma MailOnlyUnderTls(inputs: seq<Input>, s: Setup, i: nat)
    requires i < |Run(START, inputs, s).trace| && OfTransaction(Run(START, inputs, s).trace[i])
    ensures s.tls && Upgraded in Run(START, inputs, s).trace[..i]
  {
    hide Script, Run;
    var t := Run(START, inputs, s);
    FollowsScript(inputs, s);
    assert t.trace != [Wrote(Command(Helo, [s.domain]))] && t.trace[i] == Script(s)[i];
    ScriptIsGuarded(s, i);
    assert t.trace[..i] == Script(s)[..i];
    UpgradedMeansTls(START, inputs, s);
  }

  lemma WritingIsNoUpgrade(t: Talk, a: Action, item: Sent)
    requires item != Upgraded
    ensures Upgraded in Put(t, item).trace ==> Upgraded in t.trace
    ensures Upgraded in Do(t, a, item).trace ==> Upgraded in t.trace
  {
  }

  lemma ExtendedDoesNotUpgrade(t: Talk, s: Setup)
    ensures Upgraded in GreetExtended(t, s).trace ==> Upgraded in t.trace
  {
    hide Do, Put;
    WritingIsNoUpgrade(t, SentHelo, Bare(Fcapa));
    WritingIsNoUpgrade(t, SentHelo, Wrote(Command(Ehlo, [s.domain])));
  }

  lemma GreetDoesNotUpgrade(t: Talk, code: int, args: string, s: Setup)
    ensures Upgraded in Greet(t, code, args, s).trace ==> Upgraded in t.trace
  {
    hide Contains, GreetExtended, Do;
    var u := if SentHelo !in t.actions && Esmtp !in t.flags && Contains(args, "ESMTP")
             then t.(flags := t.flags + {Esmtp}) else t;
    ExtendedDoesNotUpgrade(u, s);
    WritingIsNoUpgrade(u, SentHelo, Wrote(Command(Helo, [s.domain])));
  }

  lemma On220Upgrades(t: Talk, code: int, args: string, s: Setup)
    ensures Upgraded in On220(t, code, args, s).trace ==> Upgraded in t.trace || s.tls
  {
    hide Greet, Do, Put;
    GreetDoesNotUpgrade(t, code, args, s);
    WritingIsNoUpgrade(t, SentQuit, Bare(Quit));
  }

  lemma On354Upgrades(t: Talk, code: int, args: string, s: Setup)
    ensures Upgraded in On354(t, code, args, s).trace ==> Upgraded in t.trace || s.tls
  {
    hide On220, Do, Put;
    On220Upgrades(t, code, args, s);
    WritingIsNoUpgrade(t, EndedData, WroteBody(s.message + "\r\n.\r\n"));
  }

  lemma On250Upgrades(t: Talk, code: int, args: string, s: Setup)
    ensures Upgraded in On250(t, code, args, s).trace ==> Upgraded in t.trace || s.tls
  {
    hide On354, Do, Put;
    On354Upgrades(t, code, args, s);
    WritingIsNoUpgrade(t, SentStartTls, Bare(StartTls));
    WritingIsNoUpgrade(t, SentMailFrom, Wrote(Command(MailFrom, [InBrackets(s.mailFrom)])));
    WritingIsNoUpgrade(t, SentRcptTo, Wrote(Command(RcptTo, [InBrackets(s.target)])));
    WritingIsNoUpgrade(t, StartedData, Bare(Data));
  }

  lemma SwitchUpgrades(t: Talk, code: int, args: string, s: Setup)
    ensures Upgraded in Act(t, code, args, s).trace ==> Upgraded in t.trace || s.tls
  {
    hide On220, On354, On250;
    var r := t.(rounds := t.rounds + 1);
    On220Upgrades(r, code, args, s);
    On354Upgrades(r, code, args, s);
    On250Upgrades(r, code, args, s);
  }

  lemma StepUpgrades(t: Talk, i: Input, s: Setup)
    ensures Upgraded in Step(t, i, s).trace ==> Upgraded in t.trace || s.tls
  {
    hide Act, FlagsOf, Do, Put;
    WritingIsNoUpgrade(t, SentHelo, Bare(Su));
    WritingIsNoUpgrade(t, SentHelo, Wrote(Command(Ehlo, [s.domain])));
    if t.control == AwaitReply {
      SwitchUpgrades(if i.ok then t else Lose(t), i.code, i.args, s);
    } else if t.control == AwaitOptions {
      SwitchUpgrades(t.(flags := t.flags + FlagsOf([i.args] + i.more)), 250, i.args, s);
    }
  }

  lemma {:induction false} UpgradedMeansTls(t: Talk, inputs: seq<Input>, s: Setup)
    requires Upgraded in t.trace ==> s.tls
    ensures Upgraded in Run(t, inputs, s).trace ==> s.tls
    decreases |inputs|
  {
    hide Step;
    if inputs != [] {
      StepUpgrades(t, inputs[0], s);
      UpgradedMeansTls(Step(t, inputs[0], s), inputs[1..], s);
    }
  }

  // How a conversation ends: on the 221 behind a complete script, or with exactly one
  // error or a failed read. An error-free one has handed over the mail exactly once.
  lemma EndOfConversation(inputs: seq<Input>, s: Setup)
    ensures var t := Converse(START, inputs, s);
            && t.control == Finished && t.rounds <= 9 && |t.errors| <= 1
            && (t.closed ==> t.trace == Script(s) && t.errors == [])
            && (t.errors == [] && !t.lost <==> t.closed && !t.lost)
  {
    hide Script, Run, Step, Waiting;
    StartIsGoing(s);
    RunIsFine(START, inputs, s);
    var t := Run(START, inputs, s);
    StepIsFine(t, HANGUP, s);
    HangupFinishes(t, s);
  }

  lemma BodyOnceInScript(s: Setup, i: nat)
    requires i < |Script(s)|
    ensures Script(s)[i].WroteBody? <==> i == |Opening(s)| + 3
    ensures Script(s)[|Opening(s)| + 3] == WroteBody(s.message + "\r\n.\r\n")
  {
    var g := Greeting(s);
    assert forall k :: 0 <= k < |g| ==> !g[k].WroteBody?;
    assert forall k :: 0 <= k < |Opening(s)| ==> !Opening(s)[k].WroteBody?;
    if i >= |Opening(s)| {
      assert Script(s)[i] == Transaction(s)[i - |Opening(s)|];
    } else {
      assert Script(s)[i] == Opening(s)[i];
    }
  }

  lemma ErrorFreeSendsOnce(inputs: seq<Input>, s: Setup)
    requires var t := Converse(START, inputs, s); t.errors == [] && !t.lost
    ensures var trace := Converse(START, inputs, s).trace;
            exists at :: 0 <= at < |trace| && trace[at] == WroteBody(s.message + "\r\n.\r\n")
              && forall i :: 0 <= i < |trace| && trace[i].WroteBody? ==> i == at
  {
    hide Script, Converse, Opening, Transaction;
    EndOfConversation(inputs, s);
    TransactionHasFive(s);
    var at := |Opening(s)| + 3;
    assert |Script(s)| == |Opening(s)| + 5 by {
      ScriptIs(s);
    }
    forall i | 0 <= i < |Script(s)| ensures Script(s)[i].WroteBody? <==> i == at {
      BodyOnceInScript(s, i);
    }
    BodyOnceInScript(s, at);
    assert Converse(START, inputs, s).trace[at] == WroteBody(s.message + "\r\n.\r\n");
  }

  lemma ScriptIs(s: Setup)
    ensures Script(s) == Opening(s) + Transaction(s)
  {
  }

  // The HELO branch runs into the error branch: a server whose greeting does not say
  // ESMTP is written one HELO and is never sent a mail.
  lemma PlainServerIsRefused(first: Input, inputs: seq<Input>, s: Setup)
    requires first.code in {220, 221, 250, 354} && !Contains(first.args, "ESMTP")
    ensures var t := Converse(START, [first] + inputs, s);
            && t.trace == [Wrote(Command(Helo, [s.domain]))]
            && t.errors == [Transmission(first.code, first.args)]
  {
    hide Contains;
    var t := Step(START, first, s);
    assert ([first] + inputs)[1..] == inputs;
    assert [] + [Wrote(Command(Helo, [s.domain]))] == [Wrote(Command(Helo, [s.domain]))];
    assert [] + [Transmission(first.code, first.args)] == [Transmission(first.code, first.args)];
    FinishedStays(t, inputs, s);
  }

  lemma {:induction false} FinishedStays(t: Talk, inputs: seq<Input>, s: Setup)
    requires t.control == Finished
    ensures Run(t, inputs, s) == t && Converse(t, inputs, s) == t
    decreases |inputs|
  {
    if inputs != [] {
      FinishedStays(t, inputs[1..], s);
    }
  }
}
