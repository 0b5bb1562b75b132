// `SMTPClient` itself (lib/smtp/client/SMTPClient.src.cc:138-596): the loop over the
// targets and the `while (_run)` loop of one conversation, which changes the session
// words, the error log and the socket step by step.
module SmtpClientLoop {
  import opened Text
  import Mime
  import opened Addresses
  import opened SmtpCommand
  import opened SmtpClientSession
  import opened SmtpClient

  // The socket: what the server is going to say, and what was done to it.
  class Channel {
    var pending: seq<Input>
    var written: seq<Sent>

    constructor (replies: seq<Input>)
      ensures pending == replies && written == []
    {
      pending, written := replies, [];
    }

    method Read() returns (i: Input)
      modifies this`pending
      ensures i == First(old(pending)) && pending == Rest(old(pending))
    {
      i := First(pending);
      pending := Rest(pending);
    }

    method Write(item: Sent)
      modifies this`written
      ensures written == old(written) + [item]
    {
      written := written + [item];
    }
  }

  function First(pending: seq<Input>): Input
  {
    if pending == [] then HANGUP else pending[0]
  }

  function Rest(pending: seq<Input>): seq<Input>
  {
    if pending == [] then [] else pending[1..]
  }

  // One read is one step.
  lemma ReadStep(t: Talk, pending: seq<Input>, s: Setup)
    ensures Converse(t, pending, s) == Converse(Step(t, First(pending), s), Rest(pending), s)
  {
    hide Step;
    if pending == [] {
      var u := Step(t, HANGUP, s);
      HangupFinishes(t, s);
      FinishedStays(u, [], s);
    }
  }

  // The variables of one conversation.
  class Conversation {
    const s: Setup
    const session: ClientSession
    const client: Channel
    var errors: seq<Problem>
    var run: bool
    var performParse: bool
    var code: int
    var args: string
    ghost var control: Control
    ghost var closed: bool
    ghost var lost: bool
    ghost var rounds: nat

    ghost function Now(): Talk
      reads this, session, client
    {
      Talk(control, session.Actions(), session.Flags(), client.written, run, errors, closed, lost, rounds)
    }

    // At the loop condition.
    ghost predicate Ready()
      reads this, session, client
    {
      && (if run then control == (if performParse then AwaitReply else AwaitOptions) else control == Finished)
      && (run && !performParse ==> code == 250)
      && Inv(Now(), s)
    }

    // How the conversation is going to end.
    ghost function Outcome(): Talk
      reads this, session, client
    {
      Converse(if run && !performParse then Act(Now(), 250, args, s) else Now(), client.pending, s)
    }

    constructor (s: Setup, replies: seq<Input>)
      ensures this.s == s && fresh(session) && fresh(client)
      ensures Ready() && Outcome() == Converse(START, replies, s)
      ensures session.Actions() == {} && errors == [] && client.written == []
    {
      this.s := s;
      session := new ClientSession();
      client := new Channel(replies);
      errors, run, performParse, code, args := [], true, true, 0, "";
      control, closed, lost, rounds := AwaitReply, false, false, 0;
      new;
      StartIsGoing(s);
      assert Now() == START;
    }

    method Fail(p: Problem)
      modifies this`errors, this`run, this`control
      ensures Now() == SmtpClient.Fail(old(Now()), p)
      ensures Outcome() == old(Converse(SmtpClient.Fail(Now(), p), client.pending, s))
    {
      errors := errors + [p];
      run, control := false, Finished;
    }

    // `break` or `continue`: the loop condition is next.
    method Proceed(a: Action, item: Sent)
      requires performParse
      modifies this`control, session, client`written
      ensures Now() == Next(Do(old(Now()), a, item))
      ensures Outcome() == old(Converse(Next(Do(Now(), a, item)), client.pending, s))
    {
      session.SetAction(a);
      client.Write(item);
      control := if run then AwaitReply else Finished;
    }

    // The extension handshake with a server of the same domain (lines 464-498).
    method AskAccess() returns (granted: bool)
      requires SentHelo !in session.Actions() && SameDomain(s)
      requires Inv(Put(Now(), Bare(Fcapa)).(control := AwaitFcapa), s)
      modifies this`control, this`run, this`lost, client
      ensures var t := old(Put(Now(), Bare(Fcapa)).(control := AwaitFcapa));
              var u := if granted then SendEhlo(Now(), s) else SmtpClient.Fail(Now(), ExtensionFailed);
              Converse(t, old(client.pending), s) == Converse(u, client.pending, s) && Inv(u, s)
    {
      hide Inv, Converse;
      client.Write(Bare(Fcapa));
      control := AwaitFcapa;
      ghost var t := Now();
      ReadStep(t, client.pending, s);
      var reply := client.Read();
      StepIsFine(t, reply, s);
      if !reply.ok || reply.code != 601 {
        run, lost := run && reply.ok, lost || !reply.ok;
        return false;
      }
      client.Write(Bare(Su));
      control := AwaitSu;
      ghost var u := Now();
      assert u == Step(t, reply, s);
      ReadStep(u, client.pending, s);
      reply := client.Read();
      StepIsFine(u, reply, s);
      if !reply.ok {
        run, lost := false, true;
      }
      granted := reply.ok && reply.code == 600;
    }

    method SetOptions(options: seq<string>)
      modifies session
      ensures session.Flags() == old(session.Flags()) + FlagsOf(options)
      ensures session.Actions() == old(session.Actions())
    {
      hide FlagsOf;
      FlagsOfNone();
      assert options[..0] == [];
      for i := 0 to |options|
        invariant session.Flags() == old(session.Flags()) + FlagsOf(options[..i])
        invariant session.Actions() == old(session.Actions())
      {
        FlagsOfSnoc(options, i);
        if options[i] == "STARTTLS" {
          session.SetFlag(OffersTls);
        } else if options[i] == "8BITMIME" {
          session.SetFlag(EightBitMime);
        } else if options[i] == "ENHANCEDSTATUSCODES" {
          session.SetFlag(EnhancedCodes);
        } else if options[i] == "PIPELINING" {
          session.SetFlag(Pipelining);
        } else if options[i] == "CHUNKING" {
          session.SetFlag(Chunking);
        }
      }
      assert options[..|options|] == options;
    }

    // The options of the extended greeting (lines 511-558).
    method ReadOptions()
      requires control == AwaitOptions && performParse && Inv(Now(), s)
      modifies this`control, this`run, this`lost, this`performParse, this`code, this`args, session, client`pending
      ensures Ready() && Outcome() == old(Converse(Now(), client.pending, s))
    {
      hide Converse, Step, Act, FlagsOf, Inv;
      ghost var t := Now();
      ReadStep(t, client.pending, s);
      var reply := client.Read();
      StepIsFine(t, reply, s);
      StepOptions(t, reply, s);
      if !reply.ok {
        run, lost, control := false, true, Finished;
        assert Now() == Finish(Lose(t));
        return;
      }
      var options := [reply.args] + reply.more;
      SetOptions(options);
      performParse, code, args := false, 250, options[0];
      if !run {
        control := Finished;
      }
    }

    // Lines 462-559.
    method GreetExtended()
      requires performParse && SentHelo !in session.Actions() && Esmtp in session.Flags()
      requires Inv(SmtpClient.GreetExtended(Now(), s), s)
      modifies this, session, client
      ensures Ready() && rounds == old(rounds)
      ensures Outcome() == old(Converse(SmtpClient.GreetExtended(Now(), s), client.pending, s))
    {
      hide Converse, Inv;
      var targetDomain := s.target.Domain();
      if !targetDomain.Done? {
        Fail(ExtensionFailed);
        return;
      }
      if targetDomain.value == s.localDomain {
        var granted := AskAccess();
        if !granted {
          Fail(ExtensionFailed);
          return;
        }
      }
      session.SetAction(SentHelo);
      client.Write(Wrote(Command(Ehlo, [s.domain])));
      control := AwaitOptions;
      ReadOptions();
    }

    // Lines 448-575.
    method Greet()
      requires performParse && Inv(SmtpClient.Greet(Now(), code, args, s), s)
      modifies this, session, client
      ensures Ready() && rounds == old(rounds)
      ensures Outcome() == old(Converse(SmtpClient.Greet(Now(), code, args, s), client.pending, s))
    {
      hide Converse, Inv, FindString, SmtpClient.GreetExtended;
      ghost var t := Now();
      if !session.GetAction(SentHelo) && !session.GetFlag(Esmtp) {
        if FindString(args, "ESMTP").Some? {
          session.SetFlag(Esmtp);
        }
      }
      if !session.GetAction(SentHelo) && session.GetFlag(Esmtp) {
        GreetExtended();
        return;
      }
      if !session.GetAction(SentHelo) && !session.GetFlag(Esmtp) {
        session.SetAction(SentHelo);
        client.Write(Wrote(Command(Helo, [s.domain])));
      }
      Fail(Transmission(code, args));
    }

    // Lines 397-576.
    method Case220()
      requires performParse && Inv(On220(Now(), code, args, s), s)
      modifies this, session, client
      ensures Ready() && rounds == old(rounds)
      ensures Outcome() == old(Converse(On220(Now(), code, args, s), client.pending, s))
    {
      hide Converse, Inv, SmtpClient.Greet;
      if session.GetAction(EndedData) && !session.GetAction(SentQuit) {
        Proceed(SentQuit, Bare(Quit));
        return;
      }
      if session.GetAction(SentStartTls) && !session.GetAction(Secured) && session.GetFlag(Esmtp) {
        session.SetAction(Secured);
        if !s.tls {
          Fail(TlsFailed);
          return;
        }
        client.Write(Upgraded);
        session.ClearAction(SentHelo);
      }
      Greet();
    }

    // Lines 379-576.
    method Case354()
      requires performParse && Inv(On354(Now(), code, args, s), s)
      modifies this, session, client
      ensures Ready() && rounds == old(rounds)
      ensures Outcome() == old(Converse(On354(Now(), code, args, s), client.pending, s))
    {
      hide Converse, Inv, On220;
      if session.GetAction(StartedData) && !session.GetAction(EndedData) {
        Proceed(EndedData, WroteBody(s.message + "\r\n.\r\n"));
        return;
      }
      Case220();
    }

    // Lines 306-576.
    method Case250()
      requires performParse && Inv(On250(Now(), code, args, s), s)
      modifies this, session, client
      ensures Ready() && rounds == old(rounds)
      ensures Outcome() == old(Converse(On250(Now(), code, args, s), client.pending, s))
    {
      hide Converse, Inv, On354;
      if session.GetAction(SentHelo) && !session.GetAction(SentStartTls) && session.GetFlag(Esmtp) {
        Proceed(SentStartTls, Bare(StartTls));
      } else if (session.GetAction(SentHelo) && !session.GetFlag(Esmtp)) ||
                (session.GetAction(Secured) && session.GetFlag(Esmtp) && !session.GetAction(SentMailFrom)) {
        Proceed(SentMailFrom, Wrote(Command(MailFrom, [InBrackets(s.mailFrom)])));
      } else if session.GetAction(SentMailFrom) && !session.GetAction(SentRcptTo) {
        Proceed(SentRcptTo, Wrote(Command(RcptTo, [InBrackets(s.target)])));
      } else if session.GetAction(SentRcptTo) && !session.GetAction(StartedData)
                && !session.GetAction(EndedData) {
        Proceed(StartedData, Bare(Data));
      } else {
        Case354();
      }
    }

    // The switch on the reply code.
    method Switch()
      requires performParse && Inv(Act(Now(), code, args, s), s)
      modifies this, session, client
      ensures Ready() && rounds == old(rounds) + 1
      ensures Outcome() == old(Converse(Act(Now(), code, args, s), client.pending, s))
    {
      hide Converse, Inv, On250, On354, On220;
      rounds := rounds + 1;
      if code == 221 && session.GetAction(SentQuit) {
        run, control, closed := false, Finished, true;
      } else if code == 221 || code == 250 {
        Case250();
      } else if code == 354 {
        Case354();
      } else if code == 220 {
        Case220();
      } else {
        Fail(Transmission(code, args));
      }
    }

    // One turn of the loop: a read unless the last turn left a reply behind, then the switch.
    method Turn()
      requires run && Ready()
      modifies this, session, client
      ensures Ready() && Outcome() == old(Outcome())
      ensures rounds == old(rounds) + 1
    {
      hide Converse, Inv, Act;
      if performParse {
        ghost var t := Now();
        ReadStep(t, client.pending, s);
        var reply := client.Read();
        StepIsFine(t, reply, s);
        code, args := reply.code, reply.args;
        if !reply.ok {
          run, lost := false, true;
        }
        assert Now() == if reply.ok then t else Lose(t);
      } else {
        performParse := true;
        AfterOptions(Now(), args, s);
      }
      Switch();
    }

    // The whole conversation computes what the steps say, and it ends.
    method Hold()
      requires Ready()
      modifies this, session, client
      ensures !run && Now() == old(Outcome())
    {
      hide Converse, Act;
      while run
        invariant Ready() && Outcome() == old(Outcome())
        invariant rounds <= 9
        decreases 9 - rounds
      {
        RoundsLeft(Now(), s);
        Turn();
        RoundsLeft(Now(), s);
      }
      FinishedStays(Now(), client.pending, s);
    }
  }

  lemma RoundsLeft(t: Talk, s: Setup)
    requires Inv(t, s)
    ensures t.rounds <= 9 && (t.control != Finished ==> t.rounds < 9)
  {
    hide Progress, Script;
  }

  // The turn behind the options acts on a 250.
  lemma AfterOptions(t: Talk, args: string, s: Setup)
    requires t.control == AwaitOptions && t.run && Inv(t, s)
    ensures Inv(Act(t, 250, args, s), s)
  {
    hide Act, Progress, Script;
    ActIsFine(t, 250, args, s);
  }

  // ---------------------------------------------------------------- all targets

  datatype Entry = Entry(address: EmailAddress, problem: Problem)

  // A target, with the outcome of `connectAsClient`, of the upgrade, and what its server says.
  datatype Target = Target(address: EmailAddress, connects: bool, tls: bool, replies: seq<Input>)

  datatype Job = Job(domain: string, localDomain: string, mailFrom: EmailAddress, message: string)

  function SetupOf(job: Job, target: Target): Setup
  {
    Setup(job.domain, job.localDomain, job.mailFrom, job.message, target.address, target.tls)
  }

  function ProblemsOf(job: Job, target: Target): seq<Problem>
  {
    if !target.connects then [NotConnected]
    else Converse(START, target.replies, SetupOf(job, target)).errors
  }

  function EntriesOf(address: EmailAddress, problems: seq<Problem>): (r: seq<Entry>)
    ensures |r| == |problems|
  {
    seq(|problems|, i requires 0 <= i < |problems| => Entry(address, problems[i]))
  }

  function LogOf(job: Job, targets: seq<Target>): seq<Entry>
  {
    if targets == [] then []
    else EntriesOf(targets[0].address, ProblemsOf(job, targets[0])) + LogOf(job, targets[1..])
  }

  class SMTPClient {
    var s_ErrorCount: nat
    var s_ErrorLog: seq<Entry>

    predicate Valid()
      reads this
    {
      s_ErrorCount == |s_ErrorLog|
    }

    constructor ()
      ensures Valid() && s_ErrorLog == []
    {
      s_ErrorCount, s_ErrorLog := 0, [];
    }

    method Reset()
      modifies this
      ensures Valid() && s_ErrorLog == []
    {
      s_ErrorLog, s_ErrorCount := [], 0;
    }

    method AddError(address: EmailAddress, problem: Problem)
      requires Valid()
      modifies this
      ensures Valid() && s_ErrorLog == old(s_ErrorLog) + [Entry(address, problem)]
    {
      s_ErrorLog := s_ErrorLog + [Entry(address, problem)];
      s_ErrorCount := s_ErrorCount + 1;
    }

    // Every target is tried once, in order, whatever happened to the ones before it.
    method BeSocial(job: Job, targets: seq<Target>) returns (ghost talks: seq<Talk>)
      requires Valid()
      modifies this
      ensures Valid() && s_ErrorLog == old(s_ErrorLog) + LogOf(job, targets)
      ensures |talks| == |targets|
      ensures forall i :: 0 <= i < |targets| && targets[i].connects ==>
                talks[i] == Converse(START, targets[i].replies, SetupOf(job, targets[i]))
    {
      hide Converse, LogOf;
      talks := [];
      assert targets[0..] == targets;
      for n := 0 to |targets|
        invariant Valid() && |talks| == n
        invariant s_ErrorLog + LogOf(job, targets[n..]) == old(s_ErrorLog) + LogOf(job, targets)
        invariant forall i :: 0 <= i < n && targets[i].connects ==>
                    talks[i] == Converse(START, targets[i].replies, SetupOf(job, targets[i]))
      {
        var target := targets[n];
        LogStep(job, targets, n);
        var problems := [NotConnected];
        if target.connects {
          var conversation := new Conversation(SetupOf(job, target), target.replies);
          conversation.Hold();
          talks := talks + [conversation.Now()];
          problems := conversation.errors;
        } else {
          talks := talks + [START];
        }
        Mime.Assoc(s_ErrorLog, EntriesOf(target.address, problems), LogOf(job, targets[n + 1..]));
        AddErrors(target.address, problems);
      }
      assert targets[|targets|..] == [];
      LogNone(job);
      assert s_ErrorLog + [] == s_ErrorLog;
    }

    method AddErrors(address: EmailAddress, problems: seq<Problem>)
      requires Valid()
      modifies this
      ensures Valid() && s_ErrorLog == old(s_ErrorLog) + EntriesOf(address, problems)
    {
      for i := 0 to |problems|
        invariant Valid() && s_ErrorLog == old(s_ErrorLog) + EntriesOf(address, problems)[..i]
      {
        AddError(address, problems[i]);
      }
      assert EntriesOf(address, problems)[..|problems|] == EntriesOf(address, problems);
    }
  }

  lemma LogNone(job: Job)
    ensures LogOf(job, []) == []
  {
  }

  lemma LogStep(job: Job, targets: seq<Target>, n: nat)
    requires n < |targets|
    ensures LogOf(job, targets[n..]) ==
            EntriesOf(targets[n].address, ProblemsOf(job, targets[n])) + LogOf(job, targets[n + 1..])
  {
    assert targets[n..][1..] == targets[n + 1..];
  }

  // What goes over the socket for an item.
  function WireText(item: Sent): string
  {
    match item
    case Wrote(c) => CommandText(c)
    case WroteBody(text) => text
    case Upgraded => ""
  }

  function WireTexts(trace: seq<Sent>): (r: seq<string>)
    ensures |r| == |trace| && forall i :: 0 <= i < |trace| ==> r[i] == WireText(trace[i])
  {
    seq(|trace|, i requires 0 <= i < |trace| => WireText(trace[i]))
  }

  // The commands as text; between "STARTTLS" and what follows nothing but the handshake.
  function FullWire(job: Job, target: Target): seq<string>
  {
    var access := if target.address.Domain() == Done(job.localDomain) then ["FCAPA\r\n", "SU\r\n"] else [];
    access + ["EHLO " + job.domain + "\r\n", "STARTTLS\r\n", ""] + access + ["EHLO " + job.domain + "\r\n"]
    + ["MAIL FROM: <" + job.mailFrom.address + ">\r\n", "RCPT TO: <" + target.address.address + ">\r\n", "DATA\r\n",
       job.message + "\r\n.\r\n", "QUIT\r\n"]
  }

  lemma BareText(kind: CommandType)
    requires !HasColon(kind)
    ensures CommandText(Command(kind, [])) == Name(kind) + "\r\n"
  {
    hide Name;
    assert Name(kind) + "" == Name(kind);
  }

  lemma OneArgument(kind: CommandType, arg: string)
    ensures CommandText(Command(kind, [arg])) == Name(kind) + (if HasColon(kind) then ": " else " ") + arg + "\r\n"
  {
    hide Name, HasColon;
    assert [arg][1..] == [] && ArgText([]) == "" && " " + arg + "" == " " + arg;
    if HasColon(kind) {
      assert Name(kind) + ":" + (" " + arg) == Name(kind) + ": " + arg;
    } else {
      assert Name(kind) + "" + (" " + arg) == Name(kind) + " " + arg;
    }
  }

  lemma AddressText(kind: CommandType, a: EmailAddress)
    requires HasColon(kind)
    ensures CommandText(Command(kind, [InBrackets(a)])) == Name(kind) + ": <" + a.address + ">\r\n"
  {
    hide CommandText, Name, HasColon;
    OneArgument(kind, InBrackets(a));
    assert Name(kind) + ": " + ("<" + a.address + ">") + "\r\n" == Name(kind) + ": <" + a.address + ">\r\n";
  }

  lemma GreetingOnTheWire(job: Job, target: Target)
    ensures WireTexts(Greeting(SetupOf(job, target))) ==
            (if target.address.Domain() == Done(job.localDomain) then ["FCAPA\r\n", "SU\r\n"] else [])
            + ["EHLO " + job.domain + "\r\n"]
  {
    hide CommandText;
    BareText(Fcapa);
    BareText(Su);
    OneArgument(Ehlo, job.domain);
    assert "EHLO" + " " + job.domain + "\r\n" == "EHLO " + job.domain + "\r\n";
    assert "FCAPA" + "\r\n" == "FCAPA\r\n" && "SU" + "\r\n" == "SU\r\n";
  }

  lemma TransactionOnTheWire(job: Job, target: Target)
    ensures WireTexts(Transaction(SetupOf(job, target))) ==
            ["MAIL FROM: <" + job.mailFrom.address + ">\r\n", "RCPT TO: <" + target.address.address + ">\r\n", "DATA\r\n",
             job.message + "\r\n.\r\n", "QUIT\r\n"]
  {
    hide CommandText, InBrackets;
    BareText(Data);
    BareText(Quit);
    AddressText(MailFrom, job.mailFrom);
    AddressText(RcptTo, target.address);
    assert "MAIL FROM" + ": <" + job.mailFrom.address + ">\r\n" == "MAIL FROM: <" + job.mailFrom.address + ">\r\n";
    assert "RCPT TO" + ": <" + target.address.address + ">\r\n" == "RCPT TO: <" + target.address.address + ">\r\n";
    assert "DATA" + "\r\n" == "DATA\r\n" && "QUIT" + "\r\n" == "QUIT\r\n";
  }

  lemma ScriptOnTheWire(job: Job, target: Target)
    ensures WireTexts(Script(SetupOf(job, target))) == FullWire(job, target)
  {
    hide CommandText, Greeting, Transaction;
    var s := SetupOf(job, target);
    BareText(StartTls);
    assert "STARTTLS" + "\r\n" == "STARTTLS\r\n";
    GreetingOnTheWire(job, target);
    TransactionOnTheWire(job, target);
    assert WireTexts([Bare(StartTls), Upgraded]) == ["STARTTLS\r\n", ""];
    assert WireTexts(Script(s)) ==
           WireTexts(Greeting(s)) + ["STARTTLS\r\n", ""] + WireTexts(Greeting(s)) + WireTexts(Transaction(s));
    var access := if target.address.Domain() == Done(job.localDomain) then ["FCAPA\r\n", "SU\r\n"] else [];
    var ehlo := ["EHLO " + job.domain + "\r\n"];
    assert access + ehlo + ["STARTTLS\r\n", ""] + (access + ehlo) ==
           access + ["EHLO " + job.domain + "\r\n", "STARTTLS\r\n", ""] + access + ehlo;
  }

  // What each target is sent, whatever its server says: a beginning of the full text, or the
  // one HELO; all of it exactly if no error is logged and no read failed on the way.
  lemma EachTargetIsSent(job: Job, target: Target)
    ensures var t := Converse(START, target.replies, SetupOf(job, target));
            && (WireTexts(t.trace) <= FullWire(job, target) || WireTexts(t.trace) == ["HELO " + job.domain + "\r\n"])
            && (t.errors == [] && !t.lost ==> WireTexts(t.trace) == FullWire(job, target))
  {
    hide Converse, Script, FullWire, CommandText, Run, Step;
    var s := SetupOf(job, target);
    var t := Converse(START, target.replies, s);
    ScriptOnTheWire(job, target);
    EndOfConversation(target.replies, s);
    HangupIsRun(target.replies, s);
    OneArgument(Helo, job.domain);
    assert "HELO" + " " + job.domain + "\r\n" == "HELO " + job.domain + "\r\n";
    if t.trace <= Script(s) {
      assert forall i :: 0 <= i < |t.trace| ==> t.trace[i] == Script(s)[i];
    }
  }

  lemma HangupIsRun(replies: seq<Input>, s: Setup)
    ensures var t := Converse(START, replies, s);
            t.trace <= Script(s) || t.trace == [Wrote(Command(Helo, [s.domain]))]
  {
    hide Script, Run, Step, Waiting;
    StartIsGoing(s);
    RunIsFine(START, replies, s);
    StepIsFine(Run(START, replies, s), HANGUP, s);
    HangupFinishes(Run(START, replies, s), s);
  }

  // The targets with which something went wrong, in order.
  function Failing(job: Job, targets: seq<Target>): seq<Target>
  {
    if targets == [] then []
    else (if ProblemsOf(job, targets[0]) == [] then [] else [targets[0]]) + Failing(job, targets[1..])
  }

  // The log has one entry for each of them, in their order, and none besides: no target is
  // blamed twice.
  lemma {:induction false} OneEntryPerTarget(job: Job, targets: seq<Target>)
    ensures var failing, log := Failing(job, targets), LogOf(job, targets);
            && |log| == |failing| <= |targets|
            && forall k :: 0 <= k < |log| ==>
                 && |ProblemsOf(job, failing[k])| == 1
                 && log[k] == Entry(failing[k].address, ProblemsOf(job, failing[k])[0])
  {
    hide Converse, ProblemsOf;
    if targets != [] {
      OneProblem(job, targets[0]);
      OneEntryPerTarget(job, targets[1..]);
    }
  }

  lemma OneProblem(job: Job, target: Target)
    ensures |ProblemsOf(job, target)| <= 1
  {
    hide Converse;
    if target.connects {
      EndOfConversation(target.replies, SetupOf(job, target));
    }
  }

  lemma StepOptions(t: Talk, i: Input, s: Setup)
    requires t.control == AwaitOptions && Inv(t, s)
    ensures var u := t.(flags := t.flags + FlagsOf([i.args] + i.more));
            && Step(t, i, s) == (if !i.ok then Finish(Lose(t)) else if u.run then Act(u, 250, i.args, s) else Finish(u))
            && Inv(u, s)
  {
    hide Act, FlagsOf, Greeting, Opening, Transaction;
  }

  lemma FlagsOfNone()
    ensures FlagsOf([]) == {}
  {
  }

  lemma FlagsOfSnoc(options: seq<string>, i: nat)
    requires i < |options|
    ensures FlagsOf(options[..i + 1]) == FlagsOf(options[..i]) + FlagsOf([options[i]])
    ensures FlagsOf([options[i]]) ==
            if options[i] == "STARTTLS" then {OffersTls}
            else if options[i] == "8BITMIME" then {EightBitMime}
            else if options[i] == "ENHANCEDSTATUSCODES" then {EnhancedCodes}
            else if options[i] == "PIPELINING" then {Pipelining}
            else if options[i] == "CHUNKING" then {Chunking}
            else {}
  {
    assert options[..i + 1] == options[..i] + [options[i]];
  }
}
