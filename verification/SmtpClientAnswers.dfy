// What the client takes for an answer: a conversation that ends without an error was answered
// with an accepted code at every item it wrote (lib/smtp/client/SMTPClient.src.cc:242-588).
module SmtpClientAnswers {
  import opened Text
  import opened Addresses
  import opened SmtpCommand
  import opened SmtpClientSession
  import opened SmtpClient

  const COMPLETIONS := {220, 221, 250, 354}

  // The codes that let the client go on behind an item, None if any does: the options of an
  // extended greeting are read without a look at their code.
  function CodesFor(item: Sent): Option<set<int>>
  {
    match item
    case WroteBody(_) => Some(COMPLETIONS)
    case Upgraded => Some({})
    case Wrote(c) =>
      match c.kind
      case Ehlo => None
      case StartTls => Some(COMPLETIONS)
      case Fcapa => Some({601})
      case Su => Some({600})
      case MailFrom => Some({221, 250})
      case RcptTo => Some({221, 250})
      case Data => Some({221, 250, 354})
      case Quit => Some({221})
      case _ => Some({})
  }

  function Awaited(trace: seq<Sent>): Option<set<int>>
  {
    if trace == [] then Some(COMPLETIONS) else CodesFor(trace[|trace| - 1])
  }

  // The read succeeded, and its code is one of those.
  predicate Fits(t: Talk, i: Input)
  {
    i.ok && (Awaited(t.trace).None? || i.code in Awaited(t.trace).value)
  }

  // Besides, a greeting must say ESMTP, the target have a domain, and the upgrade succeed.
  predicate GoesOn(t: Talk, i: Input, s: Setup)
  {
    && Fits(t, i)
    && (t.trace == [] ==> Contains(i.args, "ESMTP") && s.target.Domain().Done?)
    && (t.trace != [] && t.trace[|t.trace| - 1] == Bare(StartTls) ==> s.tls && s.target.Domain().Done?)
  }

  // ---------------------------------------------------------------- the last item

  // Where the conversation stands, told by its last item.
  predicate LastIs(t: Talk, item: Sent)
  {
    t.trace != [] && t.trace[|t.trace| - 1] == item
  }

  lemma LastOfSum(a: seq<Sent>, item: Sent)
    ensures (a + [item])[|a + [item]| - 1] == item
  {
  }

  // Between the greeting and the transaction.
  lemma OpeningStands(t: Talk, s: Setup)
    requires Waiting(t, s) && t.control == AwaitReply && SentMailFrom !in t.actions
    ensures if SentHelo in t.actions then LastIs(t, Bare(StartTls)) && SentStartTls in t.actions && Secured !in t.actions
            else t.trace == [] && SentStartTls !in t.actions && Secured !in t.actions
  {
    hide Greeting, Opening, Transaction;
    if SentHelo in t.actions {
      LastOfSum(Greeting(s), Bare(StartTls));
    }
  }

  lemma TransactionStands(t: Talk, s: Setup)
    requires Waiting(t, s) && t.control == AwaitReply && SentMailFrom in t.actions
    ensures |Transaction(s)| == 5 && 1 <= TransactionSoFar(t.actions) <= 5
    ensures LastIs(t, Transaction(s)[TransactionSoFar(t.actions) - 1])
  {
    hide Greeting, Opening, Transaction;
    TransactionHasFive(s);
    var n := TransactionSoFar(t.actions);
    TransactionStep(s, n - 1);
    LastOfSum(Opening(s) + Transaction(s)[..n - 1], Transaction(s)[n - 1]);
  }

  lemma ExtensionStands(t: Talk, s: Setup)
    requires Waiting(t, s)
    ensures t.control == AwaitFcapa ==> LastIs(t, Bare(Fcapa))
    ensures t.control == AwaitSu ==> LastIs(t, Bare(Su))
    ensures t.control == AwaitOptions ==> LastIs(t, Wrote(Command(Ehlo, [s.domain])))
  {
    hide Opening, Transaction;
    var e := Wrote(Command(Ehlo, [s.domain]));
    var front := Greeting(s) + [Bare(StartTls), Upgraded];
    LastOfSum(if SameDomain(s) then [Bare(Fcapa), Bare(Su)] else [], e);
    if SentStartTls in t.actions && t.control != AwaitReply {
      assert |front + GreetingSoFar(t, s)| == |front| + |GreetingSoFar(t, s)|;
    }
  }

  // ---------------------------------------------------------------- one read

  // Whatever does not fit ends the conversation: nothing more is written, and the reply is
  // what is logged.
  predicate EndsWith(t: Talk, u: Talk, p: Problem)
  {
    u.control == Finished && u.trace == t.trace && u.errors == [p] && !u.closed
  }

  // Nothing is known of the server before its greeting.
  predicate Unheard(t: Talk)
  {
    t.control == AwaitReply && t.trace == [] ==> Esmtp !in t.flags
  }

  // What is logged when a fitting reply is not enough.
  function Obstacle(t: Talk, i: Input, s: Setup): Problem
  {
    if t.trace != [] && !s.tls then TlsFailed
    else if t.trace == [] && !Contains(i.args, "ESMTP") then Transmission(i.code, i.args)
    else ExtensionFailed
  }

  lemma GreetGoesOn(t: Talk, code: int, args: string, s: Setup)
    requires SentHelo !in t.actions && t.errors == []
    ensures Greet(t, code, args, s).errors != [] ==>
              Greet(t, code, args, s).errors ==
              [if Esmtp in t.flags || Contains(args, "ESMTP") then ExtensionFailed else Transmission(code, args)]
    ensures Greet(t, code, args, s).errors == [] <==>
            (Esmtp in t.flags || Contains(args, "ESMTP")) && s.target.Domain().Done?
  {
    hide Contains;
  }

  lemma GreetingAnswered(t: Talk, i: Input, s: Setup)
    requires Waiting(t, s) && Unheard(t) && t.control == AwaitReply && i.ok
    requires SentMailFrom !in t.actions && SentHelo !in t.actions
    ensures Step(t, i, s).errors == [] <==> GoesOn(t, i, s)
    ensures !Fits(t, i) ==> EndsWith(t, Step(t, i, s), Transmission(i.code, i.args))
    ensures Fits(t, i) && !GoesOn(t, i, s) ==> Step(t, i, s).errors == [Obstacle(t, i, s)]
  {
    hide Greeting, Opening, Transaction, Contains, Greet, Progress;
    OpeningStands(t, s);
    GreetGoesOn(t.(rounds := t.rounds + 1), i.code, i.args, s);
  }

  lemma UpgradeAnswered(t: Talk, i: Input, s: Setup)
    requires Waiting(t, s) && t.control == AwaitReply && i.ok
    requires SentMailFrom !in t.actions && SentHelo in t.actions
    ensures Step(t, i, s).errors == [] <==> GoesOn(t, i, s)
    ensures !Fits(t, i) ==> EndsWith(t, Step(t, i, s), Transmission(i.code, i.args))
    ensures Fits(t, i) && !GoesOn(t, i, s) ==> Step(t, i, s).errors == [Obstacle(t, i, s)]
  {
    hide Greeting, Opening, Transaction, Contains, Greet, Progress;
    OpeningStands(t, s);
    var u := t.(rounds := t.rounds + 1, actions := t.actions + {Secured});
    var v := Put(u, Upgraded).(actions := u.actions - {SentHelo});
    GreetGoesOn(v, i.code, i.args, s);
  }

  lemma TransactionAnswered(t: Talk, i: Input, s: Setup)
    requires Waiting(t, s) && t.control == AwaitReply && SentMailFrom in t.actions && i.ok
    ensures Step(t, i, s).errors == [] <==> GoesOn(t, i, s)
    ensures !Fits(t, i) ==> EndsWith(t, Step(t, i, s), Transmission(i.code, i.args))
    ensures Fits(t, i) ==> GoesOn(t, i, s)
  {
    hide Greeting, Opening, Transaction, Contains, FindString, Progress, GreetExtended;
    TransactionStands(t, s);
    TransactionItems(s);
  }

  lemma ExtensionAnswered(t: Talk, i: Input, s: Setup)
    requires Waiting(t, s) && (t.control == AwaitFcapa || t.control == AwaitSu) && i.ok
    ensures Step(t, i, s).errors == [] <==> GoesOn(t, i, s)
    ensures !Fits(t, i) ==> EndsWith(t, Step(t, i, s), ExtensionFailed)
    ensures Fits(t, i) ==> GoesOn(t, i, s)
  {
    hide Greeting, Opening, Transaction, Contains, Progress;
    ExtensionStands(t, s);
  }

  lemma OptionsAnswered(t: Talk, i: Input, s: Setup)
    requires Waiting(t, s) && t.control == AwaitOptions && i.ok
    ensures Step(t, i, s).errors == [] && GoesOn(t, i, s)
  {
    hide Greeting, Opening, Transaction, Contains, Progress, FlagsOf, On354;
    ExtensionStands(t, s);
  }

  // Every successful read: the conversation goes on without an error exactly if the code is
  // accepted behind the last item and nothing stands in the way; else one entry is in the log, and
  // for a code that is not accepted it is the reply, and nothing is written.
  lemma ReadIsJudged(t: Talk, i: Input, s: Setup)
    requires Inv(t, s) && Unheard(t) && t.control != Finished && i.ok
    ensures Step(t, i, s).errors == [] <==> GoesOn(t, i, s)
    ensures !Fits(t, i) ==>
              EndsWith(t, Step(t, i, s), if t.control == AwaitReply then Transmission(i.code, i.args) else ExtensionFailed)
    ensures Fits(t, i) && !GoesOn(t, i, s) ==> Step(t, i, s).errors == [Obstacle(t, i, s)]
  {
    hide Waiting, Step, GoesOn, Fits;
    match t.control {
      case AwaitReply =>
        if SentMailFrom in t.actions {
          TransactionAnswered(t, i, s);
        } else if SentHelo in t.actions {
          UpgradeAnswered(t, i, s);
        } else {
          GreetingAnswered(t, i, s);
        }
      case AwaitOptions =>
        OptionsAnswered(t, i, s);
        FitsFirst(t, i, s);
      case _ =>
        ExtensionAnswered(t, i, s);
    }
  }

  lemma FitsFirst(t: Talk, i: Input, s: Setup)
    ensures GoesOn(t, i, s) ==> Fits(t, i)
  {
    hide Fits, Contains;
  }

  // In particular, a code that is none of the four ends any conversation that waits for a
  // reply: nothing more is written, and exactly that reply is in the log.
  lemma OtherCodeEnds(t: Talk, i: Input, s: Setup)
    requires Waiting(t, s) && t.control == AwaitReply && i.ok && i.code !in {220, 221, 250, 354}
    ensures var u := Step(t, i, s);
            u.control == Finished && !u.closed && u.trace == t.trace && u.errors == [Transmission(i.code, i.args)]
  {
    hide Greeting, Opening, Transaction, Progress, On250, On354, On220;
  }

  // ---------------------------------------------------------------- over a conversation

  // What a switch adds to: it forgets no error and no failed read, takes nothing back, and
  // goes on waiting only when it has written something.
  predicate Adds(t: Talk, u: Talk)
  {
    && (t.lost ==> u.lost) && (t.errors != [] ==> u.errors != []) && t.trace <= u.trace
    && (u.control == AwaitReply ==> u.trace != [])
    && (u.closed ==> t.closed || u.trace == t.trace)
    && (|u.trace| <= |t.trace| + 1 || (|u.trace| == |t.trace| + 2 && u.trace[|t.trace|] == Upgraded))
  }

  // Writing one item, without closing.
  predicate AddsOne(t: Talk, u: Talk)
  {
    && (t.lost ==> u.lost) && (t.errors != [] ==> u.errors != []) && u.closed == t.closed
    && t.trace <= u.trace && |u.trace| <= |t.trace| + 1 && (u.control == AwaitReply ==> u.trace != [])
  }

  lemma ExtendedAdds(t: Talk, s: Setup)
    ensures AddsOne(t, GreetExtended(t, s)) && GreetExtended(t, s).control != AwaitReply
  {
  }

  lemma GreetAdds(t: Talk, code: int, args: string, s: Setup)
    ensures AddsOne(t, Greet(t, code, args, s))
  {
    hide Contains, GreetExtended;
    ExtendedAdds(t, s);
    ExtendedAdds(t.(flags := t.flags + {Esmtp}), s);
  }

  lemma ItemAdds(t: Talk, a: Action, item: Sent)
    ensures Adds(t, Next(Do(t, a, item)))
  {
  }

  lemma UpgradedBehind(was: seq<Sent>, now: seq<Sent>)
    requires was + [Upgraded] <= now && |now| <= |was| + 2
    ensures was <= now && now != [] && now[|was|] == Upgraded
  {
    assert now[..|was| + 1] == was + [Upgraded];
    assert now[..|was|] == now[..|was| + 1][..|was|];
  }

  lemma On220Adds(t: Talk, code: int, args: string, s: Setup)
    ensures Adds(t, On220(t, code, args, s))
  {
    hide Greet, Next, Do;
    GreetAdds(t, code, args, s);
    ItemAdds(t, SentQuit, Bare(Quit));
    var u := t.(actions := t.actions + {Secured});
    var v := Put(u, Upgraded).(actions := u.actions - {SentHelo});
    GreetAdds(v, code, args, s);
    UpgradedBehind(t.trace, Greet(v, code, args, s).trace);
  }

  lemma On354Adds(t: Talk, code: int, args: string, s: Setup)
    ensures Adds(t, On354(t, code, args, s))
  {
    hide On220, Next, Do, Adds;
    On220Adds(t, code, args, s);
    ItemAdds(t, EndedData, WroteBody(s.message + "\r\n.\r\n"));
  }

  lemma On250Adds(t: Talk, code: int, args: string, s: Setup)
    ensures Adds(t, On250(t, code, args, s))
  {
    hide On354, Next, Do, Adds;
    On354Adds(t, code, args, s);
    ItemAdds(t, SentStartTls, Bare(StartTls));
    ItemAdds(t, SentMailFrom, Wrote(Command(MailFrom, [InBrackets(s.mailFrom)])));
    ItemAdds(t, SentRcptTo, Wrote(Command(RcptTo, [InBrackets(s.target)])));
    ItemAdds(t, StartedData, Bare(Data));
  }

  lemma ActAdds(t: Talk, code: int, args: string, s: Setup)
    ensures Adds(t, Act(t, code, args, s))
  {
    hide On250, On354, On220;
    var r := t.(rounds := t.rounds + 1);
    On250Adds(r, code, args, s);
    On354Adds(r, code, args, s);
    On220Adds(r, code, args, s);
  }

  // A conversation that waits for a reply has spoken, but for its beginning.
  lemma StepSpeaks(t: Talk, i: Input, s: Setup)
    ensures t.control != Finished ==> Adds(t, Step(t, i, s)) && (!i.ok ==> Step(t, i, s).lost)
    ensures t.control == Finished ==> Step(t, i, s) == t
  {
    hide Act, FlagsOf;
    match t.control {
      case AwaitReply =>
        ActAdds(if i.ok then t else Lose(t), i.code, i.args, s);
      case AwaitOptions =>
        ActAdds(t.(flags := t.flags + FlagsOf([i.args] + i.more)), 250, i.args, s);
      case _ =>
    }
  }

  lemma RunCut(t: Talk, inputs: seq<Input>, k: nat, s: Setup)
    requires k <= |inputs|
    ensures Run(t, inputs, s) == Run(Run(t, inputs[..k], s), inputs[k..], s)
    decreases k
  {
    hide Step;
    if k == 0 {
      assert inputs[..0] == [] && inputs[0..] == inputs;
    } else {
      assert inputs[..k][0] == inputs[0] && inputs[..k][1..] == inputs[1..][..k - 1] && inputs[1..][k - 1..] == inputs[k..];
      RunCut(Step(t, inputs[0], s), inputs[1..], k - 1, s);
    }
  }

  lemma RunSnoc(t: Talk, inputs: seq<Input>, k: nat, s: Setup)
    requires k < |inputs|
    ensures Run(t, inputs[..k + 1], s) == Step(Run(t, inputs[..k], s), inputs[k], s)
  {
    hide Step;
    RunCut(t, inputs[..k + 1], k, s);
    assert inputs[..k + 1][..k] == inputs[..k] && inputs[..k + 1][k..] == [inputs[k]];
    OneStep(Run(t, inputs[..k], s), inputs[k], s);
  }

  lemma OneStep(t: Talk, i: Input, s: Setup)
    ensures Run(t, [i], s) == Step(t, i, s)
  {
    hide Step;
    assert [i][1..] == [];
  }

  lemma {:induction false} Unclean(t: Talk, inputs: seq<Input>, s: Setup)
    requires Inv(t, s)
    ensures t.lost ==> Run(t, inputs, s).lost
    ensures t.errors != [] ==> Run(t, inputs, s).errors != []
    ensures t.trace <= Run(t, inputs, s).trace
    decreases |inputs|
  {
    hide Inv, Step;
    if inputs != [] {
      StepSpeaks(t, inputs[0], s);
      StepIsFine(t, inputs[0], s);
      Unclean(Step(t, inputs[0], s), inputs[1..], s);
    }
  }

  lemma {:induction false} RunSpeaks(t: Talk, inputs: seq<Input>, s: Setup)
    requires Inv(t, s) && Unheard(t)
    ensures Unheard(Run(t, inputs, s))
    decreases |inputs|
  {
    hide Inv, Step;
    if inputs != [] {
      StepSpeaks(t, inputs[0], s);
      StepIsFine(t, inputs[0], s);
      if t.control == Finished {
        FinishedStays(t, inputs, s);
      } else {
        RunSpeaks(Step(t, inputs[0], s), inputs[1..], s);
      }
    }
  }

  // No error and no failed read.
  predicate Clean(t: Talk)
  {
    t.errors == [] && !t.lost
  }

  // The conversation behind its first `k` reads.
  function At(inputs: seq<Input>, k: nat, s: Setup): Talk
    requires k <= |inputs|
  {
    Run(START, inputs[..k], s)
  }

  lemma AtIsFine(inputs: seq<Input>, k: nat, s: Setup)
    requires k <= |inputs|
    ensures Inv(At(inputs, k, s), s) && Unheard(At(inputs, k, s))
  {
    hide Inv, Run, Unheard;
    StartIsGoing(s);
    StartIsUnheard();
    RunIsFine(START, inputs[..k], s);
    RunSpeaks(START, inputs[..k], s);
  }

  lemma StartIsUnheard()
    ensures Unheard(START)
  {
  }

  // A clean conversation does not end with the hang-up.
  lemma CleanIsFinished(inputs: seq<Input>, s: Setup)
    requires Clean(Converse(START, inputs, s))
    ensures Converse(START, inputs, s) == Run(START, inputs, s) && Run(START, inputs, s).control == Finished
  {
    hide Inv, Run, Unheard, Step;
    AtIsFine(inputs, |inputs|, s);
    assert inputs[..|inputs|] == inputs;
    StepSpeaks(Run(START, inputs, s), HANGUP, s);
    HangStays(Run(START, inputs, s), s);
  }

  lemma HangStays(t: Talk, s: Setup)
    requires t.control == Finished
    ensures Step(t, HANGUP, s) == t
  {
  }

  // An error-free conversation without a failed read: every read, from the greeting to the
  // last one, brought a code that is accepted behind the item before it.
  lemma ErrorFreeIsAnswered(inputs: seq<Input>, s: Setup, k: nat)
    requires Clean(Converse(START, inputs, s)) && k <= |inputs| && At(inputs, k, s).control != Finished
    ensures k < |inputs| && GoesOn(At(inputs, k, s), inputs[k], s) && Fits(At(inputs, k, s), inputs[k])
  {
    hide Inv, Run, Unheard, Step, GoesOn, Fits;
    CleanIsFinished(inputs, s);
    assert inputs[..|inputs|] == inputs;
    AtIsFine(inputs, k, s);
    var t := At(inputs, k, s);
    RunSnoc(START, inputs, k, s);
    var u := Step(t, inputs[k], s);
    AtIsFine(inputs, k + 1, s);
    RunCut(START, inputs, k + 1, s);
    Unclean(u, inputs[k + 1..], s);
    StepSpeaks(t, inputs[k], s);
    ReadIsJudged(t, inputs[k], s);
    FitsFirst(t, inputs[k], s);
  }

  // Where an item was written.
  lemma {:induction false} WrittenAt(inputs: seq<Input>, s: Setup, j: nat, k: nat) returns (at: nat)
    requires Clean(Converse(START, inputs, s)) && k <= |inputs| && j < |At(inputs, k, s).trace|
    requires At(inputs, k, s).trace[j] != Upgraded
    ensures at <= k && At(inputs, at, s).control != Finished
    ensures At(inputs, at, s).trace == At(inputs, k, s).trace[..j + 1]
  {
    hide Run, Step, Inv, Unheard;
    if k == 0 {
      NothingSaid(s);
      assert false;
    } else {
      var t := At(inputs, k - 1, s);
      AtIsFine(inputs, k - 1, s);
      AtIsFine(inputs, k, s);
      RunSnoc(START, inputs, k - 1, s);
      StepSpeaks(t, inputs[k - 1], s);
      var u := At(inputs, k, s);
      assert t.trace <= u.trace;
      if j < |t.trace| {
        at := WrittenAt(inputs, s, j, k - 1);
        assert u.trace[..j + 1] == t.trace[..j + 1];
      } else {
        at := k;
        CleanAt(inputs, s, k);
        if u.control == Finished {
          NotYetClosed(t, s);
          ClosedAtTheEnd(u, s);
          assert false;
        }
        assert u.trace[..|u.trace|] == u.trace;
      }
    }
  }

  lemma NothingSaid(s: Setup)
    ensures Run(START, [], s).trace == []
  {
  }

  lemma NotYetClosed(t: Talk, s: Setup)
    requires Inv(t, s)
    ensures t.control != Finished ==> !t.closed
  {
    hide Progress, Chain;
  }

  lemma ClosedAtTheEnd(t: Talk, s: Setup)
    requires Inv(t, s) && Clean(t) && t.control == Finished
    ensures t.closed
  {
    hide Script;
  }

  lemma CleanAt(inputs: seq<Input>, s: Setup, k: nat)
    requires Clean(Converse(START, inputs, s)) && k <= |inputs|
    ensures Clean(At(inputs, k, s)) && At(inputs, k, s).trace <= Converse(START, inputs, s).trace
  {
    hide Run, Step, Inv, Unheard;
    CleanIsFinished(inputs, s);
    RunCut(START, inputs, k, s);
    AtIsFine(inputs, k, s);
    Unclean(At(inputs, k, s), inputs[k..], s);
  }

  predicate AnsweredAt(inputs: seq<Input>, k: int, trace: seq<Sent>, s: Setup)
  {
    && 0 <= k < |inputs| && At(inputs, k, s).trace == trace && At(inputs, k, s).control != Finished
    && inputs[k].ok && (Awaited(trace).None? || inputs[k].code in Awaited(trace).value)
  }

  // Every item an error-free conversation wrote, but the upgrade itself, was answered with a
  // code that is accepted behind it: MAIL FROM and RCPT TO with 250 or 221, DATA with 354, 250
  // or 221, the body with one of these or 220, QUIT with 221.
  lemma EveryItemIsAnswered(inputs: seq<Input>, s: Setup, j: nat)
    requires Clean(Converse(START, inputs, s)) && j < |Converse(START, inputs, s).trace|
    requires Converse(START, inputs, s).trace[j] != Upgraded
    ensures var written := Converse(START, inputs, s).trace[..j + 1]; exists k :: AnsweredAt(inputs, k, written, s)
  {
    hide Run, Step, Inv, Unheard, Converse, GoesOn;
    CleanIsFinished(inputs, s);
    assert inputs[..|inputs|] == inputs;
    var k := WrittenAt(inputs, s, j, |inputs|);
    ErrorFreeIsAnswered(inputs, s, k);
    assert AnsweredAt(inputs, k, Converse(START, inputs, s).trace[..j + 1], s);
  }

  // The codes that were read behind the five items of the transaction.
  function CodesOf(n: nat): set<int>
  {
    if n <= 1 then {221, 250} else if n == 2 then {221, 250, 354} else if n == 3 then {220, 221, 250, 354} else {221}
  }

  // An error-free conversation wrote the whole transaction and read an accepted code behind each
  // of its items: a positive completion behind MAIL FROM, RCPT TO and QUIT; behind the body one
  // as well, exactly if it was not 354.
  lemma TransactionIsAnswered(inputs: seq<Input>, s: Setup, n: nat) returns (k: nat)
    requires Clean(Converse(START, inputs, s)) && n < 5
    ensures k < |inputs| && |Transaction(s)| == 5 && At(inputs, k, s).trace == Opening(s) + Transaction(s)[..n + 1]
    ensures inputs[k].ok && inputs[k].code in CodesOf(n)
    ensures n != 2 ==> (200 <= inputs[k].code < 300 <==> inputs[k].code != 354)
  {
    hide Run, Converse, Opening, Transaction, Script;
    EndOfConversation(inputs, s);
    TransactionItems(s);
    ScriptIs(s);
    var j := |Opening(s)| + n;
    var trace := Converse(START, inputs, s).trace;
    var written := trace[..j + 1];
    assert trace[j] == Transaction(s)[n] && written == Opening(s) + Transaction(s)[..n + 1];
    EveryItemIsAnswered(inputs, s, j);
    var at :| AnsweredAt(inputs, at, written, s);
    k := at;
    assert written[|written| - 1] == Transaction(s)[n];
  }

  // ---------------------------------------------------------------- what is taken for success

  function Ok(code: int, args: string): Input
  {
    Input(true, code, args, [])
  }

  // The replies up to the options, as the target's domain asks for them.
  function Access(s: Setup): seq<Input>
  {
    (if SameDomain(s) then [Ok(601, ""), Ok(600, "")] else []) + [Ok(250, "")]
  }

  // A server that lets a mail through and answers its body as given.
  function Meeting(s: Setup, answer: int, text: string): seq<Input>
  {
    [Ok(220, "ESMTP")] + (Access(s) + ([Ok(220, "")] + (Access(s) +
    [Ok(250, ""), Ok(250, ""), Ok(354, ""), Ok(answer, text), Ok(221, "")])))
  }

  predicate Stands(t: Talk, actions: set<Action>)
  {
    t.control == AwaitReply && t.run && Clean(t) && !t.closed && Esmtp in t.flags && t.actions == actions
  }

  lemma RunFirst(t: Talk, i: Input, rest: seq<Input>, s: Setup)
    ensures Run(t, [i] + rest, s) == Run(Step(t, i, s), rest, s)
  {
    hide Step;
    assert ([i] + rest)[1..] == rest;
  }

  // Behind the greeting, and behind the upgrade.
  lemma AccessGiven(t: Talk, rest: seq<Input>, s: Setup) returns (u: Talk)
    requires s.target.Domain().Done? && t.run && Clean(t) && !t.closed && Esmtp in t.flags && SentHelo !in t.actions
    ensures Run(GreetExtended(t, s), Access(s) + rest, s) == Run(Act(u, 250, "", s), rest, s)
    ensures u.control == AwaitOptions && u.run && Clean(u) && !u.closed && Esmtp in u.flags && u.actions == t.actions + {SentHelo}
  {
    hide Act, Run, FlagsOf;
    var last := Ok(250, "");
    var start := if SameDomain(s) then Put(Put(t, Bare(Fcapa)), Bare(Su)) else t;
    var v := SendEhlo(start, s);
    u := v.(flags := v.flags + FlagsOf([""] + []));
    RunFirst(v, last, rest, s);
    if SameDomain(s) {
      var g := GreetExtended(t, s);
      assert Access(s) + rest == [Ok(601, "")] + ([Ok(600, "")] + ([last] + rest));
      RunFirst(g, Ok(601, ""), [Ok(600, "")] + ([last] + rest), s);
      RunFirst(Step(g, Ok(601, ""), s), Ok(600, ""), [last] + rest, s);
    } else {
      assert Access(s) + rest == [last] + rest;
    }
  }

  lemma SaysEsmtp()
    ensures Contains("ESMTP", "ESMTP")
  {
  }

  lemma Greeted(rest: seq<Input>, s: Setup) returns (u: Talk)
    requires s.target.Domain().Done?
    ensures Run(START, [Ok(220, "ESMTP")] + (Access(s) + rest), s) == Run(u, rest, s)
    ensures Stands(u, {SentHelo, SentStartTls})
  {
    hide Run, Contains, GreetExtended;
    SaysEsmtp();
    RunFirst(START, Ok(220, "ESMTP"), Access(s) + rest, s);
    var t := START.(rounds := 1, flags := {} + {Esmtp});
    assert Step(START, Ok(220, "ESMTP"), s) == GreetExtended(t, s);
    var v := AccessGiven(t, rest, s);
    u := Act(v, 250, "", s);
    assert {} + {SentHelo} + {SentStartTls} == {SentHelo, SentStartTls};
  }

  lemma Secures(t: Talk, rest: seq<Input>, s: Setup) returns (u: Talk)
    requires Stands(t, {SentHelo, SentStartTls}) && s.tls && s.target.Domain().Done?
    ensures Run(t, [Ok(220, "")] + (Access(s) + rest), s) == Run(u, rest, s)
    ensures Stands(u, {SentHelo, SentStartTls, Secured, SentMailFrom})
  {
    hide Run, Contains, GreetExtended;
    RunFirst(t, Ok(220, ""), Access(s) + rest, s);
    var r := t.(rounds := t.rounds + 1, actions := t.actions + {Secured});
    var v := Put(r, Upgraded).(actions := r.actions - {SentHelo});
    assert Step(t, Ok(220, ""), s) == GreetExtended(v, s);
    var w := AccessGiven(v, rest, s);
    u := Act(w, 250, "", s);
    assert w.actions == {SentHelo, SentStartTls, Secured};
    assert w.actions + {SentMailFrom} == {SentHelo, SentStartTls, Secured, SentMailFrom};
  }

  lemma Transacts(t: Talk, rest: seq<Input>, s: Setup) returns (u: Talk)
    requires Stands(t, {SentHelo, SentStartTls, Secured, SentMailFrom})
    ensures Run(t, [Ok(250, ""), Ok(250, ""), Ok(354, "")] + rest, s) == Run(u, rest, s)
    ensures Stands(u, {SentHelo, SentStartTls, Secured, SentMailFrom, SentRcptTo, StartedData, EndedData})
    ensures u.trace != [] && u.trace[|u.trace| - 1] == WroteBody(s.message + "\r\n.\r\n")
  {
    hide Run, Greet;
    assert [Ok(250, ""), Ok(250, ""), Ok(354, "")] + rest == [Ok(250, "")] + ([Ok(250, "")] + ([Ok(354, "")] + rest));
    RunFirst(t, Ok(250, ""), [Ok(250, "")] + ([Ok(354, "")] + rest), s);
    var a := Step(t, Ok(250, ""), s);
    RunFirst(a, Ok(250, ""), [Ok(354, "")] + rest, s);
    var b := Step(a, Ok(250, ""), s);
    RunFirst(b, Ok(354, ""), rest, s);
    u := Step(b, Ok(354, ""), s);
  }

  // The mail is taken for delivered exactly if the answer behind its body is one of four; 354,
  // which completes nothing, is among them (section 4.2.1 of RFC 5321).
  lemma BodyIsTakenFor(s: Setup, answer: int, text: string)
    requires s.tls && s.target.Domain().Done?
    ensures var t := Converse(START, Meeting(s, answer, text), s);
            if answer in {220, 221, 250, 354} then t.closed && Clean(t) && t.trace == Script(s)
            else
              && t.errors == [Transmission(answer, text)] && !t.closed
              && t.trace != [] && t.trace[|t.trace| - 1] == WroteBody(s.message + "\r\n.\r\n")
  {
    hide Run, Script, Step;
    var tail := [Ok(answer, text), Ok(221, "")];
    var c := [Ok(250, ""), Ok(250, ""), Ok(354, "")] + tail;
    assert c == [Ok(250, ""), Ok(250, ""), Ok(354, ""), Ok(answer, text), Ok(221, "")];
    var t := Greeted([Ok(220, "")] + (Access(s) + c), s);
    var u := Secures(t, c, s);
    var v := Transacts(u, tail, s);
    assert Run(START, Meeting(s, answer, text), s) == Run(v, tail, s);
    LastTwo(v, answer, text, s);
    EndOfConversation(Meeting(s, answer, text), s);
    HangStays(Run(v, tail, s), s);
  }

  // The answer behind the body, and the one behind QUIT.
  lemma LastTwo(t: Talk, answer: int, text: string, s: Setup)
    requires Stands(t, {SentHelo, SentStartTls, Secured, SentMailFrom, SentRcptTo, StartedData, EndedData})
    ensures var u := Run(t, [Ok(answer, text), Ok(221, "")], s);
            && u.control == Finished
            && if answer in {220, 221, 250, 354} then u.closed && Clean(u)
               else u.trace == t.trace && u.errors == [Transmission(answer, text)] && !u.closed
  {
    hide Run, Contains, GreetExtended;
    assert [Ok(answer, text), Ok(221, "")] == [Ok(answer, text)] + ([Ok(221, "")] + []);
    RunFirst(t, Ok(answer, text), [Ok(221, "")] + [], s);
    var u := Step(t, Ok(answer, text), s);
    RunFirst(u, Ok(221, ""), [], s);
    NothingMore(Step(u, Ok(221, ""), s), s);
  }

  lemma NothingMore(t: Talk, s: Setup)
    ensures Run(t, [], s) == t
  {
  }
}
