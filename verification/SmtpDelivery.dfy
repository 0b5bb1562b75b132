// The joint machine when nothing goes wrong: the mail arrives, once.
module SmtpDelivery {
  import opened Text
  import opened Addresses
  import opened SmtpCommand
  import opened SmtpJoint
  import C = SmtpClient
  import CS = SmtpClientSession
  import S = SmtpServer
  import SS = SmtpServerSession
  import D = DataText
  import MailStore

  // The oracles of the server are well disposed towards the item it handles: the sender's
  // domain is not local (or SU was granted), the recipient exists, DATA is not rejected.
  predicate Kind(item: C.Sent, env: S.Env, s: C.Setup, account: MailStore.Account)
  {
    match item
    case Wrote(c) =>
      && (c.kind == Su ==> env.access == S.Allowed)
      && (c.kind == StartTls ==> env.tls)
      && (c.kind == MailFrom ==> env.domain == S.Missing || C.SameDomain(s))
      && (c.kind == RcptTo ==> env.domain != S.Broken && env.account == S.Known(account))
    case WroteBody(_) =>
      env.delivery.Read? && !env.delivery.broken && (env.delivery.spf || env.delivery.dmarc != Some(S.PolicyReject))
    case Upgraded => true
  }

  predicate Proper(s: C.Setup)
  {
    && Fits(s) && EndsOnce(s.message) && D.Storable(s.message)
    && s.tls && PlainAddress(s.mailFrom.address) && PlainAddress(s.target.address)
  }

  // Every read of the run succeeds, and every item is met kindly.
  predicate Kindly(j: Joint, turns: seq<Turn>, s: C.Setup, account: MailStore.Account)
    decreases |turns|
  {
    turns == [] ||
    (&& !turns[0].lost
     && (j.talk.control != C.Finished ==> Kind(Answering(j.talk, s), turns[0].env, s, account))
     && Kindly(Round(j, turns[0], s), turns[1..], s, account))
  }

  // The text of the message as the server has rewritten it, with some results of its checks.
  ghost predicate Rewritten(message: string, raw: string)
  {
    exists comrade: bool, marks: D.Marks ::
      D.StoredText(message, D.Added(false, comrade, marks)) == Done(D.Written(raw, true))
  }

  // The tasks of the session while the client has done `actions`, and its text.
  ghost predicate Tasks(actions: set<CS.Action>, l: S.Link, s: C.Setup, account: MailStore.Account)
  {
    var x := l.session;
    && SS.FromLocal !in x.flags && x.relay == []
    && if CS.EndedData in actions then
         && x.storage == [SS.StorageTask(account, if x.spam then SS.Spam else SS.Incoming)]
         && l.pushed == S.Pushed(1, 0)
         && Rewritten(s.message, x.raw)
       else
         && !x.spam && l.pushed == S.NO_PUSH
         && x.storage == if CS.SentRcptTo in actions then [SS.StorageTask(account, SS.Incoming)] else []
  }

  ghost predicate Welcomed(l: S.Link, m: S.Link, u: C.Talk, s: C.Setup, account: MailStore.Account)
  {
    InStep(u, s, m, Answer(l, m)) && Tasks(u.actions, m, s, account)
  }

  lemma AddressReads(address: string)
    requires PlainAddress(address)
    ensures ParseAddress(C.InBrackets(EmailAddress("", address))) == Done(EmailAddress("", address))
    ensures EmailAddress("", address).Domain().Done?
  {
    hide ParseAddress, PlainAddress;
    var a := EmailAddress("", address);
    NoName();
    AddressComesBack(a, "");
    assert "" + AddressText(a) == "<" + address + ">" by {
      assert "" + "<" + address + ">" == "<" + address + ">";
    }
    HasAt(address);
  }

  lemma NoName()
    ensures PlainName("")
  {
  }

  lemma HasAt(address: string)
    requires PlainAddress(address)
    ensures Find(address, '@') < |address|
  {
    assert address[0..] == address;
    MemberFound(address, address, 0, '@');
  }

  lemma AfterQuiet(l: S.Link, h: S.Handled, s: C.Setup, account: MailStore.Account, actions: set<CS.Action>)
    requires h.pushed == S.NO_PUSH && h.exit in {S.Goes, S.Closes}
    requires Tasks(actions, l, s, account) && CS.EndedData !in actions
    requires SS.FromLocal !in h.session.flags && h.session.storage == l.session.storage
    requires h.session.relay == l.session.relay && h.session.spam == l.session.spam
    ensures Tasks(actions, S.After(l, h), s, account)
  {
    hide Rewritten, S.Join, S.NewRecipient, S.ErrorReply;
    S.JoinNothing(l.pushed);
  }

  // Which command it is, and what the server says to it.
  lemma GreetingReply(t: C.Talk, s: C.Setup, l: S.Link, env: S.Env, account: MailStore.Account)
    requires C.Waiting(t, s) && Sync(t, s, l) && Proper(s) && SS.FromLocal !in l.session.flags
    requires t.control != C.Finished && CS.SentMailFrom !in t.actions && !Mailing(t)
    requires Kind(Answering(t, s), env, s, account)
    ensures var h := S.Handle(l.session, Answering(t, s).command, env);
            && h.exit == S.Goes && h.pushed == S.NO_PUSH && SS.FromLocal !in h.session.flags
            && h.session == l.session.(actions := h.session.actions, flags := h.session.flags)
            && h.replies != []
  {
    hide C.Progress, C.Greeting, Fits, PlainAddress, EndsOnce, S.HandleMailFrom, S.HandleRcptTo,
      S.HandleAuth, S.HandleData;
  }

  predicate Mailing(t: C.Talk)
  {
    t.control == C.AwaitOptions && CS.Secured in t.actions
  }

  lemma MailReply(t: C.Talk, s: C.Setup, l: S.Link, env: S.Env, account: MailStore.Account)
    requires C.Waiting(t, s) && Sync(t, s, l) && Proper(s) && SS.FromLocal !in l.session.flags && Mailing(t)
    requires Kind(Answering(t, s), env, s, account)
    ensures var h := S.Handle(l.session, Answering(t, s).command, env);
            && h.exit == S.Goes && h.replies == [250] && h.pushed == S.NO_PUSH && SS.FromLocal !in h.session.flags
            && h.session == l.session.(actions := h.session.actions, flags := h.session.flags, from := h.session.from)
            && h.session.actions == l.session.actions + {SS.GaveMailFrom} && h.session.flags == l.session.flags
  {
    hide C.Progress, C.Greeting, Fits, PlainAddress, EndsOnce, ParseAddress, S.HandleHello,
      S.HandleStartTls, S.HandleRcptTo, S.HandleAuth, S.HandleData;
    AddressReads(s.mailFrom.address);
  }

  lemma ItemStands(t: C.Talk, s: C.Setup, l: S.Link, env: S.Env)
    requires Fits(s) && l.open && l.rounds < 60 && Answering(t, s).Wrote? && Answering(t, s).command.kind != Data
    ensures Deliver(l, Answering(t, s), env) == S.After(l, S.Handle(l.session, Answering(t, s).command, env))
  {
    hide CommandText, Parse, Received, S.After, S.Handle, Answering, Fits;
    Arrives(t, s);
  }

  lemma AccessWelcomed(t: C.Talk, u: C.Talk, s: C.Setup, l: S.Link, env: S.Env, account: MailStore.Account)
    requires C.Waiting(t, s) && Sync(t, s, l) && Moves(t, u, s) && Proper(s) && |t.trace| < 60
    requires t.control == C.AwaitFcapa || t.control == C.AwaitSu
    requires Tasks(t.actions, l, s, account) && Kind(Answering(t, s), env, s, account)
    ensures Welcomed(l, Deliver(l, Answering(t, s), env), u, s, account)
  {
    hide C.Progress, C.Greeting, S.After, Fits, Tasks, PlainAddress, EndsOnce, Deliver, S.HandleMailFrom,
      S.HandleRcptTo, S.HandleAuth, S.HandleData;
    TasksMean(t.actions, l, s, account);
    GreetingReply(t, s, l, env, account);
    ItemStands(t, s, l, env);
    var h := S.Handle(l.session, Answering(t, s).command, env);
    assert h.replies + [] == h.replies;
    AnswerIs(l, h);
    AfterQuiet(l, h, s, account, t.actions);
    SameStage(t.actions, u.actions, S.After(l, h), s, account);
  }

  lemma TlsWelcomed(t: C.Talk, u: C.Talk, s: C.Setup, l: S.Link, env: S.Env, account: MailStore.Account)
    requires C.Waiting(t, s) && Sync(t, s, l) && Moves(t, u, s) && Proper(s) && |t.trace| < 60
    requires t.control == C.AwaitOptions && CS.Secured !in t.actions && CS.SentMailFrom !in t.actions
    requires Tasks(t.actions, l, s, account) && Kind(Answering(t, s), env, s, account)
    ensures Welcomed(l, Deliver(l, Answering(t, s), env), u, s, account)
  {
    hide C.Progress, C.Greeting, S.After, Fits, Tasks, PlainAddress, EndsOnce, Deliver, S.HandleMailFrom,
      S.HandleRcptTo, S.HandleAuth, S.HandleData;
    TasksMean(t.actions, l, s, account);
    GreetingReply(t, s, l, env, account);
    ItemStands(t, s, l, env);
    var h := S.Handle(l.session, Answering(t, s).command, env);
    assert h.replies + [] == h.replies;
    AnswerIs(l, h);
    AfterQuiet(l, h, s, account, t.actions);
    SameStage(t.actions, u.actions, S.After(l, h), s, account);
  }

  lemma OpeningWelcomed(t: C.Talk, u: C.Talk, s: C.Setup, l: S.Link, env: S.Env, account: MailStore.Account)
    requires C.Waiting(t, s) && Sync(t, s, l) && Moves(t, u, s) && Proper(s) && |t.trace| < 60
    requires t.control == C.AwaitReply && CS.SentMailFrom !in t.actions
    requires Tasks(t.actions, l, s, account) && Kind(Answering(t, s), env, s, account)
    ensures Welcomed(l, Deliver(l, Answering(t, s), env), u, s, account)
  {
    hide C.Progress, C.Greeting, S.After, Fits, Tasks, PlainAddress, EndsOnce, Deliver, S.HandleMailFrom,
      S.HandleRcptTo, S.HandleAuth, S.HandleData;
    TasksMean(t.actions, l, s, account);
    GreetingReply(t, s, l, env, account);
    ItemStands(t, s, l, env);
    var h := S.Handle(l.session, Answering(t, s).command, env);
    assert h.replies + [] == h.replies;
    AnswerIs(l, h);
    AfterQuiet(l, h, s, account, t.actions);
    SameStage(t.actions, u.actions, S.After(l, h), s, account);
  }

  lemma GreetingWelcomed(t: C.Talk, u: C.Talk, s: C.Setup, l: S.Link, env: S.Env, account: MailStore.Account)
    requires C.Waiting(t, s) && Sync(t, s, l) && Moves(t, u, s) && Proper(s) && |t.trace| < 60
    requires t.control != C.Finished && CS.SentMailFrom !in t.actions && !Mailing(t)
    requires Tasks(t.actions, l, s, account) && Kind(Answering(t, s), env, s, account)
    ensures Welcomed(l, Deliver(l, Answering(t, s), env), u, s, account)
  {
    hide C.Progress, C.Greeting, Sync, Moves, Proper, Welcomed, Deliver, Answering, Tasks, Kind;
    match t.control
    case AwaitReply => OpeningWelcomed(t, u, s, l, env, account);
    case AwaitOptions => TlsWelcomed(t, u, s, l, env, account);
    case _ => AccessWelcomed(t, u, s, l, env, account);
  }

  lemma MailWelcomed(t: C.Talk, u: C.Talk, s: C.Setup, l: S.Link, env: S.Env, account: MailStore.Account)
    requires C.Waiting(t, s) && Sync(t, s, l) && Moves(t, u, s) && Proper(s) && |t.trace| < 60 && Mailing(t)
    requires Tasks(t.actions, l, s, account) && Kind(Answering(t, s), env, s, account)
    ensures Welcomed(l, Deliver(l, Answering(t, s), env), u, s, account)
  {
    hide C.Progress, C.Greeting, S.After, Fits, Tasks, PlainAddress, EndsOnce, Deliver, S.Handle;
    TasksMean(t.actions, l, s, account);
    MailReply(t, s, l, env, account);
    ItemStands(t, s, l, env);
    var h := S.Handle(l.session, Answering(t, s).command, env);
    AnswerIs(l, h);
    AfterQuiet(l, h, s, account, t.actions);
    SameStage(t.actions, u.actions, S.After(l, h), s, account);
  }

  lemma TasksMean(actions: set<CS.Action>, l: S.Link, s: C.Setup, account: MailStore.Account)
    requires Tasks(actions, l, s, account)
    ensures SS.FromLocal !in l.session.flags && l.session.relay == []
  {
  }

  lemma SameStage(a: set<CS.Action>, b: set<CS.Action>, l: S.Link, s: C.Setup, account: MailStore.Account)
    requires Tasks(a, l, s, account)
    requires (CS.EndedData in a <==> CS.EndedData in b) && (CS.SentRcptTo in a <==> CS.SentRcptTo in b)
    ensures Tasks(b, l, s, account)
  {
  }

  lemma RecipientWelcomed(t: C.Talk, u: C.Talk, s: C.Setup, l: S.Link, env: S.Env, account: MailStore.Account)
    requires C.Waiting(t, s) && Sync(t, s, l) && Moves(t, u, s) && Proper(s) && |t.trace| < 60
    requires t.control == C.AwaitReply && CS.SentMailFrom in t.actions && CS.SentRcptTo !in t.actions
    requires Tasks(t.actions, l, s, account) && Kind(Answering(t, s), env, s, account)
    ensures Welcomed(l, Deliver(l, Answering(t, s), env), u, s, account)
  {
    hide C.Progress, C.Greeting, CommandText, Parse, Received, Fits, ParseAddress, PlainAddress, EndsOnce,
      S.HandleHello, S.HandleStartTls, S.HandleMailFrom, S.HandleAuth, S.HandleData, S.Join, D.Storable, Rewritten;
    S.JoinNothing(l.pushed);
    Arrives(t, s);
    AddressReads(s.target.address);
    var h := S.Handle(l.session, Answering(t, s).command, env);
    AnswerIs(l, h);
    assert h == S.Reply(S.AcceptLocal(l.session, account), 250);
    assert [] + [SS.StorageTask(account, SS.Incoming)] == [SS.StorageTask(account, SS.Incoming)];
  }

  lemma DataWelcomed(t: C.Talk, u: C.Talk, s: C.Setup, l: S.Link, env: S.Env, account: MailStore.Account)
    requires C.Waiting(t, s) && Sync(t, s, l) && Moves(t, u, s) && Proper(s) && |t.trace| < 60
    requires t.control == C.AwaitReply && CS.SentRcptTo in t.actions && CS.EndedData !in t.actions
    requires Tasks(t.actions, l, s, account) && Kind(Answering(t, s), env, s, account)
    ensures Welcomed(l, Deliver(l, Answering(t, s), env), u, s, account)
  {
    hide C.Progress, C.Greeting, S.FinishData, S.Join, Deliver, Fits, PlainAddress, EndsOnce, D.Storable, Rewritten;
    S.JoinNothing(l.pushed);
    BodyDelivered(l, s, env);
    DataDelivered(l, env);
    if CS.StartedData in t.actions {
      var d := WithText(env.delivery, s.message);
      BodyWelcomed(l, d, account);
      AnswerIs(l, S.FinishData(l.session, d));
      FinishAnswers(l.session, d);
      S.JoinNothing(S.Pushed(1, 0));
    } else {
      AnswerIs(l, S.BeginData(l.session));
    }
  }

  lemma BodyWelcomed(l: S.Link, d: S.Delivery, account: MailStore.Account)
    requires d.Read? && !d.broken && (d.spf || d.dmarc != Some(S.PolicyReject)) && D.Storable(d.text)
    requires SS.Authenticated !in l.session.flags
    requires l.session.storage == [SS.StorageTask(account, SS.Incoming)] && l.session.relay == []
    ensures var h := S.FinishData(l.session, d);
            && h.exit == S.Goes && h.replies == [250]
            && h.session.storage == [SS.StorageTask(account, if h.session.spam then SS.Spam else SS.Incoming)]
            && h.pushed == S.Pushed(1, 0) && h.session.relay == [] && h.session.flags == l.session.flags
            && Rewritten(d.text, h.session.raw)
  {
    hide D.StoredText, D.Added, D.Storable;
    D.StoredWhole(d.text, false, SS.Comrade in l.session.flags, d.marks);
    var tasks := l.session.storage;
    assert SS.ToSpam(tasks) == [SS.StorageTask(account, SS.Spam)];
    assert tasks[1..] == [] && SS.WithoutSent(tasks) == tasks;
    assert SS.ToSpam(tasks)[1..] == [] && SS.WithoutSent(SS.ToSpam(tasks)) == SS.ToSpam(tasks);
  }

  lemma QuitWelcomed(t: C.Talk, u: C.Talk, s: C.Setup, l: S.Link, env: S.Env, account: MailStore.Account)
    requires C.Waiting(t, s) && Sync(t, s, l) && Moves(t, u, s) && Proper(s) && |t.trace| < 60
    requires t.control == C.AwaitReply && CS.EndedData in t.actions && CS.SentQuit !in t.actions
    requires Tasks(t.actions, l, s, account)
    ensures Welcomed(l, Deliver(l, Answering(t, s), env), u, s, account)
  {
    hide C.Progress, C.Greeting, CommandText, Parse, Received, Fits, PlainAddress, EndsOnce, S.HandleHello,
      S.HandleStartTls, S.HandleMailFrom, S.HandleRcptTo, S.HandleAuth, S.HandleData, S.Join, D.Storable, Rewritten;
    S.JoinNothing(l.pushed);
    Arrives(t, s);
    AnswerIs(l, S.Handle(l.session, Answering(t, s).command, env));
  }

  ghost predicate Inv(j: Joint, s: C.Setup, account: MailStore.Account)
  {
    && C.Inv(j.talk, s) && !j.talk.lost
    && if j.talk.control == C.Finished then
         j.talk.closed && Tasks({CS.EndedData}, j.link, s, account)
       else
         j.talk.run && InStep(j.talk, s, j.link, j.reply) && Tasks(j.talk.actions, j.link, s, account)
  }

  lemma ItemWelcomed(t: C.Talk, u: C.Talk, s: C.Setup, l: S.Link, env: S.Env, account: MailStore.Account)
    requires C.Waiting(t, s) && Sync(t, s, l) && Moves(t, u, s) && Proper(s)
    requires t.control != C.Finished && CS.SentQuit !in t.actions
    requires Tasks(t.actions, l, s, account) && Kind(Answering(t, s), env, s, account)
    ensures Welcomed(l, Deliver(l, Answering(t, s), env), u, s, account)
  {
    hide Sync, Moves, Proper, Welcomed, Deliver, C.Progress, Tasks, Kind, Answering;
    ShortTrace(t, s);
    if Mailing(t) {
      MailWelcomed(t, u, s, l, env, account);
    } else if CS.SentMailFrom !in t.actions {
      GreetingWelcomed(t, u, s, l, env, account);
    } else if CS.SentRcptTo !in t.actions {
      RecipientWelcomed(t, u, s, l, env, account);
    } else if CS.EndedData !in t.actions {
      DataWelcomed(t, u, s, l, env, account);
    } else {
      QuitWelcomed(t, u, s, l, env, account);
    }
  }

  lemma QuitEnds(t: C.Talk, i: C.Input, s: C.Setup)
    requires t.control == C.AwaitReply && CS.SentQuit in t.actions && i.ok && i.code == 221
    ensures C.Step(t, i, s) == C.Finish(t.(rounds := t.rounds + 1, closed := true))
  {
  }

  lemma LateStage(actions: set<CS.Action>, l: S.Link, s: C.Setup, account: MailStore.Account)
    requires CS.EndedData in actions && Tasks(actions, l, s, account)
    ensures Tasks({CS.EndedData}, l, s, account)
  {
  }

  // The client's half of a kind round.
  lemma ClientGoesOn(j: Joint, turn: Turn, s: C.Setup)
    requires C.Waiting(j.talk, s) && j.talk.control != C.Finished && j.talk.run && Proper(s) && !turn.lost
    requires j.reply == Some(Right(j.talk)) && CS.SentQuit !in j.talk.actions
    ensures var t, u := j.talk, C.Step(j.talk, Heard(j, turn), s);
            && C.Inv(u, s) && u.control != C.Finished && u.run && !u.lost && Moves(t, u, s)
            && u.trace[|u.trace| - 1] == Answering(t, s)
  {
    hide C.Step, C.Progress, C.Script, C.Contains, C.Ended, Answering, Moved, GreetingText, Fits, EndsOnce,
      PlainAddress;
    var i, t := Heard(j, turn), j.talk;
    C.StepIsFine(t, i, s);
    if Initial(t) {
      EmptyTrace(t, s);
      GreetingSaysEsmtp(turn.text, turn.date);
    }
    HasDomain(s.target);
    ClientMoves(t, i, s);
  }

  lemma RoundIsKind(j: Joint, turn: Turn, s: C.Setup, account: MailStore.Account)
    requires Inv(j, s, account) && Proper(s) && !turn.lost
    requires j.talk.control != C.Finished ==> Kind(Answering(j.talk, s), turn.env, s, account)
    ensures var k := Round(j, turn, s);
            && Inv(k, s, account)
            && (k.talk.control == C.Finished || |k.talk.trace| > |j.talk.trace|)
  {
    hide C.Step, C.Waiting, C.Ended, Deliver, Sync, Tasks, Kind, Answering, Moved, Waits, Heard, Proper,
      Right, Foul;
    var t := j.talk;
    if t.control == C.Finished {
      FinishedStep(t, Heard(j, turn), s);
    } else if CS.SentQuit in t.actions {
      QuitLast(j, turn, s, account);
    } else {
      ClientGoesOn(j, turn, s);
      ItemWelcomed(t, C.Step(t, Heard(j, turn), s), s, j.link, turn.env, account);
    }
  }

  lemma HasDomain(a: EmailAddress)
    requires PlainAddress(a.address)
    ensures a.Domain().Done?
  {
    HasAt(a.address);
  }

  lemma QuitLast(j: Joint, turn: Turn, s: C.Setup, account: MailStore.Account)
    requires Inv(j, s, account) && !turn.lost && j.talk.control != C.Finished && CS.SentQuit in j.talk.actions
    ensures Inv(Round(j, turn, s), s, account) && Round(j, turn, s).talk.control == C.Finished
  {
    hide C.Step, C.Progress, C.Script, Tasks, GreetingText;
    var i := Heard(j, turn);
    C.StepIsFine(j.talk, i, s);
    QuitEnds(j.talk, i, s);
    LateStage(j.talk.actions, j.link, s, account);
  }

  lemma ConnectedIsKind(s: C.Setup, account: MailStore.Account)
    ensures Inv(CONNECTED, s, account)
  {
    hide C.Script, C.Greeting;
    C.StartIsGoing(s);
  }

  lemma {:induction false} PlayIsKind(j: Joint, turns: seq<Turn>, s: C.Setup, account: MailStore.Account)
    requires Inv(j, s, account) && Proper(s) && Kindly(j, turns, s, account)
    ensures var k := Play(j, turns, s);
            Inv(k, s, account) && (k.talk.control == C.Finished || |k.talk.trace| >= |j.talk.trace| + |turns|)
    decreases |turns|
  {
    hide Inv, Round, Proper, Kind;
    if turns != [] {
      RoundIsKind(j, turns[0], s, account);
      PlayIsKind(Round(j, turns[0], s), turns[1..], s, account);
      if j.talk.control == C.Finished {
        FinishedForGood(Round(j, turns[0], s), turns[1..], s);
      } else if Round(j, turns[0], s).talk.control == C.Finished {
        FinishedForGood(Round(j, turns[0], s), turns[1..], s);
      }
    }
  }

  lemma {:induction false} FinishedForGood(j: Joint, turns: seq<Turn>, s: C.Setup)
    ensures j.talk.control == C.Finished ==> Play(j, turns, s).talk.control == C.Finished
    decreases |turns|
  {
    hide C.Step, Heard, Deliver, Answer, Foul;
    if turns != [] {
      if j.talk.control == C.Finished {
        FinishedStep(j.talk, Heard(j, turns[0]), s);
      }
      FinishedForGood(Round(j, turns[0], s), turns[1..], s);
    }
  }

  // From the moment on when the session is queued, its one task and its text are what a
  // worker will find, whenever he takes it.
  lemma WhatWaits(turns: seq<Turn>, s: C.Setup, account: MailStore.Account)
    requires Proper(s) && Kindly(CONNECTED, turns, s, account)
    ensures var l := Play(CONNECTED, turns, s).link;
            l.pushed == S.NO_PUSH ||
            (&& l.pushed == S.Pushed(1, 0) && l.session.relay == []
             && l.session.storage == [SS.StorageTask(account, if l.session.spam then SS.Spam else SS.Incoming)]
             && Rewritten(s.message, l.session.raw))
  {
    hide Play, Kindly, Proper, C.Inv, Rewritten, InStep;
    ConnectedIsKind(s, account);
    PlayIsKind(CONNECTED, turns, s, account);
  }

  lemma {:induction false} KindlySoFar(j: Joint, turns: seq<Turn>, k: nat, s: C.Setup, account: MailStore.Account)
    requires k <= |turns| && Kindly(j, turns, s, account)
    ensures Kindly(j, turns[..k], s, account)
    decreases |turns|
  {
    hide Round, Kind;
    if k > 0 {
      KindlySoFar(Round(j, turns[0], s), turns[1..], k - 1, s, account);
      assert turns[..k][1..] == turns[1..][..k - 1];
    }
  }

  // A run that is met kindly and is long enough ends with the 221, without an error and
  // with every item of the script written; the server then holds exactly one task for
  // the mail, for the inbox of the recipient or, if it was judged spam, for his spam box, and has
  // handed it over once.
  lemma MailArrivesOnce(turns: seq<Turn>, s: C.Setup, account: MailStore.Account)
    requires Proper(s) && Kindly(CONNECTED, turns, s, account) && |turns| > |C.Script(s)|
    ensures var j := Play(CONNECTED, turns, s);
            && j.talk.control == C.Finished && j.talk.closed && j.talk.errors == [] && !j.talk.lost
            && j.talk.trace == C.Script(s)
            && j.link.session.storage == [SS.StorageTask(account, if j.link.session.spam then SS.Spam else SS.Incoming)]
            && j.link.session.relay == []
            && j.link.pushed == S.Pushed(1, 0)
            && Rewritten(s.message, j.link.session.raw)
  {
    hide Play, Kindly, Proper, C.Script, C.Progress;
    ConnectedIsKind(s, account);
    PlayIsKind(CONNECTED, turns, s, account);
    var j := Play(CONNECTED, turns, s);
    if j.talk.control != C.Finished {
      C.ProgressIsPrefix(j.talk, s);
    }
  }
}
