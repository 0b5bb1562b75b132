// The two machines against each other: what the client writes is built by
// `ClientCommand::build`, cut at the line end, parsed and handled by the server; what the
// server replies is what the client reads next.
module SmtpJoint {
  import opened Text
  import opened Addresses
  import opened SmtpCommand
  import C = SmtpClient
  import CS = SmtpClientSession
  import S = SmtpServer
  import SS = SmtpServerSession
  import D = DataText

  // ---------------------------------------------------------------- the joint machine

  // `reply` is the code on its way to the client. `foul` says that MAIL FROM named one of
  // the server's own domains without credentials or SU permission, `slipped` that a failed
  // read made the client go on behind a command the server had not carried out.
  datatype Joint = Joint(talk: C.Talk, link: S.Link, reply: Option<int>, foul: bool, slipped: bool)

  // What the outside decides in one round: whether the read fails and which code it then
  // leaves behind, the text of the reply, and the oracles of the server.
  datatype Turn = Turn(lost: bool, code: int, text: string, date: string, more: seq<string>, env: S.Env)

  const CONNECTED := Joint(C.START, S.GREETED, Some(220), false, false)

  const BODY_END := "\r\n.\r\n"

  // The body is read behind the 354, up to its terminator.
  function FinishStep(l: S.Link, d: S.Delivery): S.Link
  {
    if !l.open then l else S.After(l, S.FinishData(l.session, d)).(rounds := l.rounds)
  }

  function BeginStep(l: S.Link): S.Link
  {
    if !l.open then l
    else if l.rounds >= 60 then l.(open := false)
    else S.After(l, S.BeginData(l.session))
  }

  // What stands behind the terminator of the body is read as commands.
  function CrlfLines(text: string): seq<string>
  {
    var end := FindString(text, "\r\n");
    if end.None? then [] else [text[..end.value]] + CrlfLines(text[end.value + 2..])
  }

  function Feed(l: S.Link, lines: seq<string>, env: S.Env): S.Link
    decreases |lines|
  {
    if lines == [] then l else Feed(S.Step(l, S.Input(Some(lines[0]), env)), lines[1..], env)
  }

  // The text of the message is what was written in front of the terminator.
  function WithText(d: S.Delivery, text: string): S.Delivery
  {
    if d.Read? then d.(text := text) else d
  }

  function Deliver(l: S.Link, item: C.Sent, env: S.Env): S.Link
  {
    match item
    case Wrote(c) =>
      if c.kind == Data then BeginStep(l) else S.Step(l, S.Input(Some(Received(CommandText(c))), env))
    case WroteBody(text) =>
      var end := FindString(text, BODY_END);
      if end.None? then l
      else Feed(FinishStep(l, WithText(env.delivery, text[..end.value])), CrlfLines(text[end.value + 5..]), env)
    case Upgraded => l
  }

  function Answer(before: S.Link, after: S.Link): Option<int>
  {
    if |after.replies| > |before.replies| then Some(after.replies[|after.replies| - 1]) else None
  }

  predicate Foul(l: S.Link, item: C.Sent, env: S.Env)
  {
    && l.open && item.Wrote? && item.command.kind == MailFrom
    && |item.command.args| > 0 && ParseAddress(item.command.args[0]).Done?
    && ParseAddress(item.command.args[0]).value.Domain().Done?
    && env.domain == S.Found && SS.Comrade !in l.session.flags
  }

  // The first reply is the greeting of the server, with its node name and the date.
  function GreetingText(node: string, date: string): string
  {
    node + " Fannst " + "ESMTP" + " Mail service ready at " + date
  }

  function Heard(j: Joint, turn: Turn): C.Input
  {
    if turn.lost || j.reply.None? then C.Input(false, turn.code, turn.text, turn.more)
    else C.Input(true, j.reply.value, if j.talk.trace == [] then GreetingText(turn.text, turn.date) else turn.text, turn.more)
  }

  // Did the server not carry out the MAIL FROM or RCPT TO the client wrote last, and stay?
  predicate Unheeded(t: C.Talk, l: S.Link)
  {
    && l.open && t.control == C.AwaitReply
    && CS.SentMailFrom in t.actions && CS.StartedData !in t.actions
    && if CS.SentRcptTo in t.actions then SS.GaveRcptTo !in l.session.actions else SS.GaveMailFrom !in l.session.actions
  }

  // A read fails behind such a command, and the client's code variable still holds 221 or 250.
  predicate Slips(j: Joint, turn: Turn)
  {
    !Heard(j, turn).ok && turn.code in {221, 250} && Unheeded(j.talk, j.link)
  }

  // The client reads, acts and writes; what it wrote last is handled by the server.
  function Round(j: Joint, turn: Turn, s: C.Setup): Joint
  {
    var t := C.Step(j.talk, Heard(j, turn), s);
    var slipped := j.slipped || Slips(j, turn);
    if |t.trace| <= |j.talk.trace| then j.(talk := t, reply := None, slipped := slipped)
    else
      var item := t.trace[|t.trace| - 1];
      var l := Deliver(j.link, item, turn.env);
      Joint(t, l, Answer(j.link, l), j.foul || Foul(j.link, item, turn.env), slipped)
  }

  function Play(j: Joint, turns: seq<Turn>, s: C.Setup): Joint
    decreases |turns|
  {
    if turns == [] then j else Play(Round(j, turns[0], s), turns[1..], s)
  }

  // Taking the body apart from the command changes nothing about the server.
  lemma DataInTwoSteps(l: S.Link, env: S.Env)
    requires l.open && l.rounds < 60 && S.BeginData(l.session).exit == S.Goes
    ensures FinishStep(BeginStep(l), env.delivery) == S.After(l, S.HandleData(l.session, env))
  {
    hide S.FinishData;
    var b := S.BeginData(l.session);
    var f := S.FinishData(b.session, env.delivery);
    assert l.accepted + [] == l.accepted && [354] + [] == [354];
    assert l.replies + [354] + (f.replies + S.ErrorReply(f.exit)) == l.replies + ([354] + f.replies + S.ErrorReply(f.exit));
  }

  // ---------------------------------------------------------------- assumptions

  // The arguments fit into a command line.
  predicate Fits(s: C.Setup)
  {
    && s.domain != "" && ' ' !in s.domain && ':' !in s.domain && '\n' !in s.domain
    && ' ' !in s.mailFrom.address && '\n' !in s.mailFrom.address
    && ' ' !in s.target.address && '\n' !in s.target.address
  }

  // The terminator of the body is its first one, so that nothing is left to be read as commands.
  predicate EndsOnce(message: string)
  {
    FindString(message + BODY_END, BODY_END) == Some(|message|)
  }

  lemma GreetingSaysEsmtp(node: string, date: string)
    ensures C.Contains(GreetingText(node, date), "ESMTP")
  {
    hide FindString;
    var text := GreetingText(node, date);
    var front, back := node + " Fannst ", " Mail service ready at " + date;
    assert text == front + ("ESMTP" + back);
    var k := |front|;
    assert text[k..] == "ESMTP" + back && ("ESMTP" + back)[..5] == "ESMTP";
    FindStringFirst(text, "ESMTP", k);
  }

  // ---------------------------------------------------------------- the client, one move

  // The code the client is waiting for.
  function Right(t: C.Talk): int
  {
    match t.control
    case AwaitFcapa => 601
    case AwaitSu => 600
    case AwaitOptions => 250
    case _ =>
      if CS.SentQuit in t.actions then 221
      else if CS.EndedData in t.actions then 250
      else if CS.StartedData in t.actions then 354
      else if CS.SentMailFrom in t.actions then 250
      else 220
  }

  predicate Initial(t: C.Talk)
  {
    t.control == C.AwaitReply && CS.SentHelo !in t.actions
  }

  // The greeting of an extended server was read, or is now.
  predicate SpeaksEsmtp(t: C.Talk, args: string)
  {
    CS.Esmtp in t.flags || C.Contains(args, "ESMTP")
  }

  // What an extended greeting opens with.
  function Opener(s: C.Setup): C.Sent
  {
    if C.SameDomain(s) then C.Bare(Fcapa) else C.Wrote(Command(Ehlo, [s.domain]))
  }

  // What the client writes when the right code comes, and where it waits then.
  function Answering(t: C.Talk, s: C.Setup): C.Sent
  {
    match t.control
    case AwaitFcapa => C.Bare(Su)
    case AwaitSu => C.Wrote(Command(Ehlo, [s.domain]))
    case AwaitOptions =>
      if CS.Secured in t.actions then C.Wrote(Command(MailFrom, [C.InBrackets(s.mailFrom)])) else C.Bare(StartTls)
    case _ =>
      if CS.EndedData in t.actions then C.Bare(Quit)
      else if CS.StartedData in t.actions then C.WroteBody(s.message + "\r\n.\r\n")
      else if CS.SentRcptTo in t.actions then C.Bare(Data)
      else if CS.SentMailFrom in t.actions then C.Wrote(Command(RcptTo, [C.InBrackets(s.target)]))
      else Opener(s)
  }

  function Moved(t: C.Talk, s: C.Setup): set<CS.Action>
  {
    match t.control
    case AwaitFcapa => t.actions
    case AwaitSu => t.actions + {CS.SentHelo}
    case AwaitOptions => t.actions + {if CS.Secured in t.actions then CS.SentMailFrom else CS.SentStartTls}
    case _ =>
      if CS.EndedData in t.actions then t.actions + {CS.SentQuit}
      else if CS.StartedData in t.actions then t.actions + {CS.EndedData}
      else if CS.SentRcptTo in t.actions then t.actions + {CS.StartedData}
      else if CS.SentMailFrom in t.actions then t.actions + {CS.SentRcptTo}
      else
        var upgraded := if CS.SentStartTls in t.actions then t.actions + {CS.Secured} - {CS.SentHelo} else t.actions;
        if C.SameDomain(s) then upgraded else upgraded + {CS.SentHelo}
  }

  function Waits(t: C.Talk, s: C.Setup): C.Control
  {
    match t.control
    case AwaitFcapa => C.AwaitSu
    case AwaitSu => C.AwaitOptions
    case AwaitReply =>
      if CS.SentMailFrom in t.actions then C.AwaitReply
      else if C.SameDomain(s) then C.AwaitFcapa
      else C.AwaitOptions
    case _ => C.AwaitReply
  }

  // Can the client not go on? Its target has no domain, or the upgrade fails.
  predicate Halted(t: C.Talk, s: C.Setup)
  {
    && t.control == C.AwaitReply && CS.SentMailFrom !in t.actions
    && (!s.target.Domain().Done? || (CS.SentStartTls in t.actions && !s.tls))
  }

  lemma ClientMoves(t: C.Talk, i: C.Input, s: C.Setup)
    requires C.Waiting(t, s) && t.control != C.Finished && (t.run || t.control != C.AwaitOptions)
    requires i.ok && i.code == Right(t)
    requires Initial(t) ==> SpeaksEsmtp(t, i.args)
    ensures var u := C.Step(t, i, s);
            if CS.SentQuit in t.actions then u.control == C.Finished && u.trace == t.trace && u.closed
            else if Halted(t, s) then
              u.control == C.Finished && (|u.trace| > |t.trace| ==> u.trace[|u.trace| - 1] == C.Upgraded)
            else
              && u.control == Waits(t, s) && u.run == t.run
              && u.actions == Moved(t, s)
              && |u.trace| > |t.trace| && u.trace[|u.trace| - 1] == Answering(t, s)
  {
    hide C.Contains, C.Progress, C.FlagsOf;
  }

  // ---------------------------------------------------------------- the server, one answer

  // What the server's session looks like when the client is in step with it.
  predicate Sync(t: C.Talk, s: C.Setup, l: S.Link)
  {
    var a, f := l.session.actions, l.session.flags;
    && l.open
    && (SS.SaidHelo in a <==> CS.SentHelo in t.actions && (CS.SentStartTls in t.actions ==> CS.Secured in t.actions))
    && (SS.Encrypted in f <==> CS.SentStartTls in t.actions)
    && (SS.GaveMailFrom in a <==> CS.SentMailFrom in t.actions)
    && (SS.GaveRcptTo in a <==> CS.SentRcptTo in t.actions)
    && (SS.BeganData in a <==> CS.StartedData in t.actions)
    && (C.SameDomain(s) && (CS.SentHelo in t.actions || t.control == C.AwaitSu || CS.SentStartTls in t.actions)
        ==> SS.Comrade in f)
    && SS.Authenticated !in f
    && l.rounds <= |t.trace|
  }

  predicate Refusal(code: int)
  {
    code in {501, 502, 503, 530, 550, 551, 556, 651}
  }

  // In step, with the right code on its way; or refused; or cut off.
  predicate InStep(t: C.Talk, s: C.Setup, l: S.Link, reply: Option<int>)
  {
    reply == Some(Right(t)) && (CS.SentQuit !in t.actions ==> Sync(t, s, l))
  }

  predicate Stopped(t: C.Talk, reply: Option<int>)
  {
    reply.None? || (Refusal(reply.value) && t.control != C.AwaitOptions)
  }

  // The lines the client writes arrive as the commands they are.
  lemma Arrives(t: C.Talk, s: C.Setup)
    requires Fits(s)
    ensures Answering(t, s).Wrote? ==>
              Parse(Received(CommandText(Answering(t, s).command))) == Answering(t, s).command
  {
    hide CommandText, Parse, Received;
    if Answering(t, s).Wrote? {
      var c := Answering(t, s).command;
      assert c.kind != Unknown && Unbreakable(c.args) && Sendable(c);
      CommandRoundTrip(c);
    }
  }

  lemma AnswerIs(l: S.Link, h: S.Handled)
    ensures var m, r := S.After(l, h), h.replies + S.ErrorReply(h.exit);
            && Answer(l, m) == (if r == [] then None else Some(r[|r| - 1]))
            && (503 in m.replies <==> 503 in l.replies || 503 in r)
            && m.open == S.StaysOpen(h.exit) && m.rounds == l.rounds + 1 && m.session == h.session
  {
    hide S.NewRecipient, S.Join;
  }

  // The client moved on from `t` to `u` and wrote `item`: what the server makes of it.
  predicate Moves(t: C.Talk, u: C.Talk, s: C.Setup)
  {
    && u.control == Waits(t, s) && u.actions == Moved(t, s) && |u.trace| > |t.trace|
  }

  // The last command was not carried out, and a refusal or nothing comes back.
  predicate Adrift(t: C.Talk, l: S.Link, reply: Option<int>)
  {
    Unheeded(t, l) && Stopped(t, reply) && l.rounds <= |t.trace|
  }

  predicate Answered(l: S.Link, m: S.Link, u: C.Talk, s: C.Setup, foul: bool)
  {
    && (!m.open || InStep(u, s, m, Answer(l, m)) || Adrift(u, m, Answer(l, m)))
    && (CS.SentQuit in u.actions ==> InStep(u, s, m, Answer(l, m)))
    && (503 in m.replies <==> 503 in l.replies || foul)
  }

  // The commands in front of the transaction: SU behind FCAPA, EHLO behind SU, STARTTLS
  // behind EHLO, and what opens the greeting.
  lemma AccessAnswered(t: C.Talk, u: C.Talk, s: C.Setup, l: S.Link, env: S.Env)
    requires C.Waiting(t, s) && Sync(t, s, l) && Moves(t, u, s) && Fits(s) && |t.trace| < 60
    requires t.control == C.AwaitFcapa || t.control == C.AwaitSu
    ensures Answered(l, Deliver(l, Answering(t, s), env), u, s, false)
  {
    hide C.Progress, C.Greeting, S.After, CommandText, Parse, Received, Fits, ParseAddress,
      S.HandleMailFrom, S.HandleRcptTo, S.HandleAuth, S.HandleData;
    Arrives(t, s);
    AnswerIs(l, S.Handle(l.session, Answering(t, s).command, env));
  }

  lemma TlsAnswered(t: C.Talk, u: C.Talk, s: C.Setup, l: S.Link, env: S.Env)
    requires C.Waiting(t, s) && Sync(t, s, l) && Moves(t, u, s) && Fits(s) && |t.trace| < 60
    requires t.control == C.AwaitOptions && CS.Secured !in t.actions
    ensures Answered(l, Deliver(l, Answering(t, s), env), u, s, false)
  {
    hide C.Progress, C.Greeting, S.After, CommandText, Parse, Received, Fits, ParseAddress,
      S.HandleMailFrom, S.HandleRcptTo, S.HandleAuth, S.HandleData;
    Arrives(t, s);
    AnswerIs(l, S.Handle(l.session, Answering(t, s).command, env));
  }

  lemma OpeningAnswered(t: C.Talk, u: C.Talk, s: C.Setup, l: S.Link, env: S.Env)
    requires C.Waiting(t, s) && Sync(t, s, l) && Moves(t, u, s) && Fits(s) && |t.trace| < 60
    requires t.control == C.AwaitReply && CS.SentMailFrom !in t.actions
    ensures Answered(l, Deliver(l, Answering(t, s), env), u, s, false)
  {
    hide C.Progress, C.Greeting, S.After, CommandText, Parse, Received, Fits, ParseAddress,
      S.HandleMailFrom, S.HandleRcptTo, S.HandleAuth, S.HandleData;
    Arrives(t, s);
    AnswerIs(l, S.Handle(l.session, Answering(t, s).command, env));
  }

  lemma GreetingAnswered(t: C.Talk, u: C.Talk, s: C.Setup, l: S.Link, env: S.Env)
    requires C.Waiting(t, s) && Sync(t, s, l) && Moves(t, u, s) && Fits(s) && |t.trace| < 60
    requires t.control != C.Finished && CS.SentMailFrom !in t.actions && !(t.control == C.AwaitOptions && CS.Secured in t.actions)
    ensures Answered(l, Deliver(l, Answering(t, s), env), u, s, false)
  {
    hide C.Progress, C.Greeting, Sync, Moves, Fits, Answered, Deliver, Answering;
    match t.control
    case AwaitReply => OpeningAnswered(t, u, s, l, env);
    case AwaitOptions => TlsAnswered(t, u, s, l, env);
    case _ => AccessAnswered(t, u, s, l, env);
  }

  lemma MailAnswered(t: C.Talk, u: C.Talk, s: C.Setup, l: S.Link, env: S.Env)
    requires C.Waiting(t, s) && Sync(t, s, l) && Moves(t, u, s) && Fits(s) && |t.trace| < 60
    requires t.control == C.AwaitOptions && CS.Secured in t.actions
    ensures Answered(l, Deliver(l, Answering(t, s), env), u, s, Foul(l, Answering(t, s), env))
  {
    hide C.Progress, C.Greeting, S.After, CommandText, Parse, Received, Fits, ParseAddress, S.SameOwner,
      S.HandleHello, S.HandleStartTls, S.HandleRcptTo, S.HandleAuth, S.HandleData;
    Arrives(t, s);
    var c := Answering(t, s).command;
    AnswerIs(l, S.Handle(l.session, c, env));
  }

  // RCPT TO is carried out, or nothing changes.
  lemma RecipientHandled(x: SS.Session, c: Command, env: S.Env)
    requires SS.SaidHelo in x.actions && SS.GaveMailFrom in x.actions && |c.args| >= 1
    ensures var h := S.HandleRcptTo(x, c, env);
            || (&& h.exit == S.Goes && h.replies == [250]
                && h.session.actions == x.actions + {SS.GaveRcptTo}
                && h.session.flags - {SS.Relay} == x.flags - {SS.Relay})
            || (h.session == x &&
                ((h.exit == S.Goes && h.replies == [551])
                 || (h.replies == [] && h.exit in {S.SyntaxError, S.Fatal, S.DatabaseError})))
  {
    hide ParseAddress;
  }

  lemma RecipientAnswered(t: C.Talk, u: C.Talk, s: C.Setup, l: S.Link, env: S.Env)
    requires C.Waiting(t, s) && Sync(t, s, l) && Moves(t, u, s) && Fits(s) && |t.trace| < 60
    requires t.control == C.AwaitReply && CS.SentMailFrom in t.actions && CS.SentRcptTo !in t.actions
    ensures Answered(l, Deliver(l, Answering(t, s), env), u, s, false)
  {
    hide C.Progress, C.Greeting, S.After, CommandText, Parse, Received, Fits, ParseAddress, S.HandleHello,
      S.HandleStartTls, S.HandleMailFrom, S.HandleRcptTo, S.HandleAuth, S.HandleData;
    Arrives(t, s);
    var c := Answering(t, s).command;
    RecipientHandled(l.session, c, env);
    var h := S.Handle(l.session, c, env);
    SameFlags(l.session, h.session);
    AnswerIs(l, h);
  }

  lemma SameFlags(x: SS.Session, y: SS.Session)
    ensures y.flags - {SS.Relay} == x.flags - {SS.Relay} ==>
              forall f :: f in {SS.Encrypted, SS.Comrade, SS.Authenticated} ==> (f in y.flags <==> f in x.flags)
  {
    if y.flags - {SS.Relay} == x.flags - {SS.Relay} {
      forall f | f in {SS.Encrypted, SS.Comrade, SS.Authenticated} ensures f in y.flags <==> f in x.flags {
        assert f in y.flags - {SS.Relay} <==> f in x.flags - {SS.Relay};
      }
    }
  }

  lemma BodyDelivered(l: S.Link, s: C.Setup, env: S.Env)
    requires EndsOnce(s.message)
    ensures Deliver(l, C.WroteBody(s.message + BODY_END), env) == FinishStep(l, WithText(env.delivery, s.message))
  {
    hide FindString, FinishStep;
    var text := s.message + BODY_END;
    assert text[|s.message| + 5..] == "" && text[..|s.message|] == s.message;
    assert CrlfLines("") == [] by {
      NoLines();
    }
  }

  lemma NoLines()
    ensures CrlfLines("") == []
  {
  }

  lemma DataAnswered(t: C.Talk, u: C.Talk, s: C.Setup, l: S.Link, env: S.Env)
    requires C.Waiting(t, s) && Sync(t, s, l) && Moves(t, u, s) && |t.trace| < 60
    requires t.control == C.AwaitReply && CS.SentRcptTo in t.actions && CS.EndedData !in t.actions
    requires EndsOnce(s.message)
    ensures Answered(l, Deliver(l, Answering(t, s), env), u, s, false)
  {
    hide C.Progress, C.Greeting, S.After, S.FinishData, Deliver, Answered, Sync, Moves, C.Waiting;
    if CS.StartedData in t.actions {
      BodyAnswered(t, u, s, l, env);
    } else {
      StartAnswered(t, u, s, l, env);
    }
  }

  lemma BodyAnswered(t: C.Talk, u: C.Talk, s: C.Setup, l: S.Link, env: S.Env)
    requires C.Waiting(t, s) && Sync(t, s, l) && Moves(t, u, s) && |t.trace| < 60
    requires t.control == C.AwaitReply && CS.StartedData in t.actions && CS.EndedData !in t.actions
    requires EndsOnce(s.message)
    ensures Answered(l, Deliver(l, Answering(t, s), env), u, s, false)
  {
    hide C.Progress, C.Greeting, S.After, S.FinishData, Deliver, EndsOnce;
    BodyDelivered(l, s, env);
    var d := WithText(env.delivery, s.message);
    AnswerIs(l, S.FinishData(l.session, d));
    FinishAnswers(l.session, d);
    var h := S.FinishData(l.session, d);
    assert h.replies + [] == h.replies;
  }

  lemma StartAnswered(t: C.Talk, u: C.Talk, s: C.Setup, l: S.Link, env: S.Env)
    requires C.Waiting(t, s) && Sync(t, s, l) && Moves(t, u, s) && |t.trace| < 60
    requires t.control == C.AwaitReply && CS.SentRcptTo in t.actions && CS.StartedData !in t.actions
    ensures Answered(l, Deliver(l, Answering(t, s), env), u, s, false)
  {
    hide C.Progress, C.Greeting, S.After, Deliver;
    DataDelivered(l, env);
    AnswerIs(l, S.BeginData(l.session));
  }

  lemma DataDelivered(l: S.Link, env: S.Env)
    ensures Deliver(l, C.Bare(Data), env) == BeginStep(l)
  {
  }

  lemma FinishAnswers(s: SS.Session, d: S.Delivery)
    ensures var h := S.FinishData(s, d);
            && h.exit in {S.Goes, S.Closes, S.Fatal}
            && (h.exit == S.Goes <==> h.replies == [250])
            && (h.exit == S.Fatal ==> h.replies == [])
            && (h.exit == S.Closes ==> h.replies == [550] || h.replies == [556])
            && h.session.actions == s.actions && h.session.flags == s.flags
  {
    hide D.StoredText, D.Added;
  }

  lemma QuitAnswered(t: C.Talk, u: C.Talk, s: C.Setup, l: S.Link, env: S.Env)
    requires C.Waiting(t, s) && Sync(t, s, l) && Moves(t, u, s) && Fits(s) && |t.trace| < 60
    requires t.control == C.AwaitReply && CS.EndedData in t.actions && CS.SentQuit !in t.actions
    ensures Answered(l, Deliver(l, Answering(t, s), env), u, s, false)
  {
    hide C.Progress, C.Greeting, S.After, CommandText, Parse, Received, Fits, S.HandleHello,
      S.HandleStartTls, S.HandleMailFrom, S.HandleRcptTo, S.HandleAuth, S.HandleData;
    Arrives(t, s);
    var c := Answering(t, s).command;
    AnswerIs(l, S.Handle(l.session, c, env));
  }

  // ---------------------------------------------------------------- the joint invariant

  predicate Inv(j: Joint, s: C.Setup)
  {
    && C.Inv(j.talk, s)
    && (503 in j.link.replies <==> j.foul || j.slipped)
    && (j.talk.control != C.Finished ==>
          && (!j.link.open || InStep(j.talk, s, j.link, j.reply) || Adrift(j.talk, j.link, j.reply))
          && (CS.SentQuit in j.talk.actions && j.reply.Some? ==> j.reply.value == 221))
  }

  lemma ConnectedIsFine(s: C.Setup)
    ensures Inv(CONNECTED, s)
  {
    hide C.Script, C.Greeting;
    C.StartIsGoing(s);
  }

  // Nothing is written behind a failed read or a refusal.
  lemma RefusedEnds(t: C.Talk, i: C.Input, s: C.Setup)
    requires t.control != C.Finished
    requires
      || (!i.ok && (i.code !in {220, 221, 250, 354} || t.control != C.AwaitReply))
      || (i.ok && Refusal(i.code) && t.control != C.AwaitOptions)
    ensures C.Step(t, i, s).control == C.Finished && C.Step(t, i, s).trace == t.trace
  {
  }

  lemma ShortTrace(t: C.Talk, s: C.Setup)
    requires C.Waiting(t, s)
    ensures |t.trace| < 60
  {
    hide C.Greeting, C.Transaction;
    assert |C.Greeting(s)| <= 3 by {
      GreetingLength(s);
    }
    C.TransactionHasFive(s);
  }

  lemma GreetingLength(s: C.Setup)
    ensures |C.Greeting(s)| <= 3
  {
  }

  lemma EmptyTrace(t: C.Talk, s: C.Setup)
    requires C.Waiting(t, s) && Initial(t)
    ensures t.trace == []
  {
  }

  lemma ClosedIsDeaf(l: S.Link, item: C.Sent, env: S.Env)
    requires !l.open
    ensures Deliver(l, item, env) == l
  {
    hide Parse, Received, CommandText, FindString, CrlfLines, Feed;
    if item.WroteBody? && FindString(item.text, BODY_END).Some? {
      FeedClosed(l, CrlfLines(item.text[FindString(item.text, BODY_END).value + 5..]), env);
    }
  }

  lemma {:induction false} FeedClosed(l: S.Link, lines: seq<string>, env: S.Env)
    requires !l.open
    ensures Feed(l, lines, env) == l
    decreases |lines|
  {
    hide Parse;
    if lines != [] {
      FeedClosed(l, lines[1..], env);
    }
  }

  lemma ItemAnswered(t: C.Talk, u: C.Talk, s: C.Setup, l: S.Link, env: S.Env)
    requires C.Waiting(t, s) && Sync(t, s, l) && Moves(t, u, s) && Fits(s) && EndsOnce(s.message)
    requires t.control != C.Finished && CS.SentQuit !in t.actions
    ensures Answered(l, Deliver(l, Answering(t, s), env), u, s, Foul(l, Answering(t, s), env))
  {
    hide Sync, Moves, Fits, Answered, Deliver, C.Progress, EndsOnce;
    ShortTrace(t, s);
    if t.control == C.AwaitOptions && CS.Secured in t.actions {
      MailAnswered(t, u, s, l, env);
    } else {
      assert !Foul(l, Answering(t, s), env);
      if CS.SentMailFrom !in t.actions {
        GreetingAnswered(t, u, s, l, env);
      } else if CS.SentRcptTo !in t.actions {
        RecipientAnswered(t, u, s, l, env);
      } else if CS.EndedData !in t.actions {
        DataAnswered(t, u, s, l, env);
      } else {
        QuitAnswered(t, u, s, l, env);
      }
    }
  }

  // What was written behind a failed read: nothing, the next item, an upgrade, or a HELO.
  predicate LostItem(t: C.Talk, u: C.Talk, args: string, s: C.Setup)
  {
    && |u.trace| >= |t.trace|
    && (|u.trace| > |t.trace| ==>
          var item := u.trace[|u.trace| - 1];
          || item == C.Upgraded
          || (Initial(t) && item == C.Wrote(Command(Helo, [s.domain])))
          || (item == Answering(t, s) && CS.SentQuit !in t.actions && !Halted(t, s)
              && (Initial(t) ==> SpeaksEsmtp(t, args))))
  }

  // Asking for access and the extended greeting go on after a failed read.
  lemma ExtendedLost(t: C.Talk, s: C.Setup)
    ensures C.GreetExtended(C.Lose(t), s) == C.Lose(C.GreetExtended(t, s))
    ensures var u := C.GreetExtended(t, s);
            && (u.control == C.Finished || t.control == C.Finished || |u.trace| > |t.trace|)
            && (|u.trace| <= |t.trace| ==> u.trace == t.trace)
            && (|u.trace| > |t.trace| ==> s.target.Domain().Done? && u.trace[|u.trace| - 1] == Opener(s))
  {
  }

  lemma GreetLost(t: C.Talk, code: int, args: string, s: C.Setup)
    requires CS.SentHelo !in t.actions && t.control == C.AwaitReply
    ensures var u := C.Greet(C.Lose(t), code, args, s);
            if SpeaksEsmtp(t, args) then
              && u == C.Lose(C.Greet(t, 220, args, s))
              && (u.control == C.Finished || |u.trace| > |t.trace|)
              && (|u.trace| <= |t.trace| ==> u.trace == t.trace)
              && (|u.trace| > |t.trace| ==> s.target.Domain().Done? && u.trace[|u.trace| - 1] == Opener(s))
            else
              u.control == C.Finished && u.trace == t.trace + [C.Wrote(Command(Helo, [s.domain]))]
  {
    hide C.Contains, C.GreetExtended;
    var v := if CS.Esmtp !in t.flags && C.Contains(args, "ESMTP") then t.(flags := t.flags + {CS.Esmtp}) else t;
    ExtendedLost(v, s);
  }

  lemma LostOpening(t: C.Talk, i: C.Input, s: C.Setup)
    requires C.Waiting(t, s) && t.control == C.AwaitReply && !i.ok && i.code in {220, 221, 250, 354}
    requires CS.SentMailFrom !in t.actions
    ensures var u := C.Step(t, i, s);
            && LostItem(t, u, i.args, s)
            && (u.control != C.Finished ==>
                  && |u.trace| > |t.trace| && u.trace[|u.trace| - 1] == Answering(t, s) && !Halted(t, s)
                  && (Initial(t) ==> SpeaksEsmtp(t, i.args))
                  && u == C.Step(t, i.(ok := true, code := 220), s).(run := false, lost := true))
  {
    hide C.Contains, C.Progress, C.Greet, C.Greeting;
    FallsTo220(t, i.code, i.args, s);
    var r := t.(rounds := t.rounds + 1);
    if CS.SentStartTls in t.actions {
      var w := C.Put(r.(actions := r.actions + {CS.Secured}), C.Upgraded);
      GreetLost(w.(actions := w.actions - {CS.SentHelo}), i.code, i.args, s);
    } else {
      GreetLost(r, i.code, i.args, s);
    }
  }

  // In front of the mail, the switch falls through to its last case.
  lemma FallsTo220(t: C.Talk, code: int, args: string, s: C.Setup)
    requires C.Waiting(t, s) && t.control == C.AwaitReply && CS.SentMailFrom !in t.actions
    requires code in {220, 221, 250, 354}
    ensures C.Act(C.Lose(t), code, args, s) == C.On220(C.Lose(t).(rounds := t.rounds + 1), code, args, s)
    ensures C.Act(t, 220, args, s) == C.On220(t.(rounds := t.rounds + 1), 220, args, s)
  {
    hide C.Progress, C.On220;
  }

  lemma LostMail(t: C.Talk, i: C.Input, s: C.Setup)
    requires C.Waiting(t, s) && t.control == C.AwaitReply && !i.ok && i.code in {220, 221, 250, 354}
    requires CS.SentMailFrom in t.actions && CS.StartedData !in t.actions
    ensures var u := C.Step(t, i, s);
            && LostItem(t, u, i.args, s) && u.control == C.Finished
            && if i.code in {221, 250} then |u.trace| > |t.trace| && u.trace[|u.trace| - 1] == Answering(t, s)
               else u.trace == t.trace
  {
    hide C.Contains, C.Progress, C.FlagsOf, C.GreetExtended;
  }

  lemma LostBody(t: C.Talk, i: C.Input, s: C.Setup)
    requires C.Waiting(t, s) && t.control == C.AwaitReply && !i.ok && i.code in {220, 221, 250, 354}
    requires CS.StartedData in t.actions
    ensures var u := C.Step(t, i, s); LostItem(t, u, i.args, s) && u.control == C.Finished
  {
    hide C.Contains, C.Progress, C.FlagsOf, C.GreetExtended;
  }

  // A failed read that leaves one of the codes behind on which the client acts: it acts
  // once, and stops behind it, except in front of the mail, where it still greets.
  lemma LostMoves(t: C.Talk, i: C.Input, s: C.Setup)
    requires C.Waiting(t, s) && t.control == C.AwaitReply && !i.ok && i.code in {220, 221, 250, 354}
    ensures var u := C.Step(t, i, s);
            && LostItem(t, u, i.args, s)
            && (u.control != C.Finished ==>
                  && CS.SentMailFrom !in t.actions && |u.trace| > |t.trace|
                  && u.trace[|u.trace| - 1] == Answering(t, s) && !Halted(t, s)
                  && (Initial(t) ==> SpeaksEsmtp(t, i.args))
                  && u == C.Step(t, i.(ok := true, code := Right(t)), s).(run := false, lost := true))
            && (CS.SentMailFrom in t.actions && CS.StartedData !in t.actions ==>
                  if i.code in {221, 250} then |u.trace| > |t.trace| && u.trace[|u.trace| - 1] == Answering(t, s)
                  else u.trace == t.trace)
  {
    hide C.Contains, C.Progress, C.Step, LostItem, Answering, Halted;
    if CS.SentMailFrom !in t.actions {
      LostOpening(t, i, s);
    } else if CS.StartedData !in t.actions {
      LostMail(t, i, s);
    } else {
      LostBody(t, i, s);
    }
  }

  lemma HeloAnswered(l: S.Link, s: C.Setup, env: S.Env)
    requires Fits(s) && l.open && l.rounds < 60 && SS.SaidHelo !in l.session.actions
    ensures var helo := C.Wrote(Command(Helo, [s.domain]));
            && (503 in Deliver(l, helo, env).replies <==> 503 in l.replies) && !Foul(l, helo, env)
  {
    hide CommandText, Parse, Received, S.After;
    var c := Command(Helo, [s.domain]);
    assert Unbreakable(c.args) && Sendable(c);
    CommandRoundTrip(c);
    AnswerIs(l, S.Handle(l.session, c, env));
  }

  // What comes behind a command that was not carried out is out of order.
  lemma UnheededAnswer(t: C.Talk, s: C.Setup, l: S.Link, env: S.Env)
    requires Unheeded(t, l) && l.rounds < 60 && Fits(s) && C.Waiting(t, s)
    ensures 503 in Deliver(l, Answering(t, s), env).replies && !Foul(l, Answering(t, s), env)
  {
    hide C.Progress, C.Greeting, CommandText, Parse, Received, Fits, S.After, S.HandleHello, S.HandleStartTls,
      S.HandleMailFrom, S.HandleAuth, S.HandleData;
    Arrives(t, s);
    if CS.SentRcptTo in t.actions {
      AnswerIs(l, S.BeginData(l.session));
    } else {
      AnswerIs(l, S.Handle(l.session, Answering(t, s).command, env));
    }
  }

  lemma NeverFoul(l: S.Link, item: C.Sent, env: S.Env)
    requires !l.open
    ensures !Foul(l, item, env)
  {
  }

  lemma FinishedStep(t: C.Talk, i: C.Input, s: C.Setup)
    requires t.control == C.Finished
    ensures C.Step(t, i, s) == t
  {
  }

  lemma UpgradeIsSilent(l: S.Link, env: S.Env)
    ensures Deliver(l, C.Upgraded, env) == l && !Foul(l, C.Upgraded, env)
  {
  }

  // The server is gone: nothing it would say matters.
  lemma ClosedIsFine(j: Joint, turn: Turn, s: C.Setup)
    requires Inv(j, s) && !j.link.open
    ensures Inv(Round(j, turn, s), s)
  {
    hide C.Step, C.Waiting, C.Ended, Deliver, InStep, Adrift, Foul;
    var i := Heard(j, turn);
    var u := C.Step(j.talk, i, s);
    C.StepIsFine(j.talk, i, s);
    if |u.trace| > |j.talk.trace| {
      ClosedIsDeaf(j.link, u.trace[|u.trace| - 1], turn.env);
      NeverFoul(j.link, u.trace[|u.trace| - 1], turn.env);
    }
  }

  lemma InStepIsHeeded(t: C.Talk, s: C.Setup, l: S.Link, reply: Option<int>)
    requires C.Waiting(t, s) && InStep(t, s, l, reply)
    ensures !Unheeded(t, l)
  {
    hide C.Progress;
  }

  // The read succeeds, and the two are in step.
  lemma InStepIsFine(j: Joint, turn: Turn, s: C.Setup)
    requires Inv(j, s) && Fits(s) && EndsOnce(s.message) && j.talk.control != C.Finished && Heard(j, turn).ok
    requires InStep(j.talk, s, j.link, j.reply)
    ensures Inv(Round(j, turn, s), s)
  {
    hide C.Step, C.Progress, C.Script, C.Contains, Deliver, Sync, Fits, Foul, C.Ended, Answering, Moved,
      Waits, GreetingText, EndsOnce, Adrift, Unheeded;
    var i := Heard(j, turn);
    var t, u := j.talk, C.Step(j.talk, i, s);
    C.StepIsFine(t, i, s);
    if t.run || t.control != C.AwaitOptions {
      if Initial(t) {
        EmptyTrace(t, s);
        GreetingSaysEsmtp(turn.text, turn.date);
      }
      ClientMoves(t, i, s);
      if CS.SentQuit !in t.actions && !Halted(t, s) {
        ItemAnswered(t, u, s, j.link, turn.env);
      } else {
        UpgradeIsSilent(j.link, turn.env);
      }
    } else {
      OptionsEnd(t, i, s);
    }
  }

  lemma OptionsEnd(t: C.Talk, i: C.Input, s: C.Setup)
    requires t.control == C.AwaitOptions && !t.run
    ensures C.Step(t, i, s).control == C.Finished && C.Step(t, i, s).trace == t.trace
  {
    hide C.FlagsOf, C.Act;
  }

  // The read fails with a code the client acts on, and the two are in step.
  lemma LostInStep(j: Joint, turn: Turn, s: C.Setup)
    requires Inv(j, s) && Fits(s) && EndsOnce(s.message) && j.talk.control == C.AwaitReply && j.link.open
    requires !Heard(j, turn).ok && turn.code in {220, 221, 250, 354}
    requires InStep(j.talk, s, j.link, j.reply)
    ensures Inv(Round(j, turn, s), s)
  {
    hide C.Step, C.Progress, C.Script, C.Contains, Deliver, Sync, Fits, Foul, C.Ended, Answering, Moved,
      Waits, GreetingText, EndsOnce, Adrift, Unheeded;
    var i := Heard(j, turn);
    var t, l := j.talk, j.link;
    var u := C.Step(t, i, s);
    C.StepIsFine(t, i, s);
    LostMoves(t, i, s);
    InStepIsHeeded(t, s, l, j.reply);
    if |u.trace| > |t.trace| {
      var item := u.trace[|u.trace| - 1];
      if item == C.Upgraded {
        UpgradeIsSilent(l, turn.env);
        assert item != Answering(t, s) by {
          NoUpgrade(t, s);
        }
      } else if Initial(t) && item == C.Wrote(Command(Helo, [s.domain])) {
        FreshServer(t, s, l);
        HeloAnswered(l, s, turn.env);
        assert item != Answering(t, s) by {
          NoUpgrade(t, s);
        }
      } else {
        var v := C.Step(t, i.(ok := true, code := Right(t)), s);
        C.StepIsFine(t, i.(ok := true, code := Right(t)), s);
        ClientMoves(t, i.(ok := true, code := Right(t)), s);
        ItemAnswered(t, v, s, l, turn.env);
        if u.control != C.Finished {
          StillInStep(t, v, u, s, Deliver(l, item, turn.env), Answer(l, Deliver(l, item, turn.env)));
        }
      }
    }
  }

  lemma NoUpgrade(t: C.Talk, s: C.Setup)
    ensures Answering(t, s) != C.Upgraded && Answering(t, s) != C.Wrote(Command(Helo, [s.domain]))
  {
  }

  lemma FreshServer(t: C.Talk, s: C.Setup, l: S.Link)
    requires C.Waiting(t, s) && Initial(t) && Sync(t, s, l)
    ensures l.open && l.rounds < 60 && SS.SaidHelo !in l.session.actions
  {
    hide C.Progress;
    ShortTrace(t, s);
  }

  lemma StillInStep(t: C.Talk, v: C.Talk, u: C.Talk, s: C.Setup, m: S.Link, reply: Option<int>)
    requires C.Waiting(t, s) && t.control == C.AwaitReply && CS.SentMailFrom !in t.actions && Moves(t, v, s)
    requires u == v.(run := false, lost := true)
    requires !m.open || InStep(v, s, m, reply) || Adrift(v, m, reply)
    ensures !m.open || InStep(u, s, m, reply)
    ensures CS.SentQuit !in u.actions
  {
    hide C.Progress;
  }

  // The read fails, or a refusal is read, behind a command that was not carried out.
  lemma AdriftIsFine(j: Joint, turn: Turn, s: C.Setup)
    requires Inv(j, s) && Fits(s) && j.talk.control == C.AwaitReply
    requires Adrift(j.talk, j.link, j.reply)
    ensures Inv(Round(j, turn, s), s)
  {
    hide C.Step, C.Progress, C.Script, Deliver, Fits, Foul, C.Ended, Answering, GreetingText, InStep;
    var i := Heard(j, turn);
    var t, l := j.talk, j.link;
    var u := C.Step(t, i, s);
    C.StepIsFine(t, i, s);
    ShortTrace(t, s);
    if i.ok || i.code !in {220, 221, 250, 354} {
      RefusedEnds(t, i, s);
    } else {
      LostMoves(t, i, s);
      if i.code in {221, 250} {
        UnheededAnswer(t, s, l, turn.env);
      }
    }
  }

  lemma RoundIsFine(j: Joint, turn: Turn, s: C.Setup)
    requires Inv(j, s) && Fits(s) && EndsOnce(s.message)
    ensures Inv(Round(j, turn, s), s)
  {
    hide C.Step, C.Waiting, C.Ended, Deliver, Fits, EndsOnce, InStep, Foul, Adrift;
    var i := Heard(j, turn);
    var t := j.talk;
    if t.control == C.Finished {
      FinishedStep(t, i, s);
    } else if !j.link.open {
      ClosedIsFine(j, turn, s);
    } else if InStep(t, s, j.link, j.reply) {
      if i.ok {
        InStepIsFine(j, turn, s);
      } else if t.control == C.AwaitReply && i.code in {220, 221, 250, 354} {
        LostInStep(j, turn, s);
      } else {
        LostAtOnce(j, turn, s);
      }
    } else {
      assert t.control == C.AwaitReply by {
        AdriftAwaits(t, j.link, j.reply);
      }
      AdriftIsFine(j, turn, s);
    }
  }

  lemma AdriftAwaits(t: C.Talk, l: S.Link, reply: Option<int>)
    requires Adrift(t, l, reply)
    ensures t.control == C.AwaitReply
  {
  }

  lemma LostAtOnce(j: Joint, turn: Turn, s: C.Setup)
    requires Inv(j, s) && j.talk.control != C.Finished && !Heard(j, turn).ok && InStep(j.talk, s, j.link, j.reply)
    requires j.talk.control != C.AwaitReply || turn.code !in {220, 221, 250, 354}
    ensures Inv(Round(j, turn, s), s)
  {
    hide C.Step, C.Progress, C.Ended, Deliver, InStep, Foul, Adrift, Unheeded;
    var i := Heard(j, turn);
    C.StepIsFine(j.talk, i, s);
    RefusedEnds(j.talk, i, s);
    InStepIsHeeded(j.talk, s, j.link, j.reply);
  }

  lemma {:induction false} PlayIsFine(j: Joint, turns: seq<Turn>, s: C.Setup)
    requires Inv(j, s) && Fits(s) && EndsOnce(s.message)
    ensures Inv(Play(j, turns, s), s)
    decreases |turns|
  {
    hide Inv, Round, Fits, EndsOnce;
    if turns != [] {
      RoundIsFine(j, turns[0], s);
      PlayIsFine(Round(j, turns[0], s), turns[1..], s);
    }
  }

  // An order exception (reply 503) is raised in a joint run exactly if MAIL FROM named a
  // domain of the server itself without SU permission, or a read failed behind a MAIL FROM
  // or RCPT TO that the server had not carried out and left 221 or 250 in the client's code
  // variable: but for that the client never speaks out of turn (section 4.1.4 of RFC 5321).
  lemma OrderException(turns: seq<Turn>, s: C.Setup)
    requires Fits(s) && EndsOnce(s.message)
    ensures var j := Play(CONNECTED, turns, s);
            503 in j.link.replies <==> j.foul || j.slipped
  {
    hide Play, Fits, EndsOnce;
    ConnectedIsFine(s);
    PlayIsFine(CONNECTED, turns, s);
  }

  // When a run has slipped: in one of its rounds a read failed in that situation.
  lemma {:induction false} WhenItSlips(j: Joint, turns: seq<Turn>, s: C.Setup)
    ensures Play(j, turns, s).slipped <==>
            j.slipped || exists k :: 0 <= k < |turns| && Slips(Play(j, turns[..k], s), turns[k])
    decreases |turns|
  {
    hide Round, Slips;
    if turns != [] {
      var next := Round(j, turns[0], s);
      SlippedStep(j, turns[0], s);
      WhenItSlips(next, turns[1..], s);
      assert turns[..0] == [];
      forall k | 0 < k <= |turns| ensures Play(j, turns[..k], s) == Play(next, turns[1..][..k - 1], s) {
        assert turns[..k][1..] == turns[1..][..k - 1];
      }
      if k :| 0 <= k < |turns| && Slips(Play(j, turns[..k], s), turns[k]) {
        if k > 0 {
          assert turns[k] == turns[1..][k - 1];
        }
      }
      if k :| 0 <= k < |turns[1..]| && Slips(Play(next, turns[1..][..k], s), turns[1..][k]) {
        assert turns[1..][k] == turns[k + 1] && turns[1..][..k + 1 - 1] == turns[1..][..k];
      }
    }
  }

  lemma SlippedStep(j: Joint, turn: Turn, s: C.Setup)
    ensures Round(j, turn, s).slipped == (j.slipped || Slips(j, turn))
  {
    hide C.Step, Deliver, Foul, Slips;
  }

  // ---------------------------------------------------------------- a message with a terminator in it

  function Inputs(lines: seq<string>, env: S.Env): (r: seq<S.Input>)
    ensures |r| == |lines|
  {
    seq(|lines|, i requires 0 <= i < |lines| => S.Input(Some(lines[i]), env))
  }

  lemma {:induction false} FeedIsRun(l: S.Link, lines: seq<string>, env: S.Env)
    ensures Feed(l, lines, env) == S.Run(l, Inputs(lines, env))
    decreases |lines|
  {
    hide S.Step;
    if lines != [] {
      assert Inputs(lines, env)[1..] == Inputs(lines[1..], env);
      FeedIsRun(S.Step(l, Inputs(lines, env)[0]), lines[1..], env);
    }
  }

  // Text whose last line is a single dot.
  predicate EndsInDot(text: string)
  {
    && |text| >= 3 && text[|text| - 3..] == ".\r\n"
    && (|text| > 3 ==> |text| >= 5 && text[|text| - 5..] == BODY_END)
  }

  lemma StartsThere(text: string, at: nat, p: string)
    requires at <= |text| && StartsWith(text[at..], p)
    ensures at + |p| <= |text| && text[at..at + |p|] == p
  {
    assert text[at..][..|p|] == text[at..at + |p|];
  }

  lemma RestEndsInDot(text: string, end: nat)
    requires EndsInDot(text) && |text| > 3 && end <= |text| - 5 && text[end] == '\r' && text[end + 1] == '\n'
    ensures EndsInDot(text[end + 2..])
  {
    var n := |text|;
    var rest := text[end + 2..];
    assert text[n - 5..][0] == text[n - 5] && text[n - 5..][1] == text[n - 4];
    assert rest[|rest| - 3..] == text[n - 3..];
    if |rest| > 3 {
      assert |rest| >= 5;
      assert rest[|rest| - 5..] == text[n - 5..];
    }
  }

  // Where its first line ends.
  lemma FirstBreak(text: string) returns (end: nat)
    requires EndsInDot(text)
    ensures FindString(text, "\r\n") == Some(end) && end + 2 <= |text| && text[end] == '\r' && text[end + 1] == '\n'
    ensures if |text| > 3 then end <= |text| - 5 else end == 1 && text[..1] == "."
  {
    hide FindString;
    var n := |text|;
    var tail := text[n - 3..];
    assert tail[1..] == "\r\n" && text[n - 2..] == tail[1..];
    FindStringFirst(text, "\r\n", n - 2);
    end := FindString(text, "\r\n").value;
    StartsThere(text, end, "\r\n");
    assert text[end..end + 2][0] == text[end] && text[end..end + 2][1] == text[end + 1];
    if n > 3 {
      BreakInFront(text);
      FindStringFirst(text, "\r\n", n - 5);
    } else {
      assert text == tail && tail[0] == '.';
    }
  }

  lemma BreakInFront(text: string)
    requires EndsInDot(text) && |text| > 3
    ensures StartsWith(text[|text| - 5..], "\r\n")
  {
    var tail := text[|text| - 5..];
    assert tail[..2] == "\r\n";
  }

  lemma {:induction false} DotIsLast(text: string)
    requires EndsInDot(text)
    ensures var lines := CrlfLines(text); lines != [] && lines[|lines| - 1] == "."
    decreases |text|
  {
    hide FindString, EndsInDot;
    var end := FirstBreak(text);
    if |text| > 3 {
      RestEndsInDot(text, end);
      DotIsLast(text[end + 2..]);
    } else {
      NotLonger(text);
      assert text[end + 2..] == "" && CrlfLines("") == [] by {
        NoMoreLines();
      }
    }
  }

  lemma NotLonger(text: string)
    requires EndsInDot(text) && |text| <= 3
    ensures |text| == 3
  {
  }

  lemma NoMoreLines()
    ensures CrlfLines("") == []
  {
  }

  // Where the message ends for the server, and what is left of what was written.
  lemma FirstTerminator(message: string)
    ensures var text := message + BODY_END;
            && FindString(text, BODY_END).Some? && FindString(text, BODY_END).value <= |message|
            && var rest := text[FindString(text, BODY_END).value + 5..];
               if EndsOnce(message) then rest == "" else EndsInDot(rest)
  {
    hide FindString;
    var text := message + BODY_END;
    assert text[|message|..] == BODY_END;
    FindStringFirst(text, BODY_END, |message|);
    var end, n := FindString(text, BODY_END).value, |text|;
    StartsThere(text, end, BODY_END);
    var rest := text[end + 5..];
    if end < |message| {
      assert text[n - 5..] == BODY_END;
      assert text[n - 5] == '\r' && text[n - 4] == '\n' && text[n - 3] == '.' && text[n - 2] == '\r' && text[n - 1] == '\n';
      assert text[end + 4] == '\n' && text[end + 3] == '\r';
      assert rest[|rest| - 3..] == text[n - 3..];
      assert |rest| > 3 ==> rest[|rest| - 5..] == text[n - 5..];
    }
  }

  lemma DotIsNoCommand()
    ensures Parse(".") == Command(Unknown, [])
  {
    assert ToLower(".") == ".";
  }

  // A body, whatever is in it: the server takes the text in front of the first terminator
  // for the message, and runs on what is left as on any lines of a client, so that its
  // invariants hold. If the message holds a terminator, the last of these lines is the dot
  // the client meant to end the message with, and it is answered with 502 if the connection
  // gets that far.
  lemma RestIsCommands(before: S.Link, message: string, env: S.Env)
    requires S.Inv(before) && before.open && before.rounds < 60 && S.BeginData(before.session).exit == S.Goes
    ensures var text := message + BODY_END;
            && FindString(text, BODY_END).Some? && FindString(text, BODY_END).value <= |message|
            && var end := FindString(text, BODY_END).value;
               var lines := CrlfLines(text[end + 5..]);
               var taken := S.After(before, S.HandleData(before.session, env.(delivery := WithText(env.delivery, text[..end]))));
               var after := Deliver(BeginStep(before), C.WroteBody(text), env);
               && after == S.Run(taken, Inputs(lines, env))
               && S.Inv(after)
               && (EndsOnce(message) <==> lines == [])
               && (!EndsOnce(message) ==>
                     && lines[|lines| - 1] == "."
                     && var last := S.Run(taken, Inputs(lines[..|lines| - 1], env));
                        last.open && last.rounds < 60 ==> after.replies == last.replies + [502])
  {
    hide FindString, S.HandleData, S.Inv, CrlfLines, S.Run, EndsOnce, EndsInDot, BeginStep, FinishStep, S.After, Inputs;
    var text := message + BODY_END;
    FirstTerminator(message);
    var end := FindString(text, BODY_END).value;
    var lines := CrlfLines(text[end + 5..]);
    var body := env.(delivery := WithText(env.delivery, text[..end]));
    DataInTwoSteps(before, body);
    S.DataIsFine(before, body);
    var taken := S.After(before, S.HandleData(before.session, body));
    FeedIsRun(taken, lines, env);
    S.RunIsFine(taken, Inputs(lines, env));
    if EndsOnce(message) {
      NoLines();
    } else {
      DotIsLast(text[end + 5..]);
      LastInput(taken, lines, env);
    }
  }

  lemma LastInput(taken: S.Link, lines: seq<string>, env: S.Env)
    requires lines != [] && lines[|lines| - 1] == "."
    ensures var last := S.Run(taken, Inputs(lines[..|lines| - 1], env));
            last.open && last.rounds < 60 ==> S.Run(taken, Inputs(lines, env)).replies == last.replies + [502]
  {
    hide S.Run;
    var n := |lines| - 1;
    assert Inputs(lines, env) == Inputs(lines[..n], env) + [S.Input(Some("."), env)];
    S.RunSnoc(taken, Inputs(lines[..n], env), S.Input(Some("."), env));
    DotIsNoCommand();
    assert [] + [502] == [502];
  }
}
