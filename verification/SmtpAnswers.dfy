// What the server answers, and what becomes of a message: every reply of a connection, the
// verdict on its body and the tasks behind it (lib/smtp/server/SMTPServer.src.cc:189-587,
// lib/smtp/server/handlers/data.src.cc).
module SmtpAnswers {
  import opened Text
  import opened Addresses
  import opened MailStore
  import opened SmtpCommand
  import opened SmtpServerSession
  import opened SmtpServer
  import opened SmtpRights
  import D = DataText

  // ---------------------------------------------------------------- the verdict on a body

  // DATA comes in its place.
  predicate ReachesBody(l: Link, i: Input)
  {
    var done := l.session.actions;
    Hears(l, i, Data) && SaidHelo in done && GaveRcptTo in done && BeganData !in done
  }

  // Somebody sent it whom neither a password nor SPF vouches for.
  predicate Doubtful(l: Link, i: Input)
  {
    ReachesBody(l, i) && i.env.delivery.Read? && Authenticated !in l.session.flags && !i.env.delivery.spf
  }

  predicate Rejects(l: Link, i: Input)
  {
    Doubtful(l, i) && i.env.delivery.dmarc == Some(PolicyReject)
  }

  predicate Suspects(l: Link, i: Input)
  {
    Doubtful(l, i) && i.env.delivery.dmarc != Some(PolicyReject)
  }

  // What was checked, as the added header says it.
  function CheckText(flags: set<Flag>, m: D.Marks): string
  {
    Text.Join(if Authenticated in flags then ["auth=pass"]
              else ["spf=" + m.spf, "dkim=" + m.dkim, "dmarc=" + m.dmarc] + if Comrade in flags then ["su=" + m.su] else [], "; ")
  }

  function TextBehind(s: Session, d: Delivery): Outcome<D.Written>
    requires d.Read?
  {
    D.StoredText(d.text, ["X-Fannst-Auth: " + CheckText(s.flags, d.marks), "Received: " + d.marks.received])
  }

  // The message is taken.
  predicate TakesBody(l: Link, i: Input)
  {
    && ReachesBody(l, i) && i.env.delivery.Read? && !Rejects(l, i)
    && TextBehind(l.session, i.env.delivery).Done? && TextBehind(l.session, i.env.delivery).value.whole
    && !i.env.delivery.broken
  }

  lemma CheckIsAdded(s: Session, d: Delivery)
    requires d.Read?
    ensures AddedTo(s, d) == ["X-Fannst-Auth: " + CheckText(s.flags, d.marks), "Received: " + d.marks.received]
  {
    D.AddedSays(Authenticated in s.flags, Comrade in s.flags, d.marks);
  }

  // A message that is taken goes to its recipients: to their inboxes, or to their spam boxes;
  // the copy of a sent mail stays unless the message says otherwise.
  predicate TakenAs(l: Link, m: Link, d: Delivery)
    requires d.Read?
  {
    var spam := l.session.spam || (Authenticated !in l.session.flags && !d.spf);
    && m.session.spam == spam
    && TextBehind(l.session, d).Done? && m.session.raw == TextBehind(l.session, d).value.text
    && Owners(m.session.storage) == Locals(l.accepted) && m.session.relay == Remotes(l.accepted)
    && InboxOwners(m.session.storage) == (if spam then [] else Locals(l.accepted))
    && SentCount(m.session.storage) == (if Relay in l.session.flags && !d.noStore then 1 else 0)
    && m.pushed == Pushed(if m.session.storage == [] then 0 else 1, if Remotes(l.accepted) == [] then 0 else 1)
    && m.pushed != NO_PUSH && m.covered == |l.accepted|
  }

  lemma TakenIsRight(l: Link, i: Input)
    requires Inv(l) && TakesBody(l, i)
    ensures Step(l, i).open && Step(l, i).replies == l.replies + [354, 250]
    ensures TakenAs(l, Step(l, i), i.env.delivery)
  {
    hide Parse, D.StoredText, Rewrite, Owners, Locals, Remotes, InboxOwners, SentCount, CheckText, NewRecipient, AddedTo,
      SessionInv, HandedRight, SmtpServer.Join;
    var s, d := l.session, i.env.delivery;
    CheckIsAdded(s, d);
    ReachedInOrder(l, i);
    var t := Act(s, BeganData);
    assert AddedTo(t, d) == AddedTo(s, d) by { SameAdded(s, t, d); }
    var v := t.(raw := TextBehind(s, d).value.text, spam := s.spam || Suspicious(t, d));
    RewriteCounts(l, v, d);
    NothingPushed(l);
    JoinNothing(Pushed(TimesIf(Rewrite(v, d).storage != []), TimesIf(Rewrite(v, d).relay != [])));
    SomethingToDo(l);
    assert [354] + [250] + [] == [354, 250];
    NoTasks();
  }

  lemma SameAdded(s: Session, t: Session, d: Delivery)
    requires d.Read? && s.flags == t.flags
    ensures AddedTo(s, d) == AddedTo(t, d)
  {
    hide D.Added;
  }

  lemma ReachedInOrder(l: Link, i: Input)
    requires Inv(l) && ReachesBody(l, i)
    ensures BeginData(l.session) == Reply(Act(l.session, BeganData), 354)
    ensures !l.session.spam
  {
    hide Parse, SentCount, SameOwner, Accounted, HandedRight, InboxRight;
  }

  lemma NothingPushed(l: Link)
    requires Inv(l) && BeganData !in l.session.actions
    ensures l.pushed == NO_PUSH && Owners(l.session.storage) == Locals(l.accepted) && l.session.relay == Remotes(l.accepted)
    ensures InboxOwners(l.session.storage) == Locals(l.accepted)
    ensures SentCount(l.session.storage) == if Relay in l.session.flags then 1 else 0
  {
    hide SentCount, SameOwner, HandedRight, Owners, Locals, Remotes, InboxOwners;
    assert l.accepted[0..] == l.accepted;
  }

  lemma RewriteCounts(l: Link, v: Session, d: Delivery)
    requires Inv(l) && d.Read? && BeganData !in l.session.actions && v.storage == l.session.storage
    ensures var u := Rewrite(v, d);
            && u == v.(storage := u.storage) && Owners(u.storage) == Locals(l.accepted)
            && InboxOwners(u.storage) == (if v.spam then [] else Locals(l.accepted))
            && SentCount(u.storage) == if Relay in l.session.flags && !d.noStore then 1 else 0
  {
    hide SentCount, Owners, Locals, Remotes, InboxOwners, ToSpam, WithoutSent, Inv;
    NothingPushed(l);
    ToSpamKeeps(v.storage);
    WithoutSentKeeps(v.storage);
    WithoutSentKeeps(ToSpam(v.storage));
  }

  // The handler behind the checks, for a body that is not taken.
  lemma FinishUntaken(s: Session, d: Delivery)
    requires !s.spam
    requires !(&& d.Read? && !Rejected(s, d) && D.StoredText(d.text, AddedTo(s, d)).Done?
               && D.StoredText(d.text, AddedTo(s, d)).value.whole && !d.broken)
    ensures var h := FinishData(s, d);
            && !StaysOpen(h.exit) && h.pushed == NO_PUSH
            && h.session.storage == s.storage && h.session.relay == s.relay && (h.session.spam <==> Suspicious(s, d))
            && h.replies + ErrorReply(h.exit) == if d.TooLarge? then [556] else if Rejected(s, d) then [550] else []
  {
    hide D.StoredText, Rewrite, AddedTo;
  }

  lemma BodyStep(l: Link, i: Input)
    requires ReachesBody(l, i) && BeginData(l.session) == Reply(Act(l.session, BeganData), 354)
    ensures var f := FinishData(Act(l.session, BeganData), i.env.delivery);
            Step(l, i) == After(l, f.(replies := [354] + f.replies))
  {
    hide Parse, FinishData, After;
  }

  // What the step makes of such a handler.
  lemma AfterUntaken(l: Link, f: SmtpServer.Handled)
    requires !StaysOpen(f.exit) && f.pushed == NO_PUSH
    requires f.session.storage == l.session.storage && f.session.relay == l.session.relay
    ensures var m := After(l, f.(replies := [354] + f.replies));
            && !m.open && m.pushed == l.pushed && m.accepted == l.accepted && m.session == f.session
            && m.replies == l.replies + [354] + (f.replies + ErrorReply(f.exit))
  {
    hide SmtpServer.Join, ErrorReply;
    JoinNothing(l.pushed);
    assert l.accepted + [] == l.accepted;
    assert l.replies + ([354] + f.replies + ErrorReply(f.exit)) == l.replies + [354] + (f.replies + ErrorReply(f.exit));
  }

  // Whether the body is taken, told by the session the handler works on.
  lemma UntakenMeans(l: Link, i: Input)
    requires ReachesBody(l, i) && !TakesBody(l, i)
    ensures var t, d := Act(l.session, BeganData), i.env.delivery;
            && !(&& d.Read? && !Rejected(t, d) && D.StoredText(d.text, AddedTo(t, d)).Done?
                 && D.StoredText(d.text, AddedTo(t, d)).value.whole && !d.broken)
            && (Rejects(l, i) <==> Rejected(t, d)) && (Suspects(l, i) <==> Suspicious(t, d))
  {
    hide Parse, D.StoredText, CheckText, AddedTo;
    if i.env.delivery.Read? {
      CheckIsAdded(l.session, i.env.delivery);
      SameAdded(l.session, Act(l.session, BeganData), i.env.delivery);
    }
  }

  // A message that is not taken is not handed over, and the connection ends.
  lemma UntakenIsLost(l: Link, i: Input)
    requires Inv(l) && ReachesBody(l, i) && !TakesBody(l, i)
    ensures var m := Step(l, i);
            && !m.open && m.pushed == l.pushed == NO_PUSH && m.accepted == l.accepted
            && m.session.storage == l.session.storage && m.session.relay == l.session.relay
            && (m.session.spam <==> Suspects(l, i))
            && m.replies == l.replies + [354] + (if i.env.delivery.TooLarge? then [556] else if Rejects(l, i) then [550] else [])
  {
    hide Parse, D.StoredText, FinishData, CheckText, AddedTo, Inv, SmtpServer.Join, Step, ErrorReply, After, StaysOpen,
      TakesBody, ReachesBody, Rejects, Suspects, Rejected, Suspicious;
    var t, d := Act(l.session, BeganData), i.env.delivery;
    ReachedInOrder(l, i);
    NothingPushed(l);
    BodyStep(l, i);
    UntakenMeans(l, i);
    FinishUntaken(t, d);
    AfterUntaken(l, FinishData(t, d));
  }

  // The verdict and the hand-over change with DATA only.
  lemma BodyDecides(l: Link, i: Input)
    requires Inv(l)
    ensures var m := Step(l, i);
            && (m.session.spam <==> l.session.spam || Suspects(l, i))
            && (m.pushed != NO_PUSH <==> l.pushed != NO_PUSH || TakesBody(l, i))
  {
    hide Step, Inv, TakesBody, Suspects, ReachesBody, TakenAs;
    if ReachesBody(l, i) {
      BodyIsFirst(l, i);
      if TakesBody(l, i) {
        TakenIsRight(l, i);
        TakenVerdict(l, i);
      } else {
        UntakenIsLost(l, i);
      }
    } else {
      NoBody(l, i);
    }
  }

  lemma BodyIsFirst(l: Link, i: Input)
    requires Inv(l) && ReachesBody(l, i)
    ensures !l.session.spam && l.pushed == NO_PUSH
  {
    hide Parse, SessionInv, Accounted, HandedRight, InboxRight;
  }

  lemma TakenVerdict(l: Link, i: Input)
    requires Inv(l) && TakesBody(l, i) && TakenAs(l, Step(l, i), i.env.delivery)
    ensures Step(l, i).pushed != NO_PUSH && (Step(l, i).session.spam <==> l.session.spam || Suspects(l, i))
  {
    hide Parse, Step, Inv, D.StoredText, Owners, Locals, Remotes, InboxOwners, SentCount, CheckText;
  }

  lemma NoBody(l: Link, i: Input)
    requires Inv(l) && !ReachesBody(l, i)
    ensures !TakesBody(l, i) && !Suspects(l, i)
    ensures var m := Step(l, i);
            && (m.session.spam <==> l.session.spam) && (m.pushed == NO_PUSH <==> l.pushed == NO_PUSH)
            && (l.pushed != NO_PUSH ==> m.session.raw == l.session.raw)
  {
    hide Parse, Inv, Handle, NewRecipient, D.StoredText;
    if l.open && l.rounds < 60 && i.line.Some? {
      if Parse(i.line.value).kind == Data {
        DataOutOfOrder(l, i);
      } else {
        OthersKeepVerdict(l.session, Parse(i.line.value), i.env);
      }
    }
  }

  lemma DataOutOfOrder(l: Link, i: Input)
    requires Inv(l) && Hears(l, i, Data) && !ReachesBody(l, i)
    ensures Handle(l.session, Parse(i.line.value), i.env) == Leave(l.session, OrderError)
  {
    hide Parse, SentCount, SameOwner, Accounted, Handed, FinishData;
  }

  lemma OthersKeepVerdict(s: Session, c: Command, env: Env)
    requires c.kind != Data
    ensures var h := Handle(s, c, env);
            h.session.spam == s.spam && h.session.raw == s.raw && h.pushed == NO_PUSH
  {
    hide ParseAddress, SameOwner;
  }

  predicate SuspectsAt(inputs: seq<Input>, k: int)
  {
    0 <= k < |inputs| && Suspects(Before(inputs, k), inputs[k])
  }

  predicate TakesBodyAt(inputs: seq<Input>, k: int)
  {
    0 <= k < |inputs| && TakesBody(Before(inputs, k), inputs[k])
  }

  // A session is judged spam exactly if its body came from somebody neither a password nor SPF
  // vouches for and DMARC had it not rejected; it is handed over exactly if its body was taken.
  lemma {:induction false} BodyIsJudged(inputs: seq<Input>)
    ensures var l := Run(GREETED, inputs);
            && (l.session.spam <==> exists k :: SuspectsAt(inputs, k))
            && (l.pushed != NO_PUSH <==> exists k :: TakesBodyAt(inputs, k))
    decreases |inputs|
  {
    hide Run, Step, Suspects, TakesBody, Inv;
    if inputs == [] {
      NothingRun();
    } else {
      var n := |inputs| - 1;
      var front, last := inputs[..n], inputs[n];
      assert inputs == front + [last];
      RunSnoc(GREETED, front, last);
      BeforeIsFine(inputs, n);
      BodyIsJudged(front);
      BodyDecides(Run(GREETED, front), last);
      JudgedSoFar(inputs);
    }
  }

  lemma JudgedSoFar(inputs: seq<Input>)
    requires inputs != []
    ensures var n := |inputs| - 1;
            && ((exists k :: SuspectsAt(inputs, k)) <==>
                (exists k :: SuspectsAt(inputs[..n], k)) || Suspects(Run(GREETED, inputs[..n]), inputs[n]))
            && ((exists k :: TakesBodyAt(inputs, k)) <==>
                (exists k :: TakesBodyAt(inputs[..n], k)) || TakesBody(Run(GREETED, inputs[..n]), inputs[n]))
  {
    hide Run, Suspects, TakesBody;
    var n := |inputs| - 1;
    var front := inputs[..n];
    forall k ensures SuspectsAt(inputs, k) <==> SuspectsAt(front, k) || (k == n && Suspects(Run(GREETED, front), inputs[n])) {
      assert 0 <= k < n ==> front[..k] == inputs[..k];
    }
    forall k ensures TakesBodyAt(inputs, k) <==> TakesBodyAt(front, k) || (k == n && TakesBody(Run(GREETED, front), inputs[n])) {
      assert 0 <= k < n ==> front[..k] == inputs[..k];
    }
    assert SuspectsAt(inputs, n) <==> Suspects(Run(GREETED, front), inputs[n]);
    assert TakesBodyAt(inputs, n) <==> TakesBody(Run(GREETED, front), inputs[n]);
    if k :| SuspectsAt(front, k) {
      assert SuspectsAt(inputs, k);
    }
    if k :| TakesBodyAt(front, k) {
      assert TakesBodyAt(inputs, k);
    }
    if k :| SuspectsAt(inputs, k) {
      assert SuspectsAt(front, k) || k == n;
    }
    if k :| TakesBodyAt(inputs, k) {
      assert TakesBodyAt(front, k) || k == n;
    }
  }

  // ---------------------------------------------------------------- the answers

  predicate Reaches(l: Link, i: Input)
  {
    l.open && l.rounds < 60 && i.line.Some?
  }

  function Kind(i: Input): CommandType
    requires i.line.Some?
  {
    Parse(i.line.value).kind
  }

  // The first argument can be read as an address.
  predicate Readable(i: Input)
  {
    |Arguments(i)| >= 1 && ParseAddress(Arguments(i)[0]).Done?
  }

  // The codes a command is answered with, told by what it achieves and, where it fails, by the
  // reason.
  function Answer(l: Link, i: Input): seq<int>
    requires Reaches(l, i)
  {
    var done, flags, env := l.session.actions, l.session.flags, i.env;
    match Kind(i)
    case Help => [214]
    case Quit => [221]
    case Fcapa => [601]
    case Unknown => [502]
    case Su => if env.access == Allowed then [600] else if env.access == Denied then [651] else []
    case Helo => if SaidHelo in done then [503] else if Arguments(i) == [] then [501] else [250]
    case Ehlo => if SaidHelo in done then [503] else if Arguments(i) == [] then [501] else [250]
    case StartTls => if SaidHelo in done && Encrypted !in flags then [220] else [503]
    case MailFrom =>
      if TakesSender(l, i) then [250]
      else if GaveMailFrom in done || SaidHelo !in done then [503]
      else if !Readable(i) then [501]
      else if Address(i).None? || env.domain == Broken then []
      else if Authenticated in flags then [551]
      else [503]
    case RcptTo =>
      if RecipientOf(l, i) != [] then [250]
      else if SaidHelo !in done || GaveMailFrom !in done then [503]
      else if !Readable(i) then [501]
      else if Address(i).None? || env.domain == Broken || env.account.Failing? then []
      else [551]
    case Auth =>
      if Gains(l, i, Authenticated) then [235]
      else if SaidHelo !in done || Authenticated in flags then [503]
      else if |Arguments(i)| < 2 || env.auth.BadEncoding? then [501]
      else if env.auth.Refused? then [530]
      else []
    case Data =>
      if TakesBody(l, i) then [354, 250]
      else if !ReachesBody(l, i) then [503]
      else if env.delivery.TooLarge? then [354, 556]
      else if Rejects(l, i) then [354, 550]
      else [354]
  }

  // The commands behind which the connection is closed.
  predicate Ends(l: Link, i: Input)
    requires Reaches(l, i)
  {
    match Kind(i)
    case Quit => true
    case Su => i.env.access != Allowed
    case StartTls => Answer(l, i) == [220] && !i.env.tls
    case MailFrom => Answer(l, i) == [551] || (Answer(l, i) == [] && Address(i).None?)
    case RcptTo => Answer(l, i) == [] && Address(i).None?
    case Auth => Answer(l, i) == [530] || (Answer(l, i) == [] && i.env.auth.NoUser?)
    case Data => ReachesBody(l, i) && !TakesBody(l, i)
    case _ => false
  }

  predicate AnswerIsRight(l: Link, i: Input, h: SmtpServer.Handled)
    requires Reaches(l, i)
  {
    && h.replies + ErrorReply(h.exit) == Answer(l, i) && (StaysOpen(h.exit) <==> !Ends(l, i))
    && (Answer(l, i) == [501] || Answer(l, i) == [502] || Answer(l, i) == [503] ==>
          h.session == l.session && h.pushed == NO_PUSH)
  }

  // What one step says of its command.
  predicate Answered(l: Link, i: Input, m: Link)
    requires Reaches(l, i)
  {
    && m.replies == l.replies + Answer(l, i) && (m.open <==> !Ends(l, i)) && m.rounds == l.rounds + 1
    && (Answer(l, i) == [501] || Answer(l, i) == [502] || Answer(l, i) == [503] ==>
          m.session == l.session && m.accepted == l.accepted && m.pushed == l.pushed)
  }

  lemma SenderAnswered(l: Link, i: Input)
    requires Hears(l, i, MailFrom) && Inv(l)
    ensures AnswerIsRight(l, i, Handle(l.session, Parse(i.line.value), i.env))
  {
    hide Parse, AnswerIsRight, Inv;
    if Readable(i) {
      ReadableAnswered(l, i);
    } else {
      UnreadableAnswered(l, i);
    }
  }

  lemma UnreadableAnswered(l: Link, i: Input)
    requires Hears(l, i, MailFrom) && !Readable(i)
    ensures AnswerIsRight(l, i, Handle(l.session, Parse(i.line.value), i.env))
  {
    hide Parse, ParseAddress, SameOwner, Owns, HandleHello, HandleStartTls, HandleRcptTo, HandleAuth, HandleData, TakesBody,
      ReachesBody, Rejects, Gains, RecipientOf;
  }

  lemma ReadableAnswered(l: Link, i: Input)
    requires Hears(l, i, MailFrom) && Inv(l) && Readable(i)
    ensures AnswerIsRight(l, i, Handle(l.session, Parse(i.line.value), i.env))
  {
    hide Parse, ParseAddress, SameOwner, Owns, Inv, HandleHello, HandleStartTls, HandleRcptTo, HandleAuth, HandleData,
      TakesBody, ReachesBody, Rejects, Gains, RecipientOf, EmailAddress.Domain;
    var from := ParseAddress(Arguments(i)[0]).value;
    OwnerIs(from, l.session.account);
    DomainIsThere(from);
  }

  lemma RecipientAnswered(l: Link, i: Input)
    requires Hears(l, i, RcptTo)
    ensures AnswerIsRight(l, i, Handle(l.session, Parse(i.line.value), i.env))
  {
    hide Parse, ParseAddress, HandleHello, HandleStartTls, HandleMailFrom, HandleAuth, HandleData, TakesBody, ReachesBody,
      Rejects, Gains, TakesSender;
    var c := Parse(i.line.value);
    if |c.args| >= 1 && ParseAddress(c.args[0]).Done? {
      DomainIsThere(ParseAddress(c.args[0]).value);
    }
  }

  lemma AuthAnswered(l: Link, i: Input)
    requires Hears(l, i, CommandType.Auth) && Inv(l)
    ensures AnswerIsRight(l, i, Handle(l.session, Parse(i.line.value), i.env))
  {
    hide Parse, Accounted, Handed, SentCount, SameOwner;
  }

  lemma OtherAnswered(l: Link, i: Input)
    requires Reaches(l, i) && Kind(i) !in {MailFrom, RcptTo, CommandType.Auth, Data}
    ensures AnswerIsRight(l, i, Handle(l.session, Parse(i.line.value), i.env))
  {
    hide Parse;
  }

  lemma AnswerCounts(l: Link, i: Input, h: SmtpServer.Handled)
    requires Reaches(l, i) && AnswerIsRight(l, i, h) && h == Handle(l.session, Parse(i.line.value), i.env)
    ensures Answered(l, i, Step(l, i))
  {
    hide Parse, Handle, Answer, Ends, SmtpServer.Join;
    JoinNothing(l.pushed);
    assert l.accepted + [] == l.accepted;
  }

  lemma BodyAnswered(l: Link, i: Input)
    requires Hears(l, i, Data) && Inv(l)
    ensures Answered(l, i, Step(l, i))
  {
    hide Parse, Inv, ReachesBody, TakesBody, Handle, Rejects, Suspects, TakenAs, Step;
    StepCounts(l, i);
    if TakesBody(l, i) {
      TakesReached(l, i);
      TakenIsRight(l, i);
    } else if ReachesBody(l, i) {
      UntakenIsLost(l, i);
      assert l.replies + [354] + [556] == l.replies + [354, 556] && l.replies + [354] + [550] == l.replies + [354, 550];
      assert l.replies + [354] + [] == l.replies + [354];
    } else {
      NoBody(l, i);
      DataOutOfOrder(l, i);
      DataAnswer(l, i);
      AnswerCounts(l, i, Leave(l.session, OrderError));
    }
  }

  lemma DataAnswer(l: Link, i: Input)
    requires Hears(l, i, Data) && !ReachesBody(l, i) && !TakesBody(l, i)
    ensures AnswerIsRight(l, i, Leave(l.session, OrderError))
  {
    hide Parse, ReachesBody, TakesBody;
    assert [] + [503] == [503];
  }

  lemma TakesReached(l: Link, i: Input)
    requires TakesBody(l, i)
    ensures ReachesBody(l, i)
  {
    hide D.StoredText, Parse, CheckText;
  }

  lemma StepCounts(l: Link, i: Input)
    requires Reaches(l, i)
    ensures Step(l, i).rounds == l.rounds + 1
  {
    hide Handle, Parse;
  }

  // Every command is answered so, and what is answered with 501, 502 or 503 changes nothing.
  lemma AnswersAreThese(l: Link, i: Input)
    requires Inv(l) && Reaches(l, i)
    ensures Answered(l, i, Step(l, i))
  {
    hide Parse, Inv, Step, Answer, Ends, Handle, Answered, AnswerIsRight;
    var h := Handle(l.session, Parse(i.line.value), i.env);
    match Kind(i) {
      case Data =>
        BodyAnswered(l, i);
      case MailFrom =>
        SenderAnswered(l, i);
        AnswerCounts(l, i, h);
      case RcptTo =>
        RecipientAnswered(l, i);
        AnswerCounts(l, i, h);
      case Auth =>
        AuthAnswered(l, i);
        AnswerCounts(l, i, h);
      case _ =>
        OtherAnswered(l, i);
        AnswerCounts(l, i, h);
    }
  }

  // The answers to the lines of a run, in order; a failed read or a sixty-first line gets none.
  function Answers(inputs: seq<Input>): seq<int>
    decreases |inputs|
  {
    if inputs == [] then []
    else
      var n := |inputs| - 1;
      var l := Run(GREETED, inputs[..n]);
      Answers(inputs[..n]) + if Reaches(l, inputs[n]) then Answer(l, inputs[n]) else []
  }

  lemma {:induction false} RunIsAnswered(inputs: seq<Input>)
    ensures Run(GREETED, inputs).replies == [220] + Answers(inputs)
    decreases |inputs|
  {
    hide Run, Answer, Ends, Inv, Handle;
    if inputs == [] {
      NothingRun();
    } else {
      var n := |inputs| - 1;
      var l := Run(GREETED, inputs[..n]);
      assert inputs == inputs[..n] + [inputs[n]];
      RunSnoc(GREETED, inputs[..n], inputs[n]);
      BeforeIsFine(inputs, n);
      RunIsAnswered(inputs[..n]);
      if Reaches(l, inputs[n]) {
        AnswersAreThese(l, inputs[n]);
        assert [220] + Answers(inputs[..n]) + Answer(l, inputs[n]) == [220] + (Answers(inputs[..n]) + Answer(l, inputs[n]));
      } else {
        assert Answers(inputs[..n]) + [] == Answers(inputs[..n]);
      }
    }
  }

  // ---------------------------------------------------------------- copies of sent mail

  // Copies of sent mail are the sender's.
  predicate OwnCopies(s: Session)
  {
    && (forall t :: t in s.storage && t.target == SentBox ==> t.account == s.account)
    && (Relay !in s.flags ==> forall t :: t in s.storage ==> t.target != SentBox)
  }

  lemma {:induction false} CopiesBehind(tasks: seq<StorageTask>)
    ensures forall t :: t in ToSpam(tasks) && t.target == SentBox ==> t in tasks
    ensures forall t :: t in WithoutSent(tasks) ==> t in tasks
  {
    if tasks != [] {
      CopiesBehind(tasks[1..]);
      assert tasks == [tasks[0]] + tasks[1..];
    }
  }

  lemma CopiesStay(l: Link, i: Input)
    requires Inv(l) && OwnCopies(l.session)
    ensures OwnCopies(Step(l, i).session)
  {
    hide Parse, HandleMailFrom, HandleRcptTo, HandleAuth, HandleData, Inv, NewRecipient, OwnCopies;
    if Reaches(l, i) {
      match Kind(i) {
        case RcptTo =>
          CopiesOfRecipient(l.session, Parse(i.line.value), i.env);
        case Data =>
          CopiesOfBody(l.session, i.env);
        case Auth =>
          CopiesOfAuth(l, Parse(i.line.value), i.env);
        case _ =>
          CopiesOfOther(l.session, Parse(i.line.value), i.env);
      }
    }
  }

  lemma CopiesOfRecipient(s: Session, c: Command, env: Env)
    requires OwnCopies(s)
    ensures OwnCopies(HandleRcptTo(s, c, env).session)
  {
    hide ParseAddress;
  }

  lemma CopiesOfBody(s: Session, env: Env)
    requires OwnCopies(s)
    ensures OwnCopies(HandleData(s, env).session)
  {
    hide D.StoredText, AddedTo, ToSpam, WithoutSent;
    CopiesBehind(s.storage);
    CopiesBehind(ToSpam(s.storage));
  }

  lemma CopiesOfAuth(l: Link, c: Command, env: Env)
    requires OwnCopies(l.session) && Inv(l)
    ensures OwnCopies(HandleAuth(l.session, c, env).session)
  {
    hide SentCount, SameOwner, Accounted, Handed;
  }

  lemma CopiesOfOther(s: Session, c: Command, env: Env)
    requires OwnCopies(s) && c.kind !in {RcptTo, Data, CommandType.Auth}
    ensures OwnCopies(Handle(s, c, env).session)
  {
    hide ParseAddress, SameOwner;
  }

  // The copy of a sent mail goes to the sender's own box, in every reachable state.
  lemma {:induction false} CopiesAreTheSenders(inputs: seq<Input>)
    ensures OwnCopies(Run(GREETED, inputs).session)
    decreases |inputs|
  {
    hide Run, Step, Inv, OwnCopies;
    if inputs == [] {
      NothingRun();
      NoCopiesYet();
    } else {
      var n := |inputs| - 1;
      assert inputs == inputs[..n] + [inputs[n]];
      RunSnoc(GREETED, inputs[..n], inputs[n]);
      BeforeIsFine(inputs, n);
      CopiesAreTheSenders(inputs[..n]);
      CopiesStay(Run(GREETED, inputs[..n]), inputs[n]);
    }
  }

  lemma NoCopiesYet()
    ensures OwnCopies(GREETED.session)
  {
  }
}
