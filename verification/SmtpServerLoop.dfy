// `SMTPServer` as it runs: the switch over the commands, the DATA handler and the loop
// of one connection, on a session that is changed in place
// (lib/smtp/server/SMTPServer.src.cc, lib/smtp/server/handlers/data.src.cc).
module SmtpServerLoop {
  import opened Text
  import opened Addresses
  import opened SmtpCommand
  import opened SmtpServerSession
  import opened SmtpServer
  import opened WorkerQueue
  import Mime
  import D = DataText

  // What a push adds to a queue.
  function Copies<T>(x: T, n: nat): (r: seq<T>)
    ensures |r| == n
  {
    seq(n, _ => x)
  }

  lemma MoreCopies<T>(x: T, m: nat, n: nat)
    ensures Copies(x, m) + Copies(x, n) == Copies(x, m + n) && Copies(x, 0) == []
  {
  }

  class Connection {
    const session: ServerSession
    // The queues of the workers, shared by all connections.
    const databaseWorker: Queue<ServerSession>
    const transmissionWorker: Queue<ServerSession>
    var replies: seq<int>

    constructor (databaseWorker: Queue<ServerSession>, transmissionWorker: Queue<ServerSession>)
      requires databaseWorker != transmissionWorker
      ensures Valid()
      ensures this.databaseWorker == databaseWorker && this.transmissionWorker == transmissionWorker
      ensures fresh(session) && session.View() == FRESH && replies == []
    {
      this.databaseWorker, this.transmissionWorker, replies := databaseWorker, transmissionWorker, [];
      session := new ServerSession();
    }

    // The two workers have a queue each.
    ghost predicate Valid()
    {
      databaseWorker != transmissionWorker
    }

    // The connection changed as `h` says.
    twostate predicate Handled(h: SmtpServer.Handled, exit: Exit)
      reads this, session, databaseWorker, transmissionWorker
    {
      && session.View() == h.session
      && replies == old(replies) + h.replies
      && databaseWorker.items == old(databaseWorker.items) + Copies(session, h.pushed.storage)
      && transmissionWorker.items == old(transmissionWorker.items) + Copies(session, h.pushed.relay)
      && exit == h.exit
    }

    method SendResponse(code: int)
      modifies this`replies
      ensures replies == old(replies) + [code]
    {
      replies := replies + [code];
    }

    method Hello(c: Command) returns (exit: Exit)
      modifies this`replies, session
      ensures Handled(HandleHello(old(session.View()), c), exit)
    {
      Unpushed();
      if session.GetAction(SaidHelo) {
        return OrderError;
      } else if |c.args| < 1 {
        return SyntaxError;
      }
      SendResponse(250);
      session.SetAction(SaidHelo);
      exit := Goes;
    }

    lemma Unpushed()
      ensures databaseWorker.items + [] == databaseWorker.items && transmissionWorker.items + [] == transmissionWorker.items
      ensures replies + [] == replies && Copies(session, 0) == []
    {
    }

    method UpgradeToTls(env: Env) returns (exit: Exit)
      modifies this`replies, session
      ensures Handled(HandleStartTls(old(session.View()), env), exit)
    {
      Unpushed();
      if !session.GetAction(SaidHelo) {
        return OrderError;
      } else if session.GetFlag(Encrypted) {
        return OrderError;
      }
      SendResponse(220);
      if !env.tls {
        return Fatal;
      }
      session.SetFlag(Encrypted);
      session.ClearAction(SaidHelo);
      exit := Goes;
    }

    method TakeSender(c: Command, env: Env) returns (exit: Exit)
      modifies this`replies, session
      ensures Handled(HandleMailFrom(old(session.View()), c, env), exit)
    {
      hide ParseAddress, SameOwner;
      Unpushed();
      if session.GetAction(GaveMailFrom) {
        return OrderError;
      } else if !session.GetAction(SaidHelo) {
        return OrderError;
      } else if |c.args| < 1 {
        return SyntaxError;
      }
      var parsed := ParseAddress(c.args[0]);
      if !parsed.Done? {
        return SyntaxError;
      }
      var from := parsed.value;
      if !from.Domain().Done? {
        return Fatal;
      }
      if !session.GetFlag(Comrade) {
        if env.domain == Broken {
          return DatabaseError;
        }
        if env.domain == Found {
          if !session.GetFlag(Authenticated) {
            return OrderError;
          }
          if !SameOwner(from, session.s_SendingAccount) {
            SendResponse(551);
            return Closes;
          }
          session.SetFlag(FromLocal);
        }
      }
      session.SetTransportFrom(from);
      SendResponse(250);
      session.SetAction(GaveMailFrom);
      exit := Goes;
    }

    method TakeRecipient(c: Command, env: Env) returns (exit: Exit)
      modifies this`replies, session
      ensures Handled(HandleRcptTo(old(session.View()), c, env), exit)
    {
      hide ParseAddress;
      Unpushed();
      if !session.GetAction(SaidHelo) {
        return OrderError;
      } else if !session.GetAction(GaveMailFrom) {
        return OrderError;
      } else if |c.args| < 1 {
        return SyntaxError;
      }
      var to := ParseAddress(c.args[0]);
      if !to.Done? {
        return SyntaxError;
      }
      if !to.value.Domain().Done? {
        return Fatal;
      }
      if env.domain == Broken {
        return DatabaseError;
      }
      var relay := env.domain == Missing && session.GetFlag(FromLocal);
      if !relay {
        match env.account {
          case Unknown =>
            SendResponse(551);
            return Goes;
          case Failing =>
            return DatabaseError;
          case Known(_) =>
        }
      }
      SendResponse(250);
      if !relay {
        session.AddStorageTask(StorageTask(env.account.account, Incoming));
      } else {
        session.AddRelayTask(to.value);
        if !session.GetFlag(Relay) {
          session.SetFlag(Relay);
          session.AddStorageTask(StorageTask(session.s_SendingAccount, SentBox));
        }
      }
      session.SetAction(GaveRcptTo);
      exit := Goes;
    }

    method Authenticate(c: Command, env: Env) returns (exit: Exit)
      modifies this`replies, session
      ensures Handled(HandleAuth(old(session.View()), c, env), exit)
    {
      Unpushed();
      if session.GetAction(TriedAuth) {
        return OrderError;
      } else if !session.GetAction(SaidHelo) {
        return OrderError;
      } else if |c.args| < 2 {
        return SyntaxError;
      }
      match env.auth {
        case BadEncoding =>
          return SyntaxError;
        case NoUser =>
          return Fatal;
        case DatabaseDown(seen) =>
          if seen.Some? {
            session.SetSendingAccount(seen.value);
          }
          return DatabaseError;
        case Refused(account) =>
          session.SetSendingAccount(account);
          SendResponse(530);
          return Closes;
        case Granted(account) =>
          session.SetSendingAccount(account);
          SendResponse(235);
      }
      session.SetAction(TriedAuth);
      session.SetFlag(Authenticated);
      exit := Goes;
    }

    // `dataHandler`
    method TakeBody(d: Delivery) returns (exit: Exit)
      requires Valid()
      modifies this`replies, session, databaseWorker, transmissionWorker
      ensures Handled(FinishData(old(session.View()), d), exit)
    {
      hide Rewrite, D.StoredText, D.Added;
      Unpushed();
      match d {
        case TooLarge =>
          SendResponse(556);
          return Closes;
        case Cut =>
          return Fatal;
        case Read(text, marks, spf, dmarc, broken, noStore) =>
          session.SetRaw(text);
          if !session.GetFlag(Authenticated) {
            if dmarc.Some? && !spf {
              if dmarc.value == PolicyReject {
                SendResponse(550);
                return Closes;
              }
              session.SetPossibleSpam(true);
            } else if !spf && dmarc.None? {
              session.SetPossibleSpam(true);
            }
          }
          var added := D.BuildAdded(session.GetFlag(Authenticated), session.GetFlag(Comrade), marks);
          var stored := D.BuildText(text, added);
          if !stored.Done? {
            return Fatal;
          }
          session.SetRaw(stored.value.text);
          if !stored.value.whole || broken {
            return Fatal;
          }
          RewriteTasks(d);
          SendResponse(250);
          PushTasks();
          return Goes;
      }
    }

    // Lines 284-290 of the handler.
    method RewriteTasks(d: Delivery)
      requires d.Read?
      modifies session
      ensures session.View() == Rewrite(old(session.View()), d)
    {
      hide ToSpam, WithoutSent;
      if session.m_PossibleSpam {
        session.StorageTasksToSpam();
      }
      if d.noStore {
        session.RemoveSentTasks();
      }
    }

    // Lines 305-306: each worker gets the session if it has something to do.
    method PushTasks()
      requires Valid()
      modifies databaseWorker, transmissionWorker
      ensures databaseWorker.items ==
              old(databaseWorker.items) + Copies(session, TimesIf(session.m_StorageTasks != []))
      ensures transmissionWorker.items ==
              old(transmissionWorker.items) + Copies(session, TimesIf(session.m_RelayTasks != []))
    {
      if |session.m_StorageTasks| > 0 {
        databaseWorker.Push(session);
      }
      if |session.m_RelayTasks| > 0 {
        transmissionWorker.Push(session);
      }
    }

    method TakeData(env: Env) returns (exit: Exit)
      requires Valid()
      modifies this`replies, session, databaseWorker, transmissionWorker
      ensures Handled(HandleData(old(session.View()), env), exit)
    {
      hide FinishData;
      Unpushed();
      if session.GetAction(BeganData) {
        return OrderError;
      }
      if !session.GetAction(SaidHelo) {
        return OrderError;
      }
      if !session.GetAction(GaveMailFrom) {
        return OrderError;
      }
      if !session.GetAction(GaveRcptTo) {
        return OrderError;
      }
      SendResponse(354);
      session.SetAction(BeganData);
      ghost var begun := session.View();
      assert begun == BeginData(old(session.View())).session;
      Mime.Assoc(old(replies), [354], FinishData(begun, env.delivery).replies);
      exit := TakeBody(env.delivery);
    }

    method HandleCommand(c: Command, env: Env) returns (exit: Exit)
      requires Valid()
      modifies this`replies, session, databaseWorker, transmissionWorker
      ensures Handled(Handle(old(session.View()), c, env), exit)
    {
      hide HandleHello, HandleStartTls, HandleMailFrom, HandleRcptTo, HandleAuth, HandleData;
      Unpushed();
      match c.kind {
        case Help =>
          SendResponse(214);
          return Goes;
        case Quit =>
          SendResponse(221);
          return Closes;
        case Helo =>
          exit := Hello(c);
        case Ehlo =>
          exit := Hello(c);
        case StartTls =>
          exit := UpgradeToTls(env);
        case MailFrom =>
          exit := TakeSender(c, env);
        case RcptTo =>
          exit := TakeRecipient(c, env);
        case Auth =>
          exit := Authenticate(c, env);
        case Data =>
          exit := TakeData(env);
        case Su =>
          match env.access {
            case Denied =>
              SendResponse(651);
              return Closes;
            case SpfBroken =>
              return Fatal;
            case Allowed =>
              SendResponse(600);
              session.SetFlag(Comrade);
              return Goes;
          }
        case Fcapa =>
          SendResponse(601);
          return Goes;
        case _ =>
          return InvalidCommand;
      }
    }

    // The exceptions: three of them have a reply, and two end the connection.
    method AnswerError(exit: Exit) returns (open: bool)
      modifies this`replies
      ensures open == StaysOpen(exit) && replies == old(replies) + ErrorReply(exit)
    {
      Unpushed();
      open := true;
      match exit {
        case OrderError =>
          SendResponse(503);
        case SyntaxError =>
          SendResponse(501);
        case InvalidCommand =>
          SendResponse(502);
        case Goes =>
        case DatabaseError =>
        case Closes =>
          open := false;
        case Fatal =>
          open := false;
      }
    }

    // The loop of `startHandler`, with an exception reply where an exception has one.
    method Serve(inputs: seq<Input>) returns (ghost l: Link)
      requires Valid() && session.View() == FRESH && replies == []
      modifies this`replies, session, databaseWorker, transmissionWorker
      ensures l == Run(GREETED, inputs)
      ensures session.View() == l.session && replies == l.replies
      ensures databaseWorker.items == old(databaseWorker.items) + Copies(session, l.pushed.storage)
      ensures transmissionWorker.items == old(transmissionWorker.items) + Copies(session, l.pushed.relay)
    {
      hide Handle, Parse, Run, Copies, ErrorReply, NewRecipient;
      SendResponse(220);
      Unpushed();
      l := GREETED;
      var itt, pos, open := 0, 0, true;
      assert inputs[0..] == inputs;
      while open && pos < |inputs|
        invariant pos <= |inputs| && open == l.open && itt == l.rounds
        invariant Run(l, inputs[pos..]) == Run(GREETED, inputs)
        invariant session.View() == l.session && replies == l.replies
        invariant databaseWorker.items == old(databaseWorker.items) + Copies(session, l.pushed.storage)
        invariant transmissionWorker.items == old(transmissionWorker.items) + Copies(session, l.pushed.relay)
        decreases |inputs| - pos
      {
        var input := inputs[pos];
        RunStep(l, inputs, pos);
        ghost var next := Step(l, input);
        pos := pos + 1;
        if itt + 1 > 60 || input.line.None? {
          open := false;
        } else {
          itt := itt + 1;
          var command := Parse(input.line.value);
          ghost var h := Handle(l.session, command, input.env);
          var exit := HandleCommand(command, input.env);
          MoreCopies(session, l.pushed.storage, h.pushed.storage);
          MoreCopies(session, l.pushed.relay, h.pushed.relay);
          Mime.Assoc(old(databaseWorker.items), Copies(session, l.pushed.storage), Copies(session, h.pushed.storage));
          Mime.Assoc(old(transmissionWorker.items), Copies(session, l.pushed.relay), Copies(session, h.pushed.relay));
          ghost var before := l.replies;
          open := AnswerError(exit);
          Mime.Assoc(before, h.replies, ErrorReply(exit));
        }
        l := next;
      }
      RunEnds(l, inputs[pos..]);
    }
  }

  lemma RunStep(l: Link, inputs: seq<Input>, pos: nat)
    requires pos < |inputs|
    ensures Run(l, inputs[pos..]) == Run(Step(l, inputs[pos]), inputs[pos + 1..])
  {
    hide Step;
    assert inputs[pos..][1..] == inputs[pos + 1..];
  }

  lemma {:induction false} RunEnds(l: Link, inputs: seq<Input>)
    requires !l.open || inputs == []
    ensures Run(l, inputs) == l
    decreases |inputs|
  {
    if inputs != [] {
      RunEnds(l, inputs[1..]);
    }
  }
}
