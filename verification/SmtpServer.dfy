// The receiving side: `SMTPServer::handleCommand`, the loop of `startHandler` with its
// exception replies, and the tail of the DATA handler
// (lib/smtp/server/SMTPServer.src.cc, lib/smtp/server/handlers/data.src.cc).
module SmtpServer {
  import opened Text
  import Mime
  import opened Addresses
  import opened MailStore
  import opened SmtpCommand
  import opened SmtpServerSession
  import D = DataText

  // ---------------------------------------------------------------- oracles

  // `LocalDomain::get`: a row, EmptyQuery or DatabaseException.
  datatype Lookup = Found | Missing | Broken

  // `AccountShortcut::find`
  datatype AccountLookup = Known(account: Account) | Unknown | Failing

  // Decoding the credentials and `authVerify`. The account is overwritten before the
  // password is fetched and compared.
  datatype Auth =
    BadEncoding | Granted(account: Account) | Refused(account: Account) | NoUser | DatabaseDown(seen: Option<Account>)

  datatype Access = Allowed | Denied | SpfBroken

  datatype Policy = PolicyNone | PolicyQuarantine | PolicyReject

  // Reading and judging a message. `broken` stands for any exception behind the reading but
  // that of a header that cannot be folded.
  datatype Delivery =
    | TooLarge
    | Cut
    | Read(text: string, marks: D.Marks, spf: bool, dmarc: Option<Policy>, broken: bool, noStore: bool)

  datatype Env = Env(
    domain: Lookup, account: AccountLookup, auth: Auth, access: Access, tls: bool, delivery: Delivery)

  // ---------------------------------------------------------------- one command

  // How `handleCommand` is left: by `return false`, by `return true` or by an exception.
  datatype Exit = Goes | Closes | OrderError | SyntaxError | InvalidCommand | Fatal | DatabaseError

  // How often the session itself was put into the queue of each worker.
  datatype Pushed = Pushed(storage: nat, relay: nat)

  datatype Handled = Handled(session: Session, replies: seq<int>, pushed: Pushed, exit: Exit)

  const NO_PUSH := Pushed(0, 0)

  function Leave(s: Session, exit: Exit): Handled
  {
    Handled(s, [], NO_PUSH, exit)
  }

  function Reply(s: Session, code: int): Handled
  {
    Handled(s, [code], NO_PUSH, Goes)
  }

  function Act(s: Session, a: Action): Session
  {
    s.(actions := s.actions + {a})
  }

  function Mark(s: Session, f: Flag): Session
  {
    s.(flags := s.flags + {f})
  }

  function HandleHello(s: Session, c: Command): Handled
  {
    if SaidHelo in s.actions then Leave(s, OrderError)
    else if |c.args| < 1 then Leave(s, SyntaxError)
    else Reply(Act(s, SaidHelo), 250)
  }

  function HandleStartTls(s: Session, env: Env): Handled
  {
    if SaidHelo !in s.actions || Encrypted in s.flags then Leave(s, OrderError)
    else if !env.tls then Handled(s, [220], NO_PUSH, Fatal)
    else Reply(Mark(s.(actions := s.actions - {SaidHelo}), Encrypted), 220)
  }

  // Is the sender the owner of the verified account?
  predicate SameOwner(from: EmailAddress, account: Account)
  {
    from.Domain() == Done(account.owner.domain) && from.Username() == Done(account.username)
  }

  function HandleMailFrom(s: Session, c: Command, env: Env): Handled
  {
    if GaveMailFrom in s.actions || SaidHelo !in s.actions then Leave(s, OrderError)
    else if |c.args| < 1 then Leave(s, SyntaxError)
    else
      var parsed := ParseAddress(c.args[0]);
      if !parsed.Done? then Leave(s, SyntaxError)
      else
        var from := parsed.value;
        var ours := if Comrade in s.flags then Missing else env.domain;
        if !from.Domain().Done? then Leave(s, Fatal)
        else if ours == Broken then Leave(s, DatabaseError)
        else if ours == Found && Authenticated !in s.flags then Leave(s, OrderError)
        else if ours == Found && !SameOwner(from, s.account) then Handled(s, [551], NO_PUSH, Closes)
        else
          var t := if ours == Found then Mark(s, FromLocal) else s;
          Reply(Act(t.(from := from), GaveMailFrom), 250)
  }

  function AcceptLocal(s: Session, account: Account): Session
  {
    Act(s.(storage := s.storage + [StorageTask(account, Incoming)]), GaveRcptTo)
  }

  // The first relay task of a session brings a copy for the box of sent mail with it.
  function AcceptRelay(s: Session, to: EmailAddress): Session
  {
    var t := s.(relay := s.relay + [to]);
    Act(if Relay in s.flags then t
        else Mark(t.(storage := s.storage + [StorageTask(s.account, SentBox)]), Relay), GaveRcptTo)
  }

  function HandleRcptTo(s: Session, c: Command, env: Env): Handled
  {
    if SaidHelo !in s.actions || GaveMailFrom !in s.actions then Leave(s, OrderError)
    else if |c.args| < 1 then Leave(s, SyntaxError)
    else
      var parsed := ParseAddress(c.args[0]);
      if !parsed.Done? then Leave(s, SyntaxError)
      else if !parsed.value.Domain().Done? then Leave(s, Fatal)
      else if env.domain == Broken then Leave(s, DatabaseError)
      else if env.domain == Missing && FromLocal in s.flags then Reply(AcceptRelay(s, parsed.value), 250)
      else
        match env.account
        case Known(account) => Reply(AcceptLocal(s, account), 250)
        case Unknown => Reply(s, 551)
        case Failing => Leave(s, DatabaseError)
  }

  function HandleAuth(s: Session, c: Command, env: Env): Handled
  {
    if TriedAuth in s.actions || SaidHelo !in s.actions then Leave(s, OrderError)
    else if |c.args| < 2 then Leave(s, SyntaxError)
    else
      match env.auth
      case BadEncoding => Leave(s, SyntaxError)
      case NoUser => Leave(s, Fatal)
      case DatabaseDown(seen) => Leave(if seen.Some? then s.(account := seen.value) else s, DatabaseError)
      case Refused(account) => Handled(s.(account := account), [530], NO_PUSH, Closes)
      case Granted(account) => Reply(Mark(Act(s.(account := account), TriedAuth), Authenticated), 235)
  }

  // The checks in front of the body (lines 520-534 of the server).
  function BeginData(s: Session): Handled
  {
    if BeganData in s.actions || SaidHelo !in s.actions || GaveMailFrom !in s.actions || GaveRcptTo !in s.actions
    then Leave(s, OrderError)
    else Reply(Act(s, BeganData), 354)
  }

  // Mail that SPF does not vouch for is spam, unless DMARC has it rejected.
  predicate Rejected(s: Session, d: Delivery)
  {
    d.Read? && Authenticated !in s.flags && !d.spf && d.dmarc == Some(PolicyReject)
  }

  predicate Suspicious(s: Session, d: Delivery)
  {
    d.Read? && Authenticated !in s.flags && !d.spf && d.dmarc != Some(PolicyReject)
  }

  // The tasks behind the verdict.
  function Rewrite(s: Session, d: Delivery): Session
    requires d.Read?
  {
    var t := if s.spam then s.(storage := ToSpam(s.storage)) else s;
    if d.noStore then t.(storage := WithoutSent(t.storage)) else t
  }

  // The two headers that are added to a message of the session.
  function AddedTo(s: Session, d: Delivery): seq<string>
    requires d.Read?
  {
    D.Added(Authenticated in s.flags, Comrade in s.flags, d.marks)
  }

  function TimesIf(b: bool): nat
  {
    if b then 1 else 0
  }

  // From the body on. Where the original works on iterators that were never assigned, the
  // connection ends here.
  function FinishData(s: Session, d: Delivery): Handled
  {
    match d
    case TooLarge => Handled(s, [556], NO_PUSH, Closes)
    case Cut => Leave(s, Fatal)
    case Read(text, _, _, _, broken, _) =>
      if Rejected(s, d) then Handled(s.(raw := text), [550], NO_PUSH, Closes)
      else
        var t := if Suspicious(s, d) then s.(raw := text, spam := true) else s.(raw := text);
        var stored := D.StoredText(text, AddedTo(s, d));
        if !stored.Done? then Leave(t, Fatal)
        else
          var v := t.(raw := stored.value.text);
          if !stored.value.whole || broken then Leave(v, Fatal)
          else
            var u := Rewrite(v, d);
            Handled(u, [250], Pushed(TimesIf(u.storage != []), TimesIf(u.relay != [])), Goes)
  }

  function HandleData(s: Session, env: Env): Handled
  {
    var b := BeginData(s);
    if b.exit != Goes then b
    else
      var f := FinishData(b.session, env.delivery);
      f.(replies := b.replies + f.replies)
  }

  function Handle(s: Session, c: Command, env: Env): Handled
  {
    match c.kind
    case Help => Reply(s, 214)
    case Quit => Handled(s, [221], NO_PUSH, Closes)
    case Helo => HandleHello(s, c)
    case Ehlo => HandleHello(s, c)
    case StartTls => HandleStartTls(s, env)
    case MailFrom => HandleMailFrom(s, c, env)
    case RcptTo => HandleRcptTo(s, c, env)
    case Auth => HandleAuth(s, c, env)
    case Data => HandleData(s, env)
    case Su =>
      (match env.access
       case Allowed => Reply(Mark(s, Comrade), 600)
       case Denied => Handled(s, [651], NO_PUSH, Closes)
       case SpfBroken => Leave(s, Fatal))
    case Fcapa => Reply(s, 601)
    case _ => Leave(s, InvalidCommand)
  }

  // ---------------------------------------------------------------- one connection

  // `accepted` lists the recipients answered with 250, in order; `covered` counts those
  // accepted before the session was pushed.
  datatype Recipient = Local(account: Account) | Remote(address: EmailAddress)

  datatype Link = Link(
    session: Session, open: bool, rounds: nat, replies: seq<int>,
    accepted: seq<Recipient>, pushed: Pushed, covered: nat)

  const GREETED := Link(FRESH, true, 0, [220], [], NO_PUSH, 0)

  // A line of the client, or None for a failed read.
  datatype Input = Input(line: Option<string>, env: Env)

  function ErrorReply(exit: Exit): seq<int>
  {
    match exit
    case OrderError => [503]
    case SyntaxError => [501]
    case InvalidCommand => [502]
    case _ => []
  }

  predicate StaysOpen(exit: Exit)
  {
    exit != Closes && exit != Fatal
  }

  function NewRecipient(s: Session, h: Handled): seq<Recipient>
  {
    if |h.session.relay| > |s.relay| then [Remote(h.session.relay[|h.session.relay| - 1])]
    else if |h.session.storage| > |s.storage| then [Local(h.session.storage[|h.session.storage| - 1].account)]
    else []
  }

  function Join(a: Pushed, b: Pushed): Pushed
  {
    Pushed(a.storage + b.storage, a.relay + b.relay)
  }

  function After(l: Link, h: Handled): Link
  {
    Link(h.session, StaysOpen(h.exit), l.rounds + 1, l.replies + (h.replies + ErrorReply(h.exit)),
         l.accepted + NewRecipient(l.session, h), Join(l.pushed, h.pushed),
         if h.pushed == NO_PUSH then l.covered else |l.accepted|)
  }

  // At most sixty turns.
  function Step(l: Link, i: Input): Link
  {
    if !l.open then l
    else if l.rounds >= 60 || i.line.None? then l.(open := false)
    else After(l, Handle(l.session, Parse(i.line.value), i.env))
  }

  function Run(l: Link, inputs: seq<Input>): Link
    decreases |inputs|
  {
    if inputs == [] then l else Run(Step(l, inputs[0]), inputs[1..])
  }

  // The last input takes one step more.
  lemma {:induction false} RunSnoc(l: Link, inputs: seq<Input>, last: Input)
    ensures Run(l, inputs + [last]) == Step(Run(l, inputs), last)
    decreases |inputs|
  {
    hide Step;
    if inputs == [] {
      assert [] + [last] == [last] && [last][1..] == [];
    } else {
      assert (inputs + [last])[1..] == inputs[1..] + [last];
      RunSnoc(Step(l, inputs[0]), inputs[1..], last);
    }
  }

  // ---------------------------------------------------------------- the invariant

  function SentCount(tasks: seq<StorageTask>): nat
  {
    if tasks == [] then 0 else (if tasks[0].target == SentBox then 1 else 0) + SentCount(tasks[1..])
  }

  // The owners of the tasks that are no copies of sent mail, in order.
  function Owners(tasks: seq<StorageTask>): seq<Account>
  {
    if tasks == [] then []
    else (if tasks[0].target == SentBox then [] else [tasks[0].account]) + Owners(tasks[1..])
  }

  // The owners of the tasks that go to an inbox.
  function InboxOwners(tasks: seq<StorageTask>): seq<Account>
  {
    if tasks == [] then []
    else (if tasks[0].target == Incoming then [tasks[0].account] else []) + InboxOwners(tasks[1..])
  }

  function Locals(rs: seq<Recipient>): seq<Account>
  {
    if rs == [] then [] else (if rs[0].Local? then [rs[0].account] else []) + Locals(rs[1..])
  }

  function Remotes(rs: seq<Recipient>): seq<EmailAddress>
  {
    if rs == [] then [] else (if rs[0].Remote? then [rs[0].address] else []) + Remotes(rs[1..])
  }

  predicate NoInbox(tasks: seq<StorageTask>)
  {
    forall t :: t in tasks ==> t.target != Incoming
  }

  // What every session keeps: order of the commands, rights, and the sender's identity.
  predicate SessionInv(s: Session)
  {
    && (BeganData in s.actions ==> GaveRcptTo in s.actions)
    && (GaveRcptTo in s.actions ==> GaveMailFrom in s.actions)
    && (Relay in s.flags <==> s.relay != [])
    && (Relay in s.flags ==> FromLocal in s.flags)
    && (FromLocal in s.flags ==> Authenticated in s.flags && GaveMailFrom in s.actions && SameOwner(s.from, s.account))
    && (Authenticated in s.flags <==> TriedAuth in s.actions)
    && SentCount(s.storage) <= (if Relay in s.flags then 1 else 0)
    && (Relay in s.flags && BeganData !in s.actions ==> SentCount(s.storage) == 1)
  }

  // Every accepted recipient has exactly one task, in order, and nobody else has one.
  predicate Accounted(s: Session, accepted: seq<Recipient>)
  {
    && Owners(s.storage) == Locals(accepted)
    && s.relay == Remotes(accepted)
    && (GaveRcptTo in s.actions <==> accepted != [])
  }

  // Each worker was handed the session at most once, if it held something for it by then.
  predicate HandedRight(accepted: seq<Recipient>, covered: nat, pushed: Pushed)
  {
    && pushed.storage <= 1 && pushed.relay <= 1
    && covered <= |accepted|
    && (pushed != NO_PUSH ==>
          && (pushed.relay == 1 <==> Remotes(accepted[..covered]) != [])
          && (pushed.storage == 0 ==> Locals(accepted[..covered]) == []))
  }

  // From accepted recipient `from` on, the tasks are for an inbox, and no other one is.
  predicate InboxRight(storage: seq<StorageTask>, accepted: seq<Recipient>, from: nat)
  {
    from <= |accepted| && InboxOwners(storage) == Locals(accepted[from..])
  }

  // Behind a verdict of spam, only recipients accepted later have a task for an inbox.
  function ToInbox(l: Link): nat
  {
    if l.session.spam && l.pushed != NO_PUSH then l.covered else 0
  }

  predicate Handed(l: Link)
  {
    && (l.session.spam ==> BeganData in l.session.actions)
    && (BeganData !in l.session.actions ==> l.pushed == NO_PUSH && l.covered == 0)
    && HandedRight(l.accepted, l.covered, l.pushed)
    && InboxRight(l.session.storage, l.accepted, ToInbox(l))
  }

  predicate Inv(l: Link)
  {
    SessionInv(l.session) && Accounted(l.session, l.accepted) && Handed(l)
  }

  lemma GreetedIsFine()
    ensures Inv(GREETED)
  {
  }

  // ---------------------------------------------------------------- its proof

  lemma {:induction false} TaskAppended(tasks: seq<StorageTask>, t: StorageTask)
    ensures Owners(tasks + [t]) == Owners(tasks) + (if t.target == SentBox then [] else [t.account])
    ensures SentCount(tasks + [t]) == SentCount(tasks) + if t.target == SentBox then 1 else 0
    ensures InboxOwners(tasks + [t]) == InboxOwners(tasks) + (if t.target == Incoming then [t.account] else [])
  {
    if tasks == [] {
      assert [] + [t] == [t] && [t][1..] == [];
    } else {
      assert (tasks + [t])[1..] == tasks[1..] + [t];
      TaskAppended(tasks[1..], t);
    }
  }

  lemma {:induction false} RecipientAppended(rs: seq<Recipient>, r: Recipient)
    ensures Locals(rs + [r]) == Locals(rs) + (if r.Local? then [r.account] else [])
    ensures Remotes(rs + [r]) == Remotes(rs) + (if r.Remote? then [r.address] else [])
  {
    if rs == [] {
      assert [] + [r] == [r] && [r][1..] == [];
    } else {
      assert (rs + [r])[1..] == rs[1..] + [r];
      RecipientAppended(rs[1..], r);
    }
  }

  lemma {:induction false} ToSpamKeeps(tasks: seq<StorageTask>)
    ensures Owners(ToSpam(tasks)) == Owners(tasks) && SentCount(ToSpam(tasks)) == SentCount(tasks)
    ensures InboxOwners(ToSpam(tasks)) == []
  {
    if tasks != [] {
      ToSpamKeeps(tasks[1..]);
      assert ToSpam(tasks)[1..] == ToSpam(tasks[1..]);
    }
  }

  lemma {:induction false} WithoutSentKeeps(tasks: seq<StorageTask>)
    ensures Owners(WithoutSent(tasks)) == Owners(tasks)
    ensures SentCount(WithoutSent(tasks)) == if SentCount(tasks) == 0 then 0 else SentCount(tasks) - 1
    ensures InboxOwners(WithoutSent(tasks)) == InboxOwners(tasks)
  {
    if tasks != [] {
      assert tasks == [tasks[0]] + tasks[1..];
      if tasks[0].target == SentBox {
        assert [] + Owners(tasks[1..]) == Owners(tasks[1..]) && [] + InboxOwners(tasks[1..]) == InboxOwners(tasks[1..]);
      } else {
        WithoutSentKeeps(tasks[1..]);
        assert ([tasks[0]] + WithoutSent(tasks[1..]))[1..] == WithoutSent(tasks[1..]);
      }
    }
  }

  lemma JoinNothing(p: Pushed)
    ensures Join(p, NO_PUSH) == p && Join(NO_PUSH, p) == p
  {
  }

  // A command that touches neither the tasks nor what decides about them.
  lemma QuietIsFine(l: Link, h: Handled)
    requires Inv(l) && SessionInv(h.session) && h.pushed == NO_PUSH
    requires h.session.storage == l.session.storage && h.session.relay == l.session.relay
    requires h.session.spam == l.session.spam
    requires GaveRcptTo in h.session.actions <==> GaveRcptTo in l.session.actions
    requires BeganData in l.session.actions ==> BeganData in h.session.actions
    ensures Inv(After(l, h))
  {
    hide Owners, Locals, Remotes, SessionInv, HandedRight, InboxRight, Join;
    JoinNothing(l.pushed);
    assert l.accepted + [] == l.accepted;
  }

  lemma HelloIsFine(l: Link, c: Command)
    requires Inv(l)
    ensures Inv(After(l, HandleHello(l.session, c)))
  {
    hide Handed, Accounted, After, SameOwner, SentCount;
    QuietIsFine(l, HandleHello(l.session, c));
  }

  lemma StartTlsIsFine(l: Link, env: Env)
    requires Inv(l)
    ensures Inv(After(l, HandleStartTls(l.session, env)))
  {
    hide Handed, Accounted, After, SameOwner, SentCount;
    QuietIsFine(l, HandleStartTls(l.session, env));
  }

  lemma MailFromIsFine(l: Link, c: Command, env: Env)
    requires Inv(l)
    ensures Inv(After(l, HandleMailFrom(l.session, c, env)))
  {
    hide Handed, Accounted, After, SameOwner, SentCount, ParseAddress;
    QuietIsFine(l, HandleMailFrom(l.session, c, env));
  }

  lemma AuthIsFine(l: Link, c: Command, env: Env)
    requires Inv(l)
    ensures Inv(After(l, HandleAuth(l.session, c, env)))
  {
    hide Handed, Accounted, After, SameOwner, SentCount;
    QuietIsFine(l, HandleAuth(l.session, c, env));
  }

  // One more recipient, with one more task.
  lemma LocalIsFine(l: Link, account: Account)
    requires Inv(l) && GaveMailFrom in l.session.actions
    ensures Inv(After(l, Reply(AcceptLocal(l.session, account), 250)))
  {
    hide Owners, Locals, Remotes, SentCount, InboxOwners, SameOwner, Handed;
    var h := Reply(AcceptLocal(l.session, account), 250);
    var task, r := StorageTask(account, Incoming), Local(account);
    TaskAppended(l.session.storage, task);
    RecipientAppended(l.accepted, r);
    assert NewRecipient(l.session, h) == [r];
    MoreAccepted(l, h, r);
  }

  lemma RelayIsFine(l: Link, to: EmailAddress)
    requires Inv(l) && GaveMailFrom in l.session.actions && FromLocal in l.session.flags
    ensures Inv(After(l, Reply(AcceptRelay(l.session, to), 250)))
  {
    hide Owners, Locals, Remotes, SentCount, InboxOwners, SameOwner, Handed;
    var h := Reply(AcceptRelay(l.session, to), 250);
    var copy, r := StorageTask(l.session.account, SentBox), Remote(to);
    TaskAppended(l.session.storage, copy);
    RecipientAppended(l.accepted, r);
    assert NewRecipient(l.session, h) == [r];
    assert Locals(l.accepted) + [] == Locals(l.accepted);
    MoreAccepted(l, h, r);
  }

  // Later recipients change nothing about what was handed over.
  lemma MoreAccepted(l: Link, h: Handled, r: Recipient)
    requires Handed(l) && h.pushed == NO_PUSH && NewRecipient(l.session, h) == [r]
    requires h.session.spam == l.session.spam && (BeganData in h.session.actions <==> BeganData in l.session.actions)
    requires InboxOwners(h.session.storage) ==
             InboxOwners(l.session.storage) + (if r.Local? then [r.account] else [])
    ensures Handed(After(l, h))
  {
    hide HandedRight, InboxRight, InboxOwners, NewRecipient, Join;
    JoinNothing(l.pushed);
    HandedStays(l.accepted, l.covered, l.pushed, r);
    InboxGrows(l.session.storage, h.session.storage, l.accepted, ToInbox(l), r);
  }

  lemma HandedStays(accepted: seq<Recipient>, covered: nat, pushed: Pushed, r: Recipient)
    requires HandedRight(accepted, covered, pushed)
    ensures HandedRight(accepted + [r], covered, pushed)
  {
    hide Locals, Remotes;
    assert (accepted + [r])[..covered] == accepted[..covered];
  }

  lemma InboxGrows(storage: seq<StorageTask>, more: seq<StorageTask>, accepted: seq<Recipient>, from: nat, r: Recipient)
    requires InboxRight(storage, accepted, from)
    requires InboxOwners(more) == InboxOwners(storage) + (if r.Local? then [r.account] else [])
    ensures InboxRight(more, accepted + [r], from)
  {
    hide Locals, Remotes, InboxOwners;
    assert (accepted + [r])[from..] == accepted[from..] + [r];
    RecipientAppended(accepted[from..], r);
  }

  lemma RcptToIsFine(l: Link, c: Command, env: Env)
    requires Inv(l)
    ensures Inv(After(l, HandleRcptTo(l.session, c, env)))
  {
    hide Handed, Accounted, After, SameOwner, SentCount, ParseAddress, AcceptLocal, AcceptRelay;
    var h := HandleRcptTo(l.session, c, env);
    if h.exit == Goes && h.replies == [250] {
      var to := ParseAddress(c.args[0]).value;
      if env.domain == Missing && FromLocal in l.session.flags {
        RelayIsFine(l, to);
      } else {
        LocalIsFine(l, env.account.account);
      }
    } else {
      QuietIsFine(l, h);
    }
  }

  lemma RewriteKeeps(s: Session, d: Delivery)
    requires d.Read?
    ensures var u := Rewrite(s, d);
            && u == s.(storage := u.storage)
            && Owners(u.storage) == Owners(s.storage) && SentCount(u.storage) <= SentCount(s.storage)
            && InboxOwners(u.storage) == if s.spam then [] else InboxOwners(s.storage)
  {
    hide Owners, SentCount, InboxOwners, ToSpam, WithoutSent;
    ToSpamKeeps(s.storage);
    WithoutSentKeeps(s.storage);
    WithoutSentKeeps(ToSpam(s.storage));
  }

  lemma NoTasks()
    ensures Owners([]) == [] && Locals([]) == [] && Remotes([]) == [] && InboxOwners([]) == []
  {
  }

  // The handler has the body: nothing but the text and the verdict changed so far.
  predicate Reads(l: Link, s: Session)
  {
    s == Act(l.session, BeganData).(spam := s.spam, raw := s.raw)
  }

  lemma ReadsIsFine(l: Link, s: Session)
    requires SessionInv(l.session) && GaveRcptTo in l.session.actions && Reads(l, s)
    ensures SessionInv(s)
    ensures s.storage == l.session.storage && s.relay == l.session.relay
    ensures BeganData in s.actions && GaveRcptTo in s.actions
  {
    hide SentCount, SameOwner;
  }

  lemma FewerCopies(s: Session, u: Session)
    requires SessionInv(s) && BeganData in s.actions && u == s.(storage := u.storage)
    requires SentCount(u.storage) <= SentCount(s.storage)
    ensures SessionInv(u)
  {
    hide SentCount, SameOwner;
  }

  // The body was taken: the session is handed over with the tasks as they stand after the
  // verdict.
  lemma PushIsFine(l: Link, d: Delivery, s: Session, replies: seq<int>)
    requires Inv(l) && BeganData !in l.session.actions && GaveRcptTo in l.session.actions && d.Read?
    requires Reads(l, s)
    ensures var u := Rewrite(s, d);
            var pushed := Pushed(TimesIf(u.storage != []), TimesIf(u.relay != []));
            NewRecipient(l.session, Handled(u, replies, pushed, Goes)) == [] ==>
              Inv(After(l, Handled(u, replies, pushed, Goes)))
  {
    hide Owners, Locals, Remotes, SessionInv, Rewrite, NewRecipient, HandedRight, InboxRight, Reads, Join;
    JoinNothing(Pushed(TimesIf(Rewrite(s, d).storage != []), TimesIf(Rewrite(s, d).relay != [])));
    ReadsIsFine(l, s);
    RewriteKeeps(s, d);
    FewerCopies(s, Rewrite(s, d));
    SomethingToDo(l);
    assert l.accepted + [] == l.accepted;
    PushedRight(l, Rewrite(s, d));
  }

  // The state of the queues and of the tasks right behind the push.
  lemma PushedRight(l: Link, u: Session)
    requires Inv(l) && BeganData !in l.session.actions
    requires Owners(u.storage) == Owners(l.session.storage) && u.relay == l.session.relay
    requires Owners(l.session.storage) != [] || l.session.relay != []
    requires InboxOwners(u.storage) == if u.spam then [] else InboxOwners(l.session.storage)
    ensures var pushed := Pushed(TimesIf(u.storage != []), TimesIf(u.relay != []));
            && pushed != NO_PUSH
            && HandedRight(l.accepted, |l.accepted|, pushed)
            && InboxRight(u.storage, l.accepted, if u.spam then |l.accepted| else 0)
  {
    hide Owners, Locals, Remotes, InboxOwners, SessionInv;
    NoTasks();
    assert l.accepted[..|l.accepted|] == l.accepted && l.accepted[|l.accepted|..] == [] && l.accepted[0..] == l.accepted;
  }

  // Whoever was accepted has a task.
  lemma SomethingToDo(l: Link)
    requires Inv(l) && GaveRcptTo in l.session.actions
    ensures Owners(l.session.storage) != [] || l.session.relay != []
  {
    hide SessionInv, Handed, Owners;
    RecipientsCounted(l.accepted);
  }

  lemma NobodyNew(l: Link, d: Delivery, s: Session, replies: seq<int>, pushed: Pushed)
    requires d.Read? && Reads(l, s)
    ensures NewRecipient(l.session, Handled(Rewrite(s, d), replies, pushed, Goes)) == []
  {
    WithoutSentShorter(s.storage);
    WithoutSentShorter(ToSpam(s.storage));
  }

  lemma {:induction false} WithoutSentShorter(tasks: seq<StorageTask>)
    ensures |WithoutSent(tasks)| <= |tasks|
  {
    if tasks != [] && tasks[0].target != SentBox {
      WithoutSentShorter(tasks[1..]);
    }
  }

  lemma DataIsFine(l: Link, env: Env)
    requires Inv(l)
    ensures Inv(After(l, HandleData(l.session, env)))
  {
    hide Owners, Locals, Remotes, SentCount, InboxOwners, SameOwner, Rewrite, After, NewRecipient, D.StoredText, D.Added;
    var b, d := BeginData(l.session), env.delivery;
    var h := HandleData(l.session, env);
    if b.exit != Goes || !d.Read? {
      QuietIsFine(l, h);
    } else if h.exit != Goes {
      BrokenIsFine(l, h);
    } else {
      var t := if Suspicious(b.session, d) then b.session.(raw := d.text, spam := true) else b.session.(raw := d.text);
      var v := t.(raw := D.StoredText(d.text, AddedTo(b.session, d)).value.text);
      NobodyNew(l, d, v, h.replies, h.pushed);
      PushIsFine(l, d, v, h.replies);
    }
  }

  lemma BrokenIsFine(l: Link, h: Handled)
    requires Inv(l) && BeganData !in l.session.actions && GaveRcptTo in l.session.actions && h.pushed == NO_PUSH
    requires Reads(l, h.session)
    ensures Inv(After(l, h))
  {
    hide Owners, Locals, Remotes, SessionInv, HandedRight, InboxRight, Reads, Join;
    JoinNothing(l.pushed);
    ReadsIsFine(l, h.session);
    assert l.accepted + [] == l.accepted;
  }

  lemma HandleIsFine(l: Link, c: Command, env: Env)
    requires Inv(l)
    ensures Inv(After(l, Handle(l.session, c, env)))
  {
    hide Inv, After, HandleData, HandleRcptTo, HandleMailFrom, HandleAuth, HandleHello, HandleStartTls;
    match c.kind
    case Helo => HelloIsFine(l, c);
    case Ehlo => HelloIsFine(l, c);
    case StartTls => StartTlsIsFine(l, env);
    case MailFrom => MailFromIsFine(l, c, env);
    case RcptTo => RcptToIsFine(l, c, env);
    case Auth => AuthIsFine(l, c, env);
    case Data => DataIsFine(l, env);
    case _ => SimpleIsFine(l, c, env);
  }

  lemma SimpleIsFine(l: Link, c: Command, env: Env)
    requires Inv(l) && c.kind !in {Helo, Ehlo, StartTls, MailFrom, RcptTo, Auth, Data}
    ensures Inv(After(l, Handle(l.session, c, env)))
  {
    hide Handed, Accounted, After, SameOwner, SentCount;
    QuietIsFine(l, Handle(l.session, c, env));
  }

  lemma StepIsFine(l: Link, i: Input)
    requires Inv(l)
    ensures Inv(Step(l, i))
  {
    hide Handle, After;
    if l.open && l.rounds < 60 && i.line.Some? {
      HandleIsFine(l, Parse(i.line.value), i.env);
    }
  }

  lemma {:induction false} RunIsFine(l: Link, inputs: seq<Input>)
    requires Inv(l)
    ensures Inv(Run(l, inputs))
    decreases |inputs|
  {
    hide Inv, Step;
    if inputs != [] {
      StepIsFine(l, inputs[0]);
      RunIsFine(Step(l, inputs[0]), inputs[1..]);
    }
  }

  // ---------------------------------------------------------------- theorems

  // The order of the commands and the rights that come with them, in every reachable
  // state. HELO is no part of the chain, because STARTTLS takes it back.
  lemma OrderAndRights(inputs: seq<Input>)
    ensures var s := Run(GREETED, inputs).session;
            && (BeganData in s.actions ==> GaveRcptTo in s.actions)
            && (GaveRcptTo in s.actions ==> GaveMailFrom in s.actions)
            && (Relay in s.flags <==> s.relay != [])
            && (Relay in s.flags ==> FromLocal in s.flags)
            && (FromLocal in s.flags ==> Authenticated in s.flags && GaveMailFrom in s.actions)
            && (FromLocal in s.flags ==> SameOwner(s.from, s.account))
  {
    hide SameOwner, SentCount, Run, Accounted, Handed;
    GreetedIsFine();
    RunIsFine(GREETED, inputs);
  }

  lemma StepFreezes(l: Link, i: Input)
    requires Inv(l)
    ensures var m := Step(l, i);
            && (Authenticated in l.session.flags ==> Authenticated in m.session.flags && m.session.account == l.session.account)
            && (GaveMailFrom in l.session.actions ==> GaveMailFrom in m.session.actions && m.session.from == l.session.from)
            && (BeganData in l.session.actions ==>
                  && BeganData in m.session.actions && m.pushed == l.pushed && m.covered == l.covered
                  && m.session.spam == l.session.spam && m.session.raw == l.session.raw)
  {
    hide SameOwner, SentCount, Accounted, Handed, Parse, ParseAddress, FinishData, NewRecipient;
    if l.open && l.rounds < 60 && i.line.Some? {
      HandleFreezes(l.session, Parse(i.line.value), i.env);
    }
  }

  // What a command leaves alone.
  predicate Frozen(s: Session, h: Handled)
  {
    && (Authenticated in s.flags ==> Authenticated in h.session.flags && h.session.account == s.account)
    && (GaveMailFrom in s.actions ==> GaveMailFrom in h.session.actions && h.session.from == s.from)
    && (BeganData in s.actions ==>
          && BeganData in h.session.actions && h.pushed == NO_PUSH
          && h.session.spam == s.spam && h.session.raw == s.raw)
  }

  lemma HandleFreezes(s: Session, c: Command, env: Env)
    requires Authenticated in s.flags ==> TriedAuth in s.actions
    ensures Frozen(s, Handle(s, c, env))
  {
    hide HandleMailFrom, HandleRcptTo, HandleAuth, HandleData, Frozen;
    if c.kind == MailFrom {
      MailFreezes(s, c, env);
    } else if c.kind == RcptTo {
      RcptFreezes(s, c, env);
    } else if c.kind == Auth {
      AuthFreezes(s, c, env);
    } else if c.kind == Data {
      DataFreezes(s, env);
    } else {
      OtherFreezes(s, c, env);
    }
  }

  lemma MailFreezes(s: Session, c: Command, env: Env)
    ensures Frozen(s, HandleMailFrom(s, c, env))
  {
    hide ParseAddress, SameOwner;
  }

  lemma RcptFreezes(s: Session, c: Command, env: Env)
    ensures Frozen(s, HandleRcptTo(s, c, env))
  {
    hide ParseAddress;
  }

  lemma AuthFreezes(s: Session, c: Command, env: Env)
    requires Authenticated in s.flags ==> TriedAuth in s.actions
    ensures Frozen(s, HandleAuth(s, c, env))
  {
  }

  lemma DataFreezes(s: Session, env: Env)
    ensures Frozen(s, HandleData(s, env))
  {
    hide FinishData;
    FinishFreezes(BeginData(s).session, env.delivery);
  }

  lemma OtherFreezes(s: Session, c: Command, env: Env)
    requires c.kind !in {MailFrom, RcptTo, Auth, Data}
    ensures Frozen(s, Handle(s, c, env))
  {
  }

  lemma FinishFreezes(s: Session, d: Delivery)
    ensures var h := FinishData(s, d);
            && h.session.flags == s.flags && h.session.account == s.account
            && h.session.from == s.from && h.session.actions == s.actions
  {
    hide D.StoredText, D.Added;
  }

  // Who authenticated stays who he is, and the envelope sender stays; behind DATA the text
  // and the verdict stay too, and the session is not pushed again.
  lemma {:induction false} RunFreezes(l: Link, inputs: seq<Input>)
    requires Inv(l)
    ensures var m := Run(l, inputs);
            && (Authenticated in l.session.flags ==> Authenticated in m.session.flags && m.session.account == l.session.account)
            && (GaveMailFrom in l.session.actions ==> GaveMailFrom in m.session.actions && m.session.from == l.session.from)
            && (BeganData in l.session.actions ==>
                  && BeganData in m.session.actions && m.pushed == l.pushed && m.covered == l.covered
                  && m.session.spam == l.session.spam && m.session.raw == l.session.raw)
    decreases |inputs|
  {
    hide Inv, Step;
    if inputs != [] {
      StepFreezes(l, inputs[0]);
      StepIsFine(l, inputs[0]);
      RunFreezes(Step(l, inputs[0]), inputs[1..]);
    }
  }

  lemma {:induction false} RecipientsCounted(rs: seq<Recipient>)
    ensures |Locals(rs)| + |Remotes(rs)| == |rs|
  {
    if rs != [] {
      RecipientsCounted(rs[1..]);
    }
  }

  lemma {:induction false} OwnersCounted(tasks: seq<StorageTask>)
    ensures |Owners(tasks)| + SentCount(tasks) == |tasks|
  {
    if tasks != [] {
      OwnersCounted(tasks[1..]);
    }
  }

  // One task per accepted recipient, and beside them at most one copy for the box of
  // sent mail, in every reachable state.
  lemma RecipientsAreConserved(inputs: seq<Input>)
    ensures var l := Run(GREETED, inputs);
            && Owners(l.session.storage) == Locals(l.accepted)
            && l.session.relay == Remotes(l.accepted)
            && |l.session.storage| - SentCount(l.session.storage) + |l.session.relay| == |l.accepted|
            && SentCount(l.session.storage) <= 1
  {
    hide SameOwner, Owners, SentCount, Locals, Remotes, Run, Handed;
    GreetedIsFine();
    RunIsFine(GREETED, inputs);
    var l := Run(GREETED, inputs);
    RecipientsCounted(l.accepted);
    OwnersCounted(l.session.storage);
  }

  // Each worker gets the session at most once, and only if it holds something for it: the
  // client with the first remote recipient, the store with the first local one.
  lemma HandedOverOnce(inputs: seq<Input>)
    ensures var l := Run(GREETED, inputs);
            && l.pushed.storage <= 1 && l.pushed.relay <= 1 && l.covered <= |l.accepted|
            && (l.pushed != NO_PUSH ==>
                  && (l.pushed.relay == 1 <==> Remotes(l.accepted[..l.covered]) != [])
                  && (l.pushed.storage == 0 ==> Locals(l.accepted[..l.covered]) == []))
  {
    hide SameOwner, Owners, SentCount, Locals, Remotes, Run, InboxOwners, SessionInv, Accounted;
    GreetedIsFine();
    RunIsFine(GREETED, inputs);
  }

  lemma {:induction false} LocalsSplit(a: seq<Recipient>, b: seq<Recipient>)
    ensures Locals(a + b) == Locals(a) + Locals(b)
  {
    if a == [] {
      assert a + b == b && [] + Locals(b) == Locals(b);
    } else {
      assert (a + b)[1..] == a[1..] + b;
      LocalsSplit(a[1..], b);
      Mime.Assoc(if a[0].Local? then [a[0].account] else [], Locals(a[1..]), Locals(b));
    }
  }

  lemma {:induction false} RemotesSplit(a: seq<Recipient>, b: seq<Recipient>)
    ensures Remotes(a + b) == Remotes(a) + Remotes(b)
  {
    if a == [] {
      assert a + b == b && [] + Remotes(b) == Remotes(b);
    } else {
      assert (a + b)[1..] == a[1..] + b;
      RemotesSplit(a[1..], b);
      Mime.Assoc(if a[0].Remote? then [a[0].address] else [], Remotes(a[1..]), Remotes(b));
    }
  }

  // Behind the body, a recipient is accepted whenever an earlier one would have been, and
  // the session that is in the queues already gets one more task for an inbox.
  lemma LateRecipientIsAccepted(l: Link, c: Command, env: Env)
    requires Inv(l) && l.open && l.rounds < 60 && BeganData in l.session.actions && SaidHelo in l.session.actions
    requires |c.args| >= 1 && ParseAddress(c.args[0]).Done? && ParseAddress(c.args[0]).value.Domain().Done?
    requires env.domain == Found && env.account.Known?
    ensures var m := After(l, HandleRcptTo(l.session, c, env));
            && m.open && m.replies == l.replies + [250]
            && m.accepted == l.accepted + [Local(env.account.account)] && m.pushed == l.pushed && m.covered == l.covered
            && m.session.storage == l.session.storage + [StorageTask(env.account.account, Incoming)]
  {
    hide ParseAddress, Owners, SentCount, Locals, Remotes, HandedRight, InboxRight, SameOwner;
    assert [250] + [] == [250];
  }

  // No connection lasts longer than sixty commands.
  lemma {:induction false} SixtyTurns(l: Link, inputs: seq<Input>)
    requires l.rounds <= 60
    ensures Run(l, inputs).rounds <= 60
    decreases |inputs|
  {
    hide Handle;
    if inputs != [] {
      SixtyTurns(Step(l, inputs[0]), inputs[1..]);
    }
  }
}
