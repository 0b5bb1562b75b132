// What the workers find. The queues hold the session itself: a worker reads its tasks when
// it takes the session out, at any time behind the push, while the connection goes on
// (lib/smtp/server/handlers/data.src.cc:305-306, lib/workers/DatabaseWorker.src.cc:64-78,
// lib/workers/TransmissionWorker.src.cc).
module SmtpHandOver {
  import opened Text
  import opened Addresses
  import opened MailStore
  import opened SmtpCommand
  import opened SmtpServerSession
  import opened SmtpServer
  import D = DataText

  // ---------------------------------------------------------------- one session and its two workers

  // The session as a worker read it, and how many recipients had been accepted by then.
  datatype Taken = Taken(session: Session, accepted: nat)

  datatype Event = Heard(input: Input) | StorageRead | RelayRead

  datatype Shared = Shared(link: Link, stored: seq<Taken>, relayed: seq<Taken>)

  const CONNECTED := Shared(GREETED, [], [])

  // A worker takes the session as often as it was pushed.
  function Happen(h: Shared, e: Event): Shared
  {
    var now := Taken(h.link.session, |h.link.accepted|);
    match e
    case Heard(i) => h.(link := Step(h.link, i))
    case StorageRead => if |h.stored| < h.link.pushed.storage then h.(stored := h.stored + [now]) else h
    case RelayRead => if |h.relayed| < h.link.pushed.relay then h.(relayed := h.relayed + [now]) else h
  }

  function Course(h: Shared, events: seq<Event>): Shared
    decreases |events|
  {
    if events == [] then h else Course(Happen(h, events[0]), events[1..])
  }

  // How many of the accepted recipients a worker found.
  function FoundBy(taken: seq<Taken>): nat
  {
    if taken == [] then 0 else taken[0].accepted
  }

  function StoredFor(h: Shared): seq<Account>
  {
    if h.stored == [] then [] else Owners(h.stored[0].session.storage)
  }

  function SentTo(h: Shared): seq<EmailAddress>
  {
    if h.relayed == [] then [] else h.relayed[0].session.relay
  }

  // A recipient that was accepted, but that its worker did not find.
  predicate Missed(h: Shared, k: nat)
    requires k < |h.link.accepted|
  {
    match h.link.accepted[k]
    case Local(_) => FoundBy(h.stored) <= k
    case Remote(_) => FoundBy(h.relayed) <= k
  }

  // Both workers are done with the session.
  predicate Settled(h: Shared)
  {
    h.link.pushed != NO_PUSH && |h.stored| == h.link.pushed.storage && |h.relayed| == h.link.pushed.relay
  }

  // ---------------------------------------------------------------- the invariant

  predicate Seen(t: Taken, l: Link)
  {
    && l.covered <= t.accepted <= |l.accepted|
    && Owners(t.session.storage) == Locals(l.accepted[..t.accepted])
    && t.session.relay == Remotes(l.accepted[..t.accepted])
    && t.session.spam == l.session.spam && t.session.raw == l.session.raw
    && InboxOwners(t.session.storage) == Locals(l.accepted[(if l.session.spam then l.covered else 0)..t.accepted])
  }

  predicate Inv(h: Shared)
  {
    && SmtpServer.Inv(h.link)
    && |h.stored| <= h.link.pushed.storage && |h.relayed| <= h.link.pushed.relay
    && (h.stored != [] ==> Seen(h.stored[0], h.link))
    && (h.relayed != [] ==> Seen(h.relayed[0], h.link))
  }

  // What a command leaves as it is once the body is taken.
  predicate Grows(l: Link, m: Link)
  {
    && l.accepted <= m.accepted
    && l.pushed.storage <= m.pushed.storage && l.pushed.relay <= m.pushed.relay
    && (BeganData in l.session.actions ==>
          m.covered == l.covered && m.session.spam == l.session.spam && m.session.raw == l.session.raw)
  }

  lemma StepGrows(l: Link, i: Input)
    requires SmtpServer.Inv(l)
    ensures Grows(l, Step(l, i))
  {
    hide Handle, SmtpServer.Inv, NewRecipient, Parse;
    StepFreezes(l, i);
  }

  lemma SeenStays(t: Taken, l: Link, m: Link)
    requires Seen(t, l) && Grows(l, m) && BeganData in l.session.actions
    ensures Seen(t, m)
  {
    hide Owners, Locals, Remotes, InboxOwners;
    var from := if l.session.spam then l.covered else 0;
    assert m.accepted[..t.accepted] == l.accepted[..t.accepted];
    assert m.accepted[from..t.accepted] == l.accepted[from..t.accepted];
  }

  lemma PushedBehindData(l: Link)
    requires SmtpServer.Inv(l) && l.pushed != NO_PUSH
    ensures BeganData in l.session.actions
  {
    hide SessionInv, Accounted, HandedRight, InboxRight;
  }

  lemma SeesAll(l: Link)
    requires SmtpServer.Inv(l) && l.pushed != NO_PUSH
    ensures Seen(Taken(l.session, |l.accepted|), l)
  {
    hide SessionInv, Owners, Locals, Remotes, InboxOwners;
    var from := if l.session.spam then l.covered else 0;
    assert l.accepted[..|l.accepted|] == l.accepted && l.accepted[from..|l.accepted|] == l.accepted[from..];
  }

  lemma HappenIsFine(h: Shared, e: Event)
    requires Inv(h)
    ensures Inv(Happen(h, e))
  {
    hide SmtpServer.Inv, Seen, Step;
    if h.link.pushed != NO_PUSH {
      PushedBehindData(h.link);
      SeesAll(h.link);
    }
    if e.Heard? {
      var m := Step(h.link, e.input);
      StepIsFine(h.link, e.input);
      StepGrows(h.link, e.input);
      if h.stored != [] {
        SeenStays(h.stored[0], h.link, m);
      }
      if h.relayed != [] {
        SeenStays(h.relayed[0], h.link, m);
      }
    }
  }

  lemma {:induction false} CourseIsFine(h: Shared, events: seq<Event>)
    requires Inv(h)
    ensures Inv(Course(h, events))
    decreases |events|
  {
    hide Inv, Happen;
    if events != [] {
      HappenIsFine(h, events[0]);
      CourseIsFine(Happen(h, events[0]), events[1..]);
    }
  }

  lemma ReachableIsFine(events: seq<Event>)
    ensures Inv(Course(CONNECTED, events))
  {
    hide SmtpServer.Inv, Seen;
    GreetedIsFine();
    CourseIsFine(CONNECTED, events);
  }

  // ---------------------------------------------------------------- who is served

  lemma {:induction false} NobodyLocal(rs: seq<Recipient>)
    ensures Locals(rs) == [] <==> forall k :: 0 <= k < |rs| ==> !rs[k].Local?
  {
    if rs != [] {
      NobodyLocal(rs[1..]);
      assert forall k :: 0 < k < |rs| ==> rs[k] == rs[1..][k - 1];
      assert forall k :: 0 <= k < |rs| - 1 ==> rs[1..][k] == rs[k + 1];
    }
  }

  lemma {:induction false} NobodyRemote(rs: seq<Recipient>)
    ensures Remotes(rs) == [] <==> forall k :: 0 <= k < |rs| ==> !rs[k].Remote?
  {
    if rs != [] {
      NobodyRemote(rs[1..]);
      assert forall k :: 0 < k < |rs| ==> rs[k] == rs[1..][k - 1];
      assert forall k :: 0 <= k < |rs| - 1 ==> rs[1..][k] == rs[k + 1];
    }
  }

  lemma LocalsUpTo(rs: seq<Recipient>, n: nat)
    requires n <= |rs|
    ensures Locals(rs[..n]) == Locals(rs) <==> forall k :: n <= k < |rs| ==> !rs[k].Local?
  {
    hide Locals;
    LocalsSplit(rs[..n], rs[n..]);
    assert rs[..n] + rs[n..] == rs;
    NobodyLocal(rs[n..]);
    assert forall k :: n <= k < |rs| ==> rs[k] == rs[n..][k - n];
  }

  lemma RemotesUpTo(rs: seq<Recipient>, n: nat)
    requires n <= |rs|
    ensures Remotes(rs[..n]) == Remotes(rs) <==> forall k :: n <= k < |rs| ==> !rs[k].Remote?
  {
    hide Remotes;
    RemotesSplit(rs[..n], rs[n..]);
    assert rs[..n] + rs[n..] == rs;
    NobodyRemote(rs[n..]);
    assert forall k :: n <= k < |rs| ==> rs[k] == rs[n..][k - n];
  }

  lemma NobodyYet()
    ensures Locals([]) == [] && Remotes([]) == []
  {
  }

  // Whenever the workers read, the store finds a task for exactly the local recipients that
  // were accepted by then, and the client a task for exactly the remote ones, in order.
  // Everybody is served exactly if no accepted recipient is missed.
  lemma EverybodyIsServed(events: seq<Event>)
    ensures var h := Course(CONNECTED, events);
            var all := h.link.accepted;
            && |h.stored| <= 1 && |h.relayed| <= 1 && FoundBy(h.stored) <= |all| && FoundBy(h.relayed) <= |all|
            && StoredFor(h) == Locals(all[..FoundBy(h.stored)]) && SentTo(h) == Remotes(all[..FoundBy(h.relayed)])
            && (StoredFor(h) == Locals(all) && SentTo(h) == Remotes(all)
                <==> forall k :: 0 <= k < |all| ==> !Missed(h, k))
  {
    hide Owners, Locals, Remotes, InboxOwners, Course, SessionInv, Accounted, InboxRight;
    ReachableIsFine(events);
    var h := Course(CONNECTED, events);
    var all := h.link.accepted;
    NobodyYet();
    assert all[..0] == [];
    LocalsUpTo(all, FoundBy(h.stored));
    RemotesUpTo(all, FoundBy(h.relayed));
    if forall k :: 0 <= k < |all| ==> !Missed(h, k) {
      assert forall k :: FoundBy(h.stored) <= k < |all| ==> !Missed(h, k) ==> !all[k].Local?;
      assert forall k :: FoundBy(h.relayed) <= k < |all| ==> !Missed(h, k) ==> !all[k].Remote?;
    }
  }

  // Once both workers are done, a recipient is missed exactly if he was accepted behind the
  // body, and behind the read of his worker or when his worker had not been given the
  // session, because it held nothing for it.
  lemma WhoIsMissed(events: seq<Event>, k: nat)
    requires Settled(Course(CONNECTED, events)) && k < |Course(CONNECTED, events).link.accepted|
    ensures var h := Course(CONNECTED, events);
            var all, pushed, covered := h.link.accepted, h.link.pushed, h.link.covered;
            && covered <= |all|
            && (Missed(h, k) <==>
                  && covered <= k
                  && if all[k].Local? then pushed.storage == 0 || h.stored[0].accepted <= k
                     else pushed.relay == 0 || h.relayed[0].accepted <= k)
            && (pushed.storage == 0 ==> Locals(all[..covered]) == [])
            && (pushed.relay == 0 <==> Remotes(all[..covered]) == [])
  {
    hide Owners, Locals, Remotes, InboxOwners, Course, SessionInv, Accounted, InboxRight;
    ReachableIsFine(events);
    var h := Course(CONNECTED, events);
    var early := h.link.accepted[..h.link.covered];
    NobodyLocal(early);
    NobodyRemote(early);
    if k < h.link.covered {
      assert early[k] == h.link.accepted[k];
    }
  }

  // In a session that was judged spam, the store finds a task for an inbox exactly if a
  // local recipient was accepted between the push and the read: it is his.
  lemma SpamInTheInbox(events: seq<Event>)
    ensures var h := Course(CONNECTED, events);
            h.link.session.spam && h.stored != [] ==>
              var all, from, to := h.link.accepted, h.link.covered, h.stored[0].accepted;
              && from <= to <= |all|
              && InboxOwners(h.stored[0].session.storage) == Locals(all[from..to])
              && (NoInbox(h.stored[0].session.storage) <==> forall k :: from <= k < to ==> !all[k].Local?)
  {
    hide Owners, Locals, Remotes, InboxOwners, Course, SessionInv, Accounted, HandedRight, InboxRight;
    ReachableIsFine(events);
    var h := Course(CONNECTED, events);
    if h.link.session.spam && h.stored != [] {
      var late := h.link.accepted[h.link.covered..h.stored[0].accepted];
      NobodyLocal(late);
      NobodyInInbox(h.stored[0].session.storage);
      assert forall k :: h.link.covered <= k < h.stored[0].accepted ==>
          h.link.accepted[k] == late[k - h.link.covered];
      assert forall k :: 0 <= k < |late| ==> late[k] == h.link.accepted[k + h.link.covered];
    }
  }

  lemma {:induction false} NobodyInInbox(tasks: seq<StorageTask>)
    ensures NoInbox(tasks) <==> InboxOwners(tasks) == []
  {
    if tasks != [] {
      NobodyInInbox(tasks[1..]);
      assert tasks == [tasks[0]] + tasks[1..];
    }
  }

  // Whatever the text of the mail is, the worker finds it as it stood at the push.
  lemma TextIsFinal(events: seq<Event>)
    ensures var h := Course(CONNECTED, events);
            && (h.stored != [] ==> h.stored[0].session.raw == h.link.session.raw)
            && (h.relayed != [] ==> h.relayed[0].session.raw == h.link.session.raw)
  {
    hide Owners, Locals, Remotes, InboxOwners, Course, SessionInv, Accounted, HandedRight, InboxRight;
    ReachableIsFine(events);
  }

  // ---------------------------------------------------------------- a late recipient

  // An address as an argument of a command.
  predicate Given(arg: string)
  {
    && arg != "" && ' ' !in arg && '\n' !in arg
    && ParseAddress(arg).Done? && ParseAddress(arg).value.Domain().Done?
  }

  function Says(c: Command, env: Env): Event
  {
    Heard(Input(Some(Received(CommandText(c))), env))
  }

  // The mail of a stranger who is judged a spammer, to one local recipient.
  predicate SpamEnv(env: Env, account: Account)
  {
    && env.domain == Missing && env.account == Known(account)
    && env.delivery.Read? && !env.delivery.spf && env.delivery.dmarc == None && !env.delivery.broken
    && var stored := D.StoredText(env.delivery.text, D.Added(false, false, env.delivery.marks));
       stored.Done? && stored.value.whole
  }

  function SpamRun(from: string, to: string, env: Env): seq<Event>
  {
    [Says(Command(Ehlo, ["client"]), env), Says(Command(MailFrom, [from]), env),
     Says(Command(RcptTo, [to]), env), Says(Command(Data, []), env)]
  }

  lemma SaidIsHeard(h: Shared, c: Command, env: Env)
    requires Sendable(c) && Unbreakable(c.args) && h.link.open && h.link.rounds < 60
    ensures Happen(h, Says(c, env)) == h.(link := After(h.link, Handle(h.link.session, c, env)))
  {
    hide Parse, Received, CommandText, Handle, After;
    CommandRoundTrip(c);
  }

  lemma CourseStep(h: Shared, e: Event, rest: seq<Event>)
    ensures Course(h, [e] + rest) == Course(Happen(h, e), rest)
  {
    hide Happen;
    assert ([e] + rest)[1..] == rest;
  }

  lemma {:induction false} CourseAppend(h: Shared, a: seq<Event>, b: seq<Event>)
    ensures Course(h, a + b) == Course(Course(h, a), b)
    decreases |a|
  {
    hide Happen;
    if a == [] {
      assert a + b == b;
    } else {
      assert (a + b)[1..] == a[1..] + b;
      CourseAppend(Happen(h, a[0]), a[1..], b);
    }
  }

  // Behind the body: one recipient, with a task for the spam box, and the session queued.
  predicate Queued(h: Shared, account: Account)
  {
    var l := h.link;
    && l.open && l.rounds < 10
    && SaidHelo in l.session.actions && GaveMailFrom in l.session.actions && BeganData in l.session.actions
    && FromLocal !in l.session.flags && l.session.spam
    && l.session.storage == [StorageTask(account, Spam)] && l.session.relay == []
    && l.accepted == [Local(account)] && l.covered == 1 && l.pushed == Pushed(1, 0)
    && h.stored == [] && h.relayed == []
  }

  // A stranger's session while the client is naming himself, the sender and the recipient.
  predicate Opened(h: Shared, actions: set<SmtpServerSession.Action>, rounds: nat, tasks: seq<StorageTask>, accepted: seq<Recipient>)
  {
    var l := h.link;
    && l.open && l.rounds == rounds
    && l.session.actions == actions && l.session.flags == {} && !l.session.spam
    && l.session.storage == tasks && l.session.relay == [] && l.accepted == accepted
    && l.covered == 0 && l.pushed == NO_PUSH
    && h.stored == [] && h.relayed == []
  }

  lemma TheGreeting(env: Env)
    ensures Opened(Happen(CONNECTED, Says(Command(Ehlo, ["client"]), env)), {SaidHelo}, 1, [], [])
  {
    hide Happen, Says, SmtpServer.Join;
    SaidIsHeard(CONNECTED, Command(Ehlo, ["client"]), env);
    JoinNothing(NO_PUSH);
    assert {} + {SaidHelo} == {SaidHelo};
  }

  lemma TheSender(h: Shared, from: string, env: Env)
    requires Opened(h, {SaidHelo}, 1, [], []) && Given(from) && env.domain == Missing
    ensures Opened(Happen(h, Says(Command(MailFrom, [from]), env)), {SaidHelo, GaveMailFrom}, 2, [], [])
  {
    hide Happen, Says, SmtpServer.Join, ParseAddress;
    SaidIsHeard(h, Command(MailFrom, [from]), env);
    JoinNothing(NO_PUSH);
    assert {SaidHelo} + {GaveMailFrom} == {SaidHelo, GaveMailFrom};
  }

  lemma TheRecipient(h: Shared, to: string, env: Env, account: Account)
    requires Opened(h, {SaidHelo, GaveMailFrom}, 2, [], []) && Given(to)
    requires env.domain == Missing && env.account == Known(account)
    ensures Opened(Happen(h, Says(Command(RcptTo, [to]), env)), {SaidHelo, GaveMailFrom, GaveRcptTo}, 3,
                   [StorageTask(account, Incoming)], [Local(account)])
  {
    hide Happen, Says, SmtpServer.Join, ParseAddress;
    SaidIsHeard(h, Command(RcptTo, [to]), env);
    JoinNothing(NO_PUSH);
    assert {SaidHelo, GaveMailFrom} + {GaveRcptTo} == {SaidHelo, GaveMailFrom, GaveRcptTo};
    assert [] + [StorageTask(account, Incoming)] == [StorageTask(account, Incoming)];
    assert [] + [Local(account)] == [Local(account)];
  }

  lemma TheFirstRecipient(from: string, to: string, env: Env, account: Account)
    requires Given(from) && Given(to) && SpamEnv(env, account)
    ensures Opened(Course(CONNECTED, SpamRun(from, to, env)[..3]), {SaidHelo, GaveMailFrom, GaveRcptTo}, 3,
                   [StorageTask(account, Incoming)], [Local(account)])
  {
    hide Given, D.StoredText, Course, Happen, Says, Opened;
    var one, two, three :=
      Says(Command(Ehlo, ["client"]), env), Says(Command(MailFrom, [from]), env), Says(Command(RcptTo, [to]), env);
    assert SpamRun(from, to, env)[..3] == [one] + ([two] + ([three] + []));
    CourseStep(CONNECTED, one, [two] + ([three] + []));
    TheGreeting(env);
    var h := Happen(CONNECTED, one);
    CourseStep(h, two, [three] + []);
    TheSender(h, from, env);
    var k := Happen(h, two);
    CourseStep(k, three, []);
    TheRecipient(k, to, env, account);
    CourseEnds(Happen(k, three));
  }

  lemma CourseEnds(h: Shared)
    ensures Course(h, []) == h
  {
  }

  lemma TheVerdict(s: Session, d: Delivery, account: Account)
    requires d.Read? && !d.spf && d.dmarc == None && !d.broken && s.flags == {} && !s.spam
    requires var stored := D.StoredText(d.text, D.Added(false, false, d.marks)); stored.Done? && stored.value.whole
    requires s.storage == [StorageTask(account, Incoming)] && s.relay == []
    ensures var f := FinishData(s, d);
            && f.exit == Goes && f.replies == [250] && f.pushed == Pushed(1, 0)
            && f.session.actions == s.actions && f.session.flags == {} && f.session.spam
            && f.session.storage == [StorageTask(account, Spam)] && f.session.relay == []
  {
    hide D.StoredText, D.Added;
    var tasks := [StorageTask(account, Incoming)];
    assert ToSpam(tasks) == [StorageTask(account, Spam)];
    assert ToSpam(tasks)[1..] == [] && WithoutSent(ToSpam(tasks)) == ToSpam(tasks);
  }

  lemma TheBody(h: Shared, env: Env, account: Account)
    requires Opened(h, {SaidHelo, GaveMailFrom, GaveRcptTo}, 3, [StorageTask(account, Incoming)], [Local(account)])
    requires SpamEnv(env, account)
    ensures Queued(Happen(h, Says(Command(Data, []), env)), account)
  {
    hide D.StoredText, D.Added, Happen, Says, SmtpServer.Join, FinishData;
    SaidIsHeard(h, Command(Data, []), env);
    var b := BeginData(h.link.session).session;
    TheVerdict(b, env.delivery, account);
    JoinNothing(Pushed(1, 0));
    assert [Local(account)] + [] == [Local(account)];
  }

  lemma TheLateRecipient(h: Shared, to: string, env: Env, account: Account)
    requires h.link.open && h.link.rounds < 10 && Given(to) && env.domain == Missing && env.account == Known(account)
    requires SaidHelo in h.link.session.actions && GaveMailFrom in h.link.session.actions
    requires FromLocal !in h.link.session.flags
    ensures var k := Happen(h, Says(Command(RcptTo, [to]), env));
            && k.link.session.storage == h.link.session.storage + [StorageTask(account, Incoming)]
            && k.link.session.spam == h.link.session.spam
            && k.link.accepted == h.link.accepted + [Local(account)] && k.link.covered == h.link.covered
            && k.link.pushed == h.link.pushed && k.link.replies == h.link.replies + [250]
            && k.stored == h.stored && k.relayed == h.relayed
  {
    hide ParseAddress, Happen, Says, SmtpServer.Join;
    SaidIsHeard(h, Command(RcptTo, [to]), env);
    JoinNothing(h.link.pushed);
    assert [250] + [] == [250];
  }

  // Two runs that differ in the moment of the read: a second recipient of a spam mail, named
  // behind the body, gets it into his inbox, or is told that he does and gets nothing.
  lemma SecondRecipient(from: string, to: string, more: string, env: Env, account: Account, late: Env, second: Account)
    requires Given(from) && Given(to) && Given(more) && SpamEnv(env, account)
    requires late.domain == Missing && late.account == Known(second)
    ensures var named := Says(Command(RcptTo, [more]), late);
            var early := Course(CONNECTED, SpamRun(from, to, env) + [named, StorageRead]);
            var after := Course(CONNECTED, SpamRun(from, to, env) + [StorageRead, named]);
            && early.link.session.spam && early.link.replies == after.link.replies && 0 < |after.link.replies|
            && after.link.replies[|after.link.replies| - 1] == 250
            && early.link.accepted == after.link.accepted == [Local(account), Local(second)]
            && StoredFor(early) == [account, second] && !Missed(early, 1)
            && InboxOwners(early.stored[0].session.storage) == [second]
            && StoredFor(after) == [account] && Missed(after, 1)
  {
    hide SpamEnv, Course, Happen, Says, SpamRun, Queued, Owners, InboxOwners;
    var run, named := SpamRun(from, to, env), Says(Command(RcptTo, [more]), late);
    var opening := OpeningOf(from, to, env, account);
    CourseAppend(CONNECTED, run, [named, StorageRead]);
    CourseAppend(CONNECTED, run, [StorageRead, named]);
    NamedThenRead(opening, more, account, late, second);
    ReadThenNamed(opening, more, account, late, second);
  }

  lemma OpeningOf(from: string, to: string, env: Env, account: Account) returns (h: Shared)
    requires Given(from) && Given(to) && SpamEnv(env, account)
    ensures h == Course(CONNECTED, SpamRun(from, to, env)) && Queued(h, account)
  {
    hide SpamEnv, Course, Happen, Says, Queued, Opened, Given;
    var run := SpamRun(from, to, env);
    TheFirstRecipient(from, to, env, account);
    var before := Course(CONNECTED, run[..3]);
    assert run == run[..3] + ([run[3]] + []);
    CourseAppend(CONNECTED, run[..3], [run[3]] + []);
    CourseStep(before, run[3], []);
    TheBody(before, env, account);
    h := Happen(before, run[3]);
    CourseEnds(h);
  }

  lemma TwoTasks(a: Account, b: Account)
    ensures var tasks := [StorageTask(a, Spam)] + [StorageTask(b, Incoming)];
            && Owners(tasks) == [a, b] && InboxOwners(tasks) == [b] && Owners([StorageTask(a, Spam)]) == [a]
  {
    NoTasks();
    TaskAppended([], StorageTask(a, Spam));
    TaskAppended([StorageTask(a, Spam)], StorageTask(b, Incoming));
    assert [] + [StorageTask(a, Spam)] == [StorageTask(a, Spam)] && [a] + [b] == [a, b] && [] + [a] == [a] && [] + [b] == [b];
  }

  lemma NamedThenRead(h: Shared, more: string, account: Account, late: Env, second: Account)
    requires Queued(h, account) && Given(more) && late.domain == Missing && late.account == Known(second)
    ensures var k := Course(h, [Says(Command(RcptTo, [more]), late), StorageRead]);
            && k.link.session.spam && k.link.replies == h.link.replies + [250]
            && k.link.accepted == [Local(account), Local(second)]
            && StoredFor(k) == [account, second] && !Missed(k, 1)
            && k.stored != [] && InboxOwners(k.stored[0].session.storage) == [second]
  {
    hide Course, Given, Owners, InboxOwners, Says, Step;
    var named := Says(Command(RcptTo, [more]), late);
    TheLateRecipient(h, more, late, second);
    TwoTasks(account, second);
    var k := Happen(h, named);
    assert [named, StorageRead] == [named] + ([StorageRead] + []);
    CourseStep(h, named, [StorageRead] + []);
    CourseStep(k, StorageRead, []);
    CourseEnds(Happen(k, StorageRead));
    assert [] + [Taken(k.link.session, 2)] == [Taken(k.link.session, 2)];
  }

  lemma ReadThenNamed(h: Shared, more: string, account: Account, late: Env, second: Account)
    requires Queued(h, account) && Given(more) && late.domain == Missing && late.account == Known(second)
    ensures var k := Course(h, [StorageRead, Says(Command(RcptTo, [more]), late)]);
            && k.link.replies == h.link.replies + [250]
            && k.link.accepted == [Local(account), Local(second)]
            && StoredFor(k) == [account] && Missed(k, 1)
  {
    hide Course, Given, Owners, InboxOwners, Says, Step;
    var named := Says(Command(RcptTo, [more]), late);
    TwoTasks(account, second);
    var k := Happen(h, StorageRead);
    assert [] + [Taken(h.link.session, 1)] == [Taken(h.link.session, 1)];
    TheLateRecipient(k, more, late, second);
    assert [StorageRead, named] == [StorageRead] + ([named] + []);
    CourseStep(h, StorageRead, [named] + []);
    CourseStep(k, named, []);
    CourseEnds(Happen(k, named));
  }
}
