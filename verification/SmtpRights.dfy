// Where the rights of a session come from, and what the replies of the server tell, over every
// run of a connection (lib/smtp/server/SMTPServer.src.cc:189-587).
module SmtpRights {
  import opened Text
  import opened Addresses
  import opened MailStore
  import opened SmtpCommand
  import opened SmtpServerSession
  import opened SmtpServer
  import D = DataText

  // ---------------------------------------------------------------- what gives a right

  // The address a session may send from: that of its account.
  predicate Owns(address: string, account: Account)
  {
    '@' !in account.username && address == account.username + "@" + account.owner.domain
  }

  lemma OwnerIs(from: EmailAddress, account: Account)
    ensures SameOwner(from, account) <==> Owns(from.address, account)
  {
    var i := Find(from.address, '@');
    if SameOwner(from, account) {
      assert from.address == from.address[..i] + "@" + from.address[i + 1..];
    }
    if Owns(from.address, account) {
      var n := |account.username|;
      assert from.address[n] == '@' && from.address[..n] == account.username && from.address[n + 1..] == account.owner.domain;
      assert forall k :: 0 <= k < n ==> from.address[k] == account.username[k];
      FindIs(from.address, '@', n);
    }
  }

  // A command reaches its handler.
  predicate Hears(l: Link, i: Input, kind: CommandType)
  {
    l.open && l.rounds < 60 && i.line.Some? && Parse(i.line.value).kind == kind
  }

  function Arguments(i: Input): seq<string>
  {
    if i.line.Some? then Parse(i.line.value).args else []
  }

  // The address in the first argument, if it has a domain.
  function Address(i: Input): Option<EmailAddress>
  {
    if |Arguments(i)| < 1 then None
    else
      var parsed := ParseAddress(Arguments(i)[0]);
      if parsed.Done? && '@' in parsed.value.address then Some(parsed.value) else None
  }

  // What gives a session a flag. AUTH has to be granted, SU to be allowed; a local sender has to
  // be the owner of the account, and only a local sender may name a recipient elsewhere.
  predicate Gains(l: Link, i: Input, f: Flag)
  {
    var s := l.session;
    match f
    case Authenticated =>
      && Hears(l, i, CommandType.Auth) && SaidHelo in s.actions && Authenticated !in s.flags
      && |Arguments(i)| >= 2 && i.env.auth.Granted?
    case Encrypted =>
      Hears(l, i, StartTls) && SaidHelo in s.actions && Encrypted !in s.flags && i.env.tls
    case Comrade =>
      Hears(l, i, Su) && i.env.access == Allowed
    case FromLocal =>
      && Hears(l, i, MailFrom) && SaidHelo in s.actions && GaveMailFrom !in s.actions
      && i.env.domain == Found && Comrade !in s.flags && Authenticated in s.flags
      && Address(i).Some? && Owns(Address(i).value.address, s.account)
    case Relay =>
      && Hears(l, i, RcptTo) && SaidHelo in s.actions && FromLocal in s.flags
      && i.env.domain == Missing && Address(i).Some?
  }

  lemma DomainIsThere(a: EmailAddress)
    ensures a.Domain().Done? <==> '@' in a.address
  {
  }

  lemma HandleGains(l: Link, i: Input, f: Flag)
    requires Inv(l) && l.open && l.rounds < 60 && i.line.Some?
    ensures var h := Handle(l.session, Parse(i.line.value), i.env);
            f in h.session.flags <==> f in l.session.flags || Gains(l, i, f)
  {
    hide HandleMailFrom, HandleRcptTo, HandleAuth, HandleData, HandleHello, HandleStartTls, Parse, Inv, Address, Owns;
    var c := Parse(i.line.value);
    match c.kind
    case MailFrom => MailGains(l, i, f);
    case RcptTo => RcptGains(l, i, f);
    case Auth => AuthGains(l, i, f);
    case StartTls => TlsGains(l, i, f);
    case Data => DataGains(l.session, i.env);
    case Helo => HelloGains(l.session, c);
    case Ehlo => HelloGains(l.session, c);
    case _ =>
  }

  lemma MailGains(l: Link, i: Input, f: Flag)
    requires Hears(l, i, MailFrom) && Inv(l)
    ensures var h := HandleMailFrom(l.session, Parse(i.line.value), i.env);
            f in h.session.flags <==> f in l.session.flags || Gains(l, i, f)
  {
    hide Parse, ParseAddress, SameOwner, Owns, Accounted, Handed, SentCount;
    var c := Parse(i.line.value);
    if |c.args| >= 1 && ParseAddress(c.args[0]).Done? {
      OwnerIs(ParseAddress(c.args[0]).value, l.session.account);
      DomainIsThere(ParseAddress(c.args[0]).value);
    }
  }

  lemma RcptGains(l: Link, i: Input, f: Flag)
    requires Hears(l, i, RcptTo) && Inv(l)
    ensures var h := HandleRcptTo(l.session, Parse(i.line.value), i.env);
            f in h.session.flags <==> f in l.session.flags || Gains(l, i, f)
  {
    hide Parse, ParseAddress, Accounted, Handed, SentCount, SameOwner;
    var c := Parse(i.line.value);
    if |c.args| >= 1 && ParseAddress(c.args[0]).Done? {
      DomainIsThere(ParseAddress(c.args[0]).value);
    }
  }

  lemma AuthGains(l: Link, i: Input, f: Flag)
    requires Hears(l, i, CommandType.Auth) && Inv(l)
    ensures var h := HandleAuth(l.session, Parse(i.line.value), i.env);
            f in h.session.flags <==> f in l.session.flags || Gains(l, i, f)
  {
    hide Parse, Accounted, Handed, SentCount, SameOwner;
  }

  lemma TlsGains(l: Link, i: Input, f: Flag)
    requires Hears(l, i, StartTls)
    ensures var h := HandleStartTls(l.session, i.env);
            f in h.session.flags <==> f in l.session.flags || Gains(l, i, f)
  {
    hide Parse;
  }

  lemma DataGains(s: Session, env: Env)
    ensures HandleData(s, env).session.flags == s.flags
  {
    hide FinishData;
    FinishFreezes(BeginData(s).session, env.delivery);
  }

  lemma HelloGains(s: Session, c: Command)
    ensures HandleHello(s, c).session.flags == s.flags
  {
  }

  // One input gives no flag but what it earns, and takes none away.
  lemma StepGains(l: Link, i: Input, f: Flag)
    requires Inv(l)
    ensures f in Step(l, i).session.flags <==> f in l.session.flags || Gains(l, i, f)
  {
    hide Handle, Parse, Inv, Address, Owns;
    if l.open && l.rounds < 60 && i.line.Some? {
      HandleGains(l, i, f);
    }
  }

  // ---------------------------------------------------------------- over every run

  function Before(inputs: seq<Input>, k: nat): Link
    requires k <= |inputs|
  {
    Run(GREETED, inputs[..k])
  }

  predicate GainsAt(inputs: seq<Input>, k: int, f: Flag)
  {
    0 <= k < |inputs| && Gains(Before(inputs, k), inputs[k], f)
  }

  // A session has a flag exactly if one of its inputs earned it.
  lemma {:induction false} RightsAreEarned(inputs: seq<Input>, f: Flag)
    ensures f in Run(GREETED, inputs).session.flags <==> exists k :: GainsAt(inputs, k, f)
    decreases |inputs|
  {
    hide Run, Step, Gains, Inv;
    if inputs == [] {
      NothingRun();
    } else {
      var n := |inputs| - 1;
      var front, last := inputs[..n], inputs[n];
      assert inputs == front + [last];
      RunSnoc(GREETED, front, last);
      GreetedIsFine();
      RunIsFine(GREETED, front);
      RightsAreEarned(front, f);
      StepGains(Run(GREETED, front), last, f);
      forall k | 0 <= k < n ensures GainsAt(inputs, k, f) <==> GainsAt(front, k, f) {
        assert front[..k] == inputs[..k];
      }
      if exists k :: GainsAt(front, k, f) {
        var k :| GainsAt(front, k, f);
        assert GainsAt(inputs, k, f);
      }
      if exists k :: GainsAt(inputs, k, f) {
        var k :| GainsAt(inputs, k, f);
        assert k == n || GainsAt(front, k, f);
      }
      assert GainsAt(inputs, n, f) <==> Gains(Run(GREETED, front), last, f);
    }
  }

  lemma NothingRun()
    ensures Run(GREETED, []) == GREETED
  {
  }

  lemma {:induction false} RunAt(l: Link, inputs: seq<Input>, k: nat)
    requires k < |inputs|
    ensures Run(l, inputs) == Run(Step(Run(l, inputs[..k]), inputs[k]), inputs[k + 1..])
    decreases k
  {
    hide Step;
    if k == 0 {
      assert inputs[..0] == [];
    } else {
      assert inputs[..k][0] == inputs[0] && inputs[..k][1..] == inputs[1..][..k - 1];
      assert inputs[1..][k..] == inputs[k + 1..] && inputs[1..][k - 1] == inputs[k];
      RunAt(Step(l, inputs[0]), inputs[1..], k - 1);
    }
  }

  lemma BeforeIsFine(inputs: seq<Input>, k: nat)
    requires k <= |inputs|
    ensures Inv(Before(inputs, k))
  {
    hide Inv, Run;
    GreetedIsFine();
    RunIsFine(GREETED, inputs[..k]);
  }

  // The grant sets the account, and the account stays.
  lemma GrantSetsAccount(l: Link, i: Input)
    requires Inv(l) && Gains(l, i, Authenticated)
    ensures Authenticated in Step(l, i).session.flags && Granted(Step(l, i).session.account) == i.env.auth
  {
    hide Parse, Accounted, Handed, SentCount, SameOwner;
  }

  lemma GrantStays(inputs: seq<Input>, k: int)
    requires GainsAt(inputs, k, Authenticated)
    ensures inputs[k].env.auth == Granted(Run(GREETED, inputs).session.account)
  {
    hide Run, Step, Gains, Inv;
    var l := Before(inputs, k);
    BeforeIsFine(inputs, k);
    RunAt(GREETED, inputs, k);
    GrantSetsAccount(l, inputs[k]);
    StepIsFine(l, inputs[k]);
    RunFreezes(Step(l, inputs[k]), inputs[k + 1..]);
  }

  // A session is authenticated exactly behind a granted AUTH, as the account of that grant.
  lemma AuthenticatedByGrant(inputs: seq<Input>)
    ensures var s := Run(GREETED, inputs).session;
            && (Authenticated in s.flags <==> exists k :: GainsAt(inputs, k, Authenticated))
            && (forall k :: GainsAt(inputs, k, Authenticated) ==>
                  0 <= k < |inputs| && inputs[k].env.auth == Granted(s.account))
  {
    hide Run, GainsAt;
    RightsAreEarned(inputs, Authenticated);
    forall k | GainsAt(inputs, k, Authenticated)
      ensures 0 <= k < |inputs| && inputs[k].env.auth == Granted(Run(GREETED, inputs).session.account)
    {
      InsideInputs(inputs, k);
      GrantStays(inputs, k);
    }
  }

  lemma InsideInputs(inputs: seq<Input>, k: int)
    requires GainsAt(inputs, k, Authenticated)
    ensures 0 <= k < |inputs|
  {
    hide Gains, Run;
  }

  // A refused AUTH is answered with 530 and ends the connection, without any right.
  lemma RefusedAuthCloses(l: Link, i: Input)
    requires Inv(l) && Hears(l, i, CommandType.Auth) && SaidHelo in l.session.actions
    requires Authenticated !in l.session.flags && |Arguments(i)| >= 2 && i.env.auth.Refused?
    ensures var m := Step(l, i);
            && !m.open && m.replies == l.replies + [530]
            && m.session.flags == l.session.flags && m.session.actions == l.session.actions
            && (forall inputs :: Run(m, inputs) == m)
  {
    hide Parse, Accounted, Handed, SentCount, SameOwner, Run;
    assert [530] + [] == [530];
    var m := Step(l, i);
    forall inputs ensures Run(m, inputs) == m {
      ClosedStays(m, inputs);
    }
  }

  lemma {:induction false} ClosedStays(l: Link, inputs: seq<Input>)
    requires !l.open
    ensures Run(l, inputs) == l
    decreases |inputs|
  {
    if inputs != [] {
      ClosedStays(l, inputs[1..]);
    }
  }

  // ---------------------------------------------------------------- senders and recipients

  // A sender is accepted: of a foreign domain, of a comrade, or the owner of the account.
  predicate TakesSender(l: Link, i: Input)
  {
    var s := l.session;
    && Hears(l, i, MailFrom) && SaidHelo in s.actions && GaveMailFrom !in s.actions && Address(i).Some?
    && (Comrade in s.flags || i.env.domain == Missing
        || (i.env.domain == Found && Authenticated in s.flags && Owns(Address(i).value.address, s.account)))
  }

  // The recipient that is accepted, if there is one: elsewhere for a local sender, else here.
  function RecipientOf(l: Link, i: Input): seq<Recipient>
  {
    var s := l.session;
    if Hears(l, i, RcptTo) && SaidHelo in s.actions && GaveMailFrom in s.actions && Address(i).Some?
       && i.env.domain != Broken
    then
      if i.env.domain == Missing && FromLocal in s.flags then [Remote(Address(i).value)]
      else if i.env.account.Known? then [Local(i.env.account.account)]
      else []
    else []
  }

  lemma SenderTaken(l: Link, i: Input)
    requires Inv(l)
    ensures var m := Step(l, i);
            && (GaveMailFrom in m.session.actions <==> GaveMailFrom in l.session.actions || TakesSender(l, i))
            && (TakesSender(l, i) ==> Some(m.session.from) == Address(i) && m.replies == l.replies + [250])
  {
    hide Handle, Parse, Inv, TakesSender, Address;
    if l.open && l.rounds < 60 && i.line.Some? {
      if Parse(i.line.value).kind == MailFrom {
        SenderHandled(l, i);
      } else {
        OthersKeepSender(l.session, Parse(i.line.value), i.env);
        NoSender(l, i);
      }
    } else {
      NoSender(l, i);
    }
  }

  lemma NoSender(l: Link, i: Input)
    requires !Hears(l, i, MailFrom)
    ensures !TakesSender(l, i)
  {
  }

  lemma SenderHandled(l: Link, i: Input)
    requires Hears(l, i, MailFrom)
    ensures var h := Handle(l.session, Parse(i.line.value), i.env);
            && (GaveMailFrom in h.session.actions <==> GaveMailFrom in l.session.actions || TakesSender(l, i))
            && (TakesSender(l, i) ==>
                  Some(h.session.from) == Address(i) && h.replies + ErrorReply(h.exit) == [250])
  {
    hide Parse, ParseAddress, SameOwner, Owns;
    var c := Parse(i.line.value);
    assert [250] + [] == [250];
    if |c.args| >= 1 && ParseAddress(c.args[0]).Done? {
      OwnerIs(ParseAddress(c.args[0]).value, l.session.account);
      DomainIsThere(ParseAddress(c.args[0]).value);
    }
  }

  lemma OthersKeepSender(s: Session, c: Command, env: Env)
    requires c.kind != MailFrom
    ensures GaveMailFrom in Handle(s, c, env).session.actions <==> GaveMailFrom in s.actions
  {
    hide ParseAddress, FinishData;
    if c.kind == Data {
      FinishFreezes(BeginData(s).session, env.delivery);
    }
  }

  lemma RecipientTaken(l: Link, i: Input)
    requires Inv(l)
    ensures var m := Step(l, i);
            && m.accepted == l.accepted + RecipientOf(l, i)
            && (RecipientOf(l, i) != [] ==> m.replies == l.replies + [250])
  {
    hide Handle, Parse, Inv, RecipientOf, Address, NewRecipient;
    if l.open && l.rounds < 60 && i.line.Some? {
      if Parse(i.line.value).kind == RcptTo {
        RecipientHandled(l, i);
      } else {
        OthersAddNobody(l, Parse(i.line.value), i.env);
        NoRecipient(l, i);
      }
    } else {
      NoRecipient(l, i);
      assert l.accepted + [] == l.accepted;
    }
  }

  lemma NoRecipient(l: Link, i: Input)
    requires !Hears(l, i, RcptTo)
    ensures RecipientOf(l, i) == []
  {
  }

  lemma RecipientHandled(l: Link, i: Input)
    requires Hears(l, i, RcptTo)
    ensures var h := Handle(l.session, Parse(i.line.value), i.env);
            && NewRecipient(l.session, h) == RecipientOf(l, i)
            && (RecipientOf(l, i) != [] ==> h.replies + ErrorReply(h.exit) == [250])
  {
    hide Parse, ParseAddress;
    var c := Parse(i.line.value);
    assert [250] + [] == [250];
    if |c.args| >= 1 && ParseAddress(c.args[0]).Done? {
      DomainIsThere(ParseAddress(c.args[0]).value);
    }
  }

  lemma OthersAddNobody(l: Link, c: Command, env: Env)
    requires c.kind != RcptTo
    ensures NewRecipient(l.session, Handle(l.session, c, env)) == []
  {
    hide ParseAddress, FinishData;
    if c.kind == Data {
      NobodyBehindData(BeginData(l.session).session, env.delivery);
    }
  }

  lemma NobodyBehindData(s: Session, d: Delivery)
    ensures var h := FinishData(s, d);
            |h.session.relay| == |s.relay| && |h.session.storage| <= |s.storage|
  {
    hide D.StoredText, D.Added, ToSpam, WithoutSent;
    WithoutSentShorter(s.storage);
    WithoutSentShorter(ToSpam(s.storage));
  }

  predicate TakesSenderAt(inputs: seq<Input>, k: int)
  {
    0 <= k < |inputs| && TakesSender(Before(inputs, k), inputs[k])
  }

  lemma SenderStays(inputs: seq<Input>, k: int)
    requires TakesSenderAt(inputs, k)
    ensures GaveMailFrom in Run(GREETED, inputs).session.actions
    ensures Address(inputs[k]) == Some(Run(GREETED, inputs).session.from)
  {
    hide Run, Step, TakesSender, Inv, Address;
    var l := Before(inputs, k);
    BeforeIsFine(inputs, k);
    RunAt(GREETED, inputs, k);
    SenderTaken(l, inputs[k]);
    StepIsFine(l, inputs[k]);
    RunFreezes(Step(l, inputs[k]), inputs[k + 1..]);
  }

  lemma {:induction false} SenderComesFrom(inputs: seq<Input>) returns (k: int)
    requires GaveMailFrom in Run(GREETED, inputs).session.actions
    ensures TakesSenderAt(inputs, k)
    decreases |inputs|
  {
    hide Run, Step, TakesSender, Inv, Address;
    if inputs == [] {
      NothingRun();
    } else {
      var n := |inputs| - 1;
      assert inputs == inputs[..n] + [inputs[n]];
      var l := Run(GREETED, inputs[..n]);
      RunSnoc(GREETED, inputs[..n], inputs[n]);
      BeforeIsFine(inputs, n);
      SenderTaken(l, inputs[n]);
      if TakesSender(l, inputs[n]) {
        k := n;
      } else {
        k := SenderComesFrom(inputs[..n]);
        assert inputs[..n][..k] == inputs[..k];
      }
    }
  }

  // A sender is named by a MAIL FROM that may name him, and by nothing else; he stays.
  lemma SenderIsNamed(inputs: seq<Input>)
    ensures var s := Run(GREETED, inputs).session;
            && (GaveMailFrom in s.actions <==> exists k :: TakesSenderAt(inputs, k))
            && (forall k :: TakesSenderAt(inputs, k) ==> 0 <= k < |inputs| && Address(inputs[k]) == Some(s.from))
  {
    hide Run, TakesSender, Address;
    forall k | TakesSenderAt(inputs, k)
      ensures 0 <= k < |inputs| && Address(inputs[k]) == Some(Run(GREETED, inputs).session.from)
      ensures GaveMailFrom in Run(GREETED, inputs).session.actions
    {
      SenderStays(inputs, k);
    }
    if GaveMailFrom in Run(GREETED, inputs).session.actions {
      var k := SenderComesFrom(inputs);
    }
  }

  // Whom the inputs name, in order.
  function NamedBy(inputs: seq<Input>): seq<Recipient>
    decreases |inputs|
  {
    if inputs == [] then []
    else
      var n := |inputs| - 1;
      NamedBy(inputs[..n]) + RecipientOf(Run(GREETED, inputs[..n]), inputs[n])
  }

  lemma {:induction false} RecipientsAreNamed(inputs: seq<Input>)
    ensures Run(GREETED, inputs).accepted == NamedBy(inputs)
    decreases |inputs|
  {
    hide Run, Step, RecipientOf, Inv;
    if inputs == [] {
      NothingRun();
    } else {
      var n := |inputs| - 1;
      assert inputs == inputs[..n] + [inputs[n]];
      RunSnoc(GREETED, inputs[..n], inputs[n]);
      GreetedIsFine();
      RunIsFine(GREETED, inputs[..n]);
      RecipientsAreNamed(inputs[..n]);
      RecipientTaken(Run(GREETED, inputs[..n]), inputs[n]);
    }
  }

  // Mail leaves for another server only behind a grant, then a MAIL FROM with the address of
  // the account that was granted, then a recipient elsewhere.
  lemma RelayIsBehindAGrant(inputs: seq<Input>)
    requires Run(GREETED, inputs).session.relay != []
    ensures var s := Run(GREETED, inputs).session;
            && Owns(s.from.address, s.account)
            && exists k, m, j ::
                 && k < m < j && GainsAt(inputs, k, Authenticated) && GainsAt(inputs, m, FromLocal)
                 && GainsAt(inputs, j, Relay)
                 && inputs[k].env.auth == Granted(s.account) && Address(inputs[m]) == Some(s.from)
  {
    hide Run, Step, Gains, Inv, Owns, SameOwner, Address;
    OrderAndRights(inputs);
    RightsAreEarned(inputs, Relay);
    var j :| GainsAt(inputs, j, Relay);
    var m := LocalBefore(inputs, j);
    var k := GrantBefore(inputs, m);
    var s := Run(GREETED, inputs).session;
    OwnerIs(s.from, s.account);
    AuthenticatedByGrant(inputs);
    SenderIsNamed(inputs);
    LocalIsTaken(Before(inputs, m), inputs[m]);
    assert TakesSenderAt(inputs, m);
  }

  lemma LocalIsTaken(l: Link, i: Input)
    requires Gains(l, i, FromLocal)
    ensures TakesSender(l, i)
  {
    hide Parse, Owns, Address;
  }

  lemma LocalBefore(inputs: seq<Input>, j: int) returns (m: int)
    requires GainsAt(inputs, j, Relay)
    ensures m < j && GainsAt(inputs, m, FromLocal)
  {
    hide Run;
    RightsAreEarned(inputs[..j], FromLocal);
    m :| GainsAt(inputs[..j], m, FromLocal);
    assert inputs[..j][..m] == inputs[..m];
  }

  lemma GrantBefore(inputs: seq<Input>, m: int) returns (k: int)
    requires GainsAt(inputs, m, FromLocal)
    ensures k < m && GainsAt(inputs, k, Authenticated)
  {
    hide Run;
    RightsAreEarned(inputs[..m], Authenticated);
    k :| GainsAt(inputs[..m], k, Authenticated);
    assert inputs[..m][..k] == inputs[..k];
  }
}
