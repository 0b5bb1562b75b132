// A POP3 session: authentication, the frozen list of messages, the graveyard of indices
// and the commit at the end of the session (lib/pop3/P3Server.src.cc).
module Pop3 {
  import opened Text
  import opened Addresses
  import opened Decimal
  import SmtpCommand
  import opened MailStore

  // ---------------------------------------------------------------- commands

  datatype Kind =
    Capa | Top | Quit | Stls | Stat | User | Uidl | Pass | List | Retr | Rset | Implementation | Dele | Unknown

  datatype Command = Command(kind: Kind, args: seq<string>)

  function KindOf(word: string): Kind
  {
    if word == "capa" then Capa
    else if word == "top" then Top
    else if word == "quit" then Quit
    else if word == "stls" then Stls
    else if word == "stat" then Stat
    else if word == "user" then User
    else if word == "uidl" then Uidl
    else if word == "pass" then Pass
    else if word == "list" then List
    else if word == "retr" then Retr
    else if word == "rset" then Rset
    else if word == "implementation" then Implementation
    else if word == "dele" then Dele
    else Unknown
  }

  function Parse(raw: string): Command
  {
    var clean := RemoveFirstAndLastWhite(ReduceWhitespace(raw));
    var i := Find(clean, ' ');
    Command(KindOf(ToLower(clean[..i])),
            if i == |clean| then [] else SmtpCommand.GetLines(clean[i + 1..]))
  }

  // ---------------------------------------------------------------- session

  // `references` is the list of the INBOX that PASS takes; the graveyard holds indices into it.
  datatype Session = Session(
    named: bool, authenticated: bool, account: Account, references: seq<Reference>, graveyard: seq<nat>)

  const FRESH := Session(false, false, NO_ACCOUNT, [], [])

  // The oracles: looking up the account, fetching and checking the password and listing
  // the INBOX, and whatever a command that only answers may run into.
  datatype UserLookup = UserFound(account: Account) | UserMissing | UserFails
  datatype PassCheck = PassRight(references: seq<Reference>) | PassWrong | PassFails
  datatype Env = Env(user: UserLookup, pass: PassCheck, answers: bool)

  datatype Exit = Goes | Closes | Complains | Breaks

  datatype Handled = Handled(session: Session, exit: Exit)

  function Modulo64(n: int): nat
  {
    n % 0x1_0000_0000_0000_0000
  }

  // DELE: the number is converted to `size_t` and counted down by one, both with wrap-around.
  function Index(n: int): nat
  {
    Modulo64(Modulo64(n) - 1)
  }

  function HandleUser(s: Session, c: Command, env: Env): Handled
  {
    if s.authenticated || |c.args| < 1 then Handled(s, Complains)
    else
      match env.user
      case UserFound(account) => Handled(s.(account := account, named := true), Goes)
      case UserMissing => Handled(s, Goes)
      case UserFails => Handled(s, Breaks)
  }

  function HandlePass(s: Session, c: Command, env: Env): Handled
  {
    if s.authenticated || !s.named || |c.args| < 1 then Handled(s, Complains)
    else
      match env.pass
      case PassRight(references) => Handled(s.(references := references, authenticated := true), Goes)
      case PassWrong => Handled(s, Goes)
      case PassFails => Handled(s, Breaks)
  }

  function HandleDele(s: Session, c: Command): Handled
  {
    if !s.authenticated || |c.args| < 1 || Unreadable(c.args[0]) then Handled(s, Complains)
    else
      var n := Stol(c.args[0]);
      if n.None? then Handled(s, Breaks)
      else if Index(n.value) >= |s.references| then Handled(s, Complains)
      else Handled(s.(graveyard := s.graveyard + [Index(n.value)]), Goes)
  }

  // STAT, UIDL, LIST, RETR and TOP answer from the list and change nothing.
  function HandleAnswer(s: Session, env: Env): Handled
  {
    if !s.authenticated then Handled(s, Complains)
    else Handled(s, if env.answers then Goes else Breaks)
  }

  function Handle(s: Session, c: Command, env: Env): Handled
  {
    match c.kind
    case User => HandleUser(s, c, env)
    case Pass => HandlePass(s, c, env)
    case Dele => HandleDele(s, c)
    case Rset => Handled(s.(graveyard := []), Goes)
    case Quit => Handled(s, Closes)
    case Unknown => Handled(s, Complains)
    case Capa => Handled(s, Goes)
    case Implementation => Handled(s, Goes)
    case Stls => Handled(s, if env.answers then Goes else Breaks)
    case _ => HandleAnswer(s, env)
  }

  // ---------------------------------------------------------------- runs

  // What the session granted: a deletion by message number, or the end of all of them.
  datatype Event = Marked(number: int) | Unmarked

  datatype Run = Run(session: Session, open: bool, log: seq<Event>)

  datatype Input = Input(line: Option<string>, env: Env)

  const CONNECTED := Run(FRESH, true, [])

  function EventsOf(c: Command, exit: Exit): seq<Event>
  {
    if c.kind == Rset then [Unmarked]
    else if c.kind == Dele && exit == Goes && c.args != [] then [Marked(Stol(c.args[0]).GetOr(0))]
    else []
  }

  function After(r: Run, c: Command, h: Handled): Run
  {
    Run(h.session, h.exit == Goes || h.exit == Complains, r.log + EventsOf(c, h.exit))
  }

  function Step(r: Run, i: Input): Run
  {
    if !r.open then r
    else if i.line.None? then r.(open := false)
    else
      var c := Parse(i.line.value);
      After(r, c, Handle(r.session, c, i.env))
  }

  function Play(r: Run, inputs: seq<Input>): Run
    decreases |inputs|
  {
    if inputs == [] then r else Play(Step(r, inputs[0]), inputs[1..])
  }

  // Whatever ends the session, the graveyard is buried.
  function Buried(s: Session): (rs: seq<Reference>)
    requires InRange(s)
    ensures |rs| == |s.graveyard|
  {
    seq(|s.graveyard|, k requires 0 <= k < |s.graveyard| => s.references[s.graveyard[k]])
  }

  function Commit(s: Session, store: Store): Store
    requires InRange(s)
  {
    DeleteAll(store, s.account.owner, Buried(s))
  }

  // ---------------------------------------------------------------- laws

  predicate InRange(s: Session)
  {
    forall k :: 0 <= k < |s.graveyard| ==> s.graveyard[k] < |s.references|
  }

  // The message numbers marked since the last RSET.
  function Standing(log: seq<Event>): seq<int>
  {
    if log == [] then []
    else
      match log[|log| - 1]
      case Unmarked => []
      case Marked(n) => Standing(log[..|log| - 1]) + [n]
  }

  predicate Inv(r: Run)
  {
    var s := r.session;
    && InRange(s)
    && (s.authenticated ==> s.named)
    && (!s.authenticated ==> s.references == [] && s.graveyard == [])
    && |Standing(r.log)| == |s.graveyard|
    && forall k :: 0 <= k < |s.graveyard| ==> s.graveyard[k] == Standing(r.log)[k] - 1
  }

  // A list never gets as long as the index type is wide.
  predicate Countable(env: Env)
  {
    env.pass.PassRight? ==> |env.pass.references| < 0x8000_0000_0000_0000
  }

  // DELE accepts exactly the numbers of the list, wrap-around or not.
  lemma DeleAcceptsTheList(n: int, size: nat)
    requires INT64_MIN <= n <= INT64_MAX && size < 0x8000_0000_0000_0000
    ensures Index(n) < size <==> 1 <= n <= size
    ensures 1 <= n ==> Index(n) == n - 1
  {
    var range := 0x1_0000_0000_0000_0000;
    if n < 0 {
      Wrapped(n + range, n);
      Wrapped(n + range - 1, n + range - 1);
    } else if n == 0 {
      Wrapped(0, 0);
      Wrapped(range - 1, -1);
    } else {
      Wrapped(n, n);
      Wrapped(n - 1, n - 1);
    }
  }

  lemma Wrapped(r: nat, n: int)
    requires r < 0x1_0000_0000_0000_0000 && (n == r || n == r - 0x1_0000_0000_0000_0000)
    ensures Modulo64(n) == r
  {
  }

  lemma StandingSnoc(log: seq<Event>, e: Event)
    ensures Standing(log + [e]) == match e case Unmarked => [] case Marked(n) => Standing(log) + [n]
  {
    assert (log + [e])[..|log|] == log;
  }

  lemma StolInRange(s: string)
    ensures Stol(s).Some? ==> INT64_MIN <= Stol(s).value <= INT64_MAX
  {
  }

  lemma DeleIsFine(r: Run, c: Command)
    requires Inv(r) && |r.session.references| < 0x8000_0000_0000_0000 && c.kind == Dele
    ensures Inv(After(r, c, HandleDele(r.session, c)))
  {
    hide Stol, Unreadable, Index, Standing;
    assert r.log + [] == r.log;
    if c.args != [] {
      StolInRange(c.args[0]);
      var n := Stol(c.args[0]).GetOr(0);
      StandingSnoc(r.log, Marked(n));
      if Stol(c.args[0]).Some? {
        DeleAcceptsTheList(n, |r.session.references|);
      }
    }
  }

  // A command that marks nothing.
  lemma OtherIsFine(r: Run, c: Command, env: Env)
    requires Inv(r) && c.kind != Dele && c.kind != Rset && Countable(env) && |r.session.references| < 0x8000_0000_0000_0000
    ensures var t := After(r, c, Handle(r.session, c, env)); Inv(t) && |t.session.references| < 0x8000_0000_0000_0000
  {
    hide Standing, HandleDele;
    assert r.log + [] == r.log;
  }

  lemma ResetIsFine(r: Run, c: Command, env: Env)
    requires Inv(r) && c.kind == Rset
    ensures Inv(After(r, c, Handle(r.session, c, env)))
  {
    hide Standing, HandleDele;
    StandingSnoc(r.log, Unmarked);
  }

  lemma StepIsFine(r: Run, i: Input)
    requires Inv(r) && |r.session.references| < 0x8000_0000_0000_0000 && Countable(i.env)
    ensures Inv(Step(r, i)) && |Step(r, i).session.references| < 0x8000_0000_0000_0000
  {
    hide Parse, Standing, HandleDele, HandleUser, HandlePass, HandleAnswer, EventsOf;
    if r.open && i.line.Some? {
      var c := Parse(i.line.value);
      if c.kind == Dele {
        DeleIsFine(r, c);
        DeleKeepsTheList(r.session, c);
      } else if c.kind == Rset {
        ResetIsFine(r, c, i.env);
      } else {
        OtherIsFine(r, c, i.env);
      }
    }
  }

  lemma DeleKeepsTheList(s: Session, c: Command)
    ensures HandleDele(s, c).session == s.(graveyard := HandleDele(s, c).session.graveyard)
  {
    hide Stol, Unreadable, Index;
  }

  lemma {:induction false} PlayIsFine(r: Run, inputs: seq<Input>)
    requires Inv(r) && |r.session.references| < 0x8000_0000_0000_0000
    requires forall k :: 0 <= k < |inputs| ==> Countable(inputs[k].env)
    ensures Inv(Play(r, inputs))
    decreases |inputs|
  {
    hide Inv, Step;
    if inputs != [] {
      StepIsFine(r, inputs[0]);
      PlayIsFine(Step(r, inputs[0]), inputs[1..]);
    }
  }

  lemma ConnectedIsFine()
    ensures Inv(CONNECTED)
  {
  }

  // In every reachable state the graveyard points into the list, and holds the numbers
  // whose DELE was granted since the last RSET.
  lemma GraveyardIsTheLog(inputs: seq<Input>)
    requires forall k :: 0 <= k < |inputs| ==> Countable(inputs[k].env)
    ensures var r := Play(CONNECTED, inputs);
            && |Standing(r.log)| == |r.session.graveyard|
            && forall k :: 0 <= k < |r.session.graveyard| ==>
                 r.session.graveyard[k] < |r.session.references| && r.session.graveyard[k] == Standing(r.log)[k] - 1
  {
    hide Play;
    PlayIsFine(CONNECTED, inputs);
  }

  // Once authenticated, the account and the list never change.
  lemma {:induction false} ListIsFrozen(r: Run, inputs: seq<Input>)
    requires r.session.authenticated
    ensures var t := Play(r, inputs).session;
            t.authenticated && t.account == r.session.account && t.references == r.session.references
    decreases |inputs|
  {
    hide Parse, HandleDele;
    if inputs != [] {
      if inputs[0].line.Some? {
        DeleKeepsTheList(r.session, Parse(inputs[0].line.value));
      }
      ListIsFrozen(Step(r, inputs[0]), inputs[1..]);
    }
  }

  // Which mails of the list are marked.
  predicate IsMarked(r: Run, mail: Reference)
  {
    exists n :: n in Standing(r.log) && 1 <= n <= |r.session.references| && r.session.references[n - 1] == mail
  }

  lemma BuriedAreMarked(r: Run, mail: Reference)
    requires Inv(r)
    ensures mail in Buried(r.session) <==> IsMarked(r, mail)
  {
    hide Standing;
    var s := r.session;
    if mail in Buried(s) {
      var k :| 0 <= k < |s.graveyard| && Buried(s)[k] == mail;
      assert Standing(r.log)[k] in Standing(r.log);
    }
    if IsMarked(r, mail) {
      var n :| n in Standing(r.log) && 1 <= n <= |s.references| && s.references[n - 1] == mail;
      var k :| 0 <= k < |s.graveyard| && Standing(r.log)[k] == n;
      assert Buried(s)[k] == mail;
    }
  }

  ghost predicate Gone(r: Run, row: Shortcut)
  {
    exists m :: IsMarked(r, m) && Shortcuts(row, r.session.account.owner, m)
  }

  ghost predicate GoneRaw(r: Run, row: Raw)
  {
    exists m :: IsMarked(r, m) && Raws(row, r.session.account.owner, m)
  }

  lemma RowGone(r: Run, rows: seq<Shortcut>, row: Shortcut)
    requires Inv(r)
    ensures row in OtherShortcuts(rows, r.session.account.owner, Buried(r.session)) <==> row in rows && !Gone(r, row)
  {
    hide IsMarked, Standing, OtherShortcuts, Shortcuts;
    var owner, rs := r.session.account.owner, Buried(r.session);
    OtherShortcutsHas(rows, owner, rs, row);
    if Gone(r, row) {
      var m :| IsMarked(r, m) && Shortcuts(row, owner, m);
      BuriedAreMarked(r, m);
    }
    if m :| m in rs && Shortcuts(row, owner, m) {
      BuriedAreMarked(r, m);
    }
  }

  lemma RawGone(r: Run, rows: seq<Raw>, row: Raw)
    requires Inv(r)
    ensures row in OtherRaws(rows, r.session.account.owner, Buried(r.session)) <==> row in rows && !GoneRaw(r, row)
  {
    hide IsMarked, Standing, OtherRaws, Raws;
    var owner, rs := r.session.account.owner, Buried(r.session);
    OtherRawsHas(rows, owner, rs, row);
    if GoneRaw(r, row) {
      var m :| IsMarked(r, m) && Raws(row, owner, m);
      BuriedAreMarked(r, m);
    }
    if m :| m in rs && Raws(row, owner, m) {
      BuriedAreMarked(r, m);
    }
  }

  // Whatever ends the session, a row is gone from the two tables exactly if it belongs to
  // a mail marked since the last RSET; duplicates change nothing, and the rows left keep
  // their order. (Section 6 of RFC 1939 has this happen on QUIT only.)
  lemma CommitRemovesTheMarked(inputs: seq<Input>, store: Store)
    requires forall k :: 0 <= k < |inputs| ==> Countable(inputs[k].env)
    ensures var r := Play(CONNECTED, inputs);
            && InRange(r.session)
            && (forall row :: row in Commit(r.session, store).shortcuts <==> row in store.shortcuts && !Gone(r, row))
            && (forall row :: row in Commit(r.session, store).raws <==> row in store.raws && !GoneRaw(r, row))
            && Commit(r.session, store) ==
               Store(OtherShortcuts(store.shortcuts, r.session.account.owner, Buried(r.session)),
                     OtherRaws(store.raws, r.session.account.owner, Buried(r.session)))
  {
    hide Play, Gone, GoneRaw, OtherShortcuts, OtherRaws, Standing, DeleteAll;
    ConnectedIsFine();
    PlayIsFine(CONNECTED, inputs);
    var r := Play(CONNECTED, inputs);
    DeleteAllIs(store, r.session.account.owner, Buried(r.session));
    forall row ensures row in Commit(r.session, store).shortcuts <==> row in store.shortcuts && !Gone(r, row) {
      RowGone(r, store.shortcuts, row);
    }
    forall row ensures row in Commit(r.session, store).raws <==> row in store.raws && !GoneRaw(r, row) {
      RawGone(r, store.raws, row);
    }
  }
}
