// The POP3 session object and the server's loop, with the commit behind it
// (lib/pop3/P3ServerSession.src.cc, lib/pop3/P3Server.src.cc:95-191).
module Pop3Server {
  import opened Text
  import opened Decimal
  import opened BitMask
  import opened MailStore
  import opened Pop3
  import Mime

  const AUTH_FLAG: bv8 := 1
  const USER_ACTION: bv8 := 1
  const PASS_ACTION: bv8 := 2

  lemma SetBits(word: bv8)
    ensures Has(word | AUTH_FLAG, AUTH_FLAG) && Has(word | PASS_ACTION, PASS_ACTION)
    ensures Has(word | PASS_ACTION, USER_ACTION) == Has(word, USER_ACTION)
    ensures !Has(0, AUTH_FLAG)
  {
  }

  lemma UserBit(word: bv8)
    ensures Has(word | USER_ACTION, USER_ACTION)
  {
  }

  class P3ServerSession {
    var s_Flags: bv8
    var s_Actions: bv8
    var s_Account: Account
    var s_References: seq<Reference>
    var s_Graveyard: seq<nat>

    function View(): Session
      reads this
    {
      Session(Has(s_Actions, USER_ACTION), Has(s_Flags, AUTH_FLAG), s_Account, s_References, s_Graveyard)
    }

    constructor ()
      ensures View() == FRESH
    {
      s_Flags, s_Actions, s_Account, s_References, s_Graveyard := 0, 0, NO_ACCOUNT, [], [];
      new;
      SetBits(0);
    }

    method SetFlag(mask: bv8)
      modifies this`s_Flags
      ensures s_Flags == old(s_Flags) | mask
    {
      s_Flags := s_Flags | mask;
    }

    predicate GetFlag(mask: bv8)
      reads this
    {
      Has(s_Flags, mask)
    }

    method SetAction(mask: bv8)
      modifies this`s_Actions
      ensures s_Actions == old(s_Actions) | mask
    {
      s_Actions := s_Actions | mask;
    }

    predicate GetAction(mask: bv8)
      reads this
    {
      Has(s_Actions, mask)
    }
  }

  class Tables {
    var shortcuts: seq<Shortcut>
    var raws: seq<Raw>

    function View(): Store
      reads this
    {
      Store(shortcuts, raws)
    }

    method DeleteOneShortcut(owner: Owner, r: Reference)
      modifies this`shortcuts
      ensures shortcuts == DeleteShortcut(old(shortcuts), owner, r)
    {
      shortcuts := DeleteShortcut(shortcuts, owner, r);
    }

    method DeleteOneRaw(owner: Owner, r: Reference)
      modifies this`raws
      ensures raws == DeleteRaw(old(raws), owner, r)
    {
      raws := DeleteRaw(raws, owner, r);
    }
  }

  method HandleCommand(session: P3ServerSession, c: Command, env: Env) returns (exit: Exit)
    modifies session
    ensures Handled(session.View(), exit) == Handle(old(session.View()), c, env)
  {
    hide HandleDele, HandleUser, HandlePass, Has;
    match c.kind {
      case Quit =>
        return Closes;
      case Unknown =>
        return Complains;
      case Capa =>
        return Goes;
      case Implementation =>
        return Goes;
      case Stls =>
        return if env.answers then Goes else Breaks;
      case Rset =>
        session.s_Graveyard := [];
        return Goes;
      case User =>
        exit := TakeUser(session, c, env);
      case Pass =>
        exit := TakePassword(session, c, env);
      case Dele =>
        exit := Delete(session, c);
      case _ =>
        if !session.GetFlag(AUTH_FLAG) {
          return Complains;
        }
        return if env.answers then Goes else Breaks;
    }
  }

  method TakeUser(session: P3ServerSession, c: Command, env: Env) returns (exit: Exit)
    modifies session
    ensures Handled(session.View(), exit) == HandleUser(old(session.View()), c, env)
  {
    UserBit(session.s_Actions);
    if session.GetFlag(AUTH_FLAG) {
      return Complains;
    }
    if |c.args| < 1 {
      return Complains;
    }
    match env.user {
      case UserFails =>
        return Breaks;
      case UserMissing =>
        return Goes;
      case UserFound(account) =>
        session.s_Account := account;
    }
    session.SetAction(USER_ACTION);
    return Goes;
  }

  method TakePassword(session: P3ServerSession, c: Command, env: Env) returns (exit: Exit)
    modifies session
    ensures Handled(session.View(), exit) == HandlePass(old(session.View()), c, env)
  {
    SetBits(session.s_Flags);
    SetBits(session.s_Actions);
    if session.GetFlag(AUTH_FLAG) {
      return Complains;
    }
    if !session.GetAction(USER_ACTION) {
      return Complains;
    }
    if |c.args| < 1 {
      return Complains;
    }
    match env.pass {
      case PassFails =>
        return Breaks;
      case PassWrong =>
        return Goes;
      case PassRight(references) =>
        session.s_References := references;
    }
    session.SetAction(PASS_ACTION);
    session.SetFlag(AUTH_FLAG);
    return Goes;
  }

  method Delete(session: P3ServerSession, c: Command) returns (exit: Exit)
    modifies session
    ensures Handled(session.View(), exit) == HandleDele(old(session.View()), c)
  {
    hide Stol, Unreadable;
    if !session.GetFlag(AUTH_FLAG) {
      return Complains;
    }
    if |c.args| < 1 {
      return Complains;
    }
    if Unreadable(c.args[0]) {
      return Complains;
    }
    var n := Stol(c.args[0]);
    if n.None? {
      return Breaks;
    }
    var i := Modulo64(n.value);
    i := Modulo64(i - 1);
    if i >= |session.s_References| {
      return Complains;
    }
    session.s_Graveyard := session.s_Graveyard + [i];
    return Goes;
  }

  // One connection: the loop, then the deletions, for whatever reason the loop ended.
  method Serve(tables: Tables, inputs: seq<Input>) returns (session: P3ServerSession, ghost r: Run)
    requires forall k :: 0 <= k < |inputs| ==> Countable(inputs[k].env)
    modifies tables
    ensures fresh(session) && r == Play(CONNECTED, inputs) && session.View() == r.session
    ensures InRange(r.session) && tables.View() == Commit(r.session, old(tables.View()))
  {
    hide Play, Parse, Handle, Standing;
    session := new P3ServerSession();
    var run, pos := true, 0;
    r := CONNECTED;
    assert inputs[0..] == inputs;
    while run && pos < |inputs|
      invariant pos <= |inputs| && fresh(session) && run == r.open
      invariant session.View() == r.session && Play(r, inputs[pos..]) == Play(CONNECTED, inputs)
      invariant tables.View() == old(tables.View())
      decreases |inputs| - pos
    {
      var input := inputs[pos];
      PlayStep(r, inputs, pos);
      r := Step(r, input);
      pos := pos + 1;
      if input.line.None? {
        run := false;
      } else {
        var exit := HandleCommand(session, Parse(input.line.value), input.env);
        run := exit == Goes || exit == Complains;
      }
    }
    PlayEnds(r, inputs[pos..]);
    ConnectedIsFine();
    PlayIsFine(CONNECTED, inputs);
    assert InRange(r.session);
    Bury(tables, session);
  }

  method Bury(tables: Tables, session: P3ServerSession)
    requires InRange(session.View())
    modifies tables
    ensures tables.View() == Commit(session.View(), old(tables.View()))
  {
    hide DeleteMail;
    ghost var rs := Buried(session.View());
    var owner := session.s_Account.owner;
    assert rs[0..] == rs;
    for k := 0 to |session.s_Graveyard|
      invariant DeleteAll(tables.View(), owner, rs[k..]) == DeleteAll(old(tables.View()), owner, rs)
    {
      var r := session.s_References[session.s_Graveyard[k]];
      BuryStep(tables.View(), owner, rs, k);
      MailDeleted(tables.View(), owner, r);
      tables.DeleteOneShortcut(owner, r);
      tables.DeleteOneRaw(owner, r);
    }
    assert rs[|rs|..] == [];
  }

  lemma BuryStep(s: Store, owner: Owner, rs: seq<Reference>, k: nat)
    requires k < |rs|
    ensures DeleteAll(s, owner, rs[k..]) == DeleteAll(DeleteMail(s, owner, rs[k]), owner, rs[k + 1..])
  {
    assert rs[k..][1..] == rs[k + 1..];
  }

  lemma MailDeleted(s: Store, owner: Owner, r: Reference)
    ensures DeleteMail(s, owner, r) == Store(DeleteShortcut(s.shortcuts, owner, r), DeleteRaw(s.raws, owner, r))
  {
  }

  lemma PlayStep(r: Run, inputs: seq<Input>, pos: nat)
    requires pos < |inputs|
    ensures Play(r, inputs[pos..]) == Play(Step(r, inputs[pos]), inputs[pos + 1..])
  {
    hide Step;
    assert inputs[pos..][1..] == inputs[pos + 1..];
  }

  lemma {:induction false} PlayEnds(r: Run, inputs: seq<Input>)
    requires !r.open || inputs == []
    ensures Play(r, inputs) == r
    decreases |inputs|
  {
    if inputs != [] {
      PlayEnds(r, inputs[1..]);
    }
  }
}
