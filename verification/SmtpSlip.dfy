// A run of the joint machine in which the client speaks out of turn: the store of the server
// fails under RCPT TO, so that nothing comes back, and the read that fails for that leaves
// the 250 of the reply before in the client's variable.
module SmtpSlip {
  import opened Text
  import opened Addresses
  import opened SmtpCommand
  import opened SmtpJoint
  import opened SmtpDelivery
  import C = SmtpClient
  import CS = SmtpClientSession
  import S = SmtpServer
  import SS = SmtpServerSession
  import MailStore
  import D = DataText

  function Read(env: S.Env): Turn
  {
    Turn(false, 0, "", "", [], env)
  }

  // A read that fails and leaves 250 behind.
  function Lost(env: S.Env): Turn
  {
    Turn(true, 250, "", "", [], env)
  }

  function Reads(env: S.Env, n: nat): seq<Turn>
  {
    if n == 0 then [] else [Read(env)] + Reads(env, n - 1)
  }

  // How many rounds it takes until the reply to MAIL FROM is on its way.
  function Rounds(s: C.Setup): nat
  {
    if C.SameDomain(s) then 8 else 4
  }

  function SlipTurns(s: C.Setup, env: S.Env): seq<Turn>
  {
    Reads(env, Rounds(s)) + [Read(env.(domain := S.Broken)), Lost(env)]
  }

  // A server that is well disposed up to the recipient.
  predicate Welcoming(env: S.Env)
  {
    env.access == S.Allowed && env.tls && env.domain == S.Missing
  }

  // In step, without any fault so far, at a given place of the script.
  ghost predicate At(j: Joint, s: C.Setup, control: C.Control, actions: set<CS.Action>)
  {
    && SmtpDelivery.Inv(j, s, MailStore.NO_ACCOUNT) && SmtpJoint.Inv(j, s)
    && !j.foul && !j.slipped
    && j.talk.control == control && j.talk.actions == actions
  }

  lemma OneMore(j: Joint, env: S.Env, s: C.Setup, control: C.Control, actions: set<CS.Action>)
    requires At(j, s, control, actions) && Proper(s) && Welcoming(env)
    requires control != C.Finished && CS.SentMailFrom !in actions && CS.SentQuit !in actions
    ensures At(Round(j, Read(env), s), s, Waits(j.talk, s), Moved(j.talk, s))
  {
    hide C.Step, C.Waiting, C.Inv, Deliver, Fits, EndsOnce, InStep, Foul, Heard, Tasks, Moved, Waits, Proper;
    var turn := Read(env);
    StillWaiting(j, s);
    Welcome(j.talk, s, env);
    RoundIsKind(j, turn, s, MailStore.NO_ACCOUNT);
    ProperFits(s);
    RoundIsFine(j, turn, s);
    ClientGoesOn(j, turn, s);
    NotFoul(j.link, Answering(j.talk, s), env);
    NoSlip(j, turn);
  }

  lemma ProperFits(s: C.Setup)
    requires Proper(s)
    ensures Fits(s) && EndsOnce(s.message)
  {
  }

  lemma Welcome(t: C.Talk, s: C.Setup, env: S.Env)
    requires C.Waiting(t, s) && CS.SentMailFrom !in t.actions && Welcoming(env)
    ensures Kind(Answering(t, s), env, s, MailStore.NO_ACCOUNT)
  {
    hide C.Progress;
  }

  lemma StillWaiting(j: Joint, s: C.Setup)
    requires SmtpDelivery.Inv(j, s, MailStore.NO_ACCOUNT) && j.talk.control != C.Finished
    ensures C.Waiting(j.talk, s) && j.talk.run && InStep(j.talk, s, j.link, j.reply) && j.reply == Some(Right(j.talk))
  {
    hide C.Progress, Tasks, Sync;
  }

  lemma NotFoul(l: S.Link, item: C.Sent, env: S.Env)
    requires env.domain != S.Found
    ensures !Foul(l, item, env)
  {
  }

  lemma NoSlip(j: Joint, turn: Turn)
    requires !turn.lost && j.reply.Some?
    ensures !Slips(j, turn)
  {
  }

  lemma AtStart(s: C.Setup)
    ensures At(CONNECTED, s, C.AwaitReply, {})
  {
    hide SmtpDelivery.Inv, SmtpJoint.Inv;
    ConnectedIsKind(s, MailStore.NO_ACCOUNT);
    ConnectedIsFine(s);
  }

  // The rounds of one greeting, from the reply that opens it to the options.
  lemma Greets(j: Joint, env: S.Env, s: C.Setup, actions: set<CS.Action>) returns (k: Joint)
    requires Proper(s) && Welcoming(env)
    requires actions == {} || actions == {CS.SentHelo, CS.SentStartTls}
    requires At(j, s, C.AwaitReply, actions)
    ensures k == Play(j, Reads(env, if C.SameDomain(s) then 3 else 1), s)
    ensures At(k, s, C.AwaitOptions,
               if actions == {} then {CS.SentHelo} else {CS.SentHelo, CS.SentStartTls, CS.Secured})
  {
    hide Round, Proper, SmtpJoint.Inv, SmtpDelivery.Inv, Play, Reads;
    OneMore(j, env, s, C.AwaitReply, actions);
    var a := Round(j, Read(env), s);
    if C.SameDomain(s) {
      var after := if actions == {} then {} else {CS.SentStartTls, CS.Secured};
      assert At(a, s, C.AwaitFcapa, after);
      OneMore(a, env, s, C.AwaitFcapa, after);
      var b := Round(a, Read(env), s);
      OneMore(b, env, s, C.AwaitSu, after);
      k := Round(b, Read(env), s);
      PlayReads(j, env, s, 3);
      PlayReads(a, env, s, 2);
      PlayReads(b, env, s, 1);
    } else {
      k := a;
      PlayReads(j, env, s, 1);
    }
    PlayNothing(k, env, s);
  }

  lemma PlayReads(j: Joint, env: S.Env, s: C.Setup, n: nat)
    requires n > 0
    ensures Play(j, Reads(env, n), s) == Play(Round(j, Read(env), s), Reads(env, n - 1), s)
  {
    hide Round;
    assert ([Read(env)] + Reads(env, n - 1))[1..] == Reads(env, n - 1);
  }

  lemma PlayNothing(j: Joint, env: S.Env, s: C.Setup)
    ensures Play(j, Reads(env, 0), s) == j
  {
  }

  lemma {:induction false} PlayAppend(j: Joint, a: seq<Turn>, b: seq<Turn>, s: C.Setup)
    ensures Play(j, a + b, s) == Play(Play(j, a, s), b, s)
    decreases |a|
  {
    hide Round;
    if a == [] {
      assert a + b == b;
    } else {
      assert (a + b)[1..] == a[1..] + b;
      PlayAppend(Round(j, a[0], s), a[1..], b, s);
    }
  }

  lemma {:induction false} ReadsAppend(env: S.Env, m: nat, n: nat)
    ensures Reads(env, m + n) == Reads(env, m) + Reads(env, n)
  {
    if m == 0 {
      assert [] + Reads(env, n) == Reads(env, n);
    } else {
      ReadsAppend(env, m - 1, n);
    }
  }

  // From the greeting to the reply to MAIL FROM.
  lemma UpToTheSender(s: C.Setup, env: S.Env) returns (j: Joint)
    requires Proper(s) && Welcoming(env)
    ensures j == Play(CONNECTED, Reads(env, Rounds(s)), s)
    ensures At(j, s, C.AwaitReply, {CS.SentHelo, CS.SentStartTls, CS.Secured, CS.SentMailFrom})
  {
    hide Round, Proper, SmtpJoint.Inv, SmtpDelivery.Inv, Play, Reads;
    var n := if C.SameDomain(s) then 3 else 1;
    AtStart(s);
    var a := Greets(CONNECTED, env, s, {});
    OneMore(a, env, s, C.AwaitOptions, {CS.SentHelo});
    var b := Round(a, Read(env), s);
    assert At(b, s, C.AwaitReply, {CS.SentHelo, CS.SentStartTls});
    var c := Greets(b, env, s, {CS.SentHelo, CS.SentStartTls});
    OneMore(c, env, s, C.AwaitOptions, {CS.SentHelo, CS.SentStartTls, CS.Secured});
    j := Round(c, Read(env), s);
    PlayReads(a, env, s, 1);
    PlayNothing(b, env, s);
    PlayReads(c, env, s, 1);
    PlayNothing(j, env, s);
    ReadsAppend(env, n, 1);
    PlayAppend(CONNECTED, Reads(env, n), Reads(env, 1), s);
    ReadsAppend(env, n + 1, n);
    PlayAppend(CONNECTED, Reads(env, n + 1), Reads(env, n), s);
    ReadsAppend(env, n + 1 + n, 1);
    PlayAppend(CONNECTED, Reads(env, n + 1 + n), Reads(env, 1), s);
  }

  // A failing database leaves RCPT TO without a reply.
  lemma SilentRecipient(j: Joint, env: S.Env, s: C.Setup)
    requires At(j, s, C.AwaitReply, {CS.SentHelo, CS.SentStartTls, CS.Secured, CS.SentMailFrom})
    requires Proper(s) && env.domain == S.Broken
    ensures var k := Round(j, Read(env), s);
            SmtpJoint.Inv(k, s) && !k.foul && !k.slipped && k.reply == None && Unheeded(k.talk, k.link)
  {
    hide C.Step, C.Waiting, C.Greeting, S.After, Fits, EndsOnce, ParseAddress, PlainAddress, CommandText, Parse, D.Storable,
      Received, GreetingText, Tasks, SmtpJoint.Inv, SmtpDelivery.Inv, Heard, S.HandleHello, S.HandleStartTls,
      S.HandleMailFrom, S.HandleAuth, S.HandleData;
    var turn, t, l := Read(env), j.talk, j.link;
    StillWaiting(j, s);
    RoundIsFine(j, turn, s);
    ClientGoesOn(j, turn, s);
    Arrives(t, s);
    AddressReads(s.target.address);
    ShortTrace(t, s);
    AnswerIs(l, S.Handle(l.session, Answering(t, s).command, env));
    NotFoul(l, Answering(t, s), env);
    NoSlip(j, turn);
  }

  // The client goes on with DATA, and the server, which knows of no recipient, answers 503.
  lemma LeftoverCode(s: C.Setup, env: S.Env)
    requires Proper(s) && Welcoming(env)
    ensures var j := Play(CONNECTED, SlipTurns(s, env), s);
            503 in j.link.replies && j.slipped && !j.foul
  {
    hide Round, Proper, At, SmtpJoint.Inv, SmtpDelivery.Inv, Slips, Play, Unheeded, Reads;
    var broken := Read(env.(domain := S.Broken));
    var j := UpToTheSender(s, env);
    PlayAppend(CONNECTED, Reads(env, Rounds(s)), [broken, Lost(env)], s);
    SilentRecipient(j, env.(domain := S.Broken), s);
    var k := Round(j, broken, s);
    LastRound(k, env, s);
    PlayTwo(j, broken, Lost(env), s);
  }

  lemma PlayTwo(j: Joint, a: Turn, b: Turn, s: C.Setup)
    ensures Play(j, [a, b], s) == Round(Round(j, a, s), b, s)
  {
    hide Round, Play;
    assert [a, b] == [a] + [b];
    PlayAppend(j, [a], [b], s);
    PlayOne(j, a, s);
    PlayOne(Round(j, a, s), b, s);
  }

  lemma PlayOne(j: Joint, a: Turn, s: C.Setup)
    ensures Play(j, [a], s) == Round(j, a, s)
  {
    hide Round;
    assert [a][1..] == [];
  }

  lemma LastRound(k: Joint, env: S.Env, s: C.Setup)
    requires SmtpJoint.Inv(k, s) && !k.foul && !k.slipped && k.reply == None && Unheeded(k.talk, k.link)
    requires Proper(s) && Welcoming(env)
    ensures var m := Round(k, Lost(env), s); 503 in m.link.replies && m.slipped && !m.foul
  {
    hide C.Step, C.Waiting, Deliver, Fits, EndsOnce, InStep, Foul, Adrift, C.Ended, D.Storable;
    var u := C.Step(k.talk, Heard(k, Lost(env)), s);
    RoundIsFine(k, Lost(env), s);
    if |u.trace| > 0 {
      NotFoul(k.link, u.trace[|u.trace| - 1], env);
    }
  }
}
