// The state of one connection on the receiving side
// (lib/smtp/server/SMTPServerSession.src.cc). No mask of its flag and action words is
// larger than 128, so that the low eight bits of the words are all there is to them.
module SmtpServerSession {
  import opened Addresses
  import opened BitMask
  import opened MailStore

  datatype Action = SaidHelo | GaveMailFrom | GaveRcptTo | BeganData | TriedAuth

  datatype Flag = Authenticated | Encrypted | FromLocal | Relay | Comrade

  function ActionMask(a: Action): bv8
  {
    match a
    case SaidHelo => 1
    case GaveMailFrom => 4
    case GaveRcptTo => 8
    case BeganData => 16
    case TriedAuth => 128
  }

  function FlagMask(f: Flag): bv8
  {
    match f
    case Authenticated => 1
    case Encrypted => 2
    case FromLocal => 4
    case Relay => 8
    case Comrade => 16
  }

  function ActionsIn(word: bv8): set<Action>
  {
    set a: Action | Has(word, ActionMask(a))
  }

  function FlagsIn(word: bv8): set<Flag>
  {
    set f: Flag | Has(word, FlagMask(f))
  }

  lemma ActionsApart(a: Action, b: Action)
    ensures ActionMask(a) != 0 && (a != b ==> ActionMask(a) & ActionMask(b) == 0)
  {
  }

  lemma FlagsApart(f: Flag, g: Flag)
    ensures f != g ==> FlagMask(f) & FlagMask(g) == 0
  {
  }

  lemma SetActionBit(word: bv8, a: Action, b: Action)
    ensures Has(word | ActionMask(a), ActionMask(b)) <==> a == b || Has(word, ActionMask(b))
  {
    hide Has, ActionMask;
    ActionsApart(a, b);
    if a == b {
      BitItself(word, ActionMask(a));
    } else {
      BitsApart(word, ActionMask(a), ActionMask(b));
    }
  }

  lemma ClearActionBit(word: bv8, a: Action, b: Action)
    ensures Has(word & !ActionMask(a), ActionMask(b)) <==> a != b && Has(word, ActionMask(b))
  {
    hide Has, ActionMask;
    ActionsApart(a, b);
    if a == b {
      BitItself(word, ActionMask(a));
    } else {
      BitsApart(word, ActionMask(a), ActionMask(b));
    }
  }

  lemma SetFlagBit(word: bv8, f: Flag, g: Flag)
    ensures Has(word | FlagMask(f), FlagMask(g)) <==> f == g || Has(word, FlagMask(g))
  {
    hide Has, FlagMask;
    FlagsApart(f, g);
    if f == g {
      BitItself(word, FlagMask(f));
    } else {
      BitsApart(word, FlagMask(f), FlagMask(g));
    }
  }

  lemma ActionBits(word: bv8, a: Action)
    ensures ActionsIn(word | ActionMask(a)) == ActionsIn(word) + {a}
    ensures ActionsIn(word & !ActionMask(a)) == ActionsIn(word) - {a}
  {
    hide Has, ActionMask;
    forall b: Action ensures b in ActionsIn(word | ActionMask(a)) <==> b in ActionsIn(word) + {a} {
      SetActionBit(word, a, b);
    }
    forall b: Action ensures b in ActionsIn(word & !ActionMask(a)) <==> b in ActionsIn(word) - {a} {
      ClearActionBit(word, a, b);
    }
  }

  lemma FlagBits(word: bv8, f: Flag)
    ensures FlagsIn(word | FlagMask(f)) == FlagsIn(word) + {f}
  {
    hide Has, FlagMask;
    forall g: Flag ensures g in FlagsIn(word | FlagMask(f)) <==> g in FlagsIn(word) + {f} {
      SetFlagBit(word, f, g);
    }
  }

  lemma NothingSet(a: Action, f: Flag)
    ensures !Has(0, ActionMask(a)) && !Has(0, FlagMask(f))
  {
  }

  // ---------------------------------------------------------------- tasks

  datatype StorageTarget = Incoming | SentBox | Spam

  datatype StorageTask = StorageTask(account: Account, target: StorageTarget)

  function ToSpam(tasks: seq<StorageTask>): (r: seq<StorageTask>)
    ensures |r| == |tasks|
  {
    seq(|tasks|, i requires 0 <= i < |tasks| =>
      if tasks[i].target == Incoming then tasks[i].(target := Spam) else tasks[i])
  }

  // Without the first task for the box of sent mail.
  function WithoutSent(tasks: seq<StorageTask>): seq<StorageTask>
  {
    if tasks == [] then []
    else if tasks[0].target == SentBox then tasks[1..]
    else [tasks[0]] + WithoutSent(tasks[1..])
  }

  // What the two words and the fields say.
  datatype Session = Session(
    actions: set<Action>, flags: set<Flag>, account: Account, from: EmailAddress,
    storage: seq<StorageTask>, relay: seq<EmailAddress>, spam: bool, raw: string)

  const FRESH := Session({}, {}, NO_ACCOUNT, EmailAddress("", ""), [], [], false, "")

  class ServerSession {
    var m_Flags: bv8
    var m_PerformedActions: bv8
    var m_PossibleSpam: bool
    var m_StorageTasks: seq<StorageTask>
    var m_RelayTasks: seq<EmailAddress>
    var m_TransportFrom: EmailAddress
    var s_SendingAccount: Account
    var m_Raw: string

    ghost function View(): Session
      reads this
    {
      Session(ActionsIn(m_PerformedActions), FlagsIn(m_Flags), s_SendingAccount, m_TransportFrom,
              m_StorageTasks, m_RelayTasks, m_PossibleSpam, m_Raw)
    }

    constructor ()
      ensures View() == FRESH
    {
      m_Flags, m_PerformedActions, m_PossibleSpam := 0, 0, false;
      m_StorageTasks, m_RelayTasks := [], [];
      m_TransportFrom, s_SendingAccount := EmailAddress("", ""), NO_ACCOUNT;
      m_Raw := "";
      new;
      forall a: Action, f: Flag ensures !Has(0, ActionMask(a)) && !Has(0, FlagMask(f)) {
        NothingSet(a, f);
      }
    }

    method SetFlag(f: Flag)
      modifies this`m_Flags
      ensures View() == old(View()).(flags := old(View().flags) + {f})
    {
      hide FlagsIn, FlagMask;
      FlagBits(m_Flags, f);
      m_Flags := m_Flags | FlagMask(f);
    }

    predicate GetFlag(f: Flag)
      reads this
      ensures GetFlag(f) <==> f in View().flags
    {
      Has(m_Flags, FlagMask(f))
    }

    method SetAction(a: Action)
      modifies this`m_PerformedActions
      ensures View() == old(View()).(actions := old(View().actions) + {a})
    {
      hide ActionsIn, ActionMask;
      ActionBits(m_PerformedActions, a);
      m_PerformedActions := m_PerformedActions | ActionMask(a);
    }

    method ClearAction(a: Action)
      modifies this`m_PerformedActions
      ensures View() == old(View()).(actions := old(View().actions) - {a})
    {
      hide ActionsIn, ActionMask;
      ActionBits(m_PerformedActions, a);
      m_PerformedActions := m_PerformedActions & !ActionMask(a);
    }

    predicate GetAction(a: Action)
      reads this
      ensures GetAction(a) <==> a in View().actions
    {
      Has(m_PerformedActions, ActionMask(a))
    }

    method StorageTasksToSpam()
      modifies this`m_StorageTasks
      ensures View() == old(View()).(storage := ToSpam(old(m_StorageTasks)))
    {
      ghost var was := m_StorageTasks;
      for i := 0 to |m_StorageTasks|
        invariant |m_StorageTasks| == |was|
        invariant forall k :: 0 <= k < i ==> m_StorageTasks[k] == ToSpam(was)[k]
        invariant forall k :: i <= k < |was| ==> m_StorageTasks[k] == was[k]
      {
        if m_StorageTasks[i].target == Incoming {
          m_StorageTasks := m_StorageTasks[i := m_StorageTasks[i].(target := Spam)];
        }
      }
      assert m_StorageTasks == ToSpam(was);
    }

    method RemoveSentTasks()
      modifies this`m_StorageTasks
      ensures View() == old(View()).(storage := WithoutSent(old(m_StorageTasks)))
    {
      ghost var was := m_StorageTasks;
      assert was[0..] == was;
      var it := 0;
      while it < |m_StorageTasks|
        invariant it <= |m_StorageTasks| && m_StorageTasks == was
        invariant WithoutSent(was) == was[..it] + WithoutSent(was[it..])
      {
        assert was[it..][1..] == was[it + 1..];
        if m_StorageTasks[it].target == SentBox {
          m_StorageTasks := m_StorageTasks[..it] + m_StorageTasks[it + 1..];
          return;
        }
        assert was[..it] + ([was[it]] + WithoutSent(was[it + 1..])) == was[..it + 1] + WithoutSent(was[it + 1..]);
        it := it + 1;
      }
      assert was[..it] == was && was + [] == was;
    }

    method AddStorageTask(task: StorageTask)
      modifies this`m_StorageTasks
      ensures View() == old(View()).(storage := old(m_StorageTasks) + [task])
    {
      m_StorageTasks := m_StorageTasks + [task];
    }

    method AddRelayTask(target: EmailAddress)
      modifies this`m_RelayTasks
      ensures View() == old(View()).(relay := old(m_RelayTasks) + [target])
    {
      m_RelayTasks := m_RelayTasks + [target];
    }

    method SetTransportFrom(from: EmailAddress)
      modifies this`m_TransportFrom
      ensures View() == old(View()).(from := from)
    {
      m_TransportFrom := from;
    }

    method SetSendingAccount(account: Account)
      modifies this`s_SendingAccount
      ensures View() == old(View()).(account := account)
    {
      s_SendingAccount := account;
    }

    method SetRaw(raw: string)
      modifies this`m_Raw
      ensures View() == old(View()).(raw := raw)
    {
      m_Raw := raw;
    }

    method SetPossibleSpam(v: bool)
      modifies this`m_PossibleSpam
      ensures View() == old(View()).(spam := v)
    {
      m_PossibleSpam := v;
    }
  }
}
