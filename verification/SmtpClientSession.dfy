// The action and flag words of the sending side (lib/smtp/client/SMTPClientSession.src.cc).
// No mask is larger than 128, so that the low eight bits of the words are all there is to them.
module SmtpClientSession {
  import opened BitMask

  datatype Action =
    SentHelo | SentStartTls | SentMailFrom | SentRcptTo | StartedData | EndedData | SentQuit | Secured

  datatype Flag = Esmtp | OffersTls | Chunking | Pipelining | EightBitMime | EnhancedCodes

  function ActionMask(a: Action): bv8
  {
    match a
    case SentHelo => 1
    case SentStartTls => 2
    case SentMailFrom => 4
    case SentRcptTo => 8
    case StartedData => 16
    case EndedData => 32
    case SentQuit => 64
    case Secured => 128
  }

  function FlagMask(f: Flag): bv8
  {
    match f
    case Esmtp => 1
    case OffersTls => 2
    case Chunking => 4
    case Pipelining => 8
    case EightBitMime => 16
    case EnhancedCodes => 32
  }

  // The sets that the two words stand for.
  function ActionsIn(word: bv8): set<Action>
  {
    set a: Action | Has(word, ActionMask(a))
  }

  function FlagsIn(word: bv8): set<Flag>
  {
    set f: Flag | Has(word, FlagMask(f))
  }

  lemma SetActionBit(word: bv8, a: Action)
    ensures ActionsIn(word | ActionMask(a)) == ActionsIn(word) + {a}
  {
    hide Has, ActionMask;
    forall b: Action ensures b in ActionsIn(word | ActionMask(a)) <==> b in ActionsIn(word) + {a} {
      OneMoreAction(word, a, b);
    }
  }

  lemma ActionsApart(a: Action, b: Action)
    ensures ActionMask(a) != 0 && (a != b ==> ActionMask(a) & ActionMask(b) == 0)
  {
  }

  lemma FlagsApart(f: Flag, g: Flag)
    ensures FlagMask(f) != 0 && (f != g ==> FlagMask(f) & FlagMask(g) == 0)
  {
  }

  lemma OneMoreAction(word: bv8, a: Action, b: Action)
    ensures Has(word | ActionMask(a), ActionMask(b)) <==> a == b || Has(word, ActionMask(b))
  {
    hide Has, ActionMask;
    ActionsApart(a, b);
    if a == b {
      BitItself(word, ActionMask(a));
    } else {
      BitsApart(word, ActionMask(a), ActionMask(b));
    }
  }

  lemma ClearActionBit(word: bv8, a: Action)
    ensures ActionsIn(word & !ActionMask(a)) == ActionsIn(word) - {a}
  {
    hide Has, ActionMask;
    forall b: Action ensures b in ActionsIn(word & !ActionMask(a)) <==> b in ActionsIn(word) - {a} {
      OneActionLess(word, a, b);
    }
  }

  lemma OneActionLess(word: bv8, a: Action, b: Action)
    ensures Has(word & !ActionMask(a), ActionMask(b)) <==> a != b && Has(word, ActionMask(b))
  {
    hide Has, ActionMask;
    ActionsApart(a, b);
    if a == b {
      BitItself(word, ActionMask(a));
    } else {
      BitsApart(word, ActionMask(a), ActionMask(b));
    }
  }

  lemma SetFlagBit(word: bv8, f: Flag)
    ensures FlagsIn(word | FlagMask(f)) == FlagsIn(word) + {f}
  {
    hide Has, FlagMask;
    forall g: Flag ensures g in FlagsIn(word | FlagMask(f)) <==> g in FlagsIn(word) + {f} {
      OneMoreFlag(word, f, g);
    }
  }

  lemma OneMoreFlag(word: bv8, f: Flag, g: Flag)
    ensures Has(word | FlagMask(f), FlagMask(g)) <==> f == g || Has(word, FlagMask(g))
  {
    hide Has, FlagMask;
    FlagsApart(f, g);
    if f == g {
      BitItself(word, FlagMask(f));
    } else {
      BitsApart(word, FlagMask(f), FlagMask(g));
    }
  }

  lemma NothingSet()
    ensures ActionsIn(0) == {} && FlagsIn(0) == {}
  {
    forall a: Action ensures !Has(0, ActionMask(a)) {
    }
    forall f: Flag ensures !Has(0, FlagMask(f)) {
    }
  }

  class ClientSession {
    var s_PerformedActions: bv8
    var s_SessionFlags: bv8

    ghost function Actions(): set<Action>
      reads this
    {
      ActionsIn(s_PerformedActions)
    }

    ghost function Flags(): set<Flag>
      reads this
    {
      FlagsIn(s_SessionFlags)
    }

    constructor ()
      ensures Actions() == {} && Flags() == {}
    {
      s_PerformedActions, s_SessionFlags := 0, 0;
      new;
      NothingSet();
    }

    method SetFlag(f: Flag)
      modifies this`s_SessionFlags
      ensures Flags() == old(Flags()) + {f}
    {
      SetFlagBit(s_SessionFlags, f);
      s_SessionFlags := s_SessionFlags | FlagMask(f);
    }

    predicate GetFlag(f: Flag)
      reads this
      ensures GetFlag(f) <==> f in Flags()
    {
      Has(s_SessionFlags, FlagMask(f))
    }

    method SetAction(a: Action)
      modifies this`s_PerformedActions
      ensures Actions() == old(Actions()) + {a}
    {
      SetActionBit(s_PerformedActions, a);
      s_PerformedActions := s_PerformedActions | ActionMask(a);
    }

    predicate GetAction(a: Action)
      reads this
      ensures GetAction(a) <==> a in Actions()
    {
      Has(s_PerformedActions, ActionMask(a))
    }

    method ClearAction(a: Action)
      modifies this`s_PerformedActions
      ensures Actions() == old(Actions()) - {a}
    {
      ClearActionBit(s_PerformedActions, a);
      s_PerformedActions := s_PerformedActions & !ActionMask(a);
    }

    // Was the action performed before? It is now.
    method GetActionSet(a: Action) returns (before: bool)
      modifies this`s_PerformedActions
      ensures before <==> a in old(Actions())
      ensures Actions() == old(Actions()) + {a}
    {
      if GetAction(a) {
        assert Actions() == Actions() + {a};
        return true;
      }
      SetAction(a);
      return false;
    }
  }
}
