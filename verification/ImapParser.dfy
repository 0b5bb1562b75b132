// The argument parser of IMAP commands: recursive descent over the tokens
// (lib/imap/IMAPCommandParser.src.cc:332-617).
module ImapParser {
  import opened Text
  import opened Decimal
  import opened ImapLexer
  import Mime

  datatype Argument =
    | Int(n: int)
    | Atom(s: string)
    | Quoted(s: string)
    | List(children: seq<Argument>)
    | Section(children: seq<Argument>)
    | Range(from: int, to: int)

  // What a step of the parser leaves: the arguments, the tokens not yet consumed, and the
  // token consumed last.
  datatype Parsed = Parsed(args: seq<Argument>, rest: seq<Token>, last: Token)

  // A quoted string: the tokens up to the closing quote, written out.
  function QuoteEnd(ts: seq<Token>): (i: nat)
    ensures i <= |ts| && (i < |ts| ==> ts[i] == Quote)
    ensures forall k :: 0 <= k < i ==> ts[k] != Quote
  {
    if ts == [] || ts[0] == Quote then 0 else 1 + QuoteEnd(ts[1..])
  }

  function StringItem(ts: seq<Token>, target: seq<Argument>): (r: Outcome<Parsed>)
    requires ts != []
    ensures r.Done? ==> |r.value.rest| < |ts|
  {
    var i := QuoteEnd(ts[1..]);
    if i == |ts| - 1 then Throws
    else Done(Parsed(target + [Quoted(RenderAll(ts[1..][..i]))], ts[i + 2..], Quote))
  }

  // A ':' makes the number in front of it and the token behind it a range; with another
  // word than a number behind it, both ends are -1. Behind the last token the original
  // reads past the end of its vector.
  function RangeItem(prev: Option<Token>, ts: seq<Token>, target: seq<Argument>): (r: Outcome<Parsed>)
    requires ts != []
    ensures r.Done? ==> |r.value.rest| < |ts|
  {
    if target == [] || prev.None? || !prev.value.Number? then Throws
    else if |ts| < 2 then Undefined
    else if ts[1].Number? then
      Done(Parsed(target[..|target| - 1] + [Range(prev.value.n, ts[1].n)], ts[2..], ts[1]))
    else if ts[1].Other? then
      Done(Parsed(target[..|target| - 1] + [Range(-1, -1)], ts[2..], ts[1]))
    else Throws
  }

  // `analyze` without the head part: one item, which is at least one token.
  function Item(prev: Option<Token>, ts: seq<Token>, target: seq<Argument>): (r: Outcome<Parsed>)
    requires ts != []
    ensures r.Done? ==> |r.value.rest| < |ts|
    decreases |ts|, 0
  {
    match ts[0]
    case Open =>
      var inner :- Items(Some(Open), ts[1..], [], Close);
      Done(Parsed(target + [List(inner.args)], inner.rest, Close))
    case OpenBracket =>
      var inner :- Items(Some(OpenBracket), ts[1..], [], CloseBracket);
      Done(Parsed(target + [Section(inner.args)], inner.rest, CloseBracket))
    case Quote => StringItem(ts, target)
    case Number(n) => Done(Parsed(target + [Int(n)], ts[1..], ts[0]))
    case Space => Done(Parsed(target, ts[1..], ts[0]))
    case Other(s) => Done(Parsed(target + [Atom(s)], ts[1..], ts[0]))
    case Colon => RangeItem(prev, ts, target)
    case _ => Throws
  }

  // The loop of `list` and `section`, up to the closing token.
  function Items(prev: Option<Token>, ts: seq<Token>, children: seq<Argument>, closer: Token): (r: Outcome<Parsed>)
    ensures r.Done? ==> |r.value.rest| < |ts| && r.value.last == closer
    decreases |ts|, 1
  {
    if ts == [] then Throws
    else if ts[0] == closer then Done(Parsed(children, ts[1..], closer))
    else
      var first :- Item(prev, ts, children);
      Items(Some(first.last), first.rest, first.args, closer)
  }

  function Head(prev: Option<Token>, ts: seq<Token>, target: seq<Argument>): Outcome<seq<Argument>>
    decreases |ts|
  {
    if ts == [] then Done(target)
    else
      var first :- Item(prev, ts, target);
      Head(Some(first.last), first.rest, first.args)
  }

  // Without any token the original dereferences a null pointer.
  function Parse(ts: seq<Token>): Outcome<seq<Argument>>
  {
    if ts == [] then Undefined else Head(None, ts, [])
  }

  // ---------------------------------------------------------------- balanced brackets

  // Quotes are closed, and outside quotes the brackets match by kind; `open` holds the
  // closing tokens that are still due, the innermost first.
  predicate Balanced(ts: seq<Token>, due: seq<Token>, quoted: bool)
  {
    if ts == [] then due == [] && !quoted
    else if quoted then Balanced(ts[1..], due, ts[0] != Quote)
    else
      match ts[0]
      case Open => Balanced(ts[1..], [Close] + due, false)
      case OpenBracket => Balanced(ts[1..], [CloseBracket] + due, false)
      case Close => due != [] && due[0] == Close && Balanced(ts[1..], due[1..], false)
      case CloseBracket => due != [] && due[0] == CloseBracket && Balanced(ts[1..], due[1..], false)
      case Quote => Balanced(ts[1..], due, true)
      case _ => Balanced(ts[1..], due, false)
  }

  // Outside quotes, every colon stands between a number and a number or a word.
  predicate Ranged(prev: Option<Token>, ts: seq<Token>, quoted: bool)
    decreases |ts|
  {
    if ts == [] then true
    else if ts[0] == Quote then Ranged(Some(Quote), ts[1..], !quoted)
    else
      && (quoted || ts[0] != Colon
          || (prev.Some? && prev.value.Number? && |ts| >= 2 && (ts[1].Number? || ts[1].Other?)))
      && Ranged(Some(ts[0]), ts[1..], quoted)
  }

  predicate WellFormed(prev: Option<Token>, ts: seq<Token>, due: seq<Token>)
  {
    Balanced(ts, due, false) && Ranged(prev, ts, false)
  }

  predicate Closer(t: Token)
  {
    t == Close || t == CloseBracket
  }

  // A number that was consumed last has left an argument.
  predicate Left(prev: Option<Token>, target: seq<Argument>)
  {
    prev.Some? && prev.value.Number? ==> target != []
  }

  lemma {:induction false} QuoteSkips(prev: Option<Token>, ts: seq<Token>, due: seq<Token>)
    ensures var i := QuoteEnd(ts);
            && (Balanced(ts, due, true) <==> i < |ts| && Balanced(ts[i + 1..], due, false))
            && (i < |ts| ==> (Ranged(prev, ts, true) <==> Ranged(Some(Quote), ts[i + 1..], false)))
    decreases |ts|
  {
    if ts != [] && ts[0] != Quote {
      QuoteSkips(Some(ts[0]), ts[1..], due);
      var i := QuoteEnd(ts[1..]);
      assert i < |ts| - 1 ==> ts[1..][i + 1..] == ts[i + 2..];
    }
  }

  // An item that is parsed is well formed in itself; one that is not leaves nothing well
  // formed.
  lemma {:induction false} ItemForms(prev: Option<Token>, ts: seq<Token>, target: seq<Argument>, due: seq<Token>)
    requires ts != [] && !Closer(ts[0]) && Left(prev, target)
    ensures var r := Item(prev, ts, target);
            && (r.Done? ==>
                  && Left(Some(r.value.last), r.value.args)
                  && (WellFormed(prev, ts, due) <==> WellFormed(Some(r.value.last), r.value.rest, due)))
            && (!r.Done? ==> !WellFormed(prev, ts, due))
    decreases |ts|, 0
  {
    hide QuoteEnd;
    match ts[0] {
      case Open =>
        ItemsForm(Some(Open), ts[1..], [], Close, due);
      case OpenBracket =>
        ItemsForm(Some(OpenBracket), ts[1..], [], CloseBracket, due);
      case Quote =>
        QuoteSkips(Some(Quote), ts[1..], due);
        var i := QuoteEnd(ts[1..]);
        if i < |ts| - 1 {
          assert ts[1..][i + 1..] == ts[i + 2..];
        }
      case Colon =>
        RangeForms(prev, ts, target, due);
      case _ =>
    }
  }

  lemma RangeForms(prev: Option<Token>, ts: seq<Token>, target: seq<Argument>, due: seq<Token>)
    requires ts != [] && ts[0] == Colon && Left(prev, target)
    ensures var r := RangeItem(prev, ts, target);
            && (r.Done? ==>
                  && Left(Some(r.value.last), r.value.args)
                  && (WellFormed(prev, ts, due) <==> WellFormed(Some(r.value.last), r.value.rest, due)))
            && (!r.Done? ==> !WellFormed(prev, ts, due))
  {
    if |ts| >= 2 && (ts[1].Number? || ts[1].Other?) {
      var next := ts[1..];
      assert next[1..] == ts[2..] && next[0] == ts[1];
      assert Ranged(Some(Colon), next, false) <==> Ranged(Some(ts[1]), ts[2..], false);
      assert Balanced(next, due, false) <==> Balanced(ts[2..], due, false);
    }
  }

  lemma {:induction false} ItemsForm(prev: Option<Token>, ts: seq<Token>, children: seq<Argument>, closer: Token, due: seq<Token>)
    requires Closer(closer) && Left(prev, children)
    ensures var r := Items(prev, ts, children, closer);
            && (r.Done? ==> (WellFormed(prev, ts, [closer] + due) <==> WellFormed(Some(closer), r.value.rest, due)))
            && (!r.Done? ==> !WellFormed(prev, ts, [closer] + due))
    decreases |ts|, 1
  {
    hide Item;
    var stack := [closer] + due;
    assert stack[0] == closer && stack[1..] == due;
    if ts != [] && ts[0] != closer {
      if Closer(ts[0]) {
        WrongCloser(prev, ts, children);
      } else {
        ItemForms(prev, ts, children, stack);
        var first := Item(prev, ts, children);
        if first.Done? {
          ItemsForm(Some(first.value.last), first.value.rest, first.value.args, closer, due);
        }
      }
    }
  }

  lemma WrongCloser(prev: Option<Token>, ts: seq<Token>, target: seq<Argument>)
    requires ts != [] && Closer(ts[0])
    ensures Item(prev, ts, target) == Throws
  {
  }

  lemma {:induction false} HeadForms(prev: Option<Token>, ts: seq<Token>, target: seq<Argument>)
    requires Left(prev, target)
    ensures Head(prev, ts, target).Done? <==> WellFormed(prev, ts, [])
    decreases |ts|
  {
    hide Item;
    if ts != [] {
      if Closer(ts[0]) {
        WrongCloser(prev, ts, target);
      } else {
        ItemForms(prev, ts, target, []);
        var first := Item(prev, ts, target);
        if first.Done? {
          HeadForms(Some(first.value.last), first.value.rest, first.value.args);
        }
      }
    }
  }

  // A non-empty token sequence is parsed exactly if its quotes are closed and, outside
  // quotes, its brackets match by kind and every colon stands between a number and a number
  // or a word.
  lemma ParsesIfBalanced(ts: seq<Token>)
    requires ts != []
    ensures Parse(ts).Done? <==> Balanced(ts, [], false) && Ranged(None, ts, false)
  {
    HeadForms(None, ts, []);
  }

  // ---------------------------------------------------------------- nesting

  // The arguments and the tokens in one alphabet, without the spaces between arguments.
  datatype Mark =
    MarkOpen | MarkClose | MarkOpenBracket | MarkCloseBracket | MarkInt(n: int) | MarkAtom(s: string) | MarkText(s: string)
    | MarkRange(from: int, to: int)

  function MarksOf(a: Argument): seq<Mark>
    decreases a, 0
  {
    match a
    case Int(n) => [MarkInt(n)]
    case Atom(s) => [MarkAtom(s)]
    case Quoted(s) => [MarkText(s)]
    case List(children) => [MarkOpen] + MarksOfAll(children) + [MarkClose]
    case Section(children) => [MarkOpenBracket] + MarksOfAll(children) + [MarkCloseBracket]
    case Range(from, to) => [MarkRange(from, to)]
  }

  function MarksOfAll(args: seq<Argument>): seq<Mark>
    decreases args, 1
  {
    if args == [] then [] else MarksOf(args[0]) + MarksOfAll(args[1..])
  }

  predicate ColonNext(ts: seq<Token>)
  {
    ts != [] && ts[0] == Colon
  }

  // What the token in front of a colon and the one behind it make of it.
  function RangeMark(prev: Option<Token>, to: Token): Mark
  {
    if prev.Some? && prev.value.Number? && to.Number? then MarkRange(prev.value.n, to.n) else MarkRange(-1, -1)
  }

  // A number in front of a colon is part of the range, and so is a range in front of another
  // colon, which takes over its end.
  function TokenMarks(prev: Option<Token>, ts: seq<Token>): seq<Mark>
    decreases |ts|
  {
    if ts == [] then []
    else
      var rest := TokenMarks(Some(ts[0]), ts[1..]);
      match ts[0]
      case Open => [MarkOpen] + rest
      case Close => [MarkClose] + rest
      case OpenBracket => [MarkOpenBracket] + rest
      case CloseBracket => [MarkCloseBracket] + rest
      case Number(n) => (if ColonNext(ts[1..]) then [] else [MarkInt(n)]) + rest
      case Other(s) => [MarkAtom(s)] + rest
      case Quote =>
        var i := QuoteEnd(ts[1..]);
        if i == |ts| - 1 then []
        else [MarkText(RenderAll(ts[1..][..i]))] + TokenMarks(Some(Quote), ts[i + 2..])
      case Colon =>
        if |ts| < 2 then []
        else
          (if ColonNext(ts[2..]) then [] else [RangeMark(prev, ts[1])]) + TokenMarks(Some(ts[1]), ts[2..])
      case _ => rest
  }

  lemma {:induction false} MarksAppend(args: seq<Argument>, a: Argument)
    ensures MarksOfAll(args + [a]) == MarksOfAll(args) + MarksOf(a)
  {
    hide MarksOf;
    if args == [] {
      assert [] + [a] == [a] && [a][1..] == [] && MarksOf(a) + [] == MarksOf(a) && [] + MarksOf(a) == MarksOf(a);
    } else {
      assert (args + [a])[1..] == args[1..] + [a];
      MarksAppend(args[1..], a);
      Mime.Assoc(MarksOf(args[0]), MarksOfAll(args[1..]), MarksOf(a));
    }
  }

  function MarkOf(closer: Token): Mark
  {
    if closer == Close then MarkClose else MarkCloseBracket
  }

  // The arguments without the one that a colon is going to take back.
  function Kept(args: seq<Argument>, ts: seq<Token>): seq<Argument>
  {
    if ColonNext(ts) && args != [] then args[..|args| - 1] else args
  }

  // Whatever comes behind an item, the parser can go on with it only if a colon has a number
  // in front of it.
  predicate GoesOn(last: Token, rest: seq<Token>)
  {
    ColonNext(rest) ==> last.Number?
  }

  // The arguments so far and the tokens still to come, in one alphabet.
  function AllMarks(args: seq<Argument>, prev: Option<Token>, ts: seq<Token>): seq<Mark>
  {
    MarksOfAll(Kept(args, ts)) + TokenMarks(prev, ts)
  }

  // An argument pushed for the tokens consumed.
  lemma Pushed(target: seq<Argument>, a: Argument, marks: seq<Mark>, rest: seq<Mark>)
    requires marks == MarksOf(a) + rest
    ensures MarksOfAll(target + [a]) + rest == MarksOfAll(target) + marks
  {
    hide MarksOf, MarksOfAll;
    MarksAppend(target, a);
    Mime.Assoc(MarksOfAll(target), MarksOf(a), rest);
  }

  lemma QuoteNests(prev: Option<Token>, ts: seq<Token>, target: seq<Argument>)
    requires ts != [] && ts[0] == Quote && StringItem(ts, target).Done?
    requires var p := StringItem(ts, target).value; GoesOn(p.last, p.rest)
    ensures var p := StringItem(ts, target).value;
            AllMarks(p.args, Some(p.last), p.rest) == AllMarks(target, prev, ts)
  {
    hide QuoteEnd, MarksOfAll, RenderAll;
    var i := QuoteEnd(ts[1..]);
    Pushed(target, Quoted(RenderAll(ts[1..][..i])), TokenMarks(prev, ts), TokenMarks(Some(Quote), ts[i + 2..]));
  }

  lemma NumberNests(prev: Option<Token>, ts: seq<Token>, target: seq<Argument>)
    requires ts != [] && ts[0].Number?
    ensures AllMarks(target + [Int(ts[0].n)], Some(ts[0]), ts[1..]) == AllMarks(target, prev, ts)
  {
    hide MarksOfAll;
    var rest := TokenMarks(Some(ts[0]), ts[1..]);
    if ColonNext(ts[1..]) {
      assert (target + [Int(ts[0].n)])[..|target|] == target && [] + rest == rest;
    } else {
      Pushed(target, Int(ts[0].n), TokenMarks(prev, ts), rest);
    }
  }

  lemma RangeNests(prev: Option<Token>, ts: seq<Token>, target: seq<Argument>)
    requires ts != [] && ts[0] == Colon && RangeItem(prev, ts, target).Done?
    requires var p := RangeItem(prev, ts, target).value; GoesOn(p.last, p.rest)
    ensures var p := RangeItem(prev, ts, target).value;
            AllMarks(p.args, Some(p.last), p.rest) == AllMarks(target, prev, ts)
  {
    hide MarksOfAll;
    var kept, rest := target[..|target| - 1], TokenMarks(Some(ts[1]), ts[2..]);
    var range := if ts[1].Number? then Range(prev.value.n, ts[1].n) else Range(-1, -1);
    assert RangeItem(prev, ts, target).value.args == kept + [range];
    if ColonNext(ts[2..]) {
      assert (kept + [range])[..|kept|] == kept && [] + rest == rest;
    } else {
      Pushed(kept, range, TokenMarks(prev, ts), rest);
    }
  }

  lemma {:induction false} ItemNests(prev: Option<Token>, ts: seq<Token>, target: seq<Argument>)
    requires ts != [] && Item(prev, ts, target).Done?
    requires var p := Item(prev, ts, target).value; GoesOn(p.last, p.rest)
    ensures var p := Item(prev, ts, target).value;
            AllMarks(p.args, Some(p.last), p.rest) == AllMarks(target, prev, ts)
    decreases |ts|, 0
  {
    hide QuoteEnd, MarksOfAll, RenderAll, StringItem, RangeItem;
    match ts[0] {
      case Open =>
        ItemsNest(Some(Open), ts[1..], [], Close);
        var inner := Items(Some(Open), ts[1..], [], Close).value;
        ListNests(prev, ts, target, List(inner.args), inner, [MarkOpen], Close);
      case OpenBracket =>
        ItemsNest(Some(OpenBracket), ts[1..], [], CloseBracket);
        var inner := Items(Some(OpenBracket), ts[1..], [], CloseBracket).value;
        ListNests(prev, ts, target, Section(inner.args), inner, [MarkOpenBracket], CloseBracket);
      case Quote =>
        QuoteNests(prev, ts, target);
      case Number(n) =>
        NumberNests(prev, ts, target);
      case Other(s) =>
        Pushed(target, Atom(s), TokenMarks(prev, ts), TokenMarks(Some(ts[0]), ts[1..]));
      case Colon =>
        RangeNests(prev, ts, target);
      case _ =>
    }
  }

  lemma ListNests(prev: Option<Token>, ts: seq<Token>, target: seq<Argument>, a: Argument, inner: Parsed, open: seq<Mark>,
                  closer: Token)
    requires ts != [] && ts[0] != Colon && TokenMarks(prev, ts) == open + TokenMarks(Some(ts[0]), ts[1..])
    requires MarksOf(a) == open + MarksOfAll(inner.args) + [MarkOf(closer)]
    requires MarksOfAll(inner.args) + ([MarkOf(closer)] + TokenMarks(Some(closer), inner.rest)) ==
             AllMarks([], Some(ts[0]), ts[1..])
    requires !ColonNext(inner.rest)
    ensures AllMarks(target + [a], Some(closer), inner.rest) == AllMarks(target, prev, ts)
  {
    hide MarksOf, MarksOfAll, TokenMarks;
    NoArguments();
    var rest := TokenMarks(Some(closer), inner.rest);
    Enclosed(open, MarksOfAll(inner.args), [MarkOf(closer)], rest, TokenMarks(Some(ts[0]), ts[1..]));
    Pushed(target, a, TokenMarks(prev, ts), rest);
  }

  lemma NoArguments()
    ensures MarksOfAll([]) == []
  {
  }

  lemma Enclosed(open: seq<Mark>, inner: seq<Mark>, close: seq<Mark>, rest: seq<Mark>, marks: seq<Mark>)
    requires inner + (close + rest) == [] + marks
    ensures open + marks == open + inner + close + rest
  {
    assert [] + marks == marks;
    assert open + (inner + (close + rest)) == open + inner + close + rest;
  }

  // Where a further item is parsed, the one before it could be gone on from.
  lemma NextGoesOn(last: Token, rest: seq<Token>, args: seq<Argument>)
    requires rest != [] && Item(Some(last), rest, args).Done?
    ensures GoesOn(last, rest)
  {
  }

  lemma {:induction false} ItemsNest(prev: Option<Token>, ts: seq<Token>, children: seq<Argument>, closer: Token)
    requires Closer(closer) && Items(prev, ts, children, closer).Done?
    ensures var p := Items(prev, ts, children, closer).value;
            MarksOfAll(p.args) + ([MarkOf(closer)] + TokenMarks(Some(closer), p.rest)) == AllMarks(children, prev, ts)
    decreases |ts|, 1
  {
    hide Item, MarksOfAll, QuoteEnd;
    if ts[0] != closer {
      var first := Item(prev, ts, children).value;
      if first.rest[0] != closer {
        NextGoesOn(first.last, first.rest, first.args);
      }
      ItemNests(prev, ts, children);
      ItemsNest(Some(first.last), first.rest, first.args, closer);
    }
  }

  lemma {:induction false} HeadNests(prev: Option<Token>, ts: seq<Token>, target: seq<Argument>)
    requires Head(prev, ts, target).Done?
    ensures MarksOfAll(Head(prev, ts, target).value) == AllMarks(target, prev, ts)
    decreases |ts|
  {
    hide Item, MarksOfAll, QuoteEnd;
    if ts == [] {
      assert MarksOfAll(target) + [] == MarksOfAll(target);
    } else {
      var first := Item(prev, ts, target).value;
      if first.rest != [] {
        NextGoesOn(first.last, first.rest, first.args);
      }
      ItemNests(prev, ts, target);
      HeadNests(Some(first.last), first.rest, first.args);
    }
  }

  // The nesting of lists and sections mirrors that of the brackets, ranges included: written
  // out again, the arguments are the tokens, without the spaces between arguments.
  lemma NestingMirrorsBrackets(ts: seq<Token>)
    requires Parse(ts).Done?
    ensures MarksOfAll(Parse(ts).value) == TokenMarks(None, ts)
  {
    hide Head, TokenMarks;
    HeadNests(None, ts, []);
    NoArguments();
    assert [] + TokenMarks(None, ts) == TokenMarks(None, ts);
  }
}
