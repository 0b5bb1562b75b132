// The argument parser as it runs: an index into the tokens that only ever advances
// (lib/imap/IMAPCommandParser.src.cc:342-617).
module ImapParserLoop {
  import opened Text
  import opened Decimal
  import opened ImapLexer
  import opened ImapParser
  import Mime

  class Parser {
    const p_Tokens: seq<Token>
    var p_TokenIndex: int

    constructor (tokens: seq<Token>)
      ensures p_Tokens == tokens && p_TokenIndex == -1
    {
      p_Tokens, p_TokenIndex := tokens, -1;
    }

    // Is there a current token?
    predicate Current()
      reads this
    {
      0 <= p_TokenIndex < |p_Tokens|
    }

    function Previous(): Option<Token>
      requires Current()
      reads this
    {
      if p_TokenIndex > 0 then Some(p_Tokens[p_TokenIndex - 1]) else None
    }

    // The token consumed last is the current one, and `r` says what was made of the tokens.
    ghost predicate Reached(r: Outcome<seq<Argument>>, goal: Outcome<Parsed>)
      reads this
    {
      match goal
      case Done(p) =>
        && r == Done(p.args) && Current()
        && p_Tokens[p_TokenIndex] == p.last && p_Tokens[p_TokenIndex + 1..] == p.rest
      case Throws => r == Throws
      case Undefined => r == Undefined
    }

    method Advance()
      requires -1 <= p_TokenIndex < |p_Tokens|
      modifies this
      ensures p_TokenIndex == old(p_TokenIndex) + 1
    {
      p_TokenIndex := p_TokenIndex + 1;
    }

    method Parse() returns (r: Outcome<seq<Argument>>)
      requires p_TokenIndex == -1
      modifies this
      ensures r == ImapParser.Parse(p_Tokens)
    {
      Advance();
      if !Current() {
        return Undefined;
      }
      assert p_Tokens[0..] == p_Tokens;
      r := Analyze([]);
    }

    // `analyze` in the head: item after item to the end of the tokens.
    method Analyze(target: seq<Argument>) returns (r: Outcome<seq<Argument>>)
      requires Current()
      modifies this
      ensures r == Head(old(Previous()), p_Tokens[old(p_TokenIndex)..], target)
      decreases |p_Tokens| - p_TokenIndex, 3
    {
      hide Item;
      ghost var ts := p_Tokens[p_TokenIndex..];
      ghost var goal := Item(Previous(), ts, target);
      r := AnalyzeOne(target);
      if !r.Done? {
        return;
      }
      Advance();
      if Current() {
        r := Analyze(r.value);
      } else {
        HeadOfNothing(Some(goal.value.last), goal.value.args);
      }
    }

    lemma HeadOfNothing(prev: Option<Token>, target: seq<Argument>)
      ensures Head(prev, [], target) == Done(target)
    {
    }

    method AnalyzeOne(target: seq<Argument>) returns (r: Outcome<seq<Argument>>)
      requires Current()
      modifies this
      ensures p_TokenIndex >= old(p_TokenIndex)
      ensures Reached(r, Item(old(Previous()), p_Tokens[old(p_TokenIndex)..], target))
      decreases |p_Tokens| - p_TokenIndex, 2
    {
      hide Items, StringItem, RangeItem;
      match p_Tokens[p_TokenIndex] {
        case Open =>
          r := ListItem(target, Close);
        case OpenBracket =>
          r := ListItem(target, CloseBracket);
        case Quote =>
          r := StringArgument(target);
        case Number(n) =>
          r := Done(target + [Int(n)]);
        case Space =>
          r := Done(target);
        case Other(s) =>
          r := Done(target + [Atom(s)]);
        case Colon =>
          r := RangeArgument(target);
        case _ =>
          r := Throws;
      }
    }

    // `list` and `section`, which differ in the closing token and the kind of argument.
    method ListItem(target: seq<Argument>, closer: Token) returns (r: Outcome<seq<Argument>>)
      requires Current() && Closer(closer)
      requires p_Tokens[p_TokenIndex] == if closer == Close then Open else OpenBracket
      modifies this
      ensures p_TokenIndex >= old(p_TokenIndex)
      ensures Reached(r, Item(old(Previous()), p_Tokens[old(p_TokenIndex)..], target))
      decreases |p_Tokens| - p_TokenIndex, 1
    {
      hide Item, Items;
      ghost var ts := p_Tokens[p_TokenIndex..];
      assert ts[1..] == p_Tokens[p_TokenIndex + 1..];
      ListGoal(Previous(), ts, target, closer);
      var inner := Children(closer);
      if !inner.Done? {
        return if inner.Throws? then Throws else Undefined;
      }
      return Done(target + [if closer == Close then List(inner.value) else Section(inner.value)]);
    }

    // Their loop, from the opening token to the closing one.
    method Children(closer: Token) returns (r: Outcome<seq<Argument>>)
      requires Current()
      modifies this
      ensures p_TokenIndex >= old(p_TokenIndex)
      ensures Reached(r, Items(Some(p_Tokens[old(p_TokenIndex)]), p_Tokens[old(p_TokenIndex) + 1..], [], closer))
      decreases |p_Tokens| - p_TokenIndex, 0
    {
      hide Item, Items;
      ghost var start := p_TokenIndex;
      ghost var goal := Items(Some(p_Tokens[start]), p_Tokens[start + 1..], [], closer);
      var children: seq<Argument> := [];
      while true
        invariant start <= p_TokenIndex && Current()
        invariant Items(Some(p_Tokens[p_TokenIndex]), p_Tokens[p_TokenIndex + 1..], children, closer) == goal
        decreases |p_Tokens| - p_TokenIndex
      {
        ghost var prev := p_Tokens[p_TokenIndex];
        ItemsStep(Some(prev), p_Tokens[p_TokenIndex + 1..], children, closer);
        Advance();
        if p_TokenIndex == |p_Tokens| {
          return Throws;
        }
        assert p_Tokens[p_TokenIndex..][1..] == p_Tokens[p_TokenIndex + 1..];
        if p_Tokens[p_TokenIndex] == closer {
          return Done(children);
        }
        if p_Tokens[p_TokenIndex] == Space {
          SpaceItem(Some(prev), p_Tokens[p_TokenIndex..], children);
          continue;
        }
        var inner := AnalyzeOne(children);
        if !inner.Done? {
          return if inner.Throws? then Throws else Undefined;
        }
        children := inner.value;
      }
    }

    lemma SpaceItem(prev: Option<Token>, ts: seq<Token>, target: seq<Argument>)
      requires ts != [] && ts[0] == Space
      ensures Item(prev, ts, target) == Done(Parsed(target, ts[1..], Space))
    {
    }

    lemma ItemsStep(prev: Option<Token>, ts: seq<Token>, children: seq<Argument>, closer: Token)
      ensures Items(prev, ts, children, closer) ==
              if ts == [] then Throws
              else if ts[0] == closer then Done(Parsed(children, ts[1..], closer))
              else
                var first := Item(prev, ts, children);
                if first.Done? then Items(Some(first.value.last), first.value.rest, first.value.args, closer)
                else if first.Throws? then Throws else Undefined
    {
      hide Item;
    }

    lemma ListGoal(prev: Option<Token>, ts: seq<Token>, target: seq<Argument>, closer: Token)
      requires ts != [] && Closer(closer) && ts[0] == if closer == Close then Open else OpenBracket
      ensures var inner := Items(Some(ts[0]), ts[1..], [], closer);
              Item(prev, ts, target) ==
              if inner.Done? then
                Done(Parsed(target + [if closer == Close then List(inner.value.args) else Section(inner.value.args)],
                            inner.value.rest, closer))
              else if inner.Throws? then Throws else Undefined
    {
      hide Items;
    }

    method StringArgument(target: seq<Argument>) returns (r: Outcome<seq<Argument>>)
      requires Current() && p_Tokens[p_TokenIndex] == Quote
      modifies this
      ensures p_TokenIndex >= old(p_TokenIndex)
      ensures Reached(r, StringItem(p_Tokens[old(p_TokenIndex)..], target))
    {
      hide QuoteEnd, RenderAll;
      ghost var start := p_TokenIndex + 1;
      ghost var ts := p_Tokens[start - 1..];
      assert ts[1..] == p_Tokens[start..];
      var content := "";
      RenderNothing();
      assert p_Tokens[start..p_TokenIndex + 1] == [];
      while true
        invariant start - 1 <= p_TokenIndex && Current()
        invariant forall k :: start <= k <= p_TokenIndex ==> p_Tokens[k] != Quote
        invariant content == RenderAll(p_Tokens[start..p_TokenIndex + 1])
        decreases |p_Tokens| - p_TokenIndex
      {
        Advance();
        if p_TokenIndex == |p_Tokens| {
          QuoteEndIs(p_Tokens[start..], p_TokenIndex - start);
          return Throws;
        }
        if p_Tokens[p_TokenIndex] == Quote {
          QuoteEndIs(p_Tokens[start..], p_TokenIndex - start);
          assert p_Tokens[start..][..p_TokenIndex - start] == p_Tokens[start..p_TokenIndex];
          assert ts[p_TokenIndex - start + 2..] == p_Tokens[p_TokenIndex + 1..];
          return Done(target + [Quoted(content)]);
        }
        RenderSnoc(p_Tokens[start..p_TokenIndex], p_Tokens[p_TokenIndex]);
        assert p_Tokens[start..p_TokenIndex + 1] == p_Tokens[start..p_TokenIndex] + [p_Tokens[p_TokenIndex]];
        content := content + Render(p_Tokens[p_TokenIndex]);
      }
    }

    lemma QuoteEndIs(ts: seq<Token>, i: nat)
      requires i <= |ts| && (i < |ts| ==> ts[i] == Quote) && forall k :: 0 <= k < i ==> ts[k] != Quote
      ensures QuoteEnd(ts) == i
    {
    }

    lemma RenderNothing()
      ensures RenderAll([]) == ""
    {
    }

    lemma {:induction false} RenderSnoc(ts: seq<Token>, t: Token)
      ensures RenderAll(ts + [t]) == RenderAll(ts) + Render(t)
      decreases |ts|
    {
      hide Render;
      if ts == [] {
        assert [] + [t] == [t] && [t][1..] == [] && Render(t) + "" == Render(t) && "" + Render(t) == Render(t);
      } else {
        assert (ts + [t])[1..] == ts[1..] + [t];
        RenderSnoc(ts[1..], t);
        Mime.Assoc(Render(ts[0]), RenderAll(ts[1..]), Render(t));
      }
    }

    method RangeArgument(target: seq<Argument>) returns (r: Outcome<seq<Argument>>)
      requires Current()
      modifies this
      ensures p_TokenIndex >= old(p_TokenIndex)
      ensures Reached(r, RangeItem(old(Previous()), p_Tokens[old(p_TokenIndex)..], target))
    {
      ghost var ts := p_Tokens[p_TokenIndex..];
      if |target| < 1 {
        return Throws;
      }
      if p_TokenIndex == 0 || !p_Tokens[p_TokenIndex - 1].Number? {
        return Throws;
      }
      if p_TokenIndex + 1 == |p_Tokens| {
        return Undefined;
      }
      var next := p_Tokens[p_TokenIndex + 1];
      assert next == ts[1] && ts[2..] == p_Tokens[p_TokenIndex + 2..];
      if !next.Number? && !next.Other? {
        return Throws;
      }
      var from := if next.Other? then -1 else p_Tokens[p_TokenIndex - 1].n;
      var to := if next.Other? then -1 else next.n;
      Advance();
      return Done(target[..|target| - 1] + [Range(from, to)]);
    }
  }
}
