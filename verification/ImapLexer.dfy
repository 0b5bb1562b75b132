// The tokens of the argument text of an IMAP command (lib/imap/IMAPCommandParser.src.cc:187-330).
// The original names the opening brackets RPAREN and RBRACKET and the closing ones LPAREN
// and LBRACKET; here they are named by what they are.
module ImapLexer {
  import opened Text
  import opened Decimal
  import Mime

  datatype Token = Open | Close | OpenBracket | CloseBracket | Quote | Space | Colon | Number(n: int) | Other(s: string)

  const INT32_MAX := 0x7FFF_FFFF

  const NUL: char := 0 as char

  function Single(c: char): Option<Token>
  {
    if c == ')' then Some(Close)
    else if c == '(' then Some(Open)
    else if c == '"' then Some(Quote)
    else if c == '[' then Some(OpenBracket)
    else if c == ']' then Some(CloseBracket)
    else if c == ' ' then Some(Space)
    else if c == ':' then Some(Colon)
    else None
  }

  // What ends a token of other characters; neither a digit nor a ':' does.
  predicate EndsOther(c: char)
  {
    c == ' ' || c == '[' || c == ']' || c == '(' || c == ')' || c == '"' || c == NUL
  }

  function OtherRun(s: string): (n: nat)
    ensures n <= |s| && forall i :: 0 <= i < n ==> !EndsOther(s[i])
    ensures n < |s| ==> EndsOther(s[n])
  {
    if s == "" || EndsOther(s[0]) then 0 else 1 + OtherRun(s[1..])
  }

  // The token at the front of a text that is not at its end, and its length. A number that
  // does not fit makes `stoi` throw.
  function FirstToken(s: string): (r: Option<(Token, nat)>)
    requires s != "" && s[0] != NUL
    ensures r.Some? ==> 0 < r.value.1 <= |s|
  {
    if Single(s[0]).Some? then Some((Single(s[0]).value, 1))
    else if IsDigit(s[0]) then
      var n := DigitRun(s);
      if Value(s[..n]) > INT32_MAX then None else Some((Number(Value(s[..n])), n))
    else
      var n := OtherRun(s);
      Some((Other(s[..n]), n))
  }

  // A NUL ends the text.
  function Lex(s: string): Outcome<seq<Token>>
    decreases |s|
  {
    if s == "" || s[0] == NUL then Done([])
    else
      var first := FirstToken(s);
      if first.None? then Throws
      else
        var rest :- Lex(s[first.value.1..]);
        Done([first.value.0] + rest)
  }

  class Lexer {
    const l_Text: string
    var l_Pos: int
    var l_CurrentChar: char
    var l_Tokens: seq<Token>

    // The current character is the one at the position, or NUL behind the end.
    predicate Valid()
      reads this
    {
      0 <= l_Pos && l_CurrentChar == if l_Pos < |l_Text| then l_Text[l_Pos] else NUL
    }

    function Rest(): string
      requires Valid()
      reads this
    {
      if l_Pos < |l_Text| then l_Text[l_Pos..] else ""
    }

    constructor (text: string)
      ensures l_Text == text && l_Tokens == [] && Valid() && Rest() == text
    {
      l_Text, l_Pos, l_CurrentChar, l_Tokens := text, -1, NUL, [];
      new;
      l_Pos := l_Pos + 1;
      l_CurrentChar := if l_Pos < |l_Text| then l_Text[l_Pos] else NUL;
      assert l_Text[0..] == l_Text;
    }

    method Advance()
      requires Valid() && Rest() != ""
      modifies this`l_Pos, this`l_CurrentChar
      ensures Valid() && Rest() == old(Rest())[1..] && l_Pos == old(l_Pos) + 1
    {
      l_Pos := l_Pos + 1;
      if l_Pos < |l_Text| {
        l_CurrentChar := l_Text[l_Pos];
      } else {
        l_CurrentChar := NUL;
      }
    }

    method MakeNumber() returns (ok: bool)
      requires Valid() && Rest() != "" && IsDigit(Rest()[0])
      modifies this
      ensures Valid()
      ensures var first := FirstToken(old(Rest()));
              ok == first.Some? && (ok ==> l_Tokens == old(l_Tokens) + [first.value.0] && Rest() == old(Rest())[first.value.1..])
    {
      hide Value;
      ghost var s := Rest();
      var numBuf := "";
      assert s[0..] == s;
      while IsDigit(l_CurrentChar)
        invariant Valid() && |numBuf| <= |s| && Rest() == s[|numBuf|..] && numBuf == s[..|numBuf|]
        invariant forall k :: 0 <= k < |numBuf| ==> IsDigit(s[k])
        invariant l_Tokens == old(l_Tokens)
        decreases |Rest()|
      {
        numBuf := numBuf + [l_CurrentChar];
        Advance();
      }
      RunIs(s, |numBuf|);
      if Value(numBuf) > INT32_MAX {
        return false;
      }
      l_Tokens := l_Tokens + [Number(Value(numBuf))];
      return true;
    }

    method MakeOther()
      requires Valid() && Rest() != "" && !EndsOther(Rest()[0]) && !IsDigit(Rest()[0]) && Rest()[0] != ':'
      modifies this
      ensures Valid()
      ensures var first := FirstToken(old(Rest()));
              first.Some? && l_Tokens == old(l_Tokens) + [first.value.0] && Rest() == old(Rest())[first.value.1..]
    {
      ghost var s := Rest();
      var otherBuf := "";
      assert s[0..] == s;
      while !EndsOther(l_CurrentChar)
        invariant Valid() && |otherBuf| <= |s| && Rest() == s[|otherBuf|..] && otherBuf == s[..|otherBuf|]
        invariant forall k :: 0 <= k < |otherBuf| ==> !EndsOther(s[k])
        invariant l_Tokens == old(l_Tokens)
        decreases |Rest()|
      {
        otherBuf := otherBuf + [l_CurrentChar];
        Advance();
      }
      OtherIs(s, |otherBuf|);
      l_Tokens := l_Tokens + [Other(otherBuf)];
    }

    method MakeTokens() returns (ok: bool)
      requires Valid() && l_Tokens == []
      modifies this
      ensures ok == Lex(old(Rest())).Done?
      ensures ok ==> Lex(old(Rest())) == Done(l_Tokens)
    {
      hide FirstToken, Lex;
      ghost var s := Rest();
      PrefixedNothing(Lex(s));
      while l_CurrentChar != NUL
        invariant Valid() && Lex(s) == Prefixed(l_Tokens, Lex(Rest()))
        decreases |Rest()|
      {
        ghost var rest := Rest();
        ghost var before := l_Tokens;
        LexStep(rest);
        SingleFirst(rest);
        var single := Single(l_CurrentChar);
        if single.Some? {
          l_Tokens := l_Tokens + [single.value];
          Advance();
        } else if IsDigit(l_CurrentChar) {
          var fits := MakeNumber();
          if !fits {
            return false;
          }
        } else {
          MakeOther();
        }
        PrefixedStep(before, FirstToken(rest).value.0, Lex(Rest()));
      }
      LexEnd(Rest());
      ok := true;
      assert l_Tokens + [] == l_Tokens;
    }
  }

  function Prefixed(done: seq<Token>, rest: Outcome<seq<Token>>): Outcome<seq<Token>>
  {
    if rest.Done? then Done(done + rest.value) else rest
  }

  lemma PrefixedNothing(rest: Outcome<seq<Token>>)
    ensures Prefixed([], rest) == rest
  {
    assert rest.Done? ==> [] + rest.value == rest.value;
  }

  lemma PrefixedStep(done: seq<Token>, t: Token, rest: Outcome<seq<Token>>)
    ensures Prefixed(done + [t], rest) == Prefixed(done, if rest.Done? then Done([t] + rest.value) else rest)
  {
    if rest.Done? {
      Mime.Assoc(done, [t], rest.value);
    }
  }

  lemma LexStep(s: string)
    requires s != "" && s[0] != NUL
    ensures var first := FirstToken(s);
            Lex(s) == if first.None? then Throws
                      else if Lex(s[first.value.1..]).Done? then Done([first.value.0] + Lex(s[first.value.1..]).value)
                      else Lex(s[first.value.1..])
  {
    hide FirstToken;
  }

  lemma LexEnd(s: string)
    requires s == "" || s[0] == NUL
    ensures Lex(s) == Done([])
  {
  }

  lemma SingleFirst(s: string)
    requires s != "" && s[0] != NUL
    ensures Single(s[0]).Some? ==> FirstToken(s) == Some((Single(s[0]).value, 1))
    ensures Single(s[0]).None? ==> !EndsOther(s[0]) && s[0] != ':'
  {
  }

  lemma RunIs(s: string, n: nat)
    requires n <= |s| && (n < |s| ==> !IsDigit(s[n])) && forall k :: 0 <= k < n ==> IsDigit(s[k])
    ensures DigitRun(s) == n
  {
  }

  lemma OtherIs(s: string, n: nat)
    requires n <= |s| && (n < |s| ==> EndsOther(s[n])) && forall k :: 0 <= k < n ==> !EndsOther(s[k])
    ensures OtherRun(s) == n
  {
  }

  // ---------------------------------------------------------------- rendering

  function Render(t: Token): string
  {
    match t
    case Open => "("
    case Close => ")"
    case OpenBracket => "["
    case CloseBracket => "]"
    case Quote => "\""
    case Space => " "
    case Colon => ":"
    case Number(n) => ToString(n)
    case Other(s) => s
  }

  function RenderAll(ts: seq<Token>): string
  {
    if ts == [] then "" else Render(ts[0]) + RenderAll(ts[1..])
  }

  // Does the token at the front start with a digit 0 that is not all of it?
  predicate LeadingZero(s: string)
  {
    s != "" && s[0] == '0' && DigitRun(s) > 1
  }

  // No NUL, and no number token with leading zeros.
  predicate Faithful(s: string)
    decreases |s|
  {
    s == "" ||
    (&& s[0] != NUL && !LeadingZero(s)
     && (FirstToken(s).Some? ==> Faithful(s[FirstToken(s).value.1..])))
  }

  lemma {:induction false} ValueIsSmall(s: string)
    requires forall i :: 0 <= i < |s| ==> IsDigit(s[i])
    ensures s != "" ==> |Digits(Value(s))| <= |s|
    ensures s != "" && s[0] != '0' ==> Value(s) > 0 && Digits(Value(s)) == s
    ensures |s| > 1 && s[0] == '0' ==> |Digits(Value(s))| < |s|
  {
    if |s| == 1 {
      assert s[..0] == "" && Value(s[..0]) == 0;
      assert IsDigit(s[0]);
      assert Value(s) == s[0] as int - '0' as int;
      assert Digits(Value(s)) == s;
    } else if s != "" {
      var init, d := s[..|s| - 1], s[|s| - 1] as int - '0' as int;
      assert IsDigit(s[|s| - 1]);
      ValueIsSmall(init);
      assert Value(s) == Value(init) * 10 + d;
      DigitsStep(Value(init), d);
      assert s == init + [s[|s| - 1]];
      if |init| == 1 && init[0] == '0' {
        assert init[..0] == "" && Value(init) == 0;
      }
    }
  }

  lemma DigitsStep(v: nat, d: int)
    requires 0 <= d < 10
    ensures v > 0 ==> Digits(v * 10 + d) == Digits(v) + ['0' + d as char]
    ensures v == 0 ==> Digits(v * 10 + d) == ['0' + d as char]
  {
    assert (v * 10 + d) / 10 == v && (v * 10 + d) % 10 == d;
  }

  lemma FirstTokenRenders(s: string)
    requires s != "" && s[0] != NUL && FirstToken(s).Some?
    ensures var (t, n) := FirstToken(s).value;
            |Render(t)| <= n && (Render(t) == s[..n] <==> !LeadingZero(s)) && (LeadingZero(s) ==> |Render(t)| < n)
  {
    hide Value, Digits;
    if Single(s[0]).None? && IsDigit(s[0]) {
      var n := DigitRun(s);
      RunStarts(s);
      ValueIsSmall(s[..n]);
      ZeroAlone();
    }
  }

  lemma RunStarts(s: string)
    requires s != "" && IsDigit(s[0])
    ensures DigitRun(s) >= 1 && s[..DigitRun(s)][0] == s[0]
    ensures DigitRun(s) == 1 ==> s[..DigitRun(s)] == [s[0]]
  {
  }

  lemma ZeroAlone()
    ensures Value("0") == 0 && Digits(0) == "0"
  {
    assert "0"[..0] == "";
    assert IsDigit("0"[0]);
  }

  // Rendering the tokens gives back the text exactly if it holds no NUL and none of its
  // numbers has leading zeros.
  lemma {:induction false} RenderingRestores(s: string)
    requires Lex(s).Done?
    ensures |RenderAll(Lex(s).value)| <= |s|
    ensures RenderAll(Lex(s).value) == s <==> Faithful(s)
    ensures !Faithful(s) ==> |RenderAll(Lex(s).value)| < |s|
    decreases |s|
  {
    hide FirstToken, LeadingZero, Render;
    if s != "" && s[0] != NUL {
      LexStep(s);
      var (t, n) := FirstToken(s).value;
      FirstTokenRenders(s);
      RenderingRestores(s[n..]);
      var rest := Lex(s[n..]).value;
      assert ([t] + rest)[1..] == rest;
      Mime.Cut(s, [], n);
      if Faithful(s) {
        assert Render(t) + RenderAll(rest) == s[..n] + s[n..];
      }
    }
  }

  // ---------------------------------------------------------------- which tokens there are

  // A run of other characters: it starts with no digit and no token of one character, and
  // holds nothing that ends it.
  predicate Wordlike(s: string)
  {
    && s != "" && !('0' <= s[0] <= '9') && s[0] != ':'
    && ' ' !in s && '[' !in s && ']' !in s && '(' !in s && ')' !in s && '"' !in s && NUL !in s
  }

  predicate ProperToken(t: Token)
  {
    match t
    case Number(n) => 0 <= n <= 0x7FFF_FFFF
    case Other(s) => Wordlike(s)
    case _ => true
  }

  // What may stand behind a token: a number ends where its digits end, and a run of other
  // characters at a space, a bracket, a parenthesis or a quote only.
  predicate Follows(t: Token, u: Token)
  {
    && (t.Number? ==> !u.Number?)
    && (t.Other? ==> u in {Open, Close, OpenBracket, CloseBracket, Quote, Space})
  }

  predicate Proper(ts: seq<Token>)
  {
    && (forall k :: 0 <= k < |ts| ==> ProperToken(ts[k]))
    && forall k :: 0 <= k < |ts| - 1 ==> Follows(ts[k], ts[k + 1])
  }

  lemma {:induction false} RenderedStart(ts: seq<Token>)
    requires ts != [] && Proper(ts)
    ensures RenderAll(ts) != "" && Render(ts[0]) != "" && RenderAll(ts)[0] == Render(ts[0])[0] && RenderAll(ts)[0] != NUL
    ensures !ts[0].Number? ==> !IsDigit(RenderAll(ts)[0])
    ensures ts[0] in {Open, Close, OpenBracket, CloseBracket, Quote, Space} ==> EndsOther(RenderAll(ts)[0])
  {
    hide Digits;
    assert ProperToken(ts[0]);
  }

  lemma NumberComesBack(n: nat, rest: string)
    requires n <= INT32_MAX && (rest != "" ==> !IsDigit(rest[0]))
    ensures var s := Digits(n) + rest;
            s != "" && IsDigit(s[0]) && FirstToken(s) == Some((Number(n), |Digits(n)|))
  {
    hide Digits, Value;
    var d := Digits(n);
    var s := d + rest;
    assert IsDigit(d[0]) && s[0] == d[0];
    assert forall k :: 0 <= k < |d| ==> s[k] == d[k] && IsDigit(d[k]);
    RunIs(s, |d|);
    assert s[..|d|] == d;
    ValueOfDigits(n);
  }

  lemma OtherComesBack(w: string, rest: string)
    requires Wordlike(w) && (rest != "" ==> EndsOther(rest[0]))
    ensures FirstToken(w + rest) == Some((Other(w), |w|))
  {
    var s := w + rest;
    assert w[0] in w;
    forall k | 0 <= k < |w| ensures !EndsOther(s[k]) {
      assert s[k] == w[k] && w[k] in w;
    }
    OtherIs(s, |w|);
    assert s[..|w|] == w;
  }

  lemma FirstComesBack(ts: seq<Token>)
    requires ts != [] && Proper(ts)
    ensures var s := RenderAll(ts);
            && s != "" && s[0] != NUL && FirstToken(s) == Some((ts[0], |Render(ts[0])|))
            && s[|Render(ts[0])|..] == RenderAll(ts[1..])
  {
    hide FirstToken, RenderAll, Render, Proper;
    var rest := RenderAll(ts[1..]);
    RenderedStart(ts);
    RestStarts(ts);
    AllRendered(ts);
    FirstRead(ts, rest);
  }

  lemma AllRendered(ts: seq<Token>)
    requires ts != []
    ensures RenderAll(ts) == Render(ts[0]) + RenderAll(ts[1..])
    ensures RenderAll(ts)[|Render(ts[0])|..] == RenderAll(ts[1..])
  {
    hide Render;
    assert (Render(ts[0]) + RenderAll(ts[1..]))[|Render(ts[0])|..] == RenderAll(ts[1..]);
  }

  lemma FirstRead(ts: seq<Token>, rest: string)
    requires ts != [] && Proper(ts)
    requires rest != "" ==> (ts[0].Number? ==> !IsDigit(rest[0])) && (ts[0].Other? ==> EndsOther(rest[0]))
    ensures FirstToken(Render(ts[0]) + rest) == Some((ts[0], |Render(ts[0])|))
  {
    hide Digits, FirstToken, RenderAll, Wordlike, EndsOther;
    assert ProperToken(ts[0]);
    match ts[0]
    case Number(n) => NumberComesBack(n, rest);
    case Other(w) => OtherComesBack(w, rest);
    case _ => SingleComesBack(ts[0], rest);
  }

  lemma SingleComesBack(t: Token, rest: string)
    requires !t.Number? && !t.Other?
    ensures FirstToken(Render(t) + rest) == Some((t, 1)) && |Render(t)| == 1
  {
    var s := Render(t) + rest;
    assert s[0] == Render(t)[0];
  }

  // What may stand behind the first token ends it.
  lemma RestStarts(ts: seq<Token>)
    requires ts != [] && Proper(ts)
    ensures var rest := RenderAll(ts[1..]);
            rest != "" ==> (ts[0].Number? ==> !IsDigit(rest[0])) && (ts[0].Other? ==> EndsOther(rest[0]))
  {
    hide Digits, FirstToken, Wordlike, Render, RenderAll;
    if |ts| > 1 {
      assert Follows(ts[0], ts[1]);
      TailIsProper(ts);
      RenderedStart(ts[1..]);
    } else {
      assert ts[1..] == [];
      NothingRenders();
    }
  }

  lemma NothingRenders()
    ensures RenderAll([]) == ""
  {
  }

  lemma TailIsProper(ts: seq<Token>)
    requires ts != [] && Proper(ts)
    ensures Proper(ts[1..])
  {
    hide ProperToken, Follows;
    forall k | 0 <= k < |ts[1..]| ensures ProperToken(ts[1..][k]) {
      assert ts[1..][k] == ts[k + 1];
    }
    forall k | 0 <= k < |ts[1..]| - 1 ensures Follows(ts[1..][k], ts[1..][k + 1]) {
      assert ts[1..][k] == ts[k + 1] && ts[1..][k + 1] == ts[k + 2];
    }
  }

  // Every sequence of tokens that can stand side by side comes back from its text.
  lemma {:induction false} TokensComeBack(ts: seq<Token>)
    requires Proper(ts)
    ensures Lex(RenderAll(ts)) == Done(ts)
    decreases |ts|
  {
    hide FirstToken, Render, Proper;
    if ts == [] {
      LexEnd("");
    } else {
      FirstComesBack(ts);
      LexStep(RenderAll(ts));
      TailIsProper(ts);
      TokensComeBack(ts[1..]);
      assert ts == [ts[0]] + ts[1..];
    }
  }

  lemma FirstIsProper(s: string)
    requires s != "" && s[0] != NUL && FirstToken(s).Some?
    ensures var (t, n) := FirstToken(s).value;
            && ProperToken(t)
            && (n < |s| && s[n] != NUL && FirstToken(s[n..]).Some? ==> Follows(t, FirstToken(s[n..]).value.0))
  {
    hide Value;
    var (t, n) := FirstToken(s).value;
    if t.Other? {
      assert !EndsOther(s[0]);
      forall c | c in t.s ensures !EndsOther(c) {
        var k :| 0 <= k < |t.s| && t.s[k] == c;
        assert t.s[k] == s[k];
      }
    }
  }

  // And the lexer delivers no other sequences.
  lemma {:induction false} TokensAreProper(s: string)
    requires Lex(s).Done?
    ensures Proper(Lex(s).value)
    ensures Lex(s).value != [] ==> s != "" && s[0] != NUL && FirstToken(s).Some? && Lex(s).value[0] == FirstToken(s).value.0
    decreases |s|
  {
    hide FirstToken, ProperToken, Follows;
    if s != "" && s[0] != NUL {
      LexStep(s);
      FirstIsProper(s);
      var (t, n) := FirstToken(s).value;
      TokensAreProper(s[n..]);
      var rest := Lex(s[n..]).value;
      var ts := [t] + rest;
      forall k | 0 <= k < |ts| ensures ProperToken(ts[k]) {
        assert k > 0 ==> ts[k] == rest[k - 1];
      }
      forall k | 0 <= k < |ts| - 1 ensures Follows(ts[k], ts[k + 1]) {
        assert ts[k + 1] == rest[k];
        assert k > 0 ==> ts[k] == rest[k - 1];
      }
    }
  }
}
