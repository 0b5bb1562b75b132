// `std::to_string` and `std::stol` on 64-bit integers.
module Decimal {
  import opened Text

  const INT64_MIN: int := -0x8000_0000_0000_0000
  const INT64_MAX: int := 0x7FFF_FFFF_FFFF_FFFF

  predicate IsDigit(c: char)
  {
    '0' <= c <= '9'
  }

  function Digits(n: nat): (s: string)
    ensures s != "" && forall i :: 0 <= i < |s| ==> IsDigit(s[i])
  {
    var last := ['0' + (n % 10) as char];
    if n < 10 then last else Digits(n / 10) + last
  }

  function ToString(n: int): string
  {
    if n < 0 then "-" + Digits(-n) else Digits(n)
  }

  function Value(s: string): nat
    requires forall i :: 0 <= i < |s| ==> IsDigit(s[i])
  {
    if s == "" then 0
    else
      assert IsDigit(s[|s| - 1]);
      Value(s[..|s| - 1]) * 10 + (s[|s| - 1] as int - '0' as int)
  }

  function DigitRun(s: string): (n: nat)
    ensures n <= |s| && forall i :: 0 <= i < n ==> IsDigit(s[i])
    ensures n < |s| ==> !IsDigit(s[n])
  {
    if s == "" || !IsDigit(s[0]) then 0 else 1 + DigitRun(s[1..])
  }

  predicate IsSpace(c: char)
  {
    c == ' ' || '\t' <= c <= '\r'
  }

  function SkipSpace(s: string): string
  {
    if s != "" && IsSpace(s[0]) then SkipSpace(s[1..]) else s
  }

  // What follows the sign.
  function NumberPart(s: string): string
  {
    var t := SkipSpace(s);
    if t != "" && (t[0] == '-' || t[0] == '+') then t[1..] else t
  }

  // Where `stol` throws `invalid_argument`; a number too large makes it throw `out_of_range`.
  predicate Unreadable(s: string)
  {
    DigitRun(NumberPart(s)) == 0
  }

  // `stol`: leading white space, a sign, the longest run of digits. None where it
  // throws, for want of digits or for want of range.
  function Stol(s: string): Option<int>
  {
    var t := SkipSpace(s);
    var negative := t != "" && t[0] == '-';
    var body := NumberPart(s);
    var n := DigitRun(body);
    if n == 0 then None
    else
      var v: int := (if negative then -1 else 1) * Value(body[..n]);
      if INT64_MIN <= v <= INT64_MAX then Some(v) else None
  }

  lemma {:induction false} ValueOfDigits(n: nat)
    ensures Value(Digits(n)) == n
  {
    var last := ['0' + (n % 10) as char];
    if n < 10 {
      assert last[..0] == "";
    } else {
      ValueOfDigits(n / 10);
      assert Digits(n)[..|Digits(n)| - 1] == Digits(n / 10);
    }
  }

  lemma DigitRunAll(s: string)
    requires forall i :: 0 <= i < |s| ==> IsDigit(s[i])
    ensures DigitRun(s) == |s|
  {
  }

  lemma StolOfToString(n: int)
    requires INT64_MIN <= n <= INT64_MAX
    ensures Stol(ToString(n)) == Some(n)
  {
    hide Digits, Value;
    var s := ToString(n);
    var body := if n < 0 then Digits(-n) else Digits(n);
    assert IsDigit(body[0]);
    assert n < 0 ==> s[1..] == body;
    ValueOfDigits(if n < 0 then -n else n);
    DigitRunAll(body);
    assert body[..|body|] == body;
    assert SkipSpace(s) == s;
  }

  lemma {:induction false} ToStringIsToken(n: int)
    ensures Token(ToString(n)) && '=' !in ToString(n)
  {
    hide Digits;
  }
}
