// Character and string operations shared by the text pipeline. `find_first_of`,
// `transform(tolower)`, the whitespace-reducing lambdas and the one-character
// trims of the original appear here once, as functions on strings.
module Text {

  // Position of the first `c`, or |s| where the original has `npos`.
  function Find(s: string, c: char): (i: nat)
    ensures i <= |s|
    ensures i < |s| ==> s[i] == c
    ensures forall k :: 0 <= k < i ==> s[k] != c
  {
    if s == "" || s[0] == c then 0 else 1 + Find(s[1..], c)
  }

  lemma FindIs(s: string, c: char, i: nat)
    requires i <= |s| && (i < |s| ==> s[i] == c)
    requires forall k :: 0 <= k < i ==> s[k] != c
    ensures Find(s, c) == i
  {
  }

  // The `start`/`end` loops around `find_first_of`: always at least one piece.
  function Split(s: string, c: char): (parts: seq<string>)
    ensures |parts| >= 1
    ensures forall p :: p in parts ==> c !in p
    decreases |s|
  {
    var i := Find(s, c);
    if i == |s| then [s] else [s[..i]] + Split(s[i + 1..], c)
  }

  function Join(parts: seq<string>, sep: string): string
  {
    if parts == [] then ""
    else if |parts| == 1 then parts[0]
    else parts[0] + sep + Join(parts[1..], sep)
  }

  lemma {:induction false} SplitJoin(parts: seq<string>, c: char)
    requires parts != [] && forall p :: p in parts ==> c !in p
    ensures Split(Join(parts, [c]), c) == parts
  {
    hide Join, Find;
    assert c !in parts[0];
    if |parts| == 1 {
      assert parts == [parts[0]];
      JoinOne(parts[0], [c]);
      FindIs(parts[0], c, |parts[0]|);
    } else {
      var rest := Join(parts[1..], [c]);
      var s := parts[0] + [c] + rest;
      assert parts == [parts[0]] + parts[1..];
      JoinCons(parts[0], parts[1..], [c]);
      FindIs(s, c, |parts[0]|);
      assert s[..|parts[0]|] == parts[0] && s[|parts[0]| + 1..] == rest;
      assert forall p :: p in parts[1..] ==> p in parts;
      SplitJoin(parts[1..], c);
    }
  }

  lemma {:induction false} JoinSnoc(parts: seq<string>, last: string, sep: string)
    ensures Join(parts + [last], sep) == if parts == [] then last else Join(parts, sep) + sep + last
  {
    hide Join;
    JoinOne(last, sep);
    if parts == [] {
      assert parts + [last] == [last];
    } else {
      JoinSnoc(parts[1..], last, sep);
      JoinCons(parts[0], parts[1..] + [last], sep);
      assert parts + [last] == [parts[0]] + (parts[1..] + [last]);
      if |parts| == 1 {
        JoinOne(parts[0], sep);
        assert parts == [parts[0]];
      } else {
        JoinCons(parts[0], parts[1..], sep);
        assert parts == [parts[0]] + parts[1..];
        var rest := Join(parts[1..], sep);
        assert parts[0] + sep + (rest + sep + last) == parts[0] + sep + rest + sep + last;
      }
    }
  }

  lemma {:induction false} JoinSplit(s: string, c: char)
    ensures Join(Split(s, c), [c]) == s
    decreases |s|
  {
    hide Find, Join;
    var i := Find(s, c);
    if i < |s| {
      JoinSplit(s[i + 1..], c);
      JoinCons(s[..i], Split(s[i + 1..], c), [c]);
      assert s == s[..i] + [c] + s[i + 1..];
    } else {
      JoinOne(s, [c]);
    }
  }

  lemma JoinOne(part: string, sep: string)
    ensures Join([part], sep) == part
  {
  }

  lemma JoinCons(part: string, rest: seq<string>, sep: string)
    requires rest != []
    ensures Join([part] + rest, sep) == part + sep + Join(rest, sep)
  {
    assert ([part] + rest)[1..] == rest;
  }

  function Lower(c: char): char
  {
    if 'A' <= c <= 'Z' then c + 32 as char else c
  }

  function ToLower(s: string): (t: string)
    ensures |t| == |s|
    ensures forall k :: 0 <= k < |s| ==> t[k] == Lower(s[k])
  {
    seq(|s|, i requires 0 <= i < |s| => Lower(s[i]))
  }

  lemma ToLowerAgain(s: string)
    ensures ToLower(ToLower(s)) == ToLower(s)
  {
  }

  lemma ToLowerAppend(a: string, b: string)
    ensures ToLower(a + b) == ToLower(a) + ToLower(b)
  {
  }

  // Is every run of spaces at most one space long?
  predicate Collapsed(s: string)
  {
    forall i :: 0 < i < |s| && s[i] == ' ' ==> s[i - 1] != ' '
  }

  // The whitespace-reducing loop: `lww` says that the previous character was a space.
  function Collapse(s: string, lww: bool): (t: string)
    ensures Collapsed(t)
    ensures lww && t != "" ==> t[0] != ' '
    ensures |t| <= |s|
    ensures forall x :: x in t ==> x in s
  {
    if s == "" then ""
    else if s[0] == ' ' then
      if lww then Collapse(s[1..], true) else [' '] + Collapse(s[1..], true)
    else
      [s[0]] + Collapse(s[1..], false)
  }

  lemma CollapseStep(s: string, i: nat, lww: bool)
    requires i < |s|
    ensures Collapse(s[i..], lww) == (if s[i] == ' ' && lww then "" else [s[i]]) + Collapse(s[i + 1..], s[i] == ' ')
  {
    assert s[i..][1..] == s[i + 1..];
  }

  lemma {:induction false} CollapsedIsFixed(s: string, lww: bool)
    requires Collapsed(s) && (lww && s != "" ==> s[0] != ' ')
    ensures Collapse(s, lww) == s
  {
    if s != "" {
      var t := s[1..];
      forall i | 0 < i < |t| && t[i] == ' ' ensures t[i - 1] != ' ' {
        assert s[i + 1] == ' ' && s[i] == t[i - 1];
      }
      assert t != "" ==> t[0] == s[1];
      CollapsedIsFixed(t, s[0] == ' ');
      assert s == [s[0]] + t;
    }
  }

  // `if (*s.begin() == ' ') s.erase(s.begin())`, with an empty string as no match.
  function StripLead(s: string): string
  {
    if s != "" && s[0] == ' ' then s[1..] else s
  }

  // `if (*(s.end() - 1) == ' ') s.pop_back()`, with an empty string as no match.
  function StripTrail(s: string): string
  {
    if s != "" && s[|s| - 1] == ' ' then s[..|s| - 1] else s
  }

  predicate Solid(c: char)
  {
    c != ' ' && c != '\t' && c != '\r' && c != '\n' && c != ';'
  }

  // Text with no space, no line break and no separator of the header grammar.
  predicate Token(s: string)
    ensures Token(s) ==> s != ""
  {
    s != "" && forall i :: 0 <= i < |s| ==> Solid(s[i])
  }

  predicate StartsWith(s: string, p: string)
  {
    |p| <= |s| && s[..|p|] == p
  }

  datatype Option<+T> = None | Some(value: T) {
    function GetOr(default: T): T {
      match this
      case Some(v) => v
      case None => default
    }
  }

  // What a call of the original ends in: a value, a C++ exception, or a read of
  // something the language leaves undefined.
  datatype Outcome<+T> = Done(value: T) | Throws | Undefined {
    predicate IsFailure() {
      !Done?
    }

    function PropagateFailure<U>(): Outcome<U>
      requires IsFailure()
    {
      if Throws? then Throws else Undefined
    }

    function Extract(): T
      requires Done?
    {
      value
    }
  }

  // Position of the first occurrence of `p`, or None: `std::string::find`.
  function FindString(s: string, p: string): (r: Option<nat>)
    ensures r.Some? ==> r.value + |p| <= |s|
  {
    if StartsWith(s, p) then Some(0)
    else if s == "" then None
    else
      var r := FindString(s[1..], p);
      if r.None? then None else Some(r.value + 1)
  }

  // It is an occurrence, and no occurrence starts in front of it.
  lemma {:induction false} FindStringFirst(s: string, p: string, k: nat)
    requires k <= |s| && StartsWith(s[k..], p)
    ensures var r := FindString(s, p);
            r.Some? && r.value <= k && StartsWith(s[r.value..], p)
  {
    assert s[0..] == s;
    if !StartsWith(s, p) {
      assert s[1..][k - 1..] == s[k..];
      FindStringFirst(s[1..], p, k - 1);
      var i := FindString(s[1..], p).value;
      assert s[1..][i..] == s[i + 1..];
    }
  }
}
