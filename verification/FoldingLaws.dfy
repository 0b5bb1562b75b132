// What folding promises: bounded lines, no character lost, and an exact inverse.
module FoldingLaws {
  import opened Text
  import opened Mime
  import opened Builders

  // ---------------------------------------------------------------- line length

  predicate AtMost(lines: seq<string>, n: nat)
  {
    forall i :: 0 <= i < |lines| ==> |lines[i]| <= n
  }

  function Last(lines: seq<string>): string
    requires lines != []
  {
    lines[|lines| - 1]
  }

  lemma {:induction false} TailBound(s: string, width: nat)
    requires width >= 8
    ensures AtMost(Tail(s, width), width)
    decreases |s|
  {
    if |s| > width - 7 {
      TailBound(s[width - 7..], width);
    }
  }

  lemma PiecesBound(seg: string, width: nat)
    requires width >= 8 && seg != ""
    ensures AtMost(Pieces(seg, width), width) && Pieces(seg, width) != []
    ensures |seg| <= width - 7 ==> |Last(Pieces(seg, width))| == |seg| + 6
  {
    if |seg| > width - 7 {
      TailBound(seg[width - 6..], width);
    }
  }

  // The original's own count never falls below the real length of the open line.
  predicate Counted(st: Fold, limit: nat, width: nat)
  {
    st.lines != [] && AtMost(st.lines, width + 2) && |Last(st.lines)| <= st.cur <= limit
  }

  // An empty segment is skipped; a segment of one or two spaces is not, and still
  // pays for its "; ".
  predicate Blank(raw: string)
  {
    raw != "" && Trim(raw) == ""
  }

  lemma FoldSegmentBound(st: Fold, raw: string, first: bool, width: nat)
    requires width >= 8 && Counted(st, if first then width + 2 else width, width)
    requires !Blank(raw) && (first ==> raw != "")
    ensures Counted(FoldSegment(st, raw, first, width), width, width)
  {
    hide Trim, Pieces, Blank;
    if raw != "" {
      var seg := Trim(raw);
      TrimmedFilled(raw);
      PiecesBound(seg, width);
    }
  }

  lemma TrimmedFilled(raw: string)
    requires raw != "" && !Blank(raw)
    ensures Trim(raw) != ""
  {
  }

  lemma {:induction false} FoldSegmentsBound(st: Fold, segs: seq<string>, first: bool, width: nat)
    requires width >= 8 && Counted(st, if first then width + 2 else width, width)
    requires first ==> segs != [] && segs[0] != ""
    requires forall i :: 0 <= i < |segs| ==> !Blank(segs[i])
    ensures AtMost(FoldSegments(st, segs, first, width).lines, width + 2)
    decreases |segs|
  {
    hide FoldSegment, Blank;
    if segs != [] {
      FoldSegmentBound(st, segs[0], first, width);
      FoldSegmentsBound(FoldSegment(st, segs[0], first, width), segs[1..], false, width);
    }
  }

  // Every physical line of a folded header has at most width + 2 characters.
  lemma FoldedLinesAreShort(raw: string, width: nat)
    requires width >= 8 && FoldLines(raw, width).Done?
    requires Segments(raw)[0] != "" && forall i :: 0 <= i < |Segments(raw)| ==> !Blank(Segments(raw)[i])
    ensures AtMost(FoldLines(raw, width).value, width + 2)
  {
    var start := Key(raw) + ": ";
    FoldSegmentsBound(Fold([start], |start|), Segments(raw), true, width);
  }

  // ---------------------------------------------------------------- conservation

  // The text without SP, CR and LF.
  function Squeeze(s: string): string
  {
    if s == "" then ""
    else (if s[0] == ' ' || s[0] == '\r' || s[0] == '\n' then "" else [s[0]]) + Squeeze(s[1..])
  }

  lemma {:induction false} SqueezeAppend(a: string, b: string)
    ensures Squeeze(a + b) == Squeeze(a) + Squeeze(b)
  {
    if a == "" {
      assert a + b == b;
    } else {
      assert (a + b)[1..] == a[1..] + b;
      SqueezeAppend(a[1..], b);
    }
  }

  lemma SqueezeTrim(s: string)
    ensures Squeeze(Trim(s)) == Squeeze(s)
  {
    var t := StripLead(s);
    if t != "" && t[|t| - 1] == ' ' {
      SqueezeAppend(t[..|t| - 1], " ");
      assert t == t[..|t| - 1] + " ";
    }
  }

  lemma SqueezeIndented(indent: string, s: string)
    requires indent == SIX || indent == SEVEN
    ensures Squeeze(indent + s) == Squeeze(s)
  {
    SqueezeAppend(indent, s);
    SqueezeSpaces(indent);
  }

  lemma {:induction false} SqueezeSpaces(s: string)
    requires forall i :: 0 <= i < |s| ==> s[i] == ' '
    ensures Squeeze(s) == ""
  {
    if s != "" {
      SqueezeSpaces(s[1..]);
    }
  }

  // What is left of all lines together.
  function SqueezeAll(lines: seq<string>): string
  {
    if lines == [] then "" else Squeeze(lines[0]) + SqueezeAll(lines[1..])
  }

  lemma {:induction false} SqueezeAllAppend(a: seq<string>, b: seq<string>)
    ensures SqueezeAll(a + b) == SqueezeAll(a) + SqueezeAll(b)
  {
    if a == [] {
      assert a + b == b;
    } else {
      assert (a + b)[1..] == a[1..] + b;
      SqueezeAllAppend(a[1..], b);
      Assoc(Squeeze(a[0]), SqueezeAll(a[1..]), SqueezeAll(b));
    }
  }

  lemma SqueezeAllOne(s: string)
    ensures SqueezeAll([s]) == Squeeze(s)
  {
    assert SqueezeAll([s][1..]) == "";
  }

  lemma {:induction false} SqueezeCrlf(lines: seq<string>)
    ensures Squeeze(Crlf(lines)) == SqueezeAll(lines)
  {
    hide Squeeze, Crlf, SqueezeAll;
    if lines == [] {
      SqueezeNoLines();
    } else if |lines| == 1 {
      SqueezeAllOne(lines[0]);
      CrlfOne(lines[0]);
      assert lines == [lines[0]];
    } else {
      SqueezeCrlf(lines[1..]);
      CrlfMore(lines);
      SqueezeAppend(lines[0] + "\r\n", Crlf(lines[1..]));
      SqueezeAppend(lines[0], "\r\n");
      SqueezeBreak();
      assert Squeeze(lines[0]) + "" == Squeeze(lines[0]);
    }
  }

  lemma SqueezeNoLines()
    ensures Squeeze(Crlf([])) == SqueezeAll([])
  {
  }

  lemma CrlfMore(lines: seq<string>)
    requires |lines| > 1
    ensures Crlf(lines) == lines[0] + "\r\n" + Crlf(lines[1..])
    ensures SqueezeAll(lines) == Squeeze(lines[0]) + SqueezeAll(lines[1..])
  {
    hide Squeeze;
  }

  lemma SqueezeBreak()
    ensures Squeeze("\r\n") == ""
  {
    assert "\r\n"[1..] == "\n" && "\n"[1..] == "";
  }

  lemma SqueezeExtend(lines: seq<string>, t: string)
    requires lines != []
    ensures SqueezeAll(Extend(lines, t)) == SqueezeAll(lines) + Squeeze(t)
  {
    hide SqueezeAll, Squeeze;
    var front, last := lines[..|lines| - 1], lines[|lines| - 1];
    SqueezeAllAppend(front, [last + t]);
    SqueezeAllAppend(front, [last]);
    SqueezeAllOne(last + t);
    SqueezeAllOne(last);
    SqueezeAppend(last, t);
    assert lines == front + [last];
    Assoc(SqueezeAll(front), Squeeze(last), Squeeze(t));
  }

  lemma {:induction false} SqueezeTail(s: string, width: nat)
    requires width >= 8
    ensures SqueezeAll(Tail(s, width)) == Squeeze(s)
    decreases |s|
  {
    if s != "" {
      if |s| <= width - 7 {
        SqueezeAllOne(SEVEN + s);
        SqueezeIndented(SEVEN, s);
      } else {
        SqueezeTail(s[width - 7..], width);
        SqueezePiece(SEVEN, s, width - 7, Tail(s[width - 7..], width));
      }
    }
  }

  lemma SqueezePiece(indent: string, s: string, n: nat, rest: seq<string>)
    requires indent == SIX || indent == SEVEN
    requires n <= |s| && SqueezeAll(rest) == Squeeze(s[n..])
    ensures SqueezeAll([indent + s[..n]] + rest) == Squeeze(s)
  {
    hide Squeeze, SqueezeAll;
    SqueezeAllAppend([indent + s[..n]], rest);
    SqueezeAllOne(indent + s[..n]);
    SqueezeIndented(indent, s[..n]);
    SqueezeAppend(s[..n], s[n..]);
    assert s == s[..n] + s[n..];
  }

  lemma SqueezePieces(seg: string, width: nat)
    requires width >= 8
    ensures SqueezeAll(Pieces(seg, width)) == Squeeze(seg)
  {
    hide Squeeze, SqueezeAll;
    if seg == "" {
      SqueezeAllNone();
    } else if |seg| <= width - 7 {
      SqueezeAllOne(SIX + seg);
      SqueezeIndented(SIX, seg);
    } else {
      SqueezeTail(seg[width - 6..], width);
      SqueezePiece(SIX, seg, width - 6, Tail(seg[width - 6..], width));
    }
  }

  lemma SqueezeAllNone()
    ensures SqueezeAll([]) == "" && Squeeze("") == ""
  {
  }

  // The semicolon and the text that one segment contributes to the folded header.
  function Kept(raw: string, first: bool): string
  {
    if raw == "" then "" else (if first then "" else ";") + Squeeze(raw)
  }

  lemma FoldSegmentKeeps(st: Fold, raw: string, first: bool, width: nat)
    requires width >= 8 && st.lines != []
    ensures SqueezeAll(FoldSegment(st, raw, first, width).lines) == SqueezeAll(st.lines) + Kept(raw, first)
  {
    hide Squeeze, SqueezeAll, Pieces;
    if raw != "" {
      var seg := Trim(raw);
      var lines := if first then st.lines else Extend(st.lines, "; ");
      SqueezeExtend(st.lines, "; ");
      SqueezeSemicolon();
      SqueezeTrim(raw);
      SqueezeExtend(lines, seg);
      SqueezePieces(seg, width);
      SqueezeAllAppend(lines, Pieces(seg, width));
      Assoc(SqueezeAll(st.lines), ";", Squeeze(raw));
      assert "" + Squeeze(raw) == Squeeze(raw);
    }
  }

  lemma SqueezeSemicolon()
    ensures Squeeze("; ") == ";" && Squeeze(";") == ";" && Squeeze(": ") == ":" && Squeeze(":") == ":"
  {
    assert "; "[1..] == " " && ";"[1..] == "" && ": "[1..] == " " && ":"[1..] == "" && " "[1..] == "";
  }

  function KeptAll(segs: seq<string>, first: bool): string
  {
    if segs == [] then "" else Kept(segs[0], first) + KeptAll(segs[1..], false)
  }

  // The same with every semicolon of the input.
  function Written(segs: seq<string>, first: bool): string
  {
    if segs == [] then "" else (if first then "" else ";") + Squeeze(segs[0]) + Written(segs[1..], false)
  }

  lemma {:induction false} FoldSegmentsKeep(st: Fold, segs: seq<string>, first: bool, width: nat)
    requires width >= 8 && st.lines != []
    ensures SqueezeAll(FoldSegments(st, segs, first, width).lines) == SqueezeAll(st.lines) + KeptAll(segs, first)
    decreases |segs|
  {
    hide SqueezeAll, FoldSegment, Kept;
    if segs == [] {
      assert SqueezeAll(st.lines) + "" == SqueezeAll(st.lines);
    } else {
      FoldSegmentKeeps(st, segs[0], first, width);
      FoldSegmentsKeep(FoldSegment(st, segs[0], first, width), segs[1..], false, width);
      Assoc(SqueezeAll(st.lines), Kept(segs[0], first), KeptAll(segs[1..], false));
    }
  }

  lemma {:induction false} SqueezeJoin(segs: seq<string>)
    ensures segs != [] ==> Squeeze(Join(segs, ";")) == Written(segs, true)
    ensures segs != [] ==> ";" + Squeeze(Join(segs, ";")) == Written(segs, false)
  {
    hide Squeeze;
    if segs != [] {
      WrittenStep(segs);
      if |segs| > 1 {
        SqueezeJoin(segs[1..]);
        SqueezeSemicolon();
        SqueezeAppend(segs[0] + ";", Join(segs[1..], ";"));
        SqueezeAppend(segs[0], ";");
        Assoc(Squeeze(segs[0]), ";", Squeeze(Join(segs[1..], ";")));
      } else {
        assert Written([], false) == "";
        assert Squeeze(segs[0]) + "" == Squeeze(segs[0]);
      }
    }
  }

  lemma WrittenStep(segs: seq<string>)
    requires segs != []
    ensures Written(segs, true) == Squeeze(segs[0]) + Written(segs[1..], false)
    ensures Written(segs, false) == ";" + Written(segs, true)
  {
    hide Squeeze;
    var head, rest := Squeeze(segs[0]), Written(segs[1..], false);
    assert "" + head == head;
    Assoc(";", head, rest);
  }

  // Only an empty segment behind the first loses its semicolon.
  predicate NoEmptyBehindFirst(segs: seq<string>, first: bool)
  {
    forall i :: (if first then 1 else 0) <= i < |segs| ==> segs[i] != ""
  }

  lemma {:induction false} KeptIsWritten(segs: seq<string>, first: bool)
    ensures |KeptAll(segs, first)| <= |Written(segs, first)|
    ensures KeptAll(segs, first) == Written(segs, first) <==> NoEmptyBehindFirst(segs, first)
  {
    if segs != [] {
      KeptIsWritten(segs[1..], false);
      assert forall i :: 0 <= i < |segs| - 1 ==> segs[1..][i] == segs[i + 1];
      var head := (if first then "" else ";") + Squeeze(segs[0]);
      var kept, written := KeptAll(segs[1..], false), Written(segs[1..], false);
      if segs[0] == "" && !first {
        assert |KeptAll(segs, first)| < |Written(segs, first)|;
      } else {
        assert Kept(segs[0], first) == head;
        CancelPrefix(head, kept, written);
        if kept == written && !first {
          assert forall i :: 1 <= i < |segs| ==> segs[i] == segs[1..][i - 1];
        }
      }
    }
  }

  lemma CancelPrefix<T>(p: seq<T>, a: seq<T>, b: seq<T>)
    ensures p + a == p + b <==> a == b
  {
    if p + a == p + b {
      assert a == (p + a)[|p|..] && b == (p + b)[|p|..];
    }
  }

  // Folding keeps every character but SP, CR and LF, exactly when no segment behind
  // the first is empty.
  lemma FoldingConserves(raw: string, width: nat)
    requires width >= 8 && FoldLines(raw, width).Done?
    ensures Squeeze(Crlf(FoldLines(raw, width).value)) == Squeeze(raw) <==> NoEmptyBehindFirst(Segments(raw), true)
  {
    hide Squeeze, SqueezeAll, FoldSegments, KeptAll, Written, NoEmptyBehindFirst, Split, Join;
    var sep := Find(raw, ':');
    var key, val, segs := raw[..sep], raw[sep + 1..], Segments(raw);
    var start := Key(raw) + ": ";
    var head := Squeeze(key) + ":";
    FoldSegmentsKeep(Fold([start], |start|), segs, true, width);
    SqueezeCrlf(FoldLines(raw, width).value);
    SqueezeAllOne(start);
    SqueezeTrim(key);
    SqueezeSemicolon();
    SqueezeAppend(Trim(key), ": ");
    assert Squeeze(Crlf(FoldLines(raw, width).value)) == head + KeptAll(segs, true);
    JoinSplit(val, ';');
    SqueezeJoin(segs);
    SqueezeAppend(key + ":", val);
    SqueezeAppend(key, ":");
    assert raw == key + ":" + val;
    assert Squeeze(raw) == head + Written(segs, true);
    CancelPrefix(head, KeptAll(segs, true), Written(segs, true));
    KeptIsWritten(segs, true);
  }
}
