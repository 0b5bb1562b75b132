// Header folding (lib/builders/mimev2.src.cc) and its inverse, Mime.JoinHeaders.
module Builders {
  import opened Text
  import opened Mime

  const SIX := "      "
  const SEVEN := "       "

  // One space off each end, as the original trims a segment or a key.
  function Trim(s: string): string
  {
    StripTrail(StripLead(s))
  }

  // ---------------------------------------------------------------- what folding produces

  // The physical lines built so far, the last one still open, and the length the
  // original believes that line has.
  datatype Fold = Fold(lines: seq<string>, cur: nat)

  function Extend(lines: seq<string>, t: string): (r: seq<string>)
    requires lines != []
    ensures |r| == |lines|
  {
    lines[..|lines| - 1] + [lines[|lines| - 1] + t]
  }

  // Lines behind the first of a segment that does not fit on one line.
  function Tail(s: string, width: nat): seq<string>
    requires width >= 8
    decreases |s|
  {
    if s == "" then []
    else if |s| <= width - 7 then [SEVEN + s]
    else [SEVEN + s[..width - 7]] + Tail(s[width - 7..], width)
  }

  // A segment that starts on a line of its own.
  function Pieces(seg: string, width: nat): seq<string>
    requires width >= 8
  {
    if seg == "" then []
    else if |seg| <= width - 7 then [SIX + seg]
    else [SIX + seg[..width - 6]] + Tail(seg[width - 6..], width)
  }

  function FoldSegment(st: Fold, raw: string, first: bool, width: nat): (r: Fold)
    requires width >= 8 && st.lines != []
    ensures r.lines != []
  {
    if raw == "" then st
    else
      var seg := Trim(raw);
      var lines := if first then st.lines else Extend(st.lines, "; ");
      var cur := if first then st.cur else st.cur + 2;
      if |seg| + cur <= width then Fold(Extend(lines, seg), cur + |seg|)
      else Fold(lines + Pieces(seg, width),
                if |seg| > width - 7 then width else if seg == "" then cur else |seg| + 7)
  }

  function FoldSegments(st: Fold, segs: seq<string>, first: bool, width: nat): (r: Fold)
    requires width >= 8 && st.lines != []
    ensures r.lines != []
    decreases |segs|
  {
    if segs == [] then st
    else FoldSegments(FoldSegment(st, segs[0], first, width), segs[1..], false, width)
  }

  function Key(raw: string): string
  {
    Trim(raw[..Find(raw, ':')])
  }

  function Segments(raw: string): (segs: seq<string>)
    requires Find(raw, ':') < |raw|
    ensures segs != []
  {
    Split(raw[Find(raw, ':') + 1..], ';')
  }

  // The physical lines of a folded header.
  function FoldLines(raw: string, width: nat): Outcome<seq<string>>
    requires width >= 8
  {
    if Find(raw, ':') == |raw| || |Key(raw)| > width then Throws
    else
      var start := Key(raw) + ": ";
      Done(FoldSegments(Fold([start], |start|), Segments(raw), true, width).lines)
  }

  // ---------------------------------------------------------------- the loops

  function Crlf(lines: seq<string>): string
  {
    Join(lines, "\r\n")
  }

  function Broken(pieces: seq<string>): string
  {
    if pieces == [] then "" else "\r\n" + pieces[0] + Broken(pieces[1..])
  }

  lemma {:induction false} CrlfAppend(lines: seq<string>, pieces: seq<string>)
    requires lines != []
    ensures Crlf(lines + pieces) == Crlf(lines) + Broken(pieces)
    decreases |lines| + |pieces|
  {
    var all := lines + pieces;
    if |lines| > 1 {
      CrlfAppend(lines[1..], pieces);
      assert all[1..] == lines[1..] + pieces;
    } else if pieces != [] {
      assert all[1..] == [pieces[0]] + pieces[1..];
      assert all[1..] == pieces;
      CrlfAppend([pieces[0]], pieces[1..]);
    } else {
      assert all == lines;
    }
  }

  lemma {:induction false} BrokenAppend(a: seq<string>, b: seq<string>)
    ensures Broken(a + b) == Broken(a) + Broken(b)
  {
    if a == [] {
      assert a + b == b;
    } else {
      assert (a + b)[1..] == a[1..] + b;
      BrokenAppend(a[1..], b);
    }
  }

  lemma {:induction false} CrlfExtend(lines: seq<string>, t: string)
    requires lines != []
    ensures Crlf(Extend(lines, t)) == Crlf(lines) + t
  {
    if |lines| > 1 {
      assert Extend(lines, t)[1..] == Extend(lines[1..], t);
      CrlfExtend(lines[1..], t);
    }
  }

  method FoldHeader(raw: string, lineLength: nat) returns (r: Outcome<string>)
    requires lineLength >= 8
    ensures FoldLines(raw, lineLength).Throws? ==> r == Throws
    ensures FoldLines(raw, lineLength).Done? ==> r == Done(Crlf(FoldLines(raw, lineLength).value))
  {
    hide Find, Trim, FoldSegments, Crlf, Split;
    var sep := Find(raw, ':');
    if sep == |raw| {
      return Throws;
    }
    var key, val := Trim(raw[..sep]), raw[sep + 1..];
    if |key| > lineLength {
      return Throws;
    }
    var result := FoldValue(key + ": ", val, lineLength);
    r := Done(result);
  }

  // The outer loop, with the key already written.
  method FoldValue(head: string, val: string, lineLength: nat) returns (result: string)
    requires lineLength >= 8
    ensures result == Crlf(FoldSegments(Fold([head], |head|), Split(val, ';'), true, lineLength).lines)
  {
    hide FoldSegments, FoldSegment, Crlf, Split, Find;
    result := head;
    var currentLineLength := |head|;
    ghost var st := Fold([head], |head|);
    CrlfOne(head);
    var start := 0;
    ghost var all := FoldSegments(st, Split(val, ';'), true, lineLength);
    assert val[0..] == val;
    while true
      invariant 0 <= start <= |val|
      invariant st.lines != [] && result == Crlf(st.lines) && currentLineLength == st.cur
      invariant all == FoldSegments(st, Split(val[start..], ';'), start == 0, lineLength)
      decreases |val| - start
    {
      var end := start + Find(val[start..], ';');
      var seg := val[start..end];
      SplitStep(val, start, end);
      FoldSegmentsStep(st, Split(val[start..], ';'), start == 0, lineLength);
      result, currentLineLength := AppendSegment(st, result, currentLineLength, seg, start == 0, lineLength);
      st := FoldSegment(st, seg, start == 0, lineLength);
      if end == |val| {
        break;
      }
      start := end + 1;
    }
  }

  // One round of the outer loop.
  method AppendSegment(ghost st: Fold, before: string, cur: nat, raw: string, first: bool, lineLength: nat)
    returns (result: string, currentLineLength: nat)
    requires lineLength >= 8 && st.lines != [] && before == Crlf(st.lines) && cur == st.cur
    ensures result == Crlf(FoldSegment(st, raw, first, lineLength).lines)
    ensures currentLineLength == FoldSegment(st, raw, first, lineLength).cur
  {
    hide Crlf, Pieces, Broken;
    result, currentLineLength := before, cur;
    if raw != "" {
      var seg := Trim(raw);
      ghost var lines := st.lines;
      if !first {
        CrlfExtend(lines, "; ");
        lines := Extend(lines, "; ");
        result := result + "; ";
        currentLineLength := currentLineLength + 2;
      }
      if |seg| > lineLength || |seg| + currentLineLength > lineLength {
        CrlfAppend(lines, Pieces(seg, lineLength));
        result, currentLineLength := BreakSegment(result, currentLineLength, seg, lineLength);
      } else {
        CrlfExtend(lines, seg);
        currentLineLength := currentLineLength + |seg|;
        result := result + seg;
      }
    }
  }

  lemma CrlfOne(line: string)
    ensures Crlf([line]) == line
  {
  }

  lemma SplitStep(val: string, start: nat, end: nat)
    requires start <= end <= |val| && end == start + Find(val[start..], ';')
    ensures end == |val| ==> Split(val[start..], ';') == [val[start..end]]
    ensures end < |val| ==> Split(val[start..], ';') == [val[start..end]] + Split(val[end + 1..], ';')
  {
    var s := val[start..];
    assert s[..end - start] == val[start..end];
    assert end == |val| ==> s == val[start..end];
    assert end < |val| ==> s[end - start + 1..] == val[end + 1..];
  }

  lemma FoldSegmentsStep(st: Fold, segs: seq<string>, first: bool, width: nat)
    requires width >= 8 && st.lines != [] && segs != []
    ensures |segs| == 1 ==> FoldSegments(st, segs, first, width) == FoldSegment(st, segs[0], first, width)
    ensures FoldSegments(st, segs, first, width) ==
            FoldSegments(FoldSegment(st, segs[0], first, width), segs[1..], false, width)
  {
  }

  // The inner loop over a segment that does not fit behind the open line.
  method BreakSegment(before: string, cur: nat, seg: string, lineLength: nat)
    returns (result: string, currentLineLength: nat)
    requires lineLength >= 8
    ensures result == before + Broken(Pieces(seg, lineLength))
    ensures currentLineLength == if |seg| > lineLength - 7 then lineLength else if seg == "" then cur else |seg| + 7
  {
    result, currentLineLength := before, cur;
    var left: nat, done: nat, it: nat := |seg|, 0, 0;
    ghost var pieces: seq<string> := [];
    while left > lineLength - 7
      invariant left + done == |seg| && (done == 0 <==> it == 0)
      invariant it == 0 ==> pieces == []
      invariant it > 0 ==> Pieces(seg, lineLength) == pieces + Tail(seg[done..], lineLength)
      invariant it > 0 ==> |seg| > lineLength - 7
      invariant result == before + Broken(pieces)
      decreases left
    {
      ghost var piece: string, from := "", done;
      if done == 0 {
        piece := SIX + seg[done..done + (lineLength - 6)];
        result := result + "\r\n" + SIX + seg[done..done + (lineLength - 6)];
        done := done + (lineLength - 6);
        left := left - (lineLength - 6);
      } else {
        piece := SEVEN + seg[done..done + (lineLength - 7)];
        result := result + "\r\n" + SEVEN + seg[done..done + (lineLength - 7)];
        done := done + (lineLength - 7);
        left := left - (lineLength - 7);
      }
      PiecesStep(seg, from, done, pieces, piece, lineLength);
      BrokenSnoc(before, pieces, piece);
      pieces := pieces + [piece];
      it := it + 1;
    }
    if left > 0 {
      var indent := if it > 0 then SEVEN else SIX;
      BrokenSnoc(before, pieces, indent + seg[done..]);
      result := result + "\r\n" + indent + seg[done..];
      currentLineLength := left + 7;
      assert it > 0 ==> Tail(seg[done..], lineLength) == [SEVEN + seg[done..]];
      assert it == 0 ==> seg[done..] == seg;
      assert it == 0 ==> pieces + [SIX + seg] == [SIX + seg];
    } else {
      assert seg[done..] == "";
      assert it > 0 ==> pieces + [] == pieces;
    }
    if it > 0 {
      currentLineLength := lineLength;
    }
  }

  lemma BrokenSnoc(before: string, pieces: seq<string>, piece: string)
    ensures before + Broken(pieces + [piece]) == before + Broken(pieces) + "\r\n" + piece
  {
    BrokenAppend(pieces, [piece]);
    assert [piece][1..] == [];
    assert Broken([piece]) == "\r\n" + piece;
  }

  lemma PiecesStep(seg: string, from: nat, done: nat, pieces: seq<string>, piece: string, width: nat)
    requires width >= 8 && from < done <= |seg| && |seg| - from > width - 7
    requires done == if from == 0 then width - 6 else from + (width - 7)
    requires piece == (if from == 0 then SIX else SEVEN) + seg[from..done]
    requires from == 0 ==> pieces == []
    requires from > 0 ==> Pieces(seg, width) == pieces + Tail(seg[from..], width)
    ensures Pieces(seg, width) == pieces + [piece] + Tail(seg[done..], width)
  {
    if from > 0 {
      var s := seg[from..];
      assert s[..width - 7] == seg[from..done] && s[width - 7..] == seg[done..];
      Assoc(pieces, [piece], Tail(seg[done..], width));
    } else {
      assert pieces + [piece] == [piece];
    }
  }
}
