/** Lines and the newline-joined text they stand for.  Text is put together at line level by
    Glue, so that every edit of the script editor is one replacement of a range. */
module EditorText {
  datatype Point = Point(row: int, col: int)

  predicate OneLine(l: string) {
    '\n' !in l
  }

  predicate Clean(lines: seq<string>) {
    forall i :: 0 <= i < |lines| ==> OneLine(lines[i])
  }

  function Joined(lines: seq<string>): string {
    if lines == [] then ""
    else if |lines| == 1 then lines[0]
    else lines[0] + "\n" + Joined(lines[1..])
  }

  /** The lines of a text: one more than it has newlines. */
  function Split(text: string): (lines: seq<string>)
    ensures lines != [] && Clean(lines)
  {
    if text == "" then [""]
    else if text[0] == '\n' then [""] + Split(text[1..])
    else
      var rest := Split(text[1..]);
      [[text[0]] + rest[0]] + rest[1..]
  }

  /** Two pieces of text as lines, the last line of the first run into the first of the second. */
  function Glue(first: seq<string>, second: seq<string>): (r: seq<string>)
    requires first != [] && second != []
    ensures |r| == |first| + |second| - 1
  {
    first[..|first| - 1] + [first[|first| - 1] + second[0]] + second[1..]
  }

  predicate Inside(lines: seq<string>, p: Point) {
    0 <= p.row < |lines| && 0 <= p.col <= |lines[p.row]|
  }

  predicate Before(p: Point, q: Point) {
    p.row < q.row || (p.row == q.row && p.col <= q.col)
  }

  function Head(lines: seq<string>, p: Point): (r: seq<string>)
    requires Inside(lines, p)
    ensures r != []
  {
    lines[..p.row] + [lines[p.row][..p.col]]
  }

  function Tail(lines: seq<string>, p: Point): (r: seq<string>)
    requires Inside(lines, p)
    ensures r != []
  {
    [lines[p.row][p.col..]] + lines[p.row + 1..]
  }

  /** What lies between two points. */
  function Between(lines: seq<string>, p: Point, q: Point): (r: seq<string>)
    requires Inside(lines, p) && Inside(lines, q) && Before(p, q)
    ensures r != []
  {
    if p.row == q.row then [lines[p.row][p.col..q.col]]
    else [lines[p.row][p.col..]] + lines[p.row + 1..q.row] + [lines[q.row][..q.col]]
  }

  /** The lines with the range from p to q replaced. */
  function Replace(lines: seq<string>, p: Point, q: Point, ins: seq<string>): (r: seq<string>)
    requires Inside(lines, p) && Inside(lines, q) && Before(p, q) && ins != []
    ensures |r| == |lines| - (q.row - p.row) + |ins| - 1
  {
    Glue(Glue(Head(lines, p), ins), Tail(lines, q))
  }

  /** The end of a piece of text. */
  function End(lines: seq<string>): Point
    requires lines != []
  {
    Point(|lines| - 1, |lines[|lines| - 1]|)
  }

  /** How far a point is into the joined text. */
  function Offset(lines: seq<string>, p: Point): nat
    requires Inside(lines, p)
  {
    |Joined(Head(lines, p))|
  }

  // ---------------------------------------------------------------- laws of lines

  lemma {:induction false} JoinedGlue(first: seq<string>, second: seq<string>)
    requires first != [] && second != []
    ensures Joined(Glue(first, second)) == Joined(first) + Joined(second)
  {
    GlueStep(first, second);
    hide Glue;
    if |first| == 1 {
      JoinedHead(first[0], second);
      assert first == [first[0]];
    } else {
      var l, rest := first[0], Glue(first[1..], second);
      JoinedGlue(first[1..], second);
      assert ([l] + rest)[1..] == rest && ([l] + rest)[0] == l && |[l] + rest| > 1;
      assert l + "\n" + (Joined(first[1..]) + Joined(second)) == l + "\n" + Joined(first[1..]) + Joined(second);
    }
  }

  lemma GlueStep(first: seq<string>, second: seq<string>)
    requires first != [] && second != []
    ensures |first| == 1 ==> Glue(first, second) == [first[0] + second[0]] + second[1..]
    ensures |first| > 1 ==> Glue(first, second) == [first[0]] + Glue(first[1..], second)
  {
  }

  lemma JoinedHead(l: string, second: seq<string>)
    requires second != []
    ensures Joined([l + second[0]] + second[1..]) == l + Joined(second)
  {
    var all := [l + second[0]] + second[1..];
    assert all[1..] == second[1..];
    if |second| > 1 {
      assert (l + second[0]) + "\n" + Joined(second[1..]) == l + (second[0] + "\n" + Joined(second[1..]));
    }
  }

  lemma {:induction false} JoinedSplit(text: string)
    ensures Joined(Split(text)) == text
  {
    if text != "" {
      var rest := Split(text[1..]);
      JoinedSplit(text[1..]);
      if text[0] == '\n' {
        assert ([""] + rest)[1..] == rest;
      } else {
        assert ([[text[0]] + rest[0]] + rest[1..])[1..] == rest[1..];
      }
    }
  }

  lemma {:induction false} SplitOneLine(l: string)
    requires OneLine(l)
    ensures Split(l) == [l]
  {
    if l != "" {
      assert OneLine(l[1..]) && l[0] in l;
      SplitOneLine(l[1..]);
      assert [l[0]] + l[1..] == l;
    }
  }

  lemma {:induction false} SplitAhead(l: string, rest: string)
    requires OneLine(l)
    ensures Split(l + "\n" + rest) == [l] + Split(rest)
  {
    var text := l + "\n" + rest;
    if l == "" {
      assert text[1..] == rest;
    } else {
      assert OneLine(l[1..]) && l[0] in l;
      SplitAhead(l[1..], rest);
      assert text[1..] == l[1..] + "\n" + rest;
      assert [l[0]] + l[1..] == l && ([l[1..]] + Split(rest))[1..] == Split(rest);
    }
  }

  /** The first line of a text, by where its newline is. */
  lemma SplitFirst(text: string, nl: nat)
    requires nl <= |text| && OneLine(text[..nl]) && (nl < |text| ==> text[nl] == '\n')
    ensures Split(text) == [text[..nl]] + if nl < |text| then Split(text[nl + 1..]) else []
  {
    hide Split, OneLine;
    var l := text[..nl];
    if nl < |text| {
      CutAtBreak(text, nl);
      SplitAhead(l, text[nl + 1..]);
    } else {
      SplitOneLine(l);
      assert text == l;
    }
  }

  lemma CutAtBreak(text: string, nl: nat)
    requires nl < |text| && text[nl] == '\n'
    ensures text == text[..nl] + "\n" + text[nl + 1..]
  {
    assert text[..nl] + [text[nl]] == text[..nl + 1];
    assert text[..nl + 1] + text[nl + 1..] == text;
  }

  lemma {:induction false} SplitJoined(lines: seq<string>)
    requires lines != [] && Clean(lines)
    ensures Split(Joined(lines)) == lines
  {
    if |lines| == 1 {
      SplitOneLine(lines[0]);
    } else {
      SplitJoined(lines[1..]);
      SplitAhead(lines[0], Joined(lines[1..]));
    }
  }

  /** A text cut in two and put together again. */
  lemma CutAndGlue(lines: seq<string>, p: Point)
    requires Inside(lines, p)
    ensures Glue(Head(lines, p), Tail(lines, p)) == lines
  {
    assert lines[p.row][..p.col] + lines[p.row][p.col..] == lines[p.row];
  }

  lemma GlueIsAssociative(a: seq<string>, b: seq<string>, c: seq<string>)
    requires a != [] && b != [] && c != []
    ensures Glue(Glue(a, b), c) == Glue(a, Glue(b, c))
  {
    var left, right := Glue(Glue(a, b), c), Glue(a, Glue(b, c));
    if |b| == 1 {
      assert a[|a| - 1] + b[0] + c[0] == a[|a| - 1] + (b[0] + c[0]);
    }
    assert forall i :: 0 <= i < |left| ==> left[i] == right[i];
  }

  lemma GlueNothing(a: seq<string>)
    requires a != []
    ensures Glue(a, [""]) == a && Glue([""], a) == a
  {
    assert a[|a| - 1] + "" == a[|a| - 1] && "" + a[0] == a[0];
  }

  /** Up to p, from p to q, and from q on. */
  lemma CutTwice(lines: seq<string>, p: Point, q: Point)
    requires Inside(lines, p) && Inside(lines, q) && Before(p, q)
    ensures Glue(Head(lines, p), Between(lines, p, q)) == Head(lines, q)
  {
    var glued := Glue(Head(lines, p), Between(lines, p, q));
    if p.row == q.row {
      assert lines[p.row][..p.col] + lines[p.row][p.col..q.col] == lines[p.row][..q.col];
    } else {
      assert lines[p.row][..p.col] + lines[p.row][p.col..] == lines[p.row];
    }
    assert forall i :: 0 <= i < |glued| ==> glued[i] == Head(lines, q)[i];
  }

  lemma BetweenGlue(lines: seq<string>, p: Point, q: Point, r: Point)
    requires Inside(lines, p) && Inside(lines, q) && Inside(lines, r) && Before(p, q) && Before(q, r)
    ensures Between(lines, p, r) == Glue(Between(lines, p, q), Between(lines, q, r))
  {
    CutTwice(lines, p, q);
    CutTwice(lines, q, r);
    CutTwice(lines, p, r);
    GlueIsAssociative(Head(lines, p), Between(lines, p, q), Between(lines, q, r));
    GlueCancels(Head(lines, p), Between(lines, p, r), Glue(Between(lines, p, q), Between(lines, q, r)));
  }

  lemma GlueCancels(a: seq<string>, b: seq<string>, c: seq<string>)
    requires a != [] && b != [] && c != [] && Glue(a, b) == Glue(a, c)
    ensures b == c
  {
    var last := a[|a| - 1];
    assert Glue(a, b)[|a| - 1] == last + b[0] && Glue(a, c)[|a| - 1] == last + c[0];
    assert b[0] == (last + b[0])[|last|..] && c[0] == (last + c[0])[|last|..];
    assert b[1..] == Glue(a, b)[|a|..] && c[1..] == Glue(a, c)[|a|..];
    assert b == [b[0]] + b[1..] && c == [c[0]] + c[1..];
  }

  lemma NothingBetween(lines: seq<string>, p: Point)
    requires Inside(lines, p)
    ensures Joined(Between(lines, p, p)) == ""
  {
  }

  /** The text up to a point of a line, the rest of that line, and the newline after it. */
  lemma RestOfLine(lines: seq<string>, p: Point, at: Point)
    requires Inside(lines, p) && Inside(lines, at) && Before(p, at) && at.row + 1 < |lines|
    ensures Joined(Between(lines, p, Point(at.row + 1, 0)))
            == Joined(Between(lines, p, at)) + lines[at.row][at.col..] + "\n"
  {
    var rest := Between(lines, at, Point(at.row + 1, 0));
    BetweenGlue(lines, p, at, Point(at.row + 1, 0));
    JoinedGlue(Between(lines, p, at), rest);
    assert rest == [lines[at.row][at.col..], ""] && rest[1..] == [""];
  }

  lemma PartOfLine(lines: seq<string>, p: Point, at: Point, q: Point)
    requires Inside(lines, p) && Inside(lines, at) && Inside(lines, q) && Before(p, at) && Before(at, q)
            && at.row == q.row
    ensures Joined(Between(lines, p, q)) == Joined(Between(lines, p, at)) + lines[q.row][at.col..q.col]
  {
    BetweenGlue(lines, p, at, q);
    JoinedGlue(Between(lines, p, at), Between(lines, at, q));
  }

  lemma OffsetsOrdered(lines: seq<string>, p: Point, q: Point)
    requires Inside(lines, p) && Inside(lines, q) && Before(p, q)
    ensures Offset(lines, q) == Offset(lines, p) + |Joined(Between(lines, p, q))|
    ensures Offset(lines, q) <= |Joined(lines)|
    ensures Joined(lines)[..Offset(lines, p)] == Joined(Head(lines, p))
    ensures Joined(lines)[Offset(lines, q)..] == Joined(Tail(lines, q))
    ensures Joined(lines)[Offset(lines, p)..Offset(lines, q)] == Joined(Between(lines, p, q))
  {
    CutTwice(lines, p, q);
    CutAndGlue(lines, q);
    JoinedGlue(Head(lines, p), Between(lines, p, q));
    JoinedGlue(Head(lines, q), Tail(lines, q));
  }

  /** A replacement of lines is that replacement in the joined text. */
  lemma ReplaceIsTextual(lines: seq<string>, p: Point, q: Point, ins: seq<string>)
    requires Inside(lines, p) && Inside(lines, q) && Before(p, q) && ins != []
    ensures Offset(lines, p) <= Offset(lines, q) <= |Joined(lines)|
    ensures Joined(Replace(lines, p, q, ins))
            == Joined(lines)[..Offset(lines, p)] + Joined(ins) + Joined(lines)[Offset(lines, q)..]
  {
    OffsetsOrdered(lines, p, q);
    JoinedGlue(Head(lines, p), ins);
    JoinedGlue(Glue(Head(lines, p), ins), Tail(lines, q));
  }

  /** The end of what was put in, as a point of the result and as an offset. */
  lemma EndOfReplacement(lines: seq<string>, p: Point, q: Point, ins: seq<string>)
    requires Inside(lines, p) && Inside(lines, q) && Before(p, q) && ins != []
    ensures var r := Replace(lines, p, q, ins);
            var end := End(Glue(Head(lines, p), ins));
            && Inside(r, end) && Head(r, end) == Glue(Head(lines, p), ins) && Tail(r, end) == Tail(lines, q)
            && Offset(r, end) == Offset(lines, p) + |Joined(ins)|
  {
    EndOfGlue(Glue(Head(lines, p), ins), Tail(lines, q));
    JoinedGlue(Head(lines, p), ins);
  }

  lemma EndOfGlue(first: seq<string>, second: seq<string>)
    requires first != [] && second != []
    ensures var r, end := Glue(first, second), End(first);
            Inside(r, end) && Head(r, end) == first && Tail(r, end) == second
  {
    var r, end := Glue(first, second), End(first);
    assert r[end.row] == first[end.row] + second[0];
    assert r[end.row][..end.col] == first[end.row] && r[end.row][end.col..] == second[0];
    assert r[..end.row] == first[..end.row] && r[end.row + 1..] == second[1..];
  }

  lemma CleanParts(lines: seq<string>, p: Point)
    requires Clean(lines) && Inside(lines, p)
    ensures Clean(Head(lines, p)) && Clean(Tail(lines, p))
  {
  }

  lemma CleanBetween(lines: seq<string>, p: Point, q: Point)
    requires Inside(lines, p) && Inside(lines, q) && Before(p, q) && Clean(lines)
    ensures Clean(Between(lines, p, q))
  {
    assert OneLine(lines[p.row]) && OneLine(lines[q.row]);
  }

  lemma CleanReplace(lines: seq<string>, p: Point, q: Point, ins: seq<string>)
    requires Inside(lines, p) && Inside(lines, q) && Before(p, q) && ins != []
    requires Clean(lines) && Clean(ins)
    ensures Clean(Replace(lines, p, q, ins))
  {
    CleanParts(lines, p);
    CleanParts(lines, q);
  }

  // ---------------------------------------------------------------- delete, then put back

  /** The range that was taken out, put back where it was: nothing has changed. */
  lemma DeleteThenPaste(lines: seq<string>, p: Point, q: Point)
    requires Clean(lines) && Inside(lines, p) && Inside(lines, q) && Before(p, q)
    ensures var cut := Replace(lines, p, q, [""]);
            && Inside(cut, p)
            && Replace(cut, p, p, Split(Joined(Between(lines, p, q)))) == lines
  {
    var cut, middle := Replace(lines, p, q, [""]), Between(lines, p, q);
    GlueNothing(Head(lines, p));
    EndOfReplacement(lines, p, q, [""]);
    assert End(Head(lines, p)) == p;
    SplitJoined(middle);
    CutTwice(lines, p, q);
    CutAndGlue(lines, q);
  }
}
