/** The edits written out line by line, as the editor carries them out on its array. */
module EditorForms {
  import opened EditorText
  import opened EditorEdits

  /** The lines from `first` to `last` replaced by others. */
  function WithRows(lines: seq<string>, first: int, last: int, rows: seq<string>): seq<string>
    requires 0 <= first <= last < |lines|
  {
    lines[..first] + rows + lines[last + 1..]
  }

  lemma OneLineForm(b: Buf, p: Point, q: Point, t: string)
    requires Inside(b.lines, p) && Inside(b.lines, q) && Before(p, q)
    ensures Edited(b, p, q, [t])
            == Buf(WithRows(b.lines, p.row, q.row, [b.lines[p.row][..p.col] + t + b.lines[q.row][q.col..]]),
                   p.row, p.col + |t|)
  {
  }

  lemma TwoLineForm(b: Buf, p: Point, t: string, u: string)
    requires Inside(b.lines, p)
    ensures Edited(b, p, p, [t, u])
            == Buf(WithRows(b.lines, p.row, p.row, [b.lines[p.row][..p.col] + t, u + b.lines[p.row][p.col..]]),
                   p.row + 1, |u|)
  {
  }

  /** Some lines put in at p so far; `rest` follows the last of them on its line. */
  function Placed(lines: seq<string>, p: Point, parts: seq<string>, rest: string): seq<string>
    requires Inside(lines, p) && parts != []
  {
    WithRows(lines, p.row, p.row, Glue(Glue([lines[p.row][..p.col]], parts), [rest]))
  }

  lemma PlacedAll(b: Buf, p: Point, parts: seq<string>)
    requires Inside(b.lines, p) && parts != []
    ensures Edited(b, p, p, parts)
            == Buf(Placed(b.lines, p, parts, b.lines[p.row][p.col..]), p.row + |parts| - 1,
                   (if |parts| == 1 then p.col else 0) + |parts[|parts| - 1]|)
  {
    var line := b.lines[p.row];
    var glued := Glue(Head(b.lines, p), parts);
    var middle := Glue([line[..p.col]], parts);
    assert glued == b.lines[..p.row] + middle;
    assert Glue(glued, Tail(b.lines, p)) == b.lines[..p.row] + Glue(middle, [line[p.col..]]) + b.lines[p.row + 1..];
  }

  /** One more line below the ones that are there. */
  lemma PlacedOneMore(lines: seq<string>, p: Point, parts: seq<string>, k: nat, rest: string)
    requires Inside(lines, p) && 1 <= k < |parts|
    ensures var before := Placed(lines, p, parts[..k], "");
            var at := p.row + k;
            && |before| == |lines| + k - 1
            && Placed(lines, p, parts[..k + 1], rest) == before[..at] + [parts[k] + rest] + before[at..]
  {
    var head := lines[p.row][..p.col];
    var so, next := Glue([head], parts[..k]), Glue([head], parts[..k + 1]);
    assert next == so + [parts[k]];
    GlueNothing(so);
    assert Glue(next, [rest]) == so + [parts[k] + rest];
  }

  lemma PlacedFirst(lines: seq<string>, p: Point, t: string, rest: string)
    requires Inside(lines, p)
    ensures Placed(lines, p, [t], rest) == WithRows(lines, p.row, p.row, [lines[p.row][..p.col] + t + rest])
  {
    var head := lines[p.row][..p.col];
    assert Glue([head], [t]) == [head + t];
    assert Glue([head + t], [rest]) == [head + t + rest];
  }

  lemma PlacedSize(lines: seq<string>, p: Point, parts: seq<string>)
    requires Inside(lines, p)
    ensures forall k, rest :: 1 <= k <= |parts| ==> |Placed(lines, p, parts[..k], rest)| == |lines| + k - 1
  {
  }

  lemma PasteLinesForm(b: Buf, clipboard: seq<string>, above: bool)
    requires Fine(b)
    ensures var at := if above then b.row else b.row + 1;
            PasteLines(b, clipboard, above)
            == Buf(b.lines[..at] + clipboard[..Clamp(|clipboard|, 0, EDITOR_LINES - |b.lines|)] + b.lines[at..], at, 0)
  {
  }
}
