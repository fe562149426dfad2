/** Text as the script compiler sees it: C strings in fixed buffers, split into lines. */
module ScriptText {
  import opened CStrings

  const TEXT_LEN := 256
  const LONG_LEN := 4096

  predicate IsAlpha(c: char) { 'a' <= c <= 'z' || 'A' <= c <= 'Z' }

  /** trim_line_copy into a buffer of `size` bytes. */
  function Trimmed(line: string, size: nat): string
    requires size > 0
  {
    Cut(TrimRight(TrimLeft(line)), size)
  }

  /** The pieces a loop `while (p && *p)` over strchr(p, '\n') visits: no piece after a
      final newline. */
  function Lines(text: string): (ls: seq<string>)
    ensures forall i :: 0 <= i < |ls| ==> '\n' !in ls[i]
    decreases |text|
  {
    if text == "" then []
    else
      var end := IndexOf(text, '\n');
      [text[..end]] + (if end < |text| then Lines(text[end + 1..]) else [])
  }

  /** One turn of such a loop: the line at p, and where the next one starts. */
  method ReadLine(text: string, p: nat) returns (line: string, next: nat)
    requires p < |text|
    ensures p < next <= |text|
    ensures Lines(text[p..]) == [line] + Lines(text[next..])
  {
    var end := p;
    while end < |text| && text[end] != '\n'
      invariant p <= end <= |text|
      invariant IndexOf(text[p..], '\n') == end - p + IndexOf(text[end..], '\n')
    {
      assert text[end..][1..] == text[end + 1..];
      end := end + 1;
    }
    line := text[p..end];
    next := if end < |text| then end + 1 else |text|;
    LineCut(text, p, end);
  }

  lemma LineCut(text: string, p: nat, end: nat)
    requires p <= end <= |text| && p < |text| && IndexOf(text[p..], '\n') == end - p
    ensures Lines(text[p..]) == [text[p..end]] + Lines(text[if end < |text| then end + 1 else end..])
  {
    hide IndexOf, Lines;
    var rest := text[p..];
    LinesFirst(rest);
    assert rest[..end - p] == text[p..end];
    if end < |text| {
      assert rest[end - p + 1..] == text[end + 1..];
    } else {
      assert text[end..] == "";
      NoLines();
    }
  }

  lemma LinesFirst(text: string)
    requires text != ""
    ensures var end := IndexOf(text, '\n');
            Lines(text) == [text[..end]] + (if end < |text| then Lines(text[end + 1..]) else [])
  {
    hide IndexOf;
  }

  lemma NoLines()
    ensures Lines("") == []
  {
  }

  /** Lines put back together, each ended by a newline. */
  function Unlines(ls: seq<string>): string {
    if ls == [] then "" else ls[0] + "\n" + Unlines(ls[1..])
  }

  lemma {:induction false} IndexOfNewline(l: string, rest: string)
    requires '\n' !in l
    ensures IndexOf(l + "\n" + rest, '\n') == |l|
  {
    if l != "" {
      assert (l + "\n" + rest)[1..] == l[1..] + "\n" + rest;
      IndexOfNewline(l[1..], rest);
    }
  }

  lemma {:induction false} LinesOfUnlines(ls: seq<string>)
    requires forall l :: l in ls ==> '\n' !in l
    ensures Lines(Unlines(ls)) == ls
  {
    if ls != [] {
      var rest := Unlines(ls[1..]);
      var text := ls[0] + "\n" + rest;
      IndexOfNewline(ls[0], rest);
      assert text[..|ls[0]|] == ls[0] && text[|ls[0]| + 1..] == rest;
      LinesOfUnlines(ls[1..]);
    }
  }

  lemma {:induction false} UnlinesAppend(ls: seq<string>, l: string)
    ensures Unlines(ls + [l]) == Unlines(ls) + l + "\n"
  {
    if ls == [] {
      assert [] + [l] == [l];
      assert Unlines([l][1..]) == "";
    } else {
      assert (ls + [l])[1..] == ls[1..] + [l];
      UnlinesAppend(ls[1..], l);
    }
  }

  /** Up to the first white space: the word strncmp against a directive name looks at. */
  function Word(s: string): (w: string)
    ensures w <= s && (forall i :: 0 <= i < |w| ==> !IsSpace(w[i]))
    ensures |w| == |s| || IsSpace(s[|w|])
  {
    if s == "" || IsSpace(s[0]) then "" else [s[0]] + Word(s[1..])
  }

  /** trimmed_has_directive: the name followed by white space or the end. */
  predicate HasDirective(trimmed: string, name: string) {
    name <= trimmed && (|trimmed| == |name| || IsSpace(trimmed[|name|]))
  }

  lemma {:induction false} WordThenSpace(name: string, rest: string)
    requires forall i :: 0 <= i < |name| ==> !IsSpace(name[i])
    requires rest == "" || IsSpace(rest[0])
    ensures Word(name + rest) == name
  {
    if name == "" {
      assert name + rest == rest;
    } else {
      assert (name + rest)[1..] == name[1..] + rest;
      WordThenSpace(name[1..], rest);
    }
  }

  lemma HasDirectiveIsFirstWord(trimmed: string, name: string)
    requires forall i :: 0 <= i < |name| ==> !IsSpace(name[i])
    ensures HasDirective(trimmed, name) <==> Word(trimmed) == name
  {
    if HasDirective(trimmed, name) {
      assert trimmed == name + trimmed[|name|..];
      WordThenSpace(name, trimmed[|name|..]);
    }
  }
}
