/** The machine-interface text of the debugger: how gd quotes, reads a quoted field, and finds
    the end of a record or a list. */
module MiText {
  import opened Options

  /** One character inside quotes.  quote_mi protects quotes and backslashes; the debugger also
      writes the line breaks and tabs of a value with a backslash. */
  function EscChar(c: char, all: bool): string {
    if c == '\\' || c == '"' then ['\\', c]
    else if all && c == '\n' then ['\\', 'n']
    else if all && c == '\r' then ['\\', 'r']
    else if all && c == '\t' then ['\\', 't']
    else [c]
  }

  function Esc(s: string, all: bool): string {
    if s == "" then "" else EscChar(s[0], all) + Esc(s[1..], all)
  }

  function Quoted(s: string, all: bool): string {
    ['"'] + Esc(s, all) + ['"']
  }

  lemma {:induction false} EscJoins(s: string, t: string, all: bool)
    ensures Esc(s + t, all) == Esc(s, all) + Esc(t, all)
  {
    if s == "" {
      assert s + t == t;
    } else {
      assert (s + t)[1..] == s[1..] + t;
      EscJoins(s[1..], t, all);
    }
  }

  lemma EscOne(s: string, i: nat, all: bool)
    requires i < |s|
    ensures Esc(s[..i + 1], all) == Esc(s[..i], all) + EscChar(s[i], all)
    ensures |Esc(s, all)| >= |Esc(s[..i + 1], all)|
  {
    assert s[..i + 1] == s[..i] + [s[i]] && s == s[..i + 1] + s[i + 1..];
    EscJoins(s[..i], [s[i]], all);
    EscJoins(s[..i + 1], s[i + 1..], all);
    assert [s[i]][1..] == "";
  }

  /** quote_mi into a buffer of `size` bytes: the whole quoted text if it fits; otherwise the
      buffer is filled with the quoted text of a shorter string, possibly left open. */
  method QuoteMi(src: string, size: nat) returns (dst: string)
    requires size > 0
    ensures |dst| < size
    ensures |Esc(src, false)| + 2 < size ==> dst == Quoted(src, false)
    ensures |Esc(src, false)| + 2 >= size ==>
              |dst| + 1 == size && exists k :: 0 <= k <= |src| && dst <= Quoted(src[..k], false)
  {
    dst := ['"'];
    var i := 0;
    while i < |src| && |dst| + 2 < size
      invariant 0 <= i <= |src| && (i > 0 ==> |dst| < size)
      invariant dst == ['"'] + Esc(src[..i], false)
    {
      EscOne(src, i, false);
      if src[i] == '\\' || src[i] == '"' { dst := dst + ['\\']; }
      dst := dst + [src[i]];
      i := i + 1;
    }
    assert src[..|src|] == src;
    if i < |src| { EscOne(src, i, false); }
    assert dst <= Quoted(src[..i], false);
    if |dst| + 1 < size { dst := dst + ['"']; }
    dst := if |dst| < size then dst else dst[..size - 1];
  }

  // ---------------------------------------------------------------- reading a field

  /** strstr: the first position of a text in another. */
  function Find(s: string, needle: string): (i: Option<nat>)
    ensures i.Some? ==> OccursAt(s, needle, i.value)
    ensures forall j :: 0 <= j < (if i.Some? then i.value else |s|) ==> !OccursAt(s, needle, j)
    decreases |s|
  {
    if needle <= s then Some(0)
    else if s == "" then None
    else
      var later := Find(s[1..], needle);
      assert forall j :: 1 <= j <= |s| ==> (OccursAt(s, needle, j) <==> OccursAt(s[1..], needle, j - 1)) by {
        forall j | 1 <= j <= |s|
          ensures OccursAt(s, needle, j) <==> OccursAt(s[1..], needle, j - 1)
        {
          assert s[j..] == s[1..][j - 1..];
        }
      }
      if later.Some? then Some(later.value + 1) else None
  }

  predicate OccursAt(s: string, needle: string, i: int) {
    0 <= i <= |s| && needle <= s[i..]
  }

  function Unescaped(c: char): char {
    match c
    case 'n' => '\n'
    case 'r' => '\r'
    case 't' => '\t'
    case _ => c
  }

  /** The characters up to the closing quote, as many as `room` allows. */
  function Decode(s: string, room: nat): string
    decreases |s|
  {
    if s == "" || s[0] == '"' || room == 0 then ""
    else if s[0] == '\\' && |s| > 1 then [Unescaped(s[1])] + Decode(s[2..], room - 1)
    else [s[0]] + Decode(s[1..], room - 1)
  }

  /** mi_string into a buffer of `size` bytes; a key is short enough for its own buffer. */
  function MiString(line: string, key: string, size: nat): Option<string>
    requires size > 0
  {
    var needle := key + "=\"";
    var at := Find(line, needle);
    if at.None? then None else Some(Decode(line[at.value + |needle|..], size - 1))
  }

  /** The loop of mi_string, from the character after the opening quote on. */
  method ReadQuoted(line: string, start: nat, size: nat) returns (out: string)
    requires start <= |line| && size > 0
    ensures out == Decode(line[start..], size - 1)
  {
    hide Decode;
    out := "";
    var p := start;
    assert out + Decode(line[p..], size - 1) == Decode(line[p..], size - 1);
    while p < |line| && line[p] != '"' && |out| + 1 < size
      invariant start <= p <= |line| && |out| < size
      invariant Decode(line[start..], size - 1) == out + Decode(line[p..], size - 1 - |out|)
    {
      var escaped := line[p] == '\\' && p + 1 < |line|;
      var c := if escaped then Unescaped(line[p + 1]) else line[p];
      ghost var q := if escaped then p + 2 else p + 1;
      DecodeStep(line[p..], size - 1 - |out|);
      assert line[p..][q - p..] == line[q..] && line[p..][0] == line[p];
      ghost var more := Decode(line[q..], size - 2 - |out|);
      assert Decode(line[p..], size - 1 - |out|) == [c] + more;
      assert out + ([c] + more) == out + [c] + more;
      out := out + [c];
      p := if escaped then p + 2 else p + 1;
    }
    DecodeStops(line[p..], size - 1 - |out|);
    assert out + "" == out;
  }

  lemma DecodeStops(s: string, room: nat)
    requires s == "" || s[0] == '"' || room == 0
    ensures Decode(s, room) == ""
  {
  }

  lemma DecodeStep(s: string, room: nat)
    requires s != "" && s[0] != '"' && room > 0
    ensures Decode(s, room) == if s[0] == '\\' && |s| > 1 then [Unescaped(s[1])] + Decode(s[2..], room - 1)
                               else [s[0]] + Decode(s[1..], room - 1)
  {
  }

  // ---------------------------------------------------------------- finding an end

  /** mi_record_end and mi_list_end: from a state of the scan, the position of the closer that
      brings the depth back to zero. */
  function EndFrom(s: string, p: nat, opener: char, closer: char, depth: int, quoted: bool, escaped: bool)
    : (r: Option<nat>)
    requires p <= |s|
    ensures r.Some? ==> p <= r.value < |s|
    decreases |s| - p
  {
    if p == |s| then None
    else if escaped then EndFrom(s, p + 1, opener, closer, depth, quoted, false)
    else if quoted && s[p] == '\\' then EndFrom(s, p + 1, opener, closer, depth, quoted, true)
    else if s[p] == '"' then EndFrom(s, p + 1, opener, closer, depth, !quoted, false)
    else if quoted then EndFrom(s, p + 1, opener, closer, depth, quoted, false)
    else if s[p] == opener then EndFrom(s, p + 1, opener, closer, depth + 1, quoted, false)
    else if s[p] == closer then
      if depth == 1 then Some(p) else EndFrom(s, p + 1, opener, closer, depth - 1, quoted, false)
    else EndFrom(s, p + 1, opener, closer, depth, quoted, false)
  }

  /** mi_record_end, with braces, and mi_list_end, with brackets. */
  method ScanEnd(s: string, start: nat, opener: char, closer: char) returns (end: Option<nat>)
    requires start <= |s| && opener != closer
    ensures end == EndFrom(s, start, opener, closer, 0, false, false)
  {
    var depth, quoted, escaped, p := 0, false, false, start;
    while p < |s|
      invariant start <= p <= |s|
      invariant EndFrom(s, start, opener, closer, 0, false, false)
              == EndFrom(s, p, opener, closer, depth, quoted, escaped)
    {
      var c := s[p];
      if escaped {
        escaped := false;
      } else if quoted && c == '\\' {
        escaped := true;
      } else if c == '"' {
        quoted := !quoted;
      } else if !quoted {
        if c == opener {
          depth := depth + 1;
        } else if c == closer {
          depth := depth - 1;
          if depth == 0 { return Some(p); }
        }
      }
      p := p + 1;
    }
    end := None;
  }
}
