/** Nested machine-interface values, and the law that a record or list ends at its own closer,
    whatever its quoted parts contain. */
module MiNesting {
  import opened Options
  import opened MiText

  datatype Node = Bare(text: string) | Str(value: string) | Braces(items: seq<Node>) | Brackets(items: seq<Node>)

  function ShowNode(n: Node): string {
    match n
    case Bare(text) => text
    case Str(value) => Quoted(value, true)
    case Braces(items) => "{" + Show(items) + "}"
    case Brackets(items) => "[" + Show(items) + "]"
  }

  function Show(nodes: seq<Node>): string {
    if nodes == [] then "" else ShowNode(nodes[0]) + Show(nodes[1..])
  }

  predicate Special(c: char) {
    c == '"' || c == '{' || c == '}' || c == '[' || c == ']'
  }

  /** Bare text has none of the characters that structure a value. */
  predicate WellFormed(n: Node) {
    match n
    case Bare(text) => forall i :: 0 <= i < |text| ==> !Special(text[i])
    case Str(value) => true
    case Braces(items) => forall i :: 0 <= i < |items| ==> WellFormed(items[i])
    case Brackets(items) => forall i :: 0 <= i < |items| ==> WellFormed(items[i])
  }

  predicate AllWellFormed(nodes: seq<Node>) {
    forall i :: 0 <= i < |nodes| ==> WellFormed(nodes[i])
  }

  /** The text t stands in s at position p. */
  predicate Has(s: string, p: nat, t: string) {
    p + |t| <= |s| && s[p..p + |t|] == t
  }

  lemma HasParts(s: string, p: nat, t: string, u: string)
    requires Has(s, p, t + u)
    ensures Has(s, p, t) && Has(s, p + |t|, u)
  {
    var both := s[p..p + |t + u|];
    assert both[..|t|] == t && both[|t|..] == u;
    assert s[p..p + |t|] == both[..|t|] && s[p + |t|..p + |t| + |u|] == both[|t|..];
  }

  lemma HasFirst(s: string, p: nat, c: char, u: string)
    requires Has(s, p, [c] + u)
    ensures s[p] == c && Has(s, p + 1, u)
  {
    HasParts(s, p, [c], u);
    assert s[p..p + 1][0] == c;
  }

  /** The kinds of closer that are looked for. */
  predicate Kind(opener: char, closer: char) {
    (opener == '{' && closer == '}') || (opener == '[' && closer == ']')
  }

  lemma {:induction false} ScanBare(s: string, p: nat, t: string, opener: char, closer: char, depth: int)
    requires Has(s, p, t) && Kind(opener, closer) && forall i :: 0 <= i < |t| ==> !Special(t[i])
    ensures EndFrom(s, p, opener, closer, depth, false, false)
            == EndFrom(s, p + |t|, opener, closer, depth, false, false)
    decreases |t|
  {
    if t != "" {
      assert t == [t[0]] + t[1..];
      HasFirst(s, p, t[0], t[1..]);
      ScanBare(s, p + 1, t[1..], opener, closer, depth);
    }
  }

  /** Inside quotes nothing is counted, and the escaped text never ends them. */
  lemma {:induction false} ScanEscaped(s: string, p: nat, v: string, opener: char, closer: char, depth: int)
    requires Has(s, p, Esc(v, true)) && Kind(opener, closer)
    ensures EndFrom(s, p, opener, closer, depth, true, false)
            == EndFrom(s, p + |Esc(v, true)|, opener, closer, depth, true, false)
    decreases |v|
  {
    if v != "" {
      var e, rest := EscChar(v[0], true), Esc(v[1..], true);
      HasParts(s, p, e, rest);
      assert s[p] == s[p..p + |e|][0] == e[0];
      ScanEscaped(s, p + |e|, v[1..], opener, closer, depth);
    }
  }

  lemma ScanQuoted(s: string, p: nat, v: string, opener: char, closer: char, depth: int)
    requires Has(s, p, Quoted(v, true)) && Kind(opener, closer)
    ensures EndFrom(s, p, opener, closer, depth, false, false)
            == EndFrom(s, p + |Quoted(v, true)|, opener, closer, depth, false, false)
  {
    var e := Esc(v, true);
    assert Quoted(v, true) == ['"'] + (e + ['"']);
    HasFirst(s, p, '"', e + ['"']);
    HasParts(s, p + 1, e, ['"']);
    HasFirst(s, p + 1 + |e|, '"', "");
    ScanEscaped(s, p + 1, v, opener, closer, depth);
  }

  /** Below an open bracket, whole values are passed over. */
  lemma {:induction false} ScanNode(s: string, p: nat, n: Node, opener: char, closer: char, depth: int)
    requires Has(s, p, ShowNode(n)) && Kind(opener, closer) && WellFormed(n) && depth >= 1
    ensures EndFrom(s, p, opener, closer, depth, false, false)
            == EndFrom(s, p + |ShowNode(n)|, opener, closer, depth, false, false)
    decreases n, 1
  {
    match n
    case Bare(text) => ScanBare(s, p, text, opener, closer, depth);
    case Str(value) => ScanQuoted(s, p, value, opener, closer, depth);
    case Braces(items) => ScanEnclosed(s, p, items, '{', '}', opener, closer, depth);
    case Brackets(items) => ScanEnclosed(s, p, items, '[', ']', opener, closer, depth);
  }

  lemma {:induction false} ScanEnclosed(s: string, p: nat, items: seq<Node>, a: char, b: char, opener: char,
        closer: char, depth: int)
    requires Has(s, p, [a] + Show(items) + [b]) && Kind(a, b) && Kind(opener, closer) && AllWellFormed(items)
            && depth >= 1
    ensures EndFrom(s, p, opener, closer, depth, false, false)
            == EndFrom(s, p + |Show(items)| + 2, opener, closer, depth, false, false)
    decreases items, 1
  {
    hide Show, ShowNode, WellFormed, AllWellFormed, Has;
    var inner := if a == opener then depth + 1 else depth;
    var t := Show(items);
    assert [a] + t + [b] == [a] + (t + [b]);
    HasFirst(s, p, a, t + [b]);
    HasParts(s, p + 1, t, [b]);
    HasFirst(s, p + 1 + |t|, b, "");
    ScanNodes(s, p + 1, items, opener, closer, inner);
  }

  lemma {:induction false} ScanNodes(s: string, p: nat, nodes: seq<Node>, opener: char, closer: char, depth: int)
    requires Has(s, p, Show(nodes)) && Kind(opener, closer) && AllWellFormed(nodes) && depth >= 1
    ensures EndFrom(s, p, opener, closer, depth, false, false)
            == EndFrom(s, p + |Show(nodes)|, opener, closer, depth, false, false)
    decreases nodes, 0
  {
    hide EndFrom, ShowNode, WellFormed, Has;
    if nodes != [] {
      HasParts(s, p, ShowNode(nodes[0]), Show(nodes[1..]));
      ScanNode(s, p, nodes[0], opener, closer, depth);
      ScanNodes(s, p + |ShowNode(nodes[0])|, nodes[1..], opener, closer, depth);
    }
  }

  /** mi_record_end from the brace of a record, and mi_list_end from the bracket of a list:
      the closer of that very record or list. */
  lemma EndsAtOwnCloser(s: string, p: nat, items: seq<Node>, opener: char, closer: char)
    requires Has(s, p, [opener] + Show(items) + [closer]) && Kind(opener, closer) && AllWellFormed(items)
    ensures EndFrom(s, p, opener, closer, 0, false, false) == Some(p + |Show(items)| + 1)
  {
    hide Show, ShowNode, WellFormed, AllWellFormed, Has;
    var t := Show(items);
    assert [opener] + t + [closer] == [opener] + (t + [closer]);
    HasFirst(s, p, opener, t + [closer]);
    HasParts(s, p + 1, t, [closer]);
    HasFirst(s, p + 1 + |t|, closer, "");
    ScanNodes(s, p + 1, items, opener, closer, 1);
  }

  // ---------------------------------------------------------------- reading back a quoted text

  lemma DecodePlain(c: char, rest: string, room: nat)
    requires c != '"' && c != '\\' && room > 0
    ensures Decode([c] + rest, room) == [c] + Decode(rest, room - 1)
  {
    assert ([c] + rest)[1..] == rest;
  }

  lemma DecodeBackslash(x: char, rest: string, room: nat)
    requires room > 0
    ensures Decode(['\\', x] + rest, room) == [Unescaped(x)] + Decode(rest, room - 1)
  {
    assert (['\\', x] + rest)[2..] == rest;
  }

  /** One escaped character is read back as itself. */
  lemma DecodeChar(c: char, rest: string, room: nat, all: bool)
    requires room > 0
    ensures Decode(EscChar(c, all) + rest, room) == [c] + Decode(rest, room - 1)
  {
    var e := EscChar(c, all);
    hide Decode;
    if |e| == 2 {
      DecodeBackslash(e[1], rest, room);
    } else {
      DecodePlain(c, rest, room);
    }
  }

  /** A quoted text is read back as it was, cut at the size of the buffer. */
  lemma {:induction false} DecodeEsc(v: string, rest: string, room: nat, all: bool)
    ensures Decode(Esc(v, all) + ['"'] + rest, room) == if |v| <= room then v else v[..room]
    decreases |v|
  {
    hide EscChar, Decode;
    if v == "" {
      DecodeStops("" + ['"'] + rest, room);
    } else if room == 0 {
      DecodeStops(Esc(v, all) + ['"'] + rest, room);
    } else {
      var more := Esc(v[1..], all) + ['"'] + rest;
      DecodeEsc(v[1..], rest, room - 1, all);
      DecodeChar(v[0], more, room, all);
      assert Esc(v, all) + ['"'] + rest == EscChar(v[0], all) + more;
      hide Esc;
      if |v| <= room {
        assert [v[0]] + v[1..] == v;
      } else {
        assert [v[0]] + v[1..][..room - 1] == v[..room];
      }
    }
  }

  // ---------------------------------------------------------------- a text that is cut short

  /** What is read of a text of which only `avail` printed characters are there: a cut through
      an escaped character leaves its backslash. */
  function Taken(v: string, avail: nat, room: nat): string {
    if v == "" || room == 0 || avail == 0 then ""
    else
      var e := |EscChar(v[0], true)|;
      if e <= avail then [v[0]] + Taken(v[1..], avail - e, room - 1) else "\\"
  }

  lemma {:induction false} DecodeCut(v: string, rest: string, m: nat, room: nat)
    requires m <= |Esc(v, true) + ['"'] + rest|
    ensures Decode((Esc(v, true) + ['"'] + rest)[..m], room) == Taken(v, m, room)
    decreases |v|
  {
    hide EscChar, Decode;
    var s := Esc(v, true) + ['"'] + rest;
    if v == "" {
      assert s == "" + ['"'] + rest && (m > 0 ==> s[..m][0] == '"');
      DecodeStops(s[..m], room);
    } else if room == 0 || m == 0 {
      DecodeStops(s[..m], room);
    } else {
      var e, more := EscChar(v[0], true), Esc(v[1..], true) + ['"'] + rest;
      assert s == e + more;
      if |e| <= m {
        assert s[..m] == e + more[..m - |e|];
        DecodeChar(v[0], more[..m - |e|], room, true);
        DecodeCut(v[1..], rest, m - |e|, room - 1);
      } else {
        EscapedIsTwo(v[0]);
        assert s[..m] == ['\\'];
        DecodeLoneBackslash(room);
      }
    }
  }

  lemma EscapedIsTwo(c: char)
    ensures 1 <= |EscChar(c, true)| <= 2
    ensures |EscChar(c, true)| == 2 ==> EscChar(c, true)[0] == '\\'
  {
  }

  lemma DecodeLoneBackslash(room: nat)
    requires room > 0
    ensures Decode(['\\'], room) == "\\"
  {
    assert ['\\'][1..] == "";
  }

  /** With room enough in front of the cut nothing is lost. */
  lemma {:induction false} TakenWhole(v: string, avail: nat, room: nat)
    requires avail >= 2 * room || avail >= |Esc(v, true)|
    ensures Taken(v, avail, room) == if |v| <= room then v else v[..room]
    decreases |v|
  {
    hide EscChar;
    if v != "" {
      EscapedIsTwo(v[0]);
      if room > 0 {
        TakenWhole(v[1..], avail - |EscChar(v[0], true)|, room - 1);
        if |v| <= room {
          assert [v[0]] + v[1..] == v;
        } else {
          assert [v[0]] + v[1..][..room - 1] == v[..room];
        }
      }
    }
  }
}
