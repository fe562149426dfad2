/** The argument of @evidence-vars: any list of variables, with or without labels, is read back as it
    is written, up to 32 of them. */
module ScriptEvidence {
  import opened Options
  import opened CStrings
  import opened ScriptText
  import opened ScriptDirectives
  import opened ScriptWords

  predicate Printable(v: EvidenceVar) {
    && IsValidVarName(v.name) && |v.name| < TEXT_LEN && |v.shown| < TEXT_LEN
    && (if v.labeled then v.shown != "" && '=' !in v.shown else v.shown == "")
  }

  /** One variable as a token: its label, an equals sign and its name, or only the name. */
  function ItemText(v: EvidenceVar): string {
    if v.labeled then v.shown + ("=" + v.name) else v.name
  }

  /** The variables with every character protected, a blank between them. */
  function Printed(vs: seq<EvidenceVar>): string {
    if vs == [] then "" else Backslashed(ItemText(vs[0])) + (if |vs| == 1 then "" else " " + Printed(vs[1..]))
  }

  lemma {:induction false} TokenReadsBack(t: string, rest: string)
    requires rest == "" || IsSpace(rest[0])
    ensures Token(Backslashed(t) + rest, '\0') == (t, rest, true)
    decreases |t|
  {
    hide Backslashed;
    BackslashedAhead(t, rest);
    if t != "" {
      TokenReadsBack(t[1..], rest);
      assert (['\\', t[0]] + (Backslashed(t[1..]) + rest))[2..] == Backslashed(t[1..]) + rest;
      assert [t[0]] + t[1..] == t;
    }
  }

  /** What a token reads behind some text of its own. */
  predicate GoesOn(all: (string, string, bool), s: string, more: (string, string, bool)) {
    all == (s + more.0, more.1, more.2)
  }

  /** Plain text is part of the token as it stands: outside quotes up to white space, inside them with it. */
  lemma {:induction false} PlainToken(s: string, quote: char, rest: string)
    requires quote in {'\0', '\'', '"'} && '\\' !in s
    requires if quote == '\0' then '\'' !in s && '"' !in s && forall i :: 0 <= i < |s| ==> !IsSpace(s[i])
             else quote !in s
    ensures GoesOn(Token(s + rest, quote), s, Token(rest, quote))
    decreases |s|
  {
    if s == "" {
      assert s + rest == rest && s + Token(rest, quote).0 == Token(rest, quote).0;
    } else {
      PlainToken(s[1..], quote, rest);
      assert (s + rest)[0] == s[0] && (s + rest)[1..] == s[1..] + rest;
      assert [s[0]] + (s[1..] + Token(rest, quote).0) == s + Token(rest, quote).0;
    }
  }

  /** Quotes are taken off in pairs, with all white space between them kept; a missing one is noticed. */
  lemma QuotedToken(s: string, quote: char, rest: string)
    requires (quote == '\'' || quote == '"') && '\\' !in s && quote !in s
    ensures GoesOn(Token([quote] + (s + ([quote] + rest)), '\0'), s, Token(rest, '\0'))
    ensures !Token([quote] + s, '\0').2
  {
    var tail := [quote] + rest;
    assert ([quote] + (s + tail))[1..] == s + tail && tail[1..] == rest;
    PlainToken(s, quote, tail);
    PlainToken(s, quote, "");
    assert ([quote] + s)[1..] == s == s + "";
    assert !IsSpace(quote);
    assert Token(tail, quote) == Token(rest, '\0');
    assert Token("", quote) == ("", "", false);
  }

  lemma {:induction false} EqualsFound(shown: string, name: string)
    requires '=' !in shown
    ensures IndexOf(shown + ("=" + name), '=') == |shown|
  {
    if shown == "" {
      assert shown + ("=" + name) == "=" + name;
    } else {
      assert (shown + ("=" + name))[1..] == shown[1..] + ("=" + name);
      EqualsFound(shown[1..], name);
    }
  }

  lemma NoEquals(name: string)
    requires IsValidVarName(name)
    ensures IndexOf(name, '=') == |name|
  {
    VariableNames(name);
  }

  lemma ItemReadsBack(v: EvidenceVar)
    requires Printable(v)
    ensures ItemText(v) != "" && EvidenceItem(ItemText(v)) == Ok(v)
  {
    var t := ItemText(v);
    hide IndexOf, IsValidVarName;
    if v.labeled {
      EqualsFound(v.shown, v.name);
      assert t[..|v.shown|] == v.shown && t[|v.shown| + 1..] == v.name && t[|v.shown|] == '=';
    } else {
      NoEquals(v.name);
    }
    assert v.name != "" by { VariableNames(v.name); }
    hide Cut;
    assert Cut(v.name, TEXT_LEN) == v.name && Cut(v.shown, TEXT_LEN) == v.shown by { Uncut(v.name); Uncut(v.shown); }
  }

  lemma StartsSolid(t: string, rest: string)
    requires t != ""
    ensures TrimLeft(Backslashed(t) + rest) == Backslashed(t) + rest != ""
  {
    assert Backslashed(t)[0] == '\\';
  }

  /** A list is read back, and one that is too long is refused. */
  lemma {:induction false} EvidenceReadsBack(vs: seq<EvidenceVar>, so: seq<EvidenceVar>)
    requires (forall i :: 0 <= i < |vs| ==> Printable(vs[i])) && |so| <= 32 && |so| + |vs| > 0
    ensures EvidenceItems(Printed(vs), so) == if |so| + |vs| <= 32 then Ok(so + vs) else Err(EvidenceTooMany)
    ensures EvidenceItems(" " + Printed(vs), so) == EvidenceItems(Printed(vs), so)
    decreases |vs|
  {
    hide Token, EvidenceItem, Printable, Backslashed, ItemText, TrimLeft;
    BlankGoes(Printed(vs));
    if vs == [] {
      NoneLeft(so);
      assert so + [] == so;
    } else {
      var v, t := vs[0], ItemText(vs[0]);
      var rest := if |vs| == 1 then "" else " " + Printed(vs[1..]);
      ItemReadsBack(v);
      StartsSolid(t, rest);
      TokenReadsBack(t, rest) by { assert IsSpace(' '); }
      assert so + vs == so + [v] + vs[1..];
      if |so| < 32 {
        EvidenceReadsBack(vs[1..], so + [v]);
        if |vs| == 1 { assert Printed(vs[1..]) == ""; }
      }
    }
  }

  lemma NoneLeft(so: seq<EvidenceVar>)
    requires so != []
    ensures EvidenceItems("", so) == Ok(so)
  {
  }

  lemma BlankGoes(s: string)
    ensures TrimLeft(" " + s) == TrimLeft(s)
  {
    assert (" " + s)[1..] == s;
  }
}
