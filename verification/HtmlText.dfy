/** Escaping text for HTML. */
module HtmlText {
  import opened Text

  function EscapeChar(c: char): string {
    if c == '<' then "&lt;"
    else if c == '>' then "&gt;"
    else if c == '&' then "&amp;"
    else if c == '\'' then "&#39;"
    else if c == '\"' then "&#34;"
    else [c]
  }

  function Escape(s: string): string {
    if s == "" then "" else EscapeChar(s[0]) + Escape(s[1..])
  }

  // The character an entity at the start of s stands for, and its length.
  function Entity(s: string): Option<(char, nat)> {
    if "&lt;" <= s then Some(('<', 4))
    else if "&gt;" <= s then Some(('>', 4))
    else if "&amp;" <= s then Some(('&', 5))
    else if "&#39;" <= s then Some(('\'', 5))
    else if "&#34;" <= s then Some(('\"', 5))
    else None
  }

  // Reads escaped text back; None where an ampersand begins no entity.
  function Unescape(s: string): Option<string> {
    if s == "" then Some("")
    else if s[0] == '&' then
      var e := Entity(s);
      if e.None? then None else Prefixed([e.value.0], Unescape(s[e.value.1..]))
    else Prefixed([s[0]], Unescape(s[1..]))
  }

  function Prefixed(s: string, t: Option<string>): Option<string> {
    if t.Some? then Some(s + t.value) else None
  }

  lemma UnescapeChar(c: char, t: string)
    ensures Unescape(EscapeChar(c) + t) == Prefixed([c], Unescape(t))
  {
    var s, n := EscapeChar(c) + t, |EscapeChar(c)|;
    assert s[n..] == t;
    if n > 1 {
      assert s[0] == '&' && EscapeChar(c) <= s;
      assert s[1] == EscapeChar(c)[1] && s[3] == EscapeChar(c)[3];
      assert Entity(s) == Some((c, n));
    }
  }

  // Unescaping undoes escaping, whatever escaped text follows.
  lemma {:induction false} UnescapeEscape(s: string, t: string)
    ensures Unescape(Escape(s) + t) == Prefixed(s, Unescape(t))
  {
    if s == "" {
      assert Escape(s) + t == t;
      PrefixedTwice("", "", Unescape(t));
    } else {
      UnescapeEscape(s[1..], t);
      UnescapeChar(s[0], Escape(s[1..]) + t);
      assert Escape(s) + t == EscapeChar(s[0]) + (Escape(s[1..]) + t);
      PrefixedTwice([s[0]], s[1..], Unescape(t));
      assert s == [s[0]] + s[1..];
    }
  }

  lemma PrefixedTwice(a: string, b: string, t: Option<string>)
    ensures Prefixed(a, Prefixed(b, t)) == Prefixed(a + b, t)
    ensures Prefixed("", t) == t
  {
    if t.Some? {
      assert a + (b + t.value) == a + b + t.value;
      assert "" + t.value == t.value;
    }
  }

  // Escaped text holds nothing that could end it or begin a tag.
  lemma {:induction false} EscapeIsInert(s: string)
    ensures '<' !in Escape(s) && '>' !in Escape(s) && '\"' !in Escape(s)
    ensures Escape(s) == "" <==> s == ""
  {
    if s != "" {
      EscapeIsInert(s[1..]);
    }
  }

  lemma EscapeInjective(s: string, t: string)
    requires Escape(s) == Escape(t)
    ensures s == t
  {
    UnescapeEscape(s, "");
    UnescapeEscape(t, "");
    assert Escape(s) + "" == Escape(s) && Escape(t) + "" == Escape(t);
    assert s + "" == s && t + "" == t;
  }
}
