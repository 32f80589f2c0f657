/** Reading back the formatted body as it is sent: without white space at its ends. */
module HtmlTrimmed {
  import opened Text
  import opened HtmlText
  import opened MessageHtml
  import opened HtmlParser

  // The tree without white space before its first or behind its last
  // character, and without texts that were nothing else there.
  function TrimFront(cs: seq<Clean>): seq<Clean> {
    if cs == [] || !cs[0].CleanText? then cs
    else if TrimLeft(cs[0].text) == "" then TrimFront(cs[1..])
    else [CleanText(TrimLeft(cs[0].text))] + cs[1..]
  }

  function TrimBack(cs: seq<Clean>): seq<Clean> {
    if cs == [] || !cs[|cs| - 1].CleanText? then cs
    else if TrimRight(cs[|cs| - 1].text) == "" then TrimBack(cs[..|cs| - 1])
    else cs[..|cs| - 1] + [CleanText(TrimRight(cs[|cs| - 1].text))]
  }

  function TrimEnds(cs: seq<Clean>): seq<Clean> {
    TrimBack(TrimFront(cs))
  }

  lemma EscapeSpaces(c: char)
    ensures IsSpace(c) ==> EscapeChar(c) == [c]
    ensures !IsSpace(c) ==> !IsSpace(EscapeChar(c)[0]) && !IsSpace(EscapeChar(c)[|EscapeChar(c)| - 1])
  {
  }

  lemma {:induction false} TrimLeftEscaped(text: string, s: string)
    ensures TrimLeft(Escape(text) + s) ==
            if TrimLeft(text) == "" then TrimLeft(s) else Escape(TrimLeft(text)) + s
  {
    if text == "" {
      EmptyConcat(s);
    } else {
      var c, rest := text[0], Escape(text[1..]);
      EscapeSpaces(c);
      Associative(EscapeChar(c), rest, s);
      if IsSpace(c) {
        TrimLeftEscaped(text[1..], s);
        assert (Escape(text) + s)[1..] == rest + s;
      } else {
        assert (Escape(text) + s)[0] == EscapeChar(c)[0];
      }
    }
  }

  lemma {:induction false} EscapeAppend(text: string, c: char)
    ensures Escape(text + [c]) == Escape(text) + EscapeChar(c)
  {
    if text == "" {
      assert text + [c] == [c] && [c][1..] == "";
      EmptyConcat(EscapeChar(c));
    } else {
      assert (text + [c])[1..] == text[1..] + [c];
      EscapeAppend(text[1..], c);
      Associative(EscapeChar(text[0]), Escape(text[1..]), EscapeChar(c));
    }
  }

  lemma TrimRightSpace(s: string, c: char)
    requires IsSpace(c)
    ensures TrimRight(s + [c]) == TrimRight(s)
  {
    assert (s + [c])[..|s|] == s;
  }

  lemma TrimRightOther(s: string, e: string)
    requires e != "" && !IsSpace(e[|e| - 1])
    ensures TrimRight(s + e) == s + e
  {
    assert (s + e)[|s + e| - 1] == e[|e| - 1];
  }

  lemma EscapedLast(s: string, text: string)
    requires text != ""
    ensures s + Escape(text) == s + Escape(text[..|text| - 1]) + EscapeChar(text[|text| - 1])
  {
    var init, c := text[..|text| - 1], text[|text| - 1];
    assert text == init + [c];
    EscapeAppend(init, c);
    Associative(s, Escape(init), EscapeChar(c));
  }

  lemma {:induction false} TrimRightEscaped(s: string, text: string)
    ensures TrimRight(s + Escape(text)) ==
            if TrimRight(text) == "" then TrimRight(s) else s + Escape(TrimRight(text))
  {
    if text == "" {
      EmptyConcat(s);
    } else {
      var init, c := text[..|text| - 1], text[|text| - 1];
      var before := s + Escape(init);
      EscapedLast(s, text);
      EscapeSpaces(c);
      if IsSpace(c) {
        TrimRightSpace(before, c);
        TrimRightEscaped(s, init);
      } else {
        TrimRightOther(before, EscapeChar(c));
      }
    }
  }

  lemma PrintStarts(c: Clean, s: string)
    requires !c.CleanText?
    ensures TrimLeft(Print(c) + s) == Print(c) + s && TrimRight(s + Print(c)) == s + Print(c)
  {
    var p := Print(c);
    assert p != "" && p[0] == '<' && p[|p| - 1] == '>';
    assert (p + s)[0] == '<' && (s + p)[|s + p| - 1] == '>';
  }

  lemma {:induction false} TrimFrontPrints(cs: seq<Clean>)
    requires Sound(cs)
    ensures Sound(TrimFront(cs)) && PrintAll(TrimFront(cs)) == TrimLeft(PrintAll(cs))
  {
    if cs != [] {
      if cs[0].CleanText? {
        TrimLeftEscaped(cs[0].text, PrintAll(cs[1..]));
        TrimFrontPrints(cs[1..]);
        var trimmed := CleanText(TrimLeft(cs[0].text));
        assert ([trimmed] + cs[1..])[1..] == cs[1..];
      } else {
        PrintStarts(cs[0], PrintAll(cs[1..]));
      }
    }
  }

  lemma {:induction false} SoundPrefix(a: seq<Clean>, b: seq<Clean>)
    requires Sound(a + b)
    ensures Sound(a)
  {
    if a != [] {
      assert (a + b)[1..] == a[1..] + b && (a + b)[0] == a[0];
      SoundPrefix(a[1..], b);
    }
  }

  lemma {:induction false} TrimBackPrints(cs: seq<Clean>)
    requires Sound(cs)
    ensures Sound(TrimBack(cs)) && PrintAll(TrimBack(cs)) == TrimRight(PrintAll(cs))
  {
    if cs != [] {
      var init, last := cs[..|cs| - 1], cs[|cs| - 1];
      assert cs == init + [last];
      SoundPrefix(init, [last]);
      PrintAllConcat(init, [last]);
      PrintOne(last);
      if last.CleanText? {
        TrimRightEscaped(PrintAll(init), last.text);
        TrimBackPrints(init);
        var trimmed := CleanText(TrimRight(last.text));
        PrintAllConcat(init, [trimmed]);
        PrintOne(trimmed);
        SoundConcat(init, [trimmed]);
      } else {
        PrintStarts(last, PrintAll(init));
      }
    }
  }

  // A message's formatted body, white space trimmed, is balanced and reads
  // back as the sanitised tree trimmed at its ends, neighbouring texts joined.
  lemma FormattedRoundTrip(nodes: seq<Node>)
    ensures var clean := SanitiseAll(nodes, []);
            && TrimSpace(PrintAll(clean)) == PrintAll(TrimEnds(clean))
            && Parse(TrimSpace(PrintAll(clean))) == Some(Normal(TrimEnds(clean)))
  {
    var clean := SanitiseAll(nodes, []);
    SanitiseAllIsSound(nodes, []);
    TrimFrontPrints(clean);
    TrimBackPrints(TrimFront(clean));
    PrintParses(TrimEnds(clean), "");
    EmptyConcat(PrintAll(TrimEnds(clean)));
  }
}
