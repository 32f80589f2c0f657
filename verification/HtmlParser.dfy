/** Reading a formatted body back. */
module HtmlParser {
  import opened Text
  import opened HtmlText
  import opened MessageHtml

  // ----- what sanitising leaves -----

  predicate IsSafeLink(href: string) {
    href != "" && Trimmed(href) && IsSafeScheme(Scheme(href))
  }

  predicate IsPlainLanguage(lang: string) {
    IsLanguage(lang) && ToLower(lang) == lang && lang != "plaintext" && lang != "text"
  }

  predicate IsSoundAttr(tag: string, attr: Option<string>) {
    || attr.None?
    || (tag == "a" && IsSafeLink(attr.value))
    || (tag == "code" && IsPlainLanguage(attr.value))
  }

  // Only allowed tags, links that are safe and languages that are.
  predicate Sound(cs: seq<Clean>) {
    cs == [] || (
      && Sound(cs[1..])
      && (cs[0].CleanElement? ==>
            && cs[0].tag in ALLOWED_TAGS && cs[0].tag != "br"
            && IsSoundAttr(cs[0].tag, cs[0].attr) && Sound(cs[0].children)))
  }

  lemma LowerTwice(c: char)
    ensures LowerChar(LowerChar(c)) == LowerChar(c)
    ensures IsLetter(c) ==> IsLetter(LowerChar(c))
    ensures !IsLetter(c) && c < '\U{80}' ==> LowerChar(c) == c
  {
  }

  lemma {:induction false} ToLowerTwice(s: string)
    ensures ToLower(ToLower(s)) == ToLower(s)
  {
    if s != "" {
      LowerTwice(s[0]);
      ToLowerTwice(s[1..]);
      assert ToLower(s)[1..] == ToLower(s[1..]);
    }
  }

  lemma {:induction false} LowerLanguage(lang: string)
    requires IsLanguage(lang)
    ensures IsLanguage(ToLower(lang))
  {
    LowerTwice(lang[0]);
    if |lang| > 1 {
      LowerLanguage(lang[1..]);
    }
    assert ToLower(lang) == [LowerChar(lang[0])] + ToLower(lang[1..]);
    assert lang[1..] == "" || IsLanguage(ToLower(lang[1..]));
  }

  lemma CleanAttrIsSound(tag: string, attrs: seq<Attr>, parent: seq<Attr>)
    ensures IsSoundAttr(tag, CleanAttr(tag, attrs, parent))
  {
    if tag == "a" && SafeHref(attrs).Some? {
      TrimSpaceIsTrimmed(GetAttr(attrs, "href").value.value);
    }
    if tag == "code" && CodeLanguage(attrs, parent).Some? {
      var own := ClassLanguage(AttrValue(attrs, "class"));
      var found := if own.Some? then own else ClassLanguage(AttrValue(parent, "class"));
      LowerLanguage(found.value);
      ToLowerTwice(found.value);
    }
  }

  lemma {:induction false} SoundConcat(a: seq<Clean>, b: seq<Clean>)
    requires Sound(a) && Sound(b)
    ensures Sound(a + b)
  {
    if a == [] {
      assert a + b == b;
    } else {
      assert (a + b)[1..] == a[1..] + b;
      SoundConcat(a[1..], b);
    }
  }

  lemma {:induction false} SanitiseIsSound(node: Node, parent: seq<Attr>)
    ensures Sound(Sanitise(node, parent))
    decreases node
  {
    match node
    case TextNode(_) =>
    case Other(children) => SanitiseAllIsSound(children, []);
    case Element(data, attrs, children) =>
      SanitiseAllIsSound(children, attrs);
      CleanAttrIsSound(ToLower(data), attrs, parent);
  }

  lemma {:induction false} SanitiseAllIsSound(nodes: seq<Node>, parent: seq<Attr>)
    ensures Sound(SanitiseAll(nodes, parent))
    decreases nodes
  {
    if nodes != [] {
      SanitiseIsSound(nodes[0], parent);
      SanitiseAllIsSound(nodes[1..], parent);
      SoundConcat(Sanitise(nodes[0], parent), SanitiseAll(nodes[1..], parent));
    }
  }

  // ----- the parser -----

  datatype Header = Header(tag: string, attr: Option<string>)

  const HREF := " href=\""
  const CLASS := " class=\"language-"

  // What follows a tag's name: nothing, or the one attribute it may have.
  function ParseAttr(tag: string, attr: string): Option<Option<string>> {
    if attr == "" then Some(None)
    else if attr[|attr| - 1] != '\"' then None
    else if tag == "a" && HREF <= attr && |HREF| < |attr| then
      var href := Unescape(attr[|HREF|..|attr| - 1]);
      if href.None? then None else Some(href)
    else if tag == "code" && CLASS <= attr && |CLASS| < |attr| then Some(Some(attr[|CLASS|..|attr| - 1]))
    else None
  }

  // What stands between a tag's brackets.
  function ParseHeader(h: string): Option<Header> {
    var i := IndexOf(h, ' ');
    var attr := ParseAttr(h[..i], h[i..]);
    if h[..i] !in ALLOWED_TAGS || attr.None? then None else Some(Header(h[..i], attr.value))
  }

  datatype Parsed = Parsed(nodes: seq<Clean>, rest: string)

  // Reads nodes up to the end or to a closing tag that closes none of them;
  // None if the text is not balanced, or holds a tag or entity never printed.
  function ParseNodes(s: string): (r: Option<Parsed>)
    ensures r.Some? ==> |r.value.rest| <= |s|
    decreases |s|, 0
  {
    if s == "" || "</" <= s then Some(Parsed([], s))
    else if s[0] != '<' then
      var i := IndexOf(s, '<');
      var text, more := Unescape(s[..i]), ParseNodes(s[i..]);
      if text.None? || more.None? then None else Some(Parsed([CleanText(text.value)] + more.value.nodes, more.value.rest))
    else
      var j := IndexOf(s, '>');
      if j == |s| then None else ParseTag(s[1..j], s[j + 1..])
  }

  function ParseTag(h: string, s: string): (r: Option<Parsed>)
    ensures r.Some? ==> |r.value.rest| <= |s|
    decreases |s|, 1
  {
    if h == "br" then
      var more := ParseNodes(s);
      if more.None? then None else Some(Parsed([CleanBreak] + more.value.nodes, more.value.rest))
    else
      var header, inner := ParseHeader(h), ParseNodes(s);
      if header.None? || inner.None? then None
      else
        var closing := "</" + header.value.tag + ">";
        if !(closing <= inner.value.rest) then None
        else
          var more := ParseNodes(inner.value.rest[|closing|..]);
          if more.None? then None
          else Some(Parsed([CleanElement(header.value.tag, header.value.attr, inner.value.nodes)] + more.value.nodes,
                           more.value.rest))
  }

  function Parse(s: string): Option<seq<Clean>> {
    var r := ParseNodes(s);
    if r.Some? && r.value.rest == "" then Some(r.value.nodes) else None
  }

  // ----- the round trip -----

  function Prepend(text: string, cs: seq<Clean>): seq<Clean> {
    if text == "" then cs
    else if cs != [] && cs[0].CleanText? then [CleanText(text + cs[0].text)] + cs[1..]
    else [CleanText(text)] + cs
  }

  // With neighbouring texts joined and empty ones left out.
  function Normal(cs: seq<Clean>): seq<Clean> {
    if cs == [] then []
    else
      var rest := Normal(cs[1..]);
      match cs[0]
      case CleanText(text) => Prepend(text, rest)
      case CleanBreak => [CleanBreak] + rest
      case CleanElement(tag, attr, children) => [CleanElement(tag, attr, Normal(children))] + rest
  }

  function Before(c: Clean, p: Parsed): Parsed {
    Parsed([c] + p.nodes, p.rest)
  }

  // A run of text before a tag or the end.
  lemma ParseRun(e: string, text: string, tail: string)
    requires e != "" && '<' !in e && Unescape(e) == Some(text)
    requires (tail == "" || tail[0] == '<') && ParseNodes(tail).Some?
    ensures ParseNodes(e + tail) == Some(Before(CleanText(text), ParseNodes(tail).value))
  {
    var s := e + tail;
    IndexOfIn(e, '<', tail);
    assert s[..|e|] == e && s[|e|..] == tail;
    assert s[0] == e[0] && e[0] in e;
  }

  lemma RunFirst(t: string)
    requires t != "" && t[0] != '<' && ParseNodes(t).Some?
    ensures var i := IndexOf(t, '<');
            && Unescape(t[..i]).Some? && ParseNodes(t[i..]).Some?
            && ParseNodes(t) == Some(Before(CleanText(Unescape(t[..i]).value), ParseNodes(t[i..]).value))
  {
  }

  // Escaped text lengthens the run it precedes.
  lemma ParseLongerRun(text: string, head: string, tail: string)
    requires text != "" && '<' !in head && Unescape(head).Some?
    requires (tail == "" || tail[0] == '<') && ParseNodes(tail).Some?
    ensures ParseNodes(Escape(text) + (head + tail)) ==
            Some(Before(CleanText(text + Unescape(head).value), ParseNodes(tail).value))
  {
    EscapeIsInert(text);
    UnescapeEscape(text, head);
    ParseRun(Escape(text) + head, text + Unescape(head).value, tail);
    Associative(Escape(text), head, tail);
  }

  lemma TagFirst(t: string)
    requires (t == "" || t[0] == '<') && ParseNodes(t).Some?
    ensures var nodes := ParseNodes(t).value.nodes; nodes == [] || !nodes[0].CleanText?
  {
  }

  lemma PrependText(text: string, u: string, p: Parsed)
    requires text != ""
    ensures Parsed(Prepend(text, Before(CleanText(u), p).nodes), p.rest) == Before(CleanText(text + u), p)
  {
    assert ([CleanText(u)] + p.nodes)[1..] == p.nodes;
  }

  // Escaped text before something parsed.
  lemma ParseText(text: string, t: string)
    requires ParseNodes(t).Some?
    ensures var p := ParseNodes(t).value;
            ParseNodes(Escape(text) + t) == Some(Parsed(Prepend(text, p.nodes), p.rest))
  {
    if text == "" {
      assert Escape(text) + t == t;
    } else if t == "" || t[0] == '<' {
      ParseLongerRun(text, "", t);
      EmptyConcat(t);
      EmptyConcat(text);
      TagFirst(t);
    } else {
      var i := IndexOf(t, '<');
      RunFirst(t);
      ParseLongerRun(text, t[..i], t[i..]);
      Rejoin(t, i);
      PrependText(text, Unescape(t[..i]).value, ParseNodes(t[i..]).value);
    }
  }

  lemma TagName(tag: string)
    requires tag in ALLOWED_TAGS
    ensures tag != "" && forall c | c in tag :: 'a' <= c <= 'z'
  {
  }

  lemma Quoted(prefix: string, v: string)
    ensures var q := prefix + v + "\"";
            prefix <= q && |prefix| < |q| && q[|q| - 1] == '\"' && q[|prefix|..|q| - 1] == v
  {
  }

  lemma AttrRoundTrip(tag: string, attr: Option<string>)
    requires IsSoundAttr(tag, attr)
    ensures ParseAttr(tag, PrintAttr(tag, attr)) == Some(attr)
  {
    if attr.Some? && tag == "a" {
      Quoted(HREF, Escape(attr.value));
      UnescapeEscape(attr.value, "");
      EmptyConcat(Escape(attr.value));
      EmptyConcat(attr.value);
    } else if attr.Some? {
      Quoted(CLASS, attr.value);
    }
  }

  lemma AttrIsInert(tag: string, attr: Option<string>)
    requires IsSoundAttr(tag, attr)
    ensures var printed := PrintAttr(tag, attr); '>' !in printed && (printed == "" || printed[0] == ' ')
  {
    if attr.Some? && tag == "a" {
      EscapeIsInert(attr.value);
      assert '>' !in HREF;
    } else if attr.Some? {
      assert '>' !in CLASS && forall c | c in attr.value :: c != '>';
    }
  }

  // A printed header is read back.
  lemma HeaderRoundTrip(tag: string, attr: Option<string>)
    requires tag in ALLOWED_TAGS && IsSoundAttr(tag, attr)
    ensures ParseHeader(tag + PrintAttr(tag, attr)) == Some(Header(tag, attr))
    ensures '>' !in tag + PrintAttr(tag, attr)
  {
    var printed := PrintAttr(tag, attr);
    TagName(tag);
    AttrIsInert(tag, attr);
    AttrRoundTrip(tag, attr);
    IndexOfIn(tag, ' ', printed);
    assert (tag + printed)[..|tag|] == tag && (tag + printed)[|tag|..] == printed;
  }

  // A printed opening tag is read as its header.
  lemma ParseOpening(h: string, s: string)
    requires '>' !in h && h != "" && h[0] != '/'
    ensures ParseNodes("<" + h + ">" + s) == ParseTag(h, s)
  {
    var all := "<" + h + ">" + s;
    IndexOfIn("<" + h, '>', ">" + s);
    Associative("<" + h, ">", s);
    assert all[1..|h| + 1] == h && all[|h| + 2..] == s;
    assert all[0] == '<' && all[1] == h[0];
  }

  // An element is read back if what it holds is, up to its closing tag, and
  // what follows.
  lemma ParseElement(h: string, header: Header, all: string, inner: Parsed, s: string)
    requires ParseHeader(h) == Some(header) && h != "br"
    requires ParseNodes(all) == Some(inner) && inner.rest == "</" + header.tag + ">" + s
    requires ParseNodes(s).Some?
    ensures ParseTag(h, all) == Some(Before(CleanElement(header.tag, header.attr, inner.nodes), ParseNodes(s).value))
  {
    var closing := "</" + header.tag + ">";
    assert closing <= inner.rest && inner.rest[|closing|..] == s;
  }

  lemma ParsePrintedElement(tag: string, attr: Option<string>, all: string, inner: Parsed, s: string)
    requires tag in ALLOWED_TAGS && tag != "br" && IsSoundAttr(tag, attr)
    requires ParseNodes(all) == Some(inner) && inner.rest == "</" + tag + ">" + s
    requires ParseNodes(s).Some?
    ensures ParseNodes("<" + (tag + PrintAttr(tag, attr)) + ">" + all) ==
            Some(Before(CleanElement(tag, attr, inner.nodes), ParseNodes(s).value))
  {
    var h := tag + PrintAttr(tag, attr);
    HeaderRoundTrip(tag, attr);
    HeaderOpens(tag, attr);
    ParseOpening(h, all);
    ParseElement(h, Header(tag, attr), all, inner, s);
  }

  lemma HeaderOpens(tag: string, attr: Option<string>)
    requires tag in ALLOWED_TAGS && tag != "br" && IsSoundAttr(tag, attr)
    ensures var h := tag + PrintAttr(tag, attr); h != "" && h[0] != '/' && h != "br"
  {
    TagName(tag);
    HeaderRoundTrip(tag, attr);
    HeaderRoundTrip("br", None);
    EmptyConcat("br");
    assert (tag + PrintAttr(tag, attr))[0] == tag[0] && tag[0] in tag;
  }

  lemma PrintedElement(tag: string, attr: string, inner: string, closing: string, s: string)
    ensures "<" + tag + attr + ">" + inner + closing + s == "<" + (tag + attr) + ">" + (inner + (closing + s))
  {
    Associative("<", tag, attr);
    Associative("<" + tag + attr + ">", inner, closing);
    Associative("<" + tag + attr + ">", inner + closing, s);
    Associative(inner, closing, s);
  }

  // Every sanitised rendering, before a closing tag or the end, is read back
  // up to there.
  lemma {:induction false} PrintParses(cs: seq<Clean>, s: string)
    requires Sound(cs) && (s == "" || "</" <= s)
    ensures ParseNodes(PrintAll(cs) + s) == Some(Parsed(Normal(cs), s))
    decreases cs
  {
    if cs == [] {
      EmptyConcat(s);
    } else {
      PrintParses(cs[1..], s);
      var later, printed := Normal(cs[1..]), PrintAll(cs[1..]);
      match cs[0]
      case CleanText(text) =>
        ParseText(text, printed + s);
        Associative(Escape(text), printed, s);
      case CleanBreak => ParsePrintedBreak(printed, later, s);
      case CleanElement(tag, attr, children) =>
        PrintParses(children, "</" + tag + ">" + (printed + s));
        ParseBetween(tag, attr, PrintAll(children), Normal(children), printed, later, s);
    }
  }

  lemma ParsePrintedBreak(printed: string, later: seq<Clean>, s: string)
    requires ParseNodes(printed + s) == Some(Parsed(later, s))
    ensures ParseNodes("<br>" + printed + s) == Some(Parsed([CleanBreak] + later, s))
  {
    assert "<" + "br" + ">" == "<br>";
    ParseOpening("br", printed + s);
    Associative("<br>", printed, s);
  }

  lemma ParseBetween(tag: string, attr: Option<string>, inner: string, nodes: seq<Clean>,
                     printed: string, later: seq<Clean>, s: string)
    requires tag in ALLOWED_TAGS && tag != "br" && IsSoundAttr(tag, attr)
    requires ParseNodes(inner + ("</" + tag + ">" + (printed + s))) ==
             Some(Parsed(nodes, "</" + tag + ">" + (printed + s)))
    requires ParseNodes(printed + s) == Some(Parsed(later, s))
    ensures ParseNodes("<" + tag + PrintAttr(tag, attr) + ">" + inner + ("</" + tag + ">") + printed + s) ==
            Some(Parsed([CleanElement(tag, attr, nodes)] + later, s))
  {
    var closing := "</" + tag + ">";
    ParsePrintedElement(tag, attr, inner + (closing + (printed + s)), Parsed(nodes, closing + (printed + s)), printed + s);
    PrintedElement(tag, PrintAttr(tag, attr), inner, closing, printed + s);
    Associative("<" + tag + PrintAttr(tag, attr) + ">" + inner + closing, printed, s);
  }

  // Printing any message's sanitised tree and reading it back gives that tree,
  // with neighbouring texts joined.
  lemma RoundTrip(nodes: seq<Node>, parent: seq<Attr>)
    ensures Parse(PrintAll(SanitiseAll(nodes, parent))) == Some(Normal(SanitiseAll(nodes, parent)))
  {
    SanitiseAllIsSound(nodes, parent);
    PrintParses(SanitiseAll(nodes, parent), "");
    EmptyConcat(PrintAll(SanitiseAll(nodes, parent)));
  }
}
