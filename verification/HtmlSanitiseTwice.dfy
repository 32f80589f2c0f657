/** Sanitising a message that has been sanitised. */
module HtmlSanitiseTwice {
  import opened Text
  import opened MessageHtml
  import opened HtmlParser

  function AsAttrs(tag: string, attr: Option<string>): seq<Attr> {
    if attr.None? then []
    else if tag == "a" then [Attr("href", attr.value, true)]
    else [Attr("class", LANGUAGE + attr.value, false)]
  }

  // The sanitised tree as a message's nodes.
  function AsNode(c: Clean): Node {
    match c
    case CleanText(text) => TextNode(text)
    case CleanBreak => Element("br", [], [])
    case CleanElement(tag, attr, children) => Element(tag, AsAttrs(tag, attr), AsNodes(children))
  }

  function AsNodes(cs: seq<Clean>): seq<Node> {
    if cs == [] then [] else [AsNode(cs[0])] + AsNodes(cs[1..])
  }

  // No code element without a language stands right inside one with a language.
  predicate Settled(cs: seq<Clean>, inLanguage: bool) {
    cs == [] || (
      && Settled(cs[1..], inLanguage)
      && (cs[0].CleanElement? ==>
            && !(inLanguage && cs[0].tag == "code" && cs[0].attr.None?)
            && Settled(cs[0].children, cs[0].tag == "code" && cs[0].attr.Some?)))
  }

  lemma {:induction false} NoBlankWord(s: string)
    requires forall i | 0 <= i < |s| :: !IsBlank(s[i])
    ensures WordEnd(s) == |s|
  {
  }

  lemma LanguageOfClass(lang: string)
    requires IsLanguage(lang)
    ensures ClassLanguage(LANGUAGE + lang) == Some(lang)
  {
    NoBlankWord(LANGUAGE + lang);
    assert (LANGUAGE + lang)[..|LANGUAGE + lang|] == LANGUAGE + lang;
    assert (LANGUAGE + lang)[|LANGUAGE|..] == lang;
  }

  lemma NoClass()
    ensures ClassLanguage("") == None
  {
  }

  // What the attributes a sanitised element is given say.
  lemma AttrsSay(tag: string, attr: Option<string>)
    ensures AttrValue(AsAttrs(tag, attr), "class") == if attr.Some? && tag != "a" then LANGUAGE + attr.value else ""
    ensures GetAttr(AsAttrs(tag, attr), "href") ==
            if attr.Some? && tag == "a" then Some(Attr("href", attr.value, true)) else None
  {
    if attr.Some? {
      var attrs := AsAttrs(tag, attr);
      assert attrs[1..] == [] && EqualFold("class", "class") && EqualFold("href", "href");
      assert !EqualFold("href", "class") && !EqualFold("class", "href");
      assert GetAttr(attrs[1..], "class") == None && GetAttr(attrs[1..], "href") == None;
      assert GetAttr(attrs, "class") == if tag == "a" then None else Some(attrs[0]);
    }
  }

  lemma ClassSays(tag: string, attr: Option<string>)
    requires IsSoundAttr(tag, attr)
    ensures ClassLanguage(AttrValue(AsAttrs(tag, attr), "class")) == if tag == "code" then attr else None
  {
    AttrsSay(tag, attr);
    NoClass();
    if attr.Some? && tag != "a" {
      LanguageOfClass(attr.value);
    }
  }

  // A code element without a language takes the one it stands in.
  lemma AttrAgain(tag: string, attr: Option<string>, outer: string, outerAttr: Option<string>)
    requires IsSoundAttr(tag, attr) && IsSoundAttr(outer, outerAttr)
    ensures CleanAttr(tag, AsAttrs(tag, attr), AsAttrs(outer, outerAttr)) ==
            if tag == "code" && attr.None? && outer == "code" then outerAttr else attr
  {
    if tag == "a" {
      AttrsSay(tag, attr);
      if attr.Some? { TrimmedIsKept(attr.value); }
    } else if tag == "code" {
      ClassSays(tag, attr);
      ClassSays(outer, outerAttr);
    }
  }

  lemma {:induction false} LowerTag(tag: string)
    requires forall c | c in tag :: 'a' <= c <= 'z'
    ensures ToLower(tag) == tag
  {
    if tag != "" {
      assert tag[0] in tag && forall c | c in tag[1..] :: c in tag;
      LowerTag(tag[1..]);
    }
  }

  lemma AllowedTagsAreSafe(tag: string)
    requires tag in ALLOWED_TAGS
    ensures !IsUnsafeTag(tag) && tag != "img"
  {
  }

  lemma NotAnImage(tag: string)
    requires tag in ALLOWED_TAGS
    ensures !EqualFold(tag, "img") && !IsUnsafeTag(tag) && ToLower(tag) == tag
  {
    TagName(tag);
    AllowedTagsAreSafe(tag);
    LettersOnly(tag);
  }

  lemma LettersOnly(tag: string)
    requires (forall c | c in tag :: 'a' <= c <= 'z') && tag != "img"
    ensures !EqualFold(tag, "img") && ToLower(tag) == tag
  {
    LowerTag(tag);
    if EqualFold(tag, "img") {
      SameFold(tag, "img");
    }
  }

  lemma SameFold(s: string, t: string)
    requires (forall c | c in s :: 'a' <= c <= 'z') && (forall c | c in t :: 'a' <= c <= 'z') && EqualFold(s, t)
    ensures s == t
  {
    assert forall i | 0 <= i < |s| :: s[i] in s && t[i] in t && FoldChar(s[i]) == FoldChar(t[i]);
  }

  // One element sanitised again: the same but for its language and what it holds.
  lemma ElementAgain(tag: string, attr: Option<string>, children: seq<Clean>, outer: string, outerAttr: Option<string>)
    requires tag in ALLOWED_TAGS && tag != "br" && IsSoundAttr(tag, attr) && IsSoundAttr(outer, outerAttr)
    ensures Sanitise(AsNode(CleanElement(tag, attr, children)), AsAttrs(outer, outerAttr)) ==
            [CleanElement(tag, if tag == "code" && attr.None? && outer == "code" then outerAttr else attr,
                          SanitiseAll(AsNodes(children), AsAttrs(tag, attr)))]
  {
    NotAnImage(tag);
    AttrAgain(tag, attr, outer, outerAttr);
  }

  lemma BreakAgain(parent: seq<Attr>)
    ensures Sanitise(AsNode(CleanBreak), parent) == [CleanBreak]
  {
    NotAnImage("br");
  }

  lemma SameLists(c: Clean, cs: seq<Clean>, d: Clean, ds: seq<Clean>)
    ensures [c] + cs == [d] + ds <==> c == d && cs == ds
  {
    assert ([c] + cs)[0] == c && ([d] + ds)[0] == d;
    assert ([c] + cs)[1..] == cs && ([d] + ds)[1..] == ds;
  }

  // Sanitising again changes nothing exactly if the tree is settled.
  lemma {:induction false} AgainInside(cs: seq<Clean>, outer: string, outerAttr: Option<string>)
    requires Sound(cs) && IsSoundAttr(outer, outerAttr)
    ensures SanitiseAll(AsNodes(cs), AsAttrs(outer, outerAttr)) == cs <==>
            Settled(cs, outer == "code" && outerAttr.Some?)
    decreases cs
  {
    if cs != [] {
      var rest, parent := cs[1..], AsAttrs(outer, outerAttr);
      AgainInside(rest, outer, outerAttr);
      assert AsNodes(cs)[1..] == AsNodes(rest);
      assert cs == [cs[0]] + rest;
      match cs[0]
      case CleanText(text) => SameLists(cs[0], SanitiseAll(AsNodes(rest), parent), cs[0], rest);
      case CleanBreak =>
        BreakAgain(parent);
        SameLists(CleanBreak, SanitiseAll(AsNodes(rest), parent), CleanBreak, rest);
      case CleanElement(tag, attr, children) =>
        AgainInside(children, tag, attr);
        ElementAgain(tag, attr, children, outer, outerAttr);
        SameLists(Sanitise(AsNode(cs[0]), parent)[0], SanitiseAll(AsNodes(rest), parent), cs[0], rest);
    }
  }

  lemma SanitisingTwiceIsOnceExactly(nodes: seq<Node>, parent: seq<Attr>)
    ensures var clean := SanitiseAll(nodes, parent);
            SanitiseAll(AsNodes(clean), []) == clean <==> Settled(clean, false)
  {
    SanitiseAllIsSound(nodes, parent);
    AgainInside(SanitiseAll(nodes, parent), "", None);
  }

  // ----- messages without nested code -----

  // No code element stands inside another, however deep.
  predicate NoNestedCode(node: Node, inCode: bool) {
    match node
    case TextNode(_) => true
    case Other(children) => NoNestedCodeAmong(children, inCode)
    case Element(data, _, children) =>
      && !(inCode && ToLower(data) == "code")
      && NoNestedCodeAmong(children, inCode || ToLower(data) == "code")
  }

  predicate NoNestedCodeAmong(nodes: seq<Node>, inCode: bool) {
    nodes == [] || (NoNestedCode(nodes[0], inCode) && NoNestedCodeAmong(nodes[1..], inCode))
  }

  lemma {:induction false} SettledConcat(a: seq<Clean>, b: seq<Clean>, inLanguage: bool)
    requires Settled(a, inLanguage) && Settled(b, inLanguage)
    ensures Settled(a + b, inLanguage)
  {
    if a == [] {
      assert a + b == b;
    } else {
      assert (a + b)[1..] == a[1..] + b && (a + b)[0] == a[0];
      SettledConcat(a[1..], b, inLanguage);
    }
  }

  lemma SettledOne(c: Clean, inLanguage: bool)
    ensures Settled([c], inLanguage) <==>
            c.CleanElement? ==> !(inLanguage && c.tag == "code" && c.attr.None?)
                                && Settled(c.children, c.tag == "code" && c.attr.Some?)
  {
    assert [c][1..] == [] && [c][0] == c;
  }

  lemma {:induction false} SanitisedIsSettled(node: Node, parent: seq<Attr>, inLanguage: bool, inCode: bool)
    requires NoNestedCode(node, inCode) && (inLanguage ==> inCode)
    ensures Settled(Sanitise(node, parent), inLanguage)
    decreases node
  {
    match node
    case TextNode(data) => SettledOne(CleanText(data), inLanguage);
    case Other(children) => AllSanitisedAreSettled(children, [], inLanguage, inCode);
    case Element(data, attrs, children) =>
      var tag := ToLower(data);
      var emoticon := EmoticonText(data, attrs);
      if emoticon.Some? { SettledOne(CleanText(emoticon.value), inLanguage); }
      SettledOne(CleanBreak, inLanguage);
      if tag in ALLOWED_TAGS {
        var attr := CleanAttr(tag, attrs, parent);
        AllSanitisedAreSettled(children, attrs, tag == "code" && attr.Some?, inCode || tag == "code");
        SettledOne(CleanElement(tag, attr, SanitiseAll(children, attrs)), inLanguage);
      } else {
        AllSanitisedAreSettled(children, attrs, inLanguage, inCode || tag == "code");
      }
  }

  lemma {:induction false} AllSanitisedAreSettled(nodes: seq<Node>, parent: seq<Attr>, inLanguage: bool, inCode: bool)
    requires NoNestedCodeAmong(nodes, inCode) && (inLanguage ==> inCode)
    ensures Settled(SanitiseAll(nodes, parent), inLanguage)
    decreases nodes
  {
    if nodes != [] {
      SanitisedIsSettled(nodes[0], parent, inLanguage, inCode);
      AllSanitisedAreSettled(nodes[1..], parent, inLanguage, inCode);
      SettledConcat(Sanitise(nodes[0], parent), SanitiseAll(nodes[1..], parent), inLanguage);
    }
  }

  // A message without nested code is sanitised once and for all.
  lemma WithoutNestedCodeTwiceIsOnce(nodes: seq<Node>, parent: seq<Attr>)
    requires NoNestedCodeAmong(nodes, false)
    ensures var clean := SanitiseAll(nodes, parent); SanitiseAll(AsNodes(clean), []) == clean
  {
    AllSanitisedAreSettled(nodes, parent, false, false);
    SanitisingTwiceIsOnceExactly(nodes, parent);
  }

  // ----- a message with nested code -----

  lemma LanguageNamed(lang: string, parent: seq<Attr>)
    requires lang == "go" || lang == "text"
    ensures CodeLanguage(AsAttrs("code", Some(lang)), parent) == if lang == "go" then Some(lang) else None
  {
    AttrsSay("code", Some(lang));
    LanguageOfClass(lang);
    LowerTag(lang);
  }

  function Code(lang: string, children: seq<Node>): Node {
    Element("code", AsAttrs("code", Some(lang)), children)
  }

  lemma CodeSanitised(lang: string, children: seq<Node>, parent: seq<Attr>)
    requires lang == "go" || lang == "text"
    ensures Sanitise(Code(lang, children), parent) ==
            [CleanElement("code", if lang == "go" then Some(lang) else None,
                          SanitiseAll(children, AsAttrs("code", Some(lang))))]
  {
    NotAnImage("code");
    LanguageNamed(lang, parent);
  }

  lemma SanitiseOne(node: Node, parent: seq<Attr>)
    ensures SanitiseAll([node], parent) == Sanitise(node, parent)
  {
    assert [node][1..] == [];
  }

  const NESTED_CODE := [Code("go", [Code("text", [])])]

  // A code element that has no language only for being plain text is given the
  // outer one's when sanitised again.
  lemma NestedCodeChangesAgain()
    ensures var clean := SanitiseAll(NESTED_CODE, []); SanitiseAll(AsNodes(clean), []) != clean
  {
    var inner := CleanElement("code", None, []);
    var outer := CleanElement("code", Some("go"), [inner]);
    CodeSanitised("text", [], AsAttrs("code", Some("go")));
    SanitiseOne(Code("text", []), AsAttrs("code", Some("go")));
    CodeSanitised("go", [Code("text", [])], []);
    SanitiseOne(Code("go", [Code("text", [])]), []);
    assert SanitiseAll(NESTED_CODE, []) == [outer];
    SettledOne(inner, true);
    SettledOne(outer, false);
    SanitisingTwiceIsOnceExactly(NESTED_CODE, []);
  }
}
