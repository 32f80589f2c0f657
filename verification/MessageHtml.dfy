/** Rendering a Teams message's HTML as the formatted body Matrix gets. */
module MessageHtml {
  import opened Text
  import opened HtmlText

  // ----- the parsed message -----

  // parses tells whether url.Parse accepts the trimmed value; it is asked of
  // link targets only.
  datatype Attr = Attr(key: string, value: string, parses: bool)

  // Other is a node of any other type, a comment for instance.
  datatype Node =
    | TextNode(data: string)
    | Element(data: string, attrs: seq<Attr>, children: seq<Node>)
    | Other(children: seq<Node>)

  const ALLOWED_TAGS := {
    "a", "b", "blockquote", "br", "code", "em", "i", "li", "ol", "p", "pre",
    "s", "strong", "table", "tbody", "td", "th", "thead", "tr", "u", "ul"
  }

  predicate IsUnsafeTag(tag: string) {
    tag in {"script", "style", "iframe", "object", "embed", "meta", "link", "head"}
  }

  // ----- letters -----

  // The lower case of a character of which an ASCII letter is the lower case;
  // other characters are left alone.
  function LowerChar(c: char): char {
    if 'A' <= c <= 'Z' then ((c as int) - ('A' as int) + ('a' as int)) as char
    else if c == '\U{212A}' then 'k'
    else if c == '\U{130}' then 'i'
    else c
  }

  function ToLower(s: string): string {
    if s == "" then "" else [LowerChar(s[0])] + ToLower(s[1..])
  }

  // strings.EqualFold with an ASCII letter compares these.
  function FoldChar(c: char): char {
    if c == '\U{130}' then c else if c == '\U{17F}' then 's' else LowerChar(c)
  }

  predicate EqualFold(s: string, t: string) {
    |s| == |t| && forall i | 0 <= i < |s| :: FoldChar(s[i]) == FoldChar(t[i])
  }

  // ----- attributes -----

  function GetAttr(attrs: seq<Attr>, key: string): Option<Attr> {
    if attrs == [] then None
    else if EqualFold(attrs[0].key, key) then Some(attrs[0])
    else GetAttr(attrs[1..], key)
  }

  function AttrValue(attrs: seq<Attr>, key: string): string {
    var a := GetAttr(attrs, key);
    if a.Some? then a.value.value else ""
  }

  predicate IsLetter(c: char) {
    'a' <= c <= 'z' || 'A' <= c <= 'Z'
  }

  predicate IsScheme(s: string) {
    && s != "" && IsLetter(s[0])
    && forall j | 0 <= j < |s| :: IsLetter(s[j]) || IsDigit(s[j]) || s[j] in "+-."
  }

  // The URL's scheme as written: what precedes the first colon, if it is one.
  function Scheme(value: string): string {
    var i := IndexOf(value, ':');
    if i < |value| && IsScheme(value[..i]) then value[..i] else ""
  }

  predicate IsSafeScheme(scheme: string) {
    ToLower(scheme) in {"http", "https", "mailto", "matrix"}
  }

  function SanitizeHref(href: Attr): Option<string> {
    var value := TrimSpace(href.value);
    if value != "" && href.parses && IsSafeScheme(Scheme(value)) then Some(value) else None
  }

  function SafeHref(attrs: seq<Attr>): Option<string> {
    var href := GetAttr(attrs, "href");
    if href.None? then None else SanitizeHref(href.value)
  }

  // Which links keep their target: the first href counts, and its trimmed
  // value must parse and begin with one of four schemes, in letters of either
  // case, and a colon.
  ghost predicate HasScheme(value: string, scheme: string) {
    && |scheme| < |value| && value[|scheme|] == ':'
    && (forall j | 0 <= j < |scheme| :: IsLetter(value[j])) && ToLower(value[..|scheme|]) == scheme
  }

  lemma LinkIsKeptExactly(attrs: seq<Attr>, i: nat)
    requires i < |attrs| && EqualFold(attrs[i].key, "href") && forall j | 0 <= j < i :: !EqualFold(attrs[j].key, "href")
    ensures var value := TrimSpace(attrs[i].value);
            && (SafeHref(attrs).Some? <==>
                attrs[i].parses && exists scheme :: scheme in {"http", "https", "mailto", "matrix"} && HasScheme(value, scheme))
            && (SafeHref(attrs).Some? ==> SafeHref(attrs).value == value)
  {
    FirstAttr(attrs, "href", i);
    var value := TrimSpace(attrs[i].value);
    var k := IndexOf(value, ':');
    forall scheme | scheme in {"http", "https", "mailto", "matrix"} && HasScheme(value, scheme)
      ensures IsSafeScheme(Scheme(value))
    {
      SchemeEnds(value, scheme);
      assert value[..k] == value[..|scheme|];
    }
    if IsSafeScheme(Scheme(value)) {
      var scheme := ToLower(Scheme(value));
      assert ToLower("") == "";
      ToLowerLength(Scheme(value));
      SafeSchemeLetters(value[..k]);
      assert HasScheme(value, scheme);
    }
  }

  lemma {:induction false} FirstAttr(attrs: seq<Attr>, key: string, i: nat)
    requires i < |attrs| && EqualFold(attrs[i].key, key) && forall j | 0 <= j < i :: !EqualFold(attrs[j].key, key)
    ensures GetAttr(attrs, key) == Some(attrs[i])
  {
    if i > 0 {
      assert !EqualFold(attrs[0].key, key);
      FirstAttr(attrs[1..], key, i - 1);
    }
  }

  lemma SchemeEnds(value: string, scheme: string)
    requires scheme != "" && HasScheme(value, scheme)
    ensures IndexOf(value, ':') == |scheme| && IsScheme(value[..|scheme|])
  {
    var front := value[..|scheme|];
    assert value == front + value[|scheme|..];
    assert ':' !in front;
    IndexOfIn(front, ':', value[|scheme|..]);
  }

  lemma {:induction false} ToLowerLength(s: string)
    ensures |ToLower(s)| == |s| && forall j | 0 <= j < |s| :: ToLower(s)[j] == LowerChar(s[j])
  {
    if s != "" {
      ToLowerLength(s[1..]);
    }
  }

  // A scheme holds ASCII letters, digits and marks only, and these four no
  // digits or marks.
  lemma SafeSchemeLetters(s: string)
    requires IsScheme(s) && IsSafeScheme(s)
    ensures forall j | 0 <= j < |s| :: IsLetter(s[j])
  {
    var t := ToLower(s);
    ToLowerLength(s);
    assert forall j | 0 <= j < |t| :: 'a' <= t[j] <= 'z';
    forall j | 0 <= j < |s|
      ensures IsLetter(s[j])
    {
      assert t[j] == LowerChar(s[j]);
    }
  }

  // \s in a regular expression.
  predicate IsBlank(c: char) {
    c == '\t' || c == '\n' || c == '\U{c}' || c == '\r' || c == ' '
  }

  predicate IsLanguage(lang: string) {
    lang != "" && forall i | 0 <= i < |lang| :: IsLetter(lang[i]) || IsDigit(lang[i]) || lang[i] in "_+#.-"
  }

  function WordEnd(s: string): (i: nat)
    ensures i <= |s| && (forall j | 0 <= j < i :: !IsBlank(s[j])) && (i < |s| ==> IsBlank(s[i]))
  {
    if s == "" || IsBlank(s[0]) then 0 else 1 + WordEnd(s[1..])
  }

  const LANGUAGE := "language-"

  // "language-" and a language.
  predicate NamesLanguage(word: string) {
    LANGUAGE <= word && IsLanguage(word[|LANGUAGE|..])
  }

  // The X of the first word of a class that is language-X.
  function ClassLanguage(class_: string): (lang: Option<string>)
    ensures lang.Some? ==> IsLanguage(lang.value)
    decreases |class_|
  {
    var i := WordEnd(class_);
    var word := class_[..i];
    if NamesLanguage(word) then Some(word[|LANGUAGE|..])
    else if i == |class_| then None
    else ClassLanguage(class_[i + 1..])
  }

  // What stands from i to j is one whole word, and one of those asked for.
  ghost predicate WordAt(class_: string, wanted: string -> bool, i: nat, j: nat) {
    && i <= j <= |class_| && (i == 0 || IsBlank(class_[i - 1])) && (j == |class_| || IsBlank(class_[j]))
    && wanted(class_[i..j])
  }

  ghost predicate AreWords(wanted: string -> bool) {
    forall w: string | wanted(w) :: w != "" && forall k | 0 <= k < |w| :: !IsBlank(w[k])
  }

  lemma NoBlankInside(class_: string, wanted: string -> bool, i: nat, j: nat)
    requires AreWords(wanted) && WordAt(class_, wanted, i, j)
    ensures i < j && forall k | i <= k < j :: !IsBlank(class_[k])
  {
    var w := class_[i..j];
    forall k | i <= k < j
      ensures !IsBlank(class_[k])
    {
      assert class_[k] == w[k - i];
    }
  }

  // Where the first word asked for stands, if there is one.
  function FirstWord(class_: string, wanted: string -> bool): Option<(nat, nat)>
    decreases |class_|
  {
    var end := WordEnd(class_);
    if wanted(class_[..end]) then Some((0, end))
    else if end == |class_| then None
    else Behind(FirstWord(class_[end + 1..], wanted), end + 1)
  }

  function Behind(at: Option<(nat, nat)>, from: nat): Option<(nat, nat)> {
    match at
    case None => None
    case Some((i, j)) => Some((from + i, from + j))
  }

  ghost predicate IsFirst(class_: string, wanted: string -> bool, at: Option<(nat, nat)>) {
    match at
    case None => forall i: nat, j: nat :: !WordAt(class_, wanted, i, j)
    case Some((i, j)) => WordAt(class_, wanted, i, j) && forall k: nat, l: nat | WordAt(class_, wanted, k, l) :: i <= k
  }

  // No word asked for begins by the end of the first one but that itself.
  lemma OnlyFirstWord(class_: string, wanted: string -> bool, k: nat, l: nat)
    requires AreWords(wanted) && WordAt(class_, wanted, k, l) && k <= WordEnd(class_)
    ensures k == 0 && l == WordEnd(class_) && class_[..l] == class_[k..l]
  {
    NoBlankInside(class_, wanted, k, l);
  }

  lemma SliceOfRest(s: string, from: nat, i: nat, j: nat)
    requires from + i <= from + j <= |s|
    ensures s[from..][i..j] == s[from + i..from + j]
  {
  }

  lemma LaterWord(class_: string, wanted: string -> bool, from: nat, i: nat, j: nat, k: nat, l: nat)
    requires 0 < from <= |class_| && IsBlank(class_[from - 1]) && k == from + i && l == from + j
    ensures WordAt(class_, wanted, k, l) <==> WordAt(class_[from..], wanted, i, j)
  {
    if i <= j && l <= |class_| {
      SliceOfRest(class_, from, i, j);
    }
  }

  // Where the words of a class behind its first one stand.
  lemma WordsBehind(class_: string, rest: string, wanted: string -> bool, k: nat, l: nat) returns (i: nat, j: nat)
    requires AreWords(wanted) && WordEnd(class_) < |class_| && rest == class_[WordEnd(class_) + 1..]
    requires !wanted(class_[..WordEnd(class_)]) && WordAt(class_, wanted, k, l)
    ensures WordAt(rest, wanted, i, j) && k == WordEnd(class_) + 1 + i && l == WordEnd(class_) + 1 + j
  {
    var from := WordEnd(class_) + 1;
    if k < from { OnlyFirstWord(class_, wanted, k, l); }
    i, j := k - from, l - from;
    LaterWord(class_, wanted, from, i, j, k, l);
  }

  lemma NoneIsLater(class_: string, rest: string, wanted: string -> bool)
    requires AreWords(wanted) && WordEnd(class_) < |class_| && rest == class_[WordEnd(class_) + 1..]
    requires !wanted(class_[..WordEnd(class_)]) && IsFirst(rest, wanted, None)
    ensures IsFirst(class_, wanted, None)
  {
    forall k: nat, l: nat
      ensures !WordAt(class_, wanted, k, l)
    {
      if WordAt(class_, wanted, k, l) {
        var i, j := WordsBehind(class_, rest, wanted, k, l);
      }
    }
  }

  lemma FirstIsLater(class_: string, rest: string, wanted: string -> bool, i: nat, j: nat, k: nat, l: nat)
    requires AreWords(wanted) && WordEnd(class_) < |class_| && rest == class_[WordEnd(class_) + 1..]
    requires !wanted(class_[..WordEnd(class_)]) && IsFirst(rest, wanted, Some((i, j)))
    requires k == WordEnd(class_) + 1 + i && l == WordEnd(class_) + 1 + j
    ensures IsFirst(class_, wanted, Some((k, l)))
  {
    LaterWord(class_, wanted, WordEnd(class_) + 1, i, j, k, l);
    forall m: nat, n: nat | WordAt(class_, wanted, m, n)
      ensures k <= m
    {
      NotEarlier(class_, rest, wanted, i, j, k, m, n);
    }
  }

  lemma NotEarlier(class_: string, rest: string, wanted: string -> bool, i: nat, j: nat, k: nat, m: nat, n: nat)
    requires AreWords(wanted) && WordEnd(class_) < |class_| && rest == class_[WordEnd(class_) + 1..]
    requires !wanted(class_[..WordEnd(class_)]) && IsFirst(rest, wanted, Some((i, j)))
    requires k == WordEnd(class_) + 1 + i && WordAt(class_, wanted, m, n)
    ensures k <= m
  {
    var p, q := WordsBehind(class_, rest, wanted, m, n);
    assert i <= p;
  }

  lemma BehindSome(at: Option<(nat, nat)>, i: nat, j: nat, from: nat) returns (k: nat, l: nat)
    requires at == Some((i, j))
    ensures k == from + i && l == from + j && Behind(at, from) == Some((k, l))
  {
    k, l := from + i, from + j;
  }

  lemma FirstBehind(class_: string, rest: string, wanted: string -> bool, at: Option<(nat, nat)>)
    requires AreWords(wanted) && WordEnd(class_) < |class_| && rest == class_[WordEnd(class_) + 1..]
    requires !wanted(class_[..WordEnd(class_)]) && IsFirst(rest, wanted, at)
    ensures IsFirst(class_, wanted, Behind(at, WordEnd(class_) + 1))
  {
    match at
    case None =>
      NoneIsLater(class_, rest, wanted);
    case Some((i, j)) =>
      var k, l := BehindSome(at, i, j, WordEnd(class_) + 1);
      FirstIsLater(class_, rest, wanted, i, j, k, l);
  }

  lemma NoWordAtAll(class_: string, wanted: string -> bool)
    requires AreWords(wanted) && WordEnd(class_) == |class_| && !wanted(class_)
    ensures IsFirst(class_, wanted, None)
  {
    assert class_[..|class_|] == class_;
    forall i: nat, j: nat
      ensures !WordAt(class_, wanted, i, j)
    {
      if WordAt(class_, wanted, i, j) { OnlyFirstWord(class_, wanted, i, j); }
    }
  }

  lemma {:induction false} FirstWordIsFirst(class_: string, wanted: string -> bool)
    requires AreWords(wanted)
    ensures IsFirst(class_, wanted, FirstWord(class_, wanted))
    decreases |class_|
  {
    var end := WordEnd(class_);
    if wanted(class_[..end]) {
      assert class_[0..end] == class_[..end];
    } else if end < |class_| {
      var rest := class_[end + 1..];
      FirstWordIsFirst(rest, wanted);
      FirstBehind(class_, rest, wanted, FirstWord(rest, wanted));
    } else {
      assert class_[..end] == class_;
      NoWordAtAll(class_, wanted);
    }
  }

  lemma NamesAreWords()
    ensures AreWords(NamesLanguage)
  {
    forall w: string | NamesLanguage(w)
      ensures w != "" && forall k | 0 <= k < |w| :: !IsBlank(w[k])
    {
      forall k | 0 <= k < |w|
        ensures !IsBlank(w[k])
      {
        assert w[k] == if k < |LANGUAGE| then LANGUAGE[k] else w[|LANGUAGE|..][k - |LANGUAGE|];
      }
    }
  }

  ghost predicate StandsAt(class_: string, lang: Option<string>, at: Option<(nat, nat)>) {
    match at
    case None => lang.None?
    case Some((i, j)) => i + |LANGUAGE| <= j <= |class_| && lang == Some(class_[i + |LANGUAGE|..j])
  }

  lemma StandsBehind(class_: string, from: nat, lang: Option<string>, at: Option<(nat, nat)>)
    requires from <= |class_| && StandsAt(class_[from..], lang, at)
    ensures StandsAt(class_, lang, Behind(at, from))
  {
    if at.Some? {
      SliceOfRest(class_, from, at.value.0 + |LANGUAGE|, at.value.1);
    }
  }

  lemma LanguageSkipsWord(class_: string)
    requires !NamesLanguage(class_[..WordEnd(class_)])
    ensures ClassLanguage(class_) ==
            if WordEnd(class_) == |class_| then None else ClassLanguage(class_[WordEnd(class_) + 1..])
  {
  }

  lemma {:induction false} LanguageOfFirstWord(class_: string)
    ensures StandsAt(class_, ClassLanguage(class_), FirstWord(class_, NamesLanguage))
    decreases |class_|
  {
    var end := WordEnd(class_);
    if NamesLanguage(class_[..end]) {
      assert class_[..end][|LANGUAGE|..] == class_[|LANGUAGE|..end];
    } else if end < |class_| {
      var rest := class_[end + 1..];
      LanguageSkipsWord(class_);
      LanguageOfFirstWord(rest);
      StandsBehind(class_, end + 1, ClassLanguage(rest), FirstWord(rest, NamesLanguage));
    } else {
      LanguageSkipsWord(class_);
    }
  }

  // The language of a class is that of its first word of that form, and there is
  // none exactly if no word is.
  lemma LanguageIsFirstNamed(class_: string) returns (at: Option<(nat, nat)>)
    ensures IsFirst(class_, NamesLanguage, at) && StandsAt(class_, ClassLanguage(class_), at)
  {
    NamesAreWords();
    FirstWordIsFirst(class_, NamesLanguage);
    LanguageOfFirstWord(class_);
    at := FirstWord(class_, NamesLanguage);
  }

  // A code element's language: its own, or that of the element it stands in.
  function CodeLanguage(attrs: seq<Attr>, parent: seq<Attr>): Option<string> {
    var own := ClassLanguage(AttrValue(attrs, "class"));
    var found := if own.Some? then own else ClassLanguage(AttrValue(parent, "class"));
    if found.None? then None
    else
      var lang := ToLower(found.value);
      if lang == "plaintext" || lang == "text" then None else Some(lang)
  }

  // The code element's own class goes first, and Teams' names for no language
  // count as none.
  lemma CodeLanguageExactly(attrs: seq<Attr>, parent: seq<Attr>, lang: string)
    ensures CodeLanguage(attrs, parent) == Some(lang) <==>
            && lang !in {"plaintext", "text"}
            && exists named ::
                 && ToLower(named) == lang
                 && (|| ClassLanguage(AttrValue(attrs, "class")) == Some(named)
                     || (ClassLanguage(AttrValue(attrs, "class")).None? && ClassLanguage(AttrValue(parent, "class")) == Some(named)))
  {
    var own := ClassLanguage(AttrValue(attrs, "class"));
    var found := if own.Some? then own else ClassLanguage(AttrValue(parent, "class"));
    if found.Some? {
      assert ToLower(found.value) == lang ==> lang == ToLower(found.value);
    }
  }

  // ----- emoticons -----

  function Underscored(s: string): string {
    if s == "" then "" else [if s[0] == ' ' then '_' else s[0]] + Underscored(s[1..])
  }

  // The text standing in for a Teams emoticon image.
  function EmoticonText(data: string, attrs: seq<Attr>): Option<string> {
    if !EqualFold(data, "img") || !Contains(ToLower(TrimSpace(AttrValue(attrs, "itemtype"))), "schema.skype.com/emoji")
    then None
    else
      var alt, title, itemID := TrimSpace(AttrValue(attrs, "alt")), TrimSpace(AttrValue(attrs, "title")),
                                TrimSpace(AttrValue(attrs, "itemid"));
      if alt != "" then Some(alt)
      else if title != "" then Some(":" + ToLower(Underscored(title)) + ":")
      else if itemID != "" then Some(":" + itemID + ":")
      else None
  }

  // An emoticon's alternative text comes first, then its title, then its ID.
  lemma EmoticonIsSpelled(img: string, itemtype: string, alt: string, title: string, itemID: string)
    requires EqualFold(img, "img") && Contains(ToLower(TrimSpace(itemtype)), "schema.skype.com/emoji")
    ensures var attrs := [Attr("itemtype", itemtype, false), Attr("itemid", itemID, false),
                          Attr("alt", alt, false), Attr("title", title, false)];
            EmoticonText(img, attrs) ==
            if TrimSpace(alt) != "" then Some(TrimSpace(alt))
            else if TrimSpace(title) != "" then Some(":" + ToLower(Underscored(TrimSpace(title))) + ":")
            else if TrimSpace(itemID) != "" then Some(":" + TrimSpace(itemID) + ":")
            else None
  {
    var attrs := [Attr("itemtype", itemtype, false), Attr("itemid", itemID, false),
                  Attr("alt", alt, false), Attr("title", title, false)];
    FirstAttr(attrs, "itemtype", 0);
    assert !EqualFold("itemtype", "itemid") && !EqualFold("itemtype", "alt") && !EqualFold("itemtype", "title");
    assert !EqualFold("itemid", "alt") && !EqualFold("itemid", "title") && !EqualFold("alt", "title");
    FirstAttr(attrs, "itemid", 1);
    FirstAttr(attrs, "alt", 2);
    FirstAttr(attrs, "title", 3);
  }

  // ----- the sanitised message -----

  // attr is a link's target or a code block's language.
  datatype Clean =
    | CleanText(text: string)
    | CleanBreak
    | CleanElement(tag: string, attr: Option<string>, children: seq<Clean>)

  function CleanAttr(tag: string, attrs: seq<Attr>, parent: seq<Attr>): Option<string> {
    if tag == "a" then SafeHref(attrs)
    else if tag == "code" then CodeLanguage(attrs, parent)
    else None
  }

  // Unsafe elements go with what they hold, other elements not allowed leave
  // what they hold. parent is the attributes of the element the node stands in.
  function Sanitise(node: Node, parent: seq<Attr>): seq<Clean> {
    match node
    case TextNode(data) => [CleanText(data)]
    case Other(children) => SanitiseAll(children, [])
    case Element(data, attrs, children) =>
      var tag := ToLower(data);
      var emoticon := EmoticonText(data, attrs);
      if IsUnsafeTag(tag) then []
      else if emoticon.Some? then [CleanText(emoticon.value)]
      else if tag == "br" then [CleanBreak]
      else if tag !in ALLOWED_TAGS then SanitiseAll(children, attrs)
      else [CleanElement(tag, CleanAttr(tag, attrs, parent), SanitiseAll(children, attrs))]
  }

  function SanitiseAll(nodes: seq<Node>, parent: seq<Attr>): seq<Clean> {
    if nodes == [] then [] else Sanitise(nodes[0], parent) + SanitiseAll(nodes[1..], parent)
  }

  // Nothing of an unsafe element is left, whatever it holds.
  lemma UnsafeIsLeftOut(node: Node, parent: seq<Attr>)
    requires node.Element?
    requires ToLower(node.data) in {"script", "style", "iframe", "object", "embed", "meta", "link", "head"}
    ensures Sanitise(node, parent) == [] && VisibleText(node) == "" && Markup(node, parent) == []
  {
  }

  // ----- what a reader sees -----

  // The text a message shows: all of it but what unsafe elements hold, with
  // emoticons spelled out.
  function VisibleText(node: Node): string {
    match node
    case TextNode(data) => data
    case Other(children) => AllVisibleText(children)
    case Element(data, attrs, children) =>
      if IsUnsafeTag(ToLower(data)) then ""
      else if EmoticonText(data, attrs).Some? then EmoticonText(data, attrs).value
      else if ToLower(data) == "br" then ""
      else AllVisibleText(children)
  }

  function AllVisibleText(nodes: seq<Node>): string {
    if nodes == [] then "" else VisibleText(nodes[0]) + AllVisibleText(nodes[1..])
  }

  function TextOf(cs: seq<Clean>): string {
    if cs == [] then ""
    else
      (match cs[0]
       case CleanText(text) => text
       case CleanBreak => ""
       case CleanElement(_, _, children) => TextOf(children)) + TextOf(cs[1..])
  }

  lemma {:induction false} TextOfConcat(a: seq<Clean>, b: seq<Clean>)
    ensures TextOf(a + b) == TextOf(a) + TextOf(b)
  {
    if a == [] {
      assert a + b == b;
      EmptyConcat(TextOf(b));
    } else {
      assert (a + b)[1..] == a[1..] + b && (a + b)[0] == a[0];
      TextOfConcat(a[1..], b);
      Associative(TextOf([a[0]]), TextOf(a[1..]), TextOf(b));
      TextOfFirst(a);
      TextOfFirst(a + b);
    }
  }

  lemma TextOfFirst(cs: seq<Clean>)
    requires cs != []
    ensures TextOf(cs) == TextOf([cs[0]]) + TextOf(cs[1..])
  {
    EmptyConcat(match cs[0]
                case CleanText(text) => text
                case CleanBreak => ""
                case CleanElement(_, _, children) => TextOf(children));
  }

  // Sanitising keeps exactly that text, in order.
  lemma {:induction false} TextIsKept(node: Node, parent: seq<Attr>)
    ensures TextOf(Sanitise(node, parent)) == VisibleText(node)
    decreases node
  {
    match node
    case TextNode(data) => EmptyConcat(data);
    case Other(children) => AllTextIsKept(children, []);
    case Element(data, attrs, children) =>
      AllTextIsKept(children, attrs);
      EmptyConcat(VisibleText(node));
  }

  lemma {:induction false} AllTextIsKept(nodes: seq<Node>, parent: seq<Attr>)
    ensures TextOf(SanitiseAll(nodes, parent)) == AllVisibleText(nodes)
    decreases nodes
  {
    if nodes != [] {
      TextIsKept(nodes[0], parent);
      AllTextIsKept(nodes[1..], parent);
      TextOfConcat(Sanitise(nodes[0], parent), SanitiseAll(nodes[1..], parent));
    }
  }

  // ----- the markup a message shows -----

  datatype Token = Words(text: string) | Break | Open(tag: string, attr: Option<string>) | Close(tag: string)

  // The message's markup and text in order: what unsafe elements hold is left
  // out, emoticons are spelled out, elements not allowed are looked through,
  // and a link or a code block has its target or language with it.
  function Markup(node: Node, parent: seq<Attr>): seq<Token> {
    match node
    case TextNode(data) => [Words(data)]
    case Other(children) => AllMarkup(children, [])
    case Element(data, attrs, children) =>
      var tag, emoticon := ToLower(data), EmoticonText(data, attrs);
      if IsUnsafeTag(tag) then []
      else if emoticon.Some? then [Words(emoticon.value)]
      else if tag == "br" then [Break]
      else
        var inner := AllMarkup(children, attrs);
        if tag !in ALLOWED_TAGS then inner
        else
          var attr := if tag == "a" then SafeHref(attrs) else if tag == "code" then CodeLanguage(attrs, parent) else None;
          [Open(tag, attr)] + inner + [Close(tag)]
  }

  function AllMarkup(nodes: seq<Node>, parent: seq<Attr>): seq<Token> {
    if nodes == [] then [] else Markup(nodes[0], parent) + AllMarkup(nodes[1..], parent)
  }

  // The same of a sanitised tree.
  function MarkupOfOne(c: Clean): seq<Token> {
    match c
    case CleanText(text) => [Words(text)]
    case CleanBreak => [Break]
    case CleanElement(tag, attr, children) => [Open(tag, attr)] + MarkupOf(children) + [Close(tag)]
  }

  function MarkupOf(cs: seq<Clean>): seq<Token> {
    if cs == [] then [] else MarkupOfOne(cs[0]) + MarkupOf(cs[1..])
  }

  lemma {:induction false} MarkupOfConcat(a: seq<Clean>, b: seq<Clean>)
    ensures MarkupOf(a + b) == MarkupOf(a) + MarkupOf(b)
  {
    if a == [] {
      assert a + b == b;
    } else {
      assert (a + b)[1..] == a[1..] + b;
      MarkupOfConcat(a[1..], b);
    }
  }

  lemma MarkupOfSingle(c: Clean)
    ensures MarkupOf([c]) == MarkupOfOne(c)
  {
    assert [c][1..] == [];
  }

  // Sanitising keeps exactly that markup, in order.
  lemma {:induction false} MarkupIsKept(node: Node, parent: seq<Attr>)
    ensures MarkupOf(Sanitise(node, parent)) == Markup(node, parent)
    decreases node
  {
    match node
    case TextNode(data) => MarkupOfSingle(CleanText(data));
    case Other(children) => AllMarkupIsKept(children, []);
    case Element(data, attrs, children) =>
      var cs := Sanitise(node, parent);
      AllMarkupIsKept(children, attrs);
      if |cs| == 1 {
        assert cs == [cs[0]];
        MarkupOfSingle(cs[0]);
      }
  }

  lemma {:induction false} AllMarkupIsKept(nodes: seq<Node>, parent: seq<Attr>)
    ensures MarkupOf(SanitiseAll(nodes, parent)) == AllMarkup(nodes, parent)
    decreases nodes
  {
    if nodes != [] {
      MarkupIsKept(nodes[0], parent);
      AllMarkupIsKept(nodes[1..], parent);
      MarkupOfConcat(Sanitise(nodes[0], parent), SanitiseAll(nodes[1..], parent));
    }
  }

  // ----- what is written -----

  function PrintAttr(tag: string, attr: Option<string>): string {
    if attr.None? then ""
    else if tag == "a" then " href=\"" + Escape(attr.value) + "\""
    else " class=\"language-" + attr.value + "\""
  }

  function Print(c: Clean): string {
    match c
    case CleanText(text) => Escape(text)
    case CleanBreak => "<br>"
    case CleanElement(tag, attr, children) =>
      "<" + tag + PrintAttr(tag, attr) + ">" + PrintAll(children) + ("</" + tag + ">")
  }

  function PrintAll(cs: seq<Clean>): string {
    if cs == [] then "" else Print(cs[0]) + PrintAll(cs[1..])
  }

  predicate HasTag(cs: seq<Clean>) {
    exists i :: 0 <= i < |cs| && !cs[i].CleanText?
  }

  lemma {:induction false} PrintAllConcat(a: seq<Clean>, b: seq<Clean>)
    ensures PrintAll(a + b) == PrintAll(a) + PrintAll(b)
  {
    if a == [] {
      assert a + b == b;
    } else {
      assert (a + b)[1..] == a[1..] + b;
      PrintAllConcat(a[1..], b);
    }
  }

  // The rendering has a tag exactly if it has a '<'.
  lemma {:induction false} TagIsBracket(cs: seq<Clean>)
    ensures HasTag(cs) <==> '<' in PrintAll(cs)
  {
    if cs != [] {
      TagIsBracket(cs[1..]);
      assert HasTag(cs) <==> !cs[0].CleanText? || HasTag(cs[1..]) by {
        if HasTag(cs[1..]) {
          var i :| 0 <= i < |cs| - 1 && !cs[1..][i].CleanText?;
          assert !cs[i + 1].CleanText?;
        }
      }
      if cs[0].CleanText? {
        EscapeIsInert(cs[0].text);
      } else {
        assert Print(cs[0])[0] == '<';
      }
    }
  }

  lemma HasTagConcat(a: seq<Clean>, b: seq<Clean>)
    ensures HasTag(a + b) <==> HasTag(a) || HasTag(b)
  {
    if HasTag(a) {
      var i :| 0 <= i < |a| && !a[i].CleanText?;
      assert !(a + b)[i].CleanText?;
    }
    if HasTag(b) {
      var i :| 0 <= i < |b| && !b[i].CleanText?;
      assert !(a + b)[|a| + i].CleanText?;
    }
  }

  lemma {:induction false} SanitiseAllConcat(a: seq<Node>, b: seq<Node>, parent: seq<Attr>)
    ensures SanitiseAll(a + b, parent) == SanitiseAll(a, parent) + SanitiseAll(b, parent)
  {
    if a == [] {
      assert a + b == b;
    } else {
      assert (a + b)[1..] == a[1..] + b;
      SanitiseAllConcat(a[1..], b, parent);
    }
  }

  // One more node rendered after the others.
  lemma OneMore(nodes: seq<Node>, i: nat, parent: seq<Attr>)
    requires i < |nodes|
    ensures var before, one := SanitiseAll(nodes[..i], parent), Sanitise(nodes[i], parent);
            && SanitiseAll(nodes[..i + 1], parent) == before + one
            && PrintAll(before + one) == PrintAll(before) + PrintAll(one)
            && (HasTag(before + one) <==> HasTag(before) || HasTag(one))
  {
    assert nodes[..i + 1] == nodes[..i] + [nodes[i]];
    SanitiseAllConcat(nodes[..i], [nodes[i]], parent);
    assert SanitiseAll([nodes[i]], parent) == Sanitise(nodes[i], parent);
    PrintAllConcat(SanitiseAll(nodes[..i], parent), Sanitise(nodes[i], parent));
    HasTagConcat(SanitiseAll(nodes[..i], parent), Sanitise(nodes[i], parent));
  }

  lemma PrintOne(c: Clean)
    ensures PrintAll([c]) == Print(c) && (HasTag([c]) <==> !c.CleanText?)
  {
    assert [c][0] == c;
  }

  // ----- the renderer -----

  class Builder {
    var text: string

    constructor ()
      ensures text == ""
    {
      text := "";
    }

    method WriteString(s: string)
      modifies this
      ensures text == old(text) + s
    {
      text := text + s;
    }
  }

  // Appends a node's rendering; tells whether it has a tag.
  method RenderFormattedNode(b: Builder, node: Node, parent: seq<Attr>) returns (rendered: bool)
    modifies b
    ensures b.text == old(b.text) + PrintAll(Sanitise(node, parent))
    ensures rendered <==> HasTag(Sanitise(node, parent))
    decreases node, 3
  {
    match node
    case TextNode(data) =>
      PrintOne(CleanText(data));
      b.WriteString(Escape(data));
      return false;
    case Other(children) =>
      rendered := RenderChildren(b, node, children, []);
    case Element(data, attrs, children) =>
      rendered := RenderElement(b, node, parent);
  }

  method RenderElement(b: Builder, node: Node, parent: seq<Attr>) returns (rendered: bool)
    requires node.Element?
    modifies b
    ensures b.text == old(b.text) + PrintAll(Sanitise(node, parent))
    ensures rendered <==> HasTag(Sanitise(node, parent))
    decreases node, 2
  {
    var tag := ToLower(node.data);
    if IsUnsafeTag(tag) {
      return false;
    }
    var emoticon := EmoticonText(node.data, node.attrs);
    if emoticon.Some? {
      PrintOne(CleanText(emoticon.value));
      b.WriteString(Escape(emoticon.value));
      return false;
    }
    if tag == "br" {
      PrintOne(CleanBreak);
      b.WriteString("<br>");
      return true;
    }
    if tag !in ALLOWED_TAGS {
      rendered := RenderChildren(b, node, node.children, node.attrs);
      return;
    }
    WriteElement(b, node, tag, parent);
    return true;
  }

  method WriteElement(b: Builder, node: Node, tag: string, parent: seq<Attr>)
    requires node.Element?
    modifies b
    ensures var c := CleanElement(tag, CleanAttr(tag, node.attrs, parent), SanitiseAll(node.children, node.attrs));
            b.text == old(b.text) + PrintAll([c]) && HasTag([c])
    decreases node, 1
  {
    ghost var c := CleanElement(tag, CleanAttr(tag, node.attrs, parent), SanitiseAll(node.children, node.attrs));
    PrintOne(c);
    ghost var start, attr, inner := b.text, PrintAttr(tag, c.attr), PrintAll(c.children);
    ghost var opening := "<" + tag;
    b.WriteString("<" + tag);
    WriteAttr(b, tag, node.attrs, parent);
    Associative(start, opening, attr);
    b.WriteString(">");
    Associative(start, opening + attr, ">");
    var _ := RenderChildren(b, node, node.children, node.attrs);
    Associative(start, opening + attr + ">", inner);
    b.WriteString("</" + tag + ">");
    Associative(start, opening + attr + ">" + inner, "</" + tag + ">");
  }

  method WriteAttr(b: Builder, tag: string, attrs: seq<Attr>, parent: seq<Attr>)
    modifies b
    ensures b.text == old(b.text) + PrintAttr(tag, CleanAttr(tag, attrs, parent))
  {
    if tag == "a" {
      var href := SafeHref(attrs);
      if href.Some? {
        b.WriteString(" href=\"" + Escape(href.value) + "\"");
      }
    }
    if tag == "code" {
      var lang := CodeLanguage(attrs, parent);
      if lang.Some? {
        b.WriteString(" class=\"language-" + lang.value + "\"");
      }
    }
  }

  method RenderChildren(b: Builder, ghost node: Node, children: seq<Node>, parent: seq<Attr>) returns (rendered: bool)
    requires !node.TextNode? && children == node.children
    modifies b
    ensures b.text == old(b.text) + PrintAll(SanitiseAll(children, parent))
    ensures rendered <==> HasTag(SanitiseAll(children, parent))
    decreases node, 0
  {
    rendered := false;
    var i := 0;
    ghost var start, done := b.text, SanitiseAll(children[..0], parent);
    while i < |children|
      invariant i <= |children| && done == SanitiseAll(children[..i], parent)
      invariant b.text == start + PrintAll(done) && (rendered <==> HasTag(done))
    {
      OneMore(children, i, parent);
      Associative(start, PrintAll(done), PrintAll(Sanitise(children[i], parent)));
      var tag := RenderFormattedNode(b, children[i], parent);
      if tag {
        rendered := true;
      }
      done := done + Sanitise(children[i], parent);
      i := i + 1;
    }
    assert children[..|children|] == children;
  }

  // A message's formatted body: none without a tag.
  method NormalizeFormatted(nodes: seq<Node>) returns (formatted: string)
    ensures var printed := PrintAll(SanitiseAll(nodes, []));
            formatted == if '<' in printed then TrimSpace(printed) else ""
  {
    var b := new Builder();
    var rendered := RenderChildren(b, Other(nodes), nodes, []);
    TagIsBracket(SanitiseAll(nodes, []));
    assert b.text == PrintAll(SanitiseAll(nodes, []));
    formatted := if rendered then TrimSpace(b.text) else "";
  }
}
