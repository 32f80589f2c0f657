/** String helpers the bridge takes from Go's strings and strconv packages. */
module Text {

  datatype Option<+T> = None | Some(value: T)

  const MAX_INT64: int := 0x7fff_ffff_ffff_ffff
  const TWO_64: int := 0x1_0000_0000_0000_0000

  // ----- white space -----

  // The runes unicode.IsSpace accepts.
  predicate IsSpace(c: char) {
    || '\t' <= c <= '\r' || c == ' ' || c == '\U{85}' || c == '\U{A0}' || c == '\U{1680}'
    || '\U{2000}' <= c <= '\U{200A}' || c == '\U{2028}' || c == '\U{2029}' || c == '\U{202F}'
    || c == '\U{205F}' || c == '\U{3000}'
  }

  function TrimLeft(s: string): string {
    if s != "" && IsSpace(s[0]) then TrimLeft(s[1..]) else s
  }

  function TrimRight(s: string): string {
    if s != "" && IsSpace(s[|s| - 1]) then TrimRight(s[..|s| - 1]) else s
  }

  function TrimSpace(s: string): string {
    TrimRight(TrimLeft(s))
  }

  predicate Trimmed(s: string) {
    s == "" || (!IsSpace(s[0]) && !IsSpace(s[|s| - 1]))
  }

  lemma {:induction false} TrimRightResult(s: string)
    ensures TrimRight(s) <= s
    ensures TrimRight(s) == "" || !IsSpace(TrimRight(s)[|TrimRight(s)| - 1])
  {
    if s != "" && IsSpace(s[|s| - 1]) {
      TrimRightResult(s[..|s| - 1]);
    }
  }

  lemma {:induction false} TrimLeftResult(s: string)
    ensures TrimLeft(s) == "" || !IsSpace(TrimLeft(s)[0])
  {
    if s != "" && IsSpace(s[0]) {
      TrimLeftResult(s[1..]);
    }
  }

  lemma TrimSpaceIsTrimmed(s: string)
    ensures Trimmed(TrimSpace(s))
  {
    TrimLeftResult(s);
    TrimRightResult(TrimLeft(s));
  }

  lemma TrimmedIsKept(s: string)
    requires Trimmed(s)
    ensures TrimSpace(s) == s
  {
  }

  lemma Associative(a: string, b: string, c: string)
    ensures a + b + c == a + (b + c)
  {
  }

  lemma Rejoin(s: string, i: nat)
    requires i <= |s|
    ensures s[..i] + s[i..] == s
  {
  }

  lemma EmptyConcat(s: string)
    ensures "" + s == s && s + "" == s
  {
  }

  // ----- searching -----

  predicate Contains(s: string, sub: string) {
    sub <= s || (s != "" && Contains(s[1..], sub))
  }

  predicate HasSuffix(s: string, suffix: string) {
    |suffix| <= |s| && s[|s| - |suffix|..] == suffix
  }

  // The first index of c in s, or |s| when there is none.
  function IndexOf(s: string, c: char): (i: nat)
    ensures i <= |s| && c !in s[..i]
    ensures i < |s| ==> s[i] == c
    ensures i == |s| ==> c !in s
  {
    if s == "" || s[0] == c then 0
    else
      assert s == [s[0]] + s[1..];
      var i := 1 + IndexOf(s[1..], c);
      assert s[..i] == [s[0]] + s[1..][..i - 1];
      i
  }

  lemma IndexOfIn(s: string, c: char, rest: string)
    requires c !in s
    requires rest == "" || rest[0] == c
    ensures IndexOf(s + rest, c) == |s|
  {
    var i := IndexOf(s + rest, c);
    assert forall j | 0 <= j < |s| :: (s + rest)[j] in s;
    assert forall j | 0 <= j < i :: (s + rest)[j] in (s + rest)[..i];
    assert rest != "" ==> (s + rest)[|s|] == c;
  }

  // ----- joining and splitting -----

  function Join(parts: seq<string>, sep: string): string {
    if parts == [] then ""
    else if |parts| == 1 then parts[0]
    else parts[0] + sep + Join(parts[1..], sep)
  }

  // strings.Split for a one-character separator.
  function Split(s: string, sep: char): seq<string>
    decreases |s|
  {
    var i := IndexOf(s, sep);
    if i == |s| then [s] else [s[..i]] + Split(s[i + 1..], sep)
  }

  lemma SplitFirst(part: string, sep: char, rest: string)
    requires sep !in part
    ensures Split(part + [sep] + rest, sep) == [part] + Split(rest, sep)
    ensures Split(part, sep) == [part]
  {
    var s := part + [sep] + rest;
    assert s == part + ([sep] + rest);
    IndexOfIn(part, sep, [sep] + rest);
    assert s[..|part|] == part && s[|part| + 1..] == rest;
    IndexOfIn(part, sep, "");
    assert part + "" == part;
  }

  lemma {:induction false} SplitJoin(parts: seq<string>, sep: char)
    requires parts != []
    requires forall i | 0 <= i < |parts| :: sep !in parts[i]
    ensures Split(Join(parts, [sep]), sep) == parts
  {
    if |parts| == 1 {
      SplitFirst(parts[0], sep, "");
    } else {
      SplitFirst(parts[0], sep, Join(parts[1..], [sep]));
      SplitJoin(parts[1..], sep);
    }
  }

  // ----- decimal numbers -----

  predicate IsDigit(c: char) {
    '0' <= c <= '9'
  }

  predicate AllDigits(s: string) {
    forall c | c in s :: IsDigit(c)
  }

  function DigitsValue(s: string): nat
    requires AllDigits(s)
  {
    if s == "" then 0
    else
      assert IsDigit(s[|s| - 1]);
      DigitsValue(s[..|s| - 1]) * 10 + (s[|s| - 1] as int - '0' as int)
  }

  // strconv.ParseUint(s, 10, 64).
  function ParseUint(s: string): Option<nat> {
    if s != "" && AllDigits(s) && DigitsValue(s) < TWO_64 then Some(DigitsValue(s)) else None
  }

  function FormatNat(n: nat): string {
    var digit := ['0' + (n % 10) as char];
    if n < 10 then digit else FormatNat(n / 10) + digit
  }

  // strconv.FormatInt(n, 10).
  function FormatInt(n: int): string {
    if n < 0 then "-" + FormatNat(-n) else FormatNat(n)
  }

  lemma {:induction false} FormatNatDigits(n: nat)
    ensures FormatNat(n) != "" && AllDigits(FormatNat(n)) && DigitsValue(FormatNat(n)) == n
  {
    var digit := '0' + (n % 10) as char;
    if n < 10 {
      assert FormatNat(n)[..0] == "";
    } else {
      FormatNatDigits(n / 10);
      assert FormatNat(n)[..|FormatNat(n)| - 1] == FormatNat(n / 10);
      assert FormatNat(n)[|FormatNat(n)| - 1] == digit;
    }
  }

  lemma FormatIntInjective(m: int, n: int)
    requires FormatInt(m) == FormatInt(n)
    ensures m == n
  {
    FormatNatDigits(if m < 0 then -m else m);
    FormatNatDigits(if n < 0 then -n else n);
    assert m >= 0 ==> IsDigit(FormatInt(m)[0]);
    assert n >= 0 ==> IsDigit(FormatInt(n)[0]);
    assert m < 0 ==> FormatInt(m)[0] == '-' && FormatInt(m)[1..] == FormatNat(-m);
    assert n < 0 ==> FormatInt(n)[0] == '-' && FormatInt(n)[1..] == FormatNat(-n);
  }

  lemma FormatIntChars(n: int)
    ensures FormatInt(n) != ""
    ensures forall c | c in FormatInt(n) :: c == '-' || IsDigit(c)
  {
    FormatNatDigits(if n < 0 then -n else n);
  }

  // ----- order -----

  // strings.Compare(a, b) < 0. Comparing runes in order agrees with
  // comparing the bytes of their UTF-8 forms.
  predicate LexLess(a: string, b: string) {
    b != "" && (a == "" || a[0] < b[0] || (a[0] == b[0] && LexLess(a[1..], b[1..])))
  }

  lemma {:induction false} LexTrichotomy(a: string, b: string)
    ensures !(LexLess(a, b) && LexLess(b, a))
    ensures LexLess(a, b) || LexLess(b, a) || a == b
    ensures a == b ==> !LexLess(a, b)
  {
    if a != "" && b != "" && a[0] == b[0] {
      LexTrichotomy(a[1..], b[1..]);
      assert a == [a[0]] + a[1..] && b == [b[0]] + b[1..];
    }
  }

  lemma {:induction false} LexTransitive(a: string, b: string, c: string)
    requires LexLess(a, b) && LexLess(b, c)
    ensures LexLess(a, c)
  {
    if a != "" && a[0] == b[0] == c[0] {
      LexTransitive(a[1..], b[1..], c[1..]);
    }
  }
}
