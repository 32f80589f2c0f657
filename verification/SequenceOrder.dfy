/** The order of Teams sequence IDs, which decides what a poll cursor has passed. */
module SequenceOrder {
  import opened Text

  // CompareSequenceID: by value when both IDs are uint64 decimals, as strings otherwise.
  function Compare(a: string, b: string): int {
    var aNum, bNum := ParseUint(a), ParseUint(b);
    if aNum.Some? && bNum.Some? then
      if aNum.value < bNum.value then -1 else if aNum.value > bNum.value then 1 else 0
    else
      if LexLess(a, b) then -1 else if LexLess(b, a) then 1 else 0
  }

  // What the poller compares: an ID Teams numbers its messages with, or ""
  // for a cursor that has not moved yet.
  predicate IsSequenceID(s: string) {
    s == "" || ParseUint(s).Some?
  }

  // The position an ID stands for; -1 is before every message.
  function Key(s: string): int {
    if ParseUint(s).Some? then ParseUint(s).value else -1
  }

  // On the poller's IDs the comparison is the order of the integer positions,
  // hence a total preorder with "" below everything else.
  lemma CompareIsKeyOrder(a: string, b: string)
    requires IsSequenceID(a) && IsSequenceID(b)
    ensures Compare(a, b) < 0 <==> Key(a) < Key(b)
    ensures Compare(a, b) == 0 <==> Key(a) == Key(b)
    ensures Compare(a, b) > 0 <==> Key(a) > Key(b)
    ensures Key(a) >= -1 && (Key(a) == -1 <==> a == "")
  {
    LexTrichotomy(a, b);
  }

  // Swapping the arguments flips the sign, whatever the strings.
  lemma CompareAntisymmetric(a: string, b: string)
    ensures Compare(a, b) == -Compare(b, a)
  {
    LexTrichotomy(a, b);
  }

  // a <= b <= c gives a <= c, for every order of the three.
  predicate TransitiveOn(a: string, b: string, c: string) {
    && (Compare(a, b) <= 0 && Compare(b, c) <= 0 ==> Compare(a, c) <= 0)
    && (Compare(a, c) <= 0 && Compare(c, b) <= 0 ==> Compare(a, b) <= 0)
    && (Compare(b, a) <= 0 && Compare(a, c) <= 0 ==> Compare(b, c) <= 0)
    && (Compare(b, c) <= 0 && Compare(c, a) <= 0 ==> Compare(b, a) <= 0)
    && (Compare(c, a) <= 0 && Compare(a, b) <= 0 ==> Compare(c, b) <= 0)
    && (Compare(c, b) <= 0 && Compare(b, a) <= 0 ==> Compare(c, a) <= 0)
  }

  // z is no number but sits, as a string, between two numbers whose string
  // order is the reverse of their numeric one.
  predicate Interloper(x: string, z: string, y: string) {
    && ParseUint(x).Some? && ParseUint(y).Some? && ParseUint(z).None?
    && ParseUint(x).value <= ParseUint(y).value
    && LexLess(y, z) && LexLess(z, x)
  }

  // Exactly when three arbitrary IDs are ordered consistently.
  lemma TransitiveExactlyWithoutInterloper(a: string, b: string, c: string)
    ensures TransitiveOn(a, b, c) <==>
            && !Interloper(a, b, c) && !Interloper(a, c, b) && !Interloper(b, a, c)
            && !Interloper(b, c, a) && !Interloper(c, a, b) && !Interloper(c, b, a)
  {
    LexOrderFacts(a, b, c);
    LexOrderFacts(b, c, a);
    LexOrderFacts(c, a, b);
    LexOrderFacts(a, c, b);
    LexOrderFacts(c, b, a);
    LexOrderFacts(b, a, c);
  }

  lemma LexOrderFacts(a: string, b: string, c: string)
    ensures LexLess(a, b) && LexLess(b, c) ==> LexLess(a, c)
    ensures LexLess(a, b) || LexLess(b, a) || a == b
    ensures !(LexLess(a, b) && LexLess(b, a)) && !LexLess(a, a)
  {
    if LexLess(a, b) && LexLess(b, c) {
      LexTransitive(a, b, c);
    }
    LexTrichotomy(a, b);
    LexTrichotomy(a, a);
  }

  // The three IDs form a cycle: 9 < 10 < 1a < 9.
  lemma MixedIDsFormACycle()
    ensures Compare("9", "10") < 0 && Compare("10", "1a") < 0 && Compare("1a", "9") < 0
  {
    assert "9"[..0] == "" && "10"[..1] == "1" && "1"[..0] == "";
    assert DigitsValue("9") == 9;
    assert DigitsValue("1") == 1;
    assert DigitsValue("10") == 10;
    assert "1a"[1] == 'a' && !IsDigit('a');
    assert "10"[1..] == "0" && "1a"[1..] == "a";
  }
}
