/** The signature by which a message's reactions are compared between polls. */
module ReactionSignature {
  import opened Text
  import opened Sorting
  import opened CacheSweep

  datatype User = User(mri: string, timeMS: int)

  datatype Reaction = Reaction(emotionKey: string, users: seq<User>)

  // One user's reaction.
  datatype Triple = Triple(key: string, user: string, time: int)

  function UserTriples(key: string, users: seq<User>): seq<Triple> {
    if users == [] then []
    else UserTriples(key, users[..|users| - 1])
         + [Triple(TrimSpace(key), TrimSpace(users[|users| - 1].mri), users[|users| - 1].timeMS)]
  }

  function Triples(reactions: seq<Reaction>): seq<Triple> {
    if reactions == [] then []
    else Triples(reactions[..|reactions| - 1])
         + UserTriples(reactions[|reactions| - 1].emotionKey, reactions[|reactions| - 1].users)
  }

  function Part(t: Triple): string {
    t.key + "|" + t.user + "|" + FormatInt(t.time)
  }

  function Parts(ts: seq<Triple>): seq<string> {
    if ts == [] then [] else Parts(ts[..|ts| - 1]) + [Part(ts[|ts| - 1])]
  }

  function Signature(ts: seq<Triple>): string {
    Join(Sort(Parts(ts), LexLess), ";")
  }

  lemma {:induction false} PartsConcat(a: seq<Triple>, b: seq<Triple>)
    ensures Parts(a + b) == Parts(a) + Parts(b)
  {
    if b == [] {
      assert a + b == a;
    } else {
      assert (a + b)[..|a + b| - 1] == a + b[..|b| - 1];
      PartsConcat(a, b[..|b| - 1]);
    }
  }

  method BuildSignature(reactions: seq<Reaction>) returns (sig: string)
    ensures sig == Signature(Triples(reactions))
  {
    if |reactions| == 0 {
      return "";
    }
    var parts: seq<string> := [];
    var i := 0;
    while i < |reactions|
      invariant i <= |reactions| && parts == Parts(Triples(reactions[..i]))
    {
      assert reactions[..i + 1][..i] == reactions[..i];
      PartsConcat(Triples(reactions[..i]), UserTriples(reactions[i].emotionKey, reactions[i].users));
      var more := UserParts(TrimSpace(reactions[i].emotionKey), reactions[i]);
      parts := parts + more;
      i := i + 1;
    }
    assert reactions[..|reactions|] == reactions;
    return Join(Sort(parts, LexLess), ";");
  }

  // The inner loop.
  method UserParts(key: string, reaction: Reaction) returns (parts: seq<string>)
    requires key == TrimSpace(reaction.emotionKey)
    ensures parts == Parts(UserTriples(reaction.emotionKey, reaction.users))
  {
    var users := reaction.users;
    parts := [];
    var j := 0;
    while j < |users|
      invariant j <= |users| && parts == Parts(UserTriples(reaction.emotionKey, users[..j]))
    {
      assert users[..j + 1][..j] == users[..j];
      var part := key + "|" + TrimSpace(users[j].mri) + "|" + FormatInt(users[j].timeMS);
      OneMorePart(UserTriples(reaction.emotionKey, users[..j]), Triple(key, TrimSpace(users[j].mri), users[j].timeMS));
      parts := parts + [part];
      j := j + 1;
    }
    assert users[..|users|] == users;
  }

  // Each user of a reaction has its triple, in its place, key and ID trimmed.
  lemma {:induction false} UserTriplesAt(key: string, users: seq<User>, j: nat)
    requires j < |users|
    ensures |UserTriples(key, users)| == |users|
    ensures UserTriples(key, users)[j] == Triple(TrimSpace(key), TrimSpace(users[j].mri), users[j].timeMS)
  {
    var n := |users| - 1;
    if j < n {
      UserTriplesAt(key, users[..n], j);
    } else if n > 0 {
      UserTriplesAt(key, users[..n], 0);
    }
  }

  // And a reaction's triples come right behind those of the reactions before it.
  lemma {:induction false} TriplesOfEach(reactions: seq<Reaction>, n: nat)
    requires n < |reactions|
    ensures Triples(reactions[..n]) + UserTriples(reactions[n].emotionKey, reactions[n].users) == Triples(reactions[..n + 1])
    ensures Triples(reactions[..n + 1]) <= Triples(reactions)
    decreases |reactions|
  {
    assert reactions[..n + 1][..n] == reactions[..n];
    if n + 1 < |reactions| {
      var init := reactions[..|reactions| - 1];
      assert init[..n + 1] == reactions[..n + 1];
      TriplesOfEach(init, n);
    } else {
      assert reactions[..n + 1] == reactions;
    }
  }

  lemma OneMorePart(ts: seq<Triple>, t: Triple)
    ensures Parts(ts + [t]) == Parts(ts) + [Part(t)]
  {
    assert (ts + [t])[..|ts|] == ts;
  }

  // ----- what the signature tells -----

  // A bar with no white space right before or behind it, which could as well
  // end a key or a user ID.
  predicate CouldEnd(s: string, i: nat)
    requires i < |s|
  {
    s[i] == '|' && (i > 0 ==> !IsSpace(s[i - 1])) && (i + 1 < |s| ==> !IsSpace(s[i + 1]))
  }

  predicate NoBar(s: string) {
    forall i | 0 <= i < |s| :: !CouldEnd(s, i)
  }

  // Key and user are trimmed, as the loops leave them.
  predicate IsTrimmed(t: Triple) {
    Trimmed(t.key) && Trimmed(t.user)
  }

  predicate AreTrimmed(ts: seq<Triple>) {
    forall i | 0 <= i < |ts| :: IsTrimmed(ts[i])
  }

  // No bar in the key or the user ID could end it.
  predicate IsPlain(t: Triple) {
    IsTrimmed(t) && NoBar(t.key) && NoBar(t.user)
  }

  predicate ArePlain(ts: seq<Triple>) {
    forall i | 0 <= i < |ts| :: IsPlain(ts[i])
  }

  predicate Starts(rest: string) {
    rest == "" || !IsSpace(rest[0])
  }

  // A field that ends inside another one ends at a bar that could end that.
  lemma EndsInside(a: string, x: string, b: string, y: string)
    requires a + "|" + x == b + "|" + y && Trimmed(a) && Starts(x) && |a| < |b|
    ensures CouldEnd(b, |a|)
  {
    var s, i := a + "|" + x, |a|;
    assert s[..|b|] == b && s[..i] == a && s[i] == '|' && s[i + 1..] == x;
    assert forall j | 0 <= j < |b| :: b[j] == s[j];
    assert i > 0 ==> b[i - 1] == a[i - 1];
    assert i + 1 < |b| ==> b[i + 1] == x[0];
  }

  lemma NotShorter(a: string, x: string, b: string, y: string)
    requires a + "|" + x == b + "|" + y && Trimmed(a) && Starts(x) && NoBar(b)
    ensures |a| >= |b|
  {
    if |a| < |b| { EndsInside(a, x, b, y); }
  }

  lemma SameField(a: string, x: string, b: string, y: string)
    requires a + "|" + x == b + "|" + y && |a| == |b|
    ensures a == b && x == y
  {
    var s, t := a + "|" + x, b + "|" + y;
    assert s[..|a|] == a && t[..|b|] == b;
    assert s[|a| + 1..] == x && t[|b| + 1..] == y;
  }

  lemma SameTime(m: int, r: string, n: int, q: string)
    requires FormatInt(m) + r == FormatInt(n) + q
    requires (r == "" || r[0] == ';') && (q == "" || q[0] == ';')
    ensures m == n && r == q
  {
    var a, b := FormatInt(m), FormatInt(n);
    FormatIntChars(m);
    FormatIntChars(n);
    IndexOfIn(a, ';', r);
    IndexOfIn(b, ';', q);
    assert (a + r)[..|a|] == a && (b + q)[..|b|] == b;
    assert (a + r)[|a|..] == r && (b + q)[|b|..] == q;
    FormatIntInjective(m, n);
  }

  lemma TimeStarts(n: int, r: string)
    ensures FormatInt(n) + r != "" && Starts(FormatInt(n) + r)
  {
    FormatIntChars(n);
    assert FormatInt(n)[0] in FormatInt(n) && (FormatInt(n) + r)[0] == FormatInt(n)[0];
  }

  // A part before a rest, field by field.
  lemma PartBefore(t: Triple, r: string)
    ensures Part(t) + r == t.key + "|" + (t.user + "|" + (FormatInt(t.time) + r))
    ensures Starts(FormatInt(t.time) + r)
    ensures Trimmed(t.user) ==> Starts(t.user + "|" + (FormatInt(t.time) + r))
  {
    var time := FormatInt(t.time);
    Associative(t.key + "|" + t.user, "|", time);
    Associative(t.key + "|", t.user, "|" + time);
    Associative(t.user, "|", time);
    Associative(t.key + "|", t.user + "|" + time, r);
    Associative(t.user + "|", time, r);
    TimeStarts(t.time, r);
  }

  // A plain part is read off the front of a signature in one way only.
  lemma PartsCancel(t: Triple, r: string, u: Triple, q: string)
    requires IsPlain(t) && IsPlain(u) && Part(t) + r == Part(u) + q
    requires (r == "" || r[0] == ';') && (q == "" || q[0] == ';')
    ensures t == u && r == q
  {
    PartBefore(t, r);
    PartBefore(u, q);
    var x, y := FormatInt(t.time) + r, FormatInt(u.time) + q;
    NotShorter(t.key, t.user + "|" + x, u.key, u.user + "|" + y);
    NotShorter(u.key, u.user + "|" + y, t.key, t.user + "|" + x);
    SameField(t.key, t.user + "|" + x, u.key, u.user + "|" + y);
    NotShorter(t.user, x, u.user, y);
    NotShorter(u.user, y, t.user, x);
    SameField(t.user, x, u.user, y);
    SameTime(t.time, r, u.time, q);
  }

  lemma PartInjective(t: Triple, u: Triple)
    requires IsPlain(t) && IsPlain(u) && Part(t) == Part(u)
    ensures t == u
  {
    EmptyConcat(Part(t));
    EmptyConcat(Part(u));
    PartsCancel(t, "", u, "");
  }

  ghost predicate IsPart(part: string) {
    exists t :: IsPlain(t) && Part(t) == part
  }

  lemma JoinFirst(parts: seq<string>) returns (rest: string)
    requires parts != []
    ensures Join(parts, ";") == parts[0] + rest
    ensures rest == if |parts| == 1 then "" else ";" + Join(parts[1..], ";")
  {
    if |parts| == 1 {
      rest := "";
      EmptyConcat(parts[0]);
    } else {
      rest := ";" + Join(parts[1..], ";");
      Associative(parts[0], ";", Join(parts[1..], ";"));
    }
  }

  lemma AfterSemicolon(a: string, b: string)
    requires ";" + a == ";" + b
    ensures a == b
  {
    assert (";" + a)[1..] == a && (";" + b)[1..] == b;
  }

  // A joined list of parts is read back in one way only.
  lemma {:induction false} JoinInjective(a: seq<string>, b: seq<string>)
    requires (forall p | p in a :: IsPart(p)) && (forall p | p in b :: IsPart(p))
    requires Join(a, ";") == Join(b, ";")
    ensures a == b
  {
    if a == [] || b == [] {
      NonemptyJoin(a);
      NonemptyJoin(b);
    } else {
      assert a[0] in a && b[0] in b;
      FirstPart(a, b);
      assert a == [a[0]] + a[1..] && b == [b[0]] + b[1..];
      if |a| > 1 {
        JoinInjective(a[1..], b[1..]);
      }
    }
  }

  lemma FirstPart(a: seq<string>, b: seq<string>)
    requires a != [] && b != [] && IsPart(a[0]) && IsPart(b[0]) && Join(a, ";") == Join(b, ";")
    ensures a[0] == b[0] && (|a| > 1 <==> |b| > 1) && (|a| > 1 ==> Join(a[1..], ";") == Join(b[1..], ";"))
  {
    var t :| IsPlain(t) && Part(t) == a[0];
    var u :| IsPlain(u) && Part(u) == b[0];
    var r := JoinFirst(a);
    var q := JoinFirst(b);
    PartsCancel(t, r, u, q);
    if r != "" {
      AfterSemicolon(Join(a[1..], ";"), Join(b[1..], ";"));
    }
  }

  lemma NonemptyJoin(parts: seq<string>)
    requires forall p | p in parts :: IsPart(p)
    ensures Join(parts, ";") == "" <==> parts == []
  {
    if parts != [] {
      assert parts[0] in parts;
      var t :| IsPlain(t) && Part(t) == parts[0];
      FormatIntChars(t.time);
    }
  }

  lemma SamePart(t: Triple, u: Triple)
    requires IsPlain(t) && IsPlain(u)
    ensures Part(t) == Part(u) <==> t == u
  {
    if Part(t) == Part(u) { PartInjective(t, u); }
  }

  // A part occurs as often as its triple.
  lemma {:induction false} PartCount(ts: seq<Triple>, t: Triple)
    requires ArePlain(ts) && IsPlain(t)
    ensures multiset(Parts(ts))[Part(t)] == multiset(ts)[t]
  {
    if ts != [] {
      var init, last := ts[..|ts| - 1], ts[|ts| - 1];
      assert ts == init + [last];
      PartCount(init, t);
      SamePart(last, t);
      CountAppend(init, last, t);
      CountAppend(Parts(init), Part(last), Part(t));
    }
  }

  lemma CountAppend<T>(s: seq<T>, x: T, y: T)
    ensures multiset(s + [x])[y] == multiset(s)[y] + if x == y then 1 else 0
  {
  }

  lemma {:induction false} PartOfTriple(ts: seq<Triple>, part: string) returns (t: Triple)
    requires part in Parts(ts)
    ensures t in ts && Part(t) == part
  {
    var init, last := ts[..|ts| - 1], ts[|ts| - 1];
    assert ts == init + [last];
    if part in Parts(init) { t := PartOfTriple(init, part); } else { t := last; }
  }

  lemma SameTriplesSameParts(a: seq<Triple>, b: seq<Triple>)
    requires ArePlain(a) && ArePlain(b)
    ensures multiset(a) == multiset(b) <==> multiset(Parts(a)) == multiset(Parts(b))
  {
    if multiset(a) == multiset(b) {
      PartsWithin(a, b);
      PartsWithin(b, a);
    }
    if multiset(Parts(a)) == multiset(Parts(b)) {
      forall t | t in multiset(a) || t in multiset(b)
        ensures multiset(a)[t] == multiset(b)[t]
      {
        assert t in a || t in b;
        PartCount(a, t);
        PartCount(b, t);
      }
    }
  }

  lemma PartsWithin(a: seq<Triple>, b: seq<Triple>)
    requires ArePlain(a) && ArePlain(b) && multiset(a) == multiset(b)
    ensures multiset(Parts(a)) <= multiset(Parts(b))
  {
    forall part | part in multiset(Parts(a))
      ensures multiset(Parts(a))[part] <= multiset(Parts(b))[part]
    {
      var t := PartOfTriple(a, part);
      PartCount(a, t);
      PartCount(b, t);
    }
  }

  lemma LexOrders(elements: set<string>)
    ensures Orders(LexLess, elements) && Separates(LexLess, elements)
  {
    forall a, b | a in elements && b in elements
      ensures !(LexLess(a, b) && LexLess(b, a)) && (LexLess(a, b) || LexLess(b, a) || a == b)
    {
      LexTrichotomy(a, b);
    }
    forall a, b, c | a in elements && b in elements && c in elements && !LexLess(b, a) && !LexLess(c, b)
      ensures !LexLess(c, a)
    {
      LexTrichotomy(a, b);
      LexTrichotomy(b, c);
      LexTrichotomy(a, c);
      if LexLess(a, b) && LexLess(b, c) { LexTransitive(a, b, c); }
    }
  }

  // Sorting makes lists of parts with the same elements the same.
  lemma SortIsCanonical(a: seq<string>, b: seq<string>)
    ensures multiset(Sort(a, LexLess)) == multiset(a)
    ensures multiset(a) == multiset(b) ==> Sort(a, LexLess) == Sort(b, LexLess)
  {
    var elements := set s | s in a + b;
    LexOrders(elements);
    SortResult(a, LexLess, elements);
    SortResult(b, LexLess, elements);
    if multiset(a) == multiset(b) {
      SameElements(Sort(a, LexLess), a);
      SortedUnique(Sort(a, LexLess), Sort(b, LexLess), LexLess, elements);
    }
  }

  lemma SortedPartsAreParts(ts: seq<Triple>)
    requires ArePlain(ts)
    ensures var parts := Sort(Parts(ts), LexLess);
            multiset(parts) == multiset(Parts(ts)) && forall p | p in parts :: IsPart(p)
  {
    var parts := Sort(Parts(ts), LexLess);
    SortIsCanonical(Parts(ts), Parts(ts));
    SameElements(parts, Parts(ts));
    forall p | p in parts
      ensures IsPart(p)
    {
      var t := PartOfTriple(ts, p);
    }
  }

  lemma PlainTriplesCanonical(a: seq<Triple>, b: seq<Triple>)
    requires ArePlain(a) && ArePlain(b)
    ensures Signature(a) == Signature(b) <==> multiset(a) == multiset(b)
  {
    SameTriplesSameParts(a, b);
    SortedPartsAreParts(a);
    SortedPartsAreParts(b);
    SortIsCanonical(Parts(a), Parts(b));
    if Signature(a) == Signature(b) {
      JoinInjective(Sort(Parts(a), LexLess), Sort(Parts(b), LexLess));
    }
  }

  predicate PlainReactions(reactions: seq<Reaction>) {
    ArePlain(Triples(reactions))
  }

  // Two reaction lists have the same signature exactly if they hold the same
  // reactions by the same users at the same times, in any order.
  lemma SignatureIsCanonical(a: seq<Reaction>, b: seq<Reaction>)
    requires PlainReactions(a) && PlainReactions(b)
    ensures Signature(Triples(a)) == Signature(Triples(b)) <==> multiset(Triples(a)) == multiset(Triples(b))
  {
    PlainTriplesCanonical(Triples(a), Triples(b));
  }

  // ----- where it does not -----

  lemma CutTrimmed(s: string, i: nat)
    requires Trimmed(s) && i < |s| && CouldEnd(s, i)
    ensures Trimmed(s[..i]) && Starts(s[i + 1..]) && Trimmed(s[i + 1..]) && s == s[..i] + "|" + s[i + 1..]
  {
  }

  lemma TrimmedAround(a: string, b: string)
    requires Trimmed(a) && Trimmed(b)
    ensures Trimmed(a + "|" + b)
  {
    var s := a + "|" + b;
    assert s[0] == if a == "" then '|' else a[0];
    assert s[|s| - 1] == if b == "" then '|' else b[|b| - 1];
  }

  // A bar that could end a key or a user ID makes another reaction with the same part.
  lemma AnotherTriple(t: Triple) returns (u: Triple)
    requires IsTrimmed(t) && !IsPlain(t)
    ensures IsTrimmed(u) && u != t && Part(u) == Part(t)
  {
    if !NoBar(t.key) {
      var i :| 0 <= i < |t.key| && CouldEnd(t.key, i);
      var a, b := t.key[..i], t.key[i + 1..];
      CutTrimmed(t.key, i);
      TrimmedAround(b, t.user);
      u := Triple(a, b + "|" + t.user, t.time);
      Associative(a + "|", b, "|");
      Associative(a + "|", b + "|", t.user);
    } else {
      var i :| 0 <= i < |t.user| && CouldEnd(t.user, i);
      var a, b := t.user[..i], t.user[i + 1..];
      CutTrimmed(t.user, i);
      TrimmedAround(t.key, a);
      u := Triple(t.key + "|" + a, b, t.time);
      Associative(t.key + "|", a, "|");
      Associative(t.key + "|", a + "|", b);
    }
  }

  lemma SignatureOfOne(t: Triple)
    ensures Signature([t]) == Part(t)
  {
    var part := Part(t);
    assert [t][..0] == [] && [] + [part] == [part];
    assert Parts([t]) == [part];
    assert [part][1..] == [] && Sort([], LexLess) == [];
    assert Sort([part], LexLess) == Insert(part, [], LexLess) == [part];
  }

  // The last bar of a part is the one before its time.
  lemma LastBar(a: string, m: string, b: string, n: string)
    requires a + "|" + m == b + "|" + n && '|' !in m
    ensures |a| >= |b|
  {
    if |a| < |b| { BarInside(a, m, b, n); }
  }

  lemma BarInside(a: string, m: string, b: string, n: string)
    requires a + "|" + m == b + "|" + n && |a| < |b|
    ensures '|' in m
  {
    var s, t := a + "|" + m, b + "|" + n;
    assert t[|b|] == '|' && s[|b|] == m[|b| - |a| - 1];
  }

  // No other trimmed reaction has a plain one's part.
  lemma OnlyTriple(t: Triple, u: Triple)
    requires IsPlain(t) && IsTrimmed(u) && Part(u) == Part(t)
    ensures u == t
  {
    var v, w := t.key + "|" + t.user, u.key + "|" + u.user;
    FormatIntChars(t.time);
    FormatIntChars(u.time);
    LastBar(v, FormatInt(t.time), w, FormatInt(u.time));
    LastBar(w, FormatInt(u.time), v, FormatInt(t.time));
    SameField(v, FormatInt(t.time), w, FormatInt(u.time));
    FormatIntInjective(t.time, u.time);
    NotShorter(u.key, u.user, t.key, t.user);
    NotLonger(t.key, t.user, u.key, u.user);
    SameField(t.key, t.user, u.key, u.user);
  }

  lemma NotLonger(a: string, x: string, b: string, y: string)
    requires a + "|" + x == b + "|" + y && Trimmed(b) && Trimmed(y) && NoBar(x)
    ensures |b| <= |a|
  {
    if |b| > |a| { EndsBehind(a, x, b, y); }
  }

  lemma EndsBehind(a: string, x: string, b: string, y: string)
    requires a + "|" + x == b + "|" + y && Trimmed(b) && Starts(y) && |a| < |b|
    ensures CouldEnd(x, |b| - |a| - 1)
  {
    var s, k, j := b + "|" + y, |a|, |b|;
    var i := j - k - 1;
    assert s[k + 1..] == x && s[j] == '|' && s[..j] == b && s[j + 1..] == y;
    assert forall m | 0 <= m < |x| :: x[m] == s[k + 1 + m];
    assert i > 0 ==> x[i - 1] == b[j - 1];
    assert i + 1 < |x| ==> x[i + 1] == y[0];
  }

  // The condition is exact: a reaction is told from every other by its
  // signature if and only if no bar in it could end its key or its user ID.
  lemma PlainExactly(t: Triple)
    requires IsTrimmed(t)
    ensures IsPlain(t) <==> forall u | IsTrimmed(u) && Signature([u]) == Signature([t]) :: u == t
  {
    SignatureOfOne(t);
    if IsPlain(t) {
      forall u | IsTrimmed(u) && Signature([u]) == Signature([t])
        ensures u == t
      {
        SignatureOfOne(u);
        OnlyTriple(t, u);
      }
    } else {
      var u := AnotherTriple(t);
      SignatureOfOne(u);
    }
  }

  lemma {:induction false} PartsAt(ts: seq<Triple>)
    ensures |Parts(ts)| == |ts| && forall i | 0 <= i < |ts| :: Parts(ts)[i] == Part(ts[i])
  {
    if ts != [] {
      var n := |ts| - 1;
      PartsAt(ts[..n]);
      assert Parts(ts) == Parts(ts[..n]) + [Part(ts[n])];
    }
  }

  // And every list with another reaction in it has the signature of a list
  // that differs.
  lemma OthersCollide(a: seq<Triple>) returns (b: seq<Triple>)
    requires AreTrimmed(a) && !ArePlain(a)
    ensures AreTrimmed(b) && Signature(b) == Signature(a) && multiset(b) != multiset(a)
  {
    var i :| 0 <= i < |a| && !IsPlain(a[i]);
    var u := AnotherTriple(a[i]);
    b := a[i := u];
    SamePartsReplaced(a, i, u);
    CountReplaced(a, i, u);
  }

  lemma SamePartsReplaced(a: seq<Triple>, i: nat, u: Triple)
    requires i < |a| && Part(u) == Part(a[i])
    ensures Parts(a[i := u]) == Parts(a)
  {
    PartsAt(a);
    PartsAt(a[i := u]);
  }

  lemma CountReplaced<T>(s: seq<T>, i: nat, x: T)
    requires i < |s| && s[i] != x
    ensures multiset(s[i := x]) != multiset(s)
  {
    assert multiset(s[i := x])[x] == multiset(s)[x] + 1;
  }

  // Two different reactions with one signature.
  lemma SeparatorsCollide()
    ensures var a, b := [Triple("a|b", "c", 1)], [Triple("a", "b|c", 1)];
            a != b && Signature(a) == Signature(b)
  {
    var t, u := Triple("a|b", "c", 1), Triple("a", "b|c", 1);
    assert Part(t) == "a|b|c|" + FormatInt(1) == Part(u);
    SignatureOfOne(t);
    SignatureOfOne(u);
  }

  // Trimmed triples are those of reaction lists.
  lemma {:induction false} TriplesAreTrimmed(reactions: seq<Reaction>)
    ensures AreTrimmed(Triples(reactions))
  {
    if reactions != [] {
      TriplesAreTrimmed(reactions[..|reactions| - 1]);
      UserTriplesAreTrimmed(reactions[|reactions| - 1].emotionKey, reactions[|reactions| - 1].users);
    }
  }

  lemma {:induction false} UserTriplesAreTrimmed(key: string, users: seq<User>)
    ensures AreTrimmed(UserTriples(key, users))
  {
    if users != [] {
      UserTriplesAreTrimmed(key, users[..|users| - 1]);
      TrimSpaceIsTrimmed(key);
      TrimSpaceIsTrimmed(users[|users| - 1].mri);
    }
  }

  function AsReactions(ts: seq<Triple>): seq<Reaction> {
    if ts == [] then []
    else
      var t := ts[|ts| - 1];
      AsReactions(ts[..|ts| - 1]) + [Reaction(t.key, [User(t.user, t.time)])]
  }

  lemma TripleOfOne(t: Triple)
    requires IsTrimmed(t)
    ensures UserTriples(t.key, [User(t.user, t.time)]) == [t]
  {
    TrimmedIsKept(t.key);
    TrimmedIsKept(t.user);
    assert [User(t.user, t.time)][..0] == [];
  }

  lemma TriplesOfMore(reactions: seq<Reaction>, r: Reaction)
    ensures Triples(reactions + [r]) == Triples(reactions) + UserTriples(r.emotionKey, r.users)
  {
    assert (reactions + [r])[..|reactions|] == reactions;
  }

  lemma {:induction false} TriplesOf(ts: seq<Triple>)
    requires AreTrimmed(ts)
    ensures Triples(AsReactions(ts)) == ts
  {
    if ts != [] {
      var init, t := ts[..|ts| - 1], ts[|ts| - 1];
      var r := Reaction(t.key, [User(t.user, t.time)]);
      assert ts == init + [t];
      TriplesOf(init);
      TripleOfOne(t);
      TriplesOfMore(AsReactions(init), r);
      assert AsReactions(ts) == AsReactions(init) + [r];
    }
  }

  // So a reaction list that is not plain is not told from some other.
  lemma BarsCollide(a: seq<Reaction>) returns (b: seq<Reaction>)
    requires !PlainReactions(a)
    ensures Signature(Triples(b)) == Signature(Triples(a)) && multiset(Triples(b)) != multiset(Triples(a))
  {
    TriplesAreTrimmed(a);
    var ts := OthersCollide(Triples(a));
    b := AsReactions(ts);
    TriplesOf(ts);
  }

  // ----- lists against lists -----

  lemma TimeBeforeKey(time: int, key: string)
    requires Trimmed(key)
    ensures Trimmed(FormatInt(time) + ";" + key) && Starts(FormatInt(time) + ";" + key)
  {
    var s := FormatInt(time) + ";" + key;
    FormatIntChars(time);
    assert s[0] == FormatInt(time)[0] && FormatInt(time)[0] in FormatInt(time);
    assert s[|s| - 1] == if key == "" then ';' else key[|key| - 1];
  }

  // Two joined parts are the part of one reaction, whose user ID holds a bar
  // that could end it.
  lemma TwoAsOne(t: Triple, v: Triple) returns (u: Triple)
    requires IsTrimmed(t) && IsTrimmed(v)
    ensures IsTrimmed(u) && !IsPlain(u) && Part(u) == Part(t) + ";" + Part(v)
  {
    var middle := FormatInt(t.time) + ";" + v.key;
    var user := t.user + "|" + middle + "|" + v.user;
    u := Triple(t.key, user, v.time);
    TimeBeforeKey(t.time, v.key);
    TrimmedAround(t.user, middle);
    TrimmedAround(t.user + "|" + middle, v.user);
    assert user[|t.user|] == '|' && user[|t.user| + 1] == middle[0];
    assert |t.user| > 0 ==> user[|t.user| - 1] == t.user[|t.user| - 1];
    assert CouldEnd(user, |t.user|);
    TwoPartsJoined(t, v, middle);
  }

  lemma TwoPartsJoined(t: Triple, v: Triple, middle: string)
    requires middle == FormatInt(t.time) + ";" + v.key
    ensures Part(Triple(t.key, t.user + "|" + middle + "|" + v.user, v.time)) == Part(t) + ";" + Part(v)
  {
    var front, rest := t.key + "|" + t.user + "|", "|" + v.user + "|" + FormatInt(v.time);
    assert Part(t) + ";" + Part(v) == front + middle + rest;
    assert Part(Triple(t.key, t.user + "|" + middle + "|" + v.user, v.time)) == front + middle + rest;
  }

  ghost predicate IsTrimmedPart(part: string) {
    exists t :: IsTrimmed(t) && Part(t) == part
  }

  lemma {:induction false} JoinedAsOne(parts: seq<string>) returns (u: Triple)
    requires parts != [] && forall p | p in parts :: IsTrimmedPart(p)
    ensures IsTrimmed(u) && Part(u) == Join(parts, ";") && (|parts| > 1 ==> !IsPlain(u))
  {
    assert parts[0] in parts;
    var t :| IsTrimmed(t) && Part(t) == parts[0];
    if |parts| == 1 {
      u := t;
    } else {
      var v := JoinedAsOne(parts[1..]);
      u := TwoAsOne(t, v);
    }
  }

  // Every list has the signature of a single reaction, which is not plain if
  // the list has two or more.
  lemma ListAsOne(a: seq<Triple>) returns (u: Triple)
    requires AreTrimmed(a) && a != []
    ensures IsTrimmed(u) && Signature([u]) == Signature(a) && (|a| > 1 ==> !IsPlain(u))
  {
    var parts := Sort(Parts(a), LexLess);
    PartsAt(a);
    SortIsCanonical(Parts(a), Parts(a));
    assert |multiset(parts)| == |parts| && |multiset(Parts(a))| == |Parts(a)|;
    SameElements(parts, Parts(a));
    forall p | p in parts
      ensures IsTrimmedPart(p)
    {
      var t := PartOfTriple(a, p);
    }
    u := JoinedAsOne(parts);
    SignatureOfOne(u);
  }

  lemma OnlyEmptyIsBlank(a: seq<Triple>)
    requires AreTrimmed(a)
    ensures Signature(a) == "" <==> a == []
  {
    if a != [] {
      var u := ListAsOne(a);
      SignatureOfOne(u);
      FormatIntChars(u.time);
    } else {
      assert Sort([], LexLess) == [];
    }
  }

  lemma OneAgainstAny(t: Triple, b: seq<Triple>)
    requires IsPlain(t) && AreTrimmed(b) && Signature(b) == Signature([t])
    ensures b == [t]
  {
    OnlyEmptyIsBlank([t]);
    OnlyEmptyIsBlank(b);
    SignatureOfOne(t);
    var u := ListAsOne(b);
    SignatureOfOne(u);
    OnlyTriple(t, u);
    assert b == [b[0]];
    SignatureOfOne(b[0]);
    OnlyTriple(t, b[0]);
  }

  ghost predicate ToldApart(a: seq<Triple>) {
    forall b | AreTrimmed(b) && Signature(b) == Signature(a) :: multiset(b) == multiset(a)
  }

  lemma TriplesToldApart(a: seq<Triple>)
    requires AreTrimmed(a)
    ensures ToldApart(a) <==> a == [] || (|a| == 1 && IsPlain(a[0]))
  {
    if a == [] {
      forall b | AreTrimmed(b) && Signature(b) == Signature(a)
        ensures multiset(b) == multiset(a)
      {
        OnlyEmptyIsBlank(a);
        OnlyEmptyIsBlank(b);
      }
    } else if |a| == 1 && IsPlain(a[0]) {
      assert a == [a[0]];
      forall b | AreTrimmed(b) && Signature(b) == Signature(a)
        ensures multiset(b) == multiset(a)
      {
        OneAgainstAny(a[0], b);
      }
    } else if |a| == 1 {
      var b := OthersCollide(a);
    } else {
      var u := ListAsOne(a);
      assert |multiset([u])| == 1 && |multiset(a)| == |a|;
    }
  }

  // A reaction list is told from every other by its signature exactly if it is
  // empty or one plain reaction.
  lemma ToldApartExactly(a: seq<Reaction>)
    ensures (forall b: seq<Reaction> | Signature(Triples(b)) == Signature(Triples(a)) ::
               multiset(Triples(b)) == multiset(Triples(a))) <==>
            Triples(a) == [] || (|Triples(a)| == 1 && IsPlain(Triples(a)[0]))
  {
    var ts := Triples(a);
    TriplesAreTrimmed(a);
    TriplesToldApart(ts);
    if ToldApart(ts) {
      forall b: seq<Reaction> | Signature(Triples(b)) == Signature(ts)
        ensures multiset(Triples(b)) == multiset(ts)
      {
        TriplesAreTrimmed(b);
      }
    } else {
      var other :| AreTrimmed(other) && Signature(other) == Signature(ts) && multiset(other) != multiset(ts);
      TriplesOf(other);
      assert multiset(Triples(AsReactions(other))) != multiset(ts);
    }
  }

  // Of the lists with a plain one's signature, exactly the plain ones hold the
  // same reactions.
  lemma SameExactlyIfPlain(a: seq<Reaction>, b: seq<Reaction>)
    requires PlainReactions(a) && Signature(Triples(a)) == Signature(Triples(b))
    ensures multiset(Triples(a)) == multiset(Triples(b)) <==> PlainReactions(b)
  {
    var ts, us := Triples(a), Triples(b);
    if multiset(ts) == multiset(us) {
      SameElements(us, ts);
      forall i | 0 <= i < |us|
        ensures IsPlain(us[i])
      {
        assert us[i] in us;
      }
    } else if PlainReactions(b) {
      SignatureIsCanonical(a, b);
      assert false;
    }
  }

  predicate BarFree(reactions: seq<Reaction>) {
    forall t | t in Triples(reactions) :: '|' !in t.key && '|' !in t.user
  }

  // In particular the signature is canonical without bars, whatever other
  // separators there are.
  lemma BarFreeIsCanonical(a: seq<Reaction>, b: seq<Reaction>)
    requires BarFree(a) && BarFree(b)
    ensures Signature(Triples(a)) == Signature(Triples(b)) <==> multiset(Triples(a)) == multiset(Triples(b))
  {
    BarFreeIsPlain(a);
    BarFreeIsPlain(b);
    SignatureIsCanonical(a, b);
  }

  lemma BarFreeIsPlain(reactions: seq<Reaction>)
    requires BarFree(reactions)
    ensures PlainReactions(reactions)
  {
    var ts := Triples(reactions);
    TriplesAreTrimmed(reactions);
    forall i | 0 <= i < |ts|
      ensures IsPlain(ts[i])
    {
      assert ts[i] in ts;
      assert forall j | 0 <= j < |ts[i].key| :: ts[i].key[j] in ts[i].key;
      assert forall j | 0 <= j < |ts[i].user| :: ts[i].user[j] in ts[i].user;
    }
  }

  // ----- over a history of polls -----

  datatype Poll = Poll(messageID: string, reactions: seq<Reaction>, now: int)

  function Recorded(polls: seq<Poll>): map<string, StampedSig> {
    if polls == [] then map[]
    else
      var last := polls[|polls| - 1];
      NextSigs(Recorded(polls[..|polls| - 1]), Checked(last.messageID, Signature(Triples(last.reactions)), last.now), false)
  }

  function LastSeen(polls: seq<Poll>, messageID: string): Option<seq<Reaction>> {
    if polls == [] then None
    else if polls[|polls| - 1].messageID == messageID then Some(polls[|polls| - 1].reactions)
    else LastSeen(polls[..|polls| - 1], messageID)
  }

  lemma {:induction false} RecordedIsLastSeen(polls: seq<Poll>, messageID: string)
    ensures messageID in Recorded(polls) <==> LastSeen(polls, messageID).Some?
    ensures messageID in Recorded(polls) ==>
              Recorded(polls)[messageID].sig == Signature(Triples(LastSeen(polls, messageID).value))
  {
    if polls != [] {
      RecordedIsLastSeen(polls[..|polls| - 1], messageID);
    }
  }

  lemma {:induction false} LastSeenIsPlain(polls: seq<Poll>, messageID: string)
    requires forall i | 0 <= i < |polls| :: PlainReactions(polls[i].reactions)
    ensures LastSeen(polls, messageID).Some? ==> PlainReactions(LastSeen(polls, messageID).value)
  {
    if polls != [] {
      LastSeenIsPlain(polls[..|polls| - 1], messageID);
    }
  }

  predicate Reported(polls: seq<Poll>, next: Poll) {
    SigChanged(Recorded(polls), next.messageID, Signature(Triples(next.reactions)))
  }

  // Whatever has been polled, a poll reports a message's reactions exactly if
  // they are its first or not those seen last.
  lemma {:induction false} ReportedExactly(polls: seq<Poll>, next: Poll)
    requires PlainReactions(next.reactions) && forall i | 0 <= i < |polls| :: PlainReactions(polls[i].reactions)
    ensures Reported(polls, next) <==>
            var last := LastSeen(polls, next.messageID);
            last.None? || multiset(Triples(last.value)) != multiset(Triples(next.reactions))
  {
    RecordedIsLastSeen(polls, next.messageID);
    LastSeenIsPlain(polls, next.messageID);
    if LastSeen(polls, next.messageID).Some? {
      SignatureIsCanonical(LastSeen(polls, next.messageID).value, next.reactions);
    }
  }

  // Once a message's reactions are seen that are not plain, some change of
  // them goes unreported.
  lemma BarsHideAChange(polls: seq<Poll>, last: Poll, now: int) returns (next: Poll)
    requires !PlainReactions(last.reactions)
    ensures next.messageID == last.messageID && next.now == now
    ensures multiset(Triples(next.reactions)) != multiset(Triples(last.reactions)) && !Reported(polls + [last], next)
  {
    var reactions := BarsCollide(last.reactions);
    next := Poll(last.messageID, reactions, now);
    var all := polls + [last];
    assert all[..|all| - 1] == polls && all[|all| - 1] == last;
    RecordedIsLastSeen(all, last.messageID);
  }
}
