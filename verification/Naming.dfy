/** The names discovery stores for threads, and the pass that gives them their structured form. */
module Naming {
  import opened Text

  // ----- names -----

  const DM := "DM: "
  const GROUP := "Group: "
  const MEETING := "Meeting: "
  const PLACEHOLDER := "DM: unknown user "
  const SLASH := " / "

  const TYPE_PREFIXES := [DM, GROUP, MEETING, "[DM] ", "[Channel] ", "[Group] ", "[Meeting] "]

  predicate HasTypePrefix(name: string) {
    exists i :: 0 <= i < |TYPE_PREFIXES| && TYPE_PREFIXES[i] <= name
  }

  // The first of the prefixes from k on that the name has, taken off.
  function StripFrom(name: string, k: nat): string
    requires k <= |TYPE_PREFIXES|
    decreases |TYPE_PREFIXES| - k
  {
    if k == |TYPE_PREFIXES| then name
    else if TYPE_PREFIXES[k] <= name then name[|TYPE_PREFIXES[k]|..]
    else StripFrom(name, k + 1)
  }

  function StripTypePrefix(name: string): string {
    StripFrom(name, 0)
  }

  predicate IsGeneric(name: string) {
    TrimSpace(name) == "" || TrimSpace(name) == "Chat"
  }

  predicate IsPlaceholder(name: string) {
    PLACEHOLDER <= name
  }

  // chooseStoredName: the name to store, from the one the conversation list
  // reports and the one stored last time.
  function Choose(apiName: string, existing: string): string {
    if existing == "" then apiName
    else if IsGeneric(apiName) && !IsGeneric(existing) then existing
    else if HasTypePrefix(existing) && !IsPlaceholder(existing) && apiName == StripTypePrefix(existing) then existing
    else if HasSuffix(existing, SLASH + apiName) then existing
    else apiName
  }

  datatype ChannelInfo = ChannelInfo(team: string, channel: string)

  // What names a thread: a direct message's counterpart as the profile table
  // or Graph knows it ("" if neither does) and the placeholder made of its ID;
  // a channel's entry in the Graph channel map; a system stream's clean name.
  datatype Kind =
    | DirectMessage(resolved: string, placeholder: string)
    | MeetingChat
    | Channel(info: Option<ChannelInfo>, threadID: string)
    | GroupChat
    | SystemStream(name: string)

  predicate IsKind(k: Kind) {
    match k
    case DirectMessage(_, placeholder) => placeholder == "" || IsPlaceholder(placeholder)
    case Channel(_, threadID) => '@' in threadID
    case MeetingChat => true
    case GroupChat => true
    case SystemStream(_) => true
  }

  function ChannelRoomName(info: Option<ChannelInfo>, threadID: string, base: string): string {
    if info.None? then if base != "" then base else threadID
    else
      var team, channel := info.value.team, if info.value.channel == "" then base else info.value.channel;
      if team != "" && channel != "" then team + SLASH + channel
      else if channel != "" then channel
      else if team != "" then team
      else if base != "" then base
      else threadID
  }

  // structuredRoomName; "" leaves the thread alone.
  function StructuredName(k: Kind, name: string): string {
    var base := if name == "Chat" then "" else name;
    match k
    case DirectMessage(resolved, placeholder) =>
      if base != "" then DM + base else if resolved != "" then DM + resolved else placeholder
    case MeetingChat => MEETING + if base == "" then "Meeting" else base
    case Channel(info, threadID) => ChannelRoomName(info, threadID, base)
    case GroupChat => if base == "" then "" else GROUP + base
    case SystemStream(stream) => stream
  }

  // A thread's name after the structured pass.
  function Structure(k: Kind, name: string): string {
    if !k.SystemStream? && HasTypePrefix(name) then name
    else
      var next := StructuredName(k, name);
      if next == "" then name else next
  }

  // A chat with a name gets the prefix of its type, a channel the team's name;
  // without one the name is worked out or made up, or the chat left alone.
  lemma StructuredExactly(k: Kind, name: string)
    requires name != "" && name != "Chat" && !HasTypePrefix(name)
    ensures k.DirectMessage? ==> Structure(k, name) == "DM: " + name
    ensures k.GroupChat? ==> Structure(k, name) == "Group: " + name
    ensures k.MeetingChat? ==> Structure(k, name) == "Meeting: " + name
    ensures k.Channel? && k.info.Some? && k.info.value.team != "" ==>
              Structure(k, name) == k.info.value.team + " / " + if k.info.value.channel != "" then k.info.value.channel else name
    ensures k.Channel? && k.info.Some? && k.info.value.team == "" && k.info.value.channel != "" ==>
              Structure(k, name) == k.info.value.channel
    ensures k.Channel? && (k.info.None? || k.info.value == ChannelInfo("", "")) ==> Structure(k, name) == name
    ensures k.SystemStream? ==> Structure(k, name) == if k.name != "" then k.name else name
  {
  }

  lemma UnnamedExactly(k: Kind, name: string)
    requires name == "" || name == "Chat"
    ensures k.DirectMessage? && k.resolved != "" ==> Structure(k, name) == "DM: " + k.resolved
    ensures k.DirectMessage? && k.resolved == "" && k.placeholder != "" ==> Structure(k, name) == k.placeholder
    ensures k.MeetingChat? ==> Structure(k, name) == "Meeting: Meeting"
    ensures k.GroupChat? ==> Structure(k, name) == name
    ensures k.Channel? && k.info.Some? && k.info.value.team != "" ==>
              Structure(k, name) == k.info.value.team + if k.info.value.channel != "" then " / " + k.info.value.channel else ""
    ensures k.Channel? && k.info.None? && k.threadID != "" ==> Structure(k, name) == k.threadID
  {
    assert !HasTypePrefix(name) by {
      if HasTypePrefix(name) { PrefixedIsNotGeneric(name); }
    }
    if k.Channel? && k.info.Some? {
      EmptyConcat(k.info.value.team);
      Associative(k.info.value.team, SLASH, k.info.value.channel);
    }
  }

  // Discovery looks a direct message's name up where the list gives none.
  function ApiName(k: Kind, apiName: string): string {
    if k.DirectMessage? && apiName == "" then k.resolved else apiName
  }

  // One round: discovery, then the structured pass.
  function Round(k: Kind, apiName: string, stored: string): string {
    Structure(k, Choose(ApiName(k, apiName), stored))
  }

  // What discovery stores: the API's name, unless there is a better one that
  // says the same or the API has none.
  lemma ChooseExactly(apiName: string, existing: string)
    ensures Choose(apiName, existing) ==
            if existing != "" && Agrees(apiName, existing) then existing else apiName
  {
  }

  // A direct message follows the counterpart's name where the list gives none.
  lemma DirectMessageIsLookedUp(k: Kind, existing: string)
    requires k.DirectMessage? && !IsGeneric(k.resolved) && !HasTypePrefix(k.resolved)
    requires !Agrees(k.resolved, existing)
    ensures Round(k, "", existing) == "DM: " + k.resolved
  {
  }

  // Neither discovery nor the structured pass changes the name, so the room is
  // not renamed back and forth.
  predicate Stable(k: Kind, apiName: string, name: string) {
    Choose(ApiName(k, apiName), name) == name && Structure(k, name) == name
  }

  // ----- facts about names -----

  lemma PrefixIsOne(name: string) returns (i: nat)
    requires HasTypePrefix(name)
    ensures i < 7 && TYPE_PREFIXES[i] <= name && |TYPE_PREFIXES[i]| > 0
    ensures name[0] in "DGM["
  {
    i :| 0 <= i < |TYPE_PREFIXES| && TYPE_PREFIXES[i] <= name;
    assert TYPE_PREFIXES[i][0] == name[0];
  }

  lemma {:induction false} StripShortens(name: string, k: nat)
    requires k <= |TYPE_PREFIXES|
    ensures |StripFrom(name, k)| <= |name|
    ensures (exists i :: k <= i < |TYPE_PREFIXES| && TYPE_PREFIXES[i] <= name) ==> |StripFrom(name, k)| < |name|
    decreases |TYPE_PREFIXES| - k
  {
    if k < |TYPE_PREFIXES| {
      StripShortens(name, k + 1);
    }
  }

  lemma {:induction false} TrimKeeps(s: string, c: char)
    requires c in s && !IsSpace(c)
    ensures c in TrimRight(s) && c in TrimLeft(s)
  {
    if IsSpace(s[|s| - 1]) {
      assert s == s[..|s| - 1] + [s[|s| - 1]];
      TrimKeeps(s[..|s| - 1], c);
    }
    if IsSpace(s[0]) {
      assert s == [s[0]] + s[1..];
      TrimKeeps(s[1..], c);
    }
  }

  // A name with a character that no blank and no "Chat" has is not generic.
  lemma NotGeneric(name: string, c: char)
    requires c in name && !IsSpace(c) && c !in "Chat"
    ensures !IsGeneric(name)
  {
    TrimKeeps(name, c);
    TrimKeeps(TrimLeft(name), c);
  }

  lemma PrefixedIsNotGeneric(name: string)
    requires HasTypePrefix(name)
    ensures !IsGeneric(name) && name != "" && name != "Chat"
  {
    var _ := PrefixIsOne(name);
    NotGeneric(name, name[0]);
  }

  lemma Prefixed(prefix: string, name: string)
    requires prefix in [DM, GROUP, MEETING]
    ensures HasTypePrefix(prefix + name) && StripTypePrefix(prefix + name) == name
    ensures IsPlaceholder(prefix + name) <==> prefix == DM && "unknown user " <= name
  {
    var all := prefix + name;
    assert prefix <= all && all[|prefix|..] == name;
    assert TYPE_PREFIXES[0] <= all || TYPE_PREFIXES[1] <= all || TYPE_PREFIXES[2] <= all;
    assert all[0] == prefix[0];
    if prefix == DM {
      assert PLACEHOLDER == DM + "unknown user ";
    }
  }

  lemma ChooseSelf(a: string)
    ensures Choose(a, a) == a
  {
    StripShortens(a, 0);
  }

  // Choosing again changes nothing.
  lemma ChooseTwice(a: string, e: string)
    ensures Choose(a, e) == a || Choose(a, e) == e
    ensures Choose(a, Choose(a, e)) == Choose(a, e)
  {
    ChooseSelf(a);
  }

  lemma SuffixGrows(s: string, t: string, suffix: string)
    requires HasSuffix(s, suffix)
    ensures HasSuffix(t + s, suffix)
  {
    assert (t + s)[|t + s| - |suffix|..] == s[|s| - |suffix|..];
  }

  // ----- names prefixed by type -----

  lemma KeepsPrefixedApi(a: string, prefix: string)
    requires prefix in [DM, GROUP, MEETING]
    ensures Choose(a, prefix + a) == prefix + a <==> !(prefix == DM && "unknown user " <= a)
  {
    Prefixed(prefix, a);
    PrefixedIsNotGeneric(prefix + a);
    if prefix == DM && "unknown user " <= a {
      NotGeneric(a, a[0]);
      assert (prefix + a)[1..][0] == 'M' && (SLASH + a)[0] == ' ';
    }
  }

  lemma KeepsPrefixedStored(a: string, e: string, prefix: string)
    requires prefix in [DM, GROUP, MEETING]
    requires Choose(a, e) == e != a && !HasTypePrefix(e)
    ensures Choose(a, prefix + e) == prefix + e
  {
    Prefixed(prefix, e);
    PrefixedIsNotGeneric(prefix + e);
    if HasSuffix(e, SLASH + a) { SuffixGrows(e, prefix, SLASH + a); }
  }

  // A generic name that was stored is only ever kept by being the API's.
  lemma BlankIsApi(a: string, e: string)
    requires Choose(a, e) == "" || Choose(a, e) == "Chat"
    ensures Choose(a, e) == a
  {
    assert TrimSpace("Chat") == "Chat";
    assert (SLASH + a)[0] == ' ' && forall c | c in "Chat" :: c != ' ';
  }

  lemma DirectMessageRound(k: Kind, a: string, e: string)
    requires k.DirectMessage? && IsKind(k) && !("unknown user " <= ApiName(k, a))
    ensures Stable(k, a, Round(k, a, e))
  {
    var api := ApiName(k, a);
    var c := Choose(api, e);
    ChooseTwice(api, e);
    if HasTypePrefix(c) {
    } else if c == "" || c == "Chat" {
      BlankIsApi(api, e);
      GenericKeeps(k, api);
    } else {
      Prefixed(DM, c);
      if c == api { KeepsPrefixedApi(api, DM); } else { KeepsPrefixedStored(api, e, DM); }
    }
  }

  // With nothing better than "Chat" from the API, the name worked out is kept.
  lemma GenericKeeps(k: Kind, api: string)
    requires k.DirectMessage? && IsKind(k) && api == ApiName(k, api) && (api == "" || api == "Chat")
    ensures Choose(api, Structure(k, api)) == Structure(k, api) && Structure(k, Structure(k, api)) == Structure(k, api)
  {
    ChooseSelf(api);
    assert TrimSpace("") == "" && TrimSpace("Chat") == "Chat";
    assert !HasTypePrefix(api) by {
      if HasTypePrefix(api) { PrefixedIsNotGeneric(api); }
    }
    if k.resolved != "" {
      Prefixed(DM, k.resolved);
      PrefixedIsNotGeneric(DM + k.resolved);
    } else if k.placeholder != "" {
      assert TYPE_PREFIXES[0] <= PLACEHOLDER <= k.placeholder;
      PrefixedIsNotGeneric(k.placeholder);
    }
  }

  lemma DirectMessageUnstable(k: Kind, a: string)
    requires k.DirectMessage? && "unknown user " <= ApiName(k, a)
    ensures !Stable(k, a, Round(k, a, ""))
  {
    var api := ApiName(k, a);
    assert api[0] == 'u';
    assert !HasTypePrefix(api) by {
      if HasTypePrefix(api) { var _ := PrefixIsOne(api); }
    }
    KeepsPrefixedApi(api, DM);
  }

  lemma GroupOrMeetingRound(k: Kind, a: string, e: string)
    requires k.GroupChat? || k.MeetingChat?
    ensures Stable(k, a, Round(k, a, e))
  {
    var c, prefix := Choose(a, e), if k.GroupChat? then GROUP else MEETING;
    ChooseTwice(a, e);
    if HasTypePrefix(c) {
    } else if c == "" || c == "Chat" {
      BlankIsApi(a, e);
      assert TrimSpace("") == "" && TrimSpace("Chat") == "Chat";
      Prefixed(MEETING, "Meeting");
      PrefixedIsNotGeneric(MEETING + "Meeting");
    } else {
      Prefixed(prefix, c);
      if c == a { KeepsPrefixedApi(a, prefix); } else { KeepsPrefixedStored(a, e, prefix); }
    }
  }

  // ----- channels and system streams -----

  // The API's name keeps a name that does not come from it: it is generic, the
  // name without its prefix, or the channel part of a name with a team.
  predicate Agrees(a: string, name: string) {
    || a == name
    || (IsGeneric(a) && !IsGeneric(name))
    || (HasTypePrefix(name) && !IsPlaceholder(name) && a == StripTypePrefix(name))
    || HasSuffix(name, SLASH + a)
  }

  lemma AgreesIsKept(a: string, name: string)
    requires name != ""
    ensures Choose(a, name) == name <==> Agrees(a, name)
  {
  }

  lemma UnlistedRound(k: Kind, a: string, e: string)
    requires k.Channel? && IsKind(k) && (k.info.None? || k.info.value == ChannelInfo("", ""))
    ensures Stable(k, a, Round(k, a, e))
  {
    var c := Choose(a, e);
    ChooseTwice(a, e);
    if c == "" || c == "Chat" {
      BlankIsApi(a, e);
      assert TrimSpace("") == "" && TrimSpace("Chat") == "Chat";
      NotGeneric(k.threadID, '@');
      assert k.threadID != "" && k.threadID != "Chat";
    }
  }

  // Discovery keeps a name that ends in the API's behind a slash.
  lemma SuffixIsKept(a: string, x: string)
    ensures HasSuffix(x + SLASH + a, SLASH + a) && Choose(a, x + SLASH + a) == x + SLASH + a
  {
    Associative(x, SLASH, a);
    assert (x + (SLASH + a))[|x|..] == SLASH + a;
  }

  lemma NoPrefix(a: string)
    ensures !HasTypePrefix("x" + SLASH + a)
  {
    if HasTypePrefix("x" + SLASH + a) {
      var _ := PrefixIsOne("x" + SLASH + a);
    }
  }

  function FullName(info: ChannelInfo): string {
    if info.team != "" then info.team + SLASH + info.channel else info.channel
  }

  lemma NamedChannelRound(k: Kind, a: string)
    requires k.Channel? && k.info.Some? && k.info.value.channel != ""
    ensures (forall e :: Stable(k, a, Round(k, a, e))) <==> Agrees(a, FullName(k.info.value))
  {
    var name, e := FullName(k.info.value), "x" + SLASH + a;
    AgreesIsKept(a, name);
    NoPrefix(a);
    SuffixIsKept(a, "x");
    assert Round(k, a, e) == name;
    forall e | Agrees(a, name)
      ensures Stable(k, a, Round(k, a, e))
    {
      ChooseTwice(a, e);
    }
  }

  lemma StreamRound(k: Kind, a: string)
    requires k.SystemStream?
    ensures (forall e :: Stable(k, a, Round(k, a, e))) <==> k.name == "" || Agrees(a, k.name)
  {
    if k.name != "" {
      AgreesIsKept(a, k.name);
      assert Round(k, a, "") == k.name;
    }
    forall e | k.name == "" || Agrees(a, k.name)
      ensures Stable(k, a, Round(k, a, e))
    {
      ChooseTwice(a, e);
    }
  }

  // ----- a channel listed under a team, without a name of its own -----

  // Every name behind the team's has a type prefix.
  predicate TeamHasPrefix(team: string) {
    HasTypePrefix(team + SLASH)
  }

  lemma NoSlash(i: nat)
    requires i < |TYPE_PREFIXES|
    ensures '/' !in TYPE_PREFIXES[i]
  {
  }

  lemma PrefixOfLonger(team: string, rest: string)
    ensures HasTypePrefix(team + SLASH + rest) <==> TeamHasPrefix(team)
  {
    var s, all := team + SLASH, team + SLASH + rest;
    if HasTypePrefix(s) {
      var i := PrefixIsOne(s);
      assert TYPE_PREFIXES[i] <= all;
    }
    if HasTypePrefix(all) {
      var i := PrefixIsOne(all);
      NoSlash(i);
      assert all[|team| + 1] == '/';
      assert TYPE_PREFIXES[i] <= s;
    }
  }

  lemma PrefixedTeam(team: string)
    requires HasTypePrefix(team)
    ensures TeamHasPrefix(team)
  {
    var i := PrefixIsOne(team);
    assert TYPE_PREFIXES[i] <= team + SLASH;
  }

  predicate BlankChannelSettles(team: string, a: string) {
    HasTypePrefix(team) || (TeamHasPrefix(team) && a != "" && a != "Chat")
  }

  lemma BlankChannelRound(k: Kind, a: string, e: string)
    requires k.Channel? && k.info.Some? && k.info.value.channel == "" && k.info.value.team != ""
    requires BlankChannelSettles(k.info.value.team, a)
    ensures Stable(k, a, Round(k, a, e))
  {
    var team, c := k.info.value.team, Choose(a, e);
    ChooseTwice(a, e);
    if HasTypePrefix(c) {
    } else if c == "" || c == "Chat" {
      BlankIsApi(a, e);
      assert TrimSpace("") == "" && TrimSpace("Chat") == "Chat";
      PrefixedIsNotGeneric(team);
    } else {
      if HasTypePrefix(team) { PrefixedTeam(team); }
      PrefixOfLonger(team, c);
      TeamIsKept(a, e, team);
    }
  }

  lemma TeamIsKept(a: string, e: string, team: string)
    requires TeamHasPrefix(team) && !HasTypePrefix(Choose(a, e)) && Choose(a, e) != ""
    ensures Choose(a, team + SLASH + Choose(a, e)) == team + SLASH + Choose(a, e)
  {
    var c := Choose(a, e);
    if c == a {
      SuffixIsKept(a, team);
    } else if HasSuffix(e, SLASH + a) {
      SuffixGrows(e, team + SLASH, SLASH + a);
    } else {
      PrefixOfLonger(team, c);
      PrefixedIsNotGeneric(team + SLASH + c);
    }
  }

  lemma BlankChannelUnstable(k: Kind, a: string)
    requires k.Channel? && k.info.Some? && k.info.value.channel == "" && k.info.value.team != ""
    requires !BlankChannelSettles(k.info.value.team, a)
    ensures exists e :: !Stable(k, a, Round(k, a, e))
  {
    var team := k.info.value.team;
    if TeamHasPrefix(team) {
      assert team != "Chat" by {
        if team == "Chat" { var _ := PrefixIsOne(team + SLASH); }
      }
      assert !HasTypePrefix(a) by {
        if HasTypePrefix(a) { PrefixedIsNotGeneric(a); }
      }
      assert Round(k, a, "") == team;
      assert |Structure(k, team)| > |team|;
      assert !Stable(k, a, Round(k, a, ""));
    } else {
      var e := "x" + SLASH + a;
      NoPrefix(a);
      SuffixIsKept(a, "x");
      assert e[0] == 'x';
      PrefixOfLonger(team, e);
      assert Round(k, a, e) == team + SLASH + e;
      assert |Structure(k, team + SLASH + e)| > |team + SLASH + e|;
      assert !Stable(k, a, Round(k, a, e));
    }
  }

  // The name the API gives a channel, behind the team's name n + 1 times.
  function Repeated(team: string, a: string, n: nat): string {
    team + SLASH + if n == 0 then a else Repeated(team, a, n - 1)
  }

  lemma {:induction false} RepeatedShape(team: string, a: string, n: nat)
    requires !TeamHasPrefix(team)
    ensures var name := Repeated(team, a, n);
            team + SLASH <= name && HasSuffix(name, SLASH + a) && !HasTypePrefix(name)
  {
    if n == 0 {
      SuffixIsKept(a, team);
      PrefixOfLonger(team, a);
    } else {
      RepeatedShape(team, a, n - 1);
      PrefixOfLonger(team, Repeated(team, a, n - 1));
      SuffixGrows(Repeated(team, a, n - 1), team + SLASH, SLASH + a);
    }
  }

  lemma GrowsOnce(k: Kind, a: string, name: string)
    requires k.Channel? && k.info.Some? && k.info.value.channel == "" && k.info.value.team != ""
    requires HasSuffix(name, SLASH + a) && k.info.value.team + SLASH <= name
    ensures !HasTypePrefix(name) ==> Round(k, a, name) == k.info.value.team + SLASH + name
    ensures HasSuffix(k.info.value.team + SLASH + name, SLASH + a)
  {
    var team := k.info.value.team;
    assert name[|team| + 1] == (team + SLASH)[|team| + 1] == '/';
    SuffixGrows(name, team + SLASH, SLASH + a);
  }

  // Such a channel is renamed every round: the team's name comes before it
  // once more each time.
  lemma BlankChannelGrows(k: Kind, a: string, n: nat)
    requires k.Channel? && k.info.Some? && k.info.value.channel == "" && k.info.value.team != ""
    requires !TeamHasPrefix(k.info.value.team) && !HasTypePrefix(a) && a != "" && a != "Chat"
    ensures Round(k, a, a) == Repeated(k.info.value.team, a, 0)
    ensures Round(k, a, Repeated(k.info.value.team, a, n)) == Repeated(k.info.value.team, a, n + 1)
  {
    ChooseSelf(a);
    RepeatedShape(k.info.value.team, a, n);
    GrowsOnce(k, a, Repeated(k.info.value.team, a, n));
  }

  // ----- when one round settles the name -----

  predicate Settles(k: Kind, a: string) {
    match k
    case DirectMessage(_, _) => !("unknown user " <= ApiName(k, a))
    case MeetingChat => true
    case GroupChat => true
    case SystemStream(name) => name == "" || Agrees(a, name)
    case Channel(info, _) =>
      if info.None? then true
      else if info.value.channel != "" then Agrees(a, FullName(info.value))
      else info.value.team == "" || BlankChannelSettles(info.value.team, a)
  }

  // From any stored name, one round gives a name that neither discovery nor the
  // structured pass changes again, exactly under these conditions.
  lemma OneRoundSettlesExactly(k: Kind, a: string)
    requires IsKind(k)
    ensures (forall e :: Stable(k, a, Round(k, a, e))) <==> Settles(k, a)
  {
    match k
    case DirectMessage(_, _) =>
      if Settles(k, a) {
        forall e ensures Stable(k, a, Round(k, a, e)) { DirectMessageRound(k, a, e); }
      } else {
        DirectMessageUnstable(k, a);
      }
    case MeetingChat =>
      forall e ensures Stable(k, a, Round(k, a, e)) { GroupOrMeetingRound(k, a, e); }
    case GroupChat =>
      forall e ensures Stable(k, a, Round(k, a, e)) { GroupOrMeetingRound(k, a, e); }
    case SystemStream(_) => StreamRound(k, a);
    case Channel(info, _) => ChannelSettlesExactly(k, a);
  }

  lemma ChannelSettlesExactly(k: Kind, a: string)
    requires IsKind(k) && k.Channel?
    ensures (forall e :: Stable(k, a, Round(k, a, e))) <==> Settles(k, a)
  {
    if k.info.None? || k.info.value == ChannelInfo("", "") {
      forall e ensures Stable(k, a, Round(k, a, e)) { UnlistedRound(k, a, e); }
    } else if k.info.value.channel != "" {
      NamedChannelRound(k, a);
    } else if BlankChannelSettles(k.info.value.team, a) {
      forall e ensures Stable(k, a, Round(k, a, e)) { BlankChannelRound(k, a, e); }
    } else {
      BlankChannelUnstable(k, a);
    }
  }
}
