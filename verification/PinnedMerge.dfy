/** A chat's pinned messages, written from Matrix and read back from Teams. */
module PinnedMerge {
  import opened Text

  // ----- merging -----

  // The IDs of s that are, or are not, in the set.
  function Select(s: seq<string>, ids: set<string>, inside: bool): seq<string> {
    if s == [] then []
    else if (s[0] in ids) == inside then [s[0]] + Select(s[1..], ids, inside)
    else Select(s[1..], ids, inside)
  }

  function Reversed(s: seq<string>): seq<string> {
    if s == [] then [] else Reversed(s[1..]) + [s[0]]
  }

  function IDs(s: seq<string>): set<string> {
    set id | id in s
  }

  // Teams' list once exactly `wanted` is pinned: new pins first, the last one
  // of them foremost, then those already pinned, in Teams' order.
  function Merged(current: seq<string>, wanted: seq<string>): seq<string> {
    Reversed(Select(wanted, IDs(current), false)) + Select(current, IDs(wanted), true)
  }

  lemma {:induction false} SelectAppend(s: seq<string>, x: string, ids: set<string>, inside: bool)
    ensures Select(s + [x], ids, inside) == Select(s, ids, inside) + if (x in ids) == inside then [x] else []
  {
    if s == [] {
      assert s + [x] == [x];
    } else {
      assert (s + [x])[1..] == s[1..] + [x];
      SelectAppend(s[1..], x, ids, inside);
    }
  }

  method MergePinnedItems(current: seq<string>, wanted: seq<string>) returns (merged: seq<string>)
    ensures merged == Merged(current, wanted)
  {
    var added, kept: seq<string> := [], [];
    var i := |wanted|;
    while i > 0
      invariant 0 <= i <= |wanted| && added == Reversed(Select(wanted[i..], IDs(current), false))
    {
      i := i - 1;
      assert wanted[i..][1..] == wanted[i + 1..];
      if wanted[i] !in current {
        added := added + [wanted[i]];
      }
    }
    assert wanted[0..] == wanted;
    i := 0;
    while i < |current|
      invariant i <= |current| && kept == Select(current[..i], IDs(wanted), true)
    {
      SelectAppend(current[..i], current[i], IDs(wanted), true);
      assert current[..i] + [current[i]] == current[..i + 1];
      if current[i] in wanted {
        kept := kept + [current[i]];
      }
      i := i + 1;
    }
    assert current[..|current|] == current;
    return added + kept;
  }

  ghost predicate NoDuplicates(s: seq<string>) {
    forall i, j | 0 <= i < j < |s| :: s[i] != s[j]
  }

  lemma {:induction false} SelectCount(s: seq<string>, ids: set<string>, inside: bool, id: string)
    ensures multiset(Select(s, ids, inside))[id] == if (id in ids) == inside then multiset(s)[id] else 0
  {
    if s != [] {
      SelectCount(s[1..], ids, inside, id);
      assert s == [s[0]] + s[1..];
    }
  }

  lemma {:induction false} ReversedCount(s: seq<string>)
    ensures multiset(Reversed(s)) == multiset(s)
  {
    if s != [] {
      ReversedCount(s[1..]);
      assert s == [s[0]] + s[1..];
    }
  }

  lemma {:induction false} CountOne(s: seq<string>, id: string)
    requires NoDuplicates(s)
    ensures multiset(s)[id] == if id in s then 1 else 0
  {
    if s != [] {
      CountOne(s[1..], id);
      assert s == [s[0]] + s[1..];
    }
  }

  // Exactly what is wanted ends up pinned, each message once.
  lemma MergeIsPermutation(current: seq<string>, wanted: seq<string>)
    requires NoDuplicates(current) && NoDuplicates(wanted)
    ensures multiset(Merged(current, wanted)) == multiset(wanted)
  {
    var added, kept := Select(wanted, IDs(current), false), Select(current, IDs(wanted), true);
    ReversedCount(added);
    forall id | id in multiset(Merged(current, wanted)) || id in multiset(wanted)
      ensures multiset(Merged(current, wanted))[id] == multiset(wanted)[id]
    {
      SelectCount(wanted, IDs(current), false, id);
      SelectCount(current, IDs(wanted), true, id);
      CountOne(current, id);
      CountOne(wanted, id);
    }
  }

  lemma {:induction false} SelectAll(s: seq<string>, ids: set<string>, inside: bool)
    requires forall id | id in s :: (id in ids) == inside
    ensures Select(s, ids, inside) == s && Select(s, ids, !inside) == []
  {
    if s != [] {
      assert s[0] in s && forall id | id in s[1..] :: id in s;
      SelectAll(s[1..], ids, inside);
    }
  }

  lemma {:induction false} SelectMembers(s: seq<string>, ids: set<string>, inside: bool, id: string)
    ensures id in Select(s, ids, inside) <==> id in s && (id in ids) == inside
  {
    if s != [] {
      SelectMembers(s[1..], ids, inside, id);
    }
  }

  lemma {:induction false} ReversedMembers(s: seq<string>, id: string)
    ensures id in Reversed(s) <==> id in s
  {
    if s != [] {
      ReversedMembers(s[1..], id);
    }
  }

  lemma MergedMembers(current: seq<string>, wanted: seq<string>)
    ensures forall id :: id in Merged(current, wanted) <==> id in wanted
  {
    forall id
      ensures id in Merged(current, wanted) <==> id in wanted
    {
      ReversedMembers(Select(wanted, IDs(current), false), id);
      SelectMembers(wanted, IDs(current), false, id);
      SelectMembers(current, IDs(wanted), true, id);
    }
  }

  // Pinning the same again changes nothing.
  lemma MergeTwice(current: seq<string>, wanted: seq<string>)
    ensures var merged := Merged(current, wanted); Merged(merged, wanted) == merged
  {
    var merged := Merged(current, wanted);
    MergedMembers(current, wanted);
    SelectAll(wanted, IDs(merged), true);
    SelectAll(merged, IDs(wanted), true);
  }

  // ----- the order of a merged list -----

  ghost predicate StandsBefore(s: seq<string>, a: string, b: string) {
    exists i, j :: 0 <= i < j < |s| && s[i] == a && s[j] == b
  }

  lemma {:induction false} SelectKeepsOrder(s: seq<string>, ids: set<string>, inside: bool, i: nat, j: nat)
    requires i < j < |s| && (s[i] in ids) == inside && (s[j] in ids) == inside
    ensures StandsBefore(Select(s, ids, inside), s[i], s[j])
  {
    var rest := Select(s[1..], ids, inside);
    if i > 0 {
      SelectKeepsOrder(s[1..], ids, inside, i - 1, j - 1);
      if (s[0] in ids) == inside {
        var p, q :| 0 <= p < q < |rest| && rest[p] == s[i] && rest[q] == s[j];
        assert ([s[0]] + rest)[p + 1] == s[i] && ([s[0]] + rest)[q + 1] == s[j];
      }
    } else {
      SelectMembers(s[1..], ids, inside, s[j]);
      assert s[1..][j - 1] == s[j];
      var q :| 0 <= q < |rest| && rest[q] == s[j];
      assert ([s[0]] + rest)[0] == s[0] && ([s[0]] + rest)[q + 1] == s[j];
    }
  }

  lemma {:induction false} ReversedAt(s: seq<string>, k: nat)
    requires k < |s|
    ensures |Reversed(s)| == |s| && Reversed(s)[|s| - 1 - k] == s[k]
  {
    if |s| > 1 {
      ReversedAt(s[1..], if k > 0 then k - 1 else 0);
    }
  }

  lemma ReversedTurnsOrder(s: seq<string>, a: string, b: string)
    requires StandsBefore(s, a, b)
    ensures StandsBefore(Reversed(s), b, a)
  {
    var i, j :| 0 <= i < j < |s| && s[i] == a && s[j] == b;
    ReversedAt(s, i);
    ReversedAt(s, j);
  }

  lemma StandsBeforeIn(a: seq<string>, b: seq<string>, x: string, y: string)
    requires StandsBefore(a, x, y) || StandsBefore(b, x, y) || (x in a && y in b)
    ensures StandsBefore(a + b, x, y)
  {
    var s := a + b;
    if StandsBefore(a, x, y) {
      var i, j :| 0 <= i < j < |a| && a[i] == x && a[j] == y;
      assert s[i] == x && s[j] == y;
    } else if StandsBefore(b, x, y) {
      var i, j :| 0 <= i < j < |b| && b[i] == x && b[j] == y;
      assert s[|a| + i] == x && s[|a| + j] == y;
    } else {
      var i :| 0 <= i < |a| && a[i] == x;
      var j :| 0 <= j < |b| && b[j] == y;
      assert s[i] == x && s[|a| + j] == y;
    }
  }

  // New pins stand before those already pinned, the one pinned last on Matrix
  // first; those already pinned keep Teams' order.
  lemma MergeOrder(current: seq<string>, wanted: seq<string>)
    ensures forall i, j | 0 <= i < j < |wanted| && wanted[i] !in current && wanted[j] !in current ::
              StandsBefore(Merged(current, wanted), wanted[j], wanted[i])
    ensures forall a, b | a in wanted && a !in current && b in wanted && b in current ::
              StandsBefore(Merged(current, wanted), a, b)
    ensures forall i, j | 0 <= i < j < |current| && current[i] in wanted && current[j] in wanted ::
              StandsBefore(Merged(current, wanted), current[i], current[j])
  {
    var added, kept := Select(wanted, IDs(current), false), Select(current, IDs(wanted), true);
    forall i, j | 0 <= i < j < |wanted| && wanted[i] !in current && wanted[j] !in current
      ensures StandsBefore(Merged(current, wanted), wanted[j], wanted[i])
    {
      SelectKeepsOrder(wanted, IDs(current), false, i, j);
      ReversedTurnsOrder(added, wanted[i], wanted[j]);
      StandsBeforeIn(Reversed(added), kept, wanted[j], wanted[i]);
    }
    forall a, b | a in wanted && a !in current && b in wanted && b in current
      ensures StandsBefore(Merged(current, wanted), a, b)
    {
      SelectMembers(wanted, IDs(current), false, a);
      ReversedMembers(added, a);
      SelectMembers(current, IDs(wanted), true, b);
      StandsBeforeIn(Reversed(added), kept, a, b);
    }
    forall i, j | 0 <= i < j < |current| && current[i] in wanted && current[j] in wanted
      ensures StandsBefore(Merged(current, wanted), current[i], current[j])
    {
      SelectKeepsOrder(current, IDs(wanted), true, i, j);
      StandsBeforeIn(Reversed(added), kept, current[i], current[j]);
    }
  }

  // ----- the signature -----

  function SplitPinnedSig(sig: string): seq<string> {
    if sig == "" then [] else Split(sig, ',')
  }

  predicate IsMessageID(id: string) {
    id != "" && Trimmed(id) && ',' !in id
  }

  lemma SignatureRoundTrip(ids: seq<string>)
    requires forall i | 0 <= i < |ids| :: IsMessageID(ids[i])
    ensures SplitPinnedSig(Join(ids, ",")) == ids
  {
    if ids != [] {
      SplitJoin(ids, ',');
      assert Join(ids, ",") != "";
    }
  }

  // ----- Teams' list -----

  datatype Item = Item(itemID: string, itemType: string)

  function ParsePinnedItems(items: seq<Item>): seq<string> {
    if items == [] then []
    else
      var init, last := ParsePinnedItems(items[..|items| - 1]), items[|items| - 1];
      if TrimSpace(last.itemID) != "" && (last.itemType == "" || last.itemType == "Message") then init + [TrimSpace(last.itemID)]
      else init
  }

  function AsItems(ids: seq<string>): seq<Item> {
    if ids == [] then [] else AsItems(ids[..|ids| - 1]) + [Item(ids[|ids| - 1], "Message")]
  }

  // Each message is written as one, in its place.
  lemma {:induction false} ItemsAreMessages(ids: seq<string>)
    ensures |AsItems(ids)| == |ids| && forall i | 0 <= i < |ids| :: AsItems(ids)[i] == Item(ids[i], "Message")
  {
    if ids != [] {
      ItemsAreMessages(ids[..|ids| - 1]);
    }
  }

  lemma {:induction false} ItemsRoundTrip(ids: seq<string>)
    requires forall i | 0 <= i < |ids| :: IsMessageID(ids[i])
    ensures ParsePinnedItems(AsItems(ids)) == ids
  {
    if ids != [] {
      ItemsRoundTrip(ids[..|ids| - 1]);
      TrimmedIsKept(ids[|ids| - 1]);
      assert ids == ids[..|ids| - 1] + [ids[|ids| - 1]];
    }
  }

  lemma {:induction false} ParsedPrefix(items: seq<Item>, n: nat)
    requires n <= |items|
    ensures ParsePinnedItems(items[..n]) <= ParsePinnedItems(items)
    decreases |items|
  {
    if n < |items| {
      assert items[..|items| - 1][..n] == items[..n];
      ParsedPrefix(items[..|items| - 1], n);
    } else {
      assert items[..n] == items;
    }
  }

  // The list read holds the trimmed ID of every item that is a message, right
  // behind those of the items before it, and nothing else.
  lemma ItemIsRead(items: seq<Item>, n: nat)
    requires n < |items|
    ensures var ids, before, upTo := ParsePinnedItems(items), ParsePinnedItems(items[..n]), ParsePinnedItems(items[..n + 1]);
            && before <= upTo <= ids
            && if TrimSpace(items[n].itemID) != "" && items[n].itemType in {"", "Message"}
               then upTo == before + [TrimSpace(items[n].itemID)] else upTo == before
  {
    assert items[..n + 1][..n] == items[..n];
    ParsedPrefix(items, n + 1);
  }

  // What a list read from Teams makes the bridge send to Matrix: nothing when
  // it is the one known, or empty and the first seen.
  function ToSend(known: Option<string>, ids: seq<string>): Option<seq<string>> {
    var sig := Join(ids, ",");
    if known == Some(sig) || (known.None? && sig == "") then None else Some(ids)
  }

  lemma BlankSigExactly(items: seq<Item>)
    ensures Join(ParsePinnedItems(items), ",") == "" <==> ParsePinnedItems(items) == []
  {
    ParsedNotBlank(items);
  }

  lemma {:induction false} ParsedNotBlank(items: seq<Item>)
    ensures forall i | 0 <= i < |ParsePinnedItems(items)| :: ParsePinnedItems(items)[i] != ""
  {
    if items != [] {
      ParsedNotBlank(items[..|items| - 1]);
    }
  }

  // The messages of a list the bridge knows, in its order.
  function Bridged(ids: seq<string>, bridged: set<string>): seq<string> {
    if ids == [] then []
    else
      var init, last := Bridged(ids[..|ids| - 1], bridged), ids[|ids| - 1];
      if last in bridged then init + [last] else init
  }

  lemma {:induction false} BridgedPrefix(ids: seq<string>, bridged: set<string>, n: nat)
    requires n <= |ids|
    ensures Bridged(ids[..n], bridged) <= Bridged(ids, bridged)
    decreases |ids|
  {
    if n < |ids| {
      assert ids[..|ids| - 1][..n] == ids[..n];
      BridgedPrefix(ids[..|ids| - 1], bridged, n);
    } else {
      assert ids[..n] == ids;
    }
  }

  // The room gets exactly the messages bridged, each behind those before it.
  lemma BridgedExactly(ids: seq<string>, bridged: set<string>, n: nat)
    requires n < |ids|
    ensures var pinned, before, upTo := Bridged(ids, bridged), Bridged(ids[..n], bridged), Bridged(ids[..n + 1], bridged);
            before <= upTo <= pinned && upTo == if ids[n] in bridged then before + [ids[n]] else before
  {
    assert ids[..n + 1][..n] == ids[..n];
    BridgedPrefix(ids, bridged, n + 1);
  }

  // ----- the tracker, in place -----

  class PinnedMessages {
    // threadID -> comma-joined message IDs, as last known
    var sigs: map<string, string>
    // threadID -> pinnedItems, on Teams
    var onTeams: map<string, seq<Item>>
    // threadID -> the pins last set in its room
    var rooms: map<string, seq<string>>

    constructor (onTeams: map<string, seq<Item>>)
      ensures sigs == map[] && rooms == map[] && this.onTeams == onTeams
    {
      sigs, this.onTeams, rooms := map[], onTeams, map[];
    }

    function Known(threadID: string): Option<string>
      reads this
    {
      if threadID in sigs then Some(sigs[threadID]) else None
    }

    // ready tells that the room exists and that setting its pins succeeds;
    // messages not bridged cannot be pinned there.
    method SyncPinnedMessages(threadID: string, items: seq<Item>, bridged: set<string>, ready: bool) returns (sent: bool)
      modifies this`sigs, this`rooms
      ensures var ids, send := ParsePinnedItems(items), ToSend(old(Known(threadID)), ParsePinnedItems(items));
              && sent == (send.Some? && ready)
              && rooms == (if sent then old(rooms)[threadID := Bridged(send.value, bridged)] else old(rooms))
              && sigs == if send.Some? && !ready then old(sigs) else old(sigs)[threadID := Join(ids, ",")]
      ensures var ids := ParsePinnedItems(items);
              sent <==> ready && if threadID in old(sigs) then old(sigs)[threadID] != Join(ids, ",") else ids != []
    {
      var ids := ParsePinnedItems(items);
      var sig := Join(ids, ",");
      BlankSigExactly(items);
      if threadID in sigs && sigs[threadID] == sig {
        assert sigs[threadID := sig] == sigs;
        return false;
      }
      if threadID !in sigs && sig == "" {
        sigs := sigs[threadID := sig];
        return false;
      }
      if !ready {
        return false;
      }
      var pinned: seq<string> := [];
      var i := 0;
      while i < |ids|
        invariant i <= |ids| && pinned == Bridged(ids[..i], bridged)
      {
        assert ids[..i + 1][..i] == ids[..i];
        if ids[i] in bridged {
          pinned := pinned + [ids[i]];
        }
        i := i + 1;
      }
      assert ids[..|ids|] == ids;
      rooms := rooms[threadID := pinned];
      sigs := sigs[threadID := sig];
      return true;
    }

    // A user's change of the room's pins; ok tells whether Teams takes it.
    method HandleMatrixPinnedEvents(threadID: string, pinned: seq<string>, ok: bool)
      modifies this`sigs, this`onTeams
      ensures var current := SplitPinnedSig(if threadID in old(sigs) then old(sigs)[threadID] else "");
              var ids := Merged(current, Distinct(pinned));
              if ok then onTeams == old(onTeams)[threadID := AsItems(ids)] && sigs == old(sigs)[threadID := Join(ids, ",")]
              else onTeams == old(onTeams) && sigs == old(sigs)
    {
      var wanted: seq<string> := [];
      var i := 0;
      while i < |pinned|
        invariant i <= |pinned| && wanted == Distinct(pinned[..i])
      {
        assert pinned[..i + 1][..i] == pinned[..i];
        if pinned[i] !in wanted {
          wanted := wanted + [pinned[i]];
        }
        i := i + 1;
      }
      assert pinned[..|pinned|] == pinned;
      var prev := "";
      if threadID in sigs {
        prev := sigs[threadID];
      }
      var ids := MergePinnedItems(SplitPinnedSig(prev), wanted);
      if !ok {
        return;
      }
      onTeams := onTeams[threadID := AsItems(ids)];
      sigs := sigs[threadID := Join(ids, ",")];
    }
  }

  // Each ID where it first stands.
  function Distinct(s: seq<string>): seq<string> {
    if s == [] then []
    else
      var init, last := Distinct(s[..|s| - 1]), s[|s| - 1];
      if last in init then init else init + [last]
  }

  lemma {:induction false} DistinctIsDistinct(s: seq<string>)
    ensures NoDuplicates(Distinct(s)) && forall id :: id in Distinct(s) <==> id in s
  {
    if s != [] {
      DistinctIsDistinct(s[..|s| - 1]);
      assert s == s[..|s| - 1] + [s[|s| - 1]];
    }
  }

  // A message pinned twice stands where it did first, a new one comes last.
  lemma DistinctAppend(s: seq<string>, id: string)
    ensures Distinct(s + [id]) == if id in s then Distinct(s) else Distinct(s) + [id]
  {
    assert (s + [id])[..|s|] == s;
    DistinctIsDistinct(s);
  }

  // After pins were written from Matrix, reading Teams' list back sends nothing
  // to Matrix; Teams holds what the user pinned, each once; and the next merge
  // starts from Teams' list as it is.
  lemma ReadingBackSendsNothing(known: string, pinned: seq<string>)
    requires forall i | 0 <= i < |pinned| :: IsMessageID(pinned[i])
    requires NoDuplicates(SplitPinnedSig(known))
    ensures var ids := Merged(SplitPinnedSig(known), Distinct(pinned));
            && ToSend(Some(Join(ids, ",")), ParsePinnedItems(AsItems(ids))).None?
            && multiset(ids) == multiset(Distinct(pinned))
            && SplitPinnedSig(Join(ids, ",")) == ids == ParsePinnedItems(AsItems(ids))
  {
    var current, wanted := SplitPinnedSig(known), Distinct(pinned);
    var ids := Merged(current, wanted);
    DistinctIsDistinct(pinned);
    MergeIsPermutation(current, wanted);
    MergedMembers(current, wanted);
    AllMessageIDs(ids, pinned);
    SignatureRoundTrip(ids);
    ItemsRoundTrip(ids);
  }

  lemma AllMessageIDs(ids: seq<string>, pinned: seq<string>)
    requires (forall i | 0 <= i < |pinned| :: IsMessageID(pinned[i])) && forall id | id in ids :: id in pinned
    ensures forall i | 0 <= i < |ids| :: IsMessageID(ids[i])
  {
    forall i | 0 <= i < |ids|
      ensures IsMessageID(ids[i])
    {
      assert ids[i] in pinned;
    }
  }
}
