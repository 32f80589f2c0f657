/** Uploading a file in chunks to a Graph upload session. */
module ChunkedUpload {
  import opened Text

  type Byte = bv8

  const DEFAULT_CHUNK_SIZE := 5 * 1024 * 1024
  const CHUNK_SIZE_ALIGN := 320 * 1024

  // ----- the next expected range -----

  // strconv.ParseInt of a number without a minus sign.
  function ParseInt64(s: string): Option<nat> {
    var digits := if "+" <= s then s[1..] else s;
    if digits != "" && AllDigits(digits) && DigitsValue(digits) <= MAX_INT64 then Some(DigitsValue(digits)) else None
  }

  // The start of a range "12345-" or "12345-67890".
  function ParseNextExpectedStart(value: string): Option<nat> {
    var v := TrimSpace(value);
    var dash := IndexOf(v, '-');
    if dash == |v| || dash == 0 then None else ParseInt64(v[..dash])
  }

  // Exactly a number before the first dash is read, blanks around it aside.
  lemma RangeIsReadExactly(value: string, start: nat)
    ensures ParseNextExpectedStart(value) == Some(start) <==>
            exists digits, rest :: TrimSpace(value) == digits + "-" + rest && '-' !in digits && ParseInt64(digits) == Some(start)
  {
    var v := TrimSpace(value);
    var dash := IndexOf(v, '-');
    if ParseNextExpectedStart(value) == Some(start) {
      assert v == v[..dash] + "-" + v[dash + 1..];
    }
    forall digits, rest | v == digits + "-" + rest && '-' !in digits && ParseInt64(digits) == Some(start)
      ensures ParseNextExpectedStart(value) == Some(start)
    {
      Associative(digits, "-", rest);
      IndexOfIn(digits, '-', "-" + rest);
      assert v[..|digits|] == digits;
    }
  }

  // What a server says in either format is read back.
  lemma RangeRoundTrip(start: nat, end: string)
    requires start <= MAX_INT64 && AllDigits(end)
    ensures ParseNextExpectedStart(FormatNat(start) + "-" + end) == Some(start)
  {
    var digits, v := FormatNat(start), FormatNat(start) + "-" + end;
    FormatNatDigits(start);
    assert v[0] == digits[0] && digits[0] in digits;
    assert v[|v| - 1] == '-' || v[|v| - 1] in end;
    TrimmedIsKept(v);
    Associative(digits, "-", end);
    IndexOfIn(digits, '-', "-" + end);
    assert v[..|digits|] == digits;
  }

  // ----- the upload session -----

  datatype Response = Accepted(ranges: seq<string>) | Finished | Failed

  // Section 14.4 of RFC 9110: a byte range within the whole.
  predicate IsContentRange(start: nat, end: int, total: nat) {
    start <= end < total
  }

  // A session that keeps what it has taken so far, takes some of every chunk
  // and says where it wants to go on; which requests it fails, how much it
  // takes and in which format it answers is up to it.
  class UploadSession {
    const failing: set<nat>
    const taking: seq<nat>
    var stored: seq<Byte>
    var requests: nat
    // the range of each request: its start and its end
    ghost var ranges: seq<(nat, int)>

    constructor (failing: set<nat>, taking: seq<nat>)
      ensures stored == [] && requests == 0 && ranges == [] && this.failing == failing && this.taking == taking
    {
      this.failing, this.taking, stored, requests, ranges := failing, taking, [], 0, [];
    }

    method Put(start: nat, end: int, total: nat, body: seq<Byte>) returns (r: Response)
      requires IsContentRange(start, end, total) && |body| == end - start + 1 && start == |stored|
      modifies this
      ensures ranges == old(ranges) + [(start, end)]
      ensures requests == old(requests) + 1 && (r.Failed? <==> old(requests) in failing)
      ensures r.Failed? ==> stored == old(stored)
      ensures !r.Failed? ==> exists n :: 0 < n <= |body| && stored == old(stored) + body[..n]
      ensures r.Finished? ==> |stored| == total
      ensures r.Accepted? ==>
                && |stored| < total && r.ranges != []
                && exists last :: AllDigits(last) && r.ranges[0] == FormatNat(|stored|) + "-" + last
    {
      var k := requests;
      requests := requests + 1;
      ranges := ranges + [(start, end)];
      if k in failing {
        return Failed;
      }
      var n := if k < |taking| && 0 < taking[k] < |body| then taking[k] else |body|;
      stored := stored + body[..n];
      if |stored| == total {
        return Finished;
      }
      var last := if k % 2 == 0 then "" else FormatNat(total - 1);
      FormatNatDigits(total - 1);
      return Accepted([FormatNat(|stored|) + "-" + last]);
    }
  }

  // ----- the client's loop -----

  // What the last answer says of the item uploaded: whether it can be read as
  // a whole, or at least names the item, which can then be asked for.
  datatype FinalItem = FinalItem(readable: bool, named: bool, found: bool)

  datatype Result =
    | Uploaded
    | ItemUnreadable
    | EmptyUploadURL
    | EmptyUploadContent
    | InvalidChunkSize
    | RequestFailed
    | MissingExpectedRanges
    | InvalidExpectedRange
    | DidNotComplete

  function ChunkSize(configured: int): int {
    if configured <= 0 then DEFAULT_CHUNK_SIZE else configured
  }

  // The checks made before anything is sent.
  function Refusal(url: string, content: seq<Byte>, configured: int): Option<Result> {
    if TrimSpace(url) == "" then Some(EmptyUploadURL)
    else if content == [] then Some(EmptyUploadContent)
    else if ChunkSize(configured) % CHUNK_SIZE_ALIGN != 0 then Some(InvalidChunkSize)
    else None
  }

  // Nothing is refused but a blank address, an empty file and a chunk size that
  // is no multiple of 320 KiB.
  lemma RefusedExactly(url: string, content: seq<Byte>, configured: int)
    ensures Refusal(url, content, configured).None? <==>
            TrimSpace(url) != "" && content != [] && (configured <= 0 || configured % 327_680 == 0)
    ensures Refusal(url, content, configured) == Some(InvalidChunkSize) <==>
            TrimSpace(url) != "" && content != [] && configured > 0 && configured % 327_680 != 0
    ensures Refusal(url, content, configured) == Some(EmptyUploadContent) <==> TrimSpace(url) != "" && content == []
  {
  }

  // Every request sends a whole chunk, or what is left.
  ghost predicate InChunks(ranges: seq<(nat, int)>, chunkSize: int, total: nat) {
    forall k | 0 <= k < |ranges| ::
      ranges[k].1 == (if ranges[k].0 + chunkSize < total then ranges[k].0 + chunkSize else total) - 1
  }

  // Ends, with every range within the content and every body as long as its
  // range (what Put requires). The session then holds the content unless one of
  // the requests made failed; it holds a beginning of it in any case.
  method UploadFileInChunks(session: UploadSession, url: string, content: seq<Byte>, configured: int, item: FinalItem)
    returns (result: Result)
    requires session.stored == [] && |content| <= MAX_INT64
    modifies session
    ensures Refusal(url, content, configured).Some? ==>
              result == Refusal(url, content, configured).value && session.stored == []
    ensures Refusal(url, content, configured).None? ==>
              result == RequestFailed || result == if item.readable || (item.named && item.found) then Uploaded else ItemUnreadable
    ensures result == Uploaded || result == ItemUnreadable ==> session.stored == content
    ensures session.stored <= content
    ensures old(session.requests) <= session.requests
    ensures old(session.ranges) <= session.ranges
    ensures InChunks(session.ranges[|old(session.ranges)|..], if configured <= 0 then 5 * 1024 * 1024 else configured, |content|)
    ensures result == RequestFailed <==>
            && Refusal(url, content, configured).None?
            && exists k :: old(session.requests) <= k < session.requests && k in session.failing
    ensures session.failing == {} && Refusal(url, content, configured).None? ==> session.stored == content
  {
    if TrimSpace(url) == "" {
      return EmptyUploadURL;
    }
    if |content| == 0 {
      return EmptyUploadContent;
    }
    var chunkSize := configured;
    if chunkSize <= 0 {
      chunkSize := DEFAULT_CHUNK_SIZE;
    }
    if chunkSize % CHUNK_SIZE_ALIGN != 0 || chunkSize <= 0 {
      return InvalidChunkSize;
    }
    var total, start := |content|, 0;
    while start < total
      invariant 0 <= start < total && session.stored == content[..start]
      invariant old(session.requests) <= session.requests
      invariant old(session.ranges) <= session.ranges
      invariant InChunks(session.ranges[|old(session.ranges)|..], chunkSize, total)
      invariant forall k | old(session.requests) <= k < session.requests :: k !in session.failing
      decreases total - start
    {
      ghost var before := session.ranges;
      var response := PutChunk(session, content, start, chunkSize);
      OneMoreChunk(before, |old(session.ranges)|, session.ranges[|before|], chunkSize, total);
      match response
      case Failed => return RequestFailed;
      case Finished =>
        if item.readable {
          return Uploaded;
        }
        if item.named && item.found {
          return Uploaded;
        }
        return ItemUnreadable;
      case Accepted(ranges) =>
        if |ranges| == 0 || TrimSpace(ranges[0]) == "" {
          return MissingExpectedRanges;
        }
        var next := ParseNextExpectedStart(ranges[0]);
        if next.None? {
          return InvalidExpectedRange;
        }
        start := next.value;
    }
    return DidNotComplete;
  }

  // One request: the chunk from `start` on, or what is left.
  method PutChunk(session: UploadSession, content: seq<Byte>, start: nat, chunkSize: int) returns (response: Response)
    requires start < |content| <= MAX_INT64 && chunkSize > 0 && session.stored == content[..start]
    modifies session
    ensures session.requests == old(session.requests) + 1 && (response.Failed? <==> old(session.requests) in session.failing)
    ensures exists range :: session.ranges == old(session.ranges) + [range] && InChunks([range], chunkSize, |content|)
    ensures |session.stored| <= |content| && session.stored == content[..|session.stored|]
    ensures if response.Failed? then |session.stored| == start else start < |session.stored|
    ensures response.Finished? ==> session.stored == content
    ensures response.Accepted? ==>
              && |session.stored| < |content| && response.ranges != [] && TrimSpace(response.ranges[0]) != ""
              && ParseNextExpectedStart(response.ranges[0]) == Some(|session.stored|)
  {
    var total, end := |content|, start + chunkSize - 1;
    if end >= total {
      end := total - 1;
    }
    response := session.Put(start, end, total, content[start..end + 1]);
    assert InChunks([(start, end)], chunkSize, total);
    TakenIsPrefix(content, start, end + 1, session.stored);
    if response.Accepted? {
      AnswerIsRead(response.ranges[0], |session.stored|);
    }
  }

  lemma OneMoreChunk(ranges: seq<(nat, int)>, from: nat, range: (nat, int), chunkSize: int, total: nat)
    requires from <= |ranges| && InChunks(ranges[from..], chunkSize, total) && InChunks([range], chunkSize, total)
    ensures InChunks((ranges + [range])[from..], chunkSize, total)
  {
    assert (ranges + [range])[from..] == ranges[from..] + [range];
    assert [range][0] == range;
  }

  lemma TakenIsPrefix(content: seq<Byte>, start: nat, end: nat, stored: seq<Byte>)
    requires start < end <= |content|
    requires stored == content[..start]
             || exists n :: 0 < n <= end - start && stored == content[..start] + content[start..end][..n]
    ensures stored == content[..|stored|] && stored <= content
  {
  }

  lemma AnswerIsRead(range: string, start: nat)
    requires start <= MAX_INT64 && exists last :: AllDigits(last) && range == FormatNat(start) + "-" + last
    ensures ParseNextExpectedStart(range) == Some(start) && TrimSpace(range) != ""
  {
    var last :| AllDigits(last) && range == FormatNat(start) + "-" + last;
    RangeRoundTrip(start, last);
  }
}
