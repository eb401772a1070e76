/** Chunked download of a file on the target to a host file, with retries,
    short reads and the cap on a frame. */
module Download {
  import opened CTypes
  import opened Transfer
  import opened Wrappers
  import Base64
  import Frame

  const READ_MAX: int := 32 * 1024 * 1024

  // ---- fs.read ----

  /** What happens to one read request: a finished one may return fewer
      bytes than there are. */
  datatype Answer = NoAnswer | ReadFails | Reads(most: nat)

  /** How many bytes a request asks for: a negative length sets no limit. */
  function Wanted(size: nat, offset: int, length: int): (n: nat)
    ensures Start(offset) + n <= size || n == 0
  {
    var avail := if size > Start(offset) then size - Start(offset) else 0;
    if 0 <= length < avail then length else avail
  }

  /** How many of the wanted bytes an answer brings. */
  function Brought(a: Answer, wanted: nat): nat {
    if wanted == 0 || !a.Reads? then 0 else Min(wanted, a.most)
  }

  /** A request for so many bytes that is met with this answer gets a reply
      with a slice of the file. */
  predicate Delivers(a: Answer, wanted: nat, envelope: Envelope) {
    && a != NoAnswer && wanted <= READ_MAX && (wanted > 0 ==> a.Reads?)
    && Fits(Brought(a, wanted), envelope)
  }

  /** No request for more than 33554432 bytes is answered, and no reply holds
      more than 3 * ((33554432 - envelope) / 4). */
  lemma DeliversIff(a: Answer, wanted: nat, envelope: Envelope)
    ensures Delivers(a, wanted, envelope) <==>
            && a != NoAnswer && wanted <= 33554432 && (wanted > 0 ==> a.Reads?)
            && Brought(a, wanted) <= 3 * ((33554432 - envelope) / 4)
  {
    FitsIff(Brought(a, wanted), envelope);
  }

  /** The remote file as the daemon reads it. */
  class Source {
    const content: Bytes
    const plan: nat -> Answer
    const envelope: Envelope
    var calls: nat

    constructor (content: Bytes, plan: nat -> Answer, envelope: Envelope)
      ensures this.content == content && this.plan == plan && this.envelope == envelope && calls == 0
    {
      this.content, this.plan, this.envelope, calls := content, plan, envelope, 0;
    }

    /** A slice of the file in base64. The reply can be short, never wrong;
        one that does not fit in a frame is not sent. */
    method FsRead(offset: int, length: int) returns (text: Option<Bytes>, ghost got: Bytes)
      modifies this`calls
      ensures calls == old(calls) + 1
      ensures text.Some? <==> Delivers(plan(old(calls)), Wanted(|content|, offset, length), envelope)
      ensures text.Some? ==> Base64.DecodeText(text.value) == Some(got) && PieceOf(content, offset, got)
                             && |got| == Brought(plan(old(calls)), Wanted(|content|, offset, length))
    {
      var a := plan(calls);
      calls := calls + 1;
      got := [];
      if a == NoAnswer { return None, got; }
      var from := if offset < 0 then 0 else offset;
      var avail := |content| - from;
      if avail < 0 { avail := 0; }
      var toRead := avail;
      if length >= 0 && length < toRead { toRead := length; }
      if toRead > READ_MAX { return None, got; }
      var buf: Bytes := [];
      if toRead > 0 {
        if a == ReadFails { return None, got; }
        buf := content[from..from + if a.most < toRead then a.most else toRead];
      }
      text := Reply(buf, envelope);
      got := buf;
    }
  }

  /** The reply with the bytes in base64, if a frame can hold it. */
  method Reply(buf: Bytes, envelope: Envelope) returns (text: Option<Bytes>)
    ensures text.Some? <==> Fits(|buf|, envelope)
    ensures text.Some? ==> Base64.DecodeText(text.value) == Some(buf)
  {
    var out := Base64.Encode(buf);
    Base64.DecodeEncode(buf);
    Base64.EncodedLength(buf);
    if out.Length - 1 + envelope > Frame.MAX_PAYLOAD { return None; }
    text := Some(out[..out.Length - 1]);
  }

  /** The bytes stand in the file at the offset (at its start, if negative). */
  ghost predicate PieceOf(content: Bytes, offset: int, got: Bytes) {
    got == [] || (Start(offset) + |got| <= |content| && got == content[Start(offset)..Start(offset) + |got|])
  }

  // ---- chunked_download ----

  datatype DownloadResult = NotReached | Stopped(offset: int) | Downloaded(total: nat, chunks: nat)

  /** Of every retries+1 requests in a row, one is answered. */
  ghost predicate AnswersOften(plan: nat -> Answer, retries: int) {
    forall c: nat :: OneAnswer(plan, c, retries)
  }

  ghost predicate OneAnswer(plan: nat -> Answer, c: nat, retries: int) {
    exists k: nat :: c <= k <= c + retries && plan(k).Reads?
  }

  /** Of the requests from c to before d, one gets its slice; none does. */
  ghost predicate OneDelivers(plan: nat -> Answer, c: nat, d: nat, wanted: nat, envelope: Envelope) {
    exists k: nat :: c <= k < d && Delivers(plan(k), wanted, envelope)
  }

  /** No request from c to before d was answered with nothing. */
  ghost predicate NoEmptyReply(plan: nat -> Answer, c: nat, d: nat) {
    forall k: nat :: c <= k < d ==> plan(k) != Reads(0)
  }

  /** An answer brings all that the file has. */
  ghost predicate ReadsInFull(plan: nat -> Answer, size: nat) {
    forall k: nat :: plan(k).Reads? ==> plan(k).most >= size
  }

  /** A request that can deliver delivers an empty reply too. */
  lemma EmptyDelivers(a: Answer, wanted: nat, envelope: Envelope)
    requires Delivers(a, wanted, envelope)
    ensures Delivers(Reads(0), wanted, envelope)
  {
    Base64.EncodedSizeIs(Brought(a, wanted));
  }

  /** The attempts at one read: it gives up exactly if none of them gets a
      slice, and the slice is empty exactly if one came that was. */
  method ReadPiece(source: Source, offset: int, length: int, retries: int) returns (payload: Option<Bytes>)
    modifies source`calls
    ensures old(source.calls) <= source.calls <= old(source.calls) + Start(retries + 1)
    ensures payload == None ==> source.calls == old(source.calls) + Start(retries + 1)
    ensures payload == None <==> !OneDelivers(source.plan, old(source.calls), source.calls,
                                              Wanted(|source.content|, offset, length), source.envelope)
    ensures payload.Some? ==> PieceOf(source.content, offset, payload.value) && source.calls > old(source.calls)
                              && |payload.value| == Brought(source.plan(source.calls - 1),
                                                            Wanted(|source.content|, offset, length))
    ensures payload.Some? && Wanted(|source.content|, offset, length) > 0 ==>
              (payload.value == [] <==> !NoEmptyReply(source.plan, old(source.calls), source.calls))
  {
    ghost var c, wanted := source.calls, Wanted(|source.content|, offset, length);
    var attempt := 0;
    payload := None;
    while attempt < retries + 1
      invariant attempt >= 0 && source.calls == c + attempt && payload == None
      invariant attempt <= Start(retries + 1)
      invariant !OneDelivers(source.plan, c, source.calls, wanted, source.envelope)
      decreases retries - attempt
    {
      var text, got := source.FsRead(offset, length);
      if text.Some? {
        EmptyDelivers(source.plan(source.calls - 1), wanted, source.envelope);
        payload := Base64.Decode(text.value);
        return;
      }
      attempt := attempt + 1;
    }
  }

  /** What the local file holds when offset `reached` is reached. */
  ghost predicate DownloadLeaves(content: Bytes, before: Bytes, resume: nat, reached: nat, local: Bytes) {
    resume <= reached && (reached == resume || reached <= |content|)
    && local == if reached == resume then before else before + content[resume..reached]
  }

  /** The local file as it is opened: to append when resuming, else empty. */
  function Opened(existing: Bytes, resume: int): Bytes {
    if resume > 0 then existing else []
  }

  /** The length of the request at an offset. */
  function Asked(total: nat, offset: int, chunkSize: int): int {
    if chunkSize <= total - offset then chunkSize else total - offset
  }

  /** The bytes asked for by the request at an offset. */
  function WantedAt(total: nat, offset: int, chunkSize: int): nat {
    Wanted(total, offset, Asked(total, offset, chunkSize))
  }

  lemma WantedShrinks(total: nat, resume: nat, offset: nat, chunkSize: int)
    requires resume <= offset < total && chunkSize != 0
    ensures 0 < WantedAt(total, offset, chunkSize) <= WantedAt(total, resume, chunkSize)
  {
  }

  /** Whatever fits in a frame is delivered by an answer. */
  lemma AnswerDelivers(plan: nat -> Answer, c: nat, retries: int, wanted: nat, envelope: Envelope)
    requires OneAnswer(plan, c, retries) && wanted <= Largest(envelope)
    ensures OneDelivers(plan, c, c + Start(retries + 1), wanted, envelope)
  {
    var k: nat :| c <= k <= c + retries && plan(k).Reads?;
    FitsIff(Brought(plan(k), wanted), envelope);
  }

  /** What does not fit is not, if it is read in full. */
  lemma TooLargeNeverDelivers(plan: nat -> Answer, c: nat, d: nat, wanted: nat, size: nat, envelope: Envelope)
    requires ReadsInFull(plan, size) && Largest(envelope) < wanted <= size && wanted > 0
    ensures !OneDelivers(plan, c, d, wanted, envelope)
  {
    FitsIff(wanted, envelope);
  }

  /** The transfer runs: every reply since request c has brought something,
      and what was wanted first fitted if it was read in full. */
  ghost predicate Running(plan: nat -> Answer, size: nat, envelope: Envelope, c: nat, d: nat, resume: nat,
                          chunkSize: int, offset: int) {
    && c <= d && resume <= offset && NoEmptyReply(plan, c, d)
    && (offset > resume ==>
          d > c && (ReadsInFull(plan, size) ==> WantedAt(size, resume, chunkSize) <= Largest(envelope)))
  }

  /** One more piece: the transfer runs on, ends early, or stops. */
  method DownloadNext(source: Source, offset: int, chunkSize: int, retries: int, ghost c: nat, ghost resume: int)
    returns (payload: Option<Bytes>)
    requires offset < |source.content| && c <= source.calls
    requires resume >= 0 && chunkSize != 0 ==>
               Running(source.plan, |source.content|, source.envelope, c, source.calls, resume, chunkSize, offset)
    modifies source`calls
    ensures c <= source.calls
    ensures payload.Some? ==> PieceOf(source.content, offset, payload.value)
    ensures resume >= 0 && chunkSize != 0 && payload.Some? ==>
              if payload.value == [] then !NoEmptyReply(source.plan, c, source.calls)
              else Running(source.plan, |source.content|, source.envelope, c, source.calls, resume, chunkSize,
                           offset + |payload.value|)
    ensures payload == None ==> StoppedAt(source, offset, chunkSize, retries)
    ensures AnswersOften(source.plan, retries)
            && WantedAt(|source.content|, offset, chunkSize) <= Largest(source.envelope)
            ==> payload.Some?
  {
    ghost var d, wanted := source.calls, WantedAt(|source.content|, offset, chunkSize);
    var total := |source.content|;
    payload := ReadPiece(source, offset, if chunkSize <= total - offset then chunkSize else total - offset, retries);
    if AnswersOften(source.plan, retries) && wanted <= Largest(source.envelope) && payload == None {
      AnswerDelivers(source.plan, d, retries, wanted, source.envelope);
    }
    if resume >= 0 && chunkSize != 0 && payload.Some? {
      WantedShrinks(total, resume, offset, chunkSize);
      if offset == resume && ReadsInFull(source.plan, total) && wanted > Largest(source.envelope) {
        TooLargeNeverDelivers(source.plan, d, source.calls, wanted, total, source.envelope);
      }
    }
  }

  /** The last retries+1 requests were for the bytes at the offset, and none
      was delivered. */
  ghost predicate StoppedAt(source: Source, offset: int, chunkSize: int, retries: int)
    reads source
  {
    && offset < |source.content| && Start(retries + 1) <= source.calls
    && !OneDelivers(source.plan, source.calls - Start(retries + 1), source.calls,
                    WantedAt(|source.content|, offset, chunkSize), source.envelope)
  }

  /** Appends what is read to what the local file held (when resuming) or to
      an empty file. Success does not say that the end was reached: an empty
      reply ends the transfer without an error, and nothing else does. With
      answers enough it stops exactly if the first slice, read in full, does
      not fit in a frame. */
  method ChunkedDownload(source: Source, statAnswers: bool, existing: Bytes, chunkSize: int, retries: int, resume: int)
    returns (r: DownloadResult, local: Bytes, ghost reached: int)
    modifies source`calls
    ensures !statAnswers <==> r.NotReached?
    ensures r.NotReached? ==> local == existing
    ensures r.Downloaded? ==> r.total == |source.content|
    ensures statAnswers && resume >= 0 ==>
              reached >= 0 && DownloadLeaves(source.content, Opened(existing, resume), resume, reached, local)
    ensures statAnswers && resume == 0 ==> 0 <= reached <= |source.content| && local == source.content[..reached]
    ensures statAnswers && resume > 0 ==> existing <= local
    ensures r.Downloaded? && chunkSize != 0 && 0 <= resume < |source.content| ==>
              source.calls > old(source.calls)
              && (reached == |source.content| <==> NoEmptyReply(source.plan, old(source.calls), source.calls))
    ensures r.Stopped? ==> reached == r.offset && StoppedAt(source, r.offset, chunkSize, retries)
    ensures AnswersOften(source.plan, retries) && 0 <= chunkSize <= Largest(source.envelope) ==> !r.Stopped?
    ensures AnswersOften(source.plan, retries) && ReadsInFull(source.plan, |source.content|)
            && statAnswers && chunkSize != 0 && 0 <= resume < |source.content|
            ==> (r.Stopped? <==> WantedAt(|source.content|, resume, chunkSize) > Largest(source.envelope))
  {
    reached := resume;
    if !statAnswers { return NotReached, existing, reached; }
    ghost var c := source.calls;
    var total := |source.content|;
    var chunks := 0;
    local := if resume > 0 then existing else [];
    var offset := resume;
    while offset < total
      invariant offset >= resume && chunks >= 0 && c <= source.calls
      invariant resume >= 0 ==> DownloadLeaves(source.content, Opened(existing, resume), resume, offset, local)
      invariant resume >= 0 && chunkSize != 0 ==>
                  Running(source.plan, total, source.envelope, c, source.calls, resume, chunkSize, offset)
      decreases total - offset
    {
      var payload := DownloadNext(source, offset, chunkSize, retries, c, resume);
      if payload == None { return Stopped(offset), local, offset; }
      if resume >= 0 {
        AppendPiece(source.content, Opened(existing, resume), resume, offset, local, payload.value);
      }
      local := local + payload.value;
      offset := offset + |payload.value|;
      chunks := chunks + 1;
      if |payload.value| == 0 { break; }
    }
    return Downloaded(total, chunks), local, offset;
  }

  lemma AppendPiece(content: Bytes, before: Bytes, resume: nat, offset: nat, local: Bytes, piece: Bytes)
    requires DownloadLeaves(content, before, resume, offset, local) && PieceOf(content, offset, piece)
    ensures DownloadLeaves(content, before, resume, offset + |piece|, local + piece)
  {
  }

  // ---- what a download achieves ----

  /** When the two files are equal after a download that ran from request c
      to before d: for a local file no longer than where it resumed, exactly
      when it began as the remote one does, all the way to there, and no
      reply was empty. A longer one is spoilt by a complete transfer, and
      resuming at the end changes nothing. */
  lemma EqualAfterDownloadIff(content: Bytes, before: Bytes, resume: nat, reached: nat, local: Bytes,
                              plan: nat -> Answer, c: nat, d: nat)
    requires DownloadLeaves(content, before, resume, reached, local)
    requires resume < |content| ==> (reached == |content| <==> NoEmptyReply(plan, c, d))
    ensures resume < |content| && |before| <= resume ==>
              (local == content <==> NoEmptyReply(plan, c, d) && before == content[..resume])
    ensures resume < |content| && |before| > resume && NoEmptyReply(plan, c, d) ==> local != content
    ensures resume >= |content| ==> (local == content <==> before == content)
  {
    if resume < |content| {
      assert content == content[..resume] + content[resume..];
      if local == content && |before| <= resume { assert before == content[..|before|]; }
    }
  }

  /** A transfer that succeeds after one empty reply, with an empty copy of a
      file of two bytes. */
  method EmptyReplyEndsTransfer() returns (content: Bytes, r: DownloadResult, local: Bytes)
    ensures r.Downloaded? && content == [7, 8] && local != content
  {
    content := [7, 8];
    var source := new Source(content, _ => Reads(0), 100);
    ghost var reached;
    assert forall c: nat :: source.plan(c) == Reads(0);
    forall c: nat ensures OneAnswer(source.plan, c, 2) { assert source.plan(c).Reads?; }
    r, local, reached := ChunkedDownload(source, true, [], 1, 2, 0);
    assert source.plan(0) == Reads(0) && !NoEmptyReply(source.plan, 0, source.calls);
    EqualAfterDownloadIff(content, [], 0, reached, local, source.plan, 0, source.calls);
  }

  /** A file of a default chunk or more, read in full: at the default read
      size the download stops at once, on every retry. */
  lemma DefaultDownloadStuck(total: nat, resume: nat, envelope: Envelope)
    requires resume + 25165824 <= total
    ensures WantedAt(total, resume, 25165824) > Largest(envelope)
  {
    DefaultChunkNeverFits(envelope);
  }

  /** Up and down again: whatever the retries, lost replies and short reads,
      the copy is the original. */
  lemma RoundTrip(f: File, original: Bytes, chunkSize: int, retries: int, now: File, reached: nat, copy: Bytes)
    requires UploadLeaves(f, original, chunkSize, retries, 0, now) && Sends(original, chunkSize, retries, 0)
    requires DownloadLeaves(Base(now), [], 0, reached, copy) && reached >= |Base(now)|
    ensures copy == original
  {
  }
}
