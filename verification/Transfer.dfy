/** Chunked upload of a host file to a file on the target, with retries, lost
    replies, partial writes and the cap on a frame. The network, DOS and the
    compressor are oracles. */
module Transfer {
  import opened CTypes
  import opened Wrappers
  import Base64
  import Frame

  type Bytes = seq<uint8>
  /** The file at the remote path, if there is one. */
  type File = Option<Bytes>

  const INFLATED_MAX: int := 128 * 1024 * 1024

  // ---- file contents ----

  function Base(f: File): Bytes {
    if f.Some? then f.value else []
  }

  /** The bytes d written over f at an offset within it. */
  function Overlay(f: Bytes, offset: nat, d: Bytes): Bytes
    requires offset <= |f|
  {
    f[..offset] + d + f[Min(offset + |d|, |f|)..]
  }

  /** Writing part of d first makes no difference to writing all of it. */
  lemma OverlayAgain(f: Bytes, offset: nat, d: Bytes, k: nat)
    requires offset <= |f| && k <= |d|
    ensures offset <= |Overlay(f, offset, d[..k])|
    ensures Overlay(Overlay(f, offset, d[..k]), offset, d) == Overlay(f, offset, d)
  {
  }

  lemma OverlayNext(f: Bytes, offset: nat, a: Bytes, b: Bytes)
    requires offset <= |f|
    ensures offset + |a| <= |Overlay(f, offset, a)|
    ensures Overlay(Overlay(f, offset, a), offset + |a|, b) == Overlay(f, offset, a + b)
  {
  }

  // ---- what fits in a frame ----

  /** The bytes of a request or reply around the base64 text it carries. */
  type Envelope = e: nat | e > 0 witness 1

  const DEFAULT_CHUNK: int := 24 * 1024 * 1024

  predicate Fits(n: nat, envelope: Envelope) {
    Base64.EncodedSize(n) + envelope <= Frame.MAX_PAYLOAD
  }

  /** The most bytes that one request or reply can carry. */
  function Largest(envelope: Envelope): int {
    3 * ((Frame.MAX_PAYLOAD - envelope) / 4)
  }

  lemma FitsIff(n: nat, envelope: Envelope)
    ensures Fits(n, envelope) <==> n <= Largest(envelope)
    ensures Largest(envelope) == 3 * ((33554432 - envelope) / 4)
  {
    Base64.EncodedSizeIs(n);
  }

  /** The base64 text of a whole default chunk fills the frame, so no such
      chunk can be sent or read in one piece, however short the envelope. */
  lemma DefaultChunkNeverFits(envelope: Envelope)
    ensures DEFAULT_CHUNK == 25165824 && Base64.EncodedSize(DEFAULT_CHUNK) == Frame.MAX_PAYLOAD == 33554432
    ensures Largest(envelope) < DEFAULT_CHUNK && !Fits(DEFAULT_CHUNK, envelope)
  {
    Base64.EncodedSizeIs(DEFAULT_CHUNK);
  }

  // ---- the compressor ----

  /** zlib: inflating into a buffer of the given size. */
  datatype Zlib = Zlib(deflate: Bytes -> Bytes, inflate: (Bytes, nat) -> Option<Bytes>)
  {
    /** What the library promises of a stream it made itself. */
    ghost predicate Sound() {
      forall b {:trigger deflate(b)} :: b != [] ==> |deflate(b)| > 0 && inflate(deflate(b), |b|) == Some(b)
    }
  }

  datatype Compression = Never | Always | Auto

  // ---- fs.write_chunk ----

  /** A stated size of the inflated chunk; 0 would state none. */
  type RawSize = x: nat | x > 0 witness 1

  /** What happens to one request. The write may stop after a prefix, and a
      finished one may go unreported. */
  datatype Attempt =
    | Undelivered
    | OpenFails
    | Writes(cut: Option<nat>, replied: bool)

  const CLEAN: Attempt := Writes(None, true)

  /** Of every retries+1 requests in a row, one goes through. */
  ghost predicate Fair(plan: nat -> Attempt, retries: int) {
    forall c: nat :: OneClean(plan, c, retries)
  }

  ghost predicate OneClean(plan: nat -> Attempt, c: nat, retries: int) {
    exists k: nat :: c <= k <= c + retries && plan(k) == CLEAN
  }

  /** The offset can be sought. */
  predicate Writable(f: File, offset: int) {
    0 <= offset && (offset == 0 || offset <= |Base(f)|)
  }

  /** Where the first k bytes of a chunk land. */
  function Landed(f: File, offset: nat, raw: Bytes, k: nat): File
    requires k <= |raw| && (offset == 0 || offset <= |Base(f)|)
  {
    Some(if offset == 0 then raw[..k] else Overlay(Base(f), offset, raw[..k]))
  }

  /** The states that failed attempts to write a chunk can leave. */
  ghost predicate Tried(f: File, offset: nat, raw: Bytes, now: File) {
    || now == f
    || (offset > 0 && now == Some(Base(f)))
    || PartLanded(f, offset, raw, now)
  }

  ghost predicate PartLanded(f: File, offset: nat, raw: Bytes, now: File) {
    (offset == 0 || offset <= |Base(f)|) && exists k :: 0 <= k <= |raw| && now == Landed(f, offset, raw, k)
  }

  /** Writing to what failed attempts left is like writing to the original. */
  lemma LandsTheSame(f: File, offset: nat, raw: Bytes, now: File, k: nat)
    requires Tried(f, offset, raw, now) && k <= |raw|
    requires offset == 0 || offset <= |Base(now)|
    ensures offset == 0 || offset <= |Base(f)|
    ensures Landed(now, offset, raw, |raw|) == Landed(f, offset, raw, |raw|)
    ensures PartLanded(f, offset, raw, Landed(now, offset, raw, k))
  {
    assert raw[..|raw|] == raw;
    if offset > 0 && PartLanded(f, offset, raw, now) {
      var j :| 0 <= j <= |raw| && now == Landed(f, offset, raw, j);
      OverlayAgain(Base(f), offset, raw, j);
      if j <= k {
        assert raw[..k][..j] == raw[..j];
        OverlayAgain(Base(f), offset, raw[..k], j);
      } else {
        OverlayShorter(Base(f), offset, raw[..j], k);
        assert raw[..j][..k] == raw[..k];
      }
      assert Landed(now, offset, raw, k) in {Landed(f, offset, raw, k), Landed(f, offset, raw, j)};
    } else {
      assert Landed(now, offset, raw, k) == Landed(f, offset, raw, k);
    }
  }

  /** Writing a prefix over a longer write of the same bytes changes nothing. */
  lemma OverlayShorter(f: Bytes, offset: nat, d: Bytes, k: nat)
    requires offset <= |f| && k <= |d|
    ensures offset <= |Overlay(f, offset, d)|
    ensures Overlay(Overlay(f, offset, d), offset, d[..k]) == Overlay(f, offset, d)
  {
  }

  /** The remote file and the daemon that writes it. */
  class Remote {
    var file: File
    var calls: nat
    const plan: nat -> Attempt
    const zlib: Zlib
    const envelope: Envelope

    constructor (file: File, plan: nat -> Attempt, zlib: Zlib, envelope: Envelope)
      ensures this.file == file && this.plan == plan && this.zlib == zlib && this.envelope == envelope && calls == 0
    {
      this.file, this.plan, this.zlib, this.envelope, calls := file, plan, zlib, envelope, 0;
    }

    /** Decodes a chunk: the bytes that the text carries, or an error reply
        if it carries none. */
    method DecodePayload(text: Bytes, rawSize: Option<RawSize>) returns (data: Option<Bytes>)
      ensures forall raw :: Carries(zlib, text, rawSize, raw) <==> data == Some(raw)
    {
      data := Base64.Decode(text);
      if data == None || rawSize == None { return data; }
      if |data.value| == 0 || rawSize.value > INFLATED_MAX { return None; }
      data := zlib.inflate(data.value, rawSize.value);
      if data.Some? && |data.value| != rawSize.value { data := None; }
    }

    /** Opens, seeks and writes the first n bytes. At offset 0 the file is
        made anew; elsewhere it is opened, created if missing, and written in
        place, unless the offset is past its end. */
    method WriteAt(offset: nat, data: Bytes, n: nat) returns (ok: bool)
      requires n <= |data|
      modifies this`file
      ensures ok == (offset == 0 || offset <= |Base(old(file))|)
      ensures file == if ok then Landed(old(file), offset, data, n) else Some(Base(old(file)))
    {
      file := Some(if offset == 0 then [] else Base(file));
      if offset > |file.value| { return false; }
      file := Some(Overlay(file.value, offset, data[..n]));
      assert offset == 0 ==> file.value == data[..n];
      return true;
    }

    /** One chunk, as the host sees it: true if a good reply arrived. Then
        the whole chunk has landed where it belongs; else the file is in a
        state that another attempt mends. */
    method WriteChunk(offset: int, text: Bytes, rawSize: Option<RawSize>, ghost raw: Bytes, ghost f: File)
      returns (ok: bool)
      requires Carries(zlib, text, rawSize, raw) || TooBig(rawSize, raw)
      requires offset >= 0 ==> Tried(f, offset, raw, file)
      modifies this`file, this`calls
      ensures ok ==> offset >= 0 && (offset == 0 || offset <= |Base(f)|) && file == Landed(f, offset, raw, |raw|)
      ensures !ok && offset >= 0 ==> Tried(f, offset, raw, file)
      ensures offset < 0 ==> file == old(file)
      ensures calls == old(calls) + 1
      ensures ok <==> plan(old(calls)) == CLEAN && Writable(old(file), offset)
                      && |text| + envelope <= Frame.MAX_PAYLOAD && !TooBig(rawSize, raw)
    {
      var a := plan(calls);
      calls := calls + 1;
      if |text| + envelope > Frame.MAX_PAYLOAD { return false; }
      if a == Undelivered || offset < 0 { return false; }
      var data := DecodePayload(text, rawSize);
      if data == None || a == OpenFails { return false; }
      var n := if a.cut.Some? && a.cut.value < |data.value| then a.cut.value else |data.value|;
      ok := WriteAt(offset, data.value, n);
      if !ok { return false; }
      LandsTheSame(f, offset, raw, old(file), n);
      return a.cut == None && a.replied;
    }
  }

  /** The text stands for the raw bytes: they are what it encodes, or what
      the stream it encodes inflates to. */
  ghost predicate Carries(z: Zlib, text: Bytes, rawSize: Option<RawSize>, raw: Bytes) {
    if rawSize == None then Base64.DecodeText(text) == Some(raw)
    else
      && Base64.DecodeText(text).Some? && Base64.DecodeText(text).value != []
      && rawSize.value == |raw| <= INFLATED_MAX
      && z.inflate(Base64.DecodeText(text).value, |raw|) == Some(raw)
  }

  /** The stated size is more than the daemon inflates. */
  ghost predicate TooBig(rawSize: Option<RawSize>, raw: Bytes) {
    rawSize == Some(|raw|) && |raw| > 134217728
  }

  function StatedSize(zipped: bool, raw: Bytes): Option<RawSize>
    requires raw != []
  {
    if zipped then Some(|raw|) else None
  }

  /** What the host packs the daemon unpacks, unless it is too big. */
  lemma PackedIsCarried(z: Zlib, payload: Bytes, zipped: bool, raw: Bytes)
    requires Packs(z, payload, zipped, raw)
    ensures Carries(z, Base64.EncodeText(payload), StatedSize(zipped, raw), raw)
       <==> !TooBig(StatedSize(zipped, raw), raw)
  {
    Base64.DecodeEncode(payload);
  }

  // ---- chunked_upload ----

  datatype UploadResult =
    | NoLocalFile
    | Failed(offset: int)
    | Uploaded(total: nat, sent: nat, chunks: nat, compressed: nat)

  /** A read of the local file: a negative size reads all that is left. */
  function ReadLocal(local: Bytes, pos: nat, size: int): Bytes {
    if pos > |local| then []
    else if size < 0 || pos + size > |local| then local[pos..]
    else local[pos..pos + size]
  }

  /** What is to be sent. */
  function Rest(local: Bytes, resume: int): Bytes {
    if resume <= 0 then local else if resume <= |local| then local[resume..] else []
  }

  /** Whether any chunk is sent at all. */
  predicate Sends(local: Bytes, chunkSize: int, retries: int, resume: int) {
    retries >= 0 && chunkSize != 0 && resume < |local| && local != []
  }

  /** The remote file once j bytes are on it. */
  ghost predicate UpTo(f: File, resume: int, rest: Bytes, j: nat, now: File) {
    if j == 0 then now == f
    else resume >= 0 && j <= |rest| && (resume == 0 || resume <= |Base(f)|) && now == Landed(f, resume, rest, j)
  }

  /** Chunk after chunk lands as one write. */
  lemma NextLands(f: File, resume: int, rest: Bytes, j: nat, now: File, raw: Bytes, k: nat)
    requires UpTo(f, resume, rest, j, now) && resume >= 0
    requires j + |raw| <= |rest| && raw == rest[j..j + |raw|] && k <= |raw|
    requires resume + j == 0 || resume + j <= |Base(now)|
    ensures resume == 0 || resume <= |Base(f)|
    ensures Landed(now, resume + j, raw, k) == Landed(f, resume, rest, j + k)
  {
    if j == 0 {
      assert raw[..k] == rest[..k];
    } else {
      assert rest[..j] + raw[..k] == rest[..j + k];
      if resume > 0 {
        OverlayNext(Base(f), resume, rest[..j], raw[..k]);
      } else {
        OverlayAtEnd(rest[..j], raw[..k]);
      }
    }
  }

  lemma OverlayAtEnd(f: Bytes, d: Bytes)
    ensures Overlay(f, |f|, d) == f + d
  {
  }

  /** What a failed upload leaves: nothing new, or a first part of what was
      to be sent that holds at least everything acknowledged. */
  ghost predicate LeftBehind(f: File, resume: int, rest: Bytes, acknowledged: nat, now: File) {
    || (acknowledged == 0 && (now == f || (resume > 0 && now == Some(Base(f)))))
    || exists m :: acknowledged <= m <= |rest| && resume >= 0 && (resume == 0 || resume <= |Base(f)|)
                   && now == Landed(f, resume, rest, m)
  }

  lemma TriedIsLeftBehind(f: File, resume: int, rest: Bytes, j: nat, before: File, raw: Bytes, now: File)
    requires UpTo(f, resume, rest, j, before) && resume >= 0
    requires j + |raw| <= |rest| && raw == rest[j..j + |raw|]
    requires Tried(before, resume + j, raw, now)
    ensures LeftBehind(f, resume, rest, j, now)
  {
    if j > 0 && (now == before || now == Some(Base(before))) {
      assert now == Landed(f, resume, rest, j);
    } else if now != before && !(resume + j > 0 && now == Some(Base(before))) {
      var k :| 0 <= k <= |raw| && now == Landed(before, resume + j, raw, k);
      NextLands(f, resume, rest, j, before, raw, k);
      assert now == Landed(f, resume, rest, j + k);
    }
  }

  /** What is sent for a chunk, before base64. */
  ghost predicate Packs(z: Zlib, payload: Bytes, zipped: bool, raw: Bytes) {
    raw != [] && if zipped then payload != [] && z.inflate(payload, |raw|) == Some(raw) else payload == raw
  }

  /** Whether a chunk is sent compressed. */
  predicate Zips(z: Zlib, raw: Bytes, compression: Compression) {
    match compression
    case Never => false
    case Always => true
    case Auto => |z.deflate(raw)| <= (|raw| as real * 0.95).Floor
  }

  /** The automatic choice compresses where that saves a twentieth. */
  lemma AutoZipsIff(z: Zlib, raw: Bytes)
    ensures Zips(z, raw, Auto) <==> 20 * |z.deflate(raw)| <= 19 * |raw|
    ensures Zips(z, raw, Always) && !Zips(z, raw, Never)
  {
    var most := |raw| as real * 0.95;
    assert 20.0 * most == 19.0 * |raw| as real;
    assert |z.deflate(raw)| as real <= most <==> |z.deflate(raw)| <= most.Floor;
  }

  /** Whether the daemon can be given the chunk at all. */
  predicate Sendable(z: Zlib, envelope: Envelope, raw: Bytes, compression: Compression) {
    if Zips(z, raw, compression) then Fits(|z.deflate(raw)|, envelope) && |raw| <= INFLATED_MAX
    else Fits(|raw|, envelope)
  }

  /** Whether it can be given all chunks of what is left. */
  predicate AllSendable(z: Zlib, envelope: Envelope, rest: Bytes, size: int, compression: Compression)
    decreases |rest|
  {
    if rest == [] || size == 0 then true
    else
      var n := FirstSize(|rest|, size);
      Sendable(z, envelope, rest[..n], compression) && AllSendable(z, envelope, rest[n..], size, compression)
  }

  /** What a chunk takes on the wire before base64. */
  function PayloadSize(z: Zlib, raw: Bytes, compression: Compression): nat {
    if Zips(z, raw, compression) then |z.deflate(raw)| else |raw|
  }

  /** What all chunks of what is left take, and how many are compressed. */
  function PayloadBytes(z: Zlib, rest: Bytes, size: int, compression: Compression): nat
    decreases |rest|
  {
    if rest == [] || size == 0 then 0
    else
      var n := FirstSize(|rest|, size);
      PayloadSize(z, rest[..n], compression) + PayloadBytes(z, rest[n..], size, compression)
  }

  function ZippedChunks(z: Zlib, rest: Bytes, size: int, compression: Compression): nat
    decreases |rest|
  {
    if rest == [] || size == 0 then 0
    else
      var n := FirstSize(|rest|, size);
      (if Zips(z, rest[..n], compression) then 1 else 0) + ZippedChunks(z, rest[n..], size, compression)
  }

  lemma CountsNext(z: Zlib, rest: Bytes, j: nat, raw: Bytes, size: int, compression: Compression)
    requires j < |rest| && size != 0 && j + |raw| <= |rest| && raw == rest[j..j + |raw|]
    requires |raw| == FirstSize(|rest| - j, size)
    ensures TallyOf(z, rest[j..], size, compression)
         == Plus(One(z, raw, compression), TallyOf(z, rest[j + |raw|..], size, compression))
  {
    var now, later := rest[j..], rest[j + |raw|..];
    assert now[..|raw|] == raw && now[|raw|..] == later;
    assert |now| == |rest| - j && |later| == |now| - |raw|;
  }

  /** What an upload reports: chunks, bytes before base64, compressed chunks. */
  datatype Tally = Tally(chunks: nat, sent: nat, zipped: nat)

  function TallyOf(z: Zlib, rest: Bytes, size: int, compression: Compression): Tally {
    Tally(ChunkCount(|rest|, size), PayloadBytes(z, rest, size, compression), ZippedChunks(z, rest, size, compression))
  }

  function Plus(a: Tally, b: Tally): Tally {
    Tally(a.chunks + b.chunks, a.sent + b.sent, a.zipped + b.zipped)
  }

  /** Whether the counts are those of these bytes. */
  ghost predicate Tallies(z: Zlib, rest: Bytes, size: int, compression: Compression, t: Tally) {
    t == TallyOf(z, rest, size, compression)
  }

  /** The counts so far, with j bytes sent, and those of the rest make the
      whole. */
  ghost predicate Counted(z: Zlib, rest: Bytes, j: int, size: int, compression: Compression, t: Tally) {
    && 0 <= j <= |rest|
    && forall more :: Tallies(z, rest[j..], size, compression, more) ==>
                        Tallies(z, rest, size, compression, Plus(t, more))
  }

  lemma NothingCounted(z: Zlib, rest: Bytes, size: int, compression: Compression)
    ensures Counted(z, rest, 0, size, compression, Tally(0, 0, 0))
  {
    assert rest[0..] == rest;
  }

  lemma AllCounted(z: Zlib, rest: Bytes, j: int, size: int, compression: Compression, t: Tally)
    requires Counted(z, rest, j, size, compression, t) && (size == 0 || j == |rest|)
    ensures t == TallyOf(z, rest, size, compression)
  {
    assert Tallies(z, rest[j..], size, compression, Tally(0, 0, 0));
  }

  /** The next n bytes are a chunk, and what it adds. */
  ghost predicate Adds(z: Zlib, rest: Bytes, j: int, n: nat, size: int, compression: Compression, one: Tally) {
    && 0 <= j < |rest| && size != 0 && n == FirstSize(|rest| - j, size)
    && one == One(z, rest[j..j + n], compression)
  }

  lemma CountedNext(z: Zlib, rest: Bytes, j: int, n: nat, size: int, compression: Compression, t: Tally, one: Tally)
    requires Counted(z, rest, j, size, compression, t) && Adds(z, rest, j, n, size, compression, one)
    ensures Counted(z, rest, j + n, size, compression, Plus(t, one))
  {
    forall more | Tallies(z, rest[j + n..], size, compression, more)
      ensures Tallies(z, rest, size, compression, Plus(Plus(t, one), more))
    {
      CountsNext(z, rest, j, rest[j..j + n], size, compression);
      assert Tallies(z, rest[j..], size, compression, Plus(one, more));
      assert Plus(Plus(t, one), more) == Plus(t, Plus(one, more));
    }
  }

  /** What one chunk adds. */
  function One(z: Zlib, raw: Bytes, compression: Compression): Tally {
    Tally(1, PayloadSize(z, raw, compression), if Zips(z, raw, compression) then 1 else 0)
  }

  /** How many of n bytes a read of a given size finds. */
  function FirstSize(n: nat, size: int): (k: nat)
    requires n > 0 && size != 0
    ensures 0 < k <= n
  {
    if size < 0 || size >= n then n else size
  }

  /** Past a chunk that can be sent, the question is about the others. */
  lemma SendableNext(z: Zlib, envelope: Envelope, rest: Bytes, j: nat, raw: Bytes, size: int, compression: Compression)
    requires j < |rest| && size != 0 && j + |raw| <= |rest| && raw == rest[j..j + |raw|]
    requires |raw| == FirstSize(|rest| - j, size)
    ensures AllSendable(z, envelope, rest[j..], size, compression)
       <==> Sendable(z, envelope, raw, compression) && AllSendable(z, envelope, rest[j + |raw|..], size, compression)
  {
    assert rest[j..][..|raw|] == raw && rest[j..][|raw|..] == rest[j + |raw|..];
  }

  /** Unless compression is forced, which can make a chunk longer, chunks
      that fit uncompressed can all be sent. */
  lemma {:induction false} SmallChunksSendable(z: Zlib, envelope: Envelope, rest: Bytes, size: int,
                                               compression: Compression)
    requires compression != Always && 0 <= size <= Largest(envelope)
    ensures AllSendable(z, envelope, rest, size, compression)
    decreases |rest|
  {
    if rest != [] && size > 0 {
      var n := FirstSize(|rest|, size);
      SmallChunkSendable(z, envelope, rest[..n], compression);
      SmallChunksSendable(z, envelope, rest[n..], size, compression);
    }
  }

  lemma SmallChunkSendable(z: Zlib, envelope: Envelope, raw: Bytes, compression: Compression)
    requires compression != Always && |raw| <= Largest(envelope)
    ensures Sendable(z, envelope, raw, compression)
  {
    FitsIff(|raw|, envelope);
    if Zips(z, raw, compression) {
      assert |raw| as real * 0.95 <= |raw| as real;
      FitsIff(|z.deflate(raw)|, envelope);
    }
  }

  /** Uncompressed, all chunks can be sent if and only if the first can. */
  lemma UncompressedSendableIff(z: Zlib, envelope: Envelope, rest: Bytes, size: int)
    requires rest != [] && size != 0
    ensures AllSendable(z, envelope, rest, size, Never) <==> FirstSize(|rest|, size) <= Largest(envelope)
  {
    var n := FirstSize(|rest|, size);
    FitsIff(n, envelope);
    if n <= Largest(envelope) {
      if size > 0 && n == size {
        SmallChunksSendable(z, envelope, rest[n..], size, Never);
      }
    }
  }

  /** At the default chunk size a first chunk that does not compress cannot
      be sent. */
  lemma DefaultUploadStuck(z: Zlib, envelope: Envelope, rest: Bytes, compression: Compression)
    requires |rest| >= DEFAULT_CHUNK && !Zips(z, rest[..DEFAULT_CHUNK], compression)
    ensures !AllSendable(z, envelope, rest, DEFAULT_CHUNK, compression)
  {
    DefaultChunkNeverFits(envelope);
    assert FirstSize(|rest|, DEFAULT_CHUNK) == DEFAULT_CHUNK;
  }

  /** Compresses a chunk where that is decided. */
  method Pack(zlib: Zlib, raw: Bytes, compression: Compression) returns (payload: Bytes, zipped: bool)
    requires zlib.Sound() && raw != []
    ensures zipped == Zips(zlib, raw, compression)
    ensures |payload| == if zipped then |zlib.deflate(raw)| else |raw|
    ensures Packs(zlib, payload, zipped, raw)
  {
    payload, zipped := raw, false;
    match compression {
      case Never =>
      case Always =>
        payload, zipped := zlib.deflate(raw), true;
      case Auto =>
        var cand := zlib.deflate(raw);
        if |cand| <= (|raw| as real * 0.95).Floor { payload, zipped := cand, true; }
    }
  }

  /** Where a handle stands that starts at a possibly negative position. */
  function Start(resume: int): nat {
    if resume > 0 then resume else 0
  }

  /** The attempts at one chunk. With no attempt allowed nothing is sent and
      nothing fails; else it fails exactly if the offset cannot be sought, the
      chunk cannot be carried, or no attempt goes through. */
  method SendChunk(remote: Remote, offset: int, raw: Bytes, payload: Bytes, zipped: bool, retries: int)
    returns (ok: bool)
    requires Packs(remote.zlib, payload, zipped, raw)
    modifies remote`file, remote`calls
    ensures retries < 0 ==> ok && remote.file == old(remote.file)
    ensures retries >= 0 && ok ==> offset >= 0 && (offset == 0 || offset <= |Base(old(remote.file))|)
                                   && remote.file == Landed(old(remote.file), offset, raw, |raw|)
    ensures !ok && offset >= 0 ==> Tried(old(remote.file), offset, raw, remote.file)
    ensures offset < 0 ==> remote.file == old(remote.file)
    ensures retries >= 0 ==> (ok <==> Writable(old(remote.file), offset)
                                      && Carried(remote.envelope, |payload|, zipped, raw)
                                      && OneClean(remote.plan, old(remote.calls), retries))
    ensures !ok ==> remote.calls == old(remote.calls) + retries + 1
  {
    var text := Base64.EncodeText(payload);
    ghost var f, c := remote.file, remote.calls;
    PackedIsCarried(remote.zlib, payload, zipped, raw);
    Base64.EncodedLength(payload);
    ok := true;
    var attempt := 0;
    while attempt < retries + 1
      invariant attempt >= 0 && (attempt > 0 ==> retries >= 0)
      invariant attempt == 0 ==> ok && remote.file == f
      invariant attempt > 0 ==> !ok
      invariant offset >= 0 ==> Tried(f, offset, raw, remote.file)
      invariant offset < 0 ==> remote.file == f
      invariant remote.calls == c + attempt && attempt <= Start(retries + 1)
      invariant Writable(f, offset) && Carried(remote.envelope, |payload|, zipped, raw) ==>
                  AllFailed(remote.plan, c, attempt)
      decreases retries - attempt
    {
      TriedStaysWritable(f, offset, raw, remote.file);
      ok := remote.WriteChunk(offset, text, StatedSize(zipped, raw), raw, f);
      if ok {
        assert OneClean(remote.plan, c, retries);
        break;
      }
      attempt := attempt + 1;
    }
  }

  /** The request fits in a frame, and the chunk in the daemon. */
  ghost predicate Carried(envelope: Envelope, size: nat, zipped: bool, raw: Bytes) {
    Fits(size, envelope) && (zipped ==> |raw| <= INFLATED_MAX)
  }

  ghost predicate AllFailed(plan: nat -> Attempt, c: nat, n: nat) {
    forall k: nat :: c <= k < c + n ==> plan(k) != CLEAN
  }

  lemma TriedStaysWritable(f: File, offset: int, raw: Bytes, now: File)
    ensures offset >= 0 && Tried(f, offset, raw, now) ==> (Writable(f, offset) <==> Writable(now, offset))
  {
  }

  /** The number of reads of a given size that find something. */
  function ChunkCount(n: nat, size: int): nat
    decreases n
  {
    if n == 0 || size == 0 then 0
    else if size < 0 || size >= n then 1
    else 1 + ChunkCount(n - size, size)
  }

  /** The remote file after an upload that returns: everything that was to
      be sent is on it, or nothing was to be sent and it is as it was. */
  ghost predicate UploadLeaves(f: File, local: Bytes, chunkSize: int, retries: int, resume: int, now: File) {
    if Sends(local, chunkSize, retries, resume)
    then resume >= 0 && UpTo(f, resume, Rest(local, resume), |local| - resume, now)
    else now == f
  }

  /** The state between two chunks, with j bytes done. */
  ghost predicate Progress(f: File, local: Bytes, chunkSize: int, retries: int, resume: int, j: nat, now: File) {
    && j <= |Rest(local, resume)| && (chunkSize == 0 ==> j == 0)
    && if retries >= 0 then UpTo(f, resume, Rest(local, resume), j, now) else now == f
  }

  lemma NothingLeft(f: File, local: Bytes, chunkSize: int, retries: int, resume: int, j: nat, now: File)
    requires Progress(f, local, chunkSize, retries, resume, j, now)
    requires chunkSize == 0 || j == |Rest(local, resume)|
    ensures UploadLeaves(f, local, chunkSize, retries, resume, now)
  {
  }

  lemma ChunkSent(f: File, local: Bytes, chunkSize: int, retries: int, resume: int, j: nat, before: File,
                  raw: Bytes, now: File)
    requires Progress(f, local, chunkSize, retries, resume, j, before) && chunkSize != 0 && raw != []
    requires PieceAt(local, resume, j, raw)
    requires var offset := resume + j;
             if retries < 0 then now == before
             else offset >= 0 && (offset == 0 || offset <= |Base(before)|) && now == Landed(before, offset, raw, |raw|)
    ensures Progress(f, local, chunkSize, retries, resume, j + |raw|, now)
  {
    if retries >= 0 { NextLands(f, resume, Rest(local, resume), j, before, raw, |raw|); }
  }

  lemma ChunkFailed(f: File, local: Bytes, chunkSize: int, retries: int, resume: int, j: nat, before: File,
                    raw: Bytes, now: File)
    requires Progress(f, local, chunkSize, retries, resume, j, before) && retries >= 0
    requires PieceAt(local, resume, j, raw)
    requires if resume + j < 0 then now == before else Tried(before, resume + j, raw, now)
    ensures LeftBehind(f, resume, Rest(local, resume), j, now)
  {
    if resume >= 0 { TriedIsLeftBehind(f, resume, Rest(local, resume), j, before, raw, now); }
  }

  /** The j-th byte of what is left starts the piece raw. */
  ghost predicate PieceAt(local: Bytes, resume: int, j: int, raw: Bytes) {
    0 <= j && j + |raw| <= |Rest(local, resume)| && raw == Rest(local, resume)[j..j + |raw|]
  }

  /** A read at the running position finds the next piece of what is left. */
  method ReadChunk(local: Bytes, pos: nat, size: int, ghost resume: int, ghost j: nat) returns (raw: Bytes)
    requires j <= |Rest(local, resume)| && pos == Start(resume) + j
    ensures PieceAt(local, resume, j, raw)
    ensures raw == [] <==> size == 0 || j == |Rest(local, resume)|
    ensures raw != [] ==> |raw| == FirstSize(|Rest(local, resume)| - j, size)
  {
    raw := ReadLocal(local, pos, size);
  }

  lemma ProgressIsWritable(f: File, local: Bytes, chunkSize: int, retries: int, resume: int, j: nat, now: File)
    requires Progress(f, local, chunkSize, retries, resume, j, now) && retries >= 0
    ensures Writable(f, resume) <==> Writable(now, resume + j)
  {
  }

  /** The offset can be sought and every chunk can be carried. */
  ghost predicate Possible(z: Zlib, envelope: Envelope, f: File, local: Bytes, chunkSize: int, compression: Compression,
                           resume: int) {
    Writable(f, resume) && AllSendable(z, envelope, Rest(local, resume), chunkSize, compression)
  }

  /** The state between two chunks, with all chunks so far found sendable. */
  ghost predicate Underway(z: Zlib, envelope: Envelope, f: File, local: Bytes, chunkSize: int, compression: Compression,
                           retries: int, resume: int, j: int, now: File) {
    && 0 <= j <= |Rest(local, resume)|
    && forall k :: j <= k <= j ==> UnderwayAt(z, envelope, f, local, chunkSize, compression, retries, resume, k, now)
  }

  ghost predicate UnderwayAt(z: Zlib, envelope: Envelope, f: File, local: Bytes, chunkSize: int,
                             compression: Compression, retries: int, resume: int, j: int, now: File) {
    && 0 <= j && Progress(f, local, chunkSize, retries, resume, j, now)
    && (retries >= 0 ==> SameAnswer(z, envelope, Rest(local, resume), j, chunkSize, compression))
  }

  ghost predicate Answers(z: Zlib, envelope: Envelope, rest: Bytes, size: int, compression: Compression, yes: bool) {
    AllSendable(z, envelope, rest, size, compression) == yes
  }

  /** All chunks can be sent if and only if all from the j-th byte on can. */
  ghost predicate SameAnswer(z: Zlib, envelope: Envelope, rest: Bytes, j: int, size: int, compression: Compression) {
    && 0 <= j <= |rest|
    && forall yes :: Answers(z, envelope, rest[j..], size, compression, yes) ==>
                       Answers(z, envelope, rest, size, compression, yes)
  }

  lemma SameAnswerIff(z: Zlib, envelope: Envelope, rest: Bytes, j: int, size: int, compression: Compression)
    requires SameAnswer(z, envelope, rest, j, size, compression)
    ensures AllSendable(z, envelope, rest, size, compression) == AllSendable(z, envelope, rest[j..], size, compression)
  {
    assert Answers(z, envelope, rest[j..], size, compression, AllSendable(z, envelope, rest[j..], size, compression));
  }

  lemma UnderwayIs(z: Zlib, envelope: Envelope, f: File, local: Bytes, chunkSize: int, compression: Compression,
                   retries: int, resume: int, j: int, now: File)
    requires Underway(z, envelope, f, local, chunkSize, compression, retries, resume, j, now)
    ensures UnderwayAt(z, envelope, f, local, chunkSize, compression, retries, resume, j, now)
  {
  }

  lemma UnderwayAtStart(z: Zlib, envelope: Envelope, f: File, local: Bytes, chunkSize: int, compression: Compression,
                        retries: int, resume: int)
    ensures Underway(z, envelope, f, local, chunkSize, compression, retries, resume, 0, f)
  {
    assert Rest(local, resume)[0..] == Rest(local, resume);
  }

  lemma UnderwayNext(z: Zlib, envelope: Envelope, f: File, local: Bytes, chunkSize: int, compression: Compression,
                     retries: int, resume: int, j: nat, before: File, raw: Bytes, now: File)
    requires Underway(z, envelope, f, local, chunkSize, compression, retries, resume, j, before)
    requires raw != [] && chunkSize != 0 && PieceAt(local, resume, j, raw)
    requires |raw| == FirstSize(|Rest(local, resume)| - j, chunkSize)
    requires Progress(f, local, chunkSize, retries, resume, j + |raw|, now)
    requires retries >= 0 ==> Sendable(z, envelope, raw, compression)
    ensures Underway(z, envelope, f, local, chunkSize, compression, retries, resume, j + |raw|, now)
  {
    UnderwayIs(z, envelope, f, local, chunkSize, compression, retries, resume, j, before);
    if retries >= 0 { SameAnswerNext(z, envelope, Rest(local, resume), j, raw, chunkSize, compression); }
  }

  lemma SameAnswerNext(z: Zlib, envelope: Envelope, rest: Bytes, j: nat, raw: Bytes, size: int, compression: Compression)
    requires SameAnswer(z, envelope, rest, j, size, compression) && Sendable(z, envelope, raw, compression)
    requires j < |rest| && size != 0 && j + |raw| <= |rest| && raw == rest[j..j + |raw|]
    requires |raw| == FirstSize(|rest| - j, size)
    ensures SameAnswer(z, envelope, rest, j + |raw|, size, compression)
  {
    SendableNext(z, envelope, rest, j, raw, size, compression);
    SameAnswerIff(z, envelope, rest, j, size, compression);
  }

  lemma UnderwayStuck(z: Zlib, envelope: Envelope, f: File, local: Bytes, chunkSize: int, compression: Compression,
                      retries: int, resume: int, j: nat, now: File, raw: Bytes)
    requires Underway(z, envelope, f, local, chunkSize, compression, retries, resume, j, now) && retries >= 0
    requires raw != [] && chunkSize != 0 && PieceAt(local, resume, j, raw)
    requires |raw| == FirstSize(|Rest(local, resume)| - j, chunkSize)
    requires !(Writable(f, resume) && Sendable(z, envelope, raw, compression))
    ensures !Possible(z, envelope, f, local, chunkSize, compression, resume)
  {
    UnderwayIs(z, envelope, f, local, chunkSize, compression, retries, resume, j, now);
    SendableNext(z, envelope, Rest(local, resume), j, raw, chunkSize, compression);
    if retries >= 0 { SameAnswerIff(z, envelope, Rest(local, resume), j, chunkSize, compression); }
  }

  lemma UnderwayAtEnd(z: Zlib, envelope: Envelope, f: File, local: Bytes, chunkSize: int, compression: Compression,
                      retries: int, resume: int, j: nat, now: File)
    requires Underway(z, envelope, f, local, chunkSize, compression, retries, resume, j, now)
    requires chunkSize == 0 || j == |Rest(local, resume)|
    ensures UploadLeaves(f, local, chunkSize, retries, resume, now)
    ensures Sends(local, chunkSize, retries, resume) ==> Possible(z, envelope, f, local, chunkSize, compression, resume)
  {
    UnderwayIs(z, envelope, f, local, chunkSize, compression, retries, resume, j, now);
    NothingLeft(f, local, chunkSize, retries, resume, j, now);
    if retries >= 0 { SameAnswerIff(z, envelope, Rest(local, resume), j, chunkSize, compression); }
  }

  /** Compresses and sends one chunk. */
  method PackAndSend(remote: Remote, offset: int, raw: Bytes, compression: Compression, retries: int)
    returns (ok: bool, sent: nat, zipped: bool)
    requires remote.zlib.Sound() && raw != []
    modifies remote`file, remote`calls
    ensures retries < 0 ==> ok && remote.file == old(remote.file)
    ensures retries >= 0 && ok ==> offset >= 0 && (offset == 0 || offset <= |Base(old(remote.file))|)
                                   && remote.file == Landed(old(remote.file), offset, raw, |raw|)
    ensures !ok && offset >= 0 ==> Tried(old(remote.file), offset, raw, remote.file)
    ensures offset < 0 ==> remote.file == old(remote.file)
    ensures retries >= 0 ==> (ok <==> Writable(old(remote.file), offset)
                                      && Sendable(remote.zlib, remote.envelope, raw, compression)
                                      && OneClean(remote.plan, old(remote.calls), retries))
    ensures sent == PayloadSize(remote.zlib, raw, compression) && zipped == Zips(remote.zlib, raw, compression)
  {
    var payload, zip := Pack(remote.zlib, raw, compression);
    ok := SendChunk(remote, offset, raw, payload, zip, retries);
    sent, zipped := |payload|, zip;
  }

  /** The chunk after j bytes has failed: if an attempt at it went through,
      the upload could not have succeeded. */
  ghost predicate Stopped(z: Zlib, envelope: Envelope, f: File, local: Bytes, chunkSize: int, compression: Compression,
                          retries: int, resume: int, j: int, now: File, fair: bool) {
    && j >= 0 && Sends(local, chunkSize, retries, resume) && LeftBehind(f, resume, Rest(local, resume), j, now)
    && (fair ==> !Possible(z, envelope, f, local, chunkSize, compression, resume))
  }

  lemma StoppedHere(z: Zlib, envelope: Envelope, f: File, local: Bytes, chunkSize: int, compression: Compression,
                    retries: int, resume: int, j: int, now: File, raw: Bytes, fair: bool)
    requires PieceAt(local, resume, j, raw) && raw != [] && chunkSize != 0 && retries >= 0
    requires LeftBehind(f, resume, Rest(local, resume), j, now)
    requires fair ==> !Possible(z, envelope, f, local, chunkSize, compression, resume)
    ensures Stopped(z, envelope, f, local, chunkSize, compression, retries, resume, j, now, fair)
  {
  }

  lemma PieceAdds(z: Zlib, local: Bytes, resume: int, j: int, raw: Bytes, size: int, compression: Compression)
    requires PieceAt(local, resume, j, raw) && raw != [] && size != 0
    requires |raw| == FirstSize(|Rest(local, resume)| - j, size)
    ensures Adds(z, Rest(local, resume), j, |raw|, size, compression, One(z, raw, compression))
  {
  }

  /** One chunk that has been read: on to the next, or the upload fails. */
  method UploadChunk(remote: Remote, offset: int, raw: Bytes, compression: Compression, retries: int,
                     ghost f: File, ghost local: Bytes, ghost chunkSize: int, ghost resume: int)
    returns (ok: bool, one: Tally)
    requires remote.zlib.Sound() && raw != [] && chunkSize != 0 && offset >= resume
    requires Underway(remote.zlib, remote.envelope, f, local, chunkSize, compression, retries, resume, offset - resume,
                      remote.file)
    requires PieceAt(local, resume, offset - resume, raw)
    requires |raw| == FirstSize(|Rest(local, resume)| - (offset - resume), chunkSize)
    modifies remote`file, remote`calls
    ensures ok ==> Underway(remote.zlib, remote.envelope, f, local, chunkSize, compression, retries, resume,
                            offset - resume + |raw|, remote.file)
    ensures !ok ==> Stopped(remote.zlib, remote.envelope, f, local, chunkSize, compression, retries, resume,
                            offset - resume, remote.file, OneClean(remote.plan, old(remote.calls), retries))
    ensures one == One(remote.zlib, raw, compression)
  {
    ghost var z, e, j, before := remote.zlib, remote.envelope, offset - resume, remote.file;
    UnderwayIs(z, e, f, local, chunkSize, compression, retries, resume, j, before);
    if retries >= 0 { ProgressIsWritable(f, local, chunkSize, retries, resume, j, before); }
    var sent, zipped;
    ok, sent, zipped := PackAndSend(remote, offset, raw, compression, retries);
    one := Tally(1, sent, if zipped then 1 else 0);
    if ok {
      ChunkSent(f, local, chunkSize, retries, resume, j, before, raw, remote.file);
      UnderwayNext(z, e, f, local, chunkSize, compression, retries, resume, j, before, raw, remote.file);
    } else {
      ChunkFailed(f, local, chunkSize, retries, resume, j, before, raw, remote.file);
      ghost var clean := OneClean(remote.plan, old(remote.calls), retries);
      if clean { UnderwayStuck(z, e, f, local, chunkSize, compression, retries, resume, j, before, raw); }
      StoppedHere(z, e, f, local, chunkSize, compression, retries, resume, j, remote.file, raw, clean);
    }
  }

  /** One turn: reads and sends a chunk, if any bytes are left, and says what
      it adds to the counts. */
  method SendNext(local: Bytes, remote: Remote, pos: nat, offset: int, chunkSize: int, compression: Compression,
                  retries: int, ghost f: File, ghost resume: int)
    returns (ok: bool, n: nat, one: Tally)
    requires remote.zlib.Sound() && offset >= resume && pos == Start(resume) + (offset - resume)
    requires Underway(remote.zlib, remote.envelope, f, local, chunkSize, compression, retries, resume, offset - resume,
                      remote.file)
    modifies remote`file, remote`calls
    ensures ok ==> Underway(remote.zlib, remote.envelope, f, local, chunkSize, compression, retries, resume,
                            offset - resume + n, remote.file)
    ensures n == 0 ==> ok && (chunkSize == 0 || offset - resume == |Rest(local, resume)|)
    ensures n > 0 ==> Adds(remote.zlib, Rest(local, resume), offset - resume, n, chunkSize, compression, one)
    ensures !ok ==> Stopped(remote.zlib, remote.envelope, f, local, chunkSize, compression, retries, resume,
                            offset - resume, remote.file, OneClean(remote.plan, old(remote.calls), retries))
  {
    var raw := ReadChunk(local, pos, chunkSize, resume, offset - resume);
    n, one := |raw|, Tally(0, 0, 0);
    if n == 0 { return true, n, one; }
    PieceAdds(remote.zlib, local, resume, offset - resume, raw, chunkSize, compression);
    ok, one := UploadChunk(remote, offset, raw, compression, retries, f, local, chunkSize, resume);
  }

  /** Everything has been sent and counted. */
  ghost predicate Done(z: Zlib, envelope: Envelope, f: File, local: Bytes, chunkSize: int, compression: Compression,
                       retries: int, resume: int, now: File, t: Tally) {
    && UploadLeaves(f, local, chunkSize, retries, resume, now)
    && (Sends(local, chunkSize, retries, resume) ==> Possible(z, envelope, f, local, chunkSize, compression, resume))
    && t == TallyOf(z, Rest(local, resume), chunkSize, compression)
  }

  lemma DoneAtEnd(z: Zlib, envelope: Envelope, f: File, local: Bytes, chunkSize: int, compression: Compression,
                  retries: int, resume: int, j: int, now: File, t: Tally)
    requires Underway(z, envelope, f, local, chunkSize, compression, retries, resume, j, now)
    requires Counted(z, Rest(local, resume), j, chunkSize, compression, t)
    requires chunkSize == 0 || j == |Rest(local, resume)|
    ensures Done(z, envelope, f, local, chunkSize, compression, retries, resume, now, t)
  {
    AllCounted(z, Rest(local, resume), j, chunkSize, compression, t);
    UnderwayAtEnd(z, envelope, f, local, chunkSize, compression, retries, resume, j, now);
  }

  lemma StoppedFairly(z: Zlib, envelope: Envelope, f: File, local: Bytes, chunkSize: int, compression: Compression,
                      retries: int, resume: int, j: int, now: File, clean: bool, fair: bool)
    requires Stopped(z, envelope, f, local, chunkSize, compression, retries, resume, j, now, clean) && (fair ==> clean)
    ensures Stopped(z, envelope, f, local, chunkSize, compression, retries, resume, j, now, fair)
  {
  }

  method SendFairly(local: Bytes, remote: Remote, pos: nat, offset: int, chunkSize: int, compression: Compression,
                    retries: int, ghost f: File, ghost resume: int)
    returns (ok: bool, n: nat, one: Tally)
    requires remote.zlib.Sound() && offset >= resume && pos == Start(resume) + (offset - resume)
    requires Underway(remote.zlib, remote.envelope, f, local, chunkSize, compression, retries, resume, offset - resume,
                      remote.file)
    modifies remote`file, remote`calls
    ensures ok ==> Underway(remote.zlib, remote.envelope, f, local, chunkSize, compression, retries, resume,
                            offset - resume + n, remote.file)
    ensures n == 0 ==> ok && (chunkSize == 0 || offset - resume == |Rest(local, resume)|)
    ensures n > 0 ==> Adds(remote.zlib, Rest(local, resume), offset - resume, n, chunkSize, compression, one)
    ensures !ok ==> Stopped(remote.zlib, remote.envelope, f, local, chunkSize, compression, retries, resume,
                            offset - resume, remote.file, Fair(remote.plan, retries))
  {
    ghost var clean := OneClean(remote.plan, remote.calls, retries);
    ok, n, one := SendNext(local, remote, pos, offset, chunkSize, compression, retries, f, resume);
    if !ok {
      StoppedFairly(remote.zlib, remote.envelope, f, local, chunkSize, compression, retries, resume, offset - resume,
                    remote.file, clean, Fair(remote.plan, retries));
    }
  }

  /** Reads, sends and counts chunk after chunk, to the end or to a failure. */
  method SendChunks(local: Bytes, remote: Remote, chunkSize: int, compression: Compression, retries: int, resume: int)
    returns (failedAt: Option<int>, t: Tally)
    requires remote.zlib.Sound()
    modifies remote`file, remote`calls
    ensures match failedAt
            case None => Done(remote.zlib, remote.envelope, old(remote.file), local, chunkSize, compression, retries,
                              resume, remote.file, t)
            case Some(at) => Stopped(remote.zlib, remote.envelope, old(remote.file), local, chunkSize, compression,
                                     retries, resume, at - resume, remote.file, Fair(remote.plan, retries))
  {
    ghost var f, z, e, rest := remote.file, remote.zlib, remote.envelope, Rest(local, resume);
    t := Tally(0, 0, 0);
    var pos, offset := Start(resume), resume;
    NothingCounted(z, rest, chunkSize, compression);
    UnderwayAtStart(z, e, f, local, chunkSize, compression, retries, resume);
    while true
      invariant offset >= resume && pos == Start(resume) + (offset - resume)
      invariant Underway(z, e, f, local, chunkSize, compression, retries, resume, offset - resume, remote.file)
      invariant Counted(z, rest, offset - resume, chunkSize, compression, t)
      decreases |rest| - (offset - resume)
    {
      var ok, n, one := SendFairly(local, remote, pos, offset, chunkSize, compression, retries, f, resume);
      if !ok { return Some(offset), t; }
      if n == 0 { break; }
      CountedNext(z, rest, offset - resume, n, chunkSize, compression, t, one);
      t := Plus(t, one);
      offset, pos := offset + n, pos + n;
    }
    DoneAtEnd(z, e, f, local, chunkSize, compression, retries, resume, offset - resume, remote.file, t);
    failedAt := None;
  }

  /** Sends a host file. If every chunk gets an attempt that goes through, it
      fails exactly if it cannot succeed: the offset cannot be sought, or some
      chunk does not fit in a frame or in the daemon. */
  method ChunkedUpload(localFile: File, remote: Remote, chunkSize: int, compression: Compression,
                       retries: int, resume: int)
    returns (r: UploadResult)
    requires remote.zlib.Sound()
    modifies remote`file, remote`calls
    ensures r.NoLocalFile? <==> localFile == None
    ensures localFile == None ==> remote.file == old(remote.file)
    ensures r.Uploaded? ==> r.total == |localFile.value|
                            && Tally(r.chunks, r.sent, r.compressed)
                               == TallyOf(remote.zlib, Rest(localFile.value, resume), chunkSize, compression)
    ensures r.Uploaded? ==> UploadLeaves(old(remote.file), localFile.value, chunkSize, retries, resume, remote.file)
    ensures r.Failed? ==> Sends(localFile.value, chunkSize, retries, resume) && r.offset >= resume
                          && LeftBehind(old(remote.file), resume, Rest(localFile.value, resume),
                                        r.offset - resume, remote.file)
    ensures r.Uploaded? && Sends(localFile.value, chunkSize, retries, resume) ==>
              Possible(remote.zlib, remote.envelope, old(remote.file), localFile.value, chunkSize, compression, resume)
    ensures Fair(remote.plan, retries) && localFile.Some? ==>
              (r.Failed? <==> Sends(localFile.value, chunkSize, retries, resume)
                              && !Possible(remote.zlib, remote.envelope, old(remote.file), localFile.value, chunkSize,
                                           compression, resume))
  {
    if localFile == None { return NoLocalFile; }
    var failedAt, t := SendChunks(localFile.value, remote, chunkSize, compression, retries, resume);
    if failedAt.Some? { return Failed(failedAt.value); }
    return Uploaded(|localFile.value|, t.sent, t.chunks, t.zipped);
  }

  // ---- what an upload achieves ----

  /** An upload that returns leaves the files equal exactly when it sent
      something and what was already there is the local file's beginning and
      no longer than it; or it sent nothing and they were equal before. */
  lemma EqualAfterUploadIff(f: File, local: Bytes, chunkSize: int, retries: int, resume: int, now: File)
    requires UploadLeaves(f, local, chunkSize, retries, resume, now)
    ensures now == Some(local) <==>
            if Sends(local, chunkSize, retries, resume)
            then resume == 0 || (|Base(f)| <= |local| && Base(f)[..resume] == local[..resume])
            else f == Some(local)
  {
    if Sends(local, chunkSize, retries, resume) {
      var rest := Rest(local, resume);
      assert rest[..|rest|] == rest;
      if resume > 0 {
        var b := Base(f);
        assert local == local[..resume] + rest;
        assert |now.value| == if |b| >= |local| then |b| else |local|;
        assert now.value[..resume] == b[..resume];
        if |b| <= |local| { assert now.value == b[..resume] + rest; }
      }
    }
  }

  /** After an upload from the start failed at some offset, resuming there
      completes the file. */
  lemma ResumeCompletes(f: File, local: Bytes, failedAt: nat, left: File, chunkSize: int, retries: int, now: File)
    requires 0 < failedAt < |local| && LeftBehind(f, 0, local, failedAt, left)
    requires UploadLeaves(left, local, chunkSize, retries, failedAt, now) && chunkSize != 0 && retries >= 0
    ensures now == Some(local)
  {
    var m :| failedAt <= m <= |local| && left == Landed(f, 0, local, m);
    assert local[..m][..failedAt] == local[..failedAt];
    EqualAfterUploadIff(left, local, chunkSize, retries, failedAt, now);
  }
}
